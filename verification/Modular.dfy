/** Facts about remainders that the timing modules share. */
module Modular {

  lemma ModIs(x: int, q: int, p: int, r: int)
    requires p > 0 && 0 <= r < p && x == q * p + r
    ensures x % p == r
  {
    var d := x / p - q;
    assert (d >= 1 ==> d * p >= p) && (d <= -1 ==> d * p <= -p);
    assert d * p == r - x % p;
  }

  lemma ModShift(x: int, k: int, p: int)
    requires p > 0
    ensures (x + k * p) % p == x % p
  {
    assert x + k * p == (x / p + k) * p + x % p;
    ModIs(x + k * p, x / p + k, p, x % p);
  }

  /** Doubled numbers agree modulo 2h exactly when their difference is a multiple of h. */
  lemma DoubledEqual(a: nat, b: nat, h: nat)
    requires 0 < h
    ensures 2 * a % (2 * h) == 2 * b % (2 * h) <==> (b - a) % h == 0
  {
    var d := b - a;
    var q, r := d / h, d % h;
    var m := 2 * a % (2 * h);
    assert 2 * b == 2 * a + 2 * r + q * (2 * h);
    ModShift(2 * a + 2 * r, q, 2 * h);
    var k := 2 * a / (2 * h);
    assert 2 * a == k * (2 * h) + m;
    if m + 2 * r < 2 * h {
      ModIs(2 * a + 2 * r, k, 2 * h, m + 2 * r);
    } else {
      assert 2 * a + 2 * r == (k + 1) * (2 * h) + (m + 2 * r - 2 * h);
      ModIs(2 * a + 2 * r, k + 1, 2 * h, m + 2 * r - 2 * h);
    }
  }
}
