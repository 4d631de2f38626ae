/** The interval set of file descriptors (src/fdset.c).

    The ordered tree of ert/tree.h is an ordered sequence of ranges here: an element is an
    index, its tree neighbours are the indices beside it, RB_INSERT and RB_NFIND go through
    LowerBound.  The ranges themselves are edited in place, as the source does. */
module FdSets {

  const INT_MAX: int := 0x7fff_ffff

  datatype FdRange = FdRange(lhs: int, rhs: int)

  datatype Outcome = Ok | EEXIST | ENOENT | ENOMEM

  predicate ValidRange(r: FdRange) {
    0 <= r.lhs <= r.rhs <= INT_MAX
  }

  predicate InRange(r: FdRange, fd: int) {
    r.lhs <= fd <= r.rhs
  }

  /** Does the list of ranges hold descriptor fd? */
  predicate Covers(rs: seq<FdRange>, fd: int) {
    exists i :: 0 <= i < |rs| && InRange(rs[i], fd)
  }

  /** Is some descriptor of r held? */
  ghost predicate Meets(rs: seq<FdRange>, r: FdRange) {
    exists fd :: InRange(r, fd) && Covers(rs, fd)
  }

  /** Is every descriptor of r held? */
  ghost predicate Within(rs: seq<FdRange>, r: FdRange) {
    forall fd :: InRange(r, fd) ==> Covers(rs, fd)
  }

  ghost predicate IsUnion(now: seq<FdRange>, was: seq<FdRange>, r: FdRange) {
    forall fd :: Covers(now, fd) <==> Covers(was, fd) || InRange(r, fd)
  }

  ghost predicate IsDifference(now: seq<FdRange>, was: seq<FdRange>, r: FdRange) {
    forall fd :: Covers(now, fd) <==> Covers(was, fd) && !InRange(r, fd)
  }

  /** Sorted, disjoint and non-adjacent: every range is as large as it can be. */
  ghost predicate Canonical(rs: seq<FdRange>) {
    && (forall i :: 0 <= i < |rs| ==> ValidRange(rs[i]))
    && (forall i, j :: 0 <= i < j < |rs| ==> rs[i].rhs + 1 < rs[j].lhs)
  }

  // The range predicates of the source.

  function Rank(a: FdRange, b: FdRange): int {
    if a.lhs != b.lhs then (if a.lhs > b.lhs then 1 else -1)
    else if a.rhs != b.rhs then (if a.rhs > b.rhs then 1 else -1)
    else 0
  }

  function Contains(self: FdRange, other: FdRange): (contained: int)
    requires ValidRange(other)
    ensures contained != 0 <==> forall fd :: InRange(other, fd) ==> InRange(self, fd)
    ensures contained == 1 || contained == 3 ==> self.lhs == other.lhs
    ensures contained == 2 || contained == 3 ==> self.rhs == other.rhs
    ensures contained == 3 <==> self == other
    ensures contained == 1 ==> other.rhs < self.rhs
    ensures contained == 2 ==> self.lhs < other.lhs
    ensures contained == -1 <==> self.lhs < other.lhs && other.rhs < self.rhs
  {
    assert InRange(other, other.lhs) && InRange(other, other.rhs);
    if InRange(self, other.lhs) && InRange(self, other.rhs) then
      var lhs := if self.lhs == other.lhs then 1 else 0;
      var rhs := if self.rhs == other.rhs then 2 else 0;
      if lhs + rhs != 0 then lhs + rhs else -1
    else 0
  }

  predicate LeftOf(self: FdRange, other: FdRange) { other.rhs < self.lhs }

  predicate RightOf(self: FdRange, other: FdRange) { self.rhs < other.lhs }

  predicate LeftNeighbour(self: FdRange, other: FdRange) { self.lhs - 1 == other.rhs }

  predicate RightNeighbour(self: FdRange, other: FdRange) { self.rhs + 1 == other.lhs }

  /** The number of elements ranked below r: where RB_INSERT puts r, and what RB_NFIND finds. */
  function LowerBound(rs: seq<FdRange>, r: FdRange): (at: nat)
    ensures at <= |rs|
    ensures forall i :: 0 <= i < at ==> Rank(rs[i], r) < 0
    ensures at < |rs| ==> Rank(rs[at], r) >= 0
  {
    if |rs| == 0 || Rank(rs[0], r) >= 0 then 0
    else 1 + LowerBound(rs[1..], r)
  }

  // Lemmas about the set a list of ranges stands for.

  lemma CoversSplit(a: seq<FdRange>, b: seq<FdRange>, fd: int)
    ensures Covers(a + b, fd) <==> Covers(a, fd) || Covers(b, fd)
  {
    if Covers(a, fd) {
      var i :| 0 <= i < |a| && InRange(a[i], fd);
      assert (a + b)[i] == a[i];
    }
    if Covers(b, fd) {
      var i :| 0 <= i < |b| && InRange(b[i], fd);
      assert (a + b)[|a| + i] == b[i];
    }
  }

  lemma CoversOne(r: FdRange, fd: int)
    ensures Covers([r], fd) <==> InRange(r, fd)
  {
    assert [r][0] == r;
  }

  lemma CoversMiddle(a: seq<FdRange>, r: FdRange, b: seq<FdRange>, fd: int)
    ensures Covers(a + [r] + b, fd) <==> Covers(a, fd) || InRange(r, fd) || Covers(b, fd)
  {
    CoversSplit(a + [r], b, fd);
    CoversSplit(a, [r], fd);
    CoversOne(r, fd);
  }

  /** A range whose descriptors are all in a canonical list lies inside one of its ranges. */
  lemma ContainedInOneRange(rs: seq<FdRange>, r: FdRange)
    requires Canonical(rs) && ValidRange(r)
    requires Within(rs, r)
    ensures exists i :: 0 <= i < |rs| && rs[i].lhs <= r.lhs && r.rhs <= rs[i].rhs
  {
    assert InRange(r, r.lhs);
    var i :| 0 <= i < |rs| && InRange(rs[i], r.lhs);
    var gap := rs[i].rhs + 1;
    assert !Covers(rs, gap) by {
      assert forall j :: 0 <= j < |rs| && j != i ==> rs[j].rhs < rs[i].lhs || gap < rs[j].lhs;
    }
    assert !InRange(r, gap);
  }

  /** Canonical lists are unique: the list is determined by the set it stands for. */
  lemma {:induction false} CanonicalUnique(a: seq<FdRange>, b: seq<FdRange>)
    requires Canonical(a) && Canonical(b)
    requires forall fd :: Covers(a, fd) <==> Covers(b, fd)
    ensures a == b
    decreases |a|
  {
    if b != [] {
      assert InRange(b[0], b[0].lhs) && Covers(b, b[0].lhs);
    }
    if a != [] {
      assert InRange(a[0], a[0].lhs) && Covers(b, a[0].lhs);
      FirstRange(a, b);
      FirstRange(b, a);
      forall fd ensures Covers(a[1..], fd) <==> Covers(b[1..], fd) {
        assert a == [a[0]] + a[1..] && b == [b[0]] + b[1..];
        CoversSplit([a[0]], a[1..], fd);
        CoversSplit([b[0]], b[1..], fd);
        CoversOne(a[0], fd);
      }
      CanonicalUnique(a[1..], b[1..]);
      assert a == [a[0]] + a[1..] && b == [b[0]] + b[1..];
    }
  }

  lemma FirstRange(a: seq<FdRange>, b: seq<FdRange>)
    requires Canonical(a) && Canonical(b) && a != [] && b != []
    requires forall fd :: Covers(a, fd) <==> Covers(b, fd)
    ensures b[0].lhs <= a[0].lhs && a[0].rhs <= b[0].rhs
  {
    assert InRange(b[0], b[0].lhs);
    assert Covers(a, b[0].lhs);
    var k :| 0 <= k < |a| && InRange(a[k], b[0].lhs);
    assert a[0].lhs <= b[0].lhs;
    forall fd | InRange(a[0], fd) ensures Covers(b, fd) {
      assert InRange(a[0], fd) && Covers(a, fd);
    }
    ContainedInOneRange(b, a[0]);
    var i :| 0 <= i < |b| && b[i].lhs <= a[0].lhs && a[0].rhs <= b[i].rhs;
    assert b[i].lhs <= b[0].lhs;
    assert i == 0;
  }

  /** Removing what was just inserted gives back the very same list of ranges. */
  lemma InsertThenRemove(was: seq<FdRange>, mid: seq<FdRange>, now: seq<FdRange>, r: FdRange)
    requires Canonical(was) && Canonical(now)
    requires !Meets(was, r) && IsUnion(mid, was, r)
    requires IsDifference(now, mid, r)
    ensures Within(mid, r) && now == was
  {
    CanonicalUnique(now, was);
  }

  class FdSet {
    var mRoot: seq<FdRange>

    constructor ()
      ensures mRoot == []
    {
      mRoot := [];
    }

    /** ert_insertFdSetRange: alloc says whether malloc() succeeds. */
    method InsertRange(aRange: FdRange, alloc: bool) returns (rc: Outcome)
      requires Canonical(mRoot) && ValidRange(aRange)
      modifies this
      ensures Canonical(mRoot)
      ensures rc == if !alloc then ENOMEM
                    else if Meets(old(mRoot), aRange) then EEXIST
                    else Ok
      ensures rc != Ok ==> mRoot == old(mRoot)
      ensures rc == Ok ==> IsUnion(mRoot, old(mRoot), aRange)
    {
      if !alloc {
        return ENOMEM;
      }
      var at := LowerBound(mRoot, aRange);
      if at < |mRoot| && Rank(mRoot[at], aRange) == 0 {
        Overlap(mRoot, at, aRange, at, aRange.lhs);
        return EEXIST;
      }
      mRoot := Linked(mRoot, at, aRange);
      if at != 0 && !LeftOf(mRoot[at], mRoot[at - 1]) {
        Overlap(old(mRoot), at, aRange, at - 1, aRange.lhs);
        Unlinked(old(mRoot), at, aRange);
        mRoot := RemoveAt(mRoot, at);
        return EEXIST;
      }
      if at + 1 < |mRoot| && !RightOf(mRoot[at], mRoot[at + 1]) {
        Overlap(old(mRoot), at, aRange, at, old(mRoot)[at].lhs);
        Unlinked(old(mRoot), at, aRange);
        mRoot := RemoveAt(mRoot, at);
        return EEXIST;
      }
      InsertedUnion(old(mRoot), at, aRange);
      MergeNeighbours(at, old(mRoot), aRange);
      return Ok;
    }

    /** The element just linked in at position at merges with the neighbours it touches. */
    method MergeNeighbours(at: nat, ghost was: seq<FdRange>, ghost r: FdRange)
      requires at <= |was| && mRoot == Linked(was, at, r)
      modifies this
      ensures mRoot == Inserted(was, at, r)
    {
      MergeLeftIs(was, at, r);
      var elem := at;
      if elem != 0 && LeftNeighbour(mRoot[elem], mRoot[elem - 1]) {
        mRoot := JoinLeft(mRoot, elem);
        elem := elem - 1;
      }
      MergedRight(was, at, r, at - elem, FdRange(if elem != at then was[elem].lhs else r.lhs, r.rhs), mRoot);
      if elem + 1 < |mRoot| && RightNeighbour(mRoot[elem], mRoot[elem + 1]) {
        mRoot := JoinRight(mRoot, elem);
      }
    }

    /** ert_removeFdSetRange: only a range cut in two needs malloc(). */
    method RemoveRange(aRange: FdRange, alloc: bool) returns (rc: Outcome)
      requires Canonical(mRoot) && ValidRange(aRange)
      modifies this
      ensures Canonical(mRoot)
      ensures rc == if !Within(old(mRoot), aRange) then ENOENT
                    else if Splits(old(mRoot), aRange) && !alloc then ENOMEM
                    else Ok
      ensures rc != Ok ==> mRoot == old(mRoot)
      ensures rc == Ok ==> IsDifference(mRoot, old(mRoot), aRange)
    {
      var elem := Holder(mRoot, aRange);
      HolderExact(mRoot, aRange);
      if elem == -1 {
        return ENOENT;
      }
      CutOne(mRoot, elem, aRange);
      match Contains(mRoot[elem], aRange) {
        case 1 => mRoot := mRoot[elem := mRoot[elem].(lhs := aRange.rhs + 1)];
        case 3 => mRoot := RemoveAt(mRoot, elem);
        case 2 => mRoot := mRoot[elem := mRoot[elem].(rhs := aRange.lhs - 1)];
        case _ =>
          rc := SplitRange(elem, aRange, alloc);
          return rc;
      }
      return Ok;
    }

    /** Keeps what lies left of aRange in the element at elem and inserts what lies right of it. */
    method SplitRange(elem: nat, aRange: FdRange, alloc: bool) returns (rc: Outcome)
      requires Canonical(mRoot) && ValidRange(aRange)
      requires elem < |mRoot| && Contains(mRoot[elem], aRange) == -1
      modifies this
      ensures rc == if alloc then Ok else ENOMEM
      ensures if rc == Ok then Reduced(mRoot, old(mRoot), aRange) else mRoot == old(mRoot)
    {
      var fdRange := mRoot[elem];
      var rhSide := FdRange(aRange.rhs + 1, fdRange.rhs);
      SplitFits(mRoot, elem, aRange);
      mRoot := mRoot[elem := FdRange(fdRange.lhs, aRange.lhs - 1)];
      ghost var cut := mRoot;
      rc := InsertRange(rhSide, alloc);
      if rc != Ok {
        mRoot := mRoot[elem := fdRange];
        return rc;
      }
      SplitDifference(old(mRoot), elem, aRange, cut, mRoot);
    }

    /** ert_invertFdSet: two in-place sweeps, downwards when INT_MAX is held, else upwards. */
    method Invert(alloc: bool) returns (rc: Outcome)
      requires Canonical(mRoot)
      modifies this
      ensures rc == if !alloc && InvertAllocates(old(mRoot)) then ENOMEM else Ok
      ensures mRoot == if rc == Ok then Complement(old(mRoot)) else old(mRoot)
    {
      if mRoot == [] {
        rc := InsertRange(FdRange(0, INT_MAX), alloc);
        if rc == Ok {
          FullIsOneRange(mRoot);
        }
        return rc;
      }
      if mRoot[|mRoot| - 1].rhs == INT_MAX {
        SweepDown();
        return Ok;
      }
      if mRoot[0].lhs != 0 {
        if !alloc {
          return ENOMEM;
        }
        var elem := FdRange(0, mRoot[0].lhs - 1);
        mRoot := Linked(mRoot, LowerBound(mRoot, elem), elem);
        SweepUp(1, old(mRoot));
      } else {
        SweepUp(0, old(mRoot));
      }
      return Ok;
    }

    /** Turns each range into the gap below it, from the last range to the first. */
    method SweepDown()
      requires Canonical(mRoot) && mRoot != [] && mRoot[|mRoot| - 1].rhs == INT_MAX
      modifies this
      ensures mRoot == Complement(old(mRoot))
    {
      ghost var was := mRoot;
      var next := |mRoot| - 1;
      while next >= 0
        invariant -1 <= next < |was| && (next >= 0 ==> SweptDown(mRoot, was, next))
        invariant next == -1 ==> mRoot == Complement(was)
      {
        SweepDownStep(mRoot, was, next);
        if mRoot[next].lhs == 0 {
          mRoot := RemoveAt(mRoot, next);
          next := -1;
        } else {
          var prev := next - 1;
          mRoot := mRoot[next := FdRange(if prev >= 0 then mRoot[prev].rhs + 1 else 0, mRoot[next].lhs - 1)];
          next := prev;
        }
      }
    }

    /** Turns each range into the gap above it, from the range at first to the last one. */
    method SweepUp(first: nat, ghost was: seq<FdRange>)
      requires Canonical(was) && was != [] && was[|was| - 1].rhs != INT_MAX
      requires first == 1 - FirstGap(was)
      requires mRoot == if FirstGap(was) == 0 then [Gap(was, 0)] + was else was
      modifies this
      ensures mRoot == Complement(was)
    {
      SweepUpIs(mRoot, was, first);
      var prev := first;
      while prev < |mRoot|
        invariant 0 <= prev <= |mRoot|
        invariant SweepUpFrom(mRoot, prev) == Complement(was)
      {
        mRoot := mRoot[prev := AboveOf(mRoot, prev)];
        prev := prev + 1;
      }
    }
  }

  /** The gap above element k, read off the element and its successor. */
  function AboveOf(rs: seq<FdRange>, k: nat): FdRange
    requires k < |rs|
  {
    FdRange(rs[k].rhs + 1, if k + 1 < |rs| then rs[k + 1].lhs - 1 else INT_MAX)
  }

  function SweepUpFrom(rs: seq<FdRange>, prev: nat): seq<FdRange>
    requires prev <= |rs|
    decreases |rs| - prev
  {
    if prev == |rs| then rs else SweepUpFrom(rs[prev := AboveOf(rs, prev)], prev + 1)
  }

  /** The gap below range k, or above the last range when k is their number; it may be empty. */
  function Gap(rs: seq<FdRange>, k: nat): FdRange
    requires k <= |rs|
  {
    FdRange(if k == 0 then 0 else rs[k - 1].rhs + 1, if k == |rs| then INT_MAX else rs[k].lhs - 1)
  }

  function FirstGap(rs: seq<FdRange>): nat {
    if rs != [] && rs[0].lhs == 0 then 1 else 0
  }

  function EndGap(rs: seq<FdRange>): nat {
    if rs != [] && rs[|rs| - 1].rhs == INT_MAX then |rs| else |rs| + 1
  }

  function GapsBetween(rs: seq<FdRange>, k: nat, end: nat): (gaps: seq<FdRange>)
    requires k <= end <= |rs| + 1
    ensures |gaps| == end - k
    ensures forall i :: 0 <= i < |gaps| ==> gaps[i] == Gap(rs, k + i)
    decreases end - k
  {
    if k == end then [] else [Gap(rs, k)] + GapsBetween(rs, k + 1, end)
  }

  /** All the non-empty gaps, in order. */
  function Complement(rs: seq<FdRange>): seq<FdRange> {
    GapsBetween(rs, FirstGap(rs), EndGap(rs))
  }

  /** Does inverting need a new element?  Exactly when 0 and INT_MAX are both missing. */
  predicate InvertAllocates(rs: seq<FdRange>) {
    rs == [] || (rs[|rs| - 1].rhs != INT_MAX && rs[0].lhs != 0)
  }

  /** The downward sweep has done the elements above next. */
  ghost predicate SweptDown(now: seq<FdRange>, was: seq<FdRange>, next: nat) {
    && next < |now| == |was|
    && (forall k :: 0 <= k <= next ==> now[k] == was[k])
    && forall k :: next < k < |now| ==> now[k] == Gap(was, k)
  }

  lemma SweepDownStep(now: seq<FdRange>, was: seq<FdRange>, next: nat)
    requires Canonical(was) && SweptDown(now, was, next) && was[|was| - 1].rhs == INT_MAX
    ensures now[next].lhs == 0 ==> RemoveAt(now, next) == Complement(was)
    ensures now[next].lhs != 0 && next > 0 ==>
              SweptDown(now[next := FdRange(now[next - 1].rhs + 1, now[next].lhs - 1)], was, next - 1)
    ensures now[next].lhs != 0 && next == 0 ==> now[0 := FdRange(0, now[0].lhs - 1)] == Complement(was)
  {
  }

  /** The upward sweep has done the elements below prev. */
  ghost predicate SweptUp(now: seq<FdRange>, was: seq<FdRange>, prev: nat) {
    && |now| == |was| + 1 - FirstGap(was)
    && (forall k :: 0 <= k < prev && k < |now| ==> now[k] == Gap(was, FirstGap(was) + k))
    && (forall k :: prev <= k < |now| && 1 <= FirstGap(was) + k ==> now[k] == was[FirstGap(was) + k - 1])
  }

  lemma SweepUpIs(now: seq<FdRange>, was: seq<FdRange>, first: nat)
    requires was != [] && was[|was| - 1].rhs != INT_MAX && first == 1 - FirstGap(was)
    requires now == if FirstGap(was) == 0 then [Gap(was, 0)] + was else was
    ensures SweepUpFrom(now, first) == Complement(was)
  {
    SweepUpRest(now, was, first);
  }

  lemma {:induction false} SweepUpRest(now: seq<FdRange>, was: seq<FdRange>, prev: nat)
    requires was != [] && was[|was| - 1].rhs != INT_MAX
    requires prev <= |now| && 1 <= prev + FirstGap(was) && SweptUp(now, was, prev)
    ensures SweepUpFrom(now, prev) == Complement(was)
    decreases |now| - prev
  {
    if prev < |now| {
      SweepUpRest(now[prev := AboveOf(now, prev)], was, prev + 1);
    }
  }

  lemma FullIsOneRange(rs: seq<FdRange>)
    requires Canonical(rs) && IsUnion(rs, [], FdRange(0, INT_MAX))
    ensures rs == Complement([])
  {
    forall fd ensures Covers([FdRange(0, INT_MAX)], fd) <==> Covers(rs, fd) {
      CoversOne(FdRange(0, INT_MAX), fd);
    }
    CanonicalUnique(rs, [FdRange(0, INT_MAX)]);
  }

  /** An element more is needed exactly when there are more gaps than ranges. */
  lemma InvertAllocatesIff(rs: seq<FdRange>)
    ensures InvertAllocates(rs) <==> |Complement(rs)| > |rs|
  {
  }

  /** Inverting keeps the list canonical ... */
  lemma ComplementCanonical(rs: seq<FdRange>)
    requires Canonical(rs)
    ensures Canonical(Complement(rs))
  {
    var gaps := Complement(rs);
    forall i | 0 <= i < |gaps|
      ensures ValidRange(gaps[i]) && forall j :: i < j < |gaps| ==> gaps[i].rhs + 1 < gaps[j].lhs
    {
      GapValid(rs, FirstGap(rs) + i);
    }
  }

  lemma GapValid(rs: seq<FdRange>, k: nat)
    requires Canonical(rs) && FirstGap(rs) <= k < EndGap(rs)
    ensures ValidRange(Gap(rs, k))
    ensures forall j :: k < j < EndGap(rs) ==> Gap(rs, k).rhs + 1 < Gap(rs, j).lhs
  {
  }

  function RangesBelow(rs: seq<FdRange>, fd: int): (k: nat)
    ensures k <= |rs|
    ensures forall i :: 0 <= i < k ==> rs[i].rhs < fd
    ensures k < |rs| ==> fd <= rs[k].rhs
  {
    if |rs| == 0 || fd <= rs[0].rhs then 0 else 1 + RangesBelow(rs[1..], fd)
  }

  /** ... and its descriptors are exactly those of 0..INT_MAX the list did not hold. */
  lemma ComplementCovers(rs: seq<FdRange>, fd: int)
    requires Canonical(rs)
    ensures Covers(Complement(rs), fd) <==> 0 <= fd <= INT_MAX && !Covers(rs, fd)
  {
    if 0 <= fd <= INT_MAX && !Covers(rs, fd) {
      GapAround(rs, fd);
    }
    if Covers(Complement(rs), fd) {
      GapsOnly(rs, fd);
    }
  }

  lemma CoveredBy(rs: seq<FdRange>, fd: int) returns (i: nat)
    requires Covers(rs, fd)
    ensures i < |rs| && InRange(rs[i], fd)
  {
    i :| 0 <= i < |rs| && InRange(rs[i], fd);
  }

  lemma GapsOnly(rs: seq<FdRange>, fd: int)
    requires Canonical(rs) && Covers(Complement(rs), fd)
    ensures 0 <= fd <= INT_MAX && !Covers(rs, fd)
  {
    var i := CoveredBy(Complement(rs), fd);
    InGap(rs, FirstGap(rs) + i, fd);
  }

  lemma InGap(rs: seq<FdRange>, k: nat, fd: int)
    requires Canonical(rs) && FirstGap(rs) <= k < EndGap(rs) && InRange(Gap(rs, k), fd)
    ensures 0 <= fd <= INT_MAX && !Covers(rs, fd)
  {
    GapFree(rs, k, fd);
  }

  lemma GapAround(rs: seq<FdRange>, fd: int)
    requires Canonical(rs) && 0 <= fd <= INT_MAX && !Covers(rs, fd)
    ensures Covers(Complement(rs), fd)
  {
    var k := RangesBelow(rs, fd);
    assert k < |rs| ==> !InRange(rs[k], fd);
    assert InRange(Complement(rs)[k - FirstGap(rs)], fd);
  }

  lemma GapFree(rs: seq<FdRange>, k: nat, fd: int)
    requires Canonical(rs) && k <= |rs| && InRange(Gap(rs, k), fd)
    ensures !Covers(rs, fd)
  {
    assert forall i :: 0 <= i < k ==> rs[i].rhs < fd;
    assert forall i :: k <= i < |rs| ==> fd < rs[i].lhs;
  }

  /** Inverting twice gives back the very same list of ranges. */
  lemma InvertTwice(rs: seq<FdRange>)
    requires Canonical(rs)
    ensures Complement(Complement(rs)) == rs
  {
    ComplementCanonical(rs);
    ComplementCanonical(Complement(rs));
    forall fd ensures Covers(Complement(Complement(rs)), fd) <==> Covers(rs, fd) {
      ComplementCovers(rs, fd);
      ComplementCovers(Complement(rs), fd);
    }
    CanonicalUnique(Complement(Complement(rs)), rs);
  }

  /** Does removing r leave a piece on both sides of it? */
  ghost predicate Splits(rs: seq<FdRange>, r: FdRange) {
    exists i :: 0 <= i < |rs| && rs[i].lhs < r.lhs && r.rhs < rs[i].rhs
  }

  /** The search of ert_removeFdSetRange: the element RB_NFIND lands on, or else the last one,
      and then the one before it. */
  function Holder(rs: seq<FdRange>, r: FdRange): (elem: int)
    requires ValidRange(r)
    ensures elem == -1 || (0 <= elem < |rs| && Contains(rs[elem], r) != 0)
  {
    if rs == [] then -1
    else
      var at := LowerBound(rs, r);
      var elem := if at == |rs| then at - 1 else at;
      if Contains(rs[elem], r) != 0 then elem
      else if elem != 0 && Contains(rs[elem - 1], r) != 0 then elem - 1
      else -1
  }

  lemma HolderBeside(rs: seq<FdRange>, r: FdRange, i: nat)
    requires Canonical(rs) && ValidRange(r)
    requires i < |rs| && Contains(rs[i], r) != 0
    ensures i == LowerBound(rs, r) || i + 1 == LowerBound(rs, r)
  {
    var at := LowerBound(rs, r);
    assert rs[i].lhs <= r.lhs && r.rhs <= rs[i].rhs by {
      assert InRange(r, r.lhs) && InRange(r, r.rhs);
    }
    assert forall k :: 0 <= k < i ==> rs[k].rhs < rs[i].lhs;
    assert i + 1 < |rs| ==> r.lhs < rs[i + 1].lhs;
  }

  /** On a canonical list the search fails exactly when some descriptor of r is missing. */
  lemma HolderExact(rs: seq<FdRange>, r: FdRange)
    requires Canonical(rs) && ValidRange(r)
    ensures Holder(rs, r) == -1 <==> !Within(rs, r)
  {
    if Holder(rs, r) != -1 {
      CutOne(rs, Holder(rs, r), r);
    }
    if Within(rs, r) {
      HolderFinds(rs, r);
    }
  }

  lemma HolderFinds(rs: seq<FdRange>, r: FdRange)
    requires Canonical(rs) && ValidRange(r) && Within(rs, r)
    ensures Holder(rs, r) != -1
  {
    ContainedInOneRange(rs, r);
    var i: nat :| i < |rs| && rs[i].lhs <= r.lhs && r.rhs <= rs[i].rhs;
    assert InRange(r, r.lhs) && InRange(r, r.rhs) && Contains(rs[i], r) != 0;
    HolderBeside(rs, r, i);
    HolderHits(rs, r, i);
  }

  lemma HolderHits(rs: seq<FdRange>, r: FdRange, i: nat)
    requires ValidRange(r) && i < |rs| && Contains(rs[i], r) != 0
    requires i == LowerBound(rs, r) || i + 1 == LowerBound(rs, r)
    ensures Holder(rs, r) != -1
  {
  }

  lemma CoversUpdate(rs: seq<FdRange>, i: nat, x: FdRange, fd: int)
    requires Canonical(rs) && i < |rs|
    ensures Covers(rs[i := x], fd) <==> (Covers(rs, fd) && !InRange(rs[i], fd)) || InRange(x, fd)
    ensures Covers(RemoveAt(rs, i), fd) <==> Covers(rs, fd) && !InRange(rs[i], fd)
  {
    assert rs[i := x] == rs[..i] + [x] + rs[i + 1..];
    assert rs == rs[..i] + [rs[i]] + rs[i + 1..];
    CoversMiddle(rs[..i], x, rs[i + 1..], fd);
    CoversMiddle(rs[..i], rs[i], rs[i + 1..], fd);
    CoversSplit(rs[..i], rs[i + 1..], fd);
  }

  /** What is left of the range that holds r, for each of the ways r can lie in it. */
  lemma CutOne(rs: seq<FdRange>, i: nat, r: FdRange)
    requires Canonical(rs) && ValidRange(r) && i < |rs| && Contains(rs[i], r) != 0
    ensures Within(rs, r)
    ensures Splits(rs, r) <==> Contains(rs[i], r) == -1
    ensures Contains(rs[i], r) == 1 ==> Reduced(rs[i := rs[i].(lhs := r.rhs + 1)], rs, r)
    ensures Contains(rs[i], r) == 2 ==> Reduced(rs[i := rs[i].(rhs := r.lhs - 1)], rs, r)
    ensures Contains(rs[i], r) == 3 ==> Reduced(RemoveAt(rs, i), rs, r)
  {
    forall fd | InRange(r, fd) ensures Covers(rs, fd) {
      assert InRange(rs[i], fd);
    }
    forall j | 0 <= j < |rs| && rs[j].lhs < r.lhs && r.rhs < rs[j].rhs ensures j == i {
    }
    forall fd
      ensures Contains(rs[i], r) == 1 ==> (Covers(rs[i := rs[i].(lhs := r.rhs + 1)], fd) <==> Covers(rs, fd) && !InRange(r, fd))
      ensures Contains(rs[i], r) == 2 ==> (Covers(rs[i := rs[i].(rhs := r.lhs - 1)], fd) <==> Covers(rs, fd) && !InRange(r, fd))
      ensures Contains(rs[i], r) == 3 ==> (Covers(RemoveAt(rs, i), fd) <==> Covers(rs, fd) && !InRange(r, fd))
    {
      CoversUpdate(rs, i, rs[i].(lhs := r.rhs + 1), fd);
      CoversUpdate(rs, i, rs[i].(rhs := r.lhs - 1), fd);
    }
  }

  ghost predicate Reduced(now: seq<FdRange>, was: seq<FdRange>, r: FdRange) {
    Canonical(now) && IsDifference(now, was, r)
  }

  lemma SplitDifference(was: seq<FdRange>, i: nat, r: FdRange, cut: seq<FdRange>, now: seq<FdRange>)
    requires Canonical(was) && ValidRange(r) && i < |was| && Contains(was[i], r) == -1
    requires cut == was[i := FdRange(was[i].lhs, r.lhs - 1)]
    requires IsUnion(now, cut, FdRange(r.rhs + 1, was[i].rhs))
    ensures IsDifference(now, was, r)
  {
    forall fd ensures Covers(now, fd) <==> Covers(was, fd) && !InRange(r, fd) {
      CoversUpdate(was, i, FdRange(was[i].lhs, r.lhs - 1), fd);
    }
  }

  /** The piece right of r is free for ert_insertFdSetRange() once the range is cut. */
  lemma SplitFits(was: seq<FdRange>, i: nat, r: FdRange)
    requires Canonical(was) && ValidRange(r) && i < |was| && Contains(was[i], r) == -1
    ensures var cut := was[i := FdRange(was[i].lhs, r.lhs - 1)];
            Canonical(cut) && !Meets(cut, FdRange(r.rhs + 1, was[i].rhs))
  {
  }

  /** RB_INSERT at its place, before any neighbour is looked at. */
  function Linked(rs: seq<FdRange>, at: nat, r: FdRange): seq<FdRange>
    requires at <= |rs|
  {
    rs[..at] + [r] + rs[at..]
  }

  function MergeLeft(rs: seq<FdRange>, at: nat): seq<FdRange>
    requires at < |rs|
  {
    if at != 0 && LeftNeighbour(rs[at], rs[at - 1]) then JoinLeft(rs, at) else rs
  }

  function MergeRight(rs: seq<FdRange>, at: nat): seq<FdRange>
    requires at < |rs|
  {
    if at + 1 < |rs| && RightNeighbour(rs[at], rs[at + 1]) then JoinRight(rs, at) else rs
  }

  /** Unlink element at and let its left neighbour take over its right end. */
  function JoinLeft(rs: seq<FdRange>, at: nat): seq<FdRange>
    requires 0 < at < |rs|
  {
    RemoveAt(rs, at)[at - 1 := rs[at - 1].(rhs := rs[at].rhs)]
  }

  /** Unlink element at and let its right neighbour take over its left end. */
  function JoinRight(rs: seq<FdRange>, at: nat): seq<FdRange>
    requires at + 1 < |rs|
  {
    RemoveAt(rs, at)[at := rs[at + 1].(lhs := rs[at].lhs)]
  }

  function RemoveAt(rs: seq<FdRange>, at: nat): seq<FdRange>
    requires at < |rs|
  {
    rs[..at] + rs[at + 1..]
  }

  predicate Fits(rs: seq<FdRange>, at: nat, r: FdRange) {
    && ValidRange(r)
    && at <= |rs|
    && (at != 0 ==> rs[at - 1].rhs < r.lhs)
    && (at < |rs| ==> r.rhs < rs[at].lhs)
  }

  /** How far a range linked in at position at merges: whether to its left and to its right, and into what. */
  function Merged(rs: seq<FdRange>, at: nat, r: FdRange): (m: (nat, nat, FdRange))
    requires at <= |rs|
    ensures m.0 <= at && at + m.1 <= |rs|
  {
    var l := if at != 0 && LeftNeighbour(r, rs[at - 1]) then 1 else 0;
    var n := if at < |rs| && RightNeighbour(r, rs[at]) then 1 else 0;
    (l, n, FdRange(if l == 1 then rs[at - 1].lhs else r.lhs, if n == 1 then rs[at].rhs else r.rhs))
  }

  /** The list once r is linked in at position at and merged with the neighbours it touches. */
  function Inserted(rs: seq<FdRange>, at: nat, r: FdRange): seq<FdRange>
    requires at <= |rs|
  {
    var (l, n, m) := Merged(rs, at, r);
    rs[..at - l] + [m] + rs[at + n..]
  }

  lemma MergedApart(rs: seq<FdRange>, at: nat, r: FdRange)
    requires Canonical(rs) && Fits(rs, at, r)
    ensures var (l, n, m) := Merged(rs, at, r);
            && ValidRange(m)
            && (l < at ==> rs[at - l - 1].rhs + 1 < m.lhs)
            && (at + n < |rs| ==> m.rhs + 1 < rs[at + n].lhs)
  {
  }

  lemma InsertedCanonical(rs: seq<FdRange>, at: nat, r: FdRange)
    requires Canonical(rs) && Fits(rs, at, r)
    ensures Canonical(Inserted(rs, at, r))
  {
    var (l, n, m) := Merged(rs, at, r);
    MergedApart(rs, at, r);
    CanonicalMiddle(rs, at - l, m, at + n, Inserted(rs, at, r));
  }

  lemma CanonicalJoin(a: seq<FdRange>, b: seq<FdRange>)
    requires Canonical(a) && Canonical(b)
    requires a != [] && b != [] ==> a[|a| - 1].rhs + 1 < b[0].lhs
    ensures Canonical(a + b)
  {
    forall i, j | 0 <= i < |a| && 0 <= j < |b| ensures a[i].rhs + 1 < b[j].lhs {
      assert a[i].rhs <= a[|a| - 1].rhs && b[0].lhs <= b[j].lhs;
    }
  }

  lemma CanonicalMiddle(rs: seq<FdRange>, i: nat, m: FdRange, j: nat, now: seq<FdRange>)
    requires Canonical(rs) && ValidRange(m) && i <= j <= |rs| && now == rs[..i] + [m] + rs[j..]
    requires i > 0 ==> rs[i - 1].rhs + 1 < m.lhs
    requires j < |rs| ==> m.rhs + 1 < rs[j].lhs
    ensures Canonical(now)
  {
    CanonicalJoin(rs[..i], [m]);
    CanonicalJoin(rs[..i] + [m], rs[j..]);
  }

  lemma InsertedCovers(rs: seq<FdRange>, at: nat, r: FdRange, fd: int)
    requires Canonical(rs) && Fits(rs, at, r)
    ensures Covers(Inserted(rs, at, r), fd) <==> Covers(rs, fd) || InRange(r, fd)
  {
    var (l, n, m) := Merged(rs, at, r);
    MergedCovers(rs, at, r, fd);
    AroundCovers(rs, at - l, m, at + n, r, fd);
  }

  /** A stretch of the list replaced by one range that holds it and r. */
  lemma AroundCovers(rs: seq<FdRange>, i: nat, m: FdRange, j: nat, r: FdRange, fd: int)
    requires i <= j <= |rs|
    requires InRange(m, fd) <==> Covers(rs[i..j], fd) || InRange(r, fd)
    ensures Covers(rs[..i] + [m] + rs[j..], fd) <==> Covers(rs, fd) || InRange(r, fd)
  {
    CoversMiddle(rs[..i], m, rs[j..], fd);
    CoversThree(rs, i, j, fd);
  }

  lemma CoversThree(rs: seq<FdRange>, i: nat, j: nat, fd: int)
    requires i <= j <= |rs|
    ensures Covers(rs, fd) <==> Covers(rs[..i], fd) || Covers(rs[i..j], fd) || Covers(rs[j..], fd)
  {
    assert rs == rs[..i] + rs[i..j] + rs[j..];
    CoversSplit(rs[..i] + rs[i..j], rs[j..], fd);
    CoversSplit(rs[..i], rs[i..j], fd);
  }

  /** What r merges into holds r and the neighbours that go. */
  lemma MergedCovers(rs: seq<FdRange>, at: nat, r: FdRange, fd: int)
    requires Canonical(rs) && Fits(rs, at, r)
    ensures var (l, n, m) := Merged(rs, at, r); InRange(m, fd) <==> Covers(rs[at - l..at + n], fd) || InRange(r, fd)
  {
    var (l, n, m) := Merged(rs, at, r);
    StretchCovers(rs, at, r, l, n, fd);
  }

  lemma StretchCovers(rs: seq<FdRange>, at: nat, r: FdRange, l: nat, n: nat, fd: int)
    requires ValidRange(r) && l <= at && at + n <= |rs| && l <= 1 && n <= 1
    requires l == 1 ==> LeftNeighbour(r, rs[at - 1]) && ValidRange(rs[at - 1])
    requires n == 1 ==> RightNeighbour(r, rs[at]) && ValidRange(rs[at])
    ensures InRange(FdRange(if l == 1 then rs[at - 1].lhs else r.lhs, if n == 1 then rs[at].rhs else r.rhs), fd)
            <==> Covers(rs[at - l..at + n], fd) || InRange(r, fd)
  {
    var a, b := rs[at - l..at], rs[at..at + n];
    assert (l == 1 ==> a[0] == rs[at - 1]) && (n == 1 ==> b[0] == rs[at]);
    assert rs[at - l..at + n] == a + b;
    JoinedCovers(a, r, b, fd);
  }

  lemma JoinedCovers(a: seq<FdRange>, r: FdRange, b: seq<FdRange>, fd: int)
    requires ValidRange(r) && |a| <= 1 && |b| <= 1
    requires a != [] ==> LeftNeighbour(r, a[0]) && ValidRange(a[0])
    requires b != [] ==> RightNeighbour(r, b[0]) && ValidRange(b[0])
    ensures InRange(FdRange(if a != [] then a[0].lhs else r.lhs, if b != [] then b[0].rhs else r.rhs), fd)
            <==> Covers(a + b, fd) || InRange(r, fd)
  {
    CoversSplit(a, b, fd);
    if a != [] { CoversOne(a[0], fd); }
    if b != [] { CoversOne(b[0], fd); }
  }

  /** A descriptor common to r and a neighbour of its place in the tree. */
  lemma Overlap(rs: seq<FdRange>, at: nat, r: FdRange, i: nat, fd: int)
    requires i < |rs| && InRange(r, fd) && InRange(rs[i], fd)
    ensures Meets(rs, r)
  {
    assert Covers(rs, fd);
  }

  lemma NoOverlap(rs: seq<FdRange>, at: nat, r: FdRange)
    requires Canonical(rs) && Fits(rs, at, r)
    ensures !Meets(rs, r)
  {
  }

  lemma InsertedUnion(rs: seq<FdRange>, at: nat, r: FdRange)
    requires Canonical(rs) && Fits(rs, at, r)
    ensures !Meets(rs, r) && Canonical(Inserted(rs, at, r)) && IsUnion(Inserted(rs, at, r), rs, r)
  {
    InsertedCanonical(rs, at, r);
    NoOverlap(rs, at, r);
    forall fd ensures Covers(Inserted(rs, at, r), fd) <==> Covers(rs, fd) || InRange(r, fd) {
      InsertedCovers(rs, at, r, fd);
    }
  }

  lemma Unlinked(rs: seq<FdRange>, at: nat, r: FdRange)
    requires at <= |rs|
    ensures RemoveAt(Linked(rs, at, r), at) == rs
  {
  }

  /** Linking r in and merging it one side at a time gives Inserted: first the left side, then the right. */
  lemma MergedRight(rs: seq<FdRange>, at: nat, r: FdRange, l: nat, m: FdRange, left: seq<FdRange>)
    requires at <= |rs| && l == if at != 0 && LeftNeighbour(r, rs[at - 1]) then 1 else 0
    requires m == FdRange(if l == 1 then rs[at - 1].lhs else r.lhs, r.rhs)
    requires left == rs[..at - l] + [m] + rs[at..]
    ensures |left| == |rs| + 1 - l && Inserted(rs, at, r) == MergeRight(left, at - l)
  {
    MergeRightIs(rs[..at - l], m, rs[at..]);
    InsertedIs(rs, at, r, l, m);
  }

  /** Inserted, as the two merges put it together. */
  lemma InsertedIs(rs: seq<FdRange>, at: nat, r: FdRange, l: nat, m: FdRange)
    requires at <= |rs| && l == if at != 0 && LeftNeighbour(r, rs[at - 1]) then 1 else 0
    requires m == FdRange(if l == 1 then rs[at - 1].lhs else r.lhs, r.rhs)
    ensures var after := rs[at..];
            var n := if after != [] && RightNeighbour(m, after[0]) then 1 else 0;
            Inserted(rs, at, r) == rs[..at - l] + [FdRange(m.lhs, if n == 1 then after[0].rhs else m.rhs)] + after[n..]
  {
    assert at < |rs| ==> rs[at..][1..] == rs[at + 1..];
  }

  lemma MergeLeftIs(rs: seq<FdRange>, at: nat, r: FdRange)
    requires at <= |rs|
    ensures var l := if at != 0 && LeftNeighbour(r, rs[at - 1]) then 1 else 0;
            MergeLeft(Linked(rs, at, r), at)
            == rs[..at - l] + [FdRange(if l == 1 then rs[at - 1].lhs else r.lhs, r.rhs)] + rs[at..]
  {
  }

  lemma MergeRightIs(before: seq<FdRange>, m: FdRange, after: seq<FdRange>)
    ensures var n := if after != [] && RightNeighbour(m, after[0]) then 1 else 0;
            MergeRight(before + [m] + after, |before|)
            == before + [FdRange(m.lhs, if n == 1 then after[0].rhs else m.rhs)] + after[n..]
  {
    assert after != [] ==> (before + [m] + after)[|before| + 1] == after[0];
  }
}
