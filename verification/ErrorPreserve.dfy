/** What happens between a push and the matching pop does not touch the sequence that was pushed
    under, and reading it back gives what it gave before, wherever the chunks were added. */
module ErrorPreserving {
  import opened ErrorFrames
  import opened ErrorRuns
  import opened ErrorReads

  /** Every frame before a position is as it was. */
  ghost predicate SameBefore(a: seq<seq<Frame>>, b: seq<seq<Frame>>, to: Pos) {
    && |a| <= |b|
    && forall p: Pos :: Holds(a, p) && Before(p, to) ==> Holds(b, p) && At(b, p) == At(a, p)
  }

  /** The first d sequences of h0 lie untouched under those of h. */
  predicate Under(h0: Shadow, h: Shadow, d: nat) {
    && d < |h0.lives| && d < |h.lives| && d <= |h0.marks| && d <= |h.marks|
    && h.lives[..d] == h0.lives[..d]
    && h.marks[..d] == h0.marks[..d]
    && h.lives[d].begin == h0.lives[d].begin
  }

  lemma ShadowUnder(s: Stack, h: Shadow, n: nat, e: Event, tid: int, cap: nat, h0: Shadow, d: nat)
    requires Formed(s, h, cap) && Under(h0, h, d) && (e.PopSequence? ==> |h.marks| > d)
    ensures Under(h0, ShadowNext(s, h, n, e, tid, cap), d)
  {
    var h' := ShadowNext(s, h, n, e, tid, cap);
    assert h'.lives[..d] == h.lives[..d] && h'.marks[..d] == h.marks[..d];
  }

  lemma LiveForwards(s: Stack, h: Shadow, cap: nat, i: nat)
    requires StackInv(s, h, cap) && i < |h.lives|
    ensures NotAfter(h.lives[i].begin, End(h.lives[i]))
  {
    assert LiveInv(h.lives[i], s.chunks, cap);
  }

  lemma SortedForwards(lives: seq<Live>, d: nat)
    requires Sorted(lives) && d < |lives|
    requires NotAfter(lives[d].begin, End(lives[d]))
    requires NotAfter(lives[|lives| - 1].begin, End(lives[|lives| - 1]))
    ensures NotAfter(lives[d].begin, End(lives[|lives| - 1]))
  {
    if d < |lives| - 1 {
      assert NotAfter(End(lives[d]), lives[|lives| - 1].begin);
    }
  }

  lemma TopEndsAtTail(s: Stack, h: Shadow, cap: nat)
    requires Formed(s, h, cap) && Mark(s) == MarkOf(Top(h))
    ensures End(h.lives[|h.lives| - 1]) == s.tail.iter
  {
  }

  lemma BeginBeforeTail(s: Stack, h: Shadow, cap: nat, d: nat)
    requires StackInv(s, h, cap) && d < |h.lives|
    ensures NotAfter(h.lives[d].begin, s.tail.iter)
  {
    assert NotAfter(h.lives[d].begin, End(h.lives[|h.lives| - 1])) by {
      LiveForwards(s, h, cap, d);
      LiveForwards(s, h, cap, |h.lives| - 1);
      SortedForwards(h.lives, d);
    }
    TopEndsAtTail(s, h, cap);
  }

  lemma MemoryBehind(s: Stack, f: Frame, cap: nat, begin: Pos)
    requires Shaped(s, cap) && NotAfter(begin, s.tail.iter)
    ensures SameBefore(s.chunks, Put(s, f, cap).chunks, begin)
  {
    PutElsewhere(s, f, cap);
    assert NotAfter(begin, WritePos(s, cap));
  }

  /** A frame is only ever written behind the start of every live sequence. */
  lemma MemoryUnder(s: Stack, h: Shadow, f: Frame, cap: nat, d: nat)
    requires StackInv(s, h, cap) && d < |h.lives|
    ensures SameBefore(s.chunks, Put(s, f, cap).chunks, h.lives[d].begin)
  {
    BeginBeforeTail(s, h, cap, d);
    MemoryBehind(s, f, cap, h.lives[d].begin);
  }

  /** A run that never pops stack k below d saved sequences. */
  predicate RunsAbove(r: Run, es: seq<Event>, r': Run, k: Kind, d: nat)
    decreases |es|
  {
    if es == [] then r' == r
    else
      && Applies(r, es[0])
      && (es[0].PopSequence? && r.pool.kind == k ==> |Mine(r).marks| > d)
      && RunsAbove(Next(r, es[0]), es[1..], r', k, d)
  }

  lemma OnlyAddsWrite(s: Stack, h: Shadow, n: nat, e: Event, tid: int, cap: nat)
    requires Formed(s, h, cap) && (e.PopSequence? ==> |h.marks| > 0)
    ensures StackNext(s, h, n, e, tid, cap).0.chunks
            == if e.AddFrame? then Put(s, Label(s, e.site, e.errno, e.seqId, tid), cap).chunks else s.chunks
  {
  }

  lemma StackUnder(s: Stack, h: Shadow, n: nat, e: Event, tid: int, cap: nat, d: nat)
    requires StackInv(s, h, cap) && d < |h.lives| && (e.PopSequence? ==> |h.marks| > 0)
    ensures SameBefore(s.chunks, StackNext(s, h, n, e, tid, cap).0.chunks, h.lives[d].begin)
  {
    OnlyAddsWrite(s, h, n, e, tid, cap);
    if e.AddFrame? {
      MemoryUnder(s, h, Label(s, e.site, e.errno, e.seqId, tid), cap, d);
    }
  }

  /** What a step makes of stack k: nothing if it is not current. */
  lemma StepOf(r: Run, e: Event, k: Kind)
    requires Applies(r, e)
    ensures var s, h, n := StackOf(r.pool, k), ShadowOf(r, k), r.pool.index;
            var s', h' := StackOf(Next(r, e).pool, k), ShadowOf(Next(r, e), k);
            if r.pool.kind == k && !e.SwitchStack?
            then s' == StackNext(s, h, n, e, r.tid, r.cap).0 && h' == ShadowNext(s, h, n, e, r.tid, r.cap)
            else s' == s && h' == h
  {
  }

  lemma CurrentInv(r: Run)
    requires RunInv(r)
    ensures StackInv(StackOf(r.pool, r.pool.kind), ShadowOf(r, r.pool.kind), r.cap)
  {
  }

  lemma StepUnder(r: Run, e: Event, k: Kind, h0: Shadow, d: nat)
    requires RunInv(r) && Applies(r, e) && (e.PopSequence? && r.pool.kind == k ==> |Mine(r).marks| > d)
    requires Under(h0, ShadowOf(r, k), d)
    ensures Under(h0, ShadowOf(Next(r, e), k), d)
    ensures SameBefore(StackOf(r.pool, k).chunks, StackOf(Next(r, e).pool, k).chunks, h0.lives[d].begin)
  {
    CurrentInv(r);
    StepUnderCurrent(r, e, k, h0, d);
  }

  lemma StepUnderCurrent(r: Run, e: Event, k: Kind, h0: Shadow, d: nat)
    requires StackInv(StackOf(r.pool, r.pool.kind), ShadowOf(r, r.pool.kind), r.cap)
    requires Applies(r, e) && (e.PopSequence? && r.pool.kind == k ==> |Mine(r).marks| > d)
    requires Under(h0, ShadowOf(r, k), d)
    ensures Under(h0, ShadowOf(Next(r, e), k), d)
    ensures SameBefore(StackOf(r.pool, k).chunks, StackOf(Next(r, e).pool, k).chunks, h0.lives[d].begin)
  {
    StepOf(r, e, k);
    if r.pool.kind == k && !e.SwitchStack? {
      ShadowUnder(StackOf(r.pool, k), ShadowOf(r, k), r.pool.index, e, r.tid, r.cap, h0, d);
      StackUnder(StackOf(r.pool, k), ShadowOf(r, k), r.pool.index, e, r.tid, r.cap, d);
    }
  }

  lemma {:induction false} RunUnder(r: Run, es: seq<Event>, r': Run, k: Kind, h0: Shadow, d: nat)
    requires RunInv(r) && RunsAbove(r, es, r', k, d) && Under(h0, ShadowOf(r, k), d)
    ensures RunInv(r') && r'.cap == r.cap && Under(h0, ShadowOf(r', k), d)
    ensures SameBefore(StackOf(r.pool, k).chunks, StackOf(r'.pool, k).chunks, h0.lives[d].begin)
    decreases |es|
  {
    if es != [] {
      NextKeeps(r, es[0]);
      StepUnder(r, es[0], k, h0, d);
      RunUnder(Next(r, es[0]), es[1..], r', k, h0, d);
    }
  }

  /** The visitor sees the same frames before and after. */
  lemma ReadsSame(l: Live, a: seq<seq<Frame>>, b: seq<seq<Frame>>, to: Pos, cap: nat)
    requires cap >= 1 && LiveInv(l, a, cap) && (forall i: nat :: i < |a| ==> |a[i]| == cap)
    requires SameBefore(a, b, to) && NotAfter(End(l), to)
    ensures var visited := VisitPos(l.begin, |l.path|, cap);
            AllHeld(a, visited) && AllHeld(b, visited) && Frames(b, visited) == Frames(a, visited)
  {
    VisitInside(l, a, cap);
  }

  lemma PopUnder(r0: Run, r1: Run, r: Run)
    requires Applies(r0, PushSequence) && Formed(Current(r.pool), Mine(r), r.cap) && r1 == Next(r0, PushSequence)
    requires r.pool.kind == r0.pool.kind && r.cap == r0.cap && |Mine(r).marks| == |Mine(r0).marks| + 1
    requires Under(Mine(r1), Mine(r), |Mine(r0).marks| + 1)
    ensures Applies(r, PopSequence)
    ensures Mark(Current(Next(r, PopSequence).pool)) == Mark(Current(r0.pool))
    ensures Mine(Next(r, PopSequence)) == Mine(r0)
    ensures Current(Next(r, PopSequence).pool).chunks == Current(r.pool).chunks
    ensures Current(r1.pool).chunks == Current(r0.pool).chunks && Top(Mine(r1)).begin == Current(r0.pool).tail.iter
  {
    var h0, h1, h, d := Mine(r0), Mine(r1), Mine(r), |Mine(r0).marks|;
    assert h1 == Pushed(h0, Current(r0.pool), r0.pool.index);
    assert h1.lives[..d + 1] == h0.lives && h1.marks[..d + 1] == h1.marks;
    assert Popped(h) == h0 by {
      assert h.lives[..d + 1] == h0.lives;
      assert h.marks[..d] == h.marks[..d + 1][..d] == h1.marks[..d] == h0.marks;
    }
    assert h.marks[d] == h.marks[..d + 1][d] == h1.marks[d] == Mark(Current(r0.pool));
  }

  /** After a push, any run that leaves what was pushed on that stack popped again, and the pop: the
      head, the tail and what is saved are as before the push, and so is every frame before the tail. */
  lemma PushPopRestores(cap: nat, tid: int, es0: seq<Event>, r0: Run, es: seq<Event>, r: Run)
    requires cap >= 1 && Runs(Start(cap, tid), es0, r0) && Applies(r0, PushSequence)
    requires RunsAbove(Next(r0, PushSequence), es, r, r0.pool.kind, |Mine(r0).marks| + 1)
    requires r.pool.kind == r0.pool.kind && |Mine(r).marks| == |Mine(r0).marks| + 1
    ensures Applies(r, PopSequence)
    ensures var after := Next(r, PopSequence);
            && Mark(Current(after.pool)) == Mark(Current(r0.pool))
            && Mine(after) == Mine(r0)
            && SameBefore(Current(r0.pool).chunks, Current(after.pool).chunks, Current(r0.pool).tail.iter)
  {
    StartInv(cap, tid);
    RunKeeps(Start(cap, tid), es0, r0);
    var k, h0, d := r0.pool.kind, Mine(r0), |Mine(r0).marks| + 1;
    var r1 := Next(r0, PushSequence);
    NextKeeps(r0, PushSequence);
    RunUnder(r1, es, r, k, ShadowOf(r1, k), d);
    PopUnder(r0, r1, r);
  }

  /** The same for every sequence that was live or saved at the push: the visitor shows what it did. */
  lemma PushPopReadsSame(cap: nat, tid: int, es0: seq<Event>, r0: Run, es: seq<Event>, r: Run, i: nat)
    requires cap >= 1 && Runs(Start(cap, tid), es0, r0) && Applies(r0, PushSequence)
    requires RunsAbove(Next(r0, PushSequence), es, r, r0.pool.kind, |Mine(r0).marks| + 1)
    requires r.pool.kind == r0.pool.kind && |Mine(r).marks| == |Mine(r0).marks| + 1
    requires i < |Mine(r0).lives| && Applies(r, PopSequence)
    ensures var visited := VisitPos(Mine(r0).lives[i].begin, |Mine(r0).lives[i].path|, cap);
            var a, b := Current(r0.pool).chunks, Current(Next(r, PopSequence).pool).chunks;
            AllHeld(a, visited) && AllHeld(b, visited) && Frames(b, visited) == Frames(a, visited)
  {
    PushPopRestores(cap, tid, es0, r0, es, r);
    StartInv(cap, tid);
    RunKeeps(Start(cap, tid), es0, r0);
    var s, h := Current(r0.pool), Mine(r0);
    assert LiveInv(h.lives[i], s.chunks, cap);
    EndsBeforeTail(s, h, cap, i);
    ReadsSame(h.lives[i], s.chunks, Current(Next(r, PopSequence).pool).chunks, s.tail.iter, cap);
  }

  lemma EndsBeforeTail(s: Stack, h: Shadow, cap: nat, i: nat)
    requires StackInv(s, h, cap) && i < |h.lives|
    ensures NotAfter(End(h.lives[i]), s.tail.iter)
  {
    assert LiveInv(Top(h), s.chunks, cap);
    if i < |h.lives| - 1 {
      assert NotAfter(End(h.lives[i]), Top(h).begin);
    }
  }

  /** What a signal handler does: once on its own stack it only ever switches to that stack. */
  predicate OnSignal(es: seq<Event>) {
    forall i: nat :: i < |es| && es[i].SwitchStack? ==> es[i].kind == Signal
  }

  /** It leaves the stack of the thread it interrupts alone, whatever it records and however deep it
      pushes; only the counter they share moves on. */
  lemma {:induction false} HandlerLeavesThread(r: Run, es: seq<Event>, r': Run)
    requires r.pool.kind == Signal && OnSignal(es) && Runs(r, es, r')
    ensures r'.pool.kind == Signal && r'.pool.thread == r.pool.thread && r'.thread == r.thread
    decreases |es|
  {
    if es != [] {
      if !es[0].SwitchStack? {
        OtherKept(r, es[0]);
      }
      HandlerLeavesThread(Next(r, es[0]), es[1..], r');
    }
  }
}
