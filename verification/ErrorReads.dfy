/** Reading a sequence back: visitErrorFrameSequence_ follows the chunk list forwards from where the
    sequence begins, ert_ownErrorFrame_ counts back from the tail. */
module ErrorReads {
  import opened Common
  import opened ErrorFrames
  import opened ErrorRuns
  import opened Modular

  // ---- forwards ----

  lemma {:induction false} VisitPrefix(begin: Pos, m: nat, n: nat, cap: nat)
    requires m <= n
    ensures VisitPos(begin, n, cap)[..m] == VisitPos(begin, m, cap)
    decreases n
  {
    if m < n {
      VisitSnoc(begin, n - 1, cap);
      VisitPrefix(begin, m, n - 1, cap);
      assert VisitPos(begin, n, cap)[..m] == VisitPos(begin, n - 1, cap)[..m];
    }
  }

  lemma VisitStep(v: Pos, c: Pos, p: Pos, cap: nat)
    requires cap >= 1 && NotAfter(v, c) && v.frame <= cap && c.frame <= cap && Goes(c, p, cap)
    ensures ReadPos(v, cap).frame < cap && NotAfter(ReadPos(v, cap), p)
    ensures NotAfter(Succ(ReadPos(v, cap)), Succ(p))
  {
  }

  /** The steps from one frame to the next. */
  predicate Walks(begin: Pos, path: seq<Pos>, cap: nat) {
    forall k: nat :: k < |path| ==> path[k].frame < cap && Goes(Cursor(begin, path[..k]), path[k], cap)
  }

  lemma WalksBefore(begin: Pos, path: seq<Pos>, cap: nat, n: nat)
    requires Walks(begin, path, cap) && n < |path| && begin.frame <= cap
    ensures Walks(begin, path[..n], cap)
    ensures Goes(Cursor(begin, path[..n]), path[n], cap) && Cursor(begin, path[..n]).frame <= cap
  {
    forall k: nat | k < n ensures path[..n][k].frame < cap && Goes(Cursor(begin, path[..n][..k]), path[..n][k], cap) {
      assert path[..n][..k] == path[..k];
    }
  }

  predicate Trails(visited: seq<Pos>, path: seq<Pos>, cap: nat)
    requires |visited| == |path|
  {
    forall k: nat :: k < |path| ==> visited[k].frame < cap && NotAfter(visited[k], path[k])
  }

  /** The visitor never gets ahead of the frames: what it reads, whether it is what was recorded or
      not, lies in a listed chunk and before the end of the sequence. */
  lemma {:induction false} VisitNotAhead(begin: Pos, path: seq<Pos>, cap: nat)
    requires cap >= 1 && begin.frame <= cap && Walks(begin, path, cap)
    ensures var ps := VisitPos(begin, |path|, cap);
            NotAfter(Cursor(begin, ps), Cursor(begin, path)) && Cursor(begin, ps).frame <= cap && Trails(ps, path, cap)
    decreases |path|
  {
    if path != [] {
      var n := |path| - 1;
      WalksBefore(begin, path, cap, n);
      VisitNotAhead(begin, path[..n], cap);
      VisitSnoc(begin, n, cap);
      var ps := VisitPos(begin, n, cap);
      VisitStep(Cursor(begin, ps), Cursor(begin, path[..n]), path[n], cap);
      TrailsOne(ps, ReadPos(Cursor(begin, ps), cap), path, cap);
    }
  }

  lemma TrailsOne(visited: seq<Pos>, q: Pos, path: seq<Pos>, cap: nat)
    requires |path| > 0 && |visited| == |path| - 1 && Trails(visited, path[..|path| - 1], cap)
    requires q.frame < cap && NotAfter(q, path[|path| - 1])
    ensures Trails(visited + [q], path, cap)
  {
    forall k: nat | k < |path| - 1 ensures NotAfter((visited + [q])[k], path[k]) {
      assert path[..|path| - 1][k] == path[k] && (visited + [q])[k] == visited[k];
    }
  }

  lemma PathInside(l: Live, chunks: seq<seq<Frame>>, cap: nat)
    requires LiveInv(l, chunks, cap)
    requires forall i: nat :: i < |chunks| ==> |chunks[i]| == cap
    ensures forall k: nat :: k < |l.path| ==>
                               l.path[k].chunk < |chunks| && l.path[k].frame < cap && Before(l.path[k], End(l))
  {
  }

  lemma VisitedInside(chunks: seq<seq<Frame>>, cap: nat, visited: seq<Pos>, path: seq<Pos>, end: Pos)
    requires |visited| == |path| && forall i: nat :: i < |chunks| ==> |chunks[i]| == cap
    requires forall k: nat :: k < |path| ==> path[k].chunk < |chunks| && Before(path[k], end)
    requires Trails(visited, path, cap)
    ensures AllHeld(chunks, visited)
    ensures forall k: nat :: k < |path| ==> Before(visited[k], end)
  {
  }

  lemma VisitInside(l: Live, chunks: seq<seq<Frame>>, cap: nat)
    requires LiveInv(l, chunks, cap) && cap >= 1
    requires forall i: nat :: i < |chunks| ==> |chunks[i]| == cap
    ensures AllHeld(chunks, VisitPos(l.begin, |l.path|, cap))
    ensures forall k: nat :: k < |l.path| ==> Before(VisitPos(l.begin, |l.path|, cap)[k], End(l))
  {
    PathInside(l, chunks, cap);
    VisitNotAhead(l.begin, l.path, cap);
    VisitedInside(chunks, cap, VisitPos(l.begin, |l.path|, cap), l.path, End(l));
  }

  /** The place of p when the chunks of the list are laid end to end. */
  function Flat(p: Pos, cap: nat): nat {
    p.chunk * cap + p.frame
  }

  /** As many frames as there are places from begin to end. */
  predicate Gapless(begin: Pos, end: Pos, frames: nat, cap: nat) {
    Flat(end, cap) == Flat(begin, cap) + frames
  }

  /** Only a jump past the next chunk leaves places behind. */
  lemma FlatStep(from: Pos, to: Pos, cap: nat)
    requires cap >= 1 && from.frame <= cap && Goes(from, to, cap)
    ensures Flat(to, cap) >= Flat(from, cap)
    ensures Flat(to, cap) == Flat(from, cap) <==> to == ReadPos(from, cap)
  {
    var jump := to.chunk - from.chunk;
    assert to.chunk * cap == from.chunk * cap + jump * cap;
    assert jump >= 2 ==> jump * cap >= 2 * cap;
  }

  lemma VisitsOneMore(begin: Pos, init: seq<Pos>, p: Pos, cap: nat)
    ensures VisitPos(begin, |init| + 1, cap) == init + [p]
            <==> VisitPos(begin, |init|, cap) == init && p == ReadPos(Cursor(begin, init), cap)
  {
    var ps := VisitPos(begin, |init|, cap);
    VisitSnoc(begin, |init|, cap);
    if VisitPos(begin, |init| + 1, cap) == init + [p] {
      assert ps == VisitPos(begin, |init| + 1, cap)[..|init|] == init;
      assert VisitPos(begin, |init| + 1, cap)[|init|] == p;
    }
  }

  lemma GaplessSnoc(begin: Pos, from: Pos, p: Pos, n: nat, cap: nat)
    requires cap >= 1 && from.frame <= cap && Goes(from, p, cap) && Flat(from, cap) >= Flat(begin, cap) + n
    ensures Flat(Succ(p), cap) >= Flat(begin, cap) + n + 1
    ensures Gapless(begin, Succ(p), n + 1, cap) <==> Gapless(begin, from, n, cap) && p == ReadPos(from, cap)
  {
    FlatStep(from, p, cap);
  }

  /** Frames written next to one another are the ones the visitor walks, and the other way round. */
  lemma {:induction false} GaplessWalk(begin: Pos, path: seq<Pos>, cap: nat)
    requires cap >= 1 && begin.frame <= cap && Walks(begin, path, cap)
    ensures Flat(Cursor(begin, path), cap) >= Flat(begin, cap) + |path|
    ensures VisitPos(begin, |path|, cap) == path <==> Gapless(begin, Cursor(begin, path), |path|, cap)
    decreases |path|
  {
    if path != [] {
      var n := |path| - 1;
      var init, p := path[..n], path[n];
      assert path == init + [p];
      WalksBefore(begin, path, cap, n);
      GaplessWalk(begin, init, cap);
      GaplessSnoc(begin, Cursor(begin, init), p, n, cap);
      VisitsOneMore(begin, init, p, cap);
    }
  }

  lemma StraightIff(l: Live, chunks: seq<seq<Frame>>, cap: nat)
    requires LiveInv(l, chunks, cap) && cap >= 1
    requires forall i: nat :: i < |chunks| ==> |chunks[i]| == cap
    ensures l.straight <==> Gapless(l.begin, End(l), |l.path|, cap)
  {
    PathInside(l, chunks, cap);
    GaplessWalk(l.begin, l.path, cap);
  }

  /** In any run the visitor can walk every live or saved sequence, and it visits the places where
      the frames were recorded exactly when there are as many of them as places from where the
      sequence begins to where it ends, which is when each time it ran out of room it stood in the
      last chunk of the list; then it shows those frames, in order. */
  lemma VisitExactIff(cap: nat, tid: int, es: seq<Event>, r: Run, i: nat)
    requires cap >= 1 && Runs(Start(cap, tid), es, r) && i < |Mine(r).lives|
    ensures var l := Mine(r).lives[i];
            var chunks, visited := Current(r.pool).chunks, VisitPos(l.begin, |l.path|, cap);
            && AllHeld(chunks, visited)
            && (visited == l.path <==> Gapless(l.begin, End(l), |l.path|, cap))
            && (visited == l.path <==> l.straight)
            && (visited == l.path ==> Frames(chunks, visited) == l.frames)
  {
    StartInv(cap, tid);
    RunKeeps(Start(cap, tid), es, r);
    assert LiveInv(Mine(r).lives[i], Current(r.pool).chunks, cap);
    VisitInside(Mine(r).lives[i], Current(r.pool).chunks, cap);
    StraightIff(Mine(r).lives[i], Current(r.pool).chunks, cap);
  }

  // ---- backwards ----

  /** The last frames of a sequence, those in its tail's chunk, are next to one another. */
  lemma {:induction false} BackInChunk(l: Live, chunks: seq<seq<Frame>>, cap: nat, k: nat)
    requires LiveInv(l, chunks, cap) && k < |l.path| && l.path[k].chunk == End(l).chunk
    ensures l.path[k].frame + (|l.path| - k) == End(l).frame
    decreases |l.path| - k
  {
    if k + 1 < |l.path| {
      assert Cursor(l.begin, l.path[..k + 1]) == Succ(l.path[k]);
      assert Goes(Succ(l.path[k]), l.path[k + 1], cap) && Before(l.path[k + 1], End(l));
      BackInChunk(l, chunks, cap, k + 1);
    }
  }

  /** And so are those in the chunk before it, up to that chunk's end. */
  lemma {:induction false} BackOneChunk(l: Live, chunks: seq<seq<Frame>>, cap: nat, k: nat)
    requires LiveInv(l, chunks, cap) && k < |l.path| && l.path[k].chunk + 1 == End(l).chunk
    ensures l.path[k].frame + (|l.path| - k) == cap + End(l).frame
    decreases |l.path| - k
  {
    assert k + 1 < |l.path|;
    assert Cursor(l.begin, l.path[..k + 1]) == Succ(l.path[k]);
    assert Goes(Succ(l.path[k]), l.path[k + 1], cap) && Before(l.path[k + 1], End(l));
    if l.path[k + 1].chunk == End(l).chunk {
      BackInChunk(l, chunks, cap, k + 1);
    } else {
      BackOneChunk(l, chunks, cap, k + 1);
    }
  }

  /** Frame k of n, at p, when the sequence ends at e. */
  lemma LookupAt(e: Pos, n: nat, k: nat, p: Pos, cap: nat)
    requires cap >= 1 && k < n && Before(p, e) && p.frame < cap
    requires p.chunk == e.chunk ==> p.frame + (n - k) == e.frame
    requires p.chunk + 1 == e.chunk ==> p.frame + (n - k) == cap + e.frame
    ensures n - k <= e.frame || e.chunk > 0
    ensures Lookup(Tail(e, n), k, cap) == Some(p) <==> p.chunk + 1 >= e.chunk
  {
    if p.chunk + 1 == e.chunk {
      ModIs(n - k - e.frame - 1, 0, cap, cap - p.frame - 1);
    }
  }

  lemma LookupExact(l: Live, chunks: seq<seq<Frame>>, cap: nat, k: nat)
    requires LiveInv(l, chunks, cap) && cap >= 1 && k < |l.path|
    requires forall i: nat :: i < |chunks| ==> |chunks[i]| == cap
    ensures |l.path| - k <= End(l).frame || End(l).chunk > 0
    ensures Lookup(Tail(End(l), |l.path|), k, cap) == Some(l.path[k]) <==> l.path[k].chunk + 1 >= End(l).chunk
  {
    assert Before(l.path[k], End(l)) && Holds(chunks, l.path[k]);
    if l.path[k].chunk == End(l).chunk {
      BackInChunk(l, chunks, cap, k);
    } else if l.path[k].chunk + 1 == End(l).chunk {
      BackOneChunk(l, chunks, cap, k);
    }
    LookupAt(End(l), |l.path|, k, l.path[k], cap);
  }

  /** In any run frame k of the current sequence is found where it was recorded exactly when that is
      in the tail's chunk or the one before it in the list. */
  lemma LookupExactIff(cap: nat, tid: int, es: seq<Event>, r: Run, k: nat)
    requires cap >= 1 && Runs(Start(cap, tid), es, r) && k < Current(r.pool).tail.offset
    ensures |Mine(r).lives| > 0 && |Top(Mine(r)).path| == Current(r.pool).tail.offset
    ensures var l, tail := Top(Mine(r)), Current(r.pool).tail;
            && (tail.offset - k <= tail.iter.frame || tail.iter.chunk > 0)
            && (Lookup(tail, k, cap) == Some(l.path[k]) <==> l.path[k].chunk + 1 >= tail.iter.chunk)
  {
    StartInv(cap, tid);
    RunKeeps(Start(cap, tid), es, r);
    assert LiveInv(Top(Mine(r)), Current(r.pool).chunks, cap);
    LookupExact(Top(Mine(r)), Current(r.pool).chunks, cap, k);
  }

  lemma OneFurther(p: Pos, q: Pos, e: Pos, left: nat, cap: nat)
    requires q == ReadPos(Succ(p), cap) && (e.chunk - q.chunk) * cap + e.frame == q.frame + left
    ensures (e.chunk - p.chunk) * cap + e.frame == p.frame + left + 1
  {
    if q.chunk == p.chunk + 1 {
      assert (e.chunk - p.chunk) * cap == (e.chunk - q.chunk) * cap + cap;
    }
  }

  /** The distance from frame k to the end, chunk boundaries and all. */
  lemma {:induction false} StraightDistance(begin: Pos, path: seq<Pos>, cap: nat, k: nat)
    requires path == VisitPos(begin, |path|, cap) && k < |path|
    ensures var e := Cursor(begin, path); (e.chunk - path[k].chunk) * cap + e.frame == path[k].frame + (|path| - k)
    decreases |path| - k
  {
    if k + 1 < |path| {
      StraightStep(begin, path, cap, k);
      StraightDistance(begin, path, cap, k + 1);
      OneFurther(path[k], path[k + 1], Cursor(begin, path), |path| - (k + 1), cap);
    }
  }

  lemma StraightStep(begin: Pos, path: seq<Pos>, cap: nat, k: nat)
    requires path == VisitPos(begin, |path|, cap) && k + 1 < |path|
    ensures path[k + 1] == ReadPos(Succ(path[k]), cap)
  {
    VisitPrefix(begin, k + 1, |path|, cap);
    VisitPrefix(begin, k + 2, |path|, cap);
    VisitSnoc(begin, k + 1, cap);
    assert path[..k + 2][k + 1] == path[k + 1] && path[..k + 1][k] == path[k];
  }

  lemma LastTwoChunks(d: int, cap: nat, end: nat, frame: nat, back: nat)
    requires d >= 0 && frame < cap && d * cap + end == frame + back
    ensures d <= 1 <==> back <= end + cap
  {
    if d >= 2 {
      assert d * cap >= 2 * cap;
    }
  }

  lemma LookupStraight(l: Live, chunks: seq<seq<Frame>>, cap: nat, k: nat)
    requires LiveInv(l, chunks, cap) && l.straight && cap >= 1 && k < |l.path|
    requires forall i: nat :: i < |chunks| ==> |chunks[i]| == cap
    ensures Lookup(Tail(End(l), |l.path|), k, cap) == Some(l.path[k]) <==> |l.path| - k <= End(l).frame + cap
  {
    PathInside(l, chunks, cap);
    LookupExact(l, chunks, cap, k);
    StraightDistance(l.begin, l.path, cap, k);
    LastTwoChunks(End(l).chunk - l.path[k].chunk, cap, End(l).frame, l.path[k].frame, |l.path| - k);
  }

  /** Where the current sequence begins and ends is what the stack says. */
  lemma TopStraightIff(s: Stack, h: Shadow, cap: nat)
    requires StackInv(s, h, cap) && cap >= 1
    ensures Top(h).straight <==> Gapless(s.head.iter, s.tail.iter, s.tail.offset, cap)
  {
    assert LiveInv(Top(h), s.chunks, cap);
    StraightIff(Top(h), s.chunks, cap);
  }

  /** A sequence with as many frames as places from its head to its tail: frame k is found exactly when
      no more frames are counted back from the tail than lie in its chunk, up to it, and in the whole
      chunk before. */
  lemma LookupStraightIff(cap: nat, tid: int, es: seq<Event>, r: Run, k: nat)
    requires cap >= 1 && Runs(Start(cap, tid), es, r) && k < Current(r.pool).tail.offset
    ensures |Mine(r).lives| > 0 && |Top(Mine(r)).path| == Current(r.pool).tail.offset
    ensures var l, head, tail := Top(Mine(r)), Current(r.pool).head, Current(r.pool).tail;
            Gapless(head.iter, tail.iter, tail.offset, cap) ==>
              (Lookup(tail, k, cap) == Some(l.path[k]) <==> tail.offset - k <= tail.iter.frame + cap)
  {
    StartInv(cap, tid);
    RunKeeps(Start(cap, tid), es, r);
    assert LiveInv(Top(Mine(r)), Current(r.pool).chunks, cap);
    TopStraightIff(Current(r.pool), Mine(r), cap);
    if Top(Mine(r)).straight {
      LookupStraight(Top(Mine(r)), Current(r.pool).chunks, cap, k);
    }
  }

  // ---- which stack ----

  function FrameOf(aStack: Kind, path: seq<Pos>, k: nat): Option<Place> {
    if k < |path| then Some(Place(aStack, path[k])) else None
  }

  /** What is asked for: frame k of the current sequence of the stack aStack, if it has one. */
  function Asked(r: Run, aStack: Kind, k: nat): Option<Place>
    requires |ShadowOf(r, aStack).lives| > 0
  {
    FrameOf(aStack, Top(ShadowOf(r, aStack)).path, k)
  }

  /** The answer is right for the stack asked about exactly when that is the current one and frame k is
      within reach or not there, or neither stack has a frame k. */
  lemma OwnedRightIff(cap: nat, tid: int, es: seq<Event>, r: Run, aStack: Kind, k: nat)
    requires cap >= 1 && Runs(Start(cap, tid), es, r)
    ensures |Mine(r).lives| > 0 && |Other(r).lives| > 0
    ensures var head, tail := Current(r.pool).head, Current(r.pool).tail;
            && (aStack == r.pool.kind && Gapless(head.iter, tail.iter, tail.offset, cap) ==>
                  (Owned(r.pool, aStack, k, cap) == Asked(r, aStack, k)
                   <==> tail.offset <= k || tail.offset - k <= tail.iter.frame + cap))
            && (aStack != r.pool.kind ==>
                  (Owned(r.pool, aStack, k, cap) == Asked(r, aStack, k)
                   <==> tail.offset <= k && StackOf(r.pool, aStack).tail.offset <= k))
  {
    StartInv(cap, tid);
    RunKeeps(Start(cap, tid), es, r);
    OffsetCounts(Current(r.pool), Mine(r), cap);
    OffsetCounts(OtherStack(r.pool), Other(r), cap);
    if k < Current(r.pool).tail.offset {
      LookupExactIff(cap, tid, es, r, k);
      LookupStraightIff(cap, tid, es, r, k);
    }
    OwnedRight(r.pool, Top(Mine(r)).path, Top(Other(r)).path, k, cap);
  }

  /** The offset is the number of frames in the current sequence. */
  lemma OffsetCounts(s: Stack, h: Shadow, cap: nat)
    requires StackInv(s, h, cap)
    ensures |h.lives| > 0 && s.tail.offset == |Top(h).path|
  {
  }

  lemma OwnedRight(p: Pool, mine: seq<Pos>, other: seq<Pos>, k: nat, cap: nat)
    requires cap >= 1 && Current(p).tail.offset == |mine| && OtherStack(p).tail.offset == |other|
    requires k < |mine| ==> Lookup(Current(p).tail, k, cap) != None
    ensures Owned(p, p.kind, k, cap) == FrameOf(p.kind, mine, k)
            <==> |mine| <= k || Lookup(Current(p).tail, k, cap) == Some(mine[k])
    ensures var kind := if p.kind == Thread then Signal else Thread;
            Owned(p, kind, k, cap) == FrameOf(kind, other, k) <==> |mine| <= k && |other| <= k
  {
  }
}
