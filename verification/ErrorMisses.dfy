/** Runs, for every size of chunk, in which reading a sequence back shows a frame that was recorded for
    something else. */
module ErrorMisses {
  import opened Common
  import opened ErrorFrames
  import opened ErrorReads
  import opened ErrorRuns
  import opened Modular

  function Local(site: int): Event {
    AddFrame(site, 0, None)
  }

  /** One local failure after the other. */
  function Locals(sites: seq<int>): (es: seq<Event>)
    ensures |es| == |sites|
  {
    seq(|sites|, i requires 0 <= i < |sites| => Local(sites[i]))
  }

  function SitesOf(fs: seq<Frame>): (sites: seq<int>)
    ensures |sites| == |fs|
  {
    seq(|fs|, i requires 0 <= i < |fs| => fs[i].site)
  }

  function Recording(r: Run): Live
    requires Ready(r)
  {
    Top(Mine(r))
  }

  /** What one local failure does. */
  lemma Failure(r: Run, site: int) returns (r': Run)
    requires Ready(r)
    ensures Applies(r, Local(site)) && r' == Next(r, Local(site)) && Ready(r')
    ensures r'.cap == r.cap && r'.pool.kind == r.pool.kind
    ensures OtherStack(r'.pool) == OtherStack(r.pool) && Other(r') == Other(r)
    ensures Current(r'.pool) == Put(Current(r.pool), Label(Current(r.pool), site, 0, None, r.tid), r.cap)
    ensures Recording(r') == Recorded(Recording(r), Current(r.pool), Label(Current(r.pool), site, 0, None, r.tid), r.cap)
    ensures SitesOf(Recording(r').frames) == SitesOf(Recording(r).frames) + [site]
  {
    r' := Next(r, Local(site));
  }

  /** The frames of any other chunk are where they were. */
  ghost predicate Beside(a: seq<seq<Frame>>, b: seq<seq<Frame>>, chunk: nat) {
    forall p: Pos :: Holds(a, p) && p.chunk != chunk ==> Holds(b, p) && At(b, p) == At(a, p)
  }

  /** After n local failures that all fit the tail's chunk. */
  ghost predicate Filled(r: Run, r': Run, sites: seq<int>) {
    && Ready(r) && Ready(r') && r'.cap == r.cap && r'.pool.kind == r.pool.kind
    && var s, s', l, l' := Current(r.pool), Current(r'.pool), Recording(r), Recording(r');
    && s'.head == s.head && |s'.chunks| == |s.chunks|
    && s'.tail == Tail(Pos(s.tail.iter.chunk, s.tail.iter.frame + |sites|), s.tail.offset + |sites|)
    && Beside(s.chunks, s'.chunks, s.tail.iter.chunk)
    && l'.straight == l.straight
    && SitesOf(l'.frames) == SitesOf(l.frames) + sites
  }

  lemma FillOne(r: Run, site: int) returns (r': Run)
    requires Ready(r) && Current(r.pool).tail.iter.frame < r.cap
    ensures Applies(r, Local(site)) && r' == Next(r, Local(site)) && Filled(r, r', [site])
  {
    r' := Failure(r, site);
    PutElsewhere(Current(r.pool), Label(Current(r.pool), site, 0, None, r.tid), r.cap);
  }

  lemma FilledOn(r: Run, m: Run, r': Run, a: seq<int>, b: seq<int>, sites: seq<int>)
    requires Filled(r, m, a) && Filled(m, r', b) && sites == a + b
    ensures Filled(r, r', sites)
  {
    assert SitesOf(Recording(r).frames) + a + b == SitesOf(Recording(r).frames) + (a + b);
  }

  lemma FilledNone(r: Run)
    requires Ready(r)
    ensures Filled(r, r, [])
  {
    assert SitesOf(Recording(r).frames) + [] == SitesOf(Recording(r).frames);
  }

  lemma LocalsFirst(sites: seq<int>)
    requires sites != []
    ensures Locals(sites) == [Local(sites[0])] + Locals(sites[1..])
  {
  }

  lemma LocalsStep(r: Run, sites: seq<int>, r': Run)
    requires sites != [] && Applies(r, Local(sites[0])) && Runs(Next(r, Local(sites[0])), Locals(sites[1..]), r')
    ensures Runs(r, Locals(sites), r')
  {
    LocalsFirst(sites);
    RunsStep(r, Local(sites[0]), Locals(sites[1..]), r');
  }

  lemma FillFirst(r: Run, sites: seq<int>) returns (m: Run)
    requires Ready(r) && sites != [] && Current(r.pool).tail.iter.frame + |sites| <= r.cap
    ensures Applies(r, Local(sites[0])) && m == Next(r, Local(sites[0])) && Filled(r, m, [sites[0]])
    ensures Ready(m) && Current(m.pool).tail.iter.frame + |sites[1..]| <= m.cap
  {
    m := FillOne(r, sites[0]);
  }

  lemma FillRest(r: Run, m: Run, sites: seq<int>, r': Run)
    requires sites != [] && Applies(r, Local(sites[0])) && m == Next(r, Local(sites[0]))
    requires Filled(r, m, [sites[0]]) && Filled(m, r', sites[1..]) && Runs(m, Locals(sites[1..]), r')
    ensures Runs(r, Locals(sites), r') && Filled(r, r', sites)
  {
    LocalsStep(r, sites, r');
    FilledOn(r, m, r', [sites[0]], sites[1..], sites);
  }

  lemma {:induction false} Fill(r: Run, sites: seq<int>) returns (r': Run)
    requires Ready(r) && Current(r.pool).tail.iter.frame + |sites| <= r.cap
    ensures Runs(r, Locals(sites), r') && Filled(r, r', sites)
    decreases |sites|
  {
    if sites == [] {
      r' := r;
      FilledNone(r);
    } else {
      var m := FillFirst(r, sites);
      r' := Fill(m, sites[1..]);
      FillRest(r, m, sites, r');
    }
  }

  /** After one more, when the tail's chunk is full. */
  ghost predicate Spilled(r: Run, r': Run, site: int) {
    && Ready(r) && Ready(r') && r'.cap == r.cap && r'.pool.kind == r.pool.kind
    && var s, s', l, l' := Current(r.pool), Current(r'.pool), Recording(r), Recording(r');
    var p := Pos(|s.chunks|, 0);
    && s'.head == s.head && |s'.chunks| == |s.chunks| + 1
    && s'.tail == Tail(Succ(p), s.tail.offset + 1)
    && Beside(s.chunks, s'.chunks, p.chunk)
    && Holds(s'.chunks, p) && At(s'.chunks, p).site == site
    && l'.straight == (l.straight && s.tail.iter.chunk + 1 == |s.chunks|)
    && l'.path == l.path + [p]
    && SitesOf(l'.frames) == SitesOf(l.frames) + [site]
  }

  lemma Overflow(r: Run, site: int) returns (r': Run)
    requires Ready(r) && Current(r.pool).tail.iter.frame == r.cap
    ensures Runs(r, Locals([site]), r') && Spilled(r, r', site)
  {
    r' := Failure(r, site);
    PutElsewhere(Current(r.pool), Label(Current(r.pool), site, 0, None, r.tid), r.cap);
    assert Runs(r', [], r');
    RunsStep(r, Local(site), [], r');
    assert Locals([site]) == [Local(site)] + [];
  }

  lemma FilledUp(r: Run, full: Run, sites: seq<int>)
    requires Filled(r, full, sites) && Current(r.pool).tail.iter.frame + |sites| == r.cap
    ensures Ready(full) && Current(full.pool).tail.iter.frame == full.cap
  {
  }

  lemma LocalsJoin(a: seq<int>, b: seq<int>)
    ensures Locals(a) + Locals(b) == Locals(a + b)
  {
  }

  lemma LocalsOn(r: Run, a: seq<int>, m: Run, b: seq<int>, r': Run)
    requires Runs(r, Locals(a), m) && Runs(m, Locals(b), r')
    ensures Runs(r, Locals(a + b), r')
  {
    LocalsJoin(a, b);
    RunsOn(r, Locals(a), m, Locals(b), r');
  }

  /** As many as fit and one more, from where the list has its last chunk. */
  lemma FillOver(r: Run, sites: seq<int>, site: int) returns (full: Run, r': Run)
    requires Ready(r) && Current(r.pool).tail.iter.frame + |sites| == r.cap
    ensures Runs(r, Locals(sites + [site]), r') && Runs(r, Locals(sites), full) && Filled(r, full, sites)
    ensures Spilled(full, r', site)
  {
    full := Fill(r, sites);
    FilledUp(r, full, sites);
    r' := Overflow(full, site);
    LocalsOn(r, sites, full, [site], r');
  }

  lemma Begins(cap: nat, tid: int)
    requires cap >= 1
    ensures var r := Start(cap, tid);
            && Ready(r) && r.cap == cap
            && Current(r.pool).tail == Tail(Pos(0, 0), 0) && Current(r.pool).head.iter == Pos(0, 0)
            && |Current(r.pool).chunks| == 1 && Recording(r).straight && SitesOf(Recording(r).frames) == []
  {
  }

  // ---- looking back ----

  /** Frames that fill the first two chunks, and one more. */
  lemma FillTwo(cap: nat, tid: int, a: seq<int>, x: int, b: seq<int>, y: int) returns (r: Run)
    requires cap >= 1 && |a| == cap && |b| + 1 == cap
    ensures Runs(Start(cap, tid), Locals(a + [x]) + Locals(b + [y]), r) && Ready(r) && r.cap == cap
    ensures Recording(r).straight && SitesOf(Recording(r).frames) == a + [x] + b + [y]
    ensures Current(r.pool).tail == Tail(Pos(2, 1), 2 * cap + 1)
  {
    Begins(cap, tid);
    var full1, r1 := FillOver(Start(cap, tid), a, x);
    assert [] + a == a;
    var full2, r2 := FillOver(r1, b, y);
    r := r2;
    RunsOn(Start(cap, tid), Locals(a + [x]), r1, Locals(b + [y]), r);
  }

  /** Two full chunks and one frame: frame 0 is asked for, and frame cap is found. */
  lemma LookupMisses(cap: nat, tid: int, sites: seq<int>) returns (r: Run)
    requires cap >= 1 && |sites| == 2 * cap + 1
    ensures Runs(Start(cap, tid), Locals(sites), r) && Ready(r)
    ensures SitesOf(Recording(r).frames) == sites && |Recording(r).path| == |sites| && Recording(r).straight
    ensures var found := Lookup(Current(r.pool).tail, 0, cap);
            && found == Some(Recording(r).path[cap]) && found != Some(Recording(r).path[0])
            && Holds(Current(r.pool).chunks, found.value)
            && At(Current(r.pool).chunks, found.value).site == sites[cap]
  {
    var a, x, b, y := sites[..cap], sites[cap], sites[cap + 1..2 * cap], sites[2 * cap];
    r := FillTwo(cap, tid, a, x, b, y);
    LocalsJoin(a + [x], b + [y]);
    InPieces(sites, cap);
    ReachedTop(cap, tid, Locals(sites), r);
    FoundInSecond(Recording(r), Current(r.pool).chunks, cap);
  }

  lemma InPieces(sites: seq<int>, cap: nat)
    requires cap >= 1 && |sites| == 2 * cap + 1
    ensures var a, x, b, y := sites[..cap], sites[cap], sites[cap + 1..2 * cap], sites[2 * cap];
            a + [x] + (b + [y]) == sites && a + [x] + b + [y] == sites
  {
  }

  lemma FoundInSecond(l: Live, chunks: seq<seq<Frame>>, cap: nat)
    requires cap >= 1 && LiveInv(l, chunks, cap) && (forall i: nat :: i < |chunks| ==> |chunks[i]| == cap)
    requires l.straight && End(l) == Pos(2, 1) && |l.path| == 2 * cap + 1
    ensures l.path[0] != l.path[cap] && Lookup(Tail(End(l), |l.path|), 0, cap) == Some(l.path[cap])
    ensures Holds(chunks, l.path[cap]) && At(chunks, l.path[cap]) == l.frames[cap]
  {
    LiveAt(l, chunks, cap, cap);
    LiveAt(l, chunks, cap, 0);
    PathFound(l.begin, l.path, cap);
  }

  lemma PathFound(begin: Pos, path: seq<Pos>, cap: nat)
    requires cap >= 1 && |path| == 2 * cap + 1 && path == VisitPos(begin, |path|, cap)
    requires Cursor(begin, path) == Pos(2, 1) && path[0].frame < cap && path[cap].frame < cap
    ensures path[0] != path[cap] && Lookup(Tail(Pos(2, 1), |path|), 0, cap) == Some(path[cap])
  {
    StraightDistance(begin, path, cap, cap);
    StraightDistance(begin, path, cap, 0);
    SecondChunk(path[0], path[cap], cap);
  }

  lemma ReachedTop(cap: nat, tid: int, es: seq<Event>, r: Run)
    requires cap >= 1 && Runs(Start(cap, tid), es, r) && Ready(r)
    ensures r.cap == cap && LiveInv(Recording(r), Current(r.pool).chunks, cap)
    ensures Mark(Current(r.pool)) == MarkOf(Recording(r))
  {
    StartInv(cap, tid);
    RunKeeps(Start(cap, tid), es, r);
  }

  lemma LiveAt(l: Live, chunks: seq<seq<Frame>>, cap: nat, k: nat)
    requires LiveInv(l, chunks, cap) && k < |l.path| && forall i: nat :: i < |chunks| ==> |chunks[i]| == cap
    ensures l.path[k].frame < cap && Holds(chunks, l.path[k]) && At(chunks, l.path[k]) == l.frames[k]
    ensures l.straight ==> l.path == VisitPos(l.begin, |l.path|, cap)
  {
  }

  lemma SecondChunk(first: Pos, p: Pos, cap: nat)
    requires cap >= 1 && p.frame < cap && first.frame < cap
    requires (2 - p.chunk) * cap + 1 == p.frame + cap + 1
    requires (2 - first.chunk) * cap + 1 == first.frame + 2 * cap + 1
    ensures p != first && Lookup(Tail(Pos(2, 1), 2 * cap + 1), 0, cap) == Some(p)
  {
    var d := 1 - p.chunk;
    assert (2 - p.chunk) * cap == d * cap + cap;
    assert (d >= 1 ==> d * cap >= cap) && (d <= -1 ==> d * cap + cap <= 0);
    ModIs(2 * cap - 1, 1, cap, cap - 1);
  }

  // ---- visiting ----

  lemma Rewound(r: Run) returns (r': Run)
    requires Ready(r) && Current(r.pool).tail.offset > 0 && Recording(r).path != []
    ensures Applies(r, RestartSequence) && r' == Next(r, RestartSequence) && Ready(r') && r'.cap == r.cap
    ensures r'.pool.kind == r.pool.kind && Current(r'.pool).chunks == Current(r.pool).chunks
    ensures var head := Current(r.pool).head.iter;
            Current(r'.pool).head.iter == head && Current(r'.pool).tail == Tail(head, 0)
    ensures Recording(r').straight && SitesOf(Recording(r').frames) == []
  {
    r' := Next(r, RestartSequence);
  }

  /** cap + 1 frames, the last of them at the start of the second chunk, and back to the first one. */
  lemma FillAndRewind(cap: nat, tid: int, was: seq<int>) returns (r: Run)
    requires cap >= 1 && |was| == cap + 1
    ensures Runs(Start(cap, tid), Locals(was) + [RestartSequence], r) && Ready(r) && r.cap == cap
    ensures Recording(r).straight && SitesOf(Recording(r).frames) == []
    ensures var s := Current(r.pool);
            && s.head.iter == Pos(0, 0) && s.tail == Tail(Pos(0, 0), 0) && |s.chunks| == 2
            && Holds(s.chunks, Pos(1, 0)) && At(s.chunks, Pos(1, 0)).site == was[cap]
  {
    Begins(cap, tid);
    var full, full' := FillOver(Start(cap, tid), was[..cap], was[cap]);
    assert was[..cap] + [was[cap]] == was;
    r := Rewound(full');
    assert Runs(r, [], r);
    RunsStep(full', RestartSequence, [], r);
    RunsOn(Start(cap, tid), Locals(was), full', [RestartSequence], r);
  }

  /** A first chunk filled and then left for the third: the second one is shown. */
  lemma ShownBeside(l: Live, a: seq<seq<Frame>>, b: seq<seq<Frame>>, cap: nat)
    requires LiveInv(l, a, cap) && l.straight && Beside(a, b, |a|) && Holds(a, Pos(1, 0))
    requires l.begin == Pos(0, 0) && |l.path| == cap && End(l) == Pos(0, cap)
    ensures var visited := VisitPos(Pos(0, 0), cap + 1, cap);
            AllHeld(b, visited) && SitesOf(Frames(b, visited)) == SitesOf(l.frames) + [At(a, Pos(1, 0)).site]
  {
    StillShown(l, a, b, cap, |a|);
    VisitOver(l.path, cap);
    FramesSnoc(b, l.path, Pos(1, 0));
  }

  lemma VisitOver(path: seq<Pos>, cap: nat)
    requires path == VisitPos(Pos(0, 0), cap, cap) && Cursor(Pos(0, 0), path) == Pos(0, cap)
    ensures VisitPos(Pos(0, 0), cap + 1, cap) == path + [Pos(1, 0)]
  {
    VisitSnoc(Pos(0, 0), cap, cap);
  }

  lemma StillShown(l: Live, a: seq<seq<Frame>>, b: seq<seq<Frame>>, cap: nat, chunk: nat)
    requires LiveInv(l, a, cap) && Beside(a, b, chunk) && chunk == |a|
    ensures AllHeld(b, l.path) && Frames(b, l.path) == l.frames
  {
  }

  lemma FramesSnoc(chunks: seq<seq<Frame>>, ps: seq<Pos>, p: Pos)
    requires AllHeld(chunks, ps) && Holds(chunks, p)
    ensures AllHeld(chunks, ps + [p])
    ensures SitesOf(Frames(chunks, ps + [p])) == SitesOf(Frames(chunks, ps)) + [At(chunks, p).site]
  {
  }

  /** The first chunk again, and on to the third. */
  lemma FillAfterRewind(cap: nat, tid: int, was: seq<int>, a: seq<int>, x: int) returns (full: Run, r: Run)
    requires cap >= 1 && |was| == cap + 1 && |a| == cap
    ensures Runs(Start(cap, tid), Locals(was) + [RestartSequence] + Locals(a), full)
    ensures Runs(Start(cap, tid), Locals(was) + [RestartSequence] + Locals(a + [x]), r)
    ensures Spilled(full, r, x) && Recording(full).straight && SitesOf(Recording(full).frames) == a
    ensures var s := Current(full.pool);
            && s.head.iter == Pos(0, 0) && s.tail == Tail(Pos(0, cap), cap) && |s.chunks| == 2
            && Holds(s.chunks, Pos(1, 0)) && At(s.chunks, Pos(1, 0)).site == was[cap]
  {
    var m := FillAndRewind(cap, tid, was);
    full, r := FillOver(m, a, x);
    assert [] + a == a;
    RunsOn(Start(cap, tid), Locals(was) + [RestartSequence], m, Locals(a), full);
    RunsOn(Start(cap, tid), Locals(was) + [RestartSequence], m, Locals(a + [x]), r);
  }

  /** cap + 1 frames, a restart and cap + 1 frames again: the last one shown is the last of the first
      sequence, whatever was recorded since. */
  lemma VisitMisses(cap: nat, tid: int, was: seq<int>, now: seq<int>) returns (r: Run)
    requires cap >= 1 && |was| == |now| == cap + 1
    ensures Runs(Start(cap, tid), Locals(was) + [RestartSequence] + Locals(now), r) && Ready(r)
    ensures SitesOf(Recording(r).frames) == now
    ensures var visited := VisitPos(Current(r.pool).head.iter, Current(r.pool).tail.offset, cap);
            && AllHeld(Current(r.pool).chunks, visited)
            && SitesOf(Frames(Current(r.pool).chunks, visited)) == now[..cap] + [was[cap]]
  {
    var full;
    full, r := FillAfterRewind(cap, tid, was, now[..cap], now[cap]);
    assert now[..cap] + [now[cap]] == now;
    ReachedTop(cap, tid, Locals(was) + [RestartSequence] + Locals(now[..cap]), full);
    ShownBeside(Recording(full), Current(full.pool).chunks, Current(r.pool).chunks, cap);
  }

  // ---- which stack ----

  /** A thread's frame is asked for while its signal handler, which has one too, is current. */
  lemma OwnedMisses(cap: nat, tid: int, site: int, siteInHandler: int) returns (r: Run)
    requires cap >= 1
    ensures Runs(Start(cap, tid), [Local(site)] + ([SwitchStack(Signal)] + ([Local(siteInHandler)] + [])), r)
    ensures Ready(r) && |r.thread.lives| > 0
    ensures Asked(r, Thread, 0) == Some(Place(Thread, Pos(0, 0)))
    ensures Owned(r.pool, Thread, 0, cap) == Some(Place(Signal, Pos(0, 0)))
    ensures Holds(r.pool.thread.chunks, Pos(0, 0)) && At(r.pool.thread.chunks, Pos(0, 0)).site == site
    ensures Holds(r.pool.signal.chunks, Pos(0, 0)) && At(r.pool.signal.chunks, Pos(0, 0)).site == siteInHandler
  {
    var r0 := Start(cap, tid);
    Begins(cap, tid);
    var r1 := Failure(r0, site);
    PutElsewhere(Current(r0.pool), Label(Current(r0.pool), site, 0, None, tid), cap);
    var r2 := Switched(r1);
    r := Failure(r2, siteInHandler);
    PutElsewhere(Current(r2.pool), Label(Current(r2.pool), siteInHandler, 0, None, r2.tid), cap);
    assert Runs(r, [], r);
    RunsStep(r2, Local(siteInHandler), [], r);
    RunsStep(r1, SwitchStack(Signal), [Local(siteInHandler)] + [], r);
    RunsStep(r0, Local(site), [SwitchStack(Signal)] + ([Local(siteInHandler)] + []), r);
  }

  lemma Switched(r: Run) returns (r': Run)
    requires Ready(r) && r.pool.kind == Thread && Formed(r.pool.signal, r.signal, r.cap)
    ensures Applies(r, SwitchStack(Signal)) && r' == Next(r, SwitchStack(Signal)) && Ready(r')
    ensures r' == r.(pool := r.pool.(kind := Signal))
  {
    r' := Next(r, SwitchStack(Signal));
  }
}
