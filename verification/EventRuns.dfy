/** Runs of any number of latches and pipes: what the pipes know about their latches. */
module EventRuns {
  import opened Common
  import opened EventLatches

  datatype Latch = Latch(view: LatchView, pipe: Option<nat>)

  datatype Pipe = Pipe(view: PipeView, list: seq<nat>)

  datatype World = World(latches: seq<Latch>, pipes: seq<Pipe>)

  datatype Event =
    | CreateLatch
    | CreatePipe
    | SetLatch(l: nat)
    | DisableLatch(l: nat)
    | ResetLatch(l: nat)
    | BindLatch(l: nat, p: nat)
    | UnbindLatch(l: nat)
    | SetPipe(p: nat)
    | PollPipe(p: nat, fails: seq<bool>, eintr: bool)

  /** Every entry of the list is one of n latches. */
  predicate Named(list: seq<nat>, n: nat) {
    forall i: nat :: i < |list| ==> list[i] < n
  }

  predicate Applies(w: World, e: Event) {
    match e
    case CreateLatch => true
    case CreatePipe => true
    case SetLatch(l) => l < |w.latches|
    case DisableLatch(l) => l < |w.latches|
    case ResetLatch(l) => l < |w.latches|
    case BindLatch(l, p) => l < |w.latches| && p < |w.pipes| && w.latches[l].pipe == None
    case UnbindLatch(l) => l < |w.latches|
    case SetPipe(p) => p < |w.pipes|
    case PollPipe(p, fails, _) => p < |w.pipes| && |fails| == |w.pipes[p].list| && Named(w.pipes[p].list, |w.latches|)
  }

  // ---- what the events do ----

  function Signalled(w: World, p: nat): World {
    if p < |w.pipes| then w.(pipes := w.pipes[p := w.pipes[p].(view := PipeSet(w.pipes[p].view))]) else w
  }

  function Woken(w: World, l: nat, wakes: bool): World
    requires l < |w.latches|
  {
    if wakes && w.latches[l].pipe.Some? then Signalled(w, w.latches[l].pipe.value) else w
  }

  function Seen(w: World, l: nat, view: LatchView): World
    requires l < |w.latches|
  {
    w.(latches := w.latches[l := w.latches[l].(view := view)])
  }

  function Bound(w: World, l: nat, p: nat): World
    requires l < |w.latches| && p < |w.pipes|
  {
    World(w.latches[l := w.latches[l].(pipe := Some(p))], w.pipes[p := w.pipes[p].(list := [l] + w.pipes[p].list)])
  }

  function Unbound(w: World, l: nat): World
    requires l < |w.latches|
  {
    match w.latches[l].pipe
    case None => w
    case Some(p) =>
      var w' := w.(latches := w.latches[l := w.latches[l].(pipe := None)]);
      if p < |w.pipes|
      then w'.(pipes := w.pipes[p := w.pipes[p].(list := Unlisted(w.pipes[p].list, l))])
      else w'
  }

  /** Polls the latches named by list until a callback fails: the latches afterwards, whether it
      got to the end, and how many callbacks succeeded. */
  function PollEach(ls: seq<Latch>, list: seq<nat>, fails: seq<bool>): (r: (seq<Latch>, bool, nat))
    requires |list| == |fails| && Named(list, |ls|)
    ensures |r.0| == |ls|
    decreases |list|
  {
    if list == [] then (ls, true, 0)
    else
      var (view, called) := PollEntry(ls[list[0]].view, fails[0]);
      var ls' := ls[list[0] := ls[list[0]].(view := view)];
      if called == -1 then (ls', false, 0)
      else
        var (after, done, count) := PollEach(ls', list[1..], fails[1..]);
        (after, done, count + called)
  }

  function Polled(w: World, p: nat, fails: seq<bool>, eintr: bool): World
    requires Applies(w, PollPipe(p, fails, eintr))
  {
    if !w.pipes[p].view.signalled then w
    else
      var (ls, done, _) := PollEach(w.latches, w.pipes[p].list, fails);
      var w' := w.(latches := ls);
      if done && !eintr then ResetPipe(w', p) else w'
  }

  /** ert_resetEventPipe, when it is not interrupted. */
  function ResetPipe(w: World, p: nat): World
    requires p < |w.pipes|
  {
    w.(pipes := w.pipes[p := w.pipes[p].(view := PipeReset(w.pipes[p].view))])
  }

  function Next(w: World, e: Event): World
    requires Applies(w, e)
  {
    match e
    case CreateLatch => w.(latches := w.latches + [Latch(LatchView(false, false, true, 0), None)])
    case CreatePipe => w.(pipes := w.pipes + [Pipe(PipeView(false, []), [])])
    case SetLatch(l) =>
      var view := w.latches[l].view;
      Seen(Woken(w, l, SettingOf(view) == Off), l, LatchSet(view))
    case DisableLatch(l) =>
      var view := w.latches[l].view;
      Seen(Woken(w, l, SettingOf(view) != Disabled), l, LatchDisable(view))
    case ResetLatch(l) => Seen(w, l, LatchReset(w.latches[l].view))
    case BindLatch(l, p) => Woken(Bound(w, l, p), l, SettingOf(w.latches[l].view) != Off)
    case UnbindLatch(l) => Unbound(w, l)
    case SetPipe(p) => Signalled(w, p)
    case PollPipe(p, fails, eintr) => Polled(w, p, fails, eintr)
  }

  // ---- what every event keeps ----

  predicate PipeExact(p: PipeView) {
    p.bytes == if p.signalled then [0] else []
  }

  /** Disabled latches are reported once, and then their list entry no longer names them. */
  predicate ReportExact(l: LatchView) {
    if l.armed then l.reports == 0 else l.reports == 1 && l.disabled
  }

  /** Latch l is on the list of the pipe it is bound to, and wakes it if it has news. */
  predicate Attached(w: World, l: nat)
    requires l < |w.latches|
  {
    match w.latches[l].pipe
    case None => true
    case Some(p) =>
      && p < |w.pipes|
      && l in w.pipes[p].list
      && (Pending(w.latches[l].view) ==> Awake(w, l))
  }

  predicate Awake(w: World, l: nat)
    requires l < |w.latches|
  {
    var p := w.latches[l].pipe;
    p.Some? && p.value < |w.pipes| ==> w.pipes[p.value].view.signalled
  }

  predicate Lists(w: World, p: nat)
    requires p < |w.pipes|
  {
    && Distinct(w.pipes[p].list)
    && forall l: nat :: l in w.pipes[p].list ==> l < |w.latches| && w.latches[l].pipe == Some(p)
  }

  predicate Inv(w: World) {
    && (forall p: nat :: p < |w.pipes| ==> PipeExact(w.pipes[p].view))
    && (forall l: nat :: l < |w.latches| ==> ReportExact(w.latches[l].view))
    && (forall p: nat :: p < |w.pipes| ==> Lists(w, p))
    && (forall l: nat :: l < |w.latches| ==> Attached(w, l))
  }

  lemma KeptBySignal(w: World, p: nat)
    requires Inv(w) && p < |w.pipes|
    ensures Inv(Signalled(w, p)) && Signalled(w, p).pipes[p].view.signalled
  {
    var w' := Signalled(w, p);
    forall l: nat | l < |w.latches| ensures Attached(w', l) { assert Attached(w, l); }
    forall q: nat | q < |w.pipes| ensures Lists(w', q) { assert Lists(w, q); }
  }

  lemma KeptBySeen(w: World, l: nat, view: LatchView)
    requires Inv(w) && l < |w.latches| && ReportExact(view)
    requires Pending(view) ==> Awake(w, l)
    ensures Inv(Seen(w, l, view))
  {
    var w' := Seen(w, l, view);
    forall k: nat | k < |w.latches| ensures Attached(w', k) { assert Attached(w, k); }
    forall q: nat | q < |w.pipes| ensures Lists(w', q) { assert Lists(w, q); }
  }

  lemma KeptByCreate(w: World)
    requires Inv(w)
    ensures Inv(Next(w, CreateLatch)) && Inv(Next(w, CreatePipe))
  {
    var a, b := Next(w, CreateLatch), Next(w, CreatePipe);
    forall k: nat | k < |w.latches| ensures Attached(a, k) && Attached(b, k) { assert Attached(w, k); }
    forall q: nat | q < |w.pipes| ensures Lists(a, q) && Lists(b, q) { assert Lists(w, q); }
  }

  /** Binding, before the pipe is woken. */
  lemma ListsWhenBound(w: World, l: nat, p: nat)
    requires Inv(w) && Applies(w, BindLatch(l, p))
    ensures l !in w.pipes[p].list
    ensures forall q: nat :: q < |w.pipes| ==> Lists(Bound(w, l, p), q)
  {
    assert Lists(w, p);
    forall q: nat | q < |w.pipes| ensures Lists(Bound(w, l, p), q) { assert Lists(w, q); }
  }

  lemma KeptByBind(w: World, l: nat, p: nat)
    requires Inv(w) && Applies(w, BindLatch(l, p))
    ensures Inv(Next(w, BindLatch(l, p)))
  {
    var b := Bound(w, l, p);
    var w' := Woken(b, l, SettingOf(w.latches[l].view) != Off);
    ListsWhenBound(w, l, p);
    forall k: nat | k < |w.latches| ensures Attached(w', k) { assert Attached(w, k); }
    forall q: nat | q < |w.pipes| ensures Lists(w', q) { assert Lists(b, q); }
  }

  lemma {:induction false} UnlistedDistinct(list: seq<nat>, l: nat)
    requires Distinct(list)
    ensures Distinct(Unlisted(list, l)) && l !in Unlisted(list, l)
  {
    if list == [] || list[0] == l {
      assert forall i: nat :: i < |list| && i > 0 ==> list[i] != list[0];
    } else {
      UnlistedDistinct(list[1..], l);
      assert list[0] !in Unlisted(list[1..], l);
    }
  }

  lemma KeptByUnbind(w: World, l: nat)
    requires Inv(w) && l < |w.latches|
    ensures Inv(Next(w, UnbindLatch(l)))
  {
    var w' := Next(w, UnbindLatch(l));
    assert Attached(w, l);
    if w.latches[l].pipe.Some? {
      var p := w.latches[l].pipe.value;
      assert Lists(w, p);
      UnlistedDistinct(w.pipes[p].list, l);
    }
    forall k: nat | k < |w.latches| ensures Attached(w', k) { assert Attached(w, k); }
    forall q: nat | q < |w.pipes| ensures Lists(w', q) { assert Lists(w, q); }
  }

  // ---- polling ----

  /** Polling one latch calls back exactly when there is news, and then there is none left. */
  lemma PollEntryTells(l: LatchView, fails: bool)
    requires ReportExact(l)
    ensures var (l', called) := PollEntry(l, fails);
            && ReportExact(l')
            && !Pending(l')
            && called == (if !Pending(l) then 0 else if fails then -1 else 1)
            && (l.disabled ==> l'.reports == 1)
  {
  }

  predicate AllReportExact(ls: seq<Latch>) {
    forall k: nat :: k < |ls| ==> ReportExact(ls[k].view)
  }

  predicate Quiet(ls: seq<Latch>, list: seq<nat>) {
    forall l: nat :: l in list && l < |ls| ==> !Pending(ls[l].view)
  }

  /** How many of the listed latches have news. */
  function News(ls: seq<Latch>, list: seq<nat>): nat
    requires Named(list, |ls|)
  {
    if list == [] then 0 else (if Pending(ls[list[0]].view) then 1 else 0) + News(ls, list[1..])
  }

  /** Latches after a poll of those in list: others are as they were, and no news is made up. */
  predicate OnlyPolled(ls: seq<Latch>, ls': seq<Latch>, list: seq<nat>) {
    && |ls'| == |ls|
    && forall k: nat :: k < |ls| ==>
                          && ls'[k].pipe == ls[k].pipe
                          && (k !in list ==> ls'[k] == ls[k])
                          && (Pending(ls'[k].view) ==> ls'[k] == ls[k])
  }

  lemma {:induction false} NewsElsewhere(ls: seq<Latch>, ls': seq<Latch>, list: seq<nat>)
    requires |ls| == |ls'| && Named(list, |ls|)
    requires forall l: nat :: l in list && l < |ls| ==> ls[l] == ls'[l]
    ensures News(ls, list) == News(ls', list)
  {
    if list != [] {
      assert list[0] in list;
      NewsElsewhere(ls, ls', list[1..]);
    }
  }

  lemma {:induction false} PollEachTells(ls: seq<Latch>, list: seq<nat>, fails: seq<bool>)
    requires |list| == |fails| && Named(list, |ls|) && Distinct(list) && AllReportExact(ls)
    ensures var (ls', done, count) := PollEach(ls, list, fails);
            && AllReportExact(ls')
            && OnlyPolled(ls, ls', list)
            && (done ==> Quiet(ls', list) && count == News(ls, list))
            && (done <==> forall i: nat :: i < |list| && Pending(ls[list[i]].view) ==> !fails[i])
    decreases |list|
  {
    if list != [] {
      var (view, called) := PollEntry(ls[list[0]].view, fails[0]);
      var mid := ls[list[0] := ls[list[0]].(view := view)];
      PollEntryTells(ls[list[0]].view, fails[0]);
      assert list[0] !in list[1..];
      if called != -1 {
        PollEachTells(mid, list[1..], fails[1..]);
        NewsElsewhere(ls, mid, list[1..]);
      }
    }
  }

  /** The place in the list of the first latch with news whose callback fails, or the length. */
  function FirstFailure(ls: seq<Latch>, list: seq<nat>, fails: seq<bool>): (n: nat)
    requires |list| == |fails| && Named(list, |ls|)
    ensures n <= |list|
    decreases |list|
  {
    if list == [] || (Pending(ls[list[0]].view) && fails[0]) then 0
    else 1 + FirstFailure(ls, list[1..], fails[1..])
  }

  /** A poll takes the news of every latch up to and including the one whose callback fails, and leaves
      the latches after it as they were. */
  lemma {:induction false} PollEachStops(ls: seq<Latch>, list: seq<nat>, fails: seq<bool>, j: nat)
    requires |list| == |fails| && Named(list, |ls|) && Distinct(list) && AllReportExact(ls) && j < |list|
    ensures var (after, done, _) := PollEach(ls, list, fails);
            var first := FirstFailure(ls, list, fails);
            && (done <==> first == |list|)
            && (Pending(after[list[j]].view) <==> first < j && Pending(ls[list[j]].view))
            && (first < j ==> after[list[j]] == ls[list[j]])
    decreases |list|
  {
    var (view, called) := PollEntry(ls[list[0]].view, fails[0]);
    var mid := ls[list[0] := ls[list[0]].(view := view)];
    PollEntryTells(ls[list[0]].view, fails[0]);
    if called != -1 {
      FirstFailureElsewhere(ls, mid, list[1..], fails[1..]);
      if j > 0 {
        PollEachStops(mid, list[1..], fails[1..], j - 1);
      } else {
        PollEachOthers(mid, list[1..], fails[1..], list[0]);
        if list[1..] != [] {
          PollEachStops(mid, list[1..], fails[1..], 0);
        }
      }
    }
  }

  lemma {:induction false} FirstFailureElsewhere(ls: seq<Latch>, ls': seq<Latch>, list: seq<nat>, fails: seq<bool>)
    requires |ls| == |ls'| && |list| == |fails| && Named(list, |ls|)
    requires forall l: nat :: l in list && l < |ls| ==> ls[l] == ls'[l]
    ensures FirstFailure(ls, list, fails) == FirstFailure(ls', list, fails)
    decreases |list|
  {
    if list != [] {
      assert list[0] in list;
      FirstFailureElsewhere(ls, ls', list[1..], fails[1..]);
    }
  }

  lemma KeptByReset(w: World, p: nat)
    requires Inv(w) && p < |w.pipes| && Quiet(w.latches, w.pipes[p].list)
    ensures Inv(ResetPipe(w, p))
  {
    var w' := ResetPipe(w, p);
    forall k: nat | k < |w.latches| ensures Attached(w', k) { assert Attached(w, k); }
    forall q: nat | q < |w.pipes| ensures Lists(w', q) { assert Lists(w, q); }
  }

  lemma KeptByPolling(w: World, p: nat, ls: seq<Latch>)
    requires Inv(w) && p < |w.pipes| && OnlyPolled(w.latches, ls, w.pipes[p].list) && AllReportExact(ls)
    ensures Inv(w.(latches := ls))
  {
    var w' := w.(latches := ls);
    forall k: nat | k < |w.latches| ensures Attached(w', k) { assert Attached(w, k); }
    forall q: nat | q < |w.pipes| ensures Lists(w', q) { assert Lists(w, q); }
  }

  lemma KeptByPoll(w: World, p: nat, fails: seq<bool>, eintr: bool)
    requires Inv(w) && Applies(w, PollPipe(p, fails, eintr))
    ensures Inv(Polled(w, p, fails, eintr))
  {
    if w.pipes[p].view.signalled {
      assert Lists(w, p);
      PollEachTells(w.latches, w.pipes[p].list, fails);
      var (ls, done, _) := PollEach(w.latches, w.pipes[p].list, fails);
      KeptByPolling(w, p, ls);
      if done && !eintr {
        KeptByReset(w.(latches := ls), p);
      }
    }
  }

  lemma KeptByWoken(w: World, l: nat, wakes: bool)
    requires Inv(w) && l < |w.latches|
    ensures Inv(Woken(w, l, wakes)) && (wakes ==> Awake(Woken(w, l, wakes), l))
  {
    assert Attached(w, l);
    if wakes && w.latches[l].pipe.Some? {
      KeptBySignal(w, w.latches[l].pipe.value);
    }
  }

  lemma KeptByNext(w: World, e: Event)
    requires Inv(w) && Applies(w, e)
    ensures Inv(Next(w, e))
  {
    match e
    case CreateLatch => KeptByCreate(w);
    case CreatePipe => KeptByCreate(w);
    case SetLatch(l) => KeptBySetting(w, l);
    case DisableLatch(l) => KeptBySetting(w, l);
    case ResetLatch(l) => KeptBySetting(w, l);
    case BindLatch(l, p) => KeptByBind(w, l, p);
    case UnbindLatch(l) => KeptByUnbind(w, l);
    case SetPipe(p) => KeptBySignal(w, p);
    case PollPipe(p, fails, eintr) => KeptByPoll(w, p, fails, eintr);
  }

  lemma KeptBySetting(w: World, l: nat)
    requires Inv(w) && l < |w.latches|
    ensures Inv(Next(w, SetLatch(l))) && Inv(Next(w, DisableLatch(l))) && Inv(Next(w, ResetLatch(l)))
  {
    var view := w.latches[l].view;
    assert Attached(w, l);
    KeptByWoken(w, l, SettingOf(view) == Off);
    KeptByWoken(w, l, SettingOf(view) != Disabled);
    KeptBySeen(Woken(w, l, SettingOf(view) == Off), l, LatchSet(view));
    KeptBySeen(Woken(w, l, SettingOf(view) != Disabled), l, LatchDisable(view));
    KeptBySeen(w, l, LatchReset(view));
  }

  // ---- whole runs ----

  function Start(): World { World([], []) }

  predicate Runs(w: World, es: seq<Event>, w': World)
    decreases |es|
  {
    if es == [] then w' == w else Applies(w, es[0]) && Runs(Next(w, es[0]), es[1..], w')
  }

  lemma {:induction false} RunKeeps(w: World, es: seq<Event>, w': World)
    requires Inv(w) && Runs(w, es, w')
    ensures Inv(w')
    decreases |es|
  {
    if es != [] {
      KeptByNext(w, es[0]);
      RunKeeps(Next(w, es[0]), es[1..], w');
    }
  }

  /** In every reachable world a pipe holds one byte or none as its flag says, a bound latch with
      news has its byte in the pipe, and no latch was ever reported disabled twice. */
  lemma NoWakeupLost(es: seq<Event>, w: World)
    requires Runs(Start(), es, w)
    ensures forall p: nat :: p < |w.pipes| ==>
                               w.pipes[p].view.bytes == if w.pipes[p].view.signalled then [0] else []
    ensures forall l: nat :: l < |w.latches| ==>
                               var latch := w.latches[l];
                               && latch.view.reports <= 1
                               && (latch.view.reports == 1 ==> latch.view.disabled)
                               && (latch.pipe.Some? ==> latch.pipe.value < |w.pipes| && l in w.pipes[latch.pipe.value].list)
                               && (latch.pipe.Some? && Pending(latch.view) ==> w.pipes[latch.pipe.value].view.bytes == [0])
  {
    RunKeeps(Start(), es, w);
    forall l: nat | l < |w.latches|
      ensures w.latches[l].pipe.Some? ==> var p := w.latches[l].pipe.value;
                                          && p < |w.pipes| && l in w.pipes[p].list
                                          && (Pending(w.latches[l].view) ==> w.pipes[p].view.bytes == [0])
    {
      assert Attached(w, l);
    }
  }

  /** A poll, from any reachable world: if no callback for a latch with news fails it tells of every
      one of them, and only then, if it is not interrupted, drains the pipe.  However it ends,
      nothing has become news. */
  lemma PollTellsAll(es: seq<Event>, w: World, p: nat, fails: seq<bool>, eintr: bool)
    requires Runs(Start(), es, w) && p < |w.pipes| && |fails| == |w.pipes[p].list| && w.pipes[p].view.signalled
    ensures Applies(w, PollPipe(p, fails, eintr))
    ensures var list := w.pipes[p].list;
            var w' := Next(w, PollPipe(p, fails, eintr));
            var (_, done, count) := PollEach(w.latches, list, fails);
            && (done <==> forall i: nat :: i < |list| && Pending(w.latches[list[i]].view) ==> !fails[i])
            && (done ==> count == News(w.latches, list))
            && (done ==> forall l: nat :: l < |w.latches| && w.latches[l].pipe == Some(p) ==>
                                            !Pending(w'.latches[l].view))
            && (w'.pipes[p].view.signalled <==> !done || eintr)
            && OnlyPolled(w.latches, w'.latches, list)
  {
    RunKeeps(Start(), es, w);
    assert Lists(w, p);
    assert forall i: nat :: i < |w.pipes[p].list| ==> w.pipes[p].list[i] in w.pipes[p].list;
    PollEachTells(w.latches, w.pipes[p].list, fails);
    forall l: nat | l < |w.latches| && w.latches[l].pipe == Some(p) ensures l in w.pipes[p].list {
      assert Attached(w, l);
    }
  }

  /** The pipe is left signalled when a callback fails, so that it is polled again; but the latch whose
      callback failed has been reset by then, and unless it is set again the next poll calls back for those
      after it only. */
  lemma FailedCallbackLosesNews(es: seq<Event>, w: World, p: nat, fails: seq<bool>, eintr: bool, j: nat)
    requires Runs(Start(), es, w) && p < |w.pipes| && |fails| == |w.pipes[p].list| && w.pipes[p].view.signalled
    requires j < |fails| && Applies(w, PollPipe(p, fails, eintr))
    ensures var list, w' := w.pipes[p].list, Next(w, PollPipe(p, fails, eintr));
            var first := FirstFailure(w.latches, list, fails);
            && (first < |list| ==> w'.pipes[p].view.signalled && w'.pipes[p].list == list)
            && (Pending(w'.latches[list[j]].view) <==> first < j && Pending(w.latches[list[j]].view))
            && PollEntry(w'.latches[list[j]].view, false).1
               == if first < j && Pending(w.latches[list[j]].view) then 1 else 0
  {
    RunKeeps(Start(), es, w);
    assert Lists(w, p);
    PollEachTells(w.latches, w.pipes[p].list, fails);
    PollEachStops(w.latches, w.pipes[p].list, fails, j);
    var after := PollEach(w.latches, w.pipes[p].list, fails).0;
    PollEntryTells(after[w.pipes[p].list[j]].view, false);
  }

  lemma PollEachOne(l: Latch, fails: bool)
    ensures var (view, called) := PollEntry(l.view, fails);
            PollEach([l], [0], [fails])
            == ([l.(view := view)], called != -1, if called == -1 then 0 else called)
  {
    var (view, _) := PollEntry(l.view, fails);
    assert [0][1..] == [] && [fails][1..] == [];
    assert [l][0 := l.(view := view)] == [l.(view := view)];
    assert PollEach([l.(view := view)], [], []) == ([l.(view := view)], true, 0);
  }

  /** One latch that is on: its callback fails, and the next poll has nothing to tell. */
  lemma FailedCallbackForgotten()
    ensures Runs(Start(), [CreateLatch, CreatePipe, BindLatch(0, 0), SetLatch(0)], LatchOn())
    ensures var failed := Next(LatchOn(), PollPipe(0, [true], false));
            && Pending(LatchOn().latches[0].view)
            && failed == LatchOn().(latches := [Latch(LatchView(false, false, true, 0), Some(0))])
            && failed.pipes[0].view.signalled && !Pending(failed.latches[0].view)
            && PollEach(failed.latches, [0], [false]) == (failed.latches, true, 0)
  {
    LatchOnReached();
    PollEachOne(LatchOn().latches[0], true);
    PollEachOne(Latch(LatchView(false, false, true, 0), Some(0)), false);
  }

  /** ert_resetEventPipe, which anyone may call, keeps what every other event keeps exactly when
      no latch bound to the pipe has news. */
  lemma ResetPipeKeepsIff(w: World, p: nat)
    requires Inv(w) && p < |w.pipes|
    ensures Inv(ResetPipe(w, p)) <==> Quiet(w.latches, w.pipes[p].list)
  {
    if Quiet(w.latches, w.pipes[p].list) {
      KeptByReset(w, p);
    } else {
      var l: nat :| l in w.pipes[p].list && l < |w.latches| && Pending(w.latches[l].view);
      assert Lists(w, p);
      assert !Attached(ResetPipe(w, p), l);
    }
  }

  /** One latch, on, bound to the one pipe, which holds its byte. */
  function LatchOn(): World {
    World([Latch(LatchView(false, true, true, 0), Some(0))], [Pipe(PipeView(true, [0]), [0])])
  }

  /** The same before it is set, and before it is bound. */
  function LatchOff(): World {
    World([Latch(LatchView(false, false, true, 0), Some(0))], [Pipe(PipeView(false, []), [0])])
  }

  function LatchUnbound(): World {
    World([Latch(LatchView(false, false, true, 0), None)], [Pipe(PipeView(false, []), [])])
  }

  lemma SetTurnsOn()
    ensures Next(LatchOff(), SetLatch(0)) == LatchOn()
  {
    assert PipeSet(LatchOff().pipes[0].view) == LatchOn().pipes[0].view;
    assert Woken(LatchOff(), 0, true).pipes == LatchOn().pipes;
    assert Next(LatchOff(), SetLatch(0)).latches == LatchOn().latches;
  }

  lemma BindLists()
    ensures Next(LatchUnbound(), BindLatch(0, 0)) == LatchOff()
  {
    assert [0] + [] == [0];
  }

  lemma LatchOnReached()
    ensures Runs(Start(), [CreateLatch, CreatePipe, BindLatch(0, 0), SetLatch(0)], LatchOn())
  {
    var w1 := World([Latch(LatchView(false, false, true, 0), None)], []);
    var e1, e2, e3, e4 := CreateLatch, CreatePipe, BindLatch(0, 0), SetLatch(0);
    assert [e4][1..] == [] && [e3, e4][1..] == [e4] && [e2, e3, e4][1..] == [e3, e4];
    assert [e1, e2, e3, e4][1..] == [e2, e3, e4];
    SetTurnsOn();
    BindLists();
    assert Next(w1, e2) == LatchUnbound();
    assert Next(Start(), e1) == w1;
    assert Runs(LatchOff(), [e4], LatchOn());
    assert Runs(LatchUnbound(), [e3, e4], LatchOn());
    assert Runs(w1, [e2, e3, e4], LatchOn());
  }

  /** Otherwise the latch stays on and unseen: setting it again wakes nobody, and a poll looks at
      nothing. */
  lemma ResetPipeLosesWakeup()
    ensures Runs(Start(), [CreateLatch, CreatePipe, BindLatch(0, 0), SetLatch(0)], LatchOn())
    ensures var lost := ResetPipe(LatchOn(), 0);
            && Pending(lost.latches[0].view)
            && Next(lost, SetLatch(0)) == lost
            && Next(lost, PollPipe(0, [false], false)) == lost
  {
    LatchOnReached();
  }

  // ---- the methods and the runs poll alike ----

  function ViewsOf(ls: seq<Latch>, list: seq<nat>): (r: seq<LatchView>)
    requires Named(list, |ls|)
    ensures |r| == |list|
  {
    seq(|list|, i requires 0 <= i < |list| => ls[list[i]].view)
  }

  /** Polling the named latches is polling their views in order, as PollList does. */
  lemma {:induction false} PollEachIsPollFrom(ls: seq<Latch>, list: seq<nat>, fails: seq<bool>, done: seq<LatchView>,
                                              count: nat)
    requires |list| == |fails| && Named(list, |ls|) && Distinct(list)
    ensures var (after, all, told) := PollEach(ls, list, fails);
            PollFrom(done, count, ViewsOf(ls, list), fails) == (done + ViewsOf(after, list), all, count + told)
    decreases |list|
  {
    var vs := ViewsOf(ls, list);
    if list == [] {
      assert vs == [] && done + vs == done;
    } else {
      var (view, called) := PollEntry(ls[list[0]].view, fails[0]);
      var mid := ls[list[0] := ls[list[0]].(view := view)];
      assert list[0] !in list[1..];
      assert vs[1..] == ViewsOf(mid, list[1..]);
      if called == -1 {
        assert [view] + vs[1..] == ViewsOf(mid, list);
        assert done + ([view] + vs[1..]) == done + [view] + vs[1..];
      } else {
        PollEachIsPollFrom(mid, list[1..], fails[1..], done + [view], count + called);
        var after := PollEach(mid, list[1..], fails[1..]).0;
        PollEachOthers(mid, list[1..], fails[1..], list[0]);
        assert ViewsOf(after, list) == [view] + ViewsOf(after, list[1..]);
        assert done + ([view] + ViewsOf(after, list[1..])) == done + [view] + ViewsOf(after, list[1..]);
      }
    }
  }

  lemma {:induction false} PollEachOthers(ls: seq<Latch>, list: seq<nat>, fails: seq<bool>, l: nat)
    requires |list| == |fails| && Named(list, |ls|) && l < |ls| && l !in list
    ensures PollEach(ls, list, fails).0[l] == ls[l]
    decreases |list|
  {
    if list != [] {
      var (view, called) := PollEntry(ls[list[0]].view, fails[0]);
      PollEachOthers(ls[list[0] := ls[list[0]].(view := view)], list[1..], fails[1..], l);
    }
  }
}
