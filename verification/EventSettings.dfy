/** What the events do to the setting of a latch, and when a pipe is woken, over whole runs. */
module EventSettings {
  import opened Common
  import opened EventLatches
  import opened EventRuns

  function Setting(w: World, l: nat): Setting
    requires l < |w.latches|
  {
    SettingOf(w.latches[l].view)
  }

  // ---- a poll, latch by latch ----

  /** A poll polls the latches up to the first one whose callback fails, each once, and no other. */
  lemma {:induction false} PollEachAt(ls: seq<Latch>, list: seq<nat>, fails: seq<bool>, j: nat)
    requires |list| == |fails| && Named(list, |ls|) && Distinct(list) && AllReportExact(ls) && j < |list|
    ensures PollEach(ls, list, fails).0[list[j]]
            == if j <= FirstFailure(ls, list, fails)
               then ls[list[j]].(view := PollEntry(ls[list[j]].view, fails[j]).0)
               else ls[list[j]]
    decreases |list|
  {
    var (view, called) := PollEntry(ls[list[0]].view, fails[0]);
    var mid := ls[list[0] := ls[list[0]].(view := view)];
    PollEntryTells(ls[list[0]].view, fails[0]);
    if called != -1 {
      FirstFailureElsewhere(ls, mid, list[1..], fails[1..]);
      if j > 0 {
        PollEachAt(mid, list[1..], fails[1..], j - 1);
      } else {
        PollEachOthers(mid, list[1..], fails[1..], list[0]);
      }
    }
  }

  /** Does the poll get to latch l? */
  predicate Reaches(w: World, e: Event, l: nat)
    requires Applies(w, e)
  {
    e.PollPipe? && w.pipes[e.p].view.signalled &&
    exists j: nat :: j < |e.fails| && w.pipes[e.p].list[j] == l && j <= FirstFailure(w.latches, w.pipes[e.p].list, e.fails)
  }

  lemma PolledAt(w: World, e: Event, l: nat) returns (fails: bool)
    requires Inv(w) && Applies(w, e) && e.PollPipe? && l < |w.latches|
    ensures Next(w, e).latches[l].pipe == w.latches[l].pipe
    ensures Next(w, e).latches[l].view
            == if Reaches(w, e, l) then PollEntry(w.latches[l].view, fails).0 else w.latches[l].view
  {
    fails := true;
    var list := w.pipes[e.p].list;
    assert Lists(w, e.p);
    if w.pipes[e.p].view.signalled {
      if l in list {
        var j: nat :| j < |list| && list[j] == l;
        fails := e.fails[j];
        PollEachAt(w.latches, list, e.fails, j);
        PolledOnce(w, e, l, j);
      } else {
        PollEachOthers(w.latches, list, e.fails, l);
      }
    }
  }

  lemma PolledOnce(w: World, e: Event, l: nat, j: nat)
    requires Applies(w, e) && e.PollPipe? && w.pipes[e.p].view.signalled && Distinct(w.pipes[e.p].list)
    requires j < |e.fails| && w.pipes[e.p].list[j] == l
    ensures Reaches(w, e, l) <==> j <= FirstFailure(w.latches, w.pipes[e.p].list, e.fails)
  {
  }

  // ---- the settings ----

  /** The setting of latch l after any event, in any reachable world: off until it is set, on until it
      is reset or polled, and disabled for good. */
  function SettingAfter(w: World, e: Event, l: nat): Setting
    requires Applies(w, e) && l < |w.latches|
  {
    if Setting(w, l) == Disabled || e == DisableLatch(l) then Disabled
    else if e == SetLatch(l) then On
    else if e == ResetLatch(l) || Reaches(w, e, l) then Off
    else Setting(w, l)
  }

  lemma SettingStep(w: World, e: Event, l: nat)
    requires Inv(w) && Applies(w, e) && l < |w.latches|
    ensures l < |Next(w, e).latches| && Setting(Next(w, e), l) == SettingAfter(w, e, l)
  {
    if e.PollPipe? {
      var _ := PolledAt(w, e, l);
    }
  }

  /** That is what every event does in every run. */
  lemma SettingsFollow(es: seq<Event>, w: World, e: Event, l: nat)
    requires Runs(Start(), es, w) && Applies(w, e) && l < |w.latches|
    ensures l < |Next(w, e).latches| && Setting(Next(w, e), l) == SettingAfter(w, e, l)
    ensures e == CreateLatch ==> Setting(Next(w, e), |w.latches|) == Off
  {
    RunKeeps(Start(), es, w);
    SettingStep(w, e, l);
  }

  // ---- the bindings ----

  function BindingAfter(w: World, e: Event, l: nat): Option<nat>
    requires l < |w.latches|
  {
    if e.BindLatch? && e.l == l then Some(e.p)
    else if e == UnbindLatch(l) then None
    else w.latches[l].pipe
  }

  /** In every run a latch is bound to the pipe it was last bound to, until it is unbound; and the list of
      a pipe holds the latches bound to it, each once. */
  lemma BindingsFollow(es: seq<Event>, w: World, e: Event, l: nat)
    requires Runs(Start(), es, w) && Applies(w, e) && l < |w.latches|
    ensures l < |Next(w, e).latches| && Next(w, e).latches[l].pipe == BindingAfter(w, e, l)
    ensures e == CreateLatch ==> Next(w, e).latches[|w.latches|].pipe == None
    ensures forall p: nat :: p < |w.pipes| ==>
              Distinct(w.pipes[p].list) && (l in w.pipes[p].list <==> w.latches[l].pipe == Some(p))
  {
    RunKeeps(Start(), es, w);
    BindingStep(w, e, l);
    forall p: nat | p < |w.pipes|
      ensures Distinct(w.pipes[p].list) && (l in w.pipes[p].list <==> w.latches[l].pipe == Some(p))
    {
      ListedIff(w, l, p);
    }
  }

  lemma BindingStep(w: World, e: Event, l: nat)
    requires Inv(w) && Applies(w, e) && l < |w.latches|
    ensures l < |Next(w, e).latches| && Next(w, e).latches[l].pipe == BindingAfter(w, e, l)
  {
    if e.PollPipe? {
      var _ := PolledAt(w, e, l);
    }
  }

  lemma ListedIff(w: World, l: nat, p: nat)
    requires Inv(w) && l < |w.latches| && p < |w.pipes|
    ensures Distinct(w.pipes[p].list) && (l in w.pipes[p].list <==> w.latches[l].pipe == Some(p))
  {
    assert Lists(w, p) && Attached(w, l);
  }

  // ---- the pipes ----

  /** Does the event wake pipe p? */
  predicate Wakes(w: World, e: Event, p: nat)
    requires Applies(w, e)
  {
    match e
    case SetPipe(q) => q == p
    case SetLatch(l) => w.latches[l].pipe == Some(p) && Setting(w, l) == Off
    case DisableLatch(l) => w.latches[l].pipe == Some(p) && Setting(w, l) != Disabled
    case BindLatch(l, q) => q == p && Setting(w, l) != Off
    case _ => false
  }

  /** Does it poll pipe p to the end and drain it? */
  predicate Drains(w: World, e: Event, p: nat)
    requires Applies(w, e)
  {
    e.PollPipe? && e.p == p && !e.eintr && FirstFailure(w.latches, w.pipes[p].list, e.fails) == |w.pipes[p].list|
  }

  /** The bytes of pipe p after the event. */
  predicate PipeFollows(w: World, e: Event, p: nat)
    requires Applies(w, e) && p < |w.pipes|
  {
    && p < |Next(w, e).pipes|
    && Next(w, e).pipes[p].view.bytes
       == if Wakes(w, e, p) then [0] else if Drains(w, e, p) then [] else w.pipes[p].view.bytes
  }

  lemma PipeOfLatch(w: World, e: Event, l: nat, p: nat)
    requires Inv(w) && l < |w.latches| && p < |w.pipes| && (e == SetLatch(l) || e == DisableLatch(l))
    ensures PipeFollows(w, e, p)
  {
    assert Attached(w, l) && PipeExact(w.pipes[p].view);
  }

  lemma PipePolled(w: World, e: Event, p: nat)
    requires Inv(w) && Applies(w, e) && p < |w.pipes| && e.PollPipe?
    ensures PipeFollows(w, e, p)
  {
    assert Lists(w, e.p) && PipeExact(w.pipes[p].view);
    if w.pipes[e.p].list != [] {
      PollEachStops(w.latches, w.pipes[e.p].list, e.fails, 0);
    }
  }

  lemma PipeElse(w: World, e: Event, p: nat)
    requires Applies(w, e) && p < |w.pipes| && PipeExact(w.pipes[p].view)
    requires !e.SetLatch? && !e.DisableLatch? && !e.PollPipe?
    ensures PipeFollows(w, e, p)
  {
  }

  /** In every run a pipe holds its byte from the event that wakes it to the one that drains it. */
  lemma PipesFollow(es: seq<Event>, w: World, e: Event, p: nat)
    requires Runs(Start(), es, w) && Applies(w, e) && p < |w.pipes|
    ensures p < |Next(w, e).pipes|
    ensures Next(w, e).pipes[p].view.bytes
            == if Wakes(w, e, p) then [0] else if Drains(w, e, p) then [] else w.pipes[p].view.bytes
    ensures e == CreatePipe ==> Next(w, e).pipes[|w.pipes|] == Pipe(PipeView(false, []), [])
  {
    RunKeeps(Start(), es, w);
    assert PipeExact(w.pipes[p].view);
    match e
    case SetLatch(l) => PipeOfLatch(w, e, l, p);
    case DisableLatch(l) => PipeOfLatch(w, e, l, p);
    case PollPipe(_, _, _) => PipePolled(w, e, p);
    case _ => PipeElse(w, e, p);
  }

  // ---- disabled latches ----

  lemma {:induction false} DisabledStays(w: World, es: seq<Event>, w': World, l: nat)
    requires Inv(w) && Runs(w, es, w') && l < |w.latches| && Setting(w, l) == Disabled
    ensures l < |w'.latches| && Setting(w', l) == Disabled
    decreases |es|
  {
    if es != [] {
      SettingStep(w, es[0], l);
      KeptByNext(w, es[0]);
      DisabledStays(Next(w, es[0]), es[1..], w', l);
    }
  }

  lemma ReportedByPoll(w: World, e: Event, l: nat)
    requires Inv(w) && Applies(w, e) && l < |w.latches| && Setting(w, l) == Disabled && Reaches(w, e, l)
    ensures Next(w, e).latches[l].view.reports == 1
  {
    var fails := PolledAt(w, e, l);
    PollEntryTells(w.latches[l].view, fails);
  }

  /** A latch once disabled is disabled for good, whatever it was before and whatever comes after; its
      pipe has a byte until a poll has reported it; and the first poll that gets to it reports it. */
  lemma DisabledForGood(es: seq<Event>, w: World, l: nat, more: seq<Event>, w': World)
    requires Runs(Start(), es, w) && l < |w.latches| && Runs(Next(w, DisableLatch(l)), more, w')
    ensures l < |w'.latches| && Setting(w', l) == Disabled && w'.latches[l].view.reports <= 1
    ensures forall e: Event :: Applies(w', e) && Reaches(w', e, l) ==> Next(w', e).latches[l].view.reports == 1
    ensures var pipe := w'.latches[l].pipe;
            w'.latches[l].view.reports == 0 && pipe.Some? ==>
              pipe.value < |w'.pipes| && l in w'.pipes[pipe.value].list && w'.pipes[pipe.value].view.bytes == [0]
  {
    RunKeeps(Start(), es, w);
    SettingStep(w, DisableLatch(l), l);
    KeptByNext(w, DisableLatch(l));
    DisabledStays(Next(w, DisableLatch(l)), more, w', l);
    RunKeeps(Next(w, DisableLatch(l)), more, w');
    assert Attached(w', l) && ReportExact(w'.latches[l].view);
    forall e: Event | Applies(w', e) && Reaches(w', e, l) ensures Next(w', e).latches[l].view.reports == 1 {
      ReportedByPoll(w', e, l);
    }
  }

  // ---- no needless wakeup ----

  /** Nothing but latches wakes the pipe, no news is taken away behind its back, and polls get to the end. */
  predicate Plain(e: Event) {
    && !e.SetPipe? && !e.ResetLatch? && !e.UnbindLatch?
    && (e.PollPipe? ==> !e.eintr && forall i: nat :: i < |e.fails| ==> !e.fails[i])
  }

  predicate HasNews(w: World, p: nat)
    requires p < |w.pipes|
  {
    exists l: nat :: l in w.pipes[p].list && l < |w.latches| && Pending(w.latches[l].view)
  }

  predicate NoneNeedless(w: World) {
    && (forall p: nat :: p < |w.pipes| && w.pipes[p].view.signalled ==> HasNews(w, p))
    && (forall l: nat :: l < |w.latches| && !w.latches[l].view.armed ==> w.latches[l].pipe.Some?)
  }

  lemma NewsKept(w: World, w': World, p: nat)
    requires p < |w.pipes| && p < |w'.pipes| && HasNews(w, p) && |w.latches| <= |w'.latches|
    requires forall l: nat :: l in w.pipes[p].list ==> l in w'.pipes[p].list
    requires forall l: nat :: l in w.pipes[p].list && l < |w.latches| && Pending(w.latches[l].view)
                              ==> Pending(w'.latches[l].view)
    ensures HasNews(w', p)
  {
    var l: nat :| l in w.pipes[p].list && l < |w.latches| && Pending(w.latches[l].view);
    assert l in w'.pipes[p].list;
  }

  lemma SettingWakes(w: World, l: nat, e: Event, p: nat)
    requires Inv(w) && NoneNeedless(w) && l < |w.latches| && (e == SetLatch(l) || e == DisableLatch(l))
    requires p < |w.pipes| && Next(w, e).pipes[p].view.signalled
    ensures HasNews(Next(w, e), p)
  {
    var w' := Next(w, e);
    assert Attached(w, l) && ReportExact(w.latches[l].view);
    if w.pipes[p].view.signalled {
      NewsKept(w, w', p);
    } else {
      assert w.latches[l].pipe == Some(p) && Pending(w'.latches[l].view) && l in w'.pipes[p].list;
    }
  }

  lemma BindingWakes(w: World, l: nat, q: nat, p: nat)
    requires Inv(w) && NoneNeedless(w) && Applies(w, BindLatch(l, q))
    requires p < |w.pipes| && Next(w, BindLatch(l, q)).pipes[p].view.signalled
    ensures HasNews(Next(w, BindLatch(l, q)), p)
  {
    var w' := Next(w, BindLatch(l, q));
    assert ReportExact(w.latches[l].view);
    if w.pipes[p].view.signalled {
      NewsKept(w, w', p);
    } else {
      assert p == q && l in w'.pipes[p].list && Pending(w'.latches[l].view);
    }
  }

  lemma ListsApart(w: World, p: nat, q: nat)
    requires p < |w.pipes| && q < |w.pipes| && p != q && Lists(w, p) && Lists(w, q)
    ensures forall l: nat :: l in w.pipes[p].list ==> l !in w.pipes[q].list
  {
  }

  lemma PollingLeavesNone(w: World, e: Event, p: nat)
    requires Inv(w) && NoneNeedless(w) && Applies(w, e) && e.PollPipe? && Plain(e)
    requires p < |w.pipes| && Next(w, e).pipes[p].view.signalled
    ensures HasNews(Next(w, e), p)
  {
    var w', list := Next(w, e), w.pipes[e.p].list;
    if w.pipes[e.p].view.signalled {
      assert Lists(w, e.p) && Lists(w, p) && PipeExact(w.pipes[e.p].view);
      PollEachTells(w.latches, list, e.fails);
      assert p != e.p && w'.pipes[p] == w.pipes[p];
      ListsApart(w, p, e.p);
      NewsKept(w, w', p);
    }
  }

  lemma ArmedKept(w: World, e: Event)
    requires Inv(w) && NoneNeedless(w) && Applies(w, e) && Plain(e)
    ensures forall l: nat :: l < |Next(w, e).latches| && !Next(w, e).latches[l].view.armed
                             ==> Next(w, e).latches[l].pipe.Some?
  {
    if e.PollPipe? {
      forall l: nat | l < |w.latches| && !Next(w, e).latches[l].view.armed ensures Next(w, e).latches[l].pipe.Some? {
        assert Lists(w, e.p);
        var _ := PolledAt(w, e, l);
      }
    }
  }

  lemma CreatedQuiet(w: World, e: Event, p: nat)
    requires Inv(w) && NoneNeedless(w) && (e == CreateLatch || e == CreatePipe)
    requires p < |Next(w, e).pipes| && Next(w, e).pipes[p].view.signalled
    ensures HasNews(Next(w, e), p)
  {
    NewsKept(w, Next(w, e), p);
  }

  lemma NoneNeedlessStep(w: World, e: Event)
    requires Inv(w) && NoneNeedless(w) && Applies(w, e) && Plain(e)
    ensures NoneNeedless(Next(w, e))
  {
    ArmedKept(w, e);
    forall p: nat | p < |Next(w, e).pipes| && Next(w, e).pipes[p].view.signalled ensures HasNews(Next(w, e), p) {
      match e
      case CreateLatch => CreatedQuiet(w, e, p);
      case CreatePipe => CreatedQuiet(w, e, p);
      case SetLatch(l) => SettingWakes(w, l, e, p);
      case DisableLatch(l) => SettingWakes(w, l, e, p);
      case BindLatch(l, q) => BindingWakes(w, l, q, p);
      case PollPipe(_, _, _) => PollingLeavesNone(w, e, p);
    }
  }

  lemma {:induction false} NoneNeedlessStays(w: World, es: seq<Event>, w': World)
    requires Inv(w) && NoneNeedless(w) && Runs(w, es, w')
    requires forall i: nat :: i < |es| ==> Plain(es[i])
    ensures NoneNeedless(w')
    decreases |es|
  {
    if es != [] {
      KeptByNext(w, es[0]);
      NoneNeedlessStep(w, es[0]);
      NoneNeedlessStays(Next(w, es[0]), es[1..], w');
    }
  }

  /** While only latches wake the pipe and polls get to the end, it holds its byte exactly when some
      latch on its list has news. */
  lemma AwakeIffNews(es: seq<Event>, w: World, p: nat)
    requires Runs(Start(), es, w) && p < |w.pipes|
    requires forall i: nat :: i < |es| ==> Plain(es[i])
    ensures w.pipes[p].view.bytes == [0] <==> HasNews(w, p)
    ensures w.pipes[p].view.bytes == [] <==> !HasNews(w, p)
  {
    RunKeeps(Start(), es, w);
    NoneNeedlessStays(Start(), es, w);
    assert Lists(w, p) && PipeExact(w.pipes[p].view);
    if HasNews(w, p) {
      var l: nat :| l in w.pipes[p].list && l < |w.latches| && Pending(w.latches[l].view);
      assert Attached(w, l);
    }
  }
}
