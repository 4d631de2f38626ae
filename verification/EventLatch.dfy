/** Event latches and the event pipe that wakes their poller (src/eventlatch.c, src/eventpipe.c).

    Each public operation is atomic.  A transfer of one byte either succeeds or fails with
    EINTR; the result of each callback is an input. */
module EventLatches {
  import opened Common

  datatype Setting = Disabled | Off | On

  /** A latch: its two event bits, whether its list entry still names it, and how many times it
      has been reported disabled. */
  datatype LatchView = LatchView(disabled: bool, data: bool, armed: bool, reports: nat)

  datatype PipeView = PipeView(signalled: bool, bytes: seq<int>)

  function SettingOf(l: LatchView): Setting {
    if l.disabled then Disabled else if l.data then On else Off
  }

  /** Is there something about this latch its poller has not been told? */
  predicate Pending(l: LatchView) {
    if l.disabled then l.armed else l.data
  }

  function PipeSet(p: PipeView): PipeView {
    if p.signalled then p else PipeView(true, p.bytes + [0])
  }

  function PipeReset(p: PipeView): PipeView {
    if p.signalled && p.bytes != [] then PipeView(false, p.bytes[1..]) else p
  }

  function LatchSet(l: LatchView): LatchView {
    if SettingOf(l) == Off then l.(data := true) else l
  }

  function LatchDisable(l: LatchView): LatchView {
    l.(disabled := true)
  }

  function LatchReset(l: LatchView): LatchView {
    if SettingOf(l) == On then l.(data := false) else l
  }

  /** ert_pollEventLatchListEntry: the latch afterwards, and -1, 0 or 1. */
  function PollEntry(l: LatchView, fails: bool): (LatchView, int) {
    if !l.armed || SettingOf(l) == Off then (l, 0)
    else (if l.disabled then l.(armed := false, reports := l.reports + 1) else LatchReset(l), if fails then -1 else 1)
  }

  /** The loop of ert_pollEventPipe over the listed latches, of which some are done: the latches
      afterwards, whether it gets to the end, and how many callbacks succeed. */
  function PollFrom(done: seq<LatchView>, count: nat, ls: seq<LatchView>, fails: seq<bool>): (seq<LatchView>, bool, nat)
    requires |ls| == |fails|
    decreases |ls|
  {
    if ls == [] then (done, true, count)
    else
      var (l, called) := PollEntry(ls[0], fails[0]);
      if called == -1 then (done + [l] + ls[1..], false, count)
      else PollFrom(done + [l], count + called, ls[1..], fails[1..])
  }

  class EventPipe {
    var mSignalled: bool
    var mPipe: seq<int>
    var mLatchList: seq<EventLatch>

    ghost function View(): PipeView
      reads this
    {
      PipeView(mSignalled, mPipe)
    }

    /** The pipe holds exactly one byte when signalled, and none otherwise. */
    ghost predicate Valid()
      reads this
    {
      mPipe == if mSignalled then [0] else []
    }

    constructor ()
      ensures Valid() && !mSignalled && mLatchList == []
    {
      mSignalled, mPipe, mLatchList := false, [], [];
    }

    /** ert_setEventPipe */
    method Set(eintr: bool) returns (rc: int)
      modifies this
      ensures View() == if eintr then old(View()) else PipeSet(old(View()))
      ensures rc == if old(mSignalled) then 0 else if eintr then -1 else 1
      ensures mLatchList == old(mLatchList)
    {
      if !mSignalled {
        if eintr {
          return -1;
        }
        mPipe := mPipe + [0];
        mSignalled := true;
        return 1;
      }
      return 0;
    }

    /** resetEventPipe_ */
    method Reset(eintr: bool) returns (rc: int)
      requires Valid()
      modifies this
      ensures View() == if eintr then old(View()) else PipeReset(old(View()))
      ensures rc == if !old(mSignalled) then 0 else if eintr then -1 else 1
      ensures mLatchList == old(mLatchList)
    {
      if mSignalled {
        if eintr {
          return -1;
        }
        var buf := mPipe[0];
        mPipe := mPipe[1..];
        assert buf == 0;
        mSignalled := false;
        return 1;
      }
      return 0;
    }

    /** ert_attachEventPipeLatch_ */
    method Attach(latch: EventLatch)
      modifies this`mLatchList
      ensures mLatchList == [latch] + old(mLatchList)
    {
      mLatchList := [latch] + mLatchList;
    }

    /** ert_detachEventPipeLatch_ */
    method Detach(latch: EventLatch)
      modifies this`mLatchList
      ensures mLatchList == Unlisted(old(mLatchList), latch)
    {
      mLatchList := Unlisted(mLatchList, latch);
    }
  }

  function Unlisted<T(==)>(list: seq<T>, x: T): (r: seq<T>)
    ensures forall y :: y in r ==> y in list
    ensures forall y :: y in list && y != x ==> y in r
  {
    if list == [] then [] else if list[0] == x then list[1..] else [list[0]] + Unlisted(list[1..], x)
  }

  class EventLatch {
    var mEvent: bv2
    var mPipe: EventPipe?
    var mListLatch: bool
    ghost var mReports: nat

    ghost function View(): LatchView
      reads this
    {
      LatchView(mEvent & 1 != 0, mEvent & 2 != 0, mListLatch, mReports)
    }

    constructor ()
      ensures View() == LatchView(false, false, true, 0) && mPipe == null
    {
      mEvent, mPipe, mListLatch, mReports := 0, null, true, 0;
    }

    /** ert_ownEventLatchSetting */
    method OwnSetting() returns (setting: Setting)
      ensures setting == SettingOf(View())
    {
      if mEvent & 1 != 0 {
        return Disabled;
      }
      return if mEvent & 2 != 0 then On else Off;
    }

    /** signalEventLatch_: tried again as often as it is interrupted. */
    method Signal(eintrs: nat)
      modifies mPipe
      ensures mPipe != null ==> mPipe.View() == PipeSet(old(mPipe.View())) && mPipe.mLatchList == old(mPipe.mLatchList)
    {
      if mPipe != null {
        var n := eintrs;
        var signalled := mPipe.Set(n != 0);
        while signalled == -1
          invariant signalled == -1 ==> n > 0 && mPipe.View() == old(mPipe.View())
          invariant signalled != -1 ==> mPipe.View() == PipeSet(old(mPipe.View()))
          invariant mPipe.mLatchList == old(mPipe.mLatchList)
          decreases n, signalled == -1
        {
          n := n - 1;
          signalled := mPipe.Set(n != 0);
        }
      }
    }

    /** ert_setEventLatch */
    method Set(eintrs: nat) returns (setting: Setting)
      modifies this`mEvent, mPipe
      ensures setting == SettingOf(old(View()))
      ensures View() == LatchSet(old(View()))
      ensures mPipe != null ==>
                && mPipe.mLatchList == old(mPipe.mLatchList)
                && mPipe.View() == if setting == Off then PipeSet(old(mPipe.View())) else old(mPipe.View())
    {
      setting := OwnSetting();
      if setting == Off {
        Signal(eintrs);
        mEvent := mEvent ^ 2;
      }
    }

    /** ert_disableEventLatch */
    method Disable(eintrs: nat) returns (setting: Setting)
      modifies this`mEvent, mPipe
      ensures setting == SettingOf(old(View()))
      ensures View() == LatchDisable(old(View()))
      ensures mPipe != null ==>
                && mPipe.mLatchList == old(mPipe.mLatchList)
                && mPipe.View() == if setting == Disabled then old(mPipe.View()) else PipeSet(old(mPipe.View()))
    {
      setting := OwnSetting();
      if setting != Disabled {
        Signal(eintrs);
        mEvent := mEvent ^ 1;
      }
    }

    /** ert_resetEventLatch */
    method Reset() returns (setting: Setting)
      modifies this`mEvent
      ensures setting == SettingOf(old(View()))
      ensures View() == LatchReset(old(View()))
    {
      setting := OwnSetting();
      if setting == On {
        mEvent := mEvent ^ 2;
      }
    }

    /** ert_pollEventLatchListEntry */
    method Poll(fails: bool) returns (called: int)
      modifies this`mEvent, this`mListLatch, this`mReports
      ensures (View(), called) == PollEntry(old(View()), fails)
    {
      if mListLatch {
        var setting := Reset();
        if setting != Off {
          if setting == Disabled {
            mListLatch := false;
            mReports := mReports + 1;
          }
          return if fails then -1 else 1;
        }
      }
      return 0;
    }

    /** bindEventLatchPipe_: binds to aPipe, or to no pipe at all. */
    method Bind(aPipe: EventPipe?, eintrs: nat) returns (setting: Setting)
      modifies this`mPipe, mPipe, aPipe
      ensures setting == SettingOf(old(View())) && View() == old(View()) && mPipe == aPipe
      ensures old(mPipe) != null && old(mPipe) != aPipe ==>
                && old(mPipe).View() == old(mPipe.View())
                && old(mPipe).mLatchList == Unlisted(old(mPipe.mLatchList), this)
      ensures aPipe != null && old(mPipe) != aPipe ==>
                && aPipe.mLatchList == [this] + old(aPipe.mLatchList)
                && aPipe.View() == if setting == Off then old(aPipe.View()) else PipeSet(old(aPipe.View()))
      ensures aPipe != null && old(mPipe) == aPipe ==>
                aPipe.View() == old(aPipe.View()) && aPipe.mLatchList == old(aPipe.mLatchList)
    {
      setting := OwnSetting();
      if mPipe != aPipe {
        if mPipe != null {
          mPipe.Detach(this);
        }
        mPipe := aPipe;
        if mPipe != null {
          mPipe.Attach(this);
          if setting != Off {
            Signal(eintrs);
          }
        }
      }
    }
  }

  ghost function Views(list: seq<EventLatch>): seq<LatchView>
    reads list
  {
    seq(|list|, i requires 0 <= i < |list| reads list => list[i].View())
  }

  /** ert_pollEventPipe */
  method PollPipe(pipe: EventPipe, fails: seq<bool>, eintr: bool) returns (rc: int)
    requires pipe.Valid() && |fails| == |pipe.mLatchList| && Distinct(pipe.mLatchList)
    modifies pipe, pipe.mLatchList
    ensures pipe.mLatchList == old(pipe.mLatchList)
    ensures var polled := PollFrom([], 0, old(Views(pipe.mLatchList)), fails);
            if !old(pipe.mSignalled)
            then rc == 0 && pipe.View() == old(pipe.View()) && Views(pipe.mLatchList) == old(Views(pipe.mLatchList))
            else && Views(pipe.mLatchList) == polled.0
                 && pipe.View() == (if polled.1 && !eintr then PipeReset(old(pipe.View())) else old(pipe.View()))
                 && rc == if polled.1 then (if eintr then -1 else polled.2) else if polled.2 == 0 then -1 else polled.2
  {
    if !pipe.mSignalled {
      return 0;
    }
    var called, pollCount := 0, 0;
    called, pollCount := PollList(pipe.mLatchList, fails);
    if called == -1 {
      return if pollCount == 0 then -1 else pollCount;
    }
    var signalled := pipe.Reset(eintr);
    if signalled == -1 {
      return -1;
    }
    assert 0 < signalled;
    return pollCount;
  }

  /** LIST_FOREACH over the entries, cut short by the first callback that fails. */
  method PollList(list: seq<EventLatch>, fails: seq<bool>) returns (called: int, pollCount: nat)
    requires |fails| == |list| && Distinct(list)
    modifies list
    ensures var polled := PollFrom([], 0, old(Views(list)), fails);
            Views(list) == polled.0 && pollCount == polled.2 && (called == -1 <==> !polled.1)
  {
    called, pollCount := 0, 0;
    ghost var vs := Views(list);
    ghost var polled := PollFrom([], 0, vs, fails);
    PollRestIsPollFrom(vs, fails);
    var iter := 0;
    while iter < |list|
      invariant 0 <= iter <= |list| && called != -1
      invariant Views(list) == vs && |vs| == |fails| && PollRest(vs, pollCount, fails, iter) == polled
    {
      called := PollAt(list, iter, fails[iter], vs);
      vs := vs[iter := PollEntry(vs[iter], fails[iter]).0];
      if called == -1 {
        return;
      }
      pollCount := pollCount + called;
      iter := iter + 1;
    }
  }

  /** Polling one entry leaves the latches of the others as they are. */
  method PollAt(list: seq<EventLatch>, iter: nat, fails: bool, ghost vs: seq<LatchView>) returns (called: int)
    requires iter < |list| && Distinct(list) && Views(list) == vs
    modifies list[iter]
    ensures called == PollEntry(vs[iter], fails).1
    ensures Views(list) == vs[iter := PollEntry(vs[iter], fails).0]
  {
    called := list[iter].Poll(fails);
    assert forall k :: 0 <= k < |list| && k != iter ==> list[k].View() == old(list[k].View());
  }

  /** With iter entries polled and count of their callbacks done, the rest of the loop gives polled. */
  /** The same loop by position: the latches at iter and behind it are to be polled. */
  function PollRest(vs: seq<LatchView>, count: nat, fails: seq<bool>, iter: nat): (seq<LatchView>, bool, nat)
    requires iter <= |vs| == |fails|
    decreases |vs| - iter
  {
    if iter == |vs| then (vs, true, count)
    else
      var (l, called) := PollEntry(vs[iter], fails[iter]);
      if called == -1 then (vs[iter := l], false, count)
      else PollRest(vs[iter := l], count + called, fails, iter + 1)
  }

  lemma PollRestIsPollFrom(vs: seq<LatchView>, fails: seq<bool>)
    requires |vs| == |fails|
    ensures PollRest(vs, 0, fails, 0) == PollFrom([], 0, vs, fails)
  {
    assert vs[..0] == [] && vs[0..] == vs && fails[0..] == fails;
    PollRestIs(vs, 0, fails, 0);
  }

  lemma {:induction false} PollRestIs(vs: seq<LatchView>, count: nat, fails: seq<bool>, iter: nat)
    requires iter <= |vs| == |fails|
    ensures PollRest(vs, count, fails, iter) == PollFrom(vs[..iter], count, vs[iter..], fails[iter..])
    decreases |vs| - iter
  {
    if iter == |vs| {
      assert vs[..iter] == vs;
    } else {
      var (l, called) := PollEntry(vs[iter], fails[iter]);
      PollOne(vs, fails, iter, l);
      if called != -1 {
        PollRestIs(vs[iter := l], count + called, fails, iter + 1);
      }
    }
  }

  /** The latch at iter, in front of what is left. */
  lemma PollOne(vs: seq<LatchView>, fails: seq<bool>, iter: nat, l: LatchView)
    requires iter < |vs| == |fails|
    ensures vs[iter..][0] == vs[iter] && fails[iter..][0] == fails[iter]
    ensures vs[iter..][1..] == vs[iter := l][iter + 1..] && fails[iter..][1..] == fails[iter + 1..]
    ensures vs[..iter] + [l] == vs[iter := l][..iter + 1]
    ensures vs[..iter] + [l] + vs[iter..][1..] == vs[iter := l]
  {
  }
}
