/** Deadlines that survive being stopped (src/deadline.c, ert_deadlineTimeExpired of
    src/timekeeping.c and the SIGCONT tracker of src/process.c).

    The event clock, the number of SIGCONTs delivered so far and the results of the two
    callbacks are inputs: a run is any sequence of checks. */
module Deadlines {
  import opened Common
  import opened Modular

  const WRAP64: nat := 0x1_0000_0000_0000_0000
  const WRAP32: nat := 0x1_0000_0000

  /** What a check returns: 1, 0, ETIMEDOUT, or another error. */
  datatype Reply = Ready | NotReady | TimedOut | Failed

  /** One check: the clock when it is latched, the number of SIGCONTs delivered by then and by
      the time the tracker is read, and what the poll and wait methods return. */
  datatype Check = Check(now: nat, sigAtEntry: nat, sigAtCheck: nat, poll: int, wait: int)

  /** fetchProcessSigContTracker_: the counter goes up by two for each signal and wraps. */
  function Fetch(signals: nat): nat {
    2 * signals % WRAP32 + 1
  }

  /** The fields of struct Ert_Deadline; an unset mark is 0. */
  datatype State = State(since: nat, time: nat, remaining: nat, tracker: nat, duration: Option<nat>, expired: bool)

  function Created(duration: Option<nat>, signals: nat): State {
    State(0, 0, 0, Fetch(signals), duration, false)
  }

  /** ert_deadlineTimeExpired: whether the period is over, the mark and what remains. */
  function TimeExpired(mark: nat, period: nat, now: nat): (bool, nat, nat) {
    if mark != 0 then
      var elapsed := if now >= mark then now - mark else now - mark + WRAP64;
      if elapsed >= period then (true, mark, 0) else (false, mark, period - elapsed)
    else (false, now, period)
  }

  function Step(s: State, c: Check): (State, Reply) {
    var t := s.(time := c.now);
    if c.poll == -1 then (t, Failed)
    else if t.duration.Some? then
      var (expired, mark, remaining) := TimeExpired(t.since, t.duration.value, c.now);
      var u := t.(since := mark, remaining := remaining);
      if expired then
        if u.tracker != Fetch(c.sigAtCheck)
        then (u.(since := 0, tracker := Fetch(c.sigAtCheck)), NotReady)
        else (u.(expired := true), TimedOut)
      else (u, WaitReply(c))
    else (t, WaitReply(c))
  }

  function WaitReply(c: Check): Reply {
    var ready := if c.poll == 0 then c.wait else c.poll;
    if ready == -1 then Failed else if ready == 1 then Ready else NotReady
  }

  class Deadline {
    var mSince: nat
    var mTime: nat
    var mRemaining: nat
    var mSigContTracker: nat
    var mDuration: Option<nat>
    var mExpired: bool

    ghost function View(): State
      reads this
    {
      State(mSince, mTime, mRemaining, mSigContTracker, mDuration, mExpired)
    }

    /** ert_createDeadline */
    constructor (aDuration: Option<nat>, signals: nat)
      ensures View() == Created(aDuration, signals)
    {
      mSince, mTime, mRemaining := 0, 0, 0;
      mSigContTracker := Fetch(signals);
      mDuration := aDuration;
      mExpired := false;
    }

    /** ert_checkProcessSigContTracker */
    method CheckTracker(signals: nat) returns (stopped: bool)
      modifies this`mSigContTracker
      ensures mSigContTracker == Fetch(signals)
      ensures stopped <==> old(mSigContTracker) != mSigContTracker
    {
      var sigContCount := mSigContTracker;
      mSigContTracker := Fetch(signals);
      stopped := sigContCount != mSigContTracker;
    }

    /** ert_checkDeadlineExpired */
    method CheckExpired(c: Check) returns (reply: Reply)
      requires 0 < c.now && -1 <= c.poll <= 1 && -1 <= c.wait <= 1
      modifies this
      ensures (View(), reply) == Step(old(View()), c)
    {
      mTime := c.now;
      var ready := c.poll;
      if ready == -1 {
        return Failed;
      }
      if mDuration.Some? {
        var (expired, mark, remaining) := TimeExpired(mSince, mDuration.value, mTime);
        mSince, mRemaining := mark, remaining;
        if expired {
          var stopped := CheckTracker(c.sigAtCheck);
          if stopped {
            mSince := 0;
            return NotReady;
          }
          mExpired := true;
          return TimedOut;
        }
      }
      if ready == 0 {
        ready := c.wait;
        if ready == -1 {
          return Failed;
        }
      }
      return if ready == 1 then Ready else NotReady;
    }
  }

  // Runs.

  /** A clock that never goes back and stays within 64 bits, and a count that only grows. */
  ghost predicate Plausible(signals: nat, run: seq<Check>) {
    && (forall i :: 0 <= i < |run| ==> 0 < run[i].now < WRAP64 && run[i].sigAtEntry <= run[i].sigAtCheck)
    && (forall i, j :: 0 <= i < j < |run| ==> run[i].now <= run[j].now && run[i].sigAtCheck <= run[j].sigAtEntry)
    && (run != [] ==> signals <= run[0].sigAtEntry)
  }

  ghost function After(start: State, run: seq<Check>): State {
    if run == [] then start else Step(After(start, run[..|run| - 1]), run[|run| - 1]).0
  }

  /** The reply to check k of the run. */
  ghost function ReplyAt(start: State, run: seq<Check>, k: nat): Reply
    requires k < |run|
  {
    Step(After(start, run[..k]), run[k]).1
  }

  /** How many SIGCONTs the tracker takes for none. */
  const TURN: nat := WRAP32 / 2

  /** What the checks so far come to: which of them set the mark now in force, or -1, and how many
      SIGCONTs had been delivered when the deadline last started afresh, or was created.  A check
      whose poll fails changes nothing; the first other one sets the mark; and one that finds the
      duration over and signals delivered since starts afresh. */
  datatype History = History(mark: int, anew: nat)

  ghost function Past(duration: Option<nat>, signals: nat, run: seq<Check>): (h: History)
    ensures -1 <= h.mark < |run|
  {
    if run == [] then History(-1, signals)
    else
      var k := |run| - 1;
      var h := Past(duration, signals, run[..k]);
      if run[k].poll == -1 || duration == None then h
      else if h.mark == -1 then History(k, h.anew)
      else if Over(duration, run, h.mark, k) && (run[k].sigAtCheck - h.anew) % TURN != 0
      then History(-1, run[k].sigAtCheck)
      else h
  }

  /** At check k the duration has passed since the check that set the mark. */
  ghost predicate Over(duration: Option<nat>, run: seq<Check>, mark: int, k: nat)
    requires k < |run|
  {
    duration.Some? && 0 <= mark < |run| && run[k].now - run[mark].now >= duration.value
  }

  ghost function SignalsBy(signals: nat, run: seq<Check>): nat {
    if run == [] then signals else run[|run| - 1].sigAtCheck
  }

  lemma FetchEqual(a: nat, b: nat)
    requires a <= b
    ensures Fetch(a) == Fetch(b) <==> (b - a) % TURN == 0
  {
    DoubledEqual(a, b, WRAP32 / 2);
  }

  /** The fields after any run, told from its history: the mark is the clock of the check that
      set it, and the tracker stands for the count when the deadline last started afresh, which
      was before the check that set the mark began. */
  ghost predicate Tracked(duration: Option<nat>, signals: nat, run: seq<Check>) {
    var s, h := After(Created(duration, signals), run), Past(duration, signals, run);
    && s.duration == duration && s.tracker == Fetch(h.anew)
    && signals <= h.anew <= SignalsBy(signals, run)
    && s.since == (if h.mark == -1 then 0 else run[h.mark].now)
    && (run != [] ==> s.time == run[|run| - 1].now)
    && (h.mark != -1 ==> 0 < s.since <= run[|run| - 1].now && h.anew <= run[h.mark].sigAtEntry)
  }

  lemma {:induction false} Tracks(duration: Option<nat>, signals: nat, run: seq<Check>)
    requires Plausible(signals, run)
    ensures Tracked(duration, signals, run)
  {
    if run != [] {
      Tracks(duration, signals, run[..|run| - 1]);
      TrackedStep(duration, signals, run);
    }
  }

  lemma TrackedStep(duration: Option<nat>, signals: nat, run: seq<Check>)
    requires Plausible(signals, run) && run != []
    requires Tracked(duration, signals, run[..|run| - 1])
    ensures Tracked(duration, signals, run)
  {
    var k := |run| - 1;
    var h := Past(duration, signals, run[..k]);
    assert h.mark != -1 ==> run[..k][h.mark] == run[h.mark];
    FetchEqual(h.anew, run[k].sigAtCheck);
  }

  /** The same just before check k. */
  lemma Known(duration: Option<nat>, signals: nat, run: seq<Check>, k: nat)
    requires Plausible(signals, run) && k < |run|
    ensures var s, h := After(Created(duration, signals), run[..k]), Past(duration, signals, run[..k]);
            && s.duration == duration && s.tracker == Fetch(h.anew) && s.since <= run[k].now
            && s.since == (if h.mark == -1 then 0 else run[h.mark].now)
            && (h.mark != -1 ==> 0 < s.since && h.anew <= run[h.mark].sigAtEntry)
            && signals <= h.anew <= run[k].sigAtCheck
  {
    var h := Past(duration, signals, run[..k]);
    Tracks(duration, signals, run[..k]);
    assert h.mark != -1 ==> run[..k][h.mark] == run[h.mark];
    assert k > 0 ==> run[..k][k - 1] == run[k - 1];
  }

  lemma StepReplies(s: State, c: Check)
    requires s.since <= c.now && -1 <= c.poll <= 1 && -1 <= c.wait <= 1
    ensures var over := s.duration.Some? && s.since != 0 && c.now - s.since >= s.duration.value;
            var same := s.tracker == Fetch(c.sigAtCheck);
            && (Step(s, c).1 == Ready <==> !over && (c.poll == 1 || (c.poll == 0 && c.wait == 1)))
            && (Step(s, c).1 == Failed <==> c.poll == -1 || (!over && c.poll == 0 && c.wait == -1))
            && (Step(s, c).1 == TimedOut <==> c.poll != -1 && over && same)
            && (Step(s, c).1 == NotReady <==> c.poll != -1 && if over then !same else c.poll == 0 && c.wait == 0)
  {
  }

  /** The reply to any check of any run.  Once the duration has passed since the mark was set it is a
      timeout, whatever the poll found, unless a SIGCONT was delivered since the deadline last started
      afresh (2^31 of them would look like none): then it is not ready.  Before that, and without a
      duration, it is what the poll says, or the wait if the poll says nothing. */
  lemma RepliesIff(duration: Option<nat>, signals: nat, run: seq<Check>, k: nat)
    requires Plausible(signals, run) && k < |run| && -1 <= run[k].poll <= 1 && -1 <= run[k].wait <= 1
    ensures var reply, h, c := ReplyAt(Created(duration, signals), run, k), Past(duration, signals, run[..k]), run[k];
            var over := Over(duration, run, h.mark, k);
            var stopped := (c.sigAtCheck - h.anew) % TURN != 0;
            && (reply == Ready <==> !over && (c.poll == 1 || (c.poll == 0 && c.wait == 1)))
            && (reply == Failed <==> c.poll == -1 || (!over && c.poll == 0 && c.wait == -1))
            && (reply == TimedOut <==> c.poll != -1 && over && !stopped)
            && (reply == NotReady <==> c.poll != -1 && if over then stopped else c.poll == 0 && c.wait == 0)
  {
    Known(duration, signals, run, k);
    StepReplies(After(Created(duration, signals), run[..k]), run[k]);
    FetchEqual(Past(duration, signals, run[..k]).anew, run[k].sigAtCheck);
  }

  lemma StepTimesOut(s: State, c: Check)
    requires s.since <= c.now
    ensures Step(s, c).1 == TimedOut
            <==> (&& c.poll != -1 && s.duration.Some? && s.since != 0 && c.now - s.since >= s.duration.value
                  && s.tracker == Fetch(c.sigAtCheck))
  {
  }

  /** A check reports a timeout exactly when a whole duration has passed since the earlier check
      that set the mark, and no SIGCONT was delivered since the deadline last started afresh
      (2^31 of them would look like none). */
  lemma TimeoutIff(duration: Option<nat>, signals: nat, run: seq<Check>, k: nat)
    requires Plausible(signals, run) && k < |run|
    ensures var h := Past(duration, signals, run[..k]);
            ReplyAt(Created(duration, signals), run, k) == TimedOut
            <==> (&& run[k].poll != -1 && duration.Some?
                  && 0 <= h.mark < k && run[k].now - run[h.mark].now >= duration.value
                  && (run[k].sigAtCheck - h.anew) % TURN == 0)
  {
    Known(duration, signals, run, k);
    StepTimesOut(After(Created(duration, signals), run[..k]), run[k]);
    FetchEqual(Past(duration, signals, run[..k]).anew, run[k].sigAtCheck);
  }

  /** In particular: a whole duration passed, with no SIGCONT from the start of the check that
      set the mark to the report. */
  lemma TimeoutMeansUninterrupted(duration: Option<nat>, signals: nat, run: seq<Check>, k: nat)
    requires Plausible(signals, run) && k < |run|
    requires ReplyAt(Created(duration, signals), run, k) == TimedOut
    requires run[k].sigAtCheck - signals < TURN
    ensures var mark := Past(duration, signals, run[..k]).mark;
            && 0 <= mark < k
            && duration.Some? && run[mark].now + duration.value <= run[k].now
            && run[mark].sigAtEntry == run[k].sigAtCheck
  {
    var h := Past(duration, signals, run[..k]);
    Known(duration, signals, run, k);
    TimeoutIff(duration, signals, run, k);
    BelowOneTurn(run[k].sigAtCheck - h.anew);
    assert run[h.mark].sigAtCheck <= run[k].sigAtEntry;
  }

  lemma BelowOneTurn(d: nat)
    requires d < TURN && d % TURN == 0
    ensures d == 0
  {
  }

  /** The wait method is never given more time than is left until the mark plus the duration. */
  lemma WaitsNoLonger(duration: Option<nat>, signals: nat, run: seq<Check>, k: nat)
    requires Plausible(signals, run) && k < |run|
    requires ReplyAt(Created(duration, signals), run, k) != TimedOut
    requires run[k].poll != -1 && duration.Some?
    ensures var mark := Past(duration, signals, run[..k + 1]).mark;
            var remaining := After(Created(duration, signals), run[..k + 1]).remaining;
            0 <= mark <= k ==> run[k].now + remaining == run[mark].now + duration.value
  {
    Known(duration, signals, run, k);
    KnownAfter(duration, signals, run, k);
    StepBudget(After(Created(duration, signals), run[..k]), run[k]);
  }

  lemma KnownAfter(duration: Option<nat>, signals: nat, run: seq<Check>, k: nat)
    requires Plausible(signals, run) && k < |run|
    ensures var s, mark := After(Created(duration, signals), run[..k + 1]), Past(duration, signals, run[..k + 1]).mark;
            && s == Step(After(Created(duration, signals), run[..k]), run[k]).0
            && (0 <= mark <= k ==> 0 < s.since == run[mark].now)
  {
    assert run[..k + 1][..k] == run[..k];
    Tracks(duration, signals, run[..k + 1]);
  }

  lemma StepBudget(s: State, c: Check)
    requires s.since <= c.now && c.poll != -1 && s.duration.Some? && Step(s, c).1 != TimedOut
    ensures Step(s, c).0.since != 0 ==> c.now + Step(s, c).0.remaining == Step(s, c).0.since + s.duration.value
  {
  }

  /** ert_ownDeadlineExpired() answers whether any check so far reported a timeout: it stays
      set, so a later error does not clear it. */
  lemma {:induction false} ExpiredIff(duration: Option<nat>, signals: nat, run: seq<Check>)
    ensures After(Created(duration, signals), run).expired
            <==> exists k :: 0 <= k < |run| && ReplyAt(Created(duration, signals), run, k) == TimedOut
  {
    var start := Created(duration, signals);
    if run != [] {
      var n := |run| - 1;
      ExpiredIff(duration, signals, run[..n]);
      forall k | 0 <= k < n ensures ReplyAt(start, run[..n], k) == ReplyAt(start, run, k) {
        assert run[..n][..k] == run[..k];
      }
      assert ReplyAt(start, run, n) == TimedOut <==> Step(After(start, run[..n]), run[n]).1 == TimedOut;
    }
  }

  /** For any duration: a first check sets the mark, a second one times out when the duration has passed,
      the poll of a third one fails, and the flag is still set. */
  lemma ExpiredOutlivesError(duration: nat, signals: nat)
    requires duration + 1 < WRAP64
    ensures var run := [Check(1, signals, signals, 0, 0), Check(1 + duration, signals, signals, 0, 0),
                        Check(1 + duration, signals, signals, -1, 0)];
            var start := Created(Some(duration), signals);
            && Plausible(signals, run)
            && ReplyAt(start, run, 1) == TimedOut && ReplyAt(start, run, 2) == Failed
            && After(start, run).expired
  {
    var start := Created(Some(duration), signals);
    var a, b := Check(1, signals, signals, 0, 0), Check(1 + duration, signals, signals, 0, 0);
    var c := b.(poll := -1);
    var run := [a, b, c];
    assert run[..2] == [a, b] && [a, b][..1] == [a] && run[..1] == [a] && [a][..0] == [];
    assert After(start, [a]) == Step(start, a).0;
    assert After(start, [a, b]) == Step(After(start, [a]), b).0;
  }
}
