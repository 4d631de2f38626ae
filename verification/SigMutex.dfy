/** The recursive, signal blocking mutex (struct Ert_ThreadSigMutex of src/thread.c) as a
    protocol between any number of threads.

    A step is one access to the shared fields, one operation on the inner mutex or the condition
    variable, or one change of the thread's own signal mask.  The depth is read and lowered by
    its owner outside the inner mutex, just as in the source. */
module SigMutex {
  import opened Common

  type Tid = nat
  type SigSet = set<int>

  /** sigfillset() */
  const ALL: SigSet := set n | 1 <= n <= 64

  datatype Pc =
    | Idle
    // ert_lockThreadSigMutex
    | Acquiring | Testing | Comparing | Sleeping | Woken | Retesting
    | Bumping | Stamping | Leaving | Restoring
    // ert_unlockThreadSigMutex
    | Reading | Lowering | Saving | Relocking | Clearing | Signalling | Unlocking | Unmasking
    // ert_ownThreadSigMutexLocked
    | QAcquiring | QReading | QComparing | QLeaving

  /** A thread: where it is, its signal mask, the mask and the depth it keeps in local variables,
      how many times it holds the mutex, and its mask before the outermost of these locks. */
  datatype Thread = Thread(pc: Pc, mask: SigSet, saved: SigSet, locked: nat, depth: nat, entry: SigSet)

  /** The inner mutex, the fields of the structure, and the threads. */
  datatype State = State(inner: Option<Tid>, mLocked: nat, mOwner: Tid, mMask: SigSet, threads: seq<Thread>)

  ghost predicate Init(s: State) {
    && s.inner == None && s.mLocked == 0
    && forall t: Tid :: t < |s.threads| ==> s.threads[t].pc == Idle && s.threads[t].depth == 0
  }

  function Put(s: State, t: Tid, th: Thread): State
    requires t < |s.threads|
  {
    s.(threads := s.threads[t := th])
  }

  predicate Asleep(s: State, t: Tid) {
    t < |s.threads| && s.threads[t].pc.Sleeping?
  }

  /** A call made, or its signal mask changed while it does not hold the mutex, by the client. */
  ghost predicate Begin(s: State, t: Tid, s': State)
    requires t < |s.threads|
  {
    var th := s.threads[t];
    && th.pc == Idle
    && (|| s' == Put(s, t, th.(pc := Acquiring, saved := th.mask, mask := th.mask + ALL,
                               entry := if th.depth == 0 then th.mask else th.entry))
        || (th.depth > 0 && s' == Put(s, t, th.(pc := Reading)))
        || s' == Put(s, t, th.(pc := QAcquiring))
        || (th.depth == 0 && exists m: SigSet :: s' == Put(s, t, th.(mask := m))))
  }

  /** pthread_cond_wait() returns although nobody signalled. */
  predicate Spurious(s: State, t: Tid, s': State)
    requires t < |s.threads|
  {
    Asleep(s, t) && s' == Put(s, t, s.threads[t].(pc := Woken))
  }

  /** Can t take the inner mutex, if that is what its next step needs? */
  predicate InnerFree(s: State, pc: Pc) {
    pc.Acquiring? || pc.Woken? || pc.Relocking? || pc.QAcquiring? ==> s.inner == None
  }

  predicate InLockCall(pc: Pc) {
    || pc.Acquiring? || pc.Testing? || pc.Comparing? || pc.Woken? || pc.Retesting? || pc.Bumping?
    || pc.Stamping? || pc.Leaving? || pc.Restoring?
  }

  predicate InUnlockCall(pc: Pc) {
    || pc.Reading? || pc.Lowering? || pc.Saving? || pc.Relocking? || pc.Clearing? || pc.Signalling?
    || pc.Unlocking? || pc.Unmasking?
  }

  predicate InQueryCall(pc: Pc) {
    pc.QAcquiring? || pc.QReading? || pc.QComparing? || pc.QLeaving?
  }

  /** One step of ert_lockThreadSigMutex. */
  function LockStep(s: State, t: Tid): State
    requires t < |s.threads|
  {
    var th := s.threads[t];
    match th.pc
    case Acquiring => Put(s, t, th.(pc := Testing)).(inner := Some(t))
    case Testing => Put(s, t, th.(pc := if s.mLocked != 0 then Comparing else Bumping))
    case Comparing =>
      if s.mOwner != t then Put(s, t, th.(pc := Sleeping)).(inner := None)
      else Put(s, t, th.(pc := Bumping))
    case Woken => Put(s, t, th.(pc := Retesting)).(inner := Some(t))
    case Retesting =>
      if s.mLocked != 0 then Put(s, t, th.(pc := Sleeping)).(inner := None)
      else Put(s, t, th.(pc := Bumping))
    case Bumping =>
      Put(s, t, th.(pc := if s.mLocked + 1 == 1 then Stamping else Leaving, depth := th.depth + 1))
      .(mLocked := s.mLocked + 1)
    case Stamping => Put(s, t, th.(pc := Leaving)).(mMask := th.saved, mOwner := t)
    case Leaving => Put(s, t, th.(pc := Restoring)).(inner := None)
    case Restoring => Put(s, t, th.(pc := Idle, mask := if s.mLocked != 1 then th.saved else th.mask))
    case _ => s
  }

  predicate Lock(s: State, t: Tid, s': State)
    requires t < |s.threads|
  {
    InLockCall(s.threads[t].pc) && InnerFree(s, s.threads[t].pc) && s' == LockStep(s, t)
  }

  /** An unsigned decrement; the invariant excludes zero wherever a step makes one. */
  function Less(n: nat): nat {
    if n == 0 then 0 else n - 1
  }

  /** One step of ert_unlockThreadSigMutex; a signal wakes u if u sleeps. */
  function UnlockStep(s: State, t: Tid, u: Tid): State
    requires t < |s.threads|
  {
    var th := s.threads[t];
    match th.pc
    case Reading => Put(s, t, th.(locked := Less(s.mLocked), pc := if Less(s.mLocked) != 0 then Lowering else Saving))
    case Lowering => Put(s, t, th.(pc := Idle, depth := Less(th.depth))).(mLocked := th.locked)
    case Saving => Put(s, t, th.(pc := Relocking, saved := s.mMask))
    case Relocking => Put(s, t, th.(pc := Clearing)).(inner := Some(t))
    case Clearing => Put(s, t, th.(pc := Signalling, depth := Less(th.depth))).(mLocked := 0)
    case Signalling => Put(if Asleep(s, u) then Put(s, u, s.threads[u].(pc := Woken)) else s, t, th.(pc := Unlocking))
    case Unlocking => Put(s, t, th.(pc := Unmasking)).(inner := None)
    case Unmasking => Put(s, t, th.(pc := Idle, mask := th.saved))
    case _ => s
  }

  ghost predicate Unlock(s: State, t: Tid, s': State)
    requires t < |s.threads|
  {
    && InUnlockCall(s.threads[t].pc) && InnerFree(s, s.threads[t].pc)
    && exists u: Tid :: s' == UnlockStep(s, t, u) && ((exists v: Tid :: Asleep(s, v)) ==> Asleep(s, u))
  }

  /** One step of ert_ownThreadSigMutexLocked. */
  function QueryStep(s: State, t: Tid): State
    requires t < |s.threads|
  {
    var th := s.threads[t];
    match th.pc
    case QAcquiring => Put(s, t, th.(pc := QReading)).(inner := Some(t))
    case QReading => Put(s, t, th.(pc := QComparing, locked := s.mLocked))
    case QComparing => Put(s, t, th.(pc := QLeaving, locked := if th.locked != 0 && s.mOwner != t then 0 else th.locked))
    case QLeaving => Put(s, t, th.(pc := Idle)).(inner := None)
    case _ => s
  }

  predicate Query(s: State, t: Tid, s': State)
    requires t < |s.threads|
  {
    InQueryCall(s.threads[t].pc) && InnerFree(s, s.threads[t].pc) && s' == QueryStep(s, t)
  }

  /** A step the mutex itself takes: no new call and no spurious wakeup. */
  ghost predicate Advance(s: State, t: Tid, s': State) {
    t < |s.threads| && (Lock(s, t, s') || Unlock(s, t, s') || Query(s, t, s'))
  }

  ghost predicate Next(s: State, t: Tid, s': State) {
    t < |s.threads| && (Advance(s, t, s') || Begin(s, t, s') || Spurious(s, t, s'))
  }

  // The invariant.

  predicate HoldsInner(pc: Pc) {
    || pc.Testing? || pc.Comparing? || pc.Retesting? || pc.Bumping? || pc.Stamping? || pc.Leaving?
    || pc.Clearing? || pc.Signalling? || pc.Unlocking? || pc.QReading? || pc.QComparing? || pc.QLeaving?
  }

  /** Between blocking the signals and holding the mutex once more. */
  predicate InLock(th: Thread) {
    ALL <= th.mask && if th.depth == 0 then th.saved == th.entry else ALL <= th.saved
  }

  predicate PcFacts(s: State, th: Thread) {
    match th.pc
    case Idle => true
    case Acquiring | Testing => InLock(th)
    case Comparing => InLock(th) && s.mLocked != 0
    case Sleeping | Woken | Retesting => InLock(th) && th.depth == 0
    case Bumping => InLock(th) && s.mLocked == th.depth
    case Stamping => th.depth == 1 && th.saved == th.entry
    case Leaving | Restoring => th.depth > 0 && (th.depth > 1 ==> ALL <= th.saved)
    case Reading => th.depth > 0
    case Lowering => th.depth > 1 && th.locked == th.depth - 1
    case Saving => th.depth == 1
    case Relocking | Clearing => th.depth == 1 && th.saved == th.entry
    case Signalling | Unlocking | Unmasking => th.depth == 0 && th.saved == th.entry
    case QAcquiring | QReading => true
    case QComparing => (th.locked != 0 <==> s.mLocked != 0) && (th.depth > 0 ==> th.locked == th.depth)
    case QLeaving => th.locked == th.depth
  }

  predicate Local(s: State, t: Tid)
    requires t < |s.threads|
  {
    var th := s.threads[t];
    && (HoldsInner(th.pc) <==> s.inner == Some(t))
    && (th.depth > 0 ==> s.mLocked == th.depth && ALL <= th.mask)
    && (th.depth > 0 && th.pc != Stamping ==> s.mOwner == t && s.mMask == th.entry)
    && PcFacts(s, th)
  }

  predicate Holds(s: State, t: Tid) {
    t < |s.threads| && s.threads[t].depth > 0
  }

  ghost predicate OneHolder(s: State) {
    && (s.mLocked > 0 ==> exists t: Tid :: Holds(s, t))
    && forall t: Tid, u: Tid :: Holds(s, t) && Holds(s, u) ==> t == u
  }

  /** Someone who will look at the free mutex on behalf of the sleepers. */
  predicate Rousing(s: State, t: Tid) {
    t < |s.threads| && var pc := s.threads[t].pc; pc.Signalling? || pc.Woken? || pc.Retesting? || pc.Bumping?
  }

  ghost predicate NotStranded(s: State) {
    s.mLocked == 0 && (exists t: Tid :: Asleep(s, t)) ==> exists t: Tid :: Rousing(s, t)
  }

  ghost predicate Inv(s: State) {
    && (forall t: Tid :: t < |s.threads| ==> Local(s, t))
    && (s.inner != None ==> s.inner.value < |s.threads|)
    && OneHolder(s) && NotStranded(s)
  }

  // Every step keeps the invariant: first what concerns one thread at a time.

  /** Who reads a foreign owner under the inner mutex does not hold the mutex. */
  lemma NotOwner(s: State, t: Tid)
    requires Inv(s) && t < |s.threads| && s.inner == Some(t) && s.mLocked > 0 && s.threads[t].depth == 0
    ensures s.mOwner != t
  {
    var h: Tid :| Holds(s, h);
    assert Local(s, h) && Local(s, t);
  }

  /** What the invariant says of the thread t that steps. */
  ghost predicate Ready(s: State, t: Tid) {
    && t < |s.threads| && Local(s, t)
    && (s.inner == Some(t) && s.mLocked > 0 && s.threads[t].depth == 0 ==> s.mOwner != t)
  }

  predicate Shape(s: State, t: Tid, s': State) {
    |s'.threads| == |s.threads| && (s'.inner == None || s'.inner == Some(t) || s'.inner == s.inner)
  }

  /** ... and of any other thread u. */
  ghost predicate Apart(s: State, t: Tid, u: Tid) {
    && Ready(s, t) && u < |s.threads| && u != t && Local(s, u)
    && (s.threads[t].depth == 0 || s.threads[u].depth == 0)
  }

  lemma InvReady(s: State, t: Tid)
    requires Inv(s) && t < |s.threads|
    ensures Ready(s, t)
    ensures forall u: Tid :: u < |s.threads| && u != t ==> Apart(s, t, u)
  {
    assert Local(s, t);
    if s.inner == Some(t) && s.mLocked > 0 && s.threads[t].depth == 0 {
      NotOwner(s, t);
    }
    forall u: Tid | u < |s.threads| && u != t ensures Apart(s, t, u) {
      assert Local(s, u);
      assert Holds(s, t) && Holds(s, u) ==> t == u;
    }
  }

  lemma LockKeepsOwn(s: State, t: Tid, s': State)
    requires Ready(s, t) && Lock(s, t, s')
    ensures Shape(s, t, s') && Local(s', t)
  {
  }

  /** A step that u does not notice: it leaves the fields alone, or u holds neither the mutex nor the
      inner one, or what u knows is only that the mutex is held. */
  predicate Unnoticed(s: State, u: Tid, s': State) {
    && u < |s.threads| == |s'.threads| && s'.threads[u] == s.threads[u]
    && (s'.inner == Some(u) <==> s.inner == Some(u))
    && (|| (s'.mLocked == s.mLocked && s'.mOwner == s.mOwner && s'.mMask == s.mMask)
        || (s.threads[u].depth == 0 && (s.inner == Some(u) ==> s.mLocked > 0 && s'.mLocked > 0)))
  }

  lemma UnnoticedKeeps(s: State, u: Tid, s': State)
    requires Unnoticed(s, u, s') && Local(s, u)
    ensures Local(s', u)
  {
  }

  lemma LockUnnoticed(s: State, t: Tid, s': State, u: Tid)
    requires Apart(s, t, u) && Lock(s, t, s')
    ensures Unnoticed(s, u, s')
  {
  }

  lemma UnlockKeepsOwn(s: State, t: Tid, s': State)
    requires Ready(s, t) && Unlock(s, t, s')
    ensures Shape(s, t, s') && Local(s', t)
  {
  }

  lemma SignalKeepsOther(s: State, t: Tid, s': State, u: Tid)
    requires Apart(s, t, u) && Unlock(s, t, s') && s.threads[t].pc == Signalling
    ensures |s'.threads| == |s.threads| && Local(s', u)
  {
  }

  lemma ReleaseUnnoticed(s: State, t: Tid, s': State, u: Tid)
    requires Apart(s, t, u) && Unlock(s, t, s') && s.threads[t].pc != Signalling
    ensures Unnoticed(s, u, s')
  {
  }

  lemma UnlockKeepsOther(s: State, t: Tid, s': State, u: Tid)
    requires Apart(s, t, u) && Unlock(s, t, s')
    ensures |s'.threads| == |s.threads| && Local(s', u)
  {
    if s.threads[t].pc == Signalling {
      SignalKeepsOther(s, t, s', u);
    } else {
      ReleaseUnnoticed(s, t, s', u);
      UnnoticedKeeps(s, u, s');
    }
  }

  lemma QueryKeepsOwn(s: State, t: Tid, s': State)
    requires Ready(s, t) && Query(s, t, s')
    ensures Shape(s, t, s') && Local(s', t)
  {
  }

  lemma QueryUnnoticed(s: State, t: Tid, s': State, u: Tid)
    requires Apart(s, t, u) && Query(s, t, s')
    ensures Unnoticed(s, u, s')
  {
  }

  lemma BeginKeepsOwn(s: State, t: Tid, s': State)
    requires Ready(s, t) && (Begin(s, t, s') || Spurious(s, t, s'))
    ensures Shape(s, t, s') && Local(s', t)
  {
  }

  lemma BeginUnnoticed(s: State, t: Tid, s': State, u: Tid)
    requires Apart(s, t, u) && (Begin(s, t, s') || Spurious(s, t, s'))
    ensures Unnoticed(s, u, s')
  {
  }

  lemma OwnKept(s: State, t: Tid, s': State)
    requires Ready(s, t) && Next(s, t, s')
    ensures Shape(s, t, s') && Local(s', t)
  {
    if Lock(s, t, s') {
      LockKeepsOwn(s, t, s');
    } else if Unlock(s, t, s') {
      UnlockKeepsOwn(s, t, s');
    } else if Query(s, t, s') {
      QueryKeepsOwn(s, t, s');
    } else {
      BeginKeepsOwn(s, t, s');
    }
  }

  lemma OtherKept(s: State, t: Tid, s': State, u: Tid)
    requires Apart(s, t, u) && Next(s, t, s')
    ensures |s'.threads| == |s.threads| && Local(s', u)
  {
    if Unlock(s, t, s') {
      UnlockKeepsOther(s, t, s', u);
    } else {
      if Lock(s, t, s') {
        LockUnnoticed(s, t, s', u);
      } else if Query(s, t, s') {
        QueryUnnoticed(s, t, s', u);
      } else {
        BeginUnnoticed(s, t, s', u);
      }
      UnnoticedKeeps(s, u, s');
    }
  }

  lemma LocalsKept(s: State, t: Tid, s': State)
    requires Inv(s) && Next(s, t, s')
    ensures Shape(s, t, s')
    ensures forall u: Tid :: u < |s'.threads| ==> Local(s', u)
  {
    InvReady(s, t);
    OwnKept(s, t, s');
    forall u: Tid | u < |s.threads| ensures Local(s', u) {
      if u != t { OtherKept(s, t, s', u); }
    }
  }

  /** How a step changes who holds the mutex. */
  ghost predicate DepthStep(s: State, t: Tid, s': State) {
    && t < |s.threads| && |s'.threads| == |s.threads|
    && (forall u: Tid :: u < |s.threads| && u != t ==> s'.threads[u].depth == s.threads[u].depth)
    && var d, d' := s.threads[t].depth, s'.threads[t].depth;
    && (d' > d ==> s.mLocked == d)
    && (d > 0 && d' == 0 ==> s'.mLocked == 0)
    && (s'.mLocked > 0 && d' == 0 ==> s.mLocked > 0)
  }

  lemma LockDepth(s: State, t: Tid, s': State)
    requires Ready(s, t) && Lock(s, t, s')
    ensures DepthStep(s, t, s')
  {
  }

  lemma UnlockDepth(s: State, t: Tid, s': State)
    requires Ready(s, t) && Unlock(s, t, s')
    ensures DepthStep(s, t, s')
  {
  }

  lemma DepthSteps(s: State, t: Tid, s': State)
    requires Ready(s, t) && Next(s, t, s')
    ensures DepthStep(s, t, s')
  {
    if Lock(s, t, s') {
      LockDepth(s, t, s');
    } else if Unlock(s, t, s') {
      UnlockDepth(s, t, s');
    }
  }

  lemma HolderKept(s: State, t: Tid, s': State)
    requires Inv(s) && DepthStep(s, t, s')
    ensures OneHolder(s')
  {
    assert forall u: Tid :: u != t ==> (Holds(s', u) <==> Holds(s, u));
    forall a: Tid, b: Tid | Holds(s', a) && Holds(s', b) ensures a == b {
      if a != t { AloneBeside(s, t, s', a); }
      if b != t { AloneBeside(s, t, s', b); }
    }
    if s'.mLocked > 0 && !Holds(s', t) {
      var h: Tid :| Holds(s, h);
      assert Holds(s', h);
    }
  }

  lemma AloneBeside(s: State, t: Tid, s': State, u: Tid)
    requires Inv(s) && DepthStep(s, t, s') && Holds(s, u) && u != t
    ensures !Holds(s', t)
    ensures forall v: Tid :: Holds(s, v) ==> v == u
  {
    assert Local(s, u);
    assert !Holds(s, t);
  }

  /** A step that leaves the mutex free keeps someone about who will look at it. */
  lemma RousingKept(s: State, t: Tid, s': State)
    requires Inv(s) && Next(s, t, s')
    ensures NotStranded(s')
  {
    InvReady(s, t);
    if s'.mLocked == 0 && exists u: Tid :: Asleep(s', u) {
      var u: Tid :| Asleep(s', u);
      if s.threads[t].pc == Clearing {
        assert Rousing(s', t);
      } else {
        StaysFree(s, t, s', u);
        var r: Tid :| Rousing(s, r);
        RousingStep(s, t, s', r);
      }
    }
  }

  /** The mutex was free and u asleep before, too. */
  predicate WasFree(s: State, u: Tid, s': State) {
    s'.mLocked == 0 && Asleep(s', u) ==> s.mLocked == 0 && Asleep(s, u)
  }

  lemma LockWasFree(s: State, t: Tid, s': State, u: Tid)
    requires Ready(s, t) && Lock(s, t, s')
    ensures WasFree(s, u, s')
  {
  }

  lemma UnlockWasFree(s: State, t: Tid, s': State, u: Tid)
    requires Ready(s, t) && Unlock(s, t, s') && s.threads[t].pc != Clearing
    ensures WasFree(s, u, s')
  {
  }

  lemma StaysFree(s: State, t: Tid, s': State, u: Tid)
    requires Ready(s, t) && Next(s, t, s') && s'.mLocked == 0 && Asleep(s', u) && s.threads[t].pc != Clearing
    ensures s.mLocked == 0 && Asleep(s, u)
  {
    if Lock(s, t, s') {
      LockWasFree(s, t, s', u);
    } else if Unlock(s, t, s') {
      UnlockWasFree(s, t, s', u);
    }
  }

  lemma RousingStep(s: State, t: Tid, s': State, r: Tid)
    requires Ready(s, t) && Next(s, t, s') && s.mLocked == s'.mLocked == 0
    requires Rousing(s, r) && exists u: Tid :: Asleep(s, u)
    ensures exists r': Tid :: Rousing(s', r')
  {
    if s.threads[t].pc == Signalling {
      var u: Tid :| Asleep(s, u) && s' == UnlockStep(s, t, u);
      assert Rousing(s', u);
    } else {
      RousingStays(s, t, s', r);
    }
  }

  lemma RousingStays(s: State, t: Tid, s': State, r: Tid)
    requires Ready(s, t) && Next(s, t, s') && s.mLocked == s'.mLocked == 0
    requires Rousing(s, r) && s.threads[t].pc != Signalling
    ensures Rousing(s', r)
  {
  }

  lemma StepKeepsInv(s: State, t: Tid, s': State)
    requires Inv(s) && Next(s, t, s')
    ensures Inv(s')
  {
    LocalsKept(s, t, s');
    InvReady(s, t);
    DepthSteps(s, t, s');
    HolderKept(s, t, s');
    RousingKept(s, t, s');
  }

  // Runs.

  /** Any number of threads, any interleaving: who steps is part of the run. */
  ghost predicate Run(states: seq<State>, who: seq<Tid>) {
    && |states| == |who| + 1 && Init(states[0])
    && forall i :: 0 <= i < |who| ==> Next(states[i], who[i], states[i + 1])
  }

  lemma {:induction false} RunKeepsInv(states: seq<State>, who: seq<Tid>, k: nat)
    requires Run(states, who) && k < |states|
    ensures Inv(states[k])
  {
    if k != 0 {
      RunKeepsInv(states, who, k - 1);
      StepKeepsInv(states[k - 1], who[k - 1], states[k]);
    }
  }

  // How deep a thread is in the mutex, told from the calls it has made.

  /** The step from s to s' ends a call of ert_lockThreadSigMutex by t. */
  predicate LockEnds(s: State, t: Tid, s': State) {
    t < |s.threads| && t < |s'.threads| && InLockCall(s.threads[t].pc) && s'.threads[t].pc.Idle?
  }

  predicate UnlockEnds(s: State, t: Tid, s': State) {
    t < |s.threads| && t < |s'.threads| && InUnlockCall(s.threads[t].pc) && s'.threads[t].pc.Idle?
  }

  function Ended(s: State, t: Tid, s': State): int {
    (if LockEnds(s, t, s') then 1 else 0) - (if UnlockEnds(s, t, s') then 1 else 0)
  }

  /** The lock calls t has completed in the first k steps less its completed unlock calls. */
  function Nesting(states: seq<State>, t: Tid, k: nat): int
    requires k < |states|
  {
    if k == 0 then 0 else Nesting(states, t, k - 1) + Ended(states[k - 1], t, states[k])
  }

  /** A call under way that has already taken the mutex, or given it up. */
  function UnderWay(pc: Pc): int {
    if pc.Stamping? || pc.Leaving? || pc.Restoring? then 1
    else if pc.Signalling? || pc.Unlocking? || pc.Unmasking? then -1
    else 0
  }

  /** How often t has the mutex after k steps. */
  function Depth(states: seq<State>, t: Tid, k: nat): int
    requires k < |states| && t < |states[k].threads|
  {
    Nesting(states, t, k) + UnderWay(states[k].threads[t].pc)
  }

  /** A step changes the depth of t by the calls of t that it ends. */
  predicate Counted(s: State, t: Tid, s': State)
    requires t < |s.threads|
  {
    && |s'.threads| == |s.threads|
    && s'.threads[t].depth - UnderWay(s'.threads[t].pc)
       == s.threads[t].depth - UnderWay(s.threads[t].pc) + Ended(s, t, s')
  }

  lemma CountedLock(s: State, t: Tid, s': State)
    requires Ready(s, t) && Lock(s, t, s')
    ensures Counted(s, t, s')
  {
  }

  lemma CountedUnlock(s: State, t: Tid, s': State)
    requires Ready(s, t) && Unlock(s, t, s')
    ensures Counted(s, t, s')
  {
  }

  lemma CountedElse(s: State, t: Tid, s': State)
    requires Ready(s, t) && (Query(s, t, s') || Begin(s, t, s') || Spurious(s, t, s'))
    ensures Counted(s, t, s')
  {
  }

  lemma CountedOther(s: State, u: Tid, s': State, t: Tid)
    requires Apart(s, u, t) && Next(s, u, s')
    ensures Counted(s, t, s')
  {
    if Unlock(s, u, s') {
      CountedOtherUnlock(s, u, s', t);
    } else {
      if Lock(s, u, s') {
        LockUnnoticed(s, u, s', t);
      } else if Query(s, u, s') {
        QueryUnnoticed(s, u, s', t);
      } else {
        BeginUnnoticed(s, u, s', t);
      }
    }
  }

  lemma CountedOtherUnlock(s: State, u: Tid, s': State, t: Tid)
    requires Apart(s, u, t) && Unlock(s, u, s')
    ensures Counted(s, t, s')
  {
  }

  lemma CountedStep(s: State, u: Tid, s': State, t: Tid)
    requires Inv(s) && Next(s, u, s') && t < |s.threads|
    ensures Counted(s, t, s')
  {
    InvReady(s, u);
    if u != t {
      CountedOther(s, u, s', t);
    } else if Lock(s, t, s') {
      CountedLock(s, t, s');
    } else if Unlock(s, t, s') {
      CountedUnlock(s, t, s');
    } else {
      CountedElse(s, t, s');
    }
  }

  /** The depth each thread is given is how often it has the mutex. */
  lemma {:induction false} DepthCounts(states: seq<State>, who: seq<Tid>, k: nat, t: Tid)
    requires Run(states, who) && k < |states| && t < |states[k].threads|
    ensures states[k].threads[t].depth == Depth(states, t, k)
  {
    if k != 0 {
      RunKeepsInv(states, who, k - 1);
      SameThreads(states[k - 1], who[k - 1], states[k]);
      DepthCounts(states, who, k - 1, t);
      CountedStep(states[k - 1], who[k - 1], states[k], t);
    }
  }

  lemma SameThreads(s: State, t: Tid, s': State)
    requires Inv(s) && Next(s, t, s')
    ensures |s'.threads| == |s.threads|
  {
    LocalsKept(s, t, s');
  }

  /** t has the mutex after k steps: it has taken it more often than it gave it up. */
  predicate Has(states: seq<State>, t: Tid, k: nat)
    requires k < |states|
  {
    t < |states[k].threads| && Depth(states, t, k) > 0
  }

  /** At most one thread has taken the mutex more often than it gave it up; mLocked is by how much, and
      zero exactly when there is no such thread.  Nobody gives it up more often than it took it. */
  lemma MutualExclusion(states: seq<State>, who: seq<Tid>, k: nat)
    requires Run(states, who) && k < |states|
    ensures forall t: Tid :: t < |states[k].threads| ==> Depth(states, t, k) >= 0
    ensures forall t: Tid :: Has(states, t, k) ==> states[k].mLocked == Depth(states, t, k)
    ensures forall t: Tid, u: Tid :: Has(states, t, k) && Has(states, u, k) ==> t == u
    ensures states[k].mLocked > 0 <==> exists t: Tid :: Has(states, t, k)
  {
    var s := states[k];
    RunKeepsInv(states, who, k);
    forall t: Tid
      ensures Has(states, t, k) <==> Holds(s, t)
      ensures t < |s.threads| ==> Depth(states, t, k) == s.threads[t].depth && Local(s, t)
    {
      if t < |s.threads| { DepthCounts(states, who, k, t); }
    }
    if s.mLocked > 0 {
      var h: Tid :| Holds(s, h);
      assert Has(states, h, k);
    }
  }

  /** No release strands a sleeper: whenever the mutex is free while some waiter sleeps, another
      thread is on its way to signal or to test the mutex; and when nobody is inside the inner mutex
      that thread is a waiter already awake. */
  lemma NoSleeperStranded(states: seq<State>, who: seq<Tid>, k: nat, t: Tid)
    requires Run(states, who) && k < |states|
    requires states[k].mLocked == 0 && Asleep(states[k], t)
    ensures exists u: Tid :: Rousing(states[k], u) && (states[k].inner == None ==> states[k].threads[u].pc == Woken)
  {
    RunKeepsInv(states, who, k);
    var r: Tid :| Rousing(states[k], r);
    assert Local(states[k], r);
  }

  /** The protocol itself never deadlocks: when no thread can advance without a new call or a
      spurious wakeup and some call is unfinished, the mutex is held by a thread that is outside
      any call. */
  lemma StuckOnlyOnHolder(states: seq<State>, who: seq<Tid>, k: nat, t: Tid)
    requires Run(states, who) && k < |states|
    requires forall u: Tid, s' :: !Advance(states[k], u, s')
    requires t < |states[k].threads| && states[k].threads[t].pc != Idle
    ensures exists h: Tid :: Has(states, h, k) && states[k].threads[h].pc == Idle
  {
    var s := states[k];
    RunKeepsInv(states, who, k);
    if s.inner != None {
      InvReady(s, s.inner.value);
      CanAdvance(s, s.inner.value);
    }
    forall u: Tid | u < |s.threads| ensures s.threads[u].pc in {Idle, Sleeping} {
      InvReady(s, u);
      if s.threads[u].pc !in {Idle, Sleeping} {
        CanAdvance(s, u);
      }
    }
    assert Asleep(s, t);
    var h: Tid :| Holds(s, h);
    assert Local(s, h);
    DepthCounts(states, who, k, h);
    assert Has(states, h, k);
  }

  lemma CanAdvance(s: State, u: Tid)
    requires Ready(s, u) && s.threads[u].pc !in {Idle, Sleeping}
    requires s.inner == None || s.inner == Some(u)
    ensures exists s' :: Advance(s, u, s')
  {
    var v: Tid := 0;
    if w: Tid :| Asleep(s, w) {
      v := w;
    }
    if InLockCall(s.threads[u].pc) {
      assert Advance(s, u, LockStep(s, u));
    } else if InUnlockCall(s.threads[u].pc) {
      assert Advance(s, u, UnlockStep(s, u, v));
    } else {
      assert Advance(s, u, QueryStep(s, u));
    }
  }

  /** A thread outside any call may always lock and query, and it may unlock exactly when it has the mutex. */
  lemma CallsOpen(states: seq<State>, who: seq<Tid>, k: nat, t: Tid)
    requires Run(states, who) && k < |states| && t < |states[k].threads| && states[k].threads[t].pc.Idle?
    ensures exists s' :: Next(states[k], t, s') && t < |s'.threads| && s'.threads[t].pc.Acquiring?
    ensures exists s' :: Next(states[k], t, s') && t < |s'.threads| && s'.threads[t].pc.QAcquiring?
    ensures (exists s' :: Next(states[k], t, s') && t < |s'.threads| && s'.threads[t].pc.Reading?) <==> Has(states, t, k)
  {
    var s, th := states[k], states[k].threads[t];
    DepthCounts(states, who, k, t);
    assert Begin(s, t, Put(s, t, th.(pc := Acquiring, saved := th.mask, mask := th.mask + ALL,
                                     entry := if th.depth == 0 then th.mask else th.entry)));
    assert Begin(s, t, Put(s, t, th.(pc := QAcquiring)));
    assert th.depth > 0 ==> Begin(s, t, Put(s, t, th.(pc := Reading)));
  }

  /** How many steps a lock call still takes when nobody is in its way. */
  function StepsLeft(pc: Pc): nat {
    match pc
    case Acquiring => 6
    case Testing => 5
    case Comparing => 4
    case Bumping => 3
    case Stamping => 2
    case Leaving => 1
    case _ => 0
  }

  /** One thread only, and it is in a lock call or in none; n is how deep it will be. */
  ghost predicate Lone(states: seq<State>, who: seq<Tid>, n: nat) {
    Run(states, who) &&
    var s := states[|states| - 1];
    && |s.threads| == 1
    && var th := s.threads[0];
    && (th.pc.Idle? || th.pc.Restoring? || StepsLeft(th.pc) > 0)
    && n == th.depth + if StepsLeft(th.pc) >= 3 then 1 else 0
  }

  lemma Extended(states: seq<State>, who: seq<Tid>, t: Tid, s': State)
    requires Run(states, who) && Next(states[|states| - 1], t, s')
    ensures Run(states + [s'], who + [t])
  {
    var all := states + [s'];
    forall i | 0 <= i < |who + [t]| ensures Next(all[i], (who + [t])[i], all[i + 1]) {
      assert i < |who| ==> all[i] == states[i] && all[i + 1] == states[i + 1];
    }
  }

  lemma LoneStep(s: State)
    requires Inv(s) && |s.threads| == 1 && (s.threads[0].pc.Restoring? || StepsLeft(s.threads[0].pc) > 0)
    ensures Lock(s, 0, LockStep(s, 0))
    ensures var th, th' := s.threads[0], LockStep(s, 0).threads[0];
            && |LockStep(s, 0).threads| == 1
            && (th.pc.Restoring? ==> th'.pc.Idle?)
            && (StepsLeft(th.pc) > 0 ==> StepsLeft(th'.pc) < StepsLeft(th.pc))
            && (th'.pc.Idle? || th'.pc.Restoring? || StepsLeft(th'.pc) > 0)
            && th'.depth + (if StepsLeft(th'.pc) >= 3 then 1 else 0) == th.depth + if StepsLeft(th.pc) >= 3 then 1 else 0
  {
    assert Local(s, 0);
    assert Holds(s, 0) || s.mLocked == 0;
  }

  lemma {:induction false} LoneFinishes(states: seq<State>, who: seq<Tid>, n: nat)
    returns (states': seq<State>, who': seq<Tid>)
    requires Lone(states, who, n)
    ensures Lone(states', who', n) && states'[|states'| - 1].threads[0].pc.Idle?
    decreases StepsLeft(states[|states| - 1].threads[0].pc), states[|states| - 1].threads[0].pc.Restoring?
  {
    var s := states[|states| - 1];
    if s.threads[0].pc.Idle? {
      states', who' := states, who;
    } else {
      RunKeepsInv(states, who, |states| - 1);
      LoneStep(s);
      Extended(states, who, 0, LockStep(s, 0));
      states', who' := LoneFinishes(states + [LockStep(s, 0)], who + [0], n);
    }
  }

  /** A thread can lock as often as it likes: there are runs to any depth. */
  lemma AnyDepthReached(n: nat) returns (states: seq<State>, who: seq<Tid>)
    ensures Run(states, who) && |states[|states| - 1].threads| == 1
    ensures Nesting(states, 0, |states| - 1) == n == states[|states| - 1].mLocked
  {
    states, who := LocksReached(n);
    RunKeepsInv(states, who, |states| - 1);
    DepthCounts(states, who, |states| - 1, 0);
    assert Local(states[|states| - 1], 0);
    assert n == 0 ==> !Holds(states[|states| - 1], 0);
  }

  lemma {:induction false} LocksReached(n: nat) returns (states: seq<State>, who: seq<Tid>)
    ensures Lone(states, who, n) && states[|states| - 1].threads[0].pc.Idle?
  {
    if n == 0 {
      states, who := [State(None, 0, 0, {}, [Thread(Idle, {}, {}, 0, 0, {})])], [];
    } else {
      states, who := LocksReached(n - 1);
      var s := states[|states| - 1];
      var th := s.threads[0];
      var s' := Put(s, 0, th.(pc := Acquiring, saved := th.mask, mask := th.mask + ALL,
                              entry := if th.depth == 0 then th.mask else th.entry));
      assert Begin(s, 0, s');
      Extended(states, who, 0, s');
      states, who := LoneFinishes(states + [s'], who + [0], n);
    }
  }

  /** ert_ownThreadSigMutexLocked: what a finished query answers is the number of locks that its caller has
      completed and not undone. */
  lemma QueryAnswers(states: seq<State>, who: seq<Tid>, k: nat, t: Tid)
    requires Run(states, who) && k < |states|
    requires t < |states[k].threads| && states[k].threads[t].pc == QLeaving
    ensures states[k].threads[t].locked == Nesting(states, t, k)
  {
    RunKeepsInv(states, who, k);
    DepthCounts(states, who, k, t);
    assert Local(states[k], t);
  }

  /** While a thread holds the mutex, all its signals are blocked. */
  lemma SignalsBlocked(states: seq<State>, who: seq<Tid>, k: nat, t: Tid)
    requires Run(states, who) && k < |states| && Has(states, t, k)
    ensures ALL <= states[k].threads[t].mask
  {
    RunKeepsInv(states, who, k);
    DepthCounts(states, who, k, t);
    assert Local(states[k], t);
  }

  /** The source's own checks never fail: whoever finishes a lock or begins an unlock is the
      owner, and the mutex is locked. */
  lemma EnsuresHold(states: seq<State>, who: seq<Tid>, k: nat, t: Tid)
    requires Run(states, who) && k < |states| && t < |states[k].threads|
    requires states[k].threads[t].pc.Restoring? || states[k].threads[t].pc.Reading?
    ensures states[k].mLocked > 0 && states[k].mOwner == t
  {
    RunKeepsInv(states, who, k);
    assert Local(states[k], t);
  }

  /** Thread t does not hold the mutex and is not in the middle of locking or unlocking it. */
  predicate Outside(s: State, t: Tid) {
    && t < |s.threads| && s.threads[t].depth == 0
    && (s.threads[t].pc.Idle? || InQueryCall(s.threads[t].pc))
  }

  /** A step leaves alone what t remembers of its mask, and puts that back if it takes t outside. */
  predicate EntrySafe(s: State, t: Tid, s': State)
    requires t < |s.threads|
  {
    && t < |s'.threads| && s'.threads[t].entry == s.threads[t].entry
    && (Outside(s', t) ==> s'.threads[t].mask == s.threads[t].entry)
  }

  lemma EntryOwnLock(s: State, t: Tid, s': State)
    requires Ready(s, t) && Lock(s, t, s') && !Outside(s, t)
    ensures EntrySafe(s, t, s')
  {
  }

  lemma EntryOwnUnlock(s: State, t: Tid, s': State)
    requires Ready(s, t) && Unlock(s, t, s') && !Outside(s, t)
    ensures EntrySafe(s, t, s')
  {
  }

  lemma EntryOwnQuery(s: State, t: Tid, s': State)
    requires Ready(s, t) && Query(s, t, s') && !Outside(s, t)
    ensures EntrySafe(s, t, s')
  {
  }

  lemma EntryOwnBegin(s: State, t: Tid, s': State)
    requires Ready(s, t) && Begin(s, t, s') && !Outside(s, t)
    ensures EntrySafe(s, t, s')
  {
  }

  lemma EntryOwnSpurious(s: State, t: Tid, s': State)
    requires Ready(s, t) && Spurious(s, t, s') && !Outside(s, t)
    ensures EntrySafe(s, t, s')
  {
  }

  lemma EntryOwn(s: State, t: Tid, s': State)
    requires Ready(s, t) && Next(s, t, s') && !Outside(s, t)
    ensures EntrySafe(s, t, s')
  {
    if Lock(s, t, s') { EntryOwnLock(s, t, s'); }
    else if Unlock(s, t, s') { EntryOwnUnlock(s, t, s'); }
    else if Query(s, t, s') { EntryOwnQuery(s, t, s'); }
    else if Begin(s, t, s') { EntryOwnBegin(s, t, s'); }
    else { EntryOwnSpurious(s, t, s'); }
  }

  lemma EntryOtherLock(s: State, u: Tid, s': State, t: Tid)
    requires Apart(s, u, t) && Lock(s, u, s') && !Outside(s, t)
    ensures EntrySafe(s, t, s') && !Outside(s', t)
  {
  }

  lemma EntryOtherUnlock(s: State, u: Tid, s': State, t: Tid)
    requires Apart(s, u, t) && Unlock(s, u, s') && !Outside(s, t)
    ensures EntrySafe(s, t, s') && !Outside(s', t)
  {
  }

  lemma EntryOtherQuery(s: State, u: Tid, s': State, t: Tid)
    requires Apart(s, u, t) && Query(s, u, s') && !Outside(s, t)
    ensures EntrySafe(s, t, s') && !Outside(s', t)
  {
  }

  lemma EntryOtherBegin(s: State, u: Tid, s': State, t: Tid)
    requires Apart(s, u, t) && Begin(s, u, s') && !Outside(s, t)
    ensures EntrySafe(s, t, s') && !Outside(s', t)
  {
  }

  lemma EntryOtherSpurious(s: State, u: Tid, s': State, t: Tid)
    requires Apart(s, u, t) && Spurious(s, u, s') && !Outside(s, t)
    ensures EntrySafe(s, t, s') && !Outside(s', t)
  {
  }

  lemma EntryOther(s: State, u: Tid, s': State, t: Tid)
    requires Apart(s, u, t) && Next(s, u, s') && !Outside(s, t)
    ensures EntrySafe(s, t, s') && !Outside(s', t)
  {
    if Lock(s, u, s') { EntryOtherLock(s, u, s', t); }
    else if Unlock(s, u, s') { EntryOtherUnlock(s, u, s', t); }
    else if Query(s, u, s') { EntryOtherQuery(s, u, s', t); }
    else if Begin(s, u, s') { EntryOtherBegin(s, u, s', t); }
    else { EntryOtherSpurious(s, u, s', t); }
  }

  lemma EntryStep(s: State, u: Tid, s': State, t: Tid)
    requires Inv(s) && Next(s, u, s') && t < |s.threads| && !Outside(s, t)
    ensures EntrySafe(s, t, s')
  {
    InvReady(s, u);
    if u == t { EntryOwn(s, t, s'); } else { EntryOther(s, u, s', t); }
  }

  lemma EntryTaken(s: State, t: Tid, s': State)
    requires Outside(s, t) && Next(s, t, s') && t < |s'.threads| && s'.threads[t].pc.Acquiring?
    ensures s'.threads[t].entry == s.threads[t].mask
  {
  }

  /** Thread t starts an outermost lock at step i of the run and is not back outside before k. */
  ghost predicate Busy(states: seq<State>, who: seq<Tid>, i: nat, k: nat, t: Tid) {
    && Run(states, who) && i < k < |states|
    && Outside(states[i], t) && who[i] == t
    && t < |states[i + 1].threads| && states[i + 1].threads[t].pc.Acquiring?
    && forall n :: i < n < k ==> !Outside(states[n], t)
  }

  lemma {:induction false} EntryKept(states: seq<State>, who: seq<Tid>, i: nat, k: nat, t: Tid)
    requires Busy(states, who, i, k, t)
    ensures t < |states[k].threads|
    ensures if Outside(states[k], t) then states[k].threads[t].mask == states[i].threads[t].mask
            else states[k].threads[t].entry == states[i].threads[t].mask
  {
    if k > i + 1 {
      EntryKept(states, who, i, k - 1, t);
      EntryStepAt(states, who, k, t);
    } else {
      EntryTakenAt(states, who, i, t);
    }
  }

  lemma EntryStepAt(states: seq<State>, who: seq<Tid>, k: nat, t: Tid)
    requires Run(states, who) && 0 < k < |states| && t < |states[k - 1].threads| && !Outside(states[k - 1], t)
    ensures t < |states[k].threads| && states[k].threads[t].entry == states[k - 1].threads[t].entry
    ensures Outside(states[k], t) ==> states[k].threads[t].mask == states[k - 1].threads[t].entry
  {
    RunKeepsInv(states, who, k - 1);
    EntryStep(states[k - 1], who[k - 1], states[k], t);
  }

  lemma EntryTakenAt(states: seq<State>, who: seq<Tid>, i: nat, t: Tid)
    requires Run(states, who) && i < |who| && Outside(states[i], t) && who[i] == t
    requires t < |states[i + 1].threads| && states[i + 1].threads[t].pc.Acquiring?
    ensures states[i + 1].threads[t].entry == states[i].threads[t].mask
  {
    EntryTaken(states[i], t, states[i + 1]);
  }

  /** However a thread locks and unlocks in between, once it is back outside its signal mask is
      what it was before the outermost lock. */
  lemma MaskRestored(states: seq<State>, who: seq<Tid>, i: nat, j: nat, t: Tid)
    requires Busy(states, who, i, j, t) && Outside(states[j], t)
    ensures states[j].threads[t].mask == states[i].threads[t].mask
  {
    EntryKept(states, who, i, j, t);
  }
}
