/** What one thread's signal mask goes through when it locks and unlocks several mutexes of
    src/thread.c, one inside the other.  A mutex a thread holds is changed by nobody else
    (module SigMutex), so this part is sequential. */
module SigMask {
  import opened SigMutex

  type Id = nat

  datatype Mutex = Mutex(locked: nat, mMask: SigSet)

  /** The thread's mask and the mutexes as it finds them. */
  datatype Masks = Masks(mask: SigSet, mutexes: map<Id, Mutex>)

  function Find(s: Masks, m: Id): Mutex {
    if m in s.mutexes then s.mutexes[m] else Mutex(0, {})
  }

  function Locked(s: Masks, m: Id): Masks {
    var n := Find(s, m).locked + 1;
    Masks(if n == 1 then s.mask + ALL else s.mask,
          s.mutexes[m := Mutex(n, if n == 1 then s.mask else Find(s, m).mMask)])
  }

  function Unlocked(s: Masks, m: Id): Masks
    requires Find(s, m).locked > 0
  {
    var n := Find(s, m).locked - 1;
    Masks(if n == 0 then Find(s, m).mMask else s.mask, s.mutexes[m := Find(s, m).(locked := n)])
  }

  class SigThread {
    var mMask: SigSet
    var mMutexes: map<Id, Mutex>

    ghost function View(): Masks
      reads this
    {
      Masks(mMask, mMutexes)
    }

    /** ert_pushThreadSigMask with Ert_ThreadSigMaskBlock and no list */
    method PushMask() returns (saved: SigSet)
      modifies this`mMask
      ensures saved == old(mMask) && mMask == old(mMask) + ALL
    {
      saved := mMask;
      mMask := mMask + ALL;
    }

    /** ert_popThreadSigMask */
    method PopMask(saved: SigSet)
      modifies this`mMask
      ensures mMask == saved
    {
      mMask := saved;
    }

    /** ert_lockThreadSigMutex when nobody else has the mutex. */
    method Lock(m: Id)
      modifies this
      ensures View() == Locked(old(View()), m)
    {
      var threadSigMask := PushMask();
      var mutex := if m in mMutexes then mMutexes[m] else Mutex(0, {});
      mutex := mutex.(locked := mutex.locked + 1);
      if mutex.locked == 1 {
        mutex := mutex.(mMask := threadSigMask);
      }
      mMutexes := mMutexes[m := mutex];
      if mutex.locked != 1 {
        PopMask(threadSigMask);
      }
    }

    /** ert_unlockThreadSigMutex */
    method Unlock(m: Id)
      requires Find(View(), m).locked > 0
      modifies this
      ensures View() == Unlocked(old(View()), m)
    {
      var mutex := mMutexes[m];
      var locked := mutex.locked - 1;
      if locked != 0 {
        mMutexes := mMutexes[m := mutex.(locked := locked)];
      } else {
        var threadSigMask := mutex.mMask;
        mMutexes := mMutexes[m := mutex.(locked := 0)];
        PopMask(threadSigMask);
      }
    }
  }

  // Nested critical sections.

  /** Lock m, run the body, unlock m. */
  datatype Section = Section(m: Id, body: seq<Section>)

  function RunAll(s: Masks, body: seq<Section>): (s': Masks)
    ensures forall m :: Find(s', m).locked == Find(s, m).locked
    ensures forall m :: Find(s, m).locked > 0 ==> Find(s', m) == Find(s, m)
    decreases body
  {
    if body == [] then s
    else RunAll(RunOne(s, body[0]), body[1..])
  }

  function RunOne(s: Masks, section: Section): (s': Masks)
    ensures forall m :: Find(s', m).locked == Find(s, m).locked
    ensures forall m :: Find(s, m).locked > 0 ==> Find(s', m) == Find(s, m)
    decreases section
  {
    var inside := Locked(s, section.m);
    var after := RunAll(inside, section.body);
    assert Find(after, section.m) == Find(inside, section.m);
    assert forall m :: m != section.m ==> Find(inside, m) == Find(s, m);
    assert forall m :: m != section.m ==> Find(Unlocked(after, section.m), m) == Find(after, m);
    Unlocked(after, section.m)
  }

  /** Any properly nested sections, over any mutexes and any number of times, leave the mask as
      they found it. */
  lemma {:induction false} NestingRestoresMask(s: Masks, body: seq<Section>)
    ensures RunAll(s, body).mask == s.mask
    decreases body
  {
    if body != [] {
      var section := body[0];
      var inside := Locked(s, section.m);
      NestingRestoresMask(inside, section.body);
      assert RunOne(s, section).mask == s.mask;
      NestingRestoresMask(RunOne(s, section), body[1..]);
    }
  }

  /** The thread's mask and mutexes after each lock and each unlock of the sections, at every depth. */
  function Trace(s: Masks, body: seq<Section>): seq<Masks>
    decreases body
  {
    if body == [] then [] else TraceOne(s, body[0]) + Trace(RunOne(s, body[0]), body[1..])
  }

  function TraceOne(s: Masks, section: Section): seq<Masks>
    decreases section
  {
    var inside := Locked(s, section.m);
    [inside] + Trace(inside, section.body) + [RunOne(s, section)]
  }

  predicate AllBlocked(trace: seq<Masks>) {
    forall i :: 0 <= i < |trace| ==> ALL <= trace[i].mask
  }

  lemma {:induction false} TraceBlocked(s: Masks, body: seq<Section>)
    requires ALL <= s.mask
    ensures AllBlocked(Trace(s, body))
    decreases body
  {
    if body != [] {
      var section := body[0];
      var inside := Locked(s, section.m);
      NestingRestoresMask(s, [section]);
      assert RunAll(s, [section]) == RunOne(s, section) by { assert [section][1..] == []; }
      TraceBlocked(inside, section.body);
      TraceBlocked(RunOne(s, section), body[1..]);
    }
  }

  /** ... and from the outermost lock to its release all signals are blocked after every lock and every
      unlock of the sections inside, however deep. */
  lemma InsideBlocked(s: Masks, m: Id, body: seq<Section>)
    requires Find(s, m).locked > 0 ==> ALL <= s.mask
    ensures ALL <= Locked(s, m).mask && AllBlocked(Trace(Locked(s, m), body)) && ALL <= RunAll(Locked(s, m), body).mask
  {
    TraceBlocked(Locked(s, m), body);
    NestingRestoresMask(Locked(s, m), body);
  }

  /** Releasing two mutexes in the order they were taken leaves the mask as it was found exactly
      when all signals were blocked to begin with; and until then the second mutex is held with
      the first one's mask. */
  lemma OverlapRestoresIff(s: Masks, a: Id, b: Id)
    requires a != b && Find(s, a).locked == 0 && Find(s, b).locked == 0
    ensures var both := Locked(Locked(s, a), b);
            && Unlocked(both, a).mask == s.mask
            && (Unlocked(Unlocked(both, a), b).mask == s.mask <==> ALL <= s.mask)
  {
  }

  /** A thread with nothing blocked ends up with everything blocked. */
  lemma OverlapBlocksAll()
    ensures var s := Masks({}, map[]);
            Unlocked(Unlocked(Locked(Locked(s, 0), 1), 0), 1).mask == ALL != {}
  {
    assert 1 in ALL;
  }
}
