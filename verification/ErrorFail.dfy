/** What a thread's error stack holds after its frames could not be written or read: the frames of that
    failure, recorded like any others. */
module ErrorFailing {
  import opened Common
  import opened ErrorFrames
  import opened ErrorFreezing
  import opened ErrorRuns

  /** One call after the other records where it failed. */
  function Failures(sites: seq<int>, errno: int): seq<Event> {
    if sites == [] then [] else [AddFrame(sites[0], errno, None)] + Failures(sites[1..], errno)
  }

  lemma FramesRest(s: Stack, f: Frame, sites: seq<int>, errno: int, tid: int, cap: nat)
    requires Shaped(s, cap) && sites != []
    ensures FailureFrames(s, Failure(sites, errno), tid)[1..]
         == FailureFrames(Put(s, f, cap), Failure(sites[1..], errno), tid)
  {
  }

  lemma {:induction false} FailuresRun(r: Run, sites: seq<int>, errno: int) returns (r': Run)
    requires Ready(r)
    ensures Runs(r, Failures(sites, errno), r') && Ready(r') && r'.cap == r.cap && r'.tid == r.tid
    ensures Current(r'.pool) == AddAll(Current(r.pool), FailureFrames(Current(r.pool), Failure(sites, errno), r.tid), r.cap)
    ensures r'.pool.index == r.pool.index
    decreases |sites|
  {
    if sites == [] {
      r' := r;
    } else {
      var e := AddFrame(sites[0], errno, None);
      var f := Label(Current(r.pool), sites[0], errno, None, r.tid);
      FramesRest(Current(r.pool), f, sites, errno, r.tid, r.cap);
      FailureAdded(r, sites[0], errno);
      r' := FailuresRun(Next(r, e), sites[1..], errno);
      RunsStep(r, e, Failures(sites[1..], errno), r');
    }
  }

  lemma FailureAdded(r: Run, site: int, errno: int)
    requires Ready(r)
    ensures Applies(r, AddFrame(site, errno, None))
    ensures var r' := Next(r, AddFrame(site, errno, None));
            && Ready(r') && r'.cap == r.cap && r'.tid == r.tid && r'.pool.index == r.pool.index
            && Current(r'.pool) == Put(Current(r.pool), Label(Current(r.pool), site, errno, None, r.tid), r.cap)
  {
  }

  /** A restart, and then the failure. */
  lemma FailedRun(r: Run, f: Failure) returns (r': Run)
    requires RunInv(r)
    ensures Runs(r, [RestartSequence] + Failures(f.sites, f.errno), r')
    ensures Shaped(Restart(Current(r.pool), r.pool.index).0, r.cap)
    ensures (Current(r'.pool), r'.pool.index) == Failed(Restart(Current(r.pool), r.pool.index), f, r.tid, r.cap)
  {
    var m := RestartRun(r);
    r' := FailuresRun(m, f.sites, f.errno);
    RunsStep(r, RestartSequence, Failures(f.sites, f.errno), r');
  }

  /** A wire that ends after done bytes ends between two items. */
  predicate BetweenItems(done: nat) {
    if done < LENGTH_SIZE then done == 0 else (done - LENGTH_SIZE) % FRAME_SIZE == 0
  }

  /** Who records what when the wire ends after done bytes: the call on the descriptor only if it fails
      outright, which is noticed between two items only, and then with its own errno; the others always,
      with that errno or with EIO. */
  function EndsAt(done: nat, fault: Option<int>, innermost: int, first: seq<int>, later: seq<int>): Failure {
    var sites := if done < LENGTH_SIZE then first else later;
    if BetweenItems(done) && fault.Some? then Failure([innermost] + sites, fault.value) else Failure(sites, EIO)
  }

  /** A wire that breaks off at any byte before its last: the call fails, and the run goes on with a restart
      and the frames of that failure, none of the wire's.  The caller sees the errno of the fault exactly when
      the break is between two items, and otherwise EIO. */
  lemma CutShortFails(cap: nat, tid: int, es: seq<Event>, to: Run, fs: seq<Frame>, cut: nat, fault: Option<int>, errno: int)
    returns (to': Run)
    requires cap >= 1 && Runs(Start(cap, tid), es, to) && cut < |Encode(fs)|
    ensures Shaped(Current(to.pool), cap)
    ensures var f := EndsAt(cut, fault, READ_FD, [THAW_LENGTH], [THAW_FRAME, THAW_FRAMES, THAW_SEQUENCE]);
            && Runs(to, [RestartSequence] + Failures(f.sites, f.errno), to')
            && Thaw((Current(to.pool), to.pool.index), Encode(fs)[..cut], fault, errno, tid, cap)
               == ((Current(to'.pool), to'.pool.index), -1, f.errno)
  {
    StartInv(cap, tid);
    RunKeeps(Start(cap, tid), es, to);
    CutShort((Current(to.pool), to.pool.index), fs, cut, fault, errno, tid, cap);
    to' := FailedRun(to, EndsAt(cut, fault, READ_FD, [THAW_LENGTH], [THAW_FRAME, THAW_FRAMES, THAW_SEQUENCE]));
  }

  /** A wire without room for all of a sequence of size bytes: the run goes on with a restart and the
      frames of the failure; with room for all of it, with the restart alone. */
  lemma FreezeFails(cap: nat, tid: int, es: seq<Event>, r: Run, size: nat, room: nat, fault: Option<int>) returns (r': Run)
    requires cap >= 1 && Runs(Start(cap, tid), es, r)
    ensures Shaped(Restart(Current(r.pool), r.pool.index).0, cap)
    ensures FreezeFailure(size, room, fault) == None <==> size <= room
    ensures var f := EndsAt(room, fault, WRITE_FD, [FREEZE_LENGTH], [FREEZE_FRAME, VISIT_FRAME, FREEZE_FRAMES]);
            && Runs(r, [RestartSequence] + (if size <= room then [] else Failures(f.sites, f.errno)), r')
            && (Current(r'.pool), r'.pool.index)
               == Frozen(Restart(Current(r.pool), r.pool.index), FreezeFailure(size, room, fault), tid, cap)
  {
    StartInv(cap, tid);
    RunKeeps(Start(cap, tid), es, r);
    if size <= room {
      r' := RestartRun(r);
      assert Runs(r', [], r');
      RunsStep(r, RestartSequence, [], r');
    } else {
      r' := FailedRun(r, EndsAt(room, fault, WRITE_FD, [FREEZE_LENGTH], [FREEZE_FRAME, VISIT_FRAME, FREEZE_FRAMES]));
    }
  }
}
