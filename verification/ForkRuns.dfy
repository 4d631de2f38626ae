/** What the two processes have done once the handshake of module ForkChannel is over, told from the
    moves of the run. */
module ForkRuns {
  import opened ForkChannel

  // ---- nothing is left out ----

  /** What the parent does to return the child's pid, one operation after the other. */
  const PARENT_PATH := [PSetup, PCloseChild, PExclude, PWaitBell, PReadCode, PMethod, PStdFds, PBlacklist, PAck, PCloseWon]

  /** What the child does to get to its fork method: the write is tried again until all is written. */
  const CHILD_PATH := [CSetup, CCloseParent, CWhitelist, CMethod, CRing, CWrite, CWrite, CAwait, CClose]

  /** The operations of the parent in the run. */
  function ParentDid(s: State, ms: seq<Move>): seq<ParentPc>
    decreases |ms|
  {
    if ms == [] || !Can(s, ms[0]) then []
    else (if ms[0].ParentMoves? then [s.p.pc] else []) + ParentDid(Next(s, ms[0]), ms[1..])
  }

  function ChildDid(s: State, ms: seq<Move>): seq<ChildPc>
    decreases |ms|
  {
    if ms == [] || !Can(s, ms[0]) then []
    else (if ms[0].ChildMoves? then [s.c.pc] else []) + ChildDid(Next(s, ms[0]), ms[1..])
  }

  /** How far along its path the parent is, or -1 when it has left it. */
  function ParentStage(pc: ParentPc): (stage: int)
    ensures -1 <= stage <= 10
  {
    match pc
    case PSetup => 0
    case PCloseChild => 1
    case PExclude => 2
    case PWaitBell => 3
    case PReadCode => 4
    case PMethod => 5
    case PStdFds => 6
    case PBlacklist => 7
    case PAck => 8
    case PCloseWon => 9
    case PReturned => 10
    case _ => -1
  }

  function ChildStage(s: State): int {
    match s.c.pc
    case CSetup => 0
    case CCloseParent => 1
    case CWhitelist => 2
    case CMethod => 3
    case CRing => if s.c.message == Success then 4 else -1
    case CWrite => if s.c.message == Success && s.link.sent <= 1 then 5 + s.link.sent else -1
    case CAwait => if s.c.message == Success then 7 else -1
    case CClose => 8
    case CForked => 9
    case CExited => -1
  }

  lemma OnParentPath(pc: ParentPc)
    requires 0 <= ParentStage(pc) < 10
    ensures |PARENT_PATH| == 10 && PARENT_PATH[ParentStage(pc)] == pc
  {
  }

  lemma OnChildPath(s: State)
    requires 0 <= ChildStage(s) < 9
    ensures |CHILD_PATH| == 9 && CHILD_PATH[ChildStage(s)] == s.c.pc
  {
  }

  lemma ParentStageStep(s: State, ok: bool)
    requires !ParentBlocked(s) && ParentStage(ParentStep(s, ok).p.pc) >= 0
    ensures 0 <= ParentStage(s.p.pc) < 10 && ParentStage(ParentStep(s, ok).p.pc) == ParentStage(s.p.pc) + 1
  {
    match s.p.pc {
      case PSetup =>
      case PCloseChild =>
      case PExclude =>
      case PWaitBell =>
      case PReadCode =>
      case PReadPayload =>
      case PMethod =>
      case PStdFds =>
      case PBlacklist =>
      case PAck =>
      case PCloseWon =>
      case PCloseLost =>
      case PReap =>
    }
  }

  lemma ChildStageWrite(s: State, ok: bool)
    requires !ChildBlocked(s) && s.c.pc == CWrite && Sizes(s) && ChildStage(ChildStep(s, ok)) >= 0
    ensures 0 <= ChildStage(s) < 9 && ChildStage(ChildStep(s, ok)) == ChildStage(s) + 1
  {
  }

  lemma ChildStageElse(s: State, ok: bool)
    requires !ChildBlocked(s) && s.c.pc != CWrite && ChildStage(ChildStep(s, ok)) >= 0
    requires s.c.pc == CRing ==> s.link.sent == 0
    ensures 0 <= ChildStage(s) < 9 && ChildStage(ChildStep(s, ok)) == ChildStage(s) + 1
  {
    match s.c.pc {
      case CSetup =>
      case CCloseParent =>
      case CWhitelist =>
      case CMethod =>
      case CRing =>
      case CAwait =>
      case CClose =>
    }
  }

  lemma ChildStageStep(s: State, ok: bool)
    requires !ChildBlocked(s) && ChildStage(ChildStep(s, ok)) >= 0 && Sizes(s) && (s.c.pc == CRing ==> s.link.sent == 0)
    ensures 0 <= ChildStage(s) < 9 && ChildStage(ChildStep(s, ok)) == ChildStage(s) + 1
  {
    if s.c.pc == CWrite { ChildStageWrite(s, ok); } else { ChildStageElse(s, ok); }
  }

  lemma OneFurther<T>(path: seq<T>, a: int, b: int)
    requires 0 <= a < b <= |path|
    ensures [path[a]] + path[a + 1..b] == path[a..b]
  {
  }

  lemma ParentPathStep(s: State, m: Move, stage: int)
    requires Can(s, m) && 0 <= ParentStage(Next(s, m).p.pc) <= stage <= |PARENT_PATH|
    ensures 0 <= ParentStage(s.p.pc) <= stage
    ensures (if m.ParentMoves? then [s.p.pc] else []) + PARENT_PATH[ParentStage(Next(s, m).p.pc)..stage]
            == PARENT_PATH[ParentStage(s.p.pc)..stage]
  {
    match m
    case ChildMoves(ok) => OnlyKillsKill(s, ok);
    case ParentMoves(ok) =>
      ParentStageStep(s, ok);
      OnParentPath(s.p.pc);
      OneFurther(PARENT_PATH, ParentStage(s.p.pc), stage);
    case KillChild =>
    case KillParent =>
  }

  lemma {:induction false} ParentPath(s: State, ms: seq<Move>, s': State)
    requires Runs(s, ms, s') && ParentStage(s'.p.pc) >= 0
    ensures 0 <= ParentStage(s.p.pc) <= ParentStage(s'.p.pc)
    ensures ParentDid(s, ms) == PARENT_PATH[ParentStage(s.p.pc)..ParentStage(s'.p.pc)]
    decreases |ms|
  {
    if ms != [] {
      ParentPath(Next(s, ms[0]), ms[1..], s');
      ParentPathStep(s, ms[0], ParentStage(s'.p.pc));
    }
  }

  lemma StageByParent(s: State, ok: bool)
    requires !ParentBlocked(s)
    ensures ChildStage(ParentStep(s, ok)) == ChildStage(s)
  {
    SameChild(s, ok);
  }

  lemma RingsFirst(s: State)
    requires Inv(s)
    ensures Sizes(s) && (s.c.pc == CRing ==> s.link.sent == 0)
  {
    WireSizes(s);
  }

  lemma ChildPathStep(s: State, m: Move, stage: int)
    requires Sizes(s) && (s.c.pc == CRing ==> s.link.sent == 0)
    requires Can(s, m) && 0 <= ChildStage(Next(s, m)) <= stage <= |CHILD_PATH|
    ensures 0 <= ChildStage(s) <= stage
    ensures (if m.ChildMoves? then [s.c.pc] else []) + CHILD_PATH[ChildStage(Next(s, m))..stage]
            == CHILD_PATH[ChildStage(s)..stage]
  {
    match m
    case ChildMoves(ok) =>
      ChildStageStep(s, ok);
      OnChildPath(s);
      OneFurther(CHILD_PATH, ChildStage(s), stage);
    case ParentMoves(ok) => StageByParent(s, ok);
    case KillChild =>
    case KillParent =>
  }

  lemma {:induction false} ChildPath(s: State, ms: seq<Move>, s': State)
    requires Inv(s) && Runs(s, ms, s') && 0 <= ChildStage(s') <= |CHILD_PATH|
    ensures 0 <= ChildStage(s) <= ChildStage(s')
    ensures ChildDid(s, ms) == CHILD_PATH[ChildStage(s)..ChildStage(s')]
    decreases |ms|
  {
    if ms != [] {
      NextKeeps(s, ms[0]);
      ChildPath(Next(s, ms[0]), ms[1..], s');
      RingsFirst(s);
      ChildPathStep(s, ms[0], ChildStage(s'));
    }
  }

  /** A parent that returns the child's pid has done everything on its path, and nothing else; and so
      has a child that calls its fork method. */
  lemma NothingSkipped(cap: nat, payload: seq<int>, ms: seq<Move>, s: State)
    requires cap >= 1 && Runs(Start(cap, payload), ms, s)
    ensures s.p.pc == PReturned ==> ParentDid(Start(cap, payload), ms) == PARENT_PATH
    ensures s.c.pc == CForked ==> ChildDid(Start(cap, payload), ms) == CHILD_PATH
  {
    StartInv(cap, payload);
    if s.p.pc == PReturned { ParentPath(Start(cap, payload), ms, s); }
    if s.c.pc == CForked { ChildPath(Start(cap, payload), ms, s); }
  }

  // ---- the child's error frames ----

  /** Does a move of the parent find a failure? */
  predicate ParentFinds(s: State, ms: seq<Move>)
    decreases |ms|
  {
    && ms != [] && Can(s, ms[0])
    && ((ms[0].ParentMoves? && FindsFailure(s, ms[0])) || ParentFinds(Next(s, ms[0]), ms[1..]))
  }

  /** A parent on its way to report a failure has been told all of it. */
  predicate Told(s: State) {
    && !s.c.killed && !s.p.killed
    && (Failing(s.p.pc) ==> s.c.message == Failure && s.link.got == Text(Failure, s.payload))
  }

  /** Nobody was killed, so the child is there as long as the parent waits for it. */
  lemma ChildThere(s: State)
    requires Inv(s) && !s.c.killed && s.p.ends == ParentSide && |s.log| <= 5
    ensures WritesPipe(s.c.ends)
  {
  }

  lemma OnCourse(s: State, ok: bool)
    requires !ParentBlocked(s) && !FindsFailure(s, ParentMoves(ok)) && !Failing(s.p.pc)
    requires s.p.pc == PWaitBell || s.p.pc == PReadCode || s.p.pc == PReadPayload || s.p.pc == PAck ==> WritesPipe(s.c.ends)
    ensures Failing(ParentStep(s, ok).p.pc) ==>
              s.p.pc == PReadPayload && |s.link.got| == |Text(s.c.message, s.payload)| && ParentStep(s, ok).link == s.link
  {
    match s.p.pc {
      case PSetup =>
      case PCloseChild =>
      case PExclude =>
      case PWaitBell =>
      case PReadCode =>
      case PReadPayload =>
      case PMethod =>
      case PStdFds =>
      case PBlacklist =>
      case PAck =>
      case PCloseWon =>
      case PReturned =>
      case PKilled =>
    }
  }

  lemma WaitsForChild(s: State)
    requires Inv(s) && (s.p.pc == PWaitBell || s.p.pc == PReadCode || s.p.pc == PReadPayload || s.p.pc == PAck)
    ensures s.p.ends == ParentSide && |s.log| <= 5 && (s.p.pc == PReadPayload ==> s.c.message == Failure)
  {
  }

  lemma GotStays(s: State, ok: bool)
    requires !ParentBlocked(s) && Failing(s.p.pc)
    ensures ParentStep(s, ok).link == s.link && Failing(ParentStep(s, ok).p.pc)
  {
  }

  lemma ToldByParent(s: State, ok: bool)
    requires Inv(s) && Told(s) && !ParentBlocked(s) && !FindsFailure(s, ParentMoves(ok))
    ensures Told(ParentStep(s, ok))
  {
    SameChild(s, ok);
    OnlyKillsKill(s, ok);
    if Failing(s.p.pc) {
      GotStays(s, ok);
    } else {
      if s.p.pc == PWaitBell || s.p.pc == PReadCode || s.p.pc == PReadPayload || s.p.pc == PAck {
        WaitsForChild(s);
        ChildThere(s);
      }
      OnCourse(s, ok);
      if Failing(ParentStep(s, ok).p.pc) { AllRead(s); }
    }
  }

  /** Nothing is left to read. */
  lemma AllRead(s: State)
    requires Inv(s) && |s.link.got| == |Text(s.c.message, s.payload)|
    ensures s.link.got == Text(s.c.message, s.payload)
  {
    WireSizes(s);
    assert s.link.got + s.link.pipe == s.link.got;
  }

  lemma ToldByChild(s: State, ok: bool)
    requires Inv(s) && Told(s) && !ChildBlocked(s)
    ensures Told(ChildStep(s, ok))
  {
    OnlyKillsKill(s, ok);
  }

  lemma {:induction false} ToldStays(s: State, ms: seq<Move>, s': State)
    requires Inv(s) && Told(s) && Runs(s, ms, s')
    requires !ParentFinds(s, ms) && KillChild !in ms && KillParent !in ms
    ensures Told(s') && s'.payload == s.payload
    decreases |ms|
  {
    if ms != [] {
      assert ms[0] in ms;
      NextKeeps(s, ms[0]);
      match ms[0] {
        case ChildMoves(ok) => ToldByChild(s, ok); SameSettings(s, ok);
        case ParentMoves(ok) => ToldByParent(s, ok); SameChild(s, ok);
      }
      ToldStays(Next(s, ms[0]), ms[1..], s');
    }
  }

  /** A parent that fails although nothing failed in it has read the whole of what the child sent: the
      result code and all of its error frames. */
  lemma FramesArrive(cap: nat, payload: seq<int>, ms: seq<Move>, s: State)
    requires cap >= 1 && Runs(Start(cap, payload), ms, s) && s.p.pc == PFailed
    requires !ParentFinds(Start(cap, payload), ms) && KillChild !in ms && KillParent !in ms
    ensures s.link.got == [1] + payload
  {
    StartInv(cap, payload);
    ToldStays(Start(cap, payload), ms, s);
  }

  // ---- the pipe ----

  lemma BoundedByChild(s: State, ok: bool)
    requires !ChildBlocked(s) && |s.link.pipe| <= s.cap
    ensures |ChildStep(s, ok).link.pipe| <= s.cap
  {
    match s.c.pc {
      case CSetup =>
      case CCloseParent =>
      case CWhitelist =>
      case CMethod =>
      case CRing =>
      case CWrite =>
      case CAwait =>
      case CClose =>
    }
  }

  lemma BoundedByParent(s: State, ok: bool)
    requires !ParentBlocked(s) && |s.link.pipe| <= s.cap
    ensures |ParentStep(s, ok).link.pipe| <= s.cap
  {
  }

  /** The pipe never holds more than it has room for. */
  lemma {:induction false} PipeBounded(s: State, ms: seq<Move>, s': State)
    requires Runs(s, ms, s') && |s.link.pipe| <= s.cap
    ensures |s'.link.pipe| <= s'.cap == s.cap
    decreases |ms|
  {
    if ms != [] {
      match ms[0] {
        case ChildMoves(ok) => BoundedByChild(s, ok); SameSettings(s, ok);
        case ParentMoves(ok) => BoundedByParent(s, ok); SameChild(s, ok);
        case KillChild =>
        case KillParent =>
      }
      PipeBounded(Next(s, ms[0]), ms[1..], s');
    }
  }
}
