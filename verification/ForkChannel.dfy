/** The handshake between ert_forkProcessChild and the child it forks (src/process.c:1729-1976,
    2031-2268, 2272-2450): a pipe that carries the child's result, and a socket pair whose two
    directions carry one bell each.

    Either process steps at any time, and may be killed at any time before it leaves the protocol.
    Whether an operation of the library or a method of the caller succeeds is an input. */
module ForkChannel {

  /** Which copies of the channel's descriptors a process holds: the pipe's reader and the parent's
      socket, the pipe's writer and the child's socket, both or none. */
  datatype Ends = Both | ParentSide | ChildSide | Neither

  predicate ReadsPipe(e: Ends) {
    e == Both || e == ParentSide
  }

  predicate WritesPipe(e: Ends) {
    e == Both || e == ChildSide
  }

  datatype ChildPc =
    | CSetup          // setsid, setpgid, resetSignals_
    | CCloseParent    // closeForkProcessChannelResultParent_
    | CWhitelist      // ert_closeFdExceptWhiteList
    | CMethod         // the post fork child method
    | CRing
    | CWrite
    | CAwait
    | CClose          // closeForkProcessChannel_
    | CForked         // callForkMethod_
    | CExited

  datatype ParentPc =
    | PSetup          // setpgid, sysconf
    | PCloseChild     // closeForkProcessChannelResultChild_
    | PExclude        // excludeForkProcessChannelFdSet_
    | PWaitBell
    | PReadCode
    | PReadPayload    // ert_thawErrorFrameSequence
    | PMethod         // the post fork parent method
    | PStdFds
    | PBlacklist      // ert_closeFdOnlyBlackList
    | PAck
    | PCloseWon
    | PCloseLost
    | PReap           // ert_reapProcessChild
    | PReturned       // returned the child's pid
    | PFailed         // returned -1
    | PKilled

  /** What the child has decided to send. */
  datatype Message = Undecided | Success | Failure

  datatype Event = WhitelistClosed | ChildMethodDone | ParentMethodDone | BlacklistClosed | Acknowledged | ChildContinues

  /** The order that the source documents (src/process.c:2073-2092). */
  const ORDER := [WhitelistClosed, ChildMethodDone, ParentMethodDone, BlacklistClosed, Acknowledged, ChildContinues]

  /** early: it failed in CSetup. */
  datatype Child = Child(pc: ChildPc, ends: Ends, message: Message, early: bool, killed: bool)

  datatype Parent = Parent(pc: ParentPc, ends: Ends, killed: bool)

  /** The pipe, how much was ever put into it and what was taken out; and the two bells. */
  datatype Link = Link(pipe: seq<int>, sent: nat, got: seq<int>, bell: bool, ack: bool)

  /** cap: what the pipe holds before a write blocks.  payload: the frozen error frames, should the
      child fail.  failed: some operation or method has failed. */
  datatype State = State(cap: nat, payload: seq<int>, c: Child, p: Parent, link: Link, log: seq<Event>, failed: bool)

  function Start(cap: nat, payload: seq<int>): State {
    State(cap, payload, Child(CSetup, Both, Undecided, false, false), Parent(PSetup, Both, false),
          Link([], 0, [], false, false), [], false)
  }

  /** The bytes of the message: a result code, and for a failure the frozen error frames. */
  function Text(m: Message, payload: seq<int>): seq<int> {
    match m
    case Undecided => []
    case Success => [0]
    case Failure => [1] + payload
  }

  // ---- the child ----

  predicate ChildDone(c: Child) {
    c.pc == CForked || c.pc == CExited
  }

  /** A write waits while the pipe is full and someone may read it; a wait for the bell while it is
      silent and someone may ring it. */
  predicate ChildBlocked(s: State) {
    || ChildDone(s.c)
    || (s.c.pc == CWrite && s.link.sent < |Text(s.c.message, s.payload)| && s.cap <= |s.link.pipe|
        && (ReadsPipe(s.c.ends) || ReadsPipe(s.p.ends)))
    || (s.c.pc == CAwait && !s.link.ack && (ReadsPipe(s.c.ends) || ReadsPipe(s.p.ends)))
  }

  function Exited(c: Child): Child {
    c.(pc := CExited, ends := Neither)
  }

  /** ERT_ERROR_IF: the error path rings and sends the error frames. */
  function ChildFails(s: State, early: bool): State {
    s.(c := s.c.(pc := CRing, message := Failure, early := early), failed := true)
  }

  function ChildAt(s: State, pc: ChildPc): State {
    s.(c := s.c.(pc := pc))
  }

  function ChildStep(s: State, ok: bool): State
    requires !ChildBlocked(s)
  {
    match s.c.pc
    case CSetup => if ok then ChildAt(s, CCloseParent) else ChildFails(s, true)
    case CCloseParent => s.(c := s.c.(pc := CWhitelist, ends := ChildSide))
    case CWhitelist => if ok then ChildAt(s, CMethod).(log := s.log + [WhitelistClosed]) else ChildFails(s, false)
    case CMethod =>
      if ok then s.(c := s.c.(pc := CRing, message := Success), log := s.log + [ChildMethodDone])
      else ChildFails(s, false)
    case CRing =>
      if ReadsPipe(s.c.ends) || ReadsPipe(s.p.ends) then ChildAt(s, CWrite).(link := s.link.(bell := true))
      else s.(c := Exited(s.c))
    case CWrite =>
      var text := Text(s.c.message, s.payload);
      if |text| <= s.link.sent then ChildAt(s, CAwait)
      else if ReadsPipe(s.c.ends) || ReadsPipe(s.p.ends)
      then s.(link := s.link.(pipe := s.link.pipe + [text[s.link.sent]], sent := s.link.sent + 1))
      else s.(c := Exited(s.c))
    case CAwait =>
      if s.link.ack && s.c.message == Success then ChildAt(s, CClose).(link := s.link.(ack := false))
      else s.(c := Exited(s.c))
    case CClose => s.(c := s.c.(pc := CForked, ends := Neither), log := s.log + [ChildContinues])
  }

  // ---- the parent ----

  predicate ParentDone(p: Parent) {
    p.pc == PReturned || p.pc == PFailed || p.pc == PKilled
  }

  /** A read waits while there is nothing to read and someone may write it. */
  predicate ParentBlocked(s: State) {
    || ParentDone(s.p)
    || (s.p.pc == PWaitBell && !s.link.bell && (WritesPipe(s.c.ends) || WritesPipe(s.p.ends)))
    || (s.p.pc == PReadCode && s.link.pipe == [] && (WritesPipe(s.c.ends) || WritesPipe(s.p.ends)))
    || (s.p.pc == PReadPayload && |s.link.got| != |Text(s.c.message, s.payload)| && s.link.pipe == []
        && (WritesPipe(s.c.ends) || WritesPipe(s.p.ends)))
    || (s.p.pc == PReap && s.c.pc != CExited)
  }

  function ParentAt(s: State, pc: ParentPc): State {
    s.(p := s.p.(pc := pc))
  }

  function ParentFails(s: State): State {
    ParentAt(s, PCloseLost).(failed := true)
  }

  function Taken(l: Link): Link
    requires l.pipe != []
  {
    l.(pipe := l.pipe[1..], got := l.got + [l.pipe[0]])
  }

  function ParentStep(s: State, ok: bool): State
    requires !ParentBlocked(s)
  {
    match s.p.pc
    case PSetup => if ok then ParentAt(s, PCloseChild) else ParentFails(s)
    case PCloseChild => s.(p := s.p.(pc := PExclude, ends := ParentSide))
    case PExclude => if ok then ParentAt(s, PWaitBell) else ParentFails(s)
    case PWaitBell =>
      if s.link.bell then ParentAt(s, PReadCode).(link := s.link.(bell := false)) else ParentAt(s, PCloseLost)
    case PReadCode =>
      if s.link.pipe == [] then ParentAt(s, PCloseLost)
      else ParentAt(s, if s.link.pipe[0] == 0 then PMethod else PReadPayload).(link := Taken(s.link))
    case PReadPayload =>
      if |s.link.got| == |Text(s.c.message, s.payload)| || s.link.pipe == [] then ParentAt(s, PCloseLost)
      else if ok then s.(link := Taken(s.link))
      else ParentFails(s)
    case PMethod => if ok then ParentAt(s, PStdFds).(log := s.log + [ParentMethodDone]) else ParentFails(s)
    case PStdFds => if ok then ParentAt(s, PBlacklist) else ParentFails(s)
    case PBlacklist => if ok then ParentAt(s, PAck).(log := s.log + [BlacklistClosed]) else ParentFails(s)
    case PAck =>
      if WritesPipe(s.c.ends) || WritesPipe(s.p.ends)
      then ParentAt(s, PCloseWon).(link := s.link.(ack := true), log := s.log + [Acknowledged])
      else ParentAt(s, PCloseLost)
    case PCloseWon => s.(p := s.p.(pc := PReturned, ends := Neither))
    case PCloseLost => s.(p := s.p.(pc := PReap, ends := Neither))
    case PReap => ParentAt(s, PFailed)
  }

  // ---- runs ----

  datatype Move = ChildMoves(ok: bool) | ParentMoves(ok: bool) | KillChild | KillParent

  predicate Can(s: State, m: Move) {
    match m
    case ChildMoves(_) => !ChildBlocked(s)
    case ParentMoves(_) => !ParentBlocked(s)
    case KillChild => !ChildDone(s.c)
    case KillParent => !ParentDone(s.p)
  }

  function Next(s: State, m: Move): State
    requires Can(s, m)
  {
    match m
    case ChildMoves(ok) => ChildStep(s, ok)
    case ParentMoves(ok) => ParentStep(s, ok)
    case KillChild => s.(c := Exited(s.c).(killed := true))
    case KillParent => s.(p := s.p.(pc := PKilled, ends := Neither, killed := true))
  }

  predicate Runs(s: State, ms: seq<Move>, s': State)
    decreases |ms|
  {
    if ms == [] then s' == s else Can(s, ms[0]) && Runs(Next(s, ms[0]), ms[1..], s')
  }

  // ---- the invariant ----

  /** What the parent has read, and after it what is still in the pipe, is what the child has sent. */
  predicate Wire(l: Link, text: seq<int>) {
    l.sent <= |text| && l.got + l.pipe == text[..l.sent]
  }

  predicate Ordered(log: seq<Event>) {
    log <= ORDER
  }

  predicate BeforeBell(p: ParentPc) {
    p == PSetup || p == PCloseChild || p == PExclude || p == PWaitBell
  }

  predicate Failing(p: ParentPc) {
    p == PCloseLost || p == PReap || p == PFailed
  }

  /** Where the child is, what it holds and how far the log has got. */
  predicate ChildInv(c: Child, n: nat, sent: nat, full: nat, parent: Ends) {
    match c.pc
    case CSetup => c.ends == Both && c.message == Undecided && n == 0
    case CCloseParent => c.ends == Both && c.message == Undecided && n == 0
    case CWhitelist => c.ends == ChildSide && c.message == Undecided && n == 0
    case CMethod => c.ends == ChildSide && c.message == Undecided && n == 1
    case CRing => c.ends == (if c.early then Both else ChildSide) && c.message != Undecided && sent == 0
    case CWrite => c.ends == (if c.early then Both else ChildSide) && c.message != Undecided
    case CAwait => c.ends == (if c.early then Both else ChildSide) && c.message != Undecided && sent == full
    case CClose => c.ends == ChildSide && c.message == Success && n == 5
    case CForked => c.ends == Neither && c.message == Success && n == 6
    case CExited => c.ends == Neither && n <= 5 && (c.killed || (parent == Neither && n <= 4 && !c.early))
  }

  /** Where the parent is, what it holds and how far the log has got. */
  predicate ParentInv(p: Parent, n: nat, got: nat, m: Message, exited: bool) {
    match p.pc
    case PSetup => p.ends == Both && got == 0
    case PCloseChild => p.ends == Both && got == 0
    case PExclude => p.ends == ParentSide && got == 0
    case PWaitBell => p.ends == ParentSide && got == 0
    case PReadCode => p.ends == ParentSide && got == 0
    case PReadPayload => p.ends == ParentSide && got >= 1 && m == Failure
    case PMethod => p.ends == ParentSide && got == 1 && m == Success && n == 2
    case PStdFds => p.ends == ParentSide && got == 1 && m == Success && n == 3
    case PBlacklist => p.ends == ParentSide && got == 1 && m == Success && n == 3
    case PAck => p.ends == ParentSide && got == 1 && m == Success && n == 4
    case PCloseWon => p.ends == ParentSide && got == 1 && m == Success && n >= 5
    case PCloseLost => (p.ends == Both || p.ends == ParentSide) && n <= 4
    case PReap => p.ends == Neither && n <= 4
    case PReturned => p.ends == Neither && got == 1 && m == Success && n >= 5
    case PFailed => p.ends == Neither && n <= 4 && exited
    case PKilled => p.ends == Neither && p.killed
  }

  /** The bell, the acknowledgement and failures. */
  predicate BellInv(c: Child, p: Parent, l: Link, n: nat, failed: bool) {
    && (c.message == Undecided ==> n <= 1 && l.sent == 0 && !c.early)
    && (c.message == Success ==> n >= 2 && !c.early)
    && (c.message == Failure ==> n <= 1 && failed)
    && (n >= 3 ==> |l.got| == 1 && c.message == Success)
    && (BeforeBell(p.pc) && (c.pc == CWrite || c.pc == CAwait) ==> l.bell)
    && (l.ack ==> n == 5 && c.pc != CClose)
    && (n == 5 && (c.pc == CWrite || c.pc == CAwait) ==> l.ack)
    && (n <= 5 || c.pc == CForked)
    && (c.killed ==> c.pc == CExited)
    && (p.killed ==> p.pc == PKilled)
    && (failed ==> n <= 4 && (c.message == Failure || Failing(p.pc) || p.pc == PKilled))
    && (!failed && !c.killed && !p.killed ==> !Failing(p.pc) && c.pc != CExited)
  }

  predicate Control(s: State) {
    && ChildInv(s.c, |s.log|, s.link.sent, |Text(s.c.message, s.payload)|, s.p.ends)
    && ParentInv(s.p, |s.log|, |s.link.got|, s.c.message, s.c.pc == CExited)
    && BellInv(s.c, s.p, s.link, |s.log|, s.failed)
  }

  predicate Inv(s: State) {
    s.cap >= 1 && Wire(s.link, Text(s.c.message, s.payload)) && Ordered(s.log) && Control(s)
  }

  // ---- every move keeps it ----

  predicate Sizes(s: State) {
    |s.link.got| + |s.link.pipe| == s.link.sent <= |Text(s.c.message, s.payload)|
  }

  lemma KeptInChild(s: State, ok: bool)
    requires Control(s) && Sizes(s) && !ChildBlocked(s)
    requires s.c.pc == CSetup || s.c.pc == CCloseParent || s.c.pc == CWhitelist
    ensures Control(ChildStep(s, ok))
  {
  }

  lemma KeptByRing(s: State, ok: bool)
    requires Control(s) && Sizes(s) && !ChildBlocked(s) && (s.c.pc == CMethod || s.c.pc == CRing)
    ensures Control(ChildStep(s, ok))
  {
  }

  /** The next byte is written, or there is none left, or nobody will read it. */
  lemma KeptByByte(s: State, ok: bool)
    requires Control(s) && Sizes(s) && !ChildBlocked(s) && s.c.pc == CWrite
    requires s.link.sent < |Text(s.c.message, s.payload)| && (ReadsPipe(s.c.ends) || ReadsPipe(s.p.ends))
    ensures Control(ChildStep(s, ok))
  {
  }

  lemma KeptByLastByte(s: State, ok: bool)
    requires Control(s) && Sizes(s) && !ChildBlocked(s) && s.c.pc == CWrite
    requires |Text(s.c.message, s.payload)| <= s.link.sent
    ensures Control(ChildStep(s, ok))
  {
  }

  lemma KeptByBrokenPipe(s: State, ok: bool)
    requires Control(s) && Sizes(s) && !ChildBlocked(s) && s.c.pc == CWrite
    requires s.link.sent < |Text(s.c.message, s.payload)| && !(ReadsPipe(s.c.ends) || ReadsPipe(s.p.ends))
    ensures Control(ChildStep(s, ok))
  {
  }

  lemma KeptByWrite(s: State, ok: bool)
    requires Control(s) && Sizes(s) && !ChildBlocked(s) && s.c.pc == CWrite
    ensures Control(ChildStep(s, ok))
  {
    if |Text(s.c.message, s.payload)| <= s.link.sent {
      KeptByLastByte(s, ok);
    } else if ReadsPipe(s.c.ends) || ReadsPipe(s.p.ends) {
      KeptByByte(s, ok);
    } else {
      KeptByBrokenPipe(s, ok);
    }
  }

  lemma KeptByAwait(s: State, ok: bool)
    requires Control(s) && Sizes(s) && !ChildBlocked(s) && (s.c.pc == CAwait || s.c.pc == CClose)
    ensures Control(ChildStep(s, ok))
  {
  }

  lemma KeptInParent(s: State, ok: bool)
    requires Control(s) && Sizes(s) && !ParentBlocked(s) && (s.p.pc == PSetup || s.p.pc == PCloseChild || s.p.pc == PExclude)
    ensures Control(ParentStep(s, ok))
  {
  }

  lemma KeptByBell(s: State, ok: bool)
    requires Control(s) && Sizes(s) && !ParentBlocked(s) && s.p.pc == PWaitBell && s.link.bell
    ensures Control(ParentStep(s, ok))
  {
  }

  lemma KeptByNoBell(s: State, ok: bool)
    requires Control(s) && Sizes(s) && !ParentBlocked(s) && s.p.pc == PWaitBell && !s.link.bell
    ensures Control(ParentStep(s, ok))
  {
  }

  lemma KeptByWait(s: State, ok: bool)
    requires Control(s) && Sizes(s) && !ParentBlocked(s) && s.p.pc == PWaitBell
    ensures Control(ParentStep(s, ok))
  {
    if s.link.bell {
      KeptByBell(s, ok);
    } else {
      KeptByNoBell(s, ok);
    }
  }

  lemma KeptByCode(s: State, ok: bool)
    requires Control(s) && Sizes(s) && !ParentBlocked(s) && s.p.pc == PReadCode
    requires s.link.pipe != [] ==> s.c.message == if s.link.pipe[0] == 0 then Success else Failure
    ensures Control(ParentStep(s, ok))
  {
  }

  lemma KeptByPayload(s: State, ok: bool)
    requires Control(s) && Sizes(s) && !ParentBlocked(s) && s.p.pc == PReadPayload
    ensures Control(ParentStep(s, ok))
  {
  }

  lemma KeptByMethod(s: State, ok: bool)
    requires Control(s) && Sizes(s) && !ParentBlocked(s) && (s.p.pc == PMethod || s.p.pc == PStdFds)
    ensures Control(ParentStep(s, ok))
  {
  }

  lemma KeptByBlacklist(s: State, ok: bool)
    requires Control(s) && Sizes(s) && !ParentBlocked(s) && (s.p.pc == PBlacklist || s.p.pc == PAck)
    ensures Control(ParentStep(s, ok))
  {
  }

  lemma KeptByClose(s: State, ok: bool)
    requires Control(s) && Sizes(s) && !ParentBlocked(s) && (s.p.pc == PCloseWon || s.p.pc == PCloseLost || s.p.pc == PReap)
    ensures Control(ParentStep(s, ok))
  {
  }

  lemma KeptByKill(s: State, m: Move)
    requires Control(s) && Can(s, m) && (m.KillChild? || m.KillParent?)
    ensures Control(Next(s, m))
  {
  }

  lemma Logged(log: seq<Event>, e: Event)
    requires Ordered(log) && |log| < |ORDER| && e == ORDER[|log|]
    ensures Ordered(log + [e])
  {
  }

  lemma Sending(l: Link, text: seq<int>)
    requires Wire(l, text) && l.sent < |text|
    ensures Wire(l.(pipe := l.pipe + [text[l.sent]], sent := l.sent + 1), text)
  {
    assert l.got + (l.pipe + [text[l.sent]]) == l.got + l.pipe + [text[l.sent]];
  }

  lemma Receiving(l: Link, text: seq<int>)
    requires Wire(l, text) && l.pipe != []
    ensures Wire(Taken(l), text) && |l.got| < |text| && l.pipe[0] == text[|l.got|]
  {
    assert (l.got + [l.pipe[0]]) + l.pipe[1..] == l.got + l.pipe;
    assert (l.got + l.pipe)[|l.got|] == l.pipe[0];
  }

  lemma WireSizes(s: State)
    requires Wire(s.link, Text(s.c.message, s.payload))
    ensures Sizes(s)
  {
    assert |s.link.got + s.link.pipe| == s.link.sent;
  }

  lemma ControlKeptByChild(s: State, ok: bool)
    requires Control(s) && Sizes(s) && !ChildBlocked(s)
    ensures Control(ChildStep(s, ok))
  {
    match s.c.pc {
      case CSetup => KeptInChild(s, ok);
      case CCloseParent => KeptInChild(s, ok);
      case CWhitelist => KeptInChild(s, ok);
      case CMethod => KeptByRing(s, ok);
      case CRing => KeptByRing(s, ok);
      case CWrite => KeptByWrite(s, ok);
      case CAwait => KeptByAwait(s, ok);
      case CClose => KeptByAwait(s, ok);
    }
  }

  lemma ControlKeptByParent(s: State, ok: bool)
    requires Control(s) && Sizes(s) && !ParentBlocked(s)
    requires s.p.pc == PReadCode && s.link.pipe != [] ==>
               s.c.message == if s.link.pipe[0] == 0 then Success else Failure
    ensures Control(ParentStep(s, ok))
  {
    match s.p.pc {
      case PSetup => KeptInParent(s, ok);
      case PCloseChild => KeptInParent(s, ok);
      case PExclude => KeptInParent(s, ok);
      case PWaitBell => KeptByWait(s, ok);
      case PReadCode => KeptByCode(s, ok);
      case PReadPayload => KeptByPayload(s, ok);
      case PMethod => KeptByMethod(s, ok);
      case PStdFds => KeptByMethod(s, ok);
      case PBlacklist => KeptByBlacklist(s, ok);
      case PAck => KeptByBlacklist(s, ok);
      case PCloseWon => KeptByClose(s, ok);
      case PCloseLost => KeptByClose(s, ok);
      case PReap => KeptByClose(s, ok);
    }
  }

  /** The order of the log and the bytes on the wire, as the child moves. */
  lemma LogKeptByChild(s: State, ok: bool)
    requires Ordered(s.log) && !ChildBlocked(s)
    requires s.c.pc == CWhitelist ==> |s.log| == 0
    requires s.c.pc == CMethod ==> |s.log| == 1
    requires s.c.pc == CClose ==> |s.log| == 5
    ensures Ordered(ChildStep(s, ok).log)
  {
    if s.c.pc == CWhitelist { Logged(s.log, WhitelistClosed); }
    if s.c.pc == CMethod { Logged(s.log, ChildMethodDone); }
    if s.c.pc == CClose { Logged(s.log, ChildContinues); }
  }

  lemma WireKeptByChild(s: State, ok: bool)
    requires Wire(s.link, Text(s.c.message, s.payload)) && !ChildBlocked(s)
    requires s.c.message == Undecided || s.c.pc == CRing || s.c.pc == CWrite || s.c.pc == CAwait || s.c.pc == CClose
    requires s.c.message == Undecided ==> s.link.sent == 0
    ensures Wire(ChildStep(s, ok).link, Text(ChildStep(s, ok).c.message, s.payload))
  {
    var text := Text(s.c.message, s.payload);
    if s.c.pc == CWrite && s.link.sent < |text| { Sending(s.link, text); }
  }

  lemma TextKeptByParent(s: State, ok: bool)
    requires Wire(s.link, Text(s.c.message, s.payload)) && Ordered(s.log) && !ParentBlocked(s)
    requires s.p.pc == PMethod ==> |s.log| == 2
    requires s.p.pc == PBlacklist ==> |s.log| == 3
    requires s.p.pc == PAck ==> |s.log| == 4
    ensures Wire(ParentStep(s, ok).link, Text(s.c.message, s.payload))
    ensures Ordered(ParentStep(s, ok).log)
  {
    if s.link.pipe != [] { Receiving(s.link, Text(s.c.message, s.payload)); }
    if s.p.pc == PMethod { Logged(s.log, ParentMethodDone); }
    if s.p.pc == PBlacklist { Logged(s.log, BlacklistClosed); }
    if s.p.pc == PAck { Logged(s.log, Acknowledged); }
  }

  lemma SameChild(s: State, ok: bool)
    requires !ParentBlocked(s)
    ensures ParentStep(s, ok).c == s.c && ParentStep(s, ok).payload == s.payload && ParentStep(s, ok).cap == s.cap
    ensures ParentStep(s, ok).link.sent == s.link.sent
  {
  }

  lemma SameSettings(s: State, ok: bool)
    requires !ChildBlocked(s)
    ensures ChildStep(s, ok).payload == s.payload && ChildStep(s, ok).cap == s.cap
  {
  }

  lemma ChildKeeps(s: State, ok: bool)
    requires Inv(s) && !ChildBlocked(s)
    ensures Inv(ChildStep(s, ok))
  {
    WireSizes(s);
    ControlKeptByChild(s, ok);
    LogKeptByChild(s, ok);
    WireKeptByChild(s, ok);
    SameSettings(s, ok);
  }

  lemma ParentKeeps(s: State, ok: bool)
    requires Inv(s) && !ParentBlocked(s)
    ensures Inv(ParentStep(s, ok))
  {
    WireSizes(s);
    if s.p.pc == PReadCode && s.link.pipe != [] { Receiving(s.link, Text(s.c.message, s.payload)); }
    ControlKeptByParent(s, ok);
    TextKeptByParent(s, ok);
    SameChild(s, ok);
  }

  lemma KillKeeps(s: State, m: Move)
    requires Inv(s) && Can(s, m) && (m.KillChild? || m.KillParent?)
    ensures Inv(Next(s, m))
  {
    KeptByKill(s, m);
  }

  lemma NextKeeps(s: State, m: Move)
    requires Inv(s) && Can(s, m)
    ensures Inv(Next(s, m))
  {
    match m
    case ChildMoves(ok) => ChildKeeps(s, ok);
    case ParentMoves(ok) => ParentKeeps(s, ok);
    case KillChild => KillKeeps(s, m);
    case KillParent => KillKeeps(s, m);
  }

  lemma {:induction false} RunKeeps(s: State, ms: seq<Move>, s': State)
    requires Inv(s) && Runs(s, ms, s')
    ensures Inv(s')
    decreases |ms|
  {
    if ms != [] {
      NextKeeps(s, ms[0]);
      RunKeeps(Next(s, ms[0]), ms[1..], s');
    }
  }

  lemma StartInv(cap: nat, payload: seq<int>)
    requires cap >= 1
    ensures Inv(Start(cap, payload))
  {
  }

  // ---- what failed, told from the moves ----

  /** The move finds that something failed whose result the source checks. */
  predicate FindsFailure(s: State, m: Move) {
    match m
    case ChildMoves(ok) => !ok && (s.c.pc == CSetup || s.c.pc == CWhitelist || s.c.pc == CMethod)
    case ParentMoves(ok) => !ok && ParentChecks(s)
    case KillChild => false
    case KillParent => false
  }

  predicate ParentChecks(s: State) {
    || s.p.pc == PSetup || s.p.pc == PExclude || s.p.pc == PMethod || s.p.pc == PStdFds || s.p.pc == PBlacklist
    || (s.p.pc == PReadPayload && s.link.pipe != [] && |s.link.got| != |Text(s.c.message, s.payload)|)
  }

  predicate SomethingFails(s: State, ms: seq<Move>)
    decreases |ms|
  {
    ms != [] && Can(s, ms[0]) && (FindsFailure(s, ms[0]) || SomethingFails(Next(s, ms[0]), ms[1..]))
  }

  /** Does setsid, setpgid or the signal reset fail in the child? */
  predicate SetupFails(s: State, ms: seq<Move>)
    decreases |ms|
  {
    && ms != [] && Can(s, ms[0])
    && ((ms[0] == ChildMoves(false) && s.c.pc == CSetup) || SetupFails(Next(s, ms[0]), ms[1..]))
  }

  lemma FailedByChild(s: State, ok: bool)
    requires !ChildBlocked(s)
    ensures ChildStep(s, ok).failed <==> s.failed || FindsFailure(s, ChildMoves(ok))
  {
  }

  lemma FailedByParent(s: State, ok: bool)
    requires !ParentBlocked(s)
    ensures ParentStep(s, ok).failed <==> s.failed || FindsFailure(s, ParentMoves(ok))
  {
  }

  lemma {:induction false} FailedIff(s: State, ms: seq<Move>, s': State)
    requires Runs(s, ms, s')
    ensures s'.failed <==> s.failed || SomethingFails(s, ms)
    decreases |ms|
  {
    if ms != [] {
      match ms[0] {
        case ChildMoves(ok) => FailedByChild(s, ok);
        case ParentMoves(ok) => FailedByParent(s, ok);
        case KillChild =>
        case KillParent =>
      }
      FailedIff(Next(s, ms[0]), ms[1..], s');
    }
  }

  lemma EarlyByChild(s: State, ok: bool)
    requires Inv(s) && !ChildBlocked(s)
    ensures ChildStep(s, ok).c.early <==> s.c.early || (!ok && s.c.pc == CSetup)
  {
  }

  lemma {:induction false} EarlyIff(s: State, ms: seq<Move>, s': State)
    requires Inv(s) && Runs(s, ms, s')
    ensures s'.c.early <==> s.c.early || SetupFails(s, ms)
    decreases |ms|
  {
    if ms != [] {
      NextKeeps(s, ms[0]);
      match ms[0] {
        case ChildMoves(ok) => EarlyByChild(s, ok);
        case ParentMoves(ok) => SameChild(s, ok);
        case KillChild =>
        case KillParent =>
      }
      EarlyIff(Next(s, ms[0]), ms[1..], s');
    }
  }

  lemma {:induction false} KilledIff(s: State, ms: seq<Move>, s': State)
    requires Runs(s, ms, s')
    ensures s'.c.killed <==> s.c.killed || KillChild in ms
    ensures s'.p.killed <==> s.p.killed || KillParent in ms
    decreases |ms|
  {
    if ms != [] {
      assert forall m: Move :: m in ms <==> m == ms[0] || m in ms[1..];
      match ms[0] {
        case ChildMoves(ok) => OnlyKillsKill(s, ok);
        case ParentMoves(ok) => OnlyKillsKill(s, ok); SameChild(s, ok);
        case KillChild =>
        case KillParent =>
      }
      KilledIff(Next(s, ms[0]), ms[1..], s');
    }
  }

  lemma OnlyKillsKill(s: State, ok: bool)
    ensures !ChildBlocked(s) ==> ChildStep(s, ok).p == s.p && ChildStep(s, ok).c.killed == s.c.killed
    ensures !ParentBlocked(s) ==> ParentStep(s, ok).p.killed == s.p.killed
  {
  }

  // ---- what every run keeps ----

  predicate Finished(s: State) {
    ChildDone(s.c) && ParentDone(s.p)
  }

  predicate Quiescent(s: State) {
    ChildBlocked(s) && ParentBlocked(s)
  }

  /** The six events happen in the documented order; the child calls its fork method only after all
      of them, and the parent returns the child's pid only after it acknowledged. */
  lemma OrderNeverViolated(cap: nat, payload: seq<int>, ms: seq<Move>, s: State)
    requires cap >= 1 && Runs(Start(cap, payload), ms, s)
    ensures s.log <= ORDER
    ensures s.c.pc == CForked ==> s.log == ORDER
    ensures s.p.pc == PReturned ==> ORDER[..5] <= s.log
    ensures s.p.pc == PFailed || s.p.pc == PReap ==> s.log <= ORDER[..4]
  {
    StartInv(cap, payload);
    RunKeeps(Start(cap, payload), ms, s);
  }

  /** What the parent has read is a prefix of what the child decided to send. */
  lemma ReceivedIsSent(cap: nat, payload: seq<int>, ms: seq<Move>, s: State)
    requires cap >= 1 && Runs(Start(cap, payload), ms, s)
    ensures var text := Text(s.c.message, s.payload);
            && s.link.got <= text
            && s.link.sent <= |text|
            && s.link.got + s.link.pipe == text[..s.link.sent]
            && (s.p.pc == PReturned ==> s.link.got == [0])
  {
    StartInv(cap, payload);
    RunKeeps(Start(cap, payload), ms, s);
    var text := Text(s.c.message, s.payload);
    assert s.link.got <= s.link.got + s.link.pipe;
  }

  /** Unless one of them was killed, once both are done the child called its fork method exactly
      when the parent returned its pid, and exactly when no move found a failure; otherwise the child
      has exited and the parent has reaped it. */
  lemma BothOrNeither(cap: nat, payload: seq<int>, ms: seq<Move>, s: State)
    requires cap >= 1 && Runs(Start(cap, payload), ms, s)
    requires Finished(s) && KillChild !in ms && KillParent !in ms
    ensures s.c.pc == CForked <==> s.p.pc == PReturned
    ensures s.c.pc == CForked <==> !SomethingFails(Start(cap, payload), ms)
    ensures s.c.pc == CExited <==> s.p.pc == PFailed
  {
    StartInv(cap, payload);
    RunKeeps(Start(cap, payload), ms, s);
    FailedIff(Start(cap, payload), ms, s);
    KilledIff(Start(cap, payload), ms, s);
    FinishedAlike(s);
  }

  lemma FinishedAlike(s: State)
    requires Inv(s) && Finished(s) && !s.c.killed && !s.p.killed
    ensures s.c.pc == CForked <==> s.p.pc == PReturned
    ensures s.c.pc == CForked <==> !s.failed
    ensures s.c.pc == CExited <==> s.p.pc == PFailed
  {
  }

  /** The same while they still run, whoever was killed: a child in its fork method has a parent
      that is returning its pid, and a parent that returned it has a child that is on its way. */
  lemma NeitherRunsAhead(cap: nat, payload: seq<int>, ms: seq<Move>, s: State)
    requires cap >= 1 && Runs(Start(cap, payload), ms, s)
    ensures s.c.pc == CForked ==> s.p.pc == PCloseWon || s.p.pc == PReturned || s.p.killed
    ensures s.p.pc == PReturned ==>
              s.c.pc == CWrite || s.c.pc == CAwait || s.c.pc == CClose || s.c.pc == CForked || s.c.killed
    ensures s.p.pc == PReturned && (s.c.pc == CWrite || s.c.pc == CAwait) ==> s.link.ack
  {
    StartInv(cap, payload);
    RunKeeps(Start(cap, payload), ms, s);
    WireSizes(s);
  }

  // ---- deadlock ----

  lemma BlockedChild(s: State)
    requires Inv(s) && ChildBlocked(s) && !ChildDone(s.c) && !s.c.early
    ensures !ParentBlocked(s)
  {
    WireSizes(s);
  }

  lemma BlockedParent(s: State)
    requires Inv(s) && ChildDone(s.c) && !ParentDone(s.p)
    ensures !ParentBlocked(s)
  {
    WireSizes(s);
  }

  lemma EarlyNeverDone(s: State)
    requires Inv(s) && s.c.early && !s.c.killed
    ensures !ChildDone(s.c)
  {
  }

  /** When neither can move both are done, unless the child failed before it closed its copies of
      the parent's ends: then it waits for a bell that only it could ring. */
  lemma StuckIff(cap: nat, payload: seq<int>, ms: seq<Move>, s: State)
    requires cap >= 1 && Runs(Start(cap, payload), ms, s) && Quiescent(s)
    ensures Finished(s) <==> !SetupFails(Start(cap, payload), ms) || KillChild in ms
  {
    StartInv(cap, payload);
    RunKeeps(Start(cap, payload), ms, s);
    EarlyIff(Start(cap, payload), ms, s);
    KilledIff(Start(cap, payload), ms, s);
    if s.c.early && !s.c.killed {
      EarlyNeverDone(s);
    } else if !ChildDone(s.c) {
      BlockedChild(s);
    } else if !ParentDone(s.p) {
      BlockedParent(s);
    }
  }

  /** In any run without kills, from the moment setsid, setpgid or the signal reset fails in the child
      neither it nor its parent is ever done, whatever the capacity of the pipe. */
  lemma EarlyFailureHangs(cap: nat, payload: seq<int>, ms: seq<Move>, s: State)
    requires cap >= 1 && Runs(Start(cap, payload), ms, s) && SetupFails(Start(cap, payload), ms)
    requires KillChild !in ms && KillParent !in ms
    ensures !ChildDone(s.c) && !ParentDone(s.p)
  {
    StartInv(cap, payload);
    RunKeeps(Start(cap, payload), ms, s);
    EarlyIff(Start(cap, payload), ms, s);
    KilledIff(Start(cap, payload), ms, s);
    EarlyNeverDone(s);
  }

  // ---- every run ends ----

  function ChildRank(pc: ChildPc, left: int): int {
    match pc
    case CSetup => 8 + left
    case CCloseParent => 7 + left
    case CWhitelist => 6 + left
    case CMethod => 5 + left
    case CRing => 4 + left
    case CWrite => 3 + left
    case CAwait => 2
    case CClose => 1
    case CForked => 0
    case CExited => 0
  }

  function ParentRank(pc: ParentPc, left: int): int {
    match pc
    case PSetup => 12 + left
    case PCloseChild => 11 + left
    case PExclude => 10 + left
    case PWaitBell => 9 + left
    case PReadCode => 8 + left
    case PReadPayload => 3 + left
    case PMethod => 6
    case PStdFds => 5
    case PBlacklist => 4
    case PAck => 3
    case PCloseWon => 2
    case PCloseLost => 2
    case PReap => 1
    case PReturned => 0
    case PFailed => 0
    case PKilled => 0
  }

  function ChildMeasure(s: State): int {
    ChildRank(s.c.pc, |s.payload| + 1 - s.link.sent)
  }

  function ParentMeasure(s: State): int {
    ParentRank(s.p.pc, |s.payload| + 1 - |s.link.got|)
  }

  /** How many moves are left at most. */
  function Measure(s: State): int {
    ChildMeasure(s) + ParentMeasure(s)
  }

  lemma WritingFalls(s: State, ok: bool)
    requires !ChildBlocked(s) && s.c.pc == CWrite
    requires s.link.sent <= |Text(s.c.message, s.payload)| <= |s.payload| + 1
    ensures 0 <= ChildMeasure(ChildStep(s, ok)) < ChildMeasure(s)
  {
  }

  lemma ChildMovesOn(s: State, ok: bool)
    requires !ChildBlocked(s) && s.c.pc != CWrite && s.link.sent <= |s.payload| + 1
    ensures 0 <= ChildMeasure(ChildStep(s, ok)) < ChildMeasure(s)
  {
    assert ChildStep(s, ok).link.sent == s.link.sent;
  }

  lemma ChildMeasureFalls(s: State, ok: bool)
    requires !ChildBlocked(s) && s.link.sent <= |Text(s.c.message, s.payload)| <= |s.payload| + 1
    ensures 0 <= ChildMeasure(ChildStep(s, ok)) < ChildMeasure(s)
  {
    if s.c.pc == CWrite { WritingFalls(s, ok); } else { ChildMovesOn(s, ok); }
  }

  lemma ReadingFalls(s: State, ok: bool)
    requires !ParentBlocked(s) && (s.p.pc == PReadCode || s.p.pc == PReadPayload)
    requires |s.link.got| <= |s.payload| + 1 && (s.link.pipe != [] ==> |s.link.got| <= |s.payload|)
    ensures 0 <= ParentMeasure(ParentStep(s, ok)) < ParentMeasure(s)
  {
  }

  lemma ParentMovesOn(s: State, ok: bool)
    requires !ParentBlocked(s) && s.p.pc != PReadCode && s.p.pc != PReadPayload && |s.link.got| <= |s.payload| + 1
    ensures 0 <= ParentMeasure(ParentStep(s, ok)) < ParentMeasure(s)
  {
    assert ParentStep(s, ok).link.got == s.link.got;
  }

  lemma ParentMeasureFalls(s: State, ok: bool)
    requires !ParentBlocked(s) && |s.link.got| <= |s.payload| + 1
    requires s.link.pipe != [] ==> |s.link.got| <= |s.payload|
    ensures 0 <= ParentMeasure(ParentStep(s, ok)) < ParentMeasure(s)
  {
    if s.p.pc == PReadCode || s.p.pc == PReadPayload { ReadingFalls(s, ok); } else { ParentMovesOn(s, ok); }
  }

  /** Neither process touches what the other is measured by. */
  lemma ParentMeasureStays(s: State, ok: bool)
    requires !ChildBlocked(s)
    ensures ParentMeasure(ChildStep(s, ok)) == ParentMeasure(s)
  {
  }

  lemma ChildMeasureStays(s: State, ok: bool)
    requires !ParentBlocked(s)
    ensures ChildMeasure(ParentStep(s, ok)) == ChildMeasure(s)
  {
    SameChild(s, ok);
  }

  lemma MeasuresBounded(s: State)
    requires Sizes(s)
    ensures |Text(s.c.message, s.payload)| <= |s.payload| + 1 && 0 <= ChildMeasure(s) && 0 <= ParentMeasure(s)
  {
  }

  lemma KillMeasureFalls(s: State, m: Move)
    requires Sizes(s) && Can(s, m) && (m == KillChild || m == KillParent)
    ensures 0 <= Measure(Next(s, m)) < Measure(s)
  {
    MeasuresBounded(s);
  }

  lemma MeasureFalls(s: State, m: Move)
    requires Sizes(s) && Can(s, m)
    ensures 0 <= Measure(Next(s, m)) < Measure(s)
  {
    MeasuresBounded(s);
    match m
    case ChildMoves(ok) => ChildMeasureFalls(s, ok); ParentMeasureStays(s, ok);
    case ParentMoves(ok) => ParentMeasureFalls(s, ok); ChildMeasureStays(s, ok);
    case KillChild => KillMeasureFalls(s, m);
    case KillParent => KillMeasureFalls(s, m);
  }

  /** No run is longer than this: together with StuckIff, every run that is not cut short brings both
      processes to their end unless the child failed early. */
  lemma {:induction false} RunsEnd(s: State, ms: seq<Move>, s': State)
    requires Inv(s) && Runs(s, ms, s')
    ensures |ms| <= Measure(s)
    decreases |ms|
  {
    WireSizes(s);
    if ms != [] {
      NextKeeps(s, ms[0]);
      MeasureFalls(s, ms[0]);
      RunsEnd(Next(s, ms[0]), ms[1..], s');
    }
  }

  /** Every operation succeeds and nobody is killed. */
  predicate AllWell(ms: seq<Move>) {
    forall i: nat :: i < |ms| ==> ms[i] == ChildMoves(true) || ms[i] == ParentMoves(true)
  }

  lemma {:induction false} AllWellFindsNothing(s: State, ms: seq<Move>)
    requires AllWell(ms)
    ensures !SomethingFails(s, ms) && KillChild !in ms && KillParent !in ms
    decreases |ms|
  {
    if ms != [] && Can(s, ms[0]) {
      AllWellFindsNothing(Next(s, ms[0]), ms[1..]);
    }
  }

  lemma NotFailedNotEarly(s: State)
    requires Inv(s) && !s.failed
    ensures !s.c.early
  {
  }

  /** If nothing fails and nobody is killed, the pipe's capacity and the scheduling do not matter: the run
      ends with the child in its fork method and the parent returning its pid. */
  lemma AllWellSucceeds(cap: nat, payload: seq<int>, ms: seq<Move>, s: State)
    requires cap >= 1 && Runs(Start(cap, payload), ms, s) && Quiescent(s)
    requires !SomethingFails(Start(cap, payload), ms) && KillChild !in ms && KillParent !in ms
    ensures s.c.pc == CForked && s.p.pc == PReturned && s.log == ORDER && |ms| <= 22 + 2 * |payload|
  {
    StartInv(cap, payload);
    var s0 := Start(cap, payload);
    RunKeeps(s0, ms, s);
    FailedIff(s0, ms, s);
    NotFailedNotEarly(s);
    EarlyIff(s0, ms, s);
    RunsEnd(s0, ms, s);
    StuckIff(cap, payload, ms, s);
    BothOrNeither(cap, payload, ms, s);
    OrderNeverViolated(cap, payload, ms, s);
  }

  /** Whoever can move does, and everything succeeds, until neither can. */
  lemma OneMore(s: State, m: Move, rest: seq<Move>, s': State)
    requires Can(s, m) && (m == ChildMoves(true) || m == ParentMoves(true))
    requires Runs(Next(s, m), rest, s') && AllWell(rest)
    ensures Runs(s, [m] + rest, s') && AllWell([m] + rest)
  {
    assert ([m] + rest)[1..] == rest;
  }

  lemma {:induction false} RunsOut(s: State) returns (ms: seq<Move>, s': State)
    requires Inv(s)
    ensures Runs(s, ms, s') && AllWell(ms) && Quiescent(s')
    decreases Measure(s)
  {
    WireSizes(s);
    MeasuresBounded(s);
    if Quiescent(s) {
      ms, s' := [], s;
    } else {
      var m := if ChildBlocked(s) then ParentMoves(true) else ChildMoves(true);
      NextKeeps(s, m);
      MeasureFalls(s, m);
      var rest;
      rest, s' := RunsOut(Next(s, m));
      OneMore(s, m, rest, s');
      ms := [m] + rest;
    }
  }

  /** For every capacity and payload there is a run that succeeds ... */
  lemma SuccessReached(cap: nat, payload: seq<int>) returns (ms: seq<Move>, s: State)
    requires cap >= 1
    ensures Runs(Start(cap, payload), ms, s) && AllWell(ms) && Quiescent(s)
    ensures s.c.pc == CForked && s.p.pc == PReturned
  {
    StartInv(cap, payload);
    ms, s := RunsOut(Start(cap, payload));
    AllWellFindsNothing(Start(cap, payload), ms);
    AllWellSucceeds(cap, payload, ms, s);
  }

  /** ... and one that hangs: only the child's setup fails, and in the end neither process is done and
      neither can move. */
  lemma HangReached(cap: nat, payload: seq<int>) returns (ms: seq<Move>, s: State)
    requires cap >= 1
    ensures Runs(Start(cap, payload), [ChildMoves(false)] + ms, s) && AllWell(ms)
    ensures Quiescent(s) && !ChildDone(s.c) && !ParentDone(s.p)
  {
    StartInv(cap, payload);
    var failed := Next(Start(cap, payload), ChildMoves(false));
    NextKeeps(Start(cap, payload), ChildMoves(false));
    ms, s := RunsOut(failed);
    assert ([ChildMoves(false)] + ms)[1..] == ms;
    EarlyFailureHangs(cap, payload, [ChildMoves(false)] + ms, s);
  }
}
