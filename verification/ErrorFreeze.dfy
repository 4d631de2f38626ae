/** Error frames on the wire (src/error.c:432-479, 692-820): a sequence is frozen as its length and
    then its frames, and thawed onto whatever stack is current.

    The wire is a sequence of bytes.  Which byte of a structure holds which part of a field is not
    modelled: byte at of an item's image is that item's alone. */
module ErrorFreezing {
  import opened Common
  import opened ErrorFrames
  import opened ErrorReads
  import opened ErrorRuns
  import opened ErrorStacks

  /** What one call writes and one call reads. */
  datatype Item = Length(n: nat) | Raw(frame: Frame)

  datatype Byte = Byte(item: Item, at: nat)

  const EIO := 5

  /** sizeof(unsigned) and sizeof(struct Ert_ErrorFrame) */
  const LENGTH_SIZE: nat := 4
  const FRAME_SIZE: nat := 48

  /** The sites of the frames that the failing calls record, by their line in src/error.c; those of
      read() and write() by their line in src/fd.c. */
  const FREEZE_FRAME := 438
  const VISIT_FRAME := 676
  const FREEZE_LENGTH := 712
  const FREEZE_FRAMES := 732
  const THAW_FRAME := 463
  const THAW_FRAMES := 757
  const THAW_LENGTH := 795
  const THAW_SEQUENCE := 806
  const READ_FD := 1034
  const WRITE_FD := 1128

  // ---- the wire ----

  function Size(item: Item): nat {
    if item.Length? then LENGTH_SIZE else FRAME_SIZE
  }

  function Image(item: Item): (bytes: seq<Byte>)
    ensures |bytes| == Size(item)
  {
    seq(Size(item), i requires 0 <= i < Size(item) => Byte(item, i))
  }

  function Raws(fs: seq<Frame>): (bytes: seq<Byte>)
    ensures |bytes| == FRAME_SIZE * |fs|
  {
    if fs == [] then [] else Image(Raw(fs[0])) + Raws(fs[1..])
  }

  function Encode(fs: seq<Frame>): seq<Byte> {
    Image(Length(|fs|)) + Raws(fs)
  }

  /** A read of size bytes: nothing if the wire ends first or the bytes are no item's image. */
  function Take(wire: seq<Byte>, size: nat): (item: Option<Item>)
    ensures item.Some? ==> Size(item.value) == size <= |wire|
  {
    if |wire| < size || size == 0 || Image(wire[0].item) != wire[..size] then None else Some(wire[0].item)
  }

  lemma TakeImage(item: Item, more: seq<Byte>)
    ensures Take(Image(item) + more, Size(item)) == Some(item) && (Image(item) + more)[Size(item)..] == more
  {
    assert (Image(item) + more)[..Size(item)] == Image(item);
    assert Image(item)[0].item == item;
  }

  /** The first n frames, if they are all there. */
  function Unraw(wire: seq<Byte>, n: nat): (fs: Option<seq<Frame>>)
    ensures fs.Some? ==> |fs.value| == n
    decreases n
  {
    if n == 0 then Some([])
    else
      match Take(wire, FRAME_SIZE)
      case None => None
      case Some(item) =>
        var rest := Unraw(wire[FRAME_SIZE..], n - 1);
        if rest == None then None else Some([item.frame] + rest.value)
  }

  function Decode(wire: seq<Byte>): Option<seq<Frame>> {
    match Take(wire, LENGTH_SIZE)
    case None => None
    case Some(item) => Unraw(wire[LENGTH_SIZE..], item.n)
  }

  lemma RawsFirst(fs: seq<Frame>, more: seq<Byte>)
    requires fs != []
    ensures Raws(fs) + more == Image(Raw(fs[0])) + (Raws(fs[1..]) + more)
  {
  }

  lemma {:induction false} UnrawRaws(fs: seq<Frame>, more: seq<Byte>)
    ensures Unraw(Raws(fs) + more, |fs|) == Some(fs)
    decreases |fs|
  {
    if fs != [] {
      UnrawRaws(fs[1..], more);
      RawsFirst(fs, more);
      TakeImage(Raw(fs[0]), Raws(fs[1..]) + more);
      assert [fs[0]] + fs[1..] == fs;
    }
  }

  /** Whatever follows on the wire, and however many frames. */
  lemma DecodeEncode(fs: seq<Frame>, more: seq<Byte>)
    ensures Decode(Encode(fs) + more) == Some(fs)
  {
    UnrawRaws(fs, more);
    TakeImage(Length(|fs|), Raws(fs) + more);
    assert Encode(fs) + more == Image(Length(|fs|)) + (Raws(fs) + more);
  }

  /** A wire that breaks off inside its last frame or before does not thaw. */
  lemma {:induction false} UnrawShort(wire: seq<Byte>, n: nat)
    requires |wire| < FRAME_SIZE * n
    ensures Unraw(wire, n) == None
    decreases n
  {
    if |wire| >= FRAME_SIZE {
      UnrawShort(wire[FRAME_SIZE..], n - 1);
    }
  }

  // ---- failures ----

  /** Which calls failed, from the innermost out, and the errno they all saw. */
  datatype Failure = Failure(sites: seq<int>, errno: int)

  /** What read() or write() of an item returns that stops after done bytes: for want of more, or with
      the errno in fault, which is only noticed when nothing has been moved yet. */
  function Stopped(done: nat, fault: Option<int>): int {
    if done == 0 && fault.Some? then -1 else done
  }

  /** The callers find a short item, or pass on the failure of the call named innermost. */
  function FailureOf(innermost: int, sites: seq<int>, done: nat, fault: Option<int>): Failure {
    if done == 0 && fault.Some? then Failure([innermost] + sites, fault.value) else Failure(sites, EIO)
  }

  function FailureFrames(s: Stack, f: Failure, tid: int): seq<Frame> {
    seq(|f.sites|, i requires 0 <= i < |f.sites| => Frame(f.sites[i], f.errno, SeqId(tid, s.head.index)))
  }

  function Failed(s: (Stack, nat), f: Failure, tid: int, cap: nat): (Stack, nat)
    requires Shaped(s.0, cap)
  {
    (AddAll(s.0, FailureFrames(s.0, f, tid), cap), s.1)
  }

  method RecordFailure(stack: ErrorStack, f: Failure)
    requires stack.Valid()
    modifies stack.Stack(), stack.Stack().mChunkList
    ensures stack.Valid()
    ensures var p := old(stack.View());
            stack.View() == With(p, Failed((Current(p), p.index), f, stack.tid, stack.mThread.cap))
  {
    var index := stack.Stack().mHead.index;
    var frames := seq(|f.sites|, i requires 0 <= i < |f.sites| => Frame(f.sites[i], f.errno, SeqId(stack.tid, index)));
    assert frames == FailureFrames(Current(stack.View()), f, stack.tid);
    stack.AddFrames(frames);
  }

  // ---- freezing ----

  /** One write to a wire that takes room more bytes, and then no more or fails as fault says. */
  method Write(wire: seq<Byte>, image: seq<Byte>, room: nat, fault: Option<int>)
    returns (wire': seq<Byte>, wroteLen: int)
    ensures wire' == wire + image[..if room < |image| then room else |image|]
    ensures wroteLen == if room < |image| then Stopped(room, fault) else |image|
  {
    if room < |image| {
      return wire + image[..room], Stopped(room, fault);
    }
    wire', wroteLen := wire + image, |image|;
  }

  /** Which calls fail when a sequence of size bytes is written to such a wire. */
  function FreezeFailure(size: nat, room: nat, fault: Option<int>): Option<Failure> {
    if size <= room then None
    else if room < LENGTH_SIZE then Some(FailureOf(WRITE_FD, [FREEZE_LENGTH], room, fault))
    else
      Some(FailureOf(WRITE_FD, [FREEZE_FRAME, VISIT_FRAME, FREEZE_FRAMES], (room - LENGTH_SIZE) % FRAME_SIZE, fault))
  }

  function Frozen(s: (Stack, nat), failure: Option<Failure>, tid: int, cap: nat): (Stack, nat)
    requires Shaped(s.0, cap)
  {
    if failure == None then s else Failed(s, failure.value, tid, cap)
  }

  /** ert_freezeErrorFrameSequence: onto the wire goes what it has room for; the sequence's length comes
      back if that is everything, and otherwise what failed is recorded. */
  method Freeze(stack: ErrorStack, sequence: Sequence, room: nat, fault: Option<int>) returns (wire: seq<Byte>, rc: int)
    requires stack.Valid() && Inside(sequence.begin, |stack.Stack().mChunkList|, stack.mThread.cap)
    requires AllHeld(Current(stack.View()).chunks, VisitPos(sequence.begin, sequence.offset, stack.mThread.cap))
    modifies stack, stack.Stack(), stack.Stack().mChunkList
    ensures stack.Valid()
    ensures var p, cap := old(stack.View()), stack.mThread.cap;
            var full := Encode(Frames(Current(p).chunks, VisitPos(sequence.begin, sequence.offset, cap)));
            var failure := FreezeFailure(|full|, room, fault);
            && wire == full[..if failure == None then |full| else room]
            && rc == (if failure == None then sequence.offset else -1)
            && stack.View() == With(p, Frozen(Restart(Current(p), p.index), failure, stack.tid, cap))
  {
    stack.Restart();
    var frames := stack.Stack().Visit(sequence);
    var failure;
    wire, failure := WriteSequence(frames, room, fault);
    if failure == None {
      return wire, sequence.offset;
    }
    RecordFailure(stack, failure.value);
    rc := -1;
  }

  method WriteSequence(frames: seq<Frame>, room: nat, fault: Option<int>)
    returns (wire: seq<Byte>, failure: Option<Failure>)
    ensures failure == FreezeFailure(|Encode(frames)|, room, fault)
    ensures wire == Encode(frames)[..if failure == None then |Encode(frames)| else room]
  {
    var wroteLen;
    wire, wroteLen := Write([], Image(Length(|frames|)), room, fault);
    if wroteLen == -1 || LENGTH_SIZE != wroteLen {
      assert wire == Encode(frames)[..room];
      return wire, Some(Reported(WRITE_FD, [FREEZE_LENGTH], wroteLen, fault));
    }
    var ok;
    wire, ok, wroteLen := WriteFrames(wire, frames, room - LENGTH_SIZE, fault);
    if !ok {
      assert wire == Encode(frames)[..room];
      return wire, Some(Reported(WRITE_FD, [FREEZE_FRAME, VISIT_FRAME, FREEZE_FRAMES], wroteLen, fault));
    }
    failure := None;
  }

  /** The callers' ERT_ERROR_IF: errno is EIO unless the innermost call returned -1. */
  function Reported(innermost: int, sites: seq<int>, len: int, fault: Option<int>): (f: Failure)
    ensures forall done: nat :: len == Stopped(done, fault) ==> f == FailureOf(innermost, sites, done, fault)
  {
    if len == -1 && fault.Some? then Failure([innermost] + sites, fault.value) else Failure(sites, EIO)
  }

  /** The frames one by one, until one does not fit. */
  method WriteFrames(start: seq<Byte>, frames: seq<Frame>, room: nat, fault: Option<int>)
    returns (wire: seq<Byte>, ok: bool, wroteLen: int)
    ensures ok <==> |Raws(frames)| <= room
    ensures !ok ==> wroteLen == Stopped(room % FRAME_SIZE, fault)
    ensures wire == start + Raws(frames)[..if ok then |Raws(frames)| else room]
  {
    wire, ok, wroteLen := start, true, 0;
    var length := 0;
    assert frames[..0] == [];
    while length < |frames|
      invariant 0 <= length <= |frames| && FRAME_SIZE * length <= room
      invariant ok && wire == start + Raws(frames[..length])
    {
      WriteStep(start, frames, length, room);
      wire, wroteLen := Write(wire, Image(Raw(frames[length])), room - FRAME_SIZE * length, fault);
      if wroteLen == -1 || FRAME_SIZE != wroteLen {
        return wire, false, wroteLen;
      }
      length := length + 1;
    }
    assert frames[..length] == frames;
  }

  /** The frame after the first n, all of it or the part that there is room for. */
  lemma WriteStep(start: seq<Byte>, frames: seq<Frame>, n: nat, room: nat)
    requires n < |frames| && FRAME_SIZE * n <= room
    ensures var image, left := Image(Raw(frames[n])), room - FRAME_SIZE * n;
            if left < FRAME_SIZE then
              && room < |Raws(frames)| && left == room % FRAME_SIZE
              && start + Raws(frames[..n]) + image[..left] == start + Raws(frames)[..room]
            else start + Raws(frames[..n]) + image == start + Raws(frames[..n + 1])
  {
    RawsOn(frames, n);
    var before, image, left := Raws(frames[..n]), Image(Raw(frames[n])), room - FRAME_SIZE * n;
    assert start + before + image == start + (before + image);
    if left < FRAME_SIZE {
      assert Raws(frames)[..room] == (before + image)[..room] == before + image[..left];
      assert start + before + image[..left] == start + (before + image[..left]);
    }
  }

  lemma {:induction false} RawsOn(frames: seq<Frame>, n: nat)
    requires n < |frames|
    ensures Raws(frames[..n + 1]) == Raws(frames[..n]) + Image(Raw(frames[n]))
    ensures Raws(frames[..n + 1]) <= Raws(frames)
    decreases n
  {
    assert frames[..n + 1][0] == frames[0] && frames[..n + 1][1..] == frames[1..][..n];
    if n > 0 {
      RawsOn(frames[1..], n - 1);
      assert frames[..n][1..] == frames[1..][..n - 1];
    } else {
      assert frames[1..][..0] == [];
    }
  }

  // ---- thawing ----

  /** What is left at the first frame that cannot be read, or after n of them. */
  function Left(wire: seq<Byte>, n: nat): seq<Byte>
    decreases n
  {
    if n == 0 || Take(wire, FRAME_SIZE) == None then wire else Left(wire[FRAME_SIZE..], n - 1)
  }

  datatype Arrival = Arrived(frames: seq<Frame>) | Broken(failure: Failure)

  /** What ert_thawErrorFrameSequence makes of the wire, which ends or fails as fault says: the frames,
      or which calls fail. */
  function Received(wire: seq<Byte>, fault: Option<int>): Arrival {
    match Take(wire, LENGTH_SIZE)
    case None => Broken(FailureOf(READ_FD, [THAW_LENGTH], |wire|, fault))
    case Some(length) => ReceivedFrames(wire[LENGTH_SIZE..], length.n, fault)
  }

  function ReceivedFrames(wire: seq<Byte>, n: nat, fault: Option<int>): Arrival {
    match Unraw(wire, n)
    case None => Broken(FailureOf(READ_FD, [THAW_FRAME, THAW_FRAMES, THAW_SEQUENCE], |Left(wire, n)|, fault))
    case Some(fs) => Arrived(fs)
  }

  /** ert_thawErrorFrameSequence: the stack, the result and errno. */
  function Thaw(s: (Stack, nat), wire: seq<Byte>, fault: Option<int>, errno: int, tid: int, cap: nat)
    : ((Stack, nat), int, int)
    requires Shaped(s.0, cap)
  {
    Thawed(Restart(s.0, s.1), Received(wire, fault), errno, tid, cap)
  }

  function Thawed(s: (Stack, nat), read: Arrival, errno: int, tid: int, cap: nat): ((Stack, nat), int, int)
    requires Shaped(s.0, cap)
  {
    match read
    case Broken(failure) => (Failed(s, failure, tid, cap), -1, failure.errno)
    case Arrived(fs) => if fs == [] then (s, 0, errno) else ((AddAll(s.0, fs, cap), s.1), -1, fs[|fs| - 1].errno)
  }

  /** One read: the item, or what read() returned instead. */
  method Read(wire: seq<Byte>, size: nat, fault: Option<int>) returns (item: Option<Item>, readLen: int)
    ensures item == Take(wire, size)
    ensures item == None ==> readLen == Stopped(|wire|, fault)
  {
    item := Take(wire, size);
    readLen := if item == None then Stopped(|wire|, fault) else size;
  }

  /** ert_thawErrorFrameSequence_'s first loop: into an array of its own, all or nothing. */
  method ReadFrames(wire: seq<Byte>, aSeqLength: nat, fault: Option<int>) returns (read: Arrival)
    ensures read == ReceivedFrames(wire, aSeqLength, fault)
  {
    var errorFrames: seq<Frame> := [];
    var sx, rest := 0, wire;
    JoinedNone(Unraw(wire, aSeqLength));
    while sx < aSeqLength
      invariant 0 <= sx <= aSeqLength
      invariant Unraw(wire, aSeqLength) == Joined(errorFrames, Unraw(rest, aSeqLength - sx))
      invariant Left(wire, aSeqLength) == Left(rest, aSeqLength - sx)
    {
      var item, readLen := Read(rest, FRAME_SIZE, fault);
      if item == None {
        return Broken(Reported(READ_FD, [THAW_FRAME, THAW_FRAMES, THAW_SEQUENCE], readLen, fault));
      }
      JoinedStep(errorFrames, rest, aSeqLength - sx);
      errorFrames := errorFrames + [item.value.frame];
      rest := rest[FRAME_SIZE..];
      sx := sx + 1;
    }
    assert errorFrames + [] == errorFrames;
    read := Arrived(errorFrames);
  }

  /** The reads of a whole sequence. */
  method Receive(wire: seq<Byte>, fault: Option<int>) returns (read: Arrival)
    ensures read == Received(wire, fault)
  {
    var length, readLen := Read(wire, LENGTH_SIZE, fault);
    if length == None {
      return Broken(Reported(READ_FD, [THAW_LENGTH], readLen, fault));
    }
    if length.value.n == 0 {
      return Arrived([]);
    }
    read := ReadFrames(wire[LENGTH_SIZE..], length.value.n, fault);
  }

  function Joined(fs: seq<Frame>, rest: Option<seq<Frame>>): Option<seq<Frame>> {
    if rest == None then None else Some(fs + rest.value)
  }

  lemma JoinedNone(rest: Option<seq<Frame>>)
    ensures Joined([], rest) == rest
  {
    assert rest.Some? ==> [] + rest.value == rest.value;
  }

  lemma JoinedStep(fs: seq<Frame>, wire: seq<Byte>, n: nat)
    requires n > 0 && Take(wire, FRAME_SIZE).Some?
    ensures Joined(fs, Unraw(wire, n))
         == Joined(fs + [Take(wire, FRAME_SIZE).value.frame], Unraw(wire[FRAME_SIZE..], n - 1))
  {
    var f, rest := Take(wire, FRAME_SIZE).value.frame, Unraw(wire[FRAME_SIZE..], n - 1);
    if rest.Some? {
      assert fs + ([f] + rest.value) == fs + [f] + rest.value;
    }
  }

  /** ert_thawErrorFrameSequence */
  method ThawOnto(stack: ErrorStack, wire: seq<Byte>, fault: Option<int>, errno: int) returns (rc: int, errno': int)
    requires stack.Valid()
    modifies stack, stack.Stack(), stack.Stack().mChunkList
    ensures stack.Valid()
    ensures var p := old(stack.View());
            var t := Thaw((Current(p), p.index), wire, fault, errno, stack.tid, stack.mThread.cap);
            stack.View() == With(p, t.0) && rc == t.1 && errno' == t.2
  {
    stack.Restart();
    var read := Receive(wire, fault);
    if read.Broken? {
      RecordFailure(stack, read.failure);
      return -1, read.failure.errno;
    }
    if read.frames == [] {
      return 0, errno;
    }
    stack.Restart();
    stack.AddFrames(read.frames);
    return -1, read.frames[|read.frames| - 1].errno;
  }

  /** A wire that breaks off at any byte before its last: the stack holds the frames of that failure and
      none of the wire's.  The caller sees the errno of the fault exactly when the break is between two
      items, and otherwise EIO. */
  lemma CutShort(s: (Stack, nat), fs: seq<Frame>, cut: nat, fault: Option<int>, errno: int, tid: int, cap: nat)
    requires cut < |Encode(fs)| && Shaped(s.0, cap)
    ensures var failure :=
              if cut < LENGTH_SIZE then FailureOf(READ_FD, [THAW_LENGTH], cut, fault)
              else FailureOf(READ_FD, [THAW_FRAME, THAW_FRAMES, THAW_SEQUENCE], (cut - LENGTH_SIZE) % FRAME_SIZE, fault);
            Thaw(s, Encode(fs)[..cut], fault, errno, tid, cap)
            == (Failed(Restart(s.0, s.1), failure, tid, cap), -1, failure.errno)
  {
    if cut >= LENGTH_SIZE {
      var wire, raws := Encode(fs)[..cut], Raws(fs)[..cut - LENGTH_SIZE];
      assert wire == Image(Length(|fs|)) + raws;
      TakeImage(Length(|fs|), raws);
      UnrawShort(raws, |fs|);
      LeftShort(fs, cut - LENGTH_SIZE);
    }
  }

  /** What is left of frames cut short is the part of the last one. */
  lemma {:induction false} LeftShort(fs: seq<Frame>, cut: nat)
    requires cut < |Raws(fs)|
    ensures |Left(Raws(fs)[..cut], |fs|)| == cut % FRAME_SIZE
    decreases |fs|
  {
    var wire := Raws(fs)[..cut];
    if cut >= FRAME_SIZE {
      assert wire == Image(Raw(fs[0])) + Raws(fs[1..])[..cut - FRAME_SIZE];
      TakeImage(Raw(fs[0]), Raws(fs[1..])[..cut - FRAME_SIZE]);
      LeftShort(fs[1..], cut - FRAME_SIZE);
    }
  }

  // ---- there and back ----

  /** The calls that ert_thawErrorFrameSequence_ makes once it has read the frames. */
  function AddEvents(fs: seq<Frame>): seq<Event> {
    if fs == [] then [] else [AddFrame(fs[0].site, fs[0].errno, Some(fs[0].seqId))] + AddEvents(fs[1..])
  }

  lemma {:induction false} AddsRun(r: Run, fs: seq<Frame>) returns (r': Run)
    requires Ready(r)
    ensures Runs(r, AddEvents(fs), r') && Ready(r') && r'.cap == r.cap && r'.pool.kind == r.pool.kind
    ensures Current(r'.pool) == AddAll(Current(r.pool), fs, r.cap) && r'.pool.index == r.pool.index
    ensures Top(Mine(r')).frames == Top(Mine(r)).frames + fs
    decreases |fs|
  {
    if fs == [] {
      r' := r;
      assert Top(Mine(r)).frames + fs == Top(Mine(r)).frames;
    } else {
      var r1 := AddRun(r, fs[0]);
      r' := AddsRun(r1, fs[1..]);
      RunsStep(r, AddFrame(fs[0].site, fs[0].errno, Some(fs[0].seqId)), AddEvents(fs[1..]), r');
      assert Top(Mine(r)).frames + [fs[0]] + fs[1..] == Top(Mine(r)).frames + fs;
    }
  }

  lemma AddRun(r: Run, f: Frame) returns (r': Run)
    requires Ready(r)
    ensures Applies(r, AddFrame(f.site, f.errno, Some(f.seqId)))
    ensures r' == Next(r, AddFrame(f.site, f.errno, Some(f.seqId))) && Ready(r')
    ensures r'.cap == r.cap && r'.pool.kind == r.pool.kind && r'.pool.index == r.pool.index
    ensures Current(r'.pool) == Put(Current(r.pool), f, r.cap)
    ensures Top(Mine(r')).frames == Top(Mine(r)).frames + [f]
  {
    r' := Next(r, AddFrame(f.site, f.errno, Some(f.seqId)));
  }

  lemma RestartRun(r: Run) returns (r': Run)
    requires RunInv(r)
    ensures Applies(r, RestartSequence) && r' == Next(r, RestartSequence) && RunInv(r')
    ensures r'.cap == r.cap && r'.pool.kind == r.pool.kind
    ensures (Current(r'.pool), r'.pool.index) == Restart(Current(r.pool), r.pool.index)
    ensures Top(Mine(r')).frames == []
  {
    r' := Next(r, RestartSequence);
    NextKeeps(r, RestartSequence);
    assert LiveInv(Top(Mine(r')), Current(r'.pool).chunks, r'.cap);
  }

  lemma ArrivesWhole(fs: seq<Frame>, more: seq<Byte>, fault: Option<int>)
    ensures Received(Encode(fs) + more, fault) == Arrived(fs)
  {
    DecodeEncode(fs, more);
  }

  lemma ThawRun(to: Run, fs: seq<Frame>, errno: int) returns (to': Run)
    requires RunInv(to)
    ensures Runs(to, [RestartSequence] + AddEvents(fs), to') && RunInv(to') && to'.cap == to.cap
    ensures Shaped(Restart(Current(to.pool), to.pool.index).0, to.cap)
    ensures (Current(to'.pool), to'.pool.index)
            == Thawed(Restart(Current(to.pool), to.pool.index), Arrived(fs), errno, to.tid, to.cap).0
    ensures |Mine(to').lives| > 0 && Top(Mine(to')).frames == fs
  {
    var mid := RestartRun(to);
    to' := AddsRun(mid, fs);
    RunKeeps(mid, AddEvents(fs), to');
    RunsStep(to, RestartSequence, AddEvents(fs), to');
    assert [] + fs == fs;
  }

  lemma ThawsOnto(cap: nat, tid: int, es: seq<Event>, to: Run,
                  fs: seq<Frame>, errno: int, more: seq<Byte>, fault: Option<int>)
    returns (to': Run)
    requires cap >= 1 && Runs(Start(cap, tid), es, to)
    ensures Shaped(Current(to.pool), cap)
    ensures var (stack, rc, errno') := Thaw((Current(to.pool), to.pool.index), Encode(fs) + more, fault, errno, tid, cap);
            && Runs(to, [RestartSequence] + AddEvents(fs), to')
            && (Current(to'.pool), to'.pool.index) == stack
            && |Mine(to').lives| > 0 && Top(Mine(to')).frames == fs
            && (fs == [] ==> rc == 0 && errno' == errno)
            && (fs != [] ==> rc == -1 && errno' == fs[|fs| - 1].errno)
    ensures ShowsTop(to', cap)
  {
    StartInv(cap, tid);
    RunKeeps(Start(cap, tid), es, to);
    ArrivesWhole(fs, more, fault);
    to' := ThawRun(to, fs, errno);
    ShowsWhenGapless(to');
  }

  /** Freeze any live or saved sequence of any run, and thaw it onto the current sequence of any other:
      the run goes on with a restart and the frames the visitor showed under their own errno and numbers,
      the caller is told of a failure whose errno is that of the last of them, and the visitor shows them
      again.  They are the frames recorded if there are as many as places for them. */
  lemma FreezeThaw(cap: nat, tid: int, es: seq<Event>, r: Run, i: nat,
                   cap2: nat, tid2: int, es2: seq<Event>, to: Run, errno: int, more: seq<Byte>, fault: Option<int>)
    returns (fs: seq<Frame>, to': Run)
    requires cap >= 1 && Runs(Start(cap, tid), es, r) && i < |Mine(r).lives|
    requires cap2 >= 1 && Runs(Start(cap2, tid2), es2, to)
    ensures var l := Mine(r).lives[i];
            var chunks, visited := Current(r.pool).chunks, VisitPos(l.begin, |l.path|, cap);
            && AllHeld(chunks, visited) && fs == Frames(chunks, visited)
            && (Gapless(l.begin, End(l), |l.path|, cap) ==> fs == l.frames)
    ensures Shaped(Current(to.pool), cap2)
    ensures var (stack, rc, errno') :=
              Thaw((Current(to.pool), to.pool.index), Encode(fs) + more, fault, errno, tid2, cap2);
            && Runs(to, [RestartSequence] + AddEvents(fs), to')
            && (Current(to'.pool), to'.pool.index) == stack
            && |Mine(to').lives| > 0 && Top(Mine(to')).frames == fs
            && (fs == [] ==> rc == 0 && errno' == errno)
            && (fs != [] ==> rc == -1 && errno' == fs[|fs| - 1].errno)
    ensures ShowsTop(to', cap2)
  {
    VisitExactIff(cap, tid, es, r, i);
    fs := Frames(Current(r.pool).chunks, VisitPos(Mine(r).lives[i].begin, |Mine(r).lives[i].path|, cap));
    to' := ThawsOnto(cap2, tid2, es2, to, fs, errno, more, fault);
  }

  /** The visitor shows the frames of the current sequence if there are as many as places for them. */
  predicate ShowsTop(r: Run, cap: nat) {
    var s := Current(r.pool);
    |Mine(r).lives| > 0 && Gapless(s.head.iter, s.tail.iter, s.tail.offset, cap) ==>
      var l := Top(Mine(r));
      var visited := VisitPos(l.begin, |l.path|, cap);
      AllHeld(s.chunks, visited) && Frames(s.chunks, visited) == l.frames
  }

  lemma ShowsWhenGapless(r: Run)
    requires RunInv(r)
    ensures ShowsTop(r, r.cap)
  {
    assert LiveInv(Top(Mine(r)), Current(r.pool).chunks, r.cap);
    VisitInside(Top(Mine(r)), Current(r.pool).chunks, r.cap);
    TopStraightIff(Current(r.pool), Mine(r), r.cap);
  }
}
