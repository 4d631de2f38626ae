/** The stacks of error frames of one thread (src/error.c:340-680), on values.

    A stack keeps its frames in a list of chunks that only ever grows at its end; a position names a
    frame by its chunk and its place in it, and a place equal to the capacity is the chunk's end. */
module ErrorFrames {
  import opened Common

  datatype SeqId = SeqId(tid: int, index: nat)

  /** site: the file, line, function and text of the failure. */
  datatype Frame = Frame(site: int, errno: int, seqId: SeqId)

  const ZERO := Frame(0, 0, SeqId(0, 0))

  datatype Pos = Pos(chunk: nat, frame: nat)

  datatype Head = Head(iter: Pos, index: nat)

  datatype Tail = Tail(iter: Pos, offset: nat)

  /** struct Ert_ErrorFrameSequence, which a push hands to its caller. */
  datatype Sequence = Sequence(begin: Pos, end: Pos, index: nat, offset: nat)

  datatype Stack = Stack(head: Head, tail: Tail, chunks: seq<seq<Frame>>)

  predicate Before(p: Pos, q: Pos) {
    p.chunk < q.chunk || (p.chunk == q.chunk && p.frame < q.frame)
  }

  predicate NotAfter(p: Pos, q: Pos) {
    p == q || Before(p, q)
  }

  /** An iterator: a frame of a listed chunk, or the end of one. */
  predicate Inside(p: Pos, chunks: nat, cap: nat) {
    p.chunk < chunks && p.frame <= cap
  }

  predicate Holds(chunks: seq<seq<Frame>>, p: Pos) {
    p.chunk < |chunks| && p.frame < |chunks[p.chunk]|
  }

  function At(chunks: seq<seq<Frame>>, p: Pos): Frame
    requires Holds(chunks, p)
  {
    chunks[p.chunk][p.frame]
  }

  predicate Shaped(s: Stack, cap: nat) {
    && cap >= 1
    && (forall i: nat :: i < |s.chunks| ==> |s.chunks[i]| == cap)
    && Inside(s.head.iter, |s.chunks|, cap)
    && Inside(s.tail.iter, |s.chunks|, cap)
  }

  function Succ(p: Pos): Pos {
    Pos(p.chunk, p.frame + 1)
  }

  // ---- the operations ----

  function Zeros(cap: nat): (r: seq<Frame>)
    ensures |r| == cap
  {
    seq(cap, i => ZERO)
  }

  /** Where the next frame goes: a full chunk makes way for a new one at the end of the list. */
  function WritePos(s: Stack, cap: nat): Pos {
    if s.tail.iter.frame == cap then Pos(|s.chunks|, 0) else s.tail.iter
  }

  function Grown(s: Stack, cap: nat): seq<seq<Frame>> {
    if s.tail.iter.frame == cap then s.chunks + [Zeros(cap)] else s.chunks
  }

  function Stored(chunks: seq<seq<Frame>>, p: Pos, f: Frame): seq<seq<Frame>>
    requires Holds(chunks, p)
  {
    chunks[p.chunk := chunks[p.chunk][p.frame := f]]
  }

  function Put(s: Stack, f: Frame, cap: nat): (r: Stack)
    requires Shaped(s, cap)
    ensures Shaped(r, cap)
  {
    var p := WritePos(s, cap);
    s.(tail := Tail(Succ(p), s.tail.offset + 1), chunks := Stored(Grown(s, cap), p, f))
  }

  /** ert_addErrorFrame_ */
  function Add(s: Stack, site: int, errno: int, seqId: Option<SeqId>, tid: int, cap: nat): (r: Stack)
    requires Shaped(s, cap)
    ensures Shaped(r, cap)
  {
    Put(s, Frame(site, errno, if seqId.Some? then seqId.value else SeqId(tid, s.head.index)), cap)
  }

  /** Several frames, each with its own errno and number. */
  function AddAll(s: Stack, fs: seq<Frame>, cap: nat): (r: Stack)
    requires Shaped(s, cap)
    ensures Shaped(r, cap)
    decreases |fs|
  {
    if fs == [] then s else AddAll(Put(s, fs[0], cap), fs[1..], cap)
  }

  /** ert_restartErrorFrameSequence_: the stack, and the counter. */
  function Restart(s: Stack, counter: nat): (Stack, nat) {
    if s.tail.offset == 0 then (s, counter)
    else (s.(head := s.head.(index := counter), tail := Tail(s.head.iter, 0)), counter + 1)
  }

  function Mark(s: Stack): Sequence {
    Sequence(s.head.iter, s.tail.iter, s.head.index, s.tail.offset)
  }

  /** ert_pushErrorFrameSequence, which returns Mark(s). */
  function Push(s: Stack, counter: nat): (Stack, nat) {
    (s.(head := Head(s.tail.iter, counter), tail := s.tail.(offset := 0)), counter + 1)
  }

  /** ert_popErrorFrameSequence: takes the counter back when the sequence that ends was the last
      to be numbered. */
  function Pop(s: Stack, counter: nat, mark: Sequence): (Stack, nat) {
    var (s', counter') := Restart(s, counter);
    (s'.(head := Head(mark.begin, mark.index), tail := Tail(mark.end, mark.offset)),
     if counter' == s'.head.index + 1 then s'.head.index else counter')
  }

  /** A stack as initErrorFrame_ makes it. */
  function Fresh(index: nat, cap: nat): (r: Stack)
    requires cap >= 1
    ensures Shaped(r, cap)
  {
    Stack(Head(Pos(0, 0), index), Tail(Pos(0, 0), 0), [Zeros(cap)])
  }

  // ---- both stacks ----

  datatype Kind = Thread | Signal

  /** errorStack_: the thread's stack and the signal handler's, which is current, and the counter
      they share. */
  datatype Pool = Pool(thread: Stack, signal: Stack, kind: Kind, index: nat)

  function Current(p: Pool): Stack {
    if p.kind == Thread then p.thread else p.signal
  }

  function With(p: Pool, current: (Stack, nat)): Pool {
    if p.kind == Thread then p.(thread := current.0, index := current.1)
    else p.(signal := current.0, index := current.1)
  }

  /** initErrorFrame_: it numbers the signal handler's stack before the thread's. */
  function Init(cap: nat): Pool
    requires cap >= 1
  {
    Pool(Fresh(1, cap), Fresh(0, cap), Thread, 2)
  }

  // ---- reading ----

  /** Where visitErrorFrameSequence_ reads when its iterator is at p. */
  function ReadPos(p: Pos, cap: nat): Pos {
    if p.frame == cap then Pos(p.chunk + 1, 0) else p
  }

  /** The positions it reads, from begin, for n frames. */
  function VisitPos(begin: Pos, n: nat, cap: nat): (r: seq<Pos>)
    ensures |r| == n
    decreases n
  {
    if n == 0 then [] else [ReadPos(begin, cap)] + VisitPos(Succ(ReadPos(begin, cap)), n - 1, cap)
  }

  predicate AllHeld(chunks: seq<seq<Frame>>, ps: seq<Pos>) {
    forall k: nat :: k < |ps| ==> Holds(chunks, ps[k])
  }

  function Frames(chunks: seq<seq<Frame>>, ps: seq<Pos>): (r: seq<Frame>)
    requires AllHeld(chunks, ps)
    ensures |r| == |ps|
  {
    seq(|ps|, k requires 0 <= k < |ps| => At(chunks, ps[k]))
  }

  /** Where ert_ownErrorFrame_ finds frame k of the sequence on the stack: counted back from the tail
      in the tail's chunk, and otherwise always in the chunk before that one. */
  function Lookup(t: Tail, k: nat, cap: nat): Option<Pos>
    requires cap >= 1
  {
    if t.offset <= k then None
    else
      var back := t.offset - k;
      if back <= t.iter.frame then Some(Pos(t.iter.chunk, t.iter.frame - back))
      else if t.iter.chunk == 0 then None
      else Some(Pos(t.iter.chunk - 1, cap - 1 - (back - t.iter.frame - 1) % cap))
  }

  /** A frame of one of the two stacks. */
  datatype Place = Place(stack: Kind, pos: Pos)

  /** ert_ownErrorFrame_: aStack is not used. */
  function Owned(p: Pool, aStack: Kind, k: nat, cap: nat): Option<Place>
    requires cap >= 1
  {
    var found := Lookup(Current(p).tail, k, cap);
    if found == None then None else Some(Place(p.kind, found.value))
  }

  /** A step: frames before the place written, and those in any other chunk, stay as they are. */
  lemma PutElsewhere(s: Stack, f: Frame, cap: nat)
    requires Shaped(s, cap)
    ensures var s' := Put(s, f, cap);
            && |s.chunks| <= |s'.chunks|
            && Holds(s'.chunks, WritePos(s, cap)) && At(s'.chunks, WritePos(s, cap)) == f
            && NotAfter(s.tail.iter, WritePos(s, cap))
            && forall p: Pos :: Holds(s.chunks, p) && p != WritePos(s, cap) ==>
                                  Holds(s'.chunks, p) && At(s'.chunks, p) == At(s.chunks, p)
  {
  }
}
