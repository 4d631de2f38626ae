/** The error stacks of one thread as they are: chunks are arrays written in place, and the thread's
    and the signal handler's stack share one counter (src/error.c:340-680). */
module ErrorStacks {
  import opened Common
  import opened ErrorFrames
  import opened Modular

  ghost function Written(list: seq<array<Frame>>): seq<seq<Frame>>
    reads list
  {
    seq(|list|, i requires 0 <= i < |list| reads list => list[i][..])
  }

  class FrameStack {
    const cap: nat
    var mHead: Head
    var mTail: Tail
    var mChunkList: seq<array<Frame>>

    ghost predicate Valid()
      reads this, mChunkList
    {
      Distinct(mChunkList) && Shaped(Contents(), cap)
    }

    ghost function Contents(): Stack
      reads this, mChunkList
    {
      Stack(mHead, mTail, Written(mChunkList))
    }

    /** initErrorFrame_, for one of the stacks; capacity is what createErrorFrameChunk_ finds to fit. */
    constructor (capacity: nat, index: nat)
      requires capacity >= 1
      ensures Valid() && cap == capacity && Contents() == Fresh(index, capacity)
      ensures fresh(mChunkList)
    {
      cap := capacity;
      var chunk := new Frame[capacity](_ => ZERO);
      mChunkList := [chunk];
      mHead := Head(Pos(0, 0), index);
      mTail := Tail(Pos(0, 0), 0);
      new;
      assert chunk[..] == Zeros(capacity);
    }

    /** The part of ert_addErrorFrame_ that makes room: mmap gives a chunk of zeros. */
    method Grow()
      requires Valid()
      modifies this`mTail, this`mChunkList
      ensures Valid() && mTail == Tail(WritePos(old(Contents()), cap), old(mTail.offset))
      ensures Written(mChunkList) == Grown(old(Contents()), cap)
      ensures forall i :: 0 <= i < |mChunkList| ==> mChunkList[i] in old(mChunkList) || fresh(mChunkList[i])
      ensures mTail.iter.frame < cap
    {
      if mTail.iter.frame == cap {
        var chunk := new Frame[cap](_ => ZERO);
        mChunkList := mChunkList + [chunk];
        mTail := Tail(Pos(|mChunkList| - 1, 0), mTail.offset);
        assert chunk[..] == Zeros(cap);
        assert Written(mChunkList) == Grown(old(Contents()), cap);
      }
    }

    /** ert_addErrorFrame_; tid is ert_ownThreadId(). */
    method AddFrame(site: int, errno: int, seqId: Option<SeqId>, tid: int)
      requires Valid()
      modifies this`mTail, this`mChunkList, mChunkList
      ensures Valid() && Contents() == Add(old(Contents()), site, errno, seqId, tid, cap)
      ensures forall i :: 0 <= i < |mChunkList| ==> mChunkList[i] in old(mChunkList) || fresh(mChunkList[i])
    {
      ghost var was := Contents();
      Grow();
      var p := mTail.iter;
      var frame := Frame(site, errno, if seqId.Some? then seqId.value else SeqId(tid, mHead.index));
      assert mChunkList[p.chunk] in mChunkList;
      Store(p, frame);
      mTail := Tail(Pos(p.chunk, p.frame + 1), mTail.offset + 1);
      assert Contents() == Put(was, frame, cap);
    }

    /** The loop that ends ert_thawErrorFrameSequence_. */
    method AddFrames(errorFrames: seq<Frame>, tid: int)
      requires Valid()
      modifies this`mTail, this`mChunkList, mChunkList
      ensures Valid() && Contents() == AddAll(old(Contents()), errorFrames, cap)
      ensures forall i :: 0 <= i < |mChunkList| ==> mChunkList[i] in old(mChunkList) || fresh(mChunkList[i])
    {
      ghost var now, all := Contents(), AddAll(Contents(), errorFrames, cap);
      AddRestIsAddAll(now, errorFrames, cap);
      var sx := 0;
      while sx < |errorFrames|
        invariant 0 <= sx <= |errorFrames| && Valid() && now == Contents() && Shaped(now, cap)
        invariant forall i :: 0 <= i < |mChunkList| ==> mChunkList[i] in old(mChunkList) || fresh(mChunkList[i])
        invariant AddRest(now, errorFrames, sx, cap) == all
      {
        ghost var before := mChunkList;
        AddFrame(errorFrames[sx].site, errorFrames[sx].errno, Some(errorFrames[sx].seqId), tid);
        forall i | 0 <= i < |mChunkList| ensures mChunkList[i] in old(mChunkList) || fresh(mChunkList[i]) {
          assert mChunkList[i] in before || fresh(mChunkList[i]);
        }
        now := Put(now, errorFrames[sx], cap);
        sx := sx + 1;
      }
    }

    /** iter->mFrame[0] = frame */
    method Store(p: Pos, frame: Frame)
      requires Valid() && Holds(Written(mChunkList), p)
      modifies mChunkList[p.chunk]
      ensures Written(mChunkList) == Stored(old(Written(mChunkList)), p, frame)
    {
      var chunk := mChunkList[p.chunk];
      chunk[p.frame] := frame;
      assert forall i :: 0 <= i < |mChunkList| && i != p.chunk ==> mChunkList[i][..] == old(mChunkList[i][..]);
    }

    function FrameAt(p: Pos): (frame: Frame)
      requires Holds(Written(mChunkList), p)
      reads this, mChunkList
      ensures frame == At(Written(mChunkList), p)
    {
      mChunkList[p.chunk][p.frame]
    }

    /** visitErrorFrameSequence_, with a visitor that keeps every frame it is shown. */
    method Visit(sequence: Sequence) returns (frames: seq<Frame>)
      requires Valid() && Inside(sequence.begin, |mChunkList|, cap)
      requires AllHeld(Written(mChunkList), VisitPos(sequence.begin, sequence.offset, cap))
      ensures frames == Frames(Written(mChunkList), VisitPos(sequence.begin, sequence.offset, cap))
    {
      ghost var chunks, left := Written(mChunkList), VisitPos(sequence.begin, sequence.offset, cap);
      ghost var all := Frames(chunks, left);
      frames := [];
      var iter := sequence.begin;
      var offset := 0;
      while offset < sequence.offset
        invariant 0 <= offset <= sequence.offset
        invariant left == VisitPos(iter, sequence.offset - offset, cap) && AllHeld(chunks, left)
        invariant frames + Frames(chunks, left) == all
      {
        FramesVisited(chunks, frames, left);
        left := left[1..];
        if iter.frame == cap {
          iter := Pos(iter.chunk + 1, 0);
        }
        frames := frames + [FrameAt(iter)];
        iter := Pos(iter.chunk, iter.frame + 1);
        offset := offset + 1;
      }
    }

    /** ert_ownErrorFrame_, past the choice of stack: where it points, or null. */
    method OwnFrame(aOffset: nat) returns (frame: Option<Pos>)
      requires Valid()
      requires mTail.offset - aOffset <= mTail.iter.frame || mTail.iter.chunk > 0
      ensures frame == Lookup(mTail, aOffset, cap)
    {
      if mTail.offset <= aOffset {
        return None;
      }
      ghost var back, first := mTail.offset - aOffset, true;
      var chunk, end, top := mTail.iter.chunk, mTail.iter.frame, mTail.offset;
      while end < top - aOffset
        invariant aOffset < top
        invariant first ==> chunk == mTail.iter.chunk && end == mTail.iter.frame && top == mTail.offset
        invariant !first ==>
                    && chunk == mTail.iter.chunk - 1 && end == cap
                    && mTail.iter.frame < back && top - aOffset <= back - mTail.iter.frame
                    && (top - aOffset - 1) % cap == (back - mTail.iter.frame - 1) % cap
        decreases top - aOffset, first
      {
        if !first {
          ChunkBack(top - aOffset - 1, cap);
        }
        first := false;
        top := top - end;
        chunk, end := mTail.iter.chunk - 1, cap;
      }
      if !first {
        WithinChunk(top - aOffset - 1, cap);
      }
      frame := Some(Pos(chunk, end - (top - aOffset)));
    }

    /** The heads and tails that ert_restartErrorFrameSequence_, ert_pushErrorFrameSequence and
        ert_popErrorFrameSequence assign. */
    method Restart(index: nat) returns (used: bool)
      requires Valid()
      modifies this`mHead, this`mTail
      ensures Valid() && (Contents(), if used then index + 1 else index) == ErrorFrames.Restart(old(Contents()), index)
    {
      used := mTail.offset != 0;
      if used {
        mTail := mTail.(offset := 0);
        mHead := mHead.(index := index);
        mTail := mTail.(iter := mHead.iter);
      }
    }

    method Push(index: nat) returns (sequence: Sequence)
      requires Valid()
      modifies this`mHead, this`mTail
      ensures Valid() && (Contents(), index + 1) == ErrorFrames.Push(old(Contents()), index)
      ensures sequence == Mark(old(Contents()))
    {
      sequence := Sequence(mHead.iter, mTail.iter, mHead.index, mTail.offset);
      mHead := mHead.(iter := mTail.iter);
      mHead := mHead.(index := index);
      mTail := mTail.(offset := 0);
    }

    method Pop(index: nat, aSequence: Sequence) returns (index': nat)
      requires Valid()
      requires Inside(aSequence.begin, |mChunkList|, cap) && Inside(aSequence.end, |mChunkList|, cap)
      modifies this`mHead, this`mTail
      ensures Valid() && (Contents(), index') == ErrorFrames.Pop(old(Contents()), index, aSequence)
    {
      var used := Restart(index);
      index' := if used then index + 1 else index;
      if index' == mHead.index + 1 {
        index' := mHead.index;
      }
      mHead := mHead.(index := aSequence.index);
      mHead := mHead.(iter := aSequence.begin);
      mTail := mTail.(offset := aSequence.offset);
      mTail := mTail.(iter := aSequence.end);
    }
  }

  lemma ChunkBack(n: int, cap: nat)
    requires cap >= 1
    ensures (n - cap) % cap == n % cap
  {
    ModShift(n, -1, cap);
  }

  lemma WithinChunk(n: nat, cap: nat)
    requires n < cap
    ensures n % cap == n
  {
    ModIs(n, 0, cap, n);
  }

  /** errorStack_ of one thread. */
  class ErrorStack {
    const tid: int
    const mThread: FrameStack
    const mSignal: FrameStack
    var mStack: Kind
    var mSeqIndex: nat

    ghost predicate Valid()
      reads this, mThread, mSignal, mThread.mChunkList, mSignal.mChunkList
    {
      && mThread != mSignal && mThread.cap == mSignal.cap
      && mThread.Valid() && mSignal.Valid()
      && (forall c :: c in mThread.mChunkList ==> c !in mSignal.mChunkList)
    }

    ghost function View(): Pool
      reads this, mThread, mSignal, mThread.mChunkList, mSignal.mChunkList
    {
      Pool(mThread.Contents(), mSignal.Contents(), mStack, mSeqIndex)
    }

    constructor (capacity: nat, aTid: int)
      requires capacity >= 1
      ensures Valid() && mThread.cap == capacity && View() == Init(capacity) && tid == aTid
      ensures mThread.mHead.index == 1 && mSignal.mHead.index == 0 && mSeqIndex == 2 && mStack == Thread
    {
      tid := aTid;
      var signal := new FrameStack(capacity, 0);
      var thread := new FrameStack(capacity, 1);
      mThread, mSignal := thread, signal;
      mStack, mSeqIndex := Thread, 2;
      new;
    }

    /** errorStack_.mStack */
    function Stack(): FrameStack
      reads this
    {
      if mStack == Thread then mThread else mSignal
    }

    /** ert_addErrorFrame_ */
    method Add(site: int, errno: int, seqId: Option<SeqId>)
      requires Valid()
      modifies Stack(), Stack().mChunkList
      ensures Valid()
      ensures var s := ErrorFrames.Add(Current(old(View())), site, errno, seqId, tid, mThread.cap);
              View() == With(old(View()), (s, mSeqIndex))
    {
      var mine := Stack();
      ghost var other := if mStack == Thread then mSignal else mThread;
      ghost var was, list := other.Contents(), mine.mChunkList;
      assert forall i :: 0 <= i < |other.mChunkList| ==> other.mChunkList[i] !in list;
      mine.AddFrame(site, errno, seqId, tid);
      assert forall i :: 0 <= i < |other.mChunkList| ==> other.mChunkList[i][..] == old(other.mChunkList[i][..]);
      assert other.Contents() == was;
    }

    /** Several ert_addErrorFrame_. */
    method AddFrames(errorFrames: seq<Frame>)
      requires Valid()
      modifies Stack(), Stack().mChunkList
      ensures Valid()
      ensures View() == With(old(View()), (AddAll(Current(old(View())), errorFrames, mThread.cap), mSeqIndex))
    {
      var mine := Stack();
      ghost var other := if mStack == Thread then mSignal else mThread;
      ghost var was, list := other.Contents(), mine.mChunkList;
      assert forall i :: 0 <= i < |other.mChunkList| ==> other.mChunkList[i] !in list;
      mine.AddFrames(errorFrames, tid);
      assert forall i :: 0 <= i < |other.mChunkList| ==> other.mChunkList[i][..] == old(other.mChunkList[i][..]);
      assert other.Contents() == was;
    }

    /** ert_restartErrorFrameSequence_ */
    method Restart()
      requires Valid()
      modifies this`mSeqIndex, Stack()`mHead, Stack()`mTail
      ensures Valid() && View() == With(old(View()), ErrorFrames.Restart(Current(old(View())), old(mSeqIndex)))
    {
      var used := Stack().Restart(mSeqIndex);
      if used {
        mSeqIndex := mSeqIndex + 1;
      }
    }

    /** ert_pushErrorFrameSequence */
    method Push() returns (sequence: Sequence)
      requires Valid()
      modifies this`mSeqIndex, Stack()`mHead, Stack()`mTail
      ensures Valid() && View() == With(old(View()), ErrorFrames.Push(Current(old(View())), old(mSeqIndex)))
      ensures sequence == Mark(Current(old(View())))
    {
      sequence := Stack().Push(mSeqIndex);
      mSeqIndex := mSeqIndex + 1;
    }

    /** ert_popErrorFrameSequence */
    method Pop(aSequence: Sequence)
      requires Valid()
      requires Inside(aSequence.begin, |Stack().mChunkList|, mThread.cap)
      requires Inside(aSequence.end, |Stack().mChunkList|, mThread.cap)
      modifies this`mSeqIndex, Stack()`mHead, Stack()`mTail
      ensures Valid() && View() == With(old(View()), ErrorFrames.Pop(Current(old(View())), old(mSeqIndex), aSequence))
    {
      mSeqIndex := Stack().Pop(mSeqIndex, aSequence);
    }

    /** ert_switchErrorFrameStack */
    method Switch(aStack: Kind) returns (stackKind: Kind)
      requires Valid()
      modifies this`mStack
      ensures Valid() && View() == old(View()).(kind := aStack) && stackKind == old(mStack)
    {
      stackKind := mStack;
      mStack := aStack;
    }

    /** ert_ownErrorFrame_: which stack was asked for makes no difference. */
    method OwnErrorFrame(aStack: Kind, aOffset: nat) returns (frame: Option<Place>)
      requires Valid()
      requires var tail := Current(View()).tail; tail.offset - aOffset <= tail.iter.frame || tail.iter.chunk > 0
      ensures frame == Owned(View(), aStack, aOffset, mThread.cap)
    {
      var pos := Stack().OwnFrame(aOffset);
      frame := if pos == None then None else Some(Place(mStack, pos.value));
    }
  }

  /** The same frames by position: those at sx and behind it are to be added. */
  function AddRest(s: Stack, fs: seq<Frame>, sx: nat, cap: nat): Stack
    requires Shaped(s, cap) && sx <= |fs|
    decreases |fs| - sx
  {
    if sx == |fs| then s else AddRest(Put(s, fs[sx], cap), fs, sx + 1, cap)
  }

  lemma AddRestIsAddAll(s: Stack, fs: seq<Frame>, cap: nat)
    requires Shaped(s, cap)
    ensures AddRest(s, fs, 0, cap) == AddAll(s, fs, cap)
  {
    AddRestIs(s, fs, 0, cap);
    assert fs[0..] == fs;
  }

  lemma {:induction false} AddRestIs(s: Stack, fs: seq<Frame>, sx: nat, cap: nat)
    requires Shaped(s, cap) && sx <= |fs|
    ensures AddRest(s, fs, sx, cap) == AddAll(s, fs[sx..], cap)
    decreases |fs| - sx
  {
    if sx < |fs| {
      AddRestIs(Put(s, fs[sx], cap), fs, sx + 1, cap);
      assert fs[sx..][1..] == fs[sx + 1..];
    }
  }

  /** One step of the visitor. */
  lemma FramesVisited(chunks: seq<seq<Frame>>, seen: seq<Frame>, left: seq<Pos>)
    requires left != [] && AllHeld(chunks, left)
    ensures AllHeld(chunks, left[1..])
    ensures seen + Frames(chunks, left) == seen + [At(chunks, left[0])] + Frames(chunks, left[1..])
  {
    assert Frames(chunks, left) == [At(chunks, left[0])] + Frames(chunks, left[1..]);
  }
}
