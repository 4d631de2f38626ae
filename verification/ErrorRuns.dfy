/** Any sequence of operations on the error stacks of one thread, and what a caller recorded on the
    way: which frames each live or saved sequence holds, and where they were written. */
module ErrorRuns {
  import opened Common
  import opened ErrorFrames

  /** A sequence from its push or its last restart.  path: where its frames were written.
      straight: whenever it ran out of room it was in the last chunk of the list. */
  datatype Live = Live(begin: Pos, index: nat, path: seq<Pos>, frames: seq<Frame>, straight: bool)

  /** The sequences of one stack, the current one last, and what each push returned. */
  datatype Shadow = Shadow(lives: seq<Live>, marks: seq<Sequence>)

  function Cursor(begin: Pos, path: seq<Pos>): Pos {
    if path == [] then begin else Succ(path[|path| - 1])
  }

  function End(l: Live): Pos {
    Cursor(l.begin, l.path)
  }

  function MarkOf(l: Live): Sequence {
    Sequence(l.begin, End(l), l.index, |l.path|)
  }

  // ---- what the operations do to it ----

  predicate Formed(s: Stack, h: Shadow, cap: nat) {
    Shaped(s, cap) && |h.lives| == |h.marks| + 1
  }

  function Top(h: Shadow): Live
    requires |h.lives| > 0
  {
    h.lives[|h.lives| - 1]
  }

  function SetTop(h: Shadow, l: Live): Shadow
    requires |h.lives| > 0
  {
    h.(lives := h.lives[|h.lives| - 1 := l])
  }

  function Label(s: Stack, site: int, errno: int, seqId: Option<SeqId>, tid: int): Frame {
    Frame(site, errno, if seqId.Some? then seqId.value else SeqId(tid, s.head.index))
  }

  function Recorded(l: Live, s: Stack, f: Frame, cap: nat): Live {
    l.(path := l.path + [WritePos(s, cap)], frames := l.frames + [f],
    straight := l.straight && (s.tail.iter.frame == cap ==> s.tail.iter.chunk + 1 == |s.chunks|))
  }

  function Emptied(begin: Pos, index: nat): Live {
    Live(begin, index, [], [], true)
  }

  function Restarted(h: Shadow, counter: nat): Shadow
    requires |h.lives| > 0
  {
    if Top(h).path == [] then h else SetTop(h, Emptied(Top(h).begin, counter))
  }

  function Pushed(h: Shadow, s: Stack, counter: nat): Shadow {
    Shadow(h.lives + [Emptied(s.tail.iter, counter)], h.marks + [Mark(s)])
  }

  function Popped(h: Shadow): Shadow
    requires |h.lives| > 0 && |h.marks| > 0
  {
    Shadow(h.lives[..|h.lives| - 1], h.marks[..|h.marks| - 1])
  }

  // ---- what one stack keeps ----

  /** A frame goes where the iterator is, or to the start of a later chunk when that one is full. */
  predicate Goes(from: Pos, to: Pos, cap: nat) {
    if from.frame == cap then to.frame == 0 && from.chunk < to.chunk else to == from
  }

  predicate Chained(begin: Pos, path: seq<Pos>, cap: nat) {
    forall k: nat :: k < |path| ==> Goes(Cursor(begin, path[..k]), path[k], cap)
  }

  /** The frames are where they were written, all before end. */
  predicate Kept(path: seq<Pos>, frames: seq<Frame>, chunks: seq<seq<Frame>>, end: Pos) {
    && |path| == |frames|
    && forall k: nat :: k < |path| ==>
                          Holds(chunks, path[k]) && At(chunks, path[k]) == frames[k] && Before(path[k], end)
  }

  predicate LiveInv(l: Live, chunks: seq<seq<Frame>>, cap: nat) {
    && Inside(l.begin, |chunks|, cap)
    && Inside(End(l), |chunks|, cap)
    && NotAfter(l.begin, End(l))
    && Kept(l.path, l.frames, chunks, End(l))
    && Chained(l.begin, l.path, cap)
    && (l.straight <==> l.path == VisitPos(l.begin, |l.path|, cap))
  }

  /** The visitor's last step. */
  lemma {:induction false} VisitSnoc(begin: Pos, n: nat, cap: nat)
    ensures var ps := VisitPos(begin, n, cap);
            VisitPos(begin, n + 1, cap) == ps + [ReadPos(Cursor(begin, ps), cap)]
    decreases n
  {
    var ps := VisitPos(begin, n, cap);
    if n == 0 {
      assert VisitPos(begin, 1, cap) == [ReadPos(begin, cap)] + VisitPos(Succ(ReadPos(begin, cap)), 0, cap);
    } else {
      var q := Succ(ReadPos(begin, cap));
      var rest := VisitPos(q, n - 1, cap);
      VisitSnoc(q, n - 1, cap);
      assert ps == [ReadPos(begin, cap)] + rest;
      assert Cursor(begin, ps) == Cursor(q, rest);
      assert VisitPos(begin, n + 1, cap) == [ReadPos(begin, cap)] + VisitPos(q, n, cap);
    }
  }

  /** It follows the frames exactly as long as room was only ever made after the last chunk. */
  lemma StraightGrows(l: Live, s: Stack, f: Frame, cap: nat)
    requires End(l) == s.tail.iter && (l.straight <==> l.path == VisitPos(l.begin, |l.path|, cap))
    ensures var l' := Recorded(l, s, f, cap); l'.straight <==> l'.path == VisitPos(l'.begin, |l'.path|, cap)
  {
    var ps := VisitPos(l.begin, |l.path|, cap);
    var l' := Recorded(l, s, f, cap);
    VisitSnoc(l.begin, |l.path|, cap);
    if l'.path == VisitPos(l.begin, |l.path| + 1, cap) {
      assert l.path == l'.path[..|l.path|] == (ps + [ReadPos(Cursor(l.begin, ps), cap)])[..|l.path|] == ps;
      assert l'.path[|l.path|] == WritePos(s, cap);
    }
  }

  /** The saved sequences are what the pushes returned. */
  predicate Marked(h: Shadow) {
    forall i: nat :: i < |h.marks| && i < |h.lives| ==> h.marks[i] == MarkOf(h.lives[i])
  }

  /** Each sequence lies behind those pushed before it. */
  predicate Sorted(lives: seq<Live>) {
    forall i: nat, j: nat :: i < j < |lives| ==> NotAfter(End(lives[i]), lives[j].begin)
  }

  predicate StackInv(s: Stack, h: Shadow, cap: nat) {
    && Formed(s, h, cap)
    && Mark(s) == MarkOf(Top(h))
    && Marked(h)
    && Sorted(h.lives)
    && (forall i: nat :: i < |h.lives| ==> LiveInv(h.lives[i], s.chunks, cap))
  }

  /** What was recorded stays where it is as long as the memory before the tail does. */
  lemma LiveStays(l: Live, s: Stack, s': Stack, tail: Pos, cap: nat)
    requires LiveInv(l, s.chunks, cap) && NotAfter(End(l), tail)
    requires |s.chunks| <= |s'.chunks|
    requires forall p: Pos :: Holds(s.chunks, p) && Before(p, tail) ==>
                                Holds(s'.chunks, p) && At(s'.chunks, p) == At(s.chunks, p)
    ensures LiveInv(l, s'.chunks, cap)
  {
    forall k: nat | k < |l.path| ensures Before(l.path[k], tail) {
      assert Before(l.path[k], End(l));
    }
  }

  lemma KeptGrows(path: seq<Pos>, frames: seq<Frame>, s: Stack, f: Frame, cap: nat)
    requires Shaped(s, cap) && Kept(path, frames, s.chunks, s.tail.iter)
    ensures var p := WritePos(s, cap); Kept(path + [p], frames + [f], Put(s, f, cap).chunks, Succ(p))
  {
    PutElsewhere(s, f, cap);
  }

  lemma ChainGrows(begin: Pos, path: seq<Pos>, p: Pos, cap: nat)
    requires Chained(begin, path, cap) && Goes(Cursor(begin, path), p, cap)
    ensures Chained(begin, path + [p], cap)
  {
    forall k: nat | k < |path + [p]| ensures Goes(Cursor(begin, (path + [p])[..k]), (path + [p])[k], cap) {
      if k < |path| {
        assert (path + [p])[..k] == path[..k];
      } else {
        assert (path + [p])[..k] == path;
      }
    }
  }

  lemma EndGrows(l: Live, s: Stack, f: Frame, cap: nat)
    requires Shaped(s, cap) && End(l) == s.tail.iter && NotAfter(l.begin, End(l)) && Inside(l.begin, |s.chunks|, cap)
    ensures var l', n := Recorded(l, s, f, cap), |Put(s, f, cap).chunks|;
            && End(l') == Succ(WritePos(s, cap))
            && Inside(l'.begin, n, cap) && Inside(End(l'), n, cap) && NotAfter(l'.begin, End(l'))
            && Goes(End(l), WritePos(s, cap), cap)
  {
  }

  lemma LiveGrows(l: Live, s: Stack, f: Frame, cap: nat)
    requires Shaped(s, cap) && LiveInv(l, s.chunks, cap) && End(l) == s.tail.iter
    ensures LiveInv(Recorded(l, s, f, cap), Put(s, f, cap).chunks, cap)
  {
    EndGrows(l, s, f, cap);
    KeptGrows(l.path, l.frames, s, f, cap);
    ChainGrows(l.begin, l.path, WritePos(s, cap), cap);
    StraightGrows(l, s, f, cap);
  }

  /** The sequences below the current one are not touched by it. */
  lemma BelowStays(s: Stack, h: Shadow, f: Frame, cap: nat, i: nat)
    requires StackInv(s, h, cap) && i < |h.lives| - 1
    ensures LiveInv(h.lives[i], Put(s, f, cap).chunks, cap)
  {
    assert LiveInv(Top(h), s.chunks, cap) && LiveInv(h.lives[i], s.chunks, cap);
    assert NotAfter(End(h.lives[i]), Top(h).begin);
    PutElsewhere(s, f, cap);
    LiveStays(h.lives[i], s, Put(s, f, cap), s.tail.iter, cap);
  }

  lemma SetTopSorted(h: Shadow, l: Live)
    requires |h.lives| == |h.marks| + 1 && Sorted(h.lives) && Marked(h) && l.begin == Top(h).begin
    ensures Sorted(SetTop(h, l).lives) && Marked(SetTop(h, l))
  {
  }

  lemma MarkGrows(l: Live, s: Stack, f: Frame, cap: nat)
    requires Shaped(s, cap) && Mark(s) == MarkOf(l)
    ensures Mark(Put(s, f, cap)) == MarkOf(Recorded(l, s, f, cap))
  {
  }

  lemma LivesGrow(s: Stack, h: Shadow, f: Frame, cap: nat, i: nat)
    requires StackInv(s, h, cap) && i < |h.lives|
    ensures LiveInv(SetTop(h, Recorded(Top(h), s, f, cap)).lives[i], Put(s, f, cap).chunks, cap)
  {
    if i < |h.lives| - 1 {
      BelowStays(s, h, f, cap, i);
    } else {
      LiveGrows(Top(h), s, f, cap);
    }
  }

  lemma PutKeeps(s: Stack, h: Shadow, f: Frame, cap: nat)
    requires StackInv(s, h, cap)
    ensures StackInv(Put(s, f, cap), SetTop(h, Recorded(Top(h), s, f, cap)), cap)
  {
    var l := Recorded(Top(h), s, f, cap);
    MarkGrows(Top(h), s, f, cap);
    SetTopSorted(h, l);
    forall i: nat | i < |h.lives| ensures LiveInv(SetTop(h, l).lives[i], Put(s, f, cap).chunks, cap) {
      LivesGrow(s, h, f, cap, i);
    }
  }

  lemma EmptiedInv(begin: Pos, index: nat, chunks: seq<seq<Frame>>, cap: nat)
    requires Inside(begin, |chunks|, cap)
    ensures LiveInv(Emptied(begin, index), chunks, cap) && End(Emptied(begin, index)) == begin
  {
  }

  lemma RestartKeeps(s: Stack, h: Shadow, counter: nat, cap: nat)
    requires StackInv(s, h, cap)
    ensures StackInv(Restart(s, counter).0, Restarted(h, counter), cap)
  {
    assert LiveInv(Top(h), s.chunks, cap);
    EmptiedInv(Top(h).begin, counter, s.chunks, cap);
  }

  lemma PushSorted(lives: seq<Live>, l: Live)
    requires |lives| > 0 && Sorted(lives) && l.begin == End(lives[|lives| - 1])
    requires NotAfter(lives[|lives| - 1].begin, End(lives[|lives| - 1]))
    ensures Sorted(lives + [l])
  {
    var all := lives + [l];
    forall i: nat | i < |lives| ensures NotAfter(End(all[i]), l.begin) {
    }
  }

  lemma PushMarked(h: Shadow, s: Stack, counter: nat)
    requires |h.lives| == |h.marks| + 1 && Marked(h) && Mark(s) == MarkOf(Top(h))
    ensures Marked(Pushed(h, s, counter)) && Mark(Push(s, counter).0) == MarkOf(Emptied(s.tail.iter, counter))
  {
  }

  lemma LivesPushed(s: Stack, h: Shadow, counter: nat, cap: nat, i: nat)
    requires StackInv(s, h, cap) && i <= |h.lives|
    ensures LiveInv(Pushed(h, s, counter).lives[i], s.chunks, cap)
  {
    if i < |h.lives| {
      assert LiveInv(h.lives[i], s.chunks, cap);
    } else {
      EmptiedInv(s.tail.iter, counter, s.chunks, cap);
    }
  }

  lemma PushKeeps(s: Stack, h: Shadow, counter: nat, cap: nat)
    requires StackInv(s, h, cap)
    ensures StackInv(Push(s, counter).0, Pushed(h, s, counter), cap)
  {
    assert LiveInv(Top(h), s.chunks, cap);
    PushSorted(h.lives, Emptied(s.tail.iter, counter));
    PushMarked(h, s, counter);
    forall i: nat | i <= |h.lives| ensures LiveInv(Pushed(h, s, counter).lives[i], s.chunks, cap) {
      LivesPushed(s, h, counter, cap, i);
    }
  }

  lemma PopKeeps(s: Stack, h: Shadow, counter: nat, cap: nat)
    requires StackInv(s, h, cap) && |h.marks| > 0
    ensures StackInv(Pop(s, counter, h.marks[|h.marks| - 1]).0, Popped(h), cap)
  {
    assert LiveInv(h.lives[|h.lives| - 2], s.chunks, cap);
  }

  // ---- the shared counter ----

  /** Live and saved sequences of one stack have different numbers, all below the counter; numbers
      that label a frame are below it too; and a sequence without frames has labelled none. */
  predicate Numbered(lives: seq<Live>, counter: nat, used: set<nat>) {
    && (forall i: nat, j: nat :: i < j < |lives| ==> lives[i].index != lives[j].index)
    && (forall i: nat :: i < |lives| ==> lives[i].index < counter)
    && (forall i: nat :: i < |lives| && lives[i].path == [] ==> lives[i].index !in used)
    && (forall u: nat :: u in used ==> u < counter)
  }

  predicate Apart(a: seq<Live>, b: seq<Live>) {
    forall i: nat, j: nat :: i < |a| && j < |b| ==> a[i].index != b[j].index
  }

  lemma AddNumbered(h: Shadow, l: Live, counter: nat, used: set<nat>, mine: bool)
    requires |h.lives| > 0 && Numbered(h.lives, counter, used)
    requires l.index == Top(h).index && l.path != []
    ensures Numbered(SetTop(h, l).lives, counter, if mine then used + {l.index} else used)
  {
  }

  /** Marking a frame of one stack leaves the numbers of the other alone. */
  lemma OtherNumbered(lives: seq<Live>, counter: nat, used: set<nat>, index: nat)
    requires Numbered(lives, counter, used) && index < counter
    requires forall i: nat :: i < |lives| ==> lives[i].index != index
    ensures Numbered(lives, counter, used + {index})
  {
  }

  lemma RestartNumbered(h: Shadow, other: seq<Live>, counter: nat, used: set<nat>)
    requires |h.lives| > 0 && Numbered(h.lives, counter, used) && Numbered(other, counter, used) && Apart(h.lives, other)
    ensures var n := if Top(h).path == [] then counter else counter + 1;
            var lives := Restarted(h, counter).lives;
            Numbered(lives, n, used) && Numbered(other, n, used) && Apart(lives, other)
  {
  }

  lemma PushNumbered(h: Shadow, s: Stack, other: seq<Live>, counter: nat, used: set<nat>)
    requires Numbered(h.lives, counter, used) && Numbered(other, counter, used) && Apart(h.lives, other)
    ensures var lives := Pushed(h, s, counter).lives;
            Numbered(lives, counter + 1, used) && Numbered(other, counter + 1, used) && Apart(lives, other)
  {
  }

  /** The counter may be taken back: the number it gives up belongs to no other sequence and labels
      no frame. */
  lemma RollbackNumbered(lives: seq<Live>, other: seq<Live>, last: Live, counter: nat, used: set<nat>)
    requires Numbered(lives + [last], counter, used) && Numbered(other, counter, used) && Apart(lives + [last], other)
    requires last.path == []
    ensures var n := if counter == last.index + 1 then last.index else counter;
            Numbered(lives, n, used) && Numbered(other, n, used) && Apart(lives, other)
  {
    var all := lives + [last];
    assert all[|lives|] == last;
    assert forall i: nat :: i < |lives| ==> all[i] == lives[i];
  }

  // ---- both stacks ----

  /** used: the numbers that frames recorded here were given (UsedAre). */
  datatype Run = Run(cap: nat, tid: int, pool: Pool, thread: Shadow, signal: Shadow, used: set<nat>)

  datatype Event =
    | AddFrame(site: int, errno: int, seqId: Option<SeqId>)
    | RestartSequence
    | PushSequence
    | PopSequence
    | SwitchStack(kind: Kind)

  function Mine(r: Run): Shadow {
    if r.pool.kind == Thread then r.thread else r.signal
  }

  function StackOf(p: Pool, k: Kind): Stack {
    if k == Thread then p.thread else p.signal
  }

  function ShadowOf(r: Run, k: Kind): Shadow {
    if k == Thread then r.thread else r.signal
  }

  function Other(r: Run): Shadow {
    if r.pool.kind == Thread then r.signal else r.thread
  }

  function SetMine(r: Run, h: Shadow): Run {
    if r.pool.kind == Thread then r.(thread := h) else r.(signal := h)
  }

  /** A pop is given what the latest push on this stack returned. */
  predicate Applies(r: Run, e: Event) {
    Formed(Current(r.pool), Mine(r), r.cap) && (e.PopSequence? ==> |Mine(r).marks| > 0)
  }

  /** What an event does to the current stack and the counter, and to its sequences. */
  function StackNext(s: Stack, h: Shadow, n: nat, e: Event, tid: int, cap: nat): (Stack, nat)
    requires Formed(s, h, cap) && (e.PopSequence? ==> |h.marks| > 0)
  {
    match e
    case AddFrame(site, errno, seqId) => (Add(s, site, errno, seqId, tid, cap), n)
    case RestartSequence => Restart(s, n)
    case PushSequence => Push(s, n)
    case PopSequence => Pop(s, n, h.marks[|h.marks| - 1])
    case SwitchStack(_) => (s, n)
  }

  function ShadowNext(s: Stack, h: Shadow, n: nat, e: Event, tid: int, cap: nat): (h': Shadow)
    requires Formed(s, h, cap) && (e.PopSequence? ==> |h.marks| > 0)
    ensures |h'.lives| > 0
  {
    match e
    case AddFrame(site, errno, seqId) => SetTop(h, Recorded(Top(h), s, Label(s, site, errno, seqId, tid), cap))
    case RestartSequence => Restarted(h, n)
    case PushSequence => Pushed(h, s, n)
    case PopSequence => Popped(h)
    case SwitchStack(_) => h
  }

  function Next(r: Run, e: Event): Run
    requires Applies(r, e)
  {
    var s, h := Current(r.pool), Mine(r);
    if e.SwitchStack? then r.(pool := r.pool.(kind := e.kind))
    else SetMine(r, ShadowNext(s, h, r.pool.index, e, r.tid, r.cap))
           .(pool := With(r.pool, StackNext(s, h, r.pool.index, e, r.tid, r.cap)),
           used := if e.AddFrame? && e.seqId == None then r.used + {s.head.index} else r.used)
  }

  function Start(cap: nat, tid: int): Run
    requires cap >= 1
  {
    Run(cap, tid, Init(cap), Shadow([Emptied(Pos(0, 0), 1)], []), Shadow([Emptied(Pos(0, 0), 0)], []), {})
  }

  predicate Runs(r: Run, es: seq<Event>, r': Run)
    decreases |es|
  {
    if es == [] then r' == r else Applies(r, es[0]) && Runs(Next(r, es[0]), es[1..], r')
  }

  function OtherStack(p: Pool): Stack {
    if p.kind == Thread then p.signal else p.thread
  }

  predicate Ready(r: Run) {
    Formed(Current(r.pool), Mine(r), r.cap)
  }

  lemma RunsStep(r: Run, e: Event, es: seq<Event>, r': Run)
    requires Applies(r, e) && Runs(Next(r, e), es, r')
    ensures Runs(r, [e] + es, r')
  {
    assert ([e] + es)[1..] == es;
  }

  lemma {:induction false} RunsOn(r: Run, es: seq<Event>, m: Run, es': seq<Event>, r': Run)
    requires Runs(r, es, m) && Runs(m, es', r')
    ensures Runs(r, es + es', r')
    decreases |es|
  {
    if es == [] {
      assert es + es' == es';
    } else {
      RunsOn(Next(r, es[0]), es[1..], m, es', r');
      RunsStep(r, es[0], es[1..] + es', r');
      assert [es[0]] + (es[1..] + es') == es + es';
    }
  }

  predicate Indexed(mine: Shadow, other: Shadow, counter: nat, used: set<nat>) {
    && Numbered(mine.lives, counter, used)
    && Numbered(other.lives, counter, used)
    && Apart(mine.lives, other.lives)
  }

  predicate RunInv(r: Run) {
    && StackInv(Current(r.pool), Mine(r), r.cap)
    && StackInv(OtherStack(r.pool), Other(r), r.cap)
    && Indexed(Mine(r), Other(r), r.pool.index, r.used)
  }

  /** Only the current stack changes. */
  lemma OtherKept(r: Run, e: Event)
    requires Applies(r, e) && !e.SwitchStack?
    ensures var r' := Next(r, e);
            && r'.pool.kind == r.pool.kind && r'.cap == r.cap && r'.tid == r.tid
            && Other(r') == Other(r) && OtherStack(r'.pool) == OtherStack(r.pool)
  {
  }

  lemma StackKept(r: Run, e: Event)
    requires Applies(r, e) && !e.SwitchStack? && StackInv(Current(r.pool), Mine(r), r.cap)
    ensures StackInv(Current(Next(r, e).pool), Mine(Next(r, e)), r.cap)
  {
    var s, h, n := Current(r.pool), Mine(r), r.pool.index;
    match e
    case AddFrame(site, errno, seqId) => PutKeeps(s, h, Label(s, site, errno, seqId, r.tid), r.cap);
    case RestartSequence => RestartKeeps(s, h, n, r.cap);
    case PushSequence => PushKeeps(s, h, n, r.cap);
    case PopSequence => PopKeeps(s, h, n, r.cap);
  }

  lemma PopIndexed(s: Stack, h: Shadow, other: Shadow, counter: nat, used: set<nat>, cap: nat)
    requires StackInv(s, h, cap) && |h.marks| > 0 && Indexed(h, other, counter, used)
    ensures Indexed(Popped(h), other, Pop(s, counter, h.marks[|h.marks| - 1]).1, used)
  {
    var h' := Restarted(h, counter);
    var n := if Top(h).path == [] then counter else counter + 1;
    RestartNumbered(h, other.lives, counter, used);
    assert h'.lives == Popped(h).lives + [Top(h')];
    RollbackNumbered(Popped(h).lives, other.lives, Top(h'), n, used);
  }

  lemma AddIndexed(s: Stack, h: Shadow, other: Shadow, l: Live, counter: nat, used: set<nat>, local: bool)
    requires |h.lives| > 0 && Indexed(h, other, counter, used)
    requires l.index == Top(h).index && l.path != []
    ensures Indexed(SetTop(h, l), other, counter, if local then used + {l.index} else used)
  {
    AddNumbered(h, l, counter, used, local);
    if local {
      OtherNumbered(other.lives, counter, used, l.index);
    }
  }

  lemma IndexKept(r: Run, e: Event)
    requires Applies(r, e) && !e.SwitchStack? && RunInv(r)
    ensures var r' := Next(r, e); Indexed(Mine(r'), Other(r), r'.pool.index, r'.used)
  {
    var s, h, n := Current(r.pool), Mine(r), r.pool.index;
    match e
    case AddFrame(site, errno, seqId) =>
      AddIndexed(s, h, Other(r), Recorded(Top(h), s, Label(s, site, errno, seqId, r.tid), r.cap), n, r.used, seqId == None);
    case RestartSequence => RestartNumbered(h, Other(r).lives, n, r.used);
    case PushSequence => PushNumbered(h, s, Other(r).lives, n, r.used);
    case PopSequence => PopIndexed(s, h, Other(r), n, r.used, r.cap);
  }

  lemma NextKeeps(r: Run, e: Event)
    requires RunInv(r) && Applies(r, e)
    ensures RunInv(Next(r, e)) && Next(r, e).cap == r.cap && Next(r, e).tid == r.tid
  {
    if !e.SwitchStack? {
      OtherKept(r, e);
      StackKept(r, e);
      IndexKept(r, e);
    }
  }

  lemma {:induction false} RunKeeps(r: Run, es: seq<Event>, r': Run)
    requires RunInv(r) && Runs(r, es, r')
    ensures RunInv(r') && r'.cap == r.cap && r'.tid == r.tid
    decreases |es|
  {
    if es != [] {
      NextKeeps(r, es[0]);
      RunKeeps(Next(r, es[0]), es[1..], r');
    }
  }

  lemma StartInv(cap: nat, tid: int)
    requires cap >= 1
    ensures RunInv(Start(cap, tid))
  {
  }

  // ---- numbers are never used twice ----

  predicate Numbers(h: Shadow, index: nat) {
    exists i: nat :: i < |h.lives| && h.lives[i].index == index
  }

  /** The frame just before the tail. */
  function Last(s: Stack): Option<Frame> {
    var p := s.tail.iter;
    if p.frame > 0 && Holds(s.chunks, Pos(p.chunk, p.frame - 1)) then Some(At(s.chunks, Pos(p.chunk, p.frame - 1)))
    else None
  }

  lemma LastPut(s: Stack, f: Frame, cap: nat)
    requires Shaped(s, cap)
    ensures Last(Put(s, f, cap)) == Some(f)
  {
  }

  lemma FrameAdded(s: Stack, h: Shadow, n: nat, site: int, errno: int, seqId: Option<SeqId>, tid: int, cap: nat)
    requires StackInv(s, h, cap)
    ensures var e := AddFrame(site, errno, seqId);
            var f := Frame(site, errno, if seqId.Some? then seqId.value else SeqId(tid, Top(h).index));
            && Last(StackNext(s, h, n, e, tid, cap).0) == Some(f)
            && Top(ShadowNext(s, h, n, e, tid, cap)).frames == Top(h).frames + [f]
  {
    LastPut(s, Label(s, site, errno, seqId, tid), cap);
  }

  /** In any run a frame is recorded just before the tail, with the site and errno given and the number
      given, or else that of the current sequence; and it is the last of that sequence. */
  lemma FrameRecorded(cap: nat, tid: int, es: seq<Event>, r: Run, site: int, errno: int, seqId: Option<SeqId>)
    requires cap >= 1 && Runs(Start(cap, tid), es, r) && Applies(r, AddFrame(site, errno, seqId))
    ensures |Mine(r).lives| > 0 && |Mine(Next(r, AddFrame(site, errno, seqId))).lives| > 0
    ensures var r' := Next(r, AddFrame(site, errno, seqId));
            var f := Frame(site, errno, if seqId.Some? then seqId.value else SeqId(tid, Top(Mine(r)).index));
            Last(Current(r'.pool)) == Some(f) && Top(Mine(r')).frames == Top(Mine(r)).frames + [f]
  {
    StartInv(cap, tid);
    RunKeeps(Start(cap, tid), es, r);
    FrameAdded(Current(r.pool), Mine(r), r.pool.index, site, errno, seqId, r.tid, r.cap);
  }

  /** The number found on the frame that the event records, if it is given none. */
  function LabelOf(r: Run, e: Event): set<nat>
    requires Applies(r, e)
  {
    if !e.AddFrame? || e.seqId != None then {}
    else match Last(Current(Next(r, e).pool))
      case None => {}
      case Some(f) => {f.seqId.index}
  }

  /** The numbers found on all such frames of the run. */
  function LabelsOf(r: Run, es: seq<Event>): set<nat>
    decreases |es|
  {
    if es == [] || !Applies(r, es[0]) then {} else LabelOf(r, es[0]) + LabelsOf(Next(r, es[0]), es[1..])
  }

  lemma UsedStep(r: Run, e: Event)
    requires Applies(r, e)
    ensures Next(r, e).used == r.used + LabelOf(r, e)
  {
    if e.AddFrame? && e.seqId == None {
      LastPut(Current(r.pool), Label(Current(r.pool), e.site, e.errno, None, r.tid), r.cap);
    }
  }

  lemma {:induction false} UsedAre(r: Run, es: seq<Event>, r': Run)
    requires Runs(r, es, r')
    ensures r'.used == r.used + LabelsOf(r, es)
    decreases |es|
  {
    if es != [] {
      UsedStep(r, es[0]);
      UsedAre(Next(r, es[0]), es[1..], r');
    }
  }

  /** In any run, when an operation starts a sequence its number is found on no frame that was recorded
      here before, and belongs to no other sequence that is live or saved on either stack. */
  lemma NumbersFresh(cap: nat, tid: int, es: seq<Event>, r: Run, e: Event)
    requires cap >= 1 && Runs(Start(cap, tid), es, r) && Applies(r, e)
    ensures var r' := Next(r, e);
            !e.SwitchStack? && !Numbers(Mine(r), Top(Mine(r')).index) ==>
              Top(Mine(r')).index !in LabelsOf(Start(cap, tid), es) && !Numbers(Other(r), Top(Mine(r')).index)
  {
    StartInv(cap, tid);
    RunKeeps(Start(cap, tid), es, r);
    UsedAre(Start(cap, tid), es, r);
    var r' := Next(r, e);
    if !e.SwitchStack? && !Numbers(Mine(r), Top(Mine(r')).index) {
      TopNumbered(Current(r.pool), Mine(r), r.pool.index, e, r.tid, r.cap);
    }
  }

  /** The number on top is new only when the counter gave it. */
  lemma TopNumbered(s: Stack, h: Shadow, n: nat, e: Event, tid: int, cap: nat)
    requires Formed(s, h, cap) && (e.PopSequence? ==> |h.marks| > 0)
    ensures var i := Top(ShadowNext(s, h, n, e, tid, cap)).index; Numbers(h, i) || i == n
  {
    assert Numbers(h, Top(h).index);
    if e.PopSequence? {
      assert Numbers(h, h.lives[|h.lives| - 2].index);
    }
  }

  /** All live and saved numbers differ and lie below the counter, and so do those found on frames. */
  lemma NumbersDistinct(cap: nat, tid: int, es: seq<Event>, r: Run)
    requires cap >= 1 && Runs(Start(cap, tid), es, r)
    ensures var all := r.thread.lives + r.signal.lives;
            && (forall i: nat, j: nat :: i < j < |all| ==> all[i].index != all[j].index)
            && (forall i: nat :: i < |all| ==> all[i].index < r.pool.index)
            && (forall u: nat :: u in LabelsOf(Start(cap, tid), es) ==> u < r.pool.index)
  {
    StartInv(cap, tid);
    RunKeeps(Start(cap, tid), es, r);
    UsedAre(Start(cap, tid), es, r);
    var a: seq<Live>, b: seq<Live> := r.thread.lives, r.signal.lives;
    forall i: nat, j: nat | i < j < |a + b| ensures (a + b)[i].index != (a + b)[j].index {
      ApartEither(a, b, i, j, r.pool.index, r.used);
    }
  }

  lemma ApartEither(a: seq<Live>, b: seq<Live>, i: nat, j: nat, counter: nat, used: set<nat>)
    requires Numbered(a, counter, used) && Numbered(b, counter, used) && (Apart(a, b) || Apart(b, a))
    requires i < j < |a + b|
    ensures (a + b)[i].index != (a + b)[j].index
  {
  }

  // ---- and are given back ----

  lemma PopAfterPush(s: Stack, h: Shadow, n: nat)
    ensures Pop(Push(s, n).0, n + 1, Mark(s)) == (s, n)
    ensures Popped(Pushed(h, s, n)) == h
  {
  }

  /** A pop straight after a push leaves everything as it was, the counter too. */
  lemma PushPopUndone(r: Run)
    requires Applies(r, PushSequence)
    ensures Applies(Next(r, PushSequence), PopSequence)
    ensures Next(Next(r, PushSequence), PopSequence) == r
  {
    PopAfterPush(Current(r.pool), Mine(r), r.pool.index);
  }

  predicate OnlyAdds(es: seq<Event>) {
    forall i: nat :: i < |es| ==> es[i].AddFrame?
  }

  /** What frames added leave alone. */
  predicate Beyond(r: Run, r': Run, n: nat) {
    && r'.pool.kind == r.pool.kind && r'.pool.index == r.pool.index && r'.cap == r.cap
    && Current(r'.pool).head == Current(r.pool).head && Current(r'.pool).tail.offset == Current(r.pool).tail.offset + n
    && Mine(r').marks == Mine(r).marks
  }

  lemma AddedBeyond(r: Run, e: Event)
    requires Applies(r, e) && e.AddFrame?
    ensures Beyond(r, Next(r, e), 1)
  {
  }

  lemma {:induction false} AddsBeyond(r: Run, es: seq<Event>, r': Run)
    requires Runs(r, es, r') && OnlyAdds(es)
    ensures Beyond(r, r', |es|)
    decreases |es|
  {
    if es != [] {
      AddedBeyond(r, es[0]);
      AddsBeyond(Next(r, es[0]), es[1..], r');
    }
  }

  /** A push, any number of frames and the pop use up one number, the one that the frames carry, or none. */
  lemma CounterGivenBack(r: Run, es: seq<Event>, m: Run)
    requires Applies(r, PushSequence) && Runs(Next(r, PushSequence), es, m) && OnlyAdds(es) && Applies(m, PopSequence)
    ensures Next(m, PopSequence).pool.index == r.pool.index + if es == [] then 0 else 1
  {
    AddsBeyond(Next(r, PushSequence), es, m);
    Pushes(r);
    PopCounts(Current(m.pool), m.pool.index, Mine(m).marks[|Mine(m).marks| - 1]);
  }

  lemma Pushes(r: Run)
    requires Applies(r, PushSequence)
    ensures var m := Next(r, PushSequence);
            && m.pool.index == r.pool.index + 1 && Current(m.pool).head.index == r.pool.index
            && Current(m.pool).tail.offset == 0
  {
  }

  lemma PopCounts(s: Stack, n: nat, mark: Sequence)
    requires n == s.head.index + 1
    ensures Pop(s, n, mark).1 == if s.tail.offset == 0 then n - 1 else n
  {
  }
}
