/** The walk of ert_clearFdSet (src/fdset.c): every node of a binary tree is freed using only
    child and parent pointers, with no marks and no stack. */
module FdClear {

  class Element {
    var mLeft: Element?
    var mRight: Element?
    var mParent: Element?
  }

  /** What the walk does to memory, in order. */
  datatype Access = Read(node: Element) | Free(node: Element)

  /** The shape of a tree, for specifications: the walk itself never sees it. */
  datatype Tree = Leaf | Node(elem: Element, left: Tree, right: Tree)

  /** A subtree still hanging off its ancestors: the way back up to the root. */
  datatype Path =
    | Root
    | InLeft(parent: Element, right: Tree, up: Path)
    | InRight(parent: Element, done: Tree, up: Path)

  ghost function Elements(t: Tree): set<Element> {
    match t
    case Leaf => {}
    case Node(e, l, r) => {e} + Elements(l) + Elements(r)
  }

  ghost function Above(p: Path): set<Element> {
    match p
    case Root => {}
    case InLeft(e, r, up) => {e} + Elements(r) + Above(up)
    case InRight(e, d, up) => {e} + Above(up)
  }

  ghost function TopOf(t: Tree): Element? {
    if t.Leaf? then null else t.elem
  }

  ghost function ParentOf(p: Path): Element? {
    if p.Root? then null else p.parent
  }

  /** t is laid out in memory below parent, and no element occurs twice. */
  ghost predicate Laid(t: Tree, parent: Element?)
    reads Elements(t)
  {
    match t
    case Leaf => true
    case Node(e, l, r) =>
      && e.mLeft == TopOf(l) && e.mRight == TopOf(r) && e.mParent == parent
      && e !in Elements(l) && e !in Elements(r) && Elements(l) !! Elements(r)
      && Laid(l, e) && Laid(r, e)
  }

  /** Children before parents, left before right. */
  ghost function PostOrder(t: Tree): seq<Element> {
    match t
    case Leaf => []
    case Node(e, l, r) => PostOrder(l) + PostOrder(r) + [e]
  }

  /** What remains to be freed once the subtree below p is gone. */
  ghost function Remaining(p: Path): seq<Element> {
    match p
    case Root => []
    case InLeft(e, r, up) => PostOrder(r) + [e] + Remaining(up)
    case InRight(e, d, up) => [e] + Remaining(up)
  }

  /** The ancestors as they are laid out in memory, below them the subtree with top elem. */
  ghost predicate Hung(p: Path, elem: Element)
    reads Above(p)
  {
    match p
    case Root => true
    case InLeft(e, r, up) =>
      && e.mLeft == elem && e.mRight == TopOf(r) && e.mParent == ParentOf(up)
      && e !in Elements(r) && e !in Above(up) && Elements(r) !! Above(up)
      && Laid(r, e) && Hung(up, e) && elem !in Above(p)
    case InRight(e, d, up) =>
      && e.mRight == elem && e.mLeft == TopOf(d) && e.mParent == ParentOf(up)
      && e.mLeft != elem
      && e !in Above(up) && Hung(up, e) && elem !in Above(p)
  }

  ghost function Frees(trace: seq<Access>): seq<Element> {
    if trace == [] then []
    else Frees(trace[..|trace| - 1])
         + if trace[|trace| - 1].Free? then [trace[|trace| - 1].node] else []
  }

  /** No field of a node is read, and no node is freed, after that node was freed. */
  ghost predicate Safe(trace: seq<Access>) {
    forall i, j :: 0 <= i < j < |trace| && trace[i].Free? ==> trace[i].node != trace[j].node
  }

  lemma Append(trace: seq<Access>, a: Access)
    requires Safe(trace) && a.node !in Frees(trace)
    ensures Safe(trace + [a])
    ensures Frees(trace + [a]) == Frees(trace) + if a.Free? then [a.node] else []
  {
    assert (trace + [a])[..|trace|] == trace;
    forall i | 0 <= i < |trace| && trace[i].Free? ensures trace[i].node != a.node {
      FreedIn(trace, i);
    }
  }

  lemma {:induction false} FreedIn(trace: seq<Access>, i: nat)
    requires i < |trace| && trace[i].Free?
    ensures trace[i].node in Frees(trace)
  {
    if i < |trace| - 1 {
      FreedIn(trace[..|trace| - 1], i);
    }
  }

  ghost predicate Untouched(freed: seq<Element>, live: set<Element>) {
    forall e :: e in freed ==> e !in live
  }

  /** The walk is about to clear the subtree cur, which hangs off path. */
  ghost predicate Entering(cur: Tree, path: Path, freed: seq<Element>, t: Tree)
    reads Elements(cur), Above(path)
  {
    && Laid(cur, ParentOf(path)) && (cur.Node? ==> Hung(path, cur.elem))
    && (cur.Leaf? ==> path.Root?)
    && Elements(cur) !! Above(path)
    && Untouched(freed, Elements(cur) + Above(path))
    && freed + PostOrder(cur) + Remaining(path) == PostOrder(t)
  }

  /** The walk is about to free elem, all of whose descendants are gone. */
  ghost predicate Leaving(elem: Element, path: Path, freed: seq<Element>, t: Tree)
    reads elem, Above(path)
  {
    && elem.mParent == ParentOf(path) && Hung(path, elem) && elem !in Above(path)
    && Untouched(freed, {elem} + Above(path))
    && freed + [elem] + Remaining(path) == PostOrder(t)
  }

  lemma GoLeft(cur: Tree, path: Path, freed: seq<Element>, t: Tree)
    requires cur.Node? && cur.left.Node? && Entering(cur, path, freed, t)
    ensures Entering(cur.left, InLeft(cur.elem, cur.right, path), freed, t)
  {
    var l, r, e := PostOrder(cur.left), PostOrder(cur.right), [cur.elem];
    assert freed + (l + r + e) + Remaining(path) == freed + l + (r + e + Remaining(path));
  }

  lemma GoRight(cur: Tree, path: Path, freed: seq<Element>, t: Tree)
    requires cur.Node? && cur.left.Leaf? && cur.right.Node? && Entering(cur, path, freed, t)
    ensures Entering(cur.right, InRight(cur.elem, Leaf, path), freed, t)
  {
    var r, e := PostOrder(cur.right), [cur.elem];
    assert PostOrder(cur) == r + e;
    assert freed + (r + e) + Remaining(path) == freed + r + (e + Remaining(path));
  }

  lemma AtBottom(cur: Tree, path: Path, freed: seq<Element>, t: Tree)
    requires cur.Node? && cur.left.Leaf? && cur.right.Leaf? && Entering(cur, path, freed, t)
    ensures Leaving(cur.elem, path, freed, t)
  {
    assert PostOrder(cur) == [cur.elem];
  }

  lemma GoUp(elem: Element, path: Path, freed: seq<Element>, t: Tree)
    requires Leaving(elem, path, freed, t)
    requires path.InRight? || (path.InLeft? && path.right.Leaf?)
    ensures Leaving(path.parent, path.up, freed + [elem], t)
  {
    assert freed + [elem] + Remaining(path) == freed + [elem] + [path.parent] + Remaining(path.up);
  }

  lemma GoAcross(elem: Element, path: Path, freed: seq<Element>, t: Tree, done: Tree)
    requires Leaving(elem, path, freed, t) && path.InLeft? && path.right.Node? && done.Node? && done.elem == elem
    ensures Entering(path.right, InRight(path.parent, done, path.up), freed + [elem], t)
  {
    var r := PostOrder(path.right);
    assert freed + [elem] + (r + [path.parent] + Remaining(path.up)) == freed + [elem] + r + ([path.parent] + Remaining(path.up));
  }

  ghost function Size(t: Tree): nat {
    match t
    case Leaf => 0
    case Node(e, l, r) => 1 + Size(l) + Size(r)
  }

  /** Where the outer loop stands: the trace so far is safe and cur is next. */
  ghost predicate Down(trace: seq<Access>, cur: Tree, path: Path, t: Tree)
    reads Elements(cur), Above(path)
  {
    Safe(trace) && Entering(cur, path, Frees(trace), t)
  }

  /** Where the inner loop stands. */
  ghost predicate Up(trace: seq<Access>, elem: Element, path: Path, t: Tree)
    reads elem, Above(path)
  {
    Safe(trace) && Leaving(elem, path, Frees(trace), t)
  }

  lemma StepDown(trace: seq<Access>, cur: Tree, path: Path, t: Tree)
    requires cur.Node? && Down(trace, cur, path, t)
    ensures cur.elem.mLeft == TopOf(cur.left) && cur.elem.mRight == TopOf(cur.right)
    ensures cur.left.Node? ==> Down(trace + [Read(cur.elem)], cur.left, InLeft(cur.elem, cur.right, path), t)
    ensures cur.left.Leaf? && cur.right.Node? ==>
              Down(trace + [Read(cur.elem)], cur.right, InRight(cur.elem, Leaf, path), t)
    ensures cur.left.Leaf? && cur.right.Leaf? ==> Up(trace + [Read(cur.elem)], cur.elem, path, t)
    ensures Frees(trace + [Read(cur.elem)]) == Frees(trace)
  {
    Append(trace, Read(cur.elem));
    if cur.left.Node? {
      GoLeft(cur, path, Frees(trace), t);
    } else if cur.right.Node? {
      GoRight(cur, path, Frees(trace), t);
    } else {
      AtBottom(cur, path, Frees(trace), t);
    }
  }

  lemma StepFree(trace: seq<Access>, elem: Element, path: Path, t: Tree)
    requires Up(trace, elem, path, t)
    ensures elem.mParent == ParentOf(path)
    ensures var log := trace + [Read(elem)] + [Free(elem)];
            Safe(log) && Frees(log) == Frees(trace) + [elem] && |Frees(log)| <= |PostOrder(t)|
  {
    Append(trace, Read(elem));
    Append(trace + [Read(elem)], Free(elem));
    assert |Frees(trace) + [elem] + Remaining(path)| == |PostOrder(t)|;
  }

  lemma StepUp(trace: seq<Access>, elem: Element, path: Path, t: Tree)
    requires Up(trace, elem, path, t) && !path.Root?
    ensures var log := trace + [Read(elem)] + [Free(elem)] + [Read(path.parent)];
            && Frees(log) == Frees(trace) + [elem]
            && if elem == path.parent.mLeft && path.parent.mRight != null
               then path.InLeft? && path.parent.mRight == TopOf(path.right)
                    && Down(log, path.right, InRight(path.parent, Node(elem, Leaf, Leaf), path.up), t)
               else Up(log, path.parent, path.up, t)
  {
    var parent := path.parent;
    StepFree(trace, elem, path, t);
    var log := trace + [Read(elem)] + [Free(elem)];
    Append(log, Read(parent));
    if elem == parent.mLeft && parent.mRight != null {
      GoAcross(elem, path, Frees(trace), t, Node(elem, Leaf, Leaf));
    } else {
      GoUp(elem, path, Frees(trace), t);
    }
  }

  /** PostOrder names every element of the tree once, and nothing else. */
  lemma {:induction false} EachOnce(t: Tree, parent: Element?)
    requires Laid(t, parent)
    ensures multiset(PostOrder(t)) == multiset(Elements(t))
  {
    if t.Node? {
      EachOnce(t.left, t.elem);
      EachOnce(t.right, t.elem);
    }
  }

  ghost predicate Before(s: seq<Element>, a: Element, b: Element) {
    exists i, j :: 0 <= i < j < |s| && s[i] == a && s[j] == b
  }

  lemma BeforeWithin(x: seq<Element>, s: seq<Element>, y: seq<Element>, a: Element, b: Element)
    requires Before(s, a, b)
    ensures Before(x + s + y, a, b)
  {
    var i, j :| 0 <= i < j < |s| && s[i] == a && s[j] == b;
    assert (x + s + y)[|x| + i] == a && (x + s + y)[|x| + j] == b;
  }

  /** Every child comes before its parent in PostOrder. */
  lemma {:induction false} ChildrenFirst(t: Tree, parent: Element?, e: Element, child: Element)
    requires Laid(t, parent) && e in Elements(t)
    requires child == e.mLeft || child == e.mRight
    ensures Before(PostOrder(t), child, e)
  {
    var l, r := PostOrder(t.left), PostOrder(t.right);
    assert PostOrder(t)[|l| + |r|] == t.elem;
    if e in Elements(t.left) {
      ChildrenFirst(t.left, t.elem, e, child);
      BeforeWithin([], l, r + [t.elem], child, e);
      assert [] + l + (r + [t.elem]) == PostOrder(t);
    } else if e in Elements(t.right) {
      ChildrenFirst(t.right, t.elem, e, child);
      BeforeWithin(l, r, [t.elem], child, e);
    } else if child == e.mLeft {
      assert PostOrder(t)[|l| - 1] == child;
    } else {
      assert PostOrder(t)[|l| + |r| - 1] == child;
    }
  }

  /** Frees every element of any binary tree exactly once, children first, and never looks at
      an element after freeing it. */
  method Clear(root: Element?, ghost t: Tree) returns (trace: seq<Access>)
    requires root == TopOf(t) && Laid(t, null)
    ensures Safe(trace)
    ensures Frees(trace) == PostOrder(t)
  {
    trace := [];
    var elem := root;
    ghost var cur, path := t, Root;
    while elem != null
      invariant elem == TopOf(cur) && Down(trace, cur, path, t)
      decreases |PostOrder(t)| - |Frees(trace)|, Size(cur)
    {
      StepDown(trace, cur, path, t);
      trace := trace + [Read(elem)];
      var lh, rh := elem.mLeft, elem.mRight;
      if lh != null {
        elem, cur, path := lh, cur.left, InLeft(elem, cur.right, path);
        continue;
      }
      if rh != null {
        elem, cur, path := rh, cur.right, InRight(elem, Leaf, path);
        continue;
      }
      elem, trace, cur, path := Climb(elem, trace, path, t);
    }
  }

  /** The inner loop: free elem and then its ancestors, up to one with a right subtree left. */
  method Climb(start: Element, log: seq<Access>, ghost from: Path, ghost t: Tree)
    returns (elem: Element?, trace: seq<Access>, ghost cur: Tree, ghost path: Path)
    requires Up(log, start, from, t)
    ensures elem == TopOf(cur) && Down(trace, cur, path, t)
    ensures |Frees(log)| < |Frees(trace)| <= |PostOrder(t)|
  {
    elem, trace, cur, path := start, log, Leaf, from;
    while true
      invariant elem != null && Up(trace, elem, path, t)
      invariant |Frees(log)| <= |Frees(trace)|
      decreases |PostOrder(t)| - |Frees(trace)|
    {
      StepFree(trace, elem, path, t);
      if !path.Root? {
        StepUp(trace, elem, path, t);
      }
      var parent := elem.mParent;
      trace := trace + [Read(elem)] + [Free(elem)];
      if parent == null {
        elem, cur := null, Leaf;
        return;
      }
      trace := trace + [Read(parent)];
      if elem == parent.mLeft && parent.mRight != null {
        elem, cur, path := parent.mRight, path.right, InRight(parent, Node(elem, Leaf, Leaf), path.up);
        return;
      }
      elem, path := parent, path.up;
    }
  }
}
