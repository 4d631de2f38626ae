/** Closing descriptors in bulk (src/fd.c), against the ranges of src/fdset.c. */
module FdClose {
  import opened FdSets

  const WRAP32: nat := 0x1_0000_0000

  datatype Closing = Closed | Failed | Aborted

  /** The conversion of an rlim_t, which may be wider, to int. */
  function AsInt(limit: nat): (r: int)
    ensures -INT_MAX - 1 <= r <= INT_MAX && (limit - r) % WRAP32 == 0
  {
    var low := limit % WRAP32;
    if low <= INT_MAX then low else low - WRAP32
  }

  /** The descriptor table of the process. */
  class FdTable {
    var mOpen: set<int>

    /** The body of every closing loop: close the descriptor if it is valid. */
    method CloseIfValid(fd: int)
      modifies this
      ensures mOpen == old(mOpen) - {fd}
    {
      if fd in mOpen {
        mOpen := mOpen - {fd};
      }
    }
  }

  ghost function KeptByWhiteList(open: set<int>, limit: int, rs: seq<FdRange>): set<int> {
    set fd | fd in open && !(0 <= fd < limit && !Covers(rs, fd))
  }

  ghost function KeptByBlackList(open: set<int>, limit: int, rs: seq<FdRange>): set<int> {
    set fd | fd in open && !(Covers(rs, fd) && (fd < limit || !Covers(rs, limit)))
  }

  ghost function KeptByList(open: set<int>, limit: int, list: seq<int>): set<int> {
    set fd | fd in open && !(0 <= fd < limit && fd !in list)
  }

  ghost function Without(open: set<int>, begin: int, end: int): set<int> {
    set fd | fd in open && !(begin <= fd < end)
  }

  function Min(a: int, b: int): int {
    if a < b then a else b
  }

  function Max(a: int, b: int): int {
    if a < b then b else a
  }

  class FdWhiteListVisitor {
    var mFd: int
    const mFdLimit: nat

    constructor (limit: nat)
      ensures mFd == 0 && mFdLimit == limit
    {
      mFd, mFdLimit := 0, limit;
    }

    /** closeFdWhiteListVisitor_: close up to the range, then step over it.  The end of a range below
        the limit has to have a successor. */
    method Visit(table: FdTable, aRange: FdRange) returns (rc: int)
      requires 0 <= aRange.lhs <= aRange.rhs && (aRange.rhs < mFdLimit ==> aRange.rhs < INT_MAX)
      modifies this, table
      ensures mFd == Min(mFdLimit, aRange.rhs + 1)
      ensures table.mOpen == Without(old(table.mOpen), old(mFd), Min(aRange.lhs, mFd))
      ensures rc == if mFdLimit <= mFd then 1 else 0
    {
      var fdEnd := 0;
      if mFdLimit != 0 {
        fdEnd := if aRange.rhs < mFdLimit then aRange.rhs + 1 else mFdLimit;
      }
      var fdBegin := aRange.lhs;
      if fdBegin > fdEnd {
        fdBegin := fdEnd;
      }
      var fd := mFd;
      while fd < fdBegin
        invariant mFd == old(mFd) <= fd
        invariant fd <= fdBegin || fd == mFd
        invariant table.mOpen == Without(old(table.mOpen), mFd, fd)
      {
        table.CloseIfValid(fd);
        fd := fd + 1;
      }
      mFd := fdEnd;
      rc := if mFdLimit <= fdEnd then 1 else 0;
    }
  }

  /** ert_closeFdExceptWhiteList closes exactly the open descriptors below the limit that are
      outside the set.  A limit that no int can hold makes it fail or end the process,
      with no more closed than what lies below the last range or the limit cut down to an int. */
  method CloseExceptWhiteList(table: FdTable, limit: nat, rs: seq<FdRange>) returns (rc: Closing)
    requires Canonical(rs)
    requires limit > INT_MAX ==> !Covers(rs, INT_MAX) && AsInt(limit) != INT_MAX
    modifies table
    ensures rc == if limit <= INT_MAX then Closed else if AsInt(limit) < 0 then Aborted else Failed
    ensures table.mOpen == KeptByWhiteList(old(table.mOpen), WhiteListEnd(rs, limit), rs)
  {
    var visitor := new FdWhiteListVisitor(limit);
    ghost var was := table.mOpen;
    var i := 0;
    while i < |rs|
      invariant 0 <= i <= |rs| && visitor.mFdLimit == limit
      invariant visitor.mFd == Done(rs, i, limit)
      invariant table.mOpen == KeptByWhiteList(was, Done(rs, i, limit), rs)
    {
      WhiteListStep(was, limit, rs, i);
      var reached := visitor.Visit(table, rs[i]);
      i := i + 1;
      if reached == 1 {
        break;
      }
    }
    WhiteListLast(was, limit, rs, i);
    if AsInt(limit) < 0 {
      return Aborted;
    }
    var reached := visitor.Visit(table, FdRange(AsInt(limit), AsInt(limit)));
    rc := if reached == 1 then Closed else Failed;
  }

  /** Where the closing ends. */
  function WhiteListEnd(rs: seq<FdRange>, limit: nat): int {
    if limit <= INT_MAX then limit else Max(Done(rs, |rs|, limit), AsInt(limit))
  }

  /** How far the whitelist visitor has got after the first i ranges. */
  function Done(rs: seq<FdRange>, i: nat, limit: nat): int
    requires i <= |rs|
  {
    if i == 0 then 0 else Min(limit, rs[i - 1].rhs + 1)
  }

  /** Range i fits the visitor, and what it closes is what lies below that range. */
  lemma WhiteListStep(was: set<int>, limit: nat, rs: seq<FdRange>, i: nat)
    requires Canonical(rs) && i < |rs| && (limit > INT_MAX ==> !Covers(rs, INT_MAX))
    ensures 0 <= rs[i].lhs <= rs[i].rhs && (rs[i].rhs < limit ==> rs[i].rhs < INT_MAX)
    ensures Without(KeptByWhiteList(was, Done(rs, i, limit), rs), Done(rs, i, limit),
                    Min(rs[i].lhs, Done(rs, i + 1, limit)))
            == KeptByWhiteList(was, Done(rs, i + 1, limit), rs)
  {
    assert InRange(rs[i], rs[i].rhs);
  }

  lemma WhiteListLast(was: set<int>, limit: nat, rs: seq<FdRange>, i: nat)
    requires Canonical(rs) && i <= |rs|
    requires i == |rs| || Done(rs, i, limit) == limit
    ensures limit <= INT_MAX ==> AsInt(limit) == limit
    ensures Max(Done(rs, i, limit), AsInt(limit)) == WhiteListEnd(rs, limit)
    ensures Without(KeptByWhiteList(was, Done(rs, i, limit), rs), Done(rs, i, limit), AsInt(limit))
            == KeptByWhiteList(was, WhiteListEnd(rs, limit), rs)
  {
    assert i < |rs| && i > 0 ==> ValidRange(rs[i - 1]);
  }

  /** closeFdBlackListVisitor_: 0 to go on, 1 once the limit has been reached. */
  method BlackListVisit(table: FdTable, limit: nat, aRange: FdRange) returns (rc: int)
    requires 0 <= aRange.lhs <= aRange.rhs
    modifies table
    ensures rc == if InRange(aRange, limit) then 1 else 0
    ensures table.mOpen == Without(old(table.mOpen), aRange.lhs, if rc == 1 then limit else aRange.rhs + 1)
  {
    var done := 1;
    var fd := aRange.lhs;
    while fd != limit
      invariant aRange.lhs <= fd <= aRange.rhs
      invariant aRange.lhs <= limit ==> fd <= limit
      invariant done == 1
      invariant table.mOpen == Without(old(table.mOpen), aRange.lhs, fd)
      decreases aRange.rhs - fd
    {
      table.CloseIfValid(fd);
      if fd == aRange.rhs {
        done := 0;
        break;
      }
      fd := fd + 1;
    }
    rc := done;
  }

  /** ert_closeFdOnlyBlackList: nothing outside the set is closed, and inside it everything is
      when the limit is not in the set; otherwise only what is below the limit. */
  method CloseOnlyBlackList(table: FdTable, limit: nat, rs: seq<FdRange>)
    requires Canonical(rs)
    modifies table
    ensures table.mOpen == KeptByBlackList(old(table.mOpen), limit, rs)
  {
    ghost var was := table.mOpen;
    var i := 0;
    while i < |rs|
      invariant 0 <= i <= |rs| && !Covers(rs[..i], limit)
      invariant table.mOpen == Uncovered(was, rs[..i])
    {
      BlackListStep(was, limit, rs, i);
      var rc := BlackListVisit(table, limit, rs[i]);
      if rc == 1 {
        return;
      }
      i := i + 1;
    }
    assert rs[..i] == rs;
  }

  ghost function Uncovered(open: set<int>, rs: seq<FdRange>): set<int> {
    set fd | fd in open && !Covers(rs, fd)
  }

  lemma CoversNext(rs: seq<FdRange>, i: nat, fd: int)
    requires i < |rs|
    ensures Covers(rs[..i + 1], fd) <==> Covers(rs[..i], fd) || InRange(rs[i], fd)
  {
    assert rs[..i + 1] == rs[..i] + [rs[i]];
    CoversSplit(rs[..i], [rs[i]], fd);
    CoversOne(rs[i], fd);
  }

  /** Below the limit in range i, the ranges before it and that one are all there is. */
  lemma CoversBelow(rs: seq<FdRange>, i: nat, limit: int, fd: int)
    requires Canonical(rs) && i < |rs| && InRange(rs[i], limit)
    ensures (Covers(rs[..i], fd) || (InRange(rs[i], fd) && fd < limit)) <==> (Covers(rs, fd) && fd < limit)
  {
    assert rs == rs[..i] + rs[i..] && rs[i..] == [rs[i]] + rs[i + 1..];
    CoversSplit(rs[..i], rs[i..], fd);
    CoversSplit([rs[i]], rs[i + 1..], fd);
    CoversOne(rs[i], fd);
  }

  lemma BlackListStep(was: set<int>, limit: int, rs: seq<FdRange>, i: nat)
    requires Canonical(rs) && i < |rs|
    ensures forall fd :: Covers(rs[..i + 1], fd) <==> Covers(rs[..i], fd) || InRange(rs[i], fd)
    ensures Without(Uncovered(was, rs[..i]), rs[i].lhs, rs[i].rhs + 1) == Uncovered(was, rs[..i + 1])
    ensures InRange(rs[i], limit) ==>
              Without(Uncovered(was, rs[..i]), rs[i].lhs, limit) == KeptByBlackList(was, limit, rs)
  {
    forall fd ensures Covers(rs[..i + 1], fd) <==> Covers(rs[..i], fd) || InRange(rs[i], fd) {
      CoversNext(rs, i, fd);
    }
    var left, next := Without(Uncovered(was, rs[..i]), rs[i].lhs, rs[i].rhs + 1), Uncovered(was, rs[..i + 1]);
    assert forall fd :: fd in left <==> fd in next;
    if InRange(rs[i], limit) {
      BlackListLast(was, limit, rs, i);
    }
  }

  lemma BlackListLast(was: set<int>, limit: int, rs: seq<FdRange>, i: nat)
    requires Canonical(rs) && i < |rs| && InRange(rs[i], limit)
    ensures Without(Uncovered(was, rs[..i]), rs[i].lhs, limit) == KeptByBlackList(was, limit, rs)
  {
    var left, kept := Without(Uncovered(was, rs[..i]), rs[i].lhs, limit), KeptByBlackList(was, limit, rs);
    assert Covers(rs, limit);
    forall fd ensures fd in left <==> fd in kept {
      CoversBelow(rs, i, limit, fd);
    }
  }

  /** Something at or beyond the limit is closed exactly when the limit is not in the set and the set holds
      an open descriptor there. */
  lemma BeyondLimitIff(open: set<int>, limit: int, rs: seq<FdRange>)
    ensures (exists fd :: fd in open && limit <= fd && fd !in KeptByBlackList(open, limit, rs))
            <==> !Covers(rs, limit) && exists fd :: fd in open && limit <= fd && Covers(rs, fd)
  {
    forall fd | fd in open && limit <= fd
      ensures fd !in KeptByBlackList(open, limit, rs) <==> Covers(rs, fd) && !Covers(rs, limit)
    {
    }
  }

  /** Any descriptor beyond the limit is closed when it is the only one in the set. */
  lemma BeyondLimitCloses(limit: int, fd: int)
    requires 0 <= limit < fd <= INT_MAX
    ensures var rs := [FdRange(fd, fd)];
            Canonical(rs) && KeptByBlackList({limit, fd}, limit, rs) == {limit}
  {
    CoversOne(FdRange(fd, fd), fd);
    CoversOne(FdRange(fd, fd), limit);
  }

  /** Closing all but a set, and closing only its inverse, agree exactly when the inverse stops
      at the limit or there is nothing left for it to close beyond. */
  lemma WhiteListIsInvertedBlackList(open: set<int>, limit: int, rs: seq<FdRange>)
    requires Canonical(rs) && 0 <= limit <= INT_MAX
    requires forall fd :: fd in open ==> 0 <= fd <= INT_MAX
    ensures KeptByWhiteList(open, limit, rs) == KeptByBlackList(open, limit, Complement(rs))
            <==> (!Covers(rs, limit) || forall fd :: fd in open && limit <= fd ==> Covers(rs, fd))
  {
    ComplementCovers(rs, limit);
    forall fd | fd in open
      ensures fd in KeptByWhiteList(open, limit, rs) <==> !(fd < limit && !Covers(rs, fd))
      ensures fd in KeptByBlackList(open, limit, Complement(rs))
              <==> !(!Covers(rs, fd) && (fd < limit || Covers(rs, limit)))
    {
      ComplementCovers(rs, fd);
    }
  }

  function InsertSorted(x: int, s: seq<int>): (t: seq<int>)
    ensures |t| == |s| + 1
    ensures Sorted(s) ==> Sorted(t) && t[0] == if s == [] || x <= s[0] then x else s[0]
  {
    if s == [] || x <= s[0] then [x] + s
    else [s[0]] + InsertSorted(x, s[1..])
  }

  lemma Prepended(x: int, s: seq<int>)
    ensures multiset([x] + s) == multiset(s) + multiset{x}
  {
  }

  lemma HeadAndTail(s: seq<int>)
    requires s != []
    ensures multiset(s) == multiset(s[1..]) + multiset{s[0]}
  {
    assert s == [s[0]] + s[1..];
  }

  lemma {:induction false} InsertSortedPermutes(x: int, s: seq<int>)
    ensures multiset(InsertSorted(x, s)) == multiset(s) + multiset{x}
  {
    if s == [] || x <= s[0] {
      Prepended(x, s);
    } else {
      InsertSortedPermutes(x, s[1..]);
      Prepended(s[0], InsertSorted(x, s[1..]));
      HeadAndTail(s);
    }
  }

  predicate Sorted(s: seq<int>) {
    forall i, j :: 0 <= i < j < |s| ==> s[i] <= s[j]
  }

  /** What qsort() with rankFd_ leaves in the array. */
  function SortedCopy(s: seq<int>): (t: seq<int>)
    ensures |t| == |s| && Sorted(t)
  {
    if s == [] then [] else InsertSorted(s[0], SortedCopy(s[1..]))
  }

  lemma {:induction false} SortedCopyPermutes(s: seq<int>)
    ensures multiset(SortedCopy(s)) == multiset(s)
  {
    if s != [] {
      SortedCopyPermutes(s[1..]);
      InsertSortedPermutes(s[0], SortedCopy(s[1..]));
      HeadAndTail(s);
    }
  }

  lemma SortedCopyElements(s: seq<int>)
    ensures forall x :: x in SortedCopy(s) <==> x in s
  {
    SortedCopyPermutes(s);
    SameElements(SortedCopy(s), s);
  }

  lemma SameElements(s: seq<int>, t: seq<int>)
    requires multiset(s) == multiset(t)
    ensures forall x :: x in s <==> x in t
  {
    forall x ensures x in s <==> x in t {
      assert x in s <==> x in multiset(s);
      assert x in t <==> x in multiset(t);
    }
  }

  method QSort(a: array<int>)
    modifies a
    ensures a[..] == SortedCopy(old(a[..]))
  {
    var sorted := SortedCopy(a[..]);
    forall i | 0 <= i < a.Length {
      a[i] := sorted[i];
    }
  }

  /** ert_closeFdDescriptors: the limit, as an int, joins the list as a sentinel, the list is sorted,
      and one pass closes what lies between its elements. */
  method CloseDescriptors(table: FdTable, limit: nat, aWhiteList: seq<int>) returns (rc: Closing)
    modifies table
    ensures rc == if exists ix :: 0 <= ix < |aWhiteList| && AsInt(limit) <= aWhiteList[ix] then Aborted else Closed
    ensures table.mOpen == if rc == Closed && aWhiteList != []
                           then KeptByList(old(table.mOpen), AsInt(limit), aWhiteList)
                           else old(table.mOpen)
  {
    if aWhiteList == [] {
      return Closed;
    }
    var sentinel := AsInt(limit);
    var whiteList := new int[|aWhiteList| + 1];
    whiteList[|aWhiteList|] := sentinel;
    var ix := 0;
    while ix < |aWhiteList|
      invariant 0 <= ix <= |aWhiteList|
      invariant whiteList[|aWhiteList|] == sentinel && table.mOpen == old(table.mOpen)
      invariant forall k :: 0 <= k < ix ==> whiteList[k] == aWhiteList[k] < sentinel
    {
      whiteList[ix] := aWhiteList[ix];
      if whiteList[|aWhiteList|] <= whiteList[ix] {
        return Aborted;
      }
      ix := ix + 1;
    }
    assert whiteList[..] == aWhiteList + [sentinel];
    QSort(whiteList);
    PurgeList(table, sentinel, whiteList, aWhiteList);
    return Closed;
  }

  /** Unless it aborts, the list form closes all it should below a limit that may be wider than an int
      exactly when nothing is open from the limit cut down to an int on. */
  lemma CutLimitIff(open: set<int>, limit: nat, list: seq<int>)
    requires forall x :: x in list ==> x < AsInt(limit)
    ensures KeptByList(open, AsInt(limit), list) == KeptByList(open, limit, list)
            <==> forall fd :: fd in open && 0 <= fd < limit ==> fd < AsInt(limit)
  {
    assert AsInt(limit) <= limit;
    forall fd | fd in open
      ensures fd in KeptByList(open, AsInt(limit), list) && fd !in KeptByList(open, limit, list)
              <==> 0 <= fd < limit && AsInt(limit) <= fd
    {
    }
  }

  /** Above an int, ten is left of this limit, and descriptor 20 stays open. */
  lemma CutLimitLeavesOpen()
    ensures var limit := WRAP32 + 10;
            KeptByList({20}, AsInt(limit), [1]) == {20} && KeptByList({20}, limit, [1]) == {}
  {
  }

  method PurgeList(table: FdTable, limit: int, whiteList: array<int>, ghost list: seq<int>)
    requires forall x :: x in list ==> x < limit
    requires whiteList[..] == SortedCopy(list + [limit])
    modifies table
    ensures table.mOpen == KeptByList(old(table.mOpen), limit, list)
  {
    ghost var was, last := table.mOpen, Max(limit, -1);
    var w := whiteList[..];
    ListBounded(w, list, limit);
    var fd, wx := 0, 0;
    while wx < |w|
      invariant 0 <= wx <= |w| && Scanned(w, wx, fd) && fd <= last + 1
      invariant table.mOpen == KeptByList(was, fd, w)
      decreases |w| - wx, last - fd
    {
      ScanStep(was, w, wx, fd, last);
      if w[wx] < 0 {
        wx := wx + 1;
        continue;
      }
      if fd != w[wx] {
        table.CloseIfValid(fd);
      } else {
        wx := SkipSame(w, wx);
      }
      fd := fd + 1;
    }
    ScanDone(was, w, fd, limit, list);
  }

  predicate UpTo(w: seq<int>, last: int) {
    forall x :: x in w ==> x <= last
  }

  lemma ListBounded(w: seq<int>, list: seq<int>, limit: int)
    requires w == SortedCopy(list + [limit]) && forall x :: x in list ==> x < limit
    ensures Sorted(w) && UpTo(w, Max(limit, -1))
  {
    SortedCopyElements(list + [limit]);
  }

  /** The duplicates of an element that is kept are passed over with it. */
  method SkipSame(w: seq<int>, wx: nat) returns (next: nat)
    requires wx < |w|
    ensures wx < next <= |w| && forall k :: wx <= k < next ==> w[k] == w[wx]
    ensures next < |w| ==> w[next] != w[wx]
  {
    next := wx + 1;
    while next < |w| && w[next] == w[wx]
      invariant wx < next <= |w| && forall k :: wx <= k < next ==> w[k] == w[wx]
    {
      next := next + 1;
    }
  }

  /** Everything before wx is behind fd, and nothing from wx on is. */
  ghost predicate Scanned(w: seq<int>, wx: nat, fd: int) {
    && wx <= |w| && 0 <= fd
    && (forall k :: 0 <= k < wx ==> w[k] < fd || w[k] < 0)
    && (forall k :: wx <= k < |w| ==> w[k] < 0 || fd <= w[k])
    && (fd == 0 || forall k :: wx <= k < |w| ==> fd <= w[k])
  }

  lemma ScanStep(was: set<int>, w: seq<int>, wx: nat, fd: int, limit: int)
    requires Sorted(w) && Scanned(w, wx, fd) && wx < |w| && fd <= limit + 1
    requires UpTo(w, limit)
    ensures w[wx] < 0 ==> Scanned(w, wx + 1, fd)
    ensures w[wx] >= 0 ==> fd <= limit
    ensures w[wx] >= 0 && fd != w[wx] ==>
              Scanned(w, wx, fd + 1) && KeptByList(was, fd + 1, w) == KeptByList(was, fd, w) - {fd}
    ensures w[wx] == fd ==> KeptByList(was, fd + 1, w) == KeptByList(was, fd, w)
    ensures w[wx] == fd ==>
              forall next :: wx < next <= |w| && w[next - 1] == fd && (next < |w| ==> w[next] != fd)
                ==> Scanned(w, next, fd + 1)
  {
    assert w[wx] in w;
    if w[wx] >= 0 && fd != w[wx] {
      assert fd !in w by {
        assert forall k :: 0 <= k < |w| ==> w[k] != fd;
      }
    }
  }

  lemma ScanDone(was: set<int>, w: seq<int>, fd: int, limit: int, list: seq<int>)
    requires w == SortedCopy(list + [limit]) && Scanned(w, |w|, fd) && fd <= Max(limit, -1) + 1
    ensures KeptByList(was, fd, w) == KeptByList(was, limit, list)
  {
    SortedCopyElements(list + [limit]);
    assert (list + [limit])[|list|] == limit;
    ScannedAll(was, w, fd, limit, list);
  }

  lemma ScannedAll(was: set<int>, w: seq<int>, fd: int, limit: int, list: seq<int>)
    requires Scanned(w, |w|, fd) && fd <= Max(limit, -1) + 1 && limit in w
    requires forall x :: x in w <==> x in list || x == limit
    ensures KeptByList(was, fd, w) == KeptByList(was, limit, list)
  {
  }

  /** The list form and the set form of the same request leave the same descriptors open. */
  lemma ListIsWhiteList(open: set<int>, limit: int, list: seq<int>, rs: seq<FdRange>)
    requires forall fd :: Covers(rs, fd) <==> 0 <= fd && fd in list
    ensures KeptByList(open, limit, list) == KeptByWhiteList(open, limit, rs)
  {
  }
}
