/** Splitting a comma separated argument (ert_createParseArgListCSV of src/parse.c): the copied
    string is cut up in place, and the argument vector points into it. */
module ParseCsv {
  import opened Common

  const NUL: char := '\0'

  /** isspace() in the C locale. */
  predicate IsSpace(c: char) {
    c == ' ' || ('\t' <= c <= '\r')
  }

  // What the splitter is for, on plain strings.

  /** The position of the first comma, or the length if there is none. */
  function Comma(s: string): (e: nat)
    ensures e <= |s|
  {
    if s == "" || s[0] == ',' then 0 else 1 + Comma(s[1..])
  }

  lemma {:induction false} CommaFirst(s: string)
    ensures forall i :: 0 <= i < Comma(s) ==> s[i] != ','
    ensures Comma(s) < |s| ==> s[Comma(s)] == ','
  {
    if s != "" && s[0] != ',' {
      CommaFirst(s[1..]);
      forall i | 0 < i < Comma(s) ensures s[i] != ',' {
        assert s[1..][i - 1] == s[i];
      }
    }
  }

  lemma {:induction false} CommaIs(s: string, e: nat)
    requires e <= |s| && (forall i :: 0 <= i < e ==> s[i] != ',') && (e < |s| ==> s[e] == ',')
    ensures Comma(s) == e
  {
    if e > 0 {
      CommaIs(s[1..], e - 1);
    }
  }

  function Pieces(s: string): (ps: seq<string>)
    ensures ps != []
    decreases |s|
  {
    var e := Comma(s);
    [s[..e]] + if e < |s| then Pieces(s[e + 1..]) else []
  }

  function Lead(s: string): (n: nat)
    ensures n <= |s|
    ensures n < |s| ==> !IsSpace(s[n])
  {
    if s == "" || !IsSpace(s[0]) then 0 else 1 + Lead(s[1..])
  }

  function TrimRight(s: string): (t: string)
    ensures |t| <= |s| && (t != "" ==> t[0] == s[0] && !IsSpace(t[|t| - 1]))
  {
    if s == "" || !IsSpace(s[|s| - 1]) then s else TrimRight(s[..|s| - 1])
  }

  lemma {:induction false} TrimRightPrefix(s: string)
    ensures TrimRight(s) <= s
    decreases |s|
  {
    if s != "" && IsSpace(s[|s| - 1]) {
      TrimRightPrefix(s[..|s| - 1]);
    }
  }

  function Trim(s: string): string {
    TrimRight(s[Lead(s)..])
  }

  function TrimAll(ps: seq<string>): (ws: seq<string>)
    ensures |ws| == |ps|
  {
    if ps == [] then [] else [Trim(ps[0])] + TrimAll(ps[1..])
  }

  lemma {:induction false} TrimAllAt(ps: seq<string>, i: nat)
    requires i < |ps|
    ensures TrimAll(ps)[i] == Trim(ps[i])
  {
    if i > 0 {
      TrimAllAt(ps[1..], i - 1);
    }
  }

  /** The words: the trimmed pieces, but no words at all for a single blank piece. */
  function Split(s: string): seq<string> {
    var ws := TrimAll(Pieces(s));
    if ws == [""] then [] else ws
  }

  function Join(ws: seq<string>): string {
    if ws == [] then ""
    else if |ws| == 1 then ws[0]
    else ws[0] + "," + Join(ws[1..])
  }

  predicate Plain(w: string) {
    Trim(w) == w && ',' !in w
  }

  // Splitting and joining.

  lemma CommaAfter(w: string, rest: string)
    requires ',' !in w
    ensures Comma(w + "," + rest) == |w| && Comma(w) == |w|
  {
    var s := w + "," + rest;
    assert s[|w|] == ',';
    assert forall i :: 0 <= i < |w| ==> s[i] == w[i];
    CommaIs(s, |w|);
    CommaIs(w, |w|);
  }

  lemma PiecesOne(w: string)
    requires ',' !in w
    ensures Pieces(w) == [w]
  {
    CommaAfter(w, "");
    assert w[..|w|] == w;
  }

  lemma PiecesCons(w: string, rest: string)
    requires ',' !in w
    ensures Pieces(w + "," + rest) == [w] + Pieces(rest)
  {
    CommaAfter(w, rest);
    var s := w + "," + rest;
    assert s[..|w|] == w && s[|w| + 1..] == rest;
  }

  lemma {:induction false} PiecesOfJoin(ws: seq<string>)
    requires ws != [] && forall i :: 0 <= i < |ws| ==> ',' !in ws[i]
    ensures Pieces(Join(ws)) == ws
  {
    assert ',' !in ws[0];
    if |ws| == 1 {
      PiecesOne(ws[0]);
    } else {
      PiecesOfJoin(ws[1..]);
      PiecesCons(ws[0], Join(ws[1..]));
      assert [ws[0]] + ws[1..] == ws;
    }
  }

  lemma {:induction false} PiecesArePlain(s: string)
    ensures forall i :: 0 <= i < |Pieces(s)| ==> ',' !in Pieces(s)[i]
    decreases |s|
  {
    var e := Comma(s);
    CommaFirst(s);
    if e < |s| {
      PiecesArePlain(s[e + 1..]);
    }
  }

  lemma TrimIsPlain(p: string)
    requires ',' !in p
    ensures Plain(Trim(p))
  {
    var u := p[Lead(p)..];
    var w := TrimRight(u);
    TrimRightPrefix(u);
    assert Lead(w) == 0;
    assert w[0..] == w;
  }

  /** Every word is trimmed and free of commas, and the result is never one empty word. */
  lemma WordsArePlain(s: string)
    ensures Split(s) != [""]
    ensures forall i :: 0 <= i < |Split(s)| ==> Plain(Split(s)[i])
  {
    PiecesArePlain(s);
    forall i | 0 <= i < |Pieces(s)| ensures Plain(TrimAll(Pieces(s))[i]) {
      TrimIsPlain(Pieces(s)[i]);
      TrimAllAt(Pieces(s), i);
    }
  }

  lemma PlainStay(ws: seq<string>)
    requires forall i :: 0 <= i < |ws| ==> Plain(ws[i])
    ensures TrimAll(ws) == ws
  {
    forall i | 0 <= i < |ws| ensures TrimAll(ws)[i] == ws[i] {
      TrimAllAt(ws, i);
    }
  }

  lemma SplitPieces(s: string, ws: seq<string>)
    requires Pieces(s) == ws && TrimAll(ws) == ws && ws != [""]
    ensures Split(s) == ws
  {
  }

  lemma SplitOfJoin(ws: seq<string>)
    requires ws != [""] && forall i :: 0 <= i < |ws| ==> Plain(ws[i])
    ensures Split(Join(ws)) == ws
  {
    if ws == [] {
      PiecesOne("");
      assert TrimAll([""]) == [""];
    } else {
      assert forall i :: 0 <= i < |ws| ==> Plain(ws[i]) && ',' !in ws[i];
      PiecesOfJoin(ws);
      PlainStay(ws);
      SplitPieces(Join(ws), ws);
    }
  }

  /** Splitting undoes joining exactly for lists of trimmed words without commas that are not
      just one empty word. */
  lemma SplitJoin(ws: seq<string>)
    ensures Split(Join(ws)) == ws <==> (ws != [""] && forall i :: 0 <= i < |ws| ==> Plain(ws[i]))
  {
    WordsArePlain(Join(ws));
    if ws != [""] && forall i :: 0 <= i < |ws| ==> Plain(ws[i]) {
      SplitOfJoin(ws);
    }
  }

  // The buffer.

  /** The C string that starts at position at. */
  function CString(buf: seq<char>, at: nat): string
    decreases |buf| - at
  {
    if at >= |buf| || buf[at] == NUL then "" else [buf[at]] + CString(buf, at + 1)
  }

  /** The characters of w and the NUL behind them lie at position at, before end. */
  ghost predicate WordAt(buf: seq<char>, at: int, w: string, end: int) {
    && 0 <= at && at + |w| < end <= |buf|
    && buf[at..at + |w|] == w && buf[at + |w|] == NUL
  }

  lemma {:induction false} WordIsCString(buf: seq<char>, at: nat, w: string, end: nat)
    requires WordAt(buf, at, w, end) && NUL !in w
    ensures CString(buf, at) == w
    decreases |w|
  {
    if w != "" {
      assert buf[at] == w[0];
      assert buf[at + 1..at + 1 + |w[1..]|] == w[1..];
      WordIsCString(buf, at + 1, w[1..], end);
    }
  }

  lemma WordKept(was: seq<char>, now: seq<char>, at: int, w: string, end: int)
    requires WordAt(was, at, w, end) && |now| == |was| && now[..end] == was[..end]
    ensures WordAt(now, at, w, end)
  {
    assert was[at..at + |w|] == was[..end][at..at + |w|];
    assert now[at..at + |w|] == now[..end][at..at + |w|];
    assert was[at + |w|] == was[..end][at + |w|] && now[at + |w|] == now[..end][at + |w|];
  }

  lemma {:induction false} TrimRightIs(u: string, n: nat)
    requires n <= |u| && (n == 0 || !IsSpace(u[n - 1]))
    requires forall i :: n <= i < |u| ==> IsSpace(u[i])
    ensures TrimRight(u) == u[..n]
    decreases |u|
  {
    if n < |u| {
      TrimRightIs(u[..|u| - 1], n);
      assert u[..|u| - 1][..n] == u[..n];
    } else {
      assert u[..n] == u;
    }
  }

  lemma {:induction false} LeadIs(s: string, n: nat)
    requires n <= |s| && (n == |s| || !IsSpace(s[n])) && forall i :: 0 <= i < n ==> IsSpace(s[i])
    ensures Lead(s) == n
  {
    if n > 0 {
      LeadIs(s[1..], n - 1);
    }
  }

  /** A trimmed string, told by where its two ends are. */
  lemma TrimIs(p: string, head: nat, tail: nat)
    requires head <= tail <= |p|
    requires head < |p| ==> !IsSpace(p[head])
    requires tail == head || !IsSpace(p[tail - 1])
    requires forall i :: 0 <= i < head || tail <= i < |p| ==> IsSpace(p[i])
    ensures Trim(p) == p[head..tail]
  {
    LeadIs(p, head);
    TrimRightIs(p[head..], tail - head);
    assert p[head..][..tail - head] == p[head..tail];
  }

  method SkipSpaces(args: array<char>, start: nat, ghost rest: string) returns (chptr: nat)
    requires start + |rest| + 1 == args.Length && args[start..] == rest + [NUL] && NUL !in rest
    ensures start <= chptr <= start + Comma(rest)
    ensures forall i :: 0 <= i < chptr - start ==> IsSpace(rest[i])
    ensures chptr - start < Comma(rest) ==> !IsSpace(rest[chptr - start])
  {
    assert forall i :: 0 <= i <= |rest| ==> args[start + i] == args[start..][i];
    CommaFirst(rest);
    chptr := start;
    while args[chptr] != NUL && IsSpace(args[chptr])
      invariant start <= chptr <= start + Comma(rest)
      invariant forall i :: 0 <= i < chptr - start ==> IsSpace(rest[i])
      decreases args.Length - chptr
    {
      chptr := chptr + 1;
    }
  }

  /** Runs on to the end of the piece; a comma there becomes its terminator. */
  method Terminate(args: array<char>, start: nat, headptr: nat, ghost rest: string) returns (tailptr: nat, chptr: nat)
    requires start + |rest| + 1 == args.Length && args[start..] == rest + [NUL] && NUL !in rest
    requires start <= headptr <= start + Comma(rest)
    modifies args
    ensures tailptr == start + Comma(rest)
    ensures chptr == if Comma(rest) < |rest| then tailptr + 1 else tailptr
    ensures args[..] == old(args[..])[tailptr := NUL]
  {
    assert forall i :: 0 <= i <= |rest| ==> args[start + i] == args[start..][i];
    CommaFirst(rest);
    chptr := headptr;
    while args[chptr] != NUL
      invariant headptr <= chptr <= start + Comma(rest)
      invariant args[..] == old(args[..])
      decreases args.Length - chptr
    {
      if args[chptr] == ',' {
        tailptr := chptr;
        args[chptr] := NUL;
        return tailptr, chptr + 1;
      }
      chptr := chptr + 1;
    }
    tailptr := chptr;
  }

  /** Moves the end of the word back over the blanks in front of it. */
  method TrimTail(args: array<char>, headptr: nat, end: nat) returns (tailptr: nat)
    requires headptr <= end < args.Length
    ensures headptr <= tailptr <= end
    ensures forall i :: tailptr <= i < end ==> IsSpace(args[i])
    ensures tailptr == headptr || !IsSpace(args[tailptr - 1])
  {
    tailptr := end;
    while tailptr != headptr
      invariant headptr <= tailptr <= end
      invariant forall i :: tailptr <= i < end ==> IsSpace(args[i])
      decreases tailptr
    {
      if !IsSpace(args[tailptr - 1]) {
        break;
      }
      tailptr := tailptr - 1;
    }
  }

  /** One turn of the outer loop: the first piece of what is left is cut off and trimmed. */
  method CutWord(args: array<char>, start: nat, ghost rest: string, ghost e: nat, ghost w: string)
    returns (headptr: nat, next: nat)
    requires start + |rest| + 1 == args.Length && args[start..] == rest + [NUL] && NUL !in rest
    requires e == Comma(rest) && w == Trim(rest[..e])
    modifies args
    ensures args[..start] == old(args[..start]) && args[start + e + 1..] == old(args[start + e + 1..])
    ensures next == if e < |rest| then start + e + 1 else start + e
    ensures WordAt(args[..], headptr, w, start + e + 1)
    ensures e == |rest| ==> args[next] == NUL
  {
    ghost var was := args[..];
    headptr := SkipSpaces(args, start, rest);
    var end;
    end, next := Terminate(args, start, headptr, rest);
    var tailptr := TrimTail(args, headptr, end);
    ghost var mid := args[..];
    args[tailptr] := NUL;
    CutRest(was, mid, start, rest, e, headptr, tailptr);
    assert args[..] == mid[tailptr := NUL];
  }

  lemma CutRest(was: seq<char>, mid: seq<char>, start: nat, rest: string, e: nat, head: nat, tail: nat)
    requires start + |rest| + 1 == |was| && was[start..] == rest + [NUL] && e == Comma(rest)
    requires start <= head <= tail <= start + e && mid == was[start + e := NUL]
    requires forall k :: 0 <= k < head - start ==> IsSpace(rest[k])
    requires head - start < e ==> !IsSpace(rest[head - start])
    requires forall i :: tail <= i < start + e ==> IsSpace(mid[i])
    requires tail == head || !IsSpace(mid[tail - 1])
    ensures var now := mid[tail := NUL];
            && now[..start] == was[..start] && now[start + e + 1..] == was[start + e + 1..]
            && WordAt(now, head, Trim(rest[..e]), start + e + 1)
            && (e == |rest| ==> now[start + e] == NUL)
  {
    PieceStill(was, mid, start, rest, e);
    CutIs(mid, start, rest[..e], head, tail);
    SlicesStill(was, start, start + e, tail);
  }

  lemma PieceStill(was: seq<char>, mid: seq<char>, start: nat, rest: string, e: nat)
    requires start + |rest| + 1 == |was| && was[start..] == rest + [NUL] && e <= |rest| && mid == was[start + e := NUL]
    ensures forall k :: 0 <= k < e ==> rest[k] == mid[start + k]
  {
    forall k | 0 <= k < e ensures rest[k] == mid[start + k] {
      assert was[start..][k] == was[start + k];
    }
  }

  /** What the two terminators leave of a piece p in the buffer, the first being in place. */
  lemma CutIs(mid: seq<char>, start: nat, p: string, head: nat, tail: nat)
    requires start <= head <= tail <= start + |p| < |mid| && mid[start + |p|] == NUL
    requires forall k :: 0 <= k < |p| ==> p[k] == mid[start + k]
    requires forall k :: 0 <= k < head - start ==> IsSpace(p[k])
    requires head - start < |p| ==> !IsSpace(p[head - start])
    requires forall i :: tail <= i < start + |p| ==> IsSpace(mid[i])
    requires tail == head || !IsSpace(mid[tail - 1])
    ensures WordAt(mid[tail := NUL], head, Trim(p), start + |p| + 1)
  {
    EndsAt(mid, start, p, head, tail);
    TrimIs(p, head - start, tail - start);
    WordPlaced(mid, start, p, head, tail);
  }

  /** Where the word ends, seen from the piece. */
  lemma EndsAt(mid: seq<char>, start: nat, p: string, head: nat, tail: nat)
    requires start <= head <= tail <= start + |p| < |mid|
    requires forall k :: 0 <= k < |p| ==> p[k] == mid[start + k]
    requires forall i :: tail <= i < start + |p| ==> IsSpace(mid[i])
    requires tail == head || !IsSpace(mid[tail - 1])
    ensures forall k :: tail - start <= k < |p| ==> IsSpace(p[k])
    ensures tail == head || !IsSpace(p[tail - start - 1])
  {
    assert tail > head ==> p[tail - start - 1] == mid[tail - 1];
  }

  lemma WordPlaced(mid: seq<char>, start: nat, p: string, head: nat, tail: nat)
    requires start <= head <= tail <= start + |p| < |mid|
    requires forall k :: 0 <= k < |p| ==> p[k] == mid[start + k]
    ensures WordAt(mid[tail := NUL], head, p[head - start..tail - start], start + |p| + 1)
  {
    var w, now := p[head - start..tail - start], mid[tail := NUL];
    forall k | 0 <= k < |w| ensures now[head + k] == w[k] {
      assert p[head - start + k] == mid[start + (head - start + k)];
    }
  }

  lemma SlicesStill(was: seq<char>, start: nat, end: nat, tail: nat)
    requires start <= tail <= end < |was|
    ensures var now := was[end := NUL][tail := NUL]; now[..start] == was[..start] && now[end + 1..] == was[end + 1..]
  {
  }

  /** The words lie in the buffer before end, where the vector points. */
  ghost predicate Cut(ws: seq<string>, buf: seq<char>, argv: seq<int>, end: int)
    decreases |argv|
  {
    var n := |argv| - 1;
    |ws| == |argv| && (argv != [] ==> WordAt(buf, argv[n], ws[n], end) && Cut(ws[..n], buf, argv[..n], end))
  }

  lemma {:induction false} CutAt(ws: seq<string>, buf: seq<char>, argv: seq<int>, end: int, j: nat)
    requires Cut(ws, buf, argv, end) && j < |argv|
    ensures j < |ws| && WordAt(buf, argv[j], ws[j], end)
    decreases |argv|
  {
    if j < |argv| - 1 {
      CutAt(ws[..|argv| - 1], buf, argv[..|argv| - 1], end, j);
    }
  }

  /** What is left to cut from start on is still as it was in the string. */
  ghost predicate Left(buf: seq<char>, start: int, rest: string) {
    && 0 <= start && start + |rest| + 1 == |buf|
    && buf[start..] == rest + [NUL] && NUL !in rest
  }

  lemma {:induction false} CutKept(ws: seq<string>, was: seq<char>, now: seq<char>, argv: seq<int>, start: int, end: int)
    requires Cut(ws, was, argv, start) && |now| == |was| && 0 <= start <= end <= |now| && now[..start] == was[..start]
    ensures Cut(ws, now, argv, end)
    decreases |argv|
  {
    if argv != [] {
      var n := |argv| - 1;
      WordKept(was, now, argv[n], ws[n], start);
      CutKept(ws[..n], was, now, argv[..n], start, end);
    }
  }

  lemma CutStep(ws: seq<string>, w: string, was: seq<char>, now: seq<char>, argv: seq<int>, start: int, head: int, end: int)
    requires Cut(ws, was, argv, start) && WordAt(now, head, w, end)
    requires |now| == |was| && 0 <= start <= end <= |now| && now[..start] == was[..start]
    ensures Cut(ws + [w], now, argv + [head], end)
  {
    CutKept(ws, was, now, argv, start, end);
    assert (argv + [head])[..|argv|] == argv && (ws + [w])[..|ws|] == ws;
  }

  lemma LeftStep(was: seq<char>, now: seq<char>, start: int, rest: string, e: nat)
    requires Left(was, start, rest) && e < |rest| && |now| == |was| && now[start + e + 1..] == was[start + e + 1..]
    ensures Left(now, start + e + 1, rest[e + 1..])
  {
    assert was[start + e + 1..] == was[start..][e + 1..] == rest[e + 1..] + [NUL];
  }

  function Commas(s: string): nat {
    if s == "" then 0 else (if s[0] == ',' then 1 else 0) + Commas(s[1..])
  }

  lemma {:induction false} PieceCount(s: string)
    ensures |Pieces(s)| == 1 + Commas(s)
    decreases |s|
  {
    var e := Comma(s);
    CommaFirst(s);
    CommasFrom(s, e);
    if e < |s| {
      PieceCount(s[e + 1..]);
      assert s[e..][1..] == s[e + 1..];
    }
  }

  lemma {:induction false} CommasFrom(s: string, n: nat)
    requires n <= |s| && forall i :: 0 <= i < n ==> s[i] != ','
    ensures Commas(s) == Commas(s[n..])
    decreases n
  {
    if n != 0 {
      CommasFrom(s[1..], n - 1);
      assert s[1..][n - 1..] == s[n..];
    } else {
      assert s[0..] == s;
    }
  }

  lemma {:induction false} CommasSoFar(s: string, n: nat)
    requires n < |s|
    ensures Commas(s[..n + 1]) == Commas(s[..n]) + if s[n] == ',' then 1 else 0
    decreases n
  {
    if n != 0 {
      CommasSoFar(s[1..], n - 1);
      assert s[..n + 1][1..] == s[1..][..n] && s[..n][1..] == s[1..][..n - 1];
    }
  }

  class ParseArgList {
    var mArgs: array?<char>
    var mArgv: array?<int>
    var mArgc: nat

    /** The vector points at the words ws in the buffer. */
    ghost predicate Holds(ws: seq<string>)
      reads this, mArgs, mArgv
    {
      mArgs != null && mArgv != null && Vector(mArgs[..], mArgv[..], mArgc, ws)
    }

    /** ert_createParseArgListCSV */
    method CreateCsv(aArg: Option<string>)
      requires aArg.Some? ==> NUL !in aArg.value
      modifies this
      ensures aArg.None? ==> mArgs == null && mArgv == null && mArgc == 0
      ensures aArg.Some? ==> Holds(Split(aArg.value))
    {
      mArgs, mArgv, mArgc := null, null, 0;
      if aArg.Some? {
        var s := aArg.value;
        mArgs, mArgv, mArgc := SplitCopy(s);
      }
    }
  }

  /** The copy, the vector and its length. */
  method SplitCopy(s: string) returns (args: array<char>, argv: array<int>, argc: nat)
    requires NUL !in s
    ensures Vector(args[..], argv[..], argc, Split(s))
  {
    PiecesFrom(s);
    WordsClean(Pieces(s));
    args, argv, argc := SplitWords(s, TrimAll(Pieces(s)));
  }

  /** The vector points at the words ws, and a null pointer (-1) is behind it. */
  ghost predicate Vector(buf: seq<char>, argv: seq<int>, argc: nat, ws: seq<string>) {
    && argc == |ws| < |argv| && argv[argc] == -1
    && forall j :: 0 <= j < argc ==> 0 <= argv[j] < |buf| && CString(buf, argv[j]) == ws[j]
  }

  method SplitWords(s: string, ghost ws: seq<string>) returns (args: array<char>, argv: array<int>, argc: nat)
    requires NUL !in s && ws == TrimAll(Pieces(s)) && forall i :: 0 <= i < |ws| ==> NUL !in ws[i]
    ensures Vector(args[..], argv[..], argc, if ws == [""] then [] else ws)
  {
    var wordcount := CountWords(s);
    args := new char[|s| + 1](i => if 0 <= i < |s| then s[i] else NUL);
    assert args[..] == s + [NUL] && args[0..] == args[..];
    argv := new int[wordcount + 1];
    PiecesOwed(s);
    TrimAllTrims(Pieces(s));
    argc := CutAll(args, argv, wordcount, s, Pieces(s), ws);
    WordsCut(ws, args[..], argv[..wordcount]);
    argc := DropBlank(args, argv, wordcount, ws);
  }

  ghost predicate Pointed(buf: seq<char>, argv: seq<int>, ws: seq<string>) {
    |argv| == |ws| && forall j :: 0 <= j < |ws| ==> 0 <= argv[j] < |buf| && CString(buf, argv[j]) == ws[j]
  }

  /** One word that is empty is no word at all; the null pointer goes behind the last one. */
  method DropBlank(args: array<char>, argv: array<int>, wordcount: nat, ghost ws: seq<string>) returns (argc: nat)
    requires argv.Length == wordcount + 1 && Pointed(args[..], argv[..wordcount], ws)
    modifies argv
    ensures Vector(args[..], argv[..], argc, if ws == [""] then [] else ws)
  {
    argc := wordcount;
    assert forall j :: 0 <= j < wordcount ==> argv[..wordcount][j] == argv[j];
    if wordcount == 1 && args[argv[0]] == NUL {
      argc := 0;
    }
    argv[argc] := -1;
    assert args[..] == old(args[..]);
  }

  method CountWords(s: string) returns (wordcount: nat)
    ensures wordcount == |Pieces(s)|
  {
    wordcount := 1;
    var ix := 0;
    while ix < |s|
      invariant 0 <= ix <= |s| && wordcount == 1 + Commas(s[..ix])
    {
      CommasSoFar(s, ix);
      if s[ix] == ',' {
        wordcount := wordcount + 1;
      }
      ix := ix + 1;
    }
    assert s[..ix] == s;
    PieceCount(s);
  }

  lemma FirstPiece(rest: string, e: nat)
    requires e == Comma(rest)
    ensures Pieces(rest) == [rest[..e]] + if e < |rest| then Pieces(rest[e + 1..]) else []
  {
  }

  /** ps are the pieces still to be cut from rest, the next one first. */
  ghost predicate Owed(rest: string, ps: seq<string>)
    decreases |rest|
  {
    var e := Comma(rest);
    && ps != [] && ps[0] == rest[..e]
    && if e < |rest| then |ps| > 1 && Owed(rest[e + 1..], ps[1..]) else |ps| == 1
  }

  lemma {:induction false} PiecesOwed(rest: string)
    ensures Owed(rest, Pieces(rest))
    decreases |rest|
  {
    var e := Comma(rest);
    FirstPiece(rest, e);
    if e < |rest| {
      PiecesOwed(rest[e + 1..]);
      OwedFirst(rest, e, Pieces(rest[e + 1..]));
    }
  }

  lemma OwedFirst(rest: string, e: nat, ps: seq<string>)
    requires e == Comma(rest) && e < |rest| && ps != [] && Owed(rest[e + 1..], ps)
    ensures Owed(rest, [rest[..e]] + ps)
  {
    assert ([rest[..e]] + ps)[1..] == ps;
  }

  lemma OwedStep(ps: seq<string>, n: nat, rest: string, e: nat)
    requires n < |ps| && Owed(rest, ps[n..]) && e == Comma(rest)
    ensures ps[n] == rest[..e] && (n + 1 < |ps| <==> e < |rest|)
    ensures e < |rest| ==> Owed(rest[e + 1..], ps[n + 1..])
  {
    assert ps[n..][1..] == ps[n + 1..];
  }

  /** Between two turns of the outer loop: the words before the vector's end are cut, the others owed. */
  ghost predicate Working(ps: seq<string>, ws: seq<string>, buf: seq<char>, argv: seq<int>, start: int, rest: string) {
    && |argv| < |ws| == |ps| && Cut(ws[..|argv|], buf, argv, start)
    && Left(buf, start, rest) && Owed(rest, ps[|argv|..])
  }

  /** What a turn has done to the buffer, with the next word at head. */
  ghost predicate Turned(was: seq<char>, now: seq<char>, start: int, e: nat, head: int, w: string) {
    && |now| == |was| && 0 <= start && start + e + 1 <= |now|
    && now[..start] == was[..start] && now[start + e + 1..] == was[start + e + 1..]
    && WordAt(now, head, w, start + e + 1)
  }

  lemma CutTurn(ws: seq<string>, was: seq<char>, now: seq<char>, argv: seq<int>, start: int, e: nat, head: int)
    requires |argv| < |ws| && Cut(ws[..|argv|], was, argv, start) && Turned(was, now, start, e, head, ws[|argv|])
    ensures Cut(ws[..|argv| + 1], now, argv + [head], start + e + 1)
  {
    CutStep(ws[..|argv|], ws[|argv|], was, now, argv, start, head, start + e + 1);
    assert ws[..|argv|] + [ws[|argv|]] == ws[..|argv| + 1];
  }

  /** One more word is cut, and one fewer owed. */
  lemma WorkStep(ps: seq<string>, ws: seq<string>, was: seq<char>, now: seq<char>, argv: seq<int>, start: int,
                 rest: string, e: nat, head: int)
    requires Working(ps, ws, was, argv, start, rest) && e == Comma(rest)
    requires Turned(was, now, start, e, head, ws[|argv|])
    ensures |argv| + 1 < |ws| <==> e < |rest|
    ensures e < |rest| ==> Working(ps, ws, now, argv + [head], start + e + 1, rest[e + 1..])
    ensures Cut(ws[..|argv| + 1], now, argv + [head], start + e + 1)
    ensures e == |rest| ==> ws[..|argv| + 1] == ws && start + e + 1 == |now|
  {
    var n := |argv| + 1;
    assert (n < |ws| <==> e < |rest|) && (e < |rest| ==> Owed(rest[e + 1..], ps[n..])) by {
      OwedStep(ps, |argv|, rest, e);
    }
    assert Cut(ws[..n], now, argv + [head], start + e + 1) by {
      CutTurn(ws, was, now, argv, start, e, head);
    }
    assert e < |rest| ==> Left(now, start + e + 1, rest[e + 1..]) by {
      if e < |rest| { LeftStep(was, now, start, rest, e); }
    }
  }

  /** The words ws are the pieces ps, trimmed. */
  ghost predicate Trimmed(ws: seq<string>, ps: seq<string>) {
    |ws| == |ps| && forall i :: 0 <= i < |ps| ==> ws[i] == Trim(ps[i])
  }

  lemma TrimAllTrims(ps: seq<string>)
    ensures Trimmed(TrimAll(ps), ps)
  {
    forall i | 0 <= i < |ps| ensures TrimAll(ps)[i] == Trim(ps[i]) {
      TrimAllAt(ps, i);
    }
  }

  /** The outer loop: one word after the other, until there are wordcount of them. */
  method CutAll(args: array<char>, argv: array<int>, wordcount: nat,
                ghost s: string, ghost ps: seq<string>, ghost ws: seq<string>)
    returns (argc: nat)
    requires Left(args[..], 0, s) && Owed(s, ps) && Trimmed(ws, ps)
    requires wordcount == |ws| && argv.Length == wordcount + 1
    modifies args, argv
    ensures argc == wordcount && Cut(ws, args[..], argv[..wordcount], args.Length)
  {
    ghost var rest := s;
    var chptr := 0;
    argc := 0;
    assert ps[0..] == ps;
    while true
      invariant argc < wordcount && Working(ps, ws, args[..], argv[..argc], chptr, rest)
      decreases wordcount - argc
    {
      chptr, rest := NextWord(args, argv, argc, chptr, ps, ws, rest);
      argc := argc + 1;
      if argc == wordcount {
        assert args[chptr] == NUL;
        break;
      }
    }
  }

  /** Cuts the next word and points the vector at it. */
  method NextWord(args: array<char>, argv: array<int>, argc: nat, chptr: nat,
                  ghost ps: seq<string>, ghost ws: seq<string>, ghost rest: string)
    returns (next: nat, ghost after: string)
    requires argc < argv.Length && Working(ps, ws, args[..], argv[..argc], chptr, rest) && ws[argc] == Trim(ps[argc])
    modifies args, argv
    ensures argc + 1 < |ws| ==> Working(ps, ws, args[..], argv[..argc + 1], next, after)
    ensures argc + 1 == |ws| ==> next < args.Length && args[next] == NUL && Cut(ws, args[..], argv[..argc + 1], args.Length)
  {
    ghost var was, vector, e := args[..], argv[..argc], Comma(rest);
    OwedStep(ps, argc, rest, e);
    next := PointAt(args, argv, argc, chptr, rest, e, ws[argc]);
    assert argv[..argc + 1] == vector + [argv[argc]];
    WorkStep(ps, ws, was, args[..], vector, chptr, rest, e, argv[argc]);
    after := if e < |rest| then rest[e + 1..] else "";
    assert e == |rest| ==> chptr + e + 1 == args.Length && ws[..argc + 1] == ws;
  }

  method PointAt(args: array<char>, argv: array<int>, argc: nat, chptr: nat,
                 ghost rest: string, ghost e: nat, ghost w: string)
    returns (next: nat)
    requires argc < argv.Length && Left(args[..], chptr, rest) && e == Comma(rest) && w == Trim(rest[..e])
    modifies args, argv
    ensures argv[..argc] == old(argv[..argc])
    ensures args[..chptr] == old(args[..chptr]) && args[chptr + e + 1..] == old(args[chptr + e + 1..])
    ensures WordAt(args[..], argv[argc], w, chptr + e + 1)
    ensures next == (if e < |rest| then chptr + e + 1 else chptr + e) && (e == |rest| ==> args[next] == NUL)
  {
    var headptr;
    assert args[chptr..] == args[..][chptr..];
    headptr, next := CutWord(args, chptr, rest, e, w);
    ghost var now := args[..];
    argv[argc] := headptr;
    assert args[..] == now;
  }

  lemma WordsCut(ws: seq<string>, buf: seq<char>, argv: seq<int>)
    requires Cut(ws, buf, argv, |buf|) && forall i :: 0 <= i < |ws| ==> NUL !in ws[i]
    ensures Pointed(buf, argv, ws)
  {
    forall j | 0 <= j < |argv| ensures 0 <= argv[j] < |buf| && CString(buf, argv[j]) == ws[j] {
      CutAt(ws, buf, argv, |buf|, j);
      WordIsCString(buf, argv[j], ws[j], |buf|);
    }
  }

  lemma WordsClean(ps: seq<string>)
    requires forall i :: 0 <= i < |ps| ==> NUL !in ps[i]
    ensures forall i :: 0 <= i < |ps| ==> NUL !in TrimAll(ps)[i]
  {
    forall i | 0 <= i < |ps| ensures NUL !in TrimAll(ps)[i] {
      TrimAllAt(ps, i);
      TrimClean(ps[i]);
    }
  }

  lemma TrimClean(p: string)
    requires NUL !in p
    ensures NUL !in Trim(p)
  {
    TrimRightPrefix(p[Lead(p)..]);
  }

  lemma {:induction false} PiecesFrom(s: string)
    requires NUL !in s
    ensures forall i :: 0 <= i < |Pieces(s)| ==> NUL !in Pieces(s)[i]
    decreases |s|
  {
    if Comma(s) < |s| {
      PiecesFrom(s[Comma(s) + 1..]);
    }
  }
}
