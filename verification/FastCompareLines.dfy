/** Files and line numbers in the fast comparison: what it takes for them, and what they are. */
module FastCompareLines {
  import opened Basics
  import opened FastCompare
  import opened FastCompareEnds

  // ----- Reading forward -----------------------------------------------------------------------------

  /** The file in force, by the rest of its line, and the number of the next line. */
  datatype Place = Place(file: string, line: nat)

  /** The text up to the end of the line, its newline included, or up to a NUL. */
  function FileOf(t: string): string {
    if t == [] || t[0] == NUL then [] else if t[0] == '\n' then ['\n'] else [t[0]] + FileOf(t[1..])
  }

  /** What a line statement at the head of the text says; with fBlanks only blanks may stand in front of it. */
  function Sets(t: string, fBlanks: bool): Option<Place> {
    match LineStatement(if fBlanks then DropBlanks(t) else DropSpaces(t))
    case None => None
    case Some(l) => Some(Place(FileOf(l.file), l.iLine))
  }

  /** A line statement sets file and number, any other line adds one. Before the first statement there is none. */
  function Behind(t: string, p: Option<Place>, fBlanks: bool): Option<Place> {
    if Sets(t, fBlanks).Some? then Sets(t, fBlanks) else Plus(p, 1)
  }

  function Plus(p: Option<Place>, n: nat): Option<Place> {
    match p
    case None => None
    case Some(at) => Some(at.(line := (at.line + n) % WIDTH))
  }

  /** The place behind the lines among the first n characters. */
  function Reading(t: string, n: nat, p: Option<Place>, fBlanks: bool): Option<Place>
    decreases n
  {
    if n == 0 || t == [] || LineLen(t) > n then p
      else Reading(DropLine(t), n - LineLen(t), Behind(t, p, fBlanks), fBlanks)
  }

  /** The place of what stands at q. */
  function PlaceAt(a: string, q: nat): Option<Place> {
    Reading(a, q, None, false)
  }

  predicate LineEnds(t: string, n: nat) {
    n <= |t| && (n == 0 || t[n - 1] == '\n')
  }

  lemma {:induction false} LineLenUpTo(t: string, n: nat)
    requires 0 < n <= |t| && t[n - 1] == '\n'
    ensures t != [] && LineLen(t) <= n
  {
    if t[0] != '\n' {
      LineLenUpTo(t[1..], n - 1);
    }
  }

  lemma {:induction false} LineEndsLater(t: string, n: nat)
    requires LineEnds(t, n) && n > 0
    ensures t != [] && LineLen(t) <= n && LineEnds(DropLine(t), n - LineLen(t))
    ensures DropLine(t)[n - LineLen(t)..] == t[n..]
  {
    hide LineLen;
    LineLenUpTo(t, n);
  }

  lemma {:induction false} ReadingNext(t: string, n: nat, p: Option<Place>, fBlanks: bool)
    requires t != [] && LineLen(t) <= n
    ensures Reading(t, n, p, fBlanks) == Reading(DropLine(t), n - LineLen(t), Behind(t, p, fBlanks), fBlanks)
  {
    hide LineLen, Behind;
  }

  lemma {:induction false} ReadingNothing(t: string, p: Option<Place>, fBlanks: bool)
    ensures Reading(t, 0, p, fBlanks) == p
  {
  }

  /** What has been read behind a line's end is read on from there. */
  lemma {:induction false} ReadingSplit(t: string, n: nat, m: nat, p: Option<Place>, fBlanks: bool)
    requires LineEnds(t, n)
    ensures Reading(t, n + m, p, fBlanks) == Reading(t[n..], m, Reading(t, n, p, fBlanks), fBlanks)
    decreases n
  {
    hide LineLen, Behind, Reading, DropLine, LineEnds;
    if n == 0 {
      assert t[0..] == t;
      ReadingNothing(t, p, fBlanks);
    } else {
      LineEndsLater(t, n);
      ReadingNext(t, n, p, fBlanks);
      ReadingNext(t, n + m, p, fBlanks);
      ReadingSplit(DropLine(t), n - LineLen(t), m, Behind(t, p, fBlanks), fBlanks);
    }
  }

  // ----- Scanning backward ----------------------------------------------------------------------------

  function AsPlace(l: Option<Location>): Option<Place> {
    match l
    case None => None
    case Some(at) => Some(Place(FileOf(at.file), at.iLine))
  }

  lemma {:induction false} SameNameIs(t: string, u: string)
    ensures SameName(t, u) <==> FileOf(t) == FileOf(u)
  {
    if t != [] && u != [] && t[0] == u[0] && t[0] != '\n' && t[0] != NUL {
      SameNameIs(t[1..], u[1..]);
      assert FileOf(t)[1..] == FileOf(t[1..]) && FileOf(u)[1..] == FileOf(u[1..]);
    } else if FileOf(t) != [] && FileOf(u) != [] {
      assert FileOf(t)[0] == t[0] && FileOf(u)[0] == u[0];
    }
  }

  /** The comparison of locations is one of files and numbers. */
  lemma {:induction false} SameLocationIs(l1: Option<Location>, l2: Option<Location>)
    ensures SameLocation(l1, l2) <==> AsPlace(l1) == AsPlace(l2)
  {
    hide SameName, FileOf;
    if l1.Some? && l2.Some? {
      SameNameIs(l1.value.file, l2.value.file);
    }
  }

  /** Where the first character that is not a blank stands. */
  function FirstAt(t: string): (r: nat)
    ensures r <= |t|
  {
    |t| - |DropBlanks(t)|
  }

  lemma {:induction false} FirstAtIs(t: string)
    ensures t[FirstAt(t)..] == DropBlanks(t) && forall k :: 0 <= k < FirstAt(t) ==> IsBlank(t[k])
    ensures FirstAt(t) < |t| ==> !IsBlank(t[FirstAt(t)])
  {
    if t != [] && IsBlank(t[0]) {
      FirstAtIs(t[1..]);
      assert FirstAt(t) == FirstAt(t[1..]) + 1;
      assert t[FirstAt(t)..] == t[1..][FirstAt(t[1..])..];
      forall k | 0 <= k < FirstAt(t) ensures IsBlank(t[k]) {
        if k > 0 {
          assert t[k] == t[1..][k - 1];
        }
      }
    }
  }

  lemma {:induction false} BlankBeforeIs(a: string, M: nat, j: nat)
    requires M <= j <= |a| && LineEnds(a, M) && '\n' !in a[M..j]
    ensures BlankBefore(a, j) <==> j - M <= FirstAt(a[M..])
  {
    hide FirstAt;
    FirstAtIs(a[M..]);
    if j > M {
      assert a[j - 1] == a[M..j][j - M - 1] == a[M..][j - M - 1];
      assert a[M..j - 1] == a[M..j][..j - 1 - M];
      BlankBeforeIs(a, M, j - 1);
    }
  }

  /** The scan over a part of one line, with the number counted so far. */
  lemma {:induction false} LineScanned(a: string, M: nat, q: nat, iLine: nat)
    requires M <= q <= |a| && LineEnds(a, M) && '\n' !in a[M..q]
    ensures var i := M + FirstAt(a[M..]);
            var l := LineStatement(DropBlanks(a[M..]));
            FindFile(a, q, iLine) ==
            if i < q && l.Some? then Some(l.value.(iLine := (iLine + l.value.iLine + (WIDTH - 1)) % WIDTH))
            else FindFile(a, M, iLine)
    decreases q
  {
    hide FirstAt, LineStatement, BlankBefore;
    var i := M + FirstAt(a[M..]);
    FirstAtIs(a[M..]);
    if q > M {
      assert a[q - 1] == a[M..q][q - M - 1] == a[M..][q - M - 1];
      assert a[M..q - 1] == a[M..q][..q - 1 - M];
      BlankBeforeIs(a, M, q - 1);
      LineScanned(a, M, q - 1, iLine);
      if q - 1 == i {
        assert a[i..] == a[M..][i - M..];
      } else if q - 1 < i {
        BlankIsNoStatement(a[q - 1..]);
      }
    }
  }

  lemma {:induction false} BlankIsNoStatement(t: string)
    requires t != [] && IsBlank(t[0])
    ensures LineStatement(t).None?
  {
  }

  lemma {:induction false} StatementIsHere(t: string)
    ensures LineStatement(DropBlanks(t)).Some? ==> FirstAt(t) < |t| && t[FirstAt(t)] == '#'
    ensures LineStatement(DropBlanks(t)).Some? ==> LineStatement(DropBlanks(t)).value.iLine < WIDTH
  {
    hide NumberAndFile, DropBlanks, DropWord;
    FirstAtIs(t);
    var v := DropBlanks(t);
    if LineStatement(v).Some? {
      assert v == t[FirstAt(t)..];
      NumberBound(DropWord(DropBlanks(v[1..])));
    }
  }

  lemma {:induction false} NumberBound(v: string)
    ensures NumberAndFile(v).Some? ==> NumberAndFile(v).value.iLine < WIDTH
  {
    if v != [] && IsDigit(v[0]) {
      NumberLess(0, v);
    }
  }

  lemma {:induction false} NumberLess(n: nat, v: string)
    requires n < WIDTH
    ensures Number(n, v) < WIDTH
    decreases |v|
  {
    if v != [] && IsDigit(v[0]) {
      NumberLess(AddDigit(n, v[0]), v[1..]);
    }
  }

  lemma {:induction false} AddUp(x: nat, y: nat)
    ensures (x % WIDTH + y) % WIDTH == (x + y) % WIDTH
    ensures (y + x % WIDTH) % WIDTH == (x + y) % WIDTH
  {
  }

  lemma {:induction false} PlusPlus(p: Option<Place>, x: nat, y: nat)
    ensures Plus(Plus(p, x), y) == Plus(p, x + y)
    ensures Plus(p, x % WIDTH) == Plus(p, x)
  {
    if p.Some? {
      AddUp(p.value.line + x, y);
      AddUp(x, p.value.line);
    }
  }

  lemma {:induction false} PlusNone(n: nat)
    ensures Plus(None, n) == None && AsPlace(None) == None
  {
  }

  lemma {:induction false} FindFileEnds(a: string, L: nat, iLine: nat)
    requires L <= |a|
    ensures L == 0 ==> FindFile(a, L, iLine) == None
    ensures L > 0 && a[L - 1] == '\n' ==> FindFile(a, L, iLine) == FindFile(a, L - 1, Inc(iLine))
  {
    hide FindFile;
    FindFileUnfold(a, L, iLine);
  }

  lemma {:induction false} FindFileUnfold(a: string, L: nat, iLine: nat)
    requires L <= |a|
    ensures L == 0 ==> FindFile(a, L, iLine) == None
    ensures L > 0 && a[L - 1] == '\n' ==> FindFile(a, L, iLine) == FindFile(a, L - 1, Inc(iLine))
  {
  }

  /** Over one line. */
  lemma {:induction false} BackwardLine(a: string, M: nat, L: nat, iLine: nat)
    requires 0 < L <= |a| && a[L - 1] == '\n' && M == LineStart(a, L - 1)
    ensures LineEnds(a, M)
    ensures var s := Sets(a[M..], true);
            AsPlace(FindFile(a, L, iLine)) ==
            if s.Some? then Plus(s, iLine) else AsPlace(FindFile(a, M, Inc(iLine)))
  {
    hide FirstAt, LineStatement, BlankBefore, DropBlanks, LineLen, FindFile, FileOf, LineStart;
    var t := a[M..];
    OneLine(a, M, L);
    FindFileEnds(a, L, iLine);
    LineScanned(a, M, L - 1, Inc(iLine));
    StatementIsHere(t);
    var l := LineStatement(DropBlanks(t));
    if l.Some? {
      FirstAtIs(t);
      assert a[M + FirstAt(t)] == t[FirstAt(t)] && a[L - 1] == t[L - 1 - M] == '\n';
      assert !IsBlank('\n') && M + FirstAt(t) < L - 1;
      Counted(iLine, l.value.iLine);
    }
  }

  /** The reading forward over one line. */
  lemma {:induction false} ForwardLine(a: string, M: nat, L: nat)
    requires 0 < L <= |a| && a[L - 1] == '\n' && M == LineStart(a, L - 1)
    ensures Reading(a, L, None, true) == Behind(a[M..], Reading(a, M, None, true), true)
  {
    hide Reading, LineLen, Behind, LineStart;
    var t, p := a[M..], Reading(a, M, None, true);
    OneLine(a, M, L);
    ReadingSplit(a, M, L - M, None, true);
    ReadingNext(t, L - M, p, true);
    ReadingNothing(DropLine(t), Behind(t, p, true), true);
  }

  /** The scan backward finds what a reading forward says, with the number counted on. */
  lemma {:induction false} Backward(a: string, L: nat, iLine: nat)
    requires LineEnds(a, L)
    ensures AsPlace(FindFile(a, L, iLine)) == Plus(Reading(a, L, None, true), iLine)
    decreases L
  {
    hide Reading, FindFile, AsPlace, Plus, Sets, LineStart;
    if L == 0 {
      FindFileEnds(a, L, iLine);
      ReadingNothing(a, None, true);
      PlusNone(iLine);
    } else {
      var M := LineStart(a, L - 1);
      BackwardLine(a, M, L, iLine);
      ForwardLine(a, M, L);
      if Sets(a[M..], true).None? {
        var p := Reading(a, M, None, true);
        Backward(a, M, Inc(iLine));
        PlusPlus(p, 1, iLine);
        PlusPlus(p, iLine + 1, 0);
      }
    }
  }

  lemma {:induction false} Counted(iLine: nat, n: nat)
    requires n < WIDTH
    ensures (Inc(iLine) + n + (WIDTH - 1)) % WIDTH == (n + iLine) % WIDTH
  {
    AddUp(iLine + 1, n + (WIDTH - 1));
    assert iLine + 1 + (n + (WIDTH - 1)) == n + iLine + WIDTH;
  }

  lemma {:induction false} OneLine(a: string, M: nat, L: nat)
    requires 0 < L <= |a| && a[L - 1] == '\n' && M == LineStart(a, L - 1)
    ensures LineEnds(a, M) && '\n' !in a[M..L - 1] && a[M..] != [] && LineLen(a[M..]) == L - M
  {
    hide LineLen;
    var t := a[M..];
    assert t[L - 1 - M] == '\n';
    LineLenUpTo(t, L - M);
    assert t[..L - 1 - M] == a[M..L - 1];
    LineLenMore(t, L - 1 - M);
  }

  // ----- Skipping ------------------------------------------------------------------------------------------

  /** The number that skipping gets wrong: a lone brace counts twice, a statement starts over. */
  function Extra(t: string, n: nat, x: nat): nat
    decreases n
  {
    if n == 0 || t == [] || LineLen(t) > n then x
    else
      Extra(DropLine(t), n - LineLen(t),
        if Sets(t, false).Some? then 0 else if KindOf(t) == Brace then x + 1 else x)
  }

  /** What the state of skipping says, from a place on. */
  function Now(p: Option<Place>, s: Skip): Option<Place> {
    match s.file
    case None => Plus(p, s.iLine)
    case Some(f) => Some(Place(FileOf(f), s.iLine))
  }

  lemma {:induction false} SetsIsKind(t: string)
    ensures Sets(t, false).Some? <==> KindOf(t) == Statement
    ensures KindOf(t) == Statement ==> t != [] && DropSpaces(t) != []
  {
    hide LineStatement, FileOf;
    NothingIsNoStatement();
  }

  lemma {:induction false} NothingIsNoStatement()
    ensures LineStatement([]).None?
  {
  }

  lemma {:induction false} StatementBound(v: string)
    ensures LineStatement(v).Some? ==> LineStatement(v).value.iLine < WIDTH
  {
    hide NumberAndFile, DropBlanks, DropWord;
    if LineStatement(v).Some? {
      NumberBound(DropWord(DropBlanks(v[1..])));
    }
  }

  /** Skipping a line leaves what is behind it. */
  lemma {:induction false} OverIsDropLine(s: Skip)
    requires s.text != [] && KindOf(s.text) != Significant
    ensures StepOver(s).text == DropLine(s.text)
  {
    hide KindOf, DropLine, SkipStep;
    var r := SkipStep(s);
    match KindOf(s.text) {
      case Blank => BlankStep(s);
      case Statement => StatementStep(s);
      case Brace =>
        BraceEnds(s);
        if r.text != [] {
          BlankStep(r);
        } else {
          BraceAtEnd(s);
        }
    }
  }

  lemma {:induction false} BraceAtEnd(s: Skip)
    requires s.text != [] && KindOf(s.text) == Brace && SkipStep(s).text == []
    ensures DropLine(s.text) == []
  {
    hide DropLine, LineStatement, DropSpaces;
    var v := DropSpaces(s.text);
    LineBehindSpaces(s.text);
    LineBehindSpaces(v[1..]);
    BehindOne(v);
    NewlineOnly([]);
  }

  /** What the line does to number and file, as long as something is left. */
  lemma {:induction false} OverIs(s: Skip)
    requires s.text != [] && KindOf(s.text) != Significant && StepOver(s).text != []
    ensures var r := StepOver(s);
            match KindOf(s.text)
            case Blank => r.iLine == Inc(s.iLine) && r.file == s.file
            case Statement =>
              var l := LineStatement(DropSpaces(s.text));
              l.Some? && r.iLine == l.value.iLine && r.file == Some(l.value.file)
            case Brace => r.iLine == Inc(Inc(s.iLine)) && r.file == s.file
            case Significant => true
  {
    hide LineStatement, LineLen, DropSpaces, DropLine;
    if KindOf(s.text) == Brace {
      BraceEnds(s);
      NewlineIsBlank(SkipStep(s));
    }
  }

  lemma {:induction false} NewlineIsBlank(s: Skip)
    requires s.text != [] && s.text[0] == '\n'
    ensures KindOf(s.text) == Blank && SkipStep(s) == Skip(s.text[1..], Inc(s.iLine), s.file, s.cCurlyBraces)
  {
    assert DropSpaces(s.text) == s.text;
  }

  lemma {:induction false} IncIs(n: nat, x: nat, p: Option<Place>)
    ensures Plus(p, Inc(n)) == Plus(Plus(p, n), 1) == Plus(p, n + 1)
    ensures Plus(Plus(p, x), 1) == Plus(Plus(p, 1), x)
  {
    PlusPlus(p, n, 1);
    PlusPlus(p, n + 1, 0);
    PlusPlus(p, x, 1);
    PlusPlus(p, 1, x);
  }

  lemma {:induction false} IncPlace(f: string, n: nat)
    ensures Some(Place(f, Inc(n))) == Plus(Some(Place(f, n)), 1)
  {
  }

  /** One line: the state goes on as the reading does, with the extra count. */
  lemma {:induction false} NowOver(s: Skip, p: Option<Place>, at: Option<Place>, x: nat)
    requires s.text != [] && KindOf(s.text) != Significant && StepOver(s).text != []
    requires Now(p, s) == Plus(at, x)
    ensures Now(p, StepOver(s)) ==
            Plus(Behind(s.text, at, false),
              if Sets(s.text, false).Some? then 0 else if KindOf(s.text) == Brace then x + 1 else x)
  {
    hide KindOf, LineStatement, DropSpaces, StepOver, FileOf, Plus, Inc;
    OverIs(s);
    SetsIsKind(s.text);
    StatementBound(DropSpaces(s.text));
    IncIs(s.iLine, x, p);
    IncIs(Inc(s.iLine), x, p);
    IncIs(s.iLine, x, at);
    IncIs(s.iLine, x + 1, at);
    PlusPlus(at, x, 1);
    PlusPlus(at, 1, x);
    PlusPlus(at, x, 2);
    PlusPlus(at, 1, x + 1);
    PlusPlus(p, s.iLine, 2);
    PlusPlus(p, s.iLine + 1, 1);
    if s.file.Some? {
      IncPlace(FileOf(s.file.value), s.iLine);
      IncPlace(FileOf(s.file.value), Inc(s.iLine));
    }
    SetsPlain(s.text);
  }

  lemma {:induction false} SetsPlain(t: string)
    ensures Sets(t, false).Some? ==>
              var l := LineStatement(DropSpaces(t));
              l.Some? && Plus(Sets(t, false), 0) == Some(Place(FileOf(l.value.file), l.value.iLine)) == Sets(t, false)
  {
    hide LineStatement, DropSpaces, FileOf;
    StatementBound(DropSpaces(t));
  }

  /** Skipping reads on, but for the extra count. */
  lemma {:induction false} SkipReads(s: Skip, p: Option<Place>, at: Option<Place>, x: nat)
    requires Now(p, s) == Plus(at, x)
    ensures var r := SkipFrom(s);
            |r.text| <= |s.text| &&
            var n := |s.text| - |r.text|;
            r.text != [] ==>
              LineEnds(s.text, n) && Now(p, r) == Plus(Reading(s.text, n, at, false), Extra(s.text, n, x))
    decreases |s.text|
  {
    hide KindOf, StepOver, SkipStep, Now, Plus, Reading, Extra, Behind, LineLen, BehindLine, SkipFrom;
    SkipStops(s);
    SkipShortens(s);
    SkipsNothing(s);
    var r := SkipFrom(s);
    if s.text == [] || KindOf(s.text) == Significant {
      ReadingNothing(s.text, at, false);
      ExtraNothing(s.text, x);
    } else {
      var o := StepOver(s);
      StepOverIs(s);
      OverIsDropLine(s);
      if r.text != [] {
        SkipShortens(o);
        NowOver(s, p, at, x);
        var x' := if Sets(s.text, false).Some? then 0 else if KindOf(s.text) == Brace then x + 1 else x;
        SkipReads(o, p, Behind(s.text, at, false), x');
        var n := |s.text| - |r.text|;
        ReadingNext(s.text, n, at, false);
        ExtraNext(s.text, n, x);
        LineEndsIs(s.text, n, r.text);
      }
    }
  }

  lemma {:induction false} LineEndsIs(t: string, n: nat, r: string)
    requires BehindLine(t, r) && r != [] && n == |t| - |r|
    ensures LineEnds(t, n)
  {
  }

  lemma {:induction false} ExtraNothing(t: string, x: nat)
    ensures Extra(t, 0, x) == x
  {
  }

  lemma {:induction false} ExtraNext(t: string, n: nat, x: nat)
    requires t != [] && LineLen(t) <= n
    ensures Extra(t, n, x) ==
            Extra(DropLine(t), n - LineLen(t),
              if Sets(t, false).Some? then 0 else if KindOf(t) == Brace then x + 1 else x)
  {
    hide LineLen, Sets, KindOf;
  }

  // ----- The location that is compared ---------------------------------------------------------------------

  /** An empty line at the place of the difference counts twice. */
  function AtEmpty(a: string, L: nat): nat {
    if L < |a| && a[L] == '\n' then 1 else 0
  }

  /** What the comparison takes for the place of q, having skipped from L on: the lines in front of L are read with
      statements behind blanks only, and some lines count twice. */
  function Computed(a: string, L: nat, q: nat): Option<Place>
    requires L <= q <= |a|
  {
    Plus(Reading(a[L..], q - L, Reading(a, L, None, true), false), Extra(a[L..], q - L, AtEmpty(a, L)))
  }

  lemma {:induction false} FileKept(s: Skip)
    ensures s.file.Some? ==> SkipFrom(s).file.Some?
    decreases |s.text|
  {
    hide KindOf, LineStatement, DropSpaces;
    if s.text != [] && KindOf(s.text) != Significant {
      FileStays(s);
      FileKept(SkipStep(s));
    }
  }

  lemma {:induction false} FileStays(s: Skip)
    requires s.text != [] && KindOf(s.text) != Significant
    ensures s.file.Some? || KindOf(s.text) == Statement ==> SkipStep(s).file.Some?
  {
    hide LineStatement, DropSpaces;
  }

  /** A statement where skipping starts is found there. */
  lemma {:induction false} StatementFound(s: Skip)
    requires s.text != [] && LineStatement(s.text).Some?
    ensures SkipFrom(s).file.Some?
  {
    hide LineStatement, SkipStep;
    HashIsFirst(s.text);
    FileStays(s);
    FileKept(SkipStep(s));
  }

  lemma {:induction false} HashIsFirst(t: string)
    requires t != [] && LineStatement(t).Some?
    ensures KindOf(t) == Statement
  {
    hide NumberAndFile;
    assert DropSpaces(t) == t;
  }

  lemma {:induction false} FindFileHere(a: string, L: nat, iLine: nat)
    requires L < |a| && LineEnds(a, L)
    ensures a[L] == '\n' ==> FindFile(a, L + 1, iLine) == FindFile(a, L, Inc(iLine))
    ensures a[L] != '\n' && LineStatement(a[L..]).None? ==> FindFile(a, L + 1, iLine) == FindFile(a, L, iLine)
  {
    hide LineStatement, BlankBefore;
  }

  /** What skipping says in the end. */
  lemma {:induction false} SkippedTo(a: string, L: nat)
    requires L <= |a|
    ensures var s := SkipFrom(Skip(a[L..], 0, None, 0));
            s.text != [] ==>
              && |s.text| <= |a| - L && LineEnds(a[L..], |a| - |s.text| - L)
              && Now(Plus(Reading(a, L, None, true), AtEmpty(a, L)), s) == Computed(a, L, |a| - |s.text|)
  {
    hide SkipFrom, Reading, Extra, Plus, LineEnds;
    var base, x := Reading(a, L, None, true), AtEmpty(a, L);
    PlusPlus(base, x, 0);
    SkipReads(Skip(a[L..], 0, None, 0), Plus(base, x), base, x);
  }

  lemma {:induction false} WhereIsNow(a: string, L: nat, s: Skip)
    requires L < |a| && LineEnds(a, L) && (s.file.None? ==> LineStatement(a[L..]).None?)
    ensures AsPlace(Where(a, L, s)) == Now(Plus(Reading(a, L, None, true), AtEmpty(a, L)), s)
  {
    hide FindFile, LineStatement, Reading, FileOf;
    var base := Reading(a, L, None, true);
    FindFileHere(a, L, s.iLine);
    Backward(a, L, s.iLine);
    Backward(a, L, Inc(s.iLine));
    PlusPlus(base, s.iLine + 1, 0);
    PlusPlus(base, AtEmpty(a, L), s.iLine);
  }

  /** In every text, behind every start of a line: the location that is compared is the computed place. */
  lemma {:induction false} WhereIs(a: string, L: nat)
    requires L <= |a| && LineEnds(a, L)
    ensures var s := SkipFrom(Skip(a[L..], 0, None, 0));
            s.text != [] ==>
              L < |a| && |s.text| <= |a| - L && AsPlace(Where(a, L, s)) == Computed(a, L, |a| - |s.text|)
  {
    hide SkipFrom, Where, LineStatement, Computed, Now, Plus, Reading, LineEnds;
    var s0 := Skip(a[L..], 0, None, 0);
    var s := SkipFrom(s0);
    SkippedTo(a, L);
    if s.text != [] {
      if LineStatement(a[L..]).Some? {
        StatementFound(s0);
      }
      WhereIsNow(a, L, s);
    }
  }

  // ----- Where it goes on ----------------------------------------------------------------------------------

  /** The first significant line from L on, and the lone braces in front of it. */
  function NextAt(a: string, L: nat): (q: nat)
    requires L <= |a|
    ensures L <= q <= |a|
  {
    SkipShortens(Skip(a[L..], 0, None, 0));
    |a| - |SkipFrom(Skip(a[L..], 0, None, 0)).text|
  }

  /** The comparison goes on behind a difference if and only if both texts have as many lone braces up to their next
      significant lines, these are the same in the length of the first, and the same place is computed for them. */
  lemma {:induction false} ResumeIff(a: string, b: string, p1: nat, p2: nat)
    requires p1 <= |a| && p2 <= |b| && p1 - LineStart(a, p1) <= p2
    requires LineEnds(b, p2 - (p1 - LineStart(a, p1)))
    ensures var L1 := LineStart(a, p1);
            var L2 := p2 - (p1 - L1);
            var q1, q2 := NextAt(a, L1), NextAt(b, L2);
            var n := LineLen(a[q1..]);
            && (Resume(a, b, p1, p2).Go? <==>
                && Braces(a[L1..]) - Braces(a[q1..]) == Braces(b[L2..]) - Braces(b[q2..]) && q1 < |a| && q2 < |b|
                && q2 + n <= |b| && a[q1..q1 + n] == b[q2..q2 + n] && Computed(a, L1, q1) == Computed(b, L2, q2))
            && (Resume(a, b, p1, p2).Go? ==> Resume(a, b, p1, p2) == Go(q1 + n, q2 + n))
            && (Resume(a, b, p1, p2) == Done(true) <==>
                && Braces(a[L1..]) - Braces(a[q1..]) == Braces(b[L2..]) - Braces(b[q2..]) && q1 == |a| && q2 == |b|)
  {
    hide *;
    var L1 := LineStart(a, p1);
    var L2 := p2 - (p1 - L1);
    LineStartOf(a, p1);
    ResumeIs(a, b, p1, p2);
    OneSide(a, L1);
    OneSide(b, L2);
    var s1, s2 := SkipFrom(Skip(a[L1..], 0, None, 0)), SkipFrom(Skip(b[L2..], 0, None, 0));
    var q1, q2 := NextAt(a, L1), NextAt(b, L2);
    if q1 < |a| && q2 < |b| {
      SameLocationIs(Where(a, L1, s1), Where(b, L2, s2));
      HeadOf(a, q1, LineLen(a[q1..]));
      HeadOf(b, q2, LineLen(a[q1..]));
    }
  }

  lemma {:induction false} LineStartOf(a: string, p: nat)
    requires p <= |a|
    ensures LineStart(a, p) <= p && LineEnds(a, LineStart(a, p))
  {
  }

  lemma {:induction false} HeadOf(a: string, q: nat, n: nat)
    requires q <= |a|
    ensures q + n <= |a| ==> a[q..][..n] == a[q..q + n]
  {
  }

  /** What skipping from L on comes to. */
  lemma {:induction false} OneSide(a: string, L: nat)
    requires L <= |a| && LineEnds(a, L)
    ensures var q := NextAt(a, L);
            var s := SkipFrom(Skip(a[L..], 0, None, 0));
            && s.text == a[q..] && s.cCurlyBraces == Braces(a[L..]) - Braces(a[q..])
            && (q < |a| ==>
                L < |a| && KindOf(a[q..]) == Significant && LineEnds(a, q) && LineEnds(a[L..], q - L)
                && AsPlace(Where(a, L, s)) == Computed(a, L, q))
  {
    hide *;
    var i := Skip(a[L..], 0, None, 0);
    SkipSound(i);
    SkippedTo(a, L);
    WhereIs(a, L);
    NextIs(a, L);
    var q := NextAt(a, L);
    if q < |a| {
      LineEndsAfter(a, L, q - L);
    }
  }

  lemma {:induction false} NextIs(a: string, L: nat)
    requires L <= |a|
    ensures var s := SkipFrom(Skip(a[L..], 0, None, 0)); s.text == a[NextAt(a, L)..] && NextAt(a, L) == |a| - |s.text|
  {
    hide SkipFrom;
    SkipShortens(Skip(a[L..], 0, None, 0));
  }

  lemma {:induction false} LineEndsAfter(a: string, L: nat, n: nat)
    requires L + n <= |a| && LineEnds(a, L) && LineEnds(a[L..], n)
    ensures LineEnds(a, L + n)
  {
    if n > 0 {
      assert a[L..][n - 1] == a[L + n - 1];
    }
  }

  lemma {:induction false} ResumeIs(a: string, b: string, p1: nat, p2: nat)
    requires p1 <= |a| && p2 <= |b| && p1 - LineStart(a, p1) <= p2
    ensures var L1 := LineStart(a, p1);
            var L2 := p2 - (p1 - L1);
            var s1, s2 := SkipFrom(Skip(a[L1..], 0, None, 0)), SkipFrom(Skip(b[L2..], 0, None, 0));
            var q1, q2 := NextAt(a, L1), NextAt(b, L2);
            var n := LineLen(s1.text);
            && |s1.text| == |a| - q1 && |s2.text| == |b| - q2
            && Resume(a, b, p1, p2) ==
               if s1.cCurlyBraces != s2.cCurlyBraces then Done(false)
               else if q1 == |a| || q2 == |b| then Done(q1 == |a| && q2 == |b|)
               else if q2 + n > |b| || s1.text[..n] != s2.text[..n] then Done(false)
               else if !SameLocation(Where(a, L1, s1), Where(b, L2, s2)) then Done(false)
               else Go(q1 + n, q2 + n)
  {
    hide SkipFrom, Where, LineLen, SameLocation, LineStart;
    var L1 := LineStart(a, p1);
    SkipShortens(Skip(a[L1..], 0, None, 0));
    SkipShortens(Skip(b[p2 - (p1 - L1)..], 0, None, 0));
  }
}
