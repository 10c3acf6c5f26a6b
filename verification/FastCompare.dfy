/** The fast comparison of old and new preprocessor output. */
module FastCompare {
  import opened Basics

  /** Line numbers are 32 bits wide. */
  const WIDTH: nat := 0x1_0000_0000

  // ----- Lines and what they are ----------------------------------------------------------

  predicate IsSpace(c: char) {
    c == ' ' || '\t' <= c <= '\r'
  }

  /** The text behind the white space at its head; a line's end is no white space. */
  function DropSpaces(t: string): (r: string)
    ensures |r| <= |t| && (r != [] ==> r[0] == '\n' || !IsSpace(r[0]))
  {
    if t != [] && IsSpace(t[0]) && t[0] != '\n' then DropSpaces(t[1..]) else t
  }

  function DropBlanks(t: string): (r: string)
    ensures |r| <= |t| && (r != [] ==> !IsBlank(r[0]))
  {
    if t != [] && IsBlank(t[0]) then DropBlanks(t[1..]) else t
  }

  function DropDigits(t: string): (r: string)
    ensures |r| <= |t| && (r != [] ==> !IsDigit(r[0]))
  {
    if t != [] && IsDigit(t[0]) then DropDigits(t[1..]) else t
  }

  predicate IsWord(t: string) {
    |t| > 3 && t[0] == 'l' && t[1] == 'i' && t[2] == 'n' && t[3] == 'e'
  }

  /** The word is skipped with one character more, whatever that is. */
  function DropWord(t: string): (r: string)
    ensures |r| <= |t|
  {
    if IsWord(t) then (if |t| > 4 then t[5..] else []) else t
  }

  function AddDigit(n: nat, c: char): nat
    requires IsDigit(c)
  {
    (n * 10 + (c as int - '0' as int)) % WIDTH
  }

  /** The number n goes on with the digits at the head. */
  function Number(n: nat, t: string): nat
    decreases |t|
  {
    if t != [] && IsDigit(t[0]) then Number(AddDigit(n, t[0]), t[1..]) else n
  }

  /** A line's number, and the text from the file's name on. */
  datatype Location = Location(iLine: nat, file: string)

  /** kOCEntryIsLineStatement. */
  function LineStatement(t: string): (r: Option<Location>)
    ensures r.Some? ==> t != [] && t[0] == '#'
  {
    if t == [] || t[0] != '#' then None else NumberAndFile(DropWord(DropBlanks(t[1..])))
  }

  function NumberAndFile(v: string): Option<Location> {
    if v == [] || !IsDigit(v[0]) then None
    else
      var w := DropDigits(v);
      if w == [] || !IsBlank(w[0]) then None else Some(Location(Number(0, v), DropBlanks(w)))
  }

  datatype Kind = Blank | Statement | Brace | Significant

  /** What the text's first line is. */
  function KindOf(t: string): Kind {
    var v := DropSpaces(t);
    if v == [] || v[0] == '\n' then Blank
    else if LineStatement(v).Some? then Statement
    else if v[0] == '}' then
      var w := DropSpaces(v[1..]);
      if w == [] || w[0] == '\n' then Brace else Significant
    else Significant
  }

  /** The length of the first line with its end. */
  function LineLen(t: string): (r: nat)
    ensures r <= |t| && (t != [] ==> r > 0)
  {
    if t == [] then 0 else if t[0] == '\n' then 1 else 1 + LineLen(t[1..])
  }

  function DropLine(t: string): (r: string)
    ensures |r| <= |t| && (t != [] ==> |r| < |t|)
  {
    t[LineLen(t)..]
  }

  /** The significant lines. */
  function Sig(t: string): seq<string>
    decreases |t|
  {
    if t == [] then []
    else (if KindOf(t) == Significant then [t[..LineLen(t)]] else []) + Sig(DropLine(t))
  }

  /** The number of lines with a closing brace and nothing else. */
  function Braces(t: string): nat
    decreases |t|
  {
    if t == [] then 0 else (if KindOf(t) == Brace then 1 else 0) + Braces(DropLine(t))
  }

  /** Same code: the significant lines are the same, and so is the number of lone braces. */
  predicate SameCode(t: string, u: string) {
    Sig(t) == Sig(u) && Braces(t) == Braces(u)
  }

  predicate Ended(t: string) {
    t == [] || t[|t| - 1] == '\n'
  }

  predicate EndsLine(t: string) {
    IsWord(t) && |t| > 4 && t[4] == '\n'
  }

  /** "line" right before the end of a line: the number is looked for on the next one. */
  predicate Bare(t: string) {
    t != [] && t[0] == '#' && EndsLine(DropBlanks(t[1..]))
  }

  predicate NoBareLine(t: string) {
    t == [] || (!Bare(t) && NoBareLine(t[1..]))
  }

  // ----- A line does not depend on those behind it ------------------------------------------------

  lemma {:induction false} SpacesLocal(u: string, y: string)
    requires '\n' in u
    ensures DropSpaces(u + y) == DropSpaces(u) + y && '\n' in DropSpaces(u)
  {
    if IsSpace(u[0]) && u[0] != '\n' {
      assert (u + y)[1..] == u[1..] + y;
      SpacesLocal(u[1..], y);
    }
  }

  lemma {:induction false} BlanksLocal(u: string, y: string)
    requires '\n' in u
    ensures DropBlanks(u + y) == DropBlanks(u) + y && '\n' in DropBlanks(u)
  {
    if IsBlank(u[0]) {
      assert (u + y)[1..] == u[1..] + y;
      BlanksLocal(u[1..], y);
    }
  }

  lemma {:induction false} DigitsLocal(n: nat, u: string, y: string)
    requires '\n' in u
    ensures DropDigits(u + y) == DropDigits(u) + y && '\n' in DropDigits(u) && Number(n, u + y) == Number(n, u)
    decreases |u|
  {
    hide AddDigit;
    if IsDigit(u[0]) {
      assert (u + y)[1..] == u[1..] + y;
      DigitsLocal(AddDigit(n, u[0]), u[1..], y);
    }
  }

  lemma {:induction false} LineLenLocal(u: string, y: string)
    requires '\n' in u
    ensures LineLen(u + y) == LineLen(u) && u[LineLen(u) - 1] == '\n'
  {
    if u[0] != '\n' {
      assert (u + y)[1..] == u[1..] + y;
      LineLenLocal(u[1..], y);
    }
  }

  lemma {:induction false} WordLocal(u: string, y: string)
    requires '\n' in u
    ensures DropWord(u + y) == DropWord(u) + y
  {
    var k :| 0 <= k < |u| && u[k] == '\n';
    assert (u + y)[k] == '\n';
    if IsWord(u + y) {
      assert (u + y)[5..] == u[5..] + y;
    }
  }

  lemma {:induction false} NumberLocal(u: string, y: string)
    requires '\n' in u
    ensures NumberAndFile(u + y).Some? <==> NumberAndFile(u).Some?
  {
    hide Number, DropDigits, DropBlanks;
    DigitsLocal(0, u, y);
  }

  /** What follows the text does not decide whether a line statement starts it. */
  predicate Settled(u: string) {
    '\n' in u && (u[0] == '#' ==> '\n' in DropWord(DropBlanks(u[1..])))
  }

  lemma {:induction false} StatementLocal(u: string, y: string)
    requires Settled(u)
    ensures LineStatement(u + y).Some? <==> LineStatement(u).Some?
  {
    hide NumberAndFile, DropBlanks, DropWord;
    assert (u + y)[0] == u[0];
    if u[0] == '#' {
      assert (u + y)[1..] == u[1..] + y;
      BlanksLocal(u[1..], y);
      WordLocal(DropBlanks(u[1..]), y);
      NumberLocal(DropWord(DropBlanks(u[1..])), y);
    }
  }

  lemma {:induction false} SettledIfNotBare(u: string)
    requires '\n' in u && !Bare(u)
    ensures Settled(u)
  {
    hide DropBlanks;
    if u[0] == '#' {
      BlanksLocal(u[1..], []);
      var v := DropBlanks(u[1..]);
      var k :| 0 <= k < |v| && v[k] == '\n';
      if IsWord(v) {
        assert v[5..][k - 5] == '\n';
      }
    }
  }

  function Newlines(t: string): nat {
    if t == [] then 0 else (if t[0] == '\n' then 1 else 0) + Newlines(t[1..])
  }

  lemma {:induction false} NewlinesIn(t: string)
    ensures Newlines(t) > 0 <==> '\n' in t
  {
    if t != [] {
      NewlinesIn(t[1..]);
      assert t == [t[0]] + t[1..];
    }
  }

  lemma {:induction false} NewlinesConcat(t: string, u: string)
    ensures Newlines(t + u) == Newlines(t) + Newlines(u)
  {
    if t == [] {
      assert t + u == u;
    } else {
      assert (t + u)[1..] == t[1..] + u;
      NewlinesConcat(t[1..], u);
    }
  }

  lemma {:induction false} SpacesNewlines(t: string)
    ensures Newlines(DropSpaces(t)) == Newlines(t)
  {
    if t != [] && IsSpace(t[0]) && t[0] != '\n' {
      SpacesNewlines(t[1..]);
    }
  }

  lemma {:induction false} BlanksNewlines(t: string)
    ensures Newlines(DropBlanks(t)) == Newlines(t)
  {
    if t != [] && IsBlank(t[0]) {
      BlanksNewlines(t[1..]);
    }
  }

  lemma {:induction false} WordNewlines(t: string)
    ensures Newlines(DropWord(t)) + 1 >= Newlines(t)
  {
    if IsWord(t) && |t| > 4 {
      assert t == "line" + ([t[4]] + t[5..]);
      NewlinesConcat("line", [t[4]] + t[5..]);
      NewlinesConcat([t[4]], t[5..]);
      assert Newlines([t[4]]) <= 1 by {
        assert [t[4]][1..] == [];
      }
      NewlinesIn("line");
    } else if IsWord(t) {
      assert t == "line";
      NewlinesIn("line");
    }
  }

  /** Two ends of lines are enough. */
  lemma {:induction false} SettledByTwo(u: string)
    requires Newlines(u) >= 2
    ensures Settled(u)
  {
    hide DropBlanks, DropWord;
    NewlinesIn(u);
    if u[0] == '#' {
      var v := DropBlanks(u[1..]);
      BlanksNewlines(u[1..]);
      WordNewlines(v);
      NewlinesIn(DropWord(v));
    }
  }

  lemma {:induction false} SpacesNoBare(t: string)
    requires NoBareLine(t)
    ensures NoBareLine(DropSpaces(t))
  {
    hide Bare;
    if t != [] && IsSpace(t[0]) && t[0] != '\n' {
      SpacesNoBare(t[1..]);
    }
  }

  lemma {:induction false} LaterNoBare(t: string, n: nat)
    requires NoBareLine(t) && n <= |t|
    ensures NoBareLine(t[n..])
  {
    hide Bare;
    if n > 0 {
      LaterNoBare(t[1..], n - 1);
      assert t[1..][n - 1..] == t[n..];
    } else {
      assert t[0..] == t;
    }
  }

  lemma {:induction false} BareLocal(u: string, y: string)
    requires '\n' in u
    ensures Bare(u) ==> Bare(u + y)
  {
    hide DropBlanks;
    if u[0] == '#' {
      assert (u + y)[1..] == u[1..] + y;
      BlanksLocal(u[1..], y);
    }
  }

  lemma {:induction false} EarlierNoBare(x: string, y: string)
    requires Ended(x) && NoBareLine(x + y)
    ensures NoBareLine(x)
  {
    hide Bare;
    if x != [] {
      assert '\n' in x && (x + y)[1..] == x[1..] + y;
      BareLocal(x, y);
      EarlierNoBare(x[1..], y);
    }
  }

  lemma {:induction false} KindLocal(x: string, y: string)
    requires '\n' in x && Settled(DropSpaces(x))
    ensures KindOf(x + y) == KindOf(x)
  {
    hide DropSpaces, LineStatement, Settled;
    SpacesLocal(x, y);
    var v := DropSpaces(x);
    StatementLocal(v, y);
    if v[0] == '}' {
      assert (v + y)[1..] == v[1..] + y;
      SpacesLocal(v[1..], y);
    }
  }

  lemma {:induction false} KindLocalNoBare(x: string, y: string)
    requires '\n' in x && NoBareLine(x)
    ensures KindOf(x + y) == KindOf(x)
  {
    hide DropSpaces, KindOf, Bare;
    SpacesLocal(x, y);
    SpacesNoBare(x);
    SettledIfNotBare(DropSpaces(x));
    KindLocal(x, y);
  }

  lemma {:induction false} KindLocalTwo(x: string, y: string)
    requires Newlines(x) >= 2
    ensures KindOf(x + y) == KindOf(x)
  {
    hide DropSpaces, KindOf, Settled;
    NewlinesIn(x);
    SpacesNewlines(x);
    SettledByTwo(DropSpaces(x));
    KindLocal(x, y);
  }

  /** Whether a line is a lone brace is seen from the line alone. */
  lemma {:induction false} BraceLocal(x: string, y: string)
    requires '\n' in x
    ensures KindOf(x + y) == Brace <==> KindOf(x) == Brace
  {
    hide DropSpaces, LineStatement;
    SpacesLocal(x, y);
    var v := DropSpaces(x);
    NotAStatement(v);
    NotAStatement(v + y);
    if v[0] == '}' {
      assert (v + y)[1..] == v[1..] + y;
      SpacesLocal(v[1..], y);
    }
  }

  lemma {:induction false} NotAStatement(v: string)
    ensures v != [] && v[0] == '}' ==> LineStatement(v).None?
  {
  }

  // ----- Skipping what does not matter ------------------------------------------------------------

  function Inc(iLine: nat): nat {
    (iLine + 1) % WIDTH
  }

  /** One side's state: the text that is left, the line number, the file, and the lone braces so far. */
  datatype Skip = Skip(text: string, iLine: nat, file: Option<string>, cCurlyBraces: nat)

  /** One round of the loop over one text. */
  function SkipStep(s: Skip): (r: Skip)
    requires s.text != [] && KindOf(s.text) != Significant
    ensures |r.text| < |s.text|
  {
    var v := DropSpaces(s.text);
    match KindOf(s.text)
    case Blank => if v == [] then s.(text := []) else s.(text := v[1..], iLine := Inc(s.iLine))
    case Statement => var l := LineStatement(v).value; Skip(DropLine(v), l.iLine, Some(l.file), s.cCurlyBraces)
    case Brace =>
      var w := DropSpaces(v[1..]);
      s.(text := w, iLine := if w == [] then s.iLine else Inc(s.iLine), cCurlyBraces := s.cCurlyBraces + 1)
  }

  /** The loop: it stops in front of a significant line. */
  function SkipFrom(s: Skip): Skip
    decreases |s.text|
  {
    if s.text == [] || KindOf(s.text) == Significant then s else SkipFrom(SkipStep(s))
  }

  lemma {:induction false} LineBehindSpaces(t: string)
    ensures DropLine(t) == DropLine(DropSpaces(t))
  {
    if t != [] && IsSpace(t[0]) && t[0] != '\n' {
      LineBehindSpaces(t[1..]);
    }
  }

  lemma {:induction false} BlankNext(t: string)
    requires t != [] && t[0] == '\n'
    ensures Sig(t) == Sig(t[1..]) && Braces(t) == Braces(t[1..])
  {
    assert DropSpaces(t) == t;
    assert DropLine(t) == t[1..];
    assert [] + Sig(t[1..]) == Sig(t[1..]);
  }

  lemma {:induction false} NewlineOnly(v: string)
    requires v == [] || v[0] == '\n'
    ensures DropLine(v) == if v == [] then [] else v[1..]
  {
  }

  lemma {:induction false} BehindOne(v: string)
    requires v != [] && v[0] != '\n'
    ensures DropLine(v) == DropLine(v[1..])
  {
  }

  lemma {:induction false} SigStep(t: string)
    requires t != [] && KindOf(t) != Significant
    ensures Sig(t) == Sig(DropLine(t))
    ensures Braces(t) == (if KindOf(t) == Brace then 1 else 0) + Braces(DropLine(t))
  {
    hide KindOf, DropLine;
    assert [] + Sig(DropLine(t)) == Sig(DropLine(t));
  }

  lemma {:induction false} BlankStep(s: Skip)
    requires s.text != [] && KindOf(s.text) == Blank
    ensures SkipStep(s).text == DropLine(s.text) && SkipStep(s).cCurlyBraces == s.cCurlyBraces
  {
    hide DropSpaces, DropLine, LineStatement;
    LineBehindSpaces(s.text);
    NewlineOnly(DropSpaces(s.text));
  }

  lemma {:induction false} StatementStep(s: Skip)
    requires s.text != [] && KindOf(s.text) == Statement
    ensures SkipStep(s).text == DropLine(s.text) && SkipStep(s).cCurlyBraces == s.cCurlyBraces
  {
    hide DropSpaces, DropLine, LineStatement;
    LineBehindSpaces(s.text);
  }

  lemma {:induction false} BraceStep(s: Skip)
    requires s.text != [] && KindOf(s.text) == Brace
    ensures Sig(SkipStep(s).text) == Sig(DropLine(s.text)) && Braces(SkipStep(s).text) == Braces(DropLine(s.text))
    ensures SkipStep(s).cCurlyBraces == s.cCurlyBraces + 1
  {
    hide DropSpaces, DropLine, LineStatement, Sig, Braces;
    var v := DropSpaces(s.text);
    var w := DropSpaces(v[1..]);
    LineBehindSpaces(s.text);
    LineBehindSpaces(v[1..]);
    BehindOne(v);
    NewlineOnly(w);
    if w != [] {
      BlankNext(w);
    }
  }

  /** What is skipped is insignificant, and the braces are counted. */
  lemma {:induction false} SkipSound(s: Skip)
    ensures var r := SkipFrom(s);
            && Sig(r.text) == Sig(s.text) && r.cCurlyBraces + Braces(r.text) == s.cCurlyBraces + Braces(s.text)
            && (r.text != [] ==> KindOf(r.text) == Significant)
    decreases |s.text|
  {
    hide KindOf, DropLine, Sig, Braces, SkipStep;
    if s.text != [] && KindOf(s.text) != Significant {
      SigStep(s.text);
      match KindOf(s.text) {
        case Blank => BlankStep(s);
        case Statement => StatementStep(s);
        case Brace => BraceStep(s);
      }
      SkipSound(SkipStep(s));
    }
  }

  // ----- Where a line comes from --------------------------------------------------------------------

  /** Nothing but blanks in front of i on its line. */
  predicate BlankBefore(a: string, i: nat)
    requires i <= |a|
  {
    i == 0 || a[i - 1] == '\n' || (IsBlank(a[i - 1]) && BlankBefore(a, i - 1))
  }

  /** kOCEntryFindFileStatement: the last line statement that starts among the first n characters, the
      ends of the lines counted on the way. */
  function FindFile(a: string, n: nat, iLine: nat): Option<Location>
    requires n <= |a|
  {
    if n == 0 then None
    else if a[n - 1] == '\n' then FindFile(a, n - 1, Inc(iLine))
    else
      var l := LineStatement(a[n - 1..]);
      if BlankBefore(a, n - 1) && l.Some? then Some(l.value.(iLine := (iLine + l.value.iLine + (WIDTH - 1)) % WIDTH))
      else FindFile(a, n - 1, iLine)
  }

  function Head(t: string): char {
    if t == [] then NUL else t[0]
  }

  /** The names are the same up to the end of the line. */
  predicate SameName(t: string, u: string) {
    Head(t) == Head(u) && (t == [] || u == [] || t[0] == '\n' || t[0] == NUL || SameName(t[1..], u[1..]))
  }

  predicate SameLocation(l1: Option<Location>, l2: Option<Location>) {
    (l1.None? && l2.None?) ||
    (l1.Some? && l2.Some? && l1.value.iLine == l2.value.iLine && SameName(l1.value.file, l2.value.file))
  }

  /** The location after skipping from the line at mismatch on. */
  function Where(a: string, mismatch: nat, s: Skip): Option<Location>
    requires mismatch < |a|
  {
    if s.file.Some? then Some(Location(s.iLine, s.file.value)) else FindFile(a, mismatch + 1, s.iLine)
  }

  // ----- The comparison -----------------------------------------------------------------------------

  const BLOCK: nat := 4096

  function LineStart(a: string, p: nat): (r: nat)
    requires p <= |a|
    ensures r <= p && '\n' !in a[r..p] && (r == 0 || a[r - 1] == '\n')
  {
    if p == 0 || a[p - 1] == '\n' then p
    else
      assert a[LineStart(a, p - 1)..p] == a[LineStart(a, p - 1)..p - 1] + [a[p - 1]];
      LineStart(a, p - 1)
  }

  /** One round of the comparison: it is over, or it goes on at two positions. */
  datatype Outcome = Done(fMatch: bool) | Go(psz1: nat, psz2: nat)

  /** Behind a difference at p1 and p2. */
  function Resume(a: string, b: string, p1: nat, p2: nat): (r: Outcome)
    requires p1 <= |a| && p2 <= |b| && p1 - LineStart(a, p1) <= p2
    ensures r.Go? ==> r.psz1 <= |a| && r.psz2 <= |b|
  {
    var L1 := LineStart(a, p1);
    var L2 := p2 - (p1 - L1);
    var s1, s2 := SkipFrom(Skip(a[L1..], 0, None, 0)), SkipFrom(Skip(b[L2..], 0, None, 0));
    SkipShortens(Skip(a[L1..], 0, None, 0));
    SkipShortens(Skip(b[L2..], 0, None, 0));
    if s1.cCurlyBraces != s2.cCurlyBraces then Done(false)
    else if s1.text == [] || s2.text == [] then Done(s1.text == [] && s2.text == [])
    else
      var n := LineLen(s1.text);
      if n > |s2.text| || s1.text[..n] != s2.text[..n] || !SameLocation(Where(a, L1, s1), Where(b, L2, s2))
        then Done(false)
      else Go(|a| - |s1.text| + n, |b| - |s2.text| + n)
  }

  lemma {:induction false} SkipShortens(s: Skip)
    ensures |SkipFrom(s).text| <= |s.text| && SkipFrom(s).text == s.text[|s.text| - |SkipFrom(s).text|..]
    decreases |s.text|
  {
    hide SkipStep, KindOf;
    if s.text != [] && KindOf(s.text) != Significant {
      StepSuffix(s);
      SkipShortens(SkipStep(s));
      var t, u, n := s.text, SkipStep(s).text, |SkipFrom(s).text|;
      assert u[|u| - n..] == t[|t| - n..];
    }
  }

  lemma {:induction false} SpacesSuffix(t: string)
    ensures DropSpaces(t) == t[|t| - |DropSpaces(t)|..]
  {
    if t != [] && IsSpace(t[0]) && t[0] != '\n' {
      SpacesSuffix(t[1..]);
      var n := |DropSpaces(t)|;
      assert t[1..][|t| - 1 - n..] == t[|t| - n..];
    }
  }

  lemma {:induction false} StepSuffix(s: Skip)
    requires s.text != [] && KindOf(s.text) != Significant
    ensures var r := SkipStep(s).text; |r| < |s.text| && r == s.text[|s.text| - |r|..]
  {
    hide DropSpaces, LineStatement, LineLen;
    var t := s.text;
    var v := DropSpaces(t);
    SpacesSuffix(t);
    if v != [] {
      SpacesSuffix(v[1..]);
      var w := DropSpaces(v[1..]);
      assert v[1..] == t[|t| - |v| + 1..];
      assert w == t[|t| - |w|..];
      assert DropLine(v) == t[|t| - |v| + LineLen(v)..];
    }
  }

  // ----- Lines that two texts share ---------------------------------------------------------------

  /** The lines of x that are significant with z behind them, and the lone braces. */
  function SigOf(x: string, z: string): seq<string>
    decreases |x|
  {
    if x == [] then []
    else (if KindOf(x + z) == Significant then [x[..LineLen(x)]] else []) + SigOf(DropLine(x), z)
  }

  function BracesOf(x: string, z: string): nat
    decreases |x|
  {
    if x == [] then 0 else (if KindOf(x + z) == Brace then 1 else 0) + BracesOf(DropLine(x), z)
  }

  lemma {:induction false} SigSplit(x: string, z: string)
    requires Ended(x)
    ensures Sig(x + z) == SigOf(x, z) + Sig(z) && Braces(x + z) == BracesOf(x, z) + Braces(z)
    decreases |x|
  {
    hide KindOf, LineLen, Sig, Braces, SigOf, BracesOf, Ended, DropLine;
    if x == [] {
      assert x + z == z;
      NothingSplit(z);
    } else {
      FirstLineOf(x, z);
      SigSplit(DropLine(x), z);
      SigOfStep(x, z);
      SigSteps(x + z);
      assert forall l: seq<string> :: l + (SigOf(DropLine(x), z) + Sig(z)) == l + SigOf(DropLine(x), z) + Sig(z);
    }
  }

  lemma {:induction false} NothingSplit(z: string)
    ensures SigOf([], z) + Sig(z) == Sig(z) && BracesOf([], z) == 0
  {
    hide Sig;
  }

  lemma {:induction false} FirstLineOf(x: string, z: string)
    requires x != [] && Ended(x)
    ensures Ended(DropLine(x)) && (x + z)[..LineLen(x + z)] == x[..LineLen(x)] && DropLine(x + z) == DropLine(x) + z
  {
    hide LineLen;
    assert '\n' in x;
    LineLenLocal(x, z);
  }

  lemma {:induction false} SigOfStep(x: string, z: string)
    requires x != []
    ensures SigOf(x, z) == (if KindOf(x + z) == Significant then [x[..LineLen(x)]] else []) + SigOf(DropLine(x), z)
    ensures BracesOf(x, z) == (if KindOf(x + z) == Brace then 1 else 0) + BracesOf(DropLine(x), z)
  {
    hide KindOf, LineLen, DropLine;
  }

  lemma {:induction false} SigSteps(t: string)
    requires t != []
    ensures Sig(t) == (if KindOf(t) == Significant then [t[..LineLen(t)]] else []) + Sig(DropLine(t))
    ensures Braces(t) == (if KindOf(t) == Brace then 1 else 0) + Braces(DropLine(t))
  {
    hide KindOf, LineLen, DropLine;
  }

  /** Whole lines do not depend on more than the line behind them. */
  lemma {:induction false} SigOfLocal(x: string, l: string, y: string)
    requires Ended(x) && '\n' in l
    ensures SigOf(x, l + y) == SigOf(x, l) && BracesOf(x, l + y) == BracesOf(x, l)
    decreases |x|
  {
    hide KindOf, LineLen;
    if x != [] {
      assert '\n' in x;
      NewlinesIn(x);
      NewlinesIn(l);
      NewlinesConcat(x, l);
      KindLocalTwo(x + l, y);
      assert x + l + y == x + (l + y);
      LineLenLocal(x, []);
      assert Ended(x[LineLen(x)..]);
      SigOfLocal(DropLine(x), l, y);
    }
  }

  /** Where the last of some whole lines starts. */
  function LastAt(x: string): (r: nat)
    requires x != []
    ensures r < |x|
  {
    LineStart(x, |x| - 1)
  }

  /** A line that both texts share is significant in the second, but not in the first with t behind it. */
  function Lost(x: string, t: string, u: string): nat {
    if x != [] && KindOf(x[LastAt(x)..] + t) != Significant && KindOf(x[LastAt(x)..] + u) == Significant then 1 else 0
  }

  /** The same lone braces; all significant lines are paired but n1 that only the second text has, and n2 that
      only the first has, and these do not make up for each other. */
  predicate Accounted(t: string, u: string, n1: nat, n2: nat) {
    Braces(t) == Braces(u) && |Sig(t)| + n1 == |Sig(u)| + n2 && (n1 == n2 == 0 <==> Sig(t) == Sig(u))
  }

  lemma {:induction false} LineLenMore(t: string, q: nat)
    requires q < |t| && '\n' !in t[..q]
    ensures LineLen(t) > q
  {
    if q > 0 {
      assert t[0] in t[..q] && forall k :: 0 <= k < q - 1 ==> t[1..][k] == t[..q][k + 1];
      LineLenMore(t[1..], q - 1);
    }
  }

  lemma {:induction false} LastIsLine(x: string)
    requires x != [] && Ended(x)
    ensures var l := x[LastAt(x)..]; l != [] && '\n' in l && LineLen(l) == |l| && DropLine(l) == []
    ensures Ended(x[..LastAt(x)])
  {
    hide LineLen;
    var q := LastAt(x);
    var l := x[q..];
    assert l[..|l| - 1] == x[q..|x| - 1];
    LineLenMore(l, |l| - 1);
    assert l[|l| - 1] == '\n';
  }

  lemma {:induction false} OneLineSplit(l: string, t: string)
    requires l != [] && '\n' in l && LineLen(l) == |l| && DropLine(l) == []
    ensures Sig(l + t) == (if KindOf(l + t) == Significant then [l] else []) + Sig(t)
    ensures Braces(l + t) == (if KindOf(l + t) == Brace then 1 else 0) + Braces(t)
  {
    hide KindOf, LineLen;
    LineLenLocal(l, t);
    assert (l + t)[..|l|] == l && (l + t)[|l|..] == t;
  }

  lemma {:induction false} SpacesKeepEnd(t: string)
    requires Ended(t) && t != []
    ensures DropSpaces(t) != [] && Ended(DropSpaces(t))
  {
    if IsSpace(t[0]) && t[0] != '\n' {
      SpacesKeepEnd(t[1..]);
    }
  }

  lemma {:induction false} BlanksKeepEnd(t: string)
    requires Ended(t) && t != []
    ensures DropBlanks(t) != [] && Ended(DropBlanks(t))
  {
    if IsBlank(t[0]) {
      BlanksKeepEnd(t[1..]);
    }
  }

  lemma {:induction false} EndsIn(w: string, k: nat)
    requires k < |w| && w[|w| - 1] == '\n'
    ensures '\n' in w[k..]
  {
    assert w[k..][|w| - 1 - k] == '\n';
  }

  lemma {:induction false} BareIsWord(v: string)
    requires Bare(v) && Ended(v) && Newlines(v) == 1
    ensures '\n' in v[1..] && DropBlanks(v[1..]) == "line\n"
  {
    hide DropBlanks, Newlines;
    var w := DropBlanks(v[1..]);
    assert v == ['#'] + v[1..];
    NewlinesConcat(['#'], v[1..]);
    NewlinesIn(['#']);
    NewlinesIn(v[1..]);
    BlanksKeepEnd(v[1..]);
    BlanksNewlines(v[1..]);
    if |w| > 5 {
      EndsIn(w, 5);
    }
    assert w == w[..5] + w[5..];
    NewlinesConcat(w[..5], w[5..]);
    NewlinesIn(w[..5]);
    NewlinesIn(w[5..]);
    assert w[..5][4] == '\n';
    assert w == "line\n";
  }

  /** Behind a bare line the number is looked for in what follows. */
  lemma {:induction false} BareStatement(v: string, y: string)
    requires Bare(v) && Ended(v) && Newlines(v) == 1
    ensures LineStatement(v + y).Some? <==> NumberAndFile(y).Some?
  {
    hide NumberAndFile, DropBlanks, Newlines, Bare;
    BareIsHash(v);
    BareIsWord(v);
    assert (v + y)[1..] == v[1..] + y;
    BlanksLocal(v[1..], y);
    assert ("line\n" + y)[5..] == y;
  }

  lemma {:induction false} BareIsHash(v: string)
    requires Bare(v)
    ensures v[0] == '#'
  {
    hide DropBlanks;
  }

  lemma {:induction false} LastHasOneEnd(x: string)
    requires x != [] && Ended(x)
    ensures var l := x[LastAt(x)..]; l != [] && Ended(l) && Newlines(l) == 1
  {
    hide Newlines;
    var q := LastAt(x);
    var l := x[q..];
    assert l == x[q..|x| - 1] + ['\n'];
    NewlinesConcat(x[q..|x| - 1], ['\n']);
    NewlinesIn(x[q..|x| - 1]);
    OneNewline();
  }

  lemma {:induction false} OneNewline()
    ensures Newlines(['\n']) == 1
  {
    assert ['\n'][1..] == [];
  }

  /** What a line is with y behind it, if it is not bare and if it is. */
  lemma {:induction false} KindOfLast(l: string, y: string)
    requires l != [] && Ended(l) && Newlines(l) == 1
    ensures !Bare(DropSpaces(l)) ==> KindOf(l + y) == KindOf(l)
    ensures Bare(DropSpaces(l)) ==> KindOf(l + y) == if NumberAndFile(y).Some? then Statement else Significant
  {
    hide DropSpaces, LineStatement, NumberAndFile, Newlines, Bare, Settled;
    var v := DropSpaces(l);
    NewlinesIn(l);
    SpacesLocal(l, y);
    SpacesNewlines(l);
    SpacesKeepEnd(l);
    NewlinesIn(v);
    if Bare(v) {
      BareIsHash(v);
      BareStatement(v, y);
    } else {
      SettledIfNotBare(v);
      KindLocal(l, y);
    }
  }

  lemma {:induction false} Differ(c: seq<string>, x: seq<string>, l: string, y: seq<string>)
    requires x != [] && x[0] != l
    ensures c + x != c + [l] + y
  {
    var i := |c|;
    assert (c + x)[i] == x[0] && (c + [l] + y)[i] == l;
  }

  lemma {:induction false} NumberIsCode(t: string)
    requires NumberAndFile(t).Some?
    ensures t != [] && IsDigit(t[0]) && KindOf(t) == Significant
  {
    assert DropSpaces(t) == t;
  }

  lemma {:induction false} HashInFront(l: string)
    requires DropSpaces(l) != [] && DropSpaces(l)[0] == '#'
    ensures l != [] && !IsDigit(l[0])
  {
  }

  /** Where a bare line is lost, a line with a number takes its place: the lists of significant lines differ. */
  lemma {:induction false} LossShows(c: seq<string>, l: string, t: string, u: string)
    requires l != [] && Ended(l) && Newlines(l) == 1 && KindOf(l + t) != Significant && KindOf(l + u) == Significant
    ensures c + Sig(t) != c + [l] + Sig(u)
  {
    hide KindOf, Bare, NumberAndFile, DropSpaces, Newlines, LineLen, Sig;
    KindOfLast(l, t);
    KindOfLast(l, u);
    NumberIsCode(t);
    BareIsHash(DropSpaces(l));
    BareNonempty(DropSpaces(l));
    HashInFront(l);
    SigUnfold(t);
    assert Sig(t)[0][0] == t[0];
    Differ(c, Sig(t), l, Sig(u));
  }

  lemma {:induction false} BareNonempty(v: string)
    requires Bare(v)
    ensures v != []
  {
    hide DropBlanks;
  }

  /** Whole lines at the head of both texts: only the last of them can be taken differently. */
  lemma {:induction false} SharedLines(x: string, t: string, u: string, n1: nat, n2: nat)
    requires Ended(x) && Accounted(t, u, n1, n2)
    ensures Accounted(x + t, x + u, n1 + Lost(x, t, u), n2 + Lost(x, u, t))
  {
    hide Sig, Braces, KindOf, LineLen, LastAt;
    if x == [] {
      assert x + t == t && x + u == u;
    } else {
      var f, l := x[..LastAt(x)], x[LastAt(x)..];
      LastIsLine(x);
      assert x + t == f + (l + t) && x + u == f + (l + u);
      SigSplit(f, l + t);
      SigSplit(f, l + u);
      SigOfLocal(f, l, t);
      SigOfLocal(f, l, u);
      OneLineSplit(l, t);
      OneLineSplit(l, u);
      BraceLocal(l, t);
      BraceLocal(l, u);
      LastHasOneEnd(x);
      var c := SigOf(f, l);
      assert forall r: seq<string> :: c + ([l] + r) == c + [l] + r;
      assert [] + Sig(t) == Sig(t) && [] + Sig(u) == Sig(u);
      if (KindOf(l + t) == Significant) == (KindOf(l + u) == Significant) {
        SamePrefix(c, Sig(t), Sig(u));
        SamePrefix(c + [l], Sig(t), Sig(u));
      } else if KindOf(l + u) == Significant {
        LossShows(c, l, t, u);
      } else {
        LossShows(c, l, u, t);
      }
    }
  }

  lemma {:induction false} SamePrefix<T>(c: seq<T>, x: seq<T>, y: seq<T>)
    ensures c + x == c + y <==> x == y
  {
    if c + x == c + y {
      assert x == (c + x)[|c|..] && y == (c + y)[|c|..];
    }
  }

  /** Whole lines at the head can be looked at on their own, unless their last one depends on what follows. */
  lemma {:induction false} SigConcat(x: string, y: string)
    requires Ended(x) && x != []
    ensures var l := x[LastAt(x)..];
            Sig(x + y) == Sig(x) + Sig(y) <==> (KindOf(l + y) == Significant <==> KindOf(l) == Significant)
  {
    hide Sig, Braces, KindOf, LineLen, LastAt, SigOf;
    var f, l := x[..LastAt(x)], x[LastAt(x)..];
    LastIsLine(x);
    assert x == f + l && x + y == f + (l + y) && l + [] == l;
    SigSplit(f, l + y);
    SigSplit(f, l);
    SigOfLocal(f, l, y);
    OneLineSplit(l, y);
    OneLineSplit(l, []);
    NoCode();
    if (KindOf(l + y) == Significant) != (KindOf(l) == Significant) {
      assert |Sig(x + y)| != |Sig(x) + Sig(y)|;
    }
  }

  /** A line is lost exactly if it is a bare "#line", and only in the first text a number and a file follow. */
  lemma {:induction false} LostExactly(x: string, t: string, u: string)
    requires x != [] && Ended(x)
    ensures Lost(x, t, u) == 1 <==> Bare(DropSpaces(x[LastAt(x)..])) && NumberAndFile(t).Some? && NumberAndFile(u).None?
  {
    hide KindOf, LastAt, Bare, NumberAndFile, DropSpaces, Newlines;
    var l := x[LastAt(x)..];
    LastHasOneEnd(x);
    KindOfLast(l, t);
    KindOfLast(l, u);
  }

  lemma {:induction false} NothingLost(x: string, t: string, u: string)
    requires Ended(x) && NoBareLine(x)
    ensures Lost(x, t, u) == 0
  {
    hide KindOf, LastAt, NoBareLine;
    if x != [] {
      var l := x[LastAt(x)..];
      LastIsLine(x);
      LaterNoBare(x, LastAt(x));
      KindLocalNoBare(l, t);
      KindLocalNoBare(l, u);
    }
  }

  // ----- A match means the same code -----------------------------------------------------------------

  /** Behind s1 and s2, where lines start, nothing has been different yet. */
  ghost predicate Synced(a: string, b: string, s1: nat, s2: nat, p1: nat, p2: nat) {
    s1 <= p1 <= |a| && s2 <= p2 <= |b| && a[s1..p1] == b[s2..p2] && (s1 == 0 || a[s1 - 1] == '\n')
  }

  lemma {:induction false} LineNotBefore(a: string, s: nat, p: nat)
    requires s <= p <= |a| && (s == 0 || a[s - 1] == '\n')
    ensures s <= LineStart(a, p)
  {
    var L := LineStart(a, p);
    forall k | L <= k < p ensures a[k] != '\n' {
      assert a[k] == a[L..p][k - L];
    }
  }

  lemma {:induction false} SyncedLine(a: string, b: string, s1: nat, s2: nat, p1: nat, p2: nat)
    requires Synced(a, b, s1, s2, p1, p2)
    ensures var L1 := LineStart(a, p1);
            var L2 := p2 - (p1 - L1);
            && s1 <= L1 && s2 <= L2 && a[s1..L1] == b[s2..L2] && Ended(a[s1..L1])
            && a[s1..] == a[s1..L1] + a[L1..] && b[s2..] == a[s1..L1] + b[L2..]
  {
    hide LineStart;
    var L1 := LineStart(a, p1);
    LineNotBefore(a, s1, p1);
    assert |a[s1..p1]| == |b[s2..p2]|;
    SliceOfSlice(a, s1, p1, 0, L1 - s1);
    SliceOfSlice(b, s2, p2, 0, L1 - s1);
  }

  lemma {:induction false} SharedNoBare(a: string, s: nat, L: nat)
    requires s <= L <= |a| && NoBareLine(a) && Ended(a[s..L])
    ensures NoBareLine(a[s..L])
  {
    LaterNoBare(a, s);
    assert a[s..] == a[s..L] + a[L..];
    EarlierNoBare(a[s..L], a[L..]);
  }

  lemma {:induction false} FirstLine(t: string)
    requires t != [] && Ended(t) && KindOf(t) == Significant
    ensures var n := LineLen(t); t[n - 1] == '\n' && Sig(t) == [t[..n]] + Sig(t[n..]) && Braces(t) == Braces(t[n..])
  {
    hide KindOf, LineLen;
    assert '\n' in t && t + [] == t;
    LineLenLocal(t, []);
  }

  lemma {:induction false} SameFirstLine(t: string, u: string, n1: nat, n2: nat)
    requires t != [] && Ended(t) && KindOf(t) == Significant && KindOf(u) == Significant
    requires LineLen(t) <= |u| && t[..LineLen(t)] == u[..LineLen(t)]
    ensures var n := LineLen(t); Accounted(t[n..], u[n..], n1, n2) ==> Accounted(t, u, n1, n2)
  {
    hide KindOf, LineLen, Sig, Braces;
    var n := LineLen(t);
    var line := t[..n];
    FirstLine(t);
    assert line[n - 1] == '\n' && '\n' in line;
    assert t == line + t[n..] && u == line + u[n..];
    LineLenLocal(line, t[n..]);
    LineLenLocal(line, u[n..]);
    SigUnfold(u);
    SamePrefix([line], Sig(t[n..]), Sig(u[n..]));
  }

  lemma {:induction false} SigUnfold(u: string)
    requires u != [] && KindOf(u) == Significant
    ensures var n := LineLen(u); Sig(u) == [u[..n]] + Sig(u[n..]) && Braces(u) == Braces(u[n..])
  {
    hide KindOf, LineLen;
  }

  lemma {:induction false} GoesOn(a: string, b: string, t: string, u: string, n1: nat, n2: nat)
    requires t != [] && |t| <= |a| && t == a[|a| - |t|..] && |u| <= |b| && u == b[|b| - |u|..] && Ended(a)
    requires KindOf(t) == Significant && KindOf(u) == Significant && LineLen(t) <= |u|
    requires t[..LineLen(t)] == u[..LineLen(t)]
    ensures var n := LineLen(t);
            var q1, q2 := |a| - |t| + n, |b| - |u| + n;
            q1 > 0 && a[q1 - 1] == '\n' && (Accounted(a[q1..], b[q2..], n1, n2) ==> Accounted(t, u, n1, n2))
  {
    hide KindOf, LineLen, Accounted;
    var n := LineLen(t);
    var q1, q2 := |a| - |t|, |b| - |u|;
    assert t[n..] == a[q1 + n..] && u[n..] == b[q2 + n..];
    assert Ended(t);
    FirstLine(t);
    SameFirstLine(t, u, n1, n2);
  }

  /** What the outcome says of everything behind the last difference. */
  lemma {:induction false} ResumeMatches(a: string, b: string, p1: nat, p2: nat, n1: nat, n2: nat)
    requires p1 <= |a| && p2 <= |b| && p1 - LineStart(a, p1) <= p2 && Ended(a)
    ensures var L1 := LineStart(a, p1);
            var L2 := p2 - (p1 - L1);
            var r := Resume(a, b, p1, p2);
            && (r == Done(true) ==> Accounted(a[L1..], b[L2..], 0, 0))
            && (r.Go? && Accounted(a[r.psz1..], b[r.psz2..], n1, n2) ==> Accounted(a[L1..], b[L2..], n1, n2))
            && (r.Go? ==> r.psz1 > 0 && a[r.psz1 - 1] == '\n')
  {
    hide Sig, Braces, KindOf, LineLen, SkipFrom, Where, SameLocation, LineStart, Ended;
    var L1 := LineStart(a, p1);
    var L2 := p2 - (p1 - L1);
    var i1, i2 := Skip(a[L1..], 0, None, 0), Skip(b[L2..], 0, None, 0);
    var s1, s2 := SkipFrom(i1), SkipFrom(i2);
    SkipSound(i1);
    SkipSound(i2);
    NoCode();
    if Resume(a, b, p1, p2).Go? {
      SkipShortens(i1);
      SkipShortens(i2);
      assert s1.text == a[|a| - |s1.text|..] && s2.text == b[|b| - |s2.text|..];
      GoesOn(a, b, s1.text, s2.text, n1, n2);
    }
  }

  lemma {:induction false} NoCode()
    ensures Sig([]) == [] && Braces([]) == 0
  {
  }

  /** The significant lines that only the second text has, and those that only the first has, because the line
      in front of a difference is taken differently in the two. */
  ghost function LostAt(a: string, b: string, s1: nat, s2: nat, p1: nat, p2: nat): (nat, nat) {
    if !Synced(a, b, s1, s2, p1, p2) then (0, 0)
    else
      var L1 := LineStart(a, p1);
      var L2 := p2 - (p1 - L1);
      SyncedLine(a, b, s1, s2, p1, p2);
      (Lost(a[s1..L1], a[L1..], b[L2..]), Lost(a[s1..L1], b[L2..], a[L1..]))
  }

  lemma {:induction false} LostAtIs(a: string, b: string, s1: nat, s2: nat, p1: nat, p2: nat)
    requires Synced(a, b, s1, s2, p1, p2)
    ensures var L1 := LineStart(a, p1);
            var L2 := p2 - (p1 - L1);
            && s1 <= L1 <= |a| && L2 <= |b|
            && LostAt(a, b, s1, s2, p1, p2) == (Lost(a[s1..L1], a[L1..], b[L2..]), Lost(a[s1..L1], b[L2..], a[L1..]))
  {
    hide LineStart, Lost;
    SyncedLine(a, b, s1, s2, p1, p2);
  }

  /** The outcome behind a difference, for everything behind the last place where lines started. */
  lemma {:induction false} ResumeSound(a: string, b: string, s1: nat, s2: nat, p1: nat, p2: nat, n1: nat, n2: nat)
    requires Synced(a, b, s1, s2, p1, p2) && Ended(a)
    requires p1 - LineStart(a, p1) <= p2
    ensures var r := Resume(a, b, p1, p2);
            var (m1, m2) := LostAt(a, b, s1, s2, p1, p2);
            && (r == Done(true) ==> Accounted(a[s1..], b[s2..], m1, m2))
            && (r.Go? && Accounted(a[r.psz1..], b[r.psz2..], n1, n2) ==> Accounted(a[s1..], b[s2..], n1 + m1, n2 + m2))
  {
    hide *;
    SyncedBounds(a, b, s1, s2, p1, p2);
    var L1 := LineStart(a, p1);
    var L2 := p2 - (p1 - L1);
    SyncedLine(a, b, s1, s2, p1, p2);
    LostAtIs(a, b, s1, s2, p1, p2);
    ResumeMatches(a, b, p1, p2, n1, n2);
    if Accounted(a[L1..], b[L2..], 0, 0) {
      SharedLines(a[s1..L1], a[L1..], b[L2..], 0, 0);
    }
    if Accounted(a[L1..], b[L2..], n1, n2) {
      SharedLines(a[s1..L1], a[L1..], b[L2..], n1, n2);
    }
  }

  lemma {:induction false} NothingLostAt(a: string, b: string, s1: nat, s2: nat, p1: nat, p2: nat)
    requires Synced(a, b, s1, s2, p1, p2) && (NoBareLine(a) || NoBareLine(b))
    ensures LostAt(a, b, s1, s2, p1, p2) == (0, 0)
  {
    hide LineStart, NoBareLine, Lost;
    var L1 := LineStart(a, p1);
    var L2 := p2 - (p1 - L1);
    SyncedLine(a, b, s1, s2, p1, p2);
    LostAtIs(a, b, s1, s2, p1, p2);
    if NoBareLine(a) {
      SharedNoBare(a, s1, L1);
    } else {
      SharedNoBare(b, s2, L2);
    }
    NothingLost(a[s1..L1], a[L1..], b[L2..]);
    NothingLost(a[s1..L1], b[L2..], a[L1..]);
  }

  // ----- It ends --------------------------------------------------------------------------------------

  /** If anything is skipped, then at least a line. */
  lemma {:induction false} SkipPastLine(s: Skip)
    ensures SkipFrom(s) == s || |SkipFrom(s).text| <= |DropLine(s.text)|
  {
    hide DropSpaces, DropLine, LineStatement, KindOf;
    if s.text != [] && KindOf(s.text) != Significant {
      var r := SkipStep(s);
      SkipShortens(r);
      match KindOf(s.text) {
        case Blank => BlankStep(s);
        case Statement => StatementStep(s);
        case Brace =>
          BraceEnds(s);
          if r.text != [] {
            BlankStep(r);
            SkipShortens(SkipStep(r));
          }
      }
    }
  }

  lemma {:induction false} BraceEnds(s: Skip)
    requires s.text != [] && KindOf(s.text) == Brace
    ensures var w := SkipStep(s).text;
            w != [] ==> w[0] == '\n' && KindOf(w) == Blank && DropLine(w) == DropLine(s.text)
  {
    hide DropLine, LineStatement;
    var v := DropSpaces(s.text);
    LineBehindSpaces(s.text);
    LineBehindSpaces(v[1..]);
    BehindOne(v);
  }

  lemma {:induction false} ResumeGoes(a: string, b: string, p1: nat, p2: nat)
    requires p1 <= |a| && p2 <= |b| && p1 - LineStart(a, p1) <= p2
    ensures var r := Resume(a, b, p1, p2);
            var t := SkipFrom(Skip(a[LineStart(a, p1)..], 0, None, 0)).text;
            r.Go? ==> t != [] && |t| <= |a| && r.psz1 == |a| - |t| + LineLen(t)
  {
    hide SkipFrom, LineLen, Where, SameLocation, LineStart;
    SkipShortens(Skip(a[LineStart(a, p1)..], 0, None, 0));
  }

  lemma {:induction false} LineHolds(a: string, p: nat)
    requires p <= |a| && Ended(a)
    ensures p < |a| ==> LineStart(a, p) + LineLen(a[LineStart(a, p)..]) > p
    ensures p == |a| ==> a[LineStart(a, p)..] == []
  {
    hide LineLen;
    if p < |a| {
      var L := LineStart(a, p);
      assert a[L..][..p - L] == a[L..p];
      LineLenMore(a[L..], p - L);
    }
  }

  /** Going on takes the comparison past the difference. */
  lemma {:induction false} ResumeProgress(a: string, b: string, p1: nat, p2: nat)
    requires p1 <= |a| && p2 <= |b| && p1 - LineStart(a, p1) <= p2 && Ended(a)
    ensures var r := Resume(a, b, p1, p2); r.Go? ==> p1 < r.psz1
  {
    hide KindOf, LineLen, SkipFrom, LineStart, Resume;
    var i1 := Skip(a[LineStart(a, p1)..], 0, None, 0);
    ResumeGoes(a, b, p1, p2);
    LineHolds(a, p1);
    SkipShortens(i1);
    SkipPastLine(i1);
  }

  // ----- Text that does not end with a newline ----------------------------------------------------------

  lemma {:induction false} SameNameItself(t: string)
    ensures SameName(t, t)
  {
    if t != [] {
      SameNameItself(t[1..]);
    }
  }

  lemma {:induction false} OneLineOnly(t: string)
    requires '\n' !in t
    ensures LineLen(t) == |t| && DropLine(t) == []
  {
    if t != [] {
      OneLineOnly(t[1..]);
    }
  }

  /** Two identical texts, both read to their ends: they match, unless a significant line is not terminated;
      then the comparison takes that line up again. */
  lemma {:induction false} SameTextsAtTheEnd(a: string)
    ensures Resume(a, a, |a|, |a|) ==
            if KindOf(a[LineStart(a, |a|)..]) == Significant then Go(|a|, |a|) else Done(true)
  {
    hide KindOf, LineLen, Where, DropLine, LineStart, SkipStep;
    var L := LineStart(a, |a|);
    var s := Skip(a[L..], 0, None, 0);
    assert a[L..|a|] == a[L..];
    OneLineOnly(s.text);
    SkipPastLine(s);
    if KindOf(s.text) == Significant {
      if s.text == [] {
        NothingIsBlank();
      }
      var l := Where(a, L, s);
      if l.Some? {
        SameNameItself(l.value.file);
      }
    } else if s.text != [] {
      SkipShortens(SkipStep(s));
    }
  }

  lemma {:induction false} NothingIsBlank()
    ensures KindOf([]) == Blank
  {
  }

  // ----- The whole comparison as a function ---------------------------------------------------------------

  function Block(a: string, b: string, p1: nat, p2: nat): (r: nat)
    requires p1 <= |a| && p2 <= |b|
    ensures p1 + r <= |a| && p2 + r <= |b| && (r == 0 <==> p1 == |a| || p2 == |b|)
  {
    var cch := if |a| - p1 < |b| - p2 then |a| - p1 else |b| - p2;
    if cch > BLOCK then BLOCK else cch
  }

  /** How far the texts are the same. */
  function Common(t: string, u: string): (r: nat)
    ensures r <= |t| && r <= |u| && t[..r] == u[..r]
  {
    if t != [] && u != [] && t[0] == u[0] then 1 + Common(t[1..], u[1..]) else 0
  }

  lemma {:induction false} CommonIs(t: string, u: string, n: nat)
    requires n <= |t| && n <= |u| && t[..n] == u[..n] && (n == |t| || n == |u| || t[n] != u[n])
    ensures Common(t, u) == n
  {
    if n > 0 {
      assert t[..n][0] == u[..n][0];
      assert t[1..][..n - 1] == t[..n][1..] && u[1..][..n - 1] == u[..n][1..];
      CommonIs(t[1..], u[1..], n - 1);
    }
  }

  /** The way back to the start of the line is no longer in the second text. */
  predicate InStep(a: string, b: string, p1: nat, p2: nat) {
    p1 <= |a| && p2 <= |b| && p1 - LineStart(a, p1) <= p2
  }

  lemma {:induction false} InStepLater(a: string, b: string, p1: nat, p2: nat, n: nat)
    requires InStep(a, b, p1, p2) && p1 + n <= |a| && p2 + n <= |b|
    ensures InStep(a, b, p1 + n, p2 + n)
  {
    var L, M := LineStart(a, p1), LineStart(a, p1 + n);
    forall k | M <= k < p1 + n ensures a[k] != '\n' {
      assert a[k] == a[M..p1 + n][k - M];
    }
  }

  lemma {:induction false} ResumeInStep(a: string, b: string, p1: nat, p2: nat)
    requires InStep(a, b, p1, p2) && Ended(a)
    ensures var r := Resume(a, b, p1, p2); r.Go? ==> p1 < r.psz1 && InStep(a, b, r.psz1, r.psz2)
  {
    hide Resume, Accounted;
    ResumeProgress(a, b, p1, p2);
    ResumeMatches(a, b, p1, p2, 0, 0);
  }

  /** The next block is the same on both sides. */
  predicate SameBlock(a: string, b: string, p1: nat, p2: nat)
    requires p1 <= |a| && p2 <= |b|
  {
    var cch := Block(a, b, p1, p2);
    cch != 0 && a[p1..p1 + cch] == b[p2..p2 + cch]
  }

  /** Equal blocks are skipped; behind a difference it is resumed. */
  function Round(a: string, b: string, p1: nat, p2: nat): Outcome
    requires InStep(a, b, p1, p2)
  {
    if SameBlock(a, b, p1, p2) then Go(p1 + Block(a, b, p1, p2), p2 + Block(a, b, p1, p2))
    else
      var n := Common(a[p1..], b[p2..]);
      InStepLater(a, b, p1, p2, n);
      Resume(a, b, p1 + n, p2 + n)
  }

  lemma {:induction false} RoundInStep(a: string, b: string, p1: nat, p2: nat)
    requires InStep(a, b, p1, p2) && Ended(a)
    ensures var r := Round(a, b, p1, p2); r.Go? ==> p1 < r.psz1 <= |a| && InStep(a, b, r.psz1, r.psz2)
  {
    hide Resume, InStep, Block, Common, SameBlock;
    InBounds(a, b, p1, p2);
    var cch, n := Block(a, b, p1, p2), Common(a[p1..], b[p2..]);
    BlockNonempty(a, b, p1, p2);
    InStepLater(a, b, p1, p2, cch);
    InStepLater(a, b, p1, p2, n);
    InBounds(a, b, p1 + n, p2 + n);
    ResumeInStep(a, b, p1 + n, p2 + n);
  }

  lemma {:induction false} BlockNonempty(a: string, b: string, p1: nat, p2: nat)
    requires p1 <= |a| && p2 <= |b|
    ensures var cch := Block(a, b, p1, p2); SameBlock(a, b, p1, p2) <==> cch != 0 && a[p1..p1 + cch] == b[p2..p2 + cch]
  {
    hide Block;
  }

  lemma {:induction false} InBounds(a: string, b: string, p1: nat, p2: nat)
    requires InStep(a, b, p1, p2)
    ensures p1 <= |a| && p2 <= |b| && p1 - LineStart(a, p1) <= p2
  {
  }

  /** Round after round. */
  function Compared(a: string, b: string, p1: nat, p2: nat): bool
    requires InStep(a, b, p1, p2) && Ended(a)
    decreases |a| - p1
  {
    RoundInStep(a, b, p1, p2);
    var r := Round(a, b, p1, p2);
    if r.Done? then r.fMatch else Compared(a, b, r.psz1, r.psz2)
  }

  lemma {:induction false} SelfInStep(a: string, p: nat)
    requires p <= |a|
    ensures InStep(a, a, p, p)
  {
  }

  lemma {:induction false} SelfRound(a: string, p: nat)
    requires p <= |a|
    ensures InStep(a, a, p, p)
    ensures p < |a| ==>
              var cch := Block(a, a, p, p); cch > 0 && p + cch <= |a| && Round(a, a, p, p) == Go(p + cch, p + cch)
    ensures p == |a| ==>
              Round(a, a, p, p) == if KindOf(a[LineStart(a, |a|)..]) == Significant then Go(|a|, |a|) else Done(true)
  {
    hide Resume, LineStart, KindOf, Common;
    SelfInStep(a, p);
    if p < |a| {
      RoundBlock(a, a, p, p);
    } else {
      RoundDiffers(a, a, p, p);
      SameTextsAtTheEnd(a);
    }
  }

  lemma {:induction false} Extend(a: string, b: string, p1: nat, p2: nat, m: nat, k: nat)
    requires p1 + m + k <= |a| && p2 + m + k <= |b|
    requires a[p1..p1 + m] == b[p2..p2 + m] && a[p1 + m..p1 + m + k] == b[p2 + m..p2 + m + k]
    ensures a[p1..p1 + m + k] == b[p2..p2 + m + k]
  {
    assert a[p1..p1 + m + k] == a[p1..p1 + m] + a[p1 + m..p1 + m + k];
    assert b[p2..p2 + m + k] == b[p2..p2 + m] + b[p2 + m..p2 + m + k];
  }

  lemma {:induction false} SyncedLonger(a: string, b: string, s1: nat, s2: nat, p1: nat, p2: nat, n: nat)
    requires Synced(a, b, s1, s2, p1, p2) && p1 + n <= |a| && p2 + n <= |b| && a[p1..p1 + n] == b[p2..p2 + n]
    ensures Synced(a, b, s1, s2, p1 + n, p2 + n)
  {
    SameLength(a, b, s1, s2, p1, p2);
    Extend(a, b, s1, s2, p1 - s1, n);
  }

  lemma {:induction false} SameLength(a: string, b: string, s1: nat, s2: nat, p1: nat, p2: nat)
    requires Synced(a, b, s1, s2, p1, p2)
    ensures p1 - s1 == p2 - s2 && p1 - LineStart(a, p1) <= p2
  {
    assert |a[s1..p1]| == |b[s2..p2]|;
    SyncedLine(a, b, s1, s2, p1, p2);
  }

  lemma {:induction false} SyncedNow(a: string, b: string, p1: nat, p2: nat)
    requires p1 <= |a| && p2 <= |b| && p1 > 0 && a[p1 - 1] == '\n'
    ensures Synced(a, b, p1, p2, p1, p2)
  {
    assert a[p1..p1] == [] == b[p2..p2];
  }

  lemma {:induction false} SameEnd(a: string)
    requires Ended(a)
    ensures Resume(a, a, |a|, |a|) == Done(true)
  {
  }

  lemma {:induction false} Begin(a: string, b: string)
    ensures InStep(a, b, 0, 0)
  {
  }

  lemma {:induction false} BlockIs(a: string, b: string, p1: nat, p2: nat)
    requires p1 <= |a| && p2 <= |b|
    ensures var cch := if |a| - p1 < |b| - p2 then |a| - p1 else |b| - p2;
            Block(a, b, p1, p2) == if cch > BLOCK then BLOCK else cch
  {
  }

  lemma {:induction false} RoundBlock(a: string, b: string, p1: nat, p2: nat)
    requires InStep(a, b, p1, p2) && p1 <= |a| && p2 <= |b| && SameBlock(a, b, p1, p2)
    ensures var cch := Block(a, b, p1, p2);
            cch > 0 && a[p1..p1 + cch] == b[p2..p2 + cch] && Round(a, b, p1, p2) == Go(p1 + cch, p2 + cch)
  {
    hide Block, Resume, LineStart, Common;
  }

  lemma {:induction false} RoundDiffers(a: string, b: string, p1: nat, p2: nat)
    requires InStep(a, b, p1, p2) && p1 <= |a| && p2 <= |b| && !SameBlock(a, b, p1, p2)
    ensures var n := Common(a[p1..], b[p2..]);
            && p1 + n <= |a| && p2 + n <= |b| && a[p1..p1 + n] == b[p2..p2 + n]
            && p1 + n - LineStart(a, p1 + n) <= p2 + n && InStep(a, b, p1 + n, p2 + n)
            && Round(a, b, p1, p2) == Resume(a, b, p1 + n, p2 + n)
  {
    hide Resume, LineStart, SameBlock, Common, InStep;
    var n := Common(a[p1..], b[p2..]);
    InStepLater(a, b, p1, p2, n);
    InBounds(a, b, p1 + n, p2 + n);
    assert a[p1..][..n] == a[p1..p1 + n] && b[p2..][..n] == b[p2..p2 + n];
  }

  lemma {:induction false} LocatedIsCommon(a: string, b: string, p1: nat, p2: nat, n: nat)
    requires p1 <= |a| && p2 <= |b| && !SameBlock(a, b, p1, p2)
    requires var cch := Block(a, b, p1, p2);
             && n <= cch && a[p1..p1 + n] == b[p2..p2 + n] && (n < cch ==> a[p1 + n] != b[p2 + n])
    ensures n == Common(a[p1..], b[p2..])
  {
    hide Block;
    assert a[p1..][..n] == a[p1..p1 + n] && b[p2..][..n] == b[p2..p2 + n];
    CommonIs(a[p1..], b[p2..], n);
  }

  lemma {:induction false} ComparedRound(a: string, b: string, p1: nat, p2: nat)
    requires InStep(a, b, p1, p2) && Ended(a)
    ensures var r := Round(a, b, p1, p2);
            && (r.Done? ==> Compared(a, b, p1, p2) == r.fMatch)
            && (r.Go? ==> InStep(a, b, r.psz1, r.psz2) && Compared(a, b, p1, p2) == Compared(a, b, r.psz1, r.psz2))
  {
    hide Round, InStep;
    RoundInStep(a, b, p1, p2);
  }

  lemma {:induction false} Start(a: string, b: string)
    ensures Synced(a, b, 0, 0, 0, 0)
  {
    assert a[0..0] == [] == b[0..0];
  }

  lemma {:induction false} BlockSound(a: string, b: string, s1: nat, s2: nat, p1: nat, p2: nat)
    requires Synced(a, b, s1, s2, p1, p2) && InStep(a, b, p1, p2) && p1 <= |a| && p2 <= |b| && SameBlock(a, b, p1, p2)
    ensures var r := Round(a, b, p1, p2); r.Go? && Synced(a, b, s1, s2, r.psz1, r.psz2)
  {
    hide *;
    RoundBlock(a, b, p1, p2);
    SyncedLonger(a, b, s1, s2, p1, p2, Block(a, b, p1, p2));
  }

  /** Where the texts differ, and where it goes on. */
  lemma {:induction false} DifferenceSynced(a: string, b: string, s1: nat, s2: nat, p1: nat, p2: nat)
    requires Synced(a, b, s1, s2, p1, p2) && InStep(a, b, p1, p2) && p1 <= |a| && p2 <= |b| && !SameBlock(a, b, p1, p2)
    requires Ended(a)
    ensures var n := Common(a[p1..], b[p2..]); Synced(a, b, s1, s2, p1 + n, p2 + n)
    ensures var r := Round(a, b, p1, p2); r.Go? ==> Synced(a, b, r.psz1, r.psz2, r.psz1, r.psz2)
  {
    hide *;
    RoundDiffers(a, b, p1, p2);
    var n := Common(a[p1..], b[p2..]);
    SyncedLonger(a, b, s1, s2, p1, p2, n);
    ResumeMatches(a, b, p1 + n, p2 + n, 0, 0);
    var r := Round(a, b, p1, p2);
    if r.Go? {
      SyncedNow(a, b, r.psz1, r.psz2);
    }
  }

  lemma {:induction false} DifferenceSound(a: string, b: string, s1: nat, s2: nat, p1: nat, p2: nat, n: nat, n1: nat,
      n2: nat)
    requires InStep(a, b, p1, p2) && p1 <= |a| && p2 <= |b| && !SameBlock(a, b, p1, p2)
    requires s1 <= |a| && s2 <= |b| && Ended(a) && n == Common(a[p1..], b[p2..]) && Synced(a, b, s1, s2, p1 + n, p2 + n)
    ensures var r := Round(a, b, p1, p2);
            var (m1, m2) := LostAt(a, b, s1, s2, p1 + n, p2 + n);
            && (r == Done(true) ==> Accounted(a[s1..], b[s2..], m1, m2))
            && (r.Go? && r.psz1 <= |a| && r.psz2 <= |b| && Accounted(a[r.psz1..], b[r.psz2..], n1, n2) ==>
                  Accounted(a[s1..], b[s2..], n1 + m1, n2 + m2))
  {
    hide *;
    RoundDiffers(a, b, p1, p2);
    ResumeSound(a, b, s1, s2, p1 + n, p2 + n, n1, n2);
  }

  /** The significant lines that only the second text has, and those that only the first has, by the rounds of
      the comparison. */
  ghost function Losses(a: string, b: string, s1: nat, s2: nat, p1: nat, p2: nat): (nat, nat)
    decreases if p1 <= |a| then |a| - p1 else 0
  {
    hide *;
    if !Synced(a, b, s1, s2, p1, p2) || !Ended(a) then (0, 0)
    else
      SyncedBounds(a, b, s1, s2, p1, p2);
      RoundInStep(a, b, p1, p2);
      var r := Round(a, b, p1, p2);
      if SameBlock(a, b, p1, p2) then
        BlockSound(a, b, s1, s2, p1, p2);
        Losses(a, b, s1, s2, r.psz1, r.psz2)
      else
        var n := Common(a[p1..], b[p2..]);
        var here := LostAt(a, b, s1, s2, p1 + n, p2 + n);
        if r.Done? then here
        else
          var later := Losses(a, b, r.psz1, r.psz2, r.psz1, r.psz2);
          (here.0 + later.0, here.1 + later.1)
  }

  lemma {:induction false} LossesBlock(a: string, b: string, s1: nat, s2: nat, p1: nat, p2: nat)
    requires Synced(a, b, s1, s2, p1, p2) && InStep(a, b, p1, p2) && p1 <= |a| && p2 <= |b| && SameBlock(a, b, p1, p2)
    requires Ended(a)
    ensures var r := Round(a, b, p1, p2);
            r.Go? && Synced(a, b, s1, s2, r.psz1, r.psz2) &&
            Losses(a, b, s1, s2, p1, p2) == Losses(a, b, s1, s2, r.psz1, r.psz2)
  {
    hide Synced, InStep, SameBlock, Round, LostAt, Ended;
    BlockSound(a, b, s1, s2, p1, p2);
  }

  lemma {:induction false} LossesDifference(a: string, b: string, s1: nat, s2: nat, p1: nat, p2: nat, n: nat,
      r: Outcome)
    requires Synced(a, b, s1, s2, p1, p2) && InStep(a, b, p1, p2) && p1 <= |a| && p2 <= |b| && !SameBlock(a, b, p1, p2)
    requires Ended(a)
    requires n == Common(a[p1..], b[p2..]) && r == Round(a, b, p1, p2)
    ensures r.Done? ==> Losses(a, b, s1, s2, p1, p2) == LostAt(a, b, s1, s2, p1 + n, p2 + n)
    ensures r.Go? ==>
              var (m1, m2) := LostAt(a, b, s1, s2, p1 + n, p2 + n);
              var (n1, n2) := Losses(a, b, r.psz1, r.psz2, r.psz1, r.psz2);
              Losses(a, b, s1, s2, p1, p2) == (m1 + n1, m2 + n2)
  {
    hide Synced, InStep, SameBlock, Round, LostAt, Ended, Common;
  }

  /** From two places where nothing has been different yet, a match accounts for everything. */
  lemma {:induction false} ComparedSound(a: string, b: string, s1: nat, s2: nat, p1: nat, p2: nat)
    requires Synced(a, b, s1, s2, p1, p2) && InStep(a, b, p1, p2) && Ended(a)
    requires Compared(a, b, p1, p2)
    ensures s1 <= |a| && s2 <= |b|
    ensures var (n1, n2) := Losses(a, b, s1, s2, p1, p2); Accounted(a[s1..], b[s2..], n1, n2)
    decreases |a| - p1
  {
    hide *;
    SyncedBounds(a, b, s1, s2, p1, p2);
    RoundInStep(a, b, p1, p2);
    ComparedRound(a, b, p1, p2);
    var r := Round(a, b, p1, p2);
    if SameBlock(a, b, p1, p2) {
      LossesBlock(a, b, s1, s2, p1, p2);
      ComparedSound(a, b, s1, s2, r.psz1, r.psz2);
    } else {
      var n := Common(a[p1..], b[p2..]);
      DifferenceSynced(a, b, s1, s2, p1, p2);
      LossesDifference(a, b, s1, s2, p1, p2, n, r);
      if r.Go? {
        var (n1, n2) := Losses(a, b, r.psz1, r.psz2, r.psz1, r.psz2);
        ComparedSound(a, b, r.psz1, r.psz2, r.psz1, r.psz2);
        DifferenceSound(a, b, s1, s2, p1, p2, n, n1, n2);
      } else {
        DifferenceSound(a, b, s1, s2, p1, p2, n, 0, 0);
      }
    }
  }

  /** Without a bare line in one of the texts nothing is taken differently. */
  lemma {:induction false} NoLosses(a: string, b: string, s1: nat, s2: nat, p1: nat, p2: nat)
    requires Synced(a, b, s1, s2, p1, p2) && Ended(a) && (NoBareLine(a) || NoBareLine(b))
    ensures Losses(a, b, s1, s2, p1, p2) == (0, 0)
    decreases |a| - p1
  {
    hide *;
    SyncedBounds(a, b, s1, s2, p1, p2);
    RoundInStep(a, b, p1, p2);
    var r := Round(a, b, p1, p2);
    if SameBlock(a, b, p1, p2) {
      LossesBlock(a, b, s1, s2, p1, p2);
      NoLosses(a, b, s1, s2, r.psz1, r.psz2);
    } else {
      var n := Common(a[p1..], b[p2..]);
      DifferenceSynced(a, b, s1, s2, p1, p2);
      LossesDifference(a, b, s1, s2, p1, p2, n, r);
      NothingLostAt(a, b, s1, s2, p1 + n, p2 + n);
      if r.Go? {
        NoLosses(a, b, r.psz1, r.psz2, r.psz1, r.psz2);
      }
    }
  }

  lemma {:induction false} SyncedBounds(a: string, b: string, s1: nat, s2: nat, p1: nat, p2: nat)
    requires Synced(a, b, s1, s2, p1, p2)
    ensures s1 <= p1 <= |a| && s2 <= p2 <= |b| && InStep(a, b, p1, p2) && p1 - LineStart(a, p1) <= p2
  {
    SameLength(a, b, s1, s2, p1, p2);
  }

  /** Identical texts match. */
  lemma {:induction false} ComparedItself(a: string, p: nat)
    requires InStep(a, a, p, p) && Ended(a)
    ensures Compared(a, a, p, p)
    decreases |a| - p
  {
    hide Resume, LineStart, Common;
    RoundInStep(a, a, p, p);
    if SameBlock(a, a, p, p) {
      RoundBlock(a, a, p, p);
      ComparedItself(a, p + Block(a, a, p, p));
    } else {
      RoundDiffers(a, a, p, p);
      SameEnd(a);
    }
  }

  /** For every newline-terminated text: a match means as many lone closing braces, and the same significant
      lines exactly if no line is taken differently right in front of a difference; without a bare "#line" none
      is. And a text matches itself. */
  lemma {:induction false} MatchMeansSameCode(a: string, b: string)
    requires Ended(a)
    ensures InStep(a, b, 0, 0) && Synced(a, b, 0, 0, 0, 0)
    ensures Compared(a, b, 0, 0) ==>
              var (n1, n2) := Losses(a, b, 0, 0, 0, 0);
              && Braces(a) == Braces(b) && |Sig(a)| + n1 == |Sig(b)| + n2
              && (SameCode(a, b) <==> n1 == n2 == 0)
    ensures NoBareLine(a) || NoBareLine(b) ==> Losses(a, b, 0, 0, 0, 0) == (0, 0)
    ensures a == b ==> Compared(a, b, 0, 0)
  {
    hide *;
    Begin(a, b);
    Start(a, b);
    assert a[0..] == a && b[0..] == b;
    if Compared(a, b, 0, 0) {
      ComparedSound(a, b, 0, 0, 0, 0);
      var (n1, n2) := Losses(a, b, 0, 0, 0, 0);
      AccountedIs(a, b, n1, n2);
    }
    if NoBareLine(a) || NoBareLine(b) {
      NoLosses(a, b, 0, 0, 0, 0);
    }
    if a == b {
      ComparedItself(a, 0);
    }
  }

  lemma {:induction false} AccountedIs(t: string, u: string, n1: nat, n2: nat)
    requires Accounted(t, u, n1, n2)
    ensures Braces(t) == Braces(u) && |Sig(t)| + n1 == |Sig(u)| + n2
    ensures SameCode(t, u) <==> n1 == n2 == 0
  {
    hide Sig, Braces;
  }
}
