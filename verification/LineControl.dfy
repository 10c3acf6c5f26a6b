/** C preprocessor output as a compiler reads it: lines, line directives and the
    (file, line) of every remaining line. */
module LineControl {
  import opened Basics

  /** uint32_t arithmetic: line counters wrap. */
  const LINE_MOD: nat := 0x1_0000_0000

  function Wrap(n: int): (r: nat)
    ensures r < LINE_MOD
  {
    n % LINE_MOD
  }

  // ----- Lines and text ---------------------------------------------------

  predicate NoNewline(s: string) {
    '\n' !in s
  }

  predicate AllNoNewline(ls: seq<string>) {
    forall k :: 0 <= k < |ls| ==> NoNewline(ls[k])
  }

  /** A text: its terminated lines, and what follows the last newline. */
  datatype Split = Split(lines: seq<string>, rest: string)

  function SplitText(text: string): Split {
    if text == "" then Split([], "")
    else
      var s := SplitText(text[..|text| - 1]);
      var c := text[|text| - 1];
      if c == '\n' then Split(s.lines + [s.rest], "") else Split(s.lines, s.rest + [c])
  }

  lemma {:induction false} SplitIsInverse(text: string)
    ensures AllNoNewline(SplitText(text).lines) && NoNewline(SplitText(text).rest)
    ensures Unlines(SplitText(text).lines) + SplitText(text).rest == text
  {
    if text != "" {
      var init, c := text[..|text| - 1], text[|text| - 1];
      SplitIsInverse(init);
      var s := SplitText(init);
      assert text == init + [c];
      hide Unlines;
      UnlinesSnoc(s.lines, s.rest);
    }
  }

  lemma {:induction false} SplitUnlines(ls: seq<string>, rest: string)
    requires AllNoNewline(ls) && NoNewline(rest)
    ensures SplitText(Unlines(ls) + rest) == Split(ls, rest)
    decreases |ls|, |rest|
  {
    var text := Unlines(ls) + rest;
    if rest != "" {
      SplitUnlines(ls, rest[..|rest| - 1]);
      assert text[..|text| - 1] == Unlines(ls) + rest[..|rest| - 1];
      assert rest[..|rest| - 1] + [rest[|rest| - 1]] == rest;
    } else if ls != [] {
      var init, last := ls[..|ls| - 1], ls[|ls| - 1];
      assert init + [last] == ls;
      SplitUnlines(init, last);
      UnlinesSnoc(init, last);
      assert text == Unlines(init) + last + "\n";
      assert text[..|text| - 1] == Unlines(init) + last;
    } else {
      assert text == "";
    }
  }

  // ----- Line directives --------------------------------------------------

  /** What the scanner steps over at the start of a line. */
  predicate IsSpace(c: char) { IsBlank(c) || c == '\r' }

  function SkipSpaces(s: string, i: nat): (r: nat)
    requires i <= |s|
    ensures i <= r <= |s|
    ensures forall k :: i <= k < r ==> IsSpace(s[k])
    ensures r < |s| ==> !IsSpace(s[r])
    decreases |s| - i
  {
    if i < |s| && IsSpace(s[i]) then SkipSpaces(s, i + 1) else i
  }

  function FindQuote(s: string, i: nat): (r: nat)
    requires i <= |s|
    ensures i <= r <= |s|
    ensures forall k :: i <= k < r ==> s[k] != '"'
    ensures r < |s| ==> s[r] == '"'
    decreases |s| - i
  {
    if i < |s| && s[i] != '"' then FindQuote(s, i + 1) else i
  }

  /** Decimal value modulo 2^32, most significant digit first. */
  function NumberOf(s: string): (r: nat)
    requires forall k :: 0 <= k < |s| ==> IsDigit(s[k])
    ensures r < LINE_MOD
  {
    if s == "" then 0
    else Wrap(Wrap(NumberOf(s[..|s| - 1]) * 10) + (s[|s| - 1] as int - '0' as int))
  }

  predicate HasLineWord(s: string, i: nat) {
    i + 5 <= |s| && s[i] == 'l' && s[i + 1] == 'i' && s[i + 2] == 'n' && s[i + 3] == 'e' && IsBlank(s[i + 4])
  }

  datatype Directive = NotDirective | Directive(number: nat, name: Option<string>)

  /** The optional file name and the end of the directive, from offset j. */
  function ParseName(s: string, j: nat, n: nat): Directive
    requires j <= |s|
  {
    var m := SkipBlanks(s, j);
    if m < |s| && s[m] == '"' then
      var q := FindQuote(s, m + 1);
      if q == |s| || SkipBlanks(s, q + 1) != |s| then NotDirective
      else Directive(n, Some(s[m + 1..q]))
    else if m != |s| then NotDirective
    else Directive(n, None)
  }

  /** The number at offset k and what follows it. */
  function ParseNumber(s: string, k: nat): Directive
    requires k <= |s|
  {
    var j := SkipDigits(s, k);
    if j == k || (j < |s| && !IsBlank(s[j])) then NotDirective
    else ParseName(s, j, NumberOf(s[k..j]))
  }

  /** s starts at the first character that is not white space. */
  function ParseDirective(s: string): (d: Directive)
    ensures d.Directive? ==> s != "" && s[0] == '#'
  {
    if s == "" || s[0] != '#' then NotDirective
    else
      var i := SkipBlanks(s, 1);
      if HasLineWord(s, i) then ParseNumber(s, SkipBlanks(s, i + 5))
      else if i > 1 && i < |s| && IsDigit(s[i]) then ParseNumber(s, i)
      else NotDirective
  }

  /** A number starts at offset k and ends properly. */
  predicate NumberAt(s: string, k: nat)
    requires k <= |s|
  {
    var j := SkipDigits(s, k);
    j > k && (j < |s| ==> IsBlank(s[j]))
  }

  /** s gets as far as a line number; what follows may be a file name. */
  predicate Numbered(s: string) {
    s != "" && s[0] == '#' &&
    var i := SkipBlanks(s, 1);
    if HasLineWord(s, i) then NumberAt(s, SkipBlanks(s, i + 5))
    else i > 1 && NumberAt(s, i)
  }

  /** No quote comes directly after a backslash. */
  predicate NoEscapedQuote(s: string) {
    forall k :: 0 < k < |s| && s[k] == '"' ==> s[k - 1] != '\\'
  }

  datatype Kind = Blank | Control(number: nat, name: Option<string>) | Text

  function Classify(line: string): Kind {
    var i := SkipSpaces(line, 0);
    if i == |line| then Blank
    else
      match ParseDirective(line[i..])
      case NotDirective => Text
      case Directive(n, f) => Control(n, f)
  }

  /** White space may lead a line of any kind. */
  lemma {:induction false} ClassifyAt(line: string, i: nat)
    requires i < |line| && !IsSpace(line[i])
    requires forall k :: 0 <= k < i ==> IsSpace(line[k])
    ensures SkipSpaces(line, 0) == i
    ensures Classify(line) ==
            match ParseDirective(line[i..])
            case NotDirective => Text
            case Directive(n, f) => Control(n, f)
  {
    hide ParseDirective;
    var j := SkipSpaces(line, 0);
  }

  // ----- Meaning ----------------------------------------------------------

  /** One line of program text and where the compiler believes it comes from. */
  datatype Event = Event(text: string, file: string, line: nat)

  datatype Reader = Reader(file: string, line: nat, events: seq<Event>)

  const START := Reader("", 1, [])

  /** keepName: a directive naming the empty file leaves the current name alone. */
  function NewName(keepName: bool, file: string, name: Option<string>): string {
    match name
    case None => file
    case Some(f) => if keepName && f == "" then file else f
  }

  function ReadLine(keepName: bool, r: Reader, line: string): Reader {
    match Classify(line)
    case Blank => r.(line := Wrap(r.line + 1))
    case Control(n, f) => r.(file := NewName(keepName, r.file, f), line := n)
    case Text => Reader(r.file, Wrap(r.line + 1), r.events + [Event(line, r.file, r.line)])
  }

  function ReadLines(keepName: bool, ls: seq<string>): Reader {
    if ls == [] then START else ReadLine(keepName, ReadLines(keepName, ls[..|ls| - 1]), ls[|ls| - 1])
  }

  function AllLines(text: string): seq<string> {
    var s := SplitText(text);
    if s.rest == "" then s.lines else s.lines + [s.rest]
  }

  /** The program text a compiler sees, each line with its file and line number. */
  function Meaning(text: string): seq<Event> {
    ReadLines(false, AllLines(text)).events
  }

  // ----- Facts about printed directives -----------------------------------

  function Digit(d: nat): (c: char)
    requires d < 10
    ensures IsDigit(c) && c as int - '0' as int == d
  {
    "0123456789"[d]
  }

  /** printf("%lu"). */
  function Decimal(n: nat): (s: string)
    ensures |s| > 0
    ensures forall k :: 0 <= k < |s| ==> IsDigit(s[k])
  {
    if n < 10 then [Digit(n)] else Decimal(n / 10) + [Digit(n % 10)]
  }

  lemma {:induction false} NumberOfDecimal(n: nat)
    requires n < LINE_MOD
    ensures NumberOf(Decimal(n)) == n
  {
    hide Wrap;
    if n < 10 {
      DecimalDigit(n);
      AddDigit(0, n);
    } else {
      NumberOfDecimal(n / 10);
      DecimalDigits(n);
      AddDigit(n / 10, n % 10);
    }
  }

  lemma {:induction false} DecimalDigit(n: nat)
    requires n < 10
    ensures NumberOf(Decimal(n)) == Wrap(Wrap(0 * 10) + n)
  {
    assert Decimal(n)[..0] == "";
  }

  lemma {:induction false} DecimalDigits(n: nat)
    requires n >= 10
    ensures NumberOf(Decimal(n)) == Wrap(Wrap(NumberOf(Decimal(n / 10)) * 10) + n % 10)
  {
    hide Wrap;
    var s := Decimal(n);
    assert s == Decimal(n / 10) + [Digit(n % 10)] && s[..|s| - 1] == Decimal(n / 10);
  }

  lemma {:induction false} AddDigit(m: nat, d: nat)
    requires m * 10 + d < LINE_MOD
    ensures Wrap(Wrap(m * 10) + d) == m * 10 + d
  {
  }

  function LineDirective(n: nat, file: string): string {
    "#line " + Decimal(n) + (if file != "" then " \"" + file + "\"" else "")
  }

  lemma {:induction false} SkipDigitsIs(s: string, i: nat, j: nat)
    requires i <= j <= |s|
    requires forall k :: i <= k < j ==> IsDigit(s[k])
    requires j < |s| ==> !IsDigit(s[j])
    ensures SkipDigits(s, i) == j
  {
  }

  /** The part of a printed directive after the number. */
  lemma {:induction false} ParseNameOfPrinted(s: string, j: nat, n: nat, file: string)
    requires j <= |s| && '"' !in file
    requires s[j..] == if file != "" then " \"" + file + "\"" else ""
    ensures ParseName(s, j, n) == Directive(n, if file == "" then None else Some(file))
  {
    if file != "" {
      var t := s[j..];
      assert s[j] == t[0] && s[j + 1] == t[1];
      assert SkipBlanks(s, j + 1) == j + 1;
      var q := j + 2 + |file|;
      assert s[j + 2..q] == t[2..2 + |file|] == file;
      assert s[q] == t[2 + |file|] && |s| == q + 1;
      forall k | j + 2 <= k < q ensures s[k] != '"' { assert s[k] == file[k - j - 2]; }
      FindQuoteIs(s, j + 2, q);
    }
  }

  lemma {:induction false} FindQuoteIs(s: string, i: nat, q: nat)
    requires i <= q < |s| && s[q] == '"'
    requires forall k :: i <= k < q ==> s[k] != '"'
    ensures FindQuote(s, i) == q
  {
  }

  /** Printing a directive and parsing it again gives the same number and name. */
  lemma {:induction false} ClassifyLineDirective(n: nat, file: string)
    requires n < LINE_MOD && '"' !in file
    ensures Classify(LineDirective(n, file)) == Control(n, if file == "" then None else Some(file))
  {
    var d := Decimal(n);
    var tail := if file != "" then " \"" + file + "\"" else "";
    var s := LineDirective(n, file);
    assert s == "#line " + d + tail;
    var j := 6 + |d|;
    assert s[j..] == tail;
    ParseNameOfPrinted(s, j, n, file);
    PrintedPrefix(s, d, tail);
    NumberOfDecimal(n);
    assert s[0..] == s;
  }

  lemma {:induction false} PrintedPrefix(s: string, d: string, tail: string)
    requires s == "#line " + d + tail
    requires |d| > 0 && forall k :: 0 <= k < |d| ==> IsDigit(d[k])
    requires tail != "" ==> tail[0] == ' '
    ensures SkipSpaces(s, 0) == 0
    ensures ParseDirective(s) == ParseName(s, 6 + |d|, NumberOf(d))
  {
    hide ParseName, NumberOf;
    var j := 6 + |d|;
    assert s[6..j] == d;
    assert s[0] == '#' && s[1] == 'l' && s[5] == ' ';
    PrintedWord(s);
    assert s[6] == d[0];
    forall k | 6 <= k < j ensures IsDigit(s[k]) { assert s[k] == d[k - 6]; }
    assert j < |s| ==> s[j] == tail[0];
    SkipDigitsIs(s, 6, j);
  }

  lemma {:induction false} PrintedWord(s: string)
    requires |s| > 6 && s[..6] == "#line " && IsDigit(s[6])
    ensures SkipBlanks(s, 1) == 1 && HasLineWord(s, 1) && SkipBlanks(s, 6) == 6
  {
    assert s[1] == s[..6][1] && s[2] == s[..6][2] && s[3] == s[..6][3] && s[4] == s[..6][4] && s[5] == s[..6][5];
  }
}
