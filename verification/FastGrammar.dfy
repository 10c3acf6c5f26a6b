/** What the lines look like that the fast comparison tells apart, without its scanner. */
module FastGrammar {
  import opened Basics
  import opened DirectiveGrammar
  import opened FastCompare

  // ----- The grammar ---------------------------------------------------------------------

  /** White space inside a line. */
  predicate AllWhite(s: string) {
    forall k :: 0 <= k < |s| ==> s[k] == ' ' || s[k] == '\t' || s[k] == '\U{0B}' || s[k] == '\U{0C}' || s[k] == '\r'
  }

  /** Nothing, or the word "line" with the one character behind it, whatever that is. */
  predicate SkippedWord(s: string) {
    s == "" || (|s| == 5 && s[..4] == "line")
  }

  /** The file is everything up to the end of the text; how much of it is the name is decided later. */
  ghost predicate IsStatement(t: string, blanks: string, word: string, digits: string, gap: string, file: string,
      n: nat) {
    && t == "#" + blanks + word + digits + gap + file
    && AllBlanks(blanks) && SkippedWord(word) && digits != "" && AllDigits(digits)
    && gap != "" && AllBlanks(gap) && (file != "" ==> !IsBlank(file[0]))
    && n == Value(digits) % WIDTH
  }

  /** The line ends here, or the text does. */
  predicate AtEnd(t: string) {
    t == "" || t[0] == '\n'
  }

  // ----- Scanning over what there is -------------------------------------------------------

  lemma {:induction false} BlanksDropped(a: string, t: string)
    requires AllBlanks(a) && (t != "" ==> !IsBlank(t[0]))
    ensures DropBlanks(a + t) == t
  {
    if a == "" {
      assert a + t == t;
    } else {
      assert (a + t)[0] == a[0] && (a + t)[1..] == a[1..] + t;
      BlanksDropped(a[1..], t);
    }
  }

  lemma {:induction false} BlanksFound(t: string) returns (a: string)
    ensures AllBlanks(a) && t == a + DropBlanks(t)
    ensures t != "" && IsBlank(t[0]) ==> a != ""
  {
    if t != "" && IsBlank(t[0]) {
      var rest := BlanksFound(t[1..]);
      a := [t[0]] + rest;
    } else {
      a := "";
    }
  }

  lemma {:induction false} SpacesDropped(a: string, t: string)
    requires AllWhite(a) && (t != "" ==> t[0] == '\n' || !IsSpace(t[0]))
    ensures DropSpaces(a + t) == t
  {
    if a == "" {
      assert a + t == t;
    } else {
      assert (a + t)[0] == a[0] && (a + t)[1..] == a[1..] + t;
      SpacesDropped(a[1..], t);
    }
  }

  lemma {:induction false} SpacesFound(t: string) returns (a: string)
    ensures AllWhite(a) && t == a + DropSpaces(t)
  {
    if t != "" && IsSpace(t[0]) && t[0] != '\n' {
      var rest := SpacesFound(t[1..]);
      a := [t[0]] + rest;
    } else {
      a := "";
    }
  }

  lemma {:induction false} DigitsDropped(a: string, t: string)
    requires AllDigits(a) && (t != "" ==> !IsDigit(t[0]))
    ensures DropDigits(a + t) == t
  {
    if a == "" {
      assert a + t == t;
    } else {
      assert (a + t)[0] == a[0] && (a + t)[1..] == a[1..] + t;
      DigitsDropped(a[1..], t);
    }
  }

  lemma {:induction false} DigitsFound(t: string) returns (a: string)
    ensures AllDigits(a) && t == a + DropDigits(t)
    ensures t != "" && IsDigit(t[0]) ==> a != ""
  {
    if t != "" && IsDigit(t[0]) {
      var rest := DigitsFound(t[1..]);
      a := [t[0]] + rest;
    } else {
      a := "";
    }
  }

  lemma {:induction false} DigitAdded(pre: string, c: char)
    requires AllDigits(pre) && IsDigit(c)
    ensures AllDigits(pre + [c]) && AddDigit(Value(pre) % WIDTH, c) == Value(pre + [c]) % WIDTH
  {
    assert (pre + [c])[..|pre|] == pre;
    var v, d := Value(pre), c as int - '0' as int;
    assert Value(pre + [c]) == v * 10 + d;
    TenTimes(v, d);
  }

  lemma {:induction false} TenTimes(v: nat, d: nat)
    ensures (v % WIDTH * 10 + d) % WIDTH == (v * 10 + d) % WIDTH
  {
    var q := v / WIDTH;
    assert v * 10 + d == (v % WIDTH * 10 + d) + WIDTH * (q * 10);
  }

  lemma {:induction false} NumberIs(pre: string, digits: string, t: string)
    requires AllDigits(pre) && AllDigits(digits) && (t != "" ==> !IsDigit(t[0]))
    ensures AllDigits(pre + digits) && Number(Value(pre) % WIDTH, digits + t) == Value(pre + digits) % WIDTH
    decreases |digits|
  {
    hide Value;
    if digits == "" {
      assert digits + t == t && pre + digits == pre;
    } else {
      var c := digits[0];
      assert (digits + t)[0] == c && (digits + t)[1..] == digits[1..] + t;
      assert pre + digits == pre + [c] + digits[1..];
      DigitAdded(pre, c);
      NumberIs(pre + [c], digits[1..], t);
    }
  }

  lemma {:induction false} NumberIsValue(digits: string, t: string)
    requires AllDigits(digits) && (t != "" ==> !IsDigit(t[0]))
    ensures Number(0, digits + t) == Value(digits) % WIDTH
  {
    assert "" + digits == digits;
    NumberIs("", digits, t);
  }

  // ----- A statement ---------------------------------------------------------------------------

  /** From the number on. */
  lemma {:induction false} NumberIsRead(digits: string, gap: string, file: string)
    requires digits != "" && AllDigits(digits) && gap != "" && AllBlanks(gap) && (file != "" ==> !IsBlank(file[0]))
    ensures NumberAndFile(digits + gap + file) == Some(Location(Value(digits) % WIDTH, file))
  {
    hide Value, Number;
    var w := gap + file;
    assert digits + gap + file == digits + w && w[0] == gap[0] && (digits + w)[0] == digits[0];
    DigitsDropped(digits, w);
    NumberIsValue(digits, w);
    BlanksDropped(gap, file);
  }

  lemma {:induction false} NumberIsThere(v: string) returns (digits: string, gap: string)
    requires NumberAndFile(v).Some?
    ensures var l := NumberAndFile(v).value;
            && v == digits + gap + l.file && digits != "" && AllDigits(digits) && gap != "" && AllBlanks(gap)
            && (l.file != "" ==> !IsBlank(l.file[0])) && l.iLine == Value(digits) % WIDTH
  {
    hide Value, Number;
    digits := DigitsFound(v);
    gap := BlanksFound(DropDigits(v));
    NumberIsValue(digits, DropDigits(v));
  }

  lemma {:induction false} WordIs(t: string)
    ensures IsWord(t) <==> |t| > 3 && t[..4] == "line"
  {
    if |t| > 3 {
      var w := t[..4];
      assert w[0] == t[0] && w[1] == t[1] && w[2] == t[2] && w[3] == t[3];
    }
  }

  lemma {:induction false} WordDropped(word: string, t: string)
    requires SkippedWord(word) && t != "" && IsDigit(t[0])
    ensures DropWord(word + t) == t && !IsBlank((word + t)[0])
  {
    WordIs(word + t);
    if word == "" {
      assert word + t == t;
    } else {
      assert (word + t)[..4] == word[..4] && (word + t)[5..] == t;
      assert (word + t)[0] == word[..4][0];
    }
  }

  lemma {:induction false} WordFound(v: string) returns (word: string)
    requires DropWord(v) != ""
    ensures SkippedWord(word) && v == word + DropWord(v)
  {
    WordIs(v);
    word := if IsWord(v) then v[..5] else "";
  }

  lemma {:induction false} StatementIsRead(t: string, blanks: string, word: string, digits: string, gap: string,
      file: string, n: nat)
    requires IsStatement(t, blanks, word, digits, gap, file, n)
    ensures LineStatement(t) == Some(Location(n, file))
  {
    hide AllBlanks, AllDigits, Value, SkippedWord, NumberAndFile, DropWord, DropBlanks;
    var v := digits + gap + file;
    assert v[0] == digits[0];
    assert t[1..] == blanks + (word + v);
    FirstDigit(digits);
    WordDropped(word, v);
    BlanksDropped(blanks, word + v);
    NumberIsRead(digits, gap, file);
  }

  lemma {:induction false} FirstDigit(digits: string)
    requires digits != "" && AllDigits(digits)
    ensures IsDigit(digits[0])
  {
  }

  lemma {:induction false} StatementIsThere(t: string, n: nat, file: string)
    requires LineStatement(t) == Some(Location(n, file))
    ensures exists blanks, word, digits, gap :: IsStatement(t, blanks, word, digits, gap, file, n)
  {
    hide AllBlanks, AllDigits, Value, SkippedWord, DropWord, DropBlanks;
    var blanks := BlanksFound(t[1..]);
    var v := DropBlanks(t[1..]);
    var word := WordFound(v);
    var digits, gap := NumberIsThere(DropWord(v));
    assert t == "#" + blanks + word + digits + gap + file;
    assert IsStatement(t, blanks, word, digits, gap, file, n);
  }

  /** The text starts with a line statement exactly if the grammar says so. */
  lemma {:induction false} StatementIs(t: string, n: nat, file: string)
    ensures LineStatement(t) == Some(Location(n, file)) <==>
            exists blanks, word, digits, gap :: IsStatement(t, blanks, word, digits, gap, file, n)
  {
    hide LineStatement, IsStatement;
    if LineStatement(t) == Some(Location(n, file)) {
      StatementIsThere(t, n, file);
    }
    if exists blanks, word, digits, gap :: IsStatement(t, blanks, word, digits, gap, file, n) {
      var blanks, word, digits, gap :| IsStatement(t, blanks, word, digits, gap, file, n);
      StatementIsRead(t, blanks, word, digits, gap, file, n);
    }
  }

  // ----- The kinds of lines -----------------------------------------------------------------------

  ghost predicate IsBlankLine(t: string) {
    exists a, u :: AllWhite(a) && AtEnd(u) && t == a + u
  }

  ghost predicate IsBraceLine(t: string) {
    exists a, b, u :: AllWhite(a) && AllWhite(b) && AtEnd(u) && t == a + "}" + (b + u)
  }

  ghost predicate IsStatementLine(t: string) {
    exists a, u :: AllWhite(a) && LineStatement(u).Some? && t == a + u
  }

  lemma {:induction false} SpacesAtEnd(a: string, u: string)
    requires AllWhite(a) && AtEnd(u)
    ensures DropSpaces(a + u) == u
  {
    SpacesDropped(a, u);
  }

  lemma {:induction false} BlankIs(t: string)
    ensures AtEnd(DropSpaces(t)) <==> IsBlankLine(t)
  {
    hide AllWhite, DropSpaces;
    var a := SpacesFound(t);
    if IsBlankLine(t) {
      var b, u :| AllWhite(b) && AtEnd(u) && t == b + u;
      SpacesAtEnd(b, u);
    }
  }

  lemma {:induction false} BraceIs(t: string)
    ensures var v := DropSpaces(t);
            (v != "" && v[0] == '}' && AtEnd(DropSpaces(v[1..]))) <==> IsBraceLine(t)
  {
    hide AllWhite, DropSpaces;
    var a := SpacesFound(t);
    var v := DropSpaces(t);
    if v != "" && v[0] == '}' && AtEnd(DropSpaces(v[1..])) {
      var b := SpacesFound(v[1..]);
      var u := DropSpaces(v[1..]);
      assert t == a + "}" + (b + u);
    }
    if IsBraceLine(t) {
      var c, d, u :| AllWhite(c) && AllWhite(d) && AtEnd(u) && t == c + "}" + (d + u);
      var w := "}" + (d + u);
      assert t == c + w && w[0] == '}' && w[1..] == d + u;
      SpacesDropped(c, w);
      SpacesAtEnd(d, u);
    }
  }

  lemma {:induction false} StatementLineIs(t: string)
    ensures LineStatement(DropSpaces(t)).Some? <==> IsStatementLine(t)
  {
    hide AllWhite, DropSpaces, LineStatement;
    var a := SpacesFound(t);
    if IsStatementLine(t) {
      var b, u :| AllWhite(b) && LineStatement(u).Some? && t == b + u;
      SpacesDropped(b, u);
    }
  }

  /** The four kinds, each by its looks. */
  lemma {:induction false} KindIs(t: string)
    ensures KindOf(t) == Kind.Blank <==> IsBlankLine(t)
    ensures KindOf(t) == Statement <==> IsStatementLine(t)
    ensures KindOf(t) == Brace <==> IsBraceLine(t)
    ensures KindOf(t) == Significant <==> !IsBlankLine(t) && !IsStatementLine(t) && !IsBraceLine(t)
  {
    hide DropSpaces, IsBlankLine, IsBraceLine, IsStatementLine, NumberAndFile;
    BlankIs(t);
    BraceIs(t);
    StatementLineIs(t);
  }
}
