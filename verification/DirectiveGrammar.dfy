/** What line directives look like, without the scanner. */
module DirectiveGrammar {
  import opened Basics
  import opened LineControl

  // ----- The grammar --------------------------------------------------------------------

  predicate AllSpaces(s: string) {
    forall k :: 0 <= k < |s| ==> s[k] == ' ' || s[k] == '\t' || s[k] == '\r'
  }

  predicate AllBlanks(s: string) {
    forall k :: 0 <= k < |s| ==> s[k] == ' ' || s[k] == '\t'
  }

  predicate AllDigits(s: string) {
    forall k :: 0 <= k < |s| ==> '0' <= s[k] <= '9'
  }

  /** The number that the digits stand for. */
  function Value(digits: string): nat
    requires AllDigits(digits)
  {
    if digits == "" then 0
    else Value(digits[..|digits| - 1]) * 10 + (digits[|digits| - 1] as int - '0' as int)
  }

  /** What stands between the hash and the number: the word "line" with blanks behind it, or blanks. */
  ghost predicate Intro(s: string) {
    || (s != "" && AllBlanks(s))
    || exists a, b :: AllBlanks(a) && AllBlanks(b) && b != "" && s == a + "line" + b
  }

  /** What stands behind the number: blanks, with or without a quoted name among them. */
  ghost predicate Tail(s: string, name: Option<string>) {
    match name
    case None => AllBlanks(s)
    case Some(f) =>
      && '"' !in f
      && exists a, b :: AllBlanks(a) && a != "" && AllBlanks(b) && s == a + "\"" + f + "\"" + b
  }

  ghost predicate IsControl(line: string, lead: string, intro: string, digits: string, tail: string, n: nat,
      name: Option<string>) {
    && line == lead + "#" + intro + digits + tail
    && AllSpaces(lead) && Intro(intro) && digits != "" && AllDigits(digits) && Tail(tail, name)
    && n == Value(digits) % LINE_MOD
  }

  // ----- Scanning over what there is ------------------------------------------------------

  lemma {:induction false} NumberIsValue(s: string)
    requires AllDigits(s) && forall k :: 0 <= k < |s| ==> IsDigit(s[k])
    ensures NumberOf(s) == Value(s) % LINE_MOD
  {
    if s != "" {
      var init, d := s[..|s| - 1], s[|s| - 1] as int - '0' as int;
      NumberIsValue(init);
      var v, w := Value(init), NumberOf(init);
      assert (w * 10 % LINE_MOD + d) % LINE_MOD == (v * 10 + d) % LINE_MOD by {
        ModTen(v, w, d);
      }
    }
  }

  lemma {:induction false} ModTen(v: nat, w: nat, d: nat)
    requires w == v % LINE_MOD
    ensures (w * 10 % LINE_MOD + d) % LINE_MOD == (v * 10 + d) % LINE_MOD
  {
  }

  lemma {:induction false} BlanksStop(s: string, i: nat, j: nat)
    requires i <= j <= |s| && AllBlanks(s[i..j]) && (j < |s| ==> s[j] != ' ' && s[j] != '\t')
    ensures SkipBlanks(s, i) == j
  {
    forall k | i <= k < j ensures IsBlank(s[k]) {
      assert s[k] == s[i..j][k - i];
    }
    var r := SkipBlanks(s, i);
  }

  lemma {:induction false} SpacesStop(s: string, j: nat)
    requires j <= |s| && AllSpaces(s[..j]) && (j < |s| ==> !IsSpace(s[j]))
    ensures SkipSpaces(s, 0) == j
  {
    forall k | 0 <= k < j ensures IsSpace(s[k]) {
      assert s[k] == s[..j][k];
    }
    var r := SkipSpaces(s, 0);
  }

  lemma {:induction false} DigitsStop(s: string, i: nat, j: nat)
    requires i <= j <= |s| && AllDigits(s[i..j]) && (j < |s| ==> !IsDigit(s[j]))
    ensures SkipDigits(s, i) == j
  {
    forall k | i <= k < j ensures IsDigit(s[k]) {
      assert s[k] == s[i..j][k - i];
    }
    var r := SkipDigits(s, i);
  }

  lemma {:induction false} QuoteStop(s: string, i: nat, j: nat)
    requires i <= j < |s| && '"' !in s[i..j] && s[j] == '"'
    ensures FindQuote(s, i) == j
  {
    forall k | i <= k < j ensures s[k] != '"' {
      assert s[k] == s[i..j][k - i];
    }
    var r := FindQuote(s, i);
  }

  lemma {:induction false} Skipped(s: string, i: nat)
    requires i <= |s|
    ensures AllBlanks(s[i..SkipBlanks(s, i)])
    ensures AllDigits(s[i..SkipDigits(s, i)])
    ensures AllSpaces(s[..SkipSpaces(s, 0)])
  {
  }

  // ----- Behind the number -----------------------------------------------------------------

  /** Where the parts of t = a "f" b are, for t at the end of s. */
  lemma {:induction false} QuotedParts(s: string, j: nat, a: string, f: string, b: string)
    requires j <= |s| && s[j..] == a + "\"" + f + "\"" + b
    ensures var m, q := j + |a|, j + |a| + 1 + |f|;
            q < |s| && s[j..m] == a && s[m] == '"' && s[m + 1..q] == f && s[q] == '"' && s[q + 1..] == b
  {
    var t := s[j..];
    assert t[..|a|] == a && t[|a|] == '"' && t[|a| + 1..|a| + 1 + |f|] == f && t[|a| + 1 + |f|] == '"';
    assert t[|a| + 2 + |f|..] == b;
    SliceOfSlice(s, j, |s|, 0, |a|);
    SliceOfSlice(s, j, |s|, |a| + 1, |a| + 1 + |f|);
    SliceOfSlice(s, j, |s|, |a| + 2 + |f|, |t|);
  }

  lemma {:induction false} QuotedTail(s: string, j: nat, m: nat, q: nat)
    requires j <= m < q < |s| && s[m] == '"' && s[q] == '"'
    ensures s[j..] == s[j..m] + "\"" + s[m + 1..q] + "\"" + s[q + 1..]
  {
  }

  /** The grammar gives the scanner what it looks for. */
  lemma {:induction false} TailIsParsed(s: string, j: nat, n: nat, name: Option<string>)
    requires j <= |s| && Tail(s[j..], name)
    ensures ParseName(s, j, n) == Directive(n, name)
  {
    hide AllBlanks, SkipBlanks, FindQuote, ParseName;
    match name
    case None =>
      assert s[j..|s|] == s[j..];
      BlanksStop(s, j, |s|);
      NoNameParsed(s, j, n);
    case Some(f) =>
      var a, b :| AllBlanks(a) && a != "" && AllBlanks(b) && s[j..] == a + "\"" + f + "\"" + b;
      QuotedParts(s, j, a, f, b);
      var m := j + |a|;
      var q := m + 1 + |f|;
      assert s[q + 1..|s|] == b;
      BlanksStop(s, j, m);
      QuoteStop(s, m + 1, q);
      BlanksStop(s, q + 1, |s|);
      NameParsed(s, j, n, m, q);
  }

  lemma {:induction false} NoNameParsed(s: string, j: nat, n: nat)
    requires j <= |s| && SkipBlanks(s, j) == |s|
    ensures ParseName(s, j, n) == Directive(n, None)
  {
    hide SkipBlanks, FindQuote;
  }

  lemma {:induction false} NameParsed(s: string, j: nat, n: nat, m: nat, q: nat)
    requires j <= m < q < |s| && SkipBlanks(s, j) == m && s[m] == '"' && FindQuote(s, m + 1) == q
    requires SkipBlanks(s, q + 1) == |s|
    ensures ParseName(s, j, n) == Directive(n, Some(s[m + 1..q]))
  {
    hide SkipBlanks, FindQuote;
  }

  lemma {:induction false} NoQuote(s: string, i: nat)
    requires i <= |s|
    ensures '"' !in s[i..FindQuote(s, i)]
  {
  }

  lemma {:induction false} TailWith(s: string, a: string, f: string, b: string)
    requires AllBlanks(a) && a != "" && AllBlanks(b) && '"' !in f && s == a + "\"" + f + "\"" + b
    ensures Tail(s, Some(f))
  {
  }

  lemma {:induction false} TailWithout(s: string)
    requires AllBlanks(s)
    ensures Tail(s, None)
  {
  }

  /** What the scanner has found. */
  lemma {:induction false} NameFound(s: string, j: nat, n: nat)
    requires j <= |s| && ParseName(s, j, n).Directive?
    ensures ParseName(s, j, n).number == n
    ensures match ParseName(s, j, n).name
            case None => SkipBlanks(s, j) == |s|
            case Some(f) =>
              var m := SkipBlanks(s, j);
              m < |s| && s[m] == '"' &&
              var q := FindQuote(s, m + 1);
              q < |s| && SkipBlanks(s, q + 1) == |s| && f == s[m + 1..q]
  {
    hide SkipBlanks, FindQuote;
  }

  lemma {:induction false} QuotedIsTail(s: string, j: nat, m: nat, q: nat)
    requires j < m < q < |s| && s[m] == '"' && s[q] == '"' && AllBlanks(s[j..m]) && AllBlanks(s[q + 1..])
    requires '"' !in s[m + 1..q]
    ensures Tail(s[j..], Some(s[m + 1..q]))
  {
    hide AllBlanks, Tail;
    QuotedTail(s, j, m, q);
    TailWith(s[j..], s[j..m], s[m + 1..q], s[q + 1..]);
  }

  lemma {:induction false} ParsedIsTail(s: string, j: nat, n: nat)
    requires j <= |s| && ParseName(s, j, n).Directive? && (j < |s| ==> IsBlank(s[j]))
    ensures ParseName(s, j, n).number == n && Tail(s[j..], ParseName(s, j, n).name)
  {
    hide *;
    NameFound(s, j, n);
    var m := SkipBlanks(s, j);
    Skipped(s, j);
    if ParseName(s, j, n).name.Some? {
      var q := FindQuote(s, m + 1);
      Skipped(s, q + 1);
      NoQuote(s, m + 1);
      assert s[q + 1..|s|] == s[q + 1..];
      NotBlank('"');
      QuotedIsTail(s, j, m, q);
    } else {
      assert s[j..m] == s[j..];
      TailWithout(s[j..]);
    }
  }

  lemma {:induction false} NotBlank(c: char)
    ensures IsBlank(c) ==> c != '"' && c != '#' && !IsDigit(c)
  {
  }

  // ----- The number and what leads to it --------------------------------------------------------

  /** Behind the number comes neither a digit nor anything else that is not a blank. */
  lemma {:induction false} TailStarts(tail: string, name: Option<string>)
    requires Tail(tail, name) && tail != ""
    ensures IsBlank(tail[0])
  {
    if name.Some? {
      var f := name.value;
      var a, b :| AllBlanks(a) && a != "" && AllBlanks(b) && tail == a + "\"" + f + "\"" + b;
      assert tail[0] == a[0];
    }
  }

  lemma {:induction false} NumberIsParsed(s: string, k: nat, digits: string, tail: string, name: Option<string>)
    requires k <= |s| && s[k..] == digits + tail && digits != "" && AllDigits(digits) && Tail(tail, name)
    ensures k < |s| && IsDigit(s[k]) && ParseNumber(s, k) == Directive(Value(digits) % LINE_MOD, name)
  {
    hide ParseName, Value, NumberOf, Tail;
    var j := k + |digits|;
    assert s[k..j] == digits && s[j..] == tail;
    assert s[k] == s[k..][0] == digits[0];
    if tail != "" {
      TailStarts(tail, name);
      assert s[j] == s[j..][0] == tail[0];
    }
    DigitsStop(s, k, j);
    NumberIsValue(digits);
    TailIsParsed(s, j, NumberOf(digits), name);
  }

  lemma {:induction false} ParsedIsNumber(s: string, k: nat) returns (digits: string, tail: string)
    requires k <= |s| && ParseNumber(s, k).Directive?
    ensures s[k..] == digits + tail && digits != "" && AllDigits(digits)
    ensures ParseNumber(s, k).number == Value(digits) % LINE_MOD && Tail(tail, ParseNumber(s, k).name)
  {
    hide ParseName, Value, NumberOf, Tail;
    var j := SkipDigits(s, k);
    Skipped(s, k);
    digits, tail := s[k..j], s[j..];
    NumberIsValue(digits);
    ParsedIsTail(s, j, NumberOf(digits));
  }

  /** Where the parts of the word are. */
  lemma {:induction false} WordParts(s: string, k: nat, a: string, b: string)
    requires 1 <= k <= |s| && s[1..k] == a + "line" + b && b != ""
    ensures var i := 1 + |a|;
            && i + 4 < k && s[1..i] == a && s[i..i + 4] == "line" && s[i + 4..k] == b
            && s[i] == 'l' && s[i + 1] == 'i' && s[i + 2] == 'n' && s[i + 3] == 'e' && s[i + 4] == b[0]
  {
    var t, i := s[1..k], 1 + |a|;
    assert t[..|a|] == a && t[|a|..|a| + 4] == "line" && t[|a| + 4..] == b;
    SliceOfSlice(s, 1, k, 0, |a|);
    SliceOfSlice(s, 1, k, |a|, |a| + 4);
    SliceOfSlice(s, 1, k, |a| + 4, |t|);
    var w := s[i..i + 4];
    assert w[0] == 'l' && w[1] == 'i' && w[2] == 'n' && w[3] == 'e' && s[i + 4] == s[i + 4..k][0];
    assert s[i] == w[0] && s[i + 1] == w[1] && s[i + 2] == w[2] && s[i + 3] == w[3];
  }

  lemma {:induction false} LineWord(s: string, i: nat, k: nat)
    requires HasLineWord(s, i) && 1 <= i && i + 5 <= k <= |s|
    ensures s[1..k] == s[1..i] + "line" + s[i + 4..k]
  {
    assert s[i..i + 4] == "line";
    assert s[1..k] == s[1..i] + s[i..i + 4] + s[i + 4..k];
  }

  /** Behind the blanks. */
  lemma {:induction false} RestOfBlanks(s: string, i: nat, k: nat)
    requires i < k <= |s| && AllBlanks(s[i..k])
    ensures AllBlanks(s[i + 1..k]) && IsBlank(s[i])
  {
    assert s[i] == s[i..k][0];
    assert s[i + 1..k] == s[i..k][1..];
  }

  lemma {:induction false} MoreBlanks(s: string, i: nat, k: nat)
    requires i < k <= |s| && AllBlanks(s[i + 1..k]) && IsBlank(s[i])
    ensures AllBlanks(s[i..k])
  {
    forall j | 0 <= j < k - i ensures s[i..k][j] == ' ' || s[i..k][j] == '\t' {
      if j > 0 {
        assert s[i..k][j] == s[i + 1..k][j - 1];
      }
    }
  }

  /** From the hash on, k being where the number starts. */
  lemma {:induction false} IntroIsParsed(s: string, k: nat)
    requires 1 <= k < |s| && s[0] == '#' && Intro(s[1..k]) && IsDigit(s[k])
    ensures ParseDirective(s) == ParseNumber(s, k)
  {
    hide ParseNumber, AllBlanks, SkipBlanks;
    var intro := s[1..k];
    if intro != "" && AllBlanks(intro) {
      BlanksStop(s, 1, k);
    } else {
      var a, b :| AllBlanks(a) && AllBlanks(b) && b != "" && intro == a + "line" + b;
      WordParts(s, k, a, b);
      var i := 1 + |a|;
      BlanksStop(s, 1, i);
      RestOfBlanks(s, i + 4, k);
      BlanksStop(s, i + 5, k);
    }
  }

  /** And where the scanner finds it. */
  lemma {:induction false} ParsedIsIntro(s: string) returns (k: nat)
    requires ParseDirective(s).Directive?
    ensures 1 <= k <= |s| && s[0] == '#' && Intro(s[1..k]) && ParseDirective(s) == ParseNumber(s, k)
  {
    hide ParseNumber, AllBlanks, SkipBlanks, AllDigits, AllSpaces;
    var i := SkipBlanks(s, 1);
    Skipped(s, 1);
    if HasLineWord(s, i) {
      k := SkipBlanks(s, i + 5);
      Skipped(s, i + 5);
      MoreBlanks(s, i + 4, k);
      LineWord(s, i, k);
    } else {
      k := i;
    }
  }

  // ----- The whole line ---------------------------------------------------------------------------

  lemma {:induction false} ControlIsRead(line: string, lead: string, intro: string, digits: string, tail: string,
      n: nat,
      name: Option<string>)
    requires IsControl(line, lead, intro, digits, tail, n, name)
    ensures Classify(line) == Control(n, name)
  {
    hide ParseDirective, ParseNumber, Intro, Tail, Value, AllSpaces, AllDigits;
    var i := |lead|;
    var s, k := line[i..], 1 + |intro|;
    assert line[..i] == lead && s == "#" + intro + digits + tail && line[i] == s[0];
    assert s[1..k] == intro && s[k..] == digits + tail;
    SpacesStop(line, i);
    NumberIsParsed(s, k, digits, tail, name);
    IntroIsParsed(s, k);
  }

  lemma {:induction false} Assembled(line: string, i: nat, k: nat, digits: string, tail: string)
    requires i < |line| && line[i] == '#' && 1 <= k <= |line| - i && line[i..][k..] == digits + tail
    ensures line == line[..i] + "#" + line[i..][1..k] + digits + tail
  {
    var s := line[i..];
    assert s == "#" + s[1..k] + (digits + tail);
    assert line == line[..i] + s;
  }

  lemma {:induction false} ReadIsControl(line: string, n: nat, name: Option<string>)
    requires Classify(line) == Control(n, name)
    ensures exists lead, intro, digits, tail :: IsControl(line, lead, intro, digits, tail, n, name)
  {
    hide ParseDirective, ParseNumber, Intro, Tail, Value, AllSpaces, AllDigits, AllBlanks;
    var i := SkipSpaces(line, 0);
    Skipped(line, 0);
    var s := line[i..];
    var k := ParsedIsIntro(s);
    var digits, tail := ParsedIsNumber(s, k);
    Assembled(line, i, k, digits, tail);
    assert IsControl(line, line[..i], s[1..k], digits, tail, n, name);
  }

  /** A line is a directive with this number and name exactly if the grammar says so. */
  lemma {:induction false} ControlIs(line: string, n: nat, name: Option<string>)
    ensures Classify(line) == Control(n, name) <==>
            exists lead, intro, digits, tail :: IsControl(line, lead, intro, digits, tail, n, name)
  {
    hide Classify, IsControl;
    if Classify(line) == Control(n, name) {
      ReadIsControl(line, n, name);
    }
    if exists lead, intro, digits, tail :: IsControl(line, lead, intro, digits, tail, n, name) {
      var lead, intro, digits, tail :| IsControl(line, lead, intro, digits, tail, n, name);
      ControlIsRead(line, lead, intro, digits, tail, n, name);
    }
  }

  /** The lines that count for nothing but their number. */
  lemma {:induction false} BlankIs(line: string)
    ensures Classify(line) == Kind.Blank <==> AllSpaces(line)
  {
    hide ParseDirective;
    Skipped(line, 0);
    var i := SkipSpaces(line, 0);
    if i == |line| {
      assert line[..i] == line;
    }
  }

  /** Both forms of a directive mean the same, with a name and without one. */
  lemma {:induction false} BothForms(blanks: string, n: nat, name: string)
    requires AllBlanks(blanks) && blanks != "" && n < LINE_MOD && '"' !in name
    ensures Classify("#" + blanks + Decimal(n)) == Classify("#line" + blanks + Decimal(n)) == Control(n, None)
    ensures var tail := " \"" + name + "\"";
            && Classify("#" + blanks + Decimal(n) + tail) == Control(n, Some(name))
            && Classify("#line" + blanks + Decimal(n) + tail) == Control(n, Some(name))
  {
    hide Classify, Value, Decimal;
    var d, tail := Decimal(n), " \"" + name + "\"";
    NumberIsValue(d);
    NumberOfDecimal(n);
    assert "" + "line" + blanks == "line" + blanks;
    assert Intro("line" + blanks) && Intro(blanks);
    assert tail == " " + "\"" + name + "\"" + "";
    assert Tail("", None) && Tail(tail, Some(name));
    assert "#" + blanks + d == "" + "#" + blanks + d + "";
    assert "#line" + blanks + d == "" + "#" + ("line" + blanks) + d + "";
    assert "#line" + blanks + d + tail == "" + "#" + ("line" + blanks) + d + tail;
    assert "#" + blanks + d + tail == "" + "#" + blanks + d + tail;
    ControlIsRead("#" + blanks + d, "", blanks, d, "", n, None);
    ControlIsRead("#line" + blanks + d, "", "line" + blanks, d, "", n, None);
    ControlIsRead("#" + blanks + d + tail, "", blanks, d, tail, n, Some(name));
    ControlIsRead("#line" + blanks + d + tail, "", "line" + blanks, d, tail, n, Some(name));
  }

  // ----- What the reader of names relies on ---------------------------------------------------------

  ghost predicate IsNumbered(s: string, intro: string, digits: string, rest: string) {
    && s == "#" + intro + digits + rest && Intro(intro) && digits != "" && AllDigits(digits)
    && (rest != "" ==> IsBlank(rest[0]))
  }

  lemma {:induction false} NumberIsThere(s: string, k: nat, digits: string, rest: string)
    requires k <= |s| && s[k..] == digits + rest && digits != "" && AllDigits(digits)
    requires rest != "" ==> IsBlank(rest[0])
    ensures k < |s| && IsDigit(s[k]) && NumberAt(s, k)
  {
    var j := k + |digits|;
    assert s[k..j] == digits && s[j..] == rest;
    assert s[k] == s[k..][0] == digits[0];
    if rest != "" {
      assert s[j] == s[j..][0] == rest[0];
    }
    DigitsStop(s, k, j);
  }

  lemma {:induction false} IntroThere(s: string, k: nat)
    requires 1 <= k < |s| && s[0] == '#' && Intro(s[1..k]) && IsDigit(s[k]) && NumberAt(s, k)
    ensures Numbered(s)
  {
    hide NumberAt, AllBlanks, SkipBlanks;
    var intro := s[1..k];
    if intro != "" && AllBlanks(intro) {
      BlanksStop(s, 1, k);
    } else {
      var a, b :| AllBlanks(a) && AllBlanks(b) && b != "" && intro == a + "line" + b;
      WordParts(s, k, a, b);
      var i := 1 + |a|;
      BlanksStop(s, 1, i);
      RestOfBlanks(s, i + 4, k);
      BlanksStop(s, i + 5, k);
    }
  }

  lemma {:induction false} IntroFound(s: string) returns (k: nat)
    requires Numbered(s)
    ensures 1 <= k <= |s| && s[0] == '#' && Intro(s[1..k]) && NumberAt(s, k)
  {
    hide NumberAt, AllBlanks, SkipBlanks, AllDigits, AllSpaces;
    var i := SkipBlanks(s, 1);
    Skipped(s, 1);
    if HasLineWord(s, i) {
      k := SkipBlanks(s, i + 5);
      Skipped(s, i + 5);
      MoreBlanks(s, i + 4, k);
      LineWord(s, i, k);
    } else {
      k := i;
    }
  }

  lemma {:induction false} NumberedFound(s: string)
    requires Numbered(s)
    ensures exists intro, digits, rest :: IsNumbered(s, intro, digits, rest)
  {
    hide Intro, NumberAt, AllDigits, Numbered;
    var k := IntroFound(s);
    NumberParts(s, k);
    var j := SkipDigits(s, k);
    assert s == "#" + s[1..k] + s[k..j] + s[j..];
    assert IsNumbered(s, s[1..k], s[k..j], s[j..]);
  }

  lemma {:induction false} NumberedThere(s: string, intro: string, digits: string, rest: string)
    requires IsNumbered(s, intro, digits, rest)
    ensures Numbered(s)
  {
    hide Intro, NumberAt, AllDigits, Numbered;
    var k := 1 + |intro|;
    assert s[1..k] == intro && s[k..] == digits + rest;
    NumberIsThere(s, k, digits, rest);
    IntroThere(s, k);
  }

  /** A line gets as far as a number exactly if it is a hash, what may lead to a number, digits, and nothing or a
      blank behind them. */
  lemma {:induction false} NumberedIs(s: string)
    ensures Numbered(s) <==> exists intro, digits, rest :: IsNumbered(s, intro, digits, rest)
  {
    hide Numbered, IsNumbered;
    if Numbered(s) {
      NumberedFound(s);
    }
    if exists intro, digits, rest :: IsNumbered(s, intro, digits, rest) {
      var intro, digits, rest :| IsNumbered(s, intro, digits, rest);
      NumberedThere(s, intro, digits, rest);
    }
  }

  lemma {:induction false} NumberParts(s: string, k: nat)
    requires k <= |s| && NumberAt(s, k)
    ensures var j := SkipDigits(s, k);
            && s[k..j] != "" && AllDigits(s[k..j]) && (s[j..] != "" ==> IsBlank(s[j..][0]))
  {
    Skipped(s, k);
  }
}
