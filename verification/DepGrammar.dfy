/** Which lines the dependency scanner takes a name from, without the scanner. */
module DepGrammar {
  import opened Basics
  import opened DepScan
  import D = DirectiveGrammar

  /** Inside the quotes: every quote is escaped by an odd run of backslashes, and the closing one is not. */
  predicate Quoted(raw: string) {
    && (forall k :: 0 <= k < |raw| && raw[k] == '"' ==> Escaped(raw, k))
    && !Escaped(raw, |raw|)
  }

  /** Blanks, a hash, "line" between blanks or blanks alone, a number, a quoted name with or without blanks in front
      of it, and anything behind. */
  ghost predicate IsDirective(s: string, lead: string, intro: string, digits: string, gap: string, raw: string,
      rest: string) {
    && s == lead + "#" + intro + digits + gap + "\"" + raw + "\"" + rest
    && D.AllBlanks(lead) && D.Intro(intro) && digits != "" && D.AllDigits(digits) && D.AllBlanks(gap) && Quoted(raw)
  }

  // ----- The parts of a text -------------------------------------------------------------------------

  lemma {:induction false} PartAt(s: string, k: nat, part: string, rest: string)
    requires k <= |s| && s[k..] == part + rest
    ensures k + |part| <= |s| && s[k..k + |part|] == part && s[k + |part|..] == rest
  {
    assert s[k..][..|part|] == part && s[k..][|part|..] == rest;
    assert s[k..k + |part|] == s[k..][..|part|] && s[k + |part|..] == s[k..][|part|..];
  }

  lemma {:induction false} CharPart(s: string, k: nat, c: char, rest: string)
    requires k <= |s| && s[k..] == [c] + rest
    ensures k < |s| && s[k] == c && s[k + 1..] == rest
  {
    assert s[k] == s[k..][0] && s[k + 1..] == s[k..][1..];
  }

  lemma {:induction false} FromTheRight(a: string, b: string, c: string, d: string)
    ensures a + b + c + d == a + (b + (c + d))
  {
  }

  // ----- The name -------------------------------------------------------------------------------------

  lemma {:induction false} BackslashesIn(s: string, t: string, i: nat)
    requires i <= |s| && i <= |t| && s[..i] == t[..i]
    ensures Backslashes(s, i) == Backslashes(t, i)
  {
    if i > 0 {
      assert s[i - 1] == s[..i][i - 1] == t[..i][i - 1] == t[i - 1];
      if s[i - 1] == '\\' {
        assert s[..i - 1] == s[..i][..i - 1] && t[..i - 1] == t[..i][..i - 1];
        BackslashesIn(s, t, i - 1);
      }
    }
  }

  /** The quote found is the one behind a quoted name. */
  lemma {:induction false} EndIs(s: string, q: nat, i: nat, raw: string)
    requires q <= i <= q + |raw| < |s| && s[q..q + |raw|] == raw && s[q + |raw|] == '"' && Quoted(raw)
    ensures EndQuote(s, q, i) == q + |raw|
    decreases |s| - i
  {
    hide Backslashes;
    assert s[q..i] == raw[..i - q];
    BackslashesIn(s[q..i], raw, i - q);
    if i < q + |raw| {
      assert s[i] == raw[i - q];
      EndIs(s, q, i + 1, raw);
    }
  }

  lemma {:induction false} FoundIsQuoted(s: string, q: nat, i: nat)
    requires q <= i <= |s| && EndQuote(s, q, i) < |s|
    ensures var j := EndQuote(s, q, i);
            && s[j] == '"' && !Escaped(s[q..j], j - q)
            && forall k :: i <= k < j && s[k] == '"' ==> Escaped(s[q..k], k - q)
    decreases |s| - i
  {
    hide Escaped;
    if !(s[i] == '"' && !Escaped(s[q..i], i - q)) {
      FoundIsQuoted(s, q, i + 1);
    }
  }

  lemma {:induction false} NameIsQuoted(s: string, q: nat)
    requires q <= |s| && EndQuote(s, q, q) < |s|
    ensures Quoted(s[q..EndQuote(s, q, q)]) && s[EndQuote(s, q, q)] == '"'
  {
    hide EndQuote, Backslashes;
    var j := EndQuote(s, q, q);
    FoundIsQuoted(s, q, q);
    var raw := s[q..j];
    forall k | 0 <= k < |raw| && raw[k] == '"' ensures Escaped(raw, k) {
      assert s[q + k] == '"' && Escaped(s[q..q + k], k);
      assert s[q..q + k][..k] == raw[..k];
      BackslashesIn(s[q..q + k], raw, k);
    }
  }

  // ----- Up to the name ----------------------------------------------------------------------------------

  /** Where the number starts is where the grammar has it. */
  lemma {:induction false} NumberIs(s: string, lead: string, intro: string, rest: string)
    requires s == lead + "#" + intro + rest && D.AllBlanks(lead) && D.Intro(intro) && rest != "" && IsDigit(rest[0])
    ensures NumberAt(s) == Some(|lead| + 1 + |intro|)
  {
    hide *;
    var h := |lead|;
    var d := h + 1 + |intro|;
    FrontParts(s, lead, intro, rest);
    D.NotBlank('#');
    NotBlankIs('#');
    D.BlanksStop(s, 0, h);
    IntroIs(s, h + 1, d);
    NumberAtIs(s, h, d);
  }

  lemma {:induction false} FrontParts(s: string, lead: string, intro: string, rest: string)
    requires s == lead + "#" + intro + rest && rest != ""
    ensures var h, d := |lead|, |lead| + 1 + |intro|;
            h < d < |s| && s[0..h] == lead && s[h] == '#' && s[h + 1..d] == intro && s[d..] == rest && s[d] == rest[0]
  {
    var h, d := |lead|, |lead| + 1 + |intro|;
    assert s[h + 1..d] == intro;
    assert s[d..] == rest;
  }

  lemma {:induction false} NotBlankIs(c: char)
    ensures c != ' ' && c != '\t' <==> !IsBlank(c)
  {
  }

  lemma {:induction false} NumberAtIs(s: string, h: nat, d: nat)
    requires h < d < |s| && h == SkipBlanks(s, 0) && s[h] == '#' && IsDigit(s[d])
    requires var l := SkipBlanks(s, h + 1);
             (HasLine(s, l) ==> SkipBlanks(s, l + 5) == d) && (!HasLine(s, l) ==> l > h + 1 && l == d)
    ensures NumberAt(s) == Some(d)
  {
    hide SkipBlanks;
  }

  /** Behind the hash. */
  lemma {:induction false} IntroIs(s: string, k: nat, d: nat)
    requires 1 <= k <= d < |s| && D.Intro(s[k..d]) && IsDigit(s[d])
    ensures var l := SkipBlanks(s, k);
            && (HasLine(s, l) ==> SkipBlanks(s, l + 5) == d)
            && (!HasLine(s, l) ==> l > k && l == d)
  {
    hide D.AllBlanks, SkipBlanks;
    var intro := s[k..d];
    if intro != "" && D.AllBlanks(intro) {
      D.BlanksStop(s, k, d);
    } else {
      var a, b :| D.AllBlanks(a) && D.AllBlanks(b) && b != "" && intro == a + "line" + b;
      WordAt(s, k, d, a, b);
      var l := k + |a|;
      D.BlanksStop(s, k, l);
      D.RestOfBlanks(s, l + 4, d);
      D.BlanksStop(s, l + 5, d);
    }
  }

  predicate HasLine(s: string, l: nat) {
    l + 4 < |s| && s[l..l + 4] == "line" && IsBlank(s[l + 4])
  }

  lemma {:induction false} WordAt(s: string, k: nat, d: nat, a: string, b: string)
    requires k <= d <= |s| && s[k..d] == a + "line" + b && b != ""
    ensures var l := k + |a|;
            l + 4 < d && s[k..l] == a && s[l..l + 4] == "line" && s[l] == 'l' && s[l + 4..d] == b && s[l + 4] == b[0]
  {
    var t, l := s[k..d], k + |a|;
    assert t[..|a|] == a && t[|a|..|a| + 4] == "line" && t[|a| + 4..] == b;
    SliceOfSlice(s, k, d, 0, |a|);
    SliceOfSlice(s, k, d, |a|, |a| + 4);
    SliceOfSlice(s, k, d, |a| + 4, |t|);
    assert s[l] == s[l..l + 4][0] && s[l + 4] == s[l + 4..d][0];
  }

  /** And the other way round. */
  lemma {:induction false} NumberHasIntro(s: string)
    requires NumberAt(s).Some?
    ensures var d, h := NumberAt(s).value, SkipBlanks(s, 0);
            && h < d < |s| && s[h] == '#' && IsDigit(s[d]) && D.AllBlanks(s[0..h]) && D.Intro(s[h + 1..d])
  {
    hide *;
    var h := SkipBlanks(s, 0);
    NumberCases(s);
    D.Skipped(s, 0);
    var l := SkipBlanks(s, h + 1);
    D.Skipped(s, h + 1);
    if HasLine(s, l) {
      var d := SkipBlanks(s, l + 5);
      D.Skipped(s, l + 5);
      HasLineIs(s, l);
      D.MoreBlanks(s, l + 4, d);
      WordIntro(s, h + 1, l, d);
    } else {
      BlankIntro(s[h + 1..l]);
    }
  }

  lemma {:induction false} NumberCases(s: string)
    requires NumberAt(s).Some?
    ensures var d, h := NumberAt(s).value, SkipBlanks(s, 0);
            h < d < |s| && s[h] == '#' && IsDigit(s[d]) &&
            var l := SkipBlanks(s, h + 1);
            (HasLine(s, l) ==> d == SkipBlanks(s, l + 5)) && (!HasLine(s, l) ==> l > h + 1 && l == d)
  {
    hide SkipBlanks;
    var h := SkipBlanks(s, 0);
    Further(s, 0);
    Further(s, h + 1);
    if HasLine(s, SkipBlanks(s, h + 1)) {
      Further(s, SkipBlanks(s, h + 1) + 5);
    }
  }

  lemma {:induction false} Further(s: string, i: nat)
    requires i <= |s|
    ensures i <= SkipBlanks(s, i) <= |s|
  {
    hide SkipBlanks;
  }

  lemma {:induction false} HasLineIs(s: string, l: nat)
    requires HasLine(s, l)
    ensures l + 4 < |s| && s[l..l + 4] == "line" && IsBlank(s[l + 4])
  {
  }

  lemma {:induction false} WordIntro(s: string, k: nat, l: nat, d: nat)
    requires k <= l && l + 5 <= d <= |s| && s[l..l + 4] == "line"
    requires D.AllBlanks(s[k..l]) && D.AllBlanks(s[l + 4..d])
    ensures D.Intro(s[k..d])
  {
    hide D.AllBlanks;
    assert s[k..d] == s[k..l] + s[l..l + 4] + s[l + 4..d];
    assert s[k..d] == s[k..l] + "line" + s[l + 4..d];
  }

  lemma {:induction false} BlankIntro(t: string)
    requires t != "" && D.AllBlanks(t)
    ensures D.Intro(t)
  {
    hide D.AllBlanks;
  }

  // ----- The whole line -----------------------------------------------------------------------------------

  lemma {:induction false} DirectiveIsRead(s: string, lead: string, intro: string, digits: string, gap: string,
      raw: string, rest: string)
    requires IsDirective(s, lead, intro, digits, gap, raw, rest)
    ensures LineName(s) == Some(raw)
  {
    hide *;
    DirectiveParts(s, lead, intro, digits, gap, raw, rest);
    var d := |lead| + 1 + |intro|;
    var e := d + |digits|;
    var q := e + |gap|;
    var tail := gap + ("\"" + (raw + ("\"" + rest)));
    FirstDigit(digits, tail);
    NumberIs(s, lead, intro, digits + tail);
    NameParts(s, d, digits, gap, raw, rest);
    NotADigit(s, e, q, gap);
    D.DigitsStop(s, d, e);
    NotBlankIs('"');
    D.NotBlank('"');
    D.BlanksStop(s, e, q);
    EndIs(s, q + 1, q + 1, raw);
    LineNameAt(s, d, e, q);
  }

  lemma {:induction false} NameParts(s: string, d: nat, digits: string, gap: string, raw: string, rest: string)
    requires d <= |s| && s[d..] == digits + (gap + ("\"" + (raw + ("\"" + rest))))
    ensures var e, q := d + |digits|, d + |digits| + |gap|;
            && q + 1 + |raw| < |s| && s[d..e] == digits && s[e..q] == gap && s[q] == '"'
            && s[q + 1..q + 1 + |raw|] == raw && s[q + 1 + |raw|] == '"'
  {
    var e, q := d + |digits|, d + |digits| + |gap|;
    PartAt(s, d, digits, gap + ("\"" + (raw + ("\"" + rest))));
    PartAt(s, e, gap, "\"" + (raw + ("\"" + rest)));
    CharPart(s, q, '"', raw + ("\"" + rest));
    PartAt(s, q + 1, raw, "\"" + rest);
    CharPart(s, q + 1 + |raw|, '"', rest);
  }

  lemma {:induction false} LineNameAt(s: string, d: nat, e: nat, q: nat)
    requires NumberAt(s) == Some(d) && d <= e <= q < |s| && SkipDigits(s, d) == e && SkipBlanks(s, e) == q
    requires s[q] == '"'
    ensures LineName(s) ==
            if EndQuote(s, q + 1, q + 1) < |s| then Some(s[q + 1..EndQuote(s, q + 1, q + 1)]) else None
  {
    hide NumberAt, SkipDigits, SkipBlanks, EndQuote;
  }

  lemma {:induction false} DirectiveParts(s: string, lead: string, intro: string, digits: string, gap: string,
      raw: string, rest: string)
    requires IsDirective(s, lead, intro, digits, gap, raw, rest)
    ensures D.AllBlanks(lead) && D.Intro(intro) && digits != "" && D.AllDigits(digits) && D.AllBlanks(gap)
    ensures Quoted(raw)
    ensures var tail := gap + ("\"" + (raw + ("\"" + rest)));
            && s == lead + "#" + intro + (digits + tail)
            && |lead| + 1 + |intro| <= |s| && s[|lead| + 1 + |intro|..] == digits + tail
  {
    hide D.Intro, D.AllBlanks, D.AllDigits, Quoted;
    var tail := gap + ("\"" + (raw + ("\"" + rest)));
    var front := lead + "#" + intro;
    assert s == front + digits + gap + "\"" + raw + "\"" + rest;
    FromTheRight(front + digits + gap, "\"", raw + "\"", rest);
    FromTheRight(front + digits + gap + "\"", raw, "\"", rest);
    assert s == front + (digits + tail);
  }

  lemma {:induction false} FirstDigit(digits: string, tail: string)
    requires digits != "" && D.AllDigits(digits)
    ensures digits + tail != "" && IsDigit((digits + tail)[0])
  {
    assert (digits + tail)[0] == digits[0];
  }

  lemma {:induction false} NotADigit(s: string, e: nat, q: nat, gap: string)
    requires e <= q < |s| && s[e..q] == gap && D.AllBlanks(gap) && s[q] == '"'
    ensures !IsDigit(s[e])
  {
    if e < q {
      assert s[e] == gap[0];
    }
  }

  lemma {:induction false} ReadIsDirective(s: string, raw: string)
    requires LineName(s) == Some(raw)
    ensures exists lead, intro, digits, gap, rest :: IsDirective(s, lead, intro, digits, gap, raw, rest)
  {
    hide NumberAt, D.Intro, D.AllBlanks, D.AllDigits, D.AllSpaces, SkipBlanks, SkipDigits, EndQuote, Quoted;
    NumberHasIntro(s);
    var d, h := NumberAt(s).value, SkipBlanks(s, 0);
    var e := SkipDigits(s, d);
    var q := SkipBlanks(s, e);
    D.Skipped(s, d);
    D.Skipped(s, e);
    NameIsQuoted(s, q + 1);
    var j := EndQuote(s, q + 1, q + 1);
    var (lead, intro, digits) := (s[0..h], s[h + 1..d], s[d..e]);
    var (gap, rest) := (s[e..q], s[j + 1..]);
    MoreDigits(s, d, e);
    Assembled(s, h, d, e, q, j);
    assert IsDirective(s, lead, intro, digits, gap, raw, rest);
  }

  lemma {:induction false} MoreDigits(s: string, d: nat, e: nat)
    requires d < |s| && IsDigit(s[d]) && e == SkipDigits(s, d)
    ensures d < e
  {
  }

  lemma {:induction false} Assembled(s: string, h: nat, d: nat, e: nat, q: nat, j: nat)
    requires h < d <= e <= q < j < |s| && s[h] == '#' && s[q] == '"' && s[j] == '"'
    ensures s == s[0..h] + "#" + s[h + 1..d] + s[d..e] + s[e..q] + "\"" + s[q + 1..j] + "\"" + s[j + 1..]
  {
    assert s == s[0..h] + [s[h]] + s[h + 1..d] + s[d..e] + s[e..q] + [s[q]] + s[q + 1..j] + [s[j]] + s[j + 1..];
  }

  /** A line gives the name exactly if the grammar says so. */
  lemma {:induction false} LineNameIs(s: string, raw: string)
    ensures LineName(s) == Some(raw) <==>
            exists lead, intro, digits, gap, rest :: IsDirective(s, lead, intro, digits, gap, raw, rest)
  {
    hide LineName, IsDirective;
    if LineName(s) == Some(raw) {
      ReadIsDirective(s, raw);
    }
    if exists lead, intro, digits, gap, rest :: IsDirective(s, lead, intro, digits, gap, raw, rest) {
      var lead, intro, digits, gap, rest :| IsDirective(s, lead, intro, digits, gap, raw, rest);
      DirectiveIsRead(s, lead, intro, digits, gap, raw, rest);
    }
  }
}
