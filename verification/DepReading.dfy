/** What the lines of a dependency file say, whoever wrote it. */
module DepReading {
  import opened Basics
  import opened DepNames
  import opened DepGraph
  import opened DepFile

  predicate Blanks(s: string) {
    forall k :: 0 <= k < |s| ==> IsBlank(s[k])
  }

  predicate Spaces(s: string) {
    forall k :: 0 <= k < |s| ==> s[k] == ' '
  }

  /** A word: neither blanks nor quotes at its ends, and no backslash behind. */
  predicate IsWord(s: string) {
    && s != "" && !IsBlank(s[0]) && !IsQuote(s[0])
    && !IsBlank(s[|s| - 1]) && !IsQuote(s[|s| - 1]) && s[|s| - 1] != '\\'
  }

  /** A name as it may stand in the file: a word, or anything between quotes. */
  predicate Shows(text: string, name: string) {
    || (text == name && IsWord(name))
    || (|text| == |name| + 2 && name != "" && IsQuote(text[0]) && IsQuote(text[|text| - 1]) &&
        text[1..|text| - 1] == name)
  }

  /** Space that does not make the whole line an empty one. */
  predicate Indent(s: string) {
    Blanks(s) && (s != "" ==> s[0] != '\t')
  }

  // ----- Trimming ---------------------------------------------------------------------

  lemma {:induction false} SpacesTrimmed(t: string, tail: string)
    requires Spaces(tail) && (t == "" || t[|t| - 1] != ' ')
    ensures TrimSpaces(t + tail) == t
    decreases |tail|
  {
    if tail == "" {
      assert t + tail == t;
    } else {
      assert (t + tail)[..|t + tail| - 1] == t + tail[..|tail| - 1];
      SpacesTrimmed(t, tail[..|tail| - 1]);
    }
  }

  lemma {:induction false} BlanksTrimmed(lead: string, t: string)
    requires Blanks(lead)
    ensures Trim(lead + t) == Trim(t)
  {
    if lead == "" {
      assert lead + t == t;
    } else {
      assert (lead + t)[1..] == lead[1..] + t;
      BlanksTrimmed(lead[1..], t);
    }
  }

  lemma {:induction false} ShownEnds(text: string, name: string)
    requires Shows(text, name)
    ensures text != "" && !IsBlank(text[0]) && !IsBlank(text[|text| - 1]) && text[|text| - 1] != '\\'
    ensures TrimQuotes(text) == name
  {
    if text != name || !IsWord(name) {
      var t := text[1..];
      assert t[|t| - 1] == text[|text| - 1] && t[..|t| - 1] == text[1..|text| - 1];
    }
  }

  lemma {:induction false} TextTrimmed(lead: string, text: string, tail: string)
    requires Blanks(lead) && Spaces(tail) && text != "" && !IsBlank(text[0]) && !IsBlank(text[|text| - 1])
    ensures Trim(lead + text + tail) == text
  {
    assert lead + text + tail == lead + (text + tail) && (text + tail)[0] == text[0];
    BlanksTrimmed(lead, text + tail);
    SpacesTrimmed(text, tail);
  }

  // ----- Dependants -----------------------------------------------------------------------

  function End(more: bool): string {
    if more then "\\" else ""
  }

  lemma {:induction false} DepShown(lead: string, text: string, tail: string, more: bool, name: string)
    requires Blanks(lead) && Spaces(tail) && Shows(text, name) && (more || tail == "")
    ensures DepPart(lead + text + tail + End(more)) == (more, [NewDep(name)])
  {
    hide Shows, TrimQuotes, Trim;
    ShownEnds(text, name);
    TextTrimmed(lead, text, tail);
    var t := lead + text + tail;
    if more {
      assert (t + End(more))[..|t|] == t;
    } else {
      assert t + End(more) == t;
      assert t[|t| - 1] == text[|text| - 1];
    }
    NameThere(text, name);
  }

  lemma {:induction false} NameThere(text: string, name: string)
    requires Shows(text, name)
    ensures name != ""
  {
  }

  /** Among the dependants, a line is one more, and whether they go on is for a backslash at its end to say. */
  lemma {:induction false} DepMeans(r: Reader, lead: string, text: string, tail: string, more: bool, name: string)
    requires r.fMoreDeps && Indent(lead) && Spaces(tail) && Shows(text, name)
    requires lead == "" ==> text[0] != '#'
    ensures ScanLine(r, lead + text + tail + End(more)) == (r.(fMoreDeps := more), [NewDep(name)])
  {
    hide Shows, DepPart, TrimQuotes, ColonAt;
    ShownEnds(text, name);
    var t := lead + text;
    var line := t + tail + End(more);
    assert t[|t| - 1] == text[|text| - 1] && line[0] == t[0];
    if more {
      assert line[|line| - 1] == '\\';
      SpacesTrimmed(line, "");
      assert line + "" == line;
      DepShown(lead, text, tail, true, name);
    } else {
      assert line == t + tail;
      SpacesTrimmed(t, tail);
      assert t == t + "" + End(false);
      DepShown(lead, text, "", false, name);
    }
  }

  /** A line that ends them: one of spaces, or any that starts with a tab. */
  lemma {:induction false} GapMeans(r: Reader, line: string)
    requires Spaces(line) || (line != "" && line[0] == '\t')
    ensures ScanLine(r, line) == (r.(fMoreDeps := false), [])
  {
    if Spaces(line) {
      assert "" + line == line;
      SpacesTrimmed("", line);
    }
  }

  // ----- Rules ------------------------------------------------------------------------------

  /** Behind the name and its gap, no other colon comes first. */
  predicate FirstColon(head: string) {
    forall k :: 0 <= k < |head| && head[k] == ':' ==> k + 1 < |head| && !IsBlank(head[k + 1])
  }

  /** What follows the colon: nothing, or something behind a blank, or a backslash alone; no spaces at the end. */
  predicate Follows(rest: string) {
    (rest == "" || IsBlank(rest[0]) || rest == "\\") && (rest != "" ==> rest[|rest| - 1] != ' ')
  }

  lemma {:induction false} ColonThere(head: string, rest: string)
    requires FirstColon(head) && Follows(rest)
    ensures ColonAt(head + ":" + rest, 0) == Some(|head|)
  {
    var s := head + ":" + rest;
    forall k | 0 <= k < |head|
      ensures !EndsRule(s, k)
    {
      assert s[k] == head[k];
      if k + 1 < |head| {
        assert s[k + 1] == head[k + 1];
        if head[k] == ':' && head[k + 1] == '\\' {
          assert k + 2 < |s|;
        }
      }
    }
    assert s[|head|] == ':' && (rest != "" ==> s[|head| + 1] == rest[0]);
    NoColonBefore(s, 0, |head|);
  }

  /** One backslash, and it is at the end. */
  predicate OneBackslash(rest: string) {
    rest != "" && rest[|rest| - 1] == '\\' && forall k :: 0 <= k < |rest| - 1 ==> rest[k] != '\\'
  }

  lemma {:induction false} ContinuesIs(head: string, rest: string)
    ensures Continues(head + ":" + rest, |head|) <==> OneBackslash(rest)
  {
    var s := head + ":" + rest;
    assert forall k :: 0 <= k < |rest| ==> s[|head| + 1 + k] == rest[k];
    assert s[|head|] == ':';
    if OneBackslash(rest) {
      forall k | |head| <= k < |s| - 1
        ensures s[k] != '\\'
      {
        if k > |head| {
          assert s[k] == rest[k - |head| - 1];
        }
      }
    }
    if Continues(s, |head|) {
      forall k | 0 <= k < |rest| - 1
        ensures rest[k] != '\\'
      {
        assert s[|head| + 1 + k] == rest[k];
      }
    }
  }

  lemma {:induction false} RuleScanned(r: Reader, text: string, gap: string, rest: string, name: string)
    requires !r.fMoreDeps && Spaces(gap) && Shows(text, name) && text[0] != '#'
    requires FirstColon(text + gap) && Follows(rest)
    ensures ScanLine(r, text + gap + ":" + rest) ==
            if OneBackslash(rest) then
              (Reader(DepPart(rest).0, None), [NewRule(name, TimeStamp(r.prev))] + DepPart(rest).1)
            else (Reader(false, None), [NewRule(name, TimeStamp(r.prev))])
  {
    hide Shows, DepPart, TrimQuotes, ColonAt, Continues, OneBackslash, FirstColon, TimeStamp;
    ShownEnds(text, name);
    var head := text + gap;
    var s := head + ":" + rest;
    assert s[0] == text[0] && s[..|head|] == head && s[|head| + 1..] == rest;
    assert s[|s| - 1] == if rest == "" then ':' else rest[|rest| - 1];
    assert s + "" == s;
    SpacesTrimmed(s, "");
    SpacesTrimmed(text, gap);
    ColonThere(head, rest);
    ContinuesIs(head, rest);
    assert head[0] == text[0];
  }

  /** A name and a colon start a rule, with the timestamp of the comment above. If a backslash behind blanks ends the
      line, dependants follow; one may stand in front of it, if it has no backslash itself. */
  lemma {:induction false} RuleMeans(r: Reader, text: string, gap: string, lead: string, dep: string, tail: string,
      name: string, d: string)
    requires !r.fMoreDeps && Spaces(gap) && Shows(text, name) && text[0] != '#' && FirstColon(text + gap)
    requires Blanks(lead) && Spaces(tail) && Shows(dep, d) && lead != "" && '\\' !in dep
    ensures var rule := NewRule(name, TimeStamp(r.prev));
            && ScanLine(r, text + gap + ":") == (Reader(false, None), [rule])
            && ScanLine(r, text + gap + ":" + (lead + "\\")) == (Reader(true, None), [rule])
            && ScanLine(r, text + gap + ":" + (lead + dep)) == (Reader(false, None), [rule])
            && ScanLine(r, text + gap + ":" + (lead + dep + tail + "\\")) == (Reader(true, None), [rule, NewDep(d)])
  {
    hide ScanLine, Shows, DepPart, FirstColon, TimeStamp;
    ShownEnds(dep, d);
    var rule := NewRule(name, TimeStamp(r.prev));
    assert text + gap + ":" + "" == text + gap + ":";
    RuleScanned(r, text, gap, "", name);
    NothingShown(lead);
    RuleScanned(r, text, gap, lead + "\\", name);
    assert [rule] + [] == [rule];
    var rest := lead + dep;
    assert rest[|rest| - 1] == dep[|dep| - 1] && rest[0] == lead[0];
    RuleScanned(r, text, gap, rest, name);
    DepShown(lead, dep, tail, true, d);
    var whole := lead + dep + tail + "\\";
    OnlyOne(lead, dep, tail);
    RuleScanned(r, text, gap, whole, name);
    assert [rule] + [NewDep(d)] == [rule, NewDep(d)];
  }

  lemma {:induction false} OnlyOne(lead: string, dep: string, tail: string)
    requires Blanks(lead) && Spaces(tail) && '\\' !in dep && lead != ""
    ensures OneBackslash(lead + dep + tail + "\\") && Follows(lead + dep + tail + "\\")
  {
    var s := lead + dep + tail;
    forall k | 0 <= k < |s|
      ensures s[k] != '\\'
    {
      assert s[k] in lead || s[k] in dep || s[k] in tail;
    }
    assert (s + "\\")[0] == lead[0];
  }

  lemma {:induction false} NothingShown(lead: string)
    requires Blanks(lead) && lead != ""
    ensures DepPart(lead + "\\") == (true, []) && OneBackslash(lead + "\\") && Follows(lead + "\\")
  {
    var s := lead + "\\";
    assert s[..|s| - 1] == lead && s[0] == lead[0];
    assert lead + "" == lead;
    BlanksTrimmed(lead, "");
    forall k | 0 <= k < |s| - 1
      ensures s[k] != '\\'
    {
      assert s[k] == lead[k];
    }
  }

  /** A dependant with a backslash in it, on the rule's own line, is lost, and so is what follows on other lines. */
  lemma {:induction false} BackslashLoses(r: Reader, text: string, gap: string, lead: string, dep: string, name: string)
    requires !r.fMoreDeps && Spaces(gap) && Shows(text, name) && text[0] != '#' && FirstColon(text + gap)
    requires Blanks(lead) && lead != "" && '\\' in dep
    ensures ScanLine(r, text + gap + ":" + (lead + dep + "\\")) ==
            (Reader(false, None), [NewRule(name, TimeStamp(r.prev))])
  {
    hide ScanLine, Shows, DepPart, FirstColon, TimeStamp;
    var rest := lead + dep + "\\";
    var i :| 0 <= i < |dep| && dep[i] == '\\';
    assert rest[0] == lead[0] && rest[|lead| + i] == '\\';
    RuleScanned(r, text, gap, rest, name);
  }

  /** Any other line starts no rule, and takes the timestamp away. */
  lemma {:induction false} OthersMean(r: Reader, line: string)
    requires !r.fMoreDeps && TrimR(line) != "" && line[0] != '#'
    requires IsBlank(line[0]) || ':' !in line
    ensures ScanLine(r, line) == (Reader(false, None), [])
  {
    TrimSpacesPart(line);
    var s := TrimR(line);
    if ':' !in line {
      assert forall k :: 0 <= k < |s| ==> s[k] in line;
      NoColon(s, 0);
    }
  }

  lemma {:induction false} TrimSpacesPart(s: string)
    ensures TrimSpaces(s) <= s
  {
    if s != "" && s[|s| - 1] == ' ' {
      TrimSpacesPart(s[..|s| - 1]);
    }
  }

  lemma {:induction false} NoColon(s: string, i: nat)
    requires i <= |s| && ':' !in s
    ensures ColonAt(s, i).None?
    decreases |s| - i
  {
    if i < |s| {
      assert s[i] in s;
      NoColon(s, i + 1);
    }
  }

  /** Reading the name of a rule that is there keeps its dependants exactly if the rule has been updated already, or
      has this timestamp and is valid and nothing forces a new scan; else they start anew. */
  lemma {:induction false} RuleKept(t: Tree, name: string, ts: string, o: Options)
    requires Real(name) in t.rules
    ensures var n := Real(name);
            var was, t' := t.rules[n], ApplyEvent(t, NewRule(name, ts), o);
            && n in t'.rules
            && (t'.handle == None <==> was.fUpdated || (!o.fForceScan && was.szTS == ts && o.fValid(n)))
            && (t'.handle == None ==> t'.rules[n] == was.(fUpdated := true))
            && (t'.handle != None ==> t'.handle == Some(n) && t'.rules[n] == Rule([], o.fAppend, ts))
            && (forall m :: m in t.rules && m != n ==> m in t'.rules && t'.rules[m] == t.rules[m])
  {
    hide Real;
  }

  // ----- Which names come back -------------------------------------------------------------

  lemma {:induction false} QuotesShorten(w: string)
    ensures |TrimQuotes(w)| <= |w|
    ensures w != "" && (IsQuote(w[0]) || IsQuote(w[|w| - 1])) ==> |TrimQuotes(w)| < |w|
  {
  }

  /** A name without blanks is written as it is, but for its escapes. */
  lemma {:induction false} WrittenPlain(name: string)
    requires name != "" && !HasBlank(name)
    ensures var w := Written(name);
            && w == Make(name) && w != "" && !IsBlank(w[0]) && w[0] != '#'
            && (IsQuote(w[0]) <==> IsQuote(name[0])) && w[|w| - 1] == name[|name| - 1] && !IsBlank(w[|w| - 1])
  {
    MakeIs(name);
    assert !IsBlank(name[0]) && !IsBlank(name[|name| - 1]);
    DepFile.MakeStep(name);
  }

  lemma {:induction false} SpaceIsBlank(c: char)
    ensures !IsBlank(c) ==> c != ' ' && c != '\t'
  {
  }

  /** A dependant comes back as it is exactly if its ends are plain. */
  lemma {:induction false} DepSurvives(r: Reader, name: string)
    requires r.fMoreDeps && name != "" && OneLine(name)
    ensures ScanLine(r, "    " + Written(name)) == (r.(fMoreDeps := false), [NewDep(Make(name))]) <==> EndsPlain(name)
  {
    hide Written, Make, OneLine, HasBlank, TrimSpaces, Trim, TrimQuotes, ColonAt;
    var w := Written(name);
    if EndsPlain(name) {
      PlainEnds(name);
      DepMeans(r, "    ", w, "", false, Make(name));
      assert "    " + w + "" + End(false) == "    " + w;
    } else {
      NotPlain(name);
      WrittenPlain(name);
      SpaceIsBlank(w[|w| - 1]);
      var s := "    " + w;
      assert s[|s| - 1] == w[|w| - 1];
      assert s + "" == s && s == "    " + w + "";
      SpacesTrimmed(s, "");
      TextTrimmed("    ", w, "");
      QuotesShorten(w);
    }
  }

  lemma {:induction false} NotPlain(name: string)
    requires name != "" && !EndsPlain(name)
    ensures !HasBlank(name)
    ensures IsQuote(name[0]) || IsQuote(name[|name| - 1]) || name[|name| - 1] == '\\'
  {
  }

  lemma {:induction false} PlainEnds(name: string)
    requires name != "" && EndsPlain(name)
    ensures Shows(Written(name), Make(name)) && Written(name)[0] != '#'
  {
    hide Make;
    MakeIs(name);
    if HasBlank(name) {
      var w := "\"" + Make(name) + "\"";
      assert w[1..|w| - 1] == Make(name);
    } else {
      WrittenPlain(name);
    }
  }

  /** A colon before a blank is one in the escaped name too. */
  lemma {:induction false} ColonMade(name: string, k: nat) returns (i: nat)
    requires k + 1 < |name| && name[k] == ':' && IsBlank(name[k + 1])
    ensures i + 1 < |Make(name)| && Make(name)[i] == ':' && IsBlank(Make(name)[i + 1])
  {
    DepFile.MakeStep(name);
    if k == 0 {
      DepFile.MakeStep(name[1..]);
      i := 0;
    } else {
      var j := ColonMade(name[1..], k - 1);
      i := j + if NeedsEscape(name) then 2 else 1;
    }
  }

  lemma {:induction false} FirstIs(s: string, i: nat, at: nat)
    requires i <= at < |s| && EndsRule(s, at)
    ensures ColonAt(s, i).Some? && ColonAt(s, i).value <= at
    decreases at - i
  {
    if i < at {
      FirstIs(s, i + 1, at);
    }
  }

  /** A rule's name comes back as it is exactly if it is good. */
  lemma {:induction false} NameSurvives(r: Reader, name: string)
    requires !r.fMoreDeps && name != "" && OneLine(name) && (HasBlank(name) || name[|name| - 1] != '\\')
    ensures ScanLine(r, Written(name) + ":") == (Reader(false, None), [NewRule(Make(name), TimeStamp(r.prev))]) <==>
            GoodName(name)
  {
    hide Written, Make, OneLine, HasBlank, ScanLine, EndsPlain, TimeStamp;
    if GoodName(name) {
      NameLine(r, name, false);
      assert Written(name) + ":" + "" == Written(name) + ":";
    } else if !EndsPlain(name) {
      NotPlain(name);
      QuoteLost(r, name);
    } else {
      var k :| 0 <= k < |name| - 1 && name[k] == ':' && IsBlank(name[k + 1]);
      ColonCuts(r, name, k);
    }
  }

  lemma {:induction false} QuoteLost(r: Reader, name: string)
    requires !r.fMoreDeps && name != "" && !EndsPlain(name) && name[|name| - 1] != '\\'
    ensures ScanLine(r, Written(name) + ":").1 != [NewRule(Make(name), TimeStamp(r.prev))]
  {
    hide Written, Make, HasBlank, TimeStamp, TrimSpaces, TrimQuotes, EndsPlain;
    var w := Written(name);
    var s := w + ":";
    NotPlain(name);
    WrittenPlain(name);
    QuotesShorten(w);
    RuleNamed(r, w);
  }

  /** What the name read can be at most. */
  lemma {:induction false} RuleNamed(r: Reader, w: string)
    requires !r.fMoreDeps && w != "" && !IsBlank(w[0]) && w[0] != '#' && !IsBlank(w[|w| - 1])
    ensures var events := ScanLine(r, w + ":").1;
            var at := ColonAt(w + ":", 0);
            && at.Some? && at.value <= |w| && events != [] && events[0].NewRule?
            && (at.value == |w| ==> events[0].name == TrimQuotes(w))
            && events[0].name == TrimQuotes(TrimR((w + ":")[..at.value])) && |events[0].name| <= at.value
  {
    hide TrimQuotes, TimeStamp, Continues, DepPart, EndsRule;
    var s := w + ":";
    SpaceIsBlank(w[0]);
    SpaceIsBlank(w[|w| - 1]);
    assert s[0] == w[0] && s[|s| - 1] == ':';
    TrimRKeeps(s);
    TrimRKeeps(w);
    EndsThere(w);
    FirstIs(s, 0, |w|);
    var at := ColonAt(s, 0).value;
    assert s[..|w|] == w;
    TrimSpacesPart(s[..at]);
    QuotesShorten(TrimR(s[..at]));
  }

  lemma {:induction false} EndsThere(w: string)
    ensures EndsRule(w + ":", |w|)
  {
  }

  lemma {:induction false} ColonCuts(r: Reader, name: string, k: nat)
    requires !r.fMoreDeps && k + 1 < |name| && name[k] == ':' && IsBlank(name[k + 1])
    ensures ScanLine(r, Written(name) + ":").1 != [NewRule(Make(name), TimeStamp(r.prev))]
  {
    hide Make, TimeStamp, TrimSpaces, TrimQuotes, ScanLine, ColonAt;
    assert HasBlank(name);
    var m, w := Make(name), Written(name);
    assert w == "\"" + m + "\"" && w[0] == '"' && w[|w| - 1] == '"';
    var i := ColonMade(name, k);
    var s := w + ":";
    assert s[i + 1] == m[i] && s[i + 2] == m[i + 1];
    FirstIs(s, 0, i + 1);
    RuleNamed(r, w);
  }
}
