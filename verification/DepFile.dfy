/** The dependency file: what is written for the rules, and how it is read back. */
module DepFile {
  import opened Basics
  import opened DepNames
  import opened DepGraph

  // ----- Trimming ---------------------------------------------------------------------

  function TrimSpaces(s: string): string {
    if s != [] && s[|s| - 1] == ' ' then TrimSpaces(s[..|s| - 1]) else s
  }

  /** trimR: trailing spaces go, but no tabs; where a tab starts the string, everything goes. */
  function TrimR(s: string): string {
    if s != [] && s[0] == '\t' then [] else TrimSpaces(s)
  }

  /** trim. */
  function Trim(s: string): string {
    if s != [] && IsBlank(s[0]) then Trim(s[1..]) else TrimR(s)
  }

  predicate IsQuote(c: char) {
    c == '"' || c == '\''
  }

  /** trimQuotes: one quote at each end. */
  function TrimQuotes(s: string): string {
    var t := if s != [] && IsQuote(s[0]) then s[1..] else s;
    if t != [] && IsQuote(t[|t| - 1]) then t[..|t| - 1] else t
  }

  // ----- Writing ------------------------------------------------------------------------

  predicate HasBlank(s: string) {
    exists i :: 0 <= i < |s| && IsBlank(s[i])
  }

  /** A name as it is written. */
  function Written(name: string): string {
    if HasBlank(name) then "\"" + Make(name) + "\"" else Make(name)
  }

  function DepLines(deps: seq<string>): seq<string> {
    if deps == [] then []
    else ["    " + Written(deps[0]) + (if |deps| > 1 then " \\" else "")] + DepLines(deps[1..])
  }

  function RuleLines(name: string, rule: Rule): seq<string> {
    ["# " + rule.szTS, Written(name) + ":" + (if rule.deps != [] then " \\" else "")] + DepLines(rule.deps) + [""]
  }

  predicate Listed(g: Rules, names: seq<string>) {
    forall n :: n in names ==> n in g
  }

  function AllRuleLines(g: Rules, names: seq<string>): seq<string>
    requires Listed(g, names)
  {
    if names == [] then [] else RuleLines(names[0], g[names[0]]) + AllRuleLines(g, names[1..])
  }

  // ----- Reading ------------------------------------------------------------------------

  /** What the reader asks of the rules: a new rule, or one more dependant of the current one. */
  datatype Event = NewRule(name: string, ts: string) | NewDep(name: string)

  /** The reader between two lines. */
  datatype Reader = Reader(fMoreDeps: bool, prev: Option<string>)

  predicate EndsRule(s: string, i: nat)
    requires i < |s|
  {
    s[i] == ':' && (i + 1 == |s| || IsBlank(s[i + 1]) || (s[i + 1] == '\\' && i + 2 == |s|))
  }

  /** The colon that ends the rule's name. */
  function ColonAt(s: string, i: nat): (r: Option<nat>)
    requires i <= |s|
    ensures r.Some? ==> i <= r.value < |s| && EndsRule(s, r.value)
    decreases |s| - i
  {
    if i == |s| then None else if EndsRule(s, i) then Some(i) else ColonAt(s, i + 1)
  }

  /** The first backslash from i on is the last character. */
  predicate Continues(s: string, i: nat)
    requires i <= |s|
  {
    |s| > i && s[|s| - 1] == '\\' && forall k :: i <= k < |s| - 1 ==> s[k] != '\\'
  }

  /** The timestamp in a comment of more than 25 characters. */
  function TimeStamp(prev: Option<string>): string {
    if prev.Some? && |prev.value| > 25 then prev.value[2..] else []
  }

  /** The dependant on a line, or on the rest of it. */
  function DepPart(s: string): (bool, seq<Event>) {
    var more := s != [] && s[|s| - 1] == '\\';
    var name := TrimQuotes(Trim(if more then s[..|s| - 1] else s));
    (more, if name == [] then [] else [NewDep(name)])
  }

  function ScanLine(r: Reader, line: string): (Reader, seq<Event>) {
    var s := TrimR(line);
    if s == [] then (r.(fMoreDeps := false), [])
    else if s[0] == '#' then (r.(prev := Some(s)), [])
    else if r.fMoreDeps then
      var (more, events) := DepPart(s);
      (r.(fMoreDeps := more), events)
    else if IsBlank(s[0]) || ColonAt(s, 0).None? then (Reader(false, None), [])
    else
      var i := ColonAt(s, 0).value;
      var rule := NewRule(TrimQuotes(TrimR(s[..i])), TimeStamp(r.prev));
      if Continues(s, i) then
        var (more, events) := DepPart(s[i + 1..]);
        (Reader(more, None), [rule] + events)
      else (Reader(false, None), [rule])
  }

  function ScanLines(r: Reader, lines: seq<string>): (Reader, seq<Event>)
    decreases |lines|
  {
    if lines == [] then (r, [])
    else
      var (r1, e1) := ScanLine(r, lines[0]);
      var (r2, e2) := ScanLines(r1, lines[1..]);
      (r2, e1 + e2)
  }

  lemma {:induction false} ScanConcat(r: Reader, a: seq<string>, b: seq<string>)
    ensures var (r1, e1) := ScanLines(r, a);
            var (r2, e2) := ScanLines(r1, b);
            ScanLines(r, a + b) == (r2, e1 + e2)
    decreases |a|
  {
    hide ScanLine;
    if a == [] {
      assert a + b == b && [] + ScanLines(r, b).1 == ScanLines(r, b).1;
    } else {
      assert (a + b)[0] == a[0] && (a + b)[1..] == a[1..] + b;
      ScanConcat(ScanLine(r, a[0]).0, a[1..], b);
      var e0 := ScanLine(r, a[0]).1;
      var (r1, e1) := ScanLines(ScanLine(r, a[0]).0, a[1..]);
      var e2 := ScanLines(r1, b).1;
      assert e0 + (e1 + e2) == (e0 + e1) + e2;
    }
  }

  // ----- What comes back is what was written -------------------------------------------------

  /** What is written in quotes, or needs none: no quotes at its ends, and no backslash behind. */
  predicate EndsPlain(s: string) {
    HasBlank(s) || (s != [] && !IsQuote(s[0]) && !IsQuote(s[|s| - 1]) && s[|s| - 1] != '\\')
  }

  /** Names that survive: not empty, plain at the ends unless quoted, without line breaks or terminators, no colon
      before a blank. */
  predicate GoodName(s: string) {
    && s != [] && EndsPlain(s) && OneLine(s)
    && (forall i :: 0 <= i < |s| - 1 && s[i] == ':' ==> !IsBlank(s[i + 1]))
  }

  /** Timestamps that survive: none at all, or at least 24 characters without a space at the end, on one line. */
  predicate GoodStamp(ts: string) {
    ts == [] || (|ts| >= 24 && ts[|ts| - 1] != ' ' && OneLine(ts))
  }

  lemma {:induction false} MakeStep(s: string)
    ensures s == [] ==> Make(s) == []
    ensures s != [] ==> Make(s) == (if NeedsEscape(s) then ['^', s[0]] else [s[0]]) + Make(s[1..])
  {
    hide NeedsEscape;
  }

  /** Escaping adds nothing but carets, and nothing at the end. */
  lemma {:induction false} MakeIs(s: string)
    ensures forall c :: c in Make(s) ==> c == '^' || c in s
    ensures s != [] ==> Make(s) != [] && Make(s)[|Make(s)| - 1] == s[|s| - 1]
    ensures s != [] ==> Make(s)[0] == s[0] || Make(s)[0] == '^'
    ensures s != [] && s[0] == '#' ==> Make(s)[0] == '^'
  {
    hide Make;
    MakeStep(s);
    if s != [] {
      MakeIs(s[1..]);
      assert forall c :: c in s[1..] ==> c in s;
      assert |s| > 1 ==> s[1..][|s| - 2] == s[|s| - 1];
      MakeStep(s[1..]);
    }
  }

  /** A colon in the escaped name is not followed by a blank either. */
  lemma {:induction false} MakeColon(s: string, i: nat)
    requires i + 1 < |Make(s)| && Make(s)[i] == ':' && IsBlank(Make(s)[i + 1])
    ensures exists k :: 0 <= k < |s| - 1 && s[k] == ':' && IsBlank(s[k + 1])
  {
    var n := if NeedsEscape(s) then 2 else 1;
    var rest := Make(s[1..]);
    assert forall k :: n <= k < |Make(s)| ==> Make(s)[k] == rest[k - n];
    if i >= n {
      MakeColon(s[1..], i - n);
      var k :| 0 <= k < |s[1..]| - 1 && s[1..][k] == ':' && IsBlank(s[1..][k + 1]);
      assert s[k + 1] == ':' && IsBlank(s[k + 1 + 1]);
    } else {
      MakeIs(s[1..]);
      assert s[0] == ':' && IsBlank(s[0 + 1]);
    }
  }

  lemma {:induction false} TrimSpacesKeeps(s: string)
    requires s == [] || s[|s| - 1] != ' '
    ensures TrimSpaces(s) == s && TrimSpaces(s + " ") == s
  {
    assert (s + " ")[..|s|] == s;
  }

  /** A written name neither starts nor ends like something else. */
  lemma {:induction false} WrittenIs(name: string)
    requires GoodName(name)
    ensures var w := Written(name);
            && w != [] && !IsBlank(w[0]) && w[0] != '#' && w[|w| - 1] != ' ' && w[|w| - 1] != '\\'
            && TrimQuotes(w) == Make(name)
  {
    MakeIs(name);
    var m := Make(name);
    if HasBlank(name) {
      var w := "\"" + m + "\"";
      assert w[1..] == m + "\"" && (m + "\"")[..|m|] == m;
    } else {
      assert !IsBlank(name[0]) && !IsBlank(name[|name| - 1]);
      assert !IsQuote(name[0]) && !IsQuote(name[|name| - 1]);
    }
  }

  lemma {:induction false} NoColonBefore(s: string, i: nat, at: nat)
    requires i <= at < |s| && EndsRule(s, at) && forall k :: i <= k < at ==> !EndsRule(s, k)
    ensures ColonAt(s, i) == Some(at)
    decreases at - i
  {
    if i < at {
      NoColonBefore(s, i + 1, at);
    }
  }

  /** The first colon that ends a rule's name is the one written behind it. */
  lemma {:induction false} ColonIs(name: string, tail: string)
    requires GoodName(name) && (tail == "" || tail == " \\")
    ensures ColonAt(Written(name) + ":" + tail, 0) == Some(|Written(name)|)
  {
    var w := Written(name);
    var s := w + ":" + tail;
    WrittenIs(name);
    forall k | 0 <= k < |w| ensures !EndsRule(s, k) {
      assert s[k] == w[k];
      if k + 1 < |w| {
        assert s[k + 1] == w[k + 1];
        NotInside(name, k);
      } else {
        assert s[k + 1] == ':';
      }
    }
    NoColonBefore(s, 0, |w|);
  }

  lemma {:induction false} NotInside(name: string, k: nat)
    requires GoodName(name) && k + 1 < |Written(name)|
    ensures !(Written(name)[k] == ':' && IsBlank(Written(name)[k + 1]))
  {
    var w, m := Written(name), Make(name);
    var n := if HasBlank(name) then 1 else 0;
    if w[k] == ':' && IsBlank(w[k + 1]) {
      assert k >= n && k + 1 - n < |m| && m[k - n] == ':' && IsBlank(m[k + 1 - n]);
      MakeColon(name, k - n);
    }
  }

  /** The timestamp's line. */
  lemma {:induction false} StampLine(r: Reader, ts: string)
    requires GoodStamp(ts)
    ensures ScanLine(r, "# " + ts).1 == []
    ensures var r' := ScanLine(r, "# " + ts).0; r'.fMoreDeps == r.fMoreDeps && TimeStamp(r'.prev) == ts
  {
    var s := "# " + ts;
    if ts == [] {
      assert s[..1] == "#" && TrimSpaces(s) == TrimSpaces("#") == "#";
    } else {
      TrimSpacesKeeps(s);
      assert s[2..] == ts;
    }
  }

  lemma {:induction false} TrimSpacesShorter(s: string)
    ensures |TrimSpaces(s)| <= |s|
    ensures s != [] && s[|s| - 1] == ' ' ==> |TrimSpaces(s)| < |s|
  {
    if s != [] && s[|s| - 1] == ' ' {
      TrimSpacesShorter(s[..|s| - 1]);
    }
  }

  /** Exactly these timestamps survive. */
  lemma {:induction false} StampSurvives(r: Reader, ts: string)
    requires OneLine(ts)
    ensures TimeStamp(ScanLine(r, "# " + ts).0.prev) == ts <==> GoodStamp(ts)
  {
    var s := "# " + ts;
    if GoodStamp(ts) {
      StampLine(r, ts);
    } else {
      TrimSpacesHead(s);
      TrimSpacesShorter(s);
      if ts[|ts| - 1] != ' ' {
        TrimSpacesKeeps(s);
      }
    }
  }

  lemma {:induction false} TrimAround(w: string)
    requires w != [] && !IsBlank(w[0]) && w[|w| - 1] != ' '
    ensures TrimR(w) == w && Trim(w) == w && Trim(w + " ") == w && Trim("    " + w) == w && Trim("    " + w + " ") == w
  {
    TrimSpacesKeeps(w);
    assert (w + " ")[0] == w[0];
    FourBlanks(w);
    FourBlanks(w + " ");
    assert "    " + w + " " == "    " + (w + " ");
  }

  lemma {:induction false} FourBlanks(s: string)
    ensures Trim("    " + s) == Trim(s)
  {
    var a, b, c, d := "    " + s, "   " + s, "  " + s, " " + s;
    assert a[1..] == b && b[1..] == c && c[1..] == d && d[1..] == s;
    assert Trim(a) == Trim(b);
    assert Trim(c) == Trim(d);
  }

  lemma {:induction false} TrimRKeeps(s: string)
    requires s != [] && s[0] != '\t' && s[|s| - 1] != ' '
    ensures TrimR(s) == s
  {
    TrimSpacesKeeps(s);
  }

  /** A dependant's line, inside a rule. */
  lemma {:induction false} DepLine(r: Reader, dep: string, more: bool)
    requires GoodName(dep) && r.fMoreDeps
    ensures ScanLine(r, "    " + Written(dep) + (if more then " \\" else "")) ==
              (r.(fMoreDeps := more), [NewDep(Make(dep))])
  {
    var w := Written(dep);
    var s := "    " + w + (if more then " \\" else "");
    WrittenIs(dep);
    MakeIs(dep);
    TrimAround(w);
    hide Written, Make, Trim, TrimQuotes;
    assert s[0] == ' ' && s[|s| - 1] == if more then '\\' else w[|w| - 1];
    TrimRKeeps(s);
    if more {
      assert s[..|s| - 1] == "    " + w + " ";
    } else {
      assert s == "    " + w;
    }
    DepPartIs(s, more, Make(dep));
    hide DepPart, TrimR;
  }

  lemma {:induction false} DepPartIs(s: string, more: bool, name: string)
    requires s != [] && (s[|s| - 1] == '\\' <==> more) && name != []
    requires TrimQuotes(Trim(if more then s[..|s| - 1] else s)) == name
    ensures DepPart(s) == (more, [NewDep(name)])
  {
  }

  /** The line with the rule's name. */
  lemma {:induction false} NameLine(r: Reader, name: string, more: bool)
    requires GoodName(name) && !r.fMoreDeps
    ensures ScanLine(r, Written(name) + ":" + (if more then " \\" else "")) ==
            (Reader(more, None), [NewRule(Make(name), TimeStamp(r.prev))])
  {
    var w, tail := Written(name), if more then " \\" else "";
    var s := w + ":" + tail;
    WrittenIs(name);
    ColonIs(name, tail);
    TrimAround(w);
    hide Written, Make, Trim, TrimQuotes, ColonAt, TimeStamp;
    assert s[0] == w[0] && s[|s| - 1] == if more then '\\' else ':';
    TrimRKeeps(s);
    assert s[..|w|] == w;
    NameTail(s, w, more);
    var rule := NewRule(Make(name), TimeStamp(r.prev));
    assert [rule] + [] == [rule];
    hide TrimR, DepPart, Continues;
  }

  lemma {:induction false} NameTail(s: string, w: string, more: bool)
    requires s == w + ":" + (if more then " \\" else "")
    ensures Continues(s, |w|) <==> more
    ensures more ==> DepPart(s[|w| + 1..]) == (true, [])
  {
    if more {
      assert s[|w| + 1..] == " \\" && " \\"[..1] == " " && " "[1..] == "";
    }
  }

  function DepEvents(deps: seq<string>): seq<Event> {
    if deps == [] then [] else [NewDep(Make(deps[0]))] + DepEvents(deps[1..])
  }

  function RuleEvents(name: string, rule: Rule): seq<Event> {
    [NewRule(Make(name), rule.szTS)] + DepEvents(rule.deps)
  }

  function AllEvents(g: Rules, names: seq<string>): seq<Event>
    requires Listed(g, names)
  {
    if names == [] then [] else RuleEvents(names[0], g[names[0]]) + AllEvents(g, names[1..])
  }

  predicate GoodNames(names: seq<string>) {
    forall i :: 0 <= i < |names| ==> GoodName(names[i])
  }

  predicate GoodRules(g: Rules) {
    forall n :: n in g ==> GoodName(n) && GoodStamp(g[n].szTS) && GoodNames(g[n].deps)
  }

  lemma {:induction false} ScanOne(r: Reader, line: string, rest: seq<string>)
    ensures ScanLines(r, [line] + rest) ==
            (ScanLines(ScanLine(r, line).0, rest).0, ScanLine(r, line).1 + ScanLines(ScanLine(r, line).0, rest).1)
  {
    hide ScanLine;
    assert ([line] + rest)[1..] == rest;
  }

  lemma {:induction false} DepLinesRead(r: Reader, deps: seq<string>)
    requires GoodNames(deps) && (r.fMoreDeps <==> deps != [])
    ensures ScanLines(r, DepLines(deps)) == (r.(fMoreDeps := false), DepEvents(deps))
    decreases |deps|
  {
    hide ScanLine, Written;
    if deps != [] {
      var more := |deps| > 1;
      var line := "    " + Written(deps[0]) + (if more then " \\" else "");
      DepLine(r, deps[0], more);
      DepLinesRead(r.(fMoreDeps := more), deps[1..]);
      ScanOne(r, line, DepLines(deps[1..]));
    }
  }

  lemma {:induction false} RuleLinesRead(r: Reader, name: string, rule: Rule)
    requires GoodName(name) && GoodStamp(rule.szTS) && GoodNames(rule.deps) && !r.fMoreDeps
    ensures ScanLines(r, RuleLines(name, rule)) == (Reader(false, None), RuleEvents(name, rule))
  {
    hide *;
    var more := rule.deps != [];
    var stamp, line := "# " + rule.szTS, Written(name) + ":" + (if more then " \\" else "");
    StampLine(r, rule.szTS);
    var r1 := ScanLine(r, stamp).0;
    NameLine(r1, name, more);
    DepLinesRead(Reader(more, None), rule.deps);
    var deps := DepLines(rule.deps);
    RuleLinesAre(name, rule);
    ScanOne(r, stamp, [line] + (deps + [""]));
    ScanOne(r1, line, deps + [""]);
    ScanConcat(Reader(more, None), deps, [""]);
    BlankLine(Reader(false, None));
    var e := [NewRule(Make(name), rule.szTS)];
    assert [] + (e + (DepEvents(rule.deps) + [])) == e + DepEvents(rule.deps);
  }

  lemma {:induction false} RuleLinesAre(name: string, rule: Rule)
    ensures RuleLines(name, rule) ==
            ["# " + rule.szTS] +
            ([Written(name) + ":" + (if rule.deps != [] then " \\" else "")] + (DepLines(rule.deps) + [""]))
    ensures RuleEvents(name, rule) == [NewRule(Make(name), rule.szTS)] + DepEvents(rule.deps)
  {
    hide Written, DepLines;
  }

  lemma {:induction false} BlankLine(r: Reader)
    ensures ScanLines(r, [""]) == (r.(fMoreDeps := false), [])
  {
    assert [""][1..] == [];
    var none: seq<Event> := [];
    assert none + none == none;
  }

  lemma {:induction false} AllLinesRead(r: Reader, g: Rules, names: seq<string>)
    requires GoodRules(g) && Listed(g, names) && !r.fMoreDeps
    ensures ScanLines(r, AllRuleLines(g, names)).1 == AllEvents(g, names)
    decreases |names|
  {
    hide RuleLines, RuleEvents, ScanLine, GoodName, GoodNames, GoodStamp;
    if names != [] {
      var n := names[0];
      RuleLinesRead(r, n, g[n]);
      AllLinesRead(Reader(false, None), g, names[1..]);
      ScanConcat(r, RuleLines(n, g[n]), AllRuleLines(g, names[1..]));
    }
  }

  // ----- Doing what the file says --------------------------------------------------------------

  /** The rules, and the handle of the current one if it takes dependants. */
  datatype Tree = Tree(rules: Rules, handle: Option<string>)

  /** How the file is read: options, and what depValidate says of rules that exist. */
  datatype Options = Options(fAppend: bool, fForceScan: bool, fValid: string -> bool)

  function ApplyEvent(t: Tree, e: Event, o: Options): Tree {
    match e
    case NewRule(name, ts) =>
      var n := Real(name);
      var g := AddedRule(t.rules, n, ts, o.fForceScan, o.fValid(n));
      if n in t.rules && (t.rules[n].fUpdated || (!o.fForceScan && t.rules[n].szTS == ts && o.fValid(n)))
        then Tree(g, None)
      else Tree(g[n := g[n].(fUpdated := o.fAppend)], Some(n))
    case NewDep(name) =>
      if t.handle.Some? && t.handle.value in t.rules then t.(rules := WithDep(t.rules, t.handle.value, Real(name)))
        else t
  }

  function ApplyAll(t: Tree, events: seq<Event>, o: Options): Tree
    decreases |events|
  {
    if events == [] then t else ApplyAll(ApplyEvent(t, events[0], o), events[1..], o)
  }

  /** The check for cycles, made on the names as they stand in the file, never objects. */
  ghost predicate NeverCyclic(t: Tree, events: seq<Event>, o: Options)
    decreases |events|
  {
    events != [] ==>
      && (events[0].NewDep? && t.handle.Some? ==> !Reaches(t.rules, events[0].name, t.handle.value))
      && NeverCyclic(ApplyEvent(t, events[0], o), events[1..], o)
  }

  /** The same with the check for cycles on: what leads to the current rule, by the name as it stands in the
      file, is left out. */
  ghost function ApplyChecked(t: Tree, e: Event, o: Options): Tree {
    if e.NewDep? && t.handle.Some? && Reaches(t.rules, e.name, t.handle.value) then t else ApplyEvent(t, e, o)
  }

  ghost function ApplyAllChecked(t: Tree, events: seq<Event>, o: Options): Tree
    decreases |events|
  {
    if events == [] then t else ApplyAllChecked(ApplyChecked(t, events[0], o), events[1..], o)
  }

  /** Nothing behind an escape is missing at the end of a name. */
  predicate NamesEndWell(events: seq<Event>) {
    forall i :: 0 <= i < |events| ==> EndsWell(events[i].name)
  }

  lemma {:induction false} ApplyConcat(t: Tree, a: seq<Event>, b: seq<Event>, o: Options)
    ensures ApplyAll(t, a + b, o) == ApplyAll(ApplyAll(t, a, o), b, o)
    decreases |a|
  {
    hide ApplyEvent;
    if a == [] {
      assert a + b == b;
    } else {
      assert (a + b)[1..] == a[1..] + b;
      ApplyConcat(ApplyEvent(t, a[0], o), a[1..], b, o);
    }
  }

  lemma {:induction false} CheckedConcat(t: Tree, a: seq<Event>, b: seq<Event>, o: Options)
    ensures ApplyAllChecked(t, a + b, o) == ApplyAllChecked(ApplyAllChecked(t, a, o), b, o)
    decreases |a|
  {
    hide ApplyChecked;
    if a == [] {
      assert a + b == b;
    } else {
      assert (a + b)[1..] == a[1..] + b;
      CheckedConcat(ApplyChecked(t, a[0], o), a[1..], b, o);
    }
  }

  lemma {:induction false} CyclicConcat(t: Tree, a: seq<Event>, b: seq<Event>, o: Options)
    ensures NeverCyclic(t, a + b, o) <==> NeverCyclic(t, a, o) && NeverCyclic(ApplyAll(t, a, o), b, o)
    decreases |a|
  {
    hide ApplyEvent, Reaches;
    if a == [] {
      assert a + b == b;
    } else {
      assert (a + b)[1..] == a[1..] + b;
      CyclicConcat(ApplyEvent(t, a[0], o), a[1..], b, o);
    }
  }

  /** Where the check never objects it changes nothing. */
  lemma {:induction false} CheckedAgrees(t: Tree, events: seq<Event>, o: Options)
    requires NeverCyclic(t, events, o)
    ensures ApplyAllChecked(t, events, o) == ApplyAll(t, events, o)
    decreases |events|
  {
    hide ApplyEvent, Reaches;
    if events != [] {
      CheckedAgrees(ApplyEvent(t, events[0], o), events[1..], o);
    }
  }

  // ----- The rules come back -------------------------------------------------------------------

  predicate PlainNames(g: Rules) {
    forall n :: n in g ==> '^' !in n
  }

  /** A name that is escaped is no rule's name as long as those have no carets. */
  lemma {:induction false} EscapedIsNew(s: string)
    ensures Make(s) == s || '^' in Make(s)
  {
    if s != [] {
      EscapedIsNew(s[1..]);
      if NeedsEscape(s) {
        assert Make(s)[0] == '^';
      } else {
        assert s == [s[0]] + s[1..];
      }
    }
  }

  /** In a part of an acyclic graph the check does not object to an edge of the whole. */
  lemma {:induction false} EdgeIsAccepted(g: Rules, part: Rules, rule: string, dep: string)
    requires Acyclic(g) && PlainNames(g) && NoWorse(g, part) && (forall n :: n in part ==> n in g) && rule in g
    requires dep in g[rule].deps
    ensures !Reaches(part, Make(dep), rule)
  {
    EscapedIsNew(dep);
    var d := Make(dep);
    if d == dep {
      if Reaches(part, dep, rule) {
        var p :| |p| > 0 && p[0] == dep && p[|p| - 1] == rule && Walk(part, p);
        ClosesCycle(g, part, rule, dep, p);
      }
    } else {
      assert d !in part && d != rule;
      NoDependants(part, d, rule);
    }
  }

  lemma {:induction false} ClosesCycle(g: Rules, part: Rules, rule: string, dep: string, p: seq<string>)
    requires NoWorse(g, part) && |p| > 0 && p[0] == dep && p[|p| - 1] == rule && Walk(part, p) && Edge(g, rule, dep)
    ensures !Acyclic(g)
  {
    var q := p + [dep];
    forall i | 0 <= i < |q| - 1 ensures Edge(g, q[i], q[i + 1]) {
      if i < |p| - 1 {
        assert Edge(part, p[i], p[i + 1]);
      }
    }
    assert Closed(g, q);
  }

  /** The rules of g listed so far, the last of them with only so many dependants. */
  function Restored(g: Rules, names: seq<string>, fAppend: bool): Rules
    requires Listed(g, names)
  {
    map n | n in g && n in names :: g[n].(fUpdated := fAppend)
  }

  lemma {:induction false} ApplyOne(t: Tree, e: Event, rest: seq<Event>, o: Options)
    ensures ApplyAll(t, [e] + rest, o) == ApplyAll(ApplyEvent(t, e, o), rest, o)
    ensures ApplyAllChecked(t, [e] + rest, o) == ApplyAllChecked(ApplyChecked(t, e, o), rest, o)
    ensures NeverCyclic(t, [e] + rest, o) <==>
            (e.NewDep? && t.handle.Some? ==> !Reaches(t.rules, e.name, t.handle.value)) &&
            NeverCyclic(ApplyEvent(t, e, o), rest, o)
  {
    hide ApplyEvent, ApplyChecked, Reaches;
    assert ([e] + rest)[1..] == rest;
  }

  /** What is read back before the j-th dependant of the i-th rule. */
  function SoFar(g: Rules, names: seq<string>, i: nat, j: nat, fAppend: bool): Rules
    requires Listed(g, names) && i < |names| && j <= |g[names[i]].deps|
  {
    var n := names[i];
    Restored(g, names[..i], fAppend)[n := Rule(g[n].deps[..j], fAppend, g[n].szTS)]
  }

  /** In what is read back before it, the dependant's name as it stands in the file does not lead to its rule. */
  ghost predicate DepClear(g: Rules, names: seq<string>, i: nat, j: nat, fAppend: bool)
    requires Listed(g, names) && i < |names| && j < |g[names[i]].deps|
  {
    !Reaches(SoFar(g, names, i, j, fAppend), Make(g[names[i]].deps[j]), names[i])
  }

  ghost predicate DepsClear(g: Rules, names: seq<string>, i: nat, j: nat, fAppend: bool)
    requires Listed(g, names) && i < |names|
  {
    forall k :: j <= k < |g[names[i]].deps| ==> DepClear(g, names, i, k, fAppend)
  }

  /** So it is for every dependant that is written. */
  ghost predicate AllClear(g: Rules, names: seq<string>, fAppend: bool)
    requires Listed(g, names)
  {
    forall i, j :: 0 <= i < |names| && 0 <= j < |g[names[i]].deps| ==> DepClear(g, names, i, j, fAppend)
  }

  lemma {:induction false} ClearStep(g: Rules, names: seq<string>, i: nat, j: nat, fAppend: bool)
    requires Listed(g, names) && i < |names| && j < |g[names[i]].deps|
    ensures DepsClear(g, names, i, j, fAppend) <==>
            DepClear(g, names, i, j, fAppend) && DepsClear(g, names, i, j + 1, fAppend)
  {
    hide DepClear;
  }

  lemma {:induction false} DepClearIs(g: Rules, names: seq<string>, i: nat, j: nat, fAppend: bool)
    requires Listed(g, names) && i < |names| && j < |g[names[i]].deps|
    ensures DepClear(g, names, i, j, fAppend) <==>
            !Reaches(SoFar(g, names, i, j, fAppend), Make(g[names[i]].deps[j]), names[i])
  {
    hide SoFar, Reaches, Make;
  }

  lemma {:induction false} ListedAt(g: Rules, names: seq<string>, i: nat)
    requires Listed(g, names) && i < |names|
    ensures names[i] in g && Listed(g, names[..i]) && Listed(g, names[i + 1..])
  {
  }

  lemma {:induction false} NoMoreDeps(g: Rules, names: seq<string>, i: nat, fAppend: bool)
    requires Listed(g, names) && i < |names|
    ensures DepsClear(g, names, i, |g[names[i]].deps|, fAppend) && g[names[i]].deps[|g[names[i]].deps|..] == []
  {
  }

  /** One dependant more. */
  lemma {:induction false} DepBack(g: Rules, names: seq<string>, i: nat, j: nat, o: Options)
    requires Listed(g, names) && i < |names| && j < |g[names[i]].deps|
    ensures ApplyEvent(Tree(SoFar(g, names, i, j, o.fAppend), Some(names[i])), NewDep(Make(g[names[i]].deps[j])), o)
         == Tree(SoFar(g, names, i, j + 1, o.fAppend), Some(names[i]))
  {
    hide Restored, Make, Real;
    var n := names[i];
    RealOfMake(g[n].deps[j]);
    assert g[n].deps[..j + 1] == g[n].deps[..j] + [g[n].deps[j]];
  }

  lemma {:induction false} DepEventsStep(deps: seq<string>, j: nat)
    requires j < |deps|
    ensures DepEvents(deps[j..]) == [NewDep(Make(deps[j]))] + DepEvents(deps[j + 1..])
  {
    hide Make;
    assert deps[j..][1..] == deps[j + 1..];
  }

  lemma {:induction false} NoDepEvents(t: Tree, o: Options)
    ensures ApplyAll(t, DepEvents([]), o) == t && ApplyAllChecked(t, DepEvents([]), o) == t
    ensures NeverCyclic(t, DepEvents([]), o)
  {
  }

  /** The rest of a rule's dependants, unchecked; and when the check would not have objected. */
  lemma {:induction false} DepsBack(g: Rules, names: seq<string>, i: nat, j: nat, o: Options)
    requires Listed(g, names) && i < |names| && j <= |g[names[i]].deps|
    ensures var (n, t) := (names[i], Tree(SoFar(g, names, i, j, o.fAppend), Some(names[i])));
            && ApplyAll(t, DepEvents(g[n].deps[j..]), o) == Tree(SoFar(g, names, i, |g[n].deps|, o.fAppend), Some(n))
            && (NeverCyclic(t, DepEvents(g[n].deps[j..]), o) <==> DepsClear(g, names, i, j, o.fAppend))
    decreases |g[names[i]].deps| - j
  {
    hide *;
    ListedAt(g, names, i);
    var n, t := names[i], Tree(SoFar(g, names, i, j, o.fAppend), Some(names[i]));
    if j == |g[n].deps| {
      NoMoreDeps(g, names, i, o.fAppend);
      NoDepEvents(t, o);
    } else {
      DepEventsStep(g[n].deps, j);
      ApplyOne(t, NewDep(Make(g[n].deps[j])), DepEvents(g[n].deps[j + 1..]), o);
      DepBack(g, names, i, j, o);
      DepsBack(g, names, i, j + 1, o);
      ClearStep(g, names, i, j, o.fAppend);
      DepClearIs(g, names, i, j, o.fAppend);
    }
  }

  /** With the check on, the current rule gets them all exactly when it does not object; the handle stays. */
  lemma {:induction false} DepsCounted(t: Tree, n: string, deps: seq<string>, o: Options)
    requires t.handle == Some(n) && n in t.rules
    ensures var t' := ApplyAllChecked(t, DepEvents(deps), o);
            && t'.handle == Some(n) && n in t'.rules && |t'.rules[n].deps| <= |t.rules[n].deps| + |deps|
            && (|t'.rules[n].deps| == |t.rules[n].deps| + |deps| <==> NeverCyclic(t, DepEvents(deps), o))
    decreases |deps|
  {
    hide Reaches, Make, Real, NeverCyclic, ApplyAllChecked, DepEvents;
    if deps == [] {
      NoDepEvents(t, o);
    } else {
      DepEventsStep(deps, 0);
      assert deps[0..] == deps;
      ApplyOne(t, NewDep(Make(deps[0])), DepEvents(deps[1..]), o);
      DepsCounted(ApplyChecked(t, NewDep(Make(deps[0])), o), n, deps[1..], o);
    }
  }

  predicate SameAt(g: Rules, g': Rules, n: string) {
    (n in g <==> n in g') && (n in g ==> g[n] == g'[n])
  }

  /** The dependants of one rule do nothing to another. */
  lemma {:induction false} DepsKeepOthers(t: Tree, deps: seq<string>, n: string, o: Options)
    requires t.handle != Some(n)
    ensures SameAt(t.rules, ApplyAllChecked(t, DepEvents(deps), o).rules, n)
    decreases |deps|
  {
    hide Reaches, Make, Real, ApplyAllChecked, DepEvents;
    if deps == [] {
      NoDepEvents(t, o);
    } else {
      DepEventsStep(deps, 0);
      assert deps[0..] == deps;
      ApplyOne(t, NewDep(Make(deps[0])), DepEvents(deps[1..]), o);
      DepsKeepOthers(ApplyChecked(t, NewDep(Make(deps[0])), o), deps[1..], n, o);
    }
  }

  lemma {:induction false} NameKeepsOthers(t: Tree, m: string, ts: string, n: string, o: Options)
    requires m != n
    ensures var t' := ApplyChecked(t, NewRule(Make(m), ts), o); SameAt(t.rules, t'.rules, n) && t'.handle != Some(n)
  {
    hide Make, Real, Reaches;
    RealOfMake(m);
  }

  lemma {:induction false} RulesKeepOthers(t: Tree, g: Rules, names: seq<string>, n: string, o: Options)
    requires Listed(g, names) && n !in names
    ensures SameAt(t.rules, ApplyAllChecked(t, AllEvents(g, names), o).rules, n)
    decreases |names|
  {
    hide Make, ApplyChecked, DepEvents, Reaches;
    if names != [] {
      var m, rest := names[0], names[1..];
      var t1 := ApplyChecked(t, NewRule(Make(m), g[m].szTS), o);
      NameKeepsOthers(t, m, g[m].szTS, n, o);
      DepsKeepOthers(t1, g[m].deps, n, o);
      ApplyOne(t, NewRule(Make(m), g[m].szTS), DepEvents(g[m].deps), o);
      CheckedConcat(t, RuleEvents(m, g[m]), AllEvents(g, rest), o);
      RulesKeepOthers(ApplyAllChecked(t, RuleEvents(m, g[m]), o), g, rest, n, o);
    }
  }

  predicate OnceEach(names: seq<string>) {
    forall i, j :: 0 <= i < j < |names| ==> names[i] != names[j]
  }

  /** The line with its name makes room for the rule. */
  lemma {:induction false} RuleStarts(g: Rules, names: seq<string>, i: nat, h: Option<string>, o: Options)
    requires Listed(g, names) && OnceEach(names) && i < |names|
    ensures var (n, start) := (names[i], Tree(Restored(g, names[..i], o.fAppend), h));
            ApplyEvent(start, NewRule(Make(n), g[n].szTS), o) == Tree(SoFar(g, names, i, 0, o.fAppend), Some(n))
  {
    hide Make, Real, Restored, OnceEach, Listed;
    ListedAt(g, names, i);
    var n, start := names[i], Restored(g, names[..i], o.fAppend);
    RealOfMake(n);
    NotYet(g, names, i, o.fAppend);
    assert g[n].deps[..0] == [];
    Overwritten(start, n, Rule([], true, g[n].szTS), Rule([], o.fAppend, g[n].szTS));
  }

  lemma {:induction false} Overwritten(g: Rules, n: string, r1: Rule, r2: Rule)
    ensures g[n := r1][n := r2] == g[n := r2]
  {
  }

  lemma {:induction false} NotYet(g: Rules, names: seq<string>, i: nat, fAppend: bool)
    requires Listed(g, names) && OnceEach(names) && i < |names|
    ensures names[i] !in Restored(g, names[..i], fAppend)
  {
  }

  /** With its dependants it is as it was. */
  lemma {:induction false} RuleComplete(g: Rules, names: seq<string>, i: nat, fAppend: bool)
    requires Listed(g, names) && OnceEach(names) && i < |names|
    ensures SoFar(g, names, i, |g[names[i]].deps|, fAppend) == Restored(g, names[..i + 1], fAppend)
  {
    assert names[..i + 1] == names[..i] + [names[i]];
    var deps := g[names[i]].deps;
    assert deps[..|deps|] == deps;
  }

  lemma {:induction false} RuleEventsAre(g: Rules, n: string)
    requires n in g
    ensures RuleEvents(n, g[n]) == [NewRule(Make(n), g[n].szTS)] + DepEvents(g[n].deps[0..])
  {
    assert g[n].deps[0..] == g[n].deps;
  }

  /** One rule more. */
  lemma {:induction false} RuleBack(g: Rules, names: seq<string>, i: nat, h: Option<string>, o: Options)
    requires Listed(g, names) && OnceEach(names) && i < |names|
    ensures var (n, start) := (names[i], Tree(Restored(g, names[..i], o.fAppend), h));
            && ApplyAll(start, RuleEvents(n, g[n]), o) == Tree(Restored(g, names[..i + 1], o.fAppend), Some(n))
            && (NeverCyclic(start, RuleEvents(n, g[n]), o) <==> DepsClear(g, names, i, 0, o.fAppend))
            && var part := ApplyAllChecked(start, RuleEvents(n, g[n]), o).rules;
               n in part && (part[n].deps == g[n].deps ==> DepsClear(g, names, i, 0, o.fAppend))
  {
    hide *;
    ListedAt(g, names, i);
    var n, start := names[i], Tree(Restored(g, names[..i], o.fAppend), h);
    var e, t := NewRule(Make(n), g[n].szTS), Tree(SoFar(g, names, i, 0, o.fAppend), Some(n));
    RuleEventsAre(g, n);
    RuleStarts(g, names, i, h, o);
    RuleComplete(g, names, i, o.fAppend);
    CheckedRule(start, e, o);
    ApplyOne(start, e, DepEvents(g[n].deps[0..]), o);
    DepsBack(g, names, i, 0, o);
    NoDepsYet(g, names, i, o.fAppend);
    DepsCounted(t, n, g[n].deps[0..], o);
  }

  lemma {:induction false} CheckedRule(t: Tree, e: Event, o: Options)
    requires e.NewRule?
    ensures ApplyChecked(t, e, o) == ApplyEvent(t, e, o)
  {
    hide ApplyEvent, Reaches;
  }

  lemma {:induction false} NoDepsYet(g: Rules, names: seq<string>, i: nat, fAppend: bool)
    requires Listed(g, names) && i < |names|
    ensures names[i] in SoFar(g, names, i, 0, fAppend) && SoFar(g, names, i, 0, fAppend)[names[i]].deps == []
  {
  }

  /** The dependants are clear from the i-th rule on. */
  ghost predicate ClearFrom(g: Rules, names: seq<string>, i: nat, fAppend: bool)
    requires Listed(g, names)
  {
    forall k :: i <= k < |names| ==> DepsClear(g, names, k, 0, fAppend)
  }

  lemma {:induction false} RulesStep(g: Rules, names: seq<string>, i: nat)
    requires Listed(g, names) && OnceEach(names) && i < |names|
    ensures names[i] !in names[i + 1..] && Listed(g, names[i + 1..]) && Listed(g, names[i..])
    ensures AllEvents(g, names[i..]) == RuleEvents(names[i], g[names[i]]) + AllEvents(g, names[i + 1..])
  {
    hide RuleEvents;
    assert names[i..][1..] == names[i + 1..];
  }

  lemma {:induction false} NoMoreRules(g: Rules, names: seq<string>, h: Option<string>, o: Options)
    requires Listed(g, names)
    ensures names[|names|..] == [] && names[..|names|] == names && ClearFrom(g, names, |names|, o.fAppend)
    ensures var t := Tree(Restored(g, names, o.fAppend), h);
            ApplyAll(t, AllEvents(g, []), o) == t && ApplyAllChecked(t, AllEvents(g, []), o) == t &&
            NeverCyclic(t, AllEvents(g, []), o)
  {
  }

  lemma {:induction false} FromStep(g: Rules, names: seq<string>, i: nat, fAppend: bool)
    requires Listed(g, names) && i < |names|
    ensures ClearFrom(g, names, i, fAppend) <==>
              DepsClear(g, names, i, 0, fAppend) && ClearFrom(g, names, i + 1, fAppend)
  {
    hide DepsClear;
  }

  /** The restored rules have their dependants. */
  lemma {:induction false} RestoredDeps(g: Rules, names: seq<string>, i: nat, fAppend: bool)
    requires Listed(g, names) && i < |names|
    ensures names[i] in Restored(g, names, fAppend) && Restored(g, names, fAppend)[names[i]].deps == g[names[i]].deps
  {
  }

  lemma {:induction false} RulesBack(g: Rules, names: seq<string>, i: nat, h: Option<string>, o: Options)
    requires Listed(g, names) && OnceEach(names) && i <= |names|
    ensures var (start, events) := (Tree(Restored(g, names[..i], o.fAppend), h), AllEvents(g, names[i..]));
            && ApplyAll(start, events, o).rules == Restored(g, names, o.fAppend)
            && (NeverCyclic(start, events, o) <==> ClearFrom(g, names, i, o.fAppend))
            && (ApplyAllChecked(start, events, o).rules == Restored(g, names, o.fAppend) <==>
                ClearFrom(g, names, i, o.fAppend))
    decreases |names| - i
  {
    hide *;
    if i == |names| {
      NoMoreRules(g, names, h, o);
    } else {
      ListedAt(g, names, i);
      var n, start := names[i], Tree(Restored(g, names[..i], o.fAppend), h);
      var e, rest := RuleEvents(n, g[n]), AllEvents(g, names[i + 1..]);
      var t := ApplyAllChecked(start, e, o);
      RulesStep(g, names, i);
      RuleBack(g, names, i, h, o);
      RulesBack(g, names, i + 1, Some(n), o);
      ApplyConcat(start, e, rest, o);
      CyclicConcat(start, e, rest, o);
      CheckedConcat(start, e, rest, o);
      FromStep(g, names, i, o.fAppend);
      if DepsClear(g, names, i, 0, o.fAppend) {
        CheckedAgrees(start, e, o);
      } else {
        RulesKeepOthers(t, g, names[i + 1..], n, o);
        SameDeps(t.rules, ApplyAllChecked(t, rest, o).rules, n);
        RestoredDeps(g, names, i, o.fAppend);
      }
    }
  }

  lemma {:induction false} SameDeps(g: Rules, g': Rules, n: string)
    requires n in g && SameAt(g, g', n)
    ensures n in g' && g'[n] == g[n]
  {
  }

  lemma {:induction false} AllIsFrom(g: Rules, names: seq<string>, fAppend: bool)
    requires Listed(g, names)
    ensures AllClear(g, names, fAppend) <==> ClearFrom(g, names, 0, fAppend)
  {
    hide DepClear;
    if ClearFrom(g, names, 0, fAppend) {
      forall i, j | 0 <= i < |names| && 0 <= j < |g[names[i]].deps| ensures DepClear(g, names, i, j, fAppend) {
        assert DepsClear(g, names, i, 0, fAppend);
      }
    }
  }

  /** In an acyclic graph whose rules have no carets in their names all is clear. */
  lemma {:induction false} PlainIsClear(g: Rules, names: seq<string>, fAppend: bool)
    requires Acyclic(g) && PlainNames(g) && Listed(g, names)
    ensures AllClear(g, names, fAppend)
  {
    hide Acyclic, PlainNames, Reaches, Restored, SoFar, Make;
    forall i, j | 0 <= i < |names| && 0 <= j < |g[names[i]].deps| ensures DepClear(g, names, i, j, fAppend) {
      SoFarIsNoWorse(g, names, i, j, fAppend);
      EdgeIsAccepted(g, SoFar(g, names, i, j, fAppend), names[i], g[names[i]].deps[j]);
    }
  }

  lemma {:induction false} SoFarIsNoWorse(g: Rules, names: seq<string>, i: nat, j: nat, fAppend: bool)
    requires Listed(g, names) && i < |names| && j <= |g[names[i]].deps|
    ensures NoWorse(g, SoFar(g, names, i, j, fAppend)) && forall n :: n in SoFar(g, names, i, j, fAppend) ==> n in g
  {
  }

  // ----- The whole file ---------------------------------------------------------------------------

  function Commented(texts: seq<string>): seq<string> {
    seq(|texts|, i requires 0 <= i < |texts| => "#" + texts[i])
  }

  /** The file: a warning, whatever its wording, as comments, and the rules. */
  function FileLines(warning: seq<string>, g: Rules, names: seq<string>): seq<string>
    requires Listed(g, names)
  {
    Commented(warning) + [""] + AllRuleLines(g, names)
  }

  predicate IsBreak(c: char) {
    c == '\n' || c == '\r' || c == NUL
  }

  predicate OneLine(s: string) {
    forall i :: 0 <= i < |s| ==> !IsBreak(s[i])
  }

  /** Where the line ends that starts at the head. */
  function LineEnd(s: string): (r: nat)
    ensures r <= |s|
  {
    if s == [] || IsBreak(s[0]) then 0 else 1 + LineEnd(s[1..])
  }

  /** textbufferNextLine: the line's end is one of LF, CR and CRLF. */
  function NextLine(s: string): (r: nat)
    ensures LineEnd(s) <= r <= |s|
    ensures s != [] && s[0] != NUL ==> r > 0
  {
    var e := LineEnd(s);
    var f := if e < |s| && s[e] == '\r' then e + 1 else e;
    if f < |s| && s[f] == '\n' then f + 1 else f
  }

  /** The lines that are read: up to the terminator. */
  function Lines(s: string): seq<string>
    decreases |s|
  {
    if s == [] || s[0] == NUL then [] else [s[..LineEnd(s)]] + Lines(s[NextLine(s)..])
  }

  lemma {:induction false} LineEndIs(line: string, rest: string)
    requires OneLine(line)
    ensures LineEnd(line + "\n" + rest) == |line| && NextLine(line + "\n" + rest) == |line| + 1
  {
    var s := line + "\n" + rest;
    if line != [] {
      assert s[1..] == line[1..] + "\n" + rest;
      LineEndIs(line[1..], rest);
    }
  }

  /** Lines without line breaks come back as they are. */
  lemma {:induction false} LinesOfText(lines: seq<string>)
    requires forall i :: 0 <= i < |lines| ==> OneLine(lines[i])
    ensures Lines(Unlines(lines)) == lines
    decreases |lines|
  {
    if lines != [] {
      var line, rest := lines[0], Unlines(lines[1..]);
      LinesOfText(lines[1..]);
      LineEndIs(line, rest);
      var s := line + "\n" + rest;
      assert s[..|line|] == line && s[|line| + 1..] == rest;
      assert s[0] != NUL;
    }
  }

  const FIRST := Reader(false, None)

  lemma {:induction false} TrimSpacesHead(s: string)
    requires s != [] && s[0] != ' '
    ensures TrimSpaces(s) != [] && TrimSpaces(s)[0] == s[0]
  {
    if s[|s| - 1] == ' ' {
      TrimSpacesHead(s[..|s| - 1]);
    }
  }

  lemma {:induction false} Comments(r: Reader, lines: seq<string>)
    requires !r.fMoreDeps && forall i :: 0 <= i < |lines| ==> Silent(lines[i])
    ensures ScanLines(r, lines).1 == [] && !ScanLines(r, lines).0.fMoreDeps
    decreases |lines|
  {
    hide ScanLine, TrimR;
    if lines != [] {
      BlankOrComment(r, lines[0]);
      Comments(ScanLine(r, lines[0]).0, lines[1..]);
    }
  }

  lemma {:induction false} BlankOrComment(r: Reader, line: string)
    requires Silent(line)
    ensures ScanLine(r, line).1 == [] && ScanLine(r, line).0.fMoreDeps == (r.fMoreDeps && line != "")
  {
    if line != "" {
      TrimSpacesHead(line);
    }
  }

  /** What the reader finds in a text. */
  function Events(text: string): seq<Event> {
    ScanLines(FIRST, Lines(text)).1
  }

  /** Reading undoes writing: into an empty tree come the rules that were written, with their dependants
      in order and their timestamps. With the check for cycles they come back exactly when no dependant's
      name, as it is written, leads to its rule in what is read before it. */
  lemma {:induction false} ReadUndoesWrite(warning: seq<string>, g: Rules, names: seq<string>, o: Options)
    requires forall i :: 0 <= i < |warning| ==> OneLine(warning[i])
    requires GoodRules(g) && Listed(g, names) && OnceEach(names)
    ensures var events := Events(Unlines(FileLines(warning, g, names)));
            && ApplyAll(Tree(map[], None), events, o).rules == Restored(g, names, o.fAppend)
            && (ApplyAllChecked(Tree(map[], None), events, o).rules == Restored(g, names, o.fAppend) <==>
                AllClear(g, names, o.fAppend))
            && (NeverCyclic(Tree(map[], None), events, o) <==> AllClear(g, names, o.fAppend))
            && NamesEndWell(events)
  {
    hide *;
    EventsAre(warning, g, names);
    assert names[0..] == names && names[..0] == [];
    RulesBack(g, names, 0, None, o);
    AllIsFrom(g, names, o.fAppend);
    NothingRestored(g, o.fAppend);
    AllEndWell(g, names);
  }

  lemma {:induction false} EventsAre(warning: seq<string>, g: Rules, names: seq<string>)
    requires forall i :: 0 <= i < |warning| ==> OneLine(warning[i])
    requires GoodRules(g) && Listed(g, names)
    ensures Events(Unlines(FileLines(warning, g, names))) == AllEvents(g, names)
  {
    hide *;
    FileIs(warning, g, names);
    var header, rules := Commented(warning) + [""], AllRuleLines(g, names);
    HeaderIs(warning);
    RulesOneLine(g, names);
    BothOneLine(header, rules);
    LinesOfText(header + rules);
    Comments(FIRST, header);
    var r := ScanLines(FIRST, header).0;
    ScanConcat(FIRST, header, rules);
    AllLinesRead(r, g, names);
    assert [] + AllEvents(g, names) == AllEvents(g, names);
  }

  lemma {:induction false} FileIs(warning: seq<string>, g: Rules, names: seq<string>)
    requires Listed(g, names)
    ensures FileLines(warning, g, names) == (Commented(warning) + [""]) + AllRuleLines(g, names)
    ensures forall text :: Events(text) == ScanLines(FIRST, Lines(text)).1
    ensures FIRST == Reader(false, None)
  {
    hide Lines, ScanLines, AllRuleLines;
  }

  predicate AllOneLine(lines: seq<string>) {
    forall i :: 0 <= i < |lines| ==> OneLine(lines[i])
  }

  lemma {:induction false} BothOneLine(a: seq<string>, b: seq<string>)
    requires AllOneLine(a) && AllOneLine(b)
    ensures forall i :: 0 <= i < |a + b| ==> OneLine((a + b)[i])
  {
    hide OneLine;
  }

  lemma {:induction false} MakeOneLine(s: string)
    requires OneLine(s)
    ensures OneLine(Written(s))
  {
    MakeIs(s);
    forall i | 0 <= i < |Make(s)| ensures !IsBreak(Make(s)[i]) {
      assert Make(s)[i] in Make(s);
    }
  }

  lemma {:induction false} DepsOneLine(deps: seq<string>)
    requires GoodNames(deps)
    ensures AllOneLine(DepLines(deps))
    decreases |deps|
  {
    hide Written;
    if deps != [] {
      MakeOneLine(deps[0]);
      DepsOneLine(deps[1..]);
    }
  }

  lemma {:induction false} RuleOneLine(name: string, rule: Rule)
    requires GoodName(name) && GoodStamp(rule.szTS) && GoodNames(rule.deps)
    ensures AllOneLine(RuleLines(name, rule))
  {
    hide Written, GoodNames, DepLines;
    MakeOneLine(name);
    DepsOneLine(rule.deps);
  }

  lemma {:induction false} RulesOneLine(g: Rules, names: seq<string>)
    requires GoodRules(g) && Listed(g, names)
    ensures AllOneLine(AllRuleLines(g, names))
    decreases |names|
  {
    hide RuleLines, GoodName, GoodStamp, GoodNames, OneLine;
    if names != [] {
      RuleOneLine(names[0], g[names[0]]);
      RulesOneLine(g, names[1..]);
    }
  }

  lemma {:induction false} HeaderIs(warning: seq<string>)
    requires forall i :: 0 <= i < |warning| ==> OneLine(warning[i])
    ensures AllOneLine(Commented(warning) + [""])
    ensures forall i :: 0 <= i < |Commented(warning) + [""]| ==> Silent((Commented(warning) + [""])[i])
  {
  }

  lemma {:induction false} NothingRestored(g: Rules, fAppend: bool)
    ensures Restored(g, [], fAppend) == map[]
  {
  }

  lemma {:induction false} DepsEndWell(deps: seq<string>)
    ensures NamesEndWell(DepEvents(deps))
  {
    hide EndsWell, Make;
    if deps != [] {
      RealOfMake(deps[0]);
      DepsEndWell(deps[1..]);
    }
  }

  lemma {:induction false} AllEndWell(g: Rules, names: seq<string>)
    requires Listed(g, names)
    ensures NamesEndWell(AllEvents(g, names))
    decreases |names|
  {
    hide EndsWell, Make, DepEvents;
    if names != [] {
      var n := names[0];
      RealOfMake(n);
      DepsEndWell(g[n].deps);
      AllEndWell(g, names[1..]);
    }
  }

  predicate Silent(line: string) {
    line == "" || line[0] == '#'
  }

  // ----- Carets in rule names -------------------------------------------------------------------

  function Clashing(): Rules {
    map["^-" := Rule(["x"], true, ""), "x" := Rule(["-"], true, "")]
  }

  lemma {:induction false} ClashingIsAcyclic()
    ensures Acyclic(Clashing())
  {
    forall p ensures !Closed(Clashing(), p) {
      if |p| > 1 && Walk(Clashing(), p) {
        RankGrows(p, |p| - 1);
      }
    }
  }

  function Rank(n: string): nat {
    if n == "^-" then 0 else if n == "x" then 1 else 2
  }

  lemma {:induction false} RankGrows(p: seq<string>, i: nat)
    requires i < |p| && Walk(Clashing(), p)
    ensures Rank(p[i]) >= Rank(p[0]) + i
  {
    if i > 0 {
      assert Edge(Clashing(), p[i - 1], p[i - 1 + 1]);
      RankGrows(p, i - 1);
    }
  }

  /** Rule names with carets can make the check object to an acyclic graph: the name it looks for is still
      escaped, and may be the name of another rule. */
  lemma {:induction false} CaretsClash(o: Options)
    ensures var g, names := Clashing(), ["^-", "x"];
            && Acyclic(g) && Listed(g, names) && !AllClear(g, names, o.fAppend)
            && ApplyAllChecked(Tree(map[], None), AllEvents(g, names), o).rules != Restored(g, names, o.fAppend)
  {
    hide AllEvents, ApplyAllChecked, ApplyAll, NeverCyclic, Make, Real, Reaches, Acyclic;
    var g, names := Clashing(), ["^-", "x"];
    ClashingIsAcyclic();
    assert names[0..] == names && names[..0] == [];
    NothingRestored(g, o.fAppend);
    RulesBack(g, names, 0, None, o);
    AllIsFrom(g, names, o.fAppend);
    EscapedDash();
    TwoSteps(SoFar(g, names, 1, 0, o.fAppend));
    assert !DepClear(g, names, 1, 0, o.fAppend);
  }

  lemma {:induction false} EscapedDash()
    ensures Make("-") == "^-"
  {
    assert "-"[1..] == [];
  }

  lemma {:induction false} TwoSteps(g: Rules)
    requires "^-" in g && g["^-"].deps == ["x"]
    ensures Reaches(g, "^-", "x")
  {
    var p := ["^-", "x"];
    assert Edge(g, p[0], p[0 + 1]);
    assert Walk(g, p);
  }
}
