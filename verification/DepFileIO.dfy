/** The loops that write the dependency file and read it back. */
module DepFileIO {
  import opened Basics
  import opened DepNames
  import opened DepGraph
  import opened DepFile

  // ----- Reading ------------------------------------------------------------------------

  /** What reading makes of a tree; where the search for cycles gave up, this is known only if there was
      nothing for it to find. */
  ghost predicate Done(fCheckCyclic: bool, fTooDeep: bool, t: Tree, events: seq<Event>, o: Options, t': Tree) {
    if !fCheckCyclic then t' == ApplyAll(t, events, o)
    else
      && (!fTooDeep ==> t' == ApplyAllChecked(t, events, o))
      && (NeverCyclic(t, events, o) ==> t' == ApplyAll(t, events, o))
  }

  lemma {:induction false} DoneIs(fCheckCyclic: bool, fTooDeep: bool, t: Tree, events: seq<Event>, o: Options, t': Tree)
    requires Done(fCheckCyclic, fTooDeep, t, events, o, t')
    ensures !fCheckCyclic ==> t' == ApplyAll(t, events, o)
    ensures fCheckCyclic && !fTooDeep ==> t' == ApplyAllChecked(t, events, o)
    ensures NeverCyclic(t, events, o) ==> t' == ApplyAll(t, events, o)
  {
    hide NeverCyclic, ApplyAll, ApplyAllChecked;
  }

  lemma {:induction false} DoneNothing(fCheckCyclic: bool, t: Tree, o: Options)
    ensures Done(fCheckCyclic, false, t, [], o, t)
  {
  }

  lemma {:induction false} DoneRule(fCheckCyclic: bool, t: Tree, e: Event, o: Options)
    requires e.NewRule?
    ensures Done(fCheckCyclic, false, t, [e], o, ApplyEvent(t, e, o))
  {
    hide ApplyEvent, ApplyChecked;
    CheckedRule(t, e, o);
    ApplyOne(t, e, [], o);
    assert [e] + [] == [e];
  }

  /** The check, if it is on, has answered for the dependant: it objected, or did not, or gave up. */
  lemma {:induction false} DoneDep(fCheckCyclic: bool, fTooDeep: bool, t: Tree, name: string, o: Options, fOk: bool)
    requires t.handle.Some? && (!fTooDeep ==> (fOk <==> !(fCheckCyclic && Reaches(t.rules, name, t.handle.value))))
    requires fTooDeep ==> fOk && fCheckCyclic
    ensures Done(fCheckCyclic, fTooDeep, t, [NewDep(name)], o, if fOk then ApplyEvent(t, NewDep(name), o) else t)
  {
    hide ApplyEvent, Reaches;
    ApplyOne(t, NewDep(name), [], o);
    assert [NewDep(name)] + [] == [NewDep(name)];
  }

  lemma {:induction false} DoneConcat(fCheckCyclic: bool, f1: bool, f2: bool, t: Tree, a: seq<Event>, b: seq<Event>,
      o: Options, t1: Tree, t2: Tree)
    requires Done(fCheckCyclic, f1, t, a, o, t1) && Done(fCheckCyclic, f2, t1, b, o, t2)
    ensures Done(fCheckCyclic, f1 || f2, t, a + b, o, t2)
  {
    hide NeverCyclic, ApplyAll, ApplyAllChecked;
    ApplyConcat(t, a, b, o);
    CheckedConcat(t, a, b, o);
    CyclicConcat(t, a, b, o);
  }

  lemma {:induction false} EndWellSplit(a: seq<Event>, b: seq<Event>)
    requires NamesEndWell(a + b)
    ensures NamesEndWell(a) && NamesEndWell(b)
  {
    hide EndsWell;
    forall i | 0 <= i < |a| ensures EndsWell(a[i].name) {
      assert (a + b)[i] == a[i];
    }
    forall i | 0 <= i < |b| ensures EndsWell(b[i].name) {
      assert (a + b)[|a| + i] == b[i];
    }
  }

  /** The dependant on a line. */
  method ReadDep(tree: DepTree, pvRule: Option<string>, psz: string, o: Options, fCheckCyclic: bool)
      returns (fMoreDeps: bool, fTooDeep: bool)
    requires pvRule.Some? ==> pvRule.value in tree.rules
    requires NamesEndWell(DepPart(psz).1)
    modifies tree
    ensures pvRule.Some? ==> pvRule.value in tree.rules
    ensures fMoreDeps == DepPart(psz).0
    ensures Done(fCheckCyclic, fTooDeep, Tree(old(tree.rules), pvRule), DepPart(psz).1, o, Tree(tree.rules, pvRule))
  {
    hide EndsWell, Reaches, ReachesWithin, Done, Real, TrimQuotes, Trim, Acyclic;
    fMoreDeps := |psz| > 0 && psz[|psz| - 1] == '\\';
    var name := TrimQuotes(Trim(if fMoreDeps then psz[..|psz| - 1] else psz));
    ghost var t := Tree(tree.rules, pvRule);
    fTooDeep := false;
    DoneNothing(fCheckCyclic, t, o);
    if pvRule.Some? {
      if name != [] {
        assert DepPart(psz).1[0] == NewDep(name);
        var fOk;
        fOk, fTooDeep := tree.AddDepend(pvRule.value, name, fCheckCyclic, true);
        DoneDep(fCheckCyclic, fTooDeep, t, name, o, fOk);
      }
    } else {
      DoneNowhere(fCheckCyclic, t, DepPart(psz).1, o);
    }
  }

  /** Without a handle nothing is added. */
  lemma {:induction false} DoneNowhere(fCheckCyclic: bool, t: Tree, events: seq<Event>, o: Options)
    requires t.handle.None? && forall e :: e in events ==> e.NewDep?
    ensures Done(fCheckCyclic, false, t, events, o, t)
  {
    hide Reaches, Real, NeverCyclic, ApplyAll, ApplyAllChecked;
    if events == [] {
      DoneNothing(fCheckCyclic, t, o);
    } else {
      assert events[0] in events;
      ApplyOne(t, events[0], events[1..], o);
      assert [events[0]] + events[1..] == events;
      DoneNowhere(fCheckCyclic, t, events[1..], o);
    }
  }

  /** What a line asks for whose rule's name ends at i. */
  function RuleLineEvents(prev: Option<string>, psz: string, i: nat): seq<Event>
    requires i < |psz|
  {
    [NewRule(TrimQuotes(TrimR(psz[..i])), TimeStamp(prev))] +
    (if Continues(psz, i) then DepPart(psz[i + 1..]).1 else [])
  }

  /** The line with a rule's name, and the first of its dependants if it is there. */
  method ReadRule(tree: DepTree, prev: Option<string>, psz: string, i: nat, o: Options, fCheckCyclic: bool,
      ghost handle: Option<string>)
      returns (fMoreDeps: bool, pvRule: Option<string>, fTooDeep: bool)
    requires i < |psz| && NamesEndWell(RuleLineEvents(prev, psz, i))
    modifies tree
    ensures pvRule.Some? ==> pvRule.value in tree.rules
    ensures fMoreDeps == (Continues(psz, i) && DepPart(psz[i + 1..]).0)
    ensures Done(fCheckCyclic, fTooDeep, Tree(old(tree.rules), handle), RuleLineEvents(prev, psz, i), o,
              Tree(tree.rules, pvRule))
  {
    hide EndsWell, Real, TrimQuotes, TrimR, TimeStamp, Done, Continues, DepPart;
    ghost var start := Tree(tree.rules, handle);
    ghost var rest := if Continues(psz, i) then DepPart(psz[i + 1..]).1 else [];
    var name, szTS := TrimQuotes(TrimR(psz[..i])), TimeStamp(prev);
    ghost var rule := NewRule(name, szTS);
    assert RuleLineEvents(prev, psz, i) == [rule] + rest;
    EndWellSplit([rule], rest);
    assert [rule][0] == rule;
    assert RuleName(name, "", "") == name && name + "" == name;
    var fHandle, pszRule := tree.AddRule(name, "", "", szTS, true, o.fForceScan, o.fValid(Real(name)));
    pvRule := None;
    if fHandle {
      tree.rules := tree.rules[pszRule := tree.rules[pszRule].(fUpdated := o.fAppend)];
      pvRule := Some(pszRule);
    }
    DoneRule(fCheckCyclic, start, rule, o);
    ghost var mid := Tree(tree.rules, pvRule);
    assert mid == ApplyEvent(start, rule, o);
    fMoreDeps, fTooDeep := Continues(psz, i), false;
    DoneNothing(fCheckCyclic, mid, o);
    if fMoreDeps {
      fMoreDeps, fTooDeep := ReadDep(tree, pvRule, psz[i + 1..], o, fCheckCyclic);
    }
    DoneConcat(fCheckCyclic, false, fTooDeep, start, [rule], rest, o, mid, Tree(tree.rules, pvRule));
  }

  lemma {:induction false} RuleLineIs(r: Reader, line: string)
    requires var s := TrimR(line); s != [] && s[0] != '#' && !r.fMoreDeps && !IsBlank(s[0]) && ColonAt(s, 0).Some?
    ensures var s := TrimR(line);
            var i := ColonAt(s, 0).value;
            ScanLine(r, line) == (Reader(Continues(s, i) && DepPart(s[i + 1..]).0, None), RuleLineEvents(r.prev, s, i))
  {
    hide TrimR, ColonAt, Continues, DepPart, TrimQuotes, TimeStamp;
    var s := TrimR(line);
    var rule := NewRule(TrimQuotes(TrimR(s[..ColonAt(s, 0).value])), TimeStamp(r.prev));
    assert [rule] + [] == [rule];
  }

  lemma {:induction false} OtherLineIs(r: Reader, line: string)
    ensures var s := TrimR(line);
            && (s == [] ==> ScanLine(r, line) == (r.(fMoreDeps := false), []))
            && (s != [] && s[0] == '#' ==> ScanLine(r, line) == (r.(prev := Some(s)), []))
            && (s != [] && s[0] != '#' && r.fMoreDeps ==>
                ScanLine(r, line) == (r.(fMoreDeps := DepPart(s).0), DepPart(s).1))
            && (s != [] && s[0] != '#' && !r.fMoreDeps && (IsBlank(s[0]) || ColonAt(s, 0).None?) ==>
                  ScanLine(r, line) == (Reader(false, None), []))
  {
    hide TrimR, ColonAt, Continues, DepPart, TrimQuotes, TimeStamp;
  }

  /** The body of depReadFile's loop. */
  method ReadLine(tree: DepTree, r: Reader, handle: Option<string>, line: string, o: Options, fCheckCyclic: bool)
      returns (r': Reader, pvRule: Option<string>, fTooDeep: bool)
    requires (handle.Some? ==> handle.value in tree.rules) && NamesEndWell(ScanLine(r, line).1)
    modifies tree
    ensures (pvRule.Some? ==> pvRule.value in tree.rules) && r' == ScanLine(r, line).0
    ensures Done(fCheckCyclic, fTooDeep, Tree(old(tree.rules), handle), ScanLine(r, line).1, o,
              Tree(tree.rules, pvRule))
  {
    hide *;
    var psz := TrimR(line);
    OtherLineIs(r, line);
    DoneNothing(fCheckCyclic, Tree(tree.rules, handle), o);
    pvRule, fTooDeep := handle, false;
    if |psz| == 0 {
      r' := r.(fMoreDeps := false);
    } else if psz[0] == '#' {
      r' := r.(prev := Some(psz));
    } else if r.fMoreDeps {
      var fMoreDeps;
      fMoreDeps, fTooDeep := ReadDep(tree, pvRule, psz, o, fCheckCyclic);
      r' := r.(fMoreDeps := fMoreDeps);
    } else {
      r' := Reader(false, None);
      if !IsBlank(psz[0]) {
        var i := ColonAt(psz, 0);
        if i.Some? {
          RuleLineIs(r, line);
          var fMoreDeps;
          fMoreDeps, pvRule, fTooDeep := ReadRule(tree, r.prev, psz, i.value, o, fCheckCyclic, handle);
          r' := Reader(fMoreDeps, None);
        }
      }
    }
  }

  lemma {:induction false} LinesStep(r: Reader, text: string)
    requires text != [] && text[0] != NUL
    ensures var line, rest := text[..LineEnd(text)], text[NextLine(text)..];
            var (r1, e1) := ScanLine(r, line);
            ScanLines(r, Lines(text)).1 == e1 + ScanLines(r1, Lines(rest)).1
  {
    hide ScanLine, LineEnd, NextLine;
  }

  lemma {:induction false} LinesDone(r: Reader, text: string)
    requires text == [] || text[0] == NUL
    ensures ScanLines(r, Lines(text)).1 == []
  {
  }

  lemma {:induction false} EventsIs(text: string)
    ensures Events(text) == ScanLines(Reader(false, None), Lines(text)).1
  {
    hide ScanLines, Lines;
  }

  /** depReadFile, as far as the text is concerned: the tree becomes what the events in the text make of it,
      without the dependants that the check for cycles objects to if it is on. */
  method ReadFile(tree: DepTree, text: string, o: Options, fCheckCyclic: bool) returns (fTooDeep: bool)
    requires NamesEndWell(Events(text))
    modifies tree
    ensures !fCheckCyclic ==> tree.rules == ApplyAll(Tree(old(tree.rules), None), Events(text), o).rules
    ensures fCheckCyclic && !fTooDeep ==>
              tree.rules == ApplyAllChecked(Tree(old(tree.rules), None), Events(text), o).rules
    ensures NeverCyclic(Tree(old(tree.rules), None), Events(text), o)
            ==> tree.rules == ApplyAll(Tree(old(tree.rules), None), Events(text), o).rules
  {
    hide *;
    ghost var start, done: seq<Event> := Tree(tree.rules, None), [];
    var r, pvRule := Reader(false, None), None;
    var pszNext: nat := 0;
    fTooDeep := false;
    EventsIs(text);
    DoneNothing(fCheckCyclic, start, o);
    assert text[0..] == text;
    while pszNext < |text| && text[pszNext] != NUL
      invariant pszNext <= |text| && (pvRule.Some? ==> pvRule.value in tree.rules)
      invariant NamesEndWell(ScanLines(r, Lines(text[pszNext..])).1)
      invariant done + ScanLines(r, Lines(text[pszNext..])).1 == Events(text)
      invariant Done(fCheckCyclic, fTooDeep, start, done, o, Tree(tree.rules, pvRule))
      decreases |text| - pszNext
    {
      var rest := text[pszNext..];
      var line := rest[..LineEnd(rest)];
      ghost var next := rest[NextLine(rest)..];
      LinesStep(r, rest);
      ghost var e1, e2 := ScanLine(r, line).1, ScanLines(ScanLine(r, line).0, Lines(next)).1;
      ghost var t, f := Tree(tree.rules, pvRule), fTooDeep;
      EndWellSplit(e1, e2);
      pszNext := pszNext + NextLine(rest);
      assert text[pszNext..] == next;
      var fDeep;
      r, pvRule, fDeep := ReadLine(tree, r, pvRule, line, o, fCheckCyclic);
      DoneConcat(fCheckCyclic, f, fDeep, start, done, e1, o, t, Tree(tree.rules, pvRule));
      fTooDeep := fTooDeep || fDeep;
      assert done + (e1 + e2) == done + e1 + e2;
      done := done + e1;
    }
    LinesDone(r, text[pszNext..]);
    assert done + [] == done;
    DoneIs(fCheckCyclic, fTooDeep, start, done, o, Tree(tree.rules, pvRule));
  }

  // ----- Writing ------------------------------------------------------------------------

  /** The size of szBuffer. */
  const BUFFER: nat := 0x10000

  lemma {:induction false} SizeIs()
    ensures BUFFER == 0x10000
  {
  }

  /** What is written behind the name for the dependants. */
  function DepTexts(deps: seq<string>): string {
    if deps == [] then [] else " \\\n    " + Written(deps[0]) + DepTexts(deps[1..])
  }

  lemma {:induction false} TwoLines(head: string)
    ensures Unlines([head, ""]) == head + "\n\n"
  {
    assert [head, ""][1..] == [""] && [""][1..] == [];
    assert "" + "\n" + [] == "\n";
    assert Unlines([""]) == "\n";
    assert head + "\n" + "\n" == head + "\n\n";
  }

  lemma {:induction false} TextStep(line: string, rest: seq<string>)
    ensures Unlines([line] + rest) == line + "\n" + Unlines(rest)
  {
    assert ([line] + rest)[1..] == rest;
  }

  lemma {:induction false} DepsStep(deps: seq<string>)
    requires deps != []
    ensures DepLines(deps) ==
              ["    " + Written(deps[0]) + (if deps[1..] != [] then " \\" else "")] + DepLines(deps[1..])
    ensures DepTexts(deps) == " \\\n    " + Written(deps[0]) + DepTexts(deps[1..])
  {
    hide Written;
  }

  lemma {:induction false} NoDeps()
    ensures DepLines([]) == [] && DepTexts([]) == []
  {
  }

  lemma {:induction false} DepTextIs(head: string, deps: seq<string>)
    ensures Unlines([head + (if deps != [] then " \\" else "")] + DepLines(deps) + [""]) ==
              head + DepTexts(deps) + "\n\n"
    decreases |deps|
  {
    hide *;
    NoDeps();
    if deps == [] {
      TwoLines(head);
      assert head + "" == head && head + [] == head;
      assert [head] + [] + [""] == [head, ""];
    } else {
      var next, line, rest := "    " + Written(deps[0]), head + " \\", DepTexts(deps[1..]);
      var lines := [next + (if deps[1..] != [] then " \\" else "")] + DepLines(deps[1..]);
      DepsStep(deps);
      DepTextIs(next, deps[1..]);
      assert [line] + DepLines(deps) + [""] == [line] + (lines + [""]);
      TextStep(line, lines + [""]);
      Joined(head, Written(deps[0]), rest);
    }
  }

  lemma {:induction false} Joined(head: string, name: string, rest: string)
    ensures head + " \\" + "\n" + ("    " + name + rest + "\n\n") == head + (" \\\n    " + name + rest) + "\n\n"
  {
    assert " \\" + "\n" + "    " == " \\\n    ";
    JoinedParts(head, " \\", "\n", "    ", name, rest);
  }

  lemma {:induction false} JoinedParts(head: string, a: string, b: string, c: string, name: string, rest: string)
    ensures head + a + b + (c + name + rest + "\n\n") == head + (a + b + c + name + rest) + "\n\n"
  {
  }

  lemma {:induction false} RuleTextIs(name: string, rule: Rule)
    ensures Unlines(RuleLines(name, rule)) ==
              "# " + rule.szTS + "\n" + (Written(name) + ":" + DepTexts(rule.deps) + "\n\n")
  {
    hide Written, DepTexts, DepLines;
    DepTextIs(Written(name) + ":", rule.deps);
    var line := Written(name) + ":" + (if rule.deps != [] then " \\" else "");
    assert RuleLines(name, rule)[1..] == [line] + DepLines(rule.deps) + [""];
  }

  /** The names of the rules that are written. */
  function Picked(g: Rules, names: seq<string>, fWriteUpdatedOnly: bool): (r: seq<string>)
    requires Listed(g, names)
    ensures forall n :: n in r <==> n in names && (fWriteUpdatedOnly ==> g[n].fUpdated)
  {
    if names == [] then []
    else (if !fWriteUpdatedOnly || g[names[0]].fUpdated then [names[0]] else []) +
         Picked(g, names[1..], fWriteUpdatedOnly)
  }

  lemma {:induction false} PickedOnce(g: Rules, names: seq<string>, fWriteUpdatedOnly: bool)
    requires Listed(g, names) && OnceEach(names)
    ensures OnceEach(Picked(g, names, fWriteUpdatedOnly))
  {
    if names != [] {
      PickedOnce(g, names[1..], fWriteUpdatedOnly);
      assert names[0] !in names[1..];
    }
  }

  /** Each name can be written to an empty buffer. */
  predicate Fits(name: string, rule: Rule) {
    && |name| * 3 + 2 + |rule.szTS| + 9 < BUFFER
    && forall i :: 0 <= i < |rule.deps| ==> |rule.deps[i]| * 3 + 22 < BUFFER
  }

  lemma {:induction false} WrittenLength(name: string)
    ensures |Written(name)| <= 2 * |name| + (if HasBlank(name) then 2 else 0)
  {
    MakeLength(name);
  }

  /** Puts characters into the buffer, which has to have room for them and for a terminator. */
  method Put(szBuffer: string, s: string) returns (r: string)
    requires |szBuffer| + |s| < BUFFER
    ensures r == szBuffer + s
  {
    r := szBuffer + s;
  }

  /** The name, quoted if it has blanks. */
  method PutName(szBuffer: string, name: string) returns (r: string)
    requires |szBuffer| + 2 * |name| + (if HasBlank(name) then 2 else 0) < BUFFER
    ensures r == szBuffer + Written(name)
  {
    hide Make;
    MakeLength(name);
    var fQuoted := HasBlank(name);
    r := szBuffer;
    if fQuoted {
      r := Put(r, "\"");
    }
    r := Put(r, Make(name));
    if fQuoted {
      r := Put(r, "\"");
    }
  }

  /** The dependants' turn: nothing is lost between the file and the buffer, and the buffer never overflows. */
  method WriteDeps(file: string, szBuffer: string, deps: seq<string>) returns (file': string, szBuffer': string)
    requires |szBuffer| < BUFFER && forall i :: 0 <= i < |deps| ==> |deps[i]| * 3 + 22 < BUFFER
    ensures |szBuffer'| < BUFFER && file' + szBuffer' == file + szBuffer + DepTexts(deps)
  {
    hide *;
    SizeIs();
    file', szBuffer' := file, szBuffer;
    assert deps[0..] == deps;
    var i: nat := 0;
    while i < |deps|
      invariant i <= |deps| && |szBuffer'| < BUFFER
      invariant file' + szBuffer' + DepTexts(deps[i..]) == file + szBuffer + DepTexts(deps)
    {
      var dep := deps[i];
      ghost var all, rest := file' + szBuffer', DepTexts(deps[i + 1..]);
      WrittenLength(dep);
      if |szBuffer'| + |dep| * 3 + (if HasBlank(dep) then 2 else 0) + 20 >= BUFFER {
        file', szBuffer' := file' + szBuffer', "";
      }
      szBuffer' := Put(szBuffer', " \\\n    ");
      szBuffer' := PutName(szBuffer', dep);
      DepTextsStep(deps, i);
      ghost var next := " \\\n    " + Written(dep);
      assert file' + szBuffer' == all + next;
      assert all + next + rest == all + (next + rest);
      i := i + 1;
    }
    assert deps[i..] == [];
    DepTextsEnd();
    assert file' + szBuffer' + [] == file' + szBuffer';
  }

  /** The timestamp and the name of a rule. */
  method WriteName(file: string, szBuffer: string, name: string, rule: Rule) returns (file': string, szBuffer': string)
    requires Fits(name, rule) && |szBuffer| < BUFFER
    ensures |szBuffer'| < BUFFER
    ensures file' + szBuffer' == file + szBuffer + (("# " + rule.szTS + "\n") + (Written(name) + ":"))
  {
    hide *;
    SizeIs();
    FitsIs(name, rule);
    WrittenLength(name);
    file', szBuffer' := file, szBuffer;
    if |szBuffer'| + |name| * 3 + (if HasBlank(name) then 2 else 0) + |rule.szTS| + 9 >= BUFFER {
      file', szBuffer' := file' + szBuffer', "";
    }
    szBuffer' := Put(szBuffer', "# " + rule.szTS + "\n");
    szBuffer' := PutName(szBuffer', name);
    szBuffer' := Put(szBuffer', ":");
  }

  /** A rule's turn. */
  method WriteRule(file: string, szBuffer: string, name: string, rule: Rule) returns (file': string, szBuffer': string)
    requires Fits(name, rule) && |szBuffer| < BUFFER
    ensures |szBuffer'| < BUFFER && file' + szBuffer' == file + szBuffer + Unlines(RuleLines(name, rule))
  {
    hide *;
    SizeIs();
    FitsIs(name, rule);
    file', szBuffer' := WriteName(file, szBuffer, name, rule);
    file', szBuffer' := WriteDeps(file', szBuffer', rule.deps);
    ghost var all := file' + szBuffer';
    if |szBuffer'| + 2 >= BUFFER {
      file', szBuffer' := file' + szBuffer', "";
    }
    assert file' + szBuffer' == all;
    ghost var buf := szBuffer';
    szBuffer' := Put(szBuffer', "\n\n");
    assert file' + (buf + "\n\n") == all + "\n\n";
    RuleTextIs(name, rule);
    Regroup(file + szBuffer, "# " + rule.szTS + "\n", Written(name) + ":", DepTexts(rule.deps), "\n\n");
  }

  lemma {:induction false} Regroup(a: string, b: string, c: string, d: string, e: string)
    ensures a + (b + c) + d + e == a + (b + (c + d + e))
  {
  }

  lemma {:induction false} FitsIs(name: string, rule: Rule)
    requires Fits(name, rule)
    ensures |name| * 3 + 2 + |rule.szTS| + 9 < BUFFER
    ensures forall i :: 0 <= i < |rule.deps| ==> |rule.deps[i]| * 3 + 22 < BUFFER
  {
  }

  lemma {:induction false} DepTextsStep(deps: seq<string>, i: nat)
    requires i < |deps|
    ensures DepTexts(deps[i..]) == " \\\n    " + Written(deps[i]) + DepTexts(deps[i + 1..])
  {
    hide Written;
    assert deps[i..][1..] == deps[i + 1..];
  }

  lemma {:induction false} DepTextsEnd()
    ensures DepTexts([]) == []
  {
  }

  /** The text of the rules that are still to be written. */
  function RulesText(g: Rules, names: seq<string>, fWriteUpdatedOnly: bool): string
    requires Listed(g, names)
  {
    Unlines(AllRuleLines(g, Picked(g, names, fWriteUpdatedOnly)))
  }

  lemma {:induction false} RulesTextStep(g: Rules, names: seq<string>, i: nat, fWriteUpdatedOnly: bool)
    requires Listed(g, names) && i < |names|
    ensures Listed(g, names[i..]) && Listed(g, names[i + 1..])
    ensures RulesText(g, names[i..], fWriteUpdatedOnly) ==
            (if !fWriteUpdatedOnly || g[names[i]].fUpdated then Unlines(RuleLines(names[i], g[names[i]])) else [])
            + RulesText(g, names[i + 1..], fWriteUpdatedOnly)
  {
    hide RuleLines, Unlines;
    var n, rest := names[i], Picked(g, names[i + 1..], fWriteUpdatedOnly);
    assert names[i..][0] == n && names[i..][1..] == names[i + 1..];
    if !fWriteUpdatedOnly || g[n].fUpdated {
      assert ([n] + rest)[0] == n && ([n] + rest)[1..] == rest;
      UnlinesConcat(RuleLines(n, g[n]), AllRuleLines(g, rest));
    } else {
      assert [] + rest == rest;
    }
  }

  lemma {:induction false} FileTextIs(warning: seq<string>, g: Rules, names: seq<string>, fWriteUpdatedOnly: bool)
    requires Listed(g, names)
    ensures Unlines(FileLines(warning, g, Picked(g, names, fWriteUpdatedOnly))) ==
            Unlines(Commented(warning) + [""]) + RulesText(g, names, fWriteUpdatedOnly)
    ensures RulesText(g, [], fWriteUpdatedOnly) == []
  {
    hide RuleLines;
    UnlinesConcat(Commented(warning) + [""], AllRuleLines(g, Picked(g, names, fWriteUpdatedOnly)));
  }

  /** depWriteFile; names are the rules' names in the order of the tree. */
  method WriteFile(warning: seq<string>, g: Rules, names: seq<string>, fWriteUpdatedOnly: bool) returns (file: string)
    requires Listed(g, names) && forall n :: n in names ==> Fits(n, g[n])
    ensures file == Unlines(FileLines(warning, g, Picked(g, names, fWriteUpdatedOnly)))
  {
    hide *;
    SizeIs();
    file := Unlines(Commented(warning) + [""]);
    var szBuffer := "";
    var i: nat := 0;
    FileTextIs(warning, g, names, fWriteUpdatedOnly);
    assert names[0..] == names;
    while i < |names|
      invariant i <= |names| && |szBuffer| < BUFFER && Listed(g, names[i..])
      invariant file + szBuffer + RulesText(g, names[i..], fWriteUpdatedOnly) ==
                Unlines(Commented(warning) + [""]) + RulesText(g, names, fWriteUpdatedOnly)
    {
      ListedAt(g, names, i);
      RulesTextStep(g, names, i, fWriteUpdatedOnly);
      var pdep := g[names[i]];
      if !fWriteUpdatedOnly || pdep.fUpdated {
        ghost var rule, rest := Unlines(RuleLines(names[i], pdep)), RulesText(g, names[i + 1..], fWriteUpdatedOnly);
        assert file + szBuffer + (rule + rest) == file + szBuffer + rule + rest;
        file, szBuffer := WriteRule(file, szBuffer, names[i], pdep);
      }
      i := i + 1;
    }
    assert names[i..] == [];
    file := file + szBuffer;
  }
}
