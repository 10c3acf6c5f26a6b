/** What file names look like in makefiles, and what the dependency scanner collects. */
module DepLaws {
  import opened Basics
  import opened DepNames
  import opened DepGraph
  import opened DepFile
  import opened DepScan

  // ----- Names -------------------------------------------------------------------------------------

  /** The characters with a meaning of their own to make. */
  predicate IsSpecial(s: string, i: nat)
    requires i < |s|
  {
    || s[i] == '#' || s[i] == '!' || s[i] == '@' || s[i] == '-' || s[i] == '^'
    || (s[i] == '$' && !(i + 1 < |s| && s[i + 1] == '('))
  }

  function Shown(s: string, i: nat): string
    requires i < |s|
  {
    if IsSpecial(s, i) then ['^', s[i]] else [s[i]]
  }

  /** A caret goes in front of exactly these. */
  lemma {:induction false} MakeIs(s: string)
    ensures Make(s) == Concat(seq(|s|, i requires 0 <= i < |s| => Shown(s, i)))
  {
    var pieces := seq(|s|, i requires 0 <= i < |s| => Shown(s, i));
    if s != [] {
      var t := s[1..];
      MakeIs(t);
      var rest := seq(|t|, i requires 0 <= i < |t| => Shown(t, i));
      assert pieces[1..] == rest by {
        forall i | 0 <= i < |t| ensures pieces[1..][i] == rest[i] {
          ShownLater(s, i);
        }
      }
      assert pieces[0] == if NeedsEscape(s) then ['^', s[0]] else [s[0]];
    }
  }

  lemma {:induction false} ShownLater(s: string, i: nat)
    requires i + 1 < |s|
    ensures Shown(s, i + 1) == Shown(s[1..], i)
  {
  }

  /** Reading back, a caret, or a dollar in front of another, stands for the character behind it. */
  lemma {:induction false} RealMeans(c: char, t: string)
    ensures Real(['^', c] + t) == [c] + Real(t)
    ensures Real("$$" + t) == "$" + Real(t)
    ensures c != '^' && c != '$' ==> Real([c] + t) == [c] + Real(t)
    ensures c != '$' ==> Real(['$', c] + t) == "$" + Real([c] + t)
    ensures Real("$") == "$" && Real([]) == []
  {
    assert (['^', c] + t)[2..] == t && ("$$" + t)[2..] == t && ([c] + t)[1..] == t;
    assert (['$', c] + t)[1..] == [c] + t && "$"[1..] == [];
  }

  /** Names with blanks or tabs are quoted. */
  lemma {:induction false} WrittenIs(name: string)
    ensures Written(name) == if ' ' in name || '\t' in name then "\"" + Make(name) + "\"" else Make(name)
  {
    if ' ' in name {
      var i :| 0 <= i < |name| && name[i] == ' ';
      assert HasBlank(name);
    }
    if '\t' in name {
      var i :| 0 <= i < |name| && name[i] == '\t';
      assert HasBlank(name);
    }
  }

  // ----- What make reads -----------------------------------------------------------------------------

  function WithoutTail(s: string): string {
    if s != "" && IsBlank(s[|s| - 1]) then WithoutTail(s[..|s| - 1]) else s
  }

  function WithoutHead(s: string): string {
    if s != "" && IsBlank(s[0]) then WithoutHead(s[1..]) else s
  }

  /** A line that ends in a backslash goes on with the next, the blanks around it being worth one. */
  function Unfolded(lines: seq<string>): seq<string> {
    if lines == [] then []
    else
      var line, rest := lines[0], Unfolded(lines[1..]);
      if line != "" && line[|line| - 1] == '\\' && rest != [] then
        [WithoutTail(line[..|line| - 1]) + " " + WithoutHead(rest[0])] + rest[1..]
      else [line] + rest
  }

  function Words(names: seq<string>): string {
    if names == [] then "" else Written(names[0]) + (if |names| > 1 then " " else "") + Words(names[1..])
  }

  lemma {:induction false} HeadKept(w: string, t: string)
    requires w != "" && !IsBlank(w[0])
    ensures WithoutHead("    " + w + t) == w + t
  {
    assert "    " + w + t == "    " + (w + t) && "    "[..4] == "    " && (w + t)[0] == w[0];
    HeadGone(w + t, 4);
  }

  lemma {:induction false} HeadGone(t: string, n: nat)
    requires n <= 4 && t != "" && !IsBlank(t[0])
    ensures WithoutHead("    "[..n] + t) == t
  {
    if n == 0 {
      assert "    "[..0] + t == t;
    } else {
      assert ("    "[..n] + t)[1..] == "    "[..n - 1] + t;
      HeadGone(t, n - 1);
    }
  }

  lemma {:induction false} TailKept(w: string)
    requires w != "" && !IsBlank(w[|w| - 1])
    ensures (w + " \\")[..|w| + 1] == w + " " && WithoutTail(w + " ") == w
  {
    assert (w + " ")[..|w|] == w;
  }

  /** A written name ends in no blank and no backslash. */
  lemma {:induction false} NameEnds(name: string)
    requires GoodName(name)
    ensures var w := Written(name);
            w != "" && !IsBlank(w[0]) && !IsBlank(w[|w| - 1]) && w[|w| - 1] != '\\'
  {
    hide Make;
    DepFile.WrittenIs(name);
    DepFile.MakeIs(name);
    if !HasBlank(name) {
      assert !IsBlank(name[|name| - 1]);
    }
  }

  lemma {:induction false} Continued(line: string, next: string, rest: seq<string>, lines: seq<string>)
    requires lines != [] && lines[0] == line + " \\" && line != "" && !IsBlank(line[|line| - 1])
    requires Unfolded(lines[1..]) == [next] + rest
    ensures Unfolded(lines) == [line + " " + WithoutHead(next)] + rest
  {
    hide WithoutHead, WithoutTail;
    TailKept(line);
    var l := lines[0];
    assert l[..|l| - 1] == line + " ";
  }

  lemma {:induction false} FirstWord(names: seq<string>)
    requires names != [] && GoodName(names[0])
    ensures WithoutHead("    " + Words(names)) == Words(names)
  {
    hide Written, GoodName, WithoutHead;
    var v := Written(names[0]);
    NameEnds(names[0]);
    var t := Words(names)[|v|..];
    assert Words(names) == v + t && "    " + (v + t) == "    " + v + t;
    HeadKept(v, t);
  }

  lemma {:induction false} WordsStep(names: seq<string>)
    requires names != []
    ensures |names| == 1 ==> Words(names) == Written(names[0])
    ensures |names| > 1 ==> Words(names) == Written(names[0]) + " " + Words(names[1..])
  {
    hide Written;
  }

  lemma {:induction false} LinesStep(deps: seq<string>)
    ensures deps == [] ==> DepLines(deps) + [""] == [""]
    ensures deps != [] ==>
              var lines := DepLines(deps) + [""];
              && lines != [] && lines[1..] == DepLines(deps[1..]) + [""]
              && lines[0] == "    " + Written(deps[0]) + (if |deps| > 1 then " \\" else "")
  {
    hide Written;
  }

  lemma {:induction false} NothingBehind(line: string)
    requires line == "" || line[|line| - 1] != '\\'
    ensures Unfolded([line, ""]) == [line, ""]
  {
    hide WithoutHead, WithoutTail;
    assert [line, ""][1..] == [""] && [""][1..] == [];
  }

  lemma {:induction false} Kept(line: string, lines: seq<string>)
    requires lines != [] && lines[0] == line && (line == "" || line[|line| - 1] != '\\')
    ensures Unfolded(lines) == [line] + Unfolded(lines[1..])
  {
    hide WithoutHead, WithoutTail;
  }

  lemma {:induction false} DepsUnfold(deps: seq<string>)
    requires deps != [] && forall d :: d in deps ==> GoodName(d)
    ensures Unfolded(DepLines(deps) + [""]) == ["    " + Words(deps), ""]
  {
    hide *;
    var lines := DepLines(deps) + [""];
    var w := Written(deps[0]);
    assert deps[0] in deps;
    NameEnds(deps[0]);
    LinesStep(deps);
    WordsStep(deps);
    if |deps| == 1 {
      LinesStep([]);
      assert deps[1..] == [] && "    " + w + "" == "    " + w;
      assert lines == ["    " + w, ""];
      NothingBehind("    " + w);
    } else {
      assert forall d :: d in deps[1..] ==> d in deps;
      DepsUnfold(deps[1..]);
      Continued("    " + w, "    " + Words(deps[1..]), [""], lines);
      assert deps[1] in deps && deps[1..][0] == deps[1];
      FirstWord(deps[1..]);
      assert "    " + w + " " + Words(deps[1..]) == "    " + (w + " " + Words(deps[1..]));
    }
  }

  /** A rule as make reads what is written: a comment, the name with a colon and all dependants, and an empty line. */
  lemma {:induction false} RuleIs(name: string, rule: Rule)
    requires GoodName(name) && (forall d :: d in rule.deps ==> GoodName(d))
    requires rule.szTS == "" || rule.szTS[|rule.szTS| - 1] != '\\'
    ensures var deps := if rule.deps == [] then "" else " " + Words(rule.deps);
            Unfolded(RuleLines(name, rule)) == ["# " + rule.szTS, Written(name) + ":" + deps, ""]
  {
    hide Written, GoodName, WithoutHead, WithoutTail, DepLines, Words, RuleLines, Unfolded;
    var w, ts := Written(name) + ":", "# " + rule.szTS;
    var lines := RuleLines(name, rule);
    RuleStep(name, rule);
    Kept(ts, lines);
    LinesStep(rule.deps);
    if rule.deps == [] {
      assert w + "" == w;
      assert lines[1..] == [lines[1]] + lines[1..][1..] == [w, ""];
      NothingBehind(w);
    } else {
      DepsUnfold(rule.deps);
      Continued(w, "    " + Words(rule.deps), [""], lines[1..]);
      assert rule.deps[0] in rule.deps;
      FirstWord(rule.deps);
      assert w + " " + Words(rule.deps) == w + (" " + Words(rule.deps));
    }
  }

  lemma {:induction false} RuleStep(name: string, rule: Rule)
    ensures var lines, w := RuleLines(name, rule), Written(name) + ":";
            && |lines| > 2 && lines[0] == "# " + rule.szTS && lines[1..][1..] == DepLines(rule.deps) + [""]
            && lines[1] == w + (if rule.deps == [] then "" else " \\")
  {
    hide Written, DepLines;
  }

  // ----- Names collected ---------------------------------------------------------------------------

  predicate Distinct(names: seq<string>) {
    forall i, j :: 0 <= i < j < |names| ==> names[i] != names[j]
  }

  /** Each name is there once, and none that has not been entered. */
  lemma {:induction false} NamesOnce(deps: seq<string>, names: seq<string>)
    requires Distinct(deps)
    ensures var all := AddAll(deps, names);
            && Distinct(all) && deps <= all && forall n :: n in all <==> n in deps || n in names
    decreases |names|
  {
    if names != [] {
      var d := DepAdd(deps, names[0]);
      NamesOnce(d, names[1..]);
      assert names == [names[0]] + names[1..];
    }
  }

  /** In the order in which they first occur. */
  lemma {:induction false} FirstComesFirst(deps: seq<string>, name: string, names: seq<string>)
    requires name !in deps
    ensures |AddAll(deps, [name] + names)| > |deps| && AddAll(deps, [name] + names)[|deps|] == name
  {
    assert ([name] + names)[1..] == names;
    AddAllGrows(deps + [name], names);
  }

  lemma {:induction false} AddAllGrows(deps: seq<string>, names: seq<string>)
    ensures deps <= AddAll(deps, names)
    decreases |names|
  {
    if names != [] {
      AddAllGrows(DepAdd(deps, names[0]), names[1..]);
    }
  }
}
