/** The rules of a dependency file as a graph, and the search that keeps it free of cycles. */
module DepGraph {
  import opened Basics
  import opened DepNames

  // ----- Names ------------------------------------------------------------------------

  /** strcmp. */
  function StrCmp(a: string, b: string): int {
    if a == [] && b == [] then 0
    else if a == [] then -1
    else if b == [] then 1
    else if a[0] < b[0] then -1
    else if a[0] > b[0] then 1
    else StrCmp(a[1..], b[1..])
  }

  lemma {:induction false} CmpEqual(a: string, b: string)
    ensures StrCmp(a, b) == 0 <==> a == b
  {
    if a != [] && b != [] && a[0] == b[0] {
      CmpEqual(a[1..], b[1..]);
      assert a == [a[0]] + a[1..] && b == [b[0]] + b[1..];
    }
  }

  lemma {:induction false} CmpSwap(a: string, b: string)
    ensures StrCmp(a, b) < 0 <==> StrCmp(b, a) > 0
  {
    if a != [] && b != [] && a[0] == b[0] {
      CmpSwap(a[1..], b[1..]);
    }
  }

  lemma {:induction false} CmpTransitive(a: string, b: string, c: string)
    requires StrCmp(a, b) < 0 && StrCmp(b, c) < 0
    ensures StrCmp(a, c) < 0
  {
    if a != [] && b != [] && c != [] && a[0] == b[0] == c[0] {
      CmpTransitive(a[1..], b[1..], c[1..]);
    }
  }

  // ----- The graph ------------------------------------------------------------------------

  /** A rule; papszDep is NULL exactly when it has no dependants. */
  datatype Rule = Rule(deps: seq<string>, fUpdated: bool, szTS: string)

  type Rules = map<string, Rule>

  function Deps(g: Rules, n: string): seq<string> {
    if n in g then g[n].deps else []
  }

  ghost predicate Edge(g: Rules, a: string, b: string) {
    b in Deps(g, a)
  }

  ghost predicate Walk(g: Rules, p: seq<string>) {
    forall i :: 0 <= i < |p| - 1 ==> Edge(g, p[i], p[i + 1])
  }

  /** A way from a to b, of any length. */
  ghost predicate Reaches(g: Rules, a: string, b: string) {
    exists p :: |p| > 0 && p[0] == a && p[|p| - 1] == b && Walk(g, p)
  }

  /** A way from a to b over no more than n nodes, these two included. */
  ghost predicate ReachesWithin(g: Rules, a: string, b: string, n: nat) {
    exists p :: 0 < |p| <= n && p[0] == a && p[|p| - 1] == b && Walk(g, p)
  }

  lemma {:induction false} WithinReaches(g: Rules, a: string, b: string, n: nat)
    requires ReachesWithin(g, a, b, n)
    ensures Reaches(g, a, b)
  {
    hide Walk;
  }

  ghost predicate Closed(g: Rules, p: seq<string>) {
    |p| > 1 && p[0] == p[|p| - 1] && Walk(g, p)
  }

  ghost predicate Acyclic(g: Rules) {
    forall p :: !Closed(g, p)
  }

  // ----- One edge more ------------------------------------------------------------------------

  function WithDep(g: Rules, rule: string, dep: string): Rules
    requires rule in g
  {
    g[rule := g[rule].(deps := g[rule].deps + [dep])]
  }

  lemma {:induction false} EdgesOf(g: Rules, rule: string, dep: string)
    requires rule in g
    ensures forall a, b :: Edge(WithDep(g, rule, dep), a, b) <==> Edge(g, a, b) || (a == rule && b == dep)
  {
  }

  /** From a way with the new edge, the part up to the first visit of the rule does without it. */
  lemma {:induction false} FirstVisit(g: Rules, rule: string, dep: string, q: seq<string>)
    requires rule in g && |q| > 0 && q[|q| - 1] == rule && Walk(WithDep(g, rule, dep), q)
    ensures Reaches(g, q[0], rule)
  {
    if q[0] == rule {
      assert Walk(g, [rule]);
    } else {
      EdgesOf(g, rule, dep);
      var rest := q[1..];
      forall i | 0 <= i < |rest| - 1 ensures Edge(WithDep(g, rule, dep), rest[i], rest[i + 1]) {
        assert Edge(WithDep(g, rule, dep), q[i + 1], q[i + 1 + 1]);
      }
      FirstVisit(g, rule, dep, rest);
      var p :| |p| > 0 && p[0] == rest[0] && p[|p| - 1] == rule && Walk(g, p);
      assert Edge(WithDep(g, rule, dep), q[0], q[0 + 1]);
      Prepend(g, q[0], p);
    }
  }

  lemma {:induction false} Prepend(g: Rules, a: string, p: seq<string>)
    requires |p| > 0 && Walk(g, p) && Edge(g, a, p[0])
    ensures Reaches(g, a, p[|p| - 1])
  {
    var q := [a] + p;
    forall i | 0 <= i < |q| - 1 ensures Edge(g, q[i], q[i + 1]) {
      if i > 0 {
        assert Edge(g, p[i - 1], p[i - 1 + 1]);
      }
    }
    assert Walk(g, q) && q[0] == a && q[|q| - 1] == p[|p| - 1];
  }

  /** A closed way turned so that it starts behind the edge at i. */
  lemma {:induction false} Turned(g: Rules, p: seq<string>, i: nat)
    requires Closed(g, p) && i + 1 < |p|
    ensures var q := p[i + 1..] + p[1..i + 1];
            |q| > 0 && q[0] == p[i + 1] && q[|q| - 1] == p[i] && Walk(g, q)
  {
    var q := p[i + 1..] + p[1..i + 1];
    var k := |p| - i - 1;
    forall j | 0 <= j < |q| - 1 ensures Edge(g, q[j], q[j + 1]) {
      if j < k - 1 {
        assert Edge(g, p[i + 1 + j], p[i + 1 + j + 1]);
      } else if j == k - 1 {
        assert Edge(g, p[0], p[0 + 1]);
      } else {
        assert Edge(g, p[j - k + 1], p[j - k + 1 + 1]);
      }
    }
  }

  /** A new edge keeps the graph free of cycles exactly when nothing leads from its end back to its start. */
  lemma {:induction false} AddedKeepsAcyclic(g: Rules, rule: string, dep: string)
    requires Acyclic(g) && rule in g
    ensures Acyclic(WithDep(g, rule, dep)) <==> !Reaches(g, dep, rule)
  {
    var g' := WithDep(g, rule, dep);
    EdgesOf(g, rule, dep);
    if Reaches(g, dep, rule) {
      var p :| |p| > 0 && p[0] == dep && p[|p| - 1] == rule && Walk(g, p);
      var q := p + [dep];
      forall i | 0 <= i < |q| - 1 ensures Edge(g', q[i], q[i + 1]) {
        if i < |p| - 1 {
          assert Edge(g, p[i], p[i + 1]);
        }
      }
      assert Closed(g', q);
    } else {
      forall p ensures !Closed(g', p) {
        if Closed(g', p) {
          NewEdgeUsed(g, rule, dep, p);
        }
      }
    }
  }

  lemma {:induction false} NewEdgeUsed(g: Rules, rule: string, dep: string, p: seq<string>)
    requires Acyclic(g) && rule in g && Closed(WithDep(g, rule, dep), p)
    ensures Reaches(g, dep, rule)
  {
    EdgesOf(g, rule, dep);
    assert !Closed(g, p);
    var i :| 0 <= i < |p| - 1 && !Edge(g, p[i], p[i + 1]);
    assert Edge(WithDep(g, rule, dep), p[i], p[i + 1]);
    Turned(WithDep(g, rule, dep), p, i);
    FirstVisit(g, rule, dep, p[i + 1..] + p[1..i + 1]);
  }

  /** Taking dependants away cannot close a cycle. */
  lemma {:induction false} FewerKeepsAcyclic(g: Rules, g': Rules)
    requires Acyclic(g) && forall a, b :: Edge(g', a, b) ==> Edge(g, a, b)
    ensures Acyclic(g')
  {
    forall p ensures !Closed(g', p) {
      if Closed(g', p) {
        assert Closed(g, p);
      }
    }
  }

  // ----- The history: sorted, each name once ---------------------------------------------------

  ghost predicate SortedNames(h: seq<string>) {
    forall i, j :: 0 <= i < j < |h| ==> StrCmp(h[i], h[j]) < 0
  }

  /** All names before the place are smaller, all from there on greater. */
  ghost predicate Place(h: seq<string>, x: string, at: nat) {
    at <= |h| && (forall i :: 0 <= i < at ==> StrCmp(h[i], x) < 0) &&
    (forall i :: at <= i < |h| ==> StrCmp(x, h[i]) < 0)
  }

  lemma {:induction false} InsertedSorted(h: seq<string>, x: string, at: nat)
    requires SortedNames(h) && Place(h, x, at)
    ensures SortedNames(h[..at] + [x] + h[at..]) && x !in h
  {
    var s := h[..at] + [x] + h[at..];
    forall i, j | 0 <= i < j < |s| ensures StrCmp(s[i], s[j]) < 0 {
      assert s[i] == if i < at then h[i] else if i == at then x else h[i - 1];
      assert s[j] == if j < at then h[j] else if j == at then x else h[j - 1];
    }
    if x in h {
      CmpEqual(x, x);
    }
  }

  lemma {:induction false} SplitAt(h: seq<string>, x: string, j: nat)
    requires SortedNames(h) && j < |h| && StrCmp(x, h[j]) != 0
    ensures StrCmp(x, h[j]) < 0 ==> forall i :: j <= i < |h| ==> StrCmp(x, h[i]) < 0
    ensures StrCmp(x, h[j]) > 0 ==> forall i :: 0 <= i <= j ==> StrCmp(h[i], x) < 0
  {
    if StrCmp(x, h[j]) < 0 {
      forall i | j < i < |h| ensures StrCmp(x, h[i]) < 0 {
        CmpTransitive(x, h[j], h[i]);
      }
    } else {
      CmpSwap(h[j], x);
      forall i | 0 <= i < j ensures StrCmp(h[i], x) < 0 {
        CmpTransitive(h[i], h[j], x);
      }
    }
  }

  /** The binary search in the history; it starts in the middle and there is always something in it. */
  method SearchHistory(apszHistory: array<string>, iHistory: nat, x: string) returns (fFound: bool, at: nat)
    requires 0 < iHistory <= apszHistory.Length && SortedNames(apszHistory[..iHistory])
    ensures fFound <==> x in apszHistory[..iHistory]
    ensures !fFound ==> Place(apszHistory[..iHistory], x, at)
  {
    ghost var h := apszHistory[..iHistory];
    var iEnd: int := iHistory - 1;
    var iStart := 0;
    var j := iHistory / 2;
    var iCmp := StrCmp(x, apszHistory[j]);
    while iCmp != 0 && iEnd != iStart
      invariant 0 <= iStart <= j <= iEnd < iHistory && h == apszHistory[..iHistory]
      invariant iCmp == StrCmp(x, apszHistory[j])
      invariant forall i :: 0 <= i < iStart ==> StrCmp(h[i], x) < 0
      invariant forall i :: iEnd < i < iHistory ==> StrCmp(x, h[i]) < 0
      decreases iEnd - iStart
    {
      SplitAt(h, x, j);
      if iCmp < 0 {
        iEnd := j - 1;
      } else {
        iStart := j + 1;
      }
      if iStart > iEnd {
        break;
      }
      j := (iStart + iEnd) / 2;
      iCmp := StrCmp(x, apszHistory[j]);
    }
    CmpEqual(x, h[j]);
    fFound := iCmp == 0;
    at := if iCmp > 0 then j + 1 else j;
    if !fFound {
      SplitAt(h, x, j);
      InsertedSorted(h, x, at);
    }
  }

  /** A name goes into its place; the greater ones move up. */
  method InsertHistory(apszHistory: array<string>, iHistory: nat, x: string, at: nat)
    requires iHistory < apszHistory.Length && SortedNames(apszHistory[..iHistory])
    requires Place(apszHistory[..iHistory], x, at)
    modifies apszHistory
    ensures apszHistory[..iHistory + 1] == old(apszHistory[..at]) + [x] + old(apszHistory[at..iHistory])
    ensures SortedNames(apszHistory[..iHistory + 1])
  {
    hide *;
    ghost var h := apszHistory[..iHistory];
    InsertedSorted(h, x, at);
    PlaceInside(h, x, at);
    var k: nat := iHistory;
    while k > at
      invariant at <= k <= iHistory
      invariant forall i :: 0 <= i < k ==> apszHistory[i] == h[i]
      invariant forall i :: k < i <= iHistory ==> apszHistory[i] == h[i - 1]
    {
      apszHistory[k] := apszHistory[k - 1];
      k := k - 1;
    }
    apszHistory[at] := x;
    Shifted(apszHistory[..iHistory + 1], h, x, at);
  }

  lemma {:induction false} Shifted(s: seq<string>, h: seq<string>, x: string, at: nat)
    requires |s| == |h| + 1 && at <= |h| && s[at] == x
    requires forall i :: 0 <= i < at ==> s[i] == h[i]
    requires forall i :: at < i <= |h| ==> s[i] == h[i - 1]
    ensures s == h[..at] + [x] + h[at..]
  {
  }

  lemma {:induction false} Sizes()
    ensures DEPTH == 32 && HISTORY == 256
  {
  }

  /** What the history holds of the rules seen; once full it takes no more. */
  ghost predicate IsHistory(h: seq<string>, seen: set<string>) {
    0 < |h| <= HISTORY && SortedNames(h) && forall x :: x in h ==> x in seen
  }

  /** Tells whether the name is in the history, and puts it there if there is room. */
  method Remember(apszHistory: array<string>, iHistory: nat, x: string, ghost seen: set<string>)
      returns (fFound: bool, iHistory': nat)
    requires apszHistory.Length == HISTORY && iHistory <= HISTORY && IsHistory(apszHistory[..iHistory], seen)
    modifies apszHistory
    ensures fFound ==> x in seen && iHistory' == iHistory && apszHistory[..] == old(apszHistory[..])
    ensures !fFound ==> x !in old(apszHistory[..iHistory])
    ensures iHistory' <= HISTORY && IsHistory(apszHistory[..iHistory'], seen + {x})
    ensures fFound ==> IsHistory(apszHistory[..iHistory'], seen)
    ensures !fFound && iHistory < HISTORY ==> x in apszHistory[..iHistory']
  {
    hide StrCmp, SortedNames, Place;
    var at;
    fFound, at := SearchHistory(apszHistory, iHistory, x);
    iHistory' := iHistory;
    if !fFound && iHistory < HISTORY {
      ghost var h := apszHistory[..iHistory];
      PlaceInside(h, x, at);
      InsertHistory(apszHistory, iHistory, x, at);
      iHistory' := iHistory + 1;
      assert apszHistory[..iHistory'][at] == x;
      assert h == h[..at] + h[at..];
    }
  }

  lemma {:induction false} PlaceInside(h: seq<string>, x: string, at: nat)
    requires Place(h, x, at)
    ensures at <= |h|
  {
  }

  // ----- The search ------------------------------------------------------------------------

  /** A place in the dependants of a rule: what char **ppsz points to. */
  datatype Pos = Pos(node: string, index: nat)

  const DEPTH: nat := 32
  const HISTORY: nat := 256

  ghost predicate Within(g: Rules, st: seq<Pos>) {
    forall k :: 0 <= k < |st| ==> st[k].index <= |Deps(g, st[k].node)|
  }

  lemma {:induction false} WithinSnoc(g: Rules, st: seq<Pos>, cur: Pos)
    requires Within(g, st) && cur.index <= |Deps(g, cur.node)|
    ensures Within(g, st + [cur])
  {
  }

  lemma {:induction false} WithinInit(g: Rules, st: seq<Pos>)
    requires Within(g, st) && st != []
    ensures Within(g, st[..|st| - 1])
  {
  }

  /** The stack, from the dependant the search starts at down to the current rule. */
  ghost predicate Chain(g: Rules, dep: string, st: seq<Pos>) {
    && (|st| > 0 ==> st[0].node == dep)
    && Within(g, st)
    && (forall k :: 0 <= k < |st| - 1 ==> st[k].index > 0 && Deps(g, st[k].node)[st[k].index - 1] == st[k + 1].node)
  }

  function NodesOf(st: seq<Pos>): seq<string> {
    seq(|st|, i requires 0 <= i < |st| => st[i].node)
  }

  lemma {:induction false} ChainWalks(g: Rules, dep: string, st: seq<Pos>)
    requires Chain(g, dep, st)
    ensures Walk(g, NodesOf(st))
  {
    var p := NodesOf(st);
    forall i | 0 <= i < |p| - 1 ensures Edge(g, p[i], p[i + 1]) {
      assert Deps(g, st[i].node)[st[i].index - 1] == st[i + 1].node;
    }
  }

  lemma {:induction false} ChainReaches(g: Rules, dep: string, st: seq<Pos>, rule: string)
    requires Chain(g, dep, st) && |st| > 0 && rule in Deps(g, st[|st| - 1].node)
    ensures ReachesWithin(g, dep, rule, |st| + 1)
  {
    ChainWalks(g, dep, st);
    var p, q := NodesOf(st), NodesOf(st) + [rule];
    forall i | 0 <= i < |q| - 1 ensures Edge(g, q[i], q[i + 1]) {
      if i < |p| - 1 {
        assert Edge(g, p[i], p[i + 1]);
      }
    }
    assert Walk(g, q) && q[0] == dep && q[|q| - 1] == rule;
  }

  lemma {:induction false} ChainDown(g: Rules, dep: string, st: seq<Pos>, cur: Pos)
    requires Chain(g, dep, st + [cur]) && cur.index < |Deps(g, cur.node)|
    ensures Chain(g, dep, st + [cur.(index := cur.index + 1)])
    ensures Chain(g, dep, st + [cur.(index := cur.index + 1)] + [Pos(Deps(g, cur.node)[cur.index], 0)])
    ensures Chain(g, dep, st)
  {
    var a := st + [cur];
    assert forall k :: 0 <= k < |st| ==> a[k] == st[k];
    assert a[|st|] == cur;
  }

  lemma {:induction false} ChainUp(g: Rules, dep: string, st: seq<Pos>, cur: Pos)
    requires Chain(g, dep, st + [cur])
    ensures Chain(g, dep, st)
  {
    var a := st + [cur];
    assert forall k :: 0 <= k < |st| ==> a[k] == st[k];
  }

  /** The search will still come to dependant j of n. */
  ghost predicate Covered(st: seq<Pos>, n: string, j: nat) {
    exists k :: 0 <= k < |st| && st[k].node == n && st[k].index <= j
  }

  /** Nothing more is to be done about c. */
  ghost predicate Handled(g: Rules, seen: set<string>, rule: string, c: string) {
    c != rule && (c in seen || Deps(g, c) == [])
  }

  /** Every dependant of a rule seen is dealt with or still to come. */
  ghost predicate Complete(g: Rules, seen: set<string>, rule: string, st: seq<Pos>) {
    forall n, j :: n in seen && 0 <= j < |Deps(g, n)| ==> Handled(g, seen, rule, Deps(g, n)[j]) || Covered(st, n, j)
  }

  lemma {:induction false} CompleteNext(g: Rules, seen: set<string>, rule: string, st: seq<Pos>, cur: Pos)
    requires Complete(g, seen, rule, st + [cur]) && cur.index < |Deps(g, cur.node)|
    ensures var c := Deps(g, cur.node)[cur.index];
            var next := cur.(index := cur.index + 1);
            && (Handled(g, seen, rule, c) ==> Complete(g, seen, rule, st + [next]))
            && (c != rule ==> Complete(g, seen + {c}, rule, st + [next] + [Pos(c, 0)]))
  {
    var c, next := Deps(g, cur.node)[cur.index], cur.(index := cur.index + 1);
    var a, b, d := st + [cur], st + [next], st + [next] + [Pos(c, 0)];
    forall n, j | n in seen && 0 <= j < |Deps(g, n)|
      ensures Handled(g, seen, rule, Deps(g, n)[j]) || (Covered(b, n, j) && Covered(d, n, j)) || Deps(g, n)[j] == c
    {
      if !Handled(g, seen, rule, Deps(g, n)[j]) {
        var k :| 0 <= k < |a| && a[k].node == n && a[k].index <= j;
        if k < |st| {
          assert b[k] == a[k] && d[k] == a[k];
        } else if j > cur.index {
          assert b[k] == next && d[k] == next;
        }
      }
    }
    forall j | 0 <= j < |Deps(g, c)| ensures Covered(d, c, j) {
      assert d[|st| + 1] == Pos(c, 0);
    }
  }

  lemma {:induction false} CompleteUp(g: Rules, seen: set<string>, rule: string, st: seq<Pos>, cur: Pos)
    requires Complete(g, seen, rule, st + [cur]) && cur.index >= |Deps(g, cur.node)|
    ensures Complete(g, seen, rule, st)
  {
    var a := st + [cur];
    forall n, j | n in seen && 0 <= j < |Deps(g, n)| && !Handled(g, seen, rule, Deps(g, n)[j])
      ensures Covered(st, n, j) {
      assert Covered(a, n, j);
      var k :| 0 <= k < |a| && a[k].node == n && a[k].index <= j;
      assert st[k] == a[k];
    }
  }

  /** When nothing is left to come, the search has seen everything there is. */
  lemma {:induction false} NothingMissed(g: Rules, seen: set<string>, rule: string, p: seq<string>)
    requires Complete(g, seen, rule, []) && |p| > 0 && Handled(g, seen, rule, p[0]) && Walk(g, p)
    ensures p[|p| - 1] != rule
  {
    if |p| > 1 {
      assert Edge(g, p[0], p[0 + 1]);
      var j :| 0 <= j < |Deps(g, p[0])| && Deps(g, p[0])[j] == p[1];
      assert !Covered([], p[0], j);
      forall i | 0 <= i < |p[1..]| - 1 ensures Edge(g, p[1..][i], p[1..][i + 1]) {
        assert Edge(g, p[i + 1], p[i + 1 + 1]);
      }
      NothingMissed(g, seen, rule, p[1..]);
    }
  }

  // ----- The search ends, even when the history is full --------------------------------------

  function Pow(b: nat, e: nat): nat {
    if e == 0 then 1 else b * Pow(b, e - 1)
  }

  /** What is left to do, each level weighing more than all below it can. */
  ghost function Weight(g: Rules, b: nat, st: seq<Pos>): nat
    requires |st| <= DEPTH + 1 && Within(g, st)
  {
    if st == [] then 0
    else
      var last := st[|st| - 1];
      WithinInit(g, st);
      Weight(g, b, st[..|st| - 1]) + Load(|Deps(g, last.node)| - last.index, Pow(b, DEPTH + 1 - |st|))
  }

  function Load(rem: nat, p: nat): nat {
    rem * p
  }

  lemma {:induction false} PowPositive(b: nat, e: nat)
    requires b > 0
    ensures Pow(b, e) > 0
  {
    if e > 0 {
      PowPositive(b, e - 1);
    }
  }

  lemma {:induction false} Heavier(rem: nat, sub: nat, b: nat, p: nat)
    requires sub < b && p > 0
    ensures rem * (b * p) + sub * p < (rem + 1) * (b * p)
  {
    assert (rem + 1) * (b * p) == rem * (b * p) + b * p;
    assert sub * p < b * p;
  }

  lemma {:induction false} LoadDrops(rem: nat, p: nat)
    requires p > 0
    ensures Load(rem, p) < Load(rem + 1, p)
  {
    assert (rem + 1) * p == rem * p + p;
  }

  lemma {:induction false} LoadBelow(rem: nat, sub: nat, b: nat, e: nat)
    requires sub < b
    ensures Load(rem, Pow(b, e + 1)) + Load(sub, Pow(b, e)) < Load(rem + 1, Pow(b, e + 1))
  {
    PowPositive(b, e);
    PowStep(b, e);
    hide Pow;
    Heavier(rem, sub, b, Pow(b, e));
  }

  lemma {:induction false} PowStep(b: nat, e: nat)
    ensures Pow(b, e + 1) == b * Pow(b, e)
  {
  }

  lemma {:induction false} WeightSnoc(g: Rules, b: nat, st: seq<Pos>, cur: Pos)
    requires |st| <= DEPTH && Within(g, st) && cur.index <= |Deps(g, cur.node)|
    ensures Within(g, st + [cur])
    ensures Weight(g, b, st + [cur]) == Weight(g, b, st) + Load(|Deps(g, cur.node)| - cur.index, Pow(b, DEPTH - |st|))
  {
    hide Within, Load, Pow;
    WithinSnoc(g, st, cur);
    assert (st + [cur])[..|st|] == st;
  }

  /** A dependant done with. */
  lemma {:induction false} WeightDrops(g: Rules, b: nat, st: seq<Pos>, cur: Pos, next: Pos)
    requires |st| <= DEPTH && b > 0 && Within(g, st) && cur.index < |Deps(g, cur.node)|
    requires next == cur.(index := cur.index + 1)
    ensures Within(g, st + [cur]) && Within(g, st + [next]) && Weight(g, b, st + [next]) < Weight(g, b, st + [cur])
  {
    hide *;
    WeightSnoc(g, b, st, cur);
    WeightSnoc(g, b, st, next);
    PowPositive(b, DEPTH - |st|);
    LoadDrops(|Deps(g, cur.node)| - next.index, Pow(b, DEPTH - |st|));
  }

  /** A dependant gone into. */
  lemma {:induction false} WeightDropsBelow(g: Rules, b: nat, st: seq<Pos>, cur: Pos, next: Pos, c: string)
    requires |st| < DEPTH && b > 0 && Within(g, st) && cur.index < |Deps(g, cur.node)|
    requires next == cur.(index := cur.index + 1)
    requires |Deps(g, c)| < b
    ensures Within(g, st + [cur]) && Within(g, st + [next] + [Pos(c, 0)])
    ensures Weight(g, b, st + [next] + [Pos(c, 0)]) < Weight(g, b, st + [cur])
  {
    hide *;
    var e := DEPTH - |st| - 1;
    WeightSnoc(g, b, st, cur);
    WeightSnoc(g, b, st, next);
    WeightSnoc(g, b, st + [next], Pos(c, 0));
    assert DEPTH - |st + [next]| == e && DEPTH - |st| == e + 1;
    LoadBelow(|Deps(g, cur.node)| - next.index, |Deps(g, c)|, b, e);
  }

  lemma {:induction false} Bounded(g: Rules) returns (b: nat)
    ensures b > 0 && forall n :: |Deps(g, n)| < b
    decreases |g|
  {
    if |g| == 0 {
      b := 1;
    } else {
      var n :| n in g;
      var rest := g - {n};
      assert n !in rest && |rest.Keys| < |g.Keys| by {
        assert rest.Keys == g.Keys - {n};
      }
      var b' := Bounded(rest);
      b := b' + |g[n].deps| + 1;
      forall x ensures |Deps(g, x)| < b {
        if x != n {
          assert Deps(g, x) == Deps(rest, x);
        }
      }
    }
  }

  // ----- Steps of the search ------------------------------------------------------------------

  ghost function ChainWeight(g: Rules, b: nat, dep: string, st: seq<Pos>): nat {
    if Chain(g, dep, st) && |st| <= DEPTH + 1 then Weight(g, b, st) else 0
  }

  lemma {:induction false} ReachesItself(g: Rules, n: string)
    ensures Reaches(g, n, n) && ReachesWithin(g, n, n, DEPTH + 2)
  {
    assert Walk(g, [n]);
  }

  lemma {:induction false} NoWayOn(g: Rules, p: seq<string>)
    requires |p| > 0 && Deps(g, p[0]) == [] && Walk(g, p)
    ensures |p| == 1
  {
    assert |p| > 1 ==> Edge(g, p[0], p[0 + 1]);
  }

  lemma {:induction false} NoDependants(g: Rules, dep: string, rule: string)
    requires Deps(g, dep) == [] && dep != rule
    ensures !Reaches(g, dep, rule)
  {
    forall p | |p| > 0 && p[0] == dep && Walk(g, p) ensures p[|p| - 1] != rule {
      NoWayOn(g, p);
    }
  }

  lemma {:induction false} DepsOf(g: Rules, n: string)
    ensures Deps(g, n) != [] <==> n in g && g[n].deps != []
    ensures n in g ==> Deps(g, n) == g[n].deps
  {
  }

  lemma {:induction false} Starting(g: Rules, dep: string, rule: string, st: seq<Pos>, h: seq<string>)
    requires dep != rule && st == [Pos(dep, 0)] && h == [dep]
    ensures Chain(g, dep, st) && Complete(g, {dep}, rule, st) && IsHistory(h, {dep})
  {
    assert st[0].node == dep;
  }

  lemma {:induction false} ChainTop(g: Rules, dep: string, st: seq<Pos>, cur: Pos)
    requires Chain(g, dep, st + [cur])
    ensures cur.index <= |Deps(g, cur.node)|
  {
    assert (st + [cur])[|st|] == cur;
  }

  lemma {:induction false} CycleFound(g: Rules, dep: string, st: seq<Pos>, cur: Pos, rule: string)
    requires Chain(g, dep, st + [cur]) && cur.index < |Deps(g, cur.node)| && Deps(g, cur.node)[cur.index] == rule
    requires |st| <= DEPTH
    ensures ReachesWithin(g, dep, rule, DEPTH + 2)
  {
    hide Walk;
    assert (st + [cur])[|st|] == cur;
    ChainReaches(g, dep, st + [cur], rule);
  }

  /** Dependants that are dealt with, and those that have to be looked at. */
  lemma {:induction false} IsHandled(g: Rules, seen: set<string>, rule: string, c: string)
    ensures c != rule && (c in seen || Deps(g, c) == []) ==> Handled(g, seen, rule, c)
  {
  }

  lemma {:induction false} LongWay(g: Rules, dep: string, st: seq<Pos>)
    requires Chain(g, dep, st) && |st| == DEPTH + 2
    ensures exists p :: |p| == DEPTH + 2 && p[0] == dep && Walk(g, p)
  {
    ChainWalks(g, dep, st);
    assert NodesOf(st)[0] == dep;
  }

  lemma {:induction false} WeightStep(g: Rules, b: nat, dep: string, st: seq<Pos>, cur: Pos)
    requires Chain(g, dep, st + [cur]) && |st| <= DEPTH && b > 0 && (forall n :: |Deps(g, n)| < b)
    requires cur.index < |Deps(g, cur.node)|
    ensures var next := cur.(index := cur.index + 1);
            && ChainWeight(g, b, dep, st + [next]) < ChainWeight(g, b, dep, st + [cur])
            && (|st| < DEPTH ==>
                ChainWeight(g, b, dep, st + [next] + [Pos(Deps(g, cur.node)[cur.index], 0)]) <
                ChainWeight(g, b, dep, st + [cur]))
  {
    hide Chain, Weight, Deps, Within, Pow;
    var next, c := cur.(index := cur.index + 1), Deps(g, cur.node)[cur.index];
    ChainTop(g, dep, st, cur);
    ChainDown(g, dep, st, cur);
    ChainWithin(g, dep, st + [cur]);
    WithinInit(g, st + [cur]);
    assert (st + [cur])[..|st|] == st;
    WeightDrops(g, b, st, cur, next);
    if |st| < DEPTH {
      WeightDropsBelow(g, b, st, cur, next, c);
    }
  }

  lemma {:induction false} WeightUp(g: Rules, b: nat, dep: string, st: seq<Pos>, cur: Pos)
    requires Chain(g, dep, st + [cur]) && |st| <= DEPTH && cur.index >= |Deps(g, cur.node)|
    ensures ChainWeight(g, b, dep, st) == ChainWeight(g, b, dep, st + [cur])
  {
    hide Chain, Weight, Deps, Within, Pow;
    ChainTop(g, dep, st, cur);
    ChainUp(g, dep, st, cur);
    ChainWithin(g, dep, st);
    WeightSnoc(g, b, st, cur);
  }

  lemma {:induction false} ChainWithin(g: Rules, dep: string, st: seq<Pos>)
    requires Chain(g, dep, st)
    ensures Within(g, st)
  {
  }

  lemma {:induction false} NothingLeft(g: Rules, seen: set<string>, dep: string, rule: string)
    requires Complete(g, seen, rule, []) && dep in seen && dep != rule
    ensures !Reaches(g, dep, rule)
  {
    forall p | |p| > 0 && p[0] == dep && Walk(g, p) ensures p[|p| - 1] != rule {
      NothingMissed(g, seen, rule, p);
    }
  }

  // ----- The dependency tree ----------------------------------------------------------------

  class DepTree {
    /** pdepTree, by rule name. */
    var rules: Rules

    constructor ()
      ensures rules == map[]
    {
      rules := map[];
    }

    /** depCheckCyclic; fTooDeep tells that it gave up with its error message. */
    method CheckCyclic(pszRule: string, pszDep: string) returns (fCyclic: bool, fTooDeep: bool)
      ensures fCyclic ==> ReachesWithin(rules, pszDep, pszRule, DEPTH + 2) && !fTooDeep
      ensures !fCyclic && !fTooDeep ==> !Reaches(rules, pszDep, pszRule)
      ensures fTooDeep ==> exists p :: |p| == DEPTH + 2 && p[0] == pszDep && Walk(rules, p)
    {
      hide *;
      Sizes();
      CmpEqual(pszRule, pszDep);
      if StrCmp(pszRule, pszDep) == 0 {
        ReachesItself(rules, pszRule);
        return true, false;
      }
      DepsOf(rules, pszDep);
      if pszDep !in rules || rules[pszDep].deps == [] {
        NoDependants(rules, pszDep, pszRule);
        return false, false;
      }
      var appsz := new Pos[DEPTH](_ => Pos("", 0));
      var i: nat := 1;
      appsz[0] := Pos(pszDep, 0);
      var apszHistory := new string[HISTORY](_ => "");
      var iHistory: nat := 1;
      apszHistory[0] := pszDep;
      ghost var seen := {pszDep};
      ghost var b := Bounded(rules);
      Starting(rules, pszDep, pszRule, appsz[..1], apszHistory[..1]);
      while i > 0
        invariant i <= DEPTH && iHistory <= HISTORY && pszDep in seen
        invariant Chain(rules, pszDep, appsz[..i]) && Complete(rules, seen, pszRule, appsz[..i])
        invariant IsHistory(apszHistory[..iHistory], seen)
        decreases ChainWeight(rules, b, pszDep, appsz[..i]), i
      {
        ghost var w0, i0 := ChainWeight(rules, b, pszDep, appsz[..i]), i;
        i := i - 1;
        var ppsz := appsz[i];
        assert appsz[..i + 1] == appsz[..i] + [ppsz];
        ChainTop(rules, pszDep, appsz[..i], ppsz);
        while ppsz.index < |Deps(rules, ppsz.node)|
          invariant 0 <= i <= DEPTH && iHistory <= HISTORY && pszDep in seen
          invariant Chain(rules, pszDep, appsz[..i] + [ppsz]) && Complete(rules, seen, pszRule, appsz[..i] + [ppsz])
          invariant IsHistory(apszHistory[..iHistory], seen)
          invariant var w := ChainWeight(rules, b, pszDep, appsz[..i] + [ppsz]); w < w0 || (w == w0 && i < i0)
          decreases ChainWeight(rules, b, pszDep, appsz[..i] + [ppsz])
        {
          var c := Deps(rules, ppsz.node)[ppsz.index];
          CmpEqual(pszRule, c);
          if StrCmp(pszRule, c) == 0 {
            CycleFound(rules, pszDep, appsz[..i], ppsz, pszRule);
            return true, false;
          }
          ChainDown(rules, pszDep, appsz[..i], ppsz);
          CompleteNext(rules, seen, pszRule, appsz[..i], ppsz);
          WeightStep(rules, b, pszDep, appsz[..i], ppsz);
          IsHandled(rules, seen, pszRule, c);
          DepsOf(rules, c);
          ppsz := ppsz.(index := ppsz.index + 1);
          if c in rules && rules[c].deps != [] {
            if i >= DEPTH {
              LongWay(rules, pszDep, appsz[..i] + [ppsz] + [Pos(c, 0)]);
              return false, true;
            }
            var fFound;
            fFound, iHistory := Remember(apszHistory, iHistory, c, seen);
            if fFound {
              continue;
            }
            seen := seen + {c};
            appsz[i] := ppsz;
            assert appsz[..i + 1] == appsz[..i] + [ppsz];
            i := i + 1;
            ppsz := Pos(c, 0);
          }
        }
        CompleteUp(rules, seen, pszRule, appsz[..i], ppsz);
        ChainUp(rules, pszDep, appsz[..i], ppsz);
        WeightUp(rules, b, pszDep, appsz[..i], ppsz);
      }
      assert appsz[..0] == [];
      NothingLeft(rules, seen, pszDep, pszRule);
      return false, false;
    }

    /** depAddRule; fValid is what depValidate says of the existing rule. No handle is given out for a
        rule that needs no more work. */
    method AddRule(pszRulePath: string, pszName: string, pszExt: string, pszTS: string, fConvertName: bool,
        fForceScan: bool, fValid: bool)
        returns (fHandle: bool, pszRule: string)
      requires fConvertName ==> EndsWell(RuleName(pszRulePath, pszName, pszExt))
      modifies this
      ensures var szRule := pszRulePath + pszName;
              && (pszExt == [] ==> pszRule == if fConvertName then Real(szRule) else szRule)
              && (pszExt != [] ==>
                  pszRule == if fConvertName then Real(szRule + "." + pszExt) else szRule + "." + pszExt)
      ensures pszRule in rules
      ensures rules == AddedRule(old(rules), pszRule, pszTS, fForceScan, fValid)
      ensures fHandle ==> rules[pszRule] == Rule([], true, pszTS)
      ensures !fHandle ==>
                && pszRule in old(rules) && rules[pszRule].fUpdated
                && rules[pszRule].deps == old(rules)[pszRule].deps && rules[pszRule].szTS == old(rules)[pszRule].szTS
      ensures rules.Keys == old(rules).Keys + {pszRule}
      ensures forall n :: n in old(rules) && n != pszRule ==> rules[n] == old(rules)[n]
      ensures fHandle <==> !(pszRule in old(rules)
                             && (old(rules)[pszRule].fUpdated ||
                                 (!fForceScan && old(rules)[pszRule].szTS == pszTS && fValid)))
      ensures NoWorse(old(rules), rules)
    {
      var szRule := pszRulePath + pszName;
      if pszExt != [] {
        szRule := szRule + "." + pszExt;
      }
      assert szRule == RuleName(pszRulePath, pszName, pszExt);
      pszRule := if fConvertName then Real(szRule) else szRule;
      if pszRule !in rules {
        rules := rules[pszRule := Rule([], true, pszTS)];
        return true, pszRule;
      }
      var pOld := rules[pszRule];
      if pOld.fUpdated {
        return false, pszRule;
      }
      rules := rules[pszRule := pOld.(fUpdated := true)];
      if !fForceScan && pOld.szTS == pszTS && fValid {
        return false, pszRule;
      }
      rules := rules[pszRule := Rule([], true, pszTS)];
      fHandle := true;
    }

    /** depAddDepend on the handle of a rule. */
    method AddDepend(pszRule: string, pszDep: string, fCheckCyclic: bool, fConvertName: bool)
        returns (fOk: bool, fTooDeep: bool)
      requires pszRule in rules && (fConvertName ==> EndsWell(pszDep))
      modifies this
      ensures pszRule in rules
      ensures fOk ==> rules == WithDep(old(rules), pszRule, if fConvertName then Real(pszDep) else pszDep)
      ensures !fOk ==> rules == old(rules)
      ensures !fTooDeep ==> (fOk <==> pszDep != [] && !(fCheckCyclic && Reaches(old(rules), pszDep, pszRule)))
      ensures !fOk && pszDep != [] ==> fCheckCyclic && ReachesWithin(old(rules), pszDep, pszRule, DEPTH + 2)
      ensures Acyclic(old(rules)) ==>
                (Acyclic(rules) <==> !fOk || !Reaches(old(rules), Named(pszDep, fConvertName), pszRule))
      ensures fTooDeep ==> fOk && fCheckCyclic
      ensures fTooDeep ==> exists p :: |p| == DEPTH + 2 && p[0] == pszDep && Walk(old(rules), p)
      ensures fCheckCyclic && !fConvertName && !fTooDeep ==> GraphStep(old(rules), rules)
    {
      hide Reaches, ReachesWithin, Acyclic, Walk;
      fTooDeep := false;
      if pszDep == [] {
        SameIsNoWorse(rules);
        return false, false;
      }
      if fCheckCyclic {
        var fCyclic;
        fCyclic, fTooDeep := CheckCyclic(pszRule, pszDep);
        if fCyclic {
          SameIsNoWorse(rules);
          WithinReaches(rules, pszDep, pszRule, DEPTH + 2);
          return false, false;
        }
      }
      if Acyclic(rules) {
        AddedKeepsAcyclic(rules, pszRule, Named(pszDep, fConvertName));
      }
      rules := rules[pszRule := rules[pszRule].(deps := rules[pszRule].deps + [Named(pszDep, fConvertName)])];
      fOk := true;
    }
  }

  function RuleName(pszRulePath: string, pszName: string, pszExt: string): string {
    pszRulePath + pszName + (if pszExt == [] then [] else "." + pszExt)
  }

  function Named(psz: string, fConvertName: bool): string {
    if fConvertName then Real(psz) else psz
  }

  function AddedRule(g: Rules, rule: string, ts: string, fForceScan: bool, fValid: bool): Rules {
    if rule !in g then g[rule := Rule([], true, ts)]
    else if g[rule].fUpdated then g
    else if !fForceScan && g[rule].szTS == ts && fValid then g[rule := g[rule].(fUpdated := true)]
    else g[rule := Rule([], true, ts)]
  }

  // ----- Every run ---------------------------------------------------------------------------

  /** No edge is new. */
  ghost predicate NoWorse(g: Rules, g': Rules) {
    forall a, b :: Edge(g', a, b) ==> Edge(g, a, b)
  }

  lemma {:induction false} SameIsNoWorse(g: Rules)
    ensures NoWorse(g, g)
  {
  }

  /** What one call of depAddRule or of a checked depAddDepend does to the graph. */
  ghost predicate GraphStep(g: Rules, g': Rules) {
    NoWorse(g, g') || exists rule, dep :: rule in g && g' == WithDep(g, rule, dep) && !Reaches(g, dep, rule)
  }

  lemma {:induction false} StepKeepsAcyclic(g: Rules, g': Rules)
    requires Acyclic(g) && GraphStep(g, g')
    ensures Acyclic(g')
  {
    if NoWorse(g, g') {
      FewerKeepsAcyclic(g, g');
    } else {
      var rule, dep :| rule in g && g' == WithDep(g, rule, dep) && !Reaches(g, dep, rule);
      AddedKeepsAcyclic(g, rule, dep);
    }
  }

  /** From the empty tree on, no run of checked additions ever closes a cycle. */
  lemma {:induction false} RunsStayAcyclic(gs: seq<Rules>)
    requires |gs| > 0 && gs[0] == map[] && forall i :: 0 <= i < |gs| - 1 ==> GraphStep(gs[i], gs[i + 1])
    ensures Acyclic(gs[|gs| - 1])
  {
    hide Acyclic, GraphStep;
    if |gs| == 1 {
      NothingIsAcyclic();
    } else {
      RunsStayAcyclic(gs[..|gs| - 1]);
      assert GraphStep(gs[|gs| - 2], gs[|gs| - 2 + 1]);
      StepKeepsAcyclic(gs[|gs| - 2], gs[|gs| - 1]);
    }
  }

  lemma {:induction false} NothingIsAcyclic()
    ensures Acyclic(map[])
  {
    forall p ensures !Closed(map[], p) {
      if |p| > 1 {
        assert !Edge(map[], p[0], p[0 + 1]);
      }
    }
  }

  /** The check is made on the name before it is converted, so with conversion a cycle can slip in. */
  lemma {:induction false} ConvertedNameSlipsIn()
    ensures var g: Rules := map["a" := Rule([], true, "")];
            Acyclic(g) && !Reaches(g, "^a", "a") && !Acyclic(WithDep(g, "a", Named("^a", true)))
  {
    var g: Rules := map["a" := Rule([], true, "")];
    forall p ensures !Closed(g, p) {
      if |p| > 1 {
        assert !Edge(g, p[0], p[0 + 1]);
      }
    }
    NoDependants(g, "^a", "a");
    assert Real("^a") == "a" by {
      assert "^a"[2..] == [] && IsEscape("^a");
    }
    ReachesItself(g, "a");
    AddedKeepsAcyclic(g, "a", "a");
  }

  // ----- Giving up -------------------------------------------------------------------------------

  function Link(k: nat): string {
    seq(k + 1, _ => 'x')
  }

  /** A chain of n + 1 rules: each one depends on the next. */
  ghost function ChainOf(n: nat): Rules {
    map r | r in (set k | 0 <= k <= n :: Link(k)) :: Rule(if |r| <= n then [Link(|r|)] else [], true, "")
  }

  lemma {:induction false} ChainEdge(n: nat, a: string, b: string)
    requires Edge(ChainOf(n), a, b)
    ensures |b| == |a| + 1 <= n + 1
  {
  }

  lemma {:induction false} ChainWalk(n: nat, p: seq<string>, i: nat)
    requires i < |p| && Walk(ChainOf(n), p)
    ensures |p[i]| == |p[0]| + i && (i > 0 ==> |p[i]| <= n + 1)
  {
    if i > 0 {
      assert Edge(ChainOf(n), p[i - 1], p[i - 1 + 1]);
      ChainWalk(n, p, i - 1);
      ChainEdge(n, p[i - 1], p[i]);
    }
  }

  /** A chain has no cycle, leads from its first rule to its last, and only through all of them; no way in it has
      more rules. */
  lemma {:induction false} ChainIs(n: nat)
    requires n > 0
    ensures var g := ChainOf(n);
            && Acyclic(g) && Link(n) in g && Reaches(g, Link(0), Link(n)) && !ReachesWithin(g, Link(0), Link(n), n)
            && forall p :: |p| > 0 && p[0] == Link(0) && Walk(g, p) ==> |p| <= n + 1
  {
    var g := ChainOf(n);
    forall p ensures !Closed(g, p) {
      if |p| > 1 && Walk(g, p) {
        ChainWalk(n, p, |p| - 1);
      }
    }
    forall p | |p| > 0 && p[0] == Link(0) && Walk(g, p)
      ensures |p| <= n + 1 && (p[|p| - 1] == Link(n) ==> |p| > n)
    {
      ChainWalk(n, p, |p| - 1);
    }
    var way := seq(n + 1, k requires 0 <= k <= n => Link(k));
    forall i | 0 <= i < |way| - 1 ensures Edge(g, way[i], way[i + 1]) {
      assert way[i] in g;
    }
    assert Walk(g, way) && way[0] == Link(0) && way[|way| - 1] == Link(n);
  }

  lemma {:induction false} DepthIs()
    ensures DEPTH == 32
  {
  }

  /** The search gives up on a chain of 35 rules, and the edge that closes it is added. */
  method TooDeepSlipsIn(tree: DepTree)
    requires tree.rules == ChainOf(34)
    modifies tree
    ensures Acyclic(old(tree.rules)) && !Acyclic(tree.rules)
  {
    ChainIs(34);
    DepthIs();
    hide *;
    NotEmpty();
    var fOk, fTooDeep := tree.AddDepend(Link(34), Link(0), true, false);
  }

  /** In a chain of 33 rules the cycle is found, and nothing changes. */
  method DeepEnough(tree: DepTree)
    requires tree.rules == ChainOf(32)
    modifies tree
    ensures tree.rules == old(tree.rules)
  {
    ChainIs(32);
    DepthIs();
    NotEmpty();
    hide *;
    var fOk, _ := tree.AddDepend(Link(32), Link(0), true, false);
  }

  lemma {:induction false} NotEmpty()
    ensures Link(0) != [] && Named(Link(0), false) == Link(0)
  {
  }
}
