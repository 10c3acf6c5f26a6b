/** Laws of the shell's commands that tell them apart: which command runs after which, and with what status. */
module ShellLaws {
  import opened Basics
  import opened ShellSpec

  /** A command that shows that it was run. */
  function Mark(k: int): Node {
    ReturnCmd(Some(k))
  }

  /** The mark was reached in e. */
  function Marked(k: int, e: Env, calls: nat): Result {
    Done(if calls > 0 then Return else File, WithStatus(e, k))
  }

  predicate Ends(r: Result) {
    r.Done? && r.out.Normal?
  }

  lemma {:induction false} MarkIs(k: int, e: Env, loops: nat, calls: nat, fuel: nat)
    requires fuel > 0
    ensures Eval(Mark(k), e, loops, calls, fuel) == Marked(k, e, calls)
    ensures Eval(Null, e, loops, calls, fuel) == Done(Normal, WithStatus(e, 0))
    ensures Eval(ReturnCmd(None), e, loops, calls, fuel) == Marked(e.exitstatus, e, calls)
  {
    OwnStatus(e);
  }

  // ----- Lists ------------------------------------------------------------------------------------

  /** What follows && is run exactly on status 0, what follows || exactly on another, what follows ; always. */
  lemma {:induction false} ListsShow(a: Node, k: int, e: Env, loops: nat, calls: nat, fuel: nat)
    requires fuel > 0 && Ends(Eval(a, e, loops, calls, fuel))
    ensures var r := Eval(a, e, loops, calls, fuel);
            var s := r.env.exitstatus;
            var m := Marked(k, r.env, calls);
            && (Eval(And(a, Mark(k)), e, loops, calls, fuel + 1) == m <==> s == 0)
            && (Eval(And(a, Mark(k)), e, loops, calls, fuel + 1) == r <==> s != 0)
            && (Eval(Or(a, Mark(k)), e, loops, calls, fuel + 1) == m <==> s != 0)
            && (Eval(Or(a, Mark(k)), e, loops, calls, fuel + 1) == r <==> s == 0)
            && Eval(Semi(a, Mark(k)), e, loops, calls, fuel + 1) == m
            && Eval(Semi(a, ReturnCmd(None)), e, loops, calls, fuel + 1) == Marked(s, r.env, calls)
  {
    var r := Eval(a, e, loops, calls, fuel);
    MarkIs(k, r.env, loops, calls, fuel);
  }

  /** Nothing is run behind what leaves something pending. */
  lemma {:induction false} ListsSkip(a: Node, b: Node, e: Env, loops: nat, calls: nat, fuel: nat)
    requires !Ends(Eval(a, e, loops, calls, fuel))
    ensures Eval(And(a, b), e, loops, calls, fuel + 1) == Eval(a, e, loops, calls, fuel)
    ensures Eval(Or(a, b), e, loops, calls, fuel + 1) == Eval(a, e, loops, calls, fuel)
    ensures Eval(Semi(a, b), e, loops, calls, fuel + 1) == Eval(a, e, loops, calls, fuel)
  {
  }

  /** `if a; then b; else c; fi` is `a && b || c` exactly where b does not end with another status than 0. */
  lemma {:induction false} IfIsAndOr(a: Node, b: Node, c: Node, e: Env, loops: nat, calls: nat, fuel: nat)
    requires var r := Eval(a, e, loops, calls, fuel + 1);
             Ends(r) && r.env.exitstatus == 0 ==>
               var q := Eval(b, r.env, loops, calls, fuel + 1); Ends(q) ==> q.env.exitstatus == 0
    requires !Eval(If(a, b, c), e, loops, calls, fuel + 2).Timeout?
    ensures Eval(Or(And(a, b), c), e, loops, calls, fuel + 3) == Eval(If(a, b, c), e, loops, calls, fuel + 2)
  {
    hide Eval;
    var r := Eval(a, e, loops, calls, fuel + 1);
    IfIs(a, b, c, e, loops, calls, fuel + 1);
    AndOrAre(a, b, e, loops, calls, fuel + 1);
    AndOrAre(And(a, b), c, e, loops, calls, fuel + 2);
    if Ends(r) && r.env.exitstatus != 0 {
      if c.Null? {
        MarkIs(0, r.env, loops, calls, fuel + 2);
      } else {
        MoreFuel(c, r.env, loops, calls, fuel + 1);
      }
    }
  }

  lemma {:induction false} IfIs(a: Node, b: Node, c: Node, e: Env, loops: nat, calls: nat, fuel: nat)
    ensures var r := Eval(a, e, loops, calls, fuel);
            Eval(If(a, b, c), e, loops, calls, fuel + 1) ==
            if !Ends(r) then r
            else if r.env.exitstatus == 0 then Eval(b, r.env, loops, calls, fuel)
            else if c.Null? then Done(Normal, WithStatus(r.env, 0))
            else Eval(c, r.env, loops, calls, fuel)
  {
  }

  lemma {:induction false} IfShows(a: Node, j: int, k: int, e: Env, loops: nat, calls: nat, fuel: nat)
    requires fuel > 0 && Ends(Eval(a, e, loops, calls, fuel)) && j != k
    ensures var r := Eval(a, e, loops, calls, fuel);
            var s := r.env.exitstatus;
            var f := Eval(If(a, Mark(j), Mark(k)), e, loops, calls, fuel + 1);
            && (f == Marked(j, r.env, calls) <==> s == 0) && (f == Marked(k, r.env, calls) <==> s != 0)
            && (s != 0 ==> Eval(If(a, Mark(j), Null), e, loops, calls, fuel + 1) == Done(Normal, WithStatus(r.env, 0)))
  {
    var r := Eval(a, e, loops, calls, fuel);
    MarkIs(j, r.env, loops, calls, fuel);
    MarkIs(k, r.env, loops, calls, fuel);
  }

  /** The command does the same whatever the status before it. */
  ghost predicate Oblivious(b: Node, e: Env, loops: nat, calls: nat, fuel: nat) {
    forall x, y :: Eval(b, WithStatus(e, x), loops, calls, fuel) == Eval(b, WithStatus(e, y), loops, calls, fuel)
  }

  lemma {:induction false} NotIs(a: Node, e: Env, loops: nat, calls: nat, fuel: nat)
    ensures var r := Eval(a, e, loops, calls, fuel);
            Eval(Not(a), e, loops, calls, fuel + 1) ==
            if r.Done? then r.(env := WithStatus(r.env, if r.env.exitstatus == 0 then 1 else 0)) else r
  {
  }

  lemma {:induction false} AndOrAre(a: Node, b: Node, e: Env, loops: nat, calls: nat, fuel: nat)
    ensures var r := Eval(a, e, loops, calls, fuel);
            && (Eval(And(a, b), e, loops, calls, fuel + 1) ==
                if Ends(r) && r.env.exitstatus == 0 then Eval(b, r.env, loops, calls, fuel) else r)
            && (Eval(Or(a, b), e, loops, calls, fuel + 1) ==
                if Ends(r) && r.env.exitstatus != 0 then Eval(b, r.env, loops, calls, fuel) else r)
  {
  }

  /** De Morgan: !(a && b) is !a || !b, and !(a || b) is !a && !b, where b does not look at the status of a. */
  lemma {:induction false} DeMorgan(a: Node, b: Node, e: Env, loops: nat, calls: nat, fuel: nat)
    requires var r := Eval(a, e, loops, calls, fuel); Ends(r) ==> Oblivious(b, r.env, loops, calls, fuel)
    ensures Eval(Not(And(a, b)), e, loops, calls, fuel + 2) == Eval(Or(Not(a), Not(b)), e, loops, calls, fuel + 2)
    ensures Eval(Not(Or(a, b)), e, loops, calls, fuel + 2) == Eval(And(Not(a), Not(b)), e, loops, calls, fuel + 2)
  {
    hide Eval;
    var r := Eval(a, e, loops, calls, fuel);
    NotIs(a, e, loops, calls, fuel);
    AndOrAre(a, b, e, loops, calls, fuel);
    AndOrAre(Not(a), Not(b), e, loops, calls, fuel + 1);
    NotIs(And(a, b), e, loops, calls, fuel + 1);
    NotIs(Or(a, b), e, loops, calls, fuel + 1);
    if Ends(r) {
      var flipped := WithStatus(r.env, if r.env.exitstatus == 0 then 1 else 0);
      NotIs(b, flipped, loops, calls, fuel);
      assert WithStatus(r.env, r.env.exitstatus) == r.env;
      assert Eval(b, flipped, loops, calls, fuel) == Eval(b, r.env, loops, calls, fuel);
    }
  }

  /** A status is turned into its opposite, also that of a return. */
  lemma {:induction false} NotShows(a: Node, k: int, e: Env, loops: nat, calls: nat, fuel: nat)
    requires fuel > 0 && Ends(Eval(a, e, loops, calls, fuel))
    ensures var r := Eval(a, e, loops, calls, fuel);
            var (zero, one) := (WithStatus(r.env, 0), WithStatus(r.env, 1));
            && (Eval(And(Not(a), Mark(k)), e, loops, calls, fuel + 2) == Marked(k, zero, calls) <==>
                r.env.exitstatus != 0)
            && (Eval(Or(Not(a), Mark(k)), e, loops, calls, fuel + 2) == Marked(k, one, calls) <==>
                r.env.exitstatus == 0)
    ensures Eval(Not(Mark(k)), e, loops, calls, fuel + 1) == Marked(if k == 0 then 1 else 0, e, calls)
  {
    hide Eval;
    var r := Eval(a, e, loops, calls, fuel);
    NotIs(a, e, loops, calls, fuel);
    NotIs(Mark(k), e, loops, calls, fuel);
    AndOrAre(Not(a), Mark(k), e, loops, calls, fuel + 1);
    var flipped := WithStatus(r.env, if r.env.exitstatus == 0 then 1 else 0);
    MarkIs(k, flipped, loops, calls, fuel + 1);
    MarkIs(k, e, loops, calls, fuel);
  }

  // ----- Loops ------------------------------------------------------------------------------------

  /** while runs its body exactly on status 0 of the condition, until exactly on another; without it the status
      is 0. A break in the condition or the body ends the loop. */
  lemma {:induction false} LoopsShow(a: Node, k: int, e: Env, loops: nat, calls: nat, fuel: nat)
    requires fuel > 0 && Ends(Eval(a, e, loops + 1, calls, fuel))
    ensures var r := Eval(a, e, loops + 1, calls, fuel);
            var s := r.env.exitstatus;
            var (marked, ended) := (Marked(k, r.env, calls), Done(Normal, WithStatus(r.env, 0)));
            && (Eval(Loop(true, a, Mark(k)), e, loops, calls, fuel + 2) == if s == 0 then marked else ended)
            && (Eval(Loop(false, a, Mark(k)), e, loops, calls, fuel + 2) == if s == 0 then ended else marked)
            && (s == 0 ==> Eval(Loop(true, a, BreakCmd(false, 1)), e, loops, calls, fuel + 2) == ended)
            && (s != 0 ==> Eval(Loop(false, a, BreakCmd(false, 1)), e, loops, calls, fuel + 2) == ended)
  {
    hide Eval, EvalLoop, AfterTest, AfterBody, Again;
    var r := Eval(a, e, loops + 1, calls, fuel);
    LoopOnce(true, a, Mark(k), e, loops, calls, fuel);
    LoopOnce(false, a, Mark(k), e, loops, calls, fuel);
    LoopOnce(true, a, BreakCmd(false, 1), e, loops, calls, fuel);
    LoopOnce(false, a, BreakCmd(false, 1), e, loops, calls, fuel);
    MarkIs(k, r.env, loops + 1, calls, fuel);
    BreakIs(false, 1, r.env, loops + 1, calls, fuel);
  }

  lemma {:induction false} BreakIs(isContinue: bool, n: nat, e: Env, loops: nat, calls: nat, fuel: nat)
    requires fuel > 0
    ensures var k := if n > loops then loops else n;
            Eval(BreakCmd(isContinue, n), e, loops, calls, fuel) ==
            Done(if k == 0 then Normal else if isContinue then Continue(k) else Break(k), WithStatus(e, 0))
  {
  }

  lemma {:induction false} LoopStarts(isWhile: bool, a: Node, b: Node, e: Env, loops: nat, calls: nat, fuel: nat)
    ensures Eval(Loop(isWhile, a, b), e, loops, calls, fuel + 1) ==
              EvalLoop(isWhile, a, b, e, 0, loops + 1, calls, fuel)
  {
    hide EvalLoop;
  }

  /** A loop whose body is left in the first round, or not run. */
  lemma {:induction false} LoopOnce(isWhile: bool, a: Node, b: Node, e: Env, loops: nat, calls: nat, fuel: nat)
    requires var t := Eval(a, e, loops + 1, calls, fuel); t.Done? && t.out.Normal?
    ensures var t := Eval(a, e, loops + 1, calls, fuel);
            var r := Eval(b, t.env, loops + 1, calls, fuel);
            r.Done? && !r.out.Normal? && r.out != Continue(1) ==>
              Eval(Loop(isWhile, a, b), e, loops, calls, fuel + 2) ==
              if isWhile == (t.env.exitstatus == 0) then Done(Leaving(r.out), r.env)
              else Done(Normal, WithStatus(t.env, 0))
  {
    hide *;
    var t := Eval(a, e, loops + 1, calls, fuel);
    var r := Eval(b, t.env, loops + 1, calls, fuel);
    LoopStarts(isWhile, a, b, e, loops, calls, fuel + 1);
    LoopIs(isWhile, a, b, e, 0, loops + 1, calls, fuel + 1);
    TestIs(isWhile, a, b, t, 0, loops + 1, calls, fuel);
    BodyIs(isWhile, a, b, r, loops + 1, calls, fuel);
    if r.Done? {
      AgainIs(isWhile, a, b, r.out, r.env, r.env.exitstatus, loops + 1, calls, fuel);
      OwnStatus(r.env);
    }
  }

  lemma {:induction false} OwnStatus(e: Env)
    ensures WithStatus(e, e.exitstatus) == e
  {
  }

  /** A loop that continues does what one without a body does. */
  lemma {:induction false} ContinueIsNothing(isWhile: bool, a: Node, e: Env, loops: nat, calls: nat, fuel: nat)
    ensures Eval(Loop(isWhile, a, BreakCmd(true, 1)), e, loops, calls, fuel) ==
            Eval(Loop(isWhile, a, Null), e, loops, calls, fuel)
  {
    hide Eval, EvalLoop;
    if fuel == 0 {
      NoFuel(Loop(isWhile, a, BreakCmd(true, 1)), e, loops, calls);
      NoFuel(Loop(isWhile, a, Null), e, loops, calls);
    } else {
      LoopStarts(isWhile, a, BreakCmd(true, 1), e, loops, calls, fuel - 1);
      LoopStarts(isWhile, a, Null, e, loops, calls, fuel - 1);
      ContinueRounds(isWhile, a, e, 0, loops, calls, fuel - 1);
    }
  }

  lemma {:induction false} NoFuel(n: Node, e: Env, loops: nat, calls: nat)
    ensures Eval(n, e, loops, calls, 0) == Timeout
  {
  }

  lemma {:induction false} ContinueRounds(isWhile: bool, a: Node, e: Env, status: int, loops: nat, calls: nat,
      fuel: nat)
    ensures EvalLoop(isWhile, a, BreakCmd(true, 1), e, status, loops + 1, calls, fuel) ==
            EvalLoop(isWhile, a, Null, e, status, loops + 1, calls, fuel)
    decreases fuel, 0
  {
    hide *;
    var (b, c) := (BreakCmd(true, 1), Null);
    LoopIs(isWhile, a, b, e, status, loops + 1, calls, fuel);
    LoopIs(isWhile, a, c, e, status, loops + 1, calls, fuel);
    if fuel > 0 {
      var f := fuel - 1;
      var t := Eval(a, e, loops + 1, calls, f);
      TestIs(isWhile, a, b, t, status, loops + 1, calls, f);
      TestIs(isWhile, a, c, t, status, loops + 1, calls, f);
      if t.Done? && !t.out.Normal? {
        AgainIs(isWhile, a, b, t.out, t.env, status, loops + 1, calls, f);
        AgainIs(isWhile, a, c, t.out, t.env, status, loops + 1, calls, f);
        ContinueRounds(isWhile, a, t.env, status, loops, calls, f);
      } else if t.Done? {
        ContinueBody(isWhile, a, t.env, loops, calls, f);
      }
    }
  }

  lemma {:induction false} ContinueBody(isWhile: bool, a: Node, e: Env, loops: nat, calls: nat, fuel: nat)
    ensures AfterBody(isWhile, a, BreakCmd(true, 1), Eval(BreakCmd(true, 1), e, loops + 1, calls, fuel), loops + 1,
              calls,
              fuel) ==
            AfterBody(isWhile, a, Null, Eval(Null, e, loops + 1, calls, fuel), loops + 1, calls, fuel)
    decreases fuel, 1
  {
    hide *;
    var (b, c) := (BreakCmd(true, 1), Null);
    BodyIs(isWhile, a, b, Eval(b, e, loops + 1, calls, fuel), loops + 1, calls, fuel);
    BodyIs(isWhile, a, c, Eval(c, e, loops + 1, calls, fuel), loops + 1, calls, fuel);
    if fuel == 0 {
      NoFuel(b, e, loops + 1, calls);
      NoFuel(c, e, loops + 1, calls);
    } else {
      BreakIs(true, 1, e, loops + 1, calls, fuel);
      MarkIs(0, e, loops + 1, calls, fuel);
      var e' := WithStatus(e, 0);
      AgainIs(isWhile, a, b, Continue(1), e', e'.exitstatus, loops + 1, calls, fuel);
      AgainIs(isWhile, a, c, Normal, e', e'.exitstatus, loops + 1, calls, fuel);
      ContinueRounds(isWhile, a, e', e'.exitstatus, loops, calls, fuel);
    }
  }

  /** What the variable collects. */
  function Collected(vars: Vars): string {
    if "acc" in vars then vars["acc"] else ""
  }

  function Collecting(name: string): Node {
    Simple((vars: Vars, status: int) =>
      (0, vars["acc" := Collected(vars) + (if name in vars then vars[name] else "")]))
  }

  lemma {:induction false} CollectingIs(name: string, word: string, e: Env, loops: nat, calls: nat, fuel: nat)
    requires fuel > 0 && name != "acc"
    ensures var e' := e.(vars := e.vars[name := word]);
            var r := Eval(Collecting(name), e', loops, calls, fuel);
            && Ends(r) && r.env.exitstatus == 0 && r.env.functions == e.functions
            && Collected(r.env.vars) == Collected(e.vars) + word
  {
  }

  /** A for loop takes its words one by one, in order. */
  lemma {:induction false} ForCollects(name: string, words: seq<string>, e: Env, loops: nat, calls: nat, fuel: nat)
    requires fuel > |words| + 1 && name != "acc"
    ensures var r := Eval(For(name, _ => words, Collecting(name)), e, loops, calls, fuel);
            Ends(r) && r.env.exitstatus == 0 && Collected(r.env.vars) == Collected(e.vars) + Concat(words)
  {
    hide EvalFor, Ends, Concat, Collected;
    RestCollects(name, words, e, 0, loops + 1, calls, fuel - 1);
  }

  lemma {:induction false} RestCollects(name: string, words: seq<string>, e: Env, status: int, loops: nat, calls: nat,
      fuel: nat)
    requires fuel > |words| && name != "acc" && status == 0
    ensures var r := EvalFor(name, words, Collecting(name), e, status, loops, calls, fuel);
            Ends(r) && r.env.exitstatus == 0 && Collected(r.env.vars) == Collected(e.vars) + Concat(words)
    decreases |words|
  {
    hide Eval, EvalFor, Collected, Collecting;
    ForIs(name, words, Collecting(name), e, status, loops, calls, fuel);
    if words != [] {
      CollectingIs(name, words[0], e, loops, calls, fuel - 1);
      var r := Eval(Collecting(name), e.(vars := e.vars[name := words[0]]), loops, calls, fuel - 1);
      RestCollects(name, words[1..], r.env, 0, loops, calls, fuel - 1);
    }
  }

  // ----- How many loops are left --------------------------------------------------------------------

  function Tick(vars: Vars): Vars {
    vars["acc" := Collected(vars) + "x"]
  }

  /** The command, counted. */
  function Counted(n: Node): Node {
    Semi(Simple((vars: Vars, status: int) => (0, Tick(vars))), n)
  }

  /** n loops of two words each around inner; behind the loop at level k stands the mark k + 1. */
  function Nest(n: nat, inner: Node): Node
    decreases n, 1
  {
    if n == 0 then inner else For("i", _ => ["a", "b"], Around(n, inner))
  }

  function Around(n: nat, inner: Node): Node
    requires n > 0
    decreases n, 0
  {
    Semi(Nest(n - 1, inner), Mark(n))
  }

  lemma {:induction false} CountedIs(isContinue: bool, k: nat, e: Env, loops: nat, calls: nat, fuel: nat)
    requires fuel > 1
    ensures var m := if k > loops then loops else k;
            Eval(Counted(BreakCmd(isContinue, k)), e, loops, calls, fuel) ==
            Done(if m == 0 then Normal else if isContinue then Continue(m) else Break(m),
                 Env(0, Tick(e.vars), e.functions))
  {
    BreakIs(isContinue, k, Env(0, Tick(e.vars), e.functions), loops, calls, fuel - 1);
  }

  /** What is left of a break or continue of k loops behind n loops of loops + n: a mark tells how many were left,
      and a continue has gone on with the last of them. */
  ghost predicate LeftLoops(isContinue: bool, n: nat, k: nat, e: Env, loops: nat, calls: nat, r: Result) {
    var m := if k > loops + n then loops + n else k;
    && r.Done?
    && (m < n ==> r.out == (if calls > 0 then Return else File) && r.env.exitstatus == m + 1)
    && (m == n ==> r.out.Normal? && r.env.exitstatus == 0)
    && (m > n ==> r.out == (if isContinue then Continue(m - n) else Break(m - n)) && r.env.exitstatus == 0)
    && Collected(r.env.vars) == Collected(e.vars) + (if isContinue && 1 <= m <= n then "xx" else "x")
  }

  /** break k leaves exactly k loops, continue k exactly k - 1 and goes on with the next, both no more than there
      are. */
  lemma {:induction false} LoopsAreLeft(isContinue: bool, n: nat, k: nat, e: Env, loops: nat, calls: nat, fuel: nat)
    requires fuel >= 4 * n + 2
    ensures LeftLoops(isContinue, n, k, e, loops, calls,
              Eval(Nest(n, Counted(BreakCmd(isContinue, k))), e, loops, calls, fuel))
    decreases n, 1
  {
    hide Eval, EvalFor, Nest, Around, Counted;
    var inner := Counted(BreakCmd(isContinue, k));
    if n == 0 {
      NestIs(0, inner, e, loops, calls, fuel);
      CountedIs(isContinue, k, e, loops, calls, fuel);
    } else {
      NestIs(n, inner, e, loops, calls, fuel);
      var body := Around(n, inner);
      var r1 := RoundIs(isContinue, n, k, "a", e, loops, calls, fuel - 2);
      ForIs("i", ["a", "b"], body, e, 0, loops + 1, calls, fuel - 1);
      if r1.out == Continue(1) {
        var r2 := RoundIs(isContinue, n, k, "b", r1.env, loops, calls, fuel - 3);
        ForIs("i", ["b"], body, r1.env, r1.env.exitstatus, loops + 1, calls, fuel - 2);
        ForIs("i", [], body, r2.env, r2.env.exitstatus, loops + 1, calls, fuel - 3);
        OwnStatus(r2.env);
        assert ["a", "b"][1..] == ["b"] && ["b"][1..] == [];
      }
    }
  }

  lemma {:induction false} NestIs(n: nat, inner: Node, e: Env, loops: nat, calls: nat, fuel: nat)
    requires fuel > 0
    ensures n == 0 ==> Nest(n, inner) == inner
    ensures n > 0 ==> Eval(Nest(n, inner), e, loops, calls, fuel) ==
                      EvalFor("i", ["a", "b"], Around(n, inner), e, 0, loops + 1, calls, fuel - 1)
  {
    hide EvalFor, Around;
  }

  /** One round of the outermost loop. */
  lemma {:induction false} RoundIs(isContinue: bool, n: nat, k: nat, word: string, e: Env, loops: nat, calls: nat,
      fuel: nat)
      returns (r: Result)
    requires n > 0 && fuel >= 4 * n - 1
    ensures r == Eval(Around(n, Counted(BreakCmd(isContinue, k))), e.(vars := e.vars["i" := word]), loops + 1, calls,
              fuel)
    ensures var m := if k > loops + n then loops + n else k;
            && r.Done?
            && (m < n ==> r.out == (if calls > 0 then Return else File) && r.env.exitstatus == m + 1)
            && (m >= n ==>
                r.out == (if isContinue then Continue(m - n + 1) else Break(m - n + 1)) && r.env.exitstatus == 0)
            && Collected(r.env.vars) == Collected(e.vars) + (if isContinue && 1 <= m < n then "xx" else "x")
    decreases n, 0
  {
    hide Eval, Nest, Counted;
    var inner := Counted(BreakCmd(isContinue, k));
    var e' := e.(vars := e.vars["i" := word]);
    r := Eval(Around(n, inner), e', loops + 1, calls, fuel);
    LoopsAreLeft(isContinue, n - 1, k, e', loops + 1, calls, fuel - 1);
    SemiIs(Nest(n - 1, inner), Mark(n), e', loops + 1, calls, fuel - 1);
    var q := Eval(Nest(n - 1, inner), e', loops + 1, calls, fuel - 1);
    if Ends(q) {
      MarkIs(n, q.env, loops + 1, calls, fuel - 1);
    }
  }

  lemma {:induction false} SemiIs(a: Node, b: Node, e: Env, loops: nat, calls: nat, fuel: nat)
    ensures var r := Eval(a, e, loops, calls, fuel);
            Eval(Semi(a, b), e, loops, calls, fuel + 1) == if Ends(r) then Eval(b, r.env, loops, calls, fuel) else r
  {
  }

  // ----- Cases, functions and files -----------------------------------------------------------------

  ghost predicate ArmMatches(arm: Arm, vars: Vars) {
    exists pattern :: pattern in arm.patterns && pattern(vars)
  }

  lemma {:induction false} ArmIs(arm: Arm, vars: Vars)
    ensures Matches(arm.patterns, vars) <==> ArmMatches(arm, vars)
  {
    if Matches(arm.patterns, vars) {
      var i :| 0 <= i < |arm.patterns| && arm.patterns[i](vars);
      assert arm.patterns[i] in arm.patterns;
    }
  }

  /** The first arm that matches is selected, and none exactly when no arm does. */
  lemma {:induction false} FirstArm(arms: seq<Arm>, vars: Vars)
    ensures match Select(arms, vars)
            case None => forall i :: 0 <= i < |arms| ==> !ArmMatches(arms[i], vars)
            case Some(body) =>
              exists i ::
                && 0 <= i < |arms| && ArmMatches(arms[i], vars) && body == arms[i].body
                && forall j :: 0 <= j < i ==> !ArmMatches(arms[j], vars)
  {
    hide Matches, ArmMatches;
    if arms != [] {
      ArmIs(arms[0], vars);
      FirstArm(arms[1..], vars);
      if ArmMatches(arms[0], vars) {
        assert Select(arms, vars) == Some(arms[0].body);
      } else if Select(arms[1..], vars).Some? {
        var body := Select(arms[1..], vars).value;
        var i :| && 0 <= i < |arms[1..]| && ArmMatches(arms[1..][i], vars) && body == arms[1..][i].body
                 && forall j :: 0 <= j < i ==> !ArmMatches(arms[1..][j], vars);
        assert arms[i + 1] == arms[1..][i];
        forall j | 0 <= j < i + 1 ensures !ArmMatches(arms[j], vars) {
          if j > 0 {
            assert arms[j] == arms[1..][j - 1];
          }
        }
      } else {
        forall j | 0 <= j < |arms| ensures !ArmMatches(arms[j], vars) {
          if j > 0 {
            assert arms[j] == arms[1..][j - 1];
          }
        }
      }
    }
  }

  /** The body of the first arm that matches is run, and nothing else. */
  lemma {:induction false} CaseShows(arms: seq<Arm>, i: nat, e: Env, loops: nat, calls: nat, fuel: nat)
    requires i < |arms| && ArmMatches(arms[i], e.vars) && forall j :: 0 <= j < i ==> !ArmMatches(arms[j], e.vars)
    ensures Eval(Case(arms), e, loops, calls, fuel + 1) == Eval(arms[i].body, e, loops, calls, fuel)
  {
    hide ArmMatches, Select;
    FirstArm(arms, e.vars);
  }

  /** A return ends the function, with its status, and what follows the call is run; a break goes on outside it. */
  lemma {:induction false} CallShows(name: string, j: int, k: int, e: Env, loops: nat, calls: nat, fuel: nat)
    requires fuel > 0 && name in e.functions && calls < MAX_CALLS
    ensures e.functions[name] == Mark(j) ==>
              && Eval(Call(name), e, loops, calls, fuel + 1) == Done(Normal, WithStatus(e, j))
              && Eval(Semi(Call(name), Mark(k)), e, loops, calls, fuel + 2) == Marked(k, e, calls)
    ensures forall isContinue, n: nat :: e.functions[name] == BreakCmd(isContinue, n) ==>
              Eval(Call(name), e, loops, calls, fuel + 1) == Eval(BreakCmd(isContinue, n), e, loops, calls, fuel)
  {
    hide Eval;
    CallIs(name, e, loops, calls, fuel);
    MarkIs(j, e, loops, calls + 1, fuel);
    SemiIs(Call(name), Mark(k), e, loops, calls, fuel + 1);
    MarkIs(k, WithStatus(e, j), loops, calls, fuel + 1);
    forall isContinue, n: nat | e.functions[name] == BreakCmd(isContinue, n)
      ensures Eval(Call(name), e, loops, calls, fuel + 1) == Eval(BreakCmd(isContinue, n), e, loops, calls, fuel)
    {
      BreakIs(isContinue, n, e, loops, calls, fuel);
      BreakIs(isContinue, n, e, loops, calls + 1, fuel);
    }
  }

  lemma {:induction false} CallIs(name: string, e: Env, loops: nat, calls: nat, fuel: nat)
    requires name in e.functions && calls < MAX_CALLS
    ensures var r := Eval(e.functions[name], e, loops, calls + 1, fuel);
            Eval(Call(name), e, loops, calls, fuel + 1) == if r.Done? && r.out.Return? then r.(out := Normal) else r
  {
  }

  /** What is not defined gives 127, a definition 0 and the function, and calls without end fail. */
  lemma {:induction false} FunctionsShow(name: string, j: int, e: Env, loops: nat, calls: nat, fuel: nat)
    requires fuel > 1 && calls < MAX_CALLS
    ensures name !in e.functions ==> Eval(Call(name), e, loops, calls, fuel) == Done(Normal, WithStatus(e, 127))
    ensures var e' := e.(functions := e.functions[name := Mark(j)]);
            && Eval(Defun(name, Mark(j)), e, loops, calls, fuel) == Done(Normal, WithStatus(e', 0))
            && Eval(Semi(Defun(name, Mark(j)), Call(name)), e, loops, calls, fuel + 1) ==
               Done(Normal, WithStatus(e', j))
  {
    var e' := e.(functions := e.functions[name := Mark(j)]);
    CallShows(name, j, j, WithStatus(e', 0), loops, calls, fuel - 1);
    SemiIs(Defun(name, Mark(j)), Call(name), e, loops, calls, fuel);
  }

  lemma {:induction false} EndlessCall(name: string, e: Env, loops: nat, calls: nat, fuel: nat)
    requires name in e.functions && e.functions[name] == Call(name) && calls <= MAX_CALLS
    requires fuel > MAX_CALLS - calls
    ensures Eval(Call(name), e, loops, calls, fuel) == Failed
    decreases MAX_CALLS - calls
  {
    if calls < MAX_CALLS {
      EndlessCall(name, e, loops, calls + 1, fuel - 1);
      CallIs(name, e, loops, calls, fuel - 1);
    }
  }

  /** A file is run up to the first return, whose status it leaves. */
  lemma {:induction false} FileStops(before: seq<Node>, after: seq<Node>, k: int, e: Env, fuel: nat)
    requires fuel > 0 && FileResult(before, e, fuel).Done?
    requires forall i :: 0 <= i < |before| ==> before[i].Simple?
    ensures FileResult(before + [Mark(k)] + after, e, fuel) ==
            Done(Normal, WithStatus(FileResult(before, e, fuel).env, k))
    decreases |before|
  {
    var file := before + [Mark(k)] + after;
    if before == [] {
      assert file[0] == Mark(k);
      MarkIs(k, e, 0, 0, fuel);
    } else {
      assert file[0] == before[0] && file[1..] == before[1..] + [Mark(k)] + after;
      var r := Eval(before[0], e, 0, 0, fuel);
      FileStops(before[1..], after, k, r.env, fuel);
    }
  }

  /** Outside of loops a break or continue leaves nothing: what follows it is run. */
  lemma {:induction false} BreakOutside(isContinue: bool, n: nat, k: int, e: Env, fuel: nat)
    requires fuel > 1
    ensures FileResult([Semi(BreakCmd(isContinue, n), Mark(k))], e, fuel) == Done(Normal, WithStatus(e, k))
  {
    var file := [Semi(BreakCmd(isContinue, n), Mark(k))];
    var e0 := WithStatus(e, 0);
    assert Eval(BreakCmd(isContinue, n), e, 0, 0, fuel - 1) == Done(Normal, e0);
    MarkIs(k, e0, 0, 0, fuel - 1);
    assert WithStatus(e0, k) == WithStatus(e, k);
    assert Eval(file[0], e, 0, 0, fuel) == Marked(k, e0, 0);
    SingleFile(file[0], e, fuel);
  }

  lemma {:induction false} SingleFile(command: Node, e: Env, fuel: nat)
    requires Eval(command, e, 0, 0, fuel).Done? && Eval(command, e, 0, 0, fuel).out.File?
    ensures FileResult([command], e, fuel) == Done(Normal, Eval(command, e, 0, 0, fuel).env)
  {
    hide Eval;
    assert [command][0] == command;
  }
}
