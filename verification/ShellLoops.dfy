/** Loops of the shell, round by round, and what becomes of a return inside them. */
module ShellLoops {
  import opened Basics
  import opened ShellSpec

  /** A loop between two rounds; status is that of the last body, or what it started with. */
  datatype At = At(env: Env, status: int)

  /** A round leads to the next one, or the loop is over. */
  datatype Round = Next(at: At) | Over(r: Result)

  /** How the round ends with the body, if the body ends with r. */
  function BodyEnds(r: Result): Round {
    if !r.Done? then Over(r)
    else if r.out.Normal? || r.out == Continue(1) then Next(At(r.env, r.env.exitstatus))
    else Over(Done(Leaving(r.out), r.env))
  }

  /** How the round ends with the condition, if that ends with t and does not hold. */
  function TestEnds(t: Result, status: int): Round {
    if !t.Done? then Over(t)
    else if t.out == Continue(1) then Next(At(t.env, status))
    else if !t.out.Normal? then Over(Done(Leaving(t.out), WithStatus(t.env, status)))
    else Over(Done(Normal, WithStatus(t.env, status)))
  }

  predicate Holds(isWhile: bool, t: Result) {
    t.Done? && t.out.Normal? && isWhile == (t.env.exitstatus == 0)
  }

  /** The condition and, if it holds, the body. */
  function OneRound(isWhile: bool, test: Node, body: Node, at: At, loops: nat, calls: nat, fuel: nat): Round {
    var t := Eval(test, at.env, loops, calls, fuel);
    if Holds(isWhile, t) then BodyEnds(Eval(body, t.env, loops, calls, fuel)) else TestEnds(t, at.status)
  }

  /** What becomes of the loop after a round. */
  function GoOn(isWhile: bool, test: Node, body: Node, round: Round, loops: nat, calls: nat, fuel: nat): Result {
    match round
    case Next(a) => EvalLoop(isWhile, test, body, a.env, a.status, loops, calls, fuel)
    case Over(r) => r
  }

  lemma {:induction false} AfterBodyIs(isWhile: bool, test: Node, body: Node, r: Result, loops: nat, calls: nat,
      fuel: nat)
    ensures AfterBody(isWhile, test, body, r, loops, calls, fuel) ==
              GoOn(isWhile, test, body, BodyEnds(r), loops, calls, fuel)
  {
    hide EvalLoop, AfterBody, Again, Leaving;
    BodyIs(isWhile, test, body, r, loops, calls, fuel);
    if r.Done? {
      AgainIs(isWhile, test, body, r.out, r.env, r.env.exitstatus, loops, calls, fuel);
    }
  }

  lemma {:induction false} AfterTestIs(isWhile: bool, test: Node, body: Node, t: Result, status: int, loops: nat,
      calls: nat, fuel: nat)
    ensures AfterTest(isWhile, test, body, t, status, loops, calls, fuel) ==
            if Holds(isWhile, t)
              then AfterBody(isWhile, test, body, Eval(body, t.env, loops, calls, fuel), loops, calls, fuel)
            else GoOn(isWhile, test, body, TestEnds(t, status), loops, calls, fuel)
  {
    hide *;
    TestIs(isWhile, test, body, t, status, loops, calls, fuel);
    HoldsIs(isWhile, t);
    if !Holds(isWhile, t) {
      EndsIs(isWhile, test, body, t, status, loops, calls, fuel);
      if t.Done? {
        AgainIs(isWhile, test, body, t.out, t.env, status, loops, calls, fuel);
      }
    }
  }

  lemma {:induction false} EndsIs(isWhile: bool, test: Node, body: Node, t: Result, status: int, loops: nat,
      calls: nat, fuel: nat)
    ensures GoOn(isWhile, test, body, TestEnds(t, status), loops, calls, fuel) ==
            if !t.Done? then t
            else if t.out == Continue(1) then EvalLoop(isWhile, test, body, t.env, status, loops, calls, fuel)
            else if !t.out.Normal? then Done(Leaving(t.out), WithStatus(t.env, status))
            else Done(Normal, WithStatus(t.env, status))
  {
    hide EvalLoop, Leaving, WithStatus;
  }

  /** A loop is its rounds one after the other. */
  lemma {:induction false} LoopIsRounds(isWhile: bool, test: Node, body: Node, at: At, loops: nat, calls: nat,
      fuel: nat)
    ensures EvalLoop(isWhile, test, body, at.env, at.status, loops, calls, fuel) ==
            if fuel == 0 then Timeout
            else GoOn(isWhile, test, body, OneRound(isWhile, test, body, at, loops, calls, fuel - 1), loops, calls,
                fuel - 1)
  {
    hide *;
    LoopIs(isWhile, test, body, at.env, at.status, loops, calls, fuel);
    if fuel > 0 {
      RoundIs(isWhile, test, body, at, loops, calls, fuel - 1);
      var t := Eval(test, at.env, loops, calls, fuel - 1);
      AfterTestIs(isWhile, test, body, t, at.status, loops, calls, fuel - 1);
      if Holds(isWhile, t) {
        HoldsIs(isWhile, t);
        AfterBodyIs(isWhile, test, body, Eval(body, t.env, loops, calls, fuel - 1), loops, calls, fuel - 1);
      }
    }
  }

  lemma {:induction false} HoldsIs(isWhile: bool, t: Result)
    ensures Holds(isWhile, t) <==> t.Done? && t.out.Normal? && isWhile == (t.env.exitstatus == 0)
  {
  }

  lemma {:induction false} RoundIs(isWhile: bool, test: Node, body: Node, at: At, loops: nat, calls: nat, fuel: nat)
    ensures var t := Eval(test, at.env, loops, calls, fuel);
            && (Holds(isWhile, t) ==> t.Done?)
            && OneRound(isWhile, test, body, at, loops, calls, fuel) ==
               if Holds(isWhile, t) then BodyEnds(Eval(body, t.env, loops, calls, fuel)) else TestEnds(t, at.status)
  {
    hide Eval, BodyEnds, TestEnds;
  }

  /** The loop after n rounds, if it comes to that. */
  function AfterRounds(isWhile: bool, test: Node, body: Node, at: At, loops: nat, calls: nat, fuel: nat,
      n: nat): Option<At>
    decreases n
  {
    if n == 0 then Some(at)
    else if fuel == 0 then None
    else
      match OneRound(isWhile, test, body, at, loops, calls, fuel - 1)
      case Next(a) => AfterRounds(isWhile, test, body, a, loops, calls, fuel - 1, n - 1)
      case Over(_) => None
  }

  lemma {:induction false} RoundsLead(isWhile: bool, test: Node, body: Node, at: At, loops: nat, calls: nat, fuel: nat,
      n: nat)
    requires AfterRounds(isWhile, test, body, at, loops, calls, fuel, n).Some?
    ensures n <= fuel
    ensures var next := AfterRounds(isWhile, test, body, at, loops, calls, fuel, n).value;
            EvalLoop(isWhile, test, body, at.env, at.status, loops, calls, fuel)
            == EvalLoop(isWhile, test, body, next.env, next.status, loops, calls, fuel - n)
    decreases n
  {
    hide EvalLoop, OneRound;
    if n > 0 {
      LoopIsRounds(isWhile, test, body, at, loops, calls, fuel);
      RoundsLead(isWhile, test, body, OneRound(isWhile, test, body, at, loops, calls, fuel - 1).at, loops, calls,
          fuel - 1, n - 1);
    }
  }

  predicate Leaves(o: Outcome) {
    o.Return? || o.File?
  }

  /** For every condition, body and number of rounds: a return from the condition ends the loop with the status of
      the last body, or the one it started with, and so keeps its own only if they are equal; a return from the
      body keeps its status. */
  lemma {:induction false} ReturnFromLoop(isWhile: bool, test: Node, body: Node, at: At, loops: nat, calls: nat,
      fuel: nat, n: nat)
    requires n < fuel && AfterRounds(isWhile, test, body, at, loops, calls, fuel, n).Some?
    ensures var next := AfterRounds(isWhile, test, body, at, loops, calls, fuel, n).value;
            var t := Eval(test, next.env, loops, calls, fuel - n - 1);
            var all := EvalLoop(isWhile, test, body, at.env, at.status, loops, calls, fuel);
            && (t.Done? && Leaves(t.out) ==>
                  && all == Done(t.out, WithStatus(t.env, next.status))
                  && (all == t <==> t.env.exitstatus == next.status))
            && (t.Done? && t.out.Normal? && isWhile == (t.env.exitstatus == 0) ==>
                  var r := Eval(body, t.env, loops, calls, fuel - n - 1);
                  r.Done? && Leaves(r.out) ==> all == r)
  {
    hide Eval, EvalLoop, AfterRounds;
    RoundsLead(isWhile, test, body, at, loops, calls, fuel, n);
    var next := AfterRounds(isWhile, test, body, at, loops, calls, fuel, n).value;
    LoopIsRounds(isWhile, test, body, next, loops, calls, fuel - n);
  }

  /** After n rounds a return leaves the loop from its condition, or from its body. */
  ghost predicate ReturnsAfter(isWhile: bool, test: Node, body: Node, at: At, loops: nat, calls: nat, fuel: nat,
      n: nat, r: Result) {
    n < fuel &&
    var rounds := AfterRounds(isWhile, test, body, at, loops, calls, fuel, n);
    rounds.Some? &&
    var t := Eval(test, rounds.value.env, loops, calls, fuel - n - 1);
    t.Done? &&
    if Leaves(t.out) then r == Done(t.out, WithStatus(t.env, rounds.value.status))
    else t.out.Normal? && isWhile == (t.env.exitstatus == 0) && r == Eval(body, t.env, loops, calls, fuel - n - 1)
  }

  /** A round that ends the loop with a return. */
  lemma {:induction false} ReturnsNow(isWhile: bool, test: Node, body: Node, at: At, loops: nat, calls: nat, fuel: nat,
      r: Result)
    requires fuel > 0 && OneRound(isWhile, test, body, at, loops, calls, fuel - 1) == Over(r) && r.Done?
    requires Leaves(r.out)
    ensures ReturnsAfter(isWhile, test, body, at, loops, calls, fuel, 0, r)
  {
    hide Eval;
  }

  lemma {:induction false} ReturnsLater(isWhile: bool, test: Node, body: Node, at: At, loops: nat, calls: nat,
      fuel: nat, n: nat, r: Result)
    requires fuel > 0 && OneRound(isWhile, test, body, at, loops, calls, fuel - 1).Next?
    requires ReturnsAfter(isWhile, test, body, OneRound(isWhile, test, body, at, loops, calls, fuel - 1).at, loops,
               calls, fuel - 1, n, r)
    ensures ReturnsAfter(isWhile, test, body, at, loops, calls, fuel, n + 1, r)
  {
    hide Eval, AfterRounds, OneRound, Leaves, WithStatus;
    RoundFirst(isWhile, test, body, at, loops, calls, fuel, n);
  }

  lemma {:induction false} RoundFirst(isWhile: bool, test: Node, body: Node, at: At, loops: nat, calls: nat, fuel: nat,
      n: nat)
    requires fuel > 0 && OneRound(isWhile, test, body, at, loops, calls, fuel - 1).Next?
    ensures AfterRounds(isWhile, test, body, at, loops, calls, fuel, n + 1)
         == AfterRounds(isWhile, test, body, OneRound(isWhile, test, body, at, loops, calls, fuel - 1).at, loops, calls,
             fuel - 1, n)
  {
    hide OneRound;
  }

  /** Every loop that is left by a return is left in one of these ways. */
  lemma {:induction false} HowLoopsReturn(isWhile: bool, test: Node, body: Node, at: At, loops: nat, calls: nat,
      fuel: nat) returns (n: nat)
    requires var r := EvalLoop(isWhile, test, body, at.env, at.status, loops, calls, fuel); r.Done? && Leaves(r.out)
    ensures ReturnsAfter(isWhile, test, body, at, loops, calls, fuel, n,
                         EvalLoop(isWhile, test, body, at.env, at.status, loops, calls, fuel))
    decreases fuel
  {
    hide Eval, EvalLoop, OneRound, ReturnsAfter;
    LoopIsRounds(isWhile, test, body, at, loops, calls, fuel);
    var r := EvalLoop(isWhile, test, body, at.env, at.status, loops, calls, fuel);
    match OneRound(isWhile, test, body, at, loops, calls, fuel - 1)
    case Over(_) =>
      n := 0;
      ReturnsNow(isWhile, test, body, at, loops, calls, fuel, r);
    case Next(next) =>
      var m := HowLoopsReturn(isWhile, test, body, next, loops, calls, fuel - 1);
      n := m + 1;
      ReturnsLater(isWhile, test, body, at, loops, calls, fuel, m, r);
  }

  /** A loop starts with status 0, and that is what a return from its first condition leaves. */
  lemma {:induction false} ReturnFromFirstCondition(isWhile: bool, test: Node, body: Node, e: Env, loops: nat,
      calls: nat, fuel: nat)
    requires fuel >= 2
    ensures var t := Eval(test, e, loops + 1, calls, fuel - 2);
            t.Done? && Leaves(t.out) ==>
              Eval(Loop(isWhile, test, body), e, loops, calls, fuel) == Done(t.out, WithStatus(t.env, 0))
  {
    assert Eval(Loop(isWhile, test, body), e, loops, calls, fuel) ==
             EvalLoop(isWhile, test, body, e, 0, loops + 1, calls, fuel - 1);
    hide Eval, EvalLoop;
    ReturnFromLoop(isWhile, test, body, At(e, 0), loops + 1, calls, fuel - 1, 0);
  }

  /** A return of 5 from the condition of a loop: on its own it leaves 5, in the loop 0. */
  lemma {:induction false} ReturnLost(e: Env, body: Node, loops: nat, calls: nat, fuel: nat)
    requires fuel >= 3
    ensures var (returns5, out) := (ReturnCmd(Some(5)), if calls > 0 then Return else File);
            && Eval(returns5, e, loops, calls, fuel) == Done(out, WithStatus(e, 5))
            && Eval(Loop(true, returns5, body), e, loops, calls, fuel) == Done(out, WithStatus(e, 0))
            && WithStatus(e, 5) != WithStatus(e, 0)
  {
    ReturnFromFirstCondition(true, ReturnCmd(Some(5)), body, e, loops, calls, fuel);
    assert Eval(ReturnCmd(Some(5)), e, loops + 1, calls, fuel - 2) ==
             Done(if calls > 0 then Return else File, WithStatus(e, 5));
  }
}
