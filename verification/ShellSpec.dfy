/** What shell commands mean, with outcomes instead of skip flags. */
module ShellSpec {
  import opened Basics

  type Vars = map<string, string>

  // ----- The parse tree -------------------------------------------------------------

  /** A node of the tree; Null is a missing one. Simple stands for every other command: it gives an
      exit status and may change variables. Words and patterns are expanded with the variables. */
  datatype Node =
    | Null
    | Semi(a: Node, b: Node)
    | And(a: Node, b: Node)
    | Or(a: Node, b: Node)
    | If(test: Node, ifPart: Node, elsePart: Node)
    | Loop(isWhile: bool, test: Node, body: Node)
    | For(name: string, words: Vars -> seq<string>, body: Node)
    | Case(arms: seq<Arm>)
    | Defun(name: string, body: Node)
    | Not(com: Node)
    | BreakCmd(isContinue: bool, n: nat)
    | ReturnCmd(ret: Option<int>)
    | Simple(run: (Vars, int) -> (int, Vars))
    | Call(name: string)

  datatype Arm = Arm(patterns: seq<Vars -> bool>, body: Node)

  // ----- Outcomes -------------------------------------------------------------------

  datatype Env = Env(exitstatus: int, vars: Vars, functions: map<string, Node>)

  /** How a command ends: Break and Continue name the loops still to leave, Return leaves a function,
      File the rest of the file. */
  datatype Outcome = Normal | Break(k: nat) | Continue(k: nat) | Return | File

  datatype Result = Done(out: Outcome, env: Env) | Failed | Timeout

  const MAX_CALLS: nat := 1000

  function WithStatus(e: Env, status: int): Env {
    e.(exitstatus := status)
  }

  /** The first arm with a matching pattern. */
  function Select(arms: seq<Arm>, vars: Vars): Option<Node> {
    if arms == [] then None
    else if Matches(arms[0].patterns, vars) then Some(arms[0].body)
    else Select(arms[1..], vars)
  }

  predicate Matches(patterns: seq<Vars -> bool>, vars: Vars) {
    exists i :: 0 <= i < |patterns| && patterns[i](vars)
  }

  // ----- The meaning ----------------------------------------------------------------

  /** The tree n run in loops nested loops and calls nested functions. */
  function Eval(n: Node, e: Env, loops: nat, calls: nat, fuel: nat): Result
    decreases fuel, 0
  {
    if fuel == 0 then Timeout
    else
      match n
      case Null => Done(Normal, WithStatus(e, 0))
      case Semi(a, b) => Then(Eval(a, e, loops, calls, fuel - 1), _ => true, b, loops, calls, fuel - 1)
      case And(a, b) => Then(Eval(a, e, loops, calls, fuel - 1), status => status == 0, b, loops, calls, fuel - 1)
      case Or(a, b) => Then(Eval(a, e, loops, calls, fuel - 1), status => status != 0, b, loops, calls, fuel - 1)
      case If(test, ifPart, elsePart) =>
        var r := Eval(test, e, loops, calls, fuel - 1);
        if !(r.Done? && r.out.Normal?) then r
        else if r.env.exitstatus == 0 then Eval(ifPart, r.env, loops, calls, fuel - 1)
        else if !elsePart.Null? then Eval(elsePart, r.env, loops, calls, fuel - 1)
        else Done(Normal, WithStatus(r.env, 0))
      case Loop(isWhile, test, body) => EvalLoop(isWhile, test, body, e, 0, loops + 1, calls, fuel - 1)
      case For(name, words, body) => EvalFor(name, words(e.vars), body, e, 0, loops + 1, calls, fuel - 1)
      case Case(arms) =>
        (match Select(arms, e.vars)
         case None => Done(Normal, WithStatus(e, 0))
         case Some(body) => Eval(body, e, loops, calls, fuel - 1))
      case Defun(name, body) => Done(Normal, WithStatus(e.(functions := e.functions[name := body]), 0))
      case Not(com) =>
        var r := Eval(com, e, loops, calls, fuel - 1);
        if r.Done? then r.(env := WithStatus(r.env, if r.env.exitstatus == 0 then 1 else 0)) else r
      case BreakCmd(isContinue, n) =>
        var k := if n > loops then loops else n;
        Done(if k == 0 then Normal else if isContinue then Continue(k) else Break(k), WithStatus(e, 0))
      case ReturnCmd(ret) =>
        Done(if calls > 0 then Return else File, if ret.Some? then WithStatus(e, ret.value) else e)
      case Simple(run) =>
        var (status, vars) := run(e.vars, e.exitstatus);
        Done(Normal, Env(status, vars, e.functions))
      case Call(name) => CallResult(name, e, loops, calls, fuel - 1)
  }

  /** A function call turns the return that ends it into a normal end; it sees the loops of its caller. */
  function CallResult(name: string, e: Env, loops: nat, calls: nat, fuel: nat): Result
    decreases fuel, 1
  {
    if name !in e.functions then Done(Normal, WithStatus(e, 127))
    else if calls + 1 > MAX_CALLS then Failed
    else
      var r := Eval(e.functions[name], e, loops, calls + 1, fuel);
      if r.Done? && r.out.Return? then r.(out := Normal) else r
  }

  /** Go on with b if r ended normally with a status that asks for it. */
  function Then(r: Result, goOn: int -> bool, b: Node, loops: nat, calls: nat, fuel: nat): Result
    decreases fuel, 1
  {
    if r.Done? && r.out.Normal? && goOn(r.env.exitstatus) then Eval(b, r.env, loops, calls, fuel) else r
  }

  /** The rest of a while or until loop; status is that of its last body. */
  function EvalLoop(isWhile: bool, test: Node, body: Node, e: Env, status: int, loops: nat, calls: nat,
      fuel: nat): Result
    decreases fuel, 0
  {
    if fuel == 0 then Timeout
    else AfterTest(isWhile, test, body, Eval(test, e, loops, calls, fuel - 1), status, loops, calls, fuel - 1)
  }

  /** What follows the condition, which ended with t. */
  function AfterTest(isWhile: bool, test: Node, body: Node, t: Result, status: int, loops: nat, calls: nat,
      fuel: nat): Result
    decreases fuel, 3
  {
    if !t.Done? then t
    else if !t.out.Normal? then Again(isWhile, test, body, t.out, t.env, status, loops, calls, fuel)
    else if isWhile != (t.env.exitstatus == 0) then Done(Normal, WithStatus(t.env, status))
    else AfterBody(isWhile, test, body, Eval(body, t.env, loops, calls, fuel), loops, calls, fuel)
  }

  /** What follows the body, which ended with r. */
  function AfterBody(isWhile: bool, test: Node, body: Node, r: Result, loops: nat, calls: nat, fuel: nat): Result
    decreases fuel, 2
  {
    if r.Done? then Again(isWhile, test, body, r.out, r.env, r.env.exitstatus, loops, calls, fuel) else r
  }

  /** Once more round the loop, unless the outcome leaves it. */
  function Again(isWhile: bool, test: Node, body: Node, out: Outcome, e: Env, status: int, loops: nat, calls: nat,
      fuel: nat): Result
    decreases fuel, 1
  {
    if out.Normal? || out == Continue(1) then EvalLoop(isWhile, test, body, e, status, loops, calls, fuel)
    else Done(Leaving(out), WithStatus(e, status))
  }

  /** The rest of a for loop. */
  function EvalFor(name: string, words: seq<string>, body: Node, e: Env, status: int, loops: nat, calls: nat,
      fuel: nat): Result
    decreases fuel, 0
  {
    if words == [] then Done(Normal, WithStatus(e, status))
    else if fuel == 0 then Timeout
    else
      var r := Eval(body, e.(vars := e.vars[name := words[0]]), loops, calls, fuel - 1);
      if !r.Done? then r
      else if r.out.Normal? || r.out == Continue(1) then
        EvalFor(name, words[1..], body, r.env, r.env.exitstatus, loops, calls, fuel - 1)
      else Done(Leaving(r.out), r.env)
  }

  /** What is left of an outcome outside the loop it leaves. */
  function Leaving(o: Outcome): Outcome {
    match o
    case Break(k) => if k <= 1 then Normal else Break(k - 1)
    case Continue(k) => if k <= 1 then Normal else Continue(k - 1)
    case _ => o
  }

  // ----- What every run keeps ---------------------------------------------------------

  /** A break or continue never asks for more loops than there are, and a return that leaves the file
      is only left over outside functions. */
  predicate Proper(o: Outcome, loops: nat, calls: nat) {
    match o
    case Normal => true
    case Break(k) => 1 <= k <= loops
    case Continue(k) => 1 <= k <= loops
    case Return => calls > 0
    case File => calls == 0
  }

  predicate ProperResult(r: Result, loops: nat, calls: nat) {
    r.Done? ==> Proper(r.out, loops, calls)
  }

  lemma {:induction false} OutcomesProper(n: Node, e: Env, loops: nat, calls: nat, fuel: nat)
    ensures ProperResult(Eval(n, e, loops, calls, fuel), loops, calls)
    decreases fuel, 2
  {
    hide EvalLoop, EvalFor, Then, Select;
    if fuel > 0 {
      match n
      case Semi(a, b) => ThenProper(a, b, _ => true, e, loops, calls, fuel - 1);
      case And(a, b) => ThenProper(a, b, status => status == 0, e, loops, calls, fuel - 1);
      case Or(a, b) => ThenProper(a, b, status => status != 0, e, loops, calls, fuel - 1);
      case If(test, ifPart, elsePart) =>
        OutcomesProper(test, e, loops, calls, fuel - 1);
        var r := Eval(test, e, loops, calls, fuel - 1);
        if r.Done? {
          OutcomesProper(ifPart, r.env, loops, calls, fuel - 1);
          OutcomesProper(elsePart, r.env, loops, calls, fuel - 1);
        }
      case Loop(isWhile, test, body) => LoopProper(isWhile, test, body, e, 0, loops, calls, fuel - 1);
      case For(name, words, body) => ForProper(name, words(e.vars), body, e, 0, loops, calls, fuel - 1);
      case Case(arms) =>
        var s := Select(arms, e.vars);
        if s.Some? {
          OutcomesProper(s.value, e, loops, calls, fuel - 1);
        }
      case Not(com) => OutcomesProper(com, e, loops, calls, fuel - 1);
      case Call(name) =>
        if name in e.functions {
          OutcomesProper(e.functions[name], e, loops, calls + 1, fuel - 1);
        }
      case _ =>
    }
  }

  lemma {:induction false} ThenProper(a: Node, b: Node, goOn: int -> bool, e: Env, loops: nat, calls: nat, fuel: nat)
    ensures ProperResult(Then(Eval(a, e, loops, calls, fuel), goOn, b, loops, calls, fuel), loops, calls)
    decreases fuel, 3
  {
    OutcomesProper(a, e, loops, calls, fuel);
    var r := Eval(a, e, loops, calls, fuel);
    if r.Done? {
      OutcomesProper(b, r.env, loops, calls, fuel);
    }
  }

  lemma {:induction false} LoopProper(isWhile: bool, test: Node, body: Node, e: Env, status: int, loops: nat,
      calls: nat, fuel: nat)
    ensures ProperResult(EvalLoop(isWhile, test, body, e, status, loops + 1, calls, fuel), loops, calls)
    decreases fuel, 0
  {
    hide Eval, Again;
    if fuel > 0 {
      OutcomesProper(test, e, loops + 1, calls, fuel - 1);
      var t := Eval(test, e, loops + 1, calls, fuel - 1);
      if t.Done? {
        AgainProper(isWhile, test, body, t.out, t.env, status, loops, calls, fuel - 1);
        OutcomesProper(body, t.env, loops + 1, calls, fuel - 1);
        var r := Eval(body, t.env, loops + 1, calls, fuel - 1);
        if r.Done? {
          AgainProper(isWhile, test, body, r.out, r.env, r.env.exitstatus, loops, calls, fuel - 1);
        }
        assert ProperResult(AfterBody(isWhile, test, body, r, loops + 1, calls, fuel - 1), loops, calls);
        assert ProperResult(AfterTest(isWhile, test, body, t, status, loops + 1, calls, fuel - 1), loops, calls);
      }
    }
  }

  lemma {:induction false} AgainProper(isWhile: bool, test: Node, body: Node, out: Outcome, e: Env, status: int,
      loops: nat, calls: nat, fuel: nat)
    requires Proper(out, loops + 1, calls)
    ensures ProperResult(Again(isWhile, test, body, out, e, status, loops + 1, calls, fuel), loops, calls)
    decreases fuel, 1
  {
    hide EvalLoop;
    LoopProper(isWhile, test, body, e, status, loops, calls, fuel);
  }

  lemma {:induction false} ForProper(name: string, words: seq<string>, body: Node, e: Env, status: int, loops: nat,
      calls: nat, fuel: nat)
    ensures ProperResult(EvalFor(name, words, body, e, status, loops + 1, calls, fuel), loops, calls)
    decreases fuel, 0
  {
    hide Eval, EvalLoop, Then;
    if fuel > 0 && words != [] {
      var e' := e.(vars := e.vars[name := words[0]]);
      OutcomesProper(body, e', loops + 1, calls, fuel - 1);
      var r := Eval(body, e', loops + 1, calls, fuel - 1);
      if r.Done? {
        ForProper(name, words[1..], body, r.env, r.env.exitstatus, loops, calls, fuel - 1);
      }
    }
  }

  // ----- Enough fuel is enough ----------------------------------------------------------

  /** Once the answer is there, more fuel does not change it. */
  lemma {:induction false} MoreFuel(n: Node, e: Env, loops: nat, calls: nat, fuel: nat)
    requires !Eval(n, e, loops, calls, fuel).Timeout?
    ensures Eval(n, e, loops, calls, fuel + 1) == Eval(n, e, loops, calls, fuel)
    decreases fuel, 1
  {
    hide EvalLoop, EvalFor, Then, Select;
    match n
    case Semi(a, b) => ThenMore(a, b, _ => true, e, loops, calls, fuel - 1);
    case And(a, b) => ThenMore(a, b, status => status == 0, e, loops, calls, fuel - 1);
    case Or(a, b) => ThenMore(a, b, status => status != 0, e, loops, calls, fuel - 1);
    case If(test, ifPart, elsePart) =>
      MoreFuel(test, e, loops, calls, fuel - 1);
      var r := Eval(test, e, loops, calls, fuel - 1);
      if r.Done? && r.out.Normal? {
        if r.env.exitstatus == 0 {
          MoreFuel(ifPart, r.env, loops, calls, fuel - 1);
        } else if !elsePart.Null? {
          MoreFuel(elsePart, r.env, loops, calls, fuel - 1);
        }
      }
    case Loop(isWhile, test, body) => LoopMore(isWhile, test, body, e, 0, loops + 1, calls, fuel - 1);
    case For(name, words, body) => ForMore(name, words(e.vars), body, e, 0, loops + 1, calls, fuel - 1);
    case Case(arms) =>
      var s := Select(arms, e.vars);
      if s.Some? {
        MoreFuel(s.value, e, loops, calls, fuel - 1);
      }
    case Not(com) => MoreFuel(com, e, loops, calls, fuel - 1);
    case Call(name) =>
      if name in e.functions && calls < MAX_CALLS {
        MoreFuel(e.functions[name], e, loops, calls + 1, fuel - 1);
      }
    case _ =>
  }

  lemma {:induction false} ThenMore(a: Node, b: Node, goOn: int -> bool, e: Env, loops: nat, calls: nat, fuel: nat)
    requires !Then(Eval(a, e, loops, calls, fuel), goOn, b, loops, calls, fuel).Timeout?
    ensures Then(Eval(a, e, loops, calls, fuel + 1), goOn, b, loops, calls, fuel + 1)
         == Then(Eval(a, e, loops, calls, fuel), goOn, b, loops, calls, fuel)
    decreases fuel, 3
  {
    hide Eval, EvalLoop, EvalFor;
    MoreFuel(a, e, loops, calls, fuel);
    var r := Eval(a, e, loops, calls, fuel);
    if r.Done? && r.out.Normal? && goOn(r.env.exitstatus) {
      MoreFuel(b, r.env, loops, calls, fuel);
    }
  }

  lemma {:induction false} LoopMore(isWhile: bool, test: Node, body: Node, e: Env, status: int, loops: nat, calls: nat,
      fuel: nat)
    requires !EvalLoop(isWhile, test, body, e, status, loops, calls, fuel).Timeout?
    ensures EvalLoop(isWhile, test, body, e, status, loops, calls, fuel + 1) ==
              EvalLoop(isWhile, test, body, e, status, loops, calls, fuel)
    decreases fuel, 0
  {
    hide Eval, AfterTest;
    var t := Eval(test, e, loops, calls, fuel - 1);
    TestMore(isWhile, test, body, t, status, loops, calls, fuel - 1);
    MoreFuel(test, e, loops, calls, fuel - 1);
  }

  lemma {:induction false} TestMore(isWhile: bool, test: Node, body: Node, t: Result, status: int, loops: nat,
      calls: nat, fuel: nat)
    requires !AfterTest(isWhile, test, body, t, status, loops, calls, fuel).Timeout?
    ensures AfterTest(isWhile, test, body, t, status, loops, calls, fuel + 1) ==
              AfterTest(isWhile, test, body, t, status, loops, calls, fuel)
    ensures !t.Timeout?
    decreases fuel, 5
  {
    hide *;
    TestIs(isWhile, test, body, t, status, loops, calls, fuel);
    TestIs(isWhile, test, body, t, status, loops, calls, fuel + 1);
    if t.Done? && !t.out.Normal? {
      AgainMore(isWhile, test, body, t.out, t.env, status, loops, calls, fuel);
    } else if t.Done? && isWhile == (t.env.exitstatus == 0) {
      BodyMore(isWhile, test, body, Eval(body, t.env, loops, calls, fuel), loops, calls, fuel);
      MoreFuel(body, t.env, loops, calls, fuel);
    }
  }

  lemma {:induction false} BodyMore(isWhile: bool, test: Node, body: Node, r: Result, loops: nat, calls: nat, fuel: nat)
    requires !AfterBody(isWhile, test, body, r, loops, calls, fuel).Timeout?
    ensures AfterBody(isWhile, test, body, r, loops, calls, fuel + 1) ==
              AfterBody(isWhile, test, body, r, loops, calls, fuel)
    ensures !r.Timeout?
    decreases fuel, 4
  {
    hide Again;
    if r.Done? {
      AgainMore(isWhile, test, body, r.out, r.env, r.env.exitstatus, loops, calls, fuel);
    }
  }

  lemma {:induction false} AgainIs(isWhile: bool, test: Node, body: Node, out: Outcome, e: Env, status: int,
      loops: nat, calls: nat, fuel: nat)
    ensures Again(isWhile, test, body, out, e, status, loops, calls, fuel)
         == if out.Normal? || out == Continue(1) then EvalLoop(isWhile, test, body, e, status, loops, calls, fuel)
            else Done(Leaving(out), WithStatus(e, status))
  {
  }

  lemma {:induction false} LoopIs(isWhile: bool, test: Node, body: Node, e: Env, status: int, loops: nat, calls: nat,
      fuel: nat)
    ensures EvalLoop(isWhile, test, body, e, status, loops, calls, fuel) ==
            if fuel == 0 then Timeout
            else AfterTest(isWhile, test, body, Eval(test, e, loops, calls, fuel - 1), status, loops, calls, fuel - 1)
  {
    hide Eval, AfterTest;
  }

  lemma {:induction false} TestIs(isWhile: bool, test: Node, body: Node, t: Result, status: int, loops: nat,
      calls: nat, fuel: nat)
    ensures AfterTest(isWhile, test, body, t, status, loops, calls, fuel) ==
            if !t.Done? then t
            else if !t.out.Normal? then Again(isWhile, test, body, t.out, t.env, status, loops, calls, fuel)
            else if isWhile != (t.env.exitstatus == 0) then Done(Normal, WithStatus(t.env, status))
            else AfterBody(isWhile, test, body, Eval(body, t.env, loops, calls, fuel), loops, calls, fuel)
  {
    hide Eval, AfterBody, Again;
  }

  lemma {:induction false} BodyIs(isWhile: bool, test: Node, body: Node, r: Result, loops: nat, calls: nat, fuel: nat)
    ensures AfterBody(isWhile, test, body, r, loops, calls, fuel) ==
            if r.Done? then Again(isWhile, test, body, r.out, r.env, r.env.exitstatus, loops, calls, fuel) else r
  {
    hide Again;
  }

  lemma {:induction false} AgainMore(isWhile: bool, test: Node, body: Node, out: Outcome, e: Env, status: int,
      loops: nat, calls: nat, fuel: nat)
    requires !Again(isWhile, test, body, out, e, status, loops, calls, fuel).Timeout?
    ensures Again(isWhile, test, body, out, e, status, loops, calls, fuel + 1) ==
              Again(isWhile, test, body, out, e, status, loops, calls, fuel)
    decreases fuel, 1
  {
    hide *;
    AgainIs(isWhile, test, body, out, e, status, loops, calls, fuel);
    AgainIs(isWhile, test, body, out, e, status, loops, calls, fuel + 1);
    if out.Normal? || out == Continue(1) {
      LoopMore(isWhile, test, body, e, status, loops, calls, fuel);
    }
  }

  lemma {:induction false} ForMore(name: string, words: seq<string>, body: Node, e: Env, status: int, loops: nat,
      calls: nat, fuel: nat)
    requires !EvalFor(name, words, body, e, status, loops, calls, fuel).Timeout?
    ensures EvalFor(name, words, body, e, status, loops, calls, fuel + 1) ==
              EvalFor(name, words, body, e, status, loops, calls, fuel)
    decreases fuel, 0
  {
    hide Eval, EvalLoop, Then, Select;
    if words != [] {
      var e' := e.(vars := e.vars[name := words[0]]);
      MoreFuel(body, e', loops, calls, fuel - 1);
      var r := Eval(body, e', loops, calls, fuel - 1);
      if r.Done? && (r.out.Normal? || r.out == Continue(1)) {
        ForMore(name, words[1..], body, r.env, r.env.exitstatus, loops, calls, fuel - 1);
      }
    }
  }

  /** Whatever two amounts of fuel bring to an end, they bring to the same end. */
  lemma {:induction false} OneMeaning(n: Node, e: Env, loops: nat, calls: nat, fuel: nat, more: nat)
    requires fuel <= more && !Eval(n, e, loops, calls, fuel).Timeout?
    ensures Eval(n, e, loops, calls, more) == Eval(n, e, loops, calls, fuel)
    decreases more - fuel
  {
    if fuel < more {
      MoreFuel(n, e, loops, calls, fuel);
      OneMeaning(n, e, loops, calls, fuel + 1, more);
    }
  }

  lemma {:induction false} ForIs(name: string, words: seq<string>, body: Node, e: Env, status: int, loops: nat,
      calls: nat, fuel: nat)
    ensures words == [] ==>
              EvalFor(name, words, body, e, status, loops, calls, fuel) == Done(Normal, WithStatus(e, status))
    ensures words != [] && fuel == 0 ==> EvalFor(name, words, body, e, status, loops, calls, fuel) == Timeout
    ensures words != [] && fuel > 0 ==>
              var r := Eval(body, e.(vars := e.vars[name := words[0]]), loops, calls, fuel - 1);
              EvalFor(name, words, body, e, status, loops, calls, fuel) ==
              if !r.Done? then r
              else if r.out.Normal? || r.out == Continue(1)
                then EvalFor(name, words[1..], body, r.env, r.env.exitstatus, loops, calls, fuel - 1)
              else Done(Leaving(r.out), r.env)
  {
  }

  // ----- A whole file -----------------------------------------------------------------------

  /** The commands of a file in order, until one leaves the file. At this level no break, continue or
      return of a function can be pending. */
  function FileResult(file: seq<Node>, e: Env, fuel: nat): (r: Result)
    ensures r.Done? ==> r.out.Normal?
  {
    if file == [] then Done(Normal, e)
    else
      OutcomesProper(file[0], e, 0, 0, fuel);
      var r := Eval(file[0], e, 0, 0, fuel);
      if !r.Done? then r
      else if r.out.File? then r.(out := Normal)
      else FileResult(file[1..], r.env, fuel)
  }
}
