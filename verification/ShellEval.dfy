/** The tree-walking interpreter: break, continue and return are flags that make it skip commands. */
module ShellEval {
  import opened Basics
  import opened ShellSpec

  datatype Skip = SkipNone | SkipBreak | SkipCont | SkipFunc | SkipFile

  /** How a call came back: Raised stands for the jump out of error(). */
  datatype Status = Ok | Raised | OutOfFuel

  class Shell {
    var evalskip: Skip
    var skipcount: int
    var loopnest: nat
    var funcnest: nat
    var exitstatus: int
    var vars: Vars
    var functions: map<string, Node>

    ghost function Now(): Env
      reads `exitstatus, `vars, `functions
    {
      Env(exitstatus, vars, functions)
    }

    /** The flags say what the outcome is. */
    ghost predicate Flags(o: Outcome)
      reads `evalskip, `skipcount
    {
      match o
      case Normal => evalskip == SkipNone
      case Break(k) => evalskip == SkipBreak && skipcount == k
      case Continue(k) => evalskip == SkipCont && skipcount == k
      case Return => evalskip == SkipFunc
      case File => evalskip == SkipFile
    }

    /** The call came back as the meaning says, with the nesting it started with. */
    ghost predicate Agrees(st: Status, r: Result, loops: nat, calls: nat)
      reads this
    {
      match r
      case Done(o, e) =>
        st == Ok && Now() == e && Flags(o) && Proper(o, loops, calls) && loopnest == loops && funcnest == calls
      case Failed => st == Raised
      case Timeout => st == OutOfFuel
    }

    /** breakcmd, for both break and continue. */
    method Break(isContinue: bool, n: nat)
      requires evalskip == SkipNone
      modifies this
      ensures loopnest == old(loopnest) && funcnest == old(funcnest) && Now() == WithStatus(old(Now()), 0)
      ensures var k := if n > loopnest then loopnest else n;
              Flags(if k == 0 then Normal else if isContinue then Continue(k) else Outcome.Break(k))
    {
      var n := n;
      if n > loopnest {
        n := loopnest;
      }
      if n > 0 {
        evalskip := if isContinue then SkipCont else SkipBreak;
        skipcount := n;
      }
      exitstatus := 0;
    }

    /** returncmd. */
    method Return(ret: Option<int>)
      requires evalskip == SkipNone
      modifies this
      ensures loopnest == old(loopnest) && funcnest == old(funcnest)
      ensures Now() == if ret.Some? then WithStatus(old(Now()), ret.value) else old(Now())
      ensures Flags(if funcnest > 0 then Outcome.Return else File)
    {
      if funcnest > 0 {
        evalskip := SkipFunc;
        skipcount := 1;
      } else {
        evalskip := SkipFile;
        skipcount := 1;
      }
      if ret.Some? {
        exitstatus := ret.value;
      }
    }

    /** evaltree. */
    method EvalTree(n: Node, fuel: nat) returns (st: Status)
      requires evalskip == SkipNone
      modifies this
      ensures Agrees(st, Eval(n, old(Now()), old(loopnest), old(funcnest), fuel), old(loopnest), old(funcnest))
      decreases fuel, 0
    {
      ghost var loops, calls := loopnest, funcnest;
      ghost var e0 := Now();
      OutcomesProper(n, e0, loops, calls, fuel);
      if fuel == 0 {
        return OutOfFuel;
      }
      st := Ok;
      match n
      case Null =>
        exitstatus := 0;
      case Semi(a, b) =>
        st := EvalTree(a, fuel - 1);
        if st.Ok? && evalskip == SkipNone {
          st := EvalTree(b, fuel - 1);
        }
      case And(a, b) =>
        st := EvalTree(a, fuel - 1);
        if st.Ok? && evalskip == SkipNone && exitstatus == 0 {
          st := EvalTree(b, fuel - 1);
        }
      case Or(a, b) =>
        st := EvalTree(a, fuel - 1);
        if st.Ok? && evalskip == SkipNone && exitstatus != 0 {
          st := EvalTree(b, fuel - 1);
        }
      case If(test, ifPart, elsePart) =>
        st := EvalTree(test, fuel - 1);
        if st.Ok? && evalskip == SkipNone {
          if exitstatus == 0 {
            st := EvalTree(ifPart, fuel - 1);
          } else if !elsePart.Null? {
            st := EvalTree(elsePart, fuel - 1);
          } else {
            exitstatus := 0;
          }
        }
      case Loop(isWhile, test, body) =>
        st := EvalLoopCmd(isWhile, test, body, fuel - 1);
      case For(name, words, body) =>
        st := EvalForCmd(name, words(vars), body, fuel - 1);
      case Case(arms) =>
        st := EvalCaseCmd(arms, fuel - 1);
      case Defun(name, body) =>
        functions := functions[name := body];
        exitstatus := 0;
      case Not(com) =>
        st := EvalTree(com, fuel - 1);
        if st.Ok? {
          exitstatus := if exitstatus == 0 then 1 else 0;
        }
      case BreakCmd(isContinue, n) =>
        Break(isContinue, n);
      case ReturnCmd(ret) =>
        Return(ret);
      case Simple(run) =>
        var r := run(vars, exitstatus);
        exitstatus, vars := r.0, r.1;
      case Call(name) =>
        st := EvalCall(name, fuel - 1);
    }

    /** The end of a skipped round: whether the loop goes on, and what is left to skip. */
    method Skipping(ghost o: Outcome) returns (fGoOn: bool)
      requires Flags(o) && !o.Normal? && (o.Break? || o.Continue? ==> o.k >= 1)
      modifies `evalskip, `skipcount
      ensures fGoOn <==> o == Continue(1)
      ensures Flags(Leaving(o))
    {
      if evalskip == SkipCont {
        skipcount := skipcount - 1;
        if skipcount <= 0 {
          evalskip := SkipNone;
          return true;
        }
      }
      if evalskip == SkipBreak {
        skipcount := skipcount - 1;
        if skipcount <= 0 {
          evalskip := SkipNone;
        }
      }
      return false;
    }

    /** A part of a loop is run, and what it left pending is settled with the loop. */
    method RunPart(n: Node, fuel: nat) returns (st: Status, fSkipped: bool, fGoOn: bool)
      requires evalskip == SkipNone && loopnest > 0
      modifies this
      ensures var r := Eval(n, old(Now()), old(loopnest), old(funcnest), fuel);
              && (r.Failed? ==> st == Raised) && (r.Timeout? ==> st == OutOfFuel)
              && (r.Done? ==> && st == Ok && Now() == r.env && loopnest == old(loopnest) && funcnest == old(funcnest)
                              && (fSkipped <==> !r.out.Normal?) && (fGoOn <==> r.out.Normal? || r.out == Continue(1))
                              && Flags(if fSkipped then Leaving(r.out) else Normal))
      decreases fuel, 1
    {
      ghost var r := Eval(n, Now(), loopnest, funcnest, fuel);
      hide Eval;
      st := EvalTree(n, fuel);
      fSkipped, fGoOn := false, true;
      if st == Ok && evalskip != SkipNone {
        fSkipped := true;
        fGoOn := Skipping(r.out);
      }
    }

    lemma {:induction false} NowIs()
      ensures Now() == Env(exitstatus, vars, functions)
      ensures Flags(Normal) <==> evalskip == SkipNone
    {
    }

    lemma {:induction false} AgreesDone(r: Result, loops: nat, calls: nat)
      requires r.Done? && Now() == r.env && Flags(r.out) && ProperResult(r, loops, calls) && loopnest == loops
      requires funcnest == calls
      ensures Agrees(Ok, r, loops, calls)
    {
    }

    lemma {:induction false} AgreesNot(st: Status, r: Result, loops: nat, calls: nat)
      requires (r.Failed? && st == Raised) || (r.Timeout? && st == OutOfFuel)
      ensures Agrees(st, r, loops, calls)
    {
    }

    /** The body's turn in a round of evalloop. */
    method RoundBody(isWhile: bool, test: Node, body: Node, fuel: nat) returns (st: Status, fGoOn: bool, status': int)
      requires evalskip == SkipNone && loopnest > 0
      modifies this
      ensures var r0 := AfterBody(isWhile, test, body, Eval(body, old(Now()), old(loopnest), old(funcnest), fuel),
                old(loopnest), old(funcnest), fuel);
              && (st != Ok ==> (r0.Failed? && st == Raised) || (r0.Timeout? && st == OutOfFuel))
              && (st == Ok ==> loopnest == old(loopnest) && funcnest == old(funcnest))
              && (st == Ok && fGoOn ==> evalskip == SkipNone)
              && (st == Ok && fGoOn ==> EvalLoop(isWhile, test, body, Now(), status', loopnest, funcnest, fuel) == r0)
              && (st == Ok && !fGoOn ==> r0.Done? && r0.env == WithStatus(Now(), status') && Flags(r0.out))
      decreases fuel, 2
    {
      hide *;
      ghost var loops, calls := loopnest, funcnest;
      LeavingOne();
      ghost var r := Eval(body, Now(), loops, calls, fuel);
      BodyIs(isWhile, test, body, r, loops, calls, fuel);
      var fSkipped;
      st, fSkipped, fGoOn := RunPart(body, fuel);
      status' := exitstatus;
      if st != Ok {
        return;
      }
      NowIs();
      StatusIs(Now(), status');
      AgainIs(isWhile, test, body, r.out, r.env, r.env.exitstatus, loops, calls, fuel);
    }

    /** One round of evalloop: the condition, then the body. */
    method Round(isWhile: bool, test: Node, body: Node, status: int, fuel: nat)
        returns (st: Status, fGoOn: bool, status': int)
      requires evalskip == SkipNone && loopnest > 0 && fuel > 0
      modifies this
      ensures var r0 := EvalLoop(isWhile, test, body, old(Now()), status, old(loopnest), old(funcnest), fuel);
              && (st != Ok ==> (r0.Failed? && st == Raised) || (r0.Timeout? && st == OutOfFuel))
              && (st == Ok ==> loopnest == old(loopnest) && funcnest == old(funcnest))
              && (st == Ok && fGoOn ==> evalskip == SkipNone)
              && (st == Ok && fGoOn ==>
                  EvalLoop(isWhile, test, body, Now(), status', loopnest, funcnest, fuel - 1) == r0)
              && (st == Ok && !fGoOn ==> r0.Done? && r0.env == WithStatus(Now(), status') && Flags(r0.out))
      decreases fuel, 1
    {
      hide *;
      ghost var loops, calls := loopnest, funcnest;
      status' := status;
      LoopIs(isWhile, test, body, Now(), status, loops, calls, fuel);
      LeavingOne();
      ghost var t := Eval(test, Now(), loops, calls, fuel - 1);
      TestIs(isWhile, test, body, t, status, loops, calls, fuel - 1);
      var fSkipped;
      st, fSkipped, fGoOn := RunPart(test, fuel - 1);
      if st != Ok {
        return;
      }
      NowIs();
      if fSkipped {
        AgainIs(isWhile, test, body, t.out, t.env, status, loops, calls, fuel - 1);
        return;
      }
      if isWhile {
        if exitstatus != 0 {
          return Ok, false, status;
        }
      } else {
        if exitstatus == 0 {
          return Ok, false, status;
        }
      }
      st, fGoOn, status' := RoundBody(isWhile, test, body, fuel - 1);
    }

    /** evalloop. */
    method EvalLoopCmd(isWhile: bool, test: Node, body: Node, fuel: nat) returns (st: Status)
      requires evalskip == SkipNone
      modifies this
      ensures Agrees(st, EvalLoop(isWhile, test, body, old(Now()), 0, old(loopnest) + 1, old(funcnest), fuel),
                old(loopnest), old(funcnest))
      decreases fuel, 2
    {
      hide *;
      ghost var loops, calls := loopnest, funcnest;
      ghost var r0 := EvalLoop(isWhile, test, body, Now(), 0, loops + 1, calls, fuel);
      LoopProper(isWhile, test, body, Now(), 0, loops, calls, fuel);
      loopnest := loopnest + 1;
      var status := 0;
      var f: nat := fuel;
      var fGoOn := true;
      while fGoOn
        invariant loopnest == loops + 1 && funcnest == calls && f <= fuel
        invariant fGoOn ==>
                    evalskip == SkipNone && EvalLoop(isWhile, test, body, Now(), status, loops + 1, calls, f) == r0
        invariant !fGoOn ==> r0.Done? && r0.env == WithStatus(Now(), status) && Flags(r0.out)
        decreases fGoOn, f
      {
        if f == 0 {
          LoopIs(isWhile, test, body, Now(), status, loops + 1, calls, f);
          AgreesNot(OutOfFuel, r0, loops, calls);
          return OutOfFuel;
        }
        st, fGoOn, status := Round(isWhile, test, body, status, f);
        if st != Ok {
          AgreesNot(st, r0, loops, calls);
          return;
        }
        f := f - 1;
      }
      loopnest := loopnest - 1;
      NowIs();
      ghost var e := Now();
      exitstatus := status;
      NowIs();
      StatusIs(e, status);
      AgreesDone(r0, loops, calls);
      st := Ok;
    }

    lemma {:induction false} LeavingOne()
      ensures Leaving(Continue(1)) == Normal
    {
    }

    lemma {:induction false} StatusIs(e: Env, status: int)
      ensures WithStatus(e, status) == Env(status, e.vars, e.functions)
    {
    }

    /** evalfor, on the expanded words. */
    method EvalForCmd(name: string, words: seq<string>, body: Node, fuel: nat) returns (st: Status)
      requires evalskip == SkipNone
      modifies this
      ensures Agrees(st, EvalFor(name, words, body, old(Now()), 0, old(loopnest) + 1, old(funcnest), fuel),
                old(loopnest), old(funcnest))
      decreases fuel, 2
    {
      hide *;
      ghost var loops, calls := loopnest, funcnest;
      ghost var r0 := EvalFor(name, words, body, Now(), 0, loops + 1, calls, fuel);
      ForProper(name, words, body, Now(), 0, loops, calls, fuel);
      loopnest := loopnest + 1;
      var status := 0;
      var f: nat, i: nat := fuel, 0;
      assert words[0..] == words;
      while i < |words|
        invariant i <= |words| && evalskip == SkipNone && loopnest == loops + 1 && funcnest == calls && f <= fuel
        invariant EvalFor(name, words[i..], body, Now(), status, loops + 1, calls, f) == r0
        decreases f
      {
        assert words[i..][0] == words[i] && words[i..][1..] == words[i + 1..];
        ForIs(name, words[i..], body, Now(), status, loops + 1, calls, f);
        if f == 0 {
          AgreesNot(OutOfFuel, r0, loops, calls);
          return OutOfFuel;
        }
        f := f - 1;
        NowIs();
        ghost var e := Now();
        vars := vars[name := words[i]];
        NowIs();
        assert Now() == e.(vars := e.vars[name := words[i]]);
        var fSkipped, fGoOn;
        st, fSkipped, fGoOn := RunPart(body, f);
        if st != Ok {
          AgreesNot(st, r0, loops, calls);
          return;
        }
        NowIs();
        LeavingOne();
        status := exitstatus;
        i := i + 1;
        if !fGoOn {
          loopnest := loopnest - 1;
          NowIs();
          AgreesDone(r0, loops, calls);
          return;
        }
      }
      ForIs(name, words[i..], body, Now(), status, loops + 1, calls, f);
      loopnest := loopnest - 1;
      NowIs();
      ghost var e := Now();
      exitstatus := status;
      NowIs();
      StatusIs(e, status);
      AgreesDone(r0, loops, calls);
      st := Ok;
    }

    /** evalcase: the first pattern that matches, in the order of the arms. */
    method EvalCaseCmd(arms: seq<Arm>, fuel: nat) returns (st: Status)
      requires evalskip == SkipNone
      modifies this
      ensures Agrees(st, match Select(arms, old(vars))
                         case None => Done(Normal, WithStatus(old(Now()), 0))
                         case Some(body) => Eval(body, old(Now()), old(loopnest), old(funcnest), fuel),
                         old(loopnest), old(funcnest))
      decreases fuel, 1
    {
      hide Eval;
      var i := 0;
      assert arms[0..] == arms;
      while i < |arms|
        invariant i <= |arms| && evalskip == SkipNone && Now() == old(Now()) && loopnest == old(loopnest)
        invariant funcnest == old(funcnest)
        invariant Select(arms, vars) == Select(arms[i..], vars)
      {
        assert arms[i..][0] == arms[i] && arms[i..][1..] == arms[i + 1..];
        var k := 0;
        while k < |arms[i].patterns|
          invariant k <= |arms[i].patterns| && forall j :: 0 <= j < k ==> !arms[i].patterns[j](vars)
          invariant evalskip == SkipNone && Now() == old(Now()) && loopnest == old(loopnest)
          invariant funcnest == old(funcnest)
        {
          if arms[i].patterns[k](vars) {
            assert Matches(arms[i].patterns, vars);
            st := EvalTree(arms[i].body, fuel);
            return;
          }
          k := k + 1;
        }
        i := i + 1;
      }
      exitstatus := 0;
      st := Ok;
    }

    /** The function call in evalcommand_doit: a return ends here, a break or continue goes on. */
    method EvalCall(name: string, fuel: nat) returns (st: Status)
      requires evalskip == SkipNone
      modifies this
      ensures Agrees(st, CallResult(name, old(Now()), old(loopnest), old(funcnest), fuel), old(loopnest), old(funcnest))
      decreases fuel, 1
    {
      if name !in functions {
        exitstatus := 127;
        return Ok;
      }
      funcnest := funcnest + 1;
      if funcnest > 1000 {
        return Raised;
      }
      st := EvalTree(functions[name], fuel);
      if st != Ok {
        return;
      }
      funcnest := funcnest - 1;
      if evalskip == SkipFunc {
        evalskip := SkipNone;
        skipcount := 0;
      }
    }

    /** cmdloop on the commands of a file: a return outside functions ends the file. */
    method CmdLoop(file: seq<Node>, fuel: nat) returns (st: Status)
      requires evalskip == SkipNone && loopnest == 0 && funcnest == 0
      modifies this
      ensures st == (match FileResult(file, old(Now()), fuel)
                     case Done(_, _) => Ok
                     case Failed => Raised
                     case Timeout => OutOfFuel)
      ensures st == Ok ==>
                Now() == FileResult(file, old(Now()), fuel).env && evalskip == SkipNone && loopnest == 0 &&
                funcnest == 0
    {
      hide Eval;
      var i := 0;
      assert file[0..] == file;
      while i < |file|
        invariant i <= |file| && evalskip == SkipNone && loopnest == 0 && funcnest == 0
        invariant FileResult(file[i..], Now(), fuel) == FileResult(file, old(Now()), fuel)
      {
        assert file[i..][0] == file[i] && file[i..][1..] == file[i + 1..];
        st := EvalTree(file[i], fuel);
        if st != Ok {
          return;
        }
        if evalskip == SkipFile {
          evalskip := SkipNone;
          break;
        }
        i := i + 1;
      }
      st := Ok;
    }
  }
}
