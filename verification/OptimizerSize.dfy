/** What the optimiser writes for a line, in terms of what a compiler knows: it writes no more than it needs to. */
module OptimizerSize {
  import opened Basics
  import opened LineControl
  import opened OptimizerSpec

  function Min(x: nat, y: nat): nat {
    if x < y then x else y
  }

  lemma {:induction false} UnlinesBlank(n: nat)
    ensures |Unlines(BlankLines(n))| == n
  {
    if n > 0 {
      BlankLinesMore(n);
      UnlinesBlank(n - 1);
      UnlinesSnoc(BlankLines(n - 1), "");
    }
  }

  /** Lines held back are made up for by blank lines or by one directive, whatever has fewer characters. */
  lemma {:induction false} GapIsShortest(optLine: nat, curLine: nat)
    ensures var gap, n, d := Gap(true, optLine, curLine), Wrap(curLine - optLine), LineDirective(curLine, "");
            && (gap == BlankLines(n) || gap == [d])
            && |Unlines(gap)| == Min(n, |d| + 1)
  {
    var d := LineDirective(curLine, "");
    UnlinesBlank(Wrap(curLine - optLine));
    assert |d| >= 7 && |Unlines([d])| == |d| + 1 by {
      assert [d][1..] == [];
    }
  }

  // ----- One more line ---------------------------------------------------------------------------

  /** The number of the next line as the optimiser counts it: that of the reader of the input, less what the
      reader is ahead by. */
  function Here(o2: bool, ls: seq<string>): nat {
    Wrap(ReadLines(false, Stripped(ls)).line - Drifts(o2, ls).input)
  }

  /** The number of the line the output has come to. */
  function There(o2: bool, ls: seq<string>): nat {
    Wrap(ReadLines(false, Run(o2, ls).out).line - Drifts(o2, ls).output)
  }

  /** The last line has not been written. */
  predicate HeldBack(o2: bool, ls: seq<string>) {
    ls != [] && Run(o2, ls).out == Run(o2, ls[..|ls| - 1]).out
  }

  /** What brings the output up to the next line: nothing unless lines were held back, else as little as can be. */
  ghost predicate CatchesUp(o2: bool, ls: seq<string>, gap: seq<string>) {
    var n, d := Wrap(Here(o2, ls) - There(o2, ls)), LineDirective(Here(o2, ls), "");
    if HeldBack(o2, ls) then (gap == BlankLines(n) || gap == [d]) && |Unlines(gap)| == Min(n, |d| + 1) else gap == []
  }

  /** The directive changes the file, or goes back. */
  predicate IsNeeded(o2: bool, ls: seq<string>, n: nat, name: Option<string>) {
    var file := ReadLines(false, Stripped(ls)).file;
    (name.Some? && name.value != file) || n < Here(o2, ls)
  }

  lemma {:induction false} WrapBack(x: nat, drift: nat)
    requires x < LINE_MOD
    ensures Wrap(Wrap(x + drift) - drift) == x
  {
  }

  lemma {:induction false} CountersAre(o2: bool, ls: seq<string>)
    ensures var s := Run(o2, ls);
            && s.curLine == Here(o2, ls) && s.optLine == There(o2, ls) && s.file == ReadLines(false, Stripped(ls)).file
            && s.curLine < LINE_MOD && s.optLine < LINE_MOD
  {
    hide Run, Drifts, ReadLines, Stripped, Wrap, SameButLines, InPlace;
    RunInStep(o2, ls);
    var s, d := Run(o2, ls), Drifts(o2, ls);
    WrapBack(s.curLine, d.input);
    WrapBack(s.optLine, d.output);
  }

  /** What is held back are the lines since the last one written. */
  lemma {:induction false} PendingIs(o2: bool, ls: seq<string>)
    ensures Run(o2, ls).pending <==> HeldBack(o2, ls)
  {
    hide Classify, Flushed, LineDirective, Wrap, AfterWritten, StripCr, NewName;
    if ls != [] {
      var init := ls[..|ls| - 1];
      var s, line := Run(o2, init), ls[|ls| - 1];
      assert Run(o2, ls) == Step(o2, s, line);
      FlushedGrows(s);
      hide Run;
    }
  }

  lemma {:induction false} FlushedGrows(s: State)
    ensures |Flushed(s)| >= |s.out| && Flushed(s)[..|s.out|] == s.out
    ensures Flushed(s) == s.out + Gap(s.pending, s.optLine, s.curLine)
  {
    hide Gap;
  }

  lemma {:induction false} StepIs(o2: bool, ls: seq<string>, line: string)
    ensures Run(o2, ls + [line]) == Step(o2, Run(o2, ls), line)
  {
    hide Step;
    assert (ls + [line])[..|ls|] == ls;
  }

  lemma {:induction false} CatchesUpIf(o2: bool, ls: seq<string>, gap: seq<string>, n: nat, d: string)
    requires n == Wrap(Here(o2, ls) - There(o2, ls)) && d == LineDirective(Here(o2, ls), "")
    requires if HeldBack(o2, ls) then (gap == BlankLines(n) || gap == [d]) && |Unlines(gap)| == Min(n, |d| + 1)
             else gap == []
    ensures CatchesUp(o2, ls, gap)
  {
    hide LineDirective, Unlines, BlankLines, HeldBack, Here, There, Wrap, Min;
  }

  lemma {:induction false} NoGap(optLine: nat, curLine: nat)
    ensures Gap(false, optLine, curLine) == []
  {
  }

  lemma {:induction false} GapCatchesUp(o2: bool, ls: seq<string>)
    ensures var s := Run(o2, ls); CatchesUp(o2, ls, Gap(s.pending, s.optLine, s.curLine))
  {
    hide *;
    var s := Run(o2, ls);
    CountersAre(o2, ls);
    PendingIs(o2, ls);
    GapIsShortest(s.optLine, s.curLine);
    NoGap(s.optLine, s.curLine);
    CatchesUpIf(o2, ls, Gap(s.pending, s.optLine, s.curLine), Wrap(s.curLine - s.optLine),
        LineDirective(s.curLine, ""));
  }

  /** For every text and every next line. A blank line and a directive that says nothing new are not written. A
      directive that is needed is, with o2 alone, otherwise behind what catches up; program text is behind that. */
  lemma {:induction false} WhatIsWritten(o2: bool, ls: seq<string>, line: string)
    returns (gap: seq<string>)
    ensures CatchesUp(o2, ls, gap)
    ensures var (out, out') := (Run(o2, ls).out, Run(o2, ls + [line]).out);
            var file := ReadLines(false, Stripped(ls)).file;
            match Classify(StripCr(line))
            case Blank => out' == out
            case Text => out' == out + gap + [StripCr(line)]
            case Control(n, name) =>
              if !IsNeeded(o2, ls, n, name) then out' == out
              else
                var d := LineDirective(n, if name.None? || name.value == file then "" else name.value);
                out' == (if o2 then out else out + gap) + [d]
  {
    hide Run, Classify, LineDirective, Wrap, AfterWritten, StripCr, CatchesUp, Here, Gap, ReadLines, Stripped;
    var s := Run(o2, ls);
    gap := Gap(s.pending, s.optLine, s.curLine);
    GapCatchesUp(o2, ls);
    CountersAre(o2, ls);
    StepIs(o2, ls, line);
    FlushedGrows(s);
  }
}
