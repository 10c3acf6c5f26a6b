/** What the preprocessor output optimiser does to one line at a time, and what that
    means to the compiler reading the result. */
module OptimizerSpec {
  import opened Basics
  import opened LineControl

  /** The lines written so far, whether blank lines are still held back, the line number
      the output has reached, the line number of the next input line, the current file. */
  datatype State = State(out: seq<string>, pending: bool, optLine: nat, curLine: nat, file: string)

  const INITIAL := State([], false, 1, 1, "")

  predicate EndsInCr(line: string) {
    line != "" && line[|line| - 1] == '\r'
  }

  function StripCr(line: string): string {
    if EndsInCr(line) then line[..|line| - 1] else line
  }

  function BlankLines(n: nat): (ls: seq<string>)
    ensures |ls| == n && forall k :: 0 <= k < n ==> ls[k] == ""
  {
    seq(n, i => "")
  }

  /** What stands in for the blank lines held back: themselves, or a directive when that is shorter. */
  function Gap(pending: bool, optLine: nat, curLine: nat): seq<string> {
    if !pending then []
    else
      var n := Wrap(curLine - optLine);
      if n <= 7 || |LineDirective(curLine, "")| + 1 >= n then BlankLines(n)
      else [LineDirective(curLine, "")]
  }

  function Flushed(s: State): seq<string> {
    s.out + Gap(s.pending, s.optLine, s.curLine)
  }

  /** The line number after a line that was written out; a CRLF line is not counted. */
  function AfterWritten(line: string, n: nat): nat {
    if EndsInCr(line) then Wrap(n) else Wrap(n + 1)
  }

  function Step(o2: bool, s: State, line: string): State {
    match Classify(StripCr(line))
    case Blank => s.(pending := true, curLine := Wrap(s.curLine + 1))
    case Control(n, f) =>
      var file := NewName(false, s.file, f);
      if file == s.file && n >= s.curLine then s.(pending := true, curLine := Wrap(n))
      else
        var d := LineDirective(n, if file == s.file then "" else file);
        var cur := AfterWritten(line, Wrap(n - 1));
        State((if o2 then s.out else Flushed(s)) + [d], false, cur, cur, file)
    case Text =>
      var cur := AfterWritten(line, s.curLine);
      State(Flushed(s) + [StripCr(line)], false, cur, cur, s.file)
  }

  function RunFrom(o2: bool, s: State, ls: seq<string>): State {
    if ls == [] then s else Step(o2, RunFrom(o2, s, ls[..|ls| - 1]), ls[|ls| - 1])
  }

  function Run(o2: bool, ls: seq<string>): State {
    RunFrom(o2, INITIAL, ls)
  }

  /** After an unterminated last line has been seen: the state, and text without a newline. */
  datatype Ending = Ending(s: State, tail: string)

  function LastStep(o2: bool, s: State, rest: string): Ending {
    var i := SkipSpaces(rest, 0);
    if i == |rest| then Ending(s, "")
    else if rest[i] != '#' then Ending(if |rest| - i == 1 then s else s.(out := Flushed(s), pending := false), "")
    else if |rest| - i == 1 then Ending(s, "")
    else
      match Classify(rest)
      case Control(n, f) =>
        var file := NewName(false, s.file, f);
        if file == s.file && n >= s.curLine then Ending(s.(pending := true, curLine := Wrap(n - 1)), "")
        else
          var d := LineDirective(n, if file == s.file then "" else file);
          Ending(State(if o2 then s.out else Flushed(s), false, s.optLine, Wrap(n - 1), file), d)
      case _ => Ending(s.(out := Flushed(s), pending := true), "")
  }

  /** The complete output for a text. */
  function Optimized(o2: bool, text: string): string {
    var t := SplitText(text);
    var e := LastStep(o2, Run(o2, t.lines), t.rest);
    Unlines(Flushed(e.s)) + e.tail
  }

  // ----- The output read back ---------------------------------------------

  /** No line that is not blank ends in CR LF. */
  predicate NoCrLf(ls: seq<string>) {
    forall k :: 0 <= k < |ls| ==> EndsInCr(ls[k]) ==> Classify(ls[k]).Blank?
  }

  lemma {:induction false} ReadAppend(keep: bool, a: seq<string>, line: string)
    ensures ReadLines(keep, a + [line]) == ReadLine(keep, ReadLines(keep, a), line)
  {
    assert (a + [line])[..|a|] == a;
  }

  lemma {:induction false} BlankIsBlank()
    ensures Classify("") == Blank
  {
  }

  lemma {:induction false} WrapStep(x: nat, n: nat)
    ensures Wrap(Wrap(x + n) + 1) == Wrap(x + n + 1)
  {
  }

  lemma {:induction false} ReadKnownBlank(keep: bool, r: Reader, line: string)
    requires Classify(line) == Blank
    ensures ReadLine(keep, r, line) == r.(line := Wrap(r.line + 1))
  {
    hide Classify;
  }

  lemma {:induction false} BlankLinesMore(n: nat)
    requires n > 0
    ensures BlankLines(n) == BlankLines(n - 1) + [""]
  {
  }

  lemma {:induction false} ReadBlankLines(keep: bool, a: seq<string>, n: nat)
    requires ReadLines(keep, a).line < LINE_MOD
    ensures ReadLines(keep, a + BlankLines(n)) == ReadLines(keep, a).(line := Wrap(ReadLines(keep, a).line + n))
  {
    hide *;
    if n == 0 {
      assert a + BlankLines(0) == a;
      WrapSmall(ReadLines(keep, a).line);
    } else {
      ReadBlankLines(keep, a, n - 1);
      BlankLinesMore(n);
      assert a + BlankLines(n) == (a + BlankLines(n - 1)) + [""];
      ReadAppend(keep, a + BlankLines(n - 1), "");
      BlankIsBlank();
      ReadKnownBlank(keep, ReadLines(keep, a + BlankLines(n - 1)), "");
      WrapStep(ReadLines(keep, a).line, n - 1);
    }
  }

  lemma {:induction false} WrapSmall(n: nat)
    requires n < LINE_MOD
    ensures Wrap(n) == n
  {
  }

  lemma {:induction false} WrapAdd(a: int, b: int)
    ensures Wrap(Wrap(a) + b) == Wrap(a + b)
  {
  }

  /** Counting on modulo 2^32. */
  lemma {:induction false} WrapGap(opt: nat, cur: nat, drift: nat)
    requires opt < LINE_MOD && cur < LINE_MOD && drift < LINE_MOD
    ensures Wrap(Wrap(opt + drift) + Wrap(cur - opt)) == Wrap(cur + drift)
  {
    hide Wrap;
    WrapAdd(opt + drift, Wrap(cur - opt));
    WrapAdd(cur - opt, opt + drift);
  }

  lemma {:induction false} ReadDirective(keep: bool, r: Reader, n: nat, file: string)
    requires n < LINE_MOD && '"' !in file
    ensures ReadLine(keep, r, LineDirective(n, file)) == r.(file := if file == "" then r.file else file, line := n)
  {
    hide Classify, LineDirective;
    ClassifyLineDirective(n, file);
  }

  /** CR LF counts as one end of a line. */
  function Stripped(ls: seq<string>): (r: seq<string>)
    ensures |r| == |ls|
  {
    seq(|ls|, i requires 0 <= i < |ls| => StripCr(ls[i]))
  }

  /** How far the readers of input and output are ahead of the state's line numbers: by the lines written
      with CR LF since the last directive, which are not counted. */
  datatype Drift = Drift(input: nat, output: nat)

  /** The blank lines held back are replaced by a directive. */
  predicate Collapsed(s: State) {
    s.pending && var n := Wrap(s.curLine - s.optLine); n > 7 && |LineDirective(s.curLine, "")| + 1 < n
  }

  /** A directive in the output takes its reader to the line number of the state. */
  function FlushedDrift(s: State, drift: nat): nat {
    if Collapsed(s) then 0 else drift
  }

  function DriftAfter(s: State, d: Drift, line: string): Drift {
    var k := if EndsInCr(line) then 1 else 0;
    match Classify(StripCr(line))
    case Blank => d
    case Control(n, f) =>
      if NewName(false, s.file, f) == s.file && n >= s.curLine then Drift(0, d.output) else Drift(k, k)
    case Text => Drift(Wrap(d.input + k), Wrap(FlushedDrift(s, d.output) + k))
  }

  function Drifts(o2: bool, ls: seq<string>): Drift {
    if ls == [] then Drift(0, 0)
    else DriftAfter(Run(o2, ls[..|ls| - 1]), Drifts(o2, ls[..|ls| - 1]), ls[|ls| - 1])
  }

  /** Both readers come to this line with the same number. */
  predicate SameDrift(s: State, d: Drift, line: string) {
    Classify(StripCr(line)).Text? ==> d.input == FlushedDrift(s, d.output)
  }

  /** No program text is reached while the readers of input and output are ahead by different numbers: after
      an uncounted line a directive of the input has been dropped, or blank lines have become a directive. */
  predicate InPlace(o2: bool, ls: seq<string>) {
    forall k :: 0 <= k < |ls| ==> SameDrift(Run(o2, ls[..k]), Drifts(o2, ls[..k]), ls[k])
  }

  /** Flushing brings the reader of the output as far ahead of the current line as it was of the last. */
  lemma {:induction false} ReadFlushed(s: State, drift: nat)
    requires s.optLine < LINE_MOD && s.curLine < LINE_MOD && drift < LINE_MOD
    requires ReadLines(false, s.out).line == Wrap(s.optLine + drift)
    requires !s.pending ==> s.optLine == s.curLine
    ensures ReadLines(false, Flushed(s)) == ReadLines(false, s.out).(line := Wrap(s.curLine + FlushedDrift(s, drift)))
  {
    hide Wrap, ReadLines, ReadLine, BlankLines, LineDirective, Classify;
    var n := Wrap(s.curLine - s.optLine);
    ReadBlankLines(false, s.out, n);
    WrapGap(s.optLine, s.curLine, drift);
    ReadAppend(false, s.out, LineDirective(s.curLine, ""));
    ReadDirective(false, ReadLines(false, s.out), s.curLine, "");
    WrapSmall(s.curLine);
    if !s.pending {
      assert Flushed(s) == s.out;
    }
  }

  lemma {:induction false} NumbersFit(line: string)
    ensures Classify(line).Control? ==> Classify(line).number < LINE_MOD
    ensures Classify(line).Control? && Classify(line).name.Some? ==> '"' !in Classify(line).name.value
    ensures Classify(line).Control? && Classify(line).name.Some? && NoNewline(line) ==>
              '\n' !in Classify(line).name.value
  {
    var t := line[SkipSpaces(line, 0)..];
    if Classify(line).Control? {
      var i := SkipBlanks(t, 1);
      var k := if HasLineWord(t, i) then SkipBlanks(t, i + 5) else i;
      assert ParseDirective(t) == ParseNumber(t, k);
      var j := SkipDigits(t, k);
      var m := SkipBlanks(t, j);
    }
  }

  /** The same program text from the same files, though perhaps from other lines. */
  ghost predicate SameButLines(a: seq<Event>, b: seq<Event>) {
    |a| == |b| && forall i :: 0 <= i < |a| ==> a[i].text == b[i].text && a[i].file == b[i].file
  }

  /** The state is in step with the input (read with and without empty names) and the output. */
  ghost predicate InStep(s: State, d: Drift, input: Reader, kept: Reader, output: Reader) {
    && s.optLine < LINE_MOD && s.curLine < LINE_MOD && d.input < LINE_MOD && d.output < LINE_MOD
    && (!s.pending ==> s.optLine == s.curLine)
    && '"' !in s.file
    && s.file == input.file && (s.file != "" ==> kept.file == s.file) && output.file == kept.file
    && input.line == kept.line == Wrap(s.curLine + d.input) && output.line == Wrap(s.optLine + d.output)
    && SameButLines(output.events, kept.events)
  }

  lemma {:induction false} RunInStep(o2: bool, ls: seq<string>)
    ensures var kept, output := ReadLines(true, Stripped(ls)), ReadLines(false, Run(o2, ls).out);
            && InStep(Run(o2, ls), Drifts(o2, ls), ReadLines(false, Stripped(ls)), kept, output)
            && (output.events == kept.events <==> InPlace(o2, ls))
  {
    if ls == [] {
      assert Stripped(ls) == [];
    } else {
      var init, line := ls[..|ls| - 1], ls[|ls| - 1];
      RunInStep(o2, init);
      InPlaceSnoc(o2, ls);
      hide *;
      RunSnoc(o2, ls);
      DriftsSnoc(o2, ls);
      StrippedSnoc(ls);
      ReadAppend(false, Stripped(init), StripCr(line));
      ReadAppend(true, Stripped(init), StripCr(line));
      StepInStep(o2, Run(o2, init), Drifts(o2, init), ReadLines(false, Stripped(init)), ReadLines(true, Stripped(init)),
          line);
    }
  }

  lemma {:induction false} StrippedSnoc(ls: seq<string>)
    requires ls != []
    ensures Stripped(ls) == Stripped(ls[..|ls| - 1]) + [StripCr(ls[|ls| - 1])]
  {
    hide StripCr;
  }

  lemma {:induction false} DriftsSnoc(o2: bool, ls: seq<string>)
    requires ls != []
    ensures Drifts(o2, ls) == DriftAfter(Run(o2, ls[..|ls| - 1]), Drifts(o2, ls[..|ls| - 1]), ls[|ls| - 1])
  {
    hide DriftAfter, Run;
  }

  lemma {:induction false} InPlaceSnoc(o2: bool, ls: seq<string>)
    requires ls != []
    ensures var init := ls[..|ls| - 1];
            InPlace(o2, ls) <==> InPlace(o2, init) && SameDrift(Run(o2, init), Drifts(o2, init), ls[|ls| - 1])
  {
    hide SameDrift, Run, Drifts;
    var init := ls[..|ls| - 1];
    assert forall k :: 0 <= k < |init| ==> init[..k] == ls[..k] && init[k] == ls[k];
  }

  /** One line keeps everything in step, and shows the same number to both readers exactly if the drifts agree. */
  lemma {:induction false} StepInStep(o2: bool, s: State, d: Drift, input: Reader, kept: Reader, line: string)
    requires InStep(s, d, input, kept, ReadLines(false, s.out))
    ensures var s' := Step(o2, s, line);
            var kept', output' := ReadLine(true, kept, StripCr(line)), ReadLines(false, s'.out);
            && InStep(s', DriftAfter(s, d, line), ReadLine(false, input, StripCr(line)), kept', output')
            && (output'.events == kept'.events <==>
                ReadLines(false, s.out).events == kept.events && SameDrift(s, d, line))
  {
    hide *;
    match Classify(StripCr(line))
    case Blank =>
      BlankInStep(o2, s, d, input, kept, line);
    case Text =>
      TextInStep(o2, s, d, input, kept, line);
    case Control(n, f) =>
      ControlInStep(o2, s, d, input, kept, line);
  }

  lemma {:induction false} BlankInStep(o2: bool, s: State, d: Drift, input: Reader, kept: Reader, line: string)
    requires InStep(s, d, input, kept, ReadLines(false, s.out)) && Classify(StripCr(line)) == Blank
    ensures var s' := Step(o2, s, line);
            var kept' := ReadLine(true, kept, StripCr(line));
            && InStep(s', DriftAfter(s, d, line), ReadLine(false, input, StripCr(line)), kept',
                ReadLines(false, s'.out))
            && s'.out == s.out && kept'.events == kept.events && SameDrift(s, d, line)
  {
    hide Classify, ReadLines, Wrap, SameButLines, StripCr;
    CountOn(s.curLine, d.input, 1);
  }

  /** Counting one line on both sides, or on one of them only. */
  lemma {:induction false} CountOn(line: nat, drift: nat, k: nat)
    requires line < LINE_MOD && drift < LINE_MOD && k <= 1
    ensures Wrap(Wrap(line + drift) + 1) == Wrap(Wrap(line + k) + Wrap(drift + (1 - k)))
    ensures Wrap(drift) == drift
  {
    WrapSmall(drift);
    hide Wrap;
    WrapAdd(line + drift, 1);
    WrapAdd(line + k, Wrap(drift + (1 - k)));
    WrapAdd(drift + (1 - k), line + k);
  }

  lemma {:induction false} SameLine(line: nat, a: nat, b: nat)
    requires line < LINE_MOD && a < LINE_MOD && b < LINE_MOD
    ensures Wrap(line + a) == Wrap(line + b) <==> a == b
  {
  }

  lemma {:induction false} TextInStep(o2: bool, s: State, d: Drift, input: Reader, kept: Reader, line: string)
    requires InStep(s, d, input, kept, ReadLines(false, s.out)) && Classify(StripCr(line)) == Text
    ensures var s' := Step(o2, s, line);
            var kept', output' := ReadLine(true, kept, StripCr(line)), ReadLines(false, s'.out);
            && InStep(s', DriftAfter(s, d, line), ReadLine(false, input, StripCr(line)), kept', output')
            && (output'.events == kept'.events <==>
                ReadLines(false, s.out).events == kept.events && SameDrift(s, d, line))
  {
    hide Classify, ReadLines, Wrap, Flushed, Collapsed, StripCr, EndsInCr, SameButLines;
    var gap, output := FlushedDrift(s, d.output), ReadLines(false, s.out);
    ReadFlushed(s, d.output);
    ReadAppend(false, Flushed(s), StripCr(line));
    CountOn(s.curLine, d.input, if EndsInCr(line) then 0 else 1);
    CountOn(s.curLine, gap, if EndsInCr(line) then 0 else 1);
    WrapSmall(s.curLine);
    SameLine(s.curLine, d.input, gap);
    var text := StripCr(line);
    OneMoreEvent(output.events, Event(text, output.file, Wrap(s.curLine + gap)), kept.events,
        Event(text, kept.file, kept.line));
  }

  lemma {:induction false} OneMoreEvent(a: seq<Event>, x: Event, b: seq<Event>, y: Event)
    requires SameButLines(a, b) && x.text == y.text && x.file == y.file
    ensures SameButLines(a + [x], b + [y]) && (a + [x] == b + [y] <==> a == b && x.line == y.line)
  {
    if a + [x] == b + [y] {
      assert a == (a + [x])[..|a|] == (b + [y])[..|b|] == b && x == (a + [x])[|a|] == y;
    }
  }

  lemma {:induction false} ControlInStep(o2: bool, s: State, d: Drift, input: Reader, kept: Reader, line: string)
    requires InStep(s, d, input, kept, ReadLines(false, s.out)) && Classify(StripCr(line)).Control?
    ensures var s' := Step(o2, s, line);
            var kept', output' := ReadLine(true, kept, StripCr(line)), ReadLines(false, s'.out);
            && InStep(s', DriftAfter(s, d, line), ReadLine(false, input, StripCr(line)), kept', output')
            && output'.events == ReadLines(false, s.out).events && kept'.events == kept.events && SameDrift(s, d, line)
  {
    hide Classify, ReadLines, Flushed, LineDirective, Wrap, Collapsed, StripCr, EndsInCr, SameButLines;
    NumbersFit(StripCr(line));
    ReadFlushed(s, d.output);
    var n := Classify(StripCr(line)).number;
    var file := NewName(false, s.file, Classify(StripCr(line)).name);
    WrapSmall(n);
    WrapPredecessor(n);
    var base := if o2 then s.out else Flushed(s);
    var name := if file == s.file then "" else file;
    ReadAppend(false, base, LineDirective(n, name));
    ReadDirective(false, ReadLines(false, base), n, name);
  }

  lemma {:induction false} WrapPredecessor(n: nat)
    requires n < LINE_MOD
    ensures Wrap(Wrap(n - 1) + 1) == n && Wrap(Wrap(n - 1)) == Wrap(n - 1) && Wrap(n + 0) == n
  {
  }

  lemma {:induction false} StripCrBlank(line: string)
    requires Classify(line).Blank?
    ensures Classify(StripCr(line)).Blank?
  {
    var t := StripCr(line);
    assert forall k :: 0 <= k < |t| ==> t[k] == line[k];
  }

  // ----- Whole texts --------------------------------------------------------

  lemma {:induction false} RunSnoc(o2: bool, ls: seq<string>)
    requires ls != []
    ensures Run(o2, ls) == Step(o2, Run(o2, ls[..|ls| - 1]), ls[|ls| - 1])
  {
    hide Step;
  }

  lemma {:induction false} DirectiveHasNoNewline(n: nat, file: string)
    requires NoNewline(file)
    ensures NoNewline(LineDirective(n, file))
  {
  }

  lemma {:induction false} FlushedHasNoNewlines(s: State)
    requires AllNoNewline(s.out)
    ensures AllNoNewline(Flushed(s))
  {
    DirectiveHasNoNewline(s.curLine, "");
  }

  lemma {:induction false} OutputHasNoNewlines(o2: bool, ls: seq<string>)
    requires AllNoNewline(ls)
    ensures AllNoNewline(Run(o2, ls).out) && NoNewline(Run(o2, ls).file)
  {
    if ls != [] {
      var init, line := ls[..|ls| - 1], ls[|ls| - 1];
      OutputHasNoNewlines(o2, init);
      var s := Run(o2, init);
      hide Classify, LineDirective, Run;
      assert Run(o2, ls) == Step(o2, s, line) by { RunSnoc(o2, ls); }
      assert NoNewline(line);
      FlushedHasNoNewlines(s);
      NumbersFit(StripCr(line));
      if Classify(StripCr(line)).Control? {
        var n := Classify(StripCr(line)).number;
        var file := NewName(false, s.file, Classify(StripCr(line)).name);
        DirectiveHasNoNewline(n, if file == s.file then "" else file);
      }
    }
  }
}
