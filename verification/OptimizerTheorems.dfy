/** The optimiser keeps the meaning of the preprocessor output: exactly when, for all texts. */
module OptimizerTheorems {
  import opened Basics
  import opened LineControl
  import opened OptimizerSpec

  // ----- The two readings of empty names ------------------------------------

  predicate IsText(line: string) {
    Classify(line).Text?
  }

  predicate NamesAFile(line: string) {
    Classify(line).Control? && Classify(line).name.Some? && Classify(line).name.value != ""
  }

  predicate NamesNothing(line: string) {
    Classify(line).Control? && Classify(line).name == Some("")
  }

  ghost predicate EverNamed(ls: seq<string>) {
    exists j :: 0 <= j < |ls| && NamesAFile(ls[j])
  }

  /** The last directive with a name gives the empty name. */
  ghost predicate NameTakenAway(ls: seq<string>) {
    exists j :: 0 <= j < |ls| && NamesNothing(ls[j]) && forall k :: j < k < |ls| ==> !NamesAFile(ls[k])
  }

  /** No program text follows a directive that replaces a file name by the empty name. */
  ghost predicate NamesKept(ls: seq<string>) {
    forall k :: 0 <= k < |ls| && IsText(ls[k]) ==> !(EverNamed(ls[..k]) && NameTakenAway(ls[..k]))
  }

  lemma {:induction false} ReadSnoc(keep: bool, ls: seq<string>)
    requires ls != []
    ensures ReadLines(keep, ls) == ReadLine(keep, ReadLines(keep, ls[..|ls| - 1]), ls[|ls| - 1])
  {
    hide ReadLine;
  }

  lemma {:induction false} FileNames(ls: seq<string>)
    ensures var plain, kept := ReadLines(false, ls), ReadLines(true, ls);
            && |plain.events| == |kept.events| && plain.line == kept.line
            && (plain.file != "" ==> kept.file == plain.file)
            && (kept.file == "" <==> !EverNamed(ls))
            && (plain.file == "" <==> !EverNamed(ls) || NameTakenAway(ls))
  {
    if ls != [] {
      hide *;
      var init, line := ls[..|ls| - 1], ls[|ls| - 1];
      FileNames(init);
      ReadSnoc(false, ls);
      ReadSnoc(true, ls);
      assert init + [line] == ls;
      EverNamedSnoc(init, line);
      NameTakenAwaySnoc(init, line);
      FileNamesStep(ReadLines(false, init), ReadLines(true, init), line);
    }
  }

  lemma {:induction false} FileNamesStep(plain: Reader, kept: Reader, line: string)
    requires plain.line == kept.line && |plain.events| == |kept.events|
    requires plain.file != "" ==> kept.file == plain.file
    ensures var p, k := ReadLine(false, plain, line), ReadLine(true, kept, line);
            && p.line == k.line && |p.events| == |k.events| && (p.file != "" ==> k.file == p.file)
            && (k.file == "" <==> kept.file == "" && !NamesAFile(line))
            && (p.file == "" <==> NamesNothing(line) || (plain.file == "" && !NamesAFile(line)))
  {
    hide Classify, Wrap;
  }

  lemma {:induction false} EverNamedSnoc(init: seq<string>, line: string)
    ensures EverNamed(init + [line]) <==> EverNamed(init) || NamesAFile(line)
  {
    hide NamesAFile;
    var ls := init + [line];
    assert ls[|init|] == line && forall j :: 0 <= j < |init| ==> ls[j] == init[j];
    if EverNamed(init) {
      var j :| 0 <= j < |init| && NamesAFile(init[j]);
      assert NamesAFile(ls[j]);
    }
    if NamesAFile(line) {
      assert NamesAFile(ls[|init|]);
    }
  }

  lemma {:induction false} NameTakenAwaySnoc(init: seq<string>, line: string)
    ensures NameTakenAway(init + [line]) <==> NamesNothing(line) || (NameTakenAway(init) && !NamesAFile(line))
  {
    hide NamesAFile, NamesNothing;
    var ls := init + [line];
    assert ls[|init|] == line && forall j :: 0 <= j < |init| ==> ls[j] == init[j];
    if NamesNothing(line) {
      assert NamesNothing(ls[|init|]);
    }
    if NameTakenAway(init) && !NamesAFile(line) {
      var j :| 0 <= j < |init| && NamesNothing(init[j]) && forall k :: j < k < |init| ==> !NamesAFile(init[k]);
      assert NamesNothing(ls[j]);
    }
  }

  lemma {:induction false} NamesKeptSnoc(init: seq<string>, line: string)
    ensures NamesKept(init + [line]) <==>
              NamesKept(init) && (IsText(line) ==> !(EverNamed(init) && NameTakenAway(init)))
  {
    hide EverNamed, NameTakenAway, IsText;
    var ls := init + [line];
    assert ls[|init|] == line && ls[..|init|] == init;
    assert forall k :: 0 <= k < |init| ==> ls[k] == init[k] && ls[..k] == init[..k];
  }

  /** Both readings agree exactly on texts that never take a file name away. */
  lemma {:induction false} ReadingsAgree(ls: seq<string>)
    ensures ReadLines(false, ls).events == ReadLines(true, ls).events <==> NamesKept(ls)
  {
    hide *;
    if ls == [] {
      NothingToRead();
    } else {
      var init, line := ls[..|ls| - 1], ls[|ls| - 1];
      ReadingsAgree(init);
      assert init + [line] == ls;
      FileNames(init);
      ReadSnoc(false, ls);
      ReadSnoc(true, ls);
      NamesKeptSnoc(init, line);
      AgreeStep(ReadLines(false, init), ReadLines(true, init), line);
      FilesAgree(init);
    }
  }

  lemma {:induction false} NothingToRead()
    ensures ReadLines(false, []) == ReadLines(true, []) == START && NamesKept([])
  {
  }

  lemma {:induction false} FilesAgree(ls: seq<string>)
    ensures ReadLines(false, ls).file == ReadLines(true, ls).file <==> !(EverNamed(ls) && NameTakenAway(ls))
  {
    hide *;
    FileNames(ls);
  }

  lemma {:induction false} AgreeStep(p: Reader, q: Reader, line: string)
    requires p.line == q.line && |p.events| == |q.events|
    ensures ReadLine(false, p, line).events == ReadLine(true, q, line).events
       <==> p.events == q.events && (IsText(line) ==> p.file == q.file)
  {
    hide Classify, Wrap;
    SnocEqual(p.events, Event(line, p.file, p.line), q.events, Event(line, q.file, q.line));
  }

  lemma {:induction false} SnocEqual<T>(a: seq<T>, x: T, b: seq<T>, y: T)
    requires |a| == |b|
    ensures a + [x] == b + [y] <==> a == b && x == y
  {
    if a + [x] == b + [y] {
      assert (a + [x])[..|a|] == a && (b + [y])[..|b|] == b;
      assert (a + [x])[|a|] == x && (b + [y])[|b|] == y;
    }
  }

  // ----- The output as text ---------------------------------------------------

  /** Lines that carry no program text add nothing for the reader. */
  lemma {:induction false} NothingAdded(keep: bool, a: seq<string>, more: seq<string>)
    requires forall k :: 0 <= k < |more| ==> !IsText(more[k])
    ensures ReadLines(keep, a + more).events == ReadLines(keep, a).events
  {
    hide IsText, ReadLines, ReadLine;
    if more == [] {
      assert a + more == a;
    } else {
      var init, line := more[..|more| - 1], more[|more| - 1];
      NothingAdded(keep, a, init);
      assert a + more == (a + init) + [line];
      ReadAppend(keep, a + init, line);
      NoEvent(keep, ReadLines(keep, a + init), line);
    }
  }

  lemma {:induction false} NoEvent(keep: bool, r: Reader, line: string)
    requires !IsText(line)
    ensures ReadLine(keep, r, line).events == r.events
  {
    hide Classify;
  }

  lemma {:induction false} GapIsNotText(pending: bool, optLine: nat, curLine: nat)
    requires curLine < LINE_MOD
    ensures forall k :: 0 <= k < |Gap(pending, optLine, curLine)| ==> !IsText(Gap(pending, optLine, curLine)[k])
  {
    hide Classify, LineDirective;
    BlankIsBlank();
    ClassifyLineDirective(curLine, "");
  }

  lemma {:induction false} CurLineFits(o2: bool, ls: seq<string>)
    ensures Run(o2, ls).curLine < LINE_MOD && '"' !in Run(o2, ls).file
  {
    if ls != [] {
      hide Classify, Run, Flushed, LineDirective;
      CurLineFits(o2, ls[..|ls| - 1]);
      RunSnoc(o2, ls);
      NumbersFit(StripCr(ls[|ls| - 1]));
    }
  }

  /** What the ending writes after the complete lines carries no program text. */
  lemma {:induction false} EndingIsNotText(o2: bool, s: State, rest: string)
    requires s.curLine < LINE_MOD && '"' !in s.file && NoNewline(s.file) && AllNoNewline(s.out)
    requires NoNewline(rest)
    ensures var e := LastStep(o2, s, rest);
            && AllNoNewline(Flushed(e.s)) && NoNewline(e.tail)
            && s.out <= Flushed(e.s)
            && (forall k :: |s.out| <= k < |Flushed(e.s)| ==> !IsText(Flushed(e.s)[k]))
            && (e.tail != "" ==> !IsText(e.tail))
  {
    hide Classify, LineDirective, Gap;
    var e := LastStep(o2, s, rest);
    NumbersFit(rest);
    GapIsNotText(s.pending, s.optLine, s.curLine);
    GapIsNotText(e.s.pending, e.s.optLine, e.s.curLine);
    GapLines(s.pending, s.optLine, s.curLine);
    GapLines(e.s.pending, e.s.optLine, e.s.curLine);
    if Classify(rest).Control? {
      var n := Classify(rest).number;
      var file := NewName(false, s.file, Classify(rest).name);
      DirectiveHasNoNewline(n, if file == s.file then "" else file);
      ClassifyLineDirective(n, if file == s.file then "" else file);
    }
  }

  lemma {:induction false} GapLines(pending: bool, optLine: nat, curLine: nat)
    ensures AllNoNewline(Gap(pending, optLine, curLine))
  {
    DirectiveHasNoNewline(curLine, "");
  }

  /** Every text: the output is read as the lines written for the terminated lines of the input. */
  lemma {:induction false} OutputMeaning(o2: bool, text: string)
    ensures Meaning(Optimized(o2, text)) == ReadLines(false, Run(o2, SplitText(text).lines).out).events
  {
    hide Classify, ReadLines, Run, Flushed, LastStep, SplitText, Unlines, IsText;
    SplitIsInverse(text);
    var t := SplitText(text);
    var s := Run(o2, t.lines);
    OutputHasNoNewlines(o2, t.lines);
    CurLineFits(o2, t.lines);
    EndingIsNotText(o2, s, t.rest);
    var e := LastStep(o2, s, t.rest);
    var f := Flushed(e.s);
    SplitUnlines(f, e.tail);
    assert s.out + f[|s.out|..] == f;
    NothingAdded(false, s.out, f[|s.out|..]);
    if e.tail != "" {
      NothingAdded(false, f, [e.tail]);
    }
  }

  /** The last line has a newline, or carries no program text. */
  predicate LastLineOk(text: string) {
    !IsText(SplitText(text).rest)
  }

  /** The program text for a compiler that takes CR LF for the end of a line. */
  function CrLfMeaning(text: string): seq<Event> {
    var t := SplitText(text);
    ReadLines(false, Stripped(t.lines) + (if t.rest == "" then [] else [t.rest])).events
  }

  /** The main result. For every text, with CR LF and LF ends of lines, the optimiser preserves text, file and
      line of every program line if and only if the last line is terminated or carries no program text, no file
      name is taken away, and no line of program text is reached while uncounted lines count on one side only. */
  lemma {:induction false} CrLfMeaningPreserved(o2: bool, text: string)
    ensures var ls := SplitText(text).lines;
            Meaning(Optimized(o2, text)) == CrLfMeaning(text) <==>
              LastLineOk(text) && NamesKept(Stripped(ls)) && InPlace(o2, ls)
  {
    hide *;
    var t := SplitText(text);
    var ls := Stripped(t.lines);
    OutputMeaning(o2, text);
    CrLfInput(text);
    RunInStep(o2, t.lines);
    StepFacts(Run(o2, t.lines), Drifts(o2, t.lines), ReadLines(false, ls), ReadLines(true, ls),
        ReadLines(false, Run(o2, t.lines).out));
    ReadingsAgree(ls);
    SameLines(ls);
    BothWays(ReadLines(false, Run(o2, t.lines).out).events, ReadLines(true, ls).events, ReadLines(false, ls).events);
  }

  lemma {:induction false} StepFacts(s: State, d: Drift, input: Reader, kept: Reader, output: Reader)
    requires InStep(s, d, input, kept, output)
    ensures SameButLines(output.events, kept.events)
  {
    hide SameButLines;
  }

  /** The readings with and without empty names differ in nothing but files. */
  ghost predicate SameButFiles(a: seq<Event>, b: seq<Event>) {
    |a| == |b| && forall i :: 0 <= i < |a| ==> a[i].text == b[i].text && a[i].line == b[i].line
  }

  lemma {:induction false} SameLines(ls: seq<string>)
    ensures SameButFiles(ReadLines(false, ls).events, ReadLines(true, ls).events)
    ensures ReadLines(false, ls).line == ReadLines(true, ls).line
  {
    if ls != [] {
      hide ReadLines, Classify, Wrap;
      SameLines(ls[..|ls| - 1]);
      ReadSnoc(false, ls);
      ReadSnoc(true, ls);
    }
  }

  lemma {:induction false} BothWays(output: seq<Event>, kept: seq<Event>, plain: seq<Event>)
    requires SameButLines(output, kept) && SameButFiles(plain, kept)
    ensures output == plain <==> output == kept && plain == kept
    ensures |output| == |plain|
  {
    if output == plain {
      forall i | 0 <= i < |kept| ensures kept[i] == plain[i] {
        assert output[i] == plain[i];
      }
    }
  }

  lemma {:induction false} CrLfInput(text: string)
    ensures var t := SplitText(text);
            var r := ReadLines(false, Stripped(t.lines));
            && CrLfMeaning(text) == (if IsText(t.rest) then r.events + [Event(t.rest, r.file, r.line)] else r.events)
            && (LastLineOk(text) <==> !IsText(t.rest))
  {
    hide Classify, SplitText, ReadLines, Stripped;
    LastLineRead(Stripped(SplitText(text).lines), SplitText(text).rest);
  }

  lemma {:induction false} MeaningOfInput(text: string)
    ensures var t := SplitText(text);
            var r := ReadLines(false, t.lines);
            && Meaning(text) == (if IsText(t.rest) then r.events + [Event(t.rest, r.file, r.line)] else r.events)
            && (LastLineOk(text) <==> !IsText(t.rest))
  {
    hide Classify, SplitText, ReadLines;
    LastLineRead(SplitText(text).lines, SplitText(text).rest);
  }

  lemma {:induction false} LastLineRead(ls: seq<string>, rest: string)
    ensures var r := ReadLines(false, ls);
            ReadLines(false, if rest == "" then ls else ls + [rest]).events ==
            if IsText(rest) then r.events + [Event(rest, r.file, r.line)] else r.events
    ensures ls + [] == ls
  {
    hide Classify, ReadLines;
    BlankIsBlank();
    if rest != "" {
      ReadAppend(false, ls, rest);
      NoEventOrOne(ReadLines(false, ls), rest);
    }
  }

  lemma {:induction false} NoEventOrOne(r: Reader, line: string)
    ensures ReadLine(false, r, line).events ==
              if IsText(line) then r.events + [Event(line, r.file, r.line)] else r.events
  {
    hide Classify;
  }

  // ----- Byte for byte ----------------------------------------------------------------------

  /** The size of the program text. */
  function Weight(events: seq<Event>): nat {
    if events == [] then 0 else Weight(events[..|events| - 1]) + |events[|events| - 1].text| + 1
  }

  function LineWeight(ls: seq<string>): nat {
    if ls == [] then 0 else LineWeight(ls[..|ls| - 1]) + if IsText(ls[|ls| - 1]) then |ls[|ls| - 1]| + 1 else 0
  }

  lemma {:induction false} WeightRead(ls: seq<string>)
    ensures Weight(ReadLines(false, ls).events) == LineWeight(ls)
  {
    if ls != [] {
      hide Classify, ReadLines, Wrap, ReadLine;
      var init, line := ls[..|ls| - 1], ls[|ls| - 1];
      WeightRead(init);
      ReadSnoc(false, ls);
      NoEventOrOne(ReadLines(false, init), line);
      var r := ReadLines(false, init);
      assert (r.events + [Event(line, r.file, r.line)])[..|r.events|] == r.events;
    }
  }

  /** What ends in a carriage return is no directive. */
  lemma {:induction false} NoDirectiveInCr(line: string)
    requires EndsInCr(line)
    ensures !Classify(line).Control?
  {
    var i := SkipSpaces(line, 0);
    if i < |line| {
      var t := line[i..];
      assert t[|t| - 1] == '\r';
      NotParsed(t);
    }
  }

  lemma {:induction false} NotParsed(t: string)
    requires EndsInCr(t)
    ensures ParseDirective(t) == NotDirective
  {
    hide NumberOf;
  }

  lemma {:induction false} StripWeight(line: string)
    ensures IsText(StripCr(line)) ==> IsText(line)
    ensures EndsInCr(line) && Classify(line) != Blank ==> IsText(line) && |StripCr(line)| < |line|
    ensures !EndsInCr(line) ==> StripCr(line) == line
  {
    hide Classify;
    if EndsInCr(line) {
      NoDirectiveInCr(line);
      if Classify(line).Blank? {
        StripCrBlank(line);
      }
    }
  }

  lemma {:induction false} LineWeightSnoc(ls: seq<string>, line: string)
    ensures LineWeight(ls + [line]) == LineWeight(ls) + if IsText(line) then |line| + 1 else 0
  {
    hide IsText;
    assert (ls + [line])[..|ls|] == ls;
  }

  lemma {:induction false} NoCrLfSnoc(ls: seq<string>, line: string)
    ensures NoCrLf(ls + [line]) <==> NoCrLf(ls) && (EndsInCr(line) ==> Classify(line).Blank?)
  {
    hide Classify, EndsInCr;
    var more := ls + [line];
    assert more[|ls|] == line && forall k :: 0 <= k < |ls| ==> more[k] == ls[k];
  }

  /** Stripping makes the program text smaller, unless there is nothing to strip. */
  lemma {:induction false} StrippedWeight(ls: seq<string>)
    ensures LineWeight(Stripped(ls)) <= LineWeight(ls)
    ensures !NoCrLf(ls) ==> LineWeight(Stripped(ls)) < LineWeight(ls)
  {
    if ls == [] {
      assert Stripped(ls) == [];
    } else {
      var init, line := ls[..|ls| - 1], ls[|ls| - 1];
      hide *;
      StrippedWeight(init);
      StrippedSnoc(ls);
      StripWeight(line);
      assert init + [line] == ls;
      LineWeightSnoc(init, line);
      LineWeightSnoc(Stripped(init), StripCr(line));
      NoCrLfSnoc(init, line);
    }
  }

  /** Where nothing but blank lines end in a carriage return, stripping changes nothing. */
  lemma {:induction false} StrippedReads(keep: bool, ls: seq<string>)
    requires NoCrLf(ls)
    ensures ReadLines(keep, Stripped(ls)) == ReadLines(keep, ls)
  {
    if ls == [] {
      assert Stripped(ls) == [];
    } else {
      var init, line := ls[..|ls| - 1], ls[|ls| - 1];
      StrippedReads(keep, init);
      StrippedSnoc(ls);
      if EndsInCr(line) {
        StripCrBlank(line);
      }
      hide Stripped, ReadLines, Classify;
      ReadAppend(keep, Stripped(init), StripCr(line));
      ReadSnoc(keep, ls);
    }
  }

  lemma {:induction false} NoDrift(o2: bool, ls: seq<string>)
    requires NoCrLf(ls)
    ensures Drifts(o2, ls) == Drift(0, 0) && InPlace(o2, ls)
  {
    if ls != [] {
      var init, line := ls[..|ls| - 1], ls[|ls| - 1];
      NoDrift(o2, init);
      InPlaceSnoc(o2, ls);
      DriftsSnoc(o2, ls);
      if EndsInCr(line) {
        StripCrBlank(line);
      }
      hide Classify, Run, Drifts, InPlace, Collapsed;
    }
  }

  /** Byte for byte: the optimiser preserves the exact text, file and line of every program line if and only if
      no such line ends in CR LF, the last one is terminated, and no file name is taken away. */
  lemma {:induction false} MeaningPreserved(o2: bool, text: string)
    ensures var ls := SplitText(text).lines;
            Meaning(Optimized(o2, text)) == Meaning(text) <==> NoCrLf(ls) && LastLineOk(text) && NamesKept(ls)
  {
    hide *;
    var t := SplitText(text);
    var ls := t.lines;
    MeaningOfInput(text);
    if NoCrLf(ls) {
      CrLfMeaningPreserved(o2, text);
      CrLfInput(text);
      StrippedReads(false, ls);
      StrippedReads(true, ls);
      ReadingsAgree(ls);
      ReadingsAgree(Stripped(ls));
      NoDrift(o2, ls);
    } else {
      OutputMeaning(o2, text);
      OutputWeight(o2, ls);
      StrippedWeight(ls);
      WeightRead(ls);
      var r := ReadLines(false, ls);
      OneHeavier(r.events, Event(t.rest, r.file, r.line));
    }
  }

  lemma {:induction false} OneHeavier(a: seq<Event>, x: Event)
    ensures Weight(a + [x]) > Weight(a)
  {
    assert (a + [x])[..|a|] == a;
  }

  /** The output has the program text of the stripped lines, and no more. */
  lemma {:induction false} OutputWeight(o2: bool, ls: seq<string>)
    ensures Weight(ReadLines(false, Run(o2, ls).out).events) == LineWeight(Stripped(ls))
  {
    hide *;
    RunInStep(o2, ls);
    var out, kept, plain :=
          ReadLines(false, Run(o2, ls).out), ReadLines(true, Stripped(ls)), ReadLines(false, Stripped(ls));
    StepFacts(Run(o2, ls), Drifts(o2, ls), plain, kept, out);
    SameLines(Stripped(ls));
    WeightRead(Stripped(ls));
    SameText(out.events, kept.events, plain.events);
    SameWeight(out.events, plain.events);
  }

  lemma {:induction false} SameText(a: seq<Event>, b: seq<Event>, c: seq<Event>)
    requires SameButLines(a, b) && SameButFiles(c, b)
    ensures |a| == |c| && forall i :: 0 <= i < |a| ==> a[i].text == c[i].text
  {
  }

  lemma {:induction false} SameWeight(a: seq<Event>, b: seq<Event>)
    requires |a| == |b| && forall i :: 0 <= i < |a| ==> a[i].text == b[i].text
    ensures Weight(a) == Weight(b)
  {
    if a != [] {
      SameWeight(a[..|a| - 1], b[..|b| - 1]);
    }
  }

  // ----- A line that is lost -------------------------------------------------------------------

  lemma {:induction false} Letters()
    ensures Classify("a") == Classify("b") == Classify("a\r") == Text
    ensures Classify("#line 1") == Control(1, None)
  {
    assert "a"[0..] == "a" && "b"[0..] == "b" && "a\r"[0..] == "a\r";
    assert Decimal(1) == "1";
    ClassifyLineDirective(1, "");
    assert LineDirective(1, "") == "#line 1";
  }

  lemma {:induction false} CrLfSteps(o2: bool)
    ensures var s1 := State(["a"], false, 1, 1, "");
            && Step(o2, INITIAL, "a\r") == s1 && DriftAfter(INITIAL, Drift(0, 0), "a\r") == Drift(1, 1)
            && Step(o2, s1, "#line 1") == State(["a"], true, 1, 1, "")
            && DriftAfter(s1, Drift(1, 1), "#line 1") == Drift(0, 1)
    ensures !SameDrift(State(["a"], true, 1, 1, ""), Drift(0, 1), "b")
  {
    Letters();
    hide Classify, LineDirective;
    assert StripCr("a\r") == "a" && StripCr("b") == "b" && Gap(false, 1, 1) == [] && [] + [] + ["a"] == ["a"];
  }

  /** A line written with CR LF is not counted; a directive back to its own line is dropped then, and the next
      line moves. */
  lemma {:induction false} CrLfLosesALine(o2: bool)
    ensures Meaning(Optimized(o2, "a\r\n#line 1\nb\n")) != CrLfMeaning("a\r\n#line 1\nb\n")
  {
    var text, ls := "a\r\n#line 1\nb\n", ["a\r", "#line 1", "b"];
    OnLines(text, ls);
    assert ls[..2] == ["a\r", "#line 1"] && ls[..2][..1] == ["a\r"] && ls[..2][..1][..0] == [];
    hide *;
    CrLfSteps(o2);
    RunSnoc(o2, ls[..2]);
    RunSnoc(o2, ls[..2][..1]);
    DriftsSnoc(o2, ls[..2]);
    DriftsSnoc(o2, ls[..2][..1]);
    AtTheStart(o2);
    NotInPlace(o2, ls, 2);
    CrLfMeaningPreserved(o2, text);
  }

  lemma {:induction false} NotInPlace(o2: bool, ls: seq<string>, k: nat)
    requires k < |ls| && !SameDrift(Run(o2, ls[..k]), Drifts(o2, ls[..k]), ls[k])
    ensures !InPlace(o2, ls)
  {
    hide SameDrift, Run, Drifts;
  }

  lemma {:induction false} AtTheStart(o2: bool)
    ensures Run(o2, []) == INITIAL && Drifts(o2, []) == Drift(0, 0)
  {
  }

  lemma {:induction false} OnLines(text: string, ls: seq<string>)
    requires text == "a\r\n#line 1\nb\n" && ls == ["a\r", "#line 1", "b"]
    ensures SplitText(text) == Split(ls, "")
  {
    assert ls[1..] == ["#line 1", "b"] && ls[1..][1..] == ["b"] && ls[1..][1..][1..] == [];
    assert Unlines(ls[1..][1..]) == "b\n";
    assert Unlines(ls[1..]) == "#line 1\nb\n";
    assert Unlines(ls) + "" == text;
    SplitUnlines(ls, "");
  }
}
