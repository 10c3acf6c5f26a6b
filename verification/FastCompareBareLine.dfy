/** Why the fast comparison needs texts without a "#line" that is the last thing on its line. */
module FastCompareBareLine {
  import opened Basics
  import opened FastCompare

  // Two texts that differ in an empty line behind such a "#line", where the number is looked for.

  function First(): string {
    "\r#line\n5 x\n"
  }

  function Second(): string {
    "\r#line\n\n5 x\n"
  }

  lemma {:induction false} TextsAre()
    ensures |First()| == 11 && |Second()| == 12 && First()[..7] == Second()[..7] == "\r#line\n"
    ensures First()[7] == '5' && Second()[7] == '\n' && First()[6] == '\n' && First()[10] == '\n'
    ensures Second()[11] == '\n'
    ensures First()[7..] == "5 x\n" && Second()[7..] == "\n5 x\n"
    ensures forall k :: 0 <= k < 8 && k != 1 ==> First()[k] != '#' && Second()[k] != '#'
    ensures First()[0] == Second()[0] == '\r'
  {
  }

  /** No line statement starts behind white space that is no blank. */
  lemma {:induction false} NoFile(a: string, n: nat, iLine: nat)
    requires n <= |a| && n <= 8 && 1 < |a| && !IsBlank(a[0]) && a[0] != '\n'
    requires forall k :: 0 <= k < n && k != 1 ==> a[k] != '#'
    ensures FindFile(a, n, iLine) == None
  {
    if n > 0 {
      NoFile(a, n - 1, iLine);
      NoFile(a, n - 1, Inc(iLine));
      assert n == 2 ==> !BlankBefore(a, n - 1);
    }
  }

  /** The last line is significant; the empty line in front of it is skipped. */
  lemma {:induction false} LastLine()
    ensures KindOf("5 x\n") == Significant && LineLen("5 x\n") == 4 && DropLine("5 x\n") == []
    ensures KindOf("\n5 x\n") == Blank && SkipFrom(Skip("5 x\n", 0, None, 0)) == Skip("5 x\n", 0, None, 0)
    ensures SkipFrom(Skip("\n5 x\n", 0, None, 0)) == Skip("5 x\n", 1, None, 0)
  {
    assert "5 x\n"[1..] == " x\n" && " x\n"[1..] == "x\n" && "x\n"[1..] == "\n";
    assert "\n5 x\n"[1..] == "5 x\n";
    assert SkipStep(Skip("\n5 x\n", 0, None, 0)) == Skip("5 x\n", 1, None, 0);
  }

  lemma {:induction false} StartIs(a: string)
    requires |a| > 7 && a[6] == '\n'
    ensures LineStart(a, 7) == 7
  {
  }

  /** Behind the lines they share, the comparison goes on to the ends. */
  lemma {:induction false} Goes()
    ensures |First()| == 11 && |Second()| == 12 && LineStart(First(), 7) == 7
    ensures Resume(First(), Second(), 7, 7) == Go(11, 12)
  {
    hide First, Second, FindFile, SkipFrom, LineLen, LineStart, SameName, KindOf;
    TextsAre();
    StartIs(First());
    LastLine();
    NoFile(First(), 8, 0);
    NoFile(Second(), 8, 1);
  }

  lemma {:induction false} AtTheEnds(a: string, b: string)
    requires Ended(a)
    ensures InStep(a, b, |a|, |b|) && Round(a, b, |a|, |b|) == Done(true)
  {
    assert Common(a[|a|..], b[|b|..]) == 0;
  }

  lemma {:induction false} NotSameBlock(a: string, b: string, n: nat)
    requires n < |a| < 100 && n < |b| < 100 && a[n] != b[n]
    ensures !SameBlock(a, b, 0, 0)
  {
    var cch := Block(a, b, 0, 0);
    assert a[0..cch][n] != b[0..cch][n];
  }

  lemma {:induction false} EndedIs(a: string)
    requires a != [] && a[|a| - 1] == '\n'
    ensures Ended(a)
  {
  }

  lemma {:induction false} Matches()
    ensures var a, b := First(), Second(); Ended(a) && InStep(a, b, 0, 0) && Compared(a, b, 0, 0)
  {
    hide *;
    var a, b := First(), Second();
    TextsAre();
    Goes();
    EndedIs(a);
    Begin(a, b);
    NotSameBlock(a, b, 7);
    RoundDiffers(a, b, 0, 0);
    assert a[0..] == a && b[0..] == b;
    CommonIs(a, b, 7);
    ComparedRound(a, b, 0, 0);
    AtTheEnds(a, b);
    ComparedRound(a, b, 11, 12);
  }

  /** The shared line is a statement only if a number follows on the next one. */
  lemma {:induction false} SharedLine()
    ensures var x := "\r#line\n";
            Ended(x) && LineLen(x) == |x| && DropLine(x) == [] && Newlines(x) == 1 && Bare(DropSpaces(x))
    ensures NumberAndFile("5 x\n").Some? && NumberAndFile("\n5 x\n").None?
  {
    var x, v, w := "\r#line\n", "#line\n", "line\n";
    assert x[1..] == v && v[1..] == w && w[1..] == "ine\n" && "ine\n"[1..] == "ne\n" && "ne\n"[1..] == "e\n" &&
           "e\n"[1..] == "\n";
    assert "\n"[1..] == [] && "5 x\n"[1..] == " x\n";
  }

  lemma {:induction false} Counts()
    ensures |Sig(First())| == 1 && |Sig(Second())| == 2
  {
    hide *;
    var x := "\r#line\n";
    TextsAre();
    LastLine();
    SharedLine();
    assert First() == x + "5 x\n" && Second() == x + "\n5 x\n";
    OneLineSplit(x, "5 x\n");
    OneLineSplit(x, "\n5 x\n");
    KindOfLast(x, "5 x\n");
    KindOfLast(x, "\n5 x\n");
    SigUnfold("5 x\n");
    assert "5 x\n"[4..] == [];
    NoCode();
    BlankNext("\n5 x\n");
    assert "\n5 x\n"[1..] == "5 x\n";
  }

  /** The comparison matches these texts, but the first one has no "#line" among its significant lines. */
  lemma {:induction false} BareLineSlipsIn()
    ensures var a, b := First(), Second();
            Ended(a) && Ended(b) && InStep(a, b, 0, 0) && Compared(a, b, 0, 0) && !SameCode(a, b)
  {
    hide First, Second, Compared, Sig, InStep;
    Matches();
    TextsAre();
    Counts();
  }
}
