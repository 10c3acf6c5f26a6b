/** Whether the fast comparison of two outputs ends, for all texts. */
module FastCompareEnds {
  import opened Basics
  import opened FastCompare

  // ----- One round on texts that need not end with a newline --------------------------------------------

  /** The text r is what is left of t: nothing, all, or what follows a newline. */
  predicate BehindLine(t: string, r: string) {
    |r| <= |t| && r == t[|t| - |r|..] && (r == [] || |r| == |t| || t[|t| - |r| - 1] == '\n')
  }

  lemma {:induction false} LineEnd(t: string)
    requires DropLine(t) != []
    ensures t[LineLen(t) - 1] == '\n'
  {
    if t[0] != '\n' {
      assert DropLine(t) == DropLine(t[1..]);
      LineEnd(t[1..]);
    }
  }

  lemma {:induction false} DropLineBehind(t: string)
    ensures BehindLine(t, DropLine(t))
  {
    hide LineLen;
    if DropLine(t) != [] {
      LineEnd(t);
    }
  }

  lemma {:induction false} BehindTwice(t: string, u: string, r: string)
    requires BehindLine(t, u) && BehindLine(u, r)
    ensures BehindLine(t, r)
  {
    assert r == t[|t| - |r|..];
  }

  /** Two steps over a lone brace, one over any other line that does not matter. */
  function StepOver(s: Skip): (r: Skip)
    requires s.text != [] && KindOf(s.text) != Significant
    ensures |r.text| < |s.text|
  {
    var r := SkipStep(s);
    BraceThenBlank(s);
    if KindOf(s.text) == Brace && r.text != [] then SkipStep(r) else r
  }

  lemma {:induction false} BraceThenBlank(s: Skip)
    requires s.text != []
    ensures KindOf(s.text) == Brace && SkipStep(s).text != [] ==> KindOf(SkipStep(s).text) == Blank
  {
    hide KindOf, SkipStep, DropLine;
    if KindOf(s.text) == Brace {
      BraceEnds(s);
    }
  }

  lemma {:induction false} StepOverIs(s: Skip)
    requires s.text != [] && KindOf(s.text) != Significant
    ensures BehindLine(s.text, StepOver(s).text) && SkipFrom(s) == SkipFrom(StepOver(s))
  {
    hide KindOf, DropLine, SkipStep, BehindLine;
    DropLineBehind(s.text);
    NothingBehind(s.text);
    var r := SkipStep(s);
    match KindOf(s.text) {
      case Blank => BlankStep(s);
      case Statement => StatementStep(s);
      case Brace =>
        BraceEnds(s);
        if r.text != [] {
          BlankStep(r);
        }
    }
  }

  lemma {:induction false} NothingBehind(t: string)
    ensures BehindLine(t, [])
  {
  }

  lemma {:induction false} AllBehind(t: string)
    ensures BehindLine(t, t)
  {
  }

  /** Skipping stops where a line starts. */
  lemma {:induction false} SkipStops(s: Skip)
    ensures BehindLine(s.text, SkipFrom(s).text)
    decreases |s.text|
  {
    hide KindOf, StepOver, SkipStep, BehindLine;
    if s.text == [] || KindOf(s.text) == Significant {
      AllBehind(s.text);
    } else {
      StepOverIs(s);
      SkipStops(StepOver(s));
      BehindTwice(s.text, StepOver(s).text, SkipFrom(s).text);
    }
  }

  /** Nothing is skipped exactly in front of a significant line and at the end. */
  lemma {:induction false} SkipsNothing(s: Skip)
    ensures |SkipFrom(s).text| == |s.text| <==> s.text == [] || KindOf(s.text) == Significant
    ensures s.text == [] || KindOf(s.text) == Significant ==> SkipFrom(s) == s
  {
    hide KindOf, SkipStep;
    if s.text != [] && KindOf(s.text) != Significant {
      SkipShortens(SkipStep(s));
    }
  }

  /** Where it goes on behind a difference, on both sides. */
  lemma {:induction false} ResumeGoesOn(a: string, b: string, p1: nat, p2: nat)
    requires p1 <= |a| && p2 <= |b| && p1 - LineStart(a, p1) <= p2
    ensures var r := Resume(a, b, p1, p2);
            var L1 := LineStart(a, p1);
            var L2 := p2 - (p1 - L1);
            var s1, s2 := SkipFrom(Skip(a[L1..], 0, None, 0)), SkipFrom(Skip(b[L2..], 0, None, 0));
            r.Go? ==>
              && s1.text != [] && |s1.text| <= |a| - L1 && |s2.text| <= |b| - L2 && LineLen(s1.text) <= |s2.text|
              && r.psz1 == |a| - |s1.text| + LineLen(s1.text) && r.psz2 == |b| - |s2.text| + LineLen(s1.text)
  {
    hide SkipFrom, LineLen, Where, SameLocation, LineStart;
    var L1 := LineStart(a, p1);
    SkipShortens(Skip(a[L1..], 0, None, 0));
    SkipShortens(Skip(b[p2 - (p1 - L1)..], 0, None, 0));
  }

  /** Behind a difference the first text gains, or it is at its end and the second text does not lose. */
  predicate Onward(a: string, p1: nat, p2: nat, q1: nat, q2: nat) {
    p1 < q1 || (p1 == q1 == |a| && p2 <= q2)
  }

  /** What is left after skipping from where a line starts starts a line. */
  lemma {:induction false} StartsLine(a: string, L: nat, t: string)
    requires L <= |a| && (L == 0 || a[L - 1] == '\n') && BehindLine(a[L..], t) && t != []
    ensures |t| <= |a| - L && (var q := |a| - |t|; q == 0 || a[q - 1] == '\n')
  {
    var q := |a| - |t|;
    if |t| < |a| - L {
      assert a[q - 1] == a[L..][|a[L..]| - |t| - 1];
    }
  }

  /** The line behind it reaches past what the lines in front of it held. */
  lemma {:induction false} PastLine(u: string, t: string)
    requires t == u || |t| <= |DropLine(u)|
    ensures t != [] ==> LineLen(u) <= |u| - |t| + LineLen(t)
  {
    hide LineLen;
  }

  lemma {:induction false} LongerLine(a: string, p: nat)
    requires p < |a|
    ensures LineLen(a[LineStart(a, p)..]) > p - LineStart(a, p)
  {
    hide LineLen;
    var L := LineStart(a, p);
    assert a[L..][..p - L] == a[L..p];
    LineLenMore(a[L..], p - L);
  }

  lemma {:induction false} LastLine(a: string)
    ensures var u := a[LineStart(a, |a|)..]; LineLen(u) == |u| && DropLine(u) == []
  {
    hide LineLen, DropLine;
    var L := LineStart(a, |a|);
    assert a[L..|a|] == a[L..];
    OneLineOnly(a[L..]);
  }

  lemma {:induction false} StartOf(a: string, p: nat)
    requires p <= |a|
    ensures var L := LineStart(a, p); L <= p && (L == 0 || a[L - 1] == '\n')
  {
  }

  /** What is left of the first text starts a line, and the line behind it reaches past the difference. */
  lemma {:induction false} LineReaches(a: string, p: nat)
    requires p <= |a|
    ensures var L := LineStart(a, p);
            var t := SkipFrom(Skip(a[L..], 0, None, 0)).text;
            t != [] ==>
              && |t| <= |a| - L && (var q := |a| - |t|; q == 0 || a[q - 1] == '\n')
              && (p < |a| ==> p < |a| - |t| + LineLen(t))
              && (p == |a| ==> |t| == |a| - L == LineLen(t))
  {
    hide *;
    var L := LineStart(a, p);
    StartOf(a, p);
    var s := Skip(a[L..], 0, None, 0);
    var t := SkipFrom(s).text;
    SkipStops(s);
    SkipPastLine(s);
    if t != [] {
      StartsLine(a, L, t);
      PastLine(a[L..], t);
      if p < |a| {
        LongerLine(a, p);
      } else {
        LastLine(a);
      }
    }
  }

  lemma {:induction false} ResumeOnward(a: string, b: string, p1: nat, p2: nat)
    requires InStep(a, b, p1, p2)
    ensures var r := Resume(a, b, p1, p2);
            r.Go? ==> InStep(a, b, r.psz1, r.psz2) && Onward(a, p1, p2, r.psz1, r.psz2)
  {
    hide Resume, SkipFrom, LineLen, LineStart;
    ResumeGoesOn(a, b, p1, p2);
    LineReaches(a, p1);
    var r := Resume(a, b, p1, p2);
    if r.Go? {
      var t := SkipFrom(Skip(a[LineStart(a, p1)..], 0, None, 0)).text;
      LineNotBefore(a, |a| - |t|, r.psz1);
    }
  }

  /** A round ends the comparison, or it takes it on. */
  lemma {:induction false} RoundOnward(a: string, b: string, p1: nat, p2: nat)
    requires InStep(a, b, p1, p2)
    ensures var r := Round(a, b, p1, p2);
            r.Go? ==> InStep(a, b, r.psz1, r.psz2) && Onward(a, p1, p2, r.psz1, r.psz2)
  {
    hide Resume, InStep, Block, Common, SameBlock, Round, LineStart;
    InBounds(a, b, p1, p2);
    if SameBlock(a, b, p1, p2) {
      RoundBlock(a, b, p1, p2);
      InStepLater(a, b, p1, p2, Block(a, b, p1, p2));
    } else {
      RoundDiffers(a, b, p1, p2);
      var n := Common(a[p1..], b[p2..]);
      ResumeOnward(a, b, p1 + n, p2 + n);
    }
  }

  // ----- All rounds -------------------------------------------------------------------------------------

  /** At most n rounds. */
  function Rounds(a: string, b: string, p1: nat, p2: nat, n: nat): Outcome
    requires InStep(a, b, p1, p2)
    decreases n
  {
    if n == 0 then Go(p1, p2)
    else
      RoundOnward(a, b, p1, p2);
      var r := Round(a, b, p1, p2);
      if r.Done? then r else Rounds(a, b, r.psz1, r.psz2, n - 1)
  }

  /** The end of the comparison; none, if a round comes back to where it began. */
  function EndOf(a: string, b: string, p1: nat, p2: nat): Option<bool>
    requires InStep(a, b, p1, p2)
    decreases |a| - p1, |b| - p2
  {
    hide Round;
    RoundOnward(a, b, p1, p2);
    InBounds(a, b, p1, p2);
    var r := Round(a, b, p1, p2);
    if r.Done? then Some(r.fMatch)
    else if r == Go(p1, p2) then None
    else
      InBounds(a, b, r.psz1, r.psz2);
      EndOf(a, b, r.psz1, r.psz2)
  }

  /** The first text has been read to its end, its last line is significant and not terminated, and so is the
      text in front of q in the second one, at the same location: both lines are taken up again. */
  predicate Repeats(a: string, b: string, q: nat)
    requires InStep(a, b, |a|, q)
  {
    var L1 := LineStart(a, |a|);
    var L2 := q - (|a| - L1);
    && KindOf(a[L1..]) == KindOf(b[L2..]) == Significant && a[L1..] == b[L2..q]
    && (L1 < |a| && L2 < |b| ==>
          SameLocation(Where(a, L1, Skip(a[L1..], 0, None, 0)), Where(b, L2, Skip(b[L2..], 0, None, 0))))
  }

  lemma {:induction false} ResumeRepeats(a: string, b: string, q: nat)
    requires InStep(a, b, |a|, q)
    ensures Resume(a, b, |a|, q) == Go(|a|, q) <==> Repeats(a, b, q)
  {
    hide SkipFrom, LineLen, Where, SameLocation, LineStart, KindOf;
    var L1 := LineStart(a, |a|);
    var L2 := q - (|a| - L1);
    var s1, s2 := Skip(a[L1..], 0, None, 0), Skip(b[L2..], 0, None, 0);
    ResumeGoesOn(a, b, |a|, q);
    LineReaches(a, |a|);
    SkipsNothing(s1);
    SkipsNothing(s2);
    NothingIsBlank();
    LastLine(a);
    assert b[L2..q] == b[L2..][..q - L2];
    assert a[L1..] == a[L1..][..|a| - L1];
  }

  lemma {:induction false} RoundRepeats(a: string, b: string, q: nat)
    requires InStep(a, b, |a|, q)
    ensures Round(a, b, |a|, q) == Go(|a|, q) <==> Repeats(a, b, q)
  {
    hide Resume, Repeats, LineStart, InStep;
    InBounds(a, b, |a|, q);
    RoundDiffers(a, b, |a|, q);
    ResumeRepeats(a, b, q);
  }

  /** The comparison has come to a place from which it does not get away. */
  ghost predicate Caught(a: string, b: string, p1: nat, p2: nat) {
    InStep(a, b, p1, p2) &&
    exists n: nat, q: nat :: InStep(a, b, |a|, q) && Rounds(a, b, p1, p2, n) == Go(|a|, q) && Repeats(a, b, q)
  }

  lemma {:induction false} RoundsNext(a: string, b: string, p1: nat, p2: nat, n: nat)
    requires InStep(a, b, p1, p2) && n > 0
    ensures var r := Round(a, b, p1, p2);
            if r.Done? then Rounds(a, b, p1, p2, n) == r
            else InStep(a, b, r.psz1, r.psz2) && Rounds(a, b, p1, p2, n) == Rounds(a, b, r.psz1, r.psz2, n - 1)
  {
    hide Round, InStep;
    RoundOnward(a, b, p1, p2);
  }

  lemma {:induction false} GoesInCircles(a: string, b: string, p1: nat, p2: nat, n: nat)
    requires InStep(a, b, p1, p2) && Round(a, b, p1, p2) == Go(p1, p2)
    ensures Rounds(a, b, p1, p2, n) == Go(p1, p2)
  {
    hide Round, InStep;
    if n > 0 {
      RoundsNext(a, b, p1, p2, n);
      GoesInCircles(a, b, p1, p2, n - 1);
    }
  }

  lemma {:induction false} EndOfNext(a: string, b: string, p1: nat, p2: nat)
    requires InStep(a, b, p1, p2)
    ensures var r := Round(a, b, p1, p2);
            match r
            case Done(fMatch) => EndOf(a, b, p1, p2) == Some(fMatch)
            case Go(q1, q2) =>
              && InStep(a, b, q1, q2) && Onward(a, p1, p2, q1, q2)
              && EndOf(a, b, p1, p2) == if r == Go(p1, p2) then None else EndOf(a, b, q1, q2)
  {
    hide Round, InStep, Onward;
    RoundOnward(a, b, p1, p2);
  }

  lemma {:induction false} CaughtHere(a: string, b: string, p1: nat, p2: nat)
    requires InStep(a, b, p1, p2) && Onward(a, p1, p2, p1, p2) && Round(a, b, p1, p2) == Go(p1, p2)
    ensures Caught(a, b, p1, p2)
  {
    hide Round, InStep, Repeats;
    RoundRepeats(a, b, p2);
    assert Rounds(a, b, p1, p2, 0) == Go(|a|, p2);
  }

  lemma {:induction false} CaughtLater(a: string, b: string, p1: nat, p2: nat)
    requires InStep(a, b, p1, p2)
    requires var r := Round(a, b, p1, p2); r.Go? && Caught(a, b, r.psz1, r.psz2)
    ensures Caught(a, b, p1, p2)
  {
    hide Round, InStep, Repeats, Rounds;
    var r := Round(a, b, p1, p2);
    var n: nat, q: nat :|
      InStep(a, b, |a|, q) && Rounds(a, b, r.psz1, r.psz2, n) == Go(|a|, q) && Repeats(a, b, q);
    RoundsNext(a, b, p1, p2, n + 1);
    assert Rounds(a, b, p1, p2, n + 1) == Go(|a|, q);
  }

  /** n rounds are enough for the comparison, and so are more. */
  ghost predicate DoneBy(a: string, b: string, p1: nat, p2: nat, n: nat, fMatch: bool) {
    InStep(a, b, p1, p2) && forall k: nat :: k >= n ==> Rounds(a, b, p1, p2, k) == Done(fMatch)
  }

  /** The comparison ends. */
  ghost predicate Over(a: string, b: string, p1: nat, p2: nat, fMatch: bool) {
    exists n: nat :: DoneBy(a, b, p1, p2, n, fMatch)
  }

  lemma {:induction false} OverNow(a: string, b: string, p1: nat, p2: nat, fMatch: bool)
    requires InStep(a, b, p1, p2) && Round(a, b, p1, p2) == Done(fMatch)
    ensures Over(a, b, p1, p2, fMatch)
  {
    hide Round, InStep, Rounds;
    forall k: nat | k >= 1 ensures Rounds(a, b, p1, p2, k) == Done(fMatch) {
      RoundsNext(a, b, p1, p2, k);
    }
    assert DoneBy(a, b, p1, p2, 1, fMatch);
  }

  lemma {:induction false} OverLater(a: string, b: string, p1: nat, p2: nat, fMatch: bool)
    requires InStep(a, b, p1, p2)
    requires var r := Round(a, b, p1, p2); r.Go? && Over(a, b, r.psz1, r.psz2, fMatch)
    ensures Over(a, b, p1, p2, fMatch)
  {
    hide Round, InStep, Rounds;
    var r := Round(a, b, p1, p2);
    var n: nat :| DoneBy(a, b, r.psz1, r.psz2, n, fMatch);
    forall k: nat | k >= n + 1 ensures Rounds(a, b, p1, p2, k) == Done(fMatch) {
      RoundsNext(a, b, p1, p2, k);
    }
    assert DoneBy(a, b, p1, p2, n + 1, fMatch);
  }

  lemma {:induction false} SomeRound(a: string, b: string, p1: nat, p2: nat, fMatch: bool)
    requires Over(a, b, p1, p2, fMatch)
    ensures InStep(a, b, p1, p2) && exists k: nat :: Rounds(a, b, p1, p2, k) == Done(fMatch)
  {
    hide InStep, Rounds;
    var n: nat :| DoneBy(a, b, p1, p2, n, fMatch);
    assert Rounds(a, b, p1, p2, n) == Done(fMatch);
  }

  lemma {:induction false} StaysBehind(a: string, b: string, p1: nat, p2: nat, q1: nat, q2: nat)
    requires InStep(a, b, q1, q2) && Onward(a, p1, p2, q1, q2) && (q1 != p1 || q2 != p2)
    ensures q1 > p1 || (q1 == p1 && q2 > p2)
    ensures q1 <= |a| && q2 <= |b|
  {
  }

  /** For all texts: the comparison ends after some number of rounds with its outcome, or it is caught. */
  lemma {:induction false} EndsOrCaught(a: string, b: string, p1: nat, p2: nat)
    requires InStep(a, b, p1, p2)
    ensures match EndOf(a, b, p1, p2)
            case Some(fMatch) => Over(a, b, p1, p2, fMatch)
            case None => Caught(a, b, p1, p2)
    decreases |a| - p1, |b| - p2
  {
    hide *;
    InBounds(a, b, p1, p2);
    EndOfNext(a, b, p1, p2);
    var r := Round(a, b, p1, p2);
    if r.Done? {
      OverNow(a, b, p1, p2, r.fMatch);
    } else if r == Go(p1, p2) {
      CaughtHere(a, b, p1, p2);
    } else {
      StaysBehind(a, b, p1, p2, r.psz1, r.psz2);
      EndsOrCaught(a, b, r.psz1, r.psz2);
      match EndOf(a, b, r.psz1, r.psz2) {
        case Some(fMatch) => OverLater(a, b, p1, p2, fMatch);
        case None => CaughtLater(a, b, p1, p2);
      }
    }
  }

  lemma {:induction false} RoundsAdd(a: string, b: string, p1: nat, p2: nat, n: nat, m: nat)
    requires InStep(a, b, p1, p2)
    ensures match Rounds(a, b, p1, p2, n)
            case Done(_) => Rounds(a, b, p1, p2, n + m) == Rounds(a, b, p1, p2, n)
            case Go(q1, q2) => InStep(a, b, q1, q2) && Rounds(a, b, p1, p2, n + m) == Rounds(a, b, q1, q2, m)
    decreases n
  {
    hide Round, InStep, Rounds;
    if n == 0 {
      NoRound(a, b, p1, p2);
    } else {
      RoundsNext(a, b, p1, p2, n);
      RoundsNext(a, b, p1, p2, n + m);
      var r := Round(a, b, p1, p2);
      if r.Go? {
        RoundsAdd(a, b, r.psz1, r.psz2, n - 1, m);
      }
    }
  }

  lemma {:induction false} NoRound(a: string, b: string, p1: nat, p2: nat)
    requires InStep(a, b, p1, p2)
    ensures Rounds(a, b, p1, p2, 0) == Go(p1, p2)
  {
  }

  /** From where it is caught no number of rounds ends the comparison. */
  lemma {:induction false} CaughtForever(a: string, b: string, p1: nat, p2: nat, k: nat)
    requires Caught(a, b, p1, p2)
    ensures InStep(a, b, p1, p2) && Rounds(a, b, p1, p2, k).Go?
  {
    hide Round, InStep, Rounds, Repeats;
    var n: nat, q: nat :|
      InStep(a, b, |a|, q) && Rounds(a, b, p1, p2, n) == Go(|a|, q) && Repeats(a, b, q);
    RoundRepeats(a, b, q);
    GoesInCircles(a, b, |a|, q, k);
    RoundsAdd(a, b, p1, p2, n, k);
    RoundsAdd(a, b, p1, p2, k, n);
  }

  /** For every two texts: the comparison never ends exactly if its rounds reach a place where both take up the
      same last line of the first text again; otherwise it ends with one outcome. */
  lemma {:induction false} WhenItEnds(a: string, b: string)
    ensures InStep(a, b, 0, 0)
    ensures EndOf(a, b, 0, 0).None? <==> Caught(a, b, 0, 0)
    ensures EndOf(a, b, 0, 0).None? <==> forall k: nat :: Rounds(a, b, 0, 0, k).Go?
    ensures forall fMatch :: EndOf(a, b, 0, 0) == Some(fMatch) <==> Over(a, b, 0, 0, fMatch)
  {
    hide *;
    Begin(a, b);
    EndsOrCaught(a, b, 0, 0);
    forall fMatch | Over(a, b, 0, 0, fMatch) ensures EndOf(a, b, 0, 0) == Some(fMatch) {
      OnlyOne(a, b, 0, 0, fMatch);
    }
    if EndOf(a, b, 0, 0).Some? {
      SomeRound(a, b, 0, 0, EndOf(a, b, 0, 0).value);
      OnlyOne(a, b, 0, 0, EndOf(a, b, 0, 0).value);
    } else {
      forall k: nat ensures Rounds(a, b, 0, 0, k).Go? {
        CaughtForever(a, b, 0, 0, k);
      }
    }
  }

  lemma {:induction false} SameOutcome(a: string, b: string, p1: nat, p2: nat, n: nat, m: nat, f: bool, g: bool)
    requires DoneBy(a, b, p1, p2, n, f) && DoneBy(a, b, p1, p2, m, g)
    ensures f == g
  {
    hide InStep, Rounds;
    assert Rounds(a, b, p1, p2, n + m) == Done(f);
  }

  /** One outcome excludes the other, and being caught. */
  lemma {:induction false} OnlyOne(a: string, b: string, p1: nat, p2: nat, fMatch: bool)
    requires Over(a, b, p1, p2, fMatch)
    ensures !Caught(a, b, p1, p2) && !Over(a, b, p1, p2, !fMatch)
  {
    hide InStep, Rounds, Caught;
    var n: nat :| DoneBy(a, b, p1, p2, n, fMatch);
    assert Rounds(a, b, p1, p2, n) == Done(fMatch);
    if Caught(a, b, p1, p2) {
      CaughtForever(a, b, p1, p2, n);
    }
    if Over(a, b, p1, p2, !fMatch) {
      var m: nat :| DoneBy(a, b, p1, p2, m, !fMatch);
      SameOutcome(a, b, p1, p2, n, m, fMatch, !fMatch);
    }
  }

  /** On newline-terminated text it ends. */
  lemma {:induction false} EndedEnds(a: string, b: string, p1: nat, p2: nat)
    requires InStep(a, b, p1, p2) && Ended(a)
    ensures EndOf(a, b, p1, p2) == Some(Compared(a, b, p1, p2))
    decreases |a| - p1
  {
    hide *;
    InBounds(a, b, p1, p2);
    EndOfNext(a, b, p1, p2);
    ComparedRound(a, b, p1, p2);
    RoundInStep(a, b, p1, p2);
    var r := Round(a, b, p1, p2);
    if r.Go? {
      EndedEnds(a, b, r.psz1, r.psz2);
    }
  }

  lemma {:induction false} SelfEnds(a: string, p: nat)
    requires p <= |a|
    ensures InStep(a, a, p, p)
    ensures EndOf(a, a, p, p) == if KindOf(a[LineStart(a, |a|)..]) == Significant then None else Some(true)
    decreases |a| - p
  {
    hide Round, KindOf, LineStart, Block, InStep, Onward;
    SelfRound(a, p);
    EndOfNext(a, a, p, p);
    if p < |a| {
      SelfEnds(a, Round(a, a, p, p).psz1);
    }
  }

  /** A text compared with itself: it matches, unless its last line is significant and not terminated; then the
      comparison does not end. */
  lemma {:induction false} SelfMatch(a: string)
    ensures InStep(a, a, 0, 0)
    ensures if KindOf(a[LineStart(a, |a|)..]) == Significant then forall k: nat :: Rounds(a, a, 0, 0, k).Go?
            else Over(a, a, 0, 0, true)
  {
    hide KindOf, LineStart, Rounds, EndOf, InStep, Over;
    SelfEnds(a, 0);
    WhenItEnds(a, a);
  }
}
