/** Which texts match in the fast comparison. */
module FastCompareMatches {
  import opened Basics
  import opened FastCompare
  import opened FastCompareEnds
  import opened FastCompareLines
  import opened FastComparePlaces

  // ----- What counts ---------------------------------------------------------------------------

  /** A significant line, with the file and number in force, or a line with a closing brace alone. */
  datatype Item = Code(line: string, place: Option<Place>) | LoneBrace

  function ItemOf(t: string, p: Option<Place>): seq<Item> {
    match KindOf(t)
    case Significant => [Code(t[..LineLen(t)], p)]
    case Brace => [LoneBrace]
    case _ => []
  }

  function ItemsFrom(t: string, p: Option<Place>): seq<Item>
    decreases |t|
  {
    if t == [] then [] else ItemOf(t, p) + ItemsFrom(DropLine(t), Behind(t, p, false))
  }

  /** All that counts of a text, in order. */
  function Items(t: string): seq<Item> {
    ItemsFrom(t, None)
  }

  lemma {:induction false} ItemsNext(t: string, p: Option<Place>)
    requires t != []
    ensures ItemsFrom(t, p) == ItemOf(t, p) + ItemsFrom(DropLine(t), Behind(t, p, false))
  {
    hide ItemOf, DropLine, Behind;
  }

  lemma {:induction false} NoItems(p: Option<Place>)
    ensures ItemsFrom([], p) == []
  {
  }

  lemma {:induction false} SameItem(t: string, u: string, p: Option<Place>)
    requires KindOf(t) == KindOf(u) && t[..LineLen(t)] == u[..LineLen(u)]
    ensures ItemOf(t, p) == ItemOf(u, p)
  {
    hide KindOf, LineLen;
  }

  /** Whole lines without a bare one are taken on their own as they are in front of anything. */
  lemma {:induction false} ItemsShared(x: string, t: string, p: Option<Place>)
    requires Ended(x) && NoBareLine(x)
    ensures ItemsFrom(x + t, p) == ItemsFrom(x, p) + ItemsFrom(t, Reading(x, |x|, p, false))
    decreases |x|
  {
    hide *;
    if x == [] {
      assert x + t == t;
      ReadingNothing(x, p, false);
      NoItems(p);
    } else {
      SharedLine(x, t, p);
      ReadingNext(x, |x|, p, false);
      ItemsNext(x, p);
      ItemsNext(x + t, p);
      DropLineIs(x);
      SameItem(x, x + t, p);
      ItemsShared(DropLine(x), t, Behind(x, p, false));
      Regrouped(ItemOf(x, p), ItemsFrom(DropLine(x), Behind(x, p, false)), ItemsFrom(t, Reading(x, |x|, p, false)));
    }
  }

  // ----- What is skipped ------------------------------------------------------------------------

  function LoneBraces(n: nat): seq<Item> {
    seq(n, _ => LoneBrace)
  }

  lemma {:induction false} OneMore(n: nat, rest: seq<Item>)
    ensures [LoneBrace] + (LoneBraces(n) + rest) == LoneBraces(n + 1) + rest
    ensures LoneBraces(0) + rest == rest
  {
  }

  /** What is skipped holds nothing but lone braces. */
  lemma {:induction false} ItemsSkipped(s: Skip, p: Option<Place>)
    ensures Skips(s, p)
    decreases |s.text|
  {
    hide *;
    SkipsNothing(s);
    if s.text == [] || KindOf(s.text) == Significant {
      NoneSkipped(s, p);
    } else {
      var o := StepOver(s);
      StepOverIs(s);
      ItemsSkipped(o, Behind(s.text, p, false));
      OneSkipped(s, o, p);
    }
  }

  ghost predicate Skips(s: Skip, p: Option<Place>) {
    var r := SkipFrom(s);
    && |r.text| <= |s.text| && Braces(r.text) <= Braces(s.text)
    && ItemsFrom(s.text, p) ==
       LoneBraces(Braces(s.text) - Braces(r.text)) +
       ItemsFrom(r.text, Reading(s.text, |s.text| - |r.text|, p, false))
  }

  lemma {:induction false} NoneSkipped(s: Skip, p: Option<Place>)
    requires SkipFrom(s) == s
    ensures Skips(s, p)
  {
    hide SkipFrom, ItemsFrom, LoneBraces, Braces;
    ReadingNothing(s.text, p, false);
    OneMore(0, ItemsFrom(s.text, p));
  }

  lemma {:induction false} OneSkipped(s: Skip, o: Skip, p: Option<Place>)
    requires s.text != [] && KindOf(s.text) != Significant && o == StepOver(s) && SkipFrom(s) == SkipFrom(o)
    requires Skips(o, Behind(s.text, p, false))
    ensures Skips(s, p)
  {
    hide KindOf, StepOver, SkipFrom, Behind, DropLine, ItemOf, Reading, LineLen, ItemsFrom, LoneBraces, Braces;
    OverIsDropLine(s);
    DropLineIs(s.text);
    BracesStep(s.text);
    ItemSkipped(s.text, p);
    ItemsNext(s.text, p);
    var t, u, r, q := s.text, o.text, SkipFrom(s).text, Behind(s.text, p, false);
    ReadingNext(t, |t| - |r|, p, false);
    var (m, n) := (Braces(u) - Braces(r), Braces(t) - Braces(r));
    WithBrace(KindOf(t) == Brace, m, n, ItemOf(t, p), ItemsFrom(u, q), ItemsFrom(r, Reading(u, |u| - |r|, q, false)));
  }

  lemma {:induction false} BracesStep(t: string)
    requires t != []
    ensures Braces(t) == (if KindOf(t) == Brace then 1 else 0) + Braces(DropLine(t))
  {
    hide KindOf, DropLine;
  }

  lemma {:induction false} WithBrace(fBrace: bool, m: nat, n: nat, item: seq<Item>, items: seq<Item>, rest: seq<Item>)
    requires item == (if fBrace then [LoneBrace] else []) && items == LoneBraces(m) + rest
    requires n == if fBrace then m + 1 else m
    ensures item + items == LoneBraces(n) + rest
  {
    hide LoneBraces;
    OneMore(m, rest);
    assert [] + items == items;
  }

  lemma {:induction false} ItemSkipped(t: string, p: Option<Place>)
    requires KindOf(t) != Significant
    ensures ItemOf(t, p) == if KindOf(t) == Brace then [LoneBrace] else []
  {
    hide KindOf;
  }

  // ----- One side of a difference -------------------------------------------------------------------

  /** Up to the difference: lines that both texts share, then lone braces, then the line that decides. */
  lemma {:induction false} ItemsTo(a: string, s: nat, L: nat, p: Option<Place>)
    requires s <= L <= |a| && LineEnds(a, s) && LineEnds(a, L) && NoBareLine(a[s..L]) && PlaceAt(a, s) == p
    ensures var x := a[s..L];
            var q := NextAt(a, L);
            && Braces(a[q..]) <= Braces(a[L..])
            && ItemsFrom(a[s..], p) ==
               ItemsFrom(x, p) + (LoneBraces(Braces(a[L..]) - Braces(a[q..])) + ItemsFrom(a[q..], PlaceAt(a, q)))
  {
    hide *;
    var x, q := a[s..L], NextAt(a, L);
    SharedEnds(a, s, L);
    LocatedTo(a, s, L, p);
    assert a[s..] == x + a[L..];
    ItemsShared(x, a[L..], p);
    OneSide(a, L);
    ItemsBehind(a, L);
  }

  lemma {:induction false} ItemsBehind(a: string, L: nat)
    requires L <= |a| && LineEnds(a, L)
    ensures var q := NextAt(a, L);
            && Braces(a[q..]) <= Braces(a[L..])
            && ItemsFrom(a[L..], PlaceAt(a, L)) ==
               LoneBraces(Braces(a[L..]) - Braces(a[q..])) +
               ItemsFrom(a[q..], Reading(a[L..], q - L, PlaceAt(a, L), false))
  {
    hide SkipFrom, ItemsFrom, LoneBraces, Braces, Reading, LineEnds, NextAt, PlaceAt;
    OneSide(a, L);
    ItemsSkipped(Skip(a[L..], 0, None, 0), PlaceAt(a, L));
  }

  /** The line that decides. */
  lemma {:induction false} LineItems(a: string, q: nat, n: nat)
    requires q + n <= |a| && LineEnds(a, q) && n > 0 && n == LineLen(a[q..]) && KindOf(a[q..]) == Significant
    ensures ItemsFrom(a[q..], PlaceAt(a, q)) ==
            [Code(a[q..q + n], PlaceAt(a, q))] + ItemsFrom(a[q + n..], PlaceAt(a, q + n))
  {
    hide LineLen, KindOf, Reading, Plus, LineEnds, Sets, ItemsFrom;
    var t, p := a[q..], PlaceAt(a, q);
    assert t[..n] == a[q..q + n] && DropLine(t) == a[q + n..];
    SetsIsKind(t);
    ItemsNext(t, p);
    ReadingSplit(a, q, n, None, false);
    ReadingNext(t, n, p, false);
    ReadingNothing(DropLine(t), Behind(t, p, false), false);
  }

  /** Behind q comes nothing, or a significant line. */
  ghost predicate Deciding(w: seq<Item>) {
    w == [] || w[0].Code?
  }

  lemma {:induction false} SameBraces(m: nat, n: nat, v: seq<Item>, w: seq<Item>)
    requires Deciding(v) && Deciding(w)
    ensures LoneBraces(m) + v == LoneBraces(n) + w <==> m == n && v == w
  {
    BehindBraces(m, v);
    BehindBraces(n, w);
    if m < n {
      BraceAt(n, w, m);
    } else if n < m {
      BraceAt(m, v, n);
    } else {
      SamePrefix(LoneBraces(m), v, w);
    }
  }

  lemma {:induction false} BehindBraces(m: nat, v: seq<Item>)
    ensures |LoneBraces(m) + v| == m + |v| && (v != [] ==> (LoneBraces(m) + v)[m] == v[0])
  {
  }

  lemma {:induction false} BraceAt(n: nat, w: seq<Item>, k: nat)
    requires k < n
    ensures |LoneBraces(n) + w| > k && (LoneBraces(n) + w)[k] == LoneBrace
  {
  }

  /** What the lines that decide have to do with it. */
  lemma {:induction false} Decided(a: string, q: nat)
    requires q <= |a| && (q < |a| ==> LineEnds(a, q) && KindOf(a[q..]) == Significant)
    ensures var w := ItemsFrom(a[q..], PlaceAt(a, q));
            Deciding(w) && (w == [] <==> q == |a|)
    ensures q < |a| ==>
              var n := LineLen(a[q..]);
              && 0 < n <= |a| - q
              && ItemsFrom(a[q..], PlaceAt(a, q)) ==
                 [Code(a[q..q + n], PlaceAt(a, q))] + ItemsFrom(a[q + n..], PlaceAt(a, q + n))
  {
    hide *;
    if q < |a| {
      DropLineIs(a[q..]);
      LineItems(a, q, LineLen(a[q..]));
      FirstIsCode(Code(a[q..q + LineLen(a[q..])], PlaceAt(a, q)), ItemsFrom(a[q + LineLen(a[q..])..],
        PlaceAt(a, q + LineLen(a[q..]))));
    } else {
      assert a[q..] == [];
      NoItems(PlaceAt(a, q));
      NothingDecides();
    }
  }

  lemma {:induction false} FirstIsCode(c: Item, w: seq<Item>)
    requires c.Code?
    ensures Deciding([c] + w)
  {
  }

  lemma {:induction false} NothingDecides()
    ensures Deciding([])
  {
  }

  // ----- One difference --------------------------------------------------------------------------------

  /** Where the numbers computed are as wrong, they are the same exactly if the places are. */
  lemma {:induction false} PlacesCompared(a: string, b: string, s1: nat, s2: nat, p1: nat, p2: nat, p: Option<Place>)
    requires Sides(a, b, s1, s2, p1, p2, p) && EvenAt(a, b, p1, p2)
    ensures p1 <= |a| && p2 <= |b| && p1 - LineStart(a, p1) <= p2
    ensures var L1 := LineStart(a, p1);
            var L2 := p2 - (p1 - L1);
            var q1, q2 := NextAt(a, L1), NextAt(b, L2);
            Computed(a, L1, q1) == Computed(b, L2, q2) <==> PlaceAt(a, q1) == PlaceAt(b, q2)
  {
    hide *;
    SidesAre(a, b, s1, s2, p1, p2, p);
    var L1 := LineStart(a, p1);
    var L2 := p2 - (p1 - L1);
    var q1, q2 := NextAt(a, L1), NextAt(b, L2);
    LocatedTo(a, s1, L1, p);
    LocatedTo(b, s2, L2, p);
    ComputedIs(a, L1);
    ComputedIs(b, L2);
    EvenAtIs(a, b, p1, p2);
    PlaceBound(a, q1);
    PlaceBound(b, q2);
    EvenShift(PlaceAt(a, q1), PlaceAt(b, q2), ExtraAt(a, L1), ExtraAt(b, L2));
  }

  lemma {:induction false} EvenShift(p: Option<Place>, q: Option<Place>, x: nat, y: nat)
    requires (p.Some? ==> p.value.line < WIDTH) && (q.Some? ==> q.value.line < WIDTH)
    requires p.None? || x % WIDTH == y % WIDTH
    ensures Plus(p, x) == Plus(q, y) <==> p == q
  {
    if Plus(p, x) == Plus(q, y) {
      SameShift(p, q, x, y);
    } else if p == q && p.Some? {
      AddUp(x, p.value.line);
      AddUp(y, p.value.line);
    }
  }

  /** Where a difference is taken up again, with what is in front of it. */
  lemma {:induction false} ItemsResumed(a: string, b: string, s1: nat, s2: nat, p1: nat, p2: nat, p: Option<Place>)
    requires Sides(a, b, s1, s2, p1, p2, p)
    ensures p1 <= |a| && p2 <= |b| && p1 - LineStart(a, p1) <= p2 && s1 <= |a| && s2 <= |b|
    ensures var L1 := LineStart(a, p1);
            var L2 := p2 - (p1 - L1);
            var q1, q2 := NextAt(a, L1), NextAt(b, L2);
            ItemsFrom(a[s1..], p) == ItemsFrom(b[s2..], p) <==>
            && Braces(a[L1..]) - Braces(a[q1..]) == Braces(b[L2..]) - Braces(b[q2..])
            && ItemsFrom(a[q1..], PlaceAt(a, q1)) == ItemsFrom(b[q2..], PlaceAt(b, q2))
  {
    hide *;
    SidesAre(a, b, s1, s2, p1, p2, p);
    var L1 := LineStart(a, p1);
    var L2 := p2 - (p1 - L1);
    var q1, q2 := NextAt(a, L1), NextAt(b, L2);
    OneSide(a, L1);
    OneSide(b, L2);
    ItemsTo(a, s1, L1, p);
    ItemsTo(b, s2, L2, p);
    Decided(a, q1);
    Decided(b, q2);
    var (m, n) := (Braces(a[L1..]) - Braces(a[q1..]), Braces(b[L2..]) - Braces(b[q2..]));
    var (v, w) := (ItemsFrom(a[q1..], PlaceAt(a, q1)), ItemsFrom(b[q2..], PlaceAt(b, q2)));
    SameBraces(m, n, v, w);
    SamePrefix(ItemsFrom(a[s1..L1], p), LoneBraces(m) + v, LoneBraces(n) + w);
  }

  /** Whether the comparison goes on is a matter of what counts. */
  lemma {:induction false} ItemsDecide(a: string, b: string, s1: nat, s2: nat, p1: nat, p2: nat, p: Option<Place>)
    requires Sides(a, b, s1, s2, p1, p2, p) && EvenAt(a, b, p1, p2) && Ended(a)
    ensures p1 <= |a| && p2 <= |b| && p1 - LineStart(a, p1) <= p2 && s1 <= |a| && s2 <= |b|
    ensures var r := Resume(a, b, p1, p2);
            var same := ItemsFrom(a[s1..], p) == ItemsFrom(b[s2..], p);
            && (r == Done(true) ==> same) && (r == Done(false) ==> !same)
            && (r.Go? ==>
                && r.psz1 <= |a| && r.psz2 <= |b| && LineEnds(b, r.psz2)
                && PlaceAt(a, r.psz1) == PlaceAt(b, r.psz2)
                && (same <==>
                    ItemsFrom(a[r.psz1..], PlaceAt(a, r.psz1)) == ItemsFrom(b[r.psz2..], PlaceAt(b, r.psz2))))
  {
    hide *;
    SidesAre(a, b, s1, s2, p1, p2, p);
    var L1 := LineStart(a, p1);
    var L2 := p2 - (p1 - L1);
    var q1, q2 := NextAt(a, L1), NextAt(b, L2);
    ItemsResumed(a, b, s1, s2, p1, p2, p);
    ResumeIff(a, b, p1, p2);
    PlacesCompared(a, b, s1, s2, p1, p2, p);
    OneSide(a, L1);
    OneSide(b, L2);
    Decided(a, q1);
    Decided(b, q2);
    Resumed(a, b, s1, s2, p1, p2, p);
    if q1 < |a| && q2 < |b| {
      FirstOf(a, q1);
      DecidingLines(a, b, q1, q2);
    }
  }

  /** Both lines: the same, at the same place, with the same behind them. */
  lemma {:induction false} DecidingLines(a: string, b: string, q1: nat, q2: nat)
    requires q1 < |a| && q2 < |b| && LineEnds(a, q1) && LineEnds(b, q2)
    requires KindOf(a[q1..]) == Significant && KindOf(b[q2..]) == Significant
    requires var n := LineLen(a[q1..]); 0 < n <= |a| - q1 && a[q1 + n - 1] == '\n'
    ensures var n := LineLen(a[q1..]);
            ItemsFrom(a[q1..], PlaceAt(a, q1)) == ItemsFrom(b[q2..], PlaceAt(b, q2)) <==>
            && q2 + n <= |b| && a[q1..q1 + n] == b[q2..q2 + n] && PlaceAt(a, q1) == PlaceAt(b, q2)
            && ItemsFrom(a[q1 + n..], PlaceAt(a, q1 + n)) == ItemsFrom(b[q2 + n..], PlaceAt(b, q2 + n))
  {
    hide *;
    Decided(a, q1);
    Decided(b, q2);
    var m, n := LineLen(b[q2..]), LineLen(a[q1..]);
    var (x, y) := (Code(a[q1..q1 + n], PlaceAt(a, q1)), Code(b[q2..q2 + m], PlaceAt(b, q2)));
    var (xs, ys) := (ItemsFrom(a[q1 + n..], PlaceAt(a, q1 + n)), ItemsFrom(b[q2 + m..], PlaceAt(b, q2 + m)));
    SameHeads(x, xs, y, ys);
    if x == y {
      assert |a[q1..q1 + n]| == |b[q2..q2 + m]|;
    } else if q2 + n <= |b| && a[q1..q1 + n] == b[q2..q2 + n] {
      SameFirst(a, b, q1, q2, n);
    }
  }

  // ----- The whole comparison ---------------------------------------------------------------------------

  /** At every difference the comparison comes to, the numbers computed are as wrong on both sides. */
  ghost predicate Fair(a: string, b: string, s1: nat, s2: nat, p1: nat, p2: nat)
    decreases if p1 <= |a| then |a| - p1 else 0
  {
    hide *;
    if !Synced(a, b, s1, s2, p1, p2) || !Ended(a) then true
    else
      SyncedBounds(a, b, s1, s2, p1, p2);
      RoundInStep(a, b, p1, p2);
      var r := Round(a, b, p1, p2);
      if SameBlock(a, b, p1, p2) then
        BlockSound(a, b, s1, s2, p1, p2);
        Fair(a, b, s1, s2, r.psz1, r.psz2)
      else
        var n := Common(a[p1..], b[p2..]);
        RoundDiffers(a, b, p1, p2);
        EvenAt(a, b, p1 + n, p2 + n) && (r.Go? ==> Fair(a, b, r.psz1, r.psz2, r.psz1, r.psz2))
  }

  lemma {:induction false} FairBlock(a: string, b: string, s1: nat, s2: nat, p1: nat, p2: nat)
    requires Synced(a, b, s1, s2, p1, p2) && InStep(a, b, p1, p2) && p1 <= |a| && p2 <= |b| && SameBlock(a, b, p1, p2)
    requires Ended(a)
    ensures var r := Round(a, b, p1, p2);
            r.Go? && Synced(a, b, s1, s2, r.psz1, r.psz2) &&
            Fair(a, b, s1, s2, p1, p2) == Fair(a, b, s1, s2, r.psz1, r.psz2)
  {
    hide Synced, InStep, SameBlock, Round, EvenAt, Ended;
    BlockSound(a, b, s1, s2, p1, p2);
  }

  lemma {:induction false} FairDifference(a: string, b: string, s1: nat, s2: nat, p1: nat, p2: nat, n: nat, r: Outcome)
    requires DiffersBy(a, b, s1, s2, p1, p2, n, r)
    ensures Fair(a, b, s1, s2, p1, p2) <==>
            EvenAt(a, b, p1 + n, p2 + n) && (r.Go? ==> Fair(a, b, r.psz1, r.psz2, r.psz1, r.psz2))
  {
    hide Synced, InStep, SameBlock, Round, EvenAt, Ended, Common;
  }

  /** From two places where nothing has been different yet. */
  lemma {:induction false} ComparedItems(a: string, b: string, s1: nat, s2: nat, p1: nat, p2: nat, p: Option<Place>)
    requires Sides(a, b, s1, s2, p1, p2, p) && InStep(a, b, p1, p2) && Ended(a) && Fair(a, b, s1, s2, p1, p2)
    ensures s1 <= |a| && s2 <= |b|
    ensures Compared(a, b, p1, p2) <==> ItemsFrom(a[s1..], p) == ItemsFrom(b[s2..], p)
    decreases |a| - p1
  {
    hide *;
    SidesAre(a, b, s1, s2, p1, p2, p);
    SyncedBounds(a, b, s1, s2, p1, p2);
    RoundInStep(a, b, p1, p2);
    ComparedRound(a, b, p1, p2);
    var r := Round(a, b, p1, p2);
    if SameBlock(a, b, p1, p2) {
      FairBlock(a, b, s1, s2, p1, p2);
      SidesOn(a, b, s1, s2, p1, p2, s1, s2, r.psz1, r.psz2, p, p);
      ComparedItems(a, b, s1, s2, r.psz1, r.psz2, p);
    } else {
      var n := Common(a[p1..], b[p2..]);
      DiffersHere(a, b, s1, s2, p1, p2);
      DifferenceIs(a, b, s1, s2, p1, p2, n, r);
      DifferedIs(a, b, s1, s2, p1 + n, p2 + n, r);
      FairDifference(a, b, s1, s2, p1, p2, n, r);
      SidesOn(a, b, s1, s2, p1, p2, s1, s2, p1 + n, p2 + n, p, p);
      ItemsDecide(a, b, s1, s2, p1 + n, p2 + n, p);
      if r.Go? {
        SidesOn(a, b, s1, s2, p1, p2, r.psz1, r.psz2, r.psz1, r.psz2, p, PlaceAt(a, r.psz1));
        ComparedItems(a, b, r.psz1, r.psz2, r.psz1, r.psz2, PlaceAt(a, r.psz1));
      }
    }
  }

  /** For all texts, newline-terminated and without a bare line the new one, and with blanks only in front of line
      statements: where the numbers computed are as wrong on both sides at every difference, they match if and only
      if they have the same significant lines in the same places, with the same lone braces between them. */
  lemma {:induction false} MatchIff(a: string, b: string)
    requires Ended(a) && NoBareLine(a) && AllSeen(a) && AllSeen(b) && Fair(a, b, 0, 0, 0, 0)
    ensures InStep(a, b, 0, 0)
    ensures Compared(a, b, 0, 0) <==> Items(a) == Items(b)
  {
    hide *;
    Begin(a, b);
    Start(a, b);
    assert a[0..] == a && b[0..] == b;
    SidesAtFirst(a, b);
    ItemsIs(a);
    ItemsIs(b);
    ComparedItems(a, b, 0, 0, 0, 0, None);
  }

  lemma {:induction false} ItemsIs(t: string)
    ensures Items(t) == ItemsFrom(t, None)
  {
    hide ItemsFrom;
  }

  // ----- Where no number goes wrong -----------------------------------------------------------------------

  /** No empty line, and no lone brace. */
  predicate NoExtras(t: string)
    decreases |t|
  {
    t == [] || (t[0] != '\n' && KindOf(t) != Brace && NoExtras(DropLine(t)))
  }

  lemma {:induction false} ExtrasLater(t: string, n: nat)
    requires NoExtras(t) && LineEnds(t, n)
    ensures NoExtras(t[n..])
    decreases n
  {
    hide LineLen, KindOf, DropLine, LineEnds;
    LineEndsWithin(t, n);
    if n > 0 {
      LineEndsLater(t, n);
      DropLineIs(t);
      ExtrasLater(DropLine(t), n - LineLen(t));
    } else {
      assert t[0..] == t;
    }
  }

  lemma {:induction false} LineEndsWithin(t: string, n: nat)
    requires LineEnds(t, n)
    ensures n <= |t|
  {
  }

  lemma {:induction false} NothingExtra(t: string, n: nat)
    requires NoExtras(t)
    ensures Extra(t, n, 0) == 0
    decreases n
  {
    hide LineLen, KindOf, DropLine, Sets;
    if n > 0 && t != [] && LineLen(t) <= n {
      DropLineIs(t);
      NothingExtra(DropLine(t), n - LineLen(t));
    }
  }

  lemma {:induction false} NoExtraAt(a: string, L: nat)
    requires NoExtras(a) && LineEnds(a, L) && L <= |a|
    ensures ExtraAt(a, L) == 0
  {
    hide LineLen, KindOf, DropLine, Sets, Extra, NextAt, LineEnds;
    ExtrasLater(a, L);
    assert L < |a| ==> a[L] == a[L..][0];
    NothingExtra(a[L..], NextAt(a, L) - L);
  }

  /** Where the second text is taken up again, a line starts. */
  lemma {:induction false} SecondEnds(a: string, b: string, s1: nat, s2: nat, p1: nat, p2: nat)
    requires Synced(a, b, s1, s2, p1, p2) && LineEnds(b, s2)
    ensures p1 <= |a| && p2 <= |b| && p1 - LineStart(a, p1) <= p2
    ensures LineEnds(a, LineStart(a, p1)) && LineEnds(b, p2 - (p1 - LineStart(a, p1)))
  {
    hide LineStart;
    SyncedBounds(a, b, s1, s2, p1, p2);
    SyncedLine(a, b, s1, s2, p1, p2);
    var L1 := LineStart(a, p1);
    var L2 := p2 - (p1 - L1);
    LineStartOf(a, p1);
    assert |a[s1..L1]| == |b[s2..L2]|;
    if L1 > s1 {
      assert a[L1 - 1] == a[s1..L1][L1 - s1 - 1] == b[s2..L2][L2 - s2 - 1] == b[L2 - 1];
    }
  }

  lemma {:induction false} ResumedAtLine(a: string, b: string, s1: nat, s2: nat, p1: nat, p2: nat)
    requires Synced(a, b, s1, s2, p1, p2) && LineEnds(b, s2) && Ended(a)
    ensures p1 <= |a| && p2 <= |b| && p1 - LineStart(a, p1) <= p2
    ensures var r := Resume(a, b, p1, p2); r.Go? ==> r.psz2 <= |b| && LineEnds(b, r.psz2)
  {
    hide *;
    SecondEnds(a, b, s1, s2, p1, p2);
    GoesOnAtLine(a, b, p1, p2);
  }

  lemma {:induction false} GoesOnAtLine(a: string, b: string, p1: nat, p2: nat)
    requires p1 <= |a| && p2 <= |b| && p1 - LineStart(a, p1) <= p2 && Ended(a)
    requires LineEnds(b, p2 - (p1 - LineStart(a, p1)))
    ensures var r := Resume(a, b, p1, p2); r.Go? ==> r.psz2 <= |b| && LineEnds(b, r.psz2)
  {
    hide *;
    ResumeIff(a, b, p1, p2);
    var L1 := LineStart(a, p1);
    var q1, q2 := NextAt(a, L1), NextAt(b, p2 - (p1 - L1));
    if Resume(a, b, p1, p2).Go? {
      FirstOf(a, q1);
      SameFirst(a, b, q1, q2, LineLen(a[q1..]));
    }
  }

  lemma {:induction false} EvenWithout(a: string, b: string, s1: nat, s2: nat, p1: nat, p2: nat)
    requires Synced(a, b, s1, s2, p1, p2) && LineEnds(b, s2) && NoExtras(a) && NoExtras(b)
    ensures EvenAt(a, b, p1, p2)
  {
    hide *;
    SecondEnds(a, b, s1, s2, p1, p2);
    var L1 := LineStart(a, p1);
    NoExtraAt(a, L1);
    NoExtraAt(b, p2 - (p1 - L1));
    EvenAtIs(a, b, p1, p2);
  }

  lemma {:induction false} PlainIsFair(a: string, b: string, s1: nat, s2: nat, p1: nat, p2: nat)
    requires Synced(a, b, s1, s2, p1, p2) && LineEnds(b, s2) && NoExtras(a) && NoExtras(b) && Ended(a)
    requires InStep(a, b, p1, p2)
    ensures Fair(a, b, s1, s2, p1, p2)
    decreases |a| - p1
  {
    hide *;
    SyncedBounds(a, b, s1, s2, p1, p2);
    RoundInStep(a, b, p1, p2);
    var r := Round(a, b, p1, p2);
    if SameBlock(a, b, p1, p2) {
      FairBlock(a, b, s1, s2, p1, p2);
      PlainIsFair(a, b, s1, s2, r.psz1, r.psz2);
    } else {
      var n := Common(a[p1..], b[p2..]);
      DiffersHere(a, b, s1, s2, p1, p2);
      DifferenceIs(a, b, s1, s2, p1, p2, n, r);
      DifferedIs(a, b, s1, s2, p1 + n, p2 + n, r);
      FairDifference(a, b, s1, s2, p1, p2, n, r);
      EvenWithout(a, b, s1, s2, p1 + n, p2 + n);
      ResumedAtLine(a, b, s1, s2, p1 + n, p2 + n);
      if r.Go? {
        PlainIsFair(a, b, r.psz1, r.psz2, r.psz1, r.psz2);
      }
    }
  }

  lemma {:induction false} FirstLineEnds(b: string)
    ensures LineEnds(b, 0)
  {
  }

  /** So texts without empty lines and lone braces match exactly if they have the same significant lines in the same
      places, whatever blank lines and line statements there are. */
  lemma {:induction false} PlainMatchIff(a: string, b: string)
    requires Ended(a) && NoBareLine(a) && AllSeen(a) && AllSeen(b) && NoExtras(a) && NoExtras(b)
    ensures InStep(a, b, 0, 0)
    ensures Compared(a, b, 0, 0) <==> Located(a) == Located(b)
  {
    hide *;
    Begin(a, b);
    Start(a, b);
    FirstLineEnds(b);
    PlainIsFair(a, b, 0, 0, 0, 0);
    MatchIff(a, b);
    ItemsIs(a);
    ItemsIs(b);
    LocatedIs(a);
    LocatedIs(b);
    PlainItems(a, None);
    PlainItems(b, None);
    SameMapped(LocatedFrom(a, None), LocatedFrom(b, None));
  }

  function AsItems(lines: seq<(string, Option<Place>)>): seq<Item> {
    if lines == [] then [] else [Code(lines[0].0, lines[0].1)] + AsItems(lines[1..])
  }

  lemma {:induction false} SameMapped(x: seq<(string, Option<Place>)>, y: seq<(string, Option<Place>)>)
    ensures AsItems(x) == AsItems(y) <==> x == y
  {
    if x != [] && y != [] {
      SameMapped(x[1..], y[1..]);
      SameHeads(Code(x[0].0, x[0].1), AsItems(x[1..]), Code(y[0].0, y[0].1), AsItems(y[1..]));
      assert x == [x[0]] + x[1..] && y == [y[0]] + y[1..];
    }
  }

  lemma {:induction false} PlainItems(t: string, p: Option<Place>)
    requires NoExtras(t)
    ensures ItemsFrom(t, p) == AsItems(LocatedFrom(t, p))
    decreases |t|
  {
    hide LineLen, KindOf, DropLine, Behind, LocatedFrom, ItemsFrom, AsItems;
    if t == [] {
      NothingLocated(p);
      NoItems(p);
      NothingMapped();
    } else {
      DropLineIs(t);
      ItemsNext(t, p);
      LocatedNext(t, p);
      var q := Behind(t, p, false);
      PlainItems(DropLine(t), q);
      if KindOf(t) == Significant {
        OneMapped((t[..LineLen(t)], p), LocatedFrom(DropLine(t), q));
      } else {
        assert [] + ItemsFrom(DropLine(t), q) == ItemsFrom(DropLine(t), q);
        assert [] + LocatedFrom(DropLine(t), q) == LocatedFrom(DropLine(t), q);
      }
    }
  }

  lemma {:induction false} NothingMapped()
    ensures AsItems([]) == []
  {
  }

  lemma {:induction false} OneMapped(line: (string, Option<Place>), rest: seq<(string, Option<Place>)>)
    ensures AsItems([line] + rest) == [Code(line.0, line.1)] + AsItems(rest)
  {
    assert ([line] + rest)[1..] == rest;
  }
}
