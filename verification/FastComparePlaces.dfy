/** What a match of the fast comparison says of the files and line numbers of the code. */
module FastComparePlaces {
  import opened Basics
  import opened FastCompare
  import opened FastCompareEnds
  import opened FastCompareLines

  // ----- The code with its places -----------------------------------------------------------------------

  /** The significant lines, each with the file and number in force. */
  function LocatedFrom(t: string, p: Option<Place>): seq<(string, Option<Place>)>
    decreases |t|
  {
    if t == [] then []
    else
      (if KindOf(t) == Significant then [(t[..LineLen(t)], p)] else []) +
      LocatedFrom(DropLine(t), Behind(t, p, false))
  }

  function Located(t: string): seq<(string, Option<Place>)> {
    LocatedFrom(t, None)
  }

  /** In front of every line statement there are blanks only, no other white space. */
  predicate AllSeen(t: string)
    decreases |t|
  {
    t == [] || ((Sets(t, false).Some? ==> Sets(t, true) == Sets(t, false)) && AllSeen(DropLine(t)))
  }

  lemma {:induction false} SetsAnyway(t: string)
    ensures Sets(t, true).Some? ==> Sets(t, false) == Sets(t, true)
  {
    hide LineStatement, FileOf;
    var v := DropBlanks(t);
    if LineStatement(v).Some? {
      HashBehindBlanks(t);
    }
  }

  lemma {:induction false} HashBehindBlanks(t: string)
    requires DropBlanks(t) != [] && DropBlanks(t)[0] == '#'
    ensures DropSpaces(t) == DropBlanks(t)
  {
    if IsBlank(t[0]) {
      HashBehindBlanks(t[1..]);
    }
  }

  lemma {:induction false} ReadingSeen(t: string, n: nat, p: Option<Place>)
    requires AllSeen(t)
    ensures Reading(t, n, p, true) == Reading(t, n, p, false)
    decreases n
  {
    hide Sets, LineLen, Plus;
    if n > 0 && t != [] && LineLen(t) <= n {
      SetsAnyway(t);
      ReadingSeen(DropLine(t), n - LineLen(t), Behind(t, p, false));
    }
  }

  // ----- A line statement does not depend on what follows it ---------------------------------------------

  lemma {:induction false} FileLocal(f: string, y: string)
    requires '\n' in f
    ensures FileOf(f + y) == FileOf(f)
  {
    if f[0] != '\n' && f[0] != NUL {
      assert (f + y)[1..] == f[1..] + y;
      FileLocal(f[1..], y);
    }
  }

  lemma {:induction false} NumberValueLocal(u: string, y: string)
    requires '\n' in u && NumberAndFile(u).Some?
    ensures var l, m := NumberAndFile(u).value, NumberAndFile(u + y);
            m.Some? && m.value.iLine == l.iLine && FileOf(m.value.file) == FileOf(l.file)
  {
    hide Number, DropDigits, DropBlanks;
    DigitsLocal(0, u, y);
    var w := DropDigits(u);
    BlanksLocal(w, y);
    FileLocal(DropBlanks(w), y);
  }

  lemma {:induction false} ValueLocal(u: string, y: string)
    requires Settled(u)
    ensures LineStatement(u + y).Some? <==> LineStatement(u).Some?
    ensures LineStatement(u).Some? ==>
              var l, m := LineStatement(u).value, LineStatement(u + y).value;
              m.iLine == l.iLine && FileOf(m.file) == FileOf(l.file)
  {
    hide NumberAndFile, DropBlanks, DropWord, FileOf;
    StatementLocal(u, y);
    if LineStatement(u).Some? {
      assert (u + y)[0] == u[0] && (u + y)[1..] == u[1..] + y;
      BlanksLocal(u[1..], y);
      WordLocal(DropBlanks(u[1..]), y);
      NumberValueLocal(DropWord(DropBlanks(u[1..])), y);
    }
  }

  lemma {:induction false} SetsLocal(x: string, y: string)
    requires '\n' in x && NoBareLine(x)
    ensures Sets(x + y, false) == Sets(x, false)
  {
    hide DropSpaces, LineStatement, Bare, FileOf, Settled;
    SpacesLocal(x, y);
    SpacesNoBare(x);
    NotBareAtHead(DropSpaces(x));
    SettledIfNotBare(DropSpaces(x));
    ValueLocal(DropSpaces(x), y);
  }

  lemma {:induction false} NotBareAtHead(t: string)
    requires NoBareLine(t)
    ensures t != [] ==> !Bare(t)
  {
    hide Bare;
  }

  lemma {:induction false} LocatedNext(t: string, p: Option<Place>)
    requires t != []
    ensures LocatedFrom(t, p) ==
            (if KindOf(t) == Significant then [(t[..LineLen(t)], p)] else []) +
            LocatedFrom(DropLine(t), Behind(t, p, false))
  {
    hide KindOf, LineLen, Behind, DropLine;
  }

  /** Whole lines without a bare one are read on their own as they are in front of anything. */
  lemma {:induction false} LocatedShared(x: string, t: string, p: Option<Place>)
    requires Ended(x) && NoBareLine(x)
    ensures LocatedFrom(x + t, p) == LocatedFrom(x, p) + LocatedFrom(t, Reading(x, |x|, p, false))
    ensures Reading(x + t, |x|, p, false) == Reading(x, |x|, p, false)
    decreases |x|
  {
    hide *;
    if x == [] {
      assert x + t == t;
      ReadingNothing(t, p, false);
      ReadingNothing(x, p, false);
      NothingLocated(p);
    } else {
      SharedLine(x, t, p);
      var n := LineLen(x);
      ReadingNext(x, |x|, p, false);
      ReadingNext(x + t, |x|, p, false);
      LocatedNext(x, p);
      LocatedNext(x + t, p);
      DropLineIs(x);
      LocatedShared(DropLine(x), t, Behind(x, p, false));
      var rest := LocatedFrom(t, Reading(x, |x|, p, false));
      var q := Behind(x, p, false);
      Regrouped(if KindOf(x) == Significant then [(x[..n], p)] else [], LocatedFrom(DropLine(x), q), rest);
    }
  }

  lemma {:induction false} Regrouped<T>(a: seq<T>, b: seq<T>, c: seq<T>)
    ensures a + (b + c) == a + b + c
  {
  }

  lemma {:induction false} NothingLocated(p: Option<Place>)
    ensures LocatedFrom([], p) == []
  {
  }

  lemma {:induction false} DropLineIs(x: string)
    ensures |DropLine(x)| == |x| - LineLen(x) && (x != [] ==> LineLen(x) > 0) && LineLen(x) <= |x|
  {
    hide LineLen;
  }

  /** Its first line. */
  lemma {:induction false} SharedLine(x: string, t: string, p: Option<Place>)
    requires x != [] && Ended(x) && NoBareLine(x)
    ensures LineLen(x + t) == LineLen(x) && (x + t)[..LineLen(x)] == x[..LineLen(x)]
    ensures DropLine(x + t) == DropLine(x) + t
    ensures KindOf(x + t) == KindOf(x) && Behind(x + t, p, false) == Behind(x, p, false)
    ensures Ended(DropLine(x)) && NoBareLine(DropLine(x))
  {
    hide KindOf, LineLen, NoBareLine, Sets;
    assert x[|x| - 1] == '\n' && '\n' in x;
    FirstLineOf(x, t);
    LineLenLocal(x, t);
    KindLocalNoBare(x, t);
    SetsLocal(x, t);
    LaterNoBare(x, LineLen(x));
  }

  /** What is skipped holds no significant line. */
  lemma {:induction false} LocatedSkip(s: Skip, p: Option<Place>)
    ensures var r := SkipFrom(s);
            |r.text| <= |s.text| &&
            LocatedFrom(s.text, p) == LocatedFrom(r.text, Reading(s.text, |s.text| - |r.text|, p, false))
    decreases |s.text|
  {
    hide *;
    SkipShortens(s);
    SkipsNothing(s);
    if s.text == [] || KindOf(s.text) == Significant {
      ReadingNothing(s.text, p, false);
    } else {
      var o := StepOver(s);
      StepOverIs(s);
      OverIsDropLine(s);
      SkipShortens(o);
      DropLineIs(s.text);
      LocatedSkip(o, Behind(s.text, p, false));
      LocatedNext(s.text, p);
      ReadingNext(s.text, |s.text| - |SkipFrom(s).text|, p, false);
      assert [] + LocatedFrom(o.text, Behind(s.text, p, false)) == LocatedFrom(o.text, Behind(s.text, p, false));
    }
  }

  // ----- One difference ------------------------------------------------------------------------------------

  /** Up to the difference: lines that both texts share, then lines that are skipped. */
  lemma {:induction false} LocatedTo(a: string, s: nat, L: nat, p: Option<Place>)
    requires s <= L <= |a| && LineEnds(a, s) && LineEnds(a, L) && NoBareLine(a[s..L]) && PlaceAt(a, s) == p
    ensures var x := a[s..L];
            var q := NextAt(a, L);
            && PlaceAt(a, L) == Reading(x, |x|, p, false)
            && PlaceAt(a, q) == Reading(a[L..], q - L, PlaceAt(a, L), false)
            && LocatedFrom(a[s..], p) == LocatedFrom(x, p) + LocatedFrom(a[q..], PlaceAt(a, q))
  {
    hide *;
    var x, q := a[s..L], NextAt(a, L);
    SharedEnds(a, s, L);
    ReadingSplit(a, s, L - s, None, false);
    PlaceIs(a, s);
    PlaceIs(a, L);
    PlaceIs(a, q);
    assert a[s..] == x + a[L..];
    LocatedShared(x, a[L..], p);
    LocatedSkip(Skip(a[L..], 0, None, 0), PlaceAt(a, L));
    OneSide(a, L);
    ReadingSplit(a, L, q - L, None, false);
  }

  lemma {:induction false} PlaceIs(a: string, q: nat)
    ensures PlaceAt(a, q) == Reading(a, q, None, false)
  {
    hide Reading;
  }

  lemma {:induction false} SharedEnds(a: string, s: nat, L: nat)
    requires s <= L <= |a| && LineEnds(a, L) && LineEnds(a, s)
    ensures Ended(a[s..L])
  {
    if s < L {
      assert a[s..L][L - s - 1] == a[L - 1];
    }
  }

  /** The lines that go wrong in the number computed. */
  function ExtraAt(a: string, L: nat): nat
    requires L <= |a|
  {
    Extra(a[L..], NextAt(a, L) - L, AtEmpty(a, L))
  }

  /** Behind the difference both numbers are as wrong. */
  predicate EvenAt(a: string, b: string, p1: nat, p2: nat) {
    p1 <= |a| && p2 <= |b| && p1 - LineStart(a, p1) <= p2 &&
    var L1 := LineStart(a, p1);
    var L2 := p2 - (p1 - L1);
    PlaceAt(a, NextAt(a, L1)).None? || ExtraAt(a, L1) % WIDTH == ExtraAt(b, L2) % WIDTH
  }

  lemma {:induction false} ComputedIs(a: string, L: nat)
    requires L <= |a| && LineEnds(a, L) && AllSeen(a)
    ensures var q := NextAt(a, L);
            Computed(a, L, q) == Plus(Reading(a[L..], q - L, PlaceAt(a, L), false), ExtraAt(a, L))
  {
    hide Reading, Extra, Plus;
    ReadingSeen(a, L, None);
  }

  lemma {:induction false} SameShift(p: Option<Place>, q: Option<Place>, x: nat, y: nat)
    requires Plus(p, x) == Plus(q, y)
    requires (p.Some? ==> p.value.line < WIDTH) && (q.Some? ==> q.value.line < WIDTH)
    ensures p == q <==> p.None? || x % WIDTH == y % WIDTH
  {
    if p.Some? {
      var m, n := p.value.line, q.value.line;
      SameSums(m, n, x, y);
    }
  }

  lemma {:induction false} SameSums(m: nat, n: nat, x: nat, y: nat)
    requires m < WIDTH && n < WIDTH && (m + x) % WIDTH == (n + y) % WIDTH
    ensures m == n <==> x % WIDTH == y % WIDTH
  {
    if m == n {
      Cancel(m, x, y);
    }
    if x % WIDTH == y % WIDTH {
      AddUp(x, m);
      AddUp(y, n);
      Cancel(x % WIDTH, m, n);
    }
  }

  lemma {:induction false} Cancel(m: nat, x: nat, y: nat)
    requires (m + x) % WIDTH == (m + y) % WIDTH
    ensures x % WIDTH == y % WIDTH
  {
    var k := (m + x) / WIDTH - (m + y) / WIDTH;
    assert x - y == k * WIDTH;
    assert x == y + k * WIDTH;
    ModAdd(y, k);
  }

  lemma {:induction false} ModAdd(y: int, k: int)
    ensures (y + k * WIDTH) % WIDTH == y % WIDTH
  {
  }

  lemma {:induction false} ReadingBound(t: string, n: nat, p: Option<Place>, fBlanks: bool)
    requires p.Some? ==> p.value.line < WIDTH
    ensures var r := Reading(t, n, p, fBlanks); r.Some? ==> r.value.line < WIDTH
    decreases n
  {
    hide LineStatement, LineLen, DropSpaces, DropBlanks, FileOf;
    if n > 0 && t != [] && LineLen(t) <= n {
      StatementBound(if fBlanks then DropBlanks(t) else DropSpaces(t));
      ReadingBound(DropLine(t), n - LineLen(t), Behind(t, p, fBlanks), fBlanks);
    }
  }

  /** The two sides of a difference. */
  ghost predicate Sides(a: string, b: string, s1: nat, s2: nat, p1: nat, p2: nat, p: Option<Place>) {
    && Synced(a, b, s1, s2, p1, p2) && LineEnds(b, s2) && NoBareLine(a) && AllSeen(a) && AllSeen(b)
    && PlaceAt(a, s1) == p == PlaceAt(b, s2)
  }

  lemma {:induction false} SidesAre(a: string, b: string, s1: nat, s2: nat, p1: nat, p2: nat, p: Option<Place>)
    requires Sides(a, b, s1, s2, p1, p2, p)
    ensures Synced(a, b, s1, s2, p1, p2) && AllSeen(a) && AllSeen(b) && PlaceAt(a, s1) == p == PlaceAt(b, s2)
    ensures p1 <= |a| && p2 <= |b| && p1 - LineStart(a, p1) <= p2
    ensures var L1 := LineStart(a, p1);
            var L2 := p2 - (p1 - L1);
            && s1 <= L1 <= |a| && s2 <= L2 <= |b| && a[s1..L1] == b[s2..L2] && NoBareLine(a[s1..L1])
            && LineEnds(a, s1) && LineEnds(b, s2) && LineEnds(a, L1) && LineEnds(b, L2)
  {
    hide LineStart, AllSeen, NoBareLine, PlaceAt;
    var L1 := LineStart(a, p1);
    SyncedBounds(a, b, s1, s2, p1, p2);
    SyncedLine(a, b, s1, s2, p1, p2);
    SharedNoBare(a, s1, L1);
    var L2 := p2 - (p1 - L1);
    assert |a[s1..L1]| == |b[s2..L2]|;
    if L1 > s1 {
      assert a[L1 - 1] == a[s1..L1][L1 - s1 - 1] == b[s2..L2][L2 - s2 - 1] == b[L2 - 1];
    }
  }

  /** Both texts from the last common start of a line: what they share, and what comes behind the difference. */
  lemma {:induction false} SidesLocated(a: string, b: string, s1: nat, s2: nat, p1: nat, p2: nat, p: Option<Place>)
    requires Sides(a, b, s1, s2, p1, p2, p)
    ensures p1 <= |a| && p2 <= |b| && p1 - LineStart(a, p1) <= p2 && s1 <= |a| && s2 <= |b|
    ensures var L1 := LineStart(a, p1);
            var q1, q2 := NextAt(a, L1), NextAt(b, p2 - (p1 - L1));
            LocatedFrom(a[s1..], p) == LocatedFrom(b[s2..], p) <==>
            LocatedFrom(a[q1..], PlaceAt(a, q1)) == LocatedFrom(b[q2..], PlaceAt(b, q2))
  {
    hide *;
    SidesAre(a, b, s1, s2, p1, p2, p);
    var L1 := LineStart(a, p1);
    var L2 := p2 - (p1 - L1);
    var q1, q2 := NextAt(a, L1), NextAt(b, L2);
    LocatedTo(a, s1, L1, p);
    LocatedTo(b, s2, L2, p);
    SamePrefix(LocatedFrom(a[s1..L1], p), LocatedFrom(a[q1..], PlaceAt(a, q1)), LocatedFrom(b[q2..], PlaceAt(b, q2)));
  }

  /** Where it goes on, the places are the same exactly if the numbers computed are as wrong on both sides. */
  lemma {:induction false} SidesEven(a: string, b: string, s1: nat, s2: nat, p1: nat, p2: nat, p: Option<Place>)
    requires Sides(a, b, s1, s2, p1, p2, p)
    ensures p1 <= |a| && p2 <= |b| && p1 - LineStart(a, p1) <= p2
    ensures var L1 := LineStart(a, p1);
            var q1, q2 := NextAt(a, L1), NextAt(b, p2 - (p1 - L1));
            Resume(a, b, p1, p2).Go? ==> (PlaceAt(a, q1) == PlaceAt(b, q2) <==> EvenAt(a, b, p1, p2))
  {
    hide *;
    SidesAre(a, b, s1, s2, p1, p2, p);
    var L1 := LineStart(a, p1);
    var L2 := p2 - (p1 - L1);
    var q1, q2 := NextAt(a, L1), NextAt(b, L2);
    LocatedTo(a, s1, L1, p);
    LocatedTo(b, s2, L2, p);
    ComputedIs(a, L1);
    ComputedIs(b, L2);
    EvenAtIs(a, b, p1, p2);
    ResumeIff(a, b, p1, p2);
    PlaceBound(a, q1);
    PlaceBound(b, q2);
    if Resume(a, b, p1, p2).Go? {
      SameShift(PlaceAt(a, q1), PlaceAt(b, q2), ExtraAt(a, L1), ExtraAt(b, L2));
    }
  }

  lemma {:induction false} PlaceBound(a: string, q: nat)
    ensures PlaceAt(a, q).Some? ==> PlaceAt(a, q).value.line < WIDTH
  {
    ReadingBound(a, q, None, false);
  }

  lemma {:induction false} EvenAtIs(a: string, b: string, p1: nat, p2: nat)
    requires p1 <= |a| && p2 <= |b| && p1 - LineStart(a, p1) <= p2
    ensures var L1 := LineStart(a, p1);
            EvenAt(a, b, p1, p2) <==>
            PlaceAt(a, NextAt(a, L1)).None? || ExtraAt(a, L1) % WIDTH == ExtraAt(b, p2 - (p1 - L1)) % WIDTH
  {
    hide LineStart, PlaceAt, NextAt, ExtraAt;
  }

  /** The line the comparison resumes with, and what follows it. */
  lemma {:induction false} Resumed(a: string, b: string, s1: nat, s2: nat, p1: nat, p2: nat, p: Option<Place>)
    requires Sides(a, b, s1, s2, p1, p2, p) && Ended(a)
    ensures p1 <= |a| && p2 <= |b| && p1 - LineStart(a, p1) <= p2
    ensures var L1 := LineStart(a, p1);
            var q1, q2 := NextAt(a, L1), NextAt(b, p2 - (p1 - L1));
            var r := Resume(a, b, p1, p2);
            && (r == Done(true) ==> LocatedFrom(a[q1..], PlaceAt(a, q1)) == LocatedFrom(b[q2..], PlaceAt(b, q2)))
            && (r.Go? ==>
                && r.psz1 <= |a| && r.psz2 <= |b| && LineEnds(b, r.psz2)
                && (LocatedFrom(a[q1..], PlaceAt(a, q1)) == LocatedFrom(b[q2..], PlaceAt(b, q2)) <==>
                    && PlaceAt(a, q1) == PlaceAt(b, q2)
                    && LocatedFrom(a[r.psz1..], PlaceAt(a, r.psz1)) == LocatedFrom(b[r.psz2..], PlaceAt(b, r.psz2)))
                && (PlaceAt(a, q1) == PlaceAt(b, q2) ==> PlaceAt(a, r.psz1) == PlaceAt(b, r.psz2)))
  {
    hide *;
    SidesAre(a, b, s1, s2, p1, p2, p);
    var L1 := LineStart(a, p1);
    var L2 := p2 - (p1 - L1);
    var q1, q2 := NextAt(a, L1), NextAt(b, L2);
    ResumeIff(a, b, p1, p2);
    OneSide(a, L1);
    OneSide(b, L2);
    var r := Resume(a, b, p1, p2);
    if r == Done(true) {
      assert a[q1..] == [] && b[q2..] == [];
      NothingLocated(PlaceAt(a, q1));
      NothingLocated(PlaceAt(b, q2));
    } else if r.Go? {
      var n := LineLen(a[q1..]);
      FirstOf(a, q1);
      SameFirst(a, b, q1, q2, n);
      LineLocated(a, q1, n);
      LineLocated(b, q2, n);
      var (x, y) := (LocatedFrom(a[q1 + n..], PlaceAt(a, q1 + n)), LocatedFrom(b[q2 + n..], PlaceAt(b, q2 + n)));
      SameHeads((a[q1..q1 + n], PlaceAt(a, q1)), x, (b[q2..q2 + n], PlaceAt(b, q2)), y);
    }
  }

  lemma {:induction false} SameHeads<T>(x: T, xs: seq<T>, y: T, ys: seq<T>)
    ensures [x] + xs == [y] + ys <==> x == y && xs == ys
  {
    if [x] + xs == [y] + ys {
      assert ([x] + xs)[0] == x && ([y] + ys)[0] == y && ([x] + xs)[1..] == xs && ([y] + ys)[1..] == ys;
    }
  }

  lemma {:induction false} FirstOf(a: string, q: nat)
    requires q < |a| && Ended(a)
    ensures var n := LineLen(a[q..]); 0 < n <= |a| - q && a[q + n - 1] == '\n'
  {
    hide LineLen;
    var t := a[q..];
    assert t[|t| - 1] == '\n' && '\n' in t;
    LineLenLocal(t, []);
    assert t + [] == t;
  }

  lemma {:induction false} SameFirst(a: string, b: string, q1: nat, q2: nat, n: nat)
    requires 0 < n && q1 + n <= |a| && q2 + n <= |b| && a[q1..q1 + n] == b[q2..q2 + n]
    requires n == LineLen(a[q1..]) && a[q1 + n - 1] == '\n'
    ensures n == LineLen(b[q2..]) && LineEnds(b, q2 + n)
  {
    hide LineLen;
    var l := a[q1..q1 + n];
    assert l[n - 1] == '\n' && '\n' in l;
    assert a[q1..] == l + a[q1 + n..] && b[q2..] == l + b[q2 + n..];
    LineLenLocal(l, a[q1 + n..]);
    LineLenLocal(l, b[q2 + n..]);
    assert b[q2..q2 + n][n - 1] == b[q2 + n - 1];
  }

  /** A significant line. */
  lemma {:induction false} LineLocated(a: string, q: nat, n: nat)
    requires q + n <= |a| && LineEnds(a, q) && n > 0 && n == LineLen(a[q..]) && KindOf(a[q..]) == Significant
    ensures LocatedFrom(a[q..], PlaceAt(a, q)) ==
            [(a[q..q + n], PlaceAt(a, q))] + LocatedFrom(a[q + n..], PlaceAt(a, q + n))
    ensures PlaceAt(a, q + n) == Plus(PlaceAt(a, q), 1)
  {
    hide LineLen, KindOf, Reading, Plus, LineEnds, Sets, LocatedFrom;
    var t, p := a[q..], PlaceAt(a, q);
    assert t[..n] == a[q..q + n] && DropLine(t) == a[q + n..];
    SetsIsKind(t);
    LocatedNext(t, p);
    ReadingSplit(a, q, n, None, false);
    ReadingNext(t, n, p, false);
    ReadingNothing(DropLine(t), Behind(t, p, false), false);
  }

  // ----- The whole comparison -------------------------------------------------------------------------------

  /** At every difference behind which the comparison goes on, the numbers computed are as wrong on both sides. */
  ghost predicate Even(a: string, b: string, s1: nat, s2: nat, p1: nat, p2: nat)
    decreases if p1 <= |a| then |a| - p1 else 0
  {
    hide *;
    if !Synced(a, b, s1, s2, p1, p2) || !Ended(a) then true
    else
      SyncedBounds(a, b, s1, s2, p1, p2);
      RoundInStep(a, b, p1, p2);
      var r := Round(a, b, p1, p2);
      if SameBlock(a, b, p1, p2) then
        BlockSound(a, b, s1, s2, p1, p2);
        Even(a, b, s1, s2, r.psz1, r.psz2)
      else
        var n := Common(a[p1..], b[p2..]);
        RoundDiffers(a, b, p1, p2);
        r.Done? || (EvenAt(a, b, p1 + n, p2 + n) && Even(a, b, r.psz1, r.psz2, r.psz1, r.psz2))
  }

  lemma {:induction false} EvenBlock(a: string, b: string, s1: nat, s2: nat, p1: nat, p2: nat)
    requires Synced(a, b, s1, s2, p1, p2) && InStep(a, b, p1, p2) && p1 <= |a| && p2 <= |b| && SameBlock(a, b, p1, p2)
    requires Ended(a)
    ensures var r := Round(a, b, p1, p2);
            r.Go? && Synced(a, b, s1, s2, r.psz1, r.psz2) &&
            Even(a, b, s1, s2, p1, p2) == Even(a, b, s1, s2, r.psz1, r.psz2)
  {
    hide Synced, InStep, SameBlock, Round, EvenAt, Ended;
    BlockSound(a, b, s1, s2, p1, p2);
  }

  /** The texts differ n characters further on, and the round ends with r. */
  ghost predicate DiffersBy(a: string, b: string, s1: nat, s2: nat, p1: nat, p2: nat, n: nat, r: Outcome) {
    && Synced(a, b, s1, s2, p1, p2) && InStep(a, b, p1, p2) && p1 <= |a| && p2 <= |b| && !SameBlock(a, b, p1, p2)
    && Ended(a) && n == Common(a[p1..], b[p2..]) && r == Round(a, b, p1, p2)
  }

  lemma {:induction false} EvenDifference(a: string, b: string, s1: nat, s2: nat, p1: nat, p2: nat, n: nat, r: Outcome)
    requires DiffersBy(a, b, s1, s2, p1, p2, n, r)
    ensures r.Done? ==> Even(a, b, s1, s2, p1, p2)
    ensures r.Go? ==>
              (Even(a, b, s1, s2, p1, p2) <==>
               EvenAt(a, b, p1 + n, p2 + n) && Even(a, b, r.psz1, r.psz2, r.psz1, r.psz2))
  {
    hide Synced, InStep, SameBlock, Round, EvenAt, Ended, Common;
  }

  ghost predicate Differed(a: string, b: string, s1: nat, s2: nat, p1: nat, p2: nat, r: Outcome) {
    && p1 <= |a| && p2 <= |b| && p1 - LineStart(a, p1) <= p2 && r == Resume(a, b, p1, p2) && Ended(a)
    && Synced(a, b, s1, s2, p1, p2) && (r.Go? ==> Synced(a, b, r.psz1, r.psz2, r.psz1, r.psz2))
  }

  lemma {:induction false} DifferenceIs(a: string, b: string, s1: nat, s2: nat, p1: nat, p2: nat, n: nat, r: Outcome)
    requires DiffersBy(a, b, s1, s2, p1, p2, n, r)
    ensures Differed(a, b, s1, s2, p1 + n, p2 + n, r)
  {
    hide Synced, InStep, SameBlock, Round, Ended, Common, Resume, LineStart;
    DifferenceSynced(a, b, s1, s2, p1, p2);
    RoundDiffers(a, b, p1, p2);
  }

  lemma {:induction false} DifferedIs(a: string, b: string, s1: nat, s2: nat, p1: nat, p2: nat, r: Outcome)
    requires Differed(a, b, s1, s2, p1, p2, r)
    ensures p1 <= |a| && p2 <= |b| && p1 - LineStart(a, p1) <= p2
    ensures r == Resume(a, b, p1, p2) && Ended(a) && Synced(a, b, s1, s2, p1, p2)
    ensures r.Go? ==> Synced(a, b, r.psz1, r.psz2, r.psz1, r.psz2)
  {
    hide Synced, Ended, Resume, LineStart;
  }

  /** From two places where nothing has been different yet. */
  lemma {:induction false} ComparedPlaced(a: string, b: string, s1: nat, s2: nat, p1: nat, p2: nat, p: Option<Place>)
    requires Sides(a, b, s1, s2, p1, p2, p) && InStep(a, b, p1, p2) && Ended(a) && Compared(a, b, p1, p2)
    ensures s1 <= |a| && s2 <= |b|
    ensures Even(a, b, s1, s2, p1, p2) <==> LocatedFrom(a[s1..], p) == LocatedFrom(b[s2..], p)
    decreases |a| - p1
  {
    hide *;
    SidesAre(a, b, s1, s2, p1, p2, p);
    SyncedBounds(a, b, s1, s2, p1, p2);
    RoundInStep(a, b, p1, p2);
    ComparedRound(a, b, p1, p2);
    var r := Round(a, b, p1, p2);
    if SameBlock(a, b, p1, p2) {
      EvenBlock(a, b, s1, s2, p1, p2);
      SidesOn(a, b, s1, s2, p1, p2, s1, s2, r.psz1, r.psz2, p, p);
      ComparedPlaced(a, b, s1, s2, r.psz1, r.psz2, p);
    } else {
      var n := Common(a[p1..], b[p2..]);
      DiffersHere(a, b, s1, s2, p1, p2);
      PlacedDifference(a, b, s1, s2, p1, p2, n, r, p);
      if r.Go? && EvenAt(a, b, p1 + n, p2 + n) {
        ComparedPlaced(a, b, r.psz1, r.psz2, r.psz1, r.psz2, PlaceAt(a, r.psz1));
      }
    }
  }

  lemma {:induction false} DiffersHere(a: string, b: string, s1: nat, s2: nat, p1: nat, p2: nat)
    requires Synced(a, b, s1, s2, p1, p2) && InStep(a, b, p1, p2) && p1 <= |a| && p2 <= |b| && !SameBlock(a, b, p1, p2)
    requires Ended(a)
    ensures DiffersBy(a, b, s1, s2, p1, p2, Common(a[p1..], b[p2..]), Round(a, b, p1, p2))
  {
    hide Synced, InStep, SameBlock, Round, Ended, Common;
  }

  /** What is behind one difference decides. */
  lemma {:induction false} PlacedDifference(a: string, b: string, s1: nat, s2: nat, p1: nat, p2: nat, n: nat,
      r: Outcome,
      p: Option<Place>)
    requires Sides(a, b, s1, s2, p1, p2, p) && DiffersBy(a, b, s1, s2, p1, p2, n, r)
    ensures s1 <= |a| && s2 <= |b|
    ensures r == Done(true) ==> LocatedFrom(a[s1..], p) == LocatedFrom(b[s2..], p)
    ensures r.Done? ==> Even(a, b, s1, s2, p1, p2)
    ensures r.Go? && !EvenAt(a, b, p1 + n, p2 + n) ==>
              !Even(a, b, s1, s2, p1, p2) && LocatedFrom(a[s1..], p) != LocatedFrom(b[s2..], p)
    ensures r.Go? && EvenAt(a, b, p1 + n, p2 + n) ==>
              && r.psz1 <= |a| && r.psz2 <= |b|
              && Sides(a, b, r.psz1, r.psz2, r.psz1, r.psz2, PlaceAt(a, r.psz1))
              && (Even(a, b, s1, s2, p1, p2) <==> Even(a, b, r.psz1, r.psz2, r.psz1, r.psz2))
              && (LocatedFrom(a[s1..], p) == LocatedFrom(b[s2..], p) <==>
                  LocatedFrom(a[r.psz1..], PlaceAt(a, r.psz1)) == LocatedFrom(b[r.psz2..], PlaceAt(a, r.psz1)))
  {
    hide *;
    SidesAre(a, b, s1, s2, p1, p2, p);
    DifferenceIs(a, b, s1, s2, p1, p2, n, r);
    DifferedIs(a, b, s1, s2, p1 + n, p2 + n, r);
    EvenDifference(a, b, s1, s2, p1, p2, n, r);
    SidesOn(a, b, s1, s2, p1, p2, s1, s2, p1 + n, p2 + n, p, p);
    SidesLocated(a, b, s1, s2, p1 + n, p2 + n, p);
    SidesEven(a, b, s1, s2, p1 + n, p2 + n, p);
    Resumed(a, b, s1, s2, p1 + n, p2 + n, p);
    if r.Go? && EvenAt(a, b, p1 + n, p2 + n) {
      SidesOn(a, b, s1, s2, p1, p2, r.psz1, r.psz2, r.psz1, r.psz2, p, PlaceAt(a, r.psz1));
    }
  }

  lemma {:induction false} SidesOn(a: string, b: string, s1: nat, s2: nat, p1: nat, p2: nat, t1: nat, t2: nat, q1: nat,
      q2: nat, p: Option<Place>, p': Option<Place>)
    requires Sides(a, b, s1, s2, p1, p2, p) && Synced(a, b, t1, t2, q1, q2) && LineEnds(b, t2)
    requires PlaceAt(a, t1) == p' == PlaceAt(b, t2)
    ensures Sides(a, b, t1, t2, q1, q2, p')
  {
    hide Synced, LineEnds, NoBareLine, AllSeen, PlaceAt;
  }

  /** For all texts, newline-terminated and without a bare line the new one, and with blanks only in front of line
      statements: a match means that every significant line has kept its file and its number, if and only if at
      every difference the numbers computed were as wrong on both sides. */
  lemma {:induction false} MatchMeansSamePlaces(a: string, b: string)
    requires Ended(a) && NoBareLine(a) && AllSeen(a) && AllSeen(b)
    ensures InStep(a, b, 0, 0)
    ensures Compared(a, b, 0, 0) ==> (Located(a) == Located(b) <==> Even(a, b, 0, 0, 0, 0))
  {
    hide *;
    Begin(a, b);
    Start(a, b);
    assert a[0..] == a && b[0..] == b;
    SidesAtFirst(a, b);
    LocatedIs(a);
    LocatedIs(b);
    if Compared(a, b, 0, 0) {
      ComparedPlaced(a, b, 0, 0, 0, 0, None);
    }
  }

  lemma {:induction false} LocatedIs(t: string)
    ensures Located(t) == LocatedFrom(t, None)
  {
    hide LocatedFrom;
  }

  lemma {:induction false} SidesAtFirst(a: string, b: string)
    requires Synced(a, b, 0, 0, 0, 0) && NoBareLine(a) && AllSeen(a) && AllSeen(b)
    ensures Sides(a, b, 0, 0, 0, 0, None)
  {
    hide Synced, NoBareLine, AllSeen;
  }

  // ----- An empty line more -----------------------------------------------------------------------------------

  lemma {:induction false} InBlock(a: string, b: string, p: nat, cch: nat, m: nat)
    requires p <= m < p + cch && p + cch <= |a| && p + cch <= |b| && a[p..p + cch] == b[p..p + cch]
    ensures a[m] == b[m]
  {
    assert a[m] == a[p..p + cch][m - p];
  }

  /** The next round from p, if the texts first differ at m and p is not a block away. */
  lemma {:induction false} RoundTo(a: string, b: string, p: nat, m: nat)
    requires p <= m < |a| && m < |b| && a[..m] == b[..m] && a[m] != b[m]
    ensures InStep(a, b, p, p) && InStep(a, b, m, m)
    ensures if SameBlock(a, b, p, p) then
              var cch := Block(a, b, p, p); 0 < cch <= m - p && Round(a, b, p, p) == Go(p + cch, p + cch)
            else m - LineStart(a, m) <= m && Round(a, b, p, p) == Resume(a, b, m, m)
  {
    hide *;
    SameSteps(a, b, p);
    SameSteps(a, b, m);
    if SameBlock(a, b, p, p) {
      RoundBlock(a, b, p, p);
      var cch := Block(a, b, p, p);
      if p + cch > m {
        InBlock(a, b, p, cch, m);
      }
    } else {
      RoundDiffers(a, b, p, p);
      assert a[p..][..m - p] == a[..m][p..] && b[p..][..m - p] == b[..m][p..];
      CommonIs(a[p..], b[p..], m - p);
    }
  }

  lemma {:induction false} SameSteps(a: string, b: string, p: nat)
    requires p <= |a| && p <= |b|
    ensures InStep(a, b, p, p) && p - LineStart(a, p) <= p
  {
  }

  /** Up to the first difference nothing happens. */
  lemma {:induction false} ToDifference(a: string, b: string, p: nat, m: nat)
    requires p <= m < |a| && m < |b| && a[..m] == b[..m] && a[m] != b[m]
    ensures InStep(a, b, p, p) && InStep(a, b, m, m) && EndOf(a, b, p, p) == EndOf(a, b, m, m)
    decreases m - p
  {
    hide *;
    RoundTo(a, b, p, m);
    RoundTo(a, b, m, m);
    EndOfNext(a, b, p, p);
    EndOfNext(a, b, m, m);
    if SameBlock(a, b, p, p) {
      ToDifference(a, b, p + Block(a, b, p, p), m);
    } else {
      ResumeOnward(a, b, m, m);
      OnwardIs(a, m, m, Resume(a, b, m, m));
    }
  }

  lemma {:induction false} OnwardIs(a: string, p1: nat, p2: nat, r: Outcome)
    requires p1 < |a| && (r.Go? ==> Onward(a, p1, p2, r.psz1, r.psz2))
    ensures r.Go? ==> r.psz1 > p1
  {
  }

  /** What comes of the first difference. */
  lemma {:induction false} DifferenceEnds(a: string, b: string, m: nat)
    requires m < |a| && m < |b| && a[..m] == b[..m] && a[m] != b[m]
    ensures InStep(a, b, 0, 0) && m - LineStart(a, m) <= m
    ensures match Resume(a, b, m, m)
            case Done(fMatch) => EndOf(a, b, 0, 0) == Some(fMatch)
            case Go(q1, q2) => InStep(a, b, q1, q2) && EndOf(a, b, 0, 0) == EndOf(a, b, q1, q2)
  {
    hide *;
    ToDifference(a, b, 0, m);
    RoundTo(a, b, m, m);
    EndOfNext(a, b, m, m);
    ResumeOnward(a, b, m, m);
    OnwardIs(a, m, m, Resume(a, b, m, m));
  }

  /** One line that is blank. */
  predicate BlankLine(w: string) {
    w != [] && w[|w| - 1] == '\n' && forall k :: 0 <= k < |w| - 1 ==> IsBlank(w[k])
  }

  lemma {:induction false} BlankLineIs(w: string, t: string)
    requires BlankLine(w)
    ensures DropSpaces(w + t) == "\n" + t && LineLen(w + t) == |w| && DropLine(w + t) == t && KindOf(w + t) == Blank
    ensures Sets(w + t, false).None?
  {
    if |w| == 1 {
      assert w == "\n" && (w + t)[1..] == t;
    } else {
      assert (w + t)[1..] == w[1..] + t;
      BlankLineIs(w[1..], t);
    }
    assert ("\n" + t)[0] == '\n';
  }

  /** A text, the lines x of it with a place, and the line behind them. */
  ghost predicate Placed(x: string, a: string) {
    && Ended(x) && NoBareLine(x) && AllSeen(a) && |x| < |a| && a[..|x|] == x && PlaceAt(x, |x|).Some?
  }

  lemma {:induction false} PlacedAt(x: string, a: string)
    requires Placed(x, a)
    ensures Reading(a, |x|, None, true) == PlaceAt(a, |x|) == PlaceAt(x, |x|) && PlaceAt(a, |x|).Some?
    ensures LineEnds(a, |x|) && PlaceAt(a, |x|).value.line < WIDTH && LineStart(a, |x|) == |x|
  {
    hide Reading, AllSeen, NoBareLine;
    assert a == x + a[|x|..];
    LocatedShared(x, a[|x|..], None);
    ReadingSeen(a, |x|, None);
    PlaceBound(a, |x|);
    if x != [] {
      assert a[|x| - 1] == a[..|x|][|x| - 1] == '\n';
    }
  }

  /** Blank lines, then a significant one. */
  lemma {:induction false} OverBlank(a: string, L: nat, w: string, y: string)
    requires L <= |a| && a[L..] == w + y && BlankLine(w) && y != [] && KindOf(y) == Significant
    ensures NextAt(a, L) == L + |w| && a[L + |w|..] == y && Braces(a[L..]) == Braces(y)
    ensures Computed(a, L, L + |w|) == Plus(Reading(a, L, None, true), 1 + AtEmpty(a, L))
  {
    hide KindOf, DropSpaces, LineLen, Reading, Sig, Braces, Sets, AtEmpty;
    var t := a[L..];
    var p := Reading(a, L, None, true);
    BlankLineIs(w, y);
    var s := Skip(t, 0, None, 0);
    BlankStep(s);
    SigStep(t);
    SkipsNothing(SkipStep(s));
    assert SkipFrom(s) == SkipFrom(SkipStep(s));
    assert a[L + |w|..] == t[|w|..];
    ReadingNext(t, |w|, p, false);
    ReadingNothing(y, Behind(t, p, false), false);
    ExtraNext(t, |w|, AtEmpty(a, L));
    ExtraNothing(y, AtEmpty(a, L));
    PlusPlus(p, 1, AtEmpty(a, L));
  }

  lemma {:induction false} AtOnce(a: string, L: nat, y: string)
    requires L <= |a| && a[L..] == y && y != [] && KindOf(y) == Significant
    ensures NextAt(a, L) == L && Computed(a, L, L) == Plus(Reading(a, L, None, true), 0)
  {
    hide KindOf, Reading;
    SkipsNothing(Skip(y, 0, None, 0));
    NotEmpty(y);
    ReadingNothing(y, Reading(a, L, None, true), false);
    ExtraNothing(y, 0);
    assert a[L] == y[0];
  }

  lemma {:induction false} NotEmpty(y: string)
    requires y != [] && KindOf(y) == Significant
    ensures y[0] != '\n'
  {
  }

  /** Where a file is in force, a blank line more in the old output is a difference: the lines behind it have other
      numbers. */
  lemma {:induction false} BlankLineMatters(x: string, w: string, y: string)
    requires BlankLine(w) && y != [] && KindOf(y) == Significant && y[0] != w[0]
    requires Placed(x, x + y) && Placed(x, x + w + y)
    ensures InStep(x + y, x + w + y, 0, 0) && EndOf(x + y, x + w + y, 0, 0) == Some(false)
  {
    hide *;
    var a, b, m := x + y, x + w + y, |x|;
    PlacedAt(x, a);
    PlacedAt(x, b);
    PlacedPrefix(x, a);
    PlacedPrefix(x, b);
    assert a[m..] == y && b[m..] == w + y;
    BlankNonempty(w);
    assert a[m] == a[m..][0] && b[m] == b[m..][0] == w[0];
    BlankLineStops(a, b, m, w, y);
    DifferenceEnds(a, b, m);
  }

  lemma {:induction false} BlankNonempty(w: string)
    requires BlankLine(w)
    ensures w != []
  {
  }

  lemma {:induction false} BlankLineStops(a: string, b: string, m: nat, w: string, y: string)
    requires m <= |a| && m <= |b| && LineEnds(b, m) && LineStart(a, m) == m && y != [] && KindOf(y) == Significant
    requires BlankLine(w) && a[m..] == y && b[m..] == w + y
    requires var p := Reading(a, m, None, true); p == Reading(b, m, None, true) && p.Some? && p.value.line < WIDTH
    ensures Resume(a, b, m, m) == Done(false)
  {
    hide *;
    AtOnce(a, m, y);
    OverBlank(b, m, w, y);
    AtEmptyIs(b, m);
    AnotherLine(Reading(a, m, None, true), 1 + AtEmpty(b, m));
    ResumeIff(a, b, m, m);
  }

  lemma {:induction false} AnotherLine(p: Option<Place>, n: nat)
    requires p.Some? && p.value.line < WIDTH && (n == 1 || n == 2)
    ensures Plus(p, n) != Plus(p, 0)
  {
  }

  /** Behind equal texts the comparison ends with a match. */
  lemma {:induction false} RestMatches(a: string, b: string, p1: nat, p2: nat)
    requires InStep(a, b, p1, p2) && p1 <= |a| && p2 <= |b| && a[p1..] == b[p2..] && Ended(a)
    ensures EndOf(a, b, p1, p2) == Some(true)
    decreases |a| - p1
  {
    hide Resume, Round, EndOf, LineStart, Common, Block, InStep, Onward;
    EndOfNext(a, b, p1, p2);
    if p1 < |a| {
      BlockOfSame(a, b, p1, p2);
      RoundBlock(a, b, p1, p2);
      var cch := Block(a, b, p1, p2);
      assert a[p1 + cch..] == a[p1..][cch..] && b[p2 + cch..] == b[p2..][cch..];
      RestMatches(a, b, p1 + cch, p2 + cch);
    } else {
      assert |a[p1..]| == |b[p2..]|;
      EndsMatch(a, b);
    }
  }

  lemma {:induction false} BlockOfSame(a: string, b: string, p1: nat, p2: nat)
    requires p1 < |a| && p2 <= |b| && a[p1..] == b[p2..]
    ensures SameBlock(a, b, p1, p2) && Block(a, b, p1, p2) > 0
  {
    var cch := Block(a, b, p1, p2);
    assert |a[p1..]| == |b[p2..]|;
    assert a[p1..p1 + cch] == a[p1..][..cch] && b[p2..p2 + cch] == b[p2..][..cch];
  }

  lemma {:induction false} EndsMatch(a: string, b: string)
    requires Ended(a)
    ensures InStep(a, b, |a|, |b|) && Round(a, b, |a|, |b|) == Done(true)
  {
    assert Common(a[|a|..], b[|b|..]) == 0;
  }

  lemma {:induction false} TwoBlanks(a: string, L: nat, y: string)
    requires L <= |a| && a[L..] == " \n" + " \n" + y && y != [] && KindOf(y) == Significant
    ensures NextAt(a, L) == L + 4 && a[L + 4..] == y && Braces(a[L..]) == Braces(y)
    ensures Computed(a, L, L + 4) == Plus(Reading(a, L, None, true), 2)
    ensures PlaceAt(a, L + 4) == Reading(a[L..], 4, PlaceAt(a, L), false) || !LineEnds(a, L)
    ensures Reading(a[L..], 4, PlaceAt(a, L), false) == Plus(PlaceAt(a, L), 2)
  {
    hide KindOf, DropSpaces, LineLen, Reading, Sig, Braces, Sets, LineEnds;
    var t := a[L..];
    var w, u := " \n", " \n" + y;
    assert t == w + u;
    BlankLineIs(w, u);
    BlankLineIs(w, y);
    var s := Skip(t, 0, None, 0);
    BlankStep(s);
    SigStep(t);
    SigStep(u);
    BlankStep(SkipStep(s));
    SkipsNothing(SkipStep(SkipStep(s)));
    assert SkipFrom(s) == SkipFrom(SkipStep(s)) == SkipFrom(SkipStep(SkipStep(s)));
    assert a[L + 4..] == t[4..] == y;
    TwoLines(t, u, y, Reading(a, L, None, true));
    TwoLines(t, u, y, PlaceAt(a, L));
    ExtraNext(t, 4, 0);
    ExtraNext(u, 2, 0);
    ExtraNothing(y, 0);
    assert a[L] == t[0] == ' ';
    PlusPlus(Reading(a, L, None, true), 2, 0);
    if LineEnds(a, L) {
      ReadingSplit(a, L, 4, None, false);
    }
  }

  lemma {:induction false} TwoLines(t: string, u: string, y: string, p: Option<Place>)
    requires t != [] && u != [] && DropLine(t) == u && DropLine(u) == y && LineLen(t) == LineLen(u) == 2
    requires Sets(t, false).None? && Sets(u, false).None?
    ensures Reading(t, 4, p, false) == Plus(p, 2)
  {
    hide LineLen, Reading, Sets, DropLine, Plus;
    ReadingNext(t, 4, p, false);
    ReadingNext(u, 2, Behind(t, p, false), false);
    ReadingNothing(y, Behind(u, Behind(t, p, false), false), false);
    PlusPlus(p, 1, 1);
  }

  /** Where the comparison goes on behind an empty line on one side and two lines with a blank on the other. */
  lemma {:induction false} EmptyLineGoes(a: string, b: string, m: nat, y: string)
    requires m <= |a| && m <= |b| && LineEnds(b, m) && LineStart(a, m) == m && y != [] && KindOf(y) == Significant
    requires a[m..] == "\n" + y && b[m..] == " \n" + " \n" + y
    requires Reading(a, m, None, true) == Reading(b, m, None, true)
    ensures Resume(a, b, m, m) == Go(m + 1 + LineLen(y), m + 4 + LineLen(y))
  {
    hide *;
    EmptyIsBlank();
    OverBlank(a, m, "\n", y);
    TwoBlanks(b, m, y);
    assert a[m] == a[m..][0] == '\n';
    AtEmptyIs(a, m);
    ResumeIff(a, b, m, m);
    var n := LineLen(y);
    DropLineIs(y);
    HeadOf(a, m + 1, n);
    HeadOf(b, m + 4, n);
  }

  lemma {:induction false} AtEmptyIs(a: string, L: nat)
    ensures AtEmpty(a, L) == if L < |a| && a[L] == '\n' then 1 else 0
  {
  }

  lemma {:induction false} EmptyIsBlank()
    ensures BlankLine("\n")
  {
  }

  lemma {:induction false} EmptyLineMatches(x: string, y: string)
    requires y != [] && Ended(y) && KindOf(y) == Significant
    requires Placed(x, x + "\n" + y) && Placed(x, x + " \n \n" + y)
    ensures var a, b := x + "\n" + y, x + " \n \n" + y; InStep(a, b, 0, 0) && EndOf(a, b, 0, 0) == Some(true)
  {
    hide *;
    var a, b, m, n := x + "\n" + y, x + " \n \n" + y, |x|, LineLen(y);
    PlacedAt(x, a);
    PlacedAt(x, b);
    PlacedPrefix(x, a);
    PlacedPrefix(x, b);
    assert a[m..] == "\n" + y && b[m..] == " \n" + " \n" + y;
    EmptyLineGoes(a, b, m, y);
    assert a[m] == a[m..][0] == '\n' && b[m] == b[m..][0] == ' ';
    DifferenceEnds(a, b, m);
    DropLineIs(y);
    assert a[m + 1 + n..] == y[n..] == b[m + 4 + n..];
    EndedWith(x + "\n", y);
    RestMatches(a, b, m + 1 + n, m + 4 + n);
  }

  lemma {:induction false} PlacedPrefix(x: string, a: string)
    requires Placed(x, a)
    ensures |x| < |a| && a[..|x|] == x
  {
    hide AllSeen, NoBareLine, PlaceAt;
  }

  lemma {:induction false} EndedWith(x: string, y: string)
    requires y != [] && Ended(y)
    ensures Ended(x + y)
  {
  }

  /** But an empty line at the difference counts twice: in the place of two lines with a blank it makes a match,
      although the lines behind it have moved by one. */
  lemma {:induction false} EmptyLineSlipsIn(x: string, y: string)
    requires y != [] && Ended(y) && KindOf(y) == Significant
    requires Placed(x, x + "\n" + y) && Placed(x, x + " \n \n" + y)
    ensures var a, b := x + "\n" + y, x + " \n \n" + y;
            && InStep(a, b, 0, 0) && EndOf(a, b, 0, 0) == Some(true)
            && a[|x| + 1..] == y == b[|x| + 4..] && PlaceAt(a, |x| + 1) != PlaceAt(b, |x| + 4)
  {
    hide *;
    var a, b, m := x + "\n" + y, x + " \n \n" + y, |x|;
    EmptyLineMatches(x, y);
    PlacedAt(x, a);
    PlacedAt(x, b);
    assert a[m..] == "\n" + y && b[m..] == " \n" + " \n" + y;
    TwoBlanks(b, m, y);
    OnePlace(a, m, y);
    PlusSome(PlaceAt(a, m), 1);
    NextLine(Plus(PlaceAt(a, m), 1));
    PlusPlus(PlaceAt(a, m), 1, 1);
  }

  lemma {:induction false} NextLine(p: Option<Place>)
    requires p.Some? && p.value.line < WIDTH
    ensures Plus(p, 1) != p
  {
  }

  lemma {:induction false} PlusSome(p: Option<Place>, n: nat)
    ensures Plus(p, n).Some? <==> p.Some?
  {
  }

  lemma {:induction false} OnePlace(a: string, L: nat, y: string)
    requires L <= |a| && a[L..] == "\n" + y && LineEnds(a, L)
    ensures PlaceAt(a, L + 1) == Plus(PlaceAt(a, L), 1)
    ensures Plus(PlaceAt(a, L), 1).Some? ==> Plus(PlaceAt(a, L), 1).value.line < WIDTH
  {
    hide Reading, LineEnds, Sets;
    BlankLineIs("\n", y);
    ReadingSplit(a, L, 1, None, false);
    ReadingNext(a[L..], 1, PlaceAt(a, L), false);
    ReadingNothing(y, Plus(PlaceAt(a, L), 1), false);
  }

  /** And a line statement behind other white space is not seen by the scan backward. */
  lemma {:induction false} HiddenStatement(t: string)
    requires LineStatement(t).Some?
    ensures Sets("\r" + t, false) == Sets(t, false) && Sets(t, false).Some? && Sets("\r" + t, true).None?
    ensures !AllSeen("\r" + t)
  {
    hide NumberAndFile;
    assert ("\r" + t)[1..] == t && ("\r" + t)[0] == '\r';
    assert DropSpaces(t) == t && DropSpaces("\r" + t) == t && DropBlanks("\r" + t) == "\r" + t;
  }

  // ----- One pair of texts -----------------------------------------------------------------------------------

  predicate PlainSpaces(t: string) {
    forall k :: 0 <= k < |t| ==> t[k] != '\r' && t[k] != '\U{b}' && t[k] != '\U{c}'
  }

  lemma {:induction false} PlainIsSeen(t: string)
    requires PlainSpaces(t)
    ensures AllSeen(t)
    decreases |t|
  {
    hide LineLen, Sets;
    if t != [] {
      PlainIsBlanks(t);
      PlainIsSeen(DropLine(t));
    }
  }

  lemma {:induction false} PlainIsBlanks(t: string)
    requires PlainSpaces(t)
    ensures Sets(t, true) == Sets(t, false)
  {
    hide LineStatement;
    PlainDrops(t);
  }

  lemma {:induction false} PlainDrops(t: string)
    requires PlainSpaces(t)
    ensures DropSpaces(t) == DropBlanks(t)
  {
    if t != [] && IsBlank(t[0]) {
      PlainDrops(t[1..]);
    }
  }

  lemma {:induction false} NoHash(t: string)
    requires '#' !in t
    ensures NoBareLine(t)
  {
    if t != [] {
      assert t == [t[0]] + t[1..];
      NoHash(t[1..]);
    }
  }

  function SharedPart(): string {
    "#line 10 " + "\"f.c\"\n" + "int x;\n"
  }

  /** The line statement, whatever comes behind its file. */
  lemma {:induction false} StatementIs(t: string)
    ensures Sets("#line 10 " + t, false).Some? && Sets("#line 10 " + t, false).value.line == 10
  {
    hide FileOf;
    var u := "#line 10 " + t;
    var v := "10 " + t;
    assert u[0] == '#' && DropSpaces(u) == u;
    assert u[1..] == "line " + v && (u[1..])[0] == 'l' && DropBlanks(u[1..]) == u[1..];
    assert IsWord(u[1..]) && u[1..][5..] == v;
    assert v[1..] == "0 " + t && v[2..] == " " + t && v[1..][1..] == v[2..];
    assert v[0] == '1' && v[1..][0] == '0' && v[2..][0] == ' ';
    assert Number(0, v) == Number(1, v[1..]) == Number(10, v[2..]) == 10;
    assert DropDigits(v[2..]) == v[2..];
    assert DropDigits(v) == DropDigits(v[1..]) == DropDigits(v[2..]);
  }

  lemma {:induction false} StaysSome(t: string, n: nat, p: Option<Place>)
    requires p.Some?
    ensures Reading(t, n, p, false).Some?
    decreases n
  {
    hide LineLen, Sets;
    if n > 0 && t != [] && LineLen(t) <= n {
      StaysSome(DropLine(t), n - LineLen(t), Behind(t, p, false));
    }
  }

  lemma {:induction false} PiecesAre()
    ensures PlainSpaces("#line 10 ") && PlainSpaces("\"f.c\"\n") && PlainSpaces("int x;\n")
    ensures '#' !in "line 10 " && '#' !in "\"f.c\"\n" && '#' !in "int x;\n" && Ended("int x;\n")
    ensures "#line 10 "[0] == '#' && "#line 10 "[1..] == "line 10 "
  {
  }

  lemma {:induction false} NotInBoth(x: string, y: string)
    requires '#' !in x && '#' !in y
    ensures '#' !in x + y
  {
  }

  lemma {:induction false} SharedHasPlace(t: string)
    ensures var x := "#line 10 " + t; PlaceAt(x, |x|).Some?
  {
    hide Sets, LineLen, Reading, LineStatement, DropLine;
    var x := "#line 10 " + t;
    StatementIs(t);
    DropLineIs(x);
    ReadingNext(x, |x|, None, false);
    StaysSome(DropLine(x), |x| - LineLen(x), Behind(x, None, false));
  }

  lemma {:induction false} SharedNotBare(t: string)
    requires '#' !in t
    ensures NoBareLine("#line 10 " + t)
  {
    hide Bare, NoBareLine;
    var x := "#line 10 " + t;
    PiecesAre();
    assert x[1..] == "line 10 " + t;
    NotInBoth("line 10 ", t);
    NoHash(x[1..]);
    HashNotBare(t);
    NoBareIs(x);
  }

  lemma {:induction false} SharedIs()
    ensures var x := SharedPart();
            Ended(x) && NoBareLine(x) && PlainSpaces(x) && PlaceAt(x, |x|).Some?
  {
    hide *;
    var x, t := SharedPart(), "\"f.c\"\n" + "int x;\n";
    SharedPartIs();
    assert x == "#line 10 " + t;
    PiecesAre();
    PlainBoth("\"f.c\"\n", "int x;\n");
    PlainBoth("#line 10 ", t);
    NotInBoth("\"f.c\"\n", "int x;\n");
    EndedWith("#line 10 " + "\"f.c\"\n", "int x;\n");
    SharedHasPlace(t);
    SharedNotBare(t);
  }

  lemma {:induction false} HashNotBare(t: string)
    ensures !Bare("#line 10 " + t)
  {
    var u := "#line 10 " + t;
    assert u[1..] == "line 10 " + t && u[1..][4] == ' ' && DropBlanks(u[1..]) == u[1..];
  }

  lemma {:induction false} NoBareIs(t: string)
    ensures NoBareLine(t) <==> t == [] || (!Bare(t) && NoBareLine(t[1..]))
  {
    hide Bare;
  }

  lemma {:induction false} CodeIs()
    ensures var y := "int y;\n"; y != [] && y[0] == 'i' && KindOf(y) == Significant && PlainSpaces(y)
    ensures BlankLine("\n") && PlainSpaces("\n")
  {
    assert DropSpaces("int y;\n") == "int y;\n";
  }

  lemma {:induction false} PlainBoth(x: string, y: string)
    requires PlainSpaces(x) && PlainSpaces(y)
    ensures PlainSpaces(x + y)
  {
  }

  /** Line 12 of f.c in the new output is line 13 in the old one: no match. */
  lemma {:induction false} MovedLine()
    ensures var x := "#line 10 " + "\"f.c\"\n" + "int x;\n";
            var a, b := x + "int y;\n", x + "\n" + "int y;\n";
            InStep(a, b, 0, 0) && EndOf(a, b, 0, 0) == Some(false)
  {
    hide *;
    var x, w, y := SharedPart(), "\n", "int y;\n";
    SharedPartIs();
    SharedIs();
    CodeIs();
    PlainBoth(x, y);
    PlainBoth(x, w);
    PlainBoth(x + w, y);
    PlainIsSeen(x + y);
    PlainIsSeen(x + w + y);
    PlacedIs(x, x + y);
    PlacedIs(x, x + w + y);
    BlankLineMatters(x, w, y);
  }

  lemma {:induction false} SharedPartIs()
    ensures SharedPart() == "#line 10 " + "\"f.c\"\n" + "int x;\n"
  {
  }

  lemma {:induction false} PlacedIs(x: string, a: string)
    requires Ended(x) && NoBareLine(x) && AllSeen(a) && |x| < |a| && a[..|x|] == x && PlaceAt(x, |x|).Some?
    ensures Placed(x, a)
  {
    hide AllSeen, NoBareLine, PlaceAt;
  }
}
