/** Which cache files are read, and what they say, by their lines alone. */
module ObjCacheGrammar {
  import opened Basics
  import opened ObjCache

  // ----- What is asked of the lines ------------------------------------------------------

  ghost predicate Announced(b: seq<Line>, i: nat) {
    exists n: nat :: Digests(n) in b && i < n
  }

  /** A line that is not taken behind these others: an unknown one, one that has been there already, or one for a
      digest that has not been announced. A generation or key of 0 counts as not there. */
  ghost predicate Refused(b: seq<Line>, line: Line) {
    match line
    case Magic => true
    case Other => true
    case TheEnd(_) => false
    case Generation(_) => exists n :: Generation(n) in b && n % UINT32 != 0
    case Digests(_) => exists n: nat :: Digests(n) in b
    case DigestAbs(i, _) => !Announced(b, i) || exists path :: DigestAbs(i, path) in b
    case Key(i, _) => !Announced(b, i) || exists key: nat :: Key(i, key) in b && key % UINT32 != 0
    case Target(i, _) => !Announced(b, i) || exists target :: Target(i, target) in b
    case CompArgvSum(i, _) => !Announced(b, i) || exists sum :: CompArgvSum(i, sum) in b
    case CppSum(i, _) => !Announced(b, i)
  }

  /** How many lines stand before the end. */
  function Body(lines: seq<Line>): (r: nat)
    ensures r <= |lines| && (r < |lines| ==> lines[r].TheEnd?)
  {
    if lines == [] || lines[0].TheEnd? then 0 else 1 + Body(lines[1..])
  }

  ghost predicate NoneRefused(b: seq<Line>, lines: seq<Line>) {
    && (forall k :: 0 <= k < Body(lines) ==> !Refused(b + lines[..k], lines[k]))
    && (Body(lines) < |lines| ==> lines[Body(lines)].fine)
  }

  ghost predicate WholeAt(b: seq<Line>, i: nat) {
    && (exists path :: DigestAbs(i, path) in b) && (exists target :: Target(i, target) in b)
    && (exists key: nat :: Key(i, key) in b && key % UINT32 != 0)
    && (exists sum :: CompArgvSum(i, sum) in b) && (exists sum :: CppSum(i, sum) in b)
  }

  /** Nothing is missing. */
  ghost predicate Whole(b: seq<Line>) {
    && (exists n :: Generation(n) in b && n % UINT32 != 0)
    && forall i: nat :: Announced(b, i) ==> WholeAt(b, i)
  }

  ghost predicate Accepted(lines: seq<Line>) {
    NoneRefused([], lines) && Whole(lines[..Body(lines)])
  }

  // ----- What the reader knows behind them ----------------------------------------------------

  ghost predicate GenerationRead(r: Reader, b: seq<Line>) {
    && (forall n :: Generation(n) in b && n % UINT32 != 0 ==> r.uGeneration == n % UINT32)
    && (r.uGeneration != 0 ==> exists n :: Generation(n) in b && n % UINT32 != 0)
  }

  ghost predicate CountRead(r: Reader, b: seq<Line>) {
    && (forall n: nat :: Digests(n) in b ==> r.digests.Some? && n == Count(r))
    && (r.digests.Some? ==> Digests(Count(r)) in b)
  }

  ghost predicate PathsRead(ds: seq<Partial>, b: seq<Line>) {
    forall i: nat, path :: (DigestAbs(i, path) in b <==> i < |ds| && ds[i].path == Some(path))
  }

  ghost predicate TargetsRead(ds: seq<Partial>, b: seq<Line>) {
    forall i: nat, target :: (Target(i, target) in b <==> i < |ds| && ds[i].target == Some(target))
  }

  ghost predicate ArgvsRead(ds: seq<Partial>, b: seq<Line>) {
    forall i: nat, sum :: (CompArgvSum(i, sum) in b <==> i < |ds| && ds[i].argv == Some(sum))
  }

  ghost predicate SumsRead(ds: seq<Partial>, b: seq<Line>) {
    forall i: nat, sum :: (CppSum(i, sum) in b <==> i < |ds| && sum in ds[i].sums)
  }

  ghost predicate KeysRead(ds: seq<Partial>, b: seq<Line>) {
    && (forall i: nat, key: nat :: Key(i, key) in b ==> i < |ds| && (key % UINT32 != 0 ==> ds[i].key == key % UINT32))
    && (forall i :: 0 <= i < |ds| && ds[i].key != 0 ==>
        exists key: nat :: Key(i, key) in b && key % UINT32 == ds[i].key)
  }

  function Partials(r: Reader): seq<Partial> {
    if r.digests.None? then [] else r.digests.value
  }

  ghost predicate Reads(r: Reader, b: seq<Line>) {
    var ds := Partials(r);
    && !r.fBad && !r.fDone
    && GenerationRead(r, b) && CountRead(r, b) && KeysRead(ds, b)
    && PathsRead(ds, b) && TargetsRead(ds, b) && ArgvsRead(ds, b) && SumsRead(ds, b)
  }

  lemma {:induction false} AnnouncedIs(r: Reader, b: seq<Line>, i: nat)
    requires CountRead(r, b)
    ensures Announced(b, i) <==> i < Count(r)
  {
  }

  // ----- One line ------------------------------------------------------------------------------

  lemma {:induction false} More(b: seq<Line>, line: Line)
    ensures forall x :: x in b + [line] <==> x in b || x == line
  {
  }

  lemma {:induction false} GenerationTaken(r: Reader, b: seq<Line>, line: Line)
    requires GenerationRead(r, b)
    ensures var r' := ReadLine(r, line);
            !r'.fBad && !Refused(b, line) ==> GenerationRead(r', b + [line])
  {
    hide Announced;
    More(b, line);
    if line.Generation? {
      assert line in b + [line];
    }
    if r.uGeneration != 0 {
      var n :| Generation(n) in b && n % UINT32 != 0;
      assert Generation(n) in b + [line];
    }
  }

  lemma {:induction false} CountTaken(r: Reader, b: seq<Line>, line: Line)
    requires CountRead(r, b)
    ensures var r' := ReadLine(r, line);
            !r'.fBad && !Refused(b, line) ==> CountRead(r', b + [line])
  {
    hide Announced;
    More(b, line);
  }

  lemma {:induction false} PathsTaken(r: Reader, b: seq<Line>, line: Line)
    requires CountRead(r, b) && PathsRead(Partials(r), b)
    ensures var r' := ReadLine(r, line);
            !r'.fBad && !Refused(b, line) ==> PathsRead(Partials(r'), b + [line])
  {
    hide Announced;
    More(b, line);
  }

  lemma {:induction false} TargetsTaken(r: Reader, b: seq<Line>, line: Line)
    requires CountRead(r, b) && TargetsRead(Partials(r), b)
    ensures var r' := ReadLine(r, line);
            !r'.fBad && !Refused(b, line) ==> TargetsRead(Partials(r'), b + [line])
  {
    hide Announced;
    More(b, line);
  }

  lemma {:induction false} ArgvsTaken(r: Reader, b: seq<Line>, line: Line)
    requires CountRead(r, b) && ArgvsRead(Partials(r), b)
    ensures var r' := ReadLine(r, line);
            !r'.fBad && !Refused(b, line) ==> ArgvsRead(Partials(r'), b + [line])
  {
    hide Announced;
    More(b, line);
  }

  lemma {:induction false} SumsTaken(r: Reader, b: seq<Line>, line: Line)
    requires CountRead(r, b) && SumsRead(Partials(r), b)
    ensures var r' := ReadLine(r, line);
            !r'.fBad && !Refused(b, line) ==> SumsRead(Partials(r'), b + [line])
  {
    hide Announced;
    More(b, line);
  }

  lemma {:induction false} KeysTaken(r: Reader, b: seq<Line>, line: Line)
    requires CountRead(r, b) && KeysRead(Partials(r), b)
    ensures var r' := ReadLine(r, line);
            !r'.fBad && !Refused(b, line) ==> KeysRead(Partials(r'), b + [line])
  {
    hide Announced;
    More(b, line);
  }

  /** The reader refuses what is to be refused, and nothing else. */
  lemma {:induction false} RefusedIs(r: Reader, b: seq<Line>, line: Line)
    requires Reads(r, b)
    ensures !line.TheEnd? ==>
              (ReadLine(r, line).fBad <==> Refused(b, line)) && ReadLine(r, line).fDone == ReadLine(r, line).fBad
  {
    hide Announced;
    match line
    case DigestAbs(i, _) => AnnouncedIs(r, b, i);
    case Key(i, _) => AnnouncedIs(r, b, i);
    case Target(i, _) => AnnouncedIs(r, b, i);
    case CompArgvSum(i, _) => AnnouncedIs(r, b, i);
    case CppSum(i, _) => AnnouncedIs(r, b, i);
    case _ =>
  }

  lemma {:induction false} LineTaken(r: Reader, b: seq<Line>, line: Line)
    requires Reads(r, b) && !line.TheEnd? && !Refused(b, line)
    ensures Reads(ReadLine(r, line), b + [line])
  {
    hide ReadLine, Refused, GenerationRead, CountRead, PathsRead, TargetsRead, ArgvsRead, SumsRead, KeysRead;
    RefusedIs(r, b, line);
    GenerationTaken(r, b, line);
    CountTaken(r, b, line);
    PathsTaken(r, b, line);
    TargetsTaken(r, b, line);
    ArgvsTaken(r, b, line);
    SumsTaken(r, b, line);
    KeysTaken(r, b, line);
  }

  // ----- All lines --------------------------------------------------------------------------------

  lemma {:induction false} NoneRefusedNext(b: seq<Line>, lines: seq<Line>)
    requires lines != [] && !lines[0].TheEnd?
    ensures NoneRefused(b, lines) <==> !Refused(b, lines[0]) && NoneRefused(b + [lines[0]], lines[1..])
  {
    hide Refused;
    var rest := lines[1..];
    forall k | 0 <= k < |rest|
      ensures b + [lines[0]] + rest[..k] == b + lines[..k + 1] && rest[k] == lines[k + 1]
    {
    }
    assert b + lines[..0] == b;
    if NoneRefused(b + [lines[0]], rest) && !Refused(b, lines[0]) {
      forall k | 0 <= k < Body(lines)
        ensures !Refused(b + lines[..k], lines[k])
      {
        if k > 0 {
          assert b + [lines[0]] + rest[..k - 1] == b + lines[..k];
        }
      }
    }
    if NoneRefused(b, lines) {
      forall k | 0 <= k < Body(rest)
        ensures !Refused(b + [lines[0]] + rest[..k], rest[k])
      {
        assert b + [lines[0]] + rest[..k] == b + lines[..k + 1];
      }
      assert !Refused(b + lines[..0], lines[0]);
    }
  }

  lemma {:induction false} AllTaken(r: Reader, b: seq<Line>, lines: seq<Line>)
    requires Reads(r, b)
    ensures var r' := ReadLines(r, lines);
            && (NoneRefused(b, lines) <==> !r'.fBad)
            && (!r'.fBad ==> Reads(r'.(fDone := false), b + lines[..Body(lines)]))
    decreases |lines|
  {
    hide Refused, GenerationRead, CountRead, PathsRead, TargetsRead, ArgvsRead, SumsRead, KeysRead, ReadLine,
         NoneRefused;
    if lines == [] {
      assert b + lines[..0] == b && r.(fDone := false) == r;
      NothingRefused(b, lines);
    } else if lines[0].TheEnd? {
      assert b + lines[..0] == b;
      EndsHere(r, lines);
      SameBut(r, b, lines[0]);
      NothingRefused(b, lines);
    } else {
      NoneRefusedNext(b, lines);
      RefusedIs(r, b, lines[0]);
      if !Refused(b, lines[0]) {
        LineTaken(r, b, lines[0]);
        AllTaken(ReadLine(r, lines[0]), b + [lines[0]], lines[1..]);
        assert b + [lines[0]] + lines[1..][..Body(lines[1..])] == b + lines[..Body(lines)];
      }
    }
  }

  lemma {:induction false} NothingRefused(b: seq<Line>, lines: seq<Line>)
    requires Body(lines) == 0
    ensures NoneRefused(b, lines) <==> lines == [] || lines[0].fine
  {
  }

  lemma {:induction false} EndsHere(r: Reader, lines: seq<Line>)
    requires lines != [] && lines[0].TheEnd? && !r.fDone
    ensures ReadLines(r, lines) == ReadLine(r, lines[0])
  {
  }

  lemma {:induction false} SameBut(r: Reader, b: seq<Line>, line: Line)
    requires Reads(r, b) && line.TheEnd?
    ensures ReadLine(r, line).fBad == !line.fine
    ensures line.fine ==> Reads(ReadLine(r, line).(fDone := false), b)
  {
    assert line.fine ==> ReadLine(r, line).(fDone := false) == r;
  }

  // ----- What is missing, and what is there -----------------------------------------------------------

  lemma {:induction false} WholeAtIs(ds: seq<Partial>, b: seq<Line>, i: nat)
    requires PathsRead(ds, b) && TargetsRead(ds, b) && ArgvsRead(ds, b) && SumsRead(ds, b) && KeysRead(ds, b)
    requires i < |ds|
    ensures IsComplete(ds[i]) <==> WholeAt(b, i)
  {
    var d := ds[i];
    if d.path.Some? {
      assert DigestAbs(i, d.path.value) in b;
    }
    if d.target.Some? {
      assert Target(i, d.target.value) in b;
    }
    if d.argv.Some? {
      assert CompArgvSum(i, d.argv.value) in b;
    }
    if d.sums != [] {
      assert CppSum(i, d.sums[0]) in b;
    }
    KeyIs(ds, b, i);
  }

  lemma {:induction false} KeyIs(ds: seq<Partial>, b: seq<Line>, i: nat)
    requires KeysRead(ds, b) && i < |ds|
    ensures ds[i].key != 0 ==> exists key: nat :: Key(i, key) in b && key % UINT32 == ds[i].key
    ensures ds[i].key != 0 <==> exists key: nat :: Key(i, key) in b && key % UINT32 != 0
  {
  }

  lemma {:induction false} WholeIs(r: Reader, b: seq<Line>)
    requires Reads(r, b)
    ensures IsGood(r) <==> Whole(b)
  {
    hide IsComplete, WholeAt, PathsRead, TargetsRead, ArgvsRead, SumsRead, KeysRead, CountRead;
    forall i: nat
      ensures Announced(b, i) <==> i < Count(r)
    {
      AnnouncedIs(r, b, i);
    }
    forall i: nat | i < Count(r)
      ensures IsComplete(r.digests.value[i]) <==> WholeAt(b, i)
    {
      WholeAtIs(Partials(r), b, i);
    }
  }

  lemma {:induction false} NothingRead()
    ensures Reads(FRESH, [])
  {
  }

  /** The lines behind the magic are a good file exactly if none is refused, the end is fine, and nothing is missing. */
  lemma {:induction false} AcceptedIs(lines: seq<Line>)
    ensures IsGood(ReadLines(FRESH, lines)) <==> Accepted(lines)
  {
    hide *;
    NothingRead();
    AllTaken(FRESH, [], lines);
    var r := ReadLines(FRESH, lines);
    var b := lines[..Body(lines)];
    assert [] + b == b;
    AcceptedParts(lines);
    if !r.fBad {
      WholeIs(r.(fDone := false), b);
    }
    GoodParts(r);
  }

  lemma {:induction false} AcceptedParts(lines: seq<Line>)
    ensures Accepted(lines) <==> NoneRefused([], lines) && Whole(lines[..Body(lines)])
  {
    hide NoneRefused, Whole;
  }

  lemma {:induction false} GoodParts(r: Reader)
    ensures IsGood(r) ==> !r.fBad
    ensures IsGood(r.(fDone := false)) == IsGood(r)
  {
    hide AllComplete;
  }

  /** A line before the end of the file. */
  ghost predicate Said(lines: seq<Line>, line: Line) {
    line in lines[..Body(lines)]
  }

  /** And a good file says what it says: the generation, the number of digests, and of each the path, target, key and
      arguments, and which checksums it has. */
  lemma {:induction false} FileSays(lines: seq<Line>)
    requires IsGood(ReadLines(FRESH, lines))
    ensures var r := ReadLines(FRESH, lines);
            var ds := Found(r);
            && (exists n :: Said(lines, Generation(n)) && n % UINT32 == r.uGeneration)
            && (forall n: nat :: Said(lines, Digests(n)) ==> n == |ds|) && (ds != [] ==> Said(lines, Digests(|ds|)))
            && forall i: nat :: i < |ds| ==>
                 && (exists key: nat :: Said(lines, Key(i, key)) && key % UINT32 == ds[i].key)
                 && Said(lines, DigestAbs(i, ds[i].path)) && Said(lines, Target(i, ds[i].target))
                 && Said(lines, CompArgvSum(i, ds[i].argv))
                 && forall sum :: Said(lines, CppSum(i, sum)) <==> sum in ds[i].sums
  {
    hide Body, ReadLines, NoneRefused, Whole, Refused;
    NothingRead();
    AllTaken(FRESH, [], lines);
    var r := ReadLines(FRESH, lines);
    var b := lines[..Body(lines)];
    assert [] + b == b;
    var ds := Partials(r);
    forall i: nat | i < |ds|
      ensures exists key: nat :: Said(lines, Key(i, key)) && key % UINT32 == ds[i].key
    {
      KeyIs(ds, b, i);
      var key: nat :| Key(i, key) in b && key % UINT32 == ds[i].key;
      assert Said(lines, Key(i, key));
    }
    var n :| Generation(n) in b && n % UINT32 != 0;
    assert Said(lines, Generation(n));
  }

  /** A file as it was written, of the generation in memory, is not read again exactly while the generation prints as
      a positive number; else it is, and gives the same generation. */
  lemma {:induction false} BigIsReread(m: Mem, g: nat, ds: seq<Digest>)
    requires 0 < g < UINT32 && m.uGeneration == g && WellFormed(ds)
    ensures var m' := Locked(m, Printed(g, ds));
            && (g < 0x8000_0000 ==> m' == m)
            && (g >= 0x8000_0000 ==> m'.uGeneration == g && SameDigests(m'.digests, ds))
  {
    hide ReadLines, IsGood, Found, AllDigestLines, WellFormed, SameDigests;
    var lines := Printed(g, ds);
    assert lines[0] == Magic && lines[1] == Generation(Signed(g)) && lines[1..] == AfterMagic(g, ds);
    ReadsOnlyNews(m, lines);
    ReadsBack(g, ds);
  }
}
