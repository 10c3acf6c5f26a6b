/** The shared index of cached objects: its file, and the copy of it each process works on. */
module ObjCache {
  import opened Basics

  datatype Sum = Sum(crc32: nat, md5: nat)

  // ----- Checksum chains ----------------------------------------------------------

  /** A chain of checksums, the head first; [] is a head that is not in use. */
  type Chain = seq<Sum>

  /** kOCSumAdd: the head stays, the new one comes right behind it. */
  function SumAdd(chain: Chain, sum: Sum): Chain {
    if chain == [] then [sum] else [chain[0], sum] + chain[1..]
  }

  function SumAddChain(chain: Chain, add: Chain): Chain
    decreases |add|
  {
    if add == [] then chain else SumAddChain(SumAdd(chain, add[0]), add[1..])
  }

  /** Adding reorders, but it neither loses nor invents a checksum. */
  lemma {:induction false} ChainAdded(chain: Chain, add: Chain)
    ensures multiset(SumAddChain(chain, add)) == multiset(chain) + multiset(add)
    decreases |add|
  {
    hide SumAdd;
    if add != [] {
      ChainAdded(SumAdd(chain, add[0]), add[1..]);
      OneAdded(chain, add[0]);
      assert add == [add[0]] + add[1..];
    }
  }

  lemma {:induction false} OneAdded(chain: Chain, sum: Sum)
    ensures multiset(SumAdd(chain, sum)) == multiset(chain) + multiset{sum}
  {
    if chain != [] {
      assert chain == [chain[0]] + chain[1..];
    }
  }

  lemma {:induction false} SameSums(a: Chain, b: Chain)
    requires multiset(a) == multiset(b)
    ensures forall s :: s in a <==> s in b
  {
    forall s ensures s in a <==> s in b {
      assert s in a <==> s in multiset(a);
    }
  }

  // ----- Digests ------------------------------------------------------------------

  /** What the index says of one entry. */
  datatype Digest = Digest(path: string, target: string, key: nat, argv: Sum, sums: Chain)

  /** The file of one entry. */
  datatype EntryFile = EntryFile(key: nat, target: string, argv: Sum, sums: Chain)

  const UINT32: nat := 0x1_0000_0000

  /** kOCDigestIsValid. */
  predicate IsValid(d: Digest, e: EntryFile) {
    d.key == e.key && d.argv == e.argv && d.target == e.target && forall s :: s in d.sums ==> s in e.sums
  }

  ghost predicate WellFormed(ds: seq<Digest>) {
    && (forall i :: 0 <= i < |ds| ==> 0 < ds[i].key < UINT32 && ds[i].sums != [])
    && (forall i, j :: 0 <= i < j < |ds| ==> ds[i].key != ds[j].key && ds[i].path != ds[j].path)
  }

  /** Equal, with the checksum chains taken as bags. */
  predicate SameDigest(a: Digest, b: Digest) {
    a.path == b.path && a.target == b.target && a.key == b.key && a.argv == b.argv &&
    multiset(a.sums) == multiset(b.sums)
  }

  ghost predicate SameDigests(a: seq<Digest>, b: seq<Digest>) {
    |a| == |b| && forall i :: 0 <= i < |a| ==> SameDigest(a[i], b[i])
  }

  // ----- The file -----------------------------------------------------------------

  /** A line of the cache file; Other is any line the reader does not know or cannot parse. */
  datatype Line =
    | Magic
    | Generation(value: int)
    | Digests(count: nat)
    | DigestAbs(index: nat, path: string)
    | Key(index: nat, key: nat)
    | Target(index: nat, target: string)
    | CompArgvSum(index: nat, sum: Sum)
    | CppSum(index: nat, sum: Sum)
    | TheEnd(fine: bool)
    | Other

  /** The generation is printed as a signed number. */
  function Signed(n: nat): int
    requires n < UINT32
  {
    if n < UINT32 / 2 then n else n - UINT32
  }

  function Unsigned(n: int): nat {
    n % UINT32
  }

  function SumLines(i: nat, sums: Chain): seq<Line> {
    seq(|sums|, k requires 0 <= k < |sums| => CppSum(i, sums[k]))
  }

  function DigestLines(i: nat, d: Digest): seq<Line> {
    [DigestAbs(i, d.path), Key(i, d.key), Target(i, d.target), CompArgvSum(i, d.argv)] + SumLines(i, d.sums)
  }

  function AllDigestLines(ds: seq<Digest>): seq<Line> {
    if ds == [] then [] else AllDigestLines(ds[..|ds| - 1]) + DigestLines(|ds| - 1, ds[|ds| - 1])
  }

  /** What is written. */
  function Printed(uGeneration: nat, ds: seq<Digest>): seq<Line>
    requires uGeneration < UINT32
  {
    [Magic] + AfterMagic(uGeneration, ds)
  }

  function AfterMagic(uGeneration: nat, ds: seq<Digest>): seq<Line>
    requires uGeneration < UINT32
  {
    [Generation(Signed(uGeneration))] + ([Digests(|ds|)] + (AllDigestLines(ds) + [TheEnd(true)]))
  }

  // ----- Reading it back ------------------------------------------------------------

  /** A digest while its lines come in. */
  datatype Partial = Partial(path: Option<string>, target: Option<string>, key: nat, argv: Option<Sum>, sums: Chain)

  const BLANK := Partial(None, None, 0, None, [])

  /** The reader between two lines. */
  datatype Reader = Reader(uGeneration: nat, uNextKey: nat, digests: Option<seq<Partial>>, fBad: bool, fDone: bool)

  const FRESH := Reader(0, 0, None, false, false)

  function Bad(r: Reader): Reader {
    r.(fBad := true, fDone := true)
  }

  function Count(r: Reader): nat {
    if r.digests.None? then 0 else |r.digests.value|
  }

  function SetDigest(r: Reader, i: nat, d: Partial): Reader
    requires i < Count(r)
  {
    r.(digests := Some(r.digests.value[i := d]))
  }

  /** One line of the parse loop. */
  function ReadLine(r: Reader, line: Line): Reader {
    match line
    case Magic => Bad(r)
    case Other => Bad(r)
    case Generation(n) => if r.uGeneration != 0 then Bad(r) else r.(uGeneration := Unsigned(n))
    case Digests(n) => if r.digests.Some? then Bad(r) else r.(digests := Some(seq(n, _ => BLANK)))
    case TheEnd(fine) => r.(fBad := !fine, fDone := true)
    case DigestAbs(i, path) =>
      if i >= Count(r) || r.digests.value[i].path.Some? then Bad(r)
      else SetDigest(r, i, r.digests.value[i].(path := Some(path)))
    case Key(i, key) =>
      if i >= Count(r) || r.digests.value[i].key != 0 then Bad(r)
      else
        var key := key % UINT32;
        var uNextKey := if key >= r.uNextKey then (key + 1) % UINT32 else r.uNextKey;
        SetDigest(r, i, r.digests.value[i].(key := key)).(uNextKey := uNextKey)
    case Target(i, target) =>
      if i >= Count(r) || r.digests.value[i].target.Some? then Bad(r)
      else SetDigest(r, i, r.digests.value[i].(target := Some(target)))
    case CompArgvSum(i, sum) =>
      if i >= Count(r) || r.digests.value[i].argv.Some? then Bad(r)
      else SetDigest(r, i, r.digests.value[i].(argv := Some(sum)))
    case CppSum(i, sum) =>
      if i >= Count(r) then Bad(r)
      else SetDigest(r, i, r.digests.value[i].(sums := SumAdd(r.digests.value[i].sums, sum)))
  }

  function ReadLines(r: Reader, lines: seq<Line>): Reader
    decreases |lines|
  {
    if r.fDone || lines == [] then r else ReadLines(ReadLine(r, lines[0]), lines[1..])
  }

  /** Nothing is missing. */
  predicate IsComplete(p: Partial) {
    p.path.Some? && p.target.Some? && p.key != 0 && p.argv.Some? && p.sums != []
  }

  function Finish(p: Partial): Digest
    requires IsComplete(p)
  {
    Digest(p.path.value, p.target.value, p.key, p.argv.value, p.sums)
  }

  predicate AllComplete(ps: seq<Partial>) {
    forall i :: 0 <= i < |ps| ==> IsComplete(ps[i])
  }

  function FinishAll(ps: seq<Partial>): (ds: seq<Digest>)
    requires AllComplete(ps)
    ensures |ds| == |ps| && forall i :: 0 <= i < |ps| ==> ds[i] == Finish(ps[i])
  {
    seq(|ps|, i requires 0 <= i < |ps| => Finish(ps[i]))
  }

  predicate IsGood(r: Reader) {
    !r.fBad && r.uGeneration != 0 && (r.digests.Some? ==> AllComplete(r.digests.value))
  }

  function Found(r: Reader): seq<Digest>
    requires IsGood(r)
  {
    if r.digests.None? then [] else FinishAll(r.digests.value)
  }

  /** The index in memory. */
  datatype Mem = Mem(uGeneration: nat, uNextKey: nat, digests: seq<Digest>, fDirty: bool, fNewCache: bool)

  /** kObjCacheRead on a file that is not empty. */
  function Reread(m: Mem, lines: seq<Line>): Mem {
    var bad := Mem(0, 0, [], m.fDirty, true);
    if |lines| < 2 || lines[0] != Magic || !lines[1].Generation? then bad
    else if m.uGeneration != 0 && m.uGeneration == lines[1].value then m
    else
      var r := ReadLines(FRESH, lines[1..]);
      if IsGood(r) then Mem(r.uGeneration, r.uNextKey, Found(r), m.fDirty, m.fNewCache) else bad
  }

  /** A file of the generation in memory is not read again; a file of another one is. */
  lemma {:induction false} ReadsOnlyNews(m: Mem, lines: seq<Line>)
    requires |lines| >= 2 && lines[0] == Magic && lines[1].Generation?
    ensures m.uGeneration != 0 && m.uGeneration == lines[1].value ==> Locked(m, lines) == m
    ensures m.uGeneration == 0 || m.uGeneration != lines[1].value ==>
              var r := ReadLines(FRESH, lines[1..]);
              IsGood(r) ==> Locked(m, lines).digests == Found(r) && Locked(m, lines).uGeneration == r.uGeneration
  {
    hide ReadLines, IsGood, Found;
  }

  // ----- Reading undoes writing -------------------------------------------------------

  lemma {:induction false} ReadConcat(r: Reader, a: seq<Line>, b: seq<Line>)
    ensures ReadLines(r, a + b) == ReadLines(ReadLines(r, a), b)
    decreases |a|
  {
    if a == [] {
      assert a + b == b;
    } else if !r.fDone {
      assert (a + b)[0] == a[0] && (a + b)[1..] == a[1..] + b;
      ReadConcat(ReadLine(r, a[0]), a[1..], b);
    }
  }

  lemma {:induction false} ReadSums(r: Reader, i: nat, sums: Chain)
    requires !r.fDone && i < Count(r)
    ensures var d := r.digests.value[i];
            ReadLines(r, SumLines(i, sums)) == SetDigest(r, i, d.(sums := SumAddChain(d.sums, sums)))
    decreases |sums|
  {
    var d := r.digests.value[i];
    if sums == [] {
      assert r.digests.value[i := d] == r.digests.value;
    } else {
      var next := ReadLine(r, CppSum(i, sums[0]));
      assert SumLines(i, sums)[1..] == SumLines(i, sums[1..]);
      ReadSums(next, i, sums[1..]);
      assert next.digests.value[i := d.(sums := SumAddChain(d.sums, sums))] ==
               r.digests.value[i := d.(sums := SumAddChain(d.sums, sums))];
    }
  }

  function PartialOf(d: Digest): Partial {
    Partial(Some(d.path), Some(d.target), d.key, Some(d.argv), SumAddChain([], d.sums))
  }

  function NextKeyAfter(next: nat, key: nat): nat {
    if key >= next then (key + 1) % UINT32 else next
  }

  lemma {:induction false} ReadNext(r: Reader, line: Line, rest: seq<Line>)
    requires !r.fDone
    ensures ReadLines(r, [line] + rest) == ReadLines(ReadLine(r, line), rest)
  {
    hide ReadLine;
    assert ([line] + rest)[0] == line && ([line] + rest)[1..] == rest;
  }

  lemma {:induction false} ReadDigest(r: Reader, i: nat, d: Digest)
    requires !r.fDone && i < Count(r) && r.digests.value[i] == BLANK && 0 < d.key < UINT32
    ensures ReadLines(r, DigestLines(i, d))
         == r.(digests := Some(r.digests.value[i := PartialOf(d)]), uNextKey := NextKeyAfter(r.uNextKey, d.key))
  {
    hide ReadLines, SumAddChain;
    var ds, sums := r.digests.value, SumLines(i, d.sums);
    var r1 := ReadLine(r, DigestAbs(i, d.path));
    var r2 := ReadLine(r1, Key(i, d.key));
    var r3 := ReadLine(r2, Target(i, d.target));
    var r4 := ReadLine(r3, CompArgvSum(i, d.argv));
    assert DigestLines(i, d) ==
             [DigestAbs(i, d.path)] + ([Key(i, d.key)] + ([Target(i, d.target)] + ([CompArgvSum(i, d.argv)] + sums)));
    ReadNext(r, DigestAbs(i, d.path), [Key(i, d.key)] + ([Target(i, d.target)] + ([CompArgvSum(i, d.argv)] + sums)));
    ReadNext(r1, Key(i, d.key), [Target(i, d.target)] + ([CompArgvSum(i, d.argv)] + sums));
    ReadNext(r2, Target(i, d.target), [CompArgvSum(i, d.argv)] + sums);
    ReadNext(r3, CompArgvSum(i, d.argv), sums);
    ReadSums(r4, i, d.sums);
    assert r4.digests.value == ds[i := PartialOf(d).(sums := [])];
    assert r4.digests.value[i := PartialOf(d)] == ds[i := PartialOf(d)];
  }

  /** The array when the first k of n digests have come in. */
  function Half(ds: seq<Digest>, n: nat): seq<Partial>
    requires |ds| <= n
  {
    seq(n, i requires 0 <= i < n => if i < |ds| then PartialOf(ds[i]) else BLANK)
  }

  function KeyBound(ds: seq<Digest>, next: nat): nat {
    if ds == [] then next else NextKeyAfter(KeyBound(ds[..|ds| - 1], next), ds[|ds| - 1].key)
  }

  /** The next key is one more than the greatest, as long as none is the last there is. */
  lemma {:induction false} BeyondKeys(ds: seq<Digest>)
    requires forall i :: 0 <= i < |ds| ==> ds[i].key + 1 < UINT32
    ensures forall i :: 0 <= i < |ds| ==> ds[i].key < KeyBound(ds, 0)
    ensures if ds == [] then KeyBound(ds, 0) == 0 else exists i :: 0 <= i < |ds| && KeyBound(ds, 0) == ds[i].key + 1
    decreases |ds|
  {
    if ds != [] {
      var init := ds[..|ds| - 1];
      BeyondKeys(init);
      assert forall i :: 0 <= i < |init| ==> init[i] == ds[i];
      if KeyBound(ds, 0) == KeyBound(init, 0) && init != [] {
        var i :| 0 <= i < |init| && KeyBound(init, 0) == init[i].key + 1;
        assert ds[i] == init[i];
      } else {
        assert KeyBound(ds, 0) == ds[|ds| - 1].key + 1;
      }
    }
  }

  lemma {:induction false} ReadDigests(r: Reader, ds: seq<Digest>, n: nat)
    requires !r.fDone && r.digests == Some(Half([], n)) && |ds| <= n
    requires forall i :: 0 <= i < |ds| ==> 0 < ds[i].key < UINT32
    ensures ReadLines(r, AllDigestLines(ds)) == r.(digests := Some(Half(ds, n)), uNextKey := KeyBound(ds, r.uNextKey))
  {
    hide ReadLine, DigestLines, SumAddChain;
    if ds != [] {
      var init, last := ds[..|ds| - 1], ds[|ds| - 1];
      ReadDigests(r, init, n);
      ReadConcat(r, AllDigestLines(init), DigestLines(|ds| - 1, last));
      var mid := ReadLines(r, AllDigestLines(init));
      ReadDigest(mid, |ds| - 1, last);
      assert Half(init, n)[|ds| - 1 := PartialOf(last)] == Half(ds, n);
    }
  }

  lemma {:induction false} SignedBack(n: nat)
    requires n < UINT32
    ensures Unsigned(Signed(n)) == n
  {
  }

  lemma {:induction false} ReadPrinted(uGeneration: nat, ds: seq<Digest>)
    requires uGeneration < UINT32 && WellFormed(ds)
    ensures ReadLines(FRESH, AfterMagic(uGeneration, ds)) ==
              Reader(uGeneration, KeyBound(ds, 0), Some(Half(ds, |ds|)), false, true)
  {
    hide ReadLines, AllDigestLines, KeyBound, DigestLines, Unsigned, Signed;
    var n := |ds|;
    var lines := AllDigestLines(ds);
    var r1 := FRESH.(uGeneration := uGeneration);
    var r2 := r1.(digests := Some(Half([], n)));
    SignedBack(uGeneration);
    ReadNext(FRESH, Generation(Signed(uGeneration)), [Digests(n)] + (lines + [TheEnd(true)]));
    ReadNext(r1, Digests(n), lines + [TheEnd(true)]);
    assert seq(n, _ => BLANK) == Half([], n);
    ReadConcat(r2, lines, [TheEnd(true)]);
    ReadDigests(r2, ds, n);
    ReadEnd(ReadLines(r2, lines));
  }

  lemma {:induction false} ReadEnd(r: Reader)
    requires !r.fDone
    ensures ReadLines(r, [TheEnd(true)]) == r.(fBad := false, fDone := true)
  {
    assert [TheEnd(true)] == [TheEnd(true)] + [];
    ReadNext(r, TheEnd(true), []);
  }

  /** What is read back is what was written, with the checksum chains reordered. */
  lemma {:induction false} ReadsBack(uGeneration: nat, ds: seq<Digest>)
    requires 0 < uGeneration < UINT32 && WellFormed(ds)
    ensures var r := ReadLines(FRESH, AfterMagic(uGeneration, ds));
            && IsGood(r) && r.uGeneration == uGeneration && r.uNextKey == KeyBound(ds, 0)
            && SameDigests(Found(r), ds)
            && ((forall i :: 0 <= i < |ds| ==> ds[i].key + 1 < UINT32) ==>
                && (forall i :: 0 <= i < |ds| ==> ds[i].key < r.uNextKey)
                && (ds == [] ==> r.uNextKey == 0)
                && (ds != [] ==> exists i :: 0 <= i < |ds| && r.uNextKey == ds[i].key + 1))
  {
    ReadPrinted(uGeneration, ds);
    if forall i :: 0 <= i < |ds| ==> ds[i].key + 1 < UINT32 {
      BeyondKeys(ds);
    }
    hide ReadLines, AfterMagic, SameDigest, PartialOf, Finish;
    forall i | 0 <= i < |ds| ensures IsComplete(Half(ds, |ds|)[i]) && SameDigest(Finish(Half(ds, |ds|)[i]), ds[i]) {
      Restored(ds[i]);
    }
  }

  lemma {:induction false} Restored(d: Digest)
    requires 0 < d.key && d.sums != []
    ensures IsComplete(PartialOf(d)) && SameDigest(Finish(PartialOf(d)), d)
  {
    ChainAdded([], d.sums);
    assert multiset([]) + multiset(d.sums) == multiset(d.sums);
    assert d.sums[0] in multiset(d.sums);
  }

  /** Once the generation wraps to 0, the file just written is taken for a bad one and its digests are
      lost: they can be read back exactly when it does not. */
  lemma {:induction false} ReadableUnlessWrapped(uGeneration: nat, ds: seq<Digest>)
    requires uGeneration < UINT32 && WellFormed(ds) && ds != []
    ensures var first := Mem(0, 0, [], false, false);
            SameDigests(Reread(first, Printed(uGeneration, ds)).digests, ds) <==> uGeneration != 0
  {
    ReadPrinted(uGeneration, ds);
    if uGeneration != 0 {
      ReadsBack(uGeneration, ds);
    }
    hide ReadLines, AfterMagic, WellFormed, SameDigest, AllDigestLines;
    var lines := Printed(uGeneration, ds);
    assert lines[0] == Magic && lines[1..] == AfterMagic(uGeneration, ds);
    SecondLine(uGeneration, ds);
  }

  lemma {:induction false} SecondLine(uGeneration: nat, ds: seq<Digest>)
    requires uGeneration < UINT32
    ensures |Printed(uGeneration, ds)| >= 2 && Printed(uGeneration, ds)[1] == Generation(Signed(uGeneration))
  {
  }

  // ----- Taking the lock and giving it back ---------------------------------------------

  /** The index in memory once the lock is held; an empty file is a new cache. */
  function Locked(m: Mem, file: seq<Line>): Mem {
    if file == [] then m.(fNewCache := true) else Reread(m, file)
  }

  /** The index in memory and the file after the lock is given back. */
  function Unlocked(m: Mem, file: seq<Line>): (Mem, seq<Line>) {
    if m.fDirty then
      var g := (m.uGeneration + 1) % UINT32;
      (m.(uGeneration := g, fDirty := false), Printed(g, m.digests))
    else (m, file)
  }

  // ----- Removing -----------------------------------------------------------------------

  /** All digests but those of the path. */
  function Without(ds: seq<Digest>, path: string): seq<Digest> {
    if ds == [] then []
    else if ds[|ds| - 1].path == path then Without(ds[..|ds| - 1], path)
    else Without(ds[..|ds| - 1], path) + [ds[|ds| - 1]]
  }

  lemma {:induction false} WithoutOthers(ds: seq<Digest>, path: string)
    ensures forall d :: d in Without(ds, path) <==> d in ds && d.path != path
    ensures |Without(ds, path)| <= |ds| && (|Without(ds, path)| == |ds| ==> Without(ds, path) == ds)
  {
    if ds != [] {
      var init, last := ds[..|ds| - 1], ds[|ds| - 1];
      assert ds == init + [last];
      WithoutOthers(init, path);
      InSnoc(init, last);
      InSnoc(Without(init, path), last);
    }
  }

  lemma {:induction false} InSnoc(init: seq<Digest>, last: Digest)
    ensures forall d :: d in init + [last] <==> d in init || d == last
  {
  }

  ghost predicate Distinguished(ds: seq<Digest>, d: Digest) {
    0 < d.key < UINT32 && d.sums != [] && forall x :: x in ds ==> x.key != d.key && x.path != d.path
  }

  lemma {:induction false} WellFormedSnoc(init: seq<Digest>, last: Digest)
    ensures WellFormed(init + [last]) <==> WellFormed(init) && Distinguished(init, last)
  {
    var ds := init + [last];
    assert ds[|init|] == last && forall i :: 0 <= i < |init| ==> ds[i] == init[i];
    if WellFormed(ds) {
      forall x | x in init ensures x.key != last.key && x.path != last.path {
        var i :| 0 <= i < |init| && init[i] == x;
        assert ds[i].key != ds[|init|].key && ds[i].path != ds[|init|].path;
      }
    }
    if WellFormed(init) && Distinguished(init, last) {
      forall i, j | 0 <= i < j < |ds| ensures ds[i].key != ds[j].key && ds[i].path != ds[j].path {
        assert ds[i] == init[i] && init[i] in init;
      }
    }
  }

  lemma {:induction false} WithoutWellFormed(ds: seq<Digest>, path: string)
    requires WellFormed(ds)
    ensures WellFormed(Without(ds, path))
  {
    hide WellFormed;
    if ds != [] {
      var init, last := ds[..|ds| - 1], ds[|ds| - 1];
      assert ds == init + [last];
      WellFormedSnoc(init, last);
      WithoutWellFormed(init, path);
      WithoutOthers(init, path);
      WellFormedSnoc(Without(init, path), last);
    }
  }

  lemma {:induction false} WithoutConcat(a: seq<Digest>, b: seq<Digest>, path: string)
    ensures Without(a + b, path) == Without(a, path) + Without(b, path)
    decreases |b|
  {
    if b == [] {
      assert a + b == a;
    } else {
      assert (a + b)[..|a + b| - 1] == a + b[..|b| - 1];
      WithoutConcat(a, b[..|b| - 1], path);
    }
  }

  lemma {:induction false} NothingLeft(ds: seq<Digest>, path: string)
    ensures ds == ds[..|ds|] + Without(ds[|ds|..], path)
  {
  }

  /** One step of the loop that goes through the digests from the last one down. */
  lemma {:induction false} WithoutStep(was: seq<Digest>, i: nat, now: seq<Digest>, path: string)
    requires i < |was| && now == was[..i + 1] + Without(was[i + 1..], path)
    ensures now[i] == was[i]
    ensures was[i].path == path ==> now[..i] + now[i + 1..] == was[..i] + Without(was[i..], path)
    ensures was[i].path != path ==> now == was[..i] + Without(was[i..], path)
  {
    assert was[i..] == [was[i]] + was[i + 1..];
    WithoutConcat([was[i]], was[i + 1..], path);
    assert Without([was[i]], path) == if was[i].path == path then [] else [was[i]];
    hide Without;
    assert was[..i + 1] == was[..i] + [was[i]];
  }

  // ----- Finding a digest to use -----------------------------------------------------------

  /** The digest promises the object wanted. */
  predicate Matches(d: Digest, argv: Sum, sum: Sum) {
    d.argv == argv && sum in d.sums
  }

  /** The entry it names can be read, has its object, and says the same. */
  predicate Usable(d: Digest, entries: map<string, EntryFile>) {
    d.path in entries && IsValid(d, entries[d.path])
  }

  /** From the last digest down: the first usable match, and what is left without the bad ones passed. */
  function FindMatch(ds: seq<Digest>, i: nat, argv: Sum, sum: Sum, entries: map<string, EntryFile>)
      : (Option<string>, seq<Digest>)
    requires i <= |ds|
    decreases i
  {
    if i == 0 then (None, ds)
    else if !Matches(ds[i - 1], argv, sum) then FindMatch(ds, i - 1, argv, sum, entries)
    else if Usable(ds[i - 1], entries) then (Some(ds[i - 1].path), ds)
    else FindMatch(ds[..i - 1] + ds[i..], i - 1, argv, sum, entries)
  }

  /** It is the last usable one. */
  lemma {:induction false} FindsLast(ds: seq<Digest>, i: nat, argv: Sum, sum: Sum, entries: map<string, EntryFile>)
    requires i <= |ds| && FindMatch(ds, i, argv, sum, entries).0.Some?
    ensures exists k ::
              && 0 <= k < i && ds[k].path == FindMatch(ds, i, argv, sum, entries).0.value
              && Matches(ds[k], argv, sum) && Usable(ds[k], entries)
              && forall l :: k < l < i ==> !(Matches(ds[l], argv, sum) && Usable(ds[l], entries))
    decreases i
  {
    hide Matches, Usable;
    if Matches(ds[i - 1], argv, sum) && Usable(ds[i - 1], entries) {
      assert ds[i - 1].path == FindMatch(ds, i, argv, sum, entries).0.value;
    } else {
      var rest := if Matches(ds[i - 1], argv, sum) then ds[..i - 1] + ds[i..] else ds;
      FindsLast(rest, i - 1, argv, sum, entries);
      assert forall l :: 0 <= l < i - 1 ==> rest[l] == ds[l];
    }
  }

  /** A match found is usable, none is overlooked, and only bad matches are dropped. */
  lemma {:induction false} FindMatchIs(ds: seq<Digest>, i: nat, argv: Sum, sum: Sum, entries: map<string, EntryFile>)
    requires i <= |ds|
    ensures var (found, left) := FindMatch(ds, i, argv, sum, entries);
            && (found.Some? ==>
                exists d :: d in left && d.path == found.value && Matches(d, argv, sum) && Usable(d, entries))
            && (found.None? ==> forall k :: 0 <= k < i ==> !(Matches(ds[k], argv, sum) && Usable(ds[k], entries)))
            && (forall d :: d in left ==> d in ds)
            && (forall d :: d in ds && d !in left ==> Matches(d, argv, sum) && !Usable(d, entries))
            && (WellFormed(ds) ==> WellFormed(left))
            && |left| <= |ds| && (|left| == |ds| ==> left == ds)
    decreases i
  {
    hide FindMatch, Matches, Usable, WellFormed;
    FindMatchStep(ds, i, argv, sum, entries);
    if i != 0 {
      if !Matches(ds[i - 1], argv, sum) {
        FindMatchIs(ds, i - 1, argv, sum, entries);
      } else if Usable(ds[i - 1], entries) {
        assert ds[i - 1] in ds;
      } else {
        var rest := ds[..i - 1] + ds[i..];
        FindMatchIs(rest, i - 1, argv, sum, entries);
        DropOne(ds, i - 1);
      }
    }
  }

  lemma {:induction false} FindMatchStep(ds: seq<Digest>, i: nat, argv: Sum, sum: Sum, entries: map<string, EntryFile>)
    requires i <= |ds|
    ensures i == 0 ==> FindMatch(ds, i, argv, sum, entries) == (None, ds)
    ensures i > 0 ==> FindMatch(ds, i, argv, sum, entries) ==
                      if !Matches(ds[i - 1], argv, sum) then FindMatch(ds, i - 1, argv, sum, entries)
                      else if Usable(ds[i - 1], entries) then (Some(ds[i - 1].path), ds)
                      else FindMatch(ds[..i - 1] + ds[i..], i - 1, argv, sum, entries)
  {
    hide Matches, Usable;
  }

  lemma {:induction false} DropOne(ds: seq<Digest>, i: nat)
    requires i < |ds|
    ensures var rest := ds[..i] + ds[i + 1..];
            && (forall d :: d in rest ==> d in ds) && (forall d :: d in ds && d !in rest ==> d == ds[i])
            && (forall k :: 0 <= k < i ==> rest[k] == ds[k])
            && (WellFormed(ds) ==> WellFormed(rest))
  {
  }

  // ----- A new key --------------------------------------------------------------------------

  /** The i-th key tried when the next one would be n: the keys go round, leaving out 0. */
  function Candidate(n: nat, i: nat): nat
    requires n < UINT32 && i < UINT32 - 1
  {
    var x := (if n == 0 then 1 else n) + i;
    if x < UINT32 then x else x - (UINT32 - 1)
  }

  predicate InUse(ds: seq<Digest>, key: nat) {
    exists k :: 0 <= k < |ds| && ds[k].key == key
  }

  lemma {:induction false} Widths()
    ensures UINT32 == 0x1_0000_0000
  {
  }

  lemma {:induction false} CandidateIs(n: nat, i: nat)
    requires n < UINT32 && i < UINT32 - 1
    ensures 0 < Candidate(n, i) < UINT32 && (Candidate(n, i) + 1) % UINT32 < UINT32
    ensures i + 1 < UINT32 - 1 ==> Candidate((Candidate(n, i) + 1) % UINT32, 0) == Candidate(n, i + 1)
  {
  }

  lemma {:induction false} UsedAt(ds: seq<Digest>, k: nat)
    requires k < |ds|
    ensures InUse(ds, ds[k].key)
  {
  }

  function Keys(ds: seq<Digest>): set<nat> {
    set k | 0 <= k < |ds| :: ds[k].key
  }

  lemma {:induction false} FewKeys(ds: seq<Digest>)
    ensures |Keys(ds)| <= |ds|
  {
    if ds != [] {
      FewKeys(ds[..|ds| - 1]);
      assert Keys(ds) == Keys(ds[..|ds| - 1]) + {ds[|ds| - 1].key};
    }
  }

  function Tried(n: nat, i: nat): set<nat>
    requires n < UINT32 && i < UINT32
  {
    set k | 0 <= k < i :: Candidate(n, k)
  }

  lemma {:induction false} TriedCount(n: nat, i: nat)
    requires n < UINT32 && i < UINT32
    ensures |Tried(n, i)| == i
  {
    if i > 0 {
      TriedCount(n, i - 1);
      assert Tried(n, i) == Tried(n, i - 1) + {Candidate(n, i - 1)};
    }
  }

  /** With fewer digests than keys, one of the first keys tried is free. */
  lemma {:induction false} FreeKey(ds: seq<Digest>, n: nat, i: nat)
    requires n < UINT32 && i < UINT32 && forall k :: 0 <= k < i ==> InUse(ds, Candidate(n, k))
    ensures i <= |ds|
  {
    TriedCount(n, i);
    FewKeys(ds);
    assert Tried(n, i) <= Keys(ds);
    Fewer(Tried(n, i), Keys(ds));
  }

  lemma {:induction false} Fewer(a: set<nat>, b: set<nat>)
    requires a <= b
    ensures |a| <= |b|
  {
    if a != {} {
      var x :| x in a;
      Fewer(a - {x}, b - {x});
    }
  }

  /** The key is the first free one of those tried. */
  ghost predicate FirstFree(ds: seq<Digest>, n: nat, key: nat, next: nat)
    requires n < UINT32
  {
    exists i: nat :: i < UINT32 - 1 && key == Candidate(n, i) && next == (key + 1) % UINT32
                     && !InUse(ds, key) && forall k :: 0 <= k < i ==> InUse(ds, Candidate(n, k))
  }

  lemma {:induction false} IsFirstFree(ds: seq<Digest>, n: nat, i: nat)
    requires n < UINT32 && i < UINT32 - 1 && (forall k :: 0 <= k < i ==> InUse(ds, Candidate(n, k)))
    requires forall k :: 0 <= k < |ds| ==> ds[k].key != Candidate(n, i)
    ensures FirstFree(ds, n, Candidate(n, i), (Candidate(n, i) + 1) % UINT32)
  {
    hide Candidate;
  }

  /** What the process has found out about its entry. */
  datatype Entry = Entry(path: string, target: string, argv: Sum, sums: Chain)

  /** kOCDigestInitFromEntry. */
  function DigestOf(e: Entry, key: nat): Digest {
    Digest(e.path, e.target, key, e.argv, SumAddChain([], e.sums))
  }

  // ----- The cache object -------------------------------------------------------------------

  class KObjCache {
    var uGeneration: nat
    var uNextKey: nat
    var digests: seq<Digest>
    var fDirty: bool
    var fNewCache: bool
    var fLocked: bool

    constructor ()
      ensures Now() == Mem(0, 0, [], false, false) && !fLocked
    {
      uGeneration, uNextKey, digests := 0, 0, [];
      fDirty, fNewCache, fLocked := false, false, false;
    }

    function Now(): Mem
      reads this
    {
      Mem(uGeneration, uNextKey, digests, fDirty, fNewCache)
    }

    /** kObjCachePurge. */
    method Purge()
      modifies this
      ensures Now() == old(Now()).(uGeneration := 0, uNextKey := 0, digests := []) && fLocked == old(fLocked)
    {
      digests := [];
      uGeneration, uNextKey := 0, 0;
    }

    /** kObjCacheRead. */
    method Read(lines: seq<Line>)
      modifies this
      ensures Now() == Reread(old(Now()), lines) && fLocked == old(fLocked)
    {
      var fBad := false;
      if |lines| < 1 || lines[0] != Magic {
        fBad := true;
      } else if |lines| < 2 || !lines[1].Generation? {
        fBad := true;
      } else if uGeneration != 0 && uGeneration == lines[1].value {
        fBad := false;
      } else {
        Purge();
        var r := FRESH;
        var i := 1;
        while i < |lines| && !r.fDone
          invariant 1 <= i <= |lines|
          invariant ReadLines(r, lines[i..]) == ReadLines(FRESH, lines[1..])
        {
          assert lines[i..][1..] == lines[i + 1..];
          r := ReadLine(r, lines[i]);
          i := i + 1;
        }
        assert r.fDone || lines[i..] == [];
        fBad := !IsGood(r);
        if !fBad {
          uGeneration, uNextKey, digests := r.uGeneration, r.uNextKey, Found(r);
        }
      }
      if fBad {
        Purge();
        fNewCache := true;
      }
    }

    /** kObjCacheWrite. */
    method Write() returns (lines: seq<Line>)
      requires fLocked && fDirty
      modifies this
      ensures Now() == old(Now()).(uGeneration := (old(uGeneration) + 1) % UINT32) && fLocked
      ensures lines == Printed(uGeneration, digests)
    {
      uGeneration := (uGeneration + 1) % UINT32;
      lines := [Magic, Generation(Signed(uGeneration)), Digests(|digests|)];
      ghost var head := lines;
      var i := 0;
      while i < |digests|
        invariant i <= |digests| && lines == head + AllDigestLines(digests[..i])
        invariant digests == old(digests)
      {
        var pDigest := digests[i];
        lines := lines +
        [DigestAbs(i, pDigest.path), Key(i, pDigest.key), Target(i, pDigest.target), CompArgvSum(i, pDigest.argv)];
        ghost var sofar := lines;
        var k := 0;
        while k < |pDigest.sums|
          invariant k <= |pDigest.sums| && lines == sofar + SumLines(i, pDigest.sums[..k])
        {
          lines := lines + [CppSum(i, pDigest.sums[k])];
          k := k + 1;
        }
        assert pDigest.sums[..k] == pDigest.sums;
        assert digests[..i + 1][..i] == digests[..i];
        i := i + 1;
      }
      assert digests[..i] == digests;
      lines := lines + [TheEnd(true)];
    }

    /** kObjCacheLock, when the lock on the file has been granted. */
    method Lock(file: seq<Line>)
      requires !fLocked
      modifies this
      ensures fLocked && Now() == Locked(old(Now()), file)
      ensures file == [] ==>
                fNewCache && uGeneration == old(uGeneration) && uNextKey == old(uNextKey) && digests == old(digests)
    {
      fLocked := true;
      if file != [] {
        Read(file);
      } else {
        fNewCache := true;
      }
    }

    /** kObjCacheUnlock, up to the release of the lock on the file. */
    method Unlock(file: seq<Line>) returns (file': seq<Line>)
      requires fLocked
      modifies this
      ensures !fLocked && (Now(), file') == Unlocked(old(Now()), file)
    {
      file' := file;
      if fDirty {
        file' := Write();
        fDirty := false;
      }
      fLocked := false;
    }

    /** kObjCacheRemoveEntry. */
    method RemoveEntry(path: string)
      modifies this
      ensures digests == Without(old(digests), path) && fLocked == old(fLocked)
      ensures fDirty == (old(fDirty) || digests != old(digests))
      ensures uGeneration == old(uGeneration) && uNextKey == old(uNextKey) && fNewCache == old(fNewCache)
    {
      hide Without;
      ghost var was := digests;
      var i: nat := |digests|;
      NothingLeft(was, path);
      while i > 0
        invariant i <= |was| && i <= |digests| <= |was| && digests == was[..i] + Without(was[i..], path)
        invariant fDirty == (old(fDirty) || |digests| < |was|) && (|digests| == |was| ==> digests == was)
        invariant uGeneration == old(uGeneration) && uNextKey == old(uNextKey) && fNewCache == old(fNewCache)
        invariant fLocked == old(fLocked)
        decreases i
      {
        i := i - 1;
        WithoutStep(was, i, digests, path);
        if digests[i].path == path {
          digests := digests[..i] + digests[i + 1..];
          fDirty := true;
        }
      }
      assert was[..0] == [] && was[0..] == was;
    }

    /** kObjCacheInsertEntry; the key goes into the entry as well. */
    method InsertEntry(pEntry: Entry) returns (uKey: nat)
      requires uNextKey < UINT32 && |digests| < UINT32 - 1
      modifies this
      ensures digests == old(digests) + [DigestOf(pEntry, uKey)] && fDirty && uNextKey < UINT32
      ensures 0 < uKey < UINT32 && FirstFree(old(digests), old(uNextKey), uKey, uNextKey)
      ensures uGeneration == old(uGeneration) && fNewCache == old(fNewCache) && fLocked == old(fLocked)
    {
      hide *;
      Widths();
      CandidateIs(uNextKey, 0);
      uKey := TakeKey();
      ghost var tried: nat := 0;
      var i: nat := |digests|;
      while i > 0
        invariant digests == old(digests) && i <= |digests| && tried <= |digests|
        invariant uKey == Candidate(old(uNextKey), tried) && uNextKey == (uKey + 1) % UINT32
        invariant forall k :: 0 <= k < tried ==> InUse(digests, Candidate(old(uNextKey), k))
        invariant forall k :: i <= k < |digests| ==> digests[k].key != uKey
        invariant uGeneration == old(uGeneration) && fNewCache == old(fNewCache) && fLocked == old(fLocked)
        decreases |digests| - tried, i
      {
        i := i - 1;
        if digests[i].key == uKey {
          UsedAt(digests, i);
          FreeKey(digests, old(uNextKey), tried + 1);
          CandidateIs(old(uNextKey), tried);
          CandidateIs(old(uNextKey), tried + 1);
          uKey := TakeKey();
          tried := tried + 1;
          i := |digests|;
        }
      }
      CandidateIs(old(uNextKey), tried);
      IsFirstFree(digests, old(uNextKey), tried);
      digests := digests + [DigestOf(pEntry, uKey)];
      fDirty := true;
    }

    method TakeKey() returns (uKey: nat)
      requires uNextKey < UINT32
      modifies `uNextKey
      ensures uKey == Candidate(old(uNextKey), 0) && uNextKey == (uKey + 1) % UINT32
    {
      uKey := uNextKey;
      uNextKey := (uNextKey + 1) % UINT32;
      if uKey == 0 {
        uKey := uNextKey;
        uNextKey := (uNextKey + 1) % UINT32;
      }
    }

    /** kObjCacheFindMatchingEntry; entries holds the entry files that can be read and have their object. */
    method FindMatchingEntry(argv: Sum, sum: Sum, entries: map<string, EntryFile>) returns (pRetEntry: Option<string>)
      modifies this
      ensures (pRetEntry, digests) == FindMatch(old(digests), |old(digests)|, argv, sum, entries)
      ensures fDirty == (old(fDirty) || digests != old(digests))
      ensures uGeneration == old(uGeneration) && uNextKey == old(uNextKey) && fNewCache == old(fNewCache)
      ensures fLocked == old(fLocked)
    {
      ghost var was := digests;
      var i: nat := |digests|;
      while i > 0
        invariant i <= |digests| <= |was|
        invariant FindMatch(digests, i, argv, sum, entries) == FindMatch(was, |was|, argv, sum, entries)
        invariant fDirty == (old(fDirty) || |digests| < |was|) && (|digests| == |was| ==> digests == was)
        invariant uGeneration == old(uGeneration) && uNextKey == old(uNextKey) && fNewCache == old(fNewCache)
        invariant fLocked == old(fLocked)
        decreases i
      {
        i := i - 1;
        var pDigest := digests[i];
        if pDigest.argv == argv && sum in pDigest.sums {
          if pDigest.path in entries && IsValid(pDigest, entries[pDigest.path]) {
            return Some(pDigest.path);
          }
          digests := digests[..i] + digests[i + 1..];
          fDirty := true;
        }
      }
      pRetEntry := None;
    }
  }
}
