/** Processes sharing one cache file: each locks it, reads it, works, writes it back; compilers run outside the lock. */
module ObjCacheProtocol {
  import opened Basics
  import opened ObjCache

  // ----- The shared files -------------------------------------------------------------

  datatype File = Empty | Saved(uGeneration: nat, digests: seq<Digest>)

  /** A compiled object: what it was compiled with, for which target, and what the source meant. */
  datatype Object = Object(argv: Sum, target: string, meaning: int)

  /** Compiled with these arguments from a source that meant this. */
  predicate Wanted(o: Object, argv: Sum, meaning: int) {
    o.argv == argv && o.meaning == meaning
  }

  function DigestsOf(f: File): seq<Digest> {
    if f.Empty? then [] else f.digests
  }

  function GenerationOf(f: File): nat {
    if f.Empty? then 0 else f.uGeneration
  }

  /** The text of the file. */
  function LinesOf(f: File): seq<Line> {
    if f.Empty? then [] else Printed(f.uGeneration % UINT32, f.digests)
  }

  /** The head of a chain; it is zeroed when not in use. */
  function Head(sums: Chain): Sum {
    if sums == [] then Sum(0, 0) else sums[0]
  }

  ghost predicate FileOk(f: File) {
    f.Saved? ==> 0 < f.uGeneration < UINT32 && WellFormed(f.digests)
  }

  predicate HasPath(ds: seq<Digest>, path: string) {
    exists i :: 0 <= i < |ds| && ds[i].path == path
  }

  // ----- The processes ------------------------------------------------------------------

  /** Where a process is in main. Only First, Second, Copying, Last and Updated hold the lock. */
  datatype Phase =
    | Fresh | First | FullBuild | Preprocessing | WantSecond | Second | Copying(from: string)
    | Build | Building | Built | Unchanged | Last | Updated

  predicate HoldsLock(ph: Phase) {
    ph.First? || ph.Second? || ph.Copying? || ph.Last? || ph.Updated?
  }

  /** The object is to be replaced, is being replaced, or has been, without the index knowing. */
  predicate Rebuilds(ph: Phase) {
    ph.FullBuild? || ph.Build? || ph.Building? || ph.Built?
  }

  /** A process working on its entry; dropped holds the paths whose digests failed validation. */
  datatype Process = Process(
    phase: Phase, mem: Mem, fNeedCompiling: bool, fSizeOpt: bool, before: Option<EntryFile>,
    argv: Sum, target: string, sums: Chain, dropped: set<string>)

  /** One process per entry at a time; entries and objects are on disk. */
  datatype State = State(
    file: File, lock: Option<string>, procs: map<string, Process>,
    entries: map<string, EntryFile>, objects: map<string, Object>)

  function Lookup<T>(m: map<string, T>, p: string): Option<T> {
    if p in m then Some(m[p]) else None
  }

  // ----- The steps ------------------------------------------------------------------------

  datatype Action =
    | Start(p: string, argv: Sum, target: string, fSizeOpt: bool)
    | LockFirst(p: string)
    | UnlockFirst(p: string)
    | Preprocess(p: string, sum: Sum, fSame: bool)
    | LockSecond(p: string)
    | Find(p: string)
    | Copy(p: string)
    | BeginBuild(p: string, sum: Sum)
    | EndBuild(p: string)
    | FailBuild(p: string)
    | LockLast(p: string)
    | Update(p: string, uKey: nat, uNextKey: nat)
    | UnlockLast(p: string)
    | Clean(p: string, fEntry: bool, fObject: bool)

  predicate In(s: State, p: string, ph: Phase) {
    p in s.procs && s.procs[p].phase == ph
  }

  /** The entries that can be read and whose object exists. */
  function Readable(s: State): map<string, EntryFile> {
    map q | q in s.entries && q in s.objects :: s.entries[q]
  }

  /** Writing is only modelled while the 32-bit generation does not wrap. */
  predicate Writable(m: Mem) {
    m.uGeneration + 1 < UINT32
  }

  /** Two texts compare equal only if they mean the same. */
  predicate ComparesEqual(meaning: Sum -> int, sum: Sum, before: Chain) {
    forall s :: s in before ==> meaning(s) == meaning(sum)
  }

  ghost predicate Enabled(s: State, a: Action, meaning: Sum -> int) {
    match a
    case Start(p, _, _, _) => p !in s.procs
    case LockFirst(p) => In(s, p, Fresh) && s.lock == None
    case UnlockFirst(p) => In(s, p, First)
    case Preprocess(p, sum, fSame) =>
      && In(s, p, Preprocessing)
      && (fSame && s.procs[p].before.Some? ==> ComparesEqual(meaning, sum, s.procs[p].before.value.sums))
    case LockSecond(p) => In(s, p, WantSecond) && s.lock == None
    case Find(p) =>
      In(s, p, Second) && Writable(s.procs[p].mem)
    case Copy(p) =>
      p in s.procs && s.procs[p].phase.Copying? && s.procs[p].phase.from in s.objects
    case BeginBuild(p, _) => In(s, p, FullBuild) || In(s, p, Build)
    case EndBuild(p) => In(s, p, Building)
    case FailBuild(p) => In(s, p, Building)
    case LockLast(p) => (In(s, p, Built) || In(s, p, Unchanged)) && s.lock == None
    case Update(p, uKey, uNextKey) =>
      && In(s, p, Last) && s.procs[p].mem.uNextKey < UINT32 && 0 < uKey < UINT32 && uNextKey < UINT32
      && FirstFree(Without(s.procs[p].mem.digests, p), s.procs[p].mem.uNextKey, uKey, uNextKey)
    case UnlockLast(p) => In(s, p, Updated) && Writable(s.procs[p].mem)
    case Clean(q, _, _) => q !in s.procs && forall p :: p in s.procs ==> s.procs[p].phase != Copying(q)
  }

  function With(s: State, p: string, pr: Process): State {
    s.(procs := s.procs[p := pr])
  }

  /** kObjCacheLock. */
  function TakeLock(s: State, p: string, ph: Phase): State
    requires p in s.procs
  {
    var pr := s.procs[p];
    With(s, p, pr.(phase := ph, mem := Locked(pr.mem, LinesOf(s.file)), dropped := {})).(lock := Some(p))
  }

  /** kObjCacheUnlock. */
  function GiveLock(s: State, p: string, ph: Phase): State
    requires p in s.procs
  {
    var pr := s.procs[p];
    var g := (pr.mem.uGeneration + 1) % UINT32;
    var file := if pr.mem.fDirty then Saved(g, pr.mem.digests) else s.file;
    var mem := if pr.mem.fDirty then pr.mem.(uGeneration := g, fDirty := false) else pr.mem;
    With(s, p, pr.(phase := ph, mem := mem, dropped := {})).(file := file, lock := None)
  }

  /** The lock is given back as the cache object does it. */
  lemma {:induction false} GiveLockIsUnlock(s: State, p: string, ph: Phase)
    requires p in s.procs
    ensures var s' := GiveLock(s, p, ph);
            (s'.procs[p].mem, LinesOf(s'.file)) == Unlocked(s.procs[p].mem, LinesOf(s.file))
  {
    hide Printed;
  }

  /** kOCEntryCalcRecompile, on the checksum of the new preprocessor output. */
  function CalcRecompile(pr: Process, sum: Sum, fSame: bool): Process {
    var now := pr.(sums := [sum]);
    if pr.fNeedCompiling || pr.before.None? then now.(fNeedCompiling := true, phase := WantSecond)
    else if sum in pr.before.value.sums then now.(phase := Unchanged)
    else if pr.fSizeOpt then now.(fNeedCompiling := true, phase := WantSecond)
    else if fSame then now.(sums := SumAddChain([sum], pr.before.value.sums), phase := Unchanged)
    else now.(fNeedCompiling := true, phase := WantSecond)
  }

  function StartOf(s: State, p: string, argv: Sum, target: string, fSizeOpt: bool): Process {
    var before := if p in s.objects then Lookup(s.entries, p) else None;
    var need := before.None? || before.value.argv != argv || before.value.target != target;
    Process(Fresh, Mem(0, 0, [], false, false), need, fSizeOpt, before, argv, target, [], {})
  }

  function Left(p: string, pr: Process, entries: map<string, EntryFile>): seq<Digest> {
    var without := Without(pr.mem.digests, p);
    FindMatch(without, |without|, pr.argv, Head(pr.sums), entries).1
  }

  function Dropped(p: string, pr: Process, entries: map<string, EntryFile>): set<string> {
    set d | d in Without(pr.mem.digests, p) && d !in Left(p, pr, entries) :: d.path
  }

  /** What the process holds after it removed its own digest and looked for a match. */
  function Sifted(p: string, pr: Process, entries: map<string, EntryFile>, ph: Phase): Process {
    var left := Left(p, pr, entries);
    pr.(mem := pr.mem.(digests := left, fDirty := pr.mem.fDirty || left != pr.mem.digests),
        dropped := pr.dropped + Dropped(p, pr, entries), phase := ph)
  }

  /** What kObjCacheFindMatchingEntry answers once the own digest is removed. */
  function Answer(p: string, pr: Process, entries: map<string, EntryFile>): Option<string> {
    var without := Without(pr.mem.digests, p);
    FindMatch(without, |without|, pr.argv, Head(pr.sums), entries).0
  }

  /** A match is copied under the lock; without one the lock is given back. */
  function Searched(s: State, p: string): State
    requires p in s.procs
  {
    var pr, entries := s.procs[p], Readable(s);
    match Answer(p, pr, entries)
    case Some(from) => With(s, p, Sifted(p, pr, entries, Copying(from)))
    case None => GiveLock(With(s, p, Sifted(p, pr, entries, Second)), p, Build)
  }

  function EntryOf(pr: Process, uKey: nat): EntryFile {
    EntryFile(uKey, pr.target, pr.argv, SumAddChain([], pr.sums))
  }

  function Updating(s: State, p: string, uKey: nat, uNextKey: nat): State
    requires p in s.procs
  {
    var pr := s.procs[p];
    var ds := Without(pr.mem.digests, p) + [DigestOf(Entry(p, pr.target, pr.argv, pr.sums), uKey)];
    With(s, p, pr.(phase := Updated, mem := pr.mem.(digests := ds, fDirty := true, uNextKey := uNextKey)))
    .(entries := s.entries[p := EntryOf(pr, uKey)])
  }

  ghost function Next(s: State, a: Action, meaning: Sum -> int): State
    requires Enabled(s, a, meaning)
  {
    match a
    case Start(p, argv, target, fSizeOpt) => With(s, p, StartOf(s, p, argv, target, fSizeOpt))
    case LockFirst(p) => TakeLock(s, p, First)
    case UnlockFirst(p) =>
      var pr := s.procs[p];
      GiveLock(s, p, if pr.mem.fNewCache && pr.fNeedCompiling then FullBuild else Preprocessing)
    case Preprocess(p, sum, fSame) => With(s, p, CalcRecompile(s.procs[p], sum, fSame))
    case LockSecond(p) => TakeLock(s, p, Second)
    case Find(p) => Searched(s, p)
    case Copy(p) =>
      With(s, p, s.procs[p].(phase := Last)).(objects := s.objects[p := s.objects[s.procs[p].phase.from]])
    case BeginBuild(p, sum) =>
      var pr := s.procs[p];
      With(s, p, pr.(phase := Building, sums := if pr.phase.FullBuild? then [sum] else pr.sums))
      .(objects := s.objects - {p})
    case EndBuild(p) =>
      var pr := s.procs[p];
      With(s, p, pr.(phase := Built)).(objects := s.objects[p := Object(pr.argv, pr.target, meaning(Head(pr.sums)))])
    case FailBuild(p) => s.(procs := s.procs - {p})
    case LockLast(p) => TakeLock(s, p, Last)
    case Update(p, uKey, uNextKey) => Updating(s, p, uKey, uNextKey)
    case UnlockLast(p) =>
      var s' := GiveLock(s, p, Updated);
      s'.(procs := s'.procs - {p})
    case Clean(p, fEntry, fObject) =>
      s.(entries := if fEntry then s.entries - {p} else s.entries,
          objects := if fObject then s.objects - {p} else s.objects)
  }

  // ----- What every run keeps -----------------------------------------------------------------

  /** An unlocked process remembers the file as it was at some generation. */
  ghost predicate MemOutside(m: Mem, f: File) {
    && !m.fDirty && (m.uGeneration == 0 ==> m.digests == [])
    && (m.uGeneration != 0 ==> f.Saved? && m.uGeneration <= f.uGeneration
                               && (m.uGeneration == f.uGeneration ==> SameDigests(m.digests, f.digests)))
  }

  predicate Represented(d: Digest, ds: seq<Digest>) {
    exists i :: 0 <= i < |ds| && SameDigest(d, ds[i])
  }

  /** The process holding the lock has the digests of the file, but for its own and those it dropped. */
  ghost predicate MemInside(p: string, m: Mem, f: File, dropped: set<string>) {
    && m.uGeneration == GenerationOf(f)
    && (forall d :: d in m.digests && d.path != p ==> Represented(d, DigestsOf(f)))
    && (forall d :: d in DigestsOf(f) && d.path != p && d.path !in dropped ==> Represented(d, m.digests))
  }

  /** The object is what the entry says. */
  ghost predicate Good(argv: Sum, sums: Chain, o: Object, meaning: Sum -> int) {
    argv == o.argv && forall x :: x in sums ==> meaning(x) == o.meaning
  }

  ghost predicate MemInv(p: string, pr: Process, f: File) {
    && WellFormed(pr.mem.digests) && pr.mem.uNextKey < UINT32
    && (!HoldsLock(pr.phase) ==> MemOutside(pr.mem, f))
    && (HoldsLock(pr.phase) ==> MemInside(p, pr.mem, f, pr.dropped))
    && (HoldsLock(pr.phase) && !pr.mem.fDirty ==> SameDigests(pr.mem.digests, DigestsOf(f)))
    && (pr.phase.Fresh? ==> !pr.mem.fNewCache)
    && (pr.phase.First? ==> !pr.mem.fDirty && (pr.mem.fNewCache ==> f.Empty?))
    && (pr.phase.Copying? ==> !HasPath(pr.mem.digests, p))
    && (Rebuilds(pr.phase) ==> !HasPath(DigestsOf(f), p))
  }

  ghost predicate EntryInv(pr: Process, entry: Option<EntryFile>, made: Option<Object>, meaning: Sum -> int) {
    && (!pr.fNeedCompiling && (pr.phase.Fresh? || pr.phase.First? || pr.phase.Preprocessing?) ==>
          pr.before.Some? && pr.before == entry && made.Some? && pr.argv == entry.value.argv)
    && (pr.phase.FullBuild? ==> pr.fNeedCompiling)
    && (pr.phase.WantSecond? || pr.phase.Second? || pr.phase.Copying? || pr.phase.Build? || pr.phase.Building? ||
        pr.phase.Built? ==>
          |pr.sums| == 1)
    && (pr.phase.Built? || pr.phase.Unchanged? || pr.phase.Last? || pr.phase.Updated? ==>
          made.Some? && pr.sums != [] && Good(pr.argv, pr.sums, made.value, meaning))
    && (pr.phase.Updated? ==>
        entry.Some? && entry.value.argv == pr.argv && multiset(entry.value.sums) == multiset(pr.sums))
    && (pr.phase.Building? ==> made.None?)
  }

  /** Between the new object and the update of the entry file the two need not agree. */
  predicate Pending(ph: Phase) {
    ph.Building? || ph.Built? || ph.Last?
  }

  ghost predicate DiskInv(s: State, q: string, meaning: Sum -> int) {
    && (q in s.entries ==> s.entries[q].sums != [])
    && (q in s.entries && q in s.objects && !(q in s.procs && Pending(s.procs[q].phase)) ==>
          Good(s.entries[q].argv, s.entries[q].sums, s.objects[q], meaning))
  }

  /** The object a process is about to copy is finished, left alone, and the one it wants. */
  ghost predicate CopyInv(s: State, p: string, meaning: Sum -> int) {
    p in s.procs && s.procs[p].phase.Copying? ==>
      var pr, from := s.procs[p], s.procs[p].phase.from;
      && from != p && HasPath(DigestsOf(s.file), from)
      && from in s.objects && Wanted(s.objects[from], pr.argv, meaning(Head(pr.sums)))
      && !(from in s.procs && Rebuilds(s.procs[from].phase))
  }

  ghost predicate LockInv(s: State) {
    forall p :: p in s.procs ==> (s.lock == Some(p) <==> HoldsLock(s.procs[p].phase))
  }

  ghost predicate Inv(s: State, meaning: Sum -> int) {
    && FileOk(s.file) && LockInv(s) && (s.lock.Some? ==> s.lock.value in s.procs)
    && (forall p :: p in s.procs ==> MemInv(p, s.procs[p], s.file))
    && (forall p :: p in s.procs ==> EntryInv(s.procs[p], Lookup(s.entries, p), Lookup(s.objects, p), meaning))
    && (forall q :: DiskInv(s, q, meaning))
    && (forall p :: CopyInv(s, p, meaning))
  }

  // ----- Others are not disturbed --------------------------------------------------------------

  /** Only p and its own files change. */
  ghost predicate OnlyMoves(s: State, s': State, p: string) {
    && (forall q :: q != p ==> (q in s'.procs <==> q in s.procs) && (q in s.procs ==> s'.procs[q] == s.procs[q]))
    && (forall q :: q != p ==>
        Lookup(s'.entries, q) == Lookup(s.entries, q) && Lookup(s'.objects, q) == Lookup(s.objects, q))
    && (if s.lock.Some? && s.lock.value != p then s'.lock == s.lock else s'.lock == None || s'.lock == Some(p))
    && (s'.lock == Some(p) <==> p in s'.procs && HoldsLock(s'.procs[p].phase))
  }

  /** The part of the invariant that is about p. */
  ghost predicate OwnInv(s: State, p: string, meaning: Sum -> int) {
    && (p in s.procs ==>
        MemInv(p, s.procs[p], s.file) && EntryInv(s.procs[p], Lookup(s.entries, p), Lookup(s.objects, p), meaning))
    && DiskInv(s, p, meaning) && CopyInv(s, p, meaning)
  }

  /** Nobody else is copying the object of p, or it stays as it is. */
  ghost predicate NotTakenAway(s: State, s': State, p: string) {
    forall r :: r in s.procs && r != p && s.procs[r].phase == Copying(p) ==>
      Lookup(s'.objects, p) == Lookup(s.objects, p) && !(p in s'.procs && Rebuilds(s'.procs[p].phase))
  }

  lemma {:induction false} CopyKept(s: State, s': State, p: string, r: string, meaning: Sum -> int)
    requires CopyInv(s, r, meaning) && OnlyMoves(s, s', p) && s'.file == s.file && NotTakenAway(s, s', p) && r != p
    ensures CopyInv(s', r, meaning)
  {
    hide HasPath;
    if r in s.procs && s.procs[r].phase.Copying? {
      var from := s.procs[r].phase.from;
      assert Lookup(s'.objects, from) == Lookup(s.objects, from);
    }
  }

  lemma {:induction false} LockKept(s: State, s': State, p: string)
    requires LockInv(s) && OnlyMoves(s, s', p) && (s.lock.Some? ==> s.lock.value in s.procs)
    ensures LockInv(s') && (s'.lock.Some? ==> s'.lock.value in s'.procs)
  {
  }

  lemma {:induction false} KeepOthers(s: State, s': State, p: string, meaning: Sum -> int)
    requires Inv(s, meaning) && OnlyMoves(s, s', p) && s'.file == s.file
    requires OwnInv(s', p, meaning) && NotTakenAway(s, s', p)
    ensures Inv(s', meaning)
  {
    hide *;
    InvAt(s, p, meaning);
    OwnParts(s', p, meaning);
    LockKept(s, s', p);
    forall q ensures DiskInv(s', q, meaning) && CopyInv(s', q, meaning) {
      if q != p {
        InvAt(s, q, meaning);
        DiskKept(s, s', p, q, meaning);
        CopyKept(s, s', p, q, meaning);
      }
    }
    forall q | q in s'.procs
      ensures MemInv(q, s'.procs[q], s'.file)
      ensures EntryInv(s'.procs[q], Lookup(s'.entries, q), Lookup(s'.objects, q), meaning)
    {
      if q != p {
        InvAt(s, q, meaning);
        Moved(s, s', p, q);
      }
    }
    InvFrom(s', meaning);
  }

  /** Whoever waits outside the lock is served by what the lock holder writes. */
  lemma {:induction false} WrittenForOthers(p: string, holder: Process, f: File, r: string, pr: Process)
    requires r != p && MemInv(p, holder, f) && HoldsLock(holder.phase) && Writable(holder.mem) && FileOk(f)
    requires MemInv(r, pr, f) && !HoldsLock(pr.phase)
    ensures MemInv(r, pr, Saved(holder.mem.uGeneration + 1, holder.mem.digests))
  {
    hide WellFormed, SameDigests;
    if HasPath(holder.mem.digests, r) {
      PathInFile(p, holder.mem, f, holder.dropped, r);
    }
  }

  lemma {:induction false} PathInFile(p: string, m: Mem, f: File, dropped: set<string>, r: string)
    requires MemInside(p, m, f, dropped) && r != p && HasPath(m.digests, r)
    ensures HasPath(DigestsOf(f), r)
  {
    var i :| 0 <= i < |m.digests| && m.digests[i].path == r;
    assert m.digests[i] in m.digests && Represented(m.digests[i], DigestsOf(f));
    var j :| 0 <= j < |DigestsOf(f)| && SameDigest(m.digests[i], DigestsOf(f)[j]);
    assert DigestsOf(f)[j].path == r;
  }

  lemma {:induction false} DiskKept(s: State, s': State, p: string, q: string, meaning: Sum -> int)
    requires DiskInv(s, q, meaning) && OnlyMoves(s, s', p) && q != p
    ensures DiskInv(s', q, meaning)
  {
    hide Good;
    assert Lookup(s'.entries, q) == Lookup(s.entries, q) && Lookup(s'.objects, q) == Lookup(s.objects, q);
  }

  lemma {:induction false} Moved(s: State, s': State, p: string, q: string)
    requires OnlyMoves(s, s', p) && q != p
    ensures q in s'.procs <==> q in s.procs
    ensures q in s.procs ==> s'.procs[q] == s.procs[q]
    ensures Lookup(s'.entries, q) == Lookup(s.entries, q) && Lookup(s'.objects, q) == Lookup(s.objects, q)
  {
  }

  /** While p has the lock nobody else has. */
  lemma {:induction false} OnlyHolder(s: State, s': State, p: string)
    requires LockInv(s) && OnlyMoves(s, s', p) && p in s.procs && HoldsLock(s.procs[p].phase)
    requires s.lock.Some? ==> s.lock.value in s.procs
    ensures LockInv(s') && s.lock == Some(p) && (s'.lock.Some? ==> s'.lock.value in s'.procs)
    ensures forall q :: q in s.procs && q != p ==> !HoldsLock(s.procs[q].phase)
  {
  }

  lemma {:induction false} InvAt(s: State, p: string, meaning: Sum -> int)
    requires Inv(s, meaning)
    ensures FileOk(s.file) && LockInv(s) && (s.lock.Some? ==> s.lock.value in s.procs)
    ensures p in s.procs ==>
              MemInv(p, s.procs[p], s.file) && EntryInv(s.procs[p], Lookup(s.entries, p), Lookup(s.objects, p), meaning)
    ensures DiskInv(s, p, meaning) && CopyInv(s, p, meaning)
  {
  }

  lemma {:induction false} InvFrom(s: State, meaning: Sum -> int)
    requires FileOk(s.file) && LockInv(s) && (s.lock.Some? ==> s.lock.value in s.procs)
    requires forall p :: p in s.procs ==> MemInv(p, s.procs[p], s.file)
    requires forall p :: p in s.procs ==> EntryInv(s.procs[p], Lookup(s.entries, p), Lookup(s.objects, p), meaning)
    requires forall q :: DiskInv(s, q, meaning) && CopyInv(s, q, meaning)
    ensures Inv(s, meaning)
  {
  }

  lemma {:induction false} OwnParts(s: State, p: string, meaning: Sum -> int)
    requires OwnInv(s, p, meaning)
    ensures p in s.procs ==>
              MemInv(p, s.procs[p], s.file) && EntryInv(s.procs[p], Lookup(s.entries, p), Lookup(s.objects, p), meaning)
    ensures DiskInv(s, p, meaning) && CopyInv(s, p, meaning)
  {
  }

  lemma {:induction false} NotCopying(s: State, p: string, meaning: Sum -> int)
    requires p in s.procs ==> !HoldsLock(s.procs[p].phase)
    ensures CopyInv(s, p, meaning)
  {
  }

  lemma {:induction false} WrittenIsOk(p: string, pr: Process, f: File)
    requires MemInv(p, pr, f) && Writable(pr.mem)
    ensures FileOk(Saved(pr.mem.uGeneration + 1, pr.mem.digests))
  {
  }

  lemma {:induction false} KeepOthersWrite(s: State, s': State, p: string, meaning: Sum -> int)
    requires Inv(s, meaning) && OnlyMoves(s, s', p) && p in s.procs && HoldsLock(s.procs[p].phase)
    requires Writable(s.procs[p].mem) && s'.file == Saved(s.procs[p].mem.uGeneration + 1, s.procs[p].mem.digests)
    requires OwnInv(s', p, meaning)
    ensures Inv(s', meaning)
  {
    hide *;
    var pr := s.procs[p];
    InvAt(s, p, meaning);
    OnlyHolder(s, s', p);
    WrittenIsOk(p, pr, s.file);
    OwnParts(s', p, meaning);
    forall q
      ensures DiskInv(s', q, meaning) && CopyInv(s', q, meaning)
      ensures q in s'.procs ==> MemInv(q, s'.procs[q], s'.file)
      ensures q in s'.procs ==> EntryInv(s'.procs[q], Lookup(s'.entries, q), Lookup(s'.objects, q), meaning)
    {
      if q != p {
        InvAt(s, q, meaning);
        Moved(s, s', p, q);
        DiskKept(s, s', p, q, meaning);
        NotCopying(s', q, meaning);
        if q in s.procs {
          WrittenForOthers(p, pr, s.file, q, s.procs[q]);
        }
      }
    }
    InvFrom(s', meaning);
  }

  // ----- Locking ------------------------------------------------------------------------------

  lemma {:induction false} KeyBoundFits(ds: seq<Digest>, next: nat)
    requires next < UINT32
    ensures KeyBound(ds, next) < UINT32
  {
    if ds != [] {
      KeyBoundFits(ds[..|ds| - 1], next);
    }
  }

  lemma {:induction false} SameIsWellFormed(a: seq<Digest>, b: seq<Digest>)
    requires SameDigests(a, b) && WellFormed(b)
    ensures WellFormed(a)
  {
    forall i | 0 <= i < |a| ensures a[i].sums != [] {
      assert SameDigest(a[i], b[i]);
      assert b[i].sums[0] in multiset(b[i].sums);
    }
    forall i, j | 0 <= i < j < |a| ensures a[i].key != a[j].key && a[i].path != a[j].path {
      assert SameDigest(a[i], b[i]) && SameDigest(a[j], b[j]);
    }
  }

  /** After kObjCacheLock the process has the digests of the file, whether it read them again or not. */
  lemma {:induction false} LockCoheres(m: Mem, f: File)
    requires FileOk(f) && MemOutside(m, f) && WellFormed(m.digests) && m.uNextKey < UINT32
    ensures var m' := Locked(m, LinesOf(f));
            && m'.uGeneration == GenerationOf(f) && SameDigests(m'.digests, DigestsOf(f)) && WellFormed(m'.digests)
            && m'.uNextKey < UINT32 && !m'.fDirty && m'.fNewCache == (m.fNewCache || f.Empty?)
  {
    hide SameDigest, ReadLines, IsGood, ObjCache.Found, WellFormed, KeyBound, SameDigests, AfterMagic, Printed, Signed;
    if f.Saved? {
      ReadsBack(f.uGeneration, f.digests);
      KeyBoundFits(f.digests, 0);
      SignedIs(f.uGeneration);
      PrintedHead(f.uGeneration, f.digests);
      SmallIsItself(f.uGeneration, UINT32);
      var r := ReadLines(FRESH, LinesOf(f)[1..]);
      if !(m.uGeneration != 0 && m.uGeneration == Signed(f.uGeneration)) {
        SameIsWellFormed(ObjCache.Found(r), f.digests);
      }
    } else {
      NoDigests();
    }
  }

  lemma {:induction false} SmallIsItself(n: nat, m: nat)
    requires n < m
    ensures n % m == n
  {
  }

  lemma {:induction false} NoDigests()
    ensures SameDigests([], [])
  {
  }

  lemma {:induction false} PrintedHead(uGeneration: nat, ds: seq<Digest>)
    requires uGeneration < UINT32
    ensures var lines := Printed(uGeneration, ds);
            && |lines| >= 2 && lines[0] == Magic && lines[1] == Generation(Signed(uGeneration))
            && lines[1..] == AfterMagic(uGeneration, ds)
  {
  }

  lemma {:induction false} SignedIs(n: nat)
    requires n < UINT32
    ensures Signed(n) == n || Signed(n) < 0
  {
  }

  lemma {:induction false} SameIsInside(p: string, m: Mem, f: File)
    requires m.uGeneration == GenerationOf(f) && SameDigests(m.digests, DigestsOf(f))
    ensures MemInside(p, m, f, {})
  {
    var a, b := m.digests, DigestsOf(f);
    forall d | d in a ensures Represented(d, b) {
      var i :| 0 <= i < |a| && a[i] == d;
      assert SameDigest(d, b[i]);
    }
    forall d | d in b ensures Represented(d, a) {
      var i :| 0 <= i < |b| && b[i] == d;
      assert SameDigest(a[i], b[i]);
      assert SameDigest(d, a[i]);
    }
  }

  /** The process after it got the lock. */
  lemma {:induction false} TakenMem(p: string, pr: Process, f: File, ph: Phase)
    requires MemInv(p, pr, f) && FileOk(f) && !HoldsLock(pr.phase) && (ph.First? || ph.Second? || ph.Last?)
    requires ph.First? ==> pr.phase.Fresh?
    ensures var pr' := pr.(phase := ph, mem := Locked(pr.mem, LinesOf(f)), dropped := {}); MemInv(p, pr', f)
  {
    hide Locked, WellFormed, LinesOf;
    LockCoheres(pr.mem, f);
    SameIsInside(p, Locked(pr.mem, LinesOf(f)), f);
  }

  predicate Follows(before: Phase, after: Phase) {
    match after
    case First => before.Fresh?
    case Second => before.WantSecond?
    case Last => before.Built? || before.Unchanged?
    case _ => false
  }

  lemma {:induction false} TakenEntry(s: State, p: string, ph: Phase, meaning: Sum -> int)
    requires p in s.procs && Follows(s.procs[p].phase, ph)
    requires EntryInv(s.procs[p], Lookup(s.entries, p), Lookup(s.objects, p), meaning) && DiskInv(s, p, meaning)
    ensures var s' := TakeLock(s, p, ph);
            && EntryInv(s'.procs[p], Lookup(s'.entries, p), Lookup(s'.objects, p), meaning)
            && DiskInv(s', p, meaning) && CopyInv(s', p, meaning)
  {
    hide Good, Locked, LinesOf;
  }

  lemma {:induction false} TakeLockKeeps(s: State, p: string, ph: Phase, meaning: Sum -> int)
    requires Inv(s, meaning) && p in s.procs && s.lock == None && Follows(s.procs[p].phase, ph)
    ensures Inv(TakeLock(s, p, ph), meaning)
  {
    hide Locked, Good, WellFormed, LinesOf, MemInv, EntryInv, DiskInv, CopyInv, FileOk, Inv;
    var pr, s' := s.procs[p], TakeLock(s, p, ph);
    InvAt(s, p, meaning);
    TakenMem(p, pr, s.file, ph);
    TakenEntry(s, p, ph, meaning);
    KeepOthers(s, s', p, meaning);
  }

  // ----- Step by step ------------------------------------------------------------------------------

  lemma {:induction false} StartKeeps(s: State, p: string, argv: Sum, target: string, fSizeOpt: bool,
      meaning: Sum -> int)
    requires Inv(s, meaning) && p !in s.procs
    ensures Inv(With(s, p, StartOf(s, p, argv, target, fSizeOpt)), meaning)
  {
    hide Inv, FileOk, Good, MemInside;
    InvAt(s, p, meaning);
    KeepOthers(s, With(s, p, StartOf(s, p, argv, target, fSizeOpt)), p, meaning);
  }

  lemma {:induction false} SameItself(ds: seq<Digest>)
    ensures SameDigests(ds, ds)
  {
  }

  /** The process after it gave the lock back. */
  lemma {:induction false} GivenMem(p: string, pr: Process, f: File, ph: Phase)
    requires MemInv(p, pr, f) && HoldsLock(pr.phase) && FileOk(f) && (pr.mem.fDirty ==> Writable(pr.mem))
    requires !HoldsLock(ph) && !ph.Fresh?
    requires Rebuilds(ph) ==> !HasPath(pr.mem.digests, p) && (!pr.mem.fDirty ==> !HasPath(DigestsOf(f), p))
    ensures var g := pr.mem.uGeneration + 1;
            var mem := if pr.mem.fDirty then pr.mem.(uGeneration := g, fDirty := false) else pr.mem;
            var f' := if pr.mem.fDirty then Saved(g, pr.mem.digests) else f;
            MemInv(p, pr.(phase := ph, mem := mem, dropped := {}), f')
  {
    hide WellFormed;
    SameItself(pr.mem.digests);
  }

  lemma {:induction false} GiveLockKeeps(s: State, p: string, ph: Phase, meaning: Sum -> int)
    requires Inv(s, meaning) && p in s.procs && HoldsLock(s.procs[p].phase)
    requires s.procs[p].mem.fDirty ==> Writable(s.procs[p].mem)
    requires !HoldsLock(ph) && !ph.Fresh?
    requires var pr := s.procs[p]; Rebuilds(ph) ==>
               !HasPath(pr.mem.digests, p) && (!pr.mem.fDirty ==> !HasPath(DigestsOf(s.file), p))
    requires var s' := GiveLock(s, p, ph);
             EntryInv(s'.procs[p], Lookup(s'.entries, p), Lookup(s'.objects, p), meaning) && DiskInv(s', p, meaning)
    ensures Inv(GiveLock(s, p, ph), meaning)
  {
    hide Good, WellFormed, MemInv, EntryInv, DiskInv, CopyInv, FileOk, Inv;
    var pr, s' := s.procs[p], GiveLock(s, p, ph);
    InvAt(s, p, meaning);
    GivenMem(p, pr, s.file, ph);
    NotCopying(s', p, meaning);
    if pr.mem.fDirty {
      assert pr.mem.uGeneration + 1 == (pr.mem.uGeneration + 1) % UINT32;
      KeepOthersWrite(s, s', p, meaning);
    } else {
      OnlyHolder(s, s', p);
      KeepOthers(s, s', p, meaning);
    }
  }

  lemma {:induction false} UnlockFirstKeeps(s: State, p: string, meaning: Sum -> int)
    requires Inv(s, meaning) && In(s, p, First)
    ensures var ph := if s.procs[p].mem.fNewCache && s.procs[p].fNeedCompiling then FullBuild else Preprocessing;
            Inv(GiveLock(s, p, ph), meaning)
  {
    hide Good, WellFormed, FileOk, Inv;
    InvAt(s, p, meaning);
    var ph := if s.procs[p].mem.fNewCache && s.procs[p].fNeedCompiling then FullBuild else Preprocessing;
    GiveLockKeeps(s, p, ph, meaning);
  }

  lemma {:induction false} RecompileEntry(pr: Process, entry: Option<EntryFile>, made: Option<Object>, sum: Sum,
      fSame: bool, meaning: Sum -> int)
    requires EntryInv(pr, entry, made, meaning) && pr.phase.Preprocessing?
    requires fSame && pr.before.Some? ==> ComparesEqual(meaning, sum, pr.before.value.sums)
    requires entry.Some? && made.Some? ==> Good(entry.value.argv, entry.value.sums, made.value, meaning)
    requires entry.Some? ==> entry.value.sums != []
    ensures EntryInv(CalcRecompile(pr, sum, fSame), entry, made, meaning)
  {
    if !pr.fNeedCompiling && pr.before.Some? && sum !in pr.before.value.sums && fSame {
      ChainAdded([sum], pr.before.value.sums);
      SameSums(SumAddChain([sum], pr.before.value.sums), [sum] + pr.before.value.sums);
      hide SumAddChain;
      var x := pr.before.value.sums[0];
      assert meaning(x) == made.value.meaning && meaning(sum) == meaning(x);
    }
  }

  lemma {:induction false} LeftIs(p: string, pr: Process, entries: map<string, EntryFile>)
    requires WellFormed(pr.mem.digests)
    ensures var left := Left(p, pr, entries);
            && WellFormed(left) && !HasPath(left, p)
            && (forall d :: d in left ==> d in pr.mem.digests)
            && (forall d :: d in pr.mem.digests && d.path != p && d !in left ==>
                  Matches(d, pr.argv, Head(pr.sums)) && !Usable(d, entries) && d.path in Dropped(p, pr, entries))
  {
    var without := Without(pr.mem.digests, p);
    WithoutOthers(pr.mem.digests, p);
    WithoutWellFormed(pr.mem.digests, p);
    FindMatchIs(without, |without|, pr.argv, Head(pr.sums), entries);
    hide FindMatch, WellFormed, Without, Matches, Usable;
    var left := Left(p, pr, entries);
    forall i | 0 <= i < |left| ensures left[i].path != p {
      assert left[i] in left;
    }
  }

  /** What has been kept still represents what it represented. */
  lemma {:induction false} Carried(x: Digest, ds: seq<Digest>, kept: seq<Digest>, gone: set<string>)
    requires Represented(x, ds) && x.path !in gone && forall d :: d in ds && d.path !in gone ==> d in kept
    ensures Represented(x, kept)
  {
    var i :| 0 <= i < |ds| && SameDigest(x, ds[i]);
    assert ds[i] in ds && ds[i].path == x.path;
    var j :| 0 <= j < |kept| && kept[j] == ds[i];
    assert SameDigest(x, kept[j]);
  }

  lemma {:induction false} SiftedInside(p: string, pr: Process, entries: map<string, EntryFile>, f: File)
    requires WellFormed(pr.mem.digests) && MemInside(p, pr.mem, f, pr.dropped)
    ensures MemInside(p, pr.mem.(digests := Left(p, pr, entries)), f, pr.dropped + Dropped(p, pr, entries))
  {
    LeftIs(p, pr, entries);
    var left, gone := Left(p, pr, entries), {p} + pr.dropped + Dropped(p, pr, entries);
    hide Left, WellFormed, Dropped, DigestsOf, Represented;
    forall d | d in DigestsOf(f) && d.path !in gone ensures Represented(d, left) {
      Carried(d, pr.mem.digests, left, gone);
    }
  }

  lemma {:induction false} InsideDirty(p: string, m: Mem, f: File, dropped: set<string>, fDirty: bool)
    requires MemInside(p, m, f, dropped)
    ensures MemInside(p, m.(fDirty := fDirty), f, dropped)
  {
  }

  lemma {:induction false} SiftedMem(p: string, pr: Process, entries: map<string, EntryFile>, ph: Phase, f: File)
    requires MemInv(p, pr, f) && pr.phase.Second? && (ph.Second? || ph.Copying?)
    ensures MemInv(p, Sifted(p, pr, entries, ph), f)
  {
    LeftIs(p, pr, entries);
    SiftedInside(p, pr, entries, f);
    var pr' := Sifted(p, pr, entries, ph);
    InsideDirty(p, pr.mem.(digests := Left(p, pr, entries)), f, pr'.dropped, pr'.mem.fDirty);
    hide Left, WellFormed, Dropped, SameDigests, DigestsOf, MemInside, MemOutside;
  }

  lemma {:induction false} MatchFound(p: string, pr: Process, entries: map<string, EntryFile>, from: string)
      returns (d: Digest)
    requires WellFormed(pr.mem.digests) && Answer(p, pr, entries) == Some(from)
    ensures d in pr.mem.digests && d.path == from != p && Matches(d, pr.argv, Head(pr.sums)) && Usable(d, entries)
  {
    var without := Without(pr.mem.digests, p);
    WithoutOthers(pr.mem.digests, p);
    FindMatchIs(without, |without|, pr.argv, Head(pr.sums), entries);
    hide FindMatch, Without, WellFormed, Matches, Usable;
    var left := FindMatch(without, |without|, pr.argv, Head(pr.sums), entries).1;
    d :| d in left && d.path == from && Matches(d, pr.argv, Head(pr.sums)) && Usable(d, entries);
  }

  /** The entry of a usable match is at rest, and its object is the one wanted. */
  lemma {:induction false} MatchIsGood(s: State, p: string, from: string, meaning: Sum -> int)
    requires Inv(s, meaning) && In(s, p, Second) && Answer(p, s.procs[p], Readable(s)) == Some(from)
    ensures from != p && HasPath(DigestsOf(s.file), from) && !(from in s.procs && Rebuilds(s.procs[from].phase))
    ensures from in s.objects && Wanted(s.objects[from], s.procs[p].argv, meaning(Head(s.procs[p].sums)))
  {
    hide Inv, WellFormed, SameDigests, FileOk, MemOutside, Answer, EntryInv, CopyInv, HasPath, MemInside;
    var pr := s.procs[p];
    InvAt(s, p, meaning);
    InvAt(s, from, meaning);
    var d := MatchFound(p, pr, Readable(s), from);
    MatchInFile(p, pr, s.file, d);
    UsableIsGood(d, s, pr.argv, Head(pr.sums), meaning);
  }

  lemma {:induction false} UsableIsGood(d: Digest, s: State, argv: Sum, sum: Sum, meaning: Sum -> int)
    requires Matches(d, argv, sum) && Usable(d, Readable(s)) && DiskInv(s, d.path, meaning)
    requires !(d.path in s.procs && Pending(s.procs[d.path].phase))
    ensures d.path in s.objects && Wanted(s.objects[d.path], argv, meaning(sum))
  {
  }

  lemma {:induction false} MatchInFile(p: string, pr: Process, f: File, d: Digest)
    requires MemInside(p, pr.mem, f, pr.dropped) && d in pr.mem.digests && d.path != p
    ensures HasPath(DigestsOf(f), d.path)
  {
    assert Represented(d, DigestsOf(f));
    var j :| 0 <= j < |DigestsOf(f)| && SameDigest(d, DigestsOf(f)[j]);
    assert DigestsOf(f)[j].path == d.path;
  }

  lemma {:induction false} SiftedEntry(s: State, p: string, ph: Phase, meaning: Sum -> int)
    requires In(s, p, Second) && (ph.Second? || ph.Copying?)
    requires EntryInv(s.procs[p], Lookup(s.entries, p), Lookup(s.objects, p), meaning) && DiskInv(s, p, meaning)
    ensures var s' := With(s, p, Sifted(p, s.procs[p], Readable(s), ph));
            EntryInv(s'.procs[p], Lookup(s'.entries, p), Lookup(s'.objects, p), meaning) && DiskInv(s', p, meaning)
  {
    hide Left, Dropped, Good, Readable;
  }

  lemma {:induction false} NoMatchKeeps(s: State, s': State, p: string, meaning: Sum -> int)
    requires Inv(s, meaning) && In(s, p, Second) && Writable(s.procs[p].mem) && Inv(s', meaning)
    requires s' == With(s, p, Sifted(p, s.procs[p], Readable(s), Second))
    ensures Inv(GiveLock(s', p, Build), meaning)
  {
    hide Inv, WellFormed, Answer, Left, Dropped, FileOk, Good, MemInside, MemOutside, SameDigests, Readable;
    InvAt(s, p, meaning);
    InvAt(s', p, meaning);
    NoOwnDigest(p, s.procs[p], Readable(s), s.file);
    hide MemInv, HasPath, CopyInv;
    GiveLockKeeps(s', p, Build, meaning);
  }

  lemma {:induction false} FindKeeps(s: State, p: string, meaning: Sum -> int)
    requires Inv(s, meaning) && In(s, p, Second) && Writable(s.procs[p].mem)
    ensures Inv(Searched(s, p), meaning)
  {
    hide Inv, Answer, Readable, Sifted, GiveLock;
    var answer := Answer(p, s.procs[p], Readable(s));
    var ph := if answer.Some? then Copying(answer.value) else Second;
    SiftedKeeps(s, p, ph, meaning);
    if answer.None? {
      NoMatchKeeps(s, With(s, p, Sifted(p, s.procs[p], Readable(s), ph)), p, meaning);
    }
  }

  lemma {:induction false} NoOwnDigest(p: string, pr: Process, entries: map<string, EntryFile>, f: File)
    requires MemInv(p, pr, f) && pr.phase.Second?
    ensures var m := Sifted(p, pr, entries, Second).mem;
            !HasPath(m.digests, p) && (!m.fDirty ==> !HasPath(DigestsOf(f), p))
  {
    LeftIs(p, pr, entries);
    hide Left, WellFormed, MemInside, MemOutside, SameDigests, HasPath;
    if !Sifted(p, pr, entries, Second).mem.fDirty {
      SamePaths(pr.mem.digests, DigestsOf(f), p);
    }
  }

  lemma {:induction false} SamePaths(a: seq<Digest>, b: seq<Digest>, p: string)
    requires SameDigests(a, b) && !HasPath(a, p)
    ensures !HasPath(b, p)
  {
    forall i | 0 <= i < |b| ensures b[i].path != p {
      assert SameDigest(a[i], b[i]);
    }
  }

  lemma {:induction false} SiftedKeeps(s: State, p: string, ph: Phase, meaning: Sum -> int)
    requires Inv(s, meaning) && In(s, p, Second)
    requires var a := Answer(p, s.procs[p], Readable(s)); ph == if a.Some? then Copying(a.value) else Second
    ensures Inv(With(s, p, Sifted(p, s.procs[p], Readable(s), ph)), meaning)
  {
    hide Inv, FileOk, Good, WellFormed, MemInv, EntryInv, DiskInv, Left, Dropped, Answer, Readable;
    InvAt(s, p, meaning);
    var pr, entries := s.procs[p], Readable(s);
    SiftedMem(p, pr, entries, ph, s.file);
    SiftedEntry(s, p, ph, meaning);
    var s' := With(s, p, Sifted(p, pr, entries, ph));
    if ph.Copying? {
      MatchIsGood(s, p, ph.from, meaning);
    }
    assert CopyInv(s', p, meaning);
    OnlyHolder(s, s', p);
    KeepOthers(s, s', p, meaning);
  }

  /** A move outside the lock that touches no file. */
  lemma {:induction false} QuietMove(s: State, p: string, pr': Process, meaning: Sum -> int)
    requires Inv(s, meaning) && p in s.procs && !HoldsLock(s.procs[p].phase) && !HoldsLock(pr'.phase)
    requires !Rebuilds(pr'.phase) && (Pending(s.procs[p].phase) ==> Pending(pr'.phase))
    requires MemInv(p, pr', s.file) && EntryInv(pr', Lookup(s.entries, p), Lookup(s.objects, p), meaning)
    ensures Inv(With(s, p, pr'), meaning)
  {
    hide Inv, FileOk, Good, MemInv, EntryInv;
    InvAt(s, p, meaning);
    KeepOthers(s, With(s, p, pr'), p, meaning);
  }

  lemma {:induction false} PreprocessKeeps(s: State, p: string, sum: Sum, fSame: bool, meaning: Sum -> int)
    requires Inv(s, meaning) && Enabled(s, Preprocess(p, sum, fSame), meaning)
    ensures Inv(With(s, p, CalcRecompile(s.procs[p], sum, fSame)), meaning)
  {
    hide Inv, FileOk, Good, WellFormed, MemOutside, MemInside, SameDigests, ComparesEqual, CopyInv;
    InvAt(s, p, meaning);
    var pr := s.procs[p];
    RecompileEntry(pr, Lookup(s.entries, p), Lookup(s.objects, p), sum, fSame, meaning);
    hide EntryInv, DiskInv;
    QuietMove(s, p, CalcRecompile(pr, sum, fSame), meaning);
  }

  lemma {:induction false} CopyKeeps(s: State, p: string, meaning: Sum -> int)
    requires Inv(s, meaning) && Enabled(s, Copy(p), meaning)
    ensures Inv(Next(s, Copy(p), meaning), meaning)
  {
    hide Inv, FileOk, WellFormed, MemInside, MemOutside, SameDigests, HasPath;
    InvAt(s, p, meaning);
    var s' := Next(s, Copy(p), meaning);
    OnlyHolder(s, s', p);
    hide MemInv, LockInv;
    assert MemInv(p, s.procs[p], s.file) ==> MemInv(p, s'.procs[p], s'.file) by {
      CopiedMem(p, s.procs[p], s.file);
    }
    KeepOthers(s, s', p, meaning);
  }

  lemma {:induction false} CopiedMem(p: string, pr: Process, f: File)
    requires pr.phase.Copying? && MemInv(p, pr, f)
    ensures MemInv(p, pr.(phase := Last), f)
  {
  }

  /** Nobody copies from an entry that is being rebuilt. */
  lemma {:induction false} NobodyCopies(s: State, p: string, meaning: Sum -> int)
    requires Inv(s, meaning) && p in s.procs && Rebuilds(s.procs[p].phase)
    ensures forall r :: r in s.procs ==> s.procs[r].phase != Copying(p)
  {
    hide FileOk, MemInv, EntryInv, Good, DiskInv, LockInv;
    forall r | r in s.procs ensures s.procs[r].phase != Copying(p) {
      assert CopyInv(s, r, meaning);
    }
  }

  lemma {:induction false} RebuilderMem(p: string, pr: Process, pr': Process, f: File)
    requires MemInv(p, pr, f) && Rebuilds(pr.phase) && Rebuilds(pr'.phase) && pr'.mem == pr.mem
    ensures MemInv(p, pr', f)
  {
    hide WellFormed, MemInside, MemOutside, SameDigests, HasPath;
  }

  /** A step of a process that rebuilds, with its object. */
  lemma {:induction false} RebuildKeeps(s: State, p: string, pr': Process, objects: map<string, Object>,
      meaning: Sum -> int)
    requires Inv(s, meaning) && p in s.procs && Rebuilds(s.procs[p].phase) && Rebuilds(pr'.phase) && Pending(pr'.phase)
    requires pr'.mem == s.procs[p].mem && EntryInv(pr', Lookup(s.entries, p), Lookup(objects, p), meaning)
    requires forall q :: q != p ==> Lookup(objects, q) == Lookup(s.objects, q)
    ensures Inv(With(s, p, pr').(objects := objects), meaning)
  {
    hide Inv, FileOk, WellFormed, MemInside, MemOutside, SameDigests, HasPath, Good, EntryInv;
    InvAt(s, p, meaning);
    var s' := With(s, p, pr').(objects := objects);
    RebuilderMem(p, s.procs[p], pr', s.file);
    hide MemInv;
    assert OnlyMoves(s, s', p);
    NobodyCopies(s, p, meaning);
    KeepOthers(s, s', p, meaning);
  }

  lemma {:induction false} BeginBuildKeeps(s: State, p: string, sum: Sum, meaning: Sum -> int)
    requires Inv(s, meaning) && Enabled(s, BeginBuild(p, sum), meaning)
    ensures Inv(Next(s, BeginBuild(p, sum), meaning), meaning)
  {
    hide Inv, MemInv, DiskInv, CopyInv, FileOk, Good;
    InvAt(s, p, meaning);
    var pr := s.procs[p];
    RebuildKeeps(s, p, pr.(phase := Building, sums := if pr.phase.FullBuild? then [sum] else pr.sums), s.objects - {p},
        meaning);
  }

  lemma {:induction false} EndBuildKeeps(s: State, p: string, meaning: Sum -> int)
    requires Inv(s, meaning) && Enabled(s, EndBuild(p), meaning)
    ensures Inv(Next(s, EndBuild(p), meaning), meaning)
  {
    hide Inv, MemInv, DiskInv, CopyInv, FileOk;
    InvAt(s, p, meaning);
    var pr := s.procs[p];
    RebuildKeeps(s, p, pr.(phase := Built), s.objects[p := Object(pr.argv, pr.target, meaning(Head(pr.sums)))],
        meaning);
  }

  lemma {:induction false} FailBuildKeeps(s: State, p: string, meaning: Sum -> int)
    requires Inv(s, meaning) && Enabled(s, FailBuild(p), meaning)
    ensures Inv(Next(s, FailBuild(p), meaning), meaning)
  {
    hide Inv, FileOk, MemInv, Good;
    InvAt(s, p, meaning);
    var s' := Next(s, FailBuild(p), meaning);
    assert OnlyMoves(s, s', p);
    KeepOthers(s, s', p, meaning);
  }

  lemma {:induction false} CleanKeeps(s: State, p: string, fEntry: bool, fObject: bool, meaning: Sum -> int)
    requires Inv(s, meaning) && Enabled(s, Clean(p, fEntry, fObject), meaning)
    ensures Inv(Next(s, Clean(p, fEntry, fObject), meaning), meaning)
  {
    hide Inv, FileOk, MemInv, Good;
    InvAt(s, p, meaning);
    var s' := Next(s, Clean(p, fEntry, fObject), meaning);
    assert OnlyMoves(s, s', p);
    KeepOthers(s, s', p, meaning);
  }

  lemma {:induction false} AddedNotEmpty(sums: Chain)
    requires sums != []
    ensures SumAddChain([], sums) != [] && multiset(SumAddChain([], sums)) == multiset(sums)
  {
    ChainAdded([], sums);
    assert multiset([]) + multiset(sums) == multiset(sums);
    assert sums[0] in multiset(sums);
  }

  lemma {:induction false} FirstFreeIs(ds: seq<Digest>, n: nat, key: nat, next: nat)
    requires n < UINT32 && FirstFree(ds, n, key, next)
    ensures !InUse(ds, key)
  {
  }

  /** The digests after kObjCacheRemoveEntry and kObjCacheInsertEntry. */
  function Renewed(ds: seq<Digest>, d: Digest): seq<Digest> {
    Without(ds, d.path) + [d]
  }

  lemma {:induction false} RenewedWellFormed(ds: seq<Digest>, d: Digest)
    requires WellFormed(ds) && 0 < d.key < UINT32 && d.sums != [] && !InUse(Without(ds, d.path), d.key)
    ensures WellFormed(Renewed(ds, d))
  {
    WithoutWellFormed(ds, d.path);
    WithoutOthers(ds, d.path);
    WellFormedSnoc(Without(ds, d.path), d);
    hide WellFormed, Without;
    var w := Without(ds, d.path);
    forall x | x in w ensures x.key != d.key {
      var i :| 0 <= i < |w| && w[i] == x;
    }
  }

  lemma {:induction false} RenewedIs(ds: seq<Digest>, d: Digest)
    ensures forall x :: x in Renewed(ds, d) <==> (x in ds && x.path != d.path) || x == d
  {
    WithoutOthers(ds, d.path);
    hide Without;
    InSnoc(Without(ds, d.path), d);
  }

  lemma {:induction false} RenewedInside(p: string, m: Mem, f: File, dropped: set<string>, d: Digest, uNextKey: nat)
    requires MemInside(p, m, f, dropped) && d.path == p
    ensures MemInside(p, m.(digests := Renewed(m.digests, d), fDirty := true, uNextKey := uNextKey), f, dropped)
  {
    RenewedIs(m.digests, d);
    hide DigestsOf, Renewed, Represented;
    forall x | x in DigestsOf(f) && x.path != p && x.path !in dropped ensures Represented(x, Renewed(m.digests, d)) {
      Carried(x, m.digests, Renewed(m.digests, d), {p});
    }
  }

  lemma {:induction false} UpdatedMem(p: string, pr: Process, f: File, d: Digest, uNextKey: nat)
    requires MemInv(p, pr, f) && pr.phase.Last? && d.path == p && 0 < d.key < UINT32 && d.sums != []
    requires uNextKey < UINT32
    requires !InUse(Without(pr.mem.digests, p), d.key)
    ensures MemInv(p, pr.(phase := Updated,
              mem := pr.mem.(digests := Renewed(pr.mem.digests, d), fDirty := true, uNextKey := uNextKey)), f)
  {
    RenewedWellFormed(pr.mem.digests, d);
    RenewedInside(p, pr.mem, f, pr.dropped, d, uNextKey);
    hide WellFormed, MemInside, Renewed, SameDigests, MemOutside;
  }

  /** The entry file is written for the object that is there. */
  lemma {:induction false} UpdatedEntry(pr: Process, pr': Process, entry: EntryFile, was: Option<EntryFile>,
      made: Option<Object>, meaning: Sum -> int)
    requires EntryInv(pr, was, made, meaning) && pr.phase.Last? && pr'.phase.Updated?
    requires pr'.argv == pr.argv && pr'.sums == pr.sums && entry.argv == pr.argv
    requires multiset(entry.sums) == multiset(pr.sums)
    ensures EntryInv(pr', Some(entry), made, meaning)
    ensures made.Some? && Good(entry.argv, entry.sums, made.value, meaning) && pr.sums != []
  {
    SameSums(entry.sums, pr.sums);
  }

  lemma {:induction false} UpdateKeeps(s: State, p: string, uKey: nat, uNextKey: nat, meaning: Sum -> int)
    requires Inv(s, meaning) && Enabled(s, Update(p, uKey, uNextKey), meaning)
    ensures Inv(Updating(s, p, uKey, uNextKey), meaning)
  {
    hide Inv, FileOk, MemInv, EntryInv, CopyInv, Without, FirstFree, InUse, Good, SumAddChain;
    InvAt(s, p, meaning);
    var pr, s' := s.procs[p], Updating(s, p, uKey, uNextKey);
    LastHasSums(pr, Lookup(s.entries, p), Lookup(s.objects, p), meaning);
    AddedNotEmpty(pr.sums);
    FirstFreeIs(Without(pr.mem.digests, p), pr.mem.uNextKey, uKey, uNextKey);
    UpdatedMem(p, pr, s.file, DigestOf(Entry(p, pr.target, pr.argv, pr.sums), uKey), uNextKey);
    UpdatedEntry(pr, s'.procs[p], EntryOf(pr, uKey), Lookup(s.entries, p), Lookup(s.objects, p), meaning);
    assert OnlyMoves(s, s', p);
    OnlyHolder(s, s', p);
    NothingCopied(s', p, meaning);
    KeepOthers(s, s', p, meaning);
  }

  lemma {:induction false} LastHasSums(pr: Process, entry: Option<EntryFile>, made: Option<Object>, meaning: Sum -> int)
    requires EntryInv(pr, entry, made, meaning) && pr.phase.Last?
    ensures pr.sums != []
  {
    hide Good;
  }

  lemma {:induction false} NothingCopied(s: State, p: string, meaning: Sum -> int)
    requires p in s.procs && !s.procs[p].phase.Copying?
    ensures CopyInv(s, p, meaning)
  {
  }

  lemma {:induction false} UnlockLastKeeps(s: State, p: string, meaning: Sum -> int)
    requires Inv(s, meaning) && Enabled(s, UnlockLast(p), meaning)
    ensures Inv(Next(s, UnlockLast(p), meaning), meaning)
  {
    hide Inv, FileOk, Good, WellFormed, MemInv;
    InvAt(s, p, meaning);
    var pr, s' := s.procs[p], Next(s, UnlockLast(p), meaning);
    WrittenIsOk(p, pr, s.file);
    assert pr.mem.fDirty ==> pr.mem.uGeneration + 1 == (pr.mem.uGeneration + 1) % UINT32;
    OnlyHolder(s, s', p);
    if pr.mem.fDirty {
      KeepOthersWrite(s, s', p, meaning);
    } else {
      KeepOthers(s, s', p, meaning);
    }
  }

  // ----- Every run ------------------------------------------------------------------------------------

  /** No process, an empty cache file, and entries that tell the truth about their objects. */
  ghost predicate Initial(s: State, meaning: Sum -> int) {
    s.file == Empty && s.lock == None && s.procs == map[] && forall q :: DiskInv(s, q, meaning)
  }

  lemma {:induction false} InitialKeeps(s: State, meaning: Sum -> int)
    requires Initial(s, meaning)
    ensures Inv(s, meaning)
  {
  }

  /** The one theorem about all steps. */
  lemma {:induction false} StepKeeps(s: State, a: Action, meaning: Sum -> int)
    requires Inv(s, meaning) && Enabled(s, a, meaning)
    ensures Inv(Next(s, a, meaning), meaning)
  {
    hide Inv, FindMatch, Without, FirstFree;
    match a
    case Start(p, argv, target, fSizeOpt) => StartKeeps(s, p, argv, target, fSizeOpt, meaning);
    case LockFirst(p) => TakeLockKeeps(s, p, First, meaning);
    case UnlockFirst(p) => UnlockFirstKeeps(s, p, meaning);
    case Preprocess(p, sum, fSame) => PreprocessKeeps(s, p, sum, fSame, meaning);
    case LockSecond(p) => TakeLockKeeps(s, p, Second, meaning);
    case Find(p) => FindKeeps(s, p, meaning);
    case Copy(p) => CopyKeeps(s, p, meaning);
    case BeginBuild(p, sum) => BeginBuildKeeps(s, p, sum, meaning);
    case EndBuild(p) => EndBuildKeeps(s, p, meaning);
    case FailBuild(p) => FailBuildKeeps(s, p, meaning);
    case LockLast(p) => TakeLockKeeps(s, p, Last, meaning);
    case Update(p, uKey, uNextKey) => UpdateKeeps(s, p, uKey, uNextKey, meaning);
    case UnlockLast(p) => UnlockLastKeeps(s, p, meaning);
    case Clean(p, fEntry, fObject) => CleanKeeps(s, p, fEntry, fObject, meaning);
  }

  ghost predicate Run(s: State, actions: seq<Action>, s': State, meaning: Sum -> int)
    decreases |actions|
  {
    if actions == [] then s' == s
    else Enabled(s, actions[0], meaning) && Run(Next(s, actions[0], meaning), actions[1..], s', meaning)
  }

  lemma {:induction false} RunKeeps(s: State, actions: seq<Action>, s': State, meaning: Sum -> int)
    requires Inv(s, meaning) && Run(s, actions, s', meaning)
    ensures Inv(s', meaning)
    decreases |actions|
  {
    hide Inv, Enabled, Next;
    if actions != [] {
      StepKeeps(s, actions[0], meaning);
      RunKeeps(Next(s, actions[0], meaning), actions[1..], s', meaning);
    }
  }

  /** Object reuse is safe in every interleaving: what a process is about to copy is a finished object,
      not being rebuilt, compiled with the arguments wanted from a source that meant the same. */
  lemma {:induction false} ReuseIsSafe(s: State, actions: seq<Action>, s': State, p: string, meaning: Sum -> int)
    requires Initial(s, meaning) && Run(s, actions, s', meaning) && p in s'.procs && s'.procs[p].phase.Copying?
    ensures var from := s'.procs[p].phase.from;
            && from != p && from in s'.objects
            && !(from in s'.procs && Rebuilds(s'.procs[from].phase))
            && Wanted(s'.objects[from], s'.procs[p].argv, meaning(Head(s'.procs[p].sums)))
  {
    hide Run, Enabled, Next, MemInv, EntryInv, DiskInv, FileOk;
    InitialKeeps(s, meaning);
    RunKeeps(s, actions, s', meaning);
    InvAt(s', p, meaning);
  }

  /** Nothing that the processes keep to depends on the wanted target, and neither does what is found: with
      another one the same object is copied. */
  lemma {:induction false} TargetIsFree(s: State, p: string, target: string, meaning: Sum -> int)
    requires Inv(s, meaning) && p in s.procs
    ensures var s' := With(s, p, s.procs[p].(target := target));
            Inv(s', meaning) && Answer(p, s'.procs[p], Readable(s')) == Answer(p, s.procs[p], Readable(s))
  {
    hide Inv, FileOk, WellFormed, MemInside, MemOutside, SameDigests, HasPath, Good, FindMatch, Without;
    var s' := With(s, p, s.procs[p].(target := target));
    InvAt(s, p, meaning);
    InvAt(s, if s.procs[p].phase.Copying? then s.procs[p].phase.from else p, meaning);
    LockKeptHere(s, p);
    assert OnlyMoves(s, s', p);
    assert OwnInv(s', p, meaning);
    TakenFromNobody(s, s', p, meaning);
    KeepOthers(s, s', p, meaning);
  }

  lemma {:induction false} LockKeptHere(s: State, p: string)
    requires LockInv(s) && p in s.procs
    ensures s.lock == Some(p) <==> HoldsLock(s.procs[p].phase)
  {
  }

  lemma {:induction false} TakenFromNobody(s: State, s': State, p: string, meaning: Sum -> int)
    requires Inv(s, meaning) && p in s.procs && p in s'.procs && s'.procs[p].phase == s.procs[p].phase
    requires s'.objects == s.objects
    ensures NotTakenAway(s, s', p)
  {
    hide FileOk, MemInv, EntryInv, Good, DiskInv, LockInv, HasPath;
    forall r | r in s.procs && r != p && s.procs[r].phase == Copying(p) ensures !Rebuilds(s'.procs[p].phase) {
      assert CopyInv(s, r, meaning);
    }
  }

  /** All objects and all processes have this target. */
  ghost predicate OneTarget(s: State, target: string) {
    && (forall q :: q in s.objects ==> s.objects[q].target == target)
    && (forall p :: p in s.procs ==> s.procs[p].target == target)
  }

  lemma {:induction false} LockKeepsTarget(s: State, a: Action, target: string, meaning: Sum -> int)
    requires Enabled(s, a, meaning) && OneTarget(s, target)
    requires TakesLock(a) || a.UnlockFirst? || a.UnlockLast? || a.Find?
    ensures OneTarget(Next(s, a, meaning), target)
  {
    hide Left, Dropped, Answer, Without, FirstFree, Locked, LinesOf, Readable;
  }

  lemma {:induction false} StepKeepsTarget(s: State, a: Action, target: string, meaning: Sum -> int)
    requires Inv(s, meaning) && Enabled(s, a, meaning) && OneTarget(s, target) && (a.Start? ==> a.target == target)
    ensures OneTarget(Next(s, a, meaning), target)
  {
    hide Inv, Left, Dropped, Answer, Without, FirstFree, Locked, ComparesEqual, SumAddChain, LinesOf, Readable,
         DigestOf, Head;
    if TakesLock(a) || a.UnlockFirst? || a.UnlockLast? || a.Find? {
      hide Enabled, Next;
      LockKeepsTarget(s, a, target, meaning);
    }
  }

  /** As long as only one target is asked for, every object that is reused has it. */
  lemma {:induction false} RunKeepsTarget(s: State, actions: seq<Action>, s': State, target: string,
      meaning: Sum -> int)
    requires Inv(s, meaning) && Run(s, actions, s', meaning) && OneTarget(s, target)
    requires forall i :: 0 <= i < |actions| && actions[i].Start? ==> actions[i].target == target
    ensures OneTarget(s', target)
    decreases |actions|
  {
    hide Inv, Enabled, Next, OneTarget;
    if actions != [] {
      StepKeeps(s, actions[0], meaning);
      StepKeepsTarget(s, actions[0], target, meaning);
      RunKeepsTarget(Next(s, actions[0], meaning), actions[1..], s', target, meaning);
    }
  }

  /** Whoever rebuilds outside the lock has no digest in the cache file. */
  lemma {:induction false} RebuilderHasNoDigest(s: State, actions: seq<Action>, s': State, p: string,
      meaning: Sum -> int)
    requires Initial(s, meaning) && Run(s, actions, s', meaning) && p in s'.procs && Rebuilds(s'.procs[p].phase)
    ensures forall d :: d in DigestsOf(s'.file) ==> d.path != p
  {
    hide Run, Enabled, Next, EntryInv, DiskInv, FileOk, WellFormed, MemOutside, MemInside;
    InitialKeeps(s, meaning);
    RunKeeps(s, actions, s', meaning);
    InvAt(s', p, meaning);
  }

  /** Keys stay nonzero and distinct, and each path has at most one digest. */
  lemma {:induction false} FileStaysWellFormed(s: State, actions: seq<Action>, s': State, meaning: Sum -> int)
    requires Initial(s, meaning) && Run(s, actions, s', meaning)
    ensures WellFormed(DigestsOf(s'.file))
    ensures forall p :: p in s'.procs ==> WellFormed(s'.procs[p].mem.digests)
  {
    hide Run, Enabled, Next, EntryInv, DiskInv, CopyInv;
    InitialKeeps(s, meaning);
    RunKeeps(s, actions, s', meaning);
  }

  predicate TakesLock(a: Action) {
    a.LockFirst? || a.LockSecond? || a.LockLast?
  }

  /** After any lock the digests in memory are those of the file, even when it was not read again. */
  lemma {:induction false} LockedCoheres(s: State, actions: seq<Action>, s1: State, a: Action, meaning: Sum -> int)
    requires Initial(s, meaning) && Run(s, actions, s1, meaning) && Enabled(s1, a, meaning) && TakesLock(a)
    ensures SameDigests(Next(s1, a, meaning).procs[a.p].mem.digests, DigestsOf(s1.file))
    ensures Next(s1, a, meaning).file == s1.file
  {
    hide Run, EntryInv, DiskInv, CopyInv, Locked, WellFormed, LinesOf, SameDigests, MemInside;
    InitialKeeps(s, meaning);
    RunKeeps(s, actions, s1, meaning);
    InvAt(s1, a.p, meaning);
    hide Inv;
    LockCoheres(s1.procs[a.p].mem, s1.file);
  }

  /** The file only changes together with its generation, which strictly increases. */
  lemma {:induction false} GenerationGrows(s: State, a: Action, meaning: Sum -> int)
    requires Inv(s, meaning) && Enabled(s, a, meaning)
    ensures var f := Next(s, a, meaning).file;
            f == s.file || GenerationOf(f) == GenerationOf(s.file) + 1
  {
    hide Inv, FindMatch, Without, FirstFree, EntryInv, DiskInv, CopyInv, WellFormed, SameDigests, Locked, ComparesEqual;
    if a.Find? || a.UnlockFirst? || a.UnlockLast? {
      InvAt(s, a.p, meaning);
    }
  }

  lemma {:induction false} GenerationsGrow(s: State, actions: seq<Action>, s': State, meaning: Sum -> int)
    requires Inv(s, meaning) && Run(s, actions, s', meaning)
    ensures GenerationOf(s.file) <= GenerationOf(s'.file)
    ensures GenerationOf(s.file) == GenerationOf(s'.file) ==> s.file == s'.file
    decreases |actions|
  {
    hide Inv, Enabled, Next;
    if actions != [] {
      StepKeeps(s, actions[0], meaning);
      GenerationGrows(s, actions[0], meaning);
      GenerationsGrow(Next(s, actions[0], meaning), actions[1..], s', meaning);
    }
  }

  /** A digest leaves the file only when its own entry is removed or when it failed validation. */
  lemma {:induction false} WhyDigestsLeave(s: State, a: Action, d: Digest, meaning: Sum -> int)
    requires Inv(s, meaning) && Enabled(s, a, meaning)
    requires d in DigestsOf(s.file) && !Represented(d, DigestsOf(Next(s, a, meaning).file))
    ensures a.Find? || a.UnlockLast?
    ensures d.path == a.p || d.path in s.procs[a.p].dropped ||
            (a.Find? && d.path in Dropped(a.p, s.procs[a.p], Readable(s)))
  {
    hide Inv, FindMatch, Without, FirstFree, EntryInv, DiskInv, CopyInv, WellFormed, SameDigests, Locked, ComparesEqual,
         Left, Dropped, Answer;
    InvAt(s, a.p, meaning);
    SelfRepresented(d, DigestsOf(s.file));
    if a.Find? {
      var pr := s.procs[a.p];
      SiftedMem(a.p, pr, Readable(s), Second, s.file);
    }
  }

  lemma {:induction false} SelfRepresented(d: Digest, ds: seq<Digest>)
    requires d in ds
    ensures Represented(d, ds)
  {
    var i :| 0 <= i < |ds| && ds[i] == d;
    assert SameDigest(d, ds[i]);
  }

  /** Every digest dropped promised what was wanted, but its entry no longer keeps the promise. */
  lemma {:induction false} DroppedIsBad(p: string, pr: Process, entries: map<string, EntryFile>, path: string)
    requires WellFormed(pr.mem.digests) && path in Dropped(p, pr, entries)
    ensures exists d ::
              d in pr.mem.digests && d.path == path != p && Matches(d, pr.argv, Head(pr.sums)) && !Usable(d, entries)
  {
    LeftIs(p, pr, entries);
    WithoutOthers(pr.mem.digests, p);
    hide Left, WellFormed, Without, Matches, Usable;
    var d :| d in Without(pr.mem.digests, p) && d !in Left(p, pr, entries) && d.path == path;
    assert d in pr.mem.digests;
  }
}
