/** The target an object was compiled for: no match looks at it, and what follows from that. */
module ObjCacheTargets {
  import opened Basics
  import opened ObjCache
  import opened ObjCacheProtocol

  // ----- What entries and processes say of targets ------------------------------------------------

  /** An object that is taken for up to date has the target of its process. */
  predicate ProcessTold(pr: Process, entry: Option<EntryFile>, made: Option<Object>) {
    && (!pr.fNeedCompiling && (pr.phase.Fresh? || pr.phase.First? || pr.phase.Preprocessing?) ==>
          entry.Some? && entry.value.target == pr.target && made.Some?)
    && (pr.phase.Built? || pr.phase.Unchanged? || pr.phase.Last? || pr.phase.Updated? ==>
          made.Some? && made.value.target == pr.target)
    && (pr.phase.Updated? ==> entry.Some? && entry.value.target == pr.target)
  }

  /** The entry states the target of its object, unless that is newer. */
  predicate DiskTold(s: State, q: string) {
    q in s.entries && q in s.objects && !(q in s.procs && Pending(s.procs[q].phase)) ==>
      s.entries[q].target == s.objects[q].target
  }

  predicate SourceKnown(s: State, p: string) {
    p in s.procs && s.procs[p].phase.Copying? ==> s.procs[p].phase.from in s.entries
  }

  /** All that is about p. */
  predicate Told(s: State, p: string) {
    && (p in s.procs ==> ProcessTold(s.procs[p], Lookup(s.entries, p), Lookup(s.objects, p)))
    && DiskTold(s, p) && SourceKnown(s, p)
  }

  ghost predicate AllTold(s: State) {
    forall p :: Told(s, p)
  }

  /** The test that the search for a match leaves out: the entry states the wanted target. */
  predicate Guard(s: State, p: string) {
    p in s.procs && s.procs[p].phase.Copying? ==>
      s.procs[p].phase.from in s.entries && s.entries[s.procs[p].phase.from].target == s.procs[p].target
  }

  predicate HasWanted(s: State, p: string) {
    p in s.procs && s.procs[p].phase.Copying? ==>
      s.procs[p].phase.from in s.objects && s.objects[s.procs[p].phase.from].target == s.procs[p].target
  }

  /** The entry that is copied from is finished: nobody has a newer object for it. */
  lemma {:induction false} SourceAtRest(s: State, p: string, meaning: Sum -> int)
    requires Inv(s, meaning) && p in s.procs && s.procs[p].phase.Copying?
    ensures var from := s.procs[p].phase.from;
            from != p && from in s.objects && !(from in s.procs && Pending(s.procs[from].phase))
  {
    hide MemInv, EntryInv, DiskInv, FileOk, HasPath;
    var from := s.procs[p].phase.from;
    InvAt(s, p, meaning);
    if from in s.procs {
      assert s.lock == Some(p) <==> HoldsLock(s.procs[p].phase);
      assert s.lock == Some(from) <==> HoldsLock(s.procs[from].phase);
    }
  }

  /** While entries tell the truth, the guard decides. */
  lemma {:induction false} GuardDecides(s: State, p: string, meaning: Sum -> int)
    requires Inv(s, meaning) && AllTold(s)
    ensures Guard(s, p) <==> HasWanted(s, p)
  {
    hide Inv;
    if p in s.procs && s.procs[p].phase.Copying? {
      SourceAtRest(s, p, meaning);
      assert Told(s, p) && Told(s, s.procs[p].phase.from);
    }
  }

  // ----- One step -----------------------------------------------------------------------------

  /** A step of p leaves the others and their files alone. */
  ghost predicate Untouched(s: State, s': State, p: string) {
    forall q :: q != p ==>
      && (q in s'.procs <==> q in s.procs) && (q in s.procs ==> s'.procs[q] == s.procs[q])
      && Lookup(s'.entries, q) == Lookup(s.entries, q) && Lookup(s'.objects, q) == Lookup(s.objects, q)
  }

  lemma {:induction false} StepTouches(s: State, a: Action, meaning: Sum -> int)
    requires Enabled(s, a, meaning)
    ensures Untouched(s, Next(s, a, meaning), a.p)
  {
    hide Left, Dropped, Answer, Without, FirstFree, Locked, LinesOf, Readable, DigestOf, SumAddChain, CalcRecompile,
         Head, ComparesEqual;
  }

  lemma {:induction false} OthersTold(s: State, s': State, p: string, q: string)
    requires Untouched(s, s', p) && Told(s, q) && q != p
    requires q in s.procs && s.procs[q].phase == Copying(p) && p in s.entries ==> p in s'.entries
    ensures Told(s', q)
  {
    hide ProcessTold;
    if q in s.procs && s.procs[q].phase.Copying? && s.procs[q].phase.from != p {
      var from := s.procs[q].phase.from;
      assert Lookup(s'.entries, from) == Lookup(s.entries, from);
    }
  }

  /** Nobody's source loses its entry. */
  lemma {:induction false} SourceStays(s: State, a: Action, q: string, meaning: Sum -> int)
    requires Enabled(s, a, meaning) && q in s.procs && s.procs[q].phase == Copying(a.p) && a.p in s.entries
    ensures a.p in Next(s, a, meaning).entries
  {
    hide Left, Dropped, Answer, Without, FirstFree, Locked, LinesOf, Readable, DigestOf, SumAddChain, CalcRecompile,
         Head, ComparesEqual;
  }

  lemma {:induction false} LockTold(s: State, a: Action, meaning: Sum -> int)
    requires Enabled(s, a, meaning) && Told(s, a.p) && (TakesLock(a) || a.UnlockFirst?)
    ensures Told(Next(s, a, meaning), a.p)
  {
    hide Locked, LinesOf;
  }

  lemma {:induction false} StartTold(s: State, a: Action, meaning: Sum -> int)
    requires Enabled(s, a, meaning) && Told(s, a.p) && (a.Start? || a.Preprocess?)
    ensures Told(Next(s, a, meaning), a.p)
  {
    hide SumAddChain, ComparesEqual;
  }

  lemma {:induction false} FindTold(s: State, a: Action, meaning: Sum -> int)
    requires Inv(s, meaning) && Enabled(s, a, meaning) && Told(s, a.p) && a.Find?
    ensures Told(Next(s, a, meaning), a.p)
  {
    hide Inv, Left, Dropped, Answer, Matches, WellFormed, MemInv, EntryInv, DiskInv, CopyInv, IsValid, FileOk, LockInv;
    var pr := s.procs[a.p];
    InvAt(s, a.p, meaning);
    var answer := Answer(a.p, pr, Readable(s));
    if answer.Some? {
      var d := MatchFound(a.p, pr, Readable(s), answer.value);
    }
  }

  lemma {:induction false} BuildTold(s: State, a: Action, meaning: Sum -> int)
    requires Inv(s, meaning) && Enabled(s, a, meaning) && Told(s, a.p)
    requires a.BeginBuild? || a.EndBuild? || a.FailBuild? || a.Clean?
    ensures Told(Next(s, a, meaning), a.p)
  {
    hide Inv, MemInv, DiskInv, CopyInv, FileOk, Good, Head;
    InvAt(s, a.p, meaning);
  }

  lemma {:induction false} LastTold(s: State, a: Action, meaning: Sum -> int)
    requires Inv(s, meaning) && Enabled(s, a, meaning) && Told(s, a.p) && (a.Update? || a.UnlockLast?)
    ensures Told(Next(s, a, meaning), a.p)
  {
    hide Inv, Without, FirstFree, SumAddChain, DigestOf;
  }

  lemma {:induction false} CopyTold(s: State, a: Action, meaning: Sum -> int)
    requires Inv(s, meaning) && Enabled(s, a, meaning) && AllTold(s) && a.Copy? && Guard(s, a.p)
    ensures Told(Next(s, a, meaning), a.p)
  {
    hide Inv;
    GuardDecides(s, a.p, meaning);
    assert Told(s, a.p);
  }

  /** Every step keeps it, if a copy is made under the guard. */
  lemma {:induction false} StepTold(s: State, a: Action, meaning: Sum -> int)
    requires Inv(s, meaning) && Enabled(s, a, meaning) && AllTold(s) && (a.Copy? ==> Guard(s, a.p))
    ensures AllTold(Next(s, a, meaning))
  {
    hide Inv, Enabled, Next, Told, Guard, Untouched, TakesLock;
    var s' := Next(s, a, meaning);
    assert Told(s, a.p);
    if a.Copy? {
      CopyTold(s, a, meaning);
    } else if a.Start? || a.Preprocess? {
      StartTold(s, a, meaning);
    } else if a.Find? {
      FindTold(s, a, meaning);
    } else if a.Update? || a.UnlockLast? {
      LastTold(s, a, meaning);
    } else if a.UnlockFirst? || a.LockFirst? || a.LockSecond? || a.LockLast? {
      LockActions(a);
      LockTold(s, a, meaning);
    } else {
      BuildTold(s, a, meaning);
    }
    StepTouches(s, a, meaning);
    forall q ensures Told(s', q) {
      assert Told(s, q);
      if q != a.p {
        if q in s.procs && s.procs[q].phase == Copying(a.p) && a.p in s.entries {
          SourceStays(s, a, q, meaning);
        }
        OthersTold(s, s', a.p, q);
      }
    }
  }

  lemma {:induction false} LockActions(a: Action)
    requires a.LockFirst? || a.LockSecond? || a.LockLast? || a.UnlockFirst?
    ensures TakesLock(a) || a.UnlockFirst?
  {
  }

  // ----- Every run ----------------------------------------------------------------------------

  /** Every copy is made under the guard. */
  ghost predicate Guarded(s: State, actions: seq<Action>, meaning: Sum -> int)
    decreases |actions|
  {
    actions != [] && Enabled(s, actions[0], meaning) ==>
      (actions[0].Copy? ==> Guard(s, actions[0].p)) && Guarded(Next(s, actions[0], meaning), actions[1..], meaning)
  }

  /** Every copy takes an object with the wanted target. */
  ghost predicate AllWanted(s: State, actions: seq<Action>, meaning: Sum -> int)
    decreases |actions|
  {
    actions != [] && Enabled(s, actions[0], meaning) ==>
      (actions[0].Copy? ==> HasWanted(s, actions[0].p)) &&
      AllWanted(Next(s, actions[0], meaning), actions[1..], meaning)
  }

  /** In every run, all copies have the wanted targets if and only if the guard held whenever one was made; then
      every entry that is not being renewed states its object's target. */
  lemma {:induction false} GuardIsEnough(s: State, actions: seq<Action>, s': State, meaning: Sum -> int)
    requires Inv(s, meaning) && AllTold(s) && Run(s, actions, s', meaning)
    ensures Guarded(s, actions, meaning) <==> AllWanted(s, actions, meaning)
    ensures Guarded(s, actions, meaning) ==> AllTold(s')
    decreases |actions|
  {
    hide Inv, Enabled, Next, AllTold, Guard, HasWanted;
    if actions != [] {
      var a := actions[0];
      StepKeeps(s, a, meaning);
      if a.Copy? {
        GuardDecides(s, a.p, meaning);
      }
      if a.Copy? ==> Guard(s, a.p) {
        StepTold(s, a, meaning);
        GuardIsEnough(Next(s, a, meaning), actions[1..], s', meaning);
      }
    }
  }

  /** The same from the start on, and whose target the entry states. */
  lemma {:induction false} CopiesAreWanted(s: State, actions: seq<Action>, s': State, meaning: Sum -> int)
    requires Initial(s, meaning) && Run(s, actions, s', meaning) && forall q :: DiskTold(s, q)
    ensures Guarded(s, actions, meaning) <==> AllWanted(s, actions, meaning)
    ensures Guarded(s, actions, meaning) ==> forall q :: DiskTold(s', q)
  {
    hide Run, Guarded, AllWanted, DiskInv, DiskTold, Inv;
    InitialKeeps(s, meaning);
    GuardIsEnough(s, actions, s', meaning);
    if Guarded(s, actions, meaning) {
      forall q ensures DiskTold(s', q) {
        assert Told(s', q);
      }
    }
  }

  /** The digest of a match has the target that the entry states, so the guard could be made on it. */
  lemma {:induction false} MatchTarget(s: State, p: string, from: string, meaning: Sum -> int)
    requires Inv(s, meaning) && In(s, p, Second) && Answer(p, s.procs[p], Readable(s)) == Some(from)
    ensures from in s.entries
    ensures exists d :: d in s.procs[p].mem.digests && d.path == from && d.target == s.entries[from].target
  {
    hide Inv, Answer, WellFormed, Matches;
    InvAt(s, p, meaning);
    var d := MatchFound(p, s.procs[p], Readable(s), from);
  }

  // ----- A run that copies an object with another target -----------------------------------------------

  /** A run goes on by one step. */
  lemma {:induction false} RunOn(s: State, actions: seq<Action>, s1: State, a: Action, s2: State, meaning: Sum -> int)
    requires Run(s, actions, s1, meaning) && Enabled(s1, a, meaning) && Next(s1, a, meaning) == s2
    ensures Run(s, actions + [a], s2, meaning)
    decreases |actions|
  {
    hide Enabled, Next;
    if actions == [] {
      assert [a][1..] == [];
    } else {
      assert (actions + [a])[0] == actions[0] && (actions + [a])[1..] == actions[1..] + [a];
      RunOn(Next(s, actions[0], meaning), actions[1..], s1, a, s2, meaning);
    }
  }

  lemma {:induction false} NothingRun(s: State, meaning: Sum -> int)
    ensures Run(s, [], s, meaning)
  {
  }

  const NOTHING := Mem(0, 0, [], false, false)
  const NEWCACHE := Mem(0, 0, [], false, true)

  function Job(ph: Phase, mem: Mem, argv: Sum, target: string, sums: Chain): Process {
    Process(ph, mem, true, false, None, argv, target, sums, {})
  }

  /** Nothing but one process, which may hold the lock. */
  function Alone(fLock: bool, p: string, pr: Process, objects: map<string, Object>): State {
    State(Empty, if fLock then Some(p) else None, map[p := pr], map[], objects)
  }

  function FirstDigest(argv: Sum, sum: Sum): Digest {
    Digest("a", "x", 1, argv, [sum])
  }

  /** The entry and the object of the first process, its digest in the file. */
  function Cached(argv: Sum, sum: Sum, meaning: Sum -> int, fLock: bool, procs: map<string, Process>): State {
    State(Saved(1, [FirstDigest(argv, sum)]), if fLock then Some("b") else None, procs,
          map["a" := EntryFile(1, "x", argv, [sum])], map["a" := Object(argv, "x", meaning(sum))])
  }

  function Nobody(): State {
    State(Empty, None, map[], map[], map[])
  }

  /** The first process, up to its build. */
  lemma {:induction false} Starts(argv: Sum, sum: Sum, meaning: Sum -> int) returns (actions: seq<Action>)
    ensures Run(Nobody(), actions, Alone(false, "a", Job(FullBuild, NEWCACHE, argv, "x", []), map[]), meaning)
    ensures forall i :: 0 <= i < |actions| ==> !actions[i].Copy?
  {
    hide Run;
    NothingRun(Nobody(), meaning);
    var s1 := Alone(false, "a", Job(Fresh, NOTHING, argv, "x", []), map[]);
    var s2 := Alone(true, "a", Job(First, NEWCACHE, argv, "x", []), map[]);
    var s3 := Alone(false, "a", Job(FullBuild, NEWCACHE, argv, "x", []), map[]);
    RunOn(Nobody(), [], Nobody(), Start("a", argv, "x", false), s1, meaning);
    actions := [] + [Start("a", argv, "x", false)];
    RunOn(Nobody(), actions, s1, LockFirst("a"), s2, meaning);
    actions := actions + [LockFirst("a")];
    RunOn(Nobody(), actions, s2, UnlockFirst("a"), s3, meaning);
    actions := actions + [UnlockFirst("a")];
  }

  /** Up to the last lock. */
  lemma {:induction false} Compiles(argv: Sum, sum: Sum, meaning: Sum -> int) returns (actions: seq<Action>)
    ensures Run(Nobody(), actions,
                Alone(true, "a", Job(Last, NEWCACHE, argv, "x", [sum]), map["a" := Object(argv, "x", meaning(sum))]),
                    meaning)
    ensures forall i :: 0 <= i < |actions| ==> !actions[i].Copy?
  {
    hide Run;
    actions := Starts(argv, sum, meaning);
    var made := map["a" := Object(argv, "x", meaning(sum))];
    var s3 := Alone(false, "a", Job(FullBuild, NEWCACHE, argv, "x", []), map[]);
    var s4 := Alone(false, "a", Job(Building, NEWCACHE, argv, "x", [sum]), map[]);
    var s5 := Alone(false, "a", Job(Built, NEWCACHE, argv, "x", [sum]), made);
    var s6 := Alone(true, "a", Job(Last, NEWCACHE, argv, "x", [sum]), made);
    RunOn(Nobody(), actions, s3, BeginBuild("a", sum), s4, meaning);
    actions := actions + [BeginBuild("a", sum)];
    RunOn(Nobody(), actions, s4, EndBuild("a"), s5, meaning);
    actions := actions + [EndBuild("a")];
    RunOn(Nobody(), actions, s5, LockLast("a"), s6, meaning);
    actions := actions + [LockLast("a")];
  }

  lemma {:induction false} FirstKey()
    ensures FirstFree(Without([], "a"), 0, 1, 2) && Without([], "a") == []
  {
    assert Candidate(0, 0) == 1;
    IsFirstFree([], 0, 0);
  }

  lemma {:induction false} OneSum(sum: Sum)
    ensures SumAddChain([], [sum]) == [sum]
  {
    assert [sum][1..] == [];
  }

  /** Up to the end: its digest is in the file. */
  lemma {:induction false} Caches(argv: Sum, sum: Sum, meaning: Sum -> int) returns (actions: seq<Action>)
    ensures Run(Nobody(), actions, Cached(argv, sum, meaning, false, map[]), meaning)
    ensures forall i :: 0 <= i < |actions| ==> !actions[i].Copy?
  {
    hide Run, FirstFree, SumAddChain;
    actions := Compiles(argv, sum, meaning);
    var made := map["a" := Object(argv, "x", meaning(sum))];
    var s6 := Alone(true, "a", Job(Last, NEWCACHE, argv, "x", [sum]), made);
    var mem := Mem(0, 2, [FirstDigest(argv, sum)], true, true);
    var s7 := Alone(true, "a", Job(Updated, mem, argv, "x", [sum]), made)
              .(entries := map["a" := EntryFile(1, "x", argv, [sum])]);
    FirstKey();
    OneSum(sum);
    var none: seq<Digest> := [];
    assert none + [FirstDigest(argv, sum)] == [FirstDigest(argv, sum)];
    RunOn(Nobody(), actions, s6, Update("a", 1, 2), s7, meaning);
    actions := actions + [Update("a", 1, 2)];
    RunOn(Nobody(), actions, s7, UnlockLast("a"), Cached(argv, sum, meaning, false, map[]), meaning);
    actions := actions + [UnlockLast("a")];
  }

  /** The second process reads that digest. */
  lemma {:induction false} ReadsDigest(m: Mem, argv: Sum, sum: Sum) returns (m': Mem)
    requires !m.fDirty && !m.fNewCache && m.uNextKey < UINT32 && WellFormed(m.digests)
    requires MemOutside(m, Saved(1, [FirstDigest(argv, sum)]))
    ensures m' == Locked(m, LinesOf(Saved(1, [FirstDigest(argv, sum)])))
    ensures m'.uGeneration == 1 && m'.digests == [FirstDigest(argv, sum)]
    ensures !m'.fDirty && !m'.fNewCache && m'.uNextKey < UINT32 && WellFormed(m'.digests)
    ensures MemOutside(m', Saved(1, [FirstDigest(argv, sum)]))
  {
    hide Locked, LinesOf;
    var f := Saved(1, [FirstDigest(argv, sum)]);
    m' := Locked(m, LinesOf(f));
    LockCoheres(m, f);
    var d := m'.digests[0];
    assert SameDigest(d, FirstDigest(argv, sum));
    SingleSum(d.sums, sum);
    assert m'.digests == [d];
  }

  lemma {:induction false} SingleSum(sums: Chain, sum: Sum)
    requires multiset(sums) == multiset([sum])
    ensures sums == [sum]
  {
    assert |multiset(sums)| == 1;
    assert sums[0] in multiset(sums);
  }

  lemma {:induction false} Finds(argv: Sum, sum: Sum, pr: Process, entries: map<string, EntryFile>)
    requires pr.mem.digests == [FirstDigest(argv, sum)] && pr.argv == argv && Head(pr.sums) == sum
    requires "a" in entries && entries["a"] == EntryFile(1, "x", argv, [sum])
    ensures Answer("b", pr, entries) == Some("a") && Left("b", pr, entries) == pr.mem.digests
  {
    var ds := pr.mem.digests;
    assert Without(ds[..0], "b") == [];
    assert Without(ds, "b") == [] + [ds[0]] == ds;
  }

  /** The second process, up to its search. */
  lemma {:induction false} Asks(argv: Sum, sum: Sum, meaning: Sum -> int) returns (actions: seq<Action>, mem: Mem)
    ensures mem.digests == [FirstDigest(argv, sum)] && mem.uGeneration == 1 && !mem.fDirty
    ensures Run(Nobody(), actions, Cached(argv, sum, meaning, true, map["b" := Job(Second, mem, argv, "y", [sum])]),
              meaning)
  {
    hide Run, Locked, LinesOf, WellFormed, MemOutside;
    actions := Caches(argv, sum, meaning);
    NothingKnown(argv, sum);
    var m1 := ReadsDigest(NOTHING, argv, sum);
    mem := ReadsDigest(m1, argv, sum);
    var s8 := Cached(argv, sum, meaning, false, map[]);
    var s9 := Cached(argv, sum, meaning, false, map["b" := Job(Fresh, NOTHING, argv, "y", [])]);
    var s10 := Cached(argv, sum, meaning, true, map["b" := Job(First, m1, argv, "y", [])]);
    var s11 := Cached(argv, sum, meaning, false, map["b" := Job(Preprocessing, m1, argv, "y", [])]);
    var s12 := Cached(argv, sum, meaning, false, map["b" := Job(WantSecond, m1, argv, "y", [sum])]);
    var s13 := Cached(argv, sum, meaning, true, map["b" := Job(Second, mem, argv, "y", [sum])]);
    RunOn(Nobody(), actions, s8, Start("b", argv, "y", false), s9, meaning);
    actions := actions + [Start("b", argv, "y", false)];
    RunOn(Nobody(), actions, s9, LockFirst("b"), s10, meaning);
    actions := actions + [LockFirst("b")];
    RunOn(Nobody(), actions, s10, UnlockFirst("b"), s11, meaning);
    actions := actions + [UnlockFirst("b")];
    RunOn(Nobody(), actions, s11, Preprocess("b", sum, false), s12, meaning);
    actions := actions + [Preprocess("b", sum, false)];
    RunOn(Nobody(), actions, s12, LockSecond("b"), s13, meaning);
    actions := actions + [LockSecond("b")];
  }

  /** From the start, the second process wants the target "y", and copies the object made for "x". */
  lemma {:induction false} WrongTargetCopied(argv: Sum, sum: Sum, meaning: Sum -> int)
      returns (actions: seq<Action>, s: State)
    ensures Initial(Nobody(), meaning) && Run(Nobody(), actions, s, meaning)
    ensures "b" in s.procs && "b" in s.objects && s.procs["b"].target == "y" && s.objects["b"].target == "x"
  {
    hide Run, Answer, Left, Dropped;
    var mem;
    actions, mem := Asks(argv, sum, meaning);
    var pr := Job(Second, mem, argv, "y", [sum]);
    var s13 := Cached(argv, sum, meaning, true, map["b" := pr]);
    Finds(argv, sum, pr, Readable(s13));
    var s14 := With(s13, "b", Sifted("b", pr, Readable(s13), Copying("a")));
    RunOn(Nobody(), actions, s13, Find("b"), s14, meaning);
    actions := actions + [Find("b")];
    s := Next(s14, Copy("b"), meaning);
    RunOn(Nobody(), actions, s14, Copy("b"), s, meaning);
    actions := actions + [Copy("b")];
  }

  lemma {:induction false} NothingKnown(argv: Sum, sum: Sum)
    ensures WellFormed([]) && MemOutside(NOTHING, Saved(1, [FirstDigest(argv, sum)]))
  {
  }
}
