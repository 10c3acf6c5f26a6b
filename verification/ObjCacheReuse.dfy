/** When a compiler is run, and when an object is reused: over whole runs, exactly. */
module ObjCacheReuse {
  import opened Basics
  import opened ObjCache
  import opened ObjCacheProtocol
  import opened ObjCacheTargets
  import opened ObjCacheHistory

  // ----- What the files say --------------------------------------------------------------------------

  /** The object or its entry is missing, or made with other arguments or for another target. */
  predicate Outdated(s: State, p: string, argv: Sum, target: string) {
    !(p in s.objects && p in s.entries && s.entries[p].argv == argv && s.entries[p].target == target)
  }

  /** The new preprocessor output is not known to the entry, and nothing, or nothing allowed, says it is the same. */
  predicate Changed(s: State, p: string, sum: Sum, fSame: bool, fSizeOpt: bool) {
    p in s.entries && sum !in s.entries[p].sums && (fSizeOpt || !fSame)
  }

  /** A digest of another path offers an object with these arguments for this output, its entry confirming it. */
  ghost predicate Offered(s: State, p: string, argv: Sum, sum: Sum) {
    exists d :: d in DigestsOf(s.file) && d.path != p && d.argv == argv && sum in d.sums && Confirmed(s, d)
  }

  predicate Confirmed(s: State, d: Digest) {
    d.path in s.entries && d.path in s.objects &&
    var e := s.entries[d.path];
    e.key == d.key && e.argv == d.argv && e.target == d.target && forall x :: x in d.sums ==> x in e.sums
  }

  /** The process that starts with step i is there up to state k. */
  ghost predicate Lives(states: seq<State>, actions: seq<Action>, i: nat, k: nat) {
    && i < k <= |actions| && |states| == |actions| + 1 && actions[i].Start?
    && forall l :: i < l <= k ==> actions[i].p in states[l].procs
  }

  // ----- What has happened to it ------------------------------------------------------------------------

  /** It has called the compiler. */
  ghost predicate Began(actions: seq<Action>, i: nat, k: nat)
    requires i < |actions| && k <= |actions|
  {
    exists b :: i < b < k && actions[b].BeginBuild? && actions[b].p == actions[i].p
  }

  /** It was outdated and the cache new: both files were missing. */
  ghost predicate TookFullBuild(states: seq<State>, actions: seq<Action>, i: nat, k: nat)
    requires i < |actions| < |states| && k <= |actions| && actions[i].Start?
  {
    && Outdated(states[i], actions[i].p, actions[i].argv, actions[i].target)
    && exists f :: i < f < k && actions[f] == UnlockFirst(actions[i].p) && states[f].file.Empty?
  }

  predicate Preprocesses(actions: seq<Action>, i: nat, j: nat)
    requires i < |actions| && j < |actions|
  {
    actions[j].Preprocess? && actions[j].p == actions[i].p
  }

  /** Its preprocessor output at j says that the object cannot stay. */
  predicate Wanting(states: seq<State>, actions: seq<Action>, i: nat, j: nat)
    requires i < |actions| < |states| && j < |actions| && actions[i].Start?
  {
    && Preprocesses(actions, i, j)
    && (Outdated(states[i], actions[i].p, actions[i].argv, actions[i].target)
        || Changed(states[i], actions[i].p, actions[j].sum, actions[j].fSame, actions[i].fSizeOpt))
  }

  /** And the cache offers nothing at l. */
  ghost predicate RefusedAt(states: seq<State>, actions: seq<Action>, i: nat, l: nat)
    requires i < |actions| < |states| && l < |actions| && actions[i].Start?
  {
    && actions[l] == Find(actions[i].p)
    && exists j :: i < j < l && Wanting(states, actions, i, j)
                   && !Offered(states[l], actions[i].p, actions[i].argv, actions[j].sum)
  }

  ghost predicate Refused(states: seq<State>, actions: seq<Action>, i: nat, k: nat)
    requires i < |actions| < |states| && k <= |actions| && actions[i].Start?
  {
    exists l :: i < l < k && RefusedAt(states, actions, i, l)
  }

  ghost predicate Prepared(actions: seq<Action>, i: nat, k: nat)
    requires i < |actions| && k <= |actions|
  {
    exists j :: i < j < k && Preprocesses(actions, i, j)
  }

  /** There is a reason to compile: no way around it. */
  ghost predicate MustCompile(states: seq<State>, actions: seq<Action>, i: nat, k: nat)
    requires i < |actions| < |states| && k <= |actions| && actions[i].Start?
  {
    TookFullBuild(states, actions, i, k) || Refused(states, actions, i, k)
  }

  /** One more step. */
  lemma {:induction false} Extended(states: seq<State>, actions: seq<Action>, i: nat, k: nat)
    requires i < k < |actions| < |states| && actions[i].Start?
    ensures var p := actions[i].p;
            && (Began(actions, i, k + 1) <==> Began(actions, i, k) || (actions[k].BeginBuild? && actions[k].p == p))
            && (Prepared(actions, i, k + 1) <==> Prepared(actions, i, k) || Preprocesses(actions, i, k))
            && (Refused(states, actions, i, k + 1) <==>
                Refused(states, actions, i, k) || RefusedAt(states, actions, i, k))
            && (TookFullBuild(states, actions, i, k + 1) <==>
                || TookFullBuild(states, actions, i, k)
                || (Outdated(states[i], p, actions[i].argv, actions[i].target)
                    && actions[k] == UnlockFirst(p) && states[k].file.Empty?))
  {
    hide Outdated, RefusedAt, Preprocesses;
  }

  lemma {:induction false} NothingYet(states: seq<State>, actions: seq<Action>, i: nat)
    requires i < |actions| < |states| && actions[i].Start?
    ensures !Began(actions, i, i + 1) && !Prepared(actions, i, i + 1) && !MustCompile(states, actions, i, i + 1)
  {
    hide Outdated, RefusedAt, Preprocesses;
  }

  // ----- What its phase tells --------------------------------------------------------------------------

  /** It goes by what it found at its start. */
  predicate AsAtStart(states: seq<State>, actions: seq<Action>, i: nat, pr: Process)
    requires i < |actions| < |states| && actions[i].Start?
  {
    var p := actions[i].p;
    && pr.fNeedCompiling == Outdated(states[i], p, actions[i].argv, actions[i].target)
    && pr.before == if p in states[i].objects then Lookup(states[i].entries, p) else None
  }

  ghost predicate Asked(states: seq<State>, actions: seq<Action>, i: nat, k: nat, sums: Chain)
    requires i < |actions| < |states| && k <= |actions| && actions[i].Start?
  {
    && (exists j :: i < j < k && Wanting(states, actions, i, j))
    && (forall j :: i < j < k && Preprocesses(actions, i, j) ==> sums == [actions[j].sum])
  }

  ghost predicate Stage(states: seq<State>, actions: seq<Action>, i: nat, k: nat, pr: Process)
    requires i < |actions| < |states| && k <= |actions| && actions[i].Start?
  {
    var began := Began(actions, i, k);
    var full, refused := TookFullBuild(states, actions, i, k), Refused(states, actions, i, k);
    match pr.phase
    case Fresh => AsAtStart(states, actions, i, pr) && !Prepared(actions, i, k) && !began && !full && !refused
    case First =>
      && AsAtStart(states, actions, i, pr) && !Prepared(actions, i, k) && !began && !full && !refused
      && (pr.mem.fNewCache <==> states[k].file.Empty?)
    case FullBuild => !began && full && !refused
    case Preprocessing => AsAtStart(states, actions, i, pr) && !Prepared(actions, i, k) && !began && !full && !refused
    case WantSecond => Asked(states, actions, i, k, pr.sums) && !began && !full && !refused
    case Second => Asked(states, actions, i, k, pr.sums) && !began && !full && !refused && pr.dropped == {}
    case Copying(_) => !began && !full && !refused
    case Unchanged => !began && !full && !refused
    case Build => !began && !full && refused
    case Building => began && (full || refused)
    case Built => began && (full || refused)
    case Last => began <==> full || refused
    case Updated => began <==> full || refused
  }

  ghost predicate Tells(states: seq<State>, actions: seq<Action>, i: nat, k: nat)
    requires i < |actions| < |states| && k <= |actions| && actions[i].Start?
  {
    var p := actions[i].p;
    p in states[k].procs &&
    var pr := states[k].procs[p];
    && pr.argv == actions[i].argv && pr.target == actions[i].target && pr.fSizeOpt == actions[i].fSizeOpt
    && Stage(states, actions, i, k, pr)
  }

  // ----- Steps of others ----------------------------------------------------------------------------------

  lemma {:induction false} FileStays(s: State, a: Action, p: string, meaning: Sum -> int)
    requires Enabled(s, a, meaning) && LockInv(s) && s.lock == Some(p) && a.p != p
    ensures Next(s, a, meaning).file == s.file
  {
    hide Left, Dropped, Answer, Without, FirstFree, Locked, LinesOf, Readable, DigestOf, SumAddChain, CalcRecompile,
         Head, ComparesEqual;
  }

  lemma {:induction false} OtherStep(states: seq<State>, actions: seq<Action>, i: nat, k: nat, meaning: Sum -> int)
    requires Trace(states, actions, meaning) && i < k < |actions| && actions[i].Start? && Inv(states[k], meaning)
    requires Tells(states, actions, i, k) && actions[k].p != actions[i].p
    ensures Tells(states, actions, i, k + 1)
  {
    hide Inv, Enabled, Next, Outdated, RefusedAt, Preprocesses, Began, TookFullBuild, Refused, Prepared, Untouched,
         HoldsLock, AsAtStart, Asked;
    var s, a, p := states[k], actions[k], actions[i].p;
    assert states[k + 1] == Next(s, a, meaning);
    StepTouches(s, a, meaning);
    UntouchedAt(s, states[k + 1], a.p, p);
    Extended(states, actions, i, k);
    NotMine(states, actions, i, k);
    if s.procs[p].phase.First? {
      FirstHolds(s, p, meaning);
      FileStays(s, a, p, meaning);
    }
  }

  lemma {:induction false} FirstHolds(s: State, p: string, meaning: Sum -> int)
    requires Inv(s, meaning) && p in s.procs && s.procs[p].phase.First?
    ensures LockInv(s) && s.lock == Some(p)
  {
    hide FileOk, MemInv, EntryInv, DiskInv, CopyInv;
  }

  lemma {:induction false} NotMine(states: seq<State>, actions: seq<Action>, i: nat, k: nat)
    requires i < k < |actions| < |states| && actions[i].Start? && actions[k].p != actions[i].p
    ensures !Preprocesses(actions, i, k) && !RefusedAt(states, actions, i, k) && actions[k] != UnlockFirst(actions[i].p)
    ensures forall sums :: Asked(states, actions, i, k, sums) ==> Asked(states, actions, i, k + 1, sums)
  {
    hide Outdated, Changed, Offered;
  }

  // ----- Its own steps ------------------------------------------------------------------------------------

  lemma {:induction false} StartTells(states: seq<State>, actions: seq<Action>, i: nat, meaning: Sum -> int)
    requires Trace(states, actions, meaning) && i < |actions| && actions[i].Start?
    ensures Tells(states, actions, i, i + 1)
  {
    hide Enabled, Began, TookFullBuild, Refused, Prepared;
    assert states[i + 1] == Next(states[i], actions[i], meaning);
    NothingYet(states, actions, i);
    hide MustCompile;
  }

  /** Under the lock, before anything is dropped, memory and file have the same digests of others. */
  lemma {:induction false} SameAsFile(s: State, p: string, meaning: Sum -> int)
    requires Inv(s, meaning) && p in s.procs && s.procs[p].phase.Second? && s.procs[p].dropped == {}
    ensures forall d :: d in s.procs[p].mem.digests && d.path != p ==> Represented(d, DigestsOf(s.file))
    ensures forall d :: d in DigestsOf(s.file) && d.path != p ==> Represented(d, s.procs[p].mem.digests)
  {
    hide Inv, EntryInv, DiskInv, CopyInv, WellFormed, Represented;
    InvAt(s, p, meaning);
  }

  lemma {:induction false} AnswerIs(p: string, pr: Process, entries: map<string, EntryFile>)
    ensures var without := Without(pr.mem.digests, p);
            Answer(p, pr, entries) == FindMatch(without, |without|, pr.argv, Head(pr.sums), entries).0
  {
    hide FindMatch, Without, Head;
  }

  lemma {:induction false} OfferIs(s: State, p: string, argv: Sum, sum: Sum)
    ensures Offered(s, p, argv, sum) <==>
            exists d :: d in DigestsOf(s.file) && d.path != p && d.argv == argv && sum in d.sums && Confirmed(s, d)
  {
    hide Confirmed;
  }

  lemma {:induction false} FoundIsOffered(s: State, p: string, meaning: Sum -> int)
    requires Inv(s, meaning) && p in s.procs && s.procs[p].phase.Second? && s.procs[p].dropped == {}
    ensures var pr := s.procs[p];
            Answer(p, pr, Readable(s)).Some? ==> Offered(s, p, pr.argv, Head(pr.sums))
  {
    hide *;
    var pr := s.procs[p];
    var sum, without := Head(pr.sums), Without(pr.mem.digests, p);
    SameAsFile(s, p, meaning);
    WithoutOthers(pr.mem.digests, p);
    FindMatchIs(without, |without|, pr.argv, sum, Readable(s));
    AnswerIs(p, pr, Readable(s));
    OfferIs(s, p, pr.argv, sum);
    if Answer(p, pr, Readable(s)).Some? {
      var left := FindMatch(without, |without|, pr.argv, sum, Readable(s)).1;
      var d :| d in left && Matches(d, pr.argv, sum) && Usable(d, Readable(s));
      assert d in without;
      var f := FromFile(d, DigestsOf(s.file));
      SameOffer(s, d, f, pr.argv, sum);
    }
  }

  lemma {:induction false} OfferedIsFound(s: State, p: string, meaning: Sum -> int)
    requires Inv(s, meaning) && p in s.procs && s.procs[p].phase.Second? && s.procs[p].dropped == {}
    ensures var pr := s.procs[p];
            Offered(s, p, pr.argv, Head(pr.sums)) ==> Answer(p, pr, Readable(s)).Some?
  {
    hide *;
    var pr := s.procs[p];
    var sum, without := Head(pr.sums), Without(pr.mem.digests, p);
    SameAsFile(s, p, meaning);
    WithoutOthers(pr.mem.digests, p);
    FindMatchIs(without, |without|, pr.argv, sum, Readable(s));
    AnswerIs(p, pr, Readable(s));
    OfferIs(s, p, pr.argv, sum);
    if Offered(s, p, pr.argv, sum) {
      var d :| d in DigestsOf(s.file) && d.path != p && d.argv == pr.argv && sum in d.sums && Confirmed(s, d);
      var m := FromFile(d, pr.mem.digests);
      SameOffer(s, m, d, pr.argv, sum);
      assert m in without;
      var j :| 0 <= j < |without| && without[j] == m;
    }
  }

  /** A match is found exactly if one is offered. */
  lemma {:induction false} FindOffers(s: State, p: string, meaning: Sum -> int)
    requires Inv(s, meaning) && p in s.procs && s.procs[p].phase.Second? && s.procs[p].dropped == {}
    ensures var pr := s.procs[p];
            Answer(p, pr, Readable(s)).Some? <==> Offered(s, p, pr.argv, Head(pr.sums))
  {
    hide *;
    FoundIsOffered(s, p, meaning);
    OfferedIsFound(s, p, meaning);
  }

  lemma {:induction false} FromFile(d: Digest, ds: seq<Digest>) returns (r: Digest)
    requires Represented(d, ds)
    ensures r in ds && SameDigest(d, r)
  {
    var i :| 0 <= i < |ds| && SameDigest(d, ds[i]);
    r := ds[i];
  }

  lemma {:induction false} SameOffer(s: State, a: Digest, b: Digest, argv: Sum, sum: Sum)
    requires SameDigest(a, b) || SameDigest(b, a)
    ensures Matches(a, argv, sum) && Usable(a, Readable(s)) <==> b.argv == argv && sum in b.sums && Confirmed(s, b)
    ensures a.path == b.path
  {
    assert forall x :: x in a.sums <==> x in multiset(a.sums);
    assert forall x :: x in b.sums <==> x in multiset(b.sums);
  }

  lemma {:induction false} OwnStep(states: seq<State>, actions: seq<Action>, i: nat, k: nat, meaning: Sum -> int)
    requires Trace(states, actions, meaning) && i < k < |actions| && actions[i].Start? && Inv(states[k], meaning)
    requires Tells(states, actions, i, k) && actions[k].p == actions[i].p && actions[i].p in states[k + 1].procs
    ensures Tells(states, actions, i, k + 1)
  {
    hide *;
    var a := actions[k];
    TraceStep(states, actions, k, meaning);
    Extended(states, actions, i, k);
    match a
    case Start(_, _, _, _) => LockStep(states, actions, i, k, meaning);
    case LockFirst(_) => LockStep(states, actions, i, k, meaning);
    case UnlockFirst(_) => UnlockStep(states, actions, i, k, meaning);
    case Preprocess(_, _, _) => PreprocessStep(states, actions, i, k, meaning);
    case LockSecond(_) => LockStep(states, actions, i, k, meaning);
    case Find(_) => FindStep(states, actions, i, k, meaning);
    case _ => BuildStep(states, actions, i, k, meaning);
  }

  lemma {:induction false} TraceStep(states: seq<State>, actions: seq<Action>, k: nat, meaning: Sum -> int)
    requires Trace(states, actions, meaning) && k < |actions|
    ensures |states| == |actions| + 1 && Enabled(states[k], actions[k], meaning)
    ensures states[k + 1] == Next(states[k], actions[k], meaning)
  {
    hide Enabled, Next;
  }

  lemma {:induction false} LockStep(states: seq<State>, actions: seq<Action>, i: nat, k: nat, meaning: Sum -> int)
    requires Trace(states, actions, meaning) && i < k < |actions| && actions[i].Start? && Inv(states[k], meaning)
    requires Tells(states, actions, i, k) && actions[k].p == actions[i].p && actions[i].p in states[k + 1].procs
    requires actions[k].Start? || actions[k].LockFirst? || actions[k].LockSecond?
    ensures Tells(states, actions, i, k + 1)
  {
    hide Outdated, Wanting, RefusedAt, Began, TookFullBuild, Refused, Prepared, Inv, Locked, LinesOf, Trace;
    TraceStep(states, actions, k, meaning);
    Extended(states, actions, i, k);
    var s, a, p := states[k], actions[k], actions[i].p;
    NotRefusing(states, actions, i, k);
    KeepsAsking(states, actions, i, k);
    if a.LockFirst? {
      LockedIsNew(s, p, meaning);
    }
  }

  lemma {:induction false} NotRefusing(states: seq<State>, actions: seq<Action>, i: nat, k: nat)
    requires i < k < |actions| < |states| && actions[i].Start?
    ensures !actions[k].Find? ==> !RefusedAt(states, actions, i, k)
  {
  }

  lemma {:induction false} KeepsAsking(states: seq<State>, actions: seq<Action>, i: nat, k: nat)
    requires i < k < |actions| < |states| && actions[i].Start? && !actions[k].Preprocess?
    ensures forall sums :: Asked(states, actions, i, k, sums) ==> Asked(states, actions, i, k + 1, sums)
  {
    hide Outdated, Changed;
  }

  /** The cache is taken for new exactly if its file is empty. */
  lemma {:induction false} LockedIsNew(s: State, p: string, meaning: Sum -> int)
    requires Inv(s, meaning) && p in s.procs && s.procs[p].phase.Fresh? && s.lock == None
    ensures Locked(s.procs[p].mem, LinesOf(s.file)).fNewCache <==> s.file.Empty?
  {
    hide Inv, Locked, LinesOf;
    StepKeeps(s, LockFirst(p), meaning);
    var s' := Next(s, LockFirst(p), meaning);
    InvAt(s', p, meaning);
    NewOnNothing(s.procs[p].mem);
  }

  lemma {:induction false} NewOnNothing(m: Mem)
    ensures Locked(m, LinesOf(Empty)).fNewCache
  {
  }

  lemma {:induction false} UnlockStep(states: seq<State>, actions: seq<Action>, i: nat, k: nat, meaning: Sum -> int)
    requires Trace(states, actions, meaning) && i < k < |actions| && actions[i].Start? && Inv(states[k], meaning)
    requires Tells(states, actions, i, k) && actions[k].p == actions[i].p && actions[k].UnlockFirst?
    ensures Tells(states, actions, i, k + 1)
  {
    hide Outdated, Wanting, RefusedAt, Began, TookFullBuild, Refused, Prepared, Inv, Trace;
    TraceStep(states, actions, k, meaning);
    Extended(states, actions, i, k);
    NotRefusing(states, actions, i, k);
  }

  lemma {:induction false} PreprocessStep(states: seq<State>, actions: seq<Action>, i: nat, k: nat, meaning: Sum -> int)
    requires Trace(states, actions, meaning) && i < k < |actions| && actions[i].Start? && Inv(states[k], meaning)
    requires Tells(states, actions, i, k) && actions[k].p == actions[i].p && actions[k].Preprocess?
    ensures Tells(states, actions, i, k + 1)
  {
    hide RefusedAt, Began, TookFullBuild, Refused, Prepared, Asked, Outdated, Inv, Trace, ComparesEqual, SumAddChain;
    TraceStep(states, actions, k, meaning);
    Extended(states, actions, i, k);
    NotRefusing(states, actions, i, k);
    AsksFirst(states, actions, i, k);
    FoundAtStart(states[i], actions[i].p, actions[i].argv, actions[i].target);
  }

  lemma {:induction false} FoundAtStart(s: State, p: string, argv: Sum, target: string)
    ensures !Outdated(s, p, argv, target) ==> p in s.objects && p in s.entries
  {
  }

  lemma {:induction false} AsksFirst(states: seq<State>, actions: seq<Action>, i: nat, k: nat)
    requires i < k < |actions| < |states| && actions[i].Start? && actions[k].Preprocess?
    requires actions[k].p == actions[i].p && !Prepared(actions, i, k)
    ensures Wanting(states, actions, i, k) ==> Asked(states, actions, i, k + 1, [actions[k].sum])
  {
    hide Outdated, Changed;
    assert Preprocesses(actions, i, k);
  }

  lemma {:induction false} FindStep(states: seq<State>, actions: seq<Action>, i: nat, k: nat, meaning: Sum -> int)
    requires Trace(states, actions, meaning) && i < k < |actions| && actions[i].Start? && Inv(states[k], meaning)
    requires Tells(states, actions, i, k) && actions[k].p == actions[i].p && actions[k].Find?
    ensures Tells(states, actions, i, k + 1)
  {
    hide Outdated, Changed, Offered, Began, TookFullBuild, Refused, Prepared, Inv, Trace, Left, Dropped, Answer,
         Readable, Without;
    TraceStep(states, actions, k, meaning);
    Extended(states, actions, i, k);
    var s, p := states[k], actions[i].p;
    var pr := s.procs[p];
    FindOffers(s, p, meaning);
    RefusedHere(states, actions, i, k, pr.sums);
  }

  lemma {:induction false} RefusedHere(states: seq<State>, actions: seq<Action>, i: nat, k: nat, sums: Chain)
    requires i < k < |actions| < |states| && actions[i].Start? && actions[k] == Find(actions[i].p)
    requires Asked(states, actions, i, k, sums)
    ensures RefusedAt(states, actions, i, k) <==> !Offered(states[k], actions[i].p, actions[i].argv, Head(sums))
  {
    hide Outdated, Changed, Offered;
    var j :| i < j < k && Wanting(states, actions, i, j);
    assert Preprocesses(actions, i, j);
  }

  lemma {:induction false} BuildStep(states: seq<State>, actions: seq<Action>, i: nat, k: nat, meaning: Sum -> int)
    requires Trace(states, actions, meaning) && i < k < |actions| && actions[i].Start? && Inv(states[k], meaning)
    requires Tells(states, actions, i, k) && actions[k].p == actions[i].p && actions[i].p in states[k + 1].procs
    requires var a := actions[k];
             a.Copy? || a.BeginBuild? || a.EndBuild? || a.FailBuild? || a.LockLast? || a.Update? || a.UnlockLast? ||
             a.Clean?
    ensures Tells(states, actions, i, k + 1)
  {
    hide Outdated, Wanting, RefusedAt, Began, TookFullBuild, Refused, Prepared, Asked, AsAtStart, Inv, Trace, Locked,
         LinesOf, Without, FirstFree, SumAddChain, Head;
    TraceStep(states, actions, k, meaning);
    Extended(states, actions, i, k);
    NotRefusing(states, actions, i, k);
  }

  // ----- The run ----------------------------------------------------------------------------------------------

  lemma {:induction false} AlwaysTells(states: seq<State>, actions: seq<Action>, i: nat, k: nat, meaning: Sum -> int)
    requires Trace(states, actions, meaning) && Initial(states[0], meaning) && Lives(states, actions, i, k)
    ensures Tells(states, actions, i, k)
    decreases k
  {
    hide *;
    LivesIs(states, actions, i, k);
    if k == i + 1 {
      StartTells(states, actions, i, meaning);
    } else {
      LivesIs(states, actions, i, k - 1);
      AlwaysTells(states, actions, i, k - 1, meaning);
      TraceKeeps(states, actions, k - 1, meaning);
      if actions[k - 1].p == actions[i].p {
        OwnStep(states, actions, i, k - 1, meaning);
      } else {
        OtherStep(states, actions, i, k - 1, meaning);
      }
    }
  }

  lemma {:induction false} LivesIs(states: seq<State>, actions: seq<Action>, i: nat, k: nat)
    ensures Lives(states, actions, i, k) <==>
            && i < k <= |actions| && |states| == |actions| + 1 && actions[i].Start?
            && (forall l :: i < l <= k ==> actions[i].p in states[l].procs)
    ensures Lives(states, actions, i, k) && i + 1 < k ==> Lives(states, actions, i, k - 1)
    ensures Lives(states, actions, i, k) ==> actions[i].p in states[k].procs
  {
  }

  /** The exact occasion for a compiler, in every run: a process calls it only if it was outdated with both files
      missing, or its object cannot stay and the cache offers no other; and if so, that is its next step, or done. */
  lemma {:induction false} WhenCompiled(states: seq<State>, actions: seq<Action>, i: nat, k: nat, meaning: Sum -> int)
    requires Trace(states, actions, meaning) && Initial(states[0], meaning) && Lives(states, actions, i, k)
    ensures Began(actions, i, k) ==> MustCompile(states, actions, i, k)
    ensures MustCompile(states, actions, i, k) && !Began(actions, i, k) ==>
              var ph := states[k].procs[actions[i].p].phase; ph.FullBuild? || ph.Build?
    ensures k < |actions| && actions[k].p == actions[i].p && actions[k].BeginBuild? ==>
              MustCompile(states, actions, i, k)
    ensures k < |actions| && actions[k] == UnlockLast(actions[i].p) ==>
              (Began(actions, i, k) <==> MustCompile(states, actions, i, k))
  {
    hide Inv, Began, TookFullBuild, Refused, Prepared, Asked, AsAtStart, Next, Trace;
    AlwaysTells(states, actions, i, k, meaning);
    if k < |actions| {
      TraceStep(states, actions, k, meaning);
    }
  }

  /** Whoever is there has started. */
  lemma {:induction false} WhoStarted(states: seq<State>, actions: seq<Action>, k: nat, p: string, meaning: Sum -> int)
      returns (i: nat)
    requires Trace(states, actions, meaning) && Initial(states[0], meaning) && k <= |actions| && p in states[k].procs
    ensures Lives(states, actions, i, k) && actions[i].p == p
    decreases k
  {
    hide Enabled, Next, Untouched;
    assert k > 0;
    var s, a := states[k - 1], actions[k - 1];
    TraceStep(states, actions, k - 1, meaning);
    if p in s.procs {
      i := WhoStarted(states, actions, k - 1, p, meaning);
    } else {
      StepTouches(s, a, meaning);
      if a.p != p {
        UntouchedAt(s, states[k], a.p, p);
      }
      OnlyStartAdds(s, a, meaning);
      i := k - 1;
    }
  }

  lemma {:induction false} OnlyStartAdds(s: State, a: Action, meaning: Sum -> int)
    requires Enabled(s, a, meaning) && a.p !in s.procs && a.p in Next(s, a, meaning).procs
    ensures a.Start?
  {
  }
}
