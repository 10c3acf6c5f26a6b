/** What a process leaves behind: its digest, its entry and its object, and the compilations they spare. */
module ObjCacheOffers {
  import opened Basics
  import opened ObjCache
  import opened ObjCacheProtocol
  import opened ObjCacheTargets
  import opened ObjCacheHistory
  import opened ObjCacheReuse

  // ----- What a process has got ------------------------------------------------------------------------

  /** Step m gives it its preprocessor output: on its own, or in the course of a full build. */
  predicate Outputs(states: seq<State>, actions: seq<Action>, i: nat, m: nat)
    requires i < |actions| && m < |actions| < |states|
  {
    var a, p := actions[m], actions[i].p;
    a.p == p && (a.Preprocess? || (a.BeginBuild? && p in states[m].procs && states[m].procs[p].phase.FullBuild?))
  }

  /** The new output was compared with the old one, for the want of a known checksum, and is as good. */
  predicate ComparedEqual(states: seq<State>, actions: seq<Action>, i: nat, m: nat)
    requires i < |actions| && m < |actions| < |states| && actions[i].Start?
  {
    var a, p := actions[m], actions[i].p;
    && a.Preprocess? && a.fSame && !actions[i].fSizeOpt
    && !Outdated(states[i], p, actions[i].argv, actions[i].target) && a.sum !in states[i].entries[p].sums
  }

  predicate Remembered(states: seq<State>, actions: seq<Action>, i: nat, m: nat, x: Sum)
    requires i < |actions| && m < |actions| < |states| && actions[i].Start?
    requires actions[m].Preprocess? || actions[m].BeginBuild?
  {
    x == actions[m].sum || (ComparedEqual(states, actions, i, m) && x in states[i].entries[actions[i].p].sums)
  }

  ghost predicate NoneYet(states: seq<State>, actions: seq<Action>, i: nat, k: nat)
    requires i < |actions| && k <= |actions| < |states|
  {
    forall m :: i < m < k ==> !Outputs(states, actions, i, m)
  }

  /** It got one output, at m, and these are its checksum and those it was found equal to. */
  ghost predicate HoldsAt(states: seq<State>, actions: seq<Action>, i: nat, k: nat, sums: Chain, m: nat)
    requires i < |actions| && k <= |actions| < |states| && actions[i].Start?
  {
    && i < m < k && Outputs(states, actions, i, m)
    && (forall l :: i < l < k && Outputs(states, actions, i, l) ==> l == m)
    && forall x :: x in sums <==> Remembered(states, actions, i, m, x)
  }

  ghost predicate Holds(states: seq<State>, actions: seq<Action>, i: nat, k: nat, sums: Chain)
    requires i < |actions| && k <= |actions| < |states| && actions[i].Start?
  {
    exists m :: HoldsAt(states, actions, i, k, sums, m)
  }

  /** The entry is written, and the index about to be written has its digest. */
  ghost predicate Entered(s: State, p: string, pr: Process) {
    && pr.mem.fDirty && p in s.entries && p in s.objects
    && s.entries[p].argv == pr.argv && s.entries[p].target == pr.target
    && (forall x :: x in s.entries[p].sums <==> x in pr.sums)
    && HasDigest(s, p, pr.mem.digests)
  }

  ghost predicate HasDigest(s: State, p: string, ds: seq<Digest>) {
    p in s.entries &&
    exists d :: d in ds && d.path == p && IsValid(d, s.entries[p]) && forall x :: x in s.entries[p].sums ==> x in d.sums
  }

  ghost predicate Knows(states: seq<State>, actions: seq<Action>, i: nat, k: nat)
    requires i < |actions| && k <= |actions| < |states| && actions[i].Start?
  {
    var p := actions[i].p;
    p in states[k].procs &&
    var pr := states[k].procs[p];
    && pr.argv == actions[i].argv && pr.target == actions[i].target
    && (if pr.phase.Fresh? || pr.phase.First? || pr.phase.FullBuild? || pr.phase.Preprocessing?
        then NoneYet(states, actions, i, k)
        else Holds(states, actions, i, k, pr.sums))
    && (pr.phase.Updated? ==> Entered(states[k], p, pr))
  }

  // ----- One more step -----------------------------------------------------------------------------------

  lemma {:induction false} NoOutput(states: seq<State>, actions: seq<Action>, i: nat, k: nat)
    requires i < k < |actions| < |states| && actions[i].Start? && !Outputs(states, actions, i, k)
    ensures NoneYet(states, actions, i, k) ==> NoneYet(states, actions, i, k + 1)
    ensures forall sums :: Holds(states, actions, i, k, sums) ==> Holds(states, actions, i, k + 1, sums)
  {
    hide Outputs, Remembered;
    forall sums | Holds(states, actions, i, k, sums)
      ensures Holds(states, actions, i, k + 1, sums)
    {
      var m :| HoldsAt(states, actions, i, k, sums, m);
      assert HoldsAt(states, actions, i, k + 1, sums, m);
    }
  }

  lemma {:induction false} TheOutput(states: seq<State>, actions: seq<Action>, i: nat, k: nat, sums: Chain)
    requires i < k < |actions| < |states| && actions[i].Start? && Outputs(states, actions, i, k)
    requires NoneYet(states, actions, i, k) && forall x :: x in sums <==> Remembered(states, actions, i, k, x)
    ensures Holds(states, actions, i, k + 1, sums)
  {
    hide Outputs, Remembered;
    assert HoldsAt(states, actions, i, k + 1, sums, k);
  }

  lemma {:induction false} OthersKnow(states: seq<State>, actions: seq<Action>, i: nat, k: nat, meaning: Sum -> int)
    requires Trace(states, actions, meaning) && i < k < |actions| && actions[i].Start?
    requires Knows(states, actions, i, k) && actions[k].p != actions[i].p
    ensures Knows(states, actions, i, k + 1)
  {
    hide Enabled, Next, Holds, NoneYet, Untouched, Trace, IsValid;
    TraceStep(states, actions, k, meaning);
    var s, a, p := states[k], actions[k], actions[i].p;
    StepTouches(s, a, meaning);
    UntouchedAt(s, states[k + 1], a.p, p);
    FilesUntouched(s, states[k + 1], a.p, p);
    NoOutput(states, actions, i, k);
  }

  lemma {:induction false} FilesUntouched(s: State, s': State, p: string, q: string)
    requires Untouched(s, s', p) && q != p
    ensures Lookup(s'.entries, q) == Lookup(s.entries, q) && Lookup(s'.objects, q) == Lookup(s.objects, q)
  {
  }

  lemma {:induction false} PreprocessKnows(states: seq<State>, actions: seq<Action>, i: nat, k: nat,
      meaning: Sum -> int)
    requires Trace(states, actions, meaning) && i < k < |actions| && actions[i].Start?
    requires Knows(states, actions, i, k) && Tells(states, actions, i, k)
    requires actions[k].p == actions[i].p && actions[k].Preprocess?
    ensures Knows(states, actions, i, k + 1)
  {
    hide Holds, NoneYet, Trace, SumAddChain, ComparesEqual, Began, TookFullBuild, Refused, Prepared, Asked;
    TraceStep(states, actions, k, meaning);
    var was := states[k].procs[actions[i].p].before;
    if was.Some? {
      ChainAdded([actions[k].sum], was.value.sums);
      SameMembers(SumAddChain([actions[k].sum], was.value.sums), [actions[k].sum], was.value.sums);
    }
    TheOutput(states, actions, i, k, states[k + 1].procs[actions[i].p].sums);
  }

  lemma {:induction false} SameMembers(all: Chain, a: Chain, b: Chain)
    requires multiset(all) == multiset(a) + multiset(b)
    ensures forall x :: x in all <==> x in a || x in b
  {
    forall x
      ensures x in all <==> x in a || x in b
    {
      assert x in all <==> x in multiset(all);
      assert x in a || x in b <==> x in multiset(a) + multiset(b);
    }
  }

  lemma {:induction false} BeginKnows(states: seq<State>, actions: seq<Action>, i: nat, k: nat, meaning: Sum -> int)
    requires Trace(states, actions, meaning) && i < k < |actions| && actions[i].Start?
    requires Knows(states, actions, i, k) && actions[k].p == actions[i].p && actions[k].BeginBuild?
    ensures Knows(states, actions, i, k + 1)
  {
    hide Holds, NoneYet, Trace;
    TraceStep(states, actions, k, meaning);
    if states[k].procs[actions[i].p].phase.FullBuild? {
      TheOutput(states, actions, i, k, [actions[k].sum]);
    } else {
      NoOutput(states, actions, i, k);
    }
  }

  lemma {:induction false} UpdateKnows(states: seq<State>, actions: seq<Action>, i: nat, k: nat, meaning: Sum -> int)
    requires Trace(states, actions, meaning) && i < k < |actions| && actions[i].Start? && Inv(states[k], meaning)
    requires Knows(states, actions, i, k) && actions[k].p == actions[i].p && actions[k].Update?
    ensures Knows(states, actions, i, k + 1)
  {
    hide Holds, NoneYet, Trace, SumAddChain, Inv, FirstFree, Without;
    TraceStep(states, actions, k, meaning);
    NoOutput(states, actions, i, k);
    var s, p := states[k], actions[i].p;
    var pr := s.procs[p];
    InvAt(s, p, meaning);
    MadeAtLast(pr, Lookup(s.entries, p), Lookup(s.objects, p), meaning);
    ChainAdded([], pr.sums);
    SameMembers(SumAddChain([], pr.sums), [], pr.sums);
    var d := DigestOf(Entry(p, pr.target, pr.argv, pr.sums), actions[k].uKey);
    assert d in states[k + 1].procs[p].mem.digests && d.path == p;
  }

  lemma {:induction false} MadeAtLast(pr: Process, entry: Option<EntryFile>, made: Option<Object>, meaning: Sum -> int)
    requires EntryInv(pr, entry, made, meaning) && pr.phase.Last?
    ensures made.Some?
  {
  }

  lemma {:induction false} RestKnows(states: seq<State>, actions: seq<Action>, i: nat, k: nat, meaning: Sum -> int)
    requires Trace(states, actions, meaning) && i < k < |actions| && actions[i].Start?
    requires Knows(states, actions, i, k) && actions[k].p == actions[i].p && actions[i].p in states[k + 1].procs
    requires var a := actions[k];
             !a.Preprocess? && !a.BeginBuild? && !a.Update?
    ensures Knows(states, actions, i, k + 1)
  {
    hide Holds, NoneYet, Trace, SumAddChain, FirstFree, Without, Left, Dropped, Answer, Readable, Locked, LinesOf,
         HasDigest, Head;
    TraceStep(states, actions, k, meaning);
    NoOutput(states, actions, i, k);
  }

  lemma {:induction false} StartKnows(states: seq<State>, actions: seq<Action>, i: nat, meaning: Sum -> int)
    requires Trace(states, actions, meaning) && i < |actions| && actions[i].Start?
    ensures Knows(states, actions, i, i + 1)
  {
    hide Trace, Outdated;
    TraceStep(states, actions, i, meaning);
  }

  lemma {:induction false} AlwaysKnows(states: seq<State>, actions: seq<Action>, i: nat, k: nat, meaning: Sum -> int)
    requires Trace(states, actions, meaning) && Initial(states[0], meaning) && Lives(states, actions, i, k)
    ensures Knows(states, actions, i, k)
    decreases k
  {
    hide *;
    LivesIs(states, actions, i, k);
    if k == i + 1 {
      StartKnows(states, actions, i, meaning);
    } else {
      LivesIs(states, actions, i, k - 1);
      AlwaysKnows(states, actions, i, k - 1, meaning);
      TraceKeeps(states, actions, k - 1, meaning);
      if actions[k - 1].p != actions[i].p {
        OthersKnow(states, actions, i, k - 1, meaning);
      } else {
        AlwaysTells(states, actions, i, k - 1, meaning);
        match actions[k - 1]
        case Preprocess(_, _, _) => PreprocessKnows(states, actions, i, k - 1, meaning);
        case BeginBuild(_, _) => BeginKnows(states, actions, i, k - 1, meaning);
        case Update(_, _, _) => UpdateKnows(states, actions, i, k - 1, meaning);
        case _ => RestKnows(states, actions, i, k - 1, meaning);
      }
    }
  }

  // ----- What it leaves ------------------------------------------------------------------------------------

  /** Entry, object and digest are there and agree, and the checksums are these. */
  ghost predicate Leaves(s: State, p: string, argv: Sum, target: string) {
    !Outdated(s, p, argv, target) && HasDigest(s, p, DigestsOf(s.file))
  }

  /** Whoever finishes leaves an object that is up to date, and a digest of it in the cache file; both know
      the one output there was, and beyond it exactly the old checksums, if it compared equal. */
  lemma {:induction false} WhatIsLeft(states: seq<State>, actions: seq<Action>, i: nat, k: nat, meaning: Sum -> int)
      returns (m: nat)
    requires Trace(states, actions, meaning) && Initial(states[0], meaning) && Lives(states, actions, i, k)
    requires k < |actions| && actions[k] == UnlockLast(actions[i].p)
    ensures var p, s := actions[i].p, states[k + 1];
            && Leaves(s, p, actions[i].argv, actions[i].target) && p !in s.procs && s.lock == None
            && HoldsAt(states, actions, i, k, s.entries[p].sums, m)
  {
    hide NoneYet, Trace, Initial, HoldsAt;
    AlwaysKnows(states, actions, i, k, meaning);
    TraceStep(states, actions, k, meaning);
    var s, p := states[k], actions[i].p;
    m :| HoldsAt(states, actions, i, k, s.procs[p].sums, m);
    SameSums(states, actions, i, k, s.procs[p].sums, s.entries[p].sums, m);
  }

  lemma {:induction false} SameSums(states: seq<State>, actions: seq<Action>, i: nat, k: nat, a: Chain, b: Chain,
      m: nat)
    requires i < |actions| && k <= |actions| < |states| && actions[i].Start?
    requires HoldsAt(states, actions, i, k, a, m) && forall x :: x in b <==> x in a
    ensures HoldsAt(states, actions, i, k, b, m)
  {
    hide Outputs, Remembered;
  }

  // ----- What it spares -------------------------------------------------------------------------------------

  /** A digest of p in the file, confirmed by its entry, promises this. */
  ghost predicate Confirming(s: State, p: string, argv: Sum, sum: Sum) {
    exists d :: d in DigestsOf(s.file) && d.path == p && d.argv == argv && sum in d.sums && Confirmed(s, d)
  }

  /** A search does not drop a digest that its entry confirms. */
  lemma {:induction false} NotBad(s: State, p: string, q: string, argv: Sum, sum: Sum, meaning: Sum -> int)
    requires Inv(s, meaning) && q in s.procs && HoldsLock(s.procs[q].phase) && q != p
    requires Confirming(s, p, argv, sum)
    ensures !BadAt(s, q, p)
  {
    hide Inv, EntryInv, DiskInv, CopyInv, SameDigests, Confirmed, Matches, Usable, Readable, Head;
    InvAt(s, q, meaning);
    FileIsOk(s, meaning);
    var f :| f in DigestsOf(s.file) && f.path == p && f.argv == argv && sum in f.sums && Confirmed(s, f);
    if BadAt(s, q, p) {
      var d :| d in s.procs[q].mem.digests && d.path == p && !Usable(d, Readable(s));
      assert Represented(d, DigestsOf(s.file));
      var g := FromFile(d, DigestsOf(s.file));
      SamePath(d, g);
      assert g == f;
      ConfirmedIsUsable(s, d, f);
      assert false;
    }
  }

  lemma {:induction false} FileIsOk(s: State, meaning: Sum -> int)
    requires Inv(s, meaning)
    ensures FileOk(s.file)
  {
    hide FileOk, MemInv, EntryInv, DiskInv, CopyInv, LockInv;
  }

  lemma {:induction false} ConfirmedIsUsable(s: State, d: Digest, f: Digest)
    requires SameDigest(d, f) && Confirmed(s, f)
    ensures Usable(d, Readable(s))
  {
    assert forall x :: x in d.sums ==> x in multiset(d.sums);
  }

  /** What is confirmed stays so until p itself is at work again, whoever searches the cache in between. */
  lemma {:induction false} StaysConfirmed(states: seq<State>, actions: seq<Action>, i: nat, j: nat, p: string,
      argv: Sum, sum: Sum, meaning: Sum -> int)
    requires Trace(states, actions, meaning) && Initial(states[0], meaning) && i <= j <= |actions|
    requires states[i].lock == None && Confirming(states[i], p, argv, sum)
    requires forall l :: i <= l < j ==> actions[l].p != p
    ensures Confirming(states[j], p, argv, sum)
    decreases j
  {
    hide Inv, Enabled, Next, Trace, Initial, Represented, SameDigest, Confirmed, BadAt, Untouched, Dropped, DigestsOf;
    if i < j {
      TraceStep(states, actions, j - 1, meaning);
      var s, a := states[j - 1], actions[j - 1];
      StaysConfirmed(states, actions, i, j - 1, p, argv, sum, meaning);
      var d :| d in DigestsOf(s.file) && d.path == p && d.argv == argv && sum in d.sums && Confirmed(s, d);
      if !Represented(d, DigestsOf(states[j].file)) {
        var m, k := WhyDigestsAreGone(states, actions, j - 1, j, d, meaning);
        StillLocked(states, actions, i, k, m, a.p, p);
        StaysConfirmed(states, actions, i, k, p, argv, sum, meaning);
        TraceKeeps(states, actions, k, meaning);
        SearcherLocks(states, actions, k, a.p, meaning);
        NotBad(states[k], p, a.p, argv, sum, meaning);
        assert false;
      }
      var d' := FromFile(d, DigestsOf(states[j].file));
      StepTouches(s, a, meaning);
      FilesUntouched(s, states[j], a.p, p);
      StillConfirmed(s, states[j], d, d');
    }
  }

  lemma {:induction false} StillLocked(states: seq<State>, actions: seq<Action>, i: nat, k: nat, m: nat, q: string,
      path: string)
    requires DroppedAt(states, actions, k, m, q, path) && i <= m && states[i].lock == None
    ensures i <= k
  {
    hide Dropped, Readable;
  }

  lemma {:induction false} SearcherLocks(states: seq<State>, actions: seq<Action>, k: nat, q: string,
      meaning: Sum -> int)
    requires Trace(states, actions, meaning) && k < |actions| && actions[k] == Find(q)
    ensures q in states[k].procs && HoldsLock(states[k].procs[q].phase)
  {
    hide Next, Trace;
    TraceStep(states, actions, k, meaning);
  }

  lemma {:induction false} StillConfirmed(s: State, s': State, d: Digest, d': Digest)
    requires SameDigest(d, d') && Confirmed(s, d)
    requires Lookup(s'.entries, d.path) == Lookup(s.entries, d.path)
    requires Lookup(s'.objects, d.path) == Lookup(s.objects, d.path)
    ensures Confirmed(s', d') && d'.path == d.path && d'.argv == d.argv && forall x :: x in d'.sums <==> x in d.sums
  {
    SameMembers(d'.sums, d.sums, []);
  }

  lemma {:induction false} LeftIsConfirmed(s: State, p: string, argv: Sum, target: string, sum: Sum)
    requires Leaves(s, p, argv, target) && sum in s.entries[p].sums
    ensures Confirming(s, p, argv, sum)
  {
  }

  lemma {:induction false} OutputIsLeft(states: seq<State>, actions: seq<Action>, i: nat, k: nat, sums: Chain, m: nat,
      o: nat)
    requires i < |actions| && k <= |actions| < |states| && actions[i].Start?
    requires HoldsAt(states, actions, i, k, sums, m) && i < o < k && Outputs(states, actions, i, o)
    ensures actions[o].sum in sums
  {
    assert Remembered(states, actions, i, m, actions[o].sum);
  }

  lemma {:induction false} NothingToRefuse(states: seq<State>, actions: seq<Action>, i: nat, k: nat, sum: Sum,
      p: string)
    requires i < |actions| < |states| && k <= |actions| && actions[i].Start? && actions[i].p != p
    requires forall j :: i < j < k && Preprocesses(actions, i, j) ==> actions[j].sum == sum
    requires forall l :: i < l < k ==> Confirming(states[l], p, actions[i].argv, sum)
    ensures !MustCompile(states, actions, i, k)
  {
    hide Outdated, Changed, Confirming, Offered;
    var q, argv := actions[i].p, actions[i].argv;
    forall l | i < l < k
      ensures !states[l].file.Empty? && !RefusedAt(states, actions, i, l)
    {
      ConfirmingOffers(states[l], p, q, argv, sum);
      assert forall j :: i < j < l && Wanting(states, actions, i, j) ==> actions[j].sum == sum;
    }
  }

  lemma {:induction false} ConfirmingOffers(s: State, p: string, q: string, argv: Sum, sum: Sum)
    requires Confirming(s, p, argv, sum) && q != p
    ensures Offered(s, q, argv, sum) && !s.file.Empty?
  {
    hide Confirmed;
  }

  /** Every output is compiled once: after p has finished with an output it got at o, no process of another path that
      starts with the same arguments and gets the same output calls a compiler, as long as p is left alone. */
  lemma {:induction false} CompiledOnce(states: seq<State>, actions: seq<Action>, i: nat, o: nat, k: nat, i': nat,
      k': nat, meaning: Sum -> int)
    requires Trace(states, actions, meaning) && Initial(states[0], meaning)
    requires Lives(states, actions, i, k) && i < o < k && Outputs(states, actions, i, o)
    requires k < |actions| && actions[k] == UnlockLast(actions[i].p)
    requires k < i' && Lives(states, actions, i', k') && actions[i'].argv == actions[i].argv
    requires forall j :: i' < j < k' && Preprocesses(actions, i', j) ==> actions[j].sum == actions[o].sum
    requires forall l :: k < l < k' ==> actions[l].p != actions[i].p
    ensures !Began(actions, i', k')
  {
    hide Inv, Trace, Initial, HoldsAt, HasDigest, Confirming, Began, MustCompile;
    var p, sum := actions[i].p, actions[o].sum;
    var m := WhatIsLeft(states, actions, i, k, meaning);
    OutputIsLeft(states, actions, i, k, states[k + 1].entries[p].sums, m, o);
    LeftIsConfirmed(states[k + 1], p, actions[i].argv, actions[i].target, sum);
    forall l | i' < l < k'
      ensures Confirming(states[l], p, actions[i'].argv, sum)
    {
      StaysConfirmed(states, actions, k + 1, l, p, actions[i].argv, sum, meaning);
    }
    NothingToRefuse(states, actions, i', k', sum, p);
    WhenCompiled(states, actions, i', k', meaning);
  }

  /** And p itself does not compile again what it has finished, unless its files are taken away. */
  lemma {:induction false} NotTwice(states: seq<State>, actions: seq<Action>, i: nat, o: nat, k: nat, i': nat, k': nat,
      meaning: Sum -> int)
    requires Trace(states, actions, meaning) && Initial(states[0], meaning)
    requires Lives(states, actions, i, k) && i < o < k && Outputs(states, actions, i, o)
    requires k < |actions| && actions[k] == UnlockLast(actions[i].p)
    requires k < i' && Lives(states, actions, i', k')
    requires actions[i'].p == actions[i].p && actions[i'].argv == actions[i].argv
    requires actions[i'].target == actions[i].target
    requires forall j :: i' < j < k' && Preprocesses(actions, i', j) ==> actions[j].sum == actions[o].sum
    requires forall l :: k < l < i' ==> actions[l].p != actions[i].p
    ensures !Began(actions, i', k')
  {
    hide Inv, Trace, Initial, Outputs, HoldsAt, Began, Preprocesses, Offered, HasDigest;
    var p := actions[i].p;
    var m := WhatIsLeft(states, actions, i, k, meaning);
    OutputIsLeft(states, actions, i, k, states[k + 1].entries[p].sums, m, o);
    FilesStay(states, actions, k + 1, i', p, meaning);
    WhenCompiled(states, actions, i', k', meaning);
  }

  lemma {:induction false} FilesStay(states: seq<State>, actions: seq<Action>, i: nat, j: nat, p: string,
      meaning: Sum -> int)
    requires Trace(states, actions, meaning) && i <= j <= |actions| && forall l :: i <= l < j ==> actions[l].p != p
    ensures Lookup(states[j].entries, p) == Lookup(states[i].entries, p)
    ensures Lookup(states[j].objects, p) == Lookup(states[i].objects, p)
    decreases j
  {
    hide Enabled, Next, Trace, Untouched;
    if i < j {
      TraceStep(states, actions, j - 1, meaning);
      FilesStay(states, actions, i, j - 1, p, meaning);
      StepTouches(states[j - 1], actions[j - 1], meaning);
      FilesUntouched(states[j - 1], states[j], actions[j - 1].p, p);
    }
  }
}
