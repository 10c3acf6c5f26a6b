/** The cache file over whole runs: why a digest that was in it is gone. */
module ObjCacheHistory {
  import opened Basics
  import opened ObjCache
  import opened ObjCacheProtocol
  import opened ObjCacheTargets

  /** A run with all its states. */
  ghost predicate Trace(states: seq<State>, actions: seq<Action>, meaning: Sum -> int) {
    && |states| == |actions| + 1
    && forall k ::
         0 <= k < |actions| ==>
           Enabled(states[k], actions[k], meaning) && states[k + 1] == Next(states[k], actions[k], meaning)
  }

  /** Every run has its states. */
  lemma {:induction false} RunIsTrace(s: State, actions: seq<Action>, s': State, meaning: Sum -> int)
      returns (states: seq<State>)
    requires Run(s, actions, s', meaning)
    ensures Trace(states, actions, meaning) && states[0] == s && states[|actions|] == s'
    decreases |actions|
  {
    hide Enabled, Next;
    if actions == [] {
      states := [s];
    } else {
      var rest := RunIsTrace(Next(s, actions[0], meaning), actions[1..], s', meaning);
      states := [s] + rest;
      forall k | 0 <= k < |actions|
        ensures Enabled(states[k], actions[k], meaning) && states[k + 1] == Next(states[k], actions[k], meaning)
      {
        if k > 0 {
          assert states[k] == rest[k - 1] && states[k + 1] == rest[k] && actions[k] == actions[1..][k - 1];
        }
      }
    }
  }

  lemma {:induction false} TraceKeeps(states: seq<State>, actions: seq<Action>, k: nat, meaning: Sum -> int)
    requires Trace(states, actions, meaning) && Initial(states[0], meaning) && k <= |actions|
    ensures Inv(states[k], meaning)
  {
    hide Inv, Enabled, Next;
    if k == 0 {
      InitialKeeps(states[0], meaning);
    } else {
      TraceKeeps(states, actions, k - 1, meaning);
      assert states[k - 1 + 1] == Next(states[k - 1], actions[k - 1], meaning);
      StepKeeps(states[k - 1], actions[k - 1], meaning);
    }
  }

  lemma {:induction false} LockIs(s: State, p: string, meaning: Sum -> int)
    requires Inv(s, meaning) && p in s.procs
    ensures s.lock == Some(p) <==> HoldsLock(s.procs[p].phase)
  {
    hide FileOk, MemInv, EntryInv, DiskInv, CopyInv, HoldsLock;
  }

  /** A path is noted as dropped by the search alone, and forgotten with the lock. */
  lemma {:induction false} StepDrops(s: State, a: Action, path: string, meaning: Sum -> int)
    requires Enabled(s, a, meaning) && a.p in Next(s, a, meaning).procs
    requires path in Next(s, a, meaning).procs[a.p].dropped
    requires a.p in s.procs && path in s.procs[a.p].dropped ==> HoldsLock(s.procs[a.p].phase)
    ensures a.p in s.procs && HoldsLock(Next(s, a, meaning).procs[a.p].phase)
    ensures path in s.procs[a.p].dropped || (a.Find? && path in Dropped(a.p, s.procs[a.p], Readable(s)))
  {
    hide Left, Dropped, Answer, Without, FirstFree, Locked, LinesOf, Readable, DigestOf, SumAddChain, Head,
         ComparesEqual;
  }

  /** The search at k dropped the path, and its process has had the lock since, up to m. */
  ghost predicate DroppedAt(states: seq<State>, actions: seq<Action>, k: nat, m: nat, p: string, path: string) {
    && k <= m < |states| == |actions| + 1 && k < |actions| && actions[k] == Find(p) && p in states[k].procs
    && path in Dropped(p, states[k].procs[p], Readable(states[k]))
    && forall l :: k < l <= m ==> states[l].lock == Some(p)
  }

  lemma {:induction false} WhenDropped(states: seq<State>, actions: seq<Action>, m: nat, p: string, path: string,
      meaning: Sum -> int)
      returns (k: nat)
    requires Trace(states, actions, meaning) && Initial(states[0], meaning) && m < |states|
    requires p in states[m].procs && path in states[m].procs[p].dropped
    ensures k < m && DroppedAt(states, actions, k, m, p, path)
    decreases m
  {
    hide Inv, Enabled, Next, Dropped, Readable, HoldsLock, Untouched;
    assert m > 0;
    var s, a := states[m - 1], actions[m - 1];
    assert states[m - 1 + 1] == Next(s, a, meaning);
    TraceKeeps(states, actions, m - 1, meaning);
    TraceKeeps(states, actions, m, meaning);
    LockIs(states[m], p, meaning);
    if a.p != p {
      StepTouches(s, a, meaning);
      UntouchedAt(s, states[m], a.p, p);
      k := WhenDropped(states, actions, m - 1, p, path, meaning);
      LockIs(s, p, meaning);
    } else {
      if p in s.procs && path in s.procs[p].dropped {
        k := WhenDropped(states, actions, m - 1, p, path, meaning);
        LockIs(s, p, meaning);
      }
      StepDrops(s, a, path, meaning);
      if path !in s.procs[p].dropped {
        k := m - 1;
        FindIs(a, p);
      }
    }
  }

  lemma {:induction false} FindIs(a: Action, p: string)
    requires a.Find? && a.p == p
    ensures a == Find(p)
  {
  }

  lemma {:induction false} UntouchedAt(s: State, s': State, p: string, q: string)
    requires Untouched(s, s', p) && q != p
    ensures (q in s'.procs <==> q in s.procs) && (q in s.procs ==> s'.procs[q] == s.procs[q])
  {
  }

  lemma {:induction false} SameTwice(a: Digest, b: Digest, ds: seq<Digest>)
    requires SameDigest(a, b) && Represented(b, ds)
    ensures Represented(a, ds)
  {
    var i :| 0 <= i < |ds| && SameDigest(b, ds[i]);
    assert SameDigest(a, ds[i]);
  }

  /** What the search dropped had promised what was wanted, and its entry did not keep it. */
  ghost predicate BadAt(s: State, p: string, path: string) {
    && p in s.procs
    && exists d :: d in s.procs[p].mem.digests && d.path == path
                   && Matches(d, s.procs[p].argv, Head(s.procs[p].sums)) && !Usable(d, Readable(s))
  }

  lemma {:induction false} DroppedWasBad(s: State, p: string, path: string, meaning: Sum -> int)
    requires Inv(s, meaning) && p in s.procs && path in Dropped(p, s.procs[p], Readable(s))
    ensures BadAt(s, p, path)
  {
    hide Inv, Dropped, Readable, Matches, Usable, EntryInv, DiskInv, CopyInv, FileOk, WellFormed, Head;
    InvAt(s, p, meaning);
    DroppedIsBad(p, s.procs[p], Readable(s), path);
  }

  lemma {:induction false} DroppedHere(states: seq<State>, actions: seq<Action>, i: nat, path: string)
    requires i < |actions| && |states| == |actions| + 1 && actions[i].Find? && actions[i].p in states[i].procs
    requires path in Dropped(actions[i].p, states[i].procs[actions[i].p], Readable(states[i]))
    ensures DroppedAt(states, actions, i, i, actions[i].p, path)
  {
    hide Dropped, Readable;
    FindIs(actions[i], actions[i].p);
  }

  lemma {:induction false} SamePath(a: Digest, b: Digest)
    requires SameDigest(a, b)
    ensures a.path == b.path
  {
  }

  lemma {:induction false} FinderRuns(s: State, a: Action, meaning: Sum -> int)
    requires Enabled(s, a, meaning) && (a.Find? || a.UnlockLast?)
    ensures a.p in s.procs
  {
  }

  /** In every run: when a digest of the file is gone later, a step m between took it out. Either that was a step of
      the digest's own process, or its process had searched at k, without giving back the lock since, and dropped
      the digest because its entry did not keep what it promised. */
  lemma {:induction false} WhyDigestsAreGone(states: seq<State>, actions: seq<Action>, i: nat, j: nat, d: Digest,
      meaning: Sum -> int)
      returns (m: nat, k: nat)
    requires Trace(states, actions, meaning) && Initial(states[0], meaning) && i <= j < |states|
    requires d in DigestsOf(states[i].file) && !Represented(d, DigestsOf(states[j].file))
    ensures i <= m < j && (actions[m].Find? || actions[m].UnlockLast?)
    ensures d.path != actions[m].p ==>
              DroppedAt(states, actions, k, m, actions[m].p, d.path) && BadAt(states[k], actions[m].p, d.path)
    decreases j - i
  {
    hide Inv, Enabled, Next, Dropped, Readable, SameDigest, Represented, DigestsOf, BadAt;
    k, m := 0, i;
    SelfRepresented(d, DigestsOf(states[i].file));
    assert i < j;
    assert states[i + 1] == Next(states[i], actions[i], meaning);
    var f := DigestsOf(states[i + 1].file);
    if Represented(d, f) {
      var same := Representative(d, f);
      if Represented(same, DigestsOf(states[j].file)) {
        SameTwice(d, same, DigestsOf(states[j].file));
      }
      SamePath(d, same);
      m, k := WhyDigestsAreGone(states, actions, i + 1, j, same, meaning);
    } else {
      var a := actions[i];
      TraceKeeps(states, actions, i, meaning);
      WhyDigestsLeave(states[i], a, d, meaning);
      FinderRuns(states[i], a, meaning);
      if d.path != a.p {
        if d.path in states[i].procs[a.p].dropped {
          k := WhenDropped(states, actions, i, a.p, d.path, meaning);
        } else {
          DroppedHere(states, actions, i, d.path);
          k := i;
        }
        TraceKeeps(states, actions, k, meaning);
        DroppedWasBad(states[k], a.p, d.path, meaning);
      }
    }
  }

  lemma {:induction false} Representative(d: Digest, ds: seq<Digest>) returns (r: Digest)
    requires Represented(d, ds)
    ensures r in ds && SameDigest(d, r)
  {
    var i :| 0 <= i < |ds| && SameDigest(d, ds[i]);
    r := ds[i];
  }
}
