/** The table of commands over whole runs of lookups, changes of directory and PATH, and definitions. */
module CmdHashRuns {
  import opened Basics
  import opened CmdHash

  datatype Op = Lookup(name: string, fNoFunc: bool) | Cd | SetPath | Define(name: string)

  /** What a lookup may answer. */
  predicate Given(builtins: set<string>, table: map<string, Entry>, name: string, fNoFunc: bool, answer: Answer) {
    match answer
    case Unknown => true
    case Known(Normal(_)) => true
    case Known(Function) => IsFunction(table, name) && !fNoFunc
    case Known(Builtin) => name in builtins
    case Known(SplBuiltin) => name in table && table[name].cmd.SplBuiltin?
  }

  predicate IsFunction(table: map<string, Entry>, name: string) {
    name in table && table[name].cmd.Function?
  }

  /** What each operation does to the table, as far as functions and marks go. */
  ghost predicate Does(op: Op, builtins: set<string>, table: map<string, Entry>, table': map<string, Entry>) {
    match op
    case Lookup(name, fNoFunc) =>
      exists answer: Answer ::
        Given(builtins, table, name, fNoFunc, answer) && table' == TableAfter(builtins, table, name, fNoFunc, answer)
    case Cd =>
      && table'.Keys == table.Keys
      && (forall n :: n in table && table[n].cmd.Normal? ==> table'[n] == Entry(table[n].cmd, true))
      && (forall n :: n in table && !table[n].cmd.Normal? ==> table'[n] == table[n])
    case SetPath =>
      && (forall n :: n in table' ==> n in table && table'[n] == table[n])
      && (forall n :: n in table && !table[n].cmd.Normal? ==> n in table')
    case Define(name) =>
      table' == if name in table && table[name].cmd.SplBuiltin? then table
                else table[name := Entry(Function, name in table && table[name].rehash)]
  }

  /** The operations of the class are such steps. */
  method CdDoes(hash: CmdTable, dir: string)
    requires hash.Valid()
    modifies hash
    ensures hash.Valid() && Does(Cd, hash.builtins, old(hash.table), hash.table)
  {
    hide HashCd, TableInv;
    hash.ChangeDir(dir);
    assert hash.table.Keys == old(hash.table).Keys;
  }

  method SetPathDoes(hash: CmdTable, newval: string)
    requires hash.Valid() && '\0' !in hash.pathval && '\0' !in newval && '%' !in newval
    modifies hash
    ensures hash.Valid() && Does(SetPath, hash.builtins, old(hash.table), hash.table)
  {
    hide TableInv, CommonComps;
    hash.ChangePath(newval);
  }

  method DefineDoes(hash: CmdTable, name: string)
    requires hash.Valid()
    modifies hash
    ensures hash.Valid() && Does(Define(name), hash.builtins, old(hash.table), hash.table)
  {
    hide TableInv;
    hash.Defun(name);
  }

  method LookupDoes(hash: CmdTable, name: string, fNoFunc: bool, wild: int) returns (entry: Answer)
    requires hash.Valid() && '/' !in name
    modifies hash`table
    ensures Does(Lookup(name, fNoFunc), hash.builtins, old(hash.table), hash.table)
    ensures name in old(hash.table) && old(hash.table)[name].cmd.Function? && !Stale(old(hash.table), name) &&
            !fNoFunc ==>
              entry == Known(Function)
  {
    hide *;
    entry := hash.FindCommand(name, fNoFunc, wild);
    ghost var was, cs, renamed := old(hash.table), Comps(hash.pathval), Renamed(name);
    FreshIsGiven(hash.fs, hash.cwd, cs, hash.builtins, was, name, fNoFunc);
    FreshIsGiven(hash.fs, hash.cwd, cs, hash.builtins, was, name, true);
    FoundIsGiven(cs, renamed, wild, Scan(hash.fs, hash.cwd, cs, renamed, wild, 0), hash.builtins, was, name);
    LookupIs(name, fNoFunc, hash.builtins, was, hash.table, entry);
  }

  lemma {:induction false} FreshIsGiven(fs: Files, cwd: string, cs: seq<string>, builtins: set<string>,
      table: map<string, Entry>, name: string, fNoFunc: bool)
    ensures Given(builtins, table, name, fNoFunc, Fresh(fs, cwd, cs, builtins, table, name, fNoFunc))
    ensures Given(builtins, table, name, true, Fresh(fs, cwd, cs, builtins, table, name, true))
    ensures Given(builtins, table, name, fNoFunc, Fresh(fs, cwd, cs, builtins, table, name, true))
  {
    hide Search;
  }

  lemma {:induction false} FoundIsGiven(cs: seq<string>, renamed: string, wild: int, scan: Option<nat>,
      builtins: set<string>, table: map<string, Entry>, name: string)
    requires scan.Some? ==> scan.value < |cs|
    ensures Stale(table, name) ==> Given(builtins, table, name, false, Found(cs, renamed, wild, Function, scan))
  {
  }

  lemma {:induction false} LookupIs(name: string, fNoFunc: bool, builtins: set<string>, table: map<string, Entry>,
      table': map<string, Entry>, entry: Answer)
    requires Given(builtins, table, name, fNoFunc, entry)
    requires table' == TableAfter(builtins, table, name, fNoFunc, entry)
    ensures Does(Lookup(name, fNoFunc), builtins, table, table')
  {
    hide TableAfter;
  }

  /** A run with all its tables. */
  ghost predicate Runs(tables: seq<map<string, Entry>>, ops: seq<Op>, builtins: set<string>) {
    && |tables| == |ops| + 1
    && (forall name :: name in tables[0] ==> tables[0][name] == Entry(SplBuiltin, false))
    && forall k :: 0 <= k < |ops| ==> Does(ops[k], builtins, tables[k], tables[k + 1])
  }

  /** There is a location with a mark under the name. */
  predicate MarkedLocation(table: map<string, Entry>, name: string) {
    name in table && table[name].cmd.Normal? && table[name].rehash
  }

  // ----- Where marks come from -----------------------------------------------------------------------

  /** One step: a function gets a mark only by being defined over a marked location. */
  lemma {:induction false} StaleStep(op: Op, builtins: set<string>, table: map<string, Entry>,
      table': map<string, Entry>, name: string)
    requires Does(op, builtins, table, table') && Stale(table', name)
    ensures Stale(table, name) || (op == Define(name) && MarkedLocation(table, name)) || Marks(table, name)
  {
  }

  /** A builtin or an unused name with a mark; there are none. */
  predicate Marks(table: map<string, Entry>, name: string) {
    name in table && table[name].rehash && (table[name].cmd.Builtin? || table[name].cmd.SplBuiltin?)
  }

  lemma {:induction false} NoMarksStep(op: Op, builtins: set<string>, table: map<string, Entry>,
      table': map<string, Entry>, name: string)
    requires Does(op, builtins, table, table') && !Marks(table, name)
    ensures !Marks(table', name)
  {
  }

  /** One step: a location gets a mark only from cd. */
  lemma {:induction false} MarkStep(op: Op, builtins: set<string>, table: map<string, Entry>,
      table': map<string, Entry>, name: string)
    requires Does(op, builtins, table, table') && MarkedLocation(table', name)
    ensures MarkedLocation(table, name) || (op == Cd && name in table && table[name].cmd.Normal?)
  {
  }

  lemma {:induction false} NoMarks(tables: seq<map<string, Entry>>, ops: seq<Op>, builtins: set<string>, k: nat,
      name: string)
    requires Runs(tables, ops, builtins) && k <= |ops|
    ensures !Marks(tables[k], name)
  {
    hide Does, Marks;
    if k > 0 {
      NoMarks(tables, ops, builtins, k - 1, name);
      NoMarksStep(ops[k - 1], builtins, tables[k - 1], tables[k - 1 + 1], name);
    } else {
      NoMarksAtFirst(tables[0], name);
    }
  }

  lemma {:induction false} NoMarksAtFirst(table: map<string, Entry>, name: string)
    requires name in table ==> table[name] == Entry(SplBuiltin, false)
    ensures !Marks(table, name) && !Stale(table, name) && !MarkedLocation(table, name)
  {
  }

  /** The location was marked by the cd at c, and has been there since, up to k. */
  ghost predicate MarkedSince(tables: seq<map<string, Entry>>, ops: seq<Op>, c: nat, k: nat, name: string) {
    && c < k < |tables| == |ops| + 1 && ops[c] == Cd
    && name in tables[c] && tables[c][name].cmd.Normal?
    && forall l :: c < l <= k ==> MarkedLocation(tables[l], name)
  }

  lemma {:induction false} WhoMarked(tables: seq<map<string, Entry>>, ops: seq<Op>, builtins: set<string>, k: nat,
      name: string)
      returns (c: nat)
    requires Runs(tables, ops, builtins) && k <= |ops| && MarkedLocation(tables[k], name)
    ensures MarkedSince(tables, ops, c, k, name)
    decreases k
  {
    hide Does, MarkedLocation, Stale;
    NoMarksAtFirst(tables[0], name);
    MarkStep(ops[k - 1], builtins, tables[k - 1], tables[k - 1 + 1], name);
    if MarkedLocation(tables[k - 1], name) {
      c := WhoMarked(tables, ops, builtins, k - 1, name);
    } else {
      c := k - 1;
    }
  }

  /** In every run: a function is stale only since it was defined over a location that an earlier cd had marked. */
  lemma {:induction false} StaleSince(tables: seq<map<string, Entry>>, ops: seq<Op>, builtins: set<string>, k: nat,
      name: string)
      returns (c: nat, d: nat)
    requires Runs(tables, ops, builtins) && k <= |ops| && Stale(tables[k], name)
    ensures d < k && ops[d] == Define(name) && MarkedSince(tables, ops, c, d, name)
    ensures forall l :: d < l <= k ==> Stale(tables[l], name)
    decreases k
  {
    hide Does, MarkedLocation, Stale, Marks;
    NoMarksAtFirst(tables[0], name);
    NoMarks(tables, ops, builtins, k - 1, name);
    StaleStep(ops[k - 1], builtins, tables[k - 1], tables[k - 1 + 1], name);
    if Stale(tables[k - 1], name) {
      c, d := StaleSince(tables, ops, builtins, k - 1, name);
    } else {
      d := k - 1;
      c := WhoMarked(tables, ops, builtins, d, name);
    }
  }

  /** So a function is answered as itself wherever no cd has marked a location of its name. */
  lemma {:induction false} FunctionsAreAnswered(tables: seq<map<string, Entry>>, ops: seq<Op>, builtins: set<string>,
      k: nat, name: string, fs: Files, cwd: string, cs: seq<string>)
    requires Runs(tables, ops, builtins) && k <= |ops| && IsFunction(tables[k], name)
    requires forall c, d :: 0 <= c < d < k && ops[d] == Define(name) ==> !MarkedSince(tables, ops, c, d, name)
    ensures !Stale(tables[k], name) && Fresh(fs, cwd, cs, builtins, tables[k], name, false) == Known(Function)
  {
    hide Does;
    if Stale(tables[k], name) {
      var c, d := StaleSince(tables, ops, builtins, k, name);
    }
  }

  // ----- What becomes of functions --------------------------------------------------------------------

  /** The location found is entered under the name, over a function: lookups that do not want functions do so, and
      those of "kmk_builtin_" and x for a function "kmk_" and x. */
  ghost predicate Overwrites(op: Op, table: map<string, Entry>, table': map<string, Entry>, name: string) {
    && op.Lookup? && name in table' && table'[name].cmd.Normal?
    && Renamed(op.name) == name && (op.fNoFunc || op.name != name || Stale(table, name))
  }

  /** One step: a function stays one unless a location is entered over it, or it is stale and looked up. */
  lemma {:induction false} FunctionStays(op: Op, builtins: set<string>, table: map<string, Entry>,
      table': map<string, Entry>, name: string)
    requires Does(op, builtins, table, table') && IsFunction(table, name)
    ensures IsFunction(table', name) || Overwrites(op, table, table', name)
            || (op == Lookup(name, false) && Stale(table, name))
    ensures IsFunction(table', name) && op != Lookup(name, false) ==> table'[name] == table[name]
  {
  }
}
