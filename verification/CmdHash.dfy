/** The hash of command locations, and the search of PATH it saves. */
module CmdHash {
  import opened Basics

  // ----- PATH ---------------------------------------------------------------------------

  /** The directories of a PATH; the empty one is the current directory. */
  function Comps(path: string): (cs: seq<string>)
    ensures |cs| > 0
  {
    if path == [] then [[]]
    else if path[0] == ':' then [[]] + Comps(path[1..])
    else
      var rest := Comps(path[1..]);
      [[path[0]] + rest[0]] + rest[1..]
  }

  function Full(dir: string, name: string): string {
    if dir == [] then name else dir + "/" + name
  }

  predicate IsAbsPath(path: string) {
    path != [] && path[0] == '/'
  }

  /** Which regular files there are: those with absolute names, and the others by current directory. */
  datatype Files = Files(absolute: string -> bool, relative: (string, string) -> bool)

  predicate IsReg(fs: Files, cwd: string, fullname: string) {
    if IsAbsPath(fullname) then fs.absolute(fullname) else fs.relative(cwd, fullname)
  }

  predicate Has(fs: Files, cwd: string, dir: string, name: string) {
    IsReg(fs, cwd, Full(dir, name))
  }

  /** The first directory that has the command. */
  function Search(fs: Files, cwd: string, cs: seq<string>, name: string): Option<nat> {
    if cs == [] then None
    else if Has(fs, cwd, cs[0], name) then Some(0)
    else
      match Search(fs, cwd, cs[1..], name)
      case None => None
      case Some(i) => Some(i + 1)
  }

  lemma {:induction false} SearchIs(fs: Files, cwd: string, cs: seq<string>, name: string)
    ensures match Search(fs, cwd, cs, name)
            case None => forall i :: 0 <= i < |cs| ==> !Has(fs, cwd, cs[i], name)
            case Some(k) =>
              k < |cs| && Has(fs, cwd, cs[k], name) && forall i :: 0 <= i < k ==> !Has(fs, cwd, cs[i], name)
  {
    hide Has;
    if cs != [] && !Has(fs, cwd, cs[0], name) {
      SearchIs(fs, cwd, cs[1..], name);
      var rest := Search(fs, cwd, cs[1..], name);
      forall i | 0 <= i < |cs| && (rest.Some? ==> i <= rest.value) ensures !Has(fs, cwd, cs[i], name) {
        if i > 0 {
          assert cs[i] == cs[1..][i - 1];
        }
      }
    }
  }

  lemma {:induction false} SearchFinds(fs: Files, cwd: string, cs: seq<string>, name: string, k: nat)
    requires k < |cs| && Has(fs, cwd, cs[k], name) && forall i :: 0 <= i < k ==> !Has(fs, cwd, cs[i], name)
    ensures Search(fs, cwd, cs, name) == Some(k)
  {
    SearchIs(fs, cwd, cs, name);
  }

  // ----- Walking along PATH -----------------------------------------------------------------

  lemma {:induction false} CompsSplit(a: string, b: string)
    ensures Comps(a + ":" + b) == Comps(a) + Comps(b)
  {
    if a == [] {
      assert [] + ":" + b == ":" + b && (":" + b)[1..] == b;
    } else {
      assert (a + ":" + b)[0] == a[0] && (a + ":" + b)[1..] == a[1..] + ":" + b;
      CompsSplit(a[1..], b);
    }
  }

  lemma {:induction false} CompsWhole(a: string)
    requires ':' !in a
    ensures Comps(a) == [a]
  {
    if a != [] {
      assert a == [a[0]] + a[1..];
      assert a[0] in a && forall c :: c in a[1..] ==> c in a;
      CompsWhole(a[1..]);
    }
  }

  /** padvance: the next candidate, and the rest of PATH. */
  method Padvance(path: string, name: string) returns (fullname: string, rest: Option<string>)
    ensures fullname == Full(Comps(path)[0], name)
    ensures rest.None? ==> |Comps(path)| == 1
    ensures rest.Some? ==> Comps(path)[1..] == Comps(rest.value)
  {
    var p := 0;
    while p < |path| && path[p] != ':'
      invariant p <= |path| && ':' !in path[..p]
    {
      assert path[..p + 1] == path[..p] + [path[p]];
      p := p + 1;
    }
    var dir := path[..p];
    CompsWhole(dir);
    fullname := name;
    if p != 0 {
      fullname := dir + "/" + name;
    }
    if p < |path| {
      rest := Some(path[p + 1..]);
      assert path == dir + ":" + path[p + 1..];
      CompsSplit(dir, path[p + 1..]);
    } else {
      rest := None;
      assert path == dir;
    }
  }

  // ----- What a new PATH leaves as it was ----------------------------------------------------

  predicate Ends(a: string) {
    a == [] || a[0] == ':'
  }

  /** The component a starts with. */
  function Head(a: string): string {
    Comps(a)[0]
  }

  lemma {:induction false} CompsFirst(s: string)
    requires s != []
    ensures var y := Comps(s[1..]);
            Comps(s) == if s[0] == ':' then [[]] + y else [[s[0]] + y[0]] + y[1..]
  {
  }

  /** Two lists that agree up to k still do with x in front of them. */
  lemma {:induction false} InFront<T>(x: T, y: seq<T>, z: seq<T>, k: nat)
    requires k <= |y| && k <= |z| && y[..k] == z[..k]
    ensures ([x] + y)[..k + 1] == ([x] + z)[..k + 1]
  {
    assert ([x] + y)[..k + 1] == [x] + y[..k];
    assert ([x] + z)[..k + 1] == [x] + z[..k];
  }

  /** And with another first element. */
  lemma {:induction false} OtherFirst<T>(x: T, y: seq<T>, z: seq<T>, k: nat)
    requires 0 < k <= |y| && k <= |z| && y[..k] == z[..k]
    ensures y[0] == z[0] && ([x] + y[1..])[..k] == ([x] + z[1..])[..k]
  {
    assert y[0] == y[..k][0] && z[0] == z[..k][0];
    assert y[1..][..k - 1] == y[..k][1..] && z[1..][..k - 1] == z[..k][1..];
    InFront(x, y[1..], z[1..], k - 1);
  }

  /** After a common beginning s, the directories are those of s but for the last, which goes on. */
  lemma {:induction false} CompsAfter(s: string, a: string)
    ensures var k := |Comps(s)| - 1;
            && |Comps(s + a)| == k + |Comps(a)|
            && Comps(s + a)[..k] == Comps(s)[..k]
            && Comps(s + a)[k] == Comps(s)[k] + Head(a)
  {
    if s == [] {
      assert s + a == a;
    } else {
      hide Comps;
      assert (s + a)[0] == s[0] && (s + a)[1..] == s[1..] + a;
      CompsFirst(s);
      CompsFirst(s + a);
      CompsAfter(s[1..], a);
      var x, y := Comps(s[1..] + a), Comps(s[1..]);
      var k := |y| - 1;
      if s[0] == ':' {
        InFront([], x, y, k);
      } else if k > 0 {
        OtherFirst([s[0]] + y[0], x, y, k);
      }
    }
  }

  /** The first n directories agree, and n is the most for which they do. */
  ghost predicate CommonComps(a: seq<string>, b: seq<string>, n: nat) {
    n <= |a| && n <= |b| && a[..n] == b[..n] && (n == |a| || n == |b| || a[n] != b[n])
  }

  lemma {:induction false} ColonMore(s: string, c: char)
    ensures |Comps(s + [c])| == |Comps(s)| + (if c == ':' then 1 else 0)
  {
    CompsAfter(s, [c]);
  }

  lemma {:induction false} HeadIs(a: string)
    ensures Ends(a) ==> Head(a) == []
    ensures !Ends(a) ==> Head(a) != [] && Head(a)[0] == a[0]
    ensures |Comps(a)| == 1 <==> ':' !in a
  {
    if ':' !in a {
      CompsWhole(a);
    } else {
      var i :| 0 <= i < |a| && a[i] == ':';
      assert a == a[..i] + ":" + a[i + 1..];
      CompsSplit(a[..i], a[i + 1..]);
    }
  }

  /** Where the two paths first differ: the common directories end there. */
  lemma {:induction false} FirstDifference(s: string, a: string, b: string)
    requires a != b && (a != [] && b != [] ==> a[0] != b[0])
    ensures var k := |Comps(s)| - 1;
            CommonComps(Comps(s + a), Comps(s + b), if Ends(a) && Ends(b) then k + 1 else k)
  {
    hide *;
    CompsAfter(s, a);
    CompsAfter(s, b);
    HeadIs(a);
    HeadIs(b);
    EndsIs(a, b);
    var k := |Comps(s)| - 1;
    CommonFrom(Comps(s + a), Comps(s + b), Comps(s), Head(a), Head(b));
  }

  lemma {:induction false} EndsIs(a: string, b: string)
    requires a != b && (a != [] && b != [] ==> a[0] != b[0])
    ensures Ends(a) && Ends(b) ==> a == [] || b == []
    ensures !(Ends(a) && Ends(b)) ==> a == [] || b == [] || Ends(a) || Ends(b) || a[0] != b[0]
    ensures a == [] ==> Ends(a) && ':' !in a
    ensures b == [] ==> Ends(b) && ':' !in b
  {
  }

  lemma {:induction false} CommonFrom(x: seq<string>, y: seq<string>, c: seq<string>, ha: string, hb: string)
    requires |c| > 0 && |x| >= |c| && |y| >= |c| && x[..|c| - 1] == c[..|c| - 1] == y[..|c| - 1]
    requires x[|c| - 1] == c[|c| - 1] + ha && y[|c| - 1] == c[|c| - 1] + hb
    ensures ha != hb ==> CommonComps(x, y, |c| - 1)
    ensures ha == hb && (|x| == |c| || |y| == |c|) ==> CommonComps(x, y, |c|)
  {
    var k := |c| - 1;
    if ha != hb {
      assert x[k][|c[k]|..] == ha && y[k][|c[k]|..] == hb;
    } else {
      assert x[..k + 1] == x[..k] + [x[k]] && y[..k + 1] == y[..k] + [y[k]];
    }
  }

  // ----- The table --------------------------------------------------------------------------

  datatype Cmd = Normal(index: nat) | Function | Builtin | SplBuiltin

  /** rehash: a cd has been done since the location was looked up. */
  datatype Entry = Entry(cmd: Cmd, rehash: bool)

  /** What find_command answers. */
  datatype Answer = Unknown | Known(cmd: Cmd)

  /** A name with "kmk_builtin_" in front is searched for without the "builtin_". */
  predicate IsRenamed(name: string) {
    12 < |name| < 48 && name[..12] == "kmk_builtin_" && forall c :: c in name[12..] ==> c !in "./\\-:;<>"
  }

  function Renamed(name: string): string {
    if IsRenamed(name) then "kmk_" + name[12..] else name
  }

  /** What is searched for: "kmk_" and x for "kmk_builtin_" and x, as long as that is a short plain word, and every
      other name itself. */
  lemma {:induction false} RenamedIs(x: string)
    ensures 0 < |x| < 36 && (forall c :: c in x ==> c !in "./\\-:;<>") ==> Renamed("kmk_builtin_" + x) == "kmk_" + x
    ensures |x| == 0 || |x| >= 36 || (exists c :: c in x && c in "./\\-:;<>") ==>
              Renamed("kmk_builtin_" + x) == "kmk_builtin_" + x
    ensures !("kmk_builtin_" <= x) ==> Renamed(x) == x
  {
    var name := "kmk_builtin_" + x;
    assert name[..12] == "kmk_builtin_" && name[12..] == x;
    if IsRenamed(x) {
      assert x[..12] <= x;
    }
  }

  /** A location in the table: it is right, or it still is where the current directory does not matter. */
  predicate EntryOk(fs: Files, cwd: string, cs: seq<string>, name: string, index: nat, rehash: bool) {
    if !rehash then Search(fs, cwd, cs, name) == Some(index)
    else
      && index < |cs|
      && (forall i :: 0 <= i < index && IsAbsPath(Full(cs[i], name)) ==> !Has(fs, cwd, cs[i], name))
      && (IsAbsPath(Full(cs[index], name)) ==> Has(fs, cwd, cs[index], name))
  }

  lemma {:induction false} OkAfterCd(fs: Files, cwd: string, cwd': string, cs: seq<string>, name: string, index: nat,
      rehash: bool)
    requires EntryOk(fs, cwd, cs, name, index, rehash)
    ensures EntryOk(fs, cwd', cs, name, index, true)
  {
    SearchIs(fs, cwd, cs, name);
  }

  lemma {:induction false} OkAfterChange(fs: Files, cwd: string, cs: seq<string>, cs': seq<string>, n: nat,
      name: string, index: nat, rehash: bool)
    requires EntryOk(fs, cwd, cs, name, index, rehash) && CommonComps(cs, cs', n) && index < n
    ensures EntryOk(fs, cwd, cs', name, index, rehash)
  {
    assert forall i :: 0 <= i < n ==> cs[i] == cs[..n][i] && cs'[i] == cs'[..n][i];
    SearchIs(fs, cwd, cs, name);
    if !rehash {
      SearchFinds(fs, cwd, cs', name, index);
    }
  }

  function At(s: string, i: nat): char {
    if i < |s| then s[i] else '\0'
  }

  /** The loop of changepath: the number of directories the new PATH keeps, or 9999 if it is the same. */
  method FirstChange(oldval: string, newval: string) returns (firstchange: nat)
    requires '\0' !in oldval && '\0' !in newval
    ensures oldval != newval ==> CommonComps(Comps(oldval), Comps(newval), firstchange)
    ensures oldval == newval ==> firstchange == 9999
  {
    hide *;
    firstchange := 9999;
    var idx := 0;
    var n: nat := 0;
    var fDiffer := false;
    EmptyComps();
    while true
      invariant n <= |newval|
      invariant !fDiffer ==>
                  n <= |oldval| && oldval[..n] == newval[..n] && idx == |Comps(newval[..n])| - 1 && firstchange == 9999
      invariant fDiffer ==> oldval != newval && CommonComps(Comps(oldval), Comps(newval), firstchange)
      decreases |newval| - n
    {
      AtIs(oldval, n);
      AtIs(newval, n);
      if !fDiffer && At(oldval, n) != At(newval, n) {
        Differ(oldval, newval, n);
        firstchange := idx;
        if (At(oldval, n) == '\0' && At(newval, n) == ':') || (At(oldval, n) == ':' && At(newval, n) == '\0') {
          firstchange := firstchange + 1;
        }
        fDiffer := true;
      }
      if At(newval, n) == '\0' {
        break;
      }
      if !fDiffer {
        Same(oldval, newval, n);
      }
      if newval[n] == ':' {
        idx := idx + 1;
      }
      n := n + 1;
    }
  }

  lemma {:induction false} EmptyComps()
    ensures |Comps([])| == 1
  {
  }

  lemma {:induction false} AtIs(s: string, n: nat)
    ensures n < |s| ==> At(s, n) == s[n]
    ensures '\0' !in s ==> (At(s, n) == '\0' <==> n >= |s|)
  {
  }

  lemma {:induction false} Differ(a: string, b: string, n: nat)
    requires n <= |a| && n <= |b| && a[..n] == b[..n] && At(a, n) != At(b, n) && '\0' !in a && '\0' !in b
    ensures var k := |Comps(b[..n])| - 1;
            var boundary := (At(a, n) == '\0' && At(b, n) == ':') || (At(a, n) == ':' && At(b, n) == '\0');
            a != b && CommonComps(Comps(a), Comps(b), if boundary then k + 1 else k)
  {
    assert a == b[..n] + a[n..] && b == b[..n] + b[n..];
    FirstDifference(b[..n], a[n..], b[n..]);
  }

  lemma {:induction false} Same(a: string, b: string, n: nat)
    requires n < |a| && n < |b| && a[..n] == b[..n] && a[n] == b[n]
    ensures a[..n + 1] == b[..n + 1]
    ensures |Comps(b[..n + 1])| == |Comps(b[..n])| + (if b[n] == ':' then 1 else 0)
  {
    assert a[..n + 1] == a[..n] + [a[n]] && b[..n + 1] == b[..n] + [b[n]];
    ColonMore(b[..n], b[n]);
  }

  /** The names the entries may have: no builtin is called kmk_ something. */
  ghost predicate PlainBuiltins(builtins: set<string>) {
    forall b :: b in builtins ==> !("kmk_" <= b)
  }

  ghost predicate EntryInv(fs: Files, cwd: string, cs: seq<string>, builtins: set<string>, name: string, e: Entry) {
    match e.cmd
    case Normal(i) => name !in builtins && !IsRenamed(name) && EntryOk(fs, cwd, cs, name, i, e.rehash)
    case Builtin => name in builtins && !e.rehash
    case SplBuiltin => !e.rehash
    case Function => true
  }

  ghost predicate TableInv(fs: Files, cwd: string, cs: seq<string>, builtins: set<string>, table: map<string, Entry>) {
    forall name :: name in table ==> EntryInv(fs, cwd, cs, builtins, name, table[name])
  }

  /** What find_command would answer without remembered locations. */
  function Fresh(fs: Files, cwd: string, cs: seq<string>, builtins: set<string>, table: map<string, Entry>,
      name: string, fNoFunc: bool): Answer {
    if name in table && (table[name].cmd.SplBuiltin? || (table[name].cmd.Function? && !fNoFunc))
      then Known(table[name].cmd)
    else if name in builtins then Known(Builtin)
    else Searched(Search(fs, cwd, cs, Renamed(name)))
  }

  /** The answer of a search. */
  function Searched(found: Option<nat>): Answer {
    match found
    case None => Unknown
    case Some(i) => Known(Normal(i))
  }

  /** What comes first: a special builtin, then a function that is wanted, then a builtin, then the first directory
      of PATH with the command. */
  lemma {:induction false} AnswerIs(fs: Files, cwd: string, cs: seq<string>, builtins: set<string>,
      table: map<string, Entry>, name: string, fNoFunc: bool)
    ensures var answer := Fresh(fs, cwd, cs, builtins, table, name, fNoFunc);
            var fSpecial := name in table && table[name].cmd.SplBuiltin?;
            var fFunction := name in table && table[name].cmd.Function? && !fNoFunc;
            && (answer == Known(SplBuiltin) <==> fSpecial) && (answer == Known(Function) <==> fFunction)
            && (answer == Known(Builtin) <==> !fSpecial && !fFunction && name in builtins)
            && (!fSpecial && !fFunction && name !in builtins ==>
                && (answer.Unknown? <==> forall i :: 0 <= i < |cs| ==> !Has(fs, cwd, cs[i], Renamed(name)))
                && (forall i: nat :: answer == Known(Normal(i)) <==>
                      && i < |cs| && Has(fs, cwd, cs[i], Renamed(name))
                      && forall j :: 0 <= j < i ==> !Has(fs, cwd, cs[j], Renamed(name))))
  {
    hide Has, Renamed, Search;
    SearchIs(fs, cwd, cs, Renamed(name));
  }

  /** A function defined over a location that a cd had marked: the mark stays on it. */
  predicate Stale(table: map<string, Entry>, name: string) {
    name in table && table[name].cmd.Function? && table[name].rehash
  }

  // ----- The search that spares directories --------------------------------------------------

  predicate IsAbsDir(dir: string, name: string) {
    IsAbsPath(Full(dir, name))
  }

  /** The search of PATH stops at the i-th directory: up to prev, absolute names are not looked at again. */
  predicate Stops(fs: Files, cwd: string, cs: seq<string>, name: string, prev: int, i: nat)
    requires i < |cs|
  {
    if i <= prev && IsAbsDir(cs[i], name) then i == prev else Has(fs, cwd, cs[i], name)
  }

  /** Where the search stops that starts with the i-th directory. */
  function Scan(fs: Files, cwd: string, cs: seq<string>, name: string, prev: int, i: nat): (r: Option<nat>)
    requires i <= |cs|
    ensures r.Some? ==> i <= r.value < |cs|
    decreases |cs| - i
  {
    if i == |cs| then None
    else if Stops(fs, cwd, cs, name, prev, i) then Some(i)
    else Scan(fs, cwd, cs, name, prev, i + 1)
  }

  lemma {:induction false} ScanIs(fs: Files, cwd: string, cs: seq<string>, name: string, prev: int, i: nat)
    requires i <= |cs|
    ensures match Scan(fs, cwd, cs, name, prev, i)
            case None => forall k :: i <= k < |cs| ==> !Stops(fs, cwd, cs, name, prev, k)
            case Some(n) =>
              && n < |cs| && Stops(fs, cwd, cs, name, prev, n)
              && forall k :: i <= k < n ==> !Stops(fs, cwd, cs, name, prev, k)
    decreases |cs| - i
  {
    hide Stops;
    if i < |cs| && !Stops(fs, cwd, cs, name, prev, i) {
      ScanIs(fs, cwd, cs, name, prev, i + 1);
    }
  }

  /** It spares the directories of an entry to be looked up again, and finds what a search of all would find. */
  lemma {:induction false} ScanIsSearch(fs: Files, cwd: string, cs: seq<string>, name: string, prev: int)
    requires prev >= 0 ==> EntryOk(fs, cwd, cs, name, prev, true)
    ensures Scan(fs, cwd, cs, name, prev, 0) == Search(fs, cwd, cs, name)
  {
    hide Has, IsAbsPath;
    ScanIs(fs, cwd, cs, name, prev, 0);
    SearchIs(fs, cwd, cs, name);
    assert forall k :: 0 <= k < |cs| ==> Stops(fs, cwd, cs, name, prev, k) == Has(fs, cwd, cs[k], name);
  }

  /** With any number for prev, the search comes to it without finding the command in a relative directory. */
  predicate ComesTo(fs: Files, cwd: string, cs: seq<string>, name: string, prev: int) {
    && 0 <= prev < |cs| && IsAbsDir(cs[prev], name)
    && forall i :: 0 <= i < prev && !IsAbsDir(cs[i], name) ==> !Has(fs, cwd, cs[i], name)
  }

  /** An absolute directory that is passed over, or stopped at, makes a difference: it has the command, before any
      other, or prev stands in front of the one that has. */
  predicate Misled(fs: Files, cwd: string, cs: seq<string>, name: string, prev: int) {
    match Search(fs, cwd, cs, name)
    case None => 0 <= prev < |cs| && IsAbsDir(cs[prev], name)
    case Some(j) => j < |cs| && ((0 <= prev < j && IsAbsDir(cs[prev], name)) || (j <= prev && IsAbsDir(cs[j], name)))
  }

  /** What the answer is where the search stops, for an entry with the command cmd. */
  function Found(cs: seq<string>, name: string, prev: int, cmd: Cmd, scan: Option<nat>): Answer
    requires scan.Some? ==> scan.value < |cs|
  {
    match scan
    case None => Unknown
    case Some(i) => if i <= prev && IsAbsDir(cs[i], name) then Known(cmd) else Known(Normal(i))
  }

  /** With any number in the place of the index of a function: exactly when the function is answered, and exactly
      when the answer is that of a search of all directories. */
  lemma {:induction false} FunctionAnswered(fs: Files, cwd: string, cs: seq<string>, name: string, prev: int)
    ensures var answer := Found(cs, name, prev, Function, Scan(fs, cwd, cs, name, prev, 0));
            && (answer == Known(Function) <==> ComesTo(fs, cwd, cs, name, prev))
            && (answer == Searched(Search(fs, cwd, cs, name)) <==> !Misled(fs, cwd, cs, name, prev))
  {
    hide Has, IsAbsDir, Search;
    ScanIs(fs, cwd, cs, name, prev, 0);
    SearchIs(fs, cwd, cs, name);
    var scan, search := Scan(fs, cwd, cs, name, prev, 0), Search(fs, cwd, cs, name);
    if 0 <= prev < |cs| && IsAbsDir(cs[prev], name) {
      assert Stops(fs, cwd, cs, name, prev, prev);
      assert scan.Some? ==> scan.value <= prev;
    }
    if ComesTo(fs, cwd, cs, name, prev) {
      assert forall i :: 0 <= i < prev ==> !Stops(fs, cwd, cs, name, prev, i);
      assert scan == Some(prev as nat);
    } else if scan.Some? && scan.value == prev && IsAbsDir(cs[prev], name) {
      forall i | 0 <= i < prev && !IsAbsDir(cs[i], name) ensures !Has(fs, cwd, cs[i], name) {
        assert !Stops(fs, cwd, cs, name, prev, i);
      }
    }
    if search.Some? && !(search.value <= prev && IsAbsDir(cs[search.value], name)) {
      assert Stops(fs, cwd, cs, name, prev, search.value);
    }
  }

  /** The table after a search: the location found, or the mark gone, or, if fEntry, the entry. */
  function Remembered(table: map<string, Entry>, name: string, fEntry: bool, answer: Answer): map<string, Entry> {
    match answer
    case Unknown => if fEntry then map n | n in table && n != name :: table[n] else table
    case Known(Normal(i)) => table[Renamed(name) := Entry(Normal(i), false)]
    case Known(cmd) => table[name := Entry(cmd, false)]
  }

  /** The entry that find_command goes by. */
  function EntryFor(table: map<string, Entry>, name: string, fNoFunc: bool): Option<Entry> {
    if name in table && !(table[name].cmd.Function? && fNoFunc) then Some(table[name]) else None
  }

  /** The table after find_command. */
  function TableAfter(builtins: set<string>, table: map<string, Entry>, name: string, fNoFunc: bool,
      answer: Answer): map<string, Entry> {
    var cmdp := EntryFor(table, name, fNoFunc);
    if cmdp.Some? && !cmdp.value.rehash then table
    else if name in builtins then
      if name in table && table[name].cmd.Function? then table else table[name := Entry(Builtin, false)]
    else Remembered(table, name, cmdp.Some?, answer)
  }

  class CmdTable {
    const fs: Files
    const builtins: set<string>
    var table: map<string, Entry>
    var pathval: string
    var cwd: string

    constructor (fs: Files, builtins: set<string>, special: set<string>, pathval: string, cwd: string)
      requires PlainBuiltins(builtins)
      ensures Valid() && this.fs == fs && this.builtins == builtins && this.pathval == pathval && this.cwd == cwd
      ensures table == map name | name in special :: Entry(SplBuiltin, false)
    {
      this.fs, this.builtins, this.pathval, this.cwd := fs, builtins, pathval, cwd;
      table := map name | name in special :: Entry(SplBuiltin, false);
    }

    ghost predicate Valid()
      reads this
    {
      PlainBuiltins(builtins) && TableInv(fs, cwd, Comps(pathval), builtins, table)
    }

    /** hashcd, called by cd. */
    method ChangeDir(dir: string)
      requires Valid()
      modifies this
      ensures Valid() && cwd == dir && pathval == old(pathval)
      ensures table == map name | name in old(table) :: HashCd(old(table)[name])
      ensures forall name :: name in table <==> name in old(table)
      ensures forall name :: name in table && table[name].cmd.Normal? ==>
                table[name] == Entry(old(table)[name].cmd, true)
      ensures forall name :: name in table && !table[name].cmd.Normal? ==> table[name] == old(table)[name]
      ensures forall name :: Stale(table, name) <==> Stale(old(table), name)
    {
      cwd := dir;
      table := map name | name in table :: HashCd(table[name]);
      forall name | name in table ensures EntryInv(fs, cwd, Comps(pathval), builtins, name, table[name]) {
        assert EntryInv(fs, old(cwd), Comps(pathval), builtins, name, old(table)[name]);
        var e := old(table)[name];
        if e.cmd.Normal? {
          OkAfterCd(fs, old(cwd), cwd, Comps(pathval), name, e.cmd.index, e.rehash);
        }
      }
    }

    /** changepath and the assignment that follows it; clearcmdentry drops what lies behind the change. */
    method ChangePath(newval: string)
      requires Valid() && '\0' !in pathval && '\0' !in newval && '%' !in newval
      modifies this
      ensures Valid() && pathval == newval && cwd == old(cwd)
      ensures forall name :: name in table ==> name in old(table) && table[name] == old(table)[name]
      ensures forall name :: name in old(table) && !old(table)[name].cmd.Normal? ==> name in table
      ensures newval == old(pathval) ==>
                forall name :: name in old(table) ==>
                  (name in table <==> (old(table)[name].cmd.Normal? ==> old(table)[name].cmd.index < 9999))
      ensures newval != old(pathval) ==>
                exists n ::
                  (CommonComps(Comps(old(pathval)), Comps(newval), n)
                   && forall name :: name in old(table) ==>
                        (name in table <==> (old(table)[name].cmd.Normal? ==> old(table)[name].cmd.index < n)))
    {
      var firstchange := FirstChange(pathval, newval);
      table := map name | name in table && !Behind(table[name], firstchange) :: table[name];
      pathval := newval;
      forall name | name in table ensures EntryInv(fs, cwd, Comps(pathval), builtins, name, table[name]) {
        assert EntryInv(fs, cwd, Comps(old(pathval)), builtins, name, old(table)[name]);
        var e := table[name];
        if e.cmd.Normal? && newval != old(pathval) {
          OkAfterChange(fs, cwd, Comps(old(pathval)), Comps(pathval), firstchange, name, e.cmd.index, e.rehash);
        }
      }
    }

    /** defun: a function is entered over whatever there was, but a special builtin. */
    method Defun(name: string)
      requires Valid()
      modifies this
      ensures Valid() && pathval == old(pathval) && cwd == old(cwd)
      ensures table == if name in old(table) && old(table)[name].cmd.SplBuiltin? then old(table)
                       else old(table)[name := Entry(Function, name in old(table) && old(table)[name].rehash)]
    {
      var e := if name in table then table[name] else Entry(Function, false);
      if e.cmd != SplBuiltin {
        table := table[name := e.(cmd := Function)];
      }
    }

    /** find_command for a name without a slash. wild is what a stale function has in place of an index. The
        table is right afterwards exactly if a location answered is the right one, found by the name it is
        entered under. */
    method FindCommand(name: string, fNoFunc: bool, wild: int) returns (entry: Answer)
      requires Valid() && '/' !in name
      modifies this`table
      ensures !Stale(old(table), name) ==> entry == Fresh(fs, cwd, Comps(pathval), builtins, old(table), name, fNoFunc)
      ensures Stale(old(table), name) && (fNoFunc || name in builtins) ==>
                entry == Fresh(fs, cwd, Comps(pathval), builtins, old(table), name, true)
      ensures Stale(old(table), name) && !fNoFunc && name !in builtins ==>
                var cs, renamed := Comps(pathval), Renamed(name);
                && entry == Found(cs, renamed, wild, Function, Scan(fs, cwd, cs, renamed, wild, 0))
                && (entry == Known(Function) <==> ComesTo(fs, cwd, cs, renamed, wild))
                && (entry == Fresh(fs, cwd, cs, builtins, old(table), name, true) <==>
                    !Misled(fs, cwd, cs, renamed, wild))
      ensures name in old(table) && old(table)[name].cmd.Function? && !Stale(old(table), name) && !fNoFunc ==>
                entry == Known(Function)
      ensures table == TableAfter(builtins, old(table), name, fNoFunc, entry)
      ensures Valid() <==> (entry.Known? && entry.cmd.Normal? ==>
                              && !IsRenamed(Renamed(name))
                              && entry == Searched(Search(fs, cwd, Comps(pathval), Renamed(name))))
    {
      hide *;
      ghost var was, cs, renamed := table, Comps(pathval), Renamed(name);
      var cmdp: Option<Entry> := None;
      if name in table {
        cmdp := Some(table[name]);
        if table[name].cmd.Function? && fNoFunc {
          cmdp := None;
        }
      }
      ValidIs(was);
      EntryIs(fs, cwd, cs, builtins, was, name, fNoFunc);
      if cmdp.Some? && !cmdp.value.rehash {
        Answered(fs, cwd, cs, builtins, was, name, fNoFunc);
        return Known(cmdp.value.cmd);
      }
      if name in builtins {
        BuiltinAnswered(fs, cwd, cs, builtins, was, name, fNoFunc);
        if !(name in table && table[name].cmd.Function?) {
          table := table[name := Entry(Builtin, false)];
        }
        ValidIs(table);
        return Known(Builtin);
      }
      var prev := -1;
      if cmdp.Some? {
        prev := if cmdp.value.cmd.Normal? then cmdp.value.cmd.index else wild;
      }
      PathAnswered(fs, cwd, cs, builtins, was, name, fNoFunc, prev);
      FunctionAnswered(fs, cwd, cs, renamed, prev);
      entry := SearchPath(name, cmdp, prev);
      RememberedIsRight(fs, cwd, cs, builtins, was, name, cmdp.Some?, entry);
      ValidIs(table);
    }

    /** The search of PATH in find_command. An entry to be looked up again spares the directories with
        absolute names up to prev. */
    method SearchPath(name: string, cmdp: Option<Entry>, prev: int) returns (entry: Answer)
      requires cmdp.None? ==> prev < 0
      requires cmdp.Some? && cmdp.value.cmd.Normal? ==> Renamed(name) == name && prev == cmdp.value.cmd.index
      modifies this`table
      ensures var cs, renamed := Comps(pathval), Renamed(name);
              entry == Found(cs, renamed, prev, if cmdp.Some? then cmdp.value.cmd else Function,
                  Scan(fs, cwd, cs, renamed, prev, 0))
      ensures table == Remembered(old(table), name, cmdp.Some?, entry)
      ensures var cs, renamed := Comps(pathval), Renamed(name);
              (prev >= 0 ==> cmdp.value.cmd.Normal? && EntryOk(fs, cwd, cs, renamed, prev, true)) ==>
                entry == Searched(Search(fs, cwd, cs, renamed))
    {
      hide *;
      ghost var cs := Comps(pathval);
      var renamed := Renamed(name);
      CompsAre();
      FoundIsSearch(fs, cwd, cs, renamed, cmdp, prev);
      var path, idx := Some(pathval), -1;
      while path.Some?
        invariant -1 <= idx < |cs| && table == old(table)
        invariant path.Some? ==> Comps(path.value) == cs[idx + 1..]
        invariant path.None? ==> idx + 1 == |cs|
        invariant Scan(fs, cwd, cs, renamed, prev, idx + 1) == Scan(fs, cwd, cs, renamed, prev, 0)
        decreases |cs| - idx, path.Some?
      {
        var fullname;
        fullname, path := Padvance(path.value, renamed);
        idx := idx + 1;
        StopsIs(cs, renamed, prev, idx);
        FoundHere(table, cs, name, cmdp, prev, idx);
        if idx <= prev && IsAbsPath(fullname) {
          if idx < prev {
            continue;
          }
          table := table[name := cmdp.value.(rehash := false)];
          return Known(cmdp.value.cmd);
        }
        if !IsReg(fs, cwd, fullname) {
          continue;
        }
        table := table[renamed := Entry(Normal(idx), false)];
        return Known(Normal(idx));
      }
      if cmdp.Some? {
        table := map n | n in table && n != name :: table[n];
      }
      entry := Unknown;
      NothingFound(old(table), fs, cwd, cs, name, renamed, prev, if cmdp.Some? then cmdp.value.cmd else Function,
          cmdp.Some?);
    }

    lemma {:induction false} CompsAre()
      ensures |Comps(pathval)| > 0
    {
    }

    lemma {:induction false} ValidIs(t: map<string, Entry>)
      ensures Valid() && t == table ==> TableInv(fs, cwd, Comps(pathval), builtins, t) && PlainBuiltins(builtins)
      ensures t == table && TableInv(fs, cwd, Comps(pathval), builtins, t) && PlainBuiltins(builtins) ==> Valid()
    {
    }

    /** What the i-th directory does to the search. */
    lemma {:induction false} StopsIs(cs: seq<string>, name: string, prev: int, i: nat)
      requires i < |cs|
      ensures var fullname := Full(cs[i], name);
              && (IsAbsDir(cs[i], name) <==> IsAbsPath(fullname))
              && Scan(fs, cwd, cs, name, prev, i) ==
                 if (if i <= prev && IsAbsPath(fullname) then i == prev else IsReg(fs, cwd, fullname)) then Some(i)
                 else Scan(fs, cwd, cs, name, prev, i + 1)
    {
      hide IsReg, Full, IsAbsPath;
    }
  }

  // ----- The ends of find_command -----------------------------------------------------------------

  lemma {:induction false} FoundHere(was: map<string, Entry>, cs: seq<string>, name: string, cmdp: Option<Entry>,
      prev: int, i: nat)
    requires i < |cs|
    requires cmdp.Some? && cmdp.value.cmd.Normal? ==> Renamed(name) == name && prev == cmdp.value.cmd.index
    requires cmdp.None? ==> prev < 0
    ensures var (renamed, cmd) := (Renamed(name), if cmdp.Some? then cmdp.value.cmd else Function);
            && (i == prev && IsAbsDir(cs[i], renamed) ==>
                  && cmdp.Some? && Found(cs, renamed, prev, cmd, Some(i)) == Known(cmd)
                  && was[name := cmdp.value.(rehash := false)] == Remembered(was, name, true, Known(cmd)))
            && (!(i <= prev && IsAbsDir(cs[i], renamed)) ==>
                  && Found(cs, renamed, prev, cmd, Some(i)) == Known(Normal(i))
                  && was[renamed := Entry(Normal(i), false)] == Remembered(was, name, cmdp.Some?, Known(Normal(i))))
  {
    hide Renamed, IsAbsDir;
  }

  lemma {:induction false} NothingFound(was: map<string, Entry>, fs: Files, cwd: string, cs: seq<string>, name: string,
      renamed: string, prev: int, cmd: Cmd, fEntry: bool)
    ensures Scan(fs, cwd, cs, renamed, prev, |cs|) == None && Found(cs, renamed, prev, cmd, None) == Unknown
    ensures Remembered(was, name, fEntry, Unknown) == if fEntry then map n | n in was && n != name :: was[n] else was
  {
  }

  /** The entry of a name that is looked up. */
  lemma {:induction false} EntryIs(fs: Files, cwd: string, cs: seq<string>, builtins: set<string>,
      was: map<string, Entry>, name: string, fNoFunc: bool)
    requires TableInv(fs, cwd, cs, builtins, was)
    ensures EntryFor(was, name, fNoFunc) ==
              if name in was && !(was[name].cmd.Function? && fNoFunc) then Some(was[name]) else None
    ensures var cmdp := EntryFor(was, name, fNoFunc);
            && (cmdp.Some? ==> name in was && cmdp.value == was[name])
            && (cmdp.Some? && cmdp.value.cmd.Normal? ==>
                  !IsRenamed(name) && Renamed(name) == name &&
                  EntryOk(fs, cwd, cs, name, cmdp.value.cmd.index, cmdp.value.rehash))
            && (cmdp.Some? && cmdp.value.cmd.Function? ==> !fNoFunc)
            && (cmdp.Some? && cmdp.value.rehash ==> cmdp.value.cmd.Normal? || Stale(was, name))
            && (Stale(was, name) <==> name in was && was[name].cmd.Function? && was[name].rehash)
  {
    hide EntryOk, IsRenamed;
    if name in was {
      assert EntryInv(fs, cwd, cs, builtins, name, was[name]);
    }
  }

  /** An entry without a mark is answered. */
  lemma {:induction false} Answered(fs: Files, cwd: string, cs: seq<string>, builtins: set<string>,
      was: map<string, Entry>, name: string, fNoFunc: bool)
    requires TableInv(fs, cwd, cs, builtins, was)
    requires var cmdp := EntryFor(was, name, fNoFunc); cmdp.Some? && !cmdp.value.rehash
    ensures var answer := Known(EntryFor(was, name, fNoFunc).value.cmd);
            && !Stale(was, name) && answer == Fresh(fs, cwd, cs, builtins, was, name, fNoFunc)
            && was == TableAfter(builtins, was, name, fNoFunc, answer)
            && (answer.cmd.Normal? ==>
                !IsRenamed(Renamed(name)) && answer == Searched(Search(fs, cwd, cs, Renamed(name))))
  {
    hide Search, IsRenamed;
    assert EntryInv(fs, cwd, cs, builtins, name, was[name]);
  }

  /** A builtin is answered before PATH is searched. */
  lemma {:induction false} BuiltinAnswered(fs: Files, cwd: string, cs: seq<string>, builtins: set<string>,
      was: map<string, Entry>, name: string, fNoFunc: bool)
    requires TableInv(fs, cwd, cs, builtins, was) && name in builtins
    requires var cmdp := EntryFor(was, name, fNoFunc); cmdp.Some? ==> cmdp.value.rehash
    ensures Known(Builtin) == Fresh(fs, cwd, cs, builtins, was, name, fNoFunc || Stale(was, name))
    ensures var table := TableAfter(builtins, was, name, fNoFunc, Known(Builtin));
            && table == (if name in was && was[name].cmd.Function? then was else was[name := Entry(Builtin, false)])
            && TableInv(fs, cwd, cs, builtins, table)
  {
    hide Search, EntryOk;
    if name in was {
      assert EntryInv(fs, cwd, cs, builtins, name, was[name]);
    }
  }

  /** PATH has been searched: the answer is that of a full search, but for a stale function. */
  lemma {:induction false} PathAnswered(fs: Files, cwd: string, cs: seq<string>, builtins: set<string>,
      was: map<string, Entry>, name: string, fNoFunc: bool, prev: int)
    requires TableInv(fs, cwd, cs, builtins, was) && name !in builtins
    requires var cmdp := EntryFor(was, name, fNoFunc);
             && (cmdp.Some? ==> cmdp.value.rehash) && (cmdp.None? ==> prev < 0)
             && (cmdp.Some? && cmdp.value.cmd.Normal? ==> prev == cmdp.value.cmd.index)
    ensures var (cmdp, renamed) := (EntryFor(was, name, fNoFunc), Renamed(name));
            var answer := Found(cs, renamed, prev, if cmdp.Some? then cmdp.value.cmd else Function,
                Scan(fs, cwd, cs, renamed, prev, 0));
            && (!(Stale(was, name) && !fNoFunc) ==> answer == Searched(Search(fs, cwd, cs, renamed)))
            && (!Stale(was, name) ==> answer == Fresh(fs, cwd, cs, builtins, was, name, fNoFunc))
            && Searched(Search(fs, cwd, cs, renamed)) ==
                 (if Stale(was, name) then Fresh(fs, cwd, cs, builtins, was, name, true) else answer)
            && (Stale(was, name) && !fNoFunc ==> cmdp.Some? && cmdp.value.cmd.Function?)
            && (answer.Known? ==> answer.cmd.Normal? || answer.cmd.Function?)
            && TableAfter(builtins, was, name, fNoFunc, answer) == Remembered(was, name, cmdp.Some?, answer)
  {
    hide Search, Scan, EntryOk, Renamed, IsAbsDir, TableInv, Remembered;
    EntryIs(fs, cwd, cs, builtins, was, name, fNoFunc);
    var cmdp := EntryFor(was, name, fNoFunc);
    if !(Stale(was, name) && !fNoFunc) {
      MarkedIsOk(fs, cwd, cs, builtins, was, name, cmdp);
      FoundIsSearch(fs, cwd, cs, Renamed(name), cmdp, prev);
    }
  }

  lemma {:induction false} MarkedIsOk(fs: Files, cwd: string, cs: seq<string>, builtins: set<string>,
      was: map<string, Entry>, name: string, cmdp: Option<Entry>)
    requires TableInv(fs, cwd, cs, builtins, was)
    requires cmdp.Some? ==> name in was && cmdp.value == was[name] && cmdp.value.rehash
    ensures cmdp.Some? && cmdp.value.cmd.Normal? ==>
              Renamed(name) == name && EntryOk(fs, cwd, cs, name, cmdp.value.cmd.index, true)
  {
    hide EntryOk, IsRenamed;
    if cmdp.Some? {
      assert EntryInv(fs, cwd, cs, builtins, name, was[name]);
    }
  }

  /** Up to prev the search stops at a directory with an absolute name only if that is the one. */
  lemma {:induction false} StopsAtPrev(fs: Files, cwd: string, cs: seq<string>, name: string, prev: int)
    ensures var scan := Scan(fs, cwd, cs, name, prev, 0);
            scan.Some? && scan.value <= prev && IsAbsDir(cs[scan.value], name) ==> scan.value == prev
  {
    hide Has, IsAbsDir;
    ScanIs(fs, cwd, cs, name, prev, 0);
  }

  /** With an index that can be relied on, or without one, the search finds what a search of all would find. */
  lemma {:induction false} FoundIsSearch(fs: Files, cwd: string, cs: seq<string>, name: string, cmdp: Option<Entry>,
      prev: int)
    requires cmdp.None? ==> prev < 0
    requires cmdp.Some? && cmdp.value.cmd.Normal? ==> prev == cmdp.value.cmd.index
    ensures (prev >= 0 ==> cmdp.value.cmd.Normal? && EntryOk(fs, cwd, cs, name, prev, true)) ==>
              Found(cs, name, prev, if cmdp.Some? then cmdp.value.cmd else Function, Scan(fs, cwd, cs, name, prev, 0))
              == Searched(Search(fs, cwd, cs, name))
  {
    hide Search, Scan, EntryOk, IsAbsDir;
    if prev >= 0 ==> cmdp.value.cmd.Normal? && EntryOk(fs, cwd, cs, name, prev, true) {
      ScanIsSearch(fs, cwd, cs, name, prev);
      StopsAtPrev(fs, cwd, cs, name, prev);
    }
  }

  /** Exactly when the table is right after a search. */
  lemma {:induction false} RememberedIsRight(fs: Files, cwd: string, cs: seq<string>, builtins: set<string>,
      was: map<string, Entry>, name: string, fEntry: bool, answer: Answer)
    requires TableInv(fs, cwd, cs, builtins, was) && PlainBuiltins(builtins) && name !in builtins
    requires answer.Known? ==> answer.cmd.Normal? || answer.cmd.Function?
    ensures TableInv(fs, cwd, cs, builtins, Remembered(was, name, fEntry, answer)) <==>
            (answer.Known? && answer.cmd.Normal? ==>
               !IsRenamed(Renamed(name)) && answer == Searched(Search(fs, cwd, cs, Renamed(name))))
  {
    hide Search, IsRenamed;
    RenamedIsNoBuiltin(builtins, name);
    var table := Remembered(was, name, fEntry, answer);
    if answer.Known? && answer.cmd.Normal? {
      hide Renamed;
      var r := Renamed(name);
      assert forall n :: n in table && n != r ==> n in was && table[n] == was[n];
      assert EntryInv(fs, cwd, cs, builtins, r, table[r]) <==>
               !IsRenamed(r) && answer == Searched(Search(fs, cwd, cs, r));
    } else {
      assert forall n :: n in table ==> (n in was && table[n] == was[n]) || table[n].cmd.Function?;
    }
  }

  lemma {:induction false} RenamedIsNoBuiltin(builtins: set<string>, name: string)
    requires PlainBuiltins(builtins) && name !in builtins
    ensures Renamed(name) !in builtins
  {
    if IsRenamed(name) {
      assert "kmk_" <= Renamed(name);
    }
  }

  predicate Behind(e: Entry, n: nat) {
    e.cmd.Normal? && e.cmd.index >= n
  }

  function HashCd(e: Entry): Entry {
    if e.cmd.Normal? then e.(rehash := true) else e
  }

  // ----- A function defined over a marked location ----------------------------------------------------

  lemma {:induction false} OneDir(fs: Files, cwd: string, prev: int)
    requires fs.absolute("/bin/ls")
    ensures Comps("/bin") == ["/bin"] && Full("/bin", "ls") == "/bin/ls" && IsAbsDir("/bin", "ls")
    ensures Search(fs, cwd, ["/bin"], "ls") == Some(0) && Renamed("ls") == "ls" && '/' !in "ls"
    ensures ComesTo(fs, cwd, ["/bin"], "ls", prev) <==> prev == 0
    ensures Found(["/bin"], "ls", prev, Function, Scan(fs, cwd, ["/bin"], "ls", prev, 0)) ==
            if prev < 0 then Known(Normal(0)) else if prev == 0 then Known(Function) else Unknown
  {
    CompsWhole("/bin");
    assert "/bin" + "/" + "ls" == "/bin/ls";
    assert Has(fs, cwd, "/bin", "ls");
  }

  lemma {:induction false} FirstLookup(fs: Files)
    requires fs.absolute("/bin/ls")
    ensures Fresh(fs, "/", Comps("/bin"), {}, map[], "ls", false) == Known(Normal(0)) && !Stale(map[], "ls")
    ensures TableAfter({}, map[], "ls", false, Known(Normal(0))) == map["ls" := Entry(Normal(0), false)]
  {
    OneDir(fs, "/", -1);
    hide Search, Comps;
  }

  lemma {:induction false} SecondLookup(table: map<string, Entry>, answer: Answer)
    requires table == map["ls" := Entry(Function, true)]
    requires answer == Unknown || answer == Known(Function) || answer == Known(Normal(0))
    ensures Stale(table, "ls")
    ensures TableAfter({}, table, "ls", false, answer) ==
              if answer.Unknown? then map[] else map["ls" := Entry(answer.cmd, false)]
  {
    assert Renamed("ls") == "ls";
  }

  lemma {:induction false} MarkedAndDefined(table: map<string, Entry>)
    requires table == map["ls" := Entry(Normal(0), false)]
    ensures var marked := map name | name in table :: HashCd(table[name]); marked == map["ls" := Entry(Normal(0), true)]
  {
  }

  /** A command is looked up, cd marks its location, and a function of its name is defined: what stands in the
      place of the index decides whether the command is answered, the function, or nothing. */
  method StaleFunction(wild: int) returns (answer: Answer, table: map<string, Entry>)
    ensures answer == if wild < 0 then Known(Normal(0)) else if wild == 0 then Known(Function) else Unknown
    ensures table == if answer.Unknown? then map[] else map["ls" := Entry(answer.cmd, false)]
  {
    hide *;
    var fs := Files(p => p == "/bin/ls", (_, _) => false);
    NoBuiltins();
    OneDir(fs, "/tmp", wild);
    FirstLookup(fs);
    var hash := new CmdTable(fs, {}, {}, "/bin", "/");
    assert hash.table == map[];
    answer := hash.FindCommand("ls", false, wild);
    LocationRight(fs, answer);
    MarkedAndDefined(hash.table);
    hash.ChangeDir("/tmp");
    hash.Defun("ls");
    assert hash.table == map["ls" := Entry(Function, true)];
    ghost var stale := hash.table;
    SecondLookup(stale, if wild < 0 then Known(Normal(0)) else if wild == 0 then Known(Function) else Unknown);
    answer := hash.FindCommand("ls", false, wild);
    table := hash.table;
  }

  lemma {:induction false} NoBuiltins()
    ensures PlainBuiltins({})
  {
  }

  lemma {:induction false} LocationRight(fs: Files, answer: Answer)
    requires fs.absolute("/bin/ls") && answer == Known(Normal(0))
    ensures !IsRenamed(Renamed("ls")) && answer == Searched(Search(fs, "/", Comps("/bin"), Renamed("ls")))
  {
    OneDir(fs, "/", -1);
  }
}
