/** Where the directories of PATH lead, and which searches a change of directory can touch. */
module CmdHashPaths {
  import opened Basics
  import opened CmdHash

  predicate FromRoot(dir: string) {
    dir != "" && dir[0] == '/'
  }

  /** A directory from the root is the same one everywhere, any other one is seen from the current directory; the
      empty one is the current directory itself. */
  lemma {:induction false} DirsMean(fs: Files, cwd: string, dir: string, name: string)
    requires '/' !in name
    ensures dir == "" ==> Has(fs, cwd, dir, name) == fs.relative(cwd, name)
    ensures FromRoot(dir) ==> Has(fs, cwd, dir, name) == fs.absolute(dir + "/" + name)
    ensures dir != "" && !FromRoot(dir) ==> Has(fs, cwd, dir, name) == fs.relative(cwd, dir + "/" + name)
    ensures IsAbsDir(dir, name) <==> FromRoot(dir)
  {
    if dir == "" {
      assert name != "" ==> name[0] in name;
    } else {
      assert (dir + "/" + name)[0] == dir[0];
    }
  }

  lemma {:induction false} SearchStays(fs: Files, here: string, there: string, cs: seq<string>, name: string)
    requires '/' !in name && forall i :: 0 <= i < |cs| ==> FromRoot(cs[i])
    ensures Search(fs, here, cs, name) == Search(fs, there, cs, name)
  {
    hide Has, FromRoot;
    if cs != [] {
      DirsMean(fs, here, cs[0], name);
      DirsMean(fs, there, cs[0], name);
      SearchStays(fs, here, there, cs[1..], name);
    }
  }

  /** Files everywhere below one directory, and none elsewhere. */
  function OnlyIn(here: string): Files {
    Files(f => false, (cwd, f) => cwd == here)
  }

  lemma {:induction false} SearchMoves(here: string, there: string, cs: seq<string>, name: string, i: nat)
    requires '/' !in name && here != there && i < |cs| && !FromRoot(cs[i])
    ensures Search(OnlyIn(here), here, cs, name).Some? && Search(OnlyIn(here), there, cs, name).None?
  {
    hide Has, FromRoot;
    var fs := OnlyIn(here);
    SearchIs(fs, here, cs, name);
    SearchIs(fs, there, cs, name);
    DirsMean(fs, here, cs[i], name);
    forall k | 0 <= k < |cs|
      ensures !Has(fs, there, cs[k], name)
    {
      DirsMean(fs, there, cs[k], name);
    }
  }

  /** Between two directories a search can differ exactly if a directory of PATH is not from the root. */
  lemma {:induction false} WhatCdTouches(here: string, there: string, cs: seq<string>, name: string)
    requires '/' !in name && here != there
    ensures (forall fs :: Search(fs, here, cs, name) == Search(fs, there, cs, name)) <==>
            (forall i :: 0 <= i < |cs| ==> FromRoot(cs[i]))
  {
    hide Search, FromRoot;
    if i :| 0 <= i < |cs| && !FromRoot(cs[i]) {
      SearchMoves(here, there, cs, name, i);
      assert Search(OnlyIn(here), here, cs, name) != Search(OnlyIn(here), there, cs, name);
    } else {
      forall fs
        ensures Search(fs, here, cs, name) == Search(fs, there, cs, name)
      {
        SearchStays(fs, here, there, cs, name);
      }
    }
  }
}
