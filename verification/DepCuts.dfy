/** Chunks that end inside a line: exactly when the scanner loses its state, and what that costs. */
module DepCuts {
  import opened Basics
  import opened DepScan

  // ----- What is left behind after a chunk --------------------------------------------------------

  /** At k the line is given up, or the name in it is complete, and the chunk goes on without ending the line. */
  ghost predicate LostAt(r: Reader, chunk: string, k: nat) {
    && k < |chunk| && '\n' !in chunk[k..]
    && Feed(r, chunk[..k], 0).state != NeedNewLine && Feed(r, chunk[..k + 1], 0).state == NeedNewLine
    && (k + 1 == |chunk| ==> Feed(r, chunk[..k], 0).state != NeedEndQuote)
  }

  /** The next state, one character further. */
  lemma {:induction false} Further(r: Reader, chunk: string, k: nat)
    requires k < |chunk|
    ensures Feed(r, chunk[..k + 1], 0) == Step(Feed(r, chunk[..k], 0), chunk[k])
  {
    LastStep(r, chunk[..k + 1]);
    assert chunk[..k + 1][..k] == chunk[..k];
  }

  lemma {:induction false} OnlyNewLineEnds(r: Reader, c: char)
    requires r.state == NeedNewLine
    ensures Step(r, c).state == NeedNewLine <==> c != '\n'
  {
  }

  /** Once the line is given up, it stays given up until it ends. */
  lemma {:induction false} StaysLost(r: Reader, chunk: string, k: nat, n: nat)
    requires k <= n <= |chunk| && Feed(r, chunk[..k], 0).state == NeedNewLine && '\n' !in chunk[k..]
    ensures Feed(r, chunk[..n], 0).state == NeedNewLine
    decreases n - k
  {
    hide Feed, Step;
    if k < n {
      assert chunk[k..][0] == chunk[k] && chunk[k..][1..] == chunk[k + 1..];
      Further(r, chunk, k);
      OnlyNewLineEnds(Feed(r, chunk[..k], 0), chunk[k]);
      StaysLost(r, chunk, k + 1, n);
    }
  }

  /** Where the reader began to look for the end of the line. */
  lemma {:induction false} GivenUpWhere(r: Reader, chunk: string, n: nat) returns (k: nat)
    requires n <= |chunk| && Feed(r, chunk[..n], 0).state == NeedNewLine && r.state != NeedNewLine
    ensures k < n && '\n' !in chunk[k + 1..n]
    ensures Feed(r, chunk[..k], 0).state != NeedNewLine && Feed(r, chunk[..k + 1], 0).state == NeedNewLine
  {
    hide Feed, Step;
    if n == 0 {
      assert chunk[..n] == [];
      FeedNothing(r, [], 0);
    } else {
      Further(r, chunk, n - 1);
      if Feed(r, chunk[..n - 1], 0).state == NeedNewLine {
        k := GivenUpWhere(r, chunk, n - 1);
        OnlyNewLineEnds(Feed(r, chunk[..n - 1], 0), chunk[n - 1]);
        assert chunk[k + 1..n] == chunk[k + 1..n - 1] + [chunk[n - 1]];
      } else {
        k := n - 1;
        assert chunk[k + 1..n] == [];
      }
    }
  }

  lemma {:induction false} NotAtNewLine(r: Reader, c: char)
    requires r.state != NeedNewLine && Step(r, c).state == NeedNewLine
    ensures c != '\n'
  {
  }

  /** For every reader and chunk: what is left behind is right, unless the reader was inside a line, gave it up
      or found its name in this chunk, and the line went on to the end of the chunk. */
  lemma {:induction false} StateIsKept(r: Reader, chunk: string)
    ensures After(r, chunk) == Feed(r, chunk, 0) <==> r.state == NeedNewLine || !exists k :: LostAt(r, chunk, k)
  {
    hide Feed, LostAt;
    var n := |chunk|;
    assert chunk[..n] == chunk;
    if r.state != NeedNewLine && exists k :: LostAt(r, chunk, k) {
      var k :| LostAt(r, chunk, k);
      Lost(r, chunk, k);
    } else if r.state != NeedNewLine && Feed(r, chunk, 0).state == NeedNewLine {
      var k := GivenUpWhere(r, chunk, n);
      Further(r, chunk, k);
      NotAtNewLine(Feed(r, chunk[..k], 0), chunk[k]);
      assert chunk[k..] == [chunk[k]] + chunk[k + 1..n];
      NotLost(r, chunk, k);
    }
  }

  /** The chunk does not end inside a line that is given up or named in it. */
  ghost predicate Keeps(r: Reader, chunk: string) {
    r.state == NeedNewLine || !exists k :: LostAt(r, chunk, k)
  }

  /** In the text as a whole, no chunk ends inside a line that is given up or named in it. */
  ghost predicate AllKeep(r: Reader, chunks: seq<string>) {
    forall i :: 0 <= i < |chunks| ==> Keeps(Feed(r, Concat(chunks[..i]), 0), chunks[i])
  }

  /** Behind every chunk the scanner is where the text as a whole would have it. */
  ghost predicate AlwaysRight(r: Reader, chunks: seq<string>) {
    forall i :: 0 <= i <= |chunks| ==> AfterAll(r, chunks[..i]) == Feed(r, Concat(chunks[..i]), 0)
  }

  lemma {:induction false} UpToLast(r: Reader, chunks: seq<string>)
    requires chunks != []
    ensures var init, last := chunks[..|chunks| - 1], chunks[|chunks| - 1];
            && (AllKeep(r, chunks) <==> AllKeep(r, init) && Keeps(Feed(r, Concat(init), 0), last))
            && (AlwaysRight(r, chunks) <==> AlwaysRight(r, init) && AfterAll(r, chunks) == Feed(r, Concat(chunks), 0))
            && (AlwaysRight(r, init) ==> AfterAll(r, init) == Feed(r, Concat(init), 0))
  {
    hide Feed, Keeps, AfterAll, Concat;
    var init := chunks[..|chunks| - 1];
    assert forall i :: 0 <= i <= |init| ==> init[..i] == chunks[..i];
    assert init[..|init|] == init && chunks[..|chunks|] == chunks;
  }

  /** However often a text is cut: the scanner is right behind every chunk if and only if no chunk loses it. */
  lemma {:induction false} AnyCuts(r: Reader, chunks: seq<string>)
    ensures AlwaysRight(r, chunks) <==> AllKeep(r, chunks)
    decreases |chunks|
  {
    hide Feed, Keeps, AfterAll, Concat, After, AllKeep, AlwaysRight;
    if chunks == [] {
      NothingCut(r);
    } else {
      var init, last := chunks[..|chunks| - 1], chunks[|chunks| - 1];
      UpToLast(r, chunks);
      AnyCuts(r, init);
      if AlwaysRight(r, init) {
        var f := Feed(r, Concat(init), 0);
        StateIsKept(f, last);
        KeepsIs(f, last);
        OneMore(r, chunks);
        assert init + [last] == chunks;
        ConcatSnoc(init, last);
        FeedConcat(r, Concat(init), last, 0);
      }
    }
  }

  lemma {:induction false} NothingCut(r: Reader)
    ensures AlwaysRight(r, []) && AllKeep(r, [])
  {
    var none: seq<string> := [];
    assert forall i :: 0 <= i <= 0 ==> none[..i] == [];
    FeedNothing(r, [], 0);
  }

  lemma {:induction false} KeepsIs(r: Reader, chunk: string)
    ensures Keeps(r, chunk) <==> r.state == NeedNewLine || !exists k :: LostAt(r, chunk, k)
  {
    hide LostAt;
  }

  lemma {:induction false} OneMore(r: Reader, chunks: seq<string>)
    requires chunks != []
    ensures AfterAll(r, chunks) == After(AfterAll(r, chunks[..|chunks| - 1]), chunks[|chunks| - 1])
  {
    hide After;
  }

  lemma {:induction false} Lost(r: Reader, chunk: string, k: nat)
    requires LostAt(r, chunk, k)
    ensures Feed(r, chunk, 0).state == NeedNewLine && !Stored(r, chunk)
  {
    hide Feed;
    var n := |chunk|;
    assert chunk[..n] == chunk && chunk[k..][1..] == chunk[k + 1..];
    StaysLost(r, chunk, k + 1, n);
    if k + 1 < n {
      StaysLost(r, chunk, k + 1, n - 1);
    }
  }

  lemma {:induction false} NotLost(r: Reader, chunk: string, k: nat)
    requires k < |chunk| && '\n' !in chunk[k..] && !LostAt(r, chunk, k)
    requires Feed(r, chunk[..k], 0).state != NeedNewLine && Feed(r, chunk[..k + 1], 0).state == NeedNewLine
    ensures Stored(r, chunk)
  {
    hide Feed;
  }

  // ----- A text in two chunks -----------------------------------------------------------------------

  /** The first name that is new is this one, unless it is known already. */
  predicate NextNew(deps: seq<string>, name: string, names: seq<string>)
    decreases |names|
  {
    name in deps || (names != [] && (names[0] == name || (names[0] in deps && NextNew(deps, name, names[1..]))))
  }

  lemma {:induction false} AddAllKeeps(deps: seq<string>, names: seq<string>)
    ensures deps <= AddAll(deps, names)
    decreases |names|
  {
    if names != [] {
      AddAllKeeps(DepAdd(deps, names[0]), names[1..]);
    }
  }

  /** Adding a name first makes no difference exactly when it is known, or the next to come anyway. */
  lemma {:induction false} AddedFirst(deps: seq<string>, name: string, names: seq<string>)
    ensures AddAll(DepAdd(deps, name), names) == AddAll(deps, names) <==> NextNew(deps, name, names)
    decreases |names|
  {
    if name !in deps {
      var more := deps + [name];
      AddAllKeeps(more, names);
      if names != [] {
        var m := names[0];
        if m in deps {
          AddedFirst(deps, name, names[1..]);
        } else if m != name {
          AddAllKeeps(deps + [m], names[1..]);
          assert AddAll(deps, names)[|deps|] == (deps + [m])[|deps|] == m;
          assert AddAll(more, names)[|deps|] == more[|deps|] == name;
        }
      }
    }
  }

  /** The reader has given the line up when only p of it has come, or has found its name before the last
      character of p. */
  predicate LostLine(p: string) {
    && Feed(START, p, 0).state == NeedNewLine
    && p != [] && Feed(START, p[..|p| - 1], 0).state != NeedEndQuote
  }

  /** Two readers in the same state and name go through the same states. */
  lemma {:induction false} SameStates(r: Reader, q: Reader, s: string, i: nat)
    requires r.state == q.state && r.name == q.name && i <= |s|
    ensures Feed(r, s, i).state == Feed(q, s, i).state && Feed(r, s, i).name == Feed(q, s, i).name
    decreases |s| - i
  {
    hide Unescape, Escaped;
    if i < |s| {
      SameStates(Step(r, s[i]), Step(q, s[i]), s, i + 1);
    }
  }

  /** Between names nothing is left in the buffer. */
  lemma {:induction false} NoName(r: Reader, s: string, i: nat)
    requires i <= |s| && (r.state != NeedEndQuote ==> r.name == [])
    ensures Feed(r, s, i).state != NeedEndQuote ==> Feed(r, s, i).name == []
    decreases |s| - i
  {
    hide Unescape, Escaped;
    if i < |s| {
      NoName(Step(r, s[i]), s, i + 1);
    }
  }

  lemma {:induction false} DepsAfter(r: Reader, chunk: string)
    ensures After(r, chunk).deps == Feed(r, chunk, 0).deps
  {
    hide Feed;
  }

  lemma {:induction false} TwoChunks(r: Reader, a: string, b: string)
    ensures AfterAll(r, [a, b]) == After(After(r, a), b) && AfterAll(r, [a]) == After(r, a)
  {
    var none: seq<string> := [];
    hide After;
    assert [a][..0] == none && AfterAll(r, none) == r;
    assert [a, b][..1] == [a];
  }

  /** Without a loss the cut does not matter; with one the rest of the line is read as a line of its own. */
  lemma {:induction false} CutState(r: Reader, first: string, p: string)
    requires r.state == NeedHash && r.name == [] && START == Reader(NeedHash, [], [], None)
    requires Feed(START, first, 0) == r
    ensures var f := Feed(r, p, 0);
            After(START, first + p) == if LostLine(p) then f.(state := NeedHash) else f
  {
    hide Feed;
    FeedConcat(START, first, p, 0);
    SameStates(START, r, p, 0);
    if p != [] {
      var n := |first + p| - 1;
      assert (first + p)[..n] == first + p[..|p| - 1];
      FeedConcat(START, first, p[..|p| - 1], 0);
      SameStates(START, r, p[..|p| - 1], 0);
    } else {
      FeedNothing(r, p, 0);
      FeedNothing(START, p, 0);
      assert first + p == first;
    }
  }

  /** A text cut inside one of its lines, after p: the names collected are those of the whole text if and only
      if the line is not lost, or its rest is no directive, or names what is known or comes next anyway. */
  lemma {:induction false} CutInTwo(ls: seq<string>, p: string, q: string, ms: seq<string>)
    requires AllClose(ls + [p + q] + ms) && ClosesQuote(q)
    ensures var cut := AfterAll(START, [Unlines(ls) + p, q + "\n" + Unlines(ms)]).deps;
            var whole := AfterAll(START, [Unlines(ls + [p + q] + ms)]).deps;
            cut == whole <==>
              !LostLine(p) || LineName(q).None? ||
              NextNew(AddAll([], Names(ls + [p + q])), Unescape(LineName(q).value), Names(ms))
  {
    hide *;
    StartIs();
    var first, second := Unlines(ls) + p, q + "\n" + Unlines(ms);
    PartsClose(ls, p, q, ms);
    TextIs(START, ls);
    var r := Feed(START, Unlines(ls), 0);
    NameGone(START, Unlines(ls));
    CutState(r, Unlines(ls), p);
    TwoChunks(START, first, second);
    TwoChunks(START, Unlines(ls + [p + q] + ms), []);
    DepsAfter(After(START, first), second);
    DepsAfter(START, Unlines(ls + [p + q] + ms));
    WholeText(r, ls, p, q, ms);
    if LostLine(p) {
      LostRest(r, ls, p, q, ms);
      if LineName(q).Some? {
        AddedFirst(AddAll([], Names(ls + [p + q])), Unescape(LineName(q).value), Names(ms));
      }
    }
  }

  lemma {:induction false} PartsClose(ls: seq<string>, p: string, q: string, ms: seq<string>)
    requires AllClose(ls + [p + q] + ms)
    ensures AllClose(ls) && AllClose(ls + [p + q]) && AllClose(ms) && '\n' !in p && '\n' !in q
    ensures ClosesQuote(q) ==> AllClose([q] + ms)
  {
    hide ClosesQuote;
    var all := ls + [p + q] + ms;
    assert all[|ls|] == p + q;
    forall i | 0 <= i < |ls| ensures ls[i] == all[i] {
    }
    forall i | 0 <= i < |ms| ensures ms[i] == all[|ls| + 1 + i] {
    }
    forall c | c in p || c in q ensures c in p + q {
    }
  }

  lemma {:induction false} NameGone(r: Reader, s: string)
    requires r.name == []
    ensures Feed(r, s, 0).state == NeedHash ==> Feed(r, s, 0).name == []
  {
    hide Feed;
    NoName(r, s, 0);
  }

  lemma {:induction false} UnlinesOf(ls: seq<string>, p: string, q: string, ms: seq<string>)
    ensures Unlines(ls + [p + q] + ms) == Unlines(ls) + p + (q + "\n" + Unlines(ms))
    ensures Unlines(ls + [p + q]) == Unlines(ls) + (p + q + "\n")
    ensures Unlines([q] + ms) == q + "\n" + Unlines(ms)
    decreases |ls|
  {
    if ls == [] {
      assert ls + [p + q] + ms == [p + q] + ms && ([p + q] + ms)[1..] == ms && ls + [p + q] == [p + q];
      assert ([q] + ms)[1..] == ms;
    } else {
      assert (ls + [p + q] + ms)[1..] == ls[1..] + [p + q] + ms && (ls + [p + q])[1..] == ls[1..] + [p + q];
      UnlinesOf(ls[1..], p, q, ms);
    }
  }

  /** The whole text is what the two chunks are together. */
  lemma {:induction false} WholeText(r: Reader, ls: seq<string>, p: string, q: string, ms: seq<string>)
    requires Feed(START, Unlines(ls), 0) == r
    ensures Feed(START, Unlines(ls + [p + q] + ms), 0) == Feed(Feed(r, p, 0), q + "\n" + Unlines(ms), 0)
  {
    hide Feed;
    UnlinesOf(ls, p, q, ms);
    FeedConcat(START, Unlines(ls) + p, q + "\n" + Unlines(ms), 0);
    FeedConcat(START, Unlines(ls), p, 0);
  }

  /** After a loss: the rest of the line counts for nothing in the whole text, and as a line when it is cut off. */
  lemma {:induction false} LostRest(r: Reader, ls: seq<string>, p: string, q: string, ms: seq<string>)
    requires START == Reader(NeedHash, [], [], None) && Feed(START, Unlines(ls), 0) == r && r.state == NeedHash
    requires r.name == []
    requires AllClose(ls) && AllClose(ls + [p + q]) && AllClose(ms) && AllClose([q] + ms) && '\n' !in q && LostLine(p)
    ensures var f, deps := Feed(r, p, 0), AddAll([], Names(ls + [p + q]));
            && Feed(f, q + "\n" + Unlines(ms), 0).deps == AddAll(deps, Names(ms))
            && Feed(f.(state := NeedHash), q + "\n" + Unlines(ms), 0).deps ==
               (if LineName(q).None? then AddAll(deps, Names(ms))
                   else AddAll(DepAdd(deps, Unescape(LineName(q).value)), Names(ms)))
  {
    var f := Feed(r, p, 0);
    var x := f.(state := NeedHash);
    SameStates(START, r, p, 0);
    hide *;
    LostState(p);
    NoName(r, p, 0);
    LineIsOver(f, q);
    UnlinesOf(ls, p, q, ms);
    FeedConcat(START, Unlines(ls), p + q + "\n", 0);
    assert p + q + "\n" == p + (q + "\n");
    FeedConcat(r, p, q + "\n", 0);
    TextIs(START, ls + [p + q]);
    LastIsKnown(START, Unlines(ls + [p + q]), 0);
    FeedConcat(f, q + "\n", Unlines(ms), 0);
    TextIs(x, ms);
    TextIs(x, [q] + ms);
    NamesNext(x.deps, [q] + ms);
    assert ([q] + ms)[0] == q && ([q] + ms)[1..] == ms;
  }

  lemma {:induction false} LostState(p: string)
    requires LostLine(p)
    ensures Feed(START, p, 0).state == NeedNewLine
  {
    hide Feed;
  }

  lemma {:induction false} LineIsOver(f: Reader, q: string)
    requires f.state == NeedNewLine && '\n' !in q
    ensures Feed(f, q + "\n", 0) == f.(state := NeedHash)
  {
    hide Feed;
    RestOfLine(f, q + "\n", q, 0);
  }

  lemma {:induction false} LastIsKnown(r: Reader, s: string, i: nat)
    requires i <= |s| && (r.last.Some? ==> r.last.value in r.deps)
    ensures Feed(r, s, i).last.Some? ==> Feed(r, s, i).last.value in Feed(r, s, i).deps
    decreases |s| - i
  {
    hide Unescape, Escaped;
    if i < |s| {
      LastIsKnown(Step(r, s[i]), s, i + 1);
    }
  }

  /** Cut inside a line, it does matter: the rest of the line is taken for a line of its own. */
  lemma {:induction false} CutInsideLine()
    ensures var whole := "x# 1 \"a\"\n";
            && AfterAll(START, [whole]).deps == []
            && AfterAll(START, ["x", whole[1..]]).deps == ["a"]
  {
    var line := "x# 1 \"a\"";
    assert NumberAt(line) == None;
    LineIs(START, line);
    assert line + "\n" == "x# 1 \"a\"\n";
    var whole := "x# 1 \"a\"\n";
    var none: seq<string> := [];
    assert [whole][..0] == none && ["x", whole[1..]][..1] == ["x"] && ["x"][..0] == none;
    LineEndIsStored(START, whole);
    assert Feed(START, "x", 0) == Feed(Step(START, 'x'), "x", 1) == START.(state := NeedNewLine);
    assert "x"[..0] == [];
    assert Feed(START, [], 0) == START;
    assert After(START, "x") == START;
    var rest := "# 1 \"a\"";
    assert whole[1..] == rest + "\n";
    LineEndIsStored(START, whole[1..]);
    RestIsDirective();
    LineIs(START, rest);
  }

  lemma {:induction false} RestIsDirective()
    ensures LineName("# 1 \"a\"") == Some("a") && ClosesQuote("# 1 \"a\"")
    ensures LineResult(START, "# 1 \"a\"").deps == ["a"]
  {
    var s := "# 1 \"a\"";
    assert SkipBlanks(s, 0) == 0 && SkipBlanks(s, 1) == 2;
    assert NumberAt(s) == Some(2);
    assert SkipDigits(s, 2) == 3 && SkipBlanks(s, 3) == 4;
    assert NameAt(s) == Some(5);
    assert s[5..6] == "a" && Backslashes("a", 1) == 0;
    assert EndQuote(s, 5, 6) == 6;
    assert s[5..5] == [] && EndQuote(s, 5, 5) == 6;
    assert "a"[1..] == [] && Unescape("a") == "a";
  }
}
