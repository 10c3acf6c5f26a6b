/** Fields that are put together with separators come apart again. */
module FieldLaws {
  import opened Basics
  import opened FieldSplit

  /** The words with a separator between them, and the last one with an end. */
  function Joined(words: seq<string>, sep: string): string {
    if words == [] then [] else words[0] + sep + Joined(words[1..], sep)
  }

  predicate NoneOf(s: string, ifs: string) {
    forall k :: 0 <= k < |s| ==> s[k] !in ifs
  }

  lemma {:induction false} SpaceIs(ifs: string, s: string, at: nat, r: nat)
    requires at <= r <= |s| && (forall k :: at <= k < r ==> IsSpace(ifs, s[k])) && (r < |s| ==> !IsSpace(ifs, s[r]))
    ensures SkipSpace(ifs, s, at) == r
    decreases r - at
  {
    if at < r {
      SpaceIs(ifs, s, at + 1, r);
    }
  }

  lemma {:induction false} OthersAre(ifs: string, s: string, at: nat, r: nat)
    requires at <= r <= |s| && (forall k :: at <= k < r ==> s[k] !in ifs) && (r < |s| ==> s[r] in ifs)
    ensures SkipOthers(ifs, s, at) == r
    decreases r - at
  {
    if at < r {
      OthersAre(ifs, s, at + 1, r);
    }
  }

  lemma {:induction false} FieldsNext(ifs: string, s: string, at: nat)
    requires at <= |s|
    ensures var a := SkipSpace(ifs, s, at);
            Fields(ifs, s, at) ==
            if a == |s| then []
            else var b := SkipOthers(ifs, s, a); [s[a..b]] + Fields(ifs, s, SkipEnd(ifs, s, b))
  {
    hide SkipSpace, SkipOthers, SkipEnd;
  }

  /** A mark that is no white space ends each word, also an empty one. */
  lemma {:induction false} MarksSplit(words: seq<string>, c: char, ifs: string, before: string)
    requires c in ifs && c !in " \t\n" && forall i :: 0 <= i < |words| ==> NoneOf(words[i], ifs)
    ensures Fields(ifs, before + Joined(words, [c]), |before|) == words
    decreases |words|
  {
    hide Fields;
    var s, at := before + Joined(words, [c]), |before|;
    FieldsNext(ifs, s, at);
    if words == [] {
      SpaceIs(ifs, s, at, at);
    } else {
      var w, rest := words[0], Joined(words[1..], [c]);
      var b := at + |w|;
      MarkParts(before, w, c, rest, s);
      SpaceIs(ifs, s, at, at);
      OthersAre(ifs, s, at, b);
      SpaceIs(ifs, s, b, b);
      MarksSplit(words[1..], c, ifs, before + w + [c]);
      assert words == [w] + words[1..];
    }
  }

  lemma {:induction false} MarkParts(before: string, w: string, c: char, rest: string, s: string)
    requires s == before + (w + [c] + rest)
    ensures var at, b := |before|, |before| + |w|;
            && b < |s| && s[at..b] == w && s[b] == c && s == before + w + [c] + rest
            && forall k :: at <= k < b ==> s[k] == w[k - at]
  {
  }

  predicate AllOf(s: string, chars: string) {
    s != [] && forall k :: 0 <= k < |s| ==> s[k] in chars
  }

  /** White space of any length separates words, and makes no empty ones. */
  lemma {:induction false} SpacesSplit(words: seq<string>, sep: string, ifs: string, before: string)
    requires AllOf(sep, " \t\n") && (forall k :: 0 <= k < |sep| ==> sep[k] in ifs)
    requires forall i :: 0 <= i < |words| ==> words[i] != [] && NoneOf(words[i], ifs)
    ensures Fields(ifs, before + Joined(words, sep), |before|) == words
    decreases |words|
  {
    hide Fields, SkipSpace, SkipOthers, SkipEnd, AllOf, Joined;
    var s, at := before + Joined(words, sep), |before|;
    if words == [] {
      NothingJoined(sep);
      FieldsNext(ifs, s, at);
      SpaceIs(ifs, s, at, at);
    } else {
      var w, rest := words[0], Joined(words[1..], sep);
      JoinedStep(words, sep);
      RestStarts(words[1..], sep, ifs);
      OneWord(before, w, sep, rest, ifs, s);
      SpacesSplit(words[1..], sep, ifs, before + w + sep);
      assert s == before + w + sep + rest && |before + w + sep| == at + |w| + |sep|;
      assert words == [w] + words[1..];
    }
  }

  lemma {:induction false} NothingJoined(sep: string)
    ensures Joined([], sep) == []
  {
  }

  lemma {:induction false} JoinedStep(words: seq<string>, sep: string)
    requires words != []
    ensures Joined(words, sep) == words[0] + sep + Joined(words[1..], sep)
  {
  }

  /** The next field is the word, and the one behind it is looked for behind the space. */
  lemma {:induction false} OneWord(before: string, w: string, sep: string, rest: string, ifs: string, s: string)
    requires s == before + (w + sep + rest) && w != [] && NoneOf(w, ifs) && (rest != [] ==> rest[0] !in ifs)
    requires AllOf(sep, " \t\n") && (forall k :: 0 <= k < |sep| ==> sep[k] in ifs)
    ensures |before| + |w| + |sep| <= |s|
    ensures Fields(ifs, s, |before|) == [w] + Fields(ifs, s, |before| + |w| + |sep|)
  {
    hide Fields, SkipSpace, SkipOthers;
    var at, b := |before|, |before| + |w|;
    var e := b + |sep|;
    FieldsNext(ifs, s, at);
    SpaceParts(before, w, sep, rest, s);
    SpaceIs(ifs, s, at, at);
    OthersAre(ifs, s, at, b);
    SpaceIs(ifs, s, b, e);
  }

  lemma {:induction false} RestStarts(words: seq<string>, sep: string, ifs: string)
    requires forall i :: 0 <= i < |words| ==> words[i] != [] && NoneOf(words[i], ifs)
    ensures Joined(words, sep) != [] ==> Joined(words, sep)[0] !in ifs
  {
    if words != [] {
      assert Joined(words, sep)[0] == words[0][0];
    }
  }

  lemma {:induction false} SpaceParts(before: string, w: string, sep: string, rest: string, s: string)
    requires s == before + (w + sep + rest) && sep != [] && w != []
    ensures var at, b := |before|, |before| + |w|;
            var e := b + |sep|;
            && e <= |s| && s[at..b] == w && s == before + w + sep + rest && s[at] == w[0]
            && (forall k :: at <= k < b ==> s[k] == w[k - at]) && (forall k :: b <= k < e ==> s[k] == sep[k - b])
            && (e < |s| ==> rest != [] && s[e] == rest[0])
  {
    var at, b := |before|, |before| + |w|;
    var e := b + |sep|;
    assert s == before + w + sep + rest;
    assert s[at..b] == w && s[b..e] == sep && s[e..] == rest;
    assert forall k :: b <= k < e ==> s[k] == s[b..e][k - b];
  }

  /** With the usual IFS, words come back whatever blanks, tabs and newlines were put behind them. */
  lemma {:induction false} WordsComeBack(words: seq<string>, sep: string)
    requires AllOf(sep, " \t\n") && forall i :: 0 <= i < |words| ==> words[i] != [] && NoneOf(words[i], " \t\n")
    ensures Fields(" \t\n", Joined(words, sep), 0) == words
  {
    SpacesSplit(words, sep, " \t\n", []);
    assert [] + Joined(words, sep) == Joined(words, sep);
  }
}
