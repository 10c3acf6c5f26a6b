/** What the characters of a shell pattern stand for. */
module PatternLaws {
  import opened Basics
  import opened PatternMatch

  predicate IsPlain(c: char) {
    c != CTLESC && c != CTLQUOTEMARK && c != '?' && c != '*' && c != '['
  }

  /** An ordinary or an escaped character stands for itself, a question mark for any one character, a star for any
      string; a quote mark for nothing, and a bracket without an end for itself. */
  lemma {:induction false} CharactersMean(p: string, i: nat, s: string, j: nat)
    requires i <= |p| && j <= |s|
    ensures i == |p| ==> (MatchesAt(p, i, s, j) <==> j == |s|)
    ensures i < |p| && IsPlain(p[i]) ==>
              (MatchesAt(p, i, s, j) <==> j < |s| && s[j] == p[i] && MatchesAt(p, i + 1, s, j + 1))
    ensures i + 1 < |p| && p[i] == CTLESC ==>
              (MatchesAt(p, i, s, j) <==> j < |s| && s[j] == p[i + 1] && MatchesAt(p, i + 2, s, j + 1))
    ensures i < |p| && p[i] == CTLQUOTEMARK ==> (MatchesAt(p, i, s, j) <==> MatchesAt(p, i + 1, s, j))
    ensures i < |p| && p[i] == '?' ==> (MatchesAt(p, i, s, j) <==> j < |s| && MatchesAt(p, i + 1, s, j + 1))
    ensures i < |p| && p[i] == '*' ==>
              (MatchesAt(p, i, s, j) <==> StarAt(p, i + 1, s, j))
    ensures i < |p| && p[i] == '[' && (i + 1 < |p| ==> p[i + 1] != '!') && NoneBehind(p, i + 1) ==>
              (MatchesAt(p, i, s, j) <==> j < |s| && s[j] == '[' && MatchesAt(p, i + 1, s, j + 1))
  {
    hide Matches;
    if i == |p| {
      MatchesNothing(s[j..]);
    } else if IsPlain(p[i]) {
      OneAt(p, i, i + 1, Lit(p[i]), s, j);
    } else if p[i] == CTLESC {
      if i + 1 < |p| {
        OneAt(p, i, i + 2, Lit(p[i + 1]), s, j);
      }
    } else if p[i] == '?' {
      OneAt(p, i, i + 1, AnyChar, s, j);
    } else if p[i] == '*' {
      StarIs(p, i, s, j);
    } else if p[i] == '[' {
      if (i + 1 < |p| ==> p[i + 1] != '!') && NoneBehind(p, i + 1) {
        NeverCloses(p, i + 1);
        OneAt(p, i, i + 1, Lit('['), s, j);
      }
    }
  }

  /** No bracket closes a list whose first member stands at x. */
  predicate NoneBehind(p: string, x: nat) {
    forall k :: x < k < |p| ==> p[k] != ']'
  }

  lemma {:induction false} NeverCloses(p: string, x: nat)
    requires NoneBehind(p, x)
    ensures CloseAt(p, x).None?
    decreases |p| - x
  {
    if x < |p| {
      NeverCloses(p, CharAt(p, x) + 1);
    }
  }

  /** A word of ordinary characters matches itself and nothing else. */
  lemma {:induction false} WordsMean(p: string, i: nat, s: string, j: nat)
    requires i <= |p| && j <= |s| && forall k :: i <= k < |p| ==> IsPlain(p[k])
    ensures MatchesAt(p, i, s, j) <==> p[i..] == s[j..]
    decreases |p| - i
  {
    hide MatchesAt;
    CharactersMean(p, i, s, j);
    if i < |p| {
      if j < |s| {
        WordsMean(p, i + 1, s, j + 1);
        assert p[i..] == [p[i]] + p[i + 1..] && s[j..] == [s[j]] + s[j + 1..];
      }
    } else {
      assert p[i..] == [];
    }
  }

  /** The matcher can take every pattern in which nothing is quoted. */
  lemma {:induction false} UnquotedIsSound(p: string, i: nat)
    requires i <= |p| && forall k :: 0 <= k < |p| ==> p[k] != CTLESC && p[k] != CTLQUOTEMARK && p[k] != NUL
    ensures Sound(p, i)
    decreases |p| - i
  {
    if i < |p| {
      UnquotedIsSound(p, i + 1);
      if p[i] == '[' {
        var close := CloseAt(p, FirstMember(p, i + 1));
        if close.Some? {
          UnquotedIsSound(p, close.value + 1);
        }
      }
    }
  }

  // ----- Lists --------------------------------------------------------------------------------------

  predicate IsMember(c: char) {
    c != CTLESC && c != CTLQUOTEMARK && c != '-' && c != '!' && c != ']'
  }

  lemma {:induction false} ListCloses(p: string, x: nat, close: nat)
    requires x < close < |p| && p[close] == ']' && forall k :: x < k < close ==> p[k] != ']'
    requires forall k :: x <= k < close ==> p[k] != CTLESC
    ensures CloseAt(p, x) == Some(close)
    decreases close - x
  {
    if x + 1 < close {
      ListCloses(p, x + 1, close);
    }
  }

  lemma {:induction false} ListMembers(p: string, x: nat, close: nat, c: char)
    requires x <= close && OnTrack(p, x, close) && forall k :: x <= k < close ==> p[k] != CTLESC && p[k] != '-'
    ensures InRanges(Members(p, x, close), c) <==> c in p[x..close]
    decreases close - x
  {
    if x < close {
      Advance(p, x, close);
      ListMembers(p, x + 1, close, c);
      var rest := Members(p, x + 1, close);
      assert Members(p, x, close) == [Range(p[x], p[x])] + rest;
      RangesMore(Range(p[x], p[x]), rest, c);
      assert p[x..close] == [p[x]] + p[x + 1..close];
    } else {
      assert p[x..close] == [];
    }
  }

  lemma {:induction false} RangesMore(r: Range, rest: seq<Range>, c: char)
    ensures InRanges([r] + rest, c) <==> r.lo <= c <= r.hi || InRanges(rest, c)
  {
    var rs := [r] + rest;
    if r.lo <= c <= r.hi {
      assert rs[0] == r;
    }
    if InRanges(rest, c) {
      var i :| 0 <= i < |rest| && rest[i].lo <= c <= rest[i].hi;
      assert rs[i + 1] == rest[i];
    }
  }

  lemma {:induction false} ListPiece(p: string, i: nat, fInvert: bool, x: nat, close: nat)
    requires i + 1 < |p| && p[i] == '[' && (fInvert <==> p[i + 1] == '!') && x == (if fInvert then i + 2 else i + 1)
    requires CloseAt(p, x) == Some(close)
    ensures OnTrack(p, x, close)
    ensures PiecesFrom(p, i) == [Class(fInvert, Members(p, x, close))] + PiecesFrom(p, close + 1)
  {
    hide Members;
    assert FirstMember(p, i + 1) == x;
  }

  /** A list stands for one of its characters, with an exclamation mark in front for any other. A bracket may be
      its first character. */
  lemma {:induction false} ListsMean(p: string, i: nat, fInvert: bool, close: nat, s: string, j: nat)
    requires var x := if fInvert then i + 2 else i + 1;
             && i < x < close < |p| && p[i] == '[' && p[close] == ']' && (fInvert <==> p[i + 1] == '!')
             && (IsMember(p[x]) || p[x] == ']') && forall k :: x < k < close ==> IsMember(p[k])
    requires j <= |s|
    ensures var x := if fInvert then i + 2 else i + 1;
            MatchesAt(p, i, s, j) <==> j < |s| && (s[j] in p[x..close]) != fInvert && MatchesAt(p, close + 1, s, j + 1)
  {
    hide Matches, Members, InRanges, PiecesFrom, CloseAt, MatchesAt, OnTrack;
    var x := if fInvert then i + 2 else i + 1;
    ListCloses(p, x, close);
    ListPiece(p, i, fInvert, x, close);
    OneAt(p, i, close + 1, Class(fInvert, Members(p, x, close)), s, j);
    if j < |s| {
      ListMembers(p, x, close, s[j]);
    }
  }

  /** A range stands for one of the characters from its first to its last. */
  lemma {:induction false} RangesMean(p: string, i: nat, s: string, j: nat)
    requires i + 4 < |p| && j <= |s| && p[i] == '[' && p[i + 2] == '-' && p[i + 4] == ']'
    requires IsMember(p[i + 1]) && IsMember(p[i + 3])
    ensures MatchesAt(p, i, s, j) <==> j < |s| && p[i + 1] <= s[j] <= p[i + 3] && MatchesAt(p, i + 5, s, j + 1)
  {
    hide Matches, InRanges;
    var x, close := i + 1, i + 4;
    ListCloses(p, x, close);
    var r := Range(p[i + 1], p[i + 3]);
    assert Members(p, close, close) == [];
    assert Members(p, x, close) == [r] + [];
    OneAt(p, i, close + 1, Class(false, [r] + []), s, j);
    if j < |s| {
      RangesMore(r, [], s[j]);
      NoRanges(s[j]);
    }
  }

  lemma {:induction false} NoRanges(c: char)
    ensures !InRanges([], c)
  {
  }
}
