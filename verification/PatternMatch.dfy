/** Shell patterns: what they mean, and the matcher that skips ahead. */
module PatternMatch {
  import opened Basics

  /** Marks where quotes were; it matches nothing. */
  const CTLQUOTEMARK: char := '\U{88}'

  // ----- What a pattern is ------------------------------------------------------------

  datatype Range = Range(lo: char, hi: char)

  datatype Piece =
    | Lit(c: char)
    | AnyChar
    | AnyString
    | Class(invert: bool, ranges: seq<Range>)

  /** Where the character of the member at i stands. */
  function CharAt(p: string, i: nat): nat
    requires i < |p|
  {
    if p[i] == CTLESC then i + 1 else i
  }

  /** The bracket that closes a list whose members start at i: the first one behind a member. */
  function CloseAt(p: string, i: nat): (r: Option<nat>)
    ensures r.Some? ==> i < r.value < |p| && p[r.value] == ']'
    decreases |p| - i
  {
    if i >= |p| then None
    else
      var j := CharAt(p, i);
      if j + 1 < |p| && p[j + 1] == ']' then Some(j + 1) else CloseAt(p, j + 1)
  }

  /** The member behind x, or the closing bracket itself. */
  predicate OnTrack(p: string, x: nat, close: nat) {
    close < |p| && p[close] == ']' && (x == close || CloseAt(p, x) == Some(close))
  }

  lemma {:induction false} Advance(p: string, x: nat, close: nat)
    requires x < |p| && CloseAt(p, x) == Some(close)
    ensures CharAt(p, x) + 1 <= close && OnTrack(p, CharAt(p, x) + 1, close)
    ensures p[CharAt(p, x) + 1] == ']' ==> CharAt(p, x) + 1 == close
  {
  }

  /** A minus sign between two members makes a range of them. */
  predicate IsRange(p: string, x: nat) {
    x + 1 < |p| && p[x] == '-' && p[x + 1] != ']'
  }

  lemma {:induction false} AdvanceRange(p: string, x: nat, close: nat)
    requires OnTrack(p, x, close) && IsRange(p, x)
    ensures x + 1 < close && CloseAt(p, x + 1) == Some(close)
  {
    assert CTLESC != '-';
  }

  /** The members from x up to the closing bracket. */
  function Members(p: string, x: nat, close: nat): seq<Range>
    requires OnTrack(p, x, close)
    decreases |p| - x
  {
    if x == close then []
    else
      Advance(p, x, close);
      var j := CharAt(p, x);
      if IsRange(p, j + 1) then
        AdvanceRange(p, j + 1, close);
        Advance(p, j + 2, close);
        var k := CharAt(p, j + 2);
        [Range(p[j], p[k])] + Members(p, k + 1, close)
      else [Range(p[j], p[j])] + Members(p, j + 1, close)
  }

  /** The list that starts behind the bracket at i - 1: its members and where it closes. */
  function FirstMember(p: string, i: nat): nat {
    if i < |p| && p[i] == '!' then i + 1 else i
  }

  /** The pieces of the pattern from i on. */
  function PiecesFrom(p: string, i: nat): seq<Piece>
    decreases |p| - i
  {
    if i >= |p| then []
    else if p[i] == CTLESC then [Lit(if i + 1 < |p| then p[i + 1] else '\0')] + PiecesFrom(p, i + 2)
    else if p[i] == CTLQUOTEMARK then PiecesFrom(p, i + 1)
    else if p[i] == '?' then [AnyChar] + PiecesFrom(p, i + 1)
    else if p[i] == '*' then [AnyString] + PiecesFrom(p, i + 1)
    else if p[i] == '[' then
      var first := FirstMember(p, i + 1);
      (match CloseAt(p, first)
       case None => [Lit('[')] + PiecesFrom(p, i + 1)
       case Some(close) => [Class(first != i + 1, Members(p, first, close))] + PiecesFrom(p, close + 1))
    else [Lit(p[i])] + PiecesFrom(p, i + 1)
  }

  /** Every escape has something to escape. */
  predicate EscapesOk(p: string, i: nat)
    decreases |p| - i
  {
    if i >= |p| then i == |p|
    else if p[i] == CTLESC then i + 1 < |p| && EscapesOk(p, i + 2)
    else EscapesOk(p, i + 1)
  }

  predicate NoMarks(p: string, a: nat, b: nat) {
    forall k :: a <= k < b && k < |p| ==> p[k] != CTLQUOTEMARK
  }

  /** No quote marks are inside lists. */
  predicate ListsPlain(p: string, i: nat)
    decreases |p| - i
  {
    if i >= |p| then true
    else if p[i] == CTLESC then ListsPlain(p, i + 2)
    else if p[i] == '[' then
      var first := FirstMember(p, i + 1);
      (match CloseAt(p, first)
       case None => ListsPlain(p, i + 1)
       case Some(close) => NoMarks(p, first, close) && ListsPlain(p, close + 1))
    else ListsPlain(p, i + 1)
  }

  /** What the matcher can rely on from i on. */
  predicate Sound(p: string, i: nat) {
    i <= |p| && EscapesOk(p, i) && ListsPlain(p, i) && forall k :: 0 <= k < |p| ==> p[k] != '\0'
  }

  // ----- What it matches ------------------------------------------------------------------

  predicate InRanges(rs: seq<Range>, c: char) {
    exists i :: 0 <= i < |rs| && rs[i].lo <= c <= rs[i].hi
  }

  /** The parts of a string a piece can stand for. */
  predicate Takes(piece: Piece, part: string) {
    match piece
    case Lit(c) => part == [c]
    case AnyChar => |part| == 1
    case AnyString => true
    case Class(invert, ranges) => |part| == 1 && InRanges(ranges, part[0]) != invert
  }

  /** The string falls into parts, one for each piece. */
  ghost predicate Matches(pieces: seq<Piece>, s: string) {
    exists parts: seq<string> ::
      |parts| == |pieces| && Concat(parts) == s && forall i :: 0 <= i < |parts| ==> Takes(pieces[i], parts[i])
  }

  lemma {:induction false} FirstPart(piece: Piece, rest: seq<Piece>, s: string)
    requires Matches([piece] + rest, s)
    ensures exists k :: 0 <= k <= |s| && Takes(piece, s[..k]) && Matches(rest, s[k..])
  {
    var pieces := [piece] + rest;
    var parts: seq<string> :|
          |parts| == |pieces| && Concat(parts) == s && forall i :: 0 <= i < |parts| ==> Takes(pieces[i], parts[i]);
    var k := |parts[0]|;
    assert s[..k] == parts[0] && s[k..] == Concat(parts[1..]);
    hide Takes, Concat;
    assert Takes(pieces[0], parts[0]);
    forall i | 0 <= i < |parts[1..]| ensures Takes(rest[i], parts[1..][i]) {
      assert Takes(pieces[i + 1], parts[i + 1]);
    }
    assert Matches(rest, s[k..]);
  }

  lemma {:induction false} JoinPart(piece: Piece, rest: seq<Piece>, s: string, k: nat)
    requires k <= |s| && Takes(piece, s[..k]) && Matches(rest, s[k..])
    ensures Matches([piece] + rest, s)
  {
    var pieces := [piece] + rest;
    var parts: seq<string> :|
          |parts| == |rest| && Concat(parts) == s[k..] && forall i :: 0 <= i < |parts| ==> Takes(rest[i], parts[i]);
    var all := [s[..k]] + parts;
    assert all[1..] == parts;
    assert Concat(all) == s;
    hide Takes, Concat;
    forall i | 0 <= i < |all| ensures Takes(pieces[i], all[i]) {
      if i > 0 {
        assert Takes(rest[i - 1], parts[i - 1]);
      }
    }
  }

  lemma {:induction false} MatchesCons(piece: Piece, rest: seq<Piece>, s: string)
    ensures Matches([piece] + rest, s) <==> exists k :: 0 <= k <= |s| && Takes(piece, s[..k]) && Matches(rest, s[k..])
  {
    hide Matches, Takes;
    if Matches([piece] + rest, s) {
      FirstPart(piece, rest, s);
    }
    if k :| 0 <= k <= |s| && Takes(piece, s[..k]) && Matches(rest, s[k..]) {
      JoinPart(piece, rest, s, k);
    }
  }

  lemma {:induction false} MatchesNothing(s: string)
    ensures Matches([], s) <==> s == []
  {
    if s == [] {
      var parts: seq<string> := [];
      assert Concat(parts) == s;
    }
  }

  /** A piece that takes exactly one character. */
  lemma {:induction false} MatchesOne(piece: Piece, rest: seq<Piece>, s: string)
    requires !piece.AnyString?
    ensures Matches([piece] + rest, s) <==> s != [] && Takes(piece, s[..1]) && Matches(rest, s[1..])
  {
    MatchesCons(piece, rest, s);
    hide Matches;
    forall k | 0 <= k <= |s| && Takes(piece, s[..k]) ensures k == 1 {
      assert |s[..k]| == k;
    }
  }

  lemma {:induction false} MatchesStar(rest: seq<Piece>, s: string)
    ensures Matches([AnyString] + rest, s) <==> exists k :: 0 <= k <= |s| && Matches(rest, s[k..])
  {
    MatchesCons(AnyString, rest, s);
    hide Matches;
    if k :| 0 <= k <= |s| && Matches(rest, s[k..]) {
      assert Takes(AnyString, s[..k]);
    }
  }

  // ----- The matcher ------------------------------------------------------------------------

  function At(s: string, i: nat): char {
    if i < |s| then s[i] else '\0'
  }

  /** The pieces from i on match the string from j on. */
  ghost predicate MatchesAt(p: string, i: nat, s: string, j: nat)
    requires j <= |s|
  {
    Matches(PiecesFrom(p, i), s[j..])
  }

  ghost predicate StarAt(p: string, i: nat, s: string, j: nat)
    requires j <= |s|
  {
    exists k :: j <= k <= |s| && MatchesAt(p, i, s, k)
  }

  lemma {:induction false} OneAt(p: string, i: nat, next: nat, piece: Piece, s: string, j: nat)
    requires j <= |s| && !piece.AnyString? && PiecesFrom(p, i) == [piece] + PiecesFrom(p, next)
    ensures MatchesAt(p, i, s, j) <==> j < |s| && Takes(piece, [s[j]]) && MatchesAt(p, next, s, j + 1)
  {
    MatchesOne(piece, PiecesFrom(p, next), s[j..]);
    if j < |s| {
      assert s[j..][..1] == [s[j]] && s[j..][1..] == s[j + 1..];
    }
  }

  lemma {:induction false} StarIs(p: string, i: nat, s: string, j: nat)
    requires j <= |s| && i < |p| && p[i] == '*'
    ensures MatchesAt(p, i, s, j) <==> StarAt(p, i + 1, s, j)
  {
    var rest, t := PiecesFrom(p, i + 1), s[j..];
    assert PiecesFrom(p, i) == [AnyString] + rest;
    MatchesStar(rest, t);
    hide Matches, PiecesFrom;
    if k :| 0 <= k <= |t| && Matches(rest, t[k..]) {
      assert t[k..] == s[j + k..];
      assert MatchesAt(p, i + 1, s, j + k);
    }
    var n := i + 1;
    if k :| j <= k <= |s| && MatchesAt(p, n, s, k) {
      assert t[k - j..] == s[k..];
    }
  }

  /** Stars in a row are worth one. */
  lemma {:induction false} StarsInARow(p: string, i: nat, s: string, j: nat)
    requires j <= |s| && i < |p| && p[i] == '*'
    ensures StarAt(p, i, s, j) <==> StarAt(p, i + 1, s, j)
  {
    hide MatchesAt;
    forall k | j <= k <= |s| ensures MatchesAt(p, i, s, k) <==> StarAt(p, i + 1, s, k) {
      StarIs(p, i, s, k);
    }
    var n := i + 1;
    if k :| j <= k <= |s| && MatchesAt(p, n, s, k) {
      assert StarAt(p, n, s, k);
      assert MatchesAt(p, i, s, k);
    }
  }

  /** Whatever comes before the next literal cannot be where the rest starts. */
  lemma {:induction false} SkipIsSafe(p: string, i: nat, s: string, j: nat)
    requires j < |s| && i <= |p| && At(p, i) != s[j] && At(p, i) !in [CTLESC, CTLQUOTEMARK, '?', '*', '[']
    requires '\0' !in p
    ensures StarAt(p, i, s, j) <==> StarAt(p, i, s, j + 1)
  {
    if i < |p| {
      assert PiecesFrom(p, i) == [Lit(p[i])] + PiecesFrom(p, i + 1);
      OneAt(p, i, i + 1, Lit(p[i]), s, j);
    } else {
      MatchesNothing(s[j..]);
    }
  }

  lemma {:induction false} SkipToNothing(p: string, i: nat, s: string)
    requires i < |p| && p[i] !in [CTLESC, CTLQUOTEMARK, '?', '*', '[']
    ensures !StarAt(p, i, s, |s|)
  {
    assert PiecesFrom(p, i) == [Lit(p[i])] + PiecesFrom(p, i + 1);
    OneAt(p, i, i + 1, Lit(p[i]), s, |s|);
  }

  /** The scan for the bracket that closes the list at i. */
  method FindClose(p: string, i: nat) returns (close: Option<nat>)
    requires EscapesOk(p, i + 1) && i < |p| && p[i] == '['
    requires CloseAt(p, FirstMember(p, i + 1)).Some? ==>
               NoMarks(p, FirstMember(p, i + 1), CloseAt(p, FirstMember(p, i + 1)).value)
    ensures close == CloseAt(p, FirstMember(p, i + 1))
  {
    var first := FirstMember(p, i + 1);
    assert EscapesOk(p, first);
    var endp := first;
    while true
      invariant first <= endp <= |p| && EscapesOk(p, endp)
      invariant CloseAt(p, endp) == CloseAt(p, first)
      decreases |p| - endp
    {
      var marks := endp;
      while endp < |p| && p[endp] == CTLQUOTEMARK
        invariant marks <= endp <= |p| && EscapesOk(p, endp)
        invariant CloseAt(p, first).Some? ==> endp == marks
        invariant CloseAt(p, first).None? ==> CloseAt(p, endp).None?
      {
        endp := endp + 1;
      }
      if endp >= |p| {
        return None;
      }
      if p[endp] == CTLESC {
        endp := endp + 1;
      }
      endp := endp + 1;
      if endp < |p| && p[endp] == ']' {
        break;
      }
    }
    close := Some(endp);
  }

  lemma {:induction false} CharIs(p: string, x: nat, close: nat)
    requires x < close && OnTrack(p, x, close)
    ensures CharAt(p, x) == (if p[x] == CTLESC then x + 1 else x) && CharAt(p, x) + 1 <= close < |p|
    ensures var j := CharAt(p, x); IsRange(p, j + 1) <==> j + 2 < |p| && p[j + 1] == '-' && p[j + 2] != ']'
  {
    Advance(p, x, close);
  }

  lemma {:induction false} SingleIs(p: string, x: nat, close: nat, j: nat)
    requires x < close && OnTrack(p, x, close) && j == CharAt(p, x) && !IsRange(p, j + 1)
    ensures j + 1 <= close < |p| && OnTrack(p, j + 1, close) && (p[j + 1] == ']' ==> j + 1 == close)
    ensures Members(p, x, close) == [Range(p[j], p[j])] + Members(p, j + 1, close)
  {
    Advance(p, x, close);
  }

  lemma {:induction false} RangeIs(p: string, x: nat, close: nat, j: nat)
    requires x < close && OnTrack(p, x, close) && j == CharAt(p, x) && IsRange(p, j + 1)
    ensures j + 2 < close < |p| && CharAt(p, j + 2) == (if p[j + 2] == CTLESC then j + 3 else j + 2)
    ensures var k := CharAt(p, j + 2);
            && k + 1 <= close && OnTrack(p, k + 1, close) && (p[k + 1] == ']' ==> k + 1 == close)
            && Members(p, x, close) == [Range(p[j], p[k])] + Members(p, k + 1, close)
  {
    Advance(p, x, close);
    AdvanceRange(p, j + 1, close);
    Advance(p, j + 2, close);
  }

  /** One more member: whether the character is in it, and where the next one is. */
  method MatchMember(p: string, x: nat, ghost close: nat, chr: char) returns (found: bool, next: nat, ghost r: Range)
    requires x < close && OnTrack(p, x, close)
    ensures x < next <= close < |p| && OnTrack(p, next, close) && (p[next] == ']' ==> next == close)
    ensures Members(p, x, close) == [r] + Members(p, next, close) && (found <==> r.lo <= chr <= r.hi)
  {
    hide *;
    CharIs(p, x, close);
    next := x;
    if p[next] == CTLESC {
      next := next + 1;
    }
    ghost var j := next;
    var c := p[next];
    next := next + 1;
    if next + 1 < |p| && p[next] == '-' && p[next + 1] != ']' {
      RangeIs(p, x, close, j);
      next := next + 1;
      if p[next] == CTLESC {
        next := next + 1;
      }
      found := c <= chr <= p[next];
      r := Range(c, p[next]);
      next := next + 1;
    } else {
      SingleIs(p, x, close, j);
      found := chr == c;
      r := Range(c, c);
    }
  }

  lemma {:induction false} InFirst(r: Range, rest: seq<Range>, c: char)
    ensures InRanges([r] + rest, c) <==> r.lo <= c <= r.hi || InRanges(rest, c)
  {
    var rs := [r] + rest;
    if r.lo <= c <= r.hi {
      assert rs[0].lo <= c <= rs[0].hi;
    }
    if i :| 0 <= i < |rest| && rest[i].lo <= c <= rest[i].hi {
      assert rs[i + 1] == rest[i];
    }
  }

  lemma {:induction false} NoMembers(p: string, close: nat, c: char)
    requires OnTrack(p, close, close)
    ensures !InRanges(Members(p, close, close), c)
  {
  }

  /** The members are compared, up to the bracket the scan has found. */
  method MatchMembers(p: string, x: nat, ghost close: nat, chr: char) returns (found: bool, next: nat)
    requires x < close && OnTrack(p, x, close)
    ensures next == close && (found <==> InRanges(Members(p, x, close), chr))
  {
    ghost var r;
    found, next, r := MatchMember(p, x, close, chr);
    hide CloseAt, Members, InRanges;
    InFirst(r, Members(p, next, close), chr);
    assert OnTrack(p, next, close) && close < |p| && p[close] == ']';
    hide OnTrack;
    while p[next] != ']'
      invariant next <= close < |p| && OnTrack(p, next, close) && (p[next] == ']' ==> next == close) && p[close] == ']'
      invariant InRanges(Members(p, x, close), chr) <==> found || InRanges(Members(p, next, close), chr)
      decreases close - next
    {
      var hit;
      hit, next, r := MatchMember(p, next, close, chr);
      InFirst(r, Members(p, next, close), chr);
      if hit {
        found := true;
      }
    }
    NoMembers(p, close, chr);
  }

  /** The piece that starts at i, with Sound for what follows. */
  lemma {:induction false} OtherPiece(p: string, i: nat)
    requires Sound(p, i) && i < |p|
    ensures p[i] == CTLESC ==>
              i + 1 < |p| && Sound(p, i + 2) && PiecesFrom(p, i) == [Lit(p[i + 1])] + PiecesFrom(p, i + 2)
    ensures p[i] == CTLQUOTEMARK ==> Sound(p, i + 1) && PiecesFrom(p, i) == PiecesFrom(p, i + 1)
    ensures p[i] == '?' ==> Sound(p, i + 1) && PiecesFrom(p, i) == [AnyChar] + PiecesFrom(p, i + 1)
    ensures p[i] == '*' ==> Sound(p, i + 1)
    ensures p[i] !in [CTLESC, CTLQUOTEMARK, '?', '*', '['] ==>
              Sound(p, i + 1) && PiecesFrom(p, i) == [Lit(p[i])] + PiecesFrom(p, i + 1)
  {
  }

  lemma {:induction false} EscapesPast(p: string, x: nat, close: nat)
    requires EscapesOk(p, x) && CloseAt(p, x) == Some(close)
    ensures EscapesOk(p, close + 1)
    decreases |p| - x
  {
    var j := CharAt(p, x);
    if !(j + 1 < |p| && p[j + 1] == ']') {
      EscapesPast(p, j + 1, close);
    }
  }

  lemma {:induction false} ListPiece(p: string, i: nat)
    requires Sound(p, i) && i < |p| && p[i] == '['
    ensures var first := FirstMember(p, i + 1);
            match CloseAt(p, first)
            case None => Sound(p, i + 1) && PiecesFrom(p, i) == [Lit('[')] + PiecesFrom(p, i + 1)
            case Some(close) =>
              && first < close && OnTrack(p, first, close) && NoMarks(p, first, close) && Sound(p, close + 1)
              && PiecesFrom(p, i) == [Class(first != i + 1, Members(p, first, close))] + PiecesFrom(p, close + 1)
    ensures EscapesOk(p, i + 1)
  {
    var first := FirstMember(p, i + 1);
    assert EscapesOk(p, i + 1);
    assert EscapesOk(p, first);
    if CloseAt(p, first).Some? {
      EscapesPast(p, first, CloseAt(p, first).value);
    }
  }

  /** The skip to the next literal after a star. */
  method SkipTo(pattern: string, p: nat, s: string, q: nat) returns (fFound: bool, q': nat)
    requires Sound(pattern, p) && q <= |s| && '\0' !in s && At(pattern, p) !in [CTLESC, CTLQUOTEMARK, '?', '*', '[']
    ensures q <= q' <= |s| && (StarAt(pattern, p, s, q) <==> fFound && StarAt(pattern, p, s, q'))
  {
    hide StarAt, EscapesOk, ListsPlain;
    q' := q;
    var c := At(pattern, p);
    while At(s, q') != c
      invariant q <= q' <= |s| && (StarAt(pattern, p, s, q) <==> StarAt(pattern, p, s, q'))
      decreases |s| - q'
    {
      if q' == |s| {
        SkipToNothing(pattern, p, s);
        return false, q';
      }
      SkipIsSafe(pattern, p, s, q');
      q' := q' + 1;
    }
    fFound := true;
  }

  /** The rest of the pattern is tried from every place in the string. */
  method TryAll(pattern: string, p: nat, s: string, q: nat) returns (r: bool)
    requires Sound(pattern, p) && q <= |s| && '\0' !in s
    ensures r <==> StarAt(pattern, p, s, q)
    decreases |pattern| - p, 1
  {
    var at := q;
    while true
      invariant q <= at <= |s| && forall k :: q <= k < at ==> !MatchesAt(pattern, p, s, k)
      decreases |s| - at
    {
      r := PMatch(pattern, p, s, at);
      if r {
        return true;
      }
      if at == |s| {
        return false;
      }
      at := at + 1;
    }
  }

  /** pmatch with squoted 0, from i in the pattern and j in the string. */
  method PMatch(pattern: string, i: nat, s: string, j: nat) returns (r: bool)
    requires Sound(pattern, i) && j <= |s| && '\0' !in s
    ensures r <==> MatchesAt(pattern, i, s, j)
    decreases |pattern| - i, 0
  {
    hide *;
    SoundIs(pattern, i);
    var p, q := i, j;
    while p < |pattern|
      invariant i <= p <= |pattern| && Sound(pattern, p) && j <= q <= |s|
      invariant MatchesAt(pattern, i, s, j) <==> MatchesAt(pattern, p, s, q)
      decreases |pattern| - p
    {
      SoundIs(pattern, p);
      OtherPiece(pattern, p);
      var c := pattern[p];
      if c == CTLESC {
        SoundIs(pattern, p + 2);
        OneAt(pattern, p, p + 2, Lit(pattern[p + 1]), s, q);
        TakesLit(pattern[p + 1]);
        if At(s, q) != pattern[p + 1] {
          AtIs(s, q);
          return false;
        }
        AtIs(s, q);
        p, q := p + 2, q + 1;
      } else if c == CTLQUOTEMARK {
        SamePieces(pattern, p, p + 1, s, q);
        p := p + 1;
      } else if c == '?' {
        OneAt(pattern, p, p + 1, AnyChar, s, q);
        TakesAny();
        if q == |s| {
          return false;
        }
        p, q := p + 1, q + 1;
      } else if c == '*' {
        StarIs(pattern, p, s, q);
        p := p + 1;
        while p < |pattern| && (pattern[p] == CTLQUOTEMARK || pattern[p] == '*')
          invariant i < p <= |pattern| && Sound(pattern, p)
          invariant MatchesAt(pattern, i, s, j) <==> StarAt(pattern, p, s, q)
        {
          OtherPiece(pattern, p);
          if pattern[p] == '*' {
            StarsInARow(pattern, p, s, q);
          } else {
            SameStar(pattern, p, p + 1, s, q);
          }
          p := p + 1;
        }
        if At(pattern, p) !in [CTLESC, CTLQUOTEMARK, '?', '*', '['] {
          var fFound;
          fFound, q := SkipTo(pattern, p, s, q);
          if !fFound {
            return false;
          }
        }
        r := TryAll(pattern, p, s, q);
        return;
      } else if c == '[' {
        ListPiece(pattern, p);
        var close := FindClose(pattern, p);
        if close.None? {
          OneAt(pattern, p, p + 1, Lit('['), s, q);
          TakesLit('[');
          if At(s, q) != '[' {
            AtIs(s, q);
            return false;
          }
          AtIs(s, q);
          p, q := p + 1, q + 1;
        } else {
          FirstIs(pattern, p + 1);
          var first := p + 1;
          var invert := false;
          if At(pattern, first) == '!' {
            invert := true;
            first := first + 1;
          }
          ghost var piece := Class(invert, Members(pattern, first, close.value));
          OneAt(pattern, p, close.value + 1, piece, s, q);
          if q == |s| {
            return false;
          }
          TakesClass(piece, s[q]);
          var found, next := MatchMembers(pattern, first, close.value, s[q]);
          if found == invert {
            return false;
          }
          SoundIs(pattern, close.value + 1);
          p, q := next + 1, q + 1;
        }
      } else {
        OneAt(pattern, p, p + 1, Lit(c), s, q);
        TakesLit(c);
        if At(s, q) != c {
          AtIs(s, q);
          return false;
        }
        AtIs(s, q);
        p, q := p + 1, q + 1;
      }
    }
    NoPieces(pattern, p, s, q);
    r := q == |s|;
  }

  lemma {:induction false} SoundIs(p: string, i: nat)
    requires Sound(p, i)
    ensures i <= |p| && forall k :: 0 <= k < |p| ==> p[k] != '\0'
    ensures CTLESC != CTLQUOTEMARK && CTLESC !in ['?', '*', '['] && CTLQUOTEMARK !in ['?', '*', '[']
  {
  }

  lemma {:induction false} AtIs(s: string, i: nat)
    ensures At(s, i) == if i < |s| then s[i] else '\0'
  {
  }

  lemma {:induction false} TakesLit(c: char)
    ensures forall part :: Takes(Lit(c), part) <==> part == [c]
  {
  }

  lemma {:induction false} TakesAny()
    ensures forall part :: Takes(AnyChar, part) <==> |part| == 1
  {
  }

  lemma {:induction false} TakesClass(piece: Piece, c: char)
    requires piece.Class?
    ensures Takes(piece, [c]) <==> InRanges(piece.ranges, c) != piece.invert
  {
  }

  lemma {:induction false} FirstIs(p: string, i: nat)
    ensures FirstMember(p, i) == (if At(p, i) == '!' then i + 1 else i)
  {
  }

  lemma {:induction false} SamePieces(p: string, i: nat, next: nat, s: string, j: nat)
    requires PiecesFrom(p, i) == PiecesFrom(p, next) && j <= |s|
    ensures MatchesAt(p, i, s, j) <==> MatchesAt(p, next, s, j)
  {
  }

  lemma {:induction false} SameStar(p: string, i: nat, next: nat, s: string, j: nat)
    requires PiecesFrom(p, i) == PiecesFrom(p, next) && j <= |s|
    ensures StarAt(p, i, s, j) <==> StarAt(p, next, s, j)
  {
    forall k | j <= k <= |s| ensures MatchesAt(p, i, s, k) <==> MatchesAt(p, next, s, k) {
      SamePieces(p, i, next, s, k);
    }
  }

  lemma {:induction false} NoPieces(p: string, i: nat, s: string, j: nat)
    requires i == |p| && j <= |s|
    ensures MatchesAt(p, i, s, j) <==> j == |s|
  {
    MatchesNothing(s[j..]);
  }
}
