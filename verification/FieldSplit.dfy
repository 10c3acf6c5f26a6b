/** Field splitting: what fields a string has for a value of IFS, and the loop that cuts them out in place. */
module FieldSplit {
  import opened Basics

  predicate IsIfs(ifs: string, c: char) {
    c in ifs
  }

  predicate IsWhite(c: char) {
    c in " \t\n"
  }

  predicate IsSpace(ifs: string, c: char) {
    IsIfs(ifs, c) && IsWhite(c)
  }

  /** An IFS character that is not IFS white space. */
  predicate IsMark(ifs: string, c: char) {
    IsIfs(ifs, c) && !IsWhite(c)
  }

  predicate AllSpace(ifs: string, s: string, i: nat, j: nat) {
    forall k :: i <= k < j && k < |s| ==> IsSpace(ifs, s[k])
  }

  predicate NoIfs(ifs: string, s: string, i: nat, j: nat) {
    forall k :: i <= k < j && k < |s| ==> !IsIfs(ifs, s[k])
  }

  // ----- What the fields are ----------------------------------------------------------

  /** What ends a field, from b to c: white space and a mark, white space that is all there is, or the end. */
  predicate EndsField(ifs: string, s: string, b: nat, c: nat) {
    || (b < c <= |s| && IsMark(ifs, s[c - 1]) && AllSpace(ifs, s, b, c - 1))
    || (b < c <= |s| && AllSpace(ifs, s, b, c) && (c == |s| || !IsIfs(ifs, s[c])))
    || (b == c == |s|)
  }

  /** White space up to a, the first field from a to b, what ends it up to c. A field is only empty
      when a mark stands right where it would be. */
  predicate FirstField(ifs: string, s: string, at: nat, a: nat, b: nat, c: nat) {
    && at <= a <= b <= c <= |s| && AllSpace(ifs, s, at, a) && NoIfs(ifs, s, a, b) && EndsField(ifs, s, b, c)
    && (if a == b then a < |s| && IsMark(ifs, s[a]) else true)
  }

  /** From at on the string falls into these fields; white space at either end belongs to none. */
  ghost predicate HasFields(ifs: string, s: string, at: nat, fields: seq<string>)
    decreases |fields|
  {
    if fields == [] then at <= |s| && AllSpace(ifs, s, at, |s|)
    else exists a: nat, b: nat, c: nat ::
           FirstField(ifs, s, at, a, b, c) && fields[0] == s[a..b] && HasFields(ifs, s, c, fields[1..])
  }

  // ----- Computing them -----------------------------------------------------------------

  function SkipSpace(ifs: string, s: string, at: nat): (r: nat)
    requires at <= |s|
    ensures at <= r <= |s| && AllSpace(ifs, s, at, r) && (r < |s| ==> !IsSpace(ifs, s[r]))
    decreases |s| - at
  {
    if at < |s| && IsSpace(ifs, s[at]) then SkipSpace(ifs, s, at + 1) else at
  }

  function SkipOthers(ifs: string, s: string, at: nat): (r: nat)
    requires at <= |s|
    ensures at <= r <= |s| && NoIfs(ifs, s, at, r) && (r < |s| ==> IsIfs(ifs, s[r]))
    decreases |s| - at
  {
    if at < |s| && !IsIfs(ifs, s[at]) then SkipOthers(ifs, s, at + 1) else at
  }

  /** Behind what ends a field at b. */
  function SkipEnd(ifs: string, s: string, b: nat): (r: nat)
    requires b <= |s|
    ensures b <= r <= |s| && (b < |s| && IsIfs(ifs, s[b]) ==> b < r)
  {
    var t := SkipSpace(ifs, s, b);
    if t < |s| && IsMark(ifs, s[t]) then t + 1 else t
  }

  function Fields(ifs: string, s: string, at: nat): seq<string>
    requires at <= |s|
    decreases |s| - at
  {
    var a := SkipSpace(ifs, s, at);
    if a == |s| then []
    else
      var b := SkipOthers(ifs, s, a);
      [s[a..b]] + Fields(ifs, s, SkipEnd(ifs, s, b))
  }

  // ----- The two agree ----------------------------------------------------------------------

  /** Where white space ends is determined. */
  lemma {:induction false} SpaceEnds(ifs: string, s: string, at: nat, a: nat)
    requires at <= a <= |s| && AllSpace(ifs, s, at, a) && (a < |s| ==> !IsSpace(ifs, s[a]))
    ensures SkipSpace(ifs, s, at) == a
  {
    var b := SkipSpace(ifs, s, at);
    assert a < |s| ==> (IsSpace(ifs, s[a]) || true);
    assert b < |s| ==> (IsSpace(ifs, s[b]) || true);
  }

  lemma {:induction false} OthersEnd(ifs: string, s: string, a: nat, b: nat)
    requires a <= b <= |s| && NoIfs(ifs, s, a, b) && (b < |s| ==> IsIfs(ifs, s[b]))
    ensures SkipOthers(ifs, s, a) == b
  {
    var c := SkipOthers(ifs, s, a);
    assert b < |s| ==> (IsIfs(ifs, s[b]) || true);
    assert c < |s| ==> (IsIfs(ifs, s[c]) || true);
  }

  lemma {:induction false} EndIs(ifs: string, s: string, b: nat, c: nat)
    requires b <= c <= |s| && EndsField(ifs, s, b, c)
    ensures SkipEnd(ifs, s, b) == c && (b < |s| ==> IsIfs(ifs, s[b]))
  {
    if b < c && IsMark(ifs, s[c - 1]) && AllSpace(ifs, s, b, c - 1) {
      SpaceEnds(ifs, s, b, c - 1);
    } else {
      SpaceEnds(ifs, s, b, c);
    }
  }

  lemma {:induction false} EndsThere(ifs: string, s: string, b: nat)
    requires b <= |s| && (b < |s| ==> IsIfs(ifs, s[b]))
    ensures EndsField(ifs, s, b, SkipEnd(ifs, s, b))
  {
  }

  /** What a first field determines. */
  lemma {:induction false} FirstIs(ifs: string, s: string, at: nat, a: nat, b: nat, c: nat)
    requires FirstField(ifs, s, at, a, b, c)
    ensures at <= a < |s| && a == SkipSpace(ifs, s, at) && b == SkipOthers(ifs, s, a) && c == SkipEnd(ifs, s, b)
    ensures c > at
  {
    EndIs(ifs, s, b, c);
    assert a < |s| ==> (IsIfs(ifs, s[a]) || true);
    SpaceEnds(ifs, s, at, a);
    OthersEnd(ifs, s, a, b);
  }

  lemma {:induction false} FirstThere(ifs: string, s: string, at: nat)
    requires at <= |s| && SkipSpace(ifs, s, at) < |s|
    ensures var a := SkipSpace(ifs, s, at);
            var b := SkipOthers(ifs, s, a);
            FirstField(ifs, s, at, a, b, SkipEnd(ifs, s, b))
  {
    var a := SkipSpace(ifs, s, at);
    EndsThere(ifs, s, SkipOthers(ifs, s, a));
  }

  /** Exactly one way to split every string: the fields are determined, and these are they. */
  lemma {:induction false} FieldsAreThese(ifs: string, s: string, at: nat, fields: seq<string>)
    requires at <= |s|
    ensures HasFields(ifs, s, at, fields) <==> fields == Fields(ifs, s, at)
    decreases |s| - at
  {
    hide AllSpace, NoIfs, IsSpace, IsMark, IsIfs, SkipSpace, SkipOthers, SkipEnd, EndsField;
    var a := SkipSpace(ifs, s, at);
    if fields == [] {
      if AllSpace(ifs, s, at, |s|) {
        SpaceEnds(ifs, s, at, |s|);
      }
    } else {
      if HasFields(ifs, s, at, fields) {
        var x: nat, y: nat, z: nat :|
              FirstField(ifs, s, at, x, y, z) && fields[0] == s[x..y] && HasFields(ifs, s, z, fields[1..]);
        FirstIs(ifs, s, at, x, y, z);
        FieldsAreThese(ifs, s, z, fields[1..]);
      }
      if fields == Fields(ifs, s, at) {
        FirstThere(ifs, s, at);
        var b := SkipOthers(ifs, s, a);
        var c := SkipEnd(ifs, s, b);
        FirstIs(ifs, s, at, a, b, c);
        FieldsAreThese(ifs, s, c, fields[1..]);
        assert FirstField(ifs, s, at, a, b, c) && fields[0] == s[a..b] && HasFields(ifs, s, c, fields[1..]);
      }
    }
  }

  /** No field holds an IFS character. */
  lemma {:induction false} FieldsAreClean(ifs: string, s: string, at: nat, i: nat)
    requires at <= |s| && i < |Fields(ifs, s, at)|
    ensures NoIfs(ifs, Fields(ifs, s, at)[i], 0, |Fields(ifs, s, at)[i]|)
    decreases |s| - at
  {
    var a := SkipSpace(ifs, s, at);
    var b := SkipOthers(ifs, s, a);
    if i > 0 {
      FieldsAreClean(ifs, s, SkipEnd(ifs, s, b), i - 1);
    } else {
      assert forall k :: 0 <= k < b - a ==> s[a..b][k] == s[a + k];
    }
  }

  // ----- Cutting them out ---------------------------------------------------------------

  /** The text a pointer into the buffer stands for. */
  function TextAt(buf: seq<char>, i: nat): string
    decreases |buf| - i
  {
    if i >= |buf| || buf[i] == NUL then [] else [buf[i]] + TextAt(buf, i + 1)
  }

  lemma {:induction false} TextIs(buf: seq<char>, i: nat, j: nat)
    requires i <= j < |buf| && buf[j] == NUL && forall k :: i <= k < j ==> buf[k] != NUL
    ensures TextAt(buf, i) == buf[i..j]
    decreases j - i
  {
    if i < j {
      TextIs(buf, i + 1, j);
      assert buf[i..j] == [buf[i]] + buf[i + 1..j];
    }
  }

  /** A field that has been cut out: where it starts and where its terminator is. */
  datatype Piece = Piece(start: nat, end: nat)

  /** The pieces lie one behind the other before at; what is not a terminator is as it was. */
  ghost predicate CutOut(buf: seq<char>, s: string, pieces: seq<Piece>, at: nat) {
    && |buf| == |s| + 1 && buf[|s|] == NUL
    && (forall i :: 0 <= i < |pieces| ==>
        pieces[i].start <= pieces[i].end <= |s| && pieces[i].end < at && buf[pieces[i].end] == NUL)
    && (forall i :: 0 <= i < |pieces| ==> buf[pieces[i].start..pieces[i].end] == s[pieces[i].start..pieces[i].end])
    && (forall k :: at <= k < |s| ==> buf[k] == s[k])
  }

  function Texts(s: string, pieces: seq<Piece>): seq<string>
    requires forall i :: 0 <= i < |pieces| ==> pieces[i].start <= pieces[i].end <= |s|
  {
    seq(|pieces|, i requires 0 <= i < |pieces| => s[pieces[i].start..pieces[i].end])
  }

  /** White space in front belongs to no field. */
  lemma {:induction false} SpaceFirst(ifs: string, s: string, at: nat)
    requires at < |s| && IsSpace(ifs, s[at])
    ensures Fields(ifs, s, at) == Fields(ifs, s, at + 1)
  {
  }

  lemma {:induction false} CutHere(ifs: string, s: string, at: nat, p: nat)
    requires at <= p < |s| && NoIfs(ifs, s, at, p) && IsIfs(ifs, s[p]) && (p == at ==> !IsWhite(s[p]))
    ensures SkipEnd(ifs, s, p) > p && Fields(ifs, s, at) == [s[at..p]] + Fields(ifs, s, SkipEnd(ifs, s, p))
  {
    assert !IsSpace(ifs, s[at]);
    SpaceEnds(ifs, s, at, at);
    OthersEnd(ifs, s, at, p);
  }

  lemma {:induction false} LastField(ifs: string, s: string, at: nat)
    requires at <= |s| && NoIfs(ifs, s, at, |s|)
    ensures Fields(ifs, s, at) == if at == |s| then [] else [s[at..]]
  {
    if at < |s| {
      assert !IsSpace(ifs, s[at]);
      SpaceEnds(ifs, s, at, at);
      OthersEnd(ifs, s, at, |s|);
      assert s[at..|s|] == s[at..];
    }
  }

  /** What follows a delimiter at p: further white space, and one mark if the delimiter was white space. */
  method PassDelimiter(buf: array<char>, n: nat, p: nat, fSpace: bool, ifs: string, ghost s: string) returns (next: nat)
    requires p < n < buf.Length && |s| == n && IsIfs(ifs, s[p]) && forall k :: p < k < n ==> buf[k] == s[k]
    requires fSpace == IsWhite(s[p])
    ensures next == SkipEnd(ifs, s, p)
  {
    next := p + 1;
    if fSpace {
      assert SkipSpace(ifs, s, p) == SkipSpace(ifs, s, next);
      while next < n
        invariant p < next <= n && SkipSpace(ifs, s, p) == SkipSpace(ifs, s, next)
      {
        if buf[next] !in ifs {
          break;
        }
        if buf[next] !in " \t\n" {
          next := next + 1;
          return;
        }
        next := next + 1;
      }
    }
  }

  lemma {:induction false} CutGoesOn(buf: seq<char>, buf': seq<char>, s: string, pieces: seq<Piece>, start: nat,
      p: nat, next: nat)
    requires CutOut(buf, s, pieces, start) && start <= p <= |s| && p < next && buf' == buf[p := NUL]
    ensures CutOut(buf', s, pieces + [Piece(start, p)], next)
  {
    assert forall i :: 0 <= i < |pieces| ==> pieces[i].end < p;
    assert forall i ::
             0 <= i < |pieces| ==> buf'[pieces[i].start..pieces[i].end] == buf[pieces[i].start..pieces[i].end];
    assert buf'[start..p] == buf[start..p] == s[start..p];
  }

  lemma {:induction false} TextsSnoc(s: string, pieces: seq<Piece>, piece: Piece)
    requires (forall i :: 0 <= i < |pieces| ==> pieces[i].start <= pieces[i].end <= |s|)
    requires piece.start <= piece.end <= |s|
    ensures Texts(s, pieces + [piece]) == Texts(s, pieces) + [s[piece.start..piece.end]]
  {
  }

  lemma {:induction false} PiecesInside(buf: seq<char>, s: string, pieces: seq<Piece>, at: nat)
    requires CutOut(buf, s, pieces, at)
    ensures forall i :: 0 <= i < |pieces| ==> pieces[i].start <= pieces[i].end <= |s|
    ensures |buf| == |s| + 1 && buf[|s|] == NUL && forall k :: at <= k < |s| ==> buf[k] == s[k]
  {
  }

  /** A pointer to a piece stands for its text. */
  lemma {:induction false} PieceText(buf: seq<char>, s: string, pieces: seq<Piece>, at: nat, i: nat)
    requires CutOut(buf, s, pieces, at) && NUL !in s && i < |pieces|
    ensures TextAt(buf, pieces[i].start) == s[pieces[i].start..pieces[i].end]
  {
    var piece := pieces[i];
    forall k | piece.start <= k < piece.end ensures buf[k] != NUL {
      assert buf[k] == buf[piece.start..piece.end][k - piece.start] == s[piece.start..piece.end][k - piece.start];
    }
    TextIs(buf, piece.start, piece.end);
  }

  /** ifsbreakup for one unquoted region over the whole string, in which nothing is escaped: the strings pointed
      to are the fields. */
  method IfsBreakup(buf: array<char>, n: nat, ifs: string) returns (arglist: seq<nat>)
    requires buf.Length == n + 1 && buf[n] == NUL && NUL !in buf[..n] && CTLESC !in buf[..n]
    modifies buf
    ensures var fields := Fields(ifs, old(buf[..n]), 0);
            |arglist| == |fields| && forall i :: 0 <= i < |fields| ==> TextAt(buf[..], arglist[i]) == fields[i]
  {
    hide *;
    ghost var s := buf[..n];
    ghost var pieces: seq<Piece> := [];
    arglist := [];
    var start: nat, p: nat := 0, 0;
    Beginning(buf[..], s, ifs);
    while p < n
      invariant start <= p <= n && CutOut(buf[..], s, pieces, start) && NoIfs(ifs, s, start, p)
      invariant |arglist| == |pieces| && forall i :: 0 <= i < |pieces| ==> arglist[i] == pieces[i].start
      invariant (forall i :: 0 <= i < |pieces| ==> pieces[i].start <= pieces[i].end <= |s|)
      invariant Texts(s, pieces) + Fields(ifs, s, start) == Fields(ifs, s, 0)
      decreases n - p
    {
      PiecesInside(buf[..], s, pieces, start);
      assert buf[p] == buf[..][p] == s[p];
      CharIs(ifs, s, start, p);
      if buf[p] !in ifs {
        p := p + 1;
        continue;
      }
      var ifsspc := buf[p] in " \t\n";
      if p == start && ifsspc {
        SpaceFirst(ifs, s, start);
        CutLater(buf[..], s, pieces, start, p + 1);
        p := p + 1;
        start := p;
        NothingYet(ifs, s, start);
        continue;
      }
      CutHere(ifs, s, start, p);
      ghost var was := buf[..];
      buf[p] := NUL;
      assert buf[..] == was[p := NUL];
      ghost var piece := Piece(start, p);
      arglist := arglist + [start];
      TextsSnoc(s, pieces, piece);
      assert forall k :: p < k < n ==> buf[k] == was[k] == s[k];
      p := PassDelimiter(buf, n, p, ifsspc, ifs, s);
      CutGoesOn(was, buf[..], s, pieces, start, piece.end, p);
      pieces := pieces + [piece];
      start := p;
      NothingYet(ifs, s, start);
    }
    PiecesInside(buf[..], s, pieces, start);
    LastField(ifs, s, start);
    assert start < n ==> buf[start] == buf[..][start] == s[start];
    if buf[start] != NUL {
      ghost var was := buf[..];
      assert was[n := NUL] == was;
      CutGoesOn(was, buf[..], s, pieces, start, n, n + 1);
      arglist := arglist + [start];
      TextsSnoc(s, pieces, Piece(start, n));
      assert s[start..n] == s[start..];
      pieces := pieces + [Piece(start, n)];
      start := n + 1;
    }
    TextsAre(s, pieces);
    assert Texts(s, pieces) == Fields(ifs, s, 0);
    forall i | 0 <= i < |pieces| ensures TextAt(buf[..], arglist[i]) == Fields(ifs, s, 0)[i] {
      PieceText(buf[..], s, pieces, start, i);
    }
  }

  lemma {:induction false} Beginning(buf: seq<char>, s: string, ifs: string)
    requires |buf| == |s| + 1 && buf[|s|] == NUL && buf[..|s|] == s
    ensures CutOut(buf, s, [], 0) && NoIfs(ifs, s, 0, 0) && Texts(s, []) == []
  {
    assert forall k :: 0 <= k < |s| ==> buf[k] == buf[..|s|][k];
  }

  lemma {:induction false} CharIs(ifs: string, s: string, start: nat, p: nat)
    requires p < |s| && NoIfs(ifs, s, start, p)
    ensures s[p] !in ifs ==> NoIfs(ifs, s, start, p + 1)
    ensures s[p] in ifs ==> IsIfs(ifs, s[p])
    ensures IsWhite(s[p]) <==> s[p] in " \t\n"
    ensures s[p] in ifs && s[p] in " \t\n" ==> IsSpace(ifs, s[p])
  {
  }

  lemma {:induction false} CutLater(buf: seq<char>, s: string, pieces: seq<Piece>, at: nat, later: nat)
    requires CutOut(buf, s, pieces, at) && at <= later
    ensures CutOut(buf, s, pieces, later)
  {
  }

  lemma {:induction false} NothingYet(ifs: string, s: string, at: nat)
    ensures NoIfs(ifs, s, at, at)
  {
  }

  lemma {:induction false} TextsAre(s: string, pieces: seq<Piece>)
    requires forall i :: 0 <= i < |pieces| ==> pieces[i].start <= pieces[i].end <= |s|
    ensures |Texts(s, pieces)| == |pieces|
    ensures forall i :: 0 <= i < |pieces| ==> Texts(s, pieces)[i] == s[pieces[i].start..pieces[i].end]
  {
  }
}
