/** File names in makefiles: escaping with '^' and reading the escapes back, in place. */
module DepNames {
  import opened Basics

  /** A name as strings hold it: no terminator inside. */
  predicate IsText(s: string) {
    NUL !in s
  }

  /** The character at the head is only an escape for the next one. */
  predicate IsEscape(s: string) {
    s != [] && (s[0] == '^' || (s[0] == '$' && |s| > 1 && s[1] == '$'))
  }

  /** What depNameToReal makes of a name. */
  function Real(s: string): string {
    if s == [] then []
    else if !IsEscape(s) then [s[0]] + Real(s[1..])
    else if |s| == 1 then []
    else [s[1]] + Real(s[2..])
  }

  /** The name does not stop behind an escape; if it does, the loop runs past the terminator. */
  predicate EndsWell(s: string) {
    if s == [] then true
    else if !IsEscape(s) then EndsWell(s[1..])
    else |s| > 1 && EndsWell(s[2..])
  }

  predicate NeedsEscape(s: string)
    requires s != []
  {
    s[0] in "#!@-^" || (s[0] == '$' && (|s| == 1 || s[1] != '('))
  }

  /** What depNameToMake makes of a name. */
  function Make(s: string): string {
    if s == [] then []
    else (if NeedsEscape(s) then ['^', s[0]] else [s[0]]) + Make(s[1..])
  }

  lemma {:induction false} MakeHead(s: string)
    ensures s == [] <==> Make(s) == []
    ensures s != [] && s[0] !in "#!@-^$" ==> Make(s)[0] == s[0]
  {
  }

  /** Escaping is undone by unescaping, for every name. */
  lemma {:induction false} RealOfMake(s: string)
    ensures Real(Make(s)) == s && EndsWell(Make(s))
  {
    if s != [] {
      RealOfMake(s[1..]);
      var m, rest := Make(s), Make(s[1..]);
      if NeedsEscape(s) {
        assert m == ['^', s[0]] + rest && m[2..] == rest && m[1] == s[0];
      } else {
        assert m == [s[0]] + rest && m[1..] == rest;
        if s[0] == '$' {
          MakeHead(s[1..]);
          assert m[1] == '(';
        }
      }
      assert s == [s[0]] + s[1..];
    }
  }

  /** Escaping never makes a name shorter, nor more than twice as long. */
  lemma {:induction false} MakeLength(s: string)
    ensures |s| <= |Make(s)| <= 2 * |s|
  {
    if s != [] {
      MakeLength(s[1..]);
    }
  }

  lemma {:induction false} RealLength(s: string)
    ensures |Real(s)| <= |s|
  {
    if s != [] {
      if IsEscape(s) && |s| > 1 {
        RealLength(s[2..]);
      } else if !IsEscape(s) {
        RealLength(s[1..]);
      }
    }
  }

  /** The first i characters have become done. */
  ghost predicate RealSoFar(s: string, i: nat, done: string) {
    i <= |s| && EndsWell(s[i..]) && done + Real(s[i..]) == Real(s)
  }

  lemma {:induction false} RealStep(s: string, i: nat, done: string)
    requires RealSoFar(s, i, done) && i < |s|
    ensures var escape := s[i] == '^' || (s[i] == '$' && i + 1 < |s| && s[i + 1] == '$');
            && (escape ==> i + 1 < |s| && RealSoFar(s, i + 2, done + [s[i + 1]]))
            && (!escape ==> RealSoFar(s, i + 1, done + [s[i]]))
  {
    var t := s[i..];
    assert t[0] == s[i] && t[1..] == s[i + 1..];
    if i + 1 < |s| {
      assert t[1] == s[i + 1] && t[2..] == s[i + 2..];
      if IsEscape(t) {
        assert done + ([s[i + 1]] + Real(s[i + 2..])) == (done + [s[i + 1]]) + Real(s[i + 2..]);
      }
    }
    if !IsEscape(t) {
      assert done + ([s[i]] + Real(s[i + 1..])) == (done + [s[i]]) + Real(s[i + 1..]);
    }
  }

  lemma {:induction false} RealStart(s: string)
    requires EndsWell(s)
    ensures RealSoFar(s, 0, [])
  {
    assert s[0..] == s && [] + Real(s) == Real(s);
  }

  lemma {:induction false} RealEnd(s: string, done: string)
    requires RealSoFar(s, |s|, done)
    ensures done == Real(s)
  {
    assert s[|s|..] == [] && done + [] == done;
  }

  lemma {:induction false} TextIs(s: string)
    ensures IsText(s) ==> forall k :: 0 <= k < |s| ==> s[k] != NUL
  {
  }

  /** depNameToReal on a terminated string in a buffer. */
  method NameToReal(psz: array<char>, cch: nat) returns (cchNewName: nat)
    requires cch < psz.Length && psz[cch] == NUL && IsText(psz[..cch]) && EndsWell(psz[..cch])
    modifies psz
    ensures cchNewName <= cch && psz[..cchNewName] == Real(old(psz[..cch])) && psz[cchNewName] == NUL
  {
    hide *;
    ghost var s := psz[..cch];
    TextIs(s);
    cchNewName := cch;
    var i: nat, iDisplacement: nat := 0, 0;
    RealStart(s);
    while psz[i] != NUL
      invariant iDisplacement <= i <= cch && cchNewName == cch - iDisplacement && psz[cch] == NUL
      invariant forall k :: i <= k < cch ==> psz[k] == s[k]
      invariant RealSoFar(s, i, psz[..i - iDisplacement])
      decreases cch - i
    {
      ghost var at := i - iDisplacement;
      ghost var done := psz[..at];
      RealStep(s, i, done);
      if psz[i] == '^' || (psz[i] == '$' && psz[i + 1] == '$') {
        iDisplacement := iDisplacement + 1;
        i := i + 1;
        cchNewName := cchNewName - 1;
      }
      if iDisplacement != 0 {
        psz[i - iDisplacement] := psz[i];
      }
      i := i + 1;
      assert psz[at] == s[i - 1] && psz[..at] == done;
      assert psz[..at + 1] == done + [s[i - 1]];
    }
    RealEnd(s, psz[..i - iDisplacement]);
    psz[i - iDisplacement] := NUL;
  }

  /** The first i characters have become done. */
  ghost predicate MadeSoFar(s: string, i: nat, done: string) {
    i <= |s| && done + Make(s[i..]) == Make(s)
  }

  lemma {:induction false} MakeStep(s: string, i: nat, done: string)
    requires MadeSoFar(s, i, done) && i < |s|
    ensures var escape := s[i] in "#!@-^" || (s[i] == '$' && (i + 1 == |s| || s[i + 1] != '('));
            && (escape ==> MadeSoFar(s, i + 1, done + ['^'] + [s[i]]) && done + ['^'] <= Make(s))
            && (!escape ==> MadeSoFar(s, i + 1, done + [s[i]]))
            && |done| + (if escape then 2 else 1) <= |Make(s)| && done <= Make(s)
  {
    var t := s[i..];
    assert t[0] == s[i] && t[1..] == s[i + 1..];
    assert done + (['^', s[i]] + Make(s[i + 1..])) == done + ['^'] + [s[i]] + Make(s[i + 1..]);
    assert done + ([s[i]] + Make(s[i + 1..])) == done + [s[i]] + Make(s[i + 1..]);
  }

  lemma {:induction false} MakeEnds(s: string)
    ensures MadeSoFar(s, 0, []) && (forall done :: MadeSoFar(s, |s|, done) ==> done == Make(s))
  {
    assert s[0..] == s && [] + Make(s) == Make(s);
    forall done | MadeSoFar(s, |s|, done) ensures done == Make(s) {
      assert s[|s|..] == [] && done + [] == done;
    }
  }

  /** depNameToMake. It fails exactly when the buffer cannot take the escaped name. The terminator is not
      counted: exactly when the name fills the buffer to its end there is no place for it, fInside is false, and
      the code writes it behind the buffer. */
  method NameToMake(pszName: array<char>, cchName: nat, pszSrc: string) returns (fOk: bool, cch: nat, fInside: bool)
    requires cchName <= pszName.Length && IsText(pszSrc)
    modifies pszName
    ensures fOk <==> |Make(pszSrc)| <= cchName
    ensures fOk ==> cch == |Make(pszSrc)| && pszName[..cch] == Make(pszSrc)
    ensures fInside <==> !(|Make(pszSrc)| == cchName == pszName.Length)
    ensures fOk && fInside ==> cch < pszName.Length && pszName[cch] == NUL
    ensures !fOk ==> pszName[..cchName] == Make(pszSrc)[..cchName]
  {
    hide *;
    var left := cchName;
    var i: nat := 0;
    cch, fInside := 0, true;
    MakeEnds(pszSrc);
    while i < |pszSrc|
      invariant i <= |pszSrc| && cch <= cchName && left == cchName - cch
      invariant MadeSoFar(pszSrc, i, pszName[..cch])
    {
      MakeStep(pszSrc, i, pszName[..cch]);
      ghost var done := pszName[..cch];
      if pszSrc[i] in "#!@-^" || (pszSrc[i] == '$' && (i + 1 == |pszSrc| || pszSrc[i + 1] != '(')) {
        if left == 0 {
          return false, cch, true;
        }
        left := left - 1;
        pszName[cch] := '^';
        cch := cch + 1;
        assert pszName[..cch] == done + ['^'];
      }
      ghost var done' := pszName[..cch];
      if left == 0 {
        return false, cch, true;
      }
      left := left - 1;
      pszName[cch] := pszSrc[i];
      cch := cch + 1;
      assert pszName[..cch] == done' + [pszSrc[i]];
      i := i + 1;
    }
    fOk, fInside := true, cch < pszName.Length;
    if fInside {
      pszName[cch] := NUL;
    }
  }
}
