/** The loops of the fast comparison, over positions in the two texts. */
module FastCompareLoops {
  import opened Basics
  import opened FastCompare
  import opened FastCompareEnds
  import opened FastCompareMatches
  import opened FastComparePlaces

  lemma {:induction false} TailAt(a: string, q: nat)
    requires q < |a|
    ensures a[q..] != [] && a[q..][0] == a[q] && a[q..][1..] == a[q + 1..]
  {
  }

  method SkipSpaces(a: string, p: nat) returns (psz: nat)
    requires p <= |a|
    ensures p <= psz <= |a| && a[psz..] == DropSpaces(a[p..])
  {
    psz := p;
    while psz < |a| && IsSpace(a[psz]) && a[psz] != '\n'
      invariant p <= psz <= |a| && DropSpaces(a[psz..]) == DropSpaces(a[p..])
    {
      TailAt(a, psz);
      psz := psz + 1;
    }
  }

  method SkipBlanks(a: string, p: nat) returns (psz: nat)
    requires p <= |a|
    ensures p <= psz <= |a| && a[psz..] == DropBlanks(a[p..])
  {
    psz := p;
    while psz < |a| && IsBlank(a[psz])
      invariant p <= psz <= |a| && DropBlanks(a[psz..]) == DropBlanks(a[p..])
    {
      TailAt(a, psz);
      psz := psz + 1;
    }
  }

  lemma {:induction false} DigitStep(a: string, psz: nat, iLine: nat)
    requires psz < |a| && IsDigit(a[psz])
    ensures Number(iLine, a[psz..]) == Number(AddDigit(iLine, a[psz]), a[psz + 1..])
    ensures DropDigits(a[psz..]) == DropDigits(a[psz + 1..])
  {
    hide AddDigit;
    TailAt(a, psz);
  }

  lemma {:induction false} DigitsEnd(t: string, iLine: nat)
    requires t == [] || !IsDigit(t[0])
    ensures Number(iLine, t) == iLine && DropDigits(t) == t
  {
  }

  method ReadNumber(a: string, p: nat) returns (iLine: nat, psz: nat)
    requires p <= |a|
    ensures p <= psz <= |a| && a[psz..] == DropDigits(a[p..]) && iLine == Number(0, a[p..])
  {
    hide Number, DropDigits, AddDigit;
    iLine, psz := 0, p;
    while psz < |a| && IsDigit(a[psz])
      invariant p <= psz <= |a| && Number(iLine, a[psz..]) == Number(0, a[p..])
      invariant DropDigits(a[psz..]) == DropDigits(a[p..])
    {
      DigitStep(a, psz, iLine);
      iLine := AddDigit(iLine, a[psz]);
      psz := psz + 1;
    }
    DigitsEnd(a[psz..], iLine);
  }

  /** kOCEntryIsLineStatement; pszFile is where the file's name starts. */
  method IsLineStatement(a: string, p: nat) returns (fOk: bool, iLine: nat, pszFile: nat)
    requires p <= |a|
    ensures fOk <==> LineStatement(a[p..]).Some?
    ensures fOk ==> pszFile <= |a| && LineStatement(a[p..]).value == Location(iLine, a[pszFile..])
  {
    hide DropBlanks, DropDigits, Number;
    if p == |a| || a[p] != '#' {
      return false, 0, 0;
    }
    TailAt(a, p);
    var psz := SkipBlanks(a, p + 1);
    ghost var word := a[psz..];
    if IsWord(a[psz..]) {
      psz := if |a| - psz > 4 then psz + 5 else |a|;
    }
    assert a[psz..] == DropWord(word);
    if psz == |a| || !IsDigit(a[psz]) {
      return false, 0, 0;
    }
    iLine, psz := ReadNumber(a, psz);
    if psz == |a| || !IsBlank(a[psz]) {
      return false, 0, 0;
    }
    pszFile := SkipBlanks(a, psz);
    fOk := true;
  }

  /** The text from a position on, if there is one. */
  function FileAt(a: string, psz: Option<nat>): Option<string>
    requires psz.Some? ==> psz.value <= |a|
  {
    if psz.Some? then Some(a[psz.value..]) else None
  }

  lemma {:induction false} KindIs(t: string)
    ensures var v := DropSpaces(t);
            && (v == [] || v[0] == '\n' ==> KindOf(t) == Blank)
            && (v != [] && v[0] != '\n' && LineStatement(v).Some? ==> KindOf(t) == Statement && v[0] == '#')
            && (v != [] && v[0] == '}' ==>
                 var w := DropSpaces(v[1..]); KindOf(t) == if w == [] || w[0] == '\n' then Brace else Significant)
            && (v != [] && v[0] != '\n' && v[0] != '}' && LineStatement(v).None? ==> KindOf(t) == Significant)
  {
    hide DropSpaces;
  }

  lemma {:induction false} StepIs(s: Skip)
    requires s.text != [] && KindOf(s.text) != Significant
    ensures SkipFrom(s) == SkipFrom(SkipStep(s))
    ensures var v := DropSpaces(s.text);
            && (KindOf(s.text) == Blank ==>
                 SkipStep(s) == if v == [] then s.(text := []) else s.(text := v[1..], iLine := Inc(s.iLine)))
            && (KindOf(s.text) == Statement ==>
                 && LineStatement(v).Some?
                 && SkipStep(s) ==
                      Skip(DropLine(v), LineStatement(v).value.iLine, Some(LineStatement(v).value.file),
                          s.cCurlyBraces))
    ensures KindOf(s.text) == Brace ==> DropSpaces(s.text) != []
    ensures KindOf(s.text) == Brace ==>
              var w := DropSpaces(DropSpaces(s.text)[1..]);
              SkipStep(s) ==
                s.(text := w, iLine := if w == [] then s.iLine else Inc(s.iLine), cCurlyBraces := s.cCurlyBraces + 1)
  {
    hide DropSpaces, LineStatement, DropLine;
  }

  lemma {:induction false} StopIs(s: Skip)
    requires s.text == [] || KindOf(s.text) == Significant
    ensures SkipFrom(s) == s
  {
  }

  /** memchr for the end of the line. */
  method NextLine(a: string, p: nat) returns (psz: nat)
    requires p < |a|
    ensures p < psz <= |a| && a[psz..] == DropLine(a[p..]) && psz - p == LineLen(a[p..])
  {
    psz := p;
    while psz < |a| && a[psz] != '\n'
      invariant p <= psz <= |a| && LineLen(a[p..]) == psz - p + LineLen(a[psz..])
      invariant psz == p ==> psz < |a|
    {
      TailAt(a, psz);
      psz := psz + 1;
    }
    if psz < |a| {
      TailAt(a, psz);
      psz := psz + 1;
    }
    assert a[psz..] == a[p..][psz - p..];
  }

  lemma {:induction false} NewlineStep(s: Skip)
    requires s.text != [] && s.text[0] == '\n'
    ensures SkipFrom(s) == SkipFrom(s.(text := s.text[1..], iLine := Inc(s.iLine)))
  {
    hide DropLine, LineStatement;
    assert DropSpaces(s.text) == s.text;
  }

  /** One round on a line that does not start with its end; fBreak says that the line is significant. */
  method SkipLine(a: string, p: nat, iLine0: nat, pszFile0: Option<nat>, cCurlyBraces0: nat)
      returns (fBreak: bool, psz1: nat, iLine: nat, pszFile: Option<nat>, cCurlyBraces: nat)
    requires p < |a| && (pszFile0.Some? ==> pszFile0.value <= |a|)
    ensures p <= psz1 <= |a| && (pszFile.Some? ==> pszFile.value <= |a|)
    ensures var s0 := Skip(a[p..], iLine0, FileAt(a, pszFile0), cCurlyBraces0);
            var s := Skip(a[psz1..], iLine, FileAt(a, pszFile), cCurlyBraces);
            (fBreak ==> s == s0 == SkipFrom(s0)) && (!fBreak ==> p < psz1 && SkipFrom(s) == SkipFrom(s0))
  {
    hide SkipFrom, SkipStep, KindOf, DropSpaces, LineStatement, DropLine, Inc, LineLen;
    ghost var s0 := Skip(a[p..], iLine0, FileAt(a, pszFile0), cCurlyBraces0);
    fBreak, psz1, iLine, pszFile, cCurlyBraces := false, p, iLine0, pszFile0, cCurlyBraces0;
    KindIs(a[p..]);
    var psz := SkipSpaces(a, p);
    if KindOf(a[p..]) == Significant {
      StopIs(s0);
    } else {
      StepIs(s0);
    }
    if psz < |a| && a[psz] == '\n' {
      psz1 := psz + 1;
      iLine := Inc(iLine);
      return;
    }
    if psz < |a| && a[psz] == '#' {
      var fOk, iLineNew, pszName := IsLineStatement(a, psz);
      if fOk {
        iLine, pszFile := iLineNew, Some(pszName);
        psz1 := NextLine(a, psz);
        return;
      }
    }
    if psz < |a| && a[psz] == '}' {
      TailAt(a, psz);
      psz := SkipSpaces(a, psz + 1);
      if psz < |a| && a[psz] == '\n' {
        iLine := Inc(iLine);
      } else if psz != |a| {
        fBreak := true;
        return;
      }
      cCurlyBraces := cCurlyBraces + 1;
      psz1 := psz;
    } else if psz == |a| {
      psz1 := psz;
    } else {
      HashOnly(a[psz..]);
      fBreak := true;
    }
  }

  lemma {:induction false} HashOnly(v: string)
    ensures v != [] && v[0] != '#' ==> LineStatement(v).None?
  {
  }

  /** The loop over one text, from the start of a line on. */
  method SkipLines(a: string, p: nat) returns (psz1: nat, iLine: nat, pszFile: Option<nat>, cCurlyBraces: nat)
    requires p <= |a|
    ensures psz1 <= |a| && (pszFile.Some? ==> pszFile.value <= |a|)
    ensures Skip(a[psz1..], iLine, FileAt(a, pszFile), cCurlyBraces) == SkipFrom(Skip(a[p..], 0, None, 0))
  {
    hide SkipFrom, SkipStep, KindOf, DropSpaces, LineStatement, DropLine, Inc, LineLen;
    psz1, iLine, pszFile, cCurlyBraces := p, 0, None, 0;
    while psz1 < |a|
      invariant psz1 <= |a| && (pszFile.Some? ==> pszFile.value <= |a|)
      invariant SkipFrom(Skip(a[psz1..], iLine, FileAt(a, pszFile), cCurlyBraces)) == SkipFrom(Skip(a[p..], 0, None, 0))
      decreases |a| - psz1
    {
      ghost var s := Skip(a[psz1..], iLine, FileAt(a, pszFile), cCurlyBraces);
      if a[psz1] == '\n' {
        NewlineStep(s);
        psz1 := psz1 + 1;
        iLine := Inc(iLine);
      } else {
        var fBreak;
        fBreak, psz1, iLine, pszFile, cCurlyBraces := SkipLine(a, psz1, iLine, pszFile, cCurlyBraces);
        if fBreak {
          return;
        }
      }
    }
    StopIs(Skip(a[psz1..], iLine, FileAt(a, pszFile), cCurlyBraces));
  }

  /** Nothing but blanks between psz and the start of its line. */
  method OnlyBlanksBefore(a: string, p: nat) returns (r: bool)
    requires p <= |a|
    ensures r == BlankBefore(a, p)
  {
    var n: nat := p;
    while n > 0 && IsBlank(a[n - 1])
      invariant n <= p && BlankBefore(a, n) == BlankBefore(a, p)
    {
      n := n - 1;
    }
    r := n == 0 || a[n - 1] == '\n';
  }

  /** kOCEntryFindFileStatement from pszStart back to the start of the text. */
  method FindFileStatement(a: string, pszStart: nat, iLine0: nat) returns (pszFile: Option<nat>, iLine: nat)
    requires pszStart < |a|
    ensures pszFile.Some? ==> pszFile.value <= |a|
    ensures FindFile(a, pszStart + 1, iLine0) ==
              if pszFile.Some? then Some(Location(iLine, a[pszFile.value..])) else None
  {
    hide LineStatement, BlankBefore, Inc;
    iLine := iLine0;
    var n: nat := pszStart + 1;
    while n > 0
      invariant n <= |a| && FindFile(a, n, iLine) == FindFile(a, pszStart + 1, iLine0)
    {
      if a[n - 1] == '\n' {
        iLine := Inc(iLine);
      } else if a[n - 1] == '#' {
        var fBlank := OnlyBlanksBefore(a, n - 1);
        if fBlank {
          var fOk, iLineTmp, psz := IsLineStatement(a, n - 1);
          if fOk {
            iLine := (iLine + iLineTmp + (WIDTH - 1)) % WIDTH;
            return Some(psz), iLine;
          }
        }
      } else {
        HashOnly(a[n - 1..]);
      }
      n := n - 1;
    }
    pszFile := None;
  }

  function At(a: string, p: nat): char {
    if p < |a| then a[p] else NUL
  }

  method SameFileName(a: string, p1: nat, b: string, p2: nat) returns (r: bool)
    requires p1 <= |a| && p2 <= |b|
    ensures r == SameName(a[p1..], b[p2..])
  {
    var pszFile1: nat, pszFile2: nat := p1, p2;
    while At(a, pszFile1) == At(b, pszFile2) && At(a, pszFile1) != '\n' && At(a, pszFile1) != NUL
      invariant pszFile1 <= |a| && pszFile2 <= |b|
      invariant SameName(a[pszFile1..], b[pszFile2..]) == SameName(a[p1..], b[p2..])
      decreases |a| - pszFile1
    {
      TailAt(a, pszFile1);
      TailAt(b, pszFile2);
      pszFile1, pszFile2 := pszFile1 + 1, pszFile2 + 1;
    }
    r := At(a, pszFile1) == At(b, pszFile2);
  }

  /** How many of the next cch characters are the same. */
  method Locate(a: string, b: string, p1: nat, p2: nat, cch: nat) returns (n: nat)
    requires p1 + cch <= |a| && p2 + cch <= |b|
    ensures n <= cch && a[p1..p1 + n] == b[p2..p2 + n] && (n < cch ==> a[p1 + n] != b[p2 + n])
  {
    n := 0;
    assert a[p1..p1] == [] == b[p2..p2];
    while cch - n >= 512 && a[p1 + n..p1 + n + 512] == b[p2 + n..p2 + n + 512]
      invariant n <= cch && a[p1..p1 + n] == b[p2..p2 + n]
    {
      Extend(a, b, p1, p2, n, 512);
      n := n + 512;
    }
    while cch - n >= 64 && a[p1 + n..p1 + n + 64] == b[p2 + n..p2 + n + 64]
      invariant n <= cch && a[p1..p1 + n] == b[p2..p2 + n]
    {
      Extend(a, b, p1, p2, n, 64);
      n := n + 64;
    }
    while n < cch && a[p1 + n] == b[p2 + n]
      invariant n <= cch && a[p1..p1 + n] == b[p2..p2 + n]
    {
      Extend(a, b, p1, p2, n, 1);
      n := n + 1;
    }
  }

  /** Where the line starts. */
  method StartOfLine(a: string, p: nat) returns (psz: nat)
    requires p <= |a|
    ensures psz == LineStart(a, p)
  {
    psz := p;
    while psz > 0 && a[psz - 1] != '\n'
      invariant psz <= p && LineStart(a, psz) == LineStart(a, p)
    {
      psz := psz - 1;
    }
  }

  /** The location of a significant line: the last line statement in front of it. */
  method Locality(a: string, pszMismatch: nat, psz1: nat, iLine0: nat, pszFile0: Option<nat>, ghost s: Skip)
      returns (iLine: nat, pszFile: Option<nat>)
    requires pszMismatch < |a| && psz1 <= |a| && (pszFile0.Some? ==> pszFile0.value <= |a|)
    requires s.iLine == iLine0 && s.file == FileAt(a, pszFile0)
    ensures pszFile.Some? ==> pszFile.value <= |a|
    ensures Where(a, pszMismatch, s) == if pszFile.Some? then Some(Location(iLine, a[pszFile.value..])) else None
  {
    hide FindFile;
    iLine, pszFile := iLine0, pszFile0;
    if pszFile.None? {
      pszFile, iLine := FindFileStatement(a, pszMismatch, iLine);
    }
  }

  /** What happens behind a difference. */
  method Differ(a: string, b: string, p1: nat, p2: nat) returns (r: Outcome)
    requires p1 <= |a| && p2 <= |b| && p1 - LineStart(a, p1) <= p2
    ensures r == Resume(a, b, p1, p2)
  {
    hide SkipFrom, Where, LineStart, LineLen, SameName;
    var pszMismatch1 := StartOfLine(a, p1);
    var pszMismatch2 := p2 - (p1 - pszMismatch1);
    ghost var i1, i2 := Skip(a[pszMismatch1..], 0, None, 0), Skip(b[pszMismatch2..], 0, None, 0);
    SkipShortens(i1);
    SkipShortens(i2);
    var psz1, iLine1, pszFile1, cCurlyBraces1 := SkipLines(a, pszMismatch1);
    var psz2, iLine2, pszFile2, cCurlyBraces2 := SkipLines(b, pszMismatch2);
    if cCurlyBraces1 != cCurlyBraces2 {
      return Done(false);
    }
    if psz1 == |a| || psz2 == |b| {
      return Done(psz1 == |a| && psz2 == |b|);
    }
    var psz := NextLine(a, psz1);
    var cch := psz - psz1;
    if psz2 + cch > |b| {
      return Done(false);
    }
    assert a[psz1..psz1 + cch] == a[psz1..][..cch] && b[psz2..psz2 + cch] == b[psz2..][..cch];
    if a[psz1..psz1 + cch] != b[psz2..psz2 + cch] {
      return Done(false);
    }
    iLine1, pszFile1 := Locality(a, pszMismatch1, psz1, iLine1, pszFile1, SkipFrom(i1));
    iLine2, pszFile2 := Locality(b, pszMismatch2, psz2, iLine2, pszFile2, SkipFrom(i2));
    if pszFile1.Some? && pszFile2.Some? {
      if iLine1 != iLine2 {
        return Done(false);
      }
      var fSame := SameFileName(a, pszFile1.value, b, pszFile2.value);
      if !fSame {
        return Done(false);
      }
    } else if pszFile1.Some? || pszFile2.Some? {
      return Done(false);
    }
    r := Go(psz1 + cch, psz2 + cch);
  }

  /** The bytes compared in one block: all that both texts have left, but no more than BLOCK. */
  lemma {:induction false} EqualBlock(a: string, b: string, p1: nat, p2: nat, cch: nat)
    requires InStep(a, b, p1, p2) && p1 + cch <= |a| && p2 + cch <= |b| && cch == Block(a, b, p1, p2) != 0
    requires a[p1..p1 + cch] == b[p2..p2 + cch]
    ensures InStep(a, b, p1 + cch, p2 + cch) && EndOf(a, b, p1 + cch, p2 + cch) == EndOf(a, b, p1, p2)
  {
    hide *;
    BlockNonempty(a, b, p1, p2);
    RoundBlock(a, b, p1, p2);
    EndOfNext(a, b, p1, p2);
  }

  lemma {:induction false} AtDifference(a: string, b: string, p1: nat, p2: nat, n: nat)
    requires InStep(a, b, p1, p2) && p1 <= |a| && p2 <= |b| && !SameBlock(a, b, p1, p2)
    requires var cch := Block(a, b, p1, p2);
             && n <= cch && a[p1..p1 + n] == b[p2..p2 + n] && (n < cch ==> a[p1 + n] != b[p2 + n])
    ensures p1 + n <= |a| && p2 + n <= |b| && p1 + n - LineStart(a, p1 + n) <= p2 + n
    ensures match Resume(a, b, p1 + n, p2 + n)
            case Done(fMatch) => EndOf(a, b, p1, p2) == Some(fMatch)
            case Go(q1, q2) =>
              if q1 == p1 && q2 == p2 then EndOf(a, b, p1, p2) == None
              else
                && InStep(a, b, q1, q2) && EndOf(a, b, p1, p2) == EndOf(a, b, q1, q2)
                && q1 <= |a| && q2 <= |b| && (q1 > p1 || (q1 == p1 && q2 > p2))
  {
    hide *;
    LocatedIsCommon(a, b, p1, p2, n);
    RoundDiffers(a, b, p1, p2);
    EndOfNext(a, b, p1, p2);
    var r := Round(a, b, p1, p2);
    if r.Go? && (r.psz1 != p1 || r.psz2 != p2) {
      StaysBehind(a, b, p1, p2, r.psz1, r.psz2);
    }
  }

  /** kOCEntryCompareFast, for all texts. Where a round comes back to its own start the code goes on for ever; here
      the loop stops with no result. On newline-terminated new output there is a result; a match then means that
      the texts have the same number of lone closing braces, and the same significant lines but for the losses at
      bare lines, in the same places exactly if all numbers compared are as wrong on both sides. Identical texts match,
          unless a significant line is left unterminated. */
  method CompareFast(a: string, b: string) returns (r: Option<bool>)
    ensures InStep(a, b, 0, 0) && r == EndOf(a, b, 0, 0)
    ensures r.None? <==> forall k: nat :: Rounds(a, b, 0, 0, k).Go?
    ensures Ended(a) ==> r.Some?
    ensures Ended(a) && r == Some(true) ==>
              var (n1, n2) := Losses(a, b, 0, 0, 0, 0);
              && Braces(a) == Braces(b) && |Sig(a)| + n1 == |Sig(b)| + n2
              && (SameCode(a, b) <==> n1 == n2 == 0)
    ensures Ended(a) && r == Some(true) && (NoBareLine(a) || NoBareLine(b)) ==> SameCode(a, b)
    ensures Ended(a) && NoBareLine(a) && AllSeen(a) && AllSeen(b) && r == Some(true) ==>
              (Located(a) == Located(b) <==> Even(a, b, 0, 0, 0, 0))
    ensures Ended(a) && NoBareLine(a) && AllSeen(a) && AllSeen(b) && Fair(a, b, 0, 0, 0, 0) ==>
              r == Some(Items(a) == Items(b))
    ensures a == b ==> r == if KindOf(a[LineStart(a, |a|)..]) == Significant then None else Some(true)
  {
    hide *;
    var psz1: nat, psz2: nat := 0, 0;
    Begin(a, b);
    while true
      invariant InStep(a, b, 0, 0) && InStep(a, b, psz1, psz2) && EndOf(a, b, psz1, psz2) == EndOf(a, b, 0, 0)
      decreases |a| - psz1, |b| - psz2
    {
      InBounds(a, b, psz1, psz2);
      BlockIs(a, b, psz1, psz2);
      BlockNonempty(a, b, psz1, psz2);
      var cch := if |a| - psz1 < |b| - psz2 then |a| - psz1 else |b| - psz2;
      cch := if cch > BLOCK then BLOCK else cch;
      if cch != 0 && a[psz1..psz1 + cch] == b[psz2..psz2 + cch] {
        EqualBlock(a, b, psz1, psz2, cch);
        psz1, psz2 := psz1 + cch, psz2 + cch;
      } else {
        var n := Locate(a, b, psz1, psz2, cch);
        AtDifference(a, b, psz1, psz2, n);
        var out := Differ(a, b, psz1 + n, psz2 + n);
        if out.Done? {
          ResultMeans(a, b);
          return Some(out.fMatch);
        }
        if out == Go(psz1, psz2) {
          ResultMeans(a, b);
          return None;
        }
        psz1, psz2 := out.psz1, out.psz2;
      }
    }
  }

  lemma {:induction false} ResultMeans(a: string, b: string)
    ensures InStep(a, b, 0, 0)
    ensures EndOf(a, b, 0, 0).None? <==> forall k: nat :: Rounds(a, b, 0, 0, k).Go?
    ensures Ended(a) ==> EndOf(a, b, 0, 0).Some?
    ensures Ended(a) && EndOf(a, b, 0, 0) == Some(true) ==>
              var (n1, n2) := Losses(a, b, 0, 0, 0, 0);
              && Braces(a) == Braces(b) && |Sig(a)| + n1 == |Sig(b)| + n2
              && (SameCode(a, b) <==> n1 == n2 == 0)
    ensures Ended(a) && EndOf(a, b, 0, 0) == Some(true) && (NoBareLine(a) || NoBareLine(b)) ==> SameCode(a, b)
    ensures Ended(a) && NoBareLine(a) && AllSeen(a) && AllSeen(b) && EndOf(a, b, 0, 0) == Some(true) ==>
              (Located(a) == Located(b) <==> Even(a, b, 0, 0, 0, 0))
    ensures Ended(a) && NoBareLine(a) && AllSeen(a) && AllSeen(b) && Fair(a, b, 0, 0, 0, 0) ==>
              EndOf(a, b, 0, 0) == Some(Items(a) == Items(b))
    ensures a == b ==>
              EndOf(a, b, 0, 0) == if KindOf(a[LineStart(a, |a|)..]) == Significant then None else Some(true)
  {
    hide *;
    WhenItEnds(a, b);
    if Ended(a) {
      EndedEnds(a, b, 0, 0);
      MatchMeansSameCode(a, b);
      if NoBareLine(a) && AllSeen(a) && AllSeen(b) {
        MatchMeansSamePlaces(a, b);
        if Fair(a, b, 0, 0, 0, 0) {
          MatchIff(a, b);
        }
      }
    }
    if a == b {
      SelfEnds(a, 0);
    }
  }
}
