/** Collecting the file names of line directives from preprocessor output that comes in chunks. */
module DepScan {
  import opened Basics

  // ----- Names --------------------------------------------------------------------------

  /** kOCDepUnescape: a backslash stands for the character behind it. */
  function Unescape(s: string): string {
    if s == [] || s[0] == '\0' then []
    else if s[0] == '\\' && |s| > 1 && s[1] != '\0' then [s[1]] + Unescape(s[2..])
    else [s[0]] + Unescape(s[1..])
  }

  /** How many backslashes stand right before i. */
  function Backslashes(s: seq<char>, i: nat): (n: nat)
    requires i <= |s|
    ensures n <= i
  {
    if i > 0 && s[i - 1] == '\\' then 1 + Backslashes(s, i - 1) else 0
  }

  predicate Escaped(s: seq<char>, i: nat)
    requires i <= |s|
  {
    Backslashes(s, i) % 2 == 1
  }

  /** kOCDepIsEscaped: an odd run of backslashes escapes. */
  method IsEscaped(pach: array<char>, offChar: nat) returns (r: bool)
    requires offChar <= pach.Length
    ensures r <==> Escaped(pach[..], offChar)
  {
    var off: nat := offChar;
    ghost var s := pach[..];
    while off > 0 && pach[off - 1] == '\\'
      invariant off <= offChar && (Backslashes(s, offChar) - Backslashes(s, off)) % 2 == 0
      decreases off
    {
      assert Backslashes(s, off) == 1 + Backslashes(s, off - 1);
      if off == 1 || pach[off - 2] != '\\' {
        assert Backslashes(s, off - 1) == 0;
        return true;
      }
      assert Backslashes(s, off - 1) == 1 + Backslashes(s, off - 2);
      off := off - 2;
    }
    r := false;
  }

  // ----- The states ----------------------------------------------------------------------

  /** Where in a line the reader is. NeedL and NeedLSpace tell whether there was a blank behind the hash. */
  datatype State =
    | NeedNewLine | NeedHash | NeedL | NeedLSpace | NeedI | NeedN | NeedE
    | NeedSpace | NeedFirstDigit | NeedMoreDigits | NeedQuote | NeedEndQuote

  /** The reader: its state, the name so far, the names found, and the last of them. */
  datatype Reader = Reader(state: State, name: string, deps: seq<string>, last: Option<string>)

  const START := Reader(NeedHash, [], [], None)

  /** depAdd keeps each name once. */
  function DepAdd(deps: seq<string>, name: string): seq<string> {
    if name in deps then deps else deps + [name]
  }

  function Enter(r: Reader): Reader {
    var name := Unescape(r.name);
    if r.last == Some(name) then r.(state := NeedNewLine, name := [])
    else r.(state := NeedNewLine, name := [], deps := DepAdd(r.deps, name), last := Some(name))
  }

  /** The line is not a directive after all. */
  function GiveUp(r: Reader, c: char): Reader {
    r.(state := if c == '\n' then NeedHash else NeedNewLine)
  }

  function Expect(r: Reader, c: char, want: bool, next: State): Reader {
    if want then r.(state := next) else GiveUp(r, c)
  }

  /** One character. */
  function Step(r: Reader, c: char): Reader {
    match r.state
    case NeedNewLine => GiveUp(r, c)
    case NeedHash => if IsBlank(c) then r else Expect(r, c, c == '#', NeedL)
    case NeedL => if IsBlank(c) then r.(state := NeedLSpace) else Expect(r, c, c == 'l', NeedI)
    case NeedLSpace =>
      if IsBlank(c) then r else if c == 'l' then r.(state := NeedI) else Expect(r, c, IsDigit(c), NeedMoreDigits)
    case NeedI => Expect(r, c, c == 'i', NeedN)
    case NeedN => Expect(r, c, c == 'n', NeedE)
    case NeedE => Expect(r, c, c == 'e', NeedSpace)
    case NeedSpace => Expect(r, c, IsBlank(c), NeedFirstDigit)
    case NeedFirstDigit => if IsBlank(c) then r else Expect(r, c, IsDigit(c), NeedMoreDigits)
    case NeedMoreDigits =>
      if IsDigit(c) then r else if IsBlank(c) then r.(state := NeedQuote) else Expect(r, c, c == '"', NeedEndQuote)
    case NeedQuote => if IsBlank(c) then r else Expect(r, c, c == '"', NeedEndQuote)
    case NeedEndQuote => if c == '"' && !Escaped(r.name, |r.name|) then Enter(r) else r.(name := r.name + [c])
  }

  /** The characters of s from i on. */
  function Feed(r: Reader, s: string, i: nat): Reader
    requires i <= |s|
    decreases |s| - i
  {
    if i == |s| then r else Feed(Step(r, s[i]), s, i + 1)
  }

  lemma {:induction false} FeedConcat(r: Reader, a: string, b: string, i: nat)
    requires i <= |a|
    ensures Feed(r, a + b, i) == Feed(Feed(r, a, i), b, 0)
    decreases |a| - i
  {
    if i == |a| {
      FeedSame(r, a + b, i, b, 0);
    } else {
      FeedConcat(Step(r, a[i]), a, b, i + 1);
    }
  }

  lemma {:induction false} FeedSame(r: Reader, s: string, i: nat, t: string, j: nat)
    requires i <= |s| && j <= |t| && s[i..] == t[j..]
    ensures Feed(r, s, i) == Feed(r, t, j)
    decreases |s| - i
  {
    if i < |s| {
      assert s[i] == s[i..][0] == t[j..][0] == t[j];
      assert s[i + 1..] == s[i..][1..] == t[j..][1..] == t[j + 1..];
      FeedSame(Step(r, s[i]), s, i + 1, t, j + 1);
    } else {
      assert |t[j..]| == 0;
    }
  }

  // ----- Lines as a whole ------------------------------------------------------------------

  /** The first quote at or behind i that is not escaped by the backslashes of the name that starts at q. */
  function EndQuote(s: string, q: nat, i: nat): (j: nat)
    requires q <= i <= |s|
    ensures i <= j <= |s|
    decreases |s| - i
  {
    if i == |s| || (s[i] == '"' && !Escaped(s[q..i], i - q)) then i else EndQuote(s, q, i + 1)
  }

  /** Where the number of a directive starts: "# line 1" or "# 1", the latter only with a blank in it. */
  function NumberAt(s: string): Option<nat> {
    var h := SkipBlanks(s, 0);
    if h == |s| || s[h] != '#' then None
    else
      var l := SkipBlanks(s, h + 1);
      if l + 4 < |s| && s[l..l + 4] == "line" && IsBlank(s[l + 4]) then
        var d := SkipBlanks(s, l + 5);
        if d < |s| && IsDigit(s[d]) then Some(d) else None
      else if l > h + 1 && l < |s| && IsDigit(s[l]) then Some(l)
      else None
  }

  /** Where the name of a directive starts, if the line is one as far as the opening quote. */
  function NameAt(s: string): Option<nat> {
    match NumberAt(s)
    case None => None
    case Some(d) =>
      if d > |s| then None
      else
        var q := SkipBlanks(s, SkipDigits(s, d));
        if q < |s| && s[q] == '"' then Some(q + 1) else None
  }

  /** The name as it stands in a directive that closes its quote. */
  function LineName(s: string): Option<string> {
    match NameAt(s)
    case None => None
    case Some(q) =>
      if q <= |s| && EndQuote(s, q, q) < |s| then Some(s[q..EndQuote(s, q, q)]) else None
  }

  /** Quoted names close on their own line. */
  predicate ClosesQuote(s: string) {
    NameAt(s).Some? ==> LineName(s).Some?
  }

  // ----- Reading a whole line -----------------------------------------------------------------

  predicate IsLine(t: string, s: string) {
    t == s + "\n" && '\n' !in s
  }

  lemma {:induction false} LineChars(t: string, s: string)
    requires IsLine(t, s)
    ensures |t| == |s| + 1 && t[|s|] == '\n' && forall k :: 0 <= k < |s| ==> t[k] == s[k] && t[k] != '\n'
  {
    assert forall k :: 0 <= k < |s| ==> s[k] in s;
  }

  /** Once the line is given up, nothing in it matters. */
  lemma {:induction false} RestOfLine(r: Reader, t: string, s: string, i: nat)
    requires IsLine(t, s) && i <= |s| && r.state == NeedNewLine
    ensures Feed(r, t, i) == r.(state := NeedHash)
    decreases |s| - i
  {
    LineChars(t, s);
    if i < |s| {
      RestOfLine(r, t, s, i + 1);
    } else {
      assert Feed(Step(r, t[i]), t, i + 1) == Step(r, t[i]);
    }
  }

  lemma {:induction false} GivenUp(r: Reader, t: string, s: string, i: nat)
    requires IsLine(t, s) && i <= |s| && Step(r, t[i]) == GiveUp(r, t[i])
    ensures Feed(r, t, i) == r.(state := NeedHash)
  {
    LineChars(t, s);
    if i < |s| {
      RestOfLine(r.(state := NeedNewLine), t, s, i + 1);
    } else {
      assert Feed(Step(r, t[i]), t, i + 1) == Step(r, t[i]);
    }
  }

  lemma {:induction false} BlanksPass(r: Reader, t: string, s: string, i: nat)
    requires IsLine(t, s) && i <= |s| && r.state in {NeedHash, NeedLSpace, NeedFirstDigit, NeedQuote}
    ensures Feed(r, t, i) == Feed(r, t, SkipBlanks(s, i))
    decreases |s| - i
  {
    LineChars(t, s);
    if i < |s| && IsBlank(s[i]) {
      BlanksPass(r, t, s, i + 1);
    }
  }

  lemma {:induction false} DigitsPass(r: Reader, t: string, s: string, i: nat)
    requires IsLine(t, s) && i <= |s| && r.state == NeedMoreDigits
    ensures Feed(r, t, i) == Feed(r, t, SkipDigits(s, i))
    decreases |s| - i
  {
    LineChars(t, s);
    if i < |s| && IsDigit(s[i]) {
      DigitsPass(r, t, s, i + 1);
    }
  }

  /** The name up to its end, with what has been read of it. */
  lemma {:induction false} NamePasses(r: Reader, t: string, s: string, q: nat, i: nat)
    requires IsLine(t, s) && q <= i <= |s| && r.state == NeedEndQuote && r.name == s[q..i]
    ensures var j := EndQuote(s, q, i);
            j < |s| ==> Feed(r, t, i) == Enter(r.(name := s[q..j])).(state := NeedHash)
    decreases |s| - i
  {
    LineChars(t, s);
    if i < |s| {
      if s[i] == '"' && !Escaped(s[q..i], i - q) {
        RestOfLine(Enter(r), t, s, i + 1);
      } else {
        assert s[q..i + 1] == s[q..i] + [s[i]];
        NamePasses(r.(name := r.name + [s[i]]), t, s, q, i + 1);
      }
    }
  }

  /** At the place where the quote has to be. */
  lemma {:induction false} AtQuote(r: Reader, t: string, s: string, q: nat)
    requires IsLine(t, s) && q <= |s| && (q < |s| ==> !IsBlank(s[q])) && r.name == []
    requires r.state == NeedQuote || (r.state == NeedMoreDigits && (q < |s| ==> !IsDigit(s[q])))
    ensures q == |s| || s[q] != '"' ==> Feed(r, t, q) == r.(state := NeedHash)
    ensures q < |s| && s[q] == '"' && EndQuote(s, q + 1, q + 1) < |s| ==>
              Feed(r, t, q) == Enter(r.(name := s[q + 1..EndQuote(s, q + 1, q + 1)])).(state := NeedHash)
  {
    LineChars(t, s);
    if q < |s| && s[q] == '"' {
      assert s[q + 1..q + 1] == [];
      NamePasses(r.(state := NeedEndQuote), t, s, q + 1, q + 1);
      hide EndQuote, Enter, Feed;
      assert Step(r, t[q]) == r.(state := NeedEndQuote);
      FeedOne(r, t, q);
    } else {
      GivenUp(r, t, s, q);
    }
  }

  lemma {:induction false} FeedOne(r: Reader, t: string, i: nat)
    requires i < |t|
    ensures Feed(r, t, i) == Feed(Step(r, t[i]), t, i + 1)
  {
  }

  /** What is left to do with the state itself does not depend on it. */
  lemma {:induction false} EnterAnywhere(r: Reader, st: State, name: string)
    ensures Enter(r.(state := st, name := name)) == Enter(r.(name := name))
  {
  }

  lemma {:induction false} BlankAfterNumber(r: Reader, s: string, e: nat)
    requires e < |s| && e < SkipBlanks(s, e) && r.state == NeedMoreDigits
    ensures Step(r, s[e]) == r.(state := NeedQuote) && SkipBlanks(s, e) == SkipBlanks(s, e + 1)
  {
  }

  /** From the digits on. */
  lemma {:induction false} AfterNumber(r: Reader, t: string, s: string, d: nat)
    requires IsLine(t, s) && d <= |s| && r.state == NeedMoreDigits && r.name == []
    ensures var q := SkipBlanks(s, SkipDigits(s, d));
            && (q == |s| || s[q] != '"' ==> Feed(r, t, d) == r.(state := NeedHash))
            && (q < |s| && s[q] == '"' && EndQuote(s, q + 1, q + 1) < |s| ==>
                  Feed(r, t, d) == Enter(r.(name := s[q + 1..EndQuote(s, q + 1, q + 1)])).(state := NeedHash))
  {
    hide *;
    LineChars(t, s);
    DigitsPass(r, t, s, d);
    var e := SkipDigits(s, d);
    var q := SkipBlanks(s, e);
    if e < q {
      var r' := r.(state := NeedQuote);
      BlankAfterNumber(r, s, e);
      BlanksPass(r', t, s, e + 1);
      FeedOne(r, t, e);
      AtQuote(r', t, s, q);
      if q < |s| && s[q] == '"' {
        EnterAnywhere(r, NeedQuote, s[q + 1..EndQuote(s, q + 1, q + 1)]);
      }
    } else {
      AtQuote(r, t, s, q);
    }
  }

  /** The effect of a line: a directive enters its name. */
  function LineResult(r: Reader, s: string): Reader {
    match LineName(s)
    case None => r
    case Some(raw) => Enter(r.(name := raw)).(state := NeedHash)
  }

  /** From the first digit of the number on. */
  lemma {:induction false} AtNumber(r: Reader, t: string, s: string, d: nat)
    requires IsLine(t, s) && d < |s| && IsDigit(s[d]) && r.name == []
    requires r.state == NeedFirstDigit || r.state == NeedLSpace
    requires NumberAt(s) == Some(d) && ClosesQuote(s)
    ensures Feed(r, t, d) == LineResult(r.(state := NeedHash), s)
  {
    hide *;
    LineChars(t, s);
    DigitStep(r, s, d);
    NameIs(s, d);
    FeedOne(r, t, d);
    AfterNumber(r.(state := NeedMoreDigits), t, s, d + 1);
    ResultIs(r.(state := NeedHash), s);
    var q := SkipBlanks(s, SkipDigits(s, d));
    if q < |s| && s[q] == '"' {
      EnterAnywhere(r, NeedMoreDigits, s[q + 1..EndQuote(s, q + 1, q + 1)]);
      EnterAnywhere(r, NeedHash, s[q + 1..EndQuote(s, q + 1, q + 1)]);
    }
  }

  lemma {:induction false} DigitStep(r: Reader, s: string, d: nat)
    requires d < |s| && IsDigit(s[d]) && (r.state == NeedFirstDigit || r.state == NeedLSpace)
    ensures SkipDigits(s, d) == SkipDigits(s, d + 1) && Step(r, s[d]) == r.(state := NeedMoreDigits)
  {
  }

  /** The name behind the number at d. */
  lemma {:induction false} NameIs(s: string, d: nat)
    requires d <= |s| && NumberAt(s) == Some(d) && ClosesQuote(s)
    ensures var q := SkipBlanks(s, SkipDigits(s, d));
            && (q == |s| || s[q] != '"' ==> LineName(s) == None)
            && (q < |s| && s[q] == '"' ==>
                  EndQuote(s, q + 1, q + 1) < |s| && LineName(s) == Some(s[q + 1..EndQuote(s, q + 1, q + 1)]))
  {
    hide NumberAt, SkipBlanks, SkipDigits, EndQuote;
  }

  lemma {:induction false} ResultIs(r: Reader, s: string)
    ensures LineResult(r, s) ==
            match LineName(s)
            case None => r
            case Some(raw) => Enter(r.(name := raw)).(state := NeedHash)
  {
    hide LineName, Enter;
  }

  lemma {:induction false} IsWord(s: string, l: nat)
    ensures l + 4 <= |s| && s[l..l + 4] == "line" <==>
            l + 4 <= |s| && s[l] == 'l' && s[l + 1] == 'i' && s[l + 2] == 'n' && s[l + 3] == 'e'
  {
    if l + 4 <= |s| {
      assert s[l..l + 4] == [s[l], s[l + 1], s[l + 2], s[l + 3]];
    }
  }

  /** One letter of the word: either it is there, or the line is given up. */
  lemma {:induction false} Letter(r: Reader, t: string, s: string, i: nat, c: char, next: State)
    requires IsLine(t, s) && i <= |s| && c != '\n' && Step(r, t[i]) == Expect(r, t[i], t[i] == c, next)
    ensures i < |s| && s[i] == c ==> Feed(r, t, i) == Feed(r.(state := next), t, i + 1)
    ensures !(i < |s| && s[i] == c) ==> Feed(r, t, i) == r.(state := NeedHash)
  {
    LineChars(t, s);
    hide Step;
    if i < |s| && s[i] == c {
      FeedOne(r, t, i);
    } else {
      GivenUp(r, t, s, i);
    }
  }

  lemma {:induction false} Word(r: Reader, t: string, s: string, l: nat)
    requires IsLine(t, s) && l < |s| && s[l] == 'l' && (r.state == NeedL || r.state == NeedLSpace)
    ensures l + 4 <= |s| && s[l..l + 4] == "line" ==> Feed(r, t, l) == Feed(r.(state := NeedSpace), t, l + 4)
    ensures !(l + 4 <= |s| && s[l..l + 4] == "line") ==> Feed(r, t, l) == r.(state := NeedHash)
  {
    LineChars(t, s);
    IsWord(s, l);
    hide Feed, IsLine;
    FeedOne(r, t, l);
    Letter(r.(state := NeedI), t, s, l + 1, 'i', NeedN);
    if l + 1 < |s| && s[l + 1] == 'i' {
      Letter(r.(state := NeedN), t, s, l + 2, 'n', NeedE);
      if l + 2 < |s| && s[l + 2] == 'n' {
        Letter(r.(state := NeedE), t, s, l + 3, 'e', NeedSpace);
      }
    }
  }

  /** Behind the word. */
  lemma {:induction false} AfterWord(r: Reader, t: string, s: string, k: nat)
    requires IsLine(t, s) && k <= |s| && r.state == NeedSpace && r.name == [] && ClosesQuote(s)
    requires k < |s| && IsBlank(s[k]) ==>
               var d := SkipBlanks(s, k + 1); NumberAt(s) == (if d < |s| && IsDigit(s[d]) then Some(d) else None)
    requires !(k < |s| && IsBlank(s[k])) ==> NumberAt(s) == None
    ensures Feed(r, t, k) == LineResult(r.(state := NeedHash), s)
  {
    LineChars(t, s);
    hide NumberAt, SkipBlanks, Feed;
    if k < |s| && IsBlank(s[k]) {
      var d, r' := SkipBlanks(s, k + 1), r.(state := NeedFirstDigit);
      FeedOne(r, t, k);
      BlanksPass(r', t, s, k + 1);
      if d < |s| && IsDigit(s[d]) {
        AtNumber(r', t, s, d);
      } else {
        GivenUp(r', t, s, d);
      }
    } else {
      GivenUp(r, t, s, k);
    }
  }

  /** Neither the word nor, behind a blank, the number starts here. */
  lemma {:induction false} LeavesOff(r: Reader, c: char)
    requires r.state == NeedL || r.state == NeedLSpace
    ensures c == '\n' || (c != 'l' && !IsBlank(c) && !(r.state == NeedLSpace && IsDigit(c))) ==>
              Step(r, c) == GiveUp(r, c)
  {
  }

  /** Behind the hash and the blanks that follow it. */
  lemma {:induction false} AfterHash(r: Reader, t: string, s: string, h: nat)
    requires IsLine(t, s) && h < |s| && s[h] == '#' && h == SkipBlanks(s, 0) && r.name == [] && ClosesQuote(s)
    requires r.state == if SkipBlanks(s, h + 1) > h + 1 then NeedLSpace else NeedL
    ensures Feed(r, t, SkipBlanks(s, h + 1)) == LineResult(r.(state := NeedHash), s)
  {
    hide *;
    LineChars(t, s);
    NumberIs(s, h);
    ResultIs(r.(state := NeedHash), s);
    var l := SkipBlanks(s, h + 1);
    LeavesOff(r, t[l]);
    if l < |s| && s[l] == 'l' {
      Word(r, t, s, l);
      if l + 4 <= |s| && s[l..l + 4] == "line" {
        WordNumber(s, h, l);
        AfterWord(r.(state := NeedSpace), t, s, l + 4);
      }
    } else if l < |s| && IsDigit(s[l]) && l > h + 1 {
      AtNumber(r, t, s, l);
    } else {
      GivenUp(r, t, s, l);
    }
  }

  lemma {:induction false} NumberIs(s: string, h: nat)
    requires h == SkipBlanks(s, 0) && h < |s| && s[h] == '#'
    ensures var l := SkipBlanks(s, h + 1);
            && (l < |s| && s[l] == 'l' && !(l + 4 <= |s| && s[l..l + 4] == "line") ==> LineName(s) == None)
            && (l < |s| && s[l] != 'l' && IsDigit(s[l]) && l > h + 1 ==> NumberAt(s) == Some(l))
            && (l == |s| || (s[l] != 'l' && !(IsDigit(s[l]) && l > h + 1)) ==> LineName(s) == None)
  {
    IsWord(s, SkipBlanks(s, h + 1));
  }

  lemma {:induction false} WordNumber(s: string, h: nat, l: nat)
    requires h == SkipBlanks(s, 0) && h < |s| && s[h] == '#' && l == SkipBlanks(s, h + 1) && l + 4 <= |s|
    requires s[l..l + 4] == "line"
    ensures l + 4 < |s| && IsBlank(s[l + 4]) ==>
              var d := SkipBlanks(s, l + 4 + 1); NumberAt(s) == (if d < |s| && IsDigit(s[d]) then Some(d) else None)
    ensures !(l + 4 < |s| && IsBlank(s[l + 4])) ==> NumberAt(s) == None
  {
    IsWord(s, l);
  }

  /** A whole line: a directive of one of the two forms enters its name, anything else does nothing. */
  lemma {:induction false} LineIs(r: Reader, s: string)
    requires '\n' !in s && ClosesQuote(s) && r.state == NeedHash && r.name == []
    ensures Feed(r, s + "\n", 0) == LineResult(r, s)
  {
    var t := s + "\n";
    LineChars(t, s);
    var h := SkipBlanks(s, 0);
    hide Feed, NameAt, ClosesQuote;
    BlanksPass(r, t, s, 0);
    if h < |s| && s[h] == '#' {
      FeedOne(r, t, h);
      var l := SkipBlanks(s, h + 1);
      var r1, r2 := r.(state := NeedL), r.(state := NeedLSpace);
      if l > h + 1 {
        FeedOne(r1, t, h + 1);
        BlanksPass(r2, t, s, h + 2);
        assert SkipBlanks(s, h + 1) == SkipBlanks(s, h + 2);
        AfterHash(r2, t, s, h);
      } else {
        AfterHash(r1, t, s, h);
      }
    } else {
      GivenUp(r, t, s, h);
      NoDirective(s);
    }
  }

  lemma {:induction false} NoDirective(s: string)
    requires var h := SkipBlanks(s, 0); h == |s| || s[h] != '#'
    ensures LineName(s) == None
  {
  }

  // ----- A whole text ----------------------------------------------------------------------------

  /** The names of the directives, unescaped, in order. */
  function Names(lines: seq<string>): seq<string> {
    if lines == [] then []
    else (match LineName(lines[0]) case None => [] case Some(raw) => [Unescape(raw)]) + Names(lines[1..])
  }

  /** Each name once, where it first occurs. */
  function AddAll(deps: seq<string>, names: seq<string>): seq<string>
    decreases |names|
  {
    if names == [] then deps else AddAll(DepAdd(deps, names[0]), names[1..])
  }

  predicate AllClose(lines: seq<string>) {
    forall i :: 0 <= i < |lines| ==> '\n' !in lines[i] && ClosesQuote(lines[i])
  }

  lemma {:induction false} EntersName(r: Reader, s: string)
    requires r.name == [] && r.state == NeedHash && (r.last.Some? ==> r.last.value in r.deps)
    ensures var r' := LineResult(r, s);
            && r'.name == [] && r'.state == NeedHash && (r'.last.Some? ==> r'.last.value in r'.deps)
            && r'.deps == (match LineName(s) case None => r.deps case Some(raw) => DepAdd(r.deps, Unescape(raw)))
  {
    hide LineName, Unescape;
  }

  /** What is collected from a text are the names of its directives, each once, in the order in which
      they first occur. */
  lemma {:induction false} TextIs(r: Reader, lines: seq<string>)
    requires r.name == [] && r.state == NeedHash && (r.last.Some? ==> r.last.value in r.deps) && AllClose(lines)
    ensures Feed(r, Unlines(lines), 0).deps == AddAll(r.deps, Names(lines))
    ensures Feed(r, Unlines(lines), 0).state == NeedHash
    decreases |lines|
  {
    if lines != [] {
      var s, rest := lines[0], lines[1..];
      assert Unlines(lines) == (s + "\n") + Unlines(rest);
      FeedConcat(r, s + "\n", Unlines(rest), 0);
      LineIs(r, s);
      EntersName(r, s);
      hide LineName, Feed, LineResult, DepAdd;
      TextIs(LineResult(r, s), rest);
      NamesNext(r.deps, lines);
    }
  }

  lemma {:induction false} NamesNext(deps: seq<string>, lines: seq<string>)
    requires lines != []
    ensures AddAll(deps, Names(lines)) ==
            AddAll(
              match LineName(lines[0]) case None => deps case Some(raw) => DepAdd(deps, Unescape(raw)),
              Names(lines[1..]))
  {
    hide LineName, Unescape, DepAdd;
    if LineName(lines[0]).Some? {
      assert Names(lines)[1..] == Names(lines[1..]);
    } else {
      assert Names(lines) == Names(lines[1..]);
    }
  }

  // ----- Chunks -------------------------------------------------------------------------------------

  predicate EndsLine(s: string) {
    s != [] && s[|s| - 1] == '\n'
  }

  lemma {:induction false} AfterLineEnd(r: Reader, s: string, i: nat)
    requires EndsLine(s) && i < |s|
    ensures Feed(r, s, i).state != NeedNewLine
    decreases |s| - i
  {
    if i + 1 < |s| {
      AfterLineEnd(Step(r, s[i]), s, i + 1);
    }
  }

  /** The state is stored, unless the reader was looking for the end of the line when the chunk ran out.
      That is only harmless when the chunk ends with the quote of a name. */
  predicate Stored(r: Reader, chunk: string) {
    Feed(r, chunk, 0).state == NeedNewLine && chunk != [] ==> Feed(r, chunk[..|chunk| - 1], 0).state == NeedEndQuote
  }

  /** What is left behind after a chunk. */
  function After(r: Reader, chunk: string): Reader {
    if Stored(r, chunk) then Feed(r, chunk, 0) else Feed(r, chunk, 0).(state := r.state)
  }

  lemma {:induction false} LastStep(r: Reader, chunk: string)
    requires chunk != []
    ensures Feed(r, chunk, 0) == Step(Feed(r, chunk[..|chunk| - 1], 0), chunk[|chunk| - 1])
  {
    var n := |chunk| - 1;
    assert chunk == chunk[..n] + [chunk[n]];
    FeedConcat(r, chunk[..n], [chunk[n]], 0);
    FeedOne(Feed(r, chunk[..n], 0), [chunk[n]], 0);
  }

  // ----- The collector ---------------------------------------------------------------------------

  /** The first i characters have become done. */
  ghost predicate UnescapedSoFar(s: string, i: nat, done: string) {
    i <= |s| && done + Unescape(s[i..]) == Unescape(s)
  }

  lemma {:induction false} UnescapeStep(s: string, i: nat, done: string)
    requires UnescapedSoFar(s, i, done)
    ensures i == |s| || s[i] == '\0' ==> done == Unescape(s)
    ensures i < |s| && s[i] != '\0' ==>
              if s[i] == '\\' && i + 1 < |s| && s[i + 1] != '\0' then UnescapedSoFar(s, i + 2, done + [s[i + 1]])
              else UnescapedSoFar(s, i + 1, done + [s[i]])
  {
    var t := s[i..];
    if i < |s| && s[i] != '\0' {
      assert t[0] == s[i] && t[1..] == s[i + 1..];
      if s[i] == '\\' && i + 1 < |s| && s[i + 1] != '\0' {
        assert t[1] == s[i + 1] && t[2..] == s[i + 2..];
        assert done + ([s[i + 1]] + Unescape(s[i + 2..])) == done + [s[i + 1]] + Unescape(s[i + 2..]);
      } else {
        assert done + ([s[i]] + Unescape(s[i + 1..])) == done + [s[i]] + Unescape(s[i + 1..]);
      }
    } else {
      assert done + [] == done;
    }
  }

  /** kOCDepUnescape, in place, on the string that is terminated at n. */
  method UnescapeInPlace(psz: array<char>, n: nat) returns (cch: nat)
    requires n < psz.Length && psz[n] == '\0'
    modifies psz
    ensures cch <= n && psz[..cch] == Unescape(old(psz[..n])) && psz[cch] == '\0'
  {
    ghost var s := psz[..n];
    assert s[0..] == s && [] + Unescape(s) == Unescape(s);
    assert UnescapedSoFar(s, 0, []);
    hide Unescape, UnescapedSoFar;
    var pszSrc: nat, pszDst: nat := 0, 0;
    while psz[pszSrc] != '\0'
      invariant pszDst <= pszSrc <= n && psz[n] == '\0'
      invariant forall k :: pszSrc <= k < n ==> psz[k] == s[k]
      invariant UnescapedSoFar(s, pszSrc, psz[..pszDst])
      decreases n - pszSrc
    {
      ghost var done := psz[..pszDst];
      UnescapeStep(s, pszSrc, done);
      var ch := psz[pszSrc];
      pszSrc := pszSrc + 1;
      if ch == '\\' {
        var ch2 := psz[pszSrc];
        if ch2 != '\0' {
          pszSrc := pszSrc + 1;
          ch := ch2;
        }
      }
      psz[pszDst] := ch;
      pszDst := pszDst + 1;
      assert psz[..pszDst] == done + [ch];
    }
    UnescapeStep(s, pszSrc, psz[..pszDst]);
    psz[pszDst] := '\0';
    cch := pszDst;
  }

  class DepState {
    var enmState: State
    var offFilename: nat
    var pszFilename: array<char>
    var pCurDep: Option<string>
    var deps: seq<string>

    constructor ()
      ensures Valid() && Now() == START && fresh(pszFilename)
    {
      enmState, offFilename, pCurDep, deps := NeedHash, 0, None, [];
      pszFilename := new char[0];
    }

    ghost predicate Valid()
      reads `offFilename, `pszFilename
    {
      BufferOk() && offFilename <= pszFilename.Length
    }

    /** The reader, with the given state. */
    ghost function As(st: State): Reader
      requires offFilename <= pszFilename.Length
      reads `offFilename, `pszFilename, `deps, `pCurDep, pszFilename
    {
      Reader(st, pszFilename[..offFilename], deps, pCurDep)
    }

    ghost function Now(): Reader
      requires offFilename <= pszFilename.Length
      reads this, pszFilename
    {
      As(enmState)
    }

    predicate BufferOk()
      reads `pszFilename
    {
      pszFilename.Length == 0 || pszFilename.Length >= 32
    }

    method GrowFilename(off: nat)
      requires off <= pszFilename.Length && BufferOk()
      modifies `pszFilename
      ensures BufferOk() && off + 1 < pszFilename.Length && pszFilename[..off] == old(pszFilename[..off])
      ensures pszFilename == old(pszFilename) || fresh(pszFilename)
    {
      if off + 1 >= pszFilename.Length {
        var size := if pszFilename.Length == 0 then 32 else pszFilename.Length * 2;
        var old' := pszFilename;
        pszFilename := new char[size](i requires 0 <= i reads old' => if i < old'.Length then old'[i] else '\0');
      }
    }

    /** The name in the buffer is complete: unescaped and, unless it is the last one again, added. */
    method AddName(off: nat)
      requires off < pszFilename.Length && BufferOk()
      modifies `offFilename, `deps, `pCurDep, pszFilename
      ensures Valid() && pszFilename == old(pszFilename)
      ensures As(NeedNewLine) == Enter(Reader(NeedEndQuote, old(pszFilename[..off]), old(deps), old(pCurDep)))
    {
      ghost var name := pszFilename[..off];
      pszFilename[off] := '\0';
      assert pszFilename[..off] == name;
      var cchFilename := UnescapeInPlace(pszFilename, off);
      var sz := pszFilename[..cchFilename];
      if pCurDep != Some(sz) {
        if sz !in deps {
          deps := deps + [sz];
        }
        pCurDep := Some(sz);
      }
      offFilename := 0;
      assert pszFilename[..0] == [];
    }

    /** The NeedEndQuote case: up to the closing quote, or to the end of the chunk. */
    method ScanName(chunk: string, i: nat) returns (next: nat, fDone: bool)
      requires Valid() && i <= |chunk|
      modifies `offFilename, `pszFilename, `deps, `pCurDep, pszFilename
      ensures Valid() && i <= next <= |chunk| && (pszFilename == old(pszFilename) || fresh(pszFilename))
      ensures fDone ==> i < next && As(NeedNewLine) == Feed(old(As(NeedEndQuote)), chunk[..next], i)
                        && Feed(old(As(NeedEndQuote)), chunk[..next - 1], i).state == NeedEndQuote
      ensures !fDone ==> next == |chunk| && As(NeedEndQuote) == Feed(old(As(NeedEndQuote)), chunk, i)
    {
      hide Feed, Step, Unescape, Enter;
      ghost var r0 := As(NeedEndQuote);
      var off: nat := offFilename;
      next := i;
      FeedNothing(r0, chunk, i);
      while next < |chunk|
        invariant i <= next <= |chunk| && off <= pszFilename.Length && BufferOk()
        invariant pszFilename == old(pszFilename) || fresh(pszFilename)
        invariant deps == old(deps) && pCurDep == old(pCurDep)
        invariant Feed(Reader(NeedEndQuote, pszFilename[..off], deps, pCurDep), chunk, next) == Feed(r0, chunk, i)
        invariant Feed(r0, chunk[..next], i) == Reader(NeedEndQuote, pszFilename[..off], deps, pCurDep)
      {
        ghost var r := Reader(NeedEndQuote, pszFilename[..off], deps, pCurDep);
        ghost var name := pszFilename[..off];
        GrowFilename(off);
        var ch := chunk[next];
        FeedOne(r, chunk, next);
        FeedFurther(r0, chunk, i, next);
        InName(r, ch);
        pszFilename[off] := ch;
        assert pszFilename[..off] == name && pszFilename[..off + 1] == name + [ch];
        var escaped := false;
        if ch == '"' {
          escaped := IsEscaped(pszFilename, off);
          SameBackslashes(pszFilename[..], name, off);
        }
        next := next + 1;
        if ch == '"' && (off == 0 || pszFilename[off - 1] != '\\' || !escaped) {
          NotEscaped(name, off);
          AddName(off);
          return next, true;
        }
        off := off + 1;
      }
      offFilename := off;
      fDone := false;
      assert chunk[..next] == chunk;
    }

    /** kOCDepConsumer. Where it runs out of input in search of the end of the line it returns without
        storing the state it is in. */
    method Consume(chunk: string)
      requires Valid()
      modifies this, pszFilename
      ensures Valid() && Now() == After(old(Now()), chunk)
      ensures pszFilename == old(pszFilename) || fresh(pszFilename)
    {
      hide *;
      AsIs(enmState);
      ghost var r0 := Now();
      var st, i: nat := enmState, 0;
      TracksStart(r0, chunk);
      while i < |chunk|
        invariant i <= |chunk| && Valid() && offFilename <= pszFilename.Length
        invariant (pszFilename == old(pszFilename) || fresh(pszFilename)) && enmState == r0.state
        invariant Tracks(r0, chunk, 0, i, As(st))
        invariant st == NeedNewLine && i == |chunk| ==> Stored(r0, chunk)
        decreases |chunk| - i, st != NeedNewLine
      {
        AsIs(st);
        if st == NeedNewLine {
          var nl := FindNewLine(chunk, i);
          Passed(r0, chunk, i, As(NeedNewLine), nl);
          if nl == |chunk| {
            AsIs(enmState);
            return;
          }
          AsIs(NeedHash);
          i := nl + 1;
          st := NeedHash;
        } else if st == NeedEndQuote {
          ghost var r := As(NeedEndQuote);
          ghost var i0 := i;
          var fDone;
          i, fDone := ScanName(chunk, i);
          AsIs(NeedNewLine);
          if fDone {
            NameTracks(r0, chunk, i0, r, i, As(NeedNewLine));
            st := NeedNewLine;
          } else {
            TracksOn(r0, chunk, i0, r, i, As(NeedEndQuote));
          }
        } else {
          ghost var r := As(st);
          ghost var i0 := i;
          i, st := ScanCase(st, chunk, i, r);
          AsIs(st);
          TracksOn(r0, chunk, i0, r, i, As(st));
        }
      }
      AsIs(st);
      TracksEnd(r0, chunk, As(st));
      enmState := st;
      AsIs(st);
    }

    lemma {:induction false} AsIs(st: State)
      requires Valid()
      ensures offFilename <= pszFilename.Length
      ensures As(st) == Reader(st, pszFilename[..offFilename], deps, pCurDep) && Now() == As(enmState)
    {
    }
  }

  /** memchr for the end of the line. */
  method FindNewLine(chunk: string, i: nat) returns (nl: nat)
    requires i <= |chunk|
    ensures i <= nl <= |chunk| && (forall k :: i <= k < nl ==> chunk[k] != '\n') && (nl < |chunk| ==> chunk[nl] == '\n')
  {
    nl := i;
    while nl < |chunk| && chunk[nl] != '\n'
      invariant i <= nl <= |chunk| && forall k :: i <= k < nl ==> chunk[k] != '\n'
    {
      nl := nl + 1;
    }
  }

  /** The reader stands before a character that does not fit. */
  predicate Pending(done: Reader, chunk: string, i: nat, cur: Reader) {
    && i < |chunk| && done.state != NeedEndQuote && Step(done, chunk[i]) == GiveUp(done, chunk[i])
    && cur == done.(state := NeedNewLine)
  }

  /** From i0 to i the reader has become cur, or is about to because of the next character. */
  predicate Tracks(r0: Reader, chunk: string, i0: nat, i: nat, cur: Reader) {
    i0 <= i <= |chunk| && (Feed(r0, chunk[..i], i0) == cur || Pending(Feed(r0, chunk[..i], i0), chunk, i, cur))
  }

  lemma {:induction false} TracksStart(r0: Reader, chunk: string)
    ensures Tracks(r0, chunk, 0, 0, r0)
    ensures chunk == [] ==> Stored(r0, chunk)
  {
  }

  lemma {:induction false} FeedJoin(r: Reader, s: string, i0: nat, i: nat, j: nat)
    requires i0 <= i <= j <= |s|
    ensures Feed(r, s[..j], i0) == Feed(Feed(r, s[..i], i0), s[..j], i)
    decreases i - i0
  {
    if i0 < i {
      FeedJoin(Step(r, s[i0]), s, i0 + 1, i, j);
    }
  }

  lemma {:induction false} TracksOn(r0: Reader, chunk: string, i: nat, r: Reader, next: nat, cur: Reader)
    requires Tracks(r0, chunk, 0, i, r) && r.state != NeedNewLine && i <= next <= |chunk|
    requires Tracks(r, chunk, i, next, cur) || (next == |chunk| && cur == Feed(r, chunk, i))
    ensures Tracks(r0, chunk, 0, next, cur)
  {
    FeedJoin(r0, chunk, 0, i, next);
    assert chunk[..|chunk|] == chunk;
    hide Feed, Step;
  }

  lemma {:induction false} NameTracks(r0: Reader, chunk: string, i: nat, r: Reader, next: nat, cur: Reader)
    requires Tracks(r0, chunk, 0, i, r) && r.state == NeedEndQuote && i < next <= |chunk|
    requires cur == Feed(r, chunk[..next], i) && Feed(r, chunk[..next - 1], i).state == NeedEndQuote
    ensures Tracks(r0, chunk, 0, next, cur)
    ensures next == |chunk| ==> Stored(r0, chunk)
  {
    FeedJoin(r0, chunk, 0, i, next);
    FeedJoin(r0, chunk, 0, i, next - 1);
    hide Feed, Step;
  }

  /** Characters that do not end the line change nothing any more. */
  lemma {:induction false} StaysGivenUp(r: Reader, s: string, i: nat, j: nat)
    requires i <= j <= |s| && r.state == NeedNewLine && forall k :: i <= k < j ==> s[k] != '\n'
    ensures Feed(r, s[..j], i) == r
    decreases j - i
  {
    if i < j {
      StaysGivenUp(r, s, i + 1, j);
    }
  }

  /** The search for the end of the line. */
  lemma {:induction false} Passed(r0: Reader, chunk: string, i: nat, cur: Reader, nl: nat)
    requires Tracks(r0, chunk, 0, i, cur) && cur.state == NeedNewLine && i < |chunk| && i <= nl <= |chunk|
    requires (forall k :: i <= k < nl ==> chunk[k] != '\n') && (nl < |chunk| ==> chunk[nl] == '\n')
    ensures nl < |chunk| ==> Tracks(r0, chunk, 0, nl + 1, cur.(state := NeedHash))
    ensures nl == |chunk| ==> After(r0, chunk) == cur.(state := r0.state)
  {
    var done := Feed(r0, chunk[..i], 0);
    FeedFurther(r0, chunk, 0, i);
    if i < nl {
      assert Feed(r0, chunk[..i + 1], 0) == cur;
      StaysGivenUp(cur, chunk, i + 1, nl);
      FeedJoin(r0, chunk, 0, i + 1, nl);
    }
    if nl < |chunk| {
      FeedFurther(r0, chunk, 0, nl);
    } else {
      assert chunk[..|chunk|] == chunk;
      var n := |chunk| - 1;
      if i < n {
        StaysGivenUp(cur, chunk, i + 1, n);
        FeedJoin(r0, chunk, 0, i + 1, n);
      }
    }
  }

  lemma {:induction false} TracksEnd(r0: Reader, chunk: string, cur: Reader)
    requires Tracks(r0, chunk, 0, |chunk|, cur) && (cur.state == NeedNewLine ==> Stored(r0, chunk))
    ensures After(r0, chunk) == cur
  {
    assert chunk[..|chunk|] == chunk;
    hide Feed, Step;
  }

  lemma {:induction false} Took(r: Reader, chunk: string, i0: nat, i: nat, st: State, st': State)
    requires i0 <= i < |chunk| && Feed(r, chunk[..i], i0) == r.(state := st)
    requires Step(r.(state := st), chunk[i]) == r.(state := st')
    ensures Feed(r, chunk[..i + 1], i0) == r.(state := st')
  {
    FeedFurther(r, chunk, i0, i);
  }

  /** Blanks are skipped in any state that allows them. */
  method PassBlanks(st: State, chunk: string, i0: nat, i: nat, ghost r: Reader) returns (next: nat)
    requires i0 <= i <= |chunk| && Feed(r, chunk[..i], i0) == r.(state := st)
    requires st in {NeedHash, NeedLSpace, NeedFirstDigit, NeedQuote}
    ensures i <= next <= |chunk| && Feed(r, chunk[..next], i0) == r.(state := st)
    ensures next < |chunk| ==> !IsBlank(chunk[next])
  {
    hide Feed;
    next := i;
    while next < |chunk| && IsBlank(chunk[next])
      invariant i <= next <= |chunk| && Feed(r, chunk[..next], i0) == r.(state := st)
    {
      Took(r, chunk, i0, next, st, st);
      next := next + 1;
    }
  }

  /** A character that fits takes the reader on; one that does not is left for the end of the line. */
  method Demand(st: State, chunk: string, i0: nat, i: nat, want: bool, st': State, ghost r: Reader)
      returns (next: nat, st2: State)
    requires i0 <= i < |chunk| && Feed(r, chunk[..i], i0) == r.(state := st) && st != NeedEndQuote
    requires Step(r.(state := st), chunk[i]) == Expect(r.(state := st), chunk[i], want, st')
    ensures i <= next <= |chunk| && Tracks(r, chunk, i0, next, r.(state := st2))
    ensures if want then next == i + 1 && st2 == st' else next == i && st2 == NeedNewLine
  {
    hide Feed, Step;
    if want {
      Took(r, chunk, i0, i, st, st');
      return i + 1, st';
    }
    return i, NeedNewLine;
  }

  /** The cases of the state machine but for the first and the last: as much of the chunk as one state takes. */
  method ScanCase(st: State, chunk: string, i: nat, ghost r: Reader) returns (next: nat, st': State)
    requires i < |chunk| && r.state == st && st != NeedNewLine && st != NeedEndQuote
    ensures i <= next <= |chunk| && Tracks(r, chunk, i, next, r.(state := st'))
    ensures next > i || st' == NeedNewLine
    ensures st' == NeedNewLine ==> next < |chunk|
  {
    hide Feed, Tracks;
    FeedNothing(r, chunk, i);
    assert r.(state := st) == r;
    Reached(r, chunk, i);
    next, st' := i, st;
    match st
    case NeedHash =>
      next := PassBlanks(NeedHash, chunk, i, i, r);
      Reached2(r, chunk, i, next, NeedHash);
      if next < |chunk| {
        next, st' := Demand(NeedHash, chunk, i, next, chunk[next] == '#', NeedL, r);
      }
    case NeedL =>
      if IsBlank(chunk[i]) {
        Took(r, chunk, i, i, NeedL, NeedLSpace);
        next := PassBlanks(NeedLSpace, chunk, i, i + 1, r);
        st' := NeedLSpace;
        Reached2(r, chunk, i, next, NeedLSpace);
        if next < |chunk| {
          next, st' := AfterBlank(chunk, i, next, r);
        }
      } else {
        next, st' := Demand(NeedL, chunk, i, i, chunk[i] == 'l', NeedI, r);
      }
    case NeedLSpace =>
      next := PassBlanks(NeedLSpace, chunk, i, i, r);
      Reached2(r, chunk, i, next, NeedLSpace);
      if next < |chunk| {
        next, st' := AfterBlank(chunk, i, next, r);
      }
    case NeedI => next, st' := Demand(NeedI, chunk, i, i, chunk[i] == 'i', NeedN, r);
    case NeedN => next, st' := Demand(NeedN, chunk, i, i, chunk[i] == 'n', NeedE, r);
    case NeedE => next, st' := Demand(NeedE, chunk, i, i, chunk[i] == 'e', NeedSpace, r);
    case NeedSpace => next, st' := Demand(NeedSpace, chunk, i, i, IsBlank(chunk[i]), NeedFirstDigit, r);
    case NeedFirstDigit =>
      next := PassBlanks(NeedFirstDigit, chunk, i, i, r);
      Reached2(r, chunk, i, next, NeedFirstDigit);
      if next < |chunk| {
        next, st' := Demand(NeedFirstDigit, chunk, i, next, IsDigit(chunk[next]), NeedMoreDigits, r);
      }
    case NeedMoreDigits =>
      next, st' := ScanDigits(chunk, i, r);
    case NeedQuote =>
      next := PassBlanks(NeedQuote, chunk, i, i, r);
      Reached2(r, chunk, i, next, NeedQuote);
      if next < |chunk| {
        next, st' := Demand(NeedQuote, chunk, i, next, chunk[next] == '"', NeedEndQuote, r);
      }
  }

  lemma {:induction false} Reached(r: Reader, chunk: string, i: nat)
    requires i <= |chunk|
    ensures Tracks(r, chunk, i, i, r)
  {
    FeedNothing(r, chunk, i);
  }

  lemma {:induction false} Reached2(r: Reader, chunk: string, i: nat, next: nat, st: State)
    requires i <= next <= |chunk| && Feed(r, chunk[..next], i) == r.(state := st)
    ensures Tracks(r, chunk, i, next, r.(state := st))
  {
  }

  /** Behind the blanks that follow the hash. */
  method AfterBlank(chunk: string, i: nat, at: nat, ghost r: Reader) returns (next: nat, st': State)
    requires i <= at < |chunk| && Feed(r, chunk[..at], i) == r.(state := NeedLSpace) && !IsBlank(chunk[at])
    ensures at <= next <= |chunk| && Tracks(r, chunk, i, next, r.(state := st'))
    ensures next > at || st' == NeedNewLine
    ensures st' == NeedNewLine ==> next < |chunk|
  {
    hide Feed;
    if chunk[at] == 'l' {
      Took(r, chunk, i, at, NeedLSpace, NeedI);
      return at + 1, NeedI;
    }
    next, st' := Demand(NeedLSpace, chunk, i, at, IsDigit(chunk[at]), NeedMoreDigits, r);
  }

  /** The rest of the number, and what follows it. */
  method ScanDigits(chunk: string, i: nat, ghost r: Reader) returns (next: nat, st': State)
    requires i < |chunk| && r.state == NeedMoreDigits
    ensures i <= next <= |chunk| && Tracks(r, chunk, i, next, r.(state := st'))
    ensures next > i || st' == NeedNewLine
    ensures st' == NeedNewLine ==> next < |chunk|
  {
    hide Feed;
    FeedNothing(r, chunk, i);
    assert r.(state := NeedMoreDigits) == r;
    next := i;
    while next < |chunk| && IsDigit(chunk[next])
      invariant i <= next <= |chunk| && Feed(r, chunk[..next], i) == r.(state := NeedMoreDigits)
    {
      Took(r, chunk, i, next, NeedMoreDigits, NeedMoreDigits);
      next := next + 1;
    }
    st' := NeedMoreDigits;
    if next == |chunk| {
      return;
    }
    if IsBlank(chunk[next]) {
      Took(r, chunk, i, next, NeedMoreDigits, NeedQuote);
      next := PassBlanks(NeedQuote, chunk, i, next + 1, r);
      st' := NeedQuote;
      if next == |chunk| {
        return;
      }
    }
    next, st' := Demand(st', chunk, i, next, chunk[next] == '"', NeedEndQuote, r);
  }

  lemma {:induction false} FeedNothing(r: Reader, s: string, i: nat)
    requires i <= |s|
    ensures Feed(r, s[..i], i) == r
  {
  }

  lemma {:induction false} FeedFurther(r: Reader, s: string, i: nat, j: nat)
    requires i <= j < |s|
    ensures Feed(r, s[..j + 1], i) == Step(Feed(r, s[..j], i), s[j])
    decreases j - i
  {
    if i < j {
      FeedFurther(Step(r, s[i]), s, i + 1, j);
    } else {
      assert Feed(Step(r, s[i]), s[..j + 1], i + 1) == Step(r, s[i]);
    }
  }

  lemma {:induction false} InName(r: Reader, c: char)
    requires r.state == NeedEndQuote
    ensures Step(r, c) == if c == '"' && !Escaped(r.name, |r.name|) then Enter(r) else r.(name := r.name + [c])
  {
  }

  lemma {:induction false} SameBackslashes(a: seq<char>, b: seq<char>, i: nat)
    requires i <= |a| && i <= |b| && a[..i] == b[..i]
    ensures Backslashes(a, i) == Backslashes(b, i)
  {
    if i > 0 {
      assert a[i - 1] == a[..i][i - 1] && b[i - 1] == b[..i][i - 1];
      assert a[..i - 1] == a[..i][..i - 1] && b[..i - 1] == b[..i][..i - 1];
      SameBackslashes(a, b, i - 1);
    }
  }

  lemma {:induction false} NotEscaped(name: string, off: nat)
    requires off <= |name|
    ensures off == 0 || name[off - 1] != '\\' ==> !Escaped(name, off)
  {
  }

  // ----- How the text is cut into chunks -------------------------------------------------------------

  /** A chunk that ends with the end of a line leaves the reader where it belongs. */
  lemma {:induction false} LineEndIsStored(r: Reader, chunk: string)
    requires EndsLine(chunk)
    ensures After(r, chunk) == Feed(r, chunk, 0)
  {
    AfterLineEnd(r, chunk, 0);
    hide Feed;
  }

  function AfterAll(r: Reader, chunks: seq<string>): Reader {
    if chunks == [] then r else After(AfterAll(r, chunks[..|chunks| - 1]), chunks[|chunks| - 1])
  }

  /** Cut at ends of lines, the text may come in any chunks. */
  lemma {:induction false} ChunksDoNotMatter(r: Reader, chunks: seq<string>)
    requires forall i :: 0 <= i < |chunks| ==> EndsLine(chunks[i])
    ensures AfterAll(r, chunks) == Feed(r, Concat(chunks), 0)
  {
    hide Feed, EndsLine, After;
    if chunks == [] {
      FeedNothing(r, [], 0);
    } else {
      var init, last := chunks[..|chunks| - 1], chunks[|chunks| - 1];
      ChunksDoNotMatter(r, init);
      LineEndIsStored(AfterAll(r, init), last);
      FeedConcat(r, Concat(init), last, 0);
      ConcatSnoc(init, last);
      assert chunks == init + [last];
    }
  }

  /** From a text of closed lines, cut in any way at ends of lines, the names of its directives are
      collected, each once, in the order in which they first occur. */
  lemma {:induction false} Collected(lines: seq<string>, chunks: seq<string>)
    requires AllClose(lines) && Concat(chunks) == Unlines(lines)
    requires forall i :: 0 <= i < |chunks| ==> EndsLine(chunks[i])
    ensures AfterAll(START, chunks).deps == AddAll([], Names(lines))
  {
    hide *;
    StartIs();
    ChunksDoNotMatter(START, chunks);
    TextIs(START, lines);
  }

  lemma {:induction false} StartIs()
    ensures START == Reader(NeedHash, [], [], None)
  {
  }
}
