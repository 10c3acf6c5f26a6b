/** File names with escapes, from the preprocessor to the dependency list. */
module DepEscape {
  import opened Basics
  import opened DepScan

  /** Quotes and backslashes get a backslash in front. */
  function Escape(s: string): string {
    if s == [] then []
    else
      var c := s[|s| - 1];
      Escape(s[..|s| - 1]) + (if c == '"' || c == '\\' then ['\\', c] else [c])
  }

  lemma {:induction false} UnescapeEnd(a: string, c: char)
    requires '\0' !in a && c != '\0' && Backslashes(a, |a|) % 2 == 0
    ensures c != '\\' ==> Unescape(a + [c]) == Unescape(a) + [c]
    ensures Unescape(a + ['\\', c]) == Unescape(a) + [c]
    decreases |a|
  {
    var e := ['\\', c];
    if a == [] {
      assert a + [c] == [c] && a + e == e && [c][1..] == [] && e[2..] == [];
    } else if a[0] == '\\' {
      assert Backslashes(a, 1) == 1 + Backslashes(a, 0) == 1;
      assert (a + [c])[2..] == a[2..] + [c] && (a + e)[2..] == a[2..] + e;
      RestEven(a, 2);
      UnescapeEnd(a[2..], c);
      assert [a[1]] + (Unescape(a[2..]) + [c]) == ([a[1]] + Unescape(a[2..])) + [c];
    } else {
      assert (a + [c])[1..] == a[1..] + [c] && (a + e)[1..] == a[1..] + e;
      RestEven(a, 1);
      UnescapeEnd(a[1..], c);
      assert [a[0]] + (Unescape(a[1..]) + [c]) == ([a[0]] + Unescape(a[1..])) + [c];
    }
  }

  /** Behind a character, or an escape and its character, the run at the end has the same parity. */
  lemma {:induction false} RestEven(a: string, n: nat)
    requires 0 < n <= 2 && n <= |a| && Backslashes(a, |a|) % 2 == 0
    requires if n == 1 then a[0] != '\\' else a[0] == '\\'
    ensures Backslashes(a[n..], |a| - n) % 2 == 0
  {
    RunsFrom(a, n, |a|);
  }

  lemma {:induction false} RunsFrom(a: string, n: nat, i: nat)
    requires n <= i <= |a|
    ensures Backslashes(a, i) ==
              if Backslashes(a[n..], i - n) == i - n then i - n + Backslashes(a, n) else Backslashes(a[n..], i - n)
    decreases i
  {
    if i > n {
      assert a[n..][i - n - 1] == a[i - 1];
      if a[i - 1] == '\\' {
        RunsFrom(a, n, i - 1);
      }
    }
  }

  /** Every quote in the name is escaped, and a quote behind the name is not. */
  ghost predicate WellEscaped(e: string) {
    && (forall c :: c in e ==> c != '\0' && c != '\n')
    && !Escaped(e, |e|)
    && forall k :: 0 <= k < |e| && e[k] == '"' ==> Escaped(e[..k], k)
  }

  lemma {:induction false} EscapeStep(a: string, c: char)
    requires WellEscaped(a) && c != '\0' && c != '\n'
    ensures WellEscaped(a + (if c == '"' || c == '\\' then ['\\', c] else [c]))
  {
    var e := a + (if c == '"' || c == '\\' then ['\\', c] else [c]);
    RunAtEnd(a, c);
    hide Escaped;
    forall k | 0 <= k < |e| && e[k] == '"' ensures Escaped(e[..k], k) {
      if k < |a| {
        assert e[..k] == a[..k];
      } else {
        assert e[..k] == a + ['\\'];
      }
    }
  }

  lemma {:induction false} EscapeIs(s: string)
    requires forall c :: c in s ==> c != '\0' && c != '\n'
    ensures Unescape(Escape(s)) == s && WellEscaped(Escape(s))
  {
    if s == [] {
      assert Escape(s) == [];
    } else {
      var init, c := s[..|s| - 1], s[|s| - 1];
      assert s == init + [c] && c in s && forall x :: x in init ==> x in s;
      EscapeIs(init);
      Unmarked(Escape(init));
      UnescapeEnd(Escape(init), c);
      EscapeStep(Escape(init), c);
    }
  }

  lemma {:induction false} Unmarked(a: string)
    requires WellEscaped(a)
    ensures '\0' !in a && Backslashes(a, |a|) % 2 == 0
  {
  }

  lemma {:induction false} RunAtEnd(a: string, c: char)
    requires !Escaped(a, |a|)
    ensures Escaped(a + ['\\'], |a| + 1)
    ensures !Escaped(a + ['\\', c], |a| + 2)
    ensures c != '\\' ==> !Escaped(a + [c], |a| + 1)
  {
    SameRun(a, ['\\'], |a|);
    SameRun(a, ['\\', c], |a|);
    assert Backslashes(a + ['\\'], |a| + 1) == 1 + Backslashes(a + ['\\'], |a|);
    assert Backslashes(a + ['\\', c], |a| + 1) == 1 + Backslashes(a + ['\\', c], |a|);
  }

  lemma {:induction false} SameRun(a: string, b: string, i: nat)
    requires i <= |a|
    ensures Backslashes(a + b, i) == Backslashes(a, i)
  {
    if i > 0 && a[i - 1] == '\\' {
      SameRun(a, b, i - 1);
    }
  }

  lemma {:induction false} EndQuoteIs(t: string, q: nat, i: nat, j: nat)
    requires q <= i <= j < |t| && t[j] == '"' && !Escaped(t[q..j], j - q)
    requires forall k :: i <= k < j && t[k] == '"' ==> Escaped(t[q..k], k - q)
    ensures EndQuote(t, q, i) == j
    decreases j - i
  {
    if i < j {
      EndQuoteIs(t, q, i + 1, j);
    }
  }

  lemma {:induction false} DigitsAre(t: string, i: nat, j: nat)
    requires i <= j < |t| && !IsDigit(t[j]) && forall k :: i <= k < j ==> IsDigit(t[k])
    ensures SkipDigits(t, i) == j
    decreases j - i
  {
    if i < j {
      DigitsAre(t, i + 1, j);
    }
  }

  /** The opening quote of a directive's name, and the closing one. */
  lemma {:induction false} NameStarts(t: string, number: string, rest: string)
    requires t == "# " + number + " \"" + rest
    requires number != [] && (forall i :: 0 <= i < |number| ==> IsDigit(number[i]))
    ensures NameAt(t) == Some(|number| + 4)
  {
    var d := 2 + |number|;
    assert t[0] == '#' && t[1] == ' ' && t[2] == number[0] && t[d] == ' ' && t[d + 1] == '"';
    forall k | 2 <= k < d ensures IsDigit(t[k]) {
      assert t[k] == number[k - 2];
    }
    NumberStarts(t);
    DigitsAre(t, 2, d);
    assert SkipBlanks(t, d) == d + 1;
  }

  lemma {:induction false} NameEnds(t: string, q: nat, e: string)
    requires WellEscaped(e) && q + |e| < |t| && t[q..q + |e|] == e && t[q + |e|] == '"'
    ensures EndQuote(t, q, q) == q + |e|
  {
    hide Escaped;
    var j := q + |e|;
    forall k | q <= k < j && t[k] == '"' ensures Escaped(t[q..k], k - q) {
      assert t[q..k] == e[..k - q] && t[k] == e[k - q];
    }
    EndQuoteIs(t, q, q, j);
  }

  /** A directive as preprocessors write it: any name at all comes back as it was before it was escaped. */
  lemma {:induction false} WrittenNameIsRead(number: string, name: string, flags: string)
    requires number != [] && (forall i :: 0 <= i < |number| ==> IsDigit(number[i]))
    requires forall c :: c in name ==> c != '\0' && c != '\n'
    ensures Names(["# " + number + " \"" + Escape(name) + "\"" + flags]) == [name]
  {
    hide NameAt, EndQuote, Escape, Unescape, WellEscaped;
    var e := Escape(name);
    var t := "# " + number + " \"" + e + "\"" + flags;
    var q := |number| + 4;
    EscapeIs(name);
    assert t == "# " + number + " \"" + (e + "\"" + flags);
    NameStarts(t, number, e + "\"" + flags);
    assert t[q..q + |e|] == e && t[q + |e|] == '"';
    NameEnds(t, q, e);
    assert [t][1..] == [] && Names([]) == [];
    assert [name] + [] == [name];
  }

  lemma {:induction false} NumberStarts(t: string)
    requires |t| > 2 && t[0] == '#' && t[1] == ' ' && IsDigit(t[2])
    ensures NumberAt(t) == Some(2)
  {
    assert SkipBlanks(t, 0) == 0 && SkipBlanks(t, 1) == SkipBlanks(t, 2) == 2;
    if 6 < |t| {
      assert t[2..6][0] == t[2];
      assert "line"[0] == 'l';
    }
  }
}
