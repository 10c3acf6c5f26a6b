/** The C preprocessor output reader: one buffer, optimised in place while it is being read. */
module CppReader {
  import opened Basics
  import opened LineControl
  import opened OptimizerSpec

  const KOC_BUF_ALIGNMENT: nat := 4 * 1024 * 1024

  /** The read end of the pipe: read() hands out any non-empty part of what is left. */
  class Pipe {
    var left: string

    constructor (text: string)
      ensures left == text
    {
      left := text;
    }

    method Read(max: nat) returns (chunk: string)
      requires max > 0
      modifies this
      ensures |chunk| <= max && old(left) == chunk + left
      ensures chunk == "" <==> old(left) == ""
    {
      if left == "" {
        return "";
      }
      var n: nat :| 1 <= n <= max && n <= |left|;
      chunk := left[..n];
      left := left[n..];
    }
  }

  class PreprocessorReader {
    var buf: array<char>
    /** Output that is complete. */
    var cchDstOptimized: nat
    /** Start of the input not yet optimised. */
    var offSrcUnoptimized: nat
    /** The next input to process. */
    var offSrcCur: nat
    /** Where more raw input goes. */
    var offSrcRead: nat
    var uOptLineNo: nat
    var uCurLineNo: nat
    var fDone: bool
    /** The character that gave way to the terminator after the output, NUL if none. */
    var chSaved: char
    /** -O2: blank lines before a directive are dropped with it. */
    const fOptimize2: bool
    var curFile: string

    ghost predicate Layout()
      reads `buf, `cchDstOptimized, `offSrcUnoptimized, `offSrcCur, `offSrcRead, `uOptLineNo, `uCurLineNo
    {
      && cchDstOptimized <= offSrcUnoptimized <= offSrcCur <= offSrcRead < buf.Length
      && uOptLineNo < LINE_MOD && uCurLineNo < LINE_MOD
    }

    ghost function Out(): string
      reads `buf, `cchDstOptimized, `offSrcUnoptimized, `offSrcCur, `offSrcRead, `uOptLineNo, `uCurLineNo, buf
      requires Layout()
    {
      buf[..][..cchDstOptimized]
    }

    /** Input that was processed and is held back. */
    ghost function Held(): string
      reads `buf, `cchDstOptimized, `offSrcUnoptimized, `offSrcCur, `offSrcRead, `uOptLineNo, `uCurLineNo, buf
      requires Layout()
    {
      buf[..][offSrcUnoptimized..offSrcCur]
    }

    ghost function Unread(): string
      reads `buf, `cchDstOptimized, `offSrcUnoptimized, `offSrcCur, `offSrcRead, `uOptLineNo, `uCurLineNo, buf
      requires Layout()
    {
      buf[..][offSrcCur..offSrcRead]
    }

    method GrowBuffer()
      requires Layout()
      modifies this`buf
      ensures Layout() && fresh(buf)
      ensures buf.Length == old(buf.Length) + KOC_BUF_ALIGNMENT
      ensures buf[..old(buf.Length)] == old(buf[..])
    {
      var bigger := new char[buf.Length + KOC_BUF_ALIGNMENT];
      forall i | 0 <= i < buf.Length {
        bigger[i] := buf[i];
      }
      assert bigger[..buf.Length] == buf[..];
      buf := bigger;
    }

    /** memmove and memcpy into the buffer. */
    method Store(dst: nat, text: string)
      requires dst + |text| <= buf.Length
      modifies buf
      ensures buf[..] == Put(old(buf[..]), dst, text)
    {
      forall i | 0 <= i < |text| {
        buf[dst + i] := text[i];
      }
    }

    method Reserve(size: nat)
      requires Layout()
      modifies `buf
      ensures Layout() && buf.Length > size
      ensures buf == old(buf) || fresh(buf)
      ensures old(buf[..]) <= buf[..]
    {
      ghost var was := buf[..];
      while size >= buf.Length
        invariant Layout() && was <= buf[..]
        invariant buf == old(buf) || fresh(buf)
        decreases size - buf.Length
      {
        GrowBuffer();
      }
    }

    /** Moves the unoptimised input, with its terminator, up. */
    method MoveUp(offDelta: nat)
      requires Layout() && offSrcRead + offDelta < buf.Length
      modifies `offSrcUnoptimized, `offSrcCur, `offSrcRead, buf
      ensures Layout()
      ensures offSrcUnoptimized == old(offSrcUnoptimized) + offDelta && offSrcCur == old(offSrcCur) + offDelta
      ensures offSrcRead == old(offSrcRead) + offDelta
      ensures Out() == old(Out()) && Held() == old(Held()) && Unread() == old(Unread())
      ensures buf[offSrcRead] == old(buf[offSrcRead])
    {
      hide Put;
      ghost var was := buf[..];
      Moved(was, cchDstOptimized, offSrcUnoptimized, offSrcCur, offSrcRead, offDelta);
      Store(offSrcUnoptimized + offDelta, buf[..][offSrcUnoptimized..offSrcRead + 1]);
      offSrcRead := offSrcRead + offDelta;
      offSrcUnoptimized := offSrcUnoptimized + offDelta;
      offSrcCur := offSrcCur + offDelta;
      assert buf[offSrcRead] == buf[..][offSrcRead];
    }

    /** Replaces the first cchSrcReplaced bytes held back by text that is complete. */
    method OptInsert(cchSrcReplaced: nat, insert: string) returns (offDelta: nat)
      requires Layout() && offSrcUnoptimized + cchSrcReplaced <= offSrcCur
      modifies `buf, `cchDstOptimized, `offSrcUnoptimized, `offSrcCur, `offSrcRead, buf
      ensures Layout() && (buf == old(buf) || fresh(buf))
      ensures Out() == old(Out()) + insert
      ensures Held() == old(Held())[cchSrcReplaced..]
      ensures Unread() == old(Unread())
      ensures buf[offSrcRead] == old(buf[offSrcRead])
      ensures offSrcCur == old(offSrcCur) + offDelta && offSrcRead == old(offSrcRead) + offDelta
      ensures offSrcCur - offSrcUnoptimized == old(offSrcCur) - old(offSrcUnoptimized) - cchSrcReplaced
      ensures |insert| <= cchSrcReplaced ==> offDelta == 0
    {
      offDelta := 0;
      offSrcUnoptimized := offSrcUnoptimized + cchSrcReplaced;
      assert Held() == old(Held())[cchSrcReplaced..];
      var cchAvail := offSrcUnoptimized - cchDstOptimized;
      if cchAvail < |insert| {
        offDelta := |insert| - cchAvail;
        ghost var was := buf[..];
        Reserve(offSrcRead + offDelta);
        PrefixSlices(was, buf[..], cchDstOptimized, offSrcUnoptimized, offSrcCur, offSrcRead);
        assert buf[offSrcRead] == buf[..][offSrcRead];
        MoveUp(offDelta);
      }
      Append(insert);
    }

    method Append(text: string)
      requires Layout() && cchDstOptimized + |text| <= offSrcUnoptimized
      modifies `cchDstOptimized, buf
      ensures Layout()
      ensures Out() == old(Out()) + text && Held() == old(Held()) && Unread() == old(Unread())
      ensures buf[offSrcRead] == old(buf[offSrcRead])
    {
      ghost var was := buf[..];
      var dst := cchDstOptimized;
      Store(dst, text);
      PutBeside(was, dst, text, offSrcUnoptimized, offSrcCur);
      PutBeside(was, dst, text, offSrcCur, offSrcRead);
      cchDstOptimized := cchDstOptimized + |text|;
      assert buf[..][offSrcRead] == was[offSrcRead];
    }

    /** Everything held back is kept as it is. */
    method OptCommit()
      requires Layout()
      modifies `cchDstOptimized, `offSrcUnoptimized, `uOptLineNo, buf
      ensures Layout()
      ensures Out() == old(Out() + Held()) && Held() == "" && Unread() == old(Unread())
      ensures buf[offSrcRead] == old(buf[offSrcRead])
      ensures uOptLineNo == uCurLineNo
    {
      var cchToCommit := offSrcCur - offSrcUnoptimized;
      if cchToCommit > 0 {
        var held := buf[..][offSrcUnoptimized..offSrcCur];
        ghost var was := buf[..];
        Store(cchDstOptimized, held);
        PutBeside(was, cchDstOptimized, held, offSrcCur, offSrcRead);
        assert buf[..][offSrcRead] == was[offSrcRead];
        cchDstOptimized := cchDstOptimized + cchToCommit;
        offSrcUnoptimized := offSrcCur;
      }
      uOptLineNo := uCurLineNo;
    }

    method OptFlush(upTo: nat) returns (offDelta: nat)
      requires Layout() && offSrcUnoptimized <= upTo <= offSrcCur
      modifies `buf, `cchDstOptimized, `offSrcUnoptimized, `offSrcCur, `offSrcRead, buf
      ensures Layout() && (buf == old(buf) || fresh(buf))
      ensures Out() == old(Out()) + Unlines(Gap(upTo > old(offSrcUnoptimized), uOptLineNo, uCurLineNo))
      ensures Held() == old(Held())[upTo - old(offSrcUnoptimized)..] && Unread() == old(Unread())
      ensures buf[offSrcRead] == old(buf[offSrcRead])
      ensures offSrcCur == old(offSrcCur) + offDelta
      ensures offSrcCur - offSrcUnoptimized == old(offSrcCur) - upTo && offSrcCur <= offSrcRead < buf.Length
      ensures offSrcRead == old(offSrcRead) + offDelta
    {
      hide Wrap, LineDirective, Unlines, FmtNewLines, Out, Held, Unread;
      offDelta := 0;
      NoLines();
      if upTo > offSrcUnoptimized {
        var insert := FormatGap();
        offDelta := OptInsert(upTo - offSrcUnoptimized, insert);
      }
    }

    /** The newlines that are missing, or a directive if that is shorter. */
    method FormatGap() returns (insert: string)
      ensures insert == Unlines(Gap(true, uOptLineNo, uCurLineNo))
    {
      hide Wrap, LineDirective;
      var cLinesInQuestion := Wrap(uCurLineNo - uOptLineNo);
      insert := FmtNewLines(cLinesInQuestion);
      if cLinesInQuestion > 7 {
        var directive := LineDirective(uCurLineNo, "") + "\n";
        if |directive| < cLinesInQuestion {
          insert := directive;
        }
      }
      GapText(uOptLineNo, uCurLineNo);
    }

    /** Steps over blanks; the byte at eol is none. */
    method SkipBlanksAt(from: nat, ghost start: nat, eol: nat) returns (p: nat)
      requires start <= from <= eol < buf.Length && !IsBlank(buf[eol])
      ensures from <= p <= eol && p - start == SkipBlanks(buf[..][start..eol], from - start)
    {
      ghost var s := buf[..][start..eol];
      p := from;
      while IsBlank(buf[p])
        invariant from <= p <= eol
        invariant SkipBlanks(s, p - start) == SkipBlanks(s, from - start)
        decreases eol - p
      {
        p := p + 1;
      }
    }

    method ParseDigitsAt(from: nat, ghost start: nat, eol: nat) returns (p: nat, number: nat)
      requires start <= from <= eol < buf.Length && !IsDigit(buf[eol])
      ensures from <= p <= eol && p - start == SkipDigits(buf[..][start..eol], from - start)
      ensures number == NumberOf(buf[..][start..eol][from - start..p - start])
    {
      ghost var s := buf[..][start..eol];
      ghost var k := from - start;
      p, number := from, 0;
      while IsDigit(buf[p])
        invariant from <= p <= eol
        invariant SkipDigits(s, p - start) == SkipDigits(s, k)
        invariant number == NumberOf(s[k..p - start])
        decreases eol - p
      {
        number := Wrap(Wrap(number * 10) + (buf[p] as int - '0' as int));
        p := p + 1;
        assert s[k..p - start][..p - from - 1] == s[k..p - 1 - start];
      }
    }

    /** The end of the file name. kOCDepIsEscaped is given the wrong start of the name here,
        so its answer is arbitrary; it is only asked after a backslash. */
    method ScanNameAt(nameAt: nat, ghost start: nat, eol: nat) returns (p: nat)
      requires start < nameAt <= eol < buf.Length
      requires NoEscapedQuote(buf[..][start..eol])
      ensures nameAt <= p <= eol && p - start == FindQuote(buf[..][start..eol], nameAt - start)
    {
      ghost var s := buf[..][start..eol];
      p := nameAt;
      var escaped: bool := *;
      while p != eol && (buf[p] != '"' || (buf[p - 1] == '\\' && escaped))
        invariant nameAt <= p <= eol
        invariant FindQuote(s, p - start) == FindQuote(s, nameAt - start)
        decreases eol - p
      {
        assert buf[p] == s[p - start] && buf[p - 1] == s[p - 1 - start];
        p := p + 1;
        escaped := *;
      }
    }

    method ParseNameAt(from: nat, ghost start: nat, eol: nat, number: nat) returns (d: Directive)
      requires start <= from <= eol < buf.Length && !IsBlank(buf[eol])
      requires NoEscapedQuote(buf[..][start..eol])
      ensures d == ParseName(buf[..][start..eol], from - start, number)
    {
      var p := SkipBlanksAt(from, start, eol);
      var name: Option<string> := None;
      if p != eol && buf[p] == '"' {
        var nameAt := p + 1;
        p := ScanNameAt(nameAt, start, eol);
        if p == eol {
          return NotDirective;
        }
        name := Some(buf[..][nameAt..p]);
        SliceOfSlice(buf[..], start, eol, nameAt - start, p - start);
        p := SkipBlanksAt(p + 1, start, eol);
      }
      if p != eol {
        return NotDirective;
      }
      return Directive(number, name);
    }

    method IsLineWordAt(p: nat, ghost start: nat, eol: nat) returns (b: bool)
      requires start <= p <= eol < buf.Length && buf[eol] in "\r\n\0"
      ensures b == HasLineWord(buf[..][start..eol], p - start)
      ensures b ==> p + 5 <= eol
    {
      b := buf[p] == 'l' && buf[p + 1] == 'i' && buf[p + 2] == 'n' && buf[p + 3] == 'e' && IsBlank(buf[p + 4]);
    }

    method ParseNumberAt(p: nat, ghost start: nat, eol: nat) returns (d: Directive)
      requires start <= p <= eol < buf.Length && buf[eol] in "\r\n\0"
      requires NumberAt(buf[..][start..eol], p - start) ==> NoEscapedQuote(buf[..][start..eol])
      ensures d == ParseNumber(buf[..][start..eol], p - start)
    {
      hide ParseName, NumberOf;
      if !IsDigit(buf[p]) {
        return NotDirective;
      }
      var q, number := ParseDigitsAt(p, start, eol);
      if q != eol && !IsBlank(buf[q]) {
        return NotDirective;
      }
      d := ParseNameAt(q, start, eol, number);
    }

    method OptParseLine(cur: nat, eol: nat) returns (d: Directive)
      requires cur < eol < buf.Length && buf[eol] in "\r\n\0"
      requires Numbered(buf[..][cur..eol]) ==> NoEscapedQuote(buf[..][cur..eol])
      ensures d == ParseDirective(buf[..][cur..eol])
    {
      hide ParseNumber, NumberAt, NoEscapedQuote, HasLineWord;
      if buf[cur] != '#' {
        return NotDirective;
      }
      var isShort := IsBlank(buf[cur + 1]);
      var p := SkipBlanksAt(cur + 1, cur, eol);
      var isLong := IsLineWordAt(p, cur, eol);
      if isLong {
        p := SkipBlanksAt(p + 5, cur, eol);
      } else if !(isShort && IsDigit(buf[p])) {
        return NotDirective;
      }
      d := ParseNumberAt(p, cur, eol);
    }

    /** memchr for the end of the line: nl is the newline found, or the end of the data. */
    method GetEol(from: nat, cbLeft: nat) returns (eol: Option<nat>, ghost nl: nat)
      requires from + cbLeft < buf.Length
      ensures from <= nl <= from + cbLeft && '\n' !in buf[..][from..nl]
      ensures nl < from + cbLeft ==> buf[nl] == '\n'
      ensures eol == if nl < from + cbLeft then Some(if nl > from && buf[nl - 1] == '\r' then nl - 1 else nl)
                     else if fDone && cbLeft > 0 then Some(nl) else None
    {
      var p := from;
      while p < from + cbLeft && buf[p] != '\n'
        invariant from <= p <= from + cbLeft
        invariant '\n' !in buf[..][from..p]
      {
        p := p + 1;
      }
      nl := p;
      if p < from + cbLeft {
        if p != from && buf[p - 1] == '\r' {
          return Some(p - 1), nl;
        }
        return Some(p), nl;
      } else if fDone && cbLeft > 0 {
        return Some(from + cbLeft), nl;
      }
      return None, nl;
    }

    method AdvanceTo(eol: nat)
      requires Layout() && offSrcCur <= eol <= offSrcRead
      modifies `offSrcCur
      ensures Layout() && offSrcCur == eol
      ensures Out() == old(Out()) && Held() == old(Held()) + old(buf[..][offSrcCur..eol])
      ensures Unread() == old(buf[..][eol..offSrcRead])
    {
      offSrcCur := eol;
    }

    /** Replaces the line that starts at offSrcLine and everything before it by a directive. */
    method EmitDirective(offSrcLine: nat, cchSrcLine: nat, directive: string)
      requires Layout() && offSrcUnoptimized <= offSrcLine <= offSrcCur
      requires cchSrcLine == offSrcCur - (if fOptimize2 then offSrcUnoptimized else offSrcLine)
      modifies `buf, `cchDstOptimized, `offSrcUnoptimized, `offSrcCur, `offSrcRead, buf
      ensures Layout() && (buf == old(buf) || fresh(buf))
      ensures Unread() == old(Unread()) && Held() == ""
      ensures buf[offSrcRead] == old(buf[offSrcRead])
      ensures var gap := Unlines(Gap(offSrcLine > old(offSrcUnoptimized), uOptLineNo, uCurLineNo));
              Out() == old(Out()) + (if fOptimize2 then "" else gap) + directive
    {
      hide *;
      ConcatNothing(Out());
      if !fOptimize2 {
        var _ := OptFlush(offSrcLine);
      }
      var _ := OptInsert(cchSrcLine, directive);
      NothingHeld();
    }

    lemma {:induction false} NothingHeld()
      requires Layout() && offSrcCur == offSrcUnoptimized
      ensures Held() == ""
    {
    }

    /** A directive on the line that starts at offSrcLine and ends at offSrcCur. */
    method HandleDirective(offSrcLine: nat, cchSrcLine: nat, d: Directive) returns (fEmptyLine: bool)
      requires Layout() && offSrcUnoptimized <= offSrcLine <= offSrcCur && d.Directive?
      requires cchSrcLine == offSrcCur - (if fOptimize2 then offSrcUnoptimized else offSrcLine)
      modifies `buf, `cchDstOptimized, `offSrcUnoptimized, `offSrcCur, `offSrcRead, `uCurLineNo, `curFile, buf
      ensures Layout() && (buf == old(buf) || fresh(buf))
      ensures Unread() == old(Unread()) && buf[offSrcRead] == old(buf[offSrcRead])
      ensures var held := offSrcLine > old(offSrcUnoptimized);
              HandledControl(old(Out()), held, old(Held()), d.number, d.name, old(uCurLineNo), old(curFile), fEmptyLine)
    {
      hide LineDirective, Gap, Unlines, Wrap;
      var uNewLineNo := d.number;
      var newFile := NewName(false, curFile, d.name);
      if newFile == curFile && uNewLineNo >= uCurLineNo {
        fEmptyLine := true;
      } else {
        EmitDirective(offSrcLine, cchSrcLine, LineDirective(uNewLineNo, if newFile == curFile then "" else newFile));
        fEmptyLine := false;
      }
      SetLocation(newFile, uNewLineNo);
    }

    method SetLocation(newFile: string, uNewLineNo: nat)
      requires Layout()
      modifies `curFile, `uCurLineNo
      ensures Layout() && curFile == newFile && uCurLineNo == Wrap(uNewLineNo - 1)
      ensures Out() == old(Out()) && Held() == old(Held()) && Unread() == old(Unread())
    {
      curFile := newFile;
      WrapBelow(uNewLineNo - 1);
      uCurLineNo := Wrap(uNewLineNo - 1);
    }

    /** Handles a line whose first character that is not white space is a hash at offset cur. */
    method OptHandleLine(cur: nat, eol: nat) returns (fEmptyLine: bool)
      requires Layout() && offSrcCur <= cur < eol <= offSrcRead && buf[cur] == '#' && buf[eol] in "\r\n\0"
      requires Numbered(buf[..][cur..eol]) ==> NoEscapedQuote(buf[..][cur..eol])
      modifies `buf, `cchDstOptimized, `offSrcUnoptimized, `offSrcCur, `offSrcRead, `uCurLineNo, `curFile, buf
      ensures Layout() && (buf == old(buf) || fresh(buf))
      ensures Unread() == old(buf[..][eol..offSrcRead])
      ensures buf[offSrcRead] == old(buf[offSrcRead])
      ensures Handled(old(Out()), old(Held()), old(buf[..][offSrcCur..eol]), old(buf[..][cur..eol]), old(uCurLineNo),
                old(curFile), fEmptyLine)
    {
      hide ParseDirective, Numbered, NoEscapedQuote, HandledControl, Gap, Unlines, Out, Held, Unread;
      var offSrcLine := offSrcCur;
      HeldLength();
      var cchSrcLine := eol - (if fOptimize2 then offSrcUnoptimized else offSrcCur);
      ghost var held, line := Held(), buf[..][offSrcCur..eol];
      AdvanceTo(eol);
      var d := OptParseLine(cur, eol);
      if d.NotDirective? {
        var _ := OptFlush(offSrcLine);
        fEmptyLine := false;
        assert (held + line)[|held|..] == line;
      } else {
        fEmptyLine := HandleDirective(offSrcLine, cchSrcLine, d);
      }
    }

    lemma {:induction false} HeldLength()
      requires Layout()
      ensures |Held()| == offSrcCur - offSrcUnoptimized && offSrcUnoptimized <= offSrcCur <= offSrcRead < buf.Length
      ensures Held() == buf[..][offSrcUnoptimized..offSrcCur]
    {
    }

    ghost predicate HandledControl(out: string, wasHeld: bool, held: string, n: nat, f: Option<string>, curLine: nat,
        file: string, empty: bool)
      reads this, buf
      requires Layout()
    {
      var newFile := NewName(false, file, f);
      var gap := Unlines(Gap(wasHeld, uOptLineNo, curLine));
      && curFile == newFile && uCurLineNo == Wrap(n - 1)
      && if newFile == file && n >= curLine then
           empty && Out() == out && Held() == held
         else
           && !empty && Held() == ""
           && Out() == out + (if fOptimize2 then "" else gap) +
              LineDirective(n, if newFile == file then "" else newFile)
    }

    /** The state after a line with a hash, relative to the one before. */
    ghost predicate Handled(out: string, held: string, line: string, directive: string, curLine: nat, file: string,
        empty: bool)
      reads this, buf
      requires Layout()
    {
      match ParseDirective(directive)
      case NotDirective =>
        && !empty && Out() == out + Unlines(Gap(held != "", uOptLineNo, curLine)) && Held() == line
        && uCurLineNo == curLine && curFile == file
      case Directive(n, f) =>
        HandledControl(out, held != "", held + line, n, f, curLine, file, empty)
    }

    // ----- One line at a time -------------------------------------------------

    ghost predicate Matches(base: string, s: State)
      reads `buf, `cchDstOptimized, `offSrcUnoptimized, `offSrcCur, `offSrcRead, `uOptLineNo, `uCurLineNo, `curFile, buf
    {
      && Layout()
      && Out() == base + Unlines(s.out) && (Held() != "" <==> s.pending)
      && uOptLineNo == s.optLine && uCurLineNo == s.curLine && curFile == s.file
    }

    /** The scan is at offset pos of a line of which only white space has been seen. */
    ghost predicate Scanning(base: string, s: State, pos: nat)
      reads this, buf
    {
      && Matches(base, s)
      && offSrcCur <= pos <= offSrcRead
      && forall k :: offSrcCur <= k < pos ==> IsSpace(buf[k])
    }

    /** The scan is at the end of a line that has been dealt with, before its newline. */
    ghost predicate AtLineEnd(base: string, s: State, line: string, pos: nat, empty: bool)
      reads this, buf
    {
      var t := Step(fOptimize2, s, line);
      && Layout() && offSrcCur <= pos <= offSrcRead && curFile == t.file
      && if empty then
           Out() == base + Unlines(t.out) && t.pending && uOptLineNo == t.optLine && Wrap(uCurLineNo + 1) == t.curLine
         else
           && Out() + buf[..][offSrcUnoptimized..pos] + "\n" == base + Unlines(t.out)
           && !t.pending && t.optLine == t.curLine == AfterWritten(line, uCurLineNo)
    }

    /** Everything up to pos is kept as it is. */
    method CommitUpTo(pos: nat)
      requires Layout() && offSrcUnoptimized <= pos <= offSrcRead
      modifies `offSrcCur, `cchDstOptimized, `offSrcUnoptimized, `uOptLineNo, buf
      ensures Layout() && offSrcUnoptimized == offSrcCur == pos && uOptLineNo == uCurLineNo
      ensures Out() == old(Out() + buf[..][offSrcUnoptimized..pos])
      ensures Unread() == old(buf[..][pos..offSrcRead]) && buf[offSrcRead] == old(buf[offSrcRead])
    {
      offSrcCur := pos;
      OptCommit();
    }

    /** What a line that is kept leaves in the output once its end is there too. */
    lemma {:induction false} KeptLine(base: string, s: State, line: string, pos: nat)
      requires AtLineEnd(base, s, line, pos, false)
      ensures Layout() && offSrcUnoptimized <= offSrcCur <= pos <= offSrcRead < buf.Length
      ensures var t := Step(fOptimize2, s, line);
              && Out() + buf[..][offSrcUnoptimized..pos] + "\n" == base + Unlines(t.out)
              && !t.pending && t.optLine == t.curLine == AfterWritten(line, uCurLineNo) && curFile == t.file
    {
      hide Step, Unlines, AfterWritten, Out;
    }

    lemma {:induction false} NothingPending(base: string, t: State)
      requires Layout() && Out() == base + Unlines(t.out) && offSrcUnoptimized == offSrcCur
      requires !t.pending && uOptLineNo == t.optLine && uCurLineNo == t.curLine && curFile == t.file
      ensures Matches(base, t)
    {
      hide Unlines, Out;
    }

    lemma {:induction false} LineCounted(line: string)
      requires Layout()
      ensures AfterWritten(line, uCurLineNo) == if EndsInCr(line) then uCurLineNo else Wrap(uCurLineNo + 1)
    {
      hide EndsInCr;
      WrapSmall(uCurLineNo);
    }

    /** The newline at offset pos. */
    method EndLine(pos: nat, fEmptyLine: bool, ghost base: string, ghost s: State, ghost line: string)
      requires AtLineEnd(base, s, line, pos, fEmptyLine) && (EndsInCr(line) ==> fEmptyLine)
      requires pos < offSrcRead && buf[pos] == '\n'
      modifies `offSrcCur, `uCurLineNo, `cchDstOptimized, `offSrcUnoptimized, `uOptLineNo, buf
      ensures Matches(base, Step(fOptimize2, s, line))
      ensures Unread() == old(buf[..][pos + 1..offSrcRead]) && buf[offSrcRead] == old(buf[offSrcRead])
    {
      if fEmptyLine {
        EmptyLineEnds(pos, base, s, line);
      } else {
        KeptLineEnds(pos, base, s, line);
      }
    }

    /** A line that is dropped is held back with its end. */
    method EmptyLineEnds(pos: nat, ghost base: string, ghost s: State, ghost line: string)
      requires AtLineEnd(base, s, line, pos, true) && pos < offSrcRead
      modifies `offSrcCur, `uCurLineNo
      ensures Matches(base, Step(fOptimize2, s, line)) && Unread() == old(buf[..][pos + 1..offSrcRead])
    {
      hide Step, Unlines, Wrap;
      WrapBelow(uCurLineNo + 1);
      offSrcCur := pos + 1;
      uCurLineNo := Wrap(uCurLineNo + 1);
    }

    /** A line that is kept goes out with its end. */
    method KeptLineEnds(pos: nat, ghost base: string, ghost s: State, ghost line: string)
      requires AtLineEnd(base, s, line, pos, false) && !EndsInCr(line) && pos < offSrcRead && buf[pos] == '\n'
      modifies `offSrcCur, `uCurLineNo, `cchDstOptimized, `offSrcUnoptimized, `uOptLineNo, buf
      ensures Matches(base, Step(fOptimize2, s, line))
      ensures Unread() == old(buf[..][pos + 1..offSrcRead]) && buf[offSrcRead] == old(buf[offSrcRead])
    {
      hide Step, Unlines, Wrap, AfterWritten, Held, Unread, AtLineEnd, Matches;
      KeptLine(base, s, line, pos);
      LineCounted(line);
      SlicesJoin(buf[..], offSrcUnoptimized, pos, pos + 1);
      assert buf[..][pos..pos + 1] == "\n";
      ConcatAssoc(Out(), buf[..][offSrcUnoptimized..pos], "\n");
      WrapBelow(uCurLineNo + 1);
      uCurLineNo := Wrap(uCurLineNo + 1);
      CommitUpTo(pos + 1);
      NothingPending(base, Step(fOptimize2, s, line));
    }

    /** The CR LF at the head of the unread text goes out as a newline. */
    method ReplaceCrLf(ghost rest: string)
      requires Layout() && offSrcUnoptimized == offSrcCur && rest == Unread() && |rest| >= 2
      modifies `buf, `offSrcCur, `offSrcRead, `cchDstOptimized, `offSrcUnoptimized, buf
      ensures Layout() && (buf == old(buf) || fresh(buf)) && offSrcUnoptimized == offSrcCur == old(offSrcCur) + 2
      ensures Out() == old(Out()) + "\n" && Unread() == rest[2..] && buf[offSrcRead] == old(buf[offSrcRead])
    {
      UnreadParts(rest, 2);
      offSrcCur := offSrcCur + 2;
      hide Out, Held;
      assert Unread() == rest[2..];
      var _ := OptInsert(2, "\n");
    }

    /** CR LF at offset pos, after a line that is kept. */
    method EndCrLfLine(pos: nat, ghost base: string, ghost s: State, ghost line: string)
      requires AtLineEnd(base, s, line, pos, false) && EndsInCr(line)
      requires pos + 2 <= offSrcRead && buf[pos] == '\r' && buf[pos + 1] == '\n'
      modifies `buf, `offSrcCur, `offSrcRead, `cchDstOptimized, `offSrcUnoptimized, `uOptLineNo, buf
      ensures Matches(base, Step(fOptimize2, s, line)) && (buf == old(buf) || fresh(buf))
      ensures Unread() == old(buf[..][pos + 2..offSrcRead]) && buf[offSrcRead] == old(buf[offSrcRead])
      ensures offSrcCur == pos + 2
    {
      hide *;
      KeptLine(base, s, line, pos);
      LineCounted(line);
      ghost var rest := buf[..][pos..offSrcRead];
      assert rest[..2] == "\r\n";
      SliceOfSlice(buf[..], pos, offSrcRead, 2, |rest|);
      CommitUpTo(pos);
      ReplaceCrLf(rest);
      NothingPending(base, Step(fOptimize2, s, line));
    }

    /** The scan reached the end of unterminated data that has been dealt with. */
    ghost predicate AtTextEnd(base: string, e: Ending)
      reads `buf, `cchDstOptimized, `offSrcUnoptimized, `offSrcCur, `offSrcRead, `uOptLineNo, `uCurLineNo, `curFile, buf
    {
      && Layout()
      && Out() == base + Unlines(e.s.out) + e.tail && (Held() != "" <==> e.s.pending)
      && uOptLineNo == e.s.optLine && uCurLineNo == e.s.curLine && curFile == e.s.file
    }

    /** A line with a hash at offset pos, up to eol; terminated says whether a newline follows. */
    method HashLine(pos: nat, eol: nat, ghost base: string, ghost s: State, ghost line: string, ghost terminated: bool)
        returns (fEmptyLine: bool)
      requires Scanning(base, s, pos) && pos < eol <= offSrcRead && (!terminated ==> pos + 1 < eol)
      requires buf[pos] == '#' && buf[eol] in "\r\n\0"
      requires buf[..][offSrcCur..eol] == (if terminated then StripCr(line) else line)
      requires PlainLine(buf[..][offSrcCur..eol])
      modifies `buf, `cchDstOptimized, `offSrcUnoptimized, `offSrcCur, `offSrcRead, `uCurLineNo, `curFile, buf
      ensures buf == old(buf) || fresh(buf)
      ensures terminated ==> AtLineEnd(base, s, line, offSrcCur, fEmptyLine)
      ensures !terminated ==> AtTextEnd(base, LastStep(fOptimize2, s, line))
      ensures Layout() && Unread() == old(buf[..][eol..offSrcRead]) && buf[offSrcRead] == old(buf[offSrcRead])
      ensures offSrcCur <= offSrcRead < buf.Length && offSrcRead - offSrcCur == old(offSrcRead) - eol
      ensures buf[..][offSrcCur..offSrcRead] == old(buf[..][eol..offSrcRead])
    {
      hide *;
      ghost var stripped := if terminated then StripCr(line) else line;
      HashIsPlain(pos, eol, base, s, stripped);
      ghost var out, held, directive := Out(), Held(), buf[..][pos..eol];
      fEmptyLine := OptHandleLine(pos, eol);
      UnreadIs(old(buf[..][eol..offSrcRead]));
      if terminated {
        HandledIsLineEnd(base, s, line, out, held, directive, fEmptyLine);
      } else {
        HandledIsTextEnd(base, s, line, out, held, directive, fEmptyLine);
      }
    }

    lemma {:induction false} UnreadIs(t: string)
      requires Layout() && Unread() == t
      ensures offSrcCur <= offSrcRead < buf.Length && buf[..][offSrcCur..offSrcRead] == t
      ensures offSrcRead - offSrcCur == |t|
    {
    }

    lemma {:induction false} HandledIsTextEnd(base: string, s: State, rest: string, out: string, held: string,
        directive: string, empty: bool)
      requires Layout() && Handled(out, held, rest, directive, s.curLine, s.file, empty)
      requires out == base + Unlines(s.out) && (held != "" <==> s.pending) && uOptLineNo == s.optLine
      requires Classify(rest) == match ParseDirective(directive)
                                 case NotDirective => Text
                                 case Directive(n, f) => Control(n, f)
      requires var i := SkipSpaces(rest, 0); i + 1 < |rest| && rest[i] == '#'
      ensures AtTextEnd(base, LastStep(fOptimize2, s, rest))
    {
      hide Layout, Out, Held, Unlines, Classify, ParseDirective, Gap, LineDirective, Wrap, SkipSpaces, LastStep,
           Flushed, NewName;
      LastHashOut(s, rest);
      ConcatAssoc(base, Unlines(s.out), Unlines(Gap(s.pending, s.optLine, s.curLine)));
      ConcatNothing(base + Unlines(s.out));
    }

    lemma {:induction false} LastHashOut(s: State, rest: string)
      requires var i := SkipSpaces(rest, 0); i + 1 < |rest| && rest[i] == '#'
      ensures var e := LastStep(fOptimize2, s, rest);
              var flushed := Unlines(s.out) + Unlines(Gap(s.pending, s.optLine, s.curLine));
              && e.s.optLine == s.optLine
              && match Classify(rest)
                 case Control(n, f) =>
                   var file := NewName(false, s.file, f);
                   && e.s.file == file && e.s.curLine == Wrap(n - 1)
                   && if file == s.file && n >= s.curLine then e.s.out == s.out && e.s.pending && e.tail == ""
                      else
                        && Unlines(e.s.out) == (if fOptimize2 then Unlines(s.out) else flushed) && !e.s.pending
                        && e.tail == LineDirective(n, if file == s.file then "" else file)
                 case _ => e == Ending(s.(out := Flushed(s), pending := true), "") && Unlines(e.s.out) == flushed
    {
      hide Unlines, Gap, Classify, Wrap, LineDirective;
      UnlinesConcat(s.out, Gap(s.pending, s.optLine, s.curLine));
    }

    lemma {:induction false} HashIsPlain(pos: nat, eol: nat, base: string, s: State, stripped: string)
      requires Scanning(base, s, pos) && pos < eol <= offSrcRead && buf[pos] == '#'
      requires buf[..][offSrcCur..eol] == stripped && PlainLine(stripped)
      ensures Layout() && offSrcCur <= pos && offSrcRead < buf.Length
      ensures SkipSpaces(stripped, 0) == pos - offSrcCur && stripped[pos - offSrcCur] == '#'
      ensures |stripped| == eol - offSrcCur
      ensures Numbered(buf[..][pos..eol]) ==> NoEscapedQuote(buf[..][pos..eol])
      ensures Classify(stripped) == match ParseDirective(buf[..][pos..eol])
                                    case NotDirective => Text
                                    case Directive(n, f) => Control(n, f)
      ensures Out() == base + Unlines(s.out) && (Held() != "" <==> s.pending)
      ensures uOptLineNo == s.optLine && uCurLineNo == s.curLine && curFile == s.file
    {
      hide Out, Held, Unlines, Classify, ParseDirective, Numbered, NoEscapedQuote;
      var i := pos - offSrcCur;
      ClassifyAt(stripped, i);
      assert buf[..][pos..eol] == stripped[i..];
    }

    lemma {:induction false} HandledIsLineEnd(base: string, s: State, line: string, out: string, held: string,
        directive: string, empty: bool)
      requires Layout() && Handled(out, held, StripCr(line), directive, s.curLine, s.file, empty)
      requires out == base + Unlines(s.out) && (held != "" <==> s.pending) && uOptLineNo == s.optLine
      requires Classify(StripCr(line)) == match ParseDirective(directive)
                                          case NotDirective => Text
                                          case Directive(n, f) => Control(n, f)
      ensures AtLineEnd(base, s, line, offSrcCur, empty)
    {
      hide Layout, Out, Held, Step, Unlines, Classify, ParseDirective, Gap, LineDirective, Wrap, StripCr, AfterWritten,
           NewName;
      StepOut(fOptimize2, s, line);
      HeldLength();
      var u, gap := Unlines(s.out), Unlines(Gap(s.pending, s.optLine, s.curLine));
      ConcatAssoc(base, u, gap);
      ConcatNothing(base + u);
      match Classify(StripCr(line))
      case Control(n, f) =>
        var file := NewName(false, s.file, f);
        var d := LineDirective(n, if file == s.file then "" else file);
        ConcatNothing(base + (if fOptimize2 then u else u + gap) + d);
        assert base + (if fOptimize2 then u else u + gap) + d + "\n" ==
                 base + (u + (if fOptimize2 then "" else gap) + d + "\n");
      case Blank =>
      case Text =>
        assert base + (u + gap) + StripCr(line) + "\n" == base + (u + gap + StripCr(line) + "\n");
    }

    /** The unread text in two parts. */
    lemma {:induction false} UnreadParts(unread: string, n: nat)
      requires Layout() && Unread() == unread && n <= |unread|
      ensures offSrcCur + |unread| == offSrcRead < buf.Length
      ensures buf[..][offSrcCur..offSrcCur + n] == unread[..n] && buf[..][offSrcCur + n..offSrcRead] == unread[n..]
    {
      SliceOfSlice(buf[..], offSrcCur, offSrcRead, 0, n);
      SliceOfSlice(buf[..], offSrcCur, offSrcRead, n, |unread|);
    }

    /** Flushes what is held back in front of the current line; the line stays in front of what follows it. */
    method FlushBefore(eol: nat, ghost line: string) returns (offDelta: nat)
      requires Layout() && offSrcUnoptimized <= offSrcCur <= eol <= offSrcRead && line == buf[..][offSrcCur..eol]
      modifies `buf, `cchDstOptimized, `offSrcUnoptimized, `offSrcCur, `offSrcRead, buf
      ensures Layout() && (buf == old(buf) || fresh(buf)) && offSrcUnoptimized == offSrcCur
      ensures Out() == old(Out()) + Unlines(Gap(old(offSrcCur > offSrcUnoptimized), uOptLineNo, uCurLineNo))
      ensures offSrcCur == old(offSrcCur) + offDelta && offSrcRead == old(offSrcRead) + offDelta < buf.Length
      ensures Unread() == old(Unread()) && buf[offSrcRead] == old(buf[offSrcRead]) && eol + offDelta <= offSrcRead
      ensures buf[..][offSrcCur..eol + offDelta] == line
      ensures buf[..][eol + offDelta..offSrcRead] == old(buf[..][eol..offSrcRead])
    {
      hide Out, Held, Gap, Unlines;
      ghost var unread := Unread();
      UnreadParts(unread, eol - offSrcCur);
      offDelta := OptFlush(offSrcCur);
      UnreadParts(unread, eol + offDelta - offSrcCur);
    }

    /** A line of program text; its first character that is not white space is at offset pos. */
    method TextLine(pos: nat, eol: nat, ghost base: string, ghost s: State, ghost line: string, ghost terminated: bool)
        returns (offDelta: nat)
      requires Scanning(base, s, pos) && pos < eol <= offSrcRead && buf[pos] != '#' && !IsSpace(buf[pos])
      requires !terminated ==> pos + 1 < eol
      requires buf[..][offSrcCur..eol] == (if terminated then StripCr(line) else line)
      modifies `buf, `cchDstOptimized, `offSrcUnoptimized, `offSrcCur, `offSrcRead, buf
      ensures buf == old(buf) || fresh(buf)
      ensures terminated ==> AtLineEnd(base, s, line, eol + offDelta, false)
      ensures !terminated ==> AtTextEnd(base, LastStep(fOptimize2, s, line))
      ensures Layout() && Unread() == old(Unread()) && buf[offSrcRead] == old(buf[offSrcRead])
      ensures offSrcCur == old(offSrcCur) + offDelta && offSrcRead == old(offSrcRead) + offDelta < buf.Length
      ensures buf[..][eol + offDelta..offSrcRead] == old(buf[..][eol..offSrcRead])
    {
      hide *;
      ghost var stripped := if terminated then StripCr(line) else line;
      TextIsScanned(pos, eol, base, s, stripped);
      offDelta := FlushBefore(eol, stripped);
      FlushedText(base, s, line, terminated, eol + offDelta);
    }

    /** The line is where it belongs, whether a newline follows or not. */
    lemma {:induction false} FlushedText(base: string, s: State, line: string, terminated: bool, end: nat)
      requires Layout() && offSrcUnoptimized == offSrcCur <= end <= offSrcRead
      requires buf[..][offSrcCur..end] == if terminated then StripCr(line) else line
      requires Out() == base + Unlines(s.out) + Unlines(Gap(s.pending, s.optLine, s.curLine))
      requires uOptLineNo == s.optLine && uCurLineNo == s.curLine && curFile == s.file
      requires terminated ==> Classify(StripCr(line)) == Text
      requires !terminated ==> var i := SkipSpaces(line, 0); i + 1 < |line| && line[i] != '#'
      ensures terminated ==> AtLineEnd(base, s, line, end, false)
      ensures !terminated ==> AtTextEnd(base, LastStep(fOptimize2, s, line))
    {
      hide *;
      if terminated {
        FlushedIsLineEnd(base, s, line, end);
      } else {
        LastTextOut(s, line);
        FlushedIsTextEnd(base, s, line);
      }
    }

    lemma {:induction false} TextIsScanned(pos: nat, eol: nat, base: string, s: State, stripped: string)
      requires Scanning(base, s, pos) && pos < eol <= offSrcRead && buf[pos] != '#' && !IsSpace(buf[pos])
      requires buf[..][offSrcCur..eol] == stripped
      ensures Layout() && offSrcUnoptimized <= offSrcCur <= pos && offSrcRead < buf.Length
      ensures |stripped| <= |Unread()| && Unread()[..|stripped|] == stripped
      ensures Classify(stripped) == Text
      ensures var i := SkipSpaces(stripped, 0);
              i == pos - offSrcCur && stripped[i] != '#' && |stripped| == eol - offSrcCur
      ensures Out() == base + Unlines(s.out) && (offSrcCur > offSrcUnoptimized <==> s.pending)
      ensures uOptLineNo == s.optLine && uCurLineNo == s.curLine && curFile == s.file
    {
      hide Unlines, Classify, Out, SkipSpaces;
      HeldLength();
      assert stripped[pos - offSrcCur] == buf[pos];
      forall k | 0 <= k < pos - offSrcCur ensures IsSpace(stripped[k]) {
        assert stripped[k] == buf[offSrcCur + k];
      }
      TextIsPlain(stripped, pos - offSrcCur);
      SlicePrefix(buf[..], offSrcCur, offSrcRead, |stripped|);
    }

    lemma {:induction false} FlushedIsLineEnd(base: string, s: State, line: string, end: nat)
      requires Layout() && offSrcUnoptimized == offSrcCur <= end <= offSrcRead
      requires StripCr(line) == buf[..][offSrcCur..end]
      requires Out() == base + Unlines(s.out) + Unlines(Gap(s.pending, s.optLine, s.curLine))
      requires uOptLineNo == s.optLine && uCurLineNo == s.curLine && curFile == s.file
      requires Classify(StripCr(line)) == Text
      ensures AtLineEnd(base, s, line, end, false)
    {
      hide Classify, Gap, LineDirective, Wrap, Unlines, StripCr, AfterWritten, Step;
      StepOut(fOptimize2, s, line);
      var u, gap, stripped := Unlines(s.out), Unlines(Gap(s.pending, s.optLine, s.curLine)), StripCr(line);
      assert base + u + gap + stripped + "\n" == base + (u + gap + stripped + "\n");
    }

    lemma {:induction false} FlushedIsTextEnd(base: string, s: State, rest: string)
      requires Layout() && offSrcUnoptimized == offSrcCur
      requires Out() == base + Unlines(s.out) + Unlines(Gap(s.pending, s.optLine, s.curLine))
      requires uOptLineNo == s.optLine && uCurLineNo == s.curLine && curFile == s.file
      requires var e := LastStep(fOptimize2, s, rest);
               && e.tail == "" && e.s == s.(out := Flushed(s), pending := false)
               && Unlines(e.s.out) == Unlines(s.out) + Unlines(Gap(s.pending, s.optLine, s.curLine))
      ensures AtTextEnd(base, LastStep(fOptimize2, s, rest))
    {
      hide Unlines, Gap, LastStep, Flushed;
      var u, gap := Unlines(s.out), Unlines(Gap(s.pending, s.optLine, s.curLine));
      assert base + u + gap == base + (u + gap);
    }

    lemma {:induction false} LastTextOut(s: State, rest: string)
      requires var i := SkipSpaces(rest, 0); i + 1 < |rest| && rest[i] != '#'
      ensures var e := LastStep(fOptimize2, s, rest);
              && e.tail == "" && e.s == s.(out := Flushed(s), pending := false)
              && Unlines(e.s.out) == Unlines(s.out) + Unlines(Gap(s.pending, s.optLine, s.curLine))
    {
      hide Unlines, Gap, Classify;
      UnlinesConcat(s.out, Gap(s.pending, s.optLine, s.curLine));
    }

    // ----- All lines that are complete -----------------------------------------

    /** Where the scan is: lines are the ones dealt with since the text at hand was u, s is the
        state before the current line. */
    ghost predicate Underway(base: string, s: State, u: string, lines: seq<string>, pos: nat, empty: bool, at: Place)
      reads this, buf
    {
      && AllNoNewline(lines) && Layout() && offSrcCur <= pos <= offSrcRead
      && match at
         case InLine => Scanning(base, s, pos) && empty && u == Unlines(lines) + Unread()
         case LineEnd(line, more) =>
           && AtLineEnd(base, s, line, pos, empty) && NoNewline(line)
           && u == Unlines(lines) + line + "\n" + more
           && (buf[..][pos..offSrcRead] == "\n" + more || (EndsInCr(line) && buf[..][pos..offSrcRead] == "\r\n" + more))
           && (EndsInCr(line) && !empty ==> buf[..][pos..offSrcRead] == "\r\n" + more)
         case TextEnd(rest) =>
           && fDone && pos == offSrcRead && NoNewline(rest) && u == Unlines(lines) + rest
           && AtTextEnd(base, LastStep(fOptimize2, s, rest)) && Leftover(rest, Unread())
    }

    /** The text at hand when the end of the current line has been found at nl, eol without its CR. */
    lemma {:induction false} LineFound(base: string, s: State, u: string, lines: seq<string>, pos: nat, nl: nat,
        eol: nat)
      requires Underway(base, s, u, lines, pos, true, InLine) && PlainText(u, fDone)
      requires pos < nl <= offSrcRead && !IsSpace(buf[pos]) && buf[pos] != '\n' && '\n' !in buf[..][pos + 1..nl]
      requires if nl < offSrcRead then buf[nl] == '\n' else fDone
      requires eol == if nl < offSrcRead && nl > pos + 1 && buf[nl - 1] == '\r' then nl - 1 else nl
      ensures var line := buf[..][offSrcCur..nl];
              && NoNewline(line)
              && (nl < offSrcRead ==>
                    && buf[..][offSrcCur..eol] == StripCr(line) && PlainLine(StripCr(line))
                    && u == Unlines(lines) + line + "\n" + buf[..][nl + 1..offSrcRead]
                    && buf[..][eol..offSrcRead] ==
                         (if EndsInCr(line) then "\r\n" else "\n") + buf[..][nl + 1..offSrcRead])
              && (nl == offSrcRead ==>
                    && line == Unread() && PlainLine(line) && u == Unlines(lines) + line
                    && Leftover(line, "") && (buf[pos] != '#' ==> Leftover(line, line)))
    {
      hide Unlines, PlainText, PlainLine, Matches, Leftover, EndsInCr, StripCr;
      var b, line := buf[..], buf[..][offSrcCur..nl];
      LineFoundPlain(base, s, pos, nl);
      if nl < offSrcRead {
        var more := b[nl + 1..offSrcRead];
        assert Unread() == line + "\n" + more;
        assert Unlines(lines) + (line + "\n" + more) == Unlines(lines) + line + "\n" + more;
        PlainNextLine(u, fDone, lines, line, more);
        EndFound(line, pos, nl, eol);
        assert b[offSrcCur..eol] == line[..eol - offSrcCur];
        assert b[eol..offSrcRead] == b[eol..nl] + ("\n" + more);
      } else {
        assert line == Unread();
        PlainRest(u, lines, line);
        if buf[pos] != '#' {
          LeftoverText(line, pos - offSrcCur);
        }
        LeftoverNothing(line);
      }
    }

    lemma {:induction false} LineFoundPlain(base: string, s: State, pos: nat, nl: nat)
      requires Scanning(base, s, pos) && pos < nl <= offSrcRead < buf.Length && buf[pos] != '\n'
      requires '\n' !in buf[..][pos + 1..nl]
      requires offSrcCur <= pos
      ensures NoNewline(buf[..][offSrcCur..nl])
    {
      hide Matches;
      var b := buf[..];
      assert b[offSrcCur..nl] == b[offSrcCur..pos] + [b[pos]] + b[pos + 1..nl];
    }

    /** The end of the line without its CR. */
    lemma {:induction false} EndFound(line: string, pos: nat, nl: nat, eol: nat)
      requires offSrcCur <= pos < nl <= buf.Length && line == buf[..][offSrcCur..nl] && !IsSpace(buf[pos])
      requires eol == if nl > pos + 1 && buf[nl - 1] == '\r' then nl - 1 else nl
      ensures line[..eol - offSrcCur] == StripCr(line) && buf[..][eol..nl] == if EndsInCr(line) then "\r" else ""
    {
      assert line[|line| - 1] == buf[nl - 1];
    }

    lemma {:induction false} LeftoverText(line: string, i: nat)
      requires i < |line| && !IsSpace(line[i]) && line[i] != '#' && forall k :: 0 <= k < i ==> IsSpace(line[k])
      ensures Leftover(line, line)
    {
      TextIsPlain(line, i);
    }

    lemma {:induction false} LeftoverNothing(line: string)
      ensures Leftover(line, "")
    {
    }

    /** The first character of a line that is not white space: the line is handled up to its end
        if that is at hand. */
    method HandleLine(pos: nat, ghost base: string, ghost s: State, ghost u: string, ghost lines: seq<string>)
        returns (found: bool, p: nat, fEmptyLine: bool, ghost at: Place)
      requires Underway(base, s, u, lines, pos, true, InLine) && PlainText(u, fDone)
      requires pos < offSrcRead && !IsSpace(buf[pos]) && buf[pos] != '\n' && (fDone ==> buf[offSrcRead] == '\0')
      modifies `buf, `cchDstOptimized, `offSrcUnoptimized, `offSrcCur, `offSrcRead, `uCurLineNo, `curFile, buf
      ensures buf == old(buf) || fresh(buf)
      ensures Layout() && buf[offSrcRead] == old(buf[offSrcRead])
      ensures found ==> Underway(base, s, u, lines, p, fEmptyLine, at) && offSrcRead - p < old(offSrcRead) - pos
      ensures !found ==>
                Underway(base, s, u, lines, pos, true, InLine) && '\n' !in Unread() && (fDone ==> pos + 1 == offSrcRead)
      ensures p <= offSrcRead && (!found ==> p == pos && fEmptyLine)
      ensures !found ==> buf == old(buf) && buf[..] == old(buf[..]) && offSrcRead == old(offSrcRead)
    {
      hide *;
      LayoutOf(base, s, u, lines, pos);
      p, fEmptyLine, at := pos, true, InLine;
      var eol, nl := GetEol(pos + 1, offSrcRead - pos - 1);
      if eol == None {
        found := false;
        NoLineFound(base, s, u, lines, pos);
      } else {
        found := true;
        LineFound(base, s, u, lines, pos, nl, eol.value);
        ghost var line := buf[..][offSrcCur..nl];
        ghost var terminated := nl < offSrcRead;
        ghost var more := if terminated then buf[..][nl + 1..offSrcRead] else "";
        if buf[pos] == '#' {
          fEmptyLine := HashLine(pos, eol.value, base, s, line, terminated);
          p := offSrcCur;
        } else {
          fEmptyLine := false;
          var offDelta := TextLine(pos, eol.value, base, s, line, terminated);
          p := eol.value + offDelta;
        }
        at := if terminated then LineEnd(line, more) else TextEnd(line);
        Dealt(base, s, u, lines, line, more, terminated, p, fEmptyLine);
      }
    }

    lemma {:induction false} Dealt(base: string, s: State, u: string, lines: seq<string>, line: string, more: string,
        terminated: bool, p: nat, empty: bool)
      requires Layout() && p <= offSrcRead && AllNoNewline(lines) && NoNewline(line)
      requires terminated ==>
                 && AtLineEnd(base, s, line, p, empty) && u == Unlines(lines) + line + "\n" + more
                 && buf[..][p..offSrcRead] == (if EndsInCr(line) then "\r\n" else "\n") + more
      requires !terminated ==>
                 && fDone && p == offSrcRead && u == Unlines(lines) + line && offSrcCur <= p
                 && AtTextEnd(base, LastStep(fOptimize2, s, line)) && Leftover(line, Unread())
      ensures Underway(base, s, u, lines, p, empty, if terminated then LineEnd(line, more) else TextEnd(line))
    {
      hide Unlines, Step, LastStep, Leftover, AtTextEnd;
    }

    lemma {:induction false} LayoutOf(base: string, s: State, u: string, lines: seq<string>, pos: nat)
      requires Underway(base, s, u, lines, pos, true, InLine)
      ensures Layout() && offSrcUnoptimized <= offSrcCur <= pos <= offSrcRead < buf.Length && Scanning(base, s, pos)
      ensures u == Unlines(lines) + Unread() && |Unread()| == offSrcRead - offSrcCur && AllNoNewline(lines)
    {
      hide Matches, Unlines;
    }

    lemma {:induction false} NoLineFound(base: string, s: State, u: string, lines: seq<string>, pos: nat)
      requires Underway(base, s, u, lines, pos, true, InLine)
      requires pos < offSrcRead && buf[pos] != '\n' && '\n' !in buf[..][pos + 1..offSrcRead]
      ensures Layout() && '\n' !in Unread()
    {
      hide Matches, Unlines;
      assert Unread() == buf[..][offSrcCur..pos] + [buf[pos]] + buf[..][pos + 1..offSrcRead];
    }

    /** The line that a newline at offset pos ends. */
    ghost function LineAt(pos: nat, at: Place): string
      requires offSrcCur <= pos <= offSrcRead <= buf.Length
      reads this, buf
    {
      match at
      case InLine => buf[..][offSrcCur..pos]
      case LineEnd(line, _) => line
      case TextEnd(rest) => rest
    }

    lemma {:induction false} NewlineInLine(pos: nat, base: string, s: State, u: string, lines: seq<string>,
        line: string, more: string)
      requires Underway(base, s, u, lines, pos, true, InLine) && pos < offSrcRead && buf[pos] == '\n'
      requires line == buf[..][offSrcCur..pos] && more == buf[..][pos + 1..offSrcRead]
      ensures AtLineEnd(base, s, line, pos, true) && NoNewline(line) && u == Unlines(lines) + line + "\n" + more
    {
      hide Step, Unlines, Wrap, Gap, AtLineEnd;
      BlankAtLineEnd(base, s, line, pos);
      assert Unread() == line + "\n" + more;
      assert Unlines(lines) + (line + "\n" + more) == Unlines(lines) + line + "\n" + more;
    }

    lemma {:induction false} NewlineAt(pos: nat, fEmptyLine: bool, base: string, s: State, u: string,
        lines: seq<string>, at: Place, more: string)
      requires Underway(base, s, u, lines, pos, fEmptyLine, at) && pos < offSrcRead && buf[pos] == '\n'
      requires offSrcCur <= pos < offSrcRead < buf.Length && more == buf[..][pos + 1..offSrcRead]
      ensures AllNoNewline(lines) && NoNewline(LineAt(pos, at)) && u == Unlines(lines) + LineAt(pos, at) + "\n" + more
      ensures AtLineEnd(base, s, LineAt(pos, at), pos, fEmptyLine) && (EndsInCr(LineAt(pos, at)) ==> fEmptyLine)
    {
      hide Step, Unlines, Wrap, Gap, AtLineEnd, Scanning;
      if at.InLine? {
        NewlineInLine(pos, base, s, u, lines, LineAt(pos, at), more);
      } else {
        assert buf[..][pos..offSrcRead][0] == '\n';
        assert buf[..][pos..offSrcRead] == "\n" + more;
        assert ("\n" + at.more)[1..] == at.more && ("\n" + more)[1..] == more;
      }
    }

    /** The scan goes on behind a line that is dealt with. */
    lemma {:induction false} NextLine(base: string, s: State, u: string, lines: seq<string>, line: string,
        more: string, pos: nat)
      requires Matches(base, s) && AllNoNewline(lines) && NoNewline(line) && u == Unlines(lines) + line + "\n" + more
      requires Layout() && Unread() == more && pos <= offSrcRead && |more| == offSrcRead - pos
      ensures Underway(base, s, u, lines + [line], pos, true, InLine) && offSrcCur == pos
    {
      hide Unlines, Matches;
      UnlinesSnoc(lines, line);
    }

    lemma {:induction false} ScanIsInside(pos: nat, fEmptyLine: bool, base: string, s: State, u: string,
        lines: seq<string>, at: Place)
      requires Underway(base, s, u, lines, pos, fEmptyLine, at)
      ensures Layout() && offSrcCur <= pos <= offSrcRead < buf.Length
    {
      hide Scanning, AtLineEnd, AtTextEnd;
    }

    lemma {:induction false} MatchesLayout(base: string, s: State)
      requires Matches(base, s)
      ensures Layout()
    {
    }

    /** A newline at offset pos: the current line is complete. */
    method HandleNewline(pos: nat, fEmptyLine: bool, ghost base: string, ghost s: State, ghost u: string,
        ghost lines: seq<string>, ghost at: Place)
        returns (ghost line: string)
      requires Underway(base, s, u, lines, pos, fEmptyLine, at) && pos < offSrcRead && buf[pos] == '\n'
      modifies `offSrcCur, `uCurLineNo, `cchDstOptimized, `offSrcUnoptimized, `uOptLineNo, buf
      ensures Underway(base, Step(fOptimize2, s, line), u, lines + [line], pos + 1, true, InLine)
      ensures offSrcCur == pos + 1 && buf[offSrcRead] == old(buf[offSrcRead])
    {
      hide *;
      ScanIsInside(pos, fEmptyLine, base, s, u, lines, at);
      ghost var more := buf[..][pos + 1..offSrcRead];
      NewlineAt(pos, fEmptyLine, base, s, u, lines, at, more);
      line := LineAt(pos, at);
      EndLine(pos, fEmptyLine, base, s, line);
      MatchesLayout(base, Step(fOptimize2, s, line));
      NextLine(base, Step(fOptimize2, s, line), u, lines, line, more, pos + 1);
    }

    lemma {:induction false} BlankAtLineEnd(base: string, s: State, line: string, pos: nat)
      requires Scanning(base, s, pos) && line == buf[..][offSrcCur..pos]
      ensures AtLineEnd(base, s, line, pos, true) && NoNewline(line)
    {
      var t := StripCr(line);
      assert forall k :: 0 <= k < |line| ==> IsSpace(line[k]);
      assert forall k :: 0 <= k < |t| ==> t[k] == line[k];
      var i := SkipSpaces(t, 0);
      hide Unlines, Wrap, Gap;
    }

    /** CR LF at offset pos after a line that is kept. */
    method HandleCrLf(pos: nat, ghost base: string, ghost s: State, ghost u: string, ghost lines: seq<string>,
        ghost at: Place)
        returns (ghost line: string)
      requires Underway(base, s, u, lines, pos, false, at) && at.LineEnd?
      requires pos + 1 < offSrcRead && buf[pos] == '\r' && buf[pos + 1] == '\n'
      modifies `buf, `offSrcCur, `offSrcRead, `cchDstOptimized, `offSrcUnoptimized, `uOptLineNo, buf
      ensures buf == old(buf) || fresh(buf)
      ensures Underway(base, Step(fOptimize2, s, line), u, lines + [line], pos + 2, true, InLine)
      ensures offSrcCur == pos + 2 && buf[offSrcRead] == old(buf[offSrcRead]) && offSrcRead == old(offSrcRead)
    {
      hide Step, Unlines, Wrap, Gap;
      line := at.line;
      ghost var more := buf[..][pos + 2..offSrcRead];
      assert buf[..][pos..offSrcRead] == "\r\n" + more;
      assert ("\r\n" + at.more)[2..] == at.more && ("\r\n" + more)[2..] == more;
      EndCrLfLine(pos, base, s, line);
      UnlinesSnoc(lines, line);
      UnreadIs(more);
    }

    /** White space, or the CR of an empty line. */
    lemma {:induction false} SkipSpace(base: string, s: State, u: string, lines: seq<string>, pos: nat, empty: bool,
        at: Place)
      requires Underway(base, s, u, lines, pos, empty, at) && pos < offSrcRead && IsSpace(buf[pos])
      requires buf[pos] == '\r' && pos + 1 < offSrcRead ==> !(buf[pos + 1] == '\n' && !empty)
      ensures Underway(base, s, u, lines, pos + 1, empty, at)
      ensures at.LineEnd? ==> pos + 1 < offSrcRead
    {
      hide Unlines, Step, LastStep;
      if at.LineEnd? {
        var rest := buf[..][pos..offSrcRead];
        assert rest[0] == buf[pos];
        assert rest == "\r\n" + at.more;
        assert rest[1] == buf[pos + 1];
        assert buf[..][pos + 1..offSrcRead] == rest[1..] == "\n" + at.more;
      }
    }

    /** kOCCppRdOpt: processes everything up to the last complete line. */
    method Opt(ghost base: string, ghost s0: State)
      requires Layout() && Matches(base, s0) && PlainText(Unread(), fDone) && (fDone ==> buf[offSrcRead] == '\0')
      modifies `buf, `cchDstOptimized, `offSrcUnoptimized, `offSrcCur, `offSrcRead, `uOptLineNo, `uCurLineNo, `curFile,
                 buf
      ensures Layout() && (buf == old(buf) || fresh(buf))
      ensures Processed(base, s0, old(Unread()))
    {
      hide Unlines, Step, LastStep, Matches, PlainText, Underway, SplitText, Processed;
      ghost var u, lines, s, at := Unread(), [], s0, InLine;
      var pos: nat := offSrcCur;
      StartsUnderway(base, s0);
      var fEmptyLine := true;
      while offSrcRead - pos > 0
        invariant Layout() && pos <= offSrcRead < buf.Length
        invariant Underway(base, s, u, lines, pos, fEmptyLine, at) && s == RunFrom(fOptimize2, s0, lines)
        invariant PlainText(u, fDone) && (fDone ==> buf[offSrcRead] == '\0')
        invariant buf == old(buf) || fresh(buf)
        decreases offSrcRead - pos
      {
        var cbTodo := offSrcRead - pos;
        if buf[pos] == '\n' {
          ghost var line := HandleNewline(pos, fEmptyLine, base, s, u, lines, at);
          RunFromSnoc(fOptimize2, s0, lines, line);
          lines, s, at := lines + [line], Step(fOptimize2, s, line), InLine;
          pos, fEmptyLine := pos + 1, true;
          LayoutOf(base, s, u, lines, pos);
        } else if buf[pos] == '\r' && cbTodo <= 1 && !fDone {
          StopsInLine(base, s, u, lines, pos, fEmptyLine, at);
          Finished(base, s0, s, u, lines, pos);
          return;
        } else if buf[pos] == '\r' && buf[pos + 1] == '\n' && !fEmptyLine {
          NotInLine(base, s, u, lines, pos, at);
          ghost var line := HandleCrLf(pos, base, s, u, lines, at);
          RunFromSnoc(fOptimize2, s0, lines, line);
          lines, s, at := lines + [line], Step(fOptimize2, s, line), InLine;
          pos, fEmptyLine := pos + 2, true;
          LayoutOf(base, s, u, lines, pos);
        } else if IsSpace(buf[pos]) {
          SkipSpace(base, s, u, lines, pos, fEmptyLine, at);
          pos := pos + 1;
        } else {
          InLineOnly(base, s, u, lines, pos, fEmptyLine, at);
          var found;
          found, pos, fEmptyLine, at := HandleLine(pos, base, s, u, lines);
          if !found {
            Finished(base, s0, s, u, lines, pos);
            return;
          }
        }
      }
      EndsUnderway(base, s0, s, u, lines, pos, fEmptyLine, at);
    }

    /** The result of processing the text u from state s0. */
    ghost predicate Processed(base: string, s0: State, u: string)
      reads this, buf
    {
      var t := SplitText(u);
      var s := RunFrom(fOptimize2, s0, t.lines);
      && Layout()
      && if fDone then AtTextEnd(base, LastStep(fOptimize2, s, t.rest)) && Leftover(t.rest, Unread())
         else Matches(base, s) && Unread() == t.rest
    }

    lemma {:induction false} StartsUnderway(base: string, s: State)
      requires Matches(base, s)
      ensures Underway(base, s, Unread(), [], offSrcCur, true, InLine)
    {
    }

    lemma {:induction false} StopsInLine(base: string, s: State, u: string, lines: seq<string>, pos: nat, empty: bool,
        at: Place)
      requires Underway(base, s, u, lines, pos, empty, at) && pos + 1 == offSrcRead && buf[pos] == '\r' && !fDone
      ensures at == InLine && empty && Layout() && '\n' !in Unread()
    {
      hide Unlines, Step, LastStep;
      assert |buf[..][pos..offSrcRead]| == 1;
    }

    lemma {:induction false} NotInLine(base: string, s: State, u: string, lines: seq<string>, pos: nat, at: Place)
      requires Underway(base, s, u, lines, pos, false, at) && pos < offSrcRead
      ensures at.LineEnd?
      ensures Layout() && (buf[pos] == '\r' ==> pos + 1 < offSrcRead)
    {
      hide Unlines, Step, LastStep;
      var rest := buf[..][pos..offSrcRead];
      assert rest[0] == buf[pos];
    }

    lemma {:induction false} InLineOnly(base: string, s: State, u: string, lines: seq<string>, pos: nat, empty: bool,
        at: Place)
      requires Underway(base, s, u, lines, pos, empty, at) && pos < offSrcRead && !IsSpace(buf[pos]) && buf[pos] != '\n'
      ensures at == InLine && empty
    {
      hide Unlines, Step, LastStep;
      assert buf[..][pos..offSrcRead][0] == buf[pos];
    }

    /** No newline is left: the lines dealt with are all there are. */
    lemma {:induction false} Finished(base: string, s0: State, s: State, u: string, lines: seq<string>, pos: nat)
      requires Underway(base, s, u, lines, pos, true, InLine) && s == RunFrom(fOptimize2, s0, lines)
      requires '\n' !in Unread() && pos <= offSrcRead
      requires fDone ==> pos == offSrcRead || (pos + 1 == offSrcRead && !IsSpace(buf[pos]))
      ensures Processed(base, s0, u)
    {
      hide Unlines, Step, SplitText, RunFrom;
      SplitUnlines(lines, Unread());
      if fDone {
        var rest := Unread();
        if pos < offSrcRead {
          SkipSpacesIs(rest, pos - offSrcCur);
        }
        LastNothing(s, rest);
      }
    }

    lemma {:induction false} LastNothing(s: State, rest: string)
      requires SkipSpaces(rest, 0) + 1 >= |rest|
      ensures LastStep(fOptimize2, s, rest) == Ending(s, "") && Leftover(rest, rest)
    {
      hide Classify, Gap;
    }

    lemma {:induction false} EndsUnderway(base: string, s0: State, s: State, u: string, lines: seq<string>, pos: nat,
        empty: bool, at: Place)
      requires Underway(base, s, u, lines, pos, empty, at) && s == RunFrom(fOptimize2, s0, lines)
      requires pos == offSrcRead
      ensures Processed(base, s0, u)
    {
      hide Unlines, Step, LastStep, SplitText, RunFrom;
      assert |buf[..][pos..offSrcRead]| == 0;
      match at
      case InLine =>
        assert forall k :: 0 <= k < |Unread()| ==> Unread()[k] == buf[offSrcCur + k];
        Finished(base, s0, s, u, lines, pos);
      case LineEnd(line, more) =>
      case TextEnd(rest) =>
        SplitUnlines(lines, rest);
    }

    // ----- Reading ------------------------------------------------------------

    /** Everything read so far, and whether the end of it has been seen. */
    ghost var fed: string
    ghost var finished: bool

    /** The buffer with the character under the terminator put back. */
    ghost function Restored(): (b: string)
      reads this, buf
      requires Layout()
      ensures |b| == buf.Length
    {
      if chSaved != '\0' then buf[..][cchDstOptimized := chSaved] else buf[..]
    }

    /** With these buffer contents the reader has processed what it was fed. */
    ghost predicate ReadyOn(b: string)
      reads `buf, `cchDstOptimized, `offSrcUnoptimized, `offSrcCur, `offSrcRead, `uOptLineNo, `uCurLineNo, `curFile,
              `fDone, `fed, `finished
    {
      Layout() && |b| == buf.Length &&
      var t := SplitText(fed);
      var out, held, unread := b[..cchDstOptimized], b[offSrcUnoptimized..offSrcCur], b[offSrcCur..offSrcRead];
      && fDone == finished
      && if finished then
           out == Optimized(fOptimize2, fed) && held == "" && Leftover(t.rest, unread)
         else
           var s := Run(fOptimize2, t.lines);
           out == Unlines(s.out) && (held != "" <==> s.pending) && unread == t.rest
           && uOptLineNo == s.optLine && uCurLineNo == s.curLine && curFile == s.file
    }

    /** Between calls of Read. */
    ghost predicate Valid()
      reads this, buf
      ensures Valid() ==> Layout()
    {
      Layout() && ReadyOn(Restored())
    }

    /** What Read has handed out so far. */
    ghost function Output(): string
      reads `buf, `cchDstOptimized, `offSrcUnoptimized, `offSrcCur, `offSrcRead, `uOptLineNo, `uCurLineNo, buf
      requires Layout()
    {
      buf[..][..cchDstOptimized]
    }

    constructor (cbOldCpp: nat, optimize2: bool)
      ensures fresh(buf) && Valid() && fed == "" && !finished && Output() == "" && fOptimize2 == optimize2
    {
      var size :=
        if cbOldCpp != 0 then (cbOldCpp + KOC_BUF_ALIGNMENT) / KOC_BUF_ALIGNMENT * KOC_BUF_ALIGNMENT
        else KOC_BUF_ALIGNMENT;
      BufferSize(cbOldCpp);
      buf := new char[size];
      cchDstOptimized, offSrcUnoptimized, offSrcCur, offSrcRead := 0, 0, 0, 0;
      uOptLineNo, uCurLineNo, fDone, chSaved, curFile := 1, 1, false, '\0', "";
      fOptimize2 := optimize2;
      fed, finished := "", false;
    }

    method Finalize(ghost base: string, ghost s0: State)
      requires Layout() && Matches(base, s0) && PlainText(Unread(), true)
      modifies `buf, `cchDstOptimized, `offSrcUnoptimized, `offSrcCur, `offSrcRead, `uOptLineNo, `uCurLineNo, `curFile,
                 `fDone, buf
      ensures Layout() && (buf == old(buf) || fresh(buf)) && fDone
      ensures Out() == base + FinalText(fOptimize2, s0, old(Unread())) && Held() == ""
      ensures Leftover(SplitText(old(Unread())).rest, Unread())
    {
      hide *;
      Terminate(base, s0);
      ghost var u := Unread();
      Opt(base, s0);
      EndOfText(base, s0, u);
      ghost var t := SplitText(u);
      FlushEnd(base, LastStep(fOptimize2, RunFrom(fOptimize2, s0, t.lines), t.rest));
      FinalTextIs(s0, u);
    }

    /** Marks the end of the data. */
    method Terminate(ghost base: string, ghost s0: State)
      requires Layout() && Matches(base, s0)
      modifies `fDone, buf
      ensures Layout() && Matches(base, s0) && Unread() == old(Unread())
      ensures fDone && offSrcRead < buf.Length && buf[offSrcRead] == '\0'
    {
      hide Unlines;
      ghost var b := buf[..];
      fDone := true;
      buf[offSrcRead] := '\0';
      assert buf[..] == b[offSrcRead := '\0'];
      BesideUpdate(b, offSrcRead, '\0', 0, cchDstOptimized);
      BesideUpdate(b, offSrcRead, '\0', offSrcUnoptimized, offSrcCur);
      BesideUpdate(b, offSrcRead, '\0', offSrcCur, offSrcRead);
    }

    lemma {:induction false} EndOfText(base: string, s0: State, u: string)
      requires Processed(base, s0, u) && fDone
      ensures var t := SplitText(u);
              var e := LastStep(fOptimize2, RunFrom(fOptimize2, s0, t.lines), t.rest);
              && Layout() && AtTextEnd(base, e) && Leftover(t.rest, Unread())
              && (e.tail != "" ==> Unlines(Gap(e.s.pending, e.s.optLine, e.s.curLine)) == "")
    {
      hide LastStep, SplitText, RunFrom, AtTextEnd, Leftover, Unlines;
      var t := SplitText(u);
      TailOnlyWithoutGap(RunFrom(fOptimize2, s0, t.lines), t.rest);
    }

    method FlushEnd(ghost base: string, ghost e: Ending)
      requires Layout() && AtTextEnd(base, e)
      requires e.tail != "" ==> Unlines(Gap(e.s.pending, e.s.optLine, e.s.curLine)) == ""
      modifies `buf, `cchDstOptimized, `offSrcUnoptimized, `offSrcCur, `offSrcRead, buf
      ensures Layout() && (buf == old(buf) || fresh(buf))
      ensures Out() == base + (Unlines(Flushed(e.s)) + e.tail) && Held() == "" && Unread() == old(Unread())
    {
      hide Unlines, Gap, Flushed;
      FlushText(base, e);
      var _ := OptFlush(offSrcCur);
    }

    lemma {:induction false} FinalTextIs(s0: State, u: string)
      ensures var t := SplitText(u);
              var e := LastStep(fOptimize2, RunFrom(fOptimize2, s0, t.lines), t.rest);
              FinalText(fOptimize2, s0, u) == Unlines(Flushed(e.s)) + e.tail
    {
      hide LastStep, SplitText, RunFrom, Flushed, Unlines;
    }

    lemma {:induction false} TailOnlyWithoutGap(s: State, rest: string)
      ensures var e := LastStep(fOptimize2, s, rest);
              e.tail != "" ==> Unlines(Gap(e.s.pending, e.s.optLine, e.s.curLine)) == ""
    {
      hide Classify, LineDirective;
    }

    /** What was read goes behind the unread data. */
    method AppendInput(chunk: string, ghost s: State)
      requires Layout() && offSrcRead + |chunk| < buf.Length && Matches("", s)
      modifies `offSrcRead, buf
      ensures Layout() && Matches("", s) && Unread() == old(Unread()) + chunk
    {
      hide Unlines, Put;
      ghost var b := buf[..];
      var at := offSrcRead;
      Store(at, chunk);
      PutBeside(b, at, chunk, 0, cchDstOptimized);
      PutBeside(b, at, chunk, offSrcUnoptimized, offSrcCur);
      PutBeside(b, at, chunk, offSrcCur, at);
      PutInside(b, at, chunk, 0, |chunk|);
      offSrcRead := offSrcRead + |chunk|;
      SlicesJoin(buf[..], offSrcCur, at, offSrcRead);
    }

    lemma {:induction false} Opened()
      requires Layout() && ReadyOn(buf[..])
      ensures !finished ==>
                && Matches("", Run(fOptimize2, SplitText(fed).lines)) && Unread() == SplitText(fed).rest && !fDone
                && Out() == Unlines(Run(fOptimize2, SplitText(fed).lines).out)
      ensures finished ==>
                && Matches(Out(), State([], false, uOptLineNo, uCurLineNo, curFile)) && fDone
                && Out() == Optimized(fOptimize2, fed) && Leftover(SplitText(fed).rest, Unread())
    {
      hide Run, SplitText, Unlines, Optimized, Leftover;
      assert Unlines([]) == "" by { NoLines(); }
      assert Out() + "" == Out();
    }

    lemma {:induction false} ClosedRunning()
      requires !finished && !fDone && Matches("", Run(fOptimize2, SplitText(fed).lines))
      requires Unread() == SplitText(fed).rest
      ensures Layout() && ReadyOn(buf[..])
    {
      hide Run, SplitText, Unlines;
    }

    lemma {:induction false} ClosedFinished()
      requires Layout() && finished && fDone && Out() == Optimized(fOptimize2, fed) && Held() == ""
      requires Leftover(SplitText(fed).rest, Unread())
      ensures ReadyOn(buf[..])
    {
      hide SplitText, Optimized, Leftover;
    }

    method MakeRoom()
      requires Layout() && ReadyOn(buf[..])
      modifies `buf
      ensures Layout() && ReadyOn(buf[..]) && (buf == old(buf) || fresh(buf))
      ensures Out() == old(Out()) && buf.Length - offSrcRead > 1
    {
      hide Run, SplitText, Unlines, Optimized, Leftover;
      ghost var b := buf[..];
      if buf.Length - offSrcRead <= 1 {
        GrowBuffer();
        assert b <= buf[..];
        PrefixSlices(b, buf[..], cchDstOptimized, offSrcUnoptimized, offSrcCur, offSrcRead);
      }
    }

    /** End of file, for the first time or again. */
    method PullEnd()
      requires Layout() && ReadyOn(buf[..]) && PlainText(fed, true)
      modifies `buf, `cchDstOptimized, `offSrcUnoptimized, `offSrcCur, `offSrcRead, `uOptLineNo, `uCurLineNo, `curFile,
                 `fDone, `finished, buf
      ensures Layout() && ReadyOn(buf[..]) && (buf == old(buf) || fresh(buf)) && finished
      ensures old(Out()) <= Out() && (old(finished) ==> Out() == old(Out()))
    {
      hide *;
      Opened();
      ghost var again, rest, unread, out := finished, SplitText(fed).rest, Unread(), Out();
      ghost var base := if again then out else "";
      ghost var s :=
        if again then State([], false, uOptLineNo, uCurLineNo, curFile) else Run(fOptimize2, SplitText(fed).lines);
      FinalIsOptimized(fOptimize2, fed);
      if again {
        SplitIsInverse(fed);
        FinalNothing(fOptimize2, s, rest, unread);
        LeftoverIsPlain(fed, unread);
      }
      Finalize(base, s);
      finished := true;
      ConcatNothing(base);
      ConcatNothing(Optimized(fOptimize2, fed));
      if again {
        LeftoverAgain(rest, unread, Unread());
      }
      ClosedFinished();
    }

    /** More data: complete lines are processed. */
    method PullMore(chunk: string, ghost more: string)
      requires Layout() && ReadyOn(buf[..]) && !finished && offSrcRead + |chunk| < buf.Length
      requires PlainText(fed + chunk + more, true)
      modifies `buf, `cchDstOptimized, `offSrcUnoptimized, `offSrcCur, `offSrcRead, `uOptLineNo, `uCurLineNo, `curFile,
                 `fed, buf
      ensures Layout() && ReadyOn(buf[..]) && (buf == old(buf) || fresh(buf)) && old(Out()) <= Out()
      ensures fed == old(fed) + chunk
    {
      hide *;
      Opened();
      ghost var s := Run(fOptimize2, SplitText(fed).lines);
      ghost var out := Out();
      PlainPart(fed, chunk, more, false);
      AppendInput(chunk, s);
      Opt("", s);
      OptProcessed(fed, chunk, s, out);
      fed := fed + chunk;
      ClosedRunning();
    }

    lemma {:induction false} OptProcessed(was: string, chunk: string, s: State, out: string)
      requires s == Run(fOptimize2, SplitText(was).lines) && out == Unlines(s.out) && !fDone
      requires Processed("", s, SplitText(was).rest + chunk)
      ensures Matches("", Run(fOptimize2, SplitText(was + chunk).lines)) && Layout()
      ensures Unread() == SplitText(was + chunk).rest && out <= Out()
    {
      hide SplitText, Unlines, RunFrom;
      SplitAppend(was, chunk);
      var more := SplitText(SplitText(was).rest + chunk).lines;
      RunAppend(fOptimize2, INITIAL, SplitText(was).lines, more);
      RunGrows(fOptimize2, s, more);
      UnlinesGrows(s.out, RunFrom(fOptimize2, s, more).out);
    }

    /** One turn of the read loop: reads more data and optimises it, or finishes at the end of it. */
    method Pull(fd: Pipe) returns (cbRead: nat)
      requires Layout() && ReadyOn(buf[..]) && PlainText(fed + fd.left, true) && (finished ==> fd.left == "")
      modifies this, buf, fd
      ensures Layout() && ReadyOn(buf[..]) && (buf == old(buf) || fresh(buf)) && chSaved == old(chSaved)
      ensures fed + fd.left == old(fed + fd.left) && |fd.left| == old(|fd.left|) - cbRead
      ensures old(Out()) <= Out()
      ensures cbRead == 0 ==> finished && fd.left == ""
      ensures cbRead != 0 ==> !finished
      ensures old(finished) ==> cbRead == 0 && Out() == old(Out())
    {
      hide *;
      Opened();
      MakeRoom();
      var chunk := fd.Read(buf.Length - offSrcRead - 1);
      cbRead := |chunk|;
      if cbRead == 0 {
        ConcatNothing(fed);
        PullEnd();
      } else {
        ConcatAssoc(fed, chunk, fd.left);
        PullMore(chunk, fd.left);
      }
    }

    /** Hands out the output that became complete; an empty slice means the end of it. */
    method Read(fd: Pipe) returns (slice: string)
      requires Valid() && PlainText(fed + fd.left, true) && (finished ==> fd.left == "")
      modifies this, buf, fd
      ensures Valid() && (buf == old(buf) || fresh(buf))
      ensures fed + fd.left == old(fed + fd.left) && (finished ==> fd.left == "")
      ensures Output() == old(Output()) + slice
      ensures slice == "" ==> finished
      ensures |fd.left| <= old(|fd.left|) && (old(finished) ==> finished && slice == "")
      ensures !finished ==> |fd.left| < old(|fd.left|)
    {
      hide *;
      RestoreSaved();
      var cchOldOptimized := cchDstOptimized;
      ghost var out := Out();
      var cbRead := Pull(fd);
      OutLength(out);
      while cbRead != 0 && cchDstOptimized == cchOldOptimized
        invariant Layout() && ReadyOn(buf[..]) && (buf == old(buf) || fresh(buf))
        invariant fed + fd.left == old(fed + fd.left) && out <= Out() && |out| == cchOldOptimized
        invariant |Out()| == cchDstOptimized
        invariant cbRead == 0 ==> finished && fd.left == ""
        invariant cbRead != 0 ==> !finished && |fd.left| < old(|fd.left|)
        invariant |fd.left| <= old(|fd.left|)
        invariant old(finished) ==> finished && Out() == out
        decreases |fd.left| + cbRead
      {
        cbRead := Pull(fd);
        OutLength(out);
      }
      slice := HandOut(cchOldOptimized, out);
    }

    lemma {:induction false} OutLength(out: string)
      requires Layout()
      ensures |Out()| == cchDstOptimized
    {
    }

    /** Puts the character under the terminator back. */
    method RestoreSaved()
      requires Valid()
      modifies buf
      ensures Layout() && ReadyOn(buf[..]) && Out() == old(Output()) && |Out()| == cchDstOptimized
    {
      hide Run, SplitText, Unlines, Optimized, Leftover;
      ghost var b := buf[..];
      if chSaved != '\0' {
        buf[cchDstOptimized] := chSaved;
        assert buf[..] == b[cchDstOptimized := chSaved];
        BesideUpdate(b, cchDstOptimized, chSaved, 0, cchDstOptimized);
      }
      assert buf[..] == old(Restored());
    }

    /** Terminates the output and returns the part that is new. */
    method HandOut(from: nat, ghost out: string) returns (slice: string)
      requires Layout() && ReadyOn(buf[..]) && out <= Out() && |out| == from
      modifies `chSaved, buf
      ensures Valid() && Output() == old(Out()) == out + slice
      ensures |slice| == cchDstOptimized - from
    {
      hide Run, SplitText, Unlines, Optimized, Leftover, ReadyOn;
      ghost var b := buf[..];
      slice := buf[..][from..cchDstOptimized];
      assert Out() == Out()[..from] + slice;
      chSaved := buf[cchDstOptimized];
      buf[cchDstOptimized] := '\0';
      assert buf[..] == b[cchDstOptimized := '\0'];
      BesideUpdate(b, cchDstOptimized, '\0', 0, cchDstOptimized);
      assert Restored() == b;
    }

    /** Hands the buffer to the caller. */
    method GrabOutput() returns (text: string)
      requires Valid()
      ensures text == Output()
    {
      text := buf[..][..cchDstOptimized];
    }

    lemma {:induction false} OutputWhenFinished()
      requires Valid() && finished
      ensures Output() == Optimized(fOptimize2, fed)
    {
      hide Run, SplitText, Unlines, Optimized, Leftover;
      if chSaved != '\0' {
        BesideUpdate(buf[..], cchDstOptimized, chSaved, 0, cchDstOptimized);
      }
    }
  }

  /** The consumer's loop: reads to the end, collecting the slices, then grabs the output.
      However the pipe cuts the text into pieces, slices and output are the same text. */
  method Consume(text: string, cbOldCpp: nat, optimize2: bool) returns (slices: seq<string>, output: string)
    requires PlainText(text, true)
    ensures Concat(slices) == output == Optimized(optimize2, text)
  {
    hide *;
    var fd := new Pipe(text);
    var reader := new PreprocessorReader(cbOldCpp, optimize2);
    ConcatNothing(text);
    slices := [];
    NoSlices();
    var more := true;
    while more
      invariant fresh(fd) && fresh(reader) && fresh(reader.buf) && reader.fOptimize2 == optimize2
      invariant reader.Valid() && reader.fed + fd.left == text && (reader.finished ==> fd.left == "")
      invariant reader.Output() == Concat(slices) && (!more ==> reader.finished)
      decreases |fd.left|, !reader.finished, more
    {
      var slice := reader.Read(fd);
      if slice == "" {
        more := false;
      }
      ConcatSnoc(slices, slice);
      slices := slices + [slice];
    }
    output := reader.GrabOutput();
    reader.OutputWhenFinished();
    ConcatNothing(reader.fed);
  }

  lemma {:induction false} NoSlices()
    ensures Concat([]) == ""
  {
  }

  lemma {:induction false} ConcatAssoc(a: string, b: string, c: string)
    ensures a + (b + c) == a + b + c
  {
  }

  lemma {:induction false} ConcatNothing(out: string)
    ensures out + "" == out && "" + out == out
  {
  }

  lemma {:induction false} LeftoverAgain(rest: string, u1: string, u2: string)
    requires NoNewline(rest) && Leftover(rest, u1) && Leftover(SplitText(u1).rest, u2)
    ensures Leftover(rest, u2)
  {
    SplitUnlines([], u1);
    assert Unlines([]) + u1 == u1;
  }

  lemma {:induction false} LeftoverIsPlain(text: string, unread: string)
    requires PlainText(text, true) && Leftover(SplitText(text).rest, unread)
    ensures PlainText(unread, true)
  {
    SplitIsInverse(text);
    SplitUnlines([], unread);
    assert Unlines([]) + unread == unread;
  }

  lemma {:induction false} FinalIsOptimized(o2: bool, text: string)
    ensures var t := SplitText(text);
            var s := Run(o2, t.lines);
            && (PlainText(text, true) ==> PlainText(t.rest, true))
            && SplitText(t.rest).rest == t.rest
            && FinalText(o2, s, t.rest) == Optimized(o2, text) && Unlines(s.out) <= Optimized(o2, text)
  {
    hide LastStep, Flushed, PlainLine;
    var t := SplitText(text);
    SplitIsInverse(text);
    SplitUnlines([], t.rest);
    assert Unlines([]) + t.rest == t.rest;
    hide SplitText, Unlines;
    var s := Run(o2, t.lines);
    LastGrows(o2, s, t.rest);
    UnlinesGrows(s.out, Flushed(LastStep(o2, s, t.rest).s));
  }

  lemma {:induction false} LastGrows(o2: bool, s: State, rest: string)
    ensures s.out <= Flushed(LastStep(o2, s, rest).s)
  {
    hide Classify, Gap, LineDirective, SkipSpaces;
  }

  lemma {:induction false} NoLines()
    ensures Unlines([]) == ""
  {
  }

  lemma {:induction false} SkipSpacesIs(s: string, i: nat)
    requires i <= |s| && (i < |s| ==> !IsSpace(s[i]))
    requires forall k :: 0 <= k < i ==> IsSpace(s[k])
    ensures SkipSpaces(s, 0) == i
  {
    var j := SkipSpaces(s, 0);
  }

  lemma {:induction false} RunFromSnoc(o2: bool, s: State, ls: seq<string>, line: string)
    ensures RunFrom(o2, s, ls + [line]) == Step(o2, RunFrom(o2, s, ls), line)
  {
    hide Step;
    assert (ls + [line])[..|ls|] == ls;
  }

  lemma {:induction false} FlushText(base: string, e: Ending)
    requires e.tail != "" ==> Unlines(Gap(e.s.pending, e.s.optLine, e.s.curLine)) == ""
    ensures var g := Unlines(Gap(e.s.pending, e.s.optLine, e.s.curLine));
            base + Unlines(e.s.out) + e.tail + g == base + (Unlines(Flushed(e.s)) + e.tail)
  {
    hide Unlines, Gap;
    var gap := Gap(e.s.pending, e.s.optLine, e.s.curLine);
    UnlinesConcat(e.s.out, gap);
    var a, g := Unlines(e.s.out), Unlines(gap);
    if e.tail == "" {
      assert base + a + "" + g == base + (a + g + "");
    } else {
      assert base + a + e.tail + "" == base + (a + "" + e.tail);
    }
  }

  lemma {:induction false} RunAppend(o2: bool, s: State, a: seq<string>, b: seq<string>)
    ensures RunFrom(o2, s, a + b) == RunFrom(o2, RunFrom(o2, s, a), b)
  {
    hide Step, RunFrom;
    if b == [] {
      assert a + b == a;
      RunOfNothing(o2, RunFrom(o2, s, a));
    } else {
      var init, last := b[..|b| - 1], b[|b| - 1];
      RunAppend(o2, s, a, init);
      RunFromSnoc(o2, s, a + init, last);
      RunFromSnoc(o2, RunFrom(o2, s, a), init, last);
      assert init + [last] == b && a + init + [last] == a + b;
    }
  }

  lemma {:induction false} RunGrows(o2: bool, s: State, ls: seq<string>)
    ensures s.out <= RunFrom(o2, s, ls).out
  {
    if ls != [] {
      RunGrows(o2, s, ls[..|ls| - 1]);
      hide Classify, Gap, LineDirective;
    }
  }

  lemma {:induction false} UnlinesGrows(a: seq<string>, b: seq<string>)
    requires a <= b
    ensures Unlines(a) <= Unlines(b)
  {
    UnlinesConcat(a, b[|a|..]);
    assert a + b[|a|..] == b;
  }

  lemma {:induction false} SplitAppend(a: string, b: string)
    ensures var s, t := SplitText(a), SplitText(SplitText(a).rest + b);
            SplitText(a + b) == Split(s.lines + t.lines, t.rest)
  {
    hide SplitText, Unlines;
    var s := SplitText(a);
    var t := SplitText(s.rest + b);
    SplitIsInverse(a);
    SplitIsInverse(s.rest + b);
    UnlinesConcat(s.lines, t.lines);
    assert a + b == Unlines(s.lines) + (s.rest + b);
    assert Unlines(s.lines) + (Unlines(t.lines) + t.rest) == Unlines(s.lines) + Unlines(t.lines) + t.rest;
    SplitUnlines(s.lines + t.lines, t.rest);
  }

  /** The data between the last line dealt with and the end of a prefix is plain as well. */
  lemma {:induction false} PlainPart(a: string, b: string, more: string, all: bool)
    requires PlainText(a + b + more, true) && (all ==> more == "")
    ensures PlainText(SplitText(a).rest + b, all)
  {
    hide SplitText, PlainLine, StripCr;
    SplitAppend(a, b);
    SplitAppend(a + b, more);
    var ls := SplitText(a + b + more).lines;
    var part := SplitText(SplitText(a).rest + b);
    assert SplitText(a + b).lines == SplitText(a).lines + part.lines;
    forall k | 0 <= k < |part.lines| ensures PlainLine(StripCr(part.lines[k])) {
      assert ls[|SplitText(a).lines| + k] == part.lines[k];
    }
    if all {
      assert a + b + more == a + b;
    }
  }

  /** Nothing is left to write after the end. */
  lemma {:induction false} FinalNothing(o2: bool, s: State, rest: string, unread: string)
    requires s.out == [] && !s.pending && Leftover(rest, unread) && NoNewline(rest)
    ensures FinalText(o2, s, unread) == ""
  {
    hide Classify, Unlines, SplitText, LastStep, RunFrom;
    SplitUnlines([], unread);
    NoLines();
    assert "" + unread == unread;
    RunOfNothing(o2, s);
    LastOfLeftover(o2, s, rest, unread);
    assert Flushed(LastStep(o2, s, unread).s) == [];
  }

  lemma {:induction false} RunOfNothing(o2: bool, s: State)
    ensures RunFrom(o2, s, []) == s
  {
  }

  lemma {:induction false} LastOfLeftover(o2: bool, s: State, rest: string, unread: string)
    requires s.out == [] && !s.pending && Leftover(rest, unread)
    ensures LastStep(o2, s, unread) == Ending(s, "")
  {
    hide Classify;
  }

  lemma {:induction false} BufferSize(cbOldCpp: nat)
    ensures (cbOldCpp + KOC_BUF_ALIGNMENT) / KOC_BUF_ALIGNMENT * KOC_BUF_ALIGNMENT > 0
  {
  }

  lemma {:induction false} BesideUpdate(b: string, at: nat, c: char, i: nat, j: nat)
    requires i <= j <= |b| && at < |b| && (j <= at || at < i)
    ensures b[at := c][i..j] == b[i..j]
  {
  }

  /** What is written for the text u from state s0 when it is all there is. */
  function FinalText(o2: bool, s0: State, u: string): string {
    var t := SplitText(u);
    var e := LastStep(o2, RunFrom(o2, s0, t.lines), t.rest);
    Unlines(Flushed(e.s)) + e.tail
  }

  datatype Place = InLine | LineEnd(line: string, more: string) | TextEnd(rest: string)

  /** What may still be unread when everything has been processed. */
  predicate Leftover(rest: string, unread: string) {
    unread == "" || (unread == rest && var i := SkipSpaces(rest, 0); i < |rest| ==> rest[i] != '#' || i + 1 == |rest|)
  }

  /** Every line of the text has plain quotes; all: also what follows the last newline. */
  ghost predicate PlainText(u: string, all: bool) {
    var t := SplitText(u);
    && (all ==> PlainLine(t.rest))
    && forall k :: 0 <= k < |t.lines| ==> PlainLine(StripCr(t.lines[k]))
  }

  lemma {:induction false} PlainNextLine(u: string, all: bool, lines: seq<string>, line: string, more: string)
    requires PlainText(u, all) && u == Unlines(lines) + line + "\n" + more && AllNoNewline(lines) && NoNewline(line)
    ensures PlainLine(StripCr(line))
  {
    hide *;
    var t := SplitText(more);
    LinesUpTo(u, lines, line, more);
    PlainAt(u, all, lines + [line] + t.lines, t.rest, |lines|);
  }

  lemma {:induction false} PlainAt(u: string, all: bool, ls: seq<string>, rest: string, k: nat)
    requires PlainText(u, all) && SplitText(u) == Split(ls, rest) && k < |ls|
    ensures PlainLine(StripCr(ls[k]))
  {
    hide PlainLine, StripCr, SplitText;
  }

  lemma {:induction false} LinesUpTo(u: string, lines: seq<string>, line: string, more: string)
    requires u == Unlines(lines) + line + "\n" + more && AllNoNewline(lines) && NoNewline(line)
    ensures SplitText(u) == Split(lines + [line] + SplitText(more).lines, SplitText(more).rest)
  {
    hide Unlines, SplitText;
    SplitIsInverse(more);
    var t := SplitText(more);
    UnlinesSnoc(lines, line);
    UnlinesConcat(lines + [line], t.lines);
    assert Unlines(lines + [line]) + (Unlines(t.lines) + t.rest) == Unlines(lines + [line]) + Unlines(t.lines) + t.rest;
    SplitUnlines(lines + [line] + t.lines, t.rest);
  }

  lemma {:induction false} PlainRest(u: string, lines: seq<string>, rest: string)
    requires PlainText(u, true) && u == Unlines(lines) + rest && AllNoNewline(lines) && NoNewline(rest)
    ensures PlainLine(rest)
  {
    SplitUnlines(lines, rest);
  }

  lemma {:induction false} SlicePrefix(b: string, from: nat, to: nat, n: nat)
    requires from <= to <= |b| && n <= to - from
    ensures b[from..to][..n] == b[from..from + n]
  {
  }

  lemma {:induction false} TextIsPlain(stripped: string, i: nat)
    requires i < |stripped| && !IsSpace(stripped[i]) && stripped[i] != '#'
    requires forall k :: 0 <= k < i ==> IsSpace(stripped[k])
    ensures SkipSpaces(stripped, 0) == i && Classify(stripped) == Text
  {
    ClassifyAt(stripped, i);
    assert stripped[i..][0] == stripped[i];
  }

  lemma {:induction false} WrapNext(n: int)
    ensures Wrap(Wrap(n - 1) + 1) == Wrap(n)
  {
  }

  /** One step in terms of the text written. */
  lemma {:induction false} StepOut(o2: bool, s: State, line: string)
    ensures var t := Step(o2, s, line);
            var gap := Unlines(Gap(s.pending, s.optLine, s.curLine));
            match Classify(StripCr(line))
            case Blank => t == s.(pending := true, curLine := Wrap(s.curLine + 1))
            case Text =>
              && Unlines(t.out) == Unlines(s.out) + gap + StripCr(line) + "\n"
              && !t.pending && t.file == s.file && t.optLine == t.curLine == AfterWritten(line, s.curLine)
            case Control(n, f) =>
              var file := NewName(false, s.file, f);
              && t.file == file
              && if file == s.file && n >= s.curLine then
                   t.out == s.out && t.pending && t.optLine == s.optLine && t.curLine == Wrap(Wrap(n - 1) + 1)
                 else
                   && Unlines(t.out) ==
                        Unlines(s.out) + (if o2 then "" else gap) +
                        LineDirective(n, if file == s.file then "" else file) + "\n"
                   && !t.pending && t.optLine == t.curLine == AfterWritten(line, Wrap(n - 1))
  {
    hide Classify, Gap, LineDirective, Wrap, AfterWritten, Unlines;
    var gap := Gap(s.pending, s.optLine, s.curLine);
    UnlinesConcat(s.out, gap);
    match Classify(StripCr(line))
    case Blank =>
    case Text =>
      UnlinesSnoc(s.out + gap, StripCr(line));
    case Control(n, f) =>
      WrapNext(n);
      var file := NewName(false, s.file, f);
      UnlinesSnoc(if o2 then s.out else s.out + gap, LineDirective(n, if file == s.file then "" else file));
  }

  /** Quotes in what may be a line directive are not escaped. */
  predicate PlainLine(line: string) {
    var t := line[SkipSpaces(line, 0)..];
    Numbered(t) ==> NoEscapedQuote(t)
  }

  lemma {:induction false} WrapBelow(n: int)
    ensures Wrap(n) < LINE_MOD
  {
  }

  function FmtNewLines(n: nat): (s: string)
    ensures |s| == n
  {
    seq(n, i => '\n')
  }

  lemma {:induction false} UnlinesBlank(n: nat)
    ensures Unlines(BlankLines(n)) == FmtNewLines(n)
  {
    if n > 0 {
      UnlinesBlank(n - 1);
      assert BlankLines(n)[1..] == BlankLines(n - 1);
      assert FmtNewLines(n) == FmtNewLines(n - 1) + "\n";
    }
  }

  /** The text of a gap: newlines, or a shorter directive. */
  lemma {:induction false} GapText(optLine: nat, curLine: nat)
    ensures var n := Wrap(curLine - optLine);
            var d := LineDirective(curLine, "") + "\n";
            Unlines(Gap(true, optLine, curLine)) == if n <= 7 || |d| >= n then FmtNewLines(n) else d
  {
    hide Wrap, LineDirective;
    UnlinesBlank(Wrap(curLine - optLine));
    var d := LineDirective(curLine, "");
    assert [d][..0] == [];
    assert Unlines([d]) == d + "\n";
  }

  function Put(b: string, dst: nat, text: string): (r: string)
    requires dst + |text| <= |b|
    ensures |r| == |b|
  {
    b[..dst] + text + b[dst + |text|..]
  }

  lemma {:induction false} PutBeside(b: string, dst: nat, text: string, i: nat, j: nat)
    requires dst + |text| <= |b| && i <= j <= |b|
    requires j <= dst || i >= dst + |text|
    ensures Put(b, dst, text)[i..j] == b[i..j]
  {
  }

  lemma {:induction false} PutInside(b: string, dst: nat, text: string, i: nat, j: nat)
    requires dst + |text| <= |b| && i <= j <= |text|
    ensures Put(b, dst, text)[dst + i..dst + j] == text[i..j]
  {
  }

  lemma {:induction false} PrefixSlices(was: string, grown: string, d: nat, u: nat, c: nat, r: nat)
    requires d <= u <= c <= r < |was| && was <= grown
    ensures grown[..d] == was[..d] && grown[u..c] == was[u..c] && grown[c..r] == was[c..r] && grown[r] == was[r]
  {
  }

  lemma {:induction false} Moved(b: string, d: nat, u: nat, c: nat, r: nat, k: nat)
    requires d <= u <= c <= r && r + k < |b|
    ensures var now := Put(b, u + k, b[u..r + 1]);
            now[..d] == b[..d] && now[u + k..c + k] == b[u..c] && now[c + k..r + k] == b[c..r] && now[r + k] == b[r]
  {
    var tail := b[u..r + 1];
    PutBeside(b, u + k, tail, 0, d);
    PutInside(b, u + k, tail, 0, c - u);
    PutInside(b, u + k, tail, c - u, r - u);
    SliceOfSlice(b, u, r + 1, 0, c - u);
    SliceOfSlice(b, u, r + 1, c - u, r - u);
  }
}
