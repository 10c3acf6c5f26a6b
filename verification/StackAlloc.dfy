/** The stack allocator: blocks, marks to come back to, and a string that grows on top. */
module StackAlloc {

  const MINSIZE: nat := 504
  const SHELL_SIZE: nat := 7

  /** SHELL_ALIGN. */
  function Align(n: nat): (r: nat)
    ensures r % 8 == 0 && n <= r <= n + SHELL_SIZE
    ensures n % 8 == 0 ==> r == n
  {
    (n + SHELL_SIZE) / 8 * 8
  }

  /** struct stackmark, without the link to the next one: marks are kept in the order they were set. */
  datatype Mark = Mark(stackp: array<char>, stacknxt: nat, stacknleft: nat)

  /** Where a mark is: in which block, and how many allocations are older. */
  datatype Info = Info(level: nat, older: nat)

  /** An allocation that is still in use. */
  datatype Region = Region(level: nat, off: nat, len: nat)

  /** The place x in block l1 is not above the place y in block l2. */
  predicate Below(l1: nat, x: nat, l2: nat, y: nat) {
    l1 < l2 || (l1 == l2 && x <= y)
  }

  ghost predicate BlocksOk(blocks: seq<array<char>>) {
    && |blocks| > 0 && (forall i :: 0 <= i < |blocks| ==> blocks[i].Length % 8 == 0)
    && (forall i, j :: 0 <= i < j < |blocks| ==> blocks[i] != blocks[j])
  }

  /** Marks point into their blocks, in order, none above the top of the stack. */
  ghost predicate MarksOk(blocks: seq<array<char>>, marks: seq<Mark>, info: seq<Info>, stacknxt: nat, count: nat) {
    && |info| == |marks|
    && (forall i :: 0 <= i < |marks| ==>
          && info[i].level < |blocks| && marks[i].stackp == blocks[info[i].level] && info[i].older <= count
          && marks[i].stacknxt + marks[i].stacknleft == marks[i].stackp.Length && marks[i].stacknxt % 8 == 0
          && Below(info[i].level, marks[i].stacknxt, |blocks| - 1, stacknxt))
    && (forall i, j :: 0 <= i < j < |marks| ==>
          Below(info[i].level, marks[i].stacknxt, info[j].level, marks[j].stacknxt) && info[i].older <= info[j].older)
  }

  /** Live allocations lie in their blocks, one above the other, all below the top of the stack. */
  ghost predicate LiveOk(blocks: seq<array<char>>, live: seq<Region>, stacknxt: nat) {
    && (forall k :: 0 <= k < |live| ==>
          && live[k].level < |blocks| && live[k].len > 0 && live[k].off + live[k].len <= blocks[live[k].level].Length
          && Below(live[k].level, live[k].off + live[k].len, |blocks| - 1, stacknxt))
    && (forall k, l :: 0 <= k < l < |live| ==>
        Below(live[k].level, live[k].off + live[k].len, live[l].level, live[l].off))
  }

  /** What was allocated before a mark lies below it. */
  ghost predicate OlderOk(marks: seq<Mark>, info: seq<Info>, live: seq<Region>) {
    |info| == |marks| && forall i, k :: 0 <= i < |marks| && 0 <= k < info[i].older && k < |live| ==>
      Below(live[k].level, live[k].off + live[k].len, info[i].level, marks[i].stacknxt)
  }

  /** Ordered allocations do not overlap, and lie inside their blocks. */
  lemma {:induction false} LiveAreDisjoint(blocks: seq<array<char>>, live: seq<Region>, stacknxt: nat, k: nat, l: nat)
    requires LiveOk(blocks, live, stacknxt) && BlocksOk(blocks) && k < |live| && l < |live| && k != l
    ensures blocks[live[k].level] == blocks[live[l].level] ==>
              live[k].off + live[k].len <= live[l].off || live[l].off + live[l].len <= live[k].off
    ensures live[k].level < |blocks| && live[k].off + live[k].len <= blocks[live[k].level].Length
    ensures live[k].level == |blocks| - 1 ==> live[k].off + live[k].len <= stacknxt
  {
    if k < l {
      assert Below(live[k].level, live[k].off + live[k].len, live[l].level, live[l].off);
    } else {
      assert Below(live[l].level, live[l].off + live[l].len, live[k].level, live[k].off);
    }
  }

  ghost predicate AllOk(blocks: seq<array<char>>, marks: seq<Mark>, info: seq<Info>, live: seq<Region>, stacknxt: nat) {
    MarksOk(blocks, marks, info, stacknxt, |live|) && LiveOk(blocks, live, stacknxt) && OlderOk(marks, info, live)
  }

  lemma {:induction false} Pushed(blocks: seq<array<char>>, sp: array<char>, marks: seq<Mark>, info: seq<Info>,
      live: seq<Region>, stacknxt: nat)
    requires BlocksOk(blocks) && AllOk(blocks, marks, info, live, stacknxt) && sp !in blocks && sp.Length % 8 == 0
    ensures BlocksOk(blocks + [sp]) && AllOk(blocks + [sp], marks, info, live, 0)
  {
    hide OlderOk;
    assert forall i :: 0 <= i < |blocks| ==> (blocks + [sp])[i] == blocks[i];
  }

  lemma {:induction false} Raised(blocks: seq<array<char>>, marks: seq<Mark>, info: seq<Info>, live: seq<Region>,
      stacknxt: nat, n: nat)
    requires BlocksOk(blocks) && AllOk(blocks, marks, info, live, stacknxt)
    requires stacknxt + n <= blocks[|blocks| - 1].Length
    ensures AllOk(blocks, marks, info, live, stacknxt + n)
    ensures n > 0 ==> AllOk(blocks, marks, info, live + [Region(|blocks| - 1, stacknxt, n)], stacknxt + n)
  {
    assert |blocks| > 0;
    hide BlocksOk;
    var r := Region(|blocks| - 1, stacknxt, n);
    assert forall k :: 0 <= k < |live| ==> (live + [r])[k] == live[k];
  }

  /** Marks into a block that was reallocated are repointed to its start. */
  function Repointed(marks: seq<Mark>, was: array<char>, sp: array<char>): seq<Mark> {
    seq(|marks|, i requires 0 <= i < |marks| => if marks[i].stackp == was then Mark(sp, 0, sp.Length) else marks[i])
  }

  lemma {:induction false} Replaced(blocks: seq<array<char>>, sp: array<char>, marks: seq<Mark>, info: seq<Info>,
      live: seq<Region>)
    requires BlocksOk(blocks) && AllOk(blocks, marks, info, live, 0) && sp !in blocks && sp.Length % 8 == 0
    ensures var blocks' := blocks[..|blocks| - 1] + [sp];
            BlocksOk(blocks') && AllOk(blocks', Repointed(marks, blocks[|blocks| - 1], sp), info, live, 0)
  {
    var top := |blocks| - 1;
    var blocks', marks' := blocks[..top] + [sp], Repointed(marks, blocks[top], sp);
    assert forall i :: 0 <= i < top ==> blocks'[i] == blocks[i];
    forall i | 0 <= i < |marks|
      ensures marks'[i].stacknxt == marks[i].stacknxt && marks'[i].stackp == blocks'[info[i].level] {
      if info[i].level == top {
        assert Below(info[i].level, marks[i].stacknxt, top, 0);
      } else {
        assert blocks[info[i].level] != blocks[top];
      }
    }
    assert forall k :: 0 <= k < |live| ==> live[k].level < top;
  }

  /** The marks into the top block are the last ones of the chain. */
  lemma {:induction false} TopMarksLast(blocks: seq<array<char>>, marks: seq<Mark>, info: seq<Info>, stacknxt: nat,
      count: nat, i: nat, j: nat)
    requires BlocksOk(blocks) && MarksOk(blocks, marks, info, stacknxt, count) && i <= j < |marks|
    ensures marks[i].stackp == blocks[|blocks| - 1] ==> marks[j].stackp == blocks[|blocks| - 1]
  {
    if marks[i].stackp == blocks[|blocks| - 1] && i < j {
      assert info[i].level == |blocks| - 1;
      assert Below(info[i].level, marks[i].stacknxt, info[j].level, marks[j].stacknxt);
    }
  }

  /** How many of the allocations lie below the place p in the top block. */
  ghost predicate Kept(level: nat, live: seq<Region>, p: nat, n: nat) {
    && n <= |live| && (forall k :: n <= k < |live| ==> live[k].level == level && live[k].off >= p)
    && (n > 0 ==> !(live[n - 1].level == level && live[n - 1].off >= p))
  }

  lemma {:induction false} Lowered(blocks: seq<array<char>>, marks: seq<Mark>, info: seq<Info>, live: seq<Region>,
      stacknxt: nat, p: nat, n: nat)
    requires BlocksOk(blocks) && AllOk(blocks, marks, info, live, stacknxt) && p <= stacknxt
    requires Kept(|blocks| - 1, live, p, n)
    requires marks != [] ==> Below(info[|info| - 1].level, marks[|marks| - 1].stacknxt, |blocks| - 1, p)
    requires forall k ::
               0 <= k < |live| && live[k].level == |blocks| - 1 ==> live[k].off >= p || live[k].off + live[k].len <= p
    ensures AllOk(blocks, marks, info, live[..n], p)
    ensures forall k :: 0 <= k < |live| ==> (k < n <==> !(live[k].level == |blocks| - 1 && live[k].off >= p))
  {
    hide BlocksOk;
    var top := |blocks| - 1;
    forall k | 0 <= k < n ensures Below(live[k].level, live[k].off + live[k].len, top, p) {
      if k < n - 1 {
        assert Below(live[k].level, live[k].off + live[k].len, live[n - 1].level, live[n - 1].off);
      }
    }
    forall i | 0 <= i < |marks| ensures Below(info[i].level, marks[i].stacknxt, top, p) && info[i].older <= n {
      if i < |marks| - 1 {
        assert Below(info[i].level, marks[i].stacknxt, info[|marks| - 1].level, marks[|marks| - 1].stacknxt);
      }
      var above := if n < |live| then live[n].off + live[n].len else 0;
    }
  }

  /** A mark set at the top of the stack. */
  lemma {:induction false} Marked(blocks: seq<array<char>>, marks: seq<Mark>, info: seq<Info>, live: seq<Region>,
      stacknxt: nat, m: Mark)
    requires BlocksOk(blocks) && AllOk(blocks, marks, info, live, stacknxt) && stacknxt % 8 == 0
    requires m.stackp == blocks[|blocks| - 1] && m.stacknxt == stacknxt && m.stacknxt + m.stacknleft == m.stackp.Length
    ensures AllOk(blocks, marks + [m], info + [Info(|blocks| - 1, |live|)], live, stacknxt)
  {
    hide BlocksOk;
  }

  lemma {:induction false} MarkIs(blocks: seq<array<char>>, marks: seq<Mark>, info: seq<Info>, live: seq<Region>,
      stacknxt: nat, i: nat)
    requires BlocksOk(blocks) && AllOk(blocks, marks, info, live, stacknxt) && i < |marks|
    ensures |info| == |marks| && info[i].level < |blocks| && marks[i].stackp == blocks[info[i].level]
    ensures info[i].older <= |live|
    ensures marks[i].stacknxt + marks[i].stacknleft == marks[i].stackp.Length && marks[i].stacknxt % 8 == 0
    ensures forall k :: info[i].level < k < |blocks| ==> blocks[k] != marks[i].stackp
  {
    hide LiveOk, OlderOk;
  }

  /** What is older than a mark is in order up to it. */
  lemma {:induction false} Popped(blocks: seq<array<char>>, marks: seq<Mark>, info: seq<Info>, live: seq<Region>,
      stacknxt: nat, i: nat)
    requires BlocksOk(blocks) && AllOk(blocks, marks, info, live, stacknxt) && i < |marks|
    requires |info| == |marks| && info[i].level < |blocks| && info[i].older <= |live|
    ensures var blocks' := blocks[..info[i].level + 1];
            BlocksOk(blocks') && AllOk(blocks', marks[..i], info[..i], live[..info[i].older], marks[i].stacknxt)
  {
    MarksPopped(blocks, marks, info, stacknxt, |live|, i);
    hide MarksOk;
    forall k | 0 <= k < info[i].older
      ensures Below(live[k].level, live[k].off + live[k].len, info[i].level, marks[i].stacknxt) {
    }
  }

  lemma {:induction false} MarksPopped(blocks: seq<array<char>>, marks: seq<Mark>, info: seq<Info>, stacknxt: nat,
      count: nat, i: nat)
    requires MarksOk(blocks, marks, info, stacknxt, count) && i < |marks|
    ensures |info| == |marks| && info[i].level < |blocks|
    ensures MarksOk(blocks[..info[i].level + 1], marks[..i], info[..i], marks[i].stacknxt, info[i].older)
  {
    forall j | 0 <= j < i
      ensures Below(info[j].level, marks[j].stacknxt, info[i].level, marks[i].stacknxt)
      ensures info[j].older <= info[i].older {
    }
  }

  class StackState {
    /** The blocks from stackbase up to stackp. */
    var blocks: seq<array<char>>
    var stacknxt: nat
    var stacknleft: nat
    var sstrnleft: int
    /** The chain of marks, the one markp points to last. */
    var marks: seq<Mark>
    ghost var info: seq<Info>
    ghost var live: seq<Region>

    constructor ()
      ensures Valid() && live == [] && marks == [] && fresh(blocks[0])
      ensures |blocks| == 1 && blocks[0].Length == stacknleft == 504 && stacknxt == 0
    {
      var base := new char[MINSIZE](_ => '\0');
      blocks := [base];
      stacknxt, stacknleft, sstrnleft := 0, MINSIZE, 0;
      marks, info, live := [], [], [];
    }

    function Top(): array<char>
      requires blocks != []
      reads `blocks
    {
      blocks[|blocks| - 1]
    }

    ghost predicate Valid()
      reads this
    {
      && BlocksOk(blocks) && stacknxt + stacknleft == Top().Length && stacknxt % 8 == 0
      && AllOk(blocks, marks, info, live, stacknxt)
    }

    /** stalloc. The new region is apart from all that are in use. */
    method StAlloc(nbytes: nat) returns (p: nat)
      requires Valid()
      modifies this
      ensures Valid() && p + Align(nbytes) == stacknxt && p % 8 == 0
      ensures blocks == old(blocks) ||
              (|blocks| == |old(blocks)| + 1 && blocks[..|old(blocks)|] == old(blocks) && fresh(Top()) && p == 0)
      ensures blocks == old(blocks) <==> Align(nbytes) <= old(stacknleft)
      ensures blocks == old(blocks) ==> p == old(stacknxt)
      ensures blocks != old(blocks) ==> Top().Length == if Align(nbytes) < 504 then 504 else Align(nbytes)
      ensures live == old(live) + (if nbytes == 0 then [] else [Region(|blocks| - 1, p, Align(nbytes))])
      ensures marks == old(marks) && info == old(info) && sstrnleft == old(sstrnleft)
    {
      hide AllOk, BlocksOk;
      BlocksAre();
      var n := Align(nbytes);
      if n > stacknleft {
        var blocksize := n;
        if blocksize < MINSIZE {
          blocksize := MINSIZE;
        }
        var sp := new char[blocksize];
        Pushed(blocks, sp, marks, info, live, stacknxt);
        blocks := blocks + [sp];
        stacknxt := 0;
        stacknleft := blocksize;
      }
      Raised(blocks, marks, info, live, stacknxt, n);
      p := stacknxt;
      stacknxt := stacknxt + n;
      stacknleft := stacknleft - n;
      if nbytes != 0 {
        live := live + [Region(|blocks| - 1, p, n)];
      }
    }

    lemma {:induction false} BlocksAre()
      requires BlocksOk(blocks)
      ensures |blocks| > 0
    {
    }

    /** stunalloc: the top of the stack goes down to p, not below the last mark. */
    method StUnalloc(p: nat)
      requires Valid() && p <= stacknxt && p % 8 == 0
      requires marks != [] ==> Below(info[|info| - 1].level, marks[|marks| - 1].stacknxt, |blocks| - 1, p)
      requires forall k ::
                 0 <= k < |live| && live[k].level == |blocks| - 1 ==> live[k].off >= p || live[k].off + live[k].len <= p
      modifies this
      ensures Valid() && stacknxt == p && blocks == old(blocks) && marks == old(marks) && info == old(info)
      ensures live <= old(live)
      ensures forall k ::
                0 <= k < |old(live)| ==>
                  (k < |live| <==> !(old(live)[k].level == |blocks| - 1 && old(live)[k].off >= p))
    {
      hide AllOk, BlocksOk;
      BlocksAre();
      ghost var n: nat := |live|;
      while n > 0 && live[n - 1].level == |blocks| - 1 && live[n - 1].off >= p
        invariant n <= |live|
        invariant forall k :: n <= k < |live| ==> live[k].level == |blocks| - 1 && live[k].off >= p
      {
        n := n - 1;
      }
      Lowered(blocks, marks, info, live, stacknxt, p, n);
      stacknleft := stacknleft + (stacknxt - p);
      stacknxt := p;
      live := live[..n];
    }

    /** setstackmark; the mark is the last of the chain. */
    method SetStackMark()
      requires Valid()
      modifies this
      ensures Valid() && marks == old(marks) + [Mark(Top(), stacknxt, stacknleft)]
      ensures blocks == old(blocks) && stacknxt == old(stacknxt) && live == old(live)
      ensures info == old(info) + [Info(|blocks| - 1, |live|)]
    {
      hide AllOk, BlocksOk;
      BlocksAre();
      Marked(blocks, marks, info, live, stacknxt, Mark(blocks[|blocks| - 1], stacknxt, stacknleft));
      marks := marks + [Mark(blocks[|blocks| - 1], stacknxt, stacknleft)];
      info := info + [Info(|blocks| - 1, |live|)];
    }

    /** popstackmark, with any mark still on the chain: exactly the blocks pushed since go, and exactly
        the allocations made since. */
    method PopStackMark(i: nat)
      requires Valid() && i < |marks|
      modifies this
      ensures Valid() && marks == old(marks)[..i] && info == old(info)[..i]
      ensures blocks == old(blocks)[..old(info)[i].level + 1] && live == old(live)[..old(info)[i].older]
      ensures Top() == old(marks)[i].stackp && stacknxt == old(marks)[i].stacknxt
      ensures stacknleft == old(marks)[i].stacknleft
    {
      hide AllOk, BlocksOk;
      MarkIs(blocks, marks, info, live, stacknxt, i);
      Popped(blocks, marks, info, live, stacknxt, i);
      var mark := marks[i];
      ghost var level := info[i].level;
      while blocks[|blocks| - 1] != mark.stackp
        invariant level < |blocks| <= |old(blocks)| && blocks == old(blocks)[..|blocks|]
        invariant marks == old(marks) && info == old(info) && live == old(live) && stacknxt == old(stacknxt)
        decreases |blocks|
      {
        blocks := blocks[..|blocks| - 1];
      }
      stacknxt := mark.stacknxt;
      stacknleft := mark.stacknleft;
      live := live[..info[i].older];
      marks := marks[..i];
      info := info[..i];
    }

    /** growstackblock. The pending bytes on top of the stack are kept; a block is only moved when nothing
        in it is in use, and the marks into it move along. */
    method GrowStackBlock()
      requires Valid()
      modifies this
      ensures Valid() && live == old(live) && info == old(info) && sstrnleft == old(sstrnleft)
      ensures stacknleft >= 2 * old(stacknleft) + 100 && fresh(Top())
      ensures stacknleft == Align(2 * old(stacknleft) + 100) || (stacknleft == 504 && |blocks| > |old(blocks)|)
      ensures Top()[stacknxt..stacknxt + old(stacknleft)] == old(Top()[stacknxt..])
      ensures var moved := old(stacknxt == 0 && |blocks| > 1);
              && blocks == (if moved then old(blocks)[..|old(blocks)| - 1] else old(blocks)) + [Top()]
              && marks == (if moved then Repointed(old(marks), old(Top()), Top()) else old(marks))
      ensures stacknxt == 0
    {
      hide AllOk, BlocksOk, MarksOk;
      BlocksAre();
      var newlen := Align(stacknleft * 2 + 100);
      if stacknxt == 0 && |blocks| > 1 {
        var oldstackp := blocks[|blocks| - 1];
        var oldlen := stacknleft;
        var sp := new char[newlen](
          i requires 0 <= i reads this, oldstackp => if i < oldstackp.Length then oldstackp[i] else '\0');
        Replaced(blocks, sp, marks, info, live);
        RepointMarks(oldstackp, sp);
        blocks := blocks[..|blocks| - 1] + [sp];
        stacknleft := newlen;
        assert sp[0..oldlen] == oldstackp[0..];
      } else {
        var oldspace, oldnxt, oldlen := blocks[|blocks| - 1], stacknxt, stacknleft;
        ghost var live0 := live;
        NewBlock(newlen);
        var top := blocks[|blocks| - 1];
        forall i | 0 <= i < oldlen {
          top[i] := oldspace[oldnxt + i];
        }
        assert top[0..oldlen] == oldspace[oldnxt..];
      }
    }

    /** A block that may be moved holds no allocation in use. */
    lemma {:induction false} NothingInUse()
      requires Valid() && stacknxt == 0
      ensures forall k :: 0 <= k < |live| ==> live[k].level < |blocks| - 1
    {
      forall k | 0 <= k < |live| ensures live[k].level < |blocks| - 1 {
        assert Below(live[k].level, live[k].off + live[k].len, |blocks| - 1, stacknxt);
      }
    }

    lemma {:induction false} TopMarks()
      requires Valid()
      ensures forall i, j ::
                0 <= i <= j < |marks| && marks[i].stackp == blocks[|blocks| - 1] ==>
                  marks[j].stackp == blocks[|blocks| - 1]
    {
      forall i, j | 0 <= i <= j < |marks| && marks[i].stackp == blocks[|blocks| - 1]
        ensures marks[j].stackp == blocks[|blocks| - 1] {
        TopMarksLast(blocks, marks, info, stacknxt, |live|, i, j);
      }
    }

    /** The loop over the chain that repoints the marks. */
    method RepointMarks(oldstackp: array<char>, sp: array<char>)
      requires Valid() && blocks[|blocks| - 1] == oldstackp != sp
      modifies `marks
      ensures marks == Repointed(old(marks), oldstackp, sp)
    {
      TopMarks();
      var j: nat := |marks|;
      while j > 0 && marks[j - 1].stackp == oldstackp
        invariant j <= |marks| == |old(marks)|
        invariant marks[..j] == old(marks)[..j]
        invariant forall i ::
                    j <= i < |marks| ==> old(marks)[i].stackp == oldstackp && marks[i] == Mark(sp, 0, sp.Length)
      {
        j := j - 1;
        marks := marks[j := Mark(sp, 0, sp.Length)];
      }
      assert forall i :: 0 <= i < j ==> old(marks)[i].stackp != oldstackp;
      assert marks == Repointed(old(marks), oldstackp, sp);
    }

    /** stalloc of more than there is, given back at once. */
    method NewBlock(newlen: nat)
      requires Valid() && newlen > stacknleft && newlen % 8 == 0
      modifies this
      ensures Valid() && stacknxt == 0 && stacknleft >= newlen && |blocks| == |old(blocks)| + 1
      ensures stacknleft == newlen || stacknleft == 504
      ensures blocks[..|old(blocks)|] == old(blocks)
      ensures fresh(Top()) && live == old(live) && marks == old(marks) && info == old(info)
      ensures sstrnleft == old(sstrnleft)
    {
      hide AllOk, BlocksOk, MarksOk;
      BlocksAre();
      var blocksize := newlen;
      if blocksize < MINSIZE {
        blocksize := MINSIZE;
      }
      var sp := new char[blocksize];
      Pushed(blocks, sp, marks, info, live, stacknxt);
      blocks := blocks + [sp];
      stacknxt := 0;
      stacknleft := blocksize;
    }

    // ----- A string on top of the stack ------------------------------------------------

    /** The string being built ends at p, and sstrnleft is the room behind it. */
    ghost predicate StrOk(p: nat)
      requires blocks != []
      reads `blocks, `stacknxt, `stacknleft, `sstrnleft
    {
      stacknxt <= p <= Top().Length && sstrnleft == stacknleft - (p - stacknxt)
    }

    /** The same, but sstrnleft is one too small. */
    ghost predicate StrShort(p: nat)
      requires blocks != []
      reads `blocks, `stacknxt, `stacknleft, `sstrnleft
    {
      stacknxt <= p < Top().Length && sstrnleft == stacknleft - (p - stacknxt) - 1
    }

    ghost function Str(p: nat): string
      requires blocks != [] && stacknxt <= p <= Top().Length
      reads `blocks, `stacknxt, Top()
    {
      Top()[stacknxt..p]
    }

    lemma {:induction false} HasBlocks()
      requires Valid()
      ensures blocks != [] && stacknxt + stacknleft == Top().Length && stacknxt % 8 == 0 && Top().Length % 8 == 0
    {
    }

    /** STARTSTACKSTR. */
    method StartStackStr() returns (p: nat)
      requires Valid()
      modifies `sstrnleft
      ensures Valid() && StrOk(p) && Str(p) == []
    {
      hide AllOk, BlocksOk;
      HasBlocks();
      p := stacknxt;
      sstrnleft := stacknleft;
    }

    /** growstackstr, when the string has used up the block. */
    method GrowStackStr() returns (p: nat)
      requires Valid()
      modifies this
      ensures Valid() && live == old(live) && info == old(info) && fresh(Top()) && stacknxt == 0
      ensures p == old(stacknleft) < Top().Length && sstrnleft == Top().Length - p - 1
      ensures Str(p) == old(Top()[stacknxt..])
    {
      hide AllOk, BlocksOk;
      HasBlocks();
      var len := stacknleft;
      GrowStackBlock();
      HasBlocks();
      sstrnleft := stacknleft - len - 1;
      p := stacknxt + len;
    }

    method PutAt(c: char, p: nat) returns (p': nat)
      requires Valid() && stacknxt <= p < Top().Length
      modifies Top()
      ensures Valid() && p' == p + 1 && Str(p') == old(Str(p)) + [c]
      ensures Top()[..stacknxt] == old(Top()[..stacknxt])
    {
      hide AllOk, BlocksOk;
      HasBlocks();
      var top := blocks[|blocks| - 1];
      top[p] := c;
      p' := p + 1;
      assert top[stacknxt..p'] == top[stacknxt..p] + [c];
    }

    /** STPUTC. While sstrnleft is one too small nothing is wrong, until the block has to grow: then whatever stood
        behind the string, such as its terminator, is left in front of the new character. */
    method StPutc(c: char, p: nat) returns (p': nat)
      requires Valid() && (StrOk(p) || StrShort(p))
      modifies this, Top()
      ensures Valid() && stacknxt <= p' <= Top().Length
      ensures old(StrOk(p)) ==> StrOk(p') && Str(p') == old(Str(p)) + [c]
      ensures old(StrShort(p)) ==> if old(sstrnleft) > 0 then StrShort(p') && Str(p') == old(Str(p)) + [c]
                                   else StrOk(p') && Str(p') == old(Str(p)) + [old(Top()[p]), c]
      ensures live == old(live) && info == old(info)
      ensures old(Top())[..old(stacknxt)] == old(Top()[..stacknxt])
      ensures old(sstrnleft) > 0 ==> p' == p + 1 && blocks == old(blocks)
    {
      hide AllOk, BlocksOk;
      HasBlocks();
      ghost var s := Str(p);
      sstrnleft := sstrnleft - 1;
      p' := p;
      if sstrnleft < 0 {
        if old(StrShort(p)) {
          s := s + [Top()[p]];
        }
        assert s == Top()[stacknxt..];
        p' := GrowStackStr();
        HasBlocks();
      }
      assert Str(p') == s;
      p' := PutAt(c, p');
    }

    /** STUNPUTC. */
    method StUnputc(p: nat) returns (p': nat)
      requires Valid() && StrOk(p) && p > stacknxt
      modifies `sstrnleft
      ensures Valid() && StrOk(p') && Str(p') == Str(p)[..|Str(p)| - 1]
    {
      hide AllOk, BlocksOk;
      sstrnleft := sstrnleft + 1;
      p' := p - 1;
    }

    /** STADJUST, inside the block. */
    method StAdjust(amount: int, p: nat) returns (p': nat)
      requires Valid() && StrOk(p) && stacknxt <= p + amount && amount <= sstrnleft
      modifies `sstrnleft
      ensures Valid() && StrOk(p') && |Str(p')| == |Str(p)| + amount && (Str(p') <= Str(p) || Str(p) <= Str(p'))
    {
      hide AllOk, BlocksOk;
      HasBlocks();
      p' := p + amount;
      sstrnleft := sstrnleft - amount;
      if amount >= 0 {
        assert Str(p')[..|Str(p)|] == Str(p);
      } else {
        assert Str(p)[..|Str(p')|] == Str(p');
      }
    }

    /** CHECKSTRSPACE: room for n more characters, unless n is more than one growth brings. */
    method CheckStrSpace(n: nat, p: nat) returns (p': nat)
      requires Valid() && StrOk(p)
      modifies this
      ensures Valid() && StrOk(p') && Str(p') == old(Str(p)) && live == old(live) && info == old(info)
      ensures sstrnleft >= n || sstrnleft >= old(sstrnleft) + old(stacknleft) + 100
      ensures old(sstrnleft) >= n ==> p' == p && blocks == old(blocks) && sstrnleft == old(sstrnleft)
    {
      hide AllOk, BlocksOk;
      HasBlocks();
      p' := p;
      if sstrnleft < n {
        ghost var s := Str(p);
        var len := stacknleft - sstrnleft;
        assert s == Top()[stacknxt..][..len];
        GrowStackBlock();
        HasBlocks();
        sstrnleft := stacknleft - len;
        p' := stacknxt + len;
        assert Str(p') == Top()[stacknxt..stacknxt + old(stacknleft)][..len];
      }
    }

    /** STACKSTRNUL: the string gets its terminator. If the block had to grow for it, sstrnleft is one
        too small from then on; StPutc says what the next growth does then. */
    method StackStrNul(p: nat) returns (p': nat)
      requires Valid() && StrOk(p)
      modifies this, Top()
      ensures Valid() && live == old(live) && info == old(info)
      ensures stacknxt <= p' < Top().Length && Str(p') == old(Str(p)) && Top()[p'] == '\0'
      ensures StrOk(p') <==> old(sstrnleft) != 0
      ensures StrShort(p') <==> old(sstrnleft) == 0
      ensures old(sstrnleft) != 0 ==> p' == p && blocks == old(blocks)
    {
      hide AllOk, BlocksOk;
      HasBlocks();
      ghost var s := Str(p);
      p' := p;
      if sstrnleft == 0 {
        assert s == Top()[stacknxt..];
        p' := GrowStackStr();
        HasBlocks();
      }
      var top := blocks[|blocks| - 1];
      assert top[stacknxt..p'] == s;
      top[p'] := '\0';
      assert top[stacknxt..p'] == s;
    }

    /** grabstackstr: what has been built becomes an allocation, where it is. */
    method GrabStackStr(end: nat) returns (pstart: nat)
      requires Valid() && StrOk(end)
      modifies this
      ensures Valid() && blocks == old(blocks) && pstart == old(stacknxt) && stacknxt == pstart + Align(end - pstart)
      ensures live == old(live) + (if end == pstart then [] else [Region(|blocks| - 1, pstart, Align(end - pstart))])
      ensures marks == old(marks) && info == old(info) && sstrnleft == old(sstrnleft)
    {
      hide AllOk;
      HasBlocks();
      pstart := stacknxt;
      var nbytes := Align(end - pstart);
      Fits(end - pstart, stacknleft);
      Raised(blocks, marks, info, live, stacknxt, nbytes);
      stacknxt := stacknxt + nbytes;
      stacknleft := stacknleft - nbytes;
      if end != pstart {
        live := live + [Region(|blocks| - 1, pstart, nbytes)];
      }
    }

    /** ungrabstackstr: the allocation made last is a string under construction again. */
    method UngrabStackStr(s: nat, p: nat)
      requires Valid() && s <= p <= stacknxt && s % 8 == 0 && stacknxt - p <= SHELL_SIZE
      requires marks != [] ==> Below(info[|info| - 1].level, marks[|marks| - 1].stacknxt, |blocks| - 1, s)
      requires forall k ::
                 0 <= k < |live| && live[k].level == |blocks| - 1 ==> live[k].off >= s || live[k].off + live[k].len <= s
      modifies this
      ensures Valid() && blocks == old(blocks) && stacknxt == s && StrOk(p) && Str(p) == old(Top()[s..p])
      ensures live <= old(live) && marks == old(marks) && info == old(info)
      ensures forall k ::
                0 <= k < |old(live)| ==>
                  (k < |live| <==> !(old(live)[k].level == |blocks| - 1 && old(live)[k].off >= s))
    {
      hide AllOk, BlocksOk;
      HasBlocks();
      StUnalloc(s);
      sstrnleft := stacknleft - (p - s);
    }
  }

  lemma {:induction false} Fits(n: nat, left: nat)
    requires n <= left && left % 8 == 0
    ensures Align(n) <= left
  {
  }
}
