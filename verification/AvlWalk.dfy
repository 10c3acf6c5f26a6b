/** Walks over the whole tree, in either direction, with a stack of nodes instead of recursion. */
module AvlWalk {
  import opened AvlSpec
  import opened AvlTree

  /** The nodes in the order of the walk. */
  ghost function Walk(t: Tree, fFromLeft: bool): seq<Node> {
    match t
    case Leaf => []
    case Fork(n, l, r, _) =>
      if fFromLeft then Walk(l, fFromLeft) + [n] + Walk(r, fFromLeft) else Walk(r, fFromLeft) + [n] + Walk(l, fFromLeft)
  }

  ghost function Reverse(s: seq<Node>): seq<Node> {
    if s == [] then [] else Reverse(s[1..]) + [s[0]]
  }

  lemma {:induction false} ReverseConcat(a: seq<Node>, b: seq<Node>)
    ensures Reverse(a + b) == Reverse(b) + Reverse(a)
  {
    if a == [] {
      assert a + b == b;
    } else {
      assert (a + b)[1..] == a[1..] + b;
      ReverseConcat(a[1..], b);
    }
  }

  /** From the left the keys increase, from the right they decrease; every node occurs once. */
  lemma {:induction false} WalkIsInorder(t: Tree)
    ensures Walk(t, true) == Inorder(t) && Walk(t, false) == Reverse(Inorder(t))
  {
    match t
    case Leaf =>
    case Fork(n, l, r, _) =>
      WalkIsInorder(l);
      WalkIsInorder(r);
      ReverseConcat(Inorder(l) + [n], Inorder(r));
      ReverseConcat(Inorder(l), [n]);
      assert Reverse([n]) == [n];
      assert Reverse(Inorder(r)) + ([n] + Reverse(Inorder(l))) == Reverse(Inorder(r)) + [n] + Reverse(Inorder(l));
  }

  function FirstChild(t: Tree, fFromLeft: bool): Tree
    requires t.Fork?
  {
    if fFromLeft then t.left else t.right
  }

  function LastChild(t: Tree, fFromLeft: bool): Tree
    requires t.Fork?
  {
    if fFromLeft then t.right else t.left
  }

  lemma {:induction false} WalkSteps(t: Tree, fFromLeft: bool)
    requires t.Fork?
    ensures Walk(t, fFromLeft) ==
              Walk(FirstChild(t, fFromLeft), fFromLeft) + [t.node] + Walk(LastChild(t, fFromLeft), fFromLeft)
  {
  }

  // ----- The stack ------------------------------------------------------------------

  /** A node on the stack: 0 before, 1 after its first subtree, 2 after the node itself. */
  datatype Entry = Entry(t: Tree, flag: nat)

  /** What is still to come of an entry. */
  ghost function Rest(e: Entry, fFromLeft: bool): seq<Node> {
    if e.t.Leaf? then []
    else if e.flag == 0 then Walk(e.t, fFromLeft)
    else if e.flag == 1 then [e.t.node] + Walk(LastChild(e.t, fFromLeft), fFromLeft)
    else Walk(LastChild(e.t, fFromLeft), fFromLeft)
  }

  /** What is still to come, the top of the stack first. */
  ghost function Remaining(es: seq<Entry>, fFromLeft: bool): seq<Node> {
    if es == [] then [] else Rest(es[|es| - 1], fFromLeft) + Remaining(es[..|es| - 1], fFromLeft)
  }

  /** The steps an entry still takes. */
  ghost function Cost(e: Entry, fFromLeft: bool): nat {
    if e.t.Leaf? then 0
    else 3 * |Rest(e, fFromLeft)| + (if e.flag == 0 then 0 else if e.flag == 1 then -1 else 1)
  }

  ghost function Work(es: seq<Entry>, fFromLeft: bool): nat {
    if es == [] then 0 else Cost(es[|es| - 1], fFromLeft) + Work(es[..|es| - 1], fFromLeft)
  }

  lemma {:induction false} Pushed(es: seq<Entry>, e: Entry, fFromLeft: bool)
    ensures Remaining(es + [e], fFromLeft) == Rest(e, fFromLeft) + Remaining(es, fFromLeft)
    ensures Work(es + [e], fFromLeft) == Cost(e, fFromLeft) + Work(es, fFromLeft)
  {
    assert (es + [e])[..|es|] == es;
  }

  lemma {:induction false} FirstRest(e: Entry, fFromLeft: bool)
    requires e.t.Fork? && e.flag == 0
    ensures var first := Entry(FirstChild(e.t, fFromLeft), 0);
            && Rest(first, fFromLeft) + Rest(e.(flag := 1), fFromLeft) == Rest(e, fFromLeft)
            && Cost(first, fFromLeft) + Cost(e.(flag := 1), fFromLeft) < Cost(e, fFromLeft)
            && (first.t.Leaf? ==> Rest(first, fFromLeft) == [])
  {
    WalkSteps(e.t, fFromLeft);
    var a, n, b := Walk(FirstChild(e.t, fFromLeft), fFromLeft), [e.t.node], Walk(LastChild(e.t, fFromLeft), fFromLeft);
    hide Walk;
    assert a + (n + b) == a + n + b;
  }

  lemma {:induction false} CenterRest(e: Entry, fFromLeft: bool)
    requires e.t.Fork? && e.flag == 1
    ensures Rest(e, fFromLeft) == [e.t.node] + Rest(e.(flag := 2), fFromLeft)
    ensures Cost(e.(flag := 2), fFromLeft) < Cost(e, fFromLeft)
  {
    hide Walk;
  }

  lemma {:induction false} LastRest(e: Entry, fFromLeft: bool)
    requires e.t.Fork? && e.flag == 2
    ensures var last := Entry(LastChild(e.t, fFromLeft), 0);
            && Rest(last, fFromLeft) == Rest(e, fFromLeft)
            && Cost(last, fFromLeft) < Cost(e, fFromLeft)
            && (last.t.Leaf? ==> Rest(last, fFromLeft) == [])
  {
  }

  ghost predicate Sub(s: Tree, t: Tree) {
    s == t || (t.Fork? && (Sub(s, t.left) || Sub(s, t.right)))
  }

  lemma {:induction false} SubLinked(n: Node?, t: Tree, s: Tree)
    requires Linked(n, t) && Sub(s, t) && s.Fork?
    ensures Linked(s.node, s)
  {
    if s != t {
      if Sub(s, t.left) {
        SubLinked(t.node.pLeft, t.left, s);
      } else {
        SubLinked(t.node.pRight, t.right, s);
      }
    }
  }

  lemma {:induction false} SubChild(s: Tree, t: Tree)
    requires Sub(s, t) && s.Fork?
    ensures Sub(s.left, t) && Sub(s.right, t)
  {
    if s != t {
      if Sub(s, t.left) {
        SubChild(s, t.left);
      } else {
        SubChild(s, t.right);
      }
    }
  }

  lemma {:induction false} SubBalanced(s: Tree, t: Tree)
    requires Sub(s, t) && Balanced(t)
    ensures Balanced(s)
  {
    if s != t {
      if Sub(s, t.left) {
        SubBalanced(s, t.left);
      } else {
        SubBalanced(s, t.right);
      }
    }
  }

  /** The entries are subtrees of t, lower and lower. */
  ghost predicate Entries(es: seq<Entry>, t: Tree) {
    forall i ::
      0 <= i < |es| ==> es[i].t.Fork? && Sub(es[i].t, t) && i + HeightOf(es[i].t) <= AVL_MAX_HEIGHT && es[i].flag <= 2
  }

  lemma {:induction false} EntryChild(es: seq<Entry>, e: Entry, t: Tree, child: Tree)
    requires Entries(es + [e], t) && Balanced(t) && e.t.Fork? && child in {e.t.left, e.t.right}
    ensures |es| < AVL_MAX_HEIGHT && Entries(es, t)
    ensures child.Fork? ==> Entries(es + [Entry(child, 0)], t)
    ensures child.Fork? ==> |es| + 1 < AVL_MAX_HEIGHT && Entries(es + [e.(flag := 1)] + [Entry(child, 0)], t)
    ensures Entries(es + [e.(flag := 1)], t) && Entries(es + [e.(flag := 2)], t)
  {
    assert (es + [e])[|es|] == e;
    SubChild(e.t, t);
    SubBalanced(e.t, t);
    assert forall i :: 0 <= i < |es| ==> (es + [e])[i] == es[i];
  }

  lemma {:induction false} FirstDown(es: seq<Entry>, e: Entry, fFromLeft: bool)
    requires e.t.Fork? && e.flag == 0
    ensures var first := Entry(FirstChild(e.t, fFromLeft), 0);
            var now := if first.t.Leaf? then es + [e.(flag := 1)] else es + [e.(flag := 1)] + [first];
            Remaining(now, fFromLeft) == Remaining(es + [e], fFromLeft) &&
            Work(now, fFromLeft) < Work(es + [e], fFromLeft)
  {
    hide *;
    var first, second := Entry(FirstChild(e.t, fFromLeft), 0), e.(flag := 1);
    FirstRest(e, fFromLeft);
    Pushed(es, e, fFromLeft);
    Pushed(es, second, fFromLeft);
    Pushed(es + [second], first, fFromLeft);
    assert Rest(first, fFromLeft) + (Rest(second, fFromLeft) + Remaining(es, fFromLeft)) ==
             Rest(e, fFromLeft) + Remaining(es, fFromLeft);
    if first.t.Leaf? {
      assert [] + Rest(second, fFromLeft) == Rest(second, fFromLeft);
    }
  }

  lemma {:induction false} Center(es: seq<Entry>, e: Entry, fFromLeft: bool)
    requires e.t.Fork? && e.flag == 1
    ensures Remaining(es + [e], fFromLeft) == [e.t.node] + Remaining(es + [e.(flag := 2)], fFromLeft)
    ensures Work(es + [e.(flag := 2)], fFromLeft) < Work(es + [e], fFromLeft)
  {
    hide *;
    CenterRest(e, fFromLeft);
    Pushed(es, e, fFromLeft);
    Pushed(es, e.(flag := 2), fFromLeft);
  }

  lemma {:induction false} LastDown(es: seq<Entry>, e: Entry, fFromLeft: bool)
    requires e.t.Fork? && e.flag == 2
    ensures var last := Entry(LastChild(e.t, fFromLeft), 0);
            var now := if last.t.Leaf? then es else es + [last];
            Remaining(now, fFromLeft) == Remaining(es + [e], fFromLeft) &&
            Work(now, fFromLeft) < Work(es + [e], fFromLeft)
  {
    hide *;
    LastRest(e, fFromLeft);
    Pushed(es, e, fFromLeft);
    Pushed(es, Entry(LastChild(e.t, fFromLeft), 0), fFromLeft);
  }

  lemma {:induction false} ChildrenOf(avl: Avl, s: Tree)
    requires avl.Valid() && Sub(s, avl.tree) && s.Fork?
    ensures s.node.pLeft == TopOf(s.left) && s.node.pRight == TopOf(s.right)
  {
    SubLinked(avl.root, avl.tree, s);
    hide Sub, Balanced;
    Tops(s.node.pLeft, s.left);
    Tops(s.node.pRight, s.right);
  }

  lemma {:induction false} Tops(n: Node?, t: Tree)
    requires Linked(n, t)
    ensures n == TopOf(t)
  {
  }

  /** The arrays hold the entries. */
  ghost predicate Holds(aEntries: seq<Node?>, achFlags: seq<nat>, es: seq<Entry>) {
    |aEntries| == |achFlags| == |es| && forall i :: 0 <= i < |es| ==>
      aEntries[i] == TopOf(es[i].t) && achFlags[i] == es[i].flag
  }

  /** AVLENUMDATA, and the stack of AVLDoWithAll: nodes with a flag each. */
  class EnumData {
    var fFromLeft: bool
    var cEntries: nat
    const achFlags: array<nat>
    const aEntries: array<Node?>
    ghost var es: seq<Entry>

    constructor ()
      ensures fresh(achFlags) && fresh(aEntries) && achFlags.Length == aEntries.Length == AVL_MAX_HEIGHT
    {
      fFromLeft, cEntries, es := false, 0, [];
      achFlags := new nat[AVL_MAX_HEIGHT](_ => 0);
      aEntries := new Node?[AVL_MAX_HEIGHT](_ => null);
    }

    ghost predicate Valid(t: Tree)
      reads `cEntries, `es, achFlags, aEntries
    {
      && achFlags.Length == aEntries.Length == AVL_MAX_HEIGHT && cEntries == |es| <= AVL_MAX_HEIGHT
      && Holds(aEntries[..cEntries], achFlags[..cEntries], es) && Entries(es, t)
    }

    /** The nodes the enumeration has still to come to. */
    ghost function Left(): seq<Node>
      reads `es, `fFromLeft
    {
      Remaining(es, fFromLeft)
    }

    ghost function Init(): seq<Entry>
      requires es != []
      reads `es
    {
      es[..|es| - 1]
    }

    ghost function Last(): Entry
      requires es != []
      reads `es
    {
      es[|es| - 1]
    }

    lemma {:induction false} Frame(avl: Avl)
      ensures allocated(Nodes(avl.tree))
      ensures var nodes := set n: Node | n in Nodes(avl.tree) :: n as object;
              (this as object) !in nodes && (achFlags as object) !in nodes && (aEntries as object) !in nodes
    {
      NodesAllocated(avl.tree);
    }

    method Push(pNode: Node, ghost t: Tree, ghost whole: Tree)
      requires Valid(whole) && t.Fork? && pNode == t.node && Entries(es + [Entry(t, 0)], whole)
      requires cEntries < AVL_MAX_HEIGHT
      modifies `cEntries, `es, achFlags, aEntries
      ensures Valid(whole) && es == old(es) + [Entry(t, 0)]
    {
      hide Entries;
      achFlags[cEntries] := 0;
      aEntries[cEntries] := pNode;
      cEntries := cEntries + 1;
      es := es + [Entry(t, 0)];
      assert aEntries[..cEntries] == old(aEntries[..cEntries]) + [pNode];
      assert achFlags[..cEntries] == old(achFlags[..cEntries]) + [0];
    }

    method Raise(ghost whole: Tree)
      requires Valid(whole) && es != [] && Last().flag < 2
      requires Entries(Init() + [Last().(flag := Last().flag + 1)], whole)
      modifies `es, achFlags
      ensures Valid(whole) && es == old(Init()) + [old(Last()).(flag := old(Last()).flag + 1)]
    {
      hide Entries;
      achFlags[cEntries - 1] := achFlags[cEntries - 1] + 1;
      es := Init() + [Last().(flag := Last().flag + 1)];
    }

    method Pop(ghost whole: Tree)
      requires Valid(whole) && es != [] && Entries(Init(), whole)
      modifies `es, `cEntries
      ensures Valid(whole) && es == old(Init())
    {
      hide Entries;
      cEntries := cEntries - 1;
      es := Init();
    }

    lemma {:induction false} LastEntry(avl: Avl)
      requires Valid(avl.tree) && es != [] && avl.Valid()
      ensures cEntries == |es| <= AVL_MAX_HEIGHT == aEntries.Length == achFlags.Length
      ensures es == Init() + [Last()] && Last().t.Fork?
      ensures aEntries[cEntries - 1] == Last().t.node && achFlags[cEntries - 1] == Last().flag <= 2
      ensures var t := Last().t; t.node.pLeft == TopOf(t.left) && t.node.pRight == TopOf(t.right)
      ensures var t := Last().t;
              forall child :: child in {t.left, t.right} ==>
                && (child.Fork? ==> |es| - 1 < AVL_MAX_HEIGHT && Entries(Init() + [Entry(child, 0)], avl.tree))
                && (child.Fork? ==>
                    |es| < AVL_MAX_HEIGHT && Entries(Init() + [Last().(flag := 1)] + [Entry(child, 0)], avl.tree))
      ensures Entries(Init() + [Last().(flag := 1)], avl.tree) && Entries(Init() + [Last().(flag := 2)], avl.tree)
      ensures Entries(Init(), avl.tree)
    {
      ChildrenOf(avl, Last().t);
      assert es == Init() + [Last()];
      EntryChild(Init(), Last(), avl.tree, Last().t.left);
      EntryChild(Init(), Last(), avl.tree, Last().t.right);
    }

    /** AVLGetNextNode. */
    method GetNextNode(avl: Avl) returns (pNode: Node?)
      requires Valid(avl.tree) && avl.Valid()
      modifies this, achFlags, aEntries
      ensures Valid(avl.tree) && avl.Valid() && fFromLeft == old(fFromLeft)
      ensures old(Left()) == [] ==> pNode == null && Left() == []
      ensures old(Left()) != [] ==> pNode == old(Left()[0]) && Left() == old(Left()[1..])
    {
      hide *;
      Frame(avl);
      LeftIs(avl.tree);
      while cEntries > 0
        invariant Valid(avl.tree) && avl.Valid() && fFromLeft == old(fFromLeft)
        invariant cEntries == |es|
        invariant Remaining(es, fFromLeft) == old(Left())
        decreases Work(es, fFromLeft)
      {
        LastEntry(avl);
        ghost var init, e := Init(), Last();
        pNode := aEntries[cEntries - 1];
        Descend(e);
        if achFlags[cEntries - 1] == 0 {
          FirstDown(init, e, fFromLeft);
          Raise(avl.tree);
          var pFirst := if fFromLeft then pNode.pLeft else pNode.pRight;
          if pFirst != null {
            Push(pFirst, FirstChild(e.t, fFromLeft), avl.tree);
            LeftIs(avl.tree);
            continue;
          }
          e := e.(flag := 1);
          assert es == init + [e];
          LastEntry(avl);
          Snoc(es, init, e);
        }
        if achFlags[cEntries - 1] == 1 {
          Center(init, e, fFromLeft);
          Raise(avl.tree);
          LeftIs(avl.tree);
          return;
        }
        LastDown(init, e, fFromLeft);
        Pop(avl.tree);
        LeftIs(avl.tree);
        var pLast := if fFromLeft then pNode.pRight else pNode.pLeft;
        if pLast != null {
          Push(pLast, LastChild(e.t, fFromLeft), avl.tree);
        }
        LeftIs(avl.tree);
      }
      LeftIs(avl.tree);
      pNode := null;
    }

    /** AVLBeginEnumTree. */
    method BeginEnumTree(avl: Avl, fFromLeft: bool) returns (pNode: Node?)
      requires avl.Valid() && HeightOf(avl.tree) <= AVL_MAX_HEIGHT
      requires achFlags.Length == aEntries.Length == AVL_MAX_HEIGHT
      modifies this, achFlags, aEntries
      ensures Valid(avl.tree) && avl.Valid()
      ensures Walk(avl.tree, fFromLeft) == [] ==> pNode == null && Left() == []
      ensures Walk(avl.tree, fFromLeft) != [] ==>
                pNode == Walk(avl.tree, fFromLeft)[0] && Left() == Walk(avl.tree, fFromLeft)[1..]
    {
      hide *;
      Frame(avl);
      RootIs(avl, fFromLeft);
      if avl.root != null {
        StartAt(avl, fFromLeft);
      } else {
        cEntries := 0;
        es := [];
        NoEntries(avl.tree);
      }
      LeftIs(avl.tree);
      EmptyLeft(this.fFromLeft);
      pNode := GetNextNode(avl);
    }

    method StartAt(avl: Avl, fFromLeft: bool)
      requires avl.Valid() && HeightOf(avl.tree) <= AVL_MAX_HEIGHT
      requires achFlags.Length == aEntries.Length == AVL_MAX_HEIGHT
      requires avl.root != null
      modifies this, achFlags, aEntries
      ensures Valid(avl.tree) && avl.Valid() && this.fFromLeft == fFromLeft && es == [Entry(avl.tree, 0)]
    {
      Frame(avl);
      RootIs(avl, fFromLeft);
      hide Walk, Rest, Balanced, Linked, Sorted, Remaining, Size, Sub, Inorder;
      this.fFromLeft := fFromLeft;
      cEntries := 1;
      aEntries[0] := avl.root;
      achFlags[0] := 0;
      es := [Entry(avl.tree, 0)];
    }

    lemma {:induction false} NoEntries(t: Tree)
      requires achFlags.Length == aEntries.Length == AVL_MAX_HEIGHT && cEntries == 0 && es == []
      ensures Valid(t)
    {
    }

    lemma {:induction false} EmptyLeft(fFromLeft: bool)
      ensures Remaining([], fFromLeft) == []
    {
    }

    lemma {:induction false} RootIs(avl: Avl, fFromLeft: bool)
      requires avl.Valid()
      ensures avl.root == TopOf(avl.tree) && (avl.root == null <==> avl.tree == Leaf) && Sub(avl.tree, avl.tree)
      ensures avl.tree.Fork? ==> Remaining([Entry(avl.tree, 0)], fFromLeft) == Walk(avl.tree, fFromLeft)
      ensures avl.tree.Leaf? ==> Walk(avl.tree, fFromLeft) == []
      ensures forall fl :: Remaining([], fl) == []
    {
      Push0(Entry(avl.tree, 0), fFromLeft);
    }

    lemma {:induction false} Push0(e: Entry, fFromLeft: bool)
      ensures Remaining([e], fFromLeft) == Rest(e, fFromLeft)
    {
      assert [] + [e] == [e];
      Pushed([], e, fFromLeft);
      assert Rest(e, fFromLeft) + [] == Rest(e, fFromLeft);
    }

    lemma {:induction false} LeftIs(t: Tree)
      requires Valid(t)
      ensures cEntries == |es| && Left() == Remaining(es, fFromLeft) && (es == [] ==> Left() == [])
    {
    }

    lemma {:induction false} Popped(init: seq<Entry>)
      requires |es| == |init| + 1 && es[..|init|] == init
      ensures es != [] && Init() == init
    {
    }

    lemma {:induction false} Snoc(all: seq<Entry>, init: seq<Entry>, e: Entry)
      requires es == all == init + [e]
      ensures es != [] && Init() == init && Last() == e
    {
    }
  }

  lemma {:induction false} Descend(e: Entry)
    requires e.t.Fork?
    ensures forall fl ::
              FirstChild(e.t, fl) == (if fl then e.t.left else e.t.right) &&
              LastChild(e.t, fl) == (if fl then e.t.right else e.t.left)
    ensures forall c ::
              c in {e.t.left, e.t.right} ==> (TopOf(c) == null <==> c.Leaf?) && (c.Fork? ==> TopOf(c) == c.node)
  {
  }

  /** An enumeration from its beginning to its end. */
  method Enumerate(avl: Avl, fFromLeft: bool) returns (nodes: seq<Node>)
    requires avl.Valid() && HeightOf(avl.tree) <= AVL_MAX_HEIGHT
    ensures nodes == Walk(avl.tree, fFromLeft)
  {
    hide *;
    NodesAllocated(avl.tree);
    var EnumData := new EnumData();
    nodes := [];
    var pNode := EnumData.BeginEnumTree(avl, fFromLeft);
    while pNode != null
      invariant EnumData.Valid(avl.tree) && avl.Valid()
      invariant Walk(avl.tree, fFromLeft) == nodes + (if pNode == null then [] else [pNode]) + EnumData.Left()
      invariant pNode == null ==> EnumData.Left() == []
      decreases |EnumData.Left()|, pNode != null
    {
      nodes := nodes + [pNode];
      pNode := EnumData.GetNextNode(avl);
    }
  }

  /** The callbacks up to the first that fails. */
  ghost predicate StoppedAt(walk: seq<Node>, visited: seq<Node>, pfnCallBack: Node -> nat, rc: nat) {
    && visited <= walk
    && (rc == 0 ==> visited == walk && forall n :: n in walk ==> pfnCallBack(n) == 0)
    && (rc != 0 ==> visited != [] && pfnCallBack(visited[|visited| - 1]) == rc
                    && forall n :: n in visited[..|visited| - 1] ==> pfnCallBack(n) == 0)
  }

  /** AVLDoWithAll, with the nodes handed to the callback. */
  method DoWithAll(avl: Avl, fFromLeft: bool, pfnCallBack: Node -> nat) returns (rc: nat, visited: seq<Node>)
    requires avl.Valid() && HeightOf(avl.tree) <= AVL_MAX_HEIGHT
    ensures StoppedAt(Walk(avl.tree, fFromLeft), visited, pfnCallBack, rc)
  {
    hide *;
    NodesAllocated(avl.tree);
    visited := [];
    ghost var walk := Walk(avl.tree, fFromLeft);
    if avl.root == null {
      NoWalk(avl, fFromLeft, pfnCallBack);
      return 0, visited;
    }
    var AVLStack := new EnumData();
    AVLStack.StartAt(avl, fFromLeft);
    Starting(avl, fFromLeft, pfnCallBack);
    while AVLStack.cEntries > 0
      invariant AVLStack.Valid(avl.tree) && avl.Valid() && AVLStack.fFromLeft == fFromLeft
      invariant SoFar(walk, visited, Remaining(AVLStack.es, fFromLeft), pfnCallBack) && Low(AVLStack.es)
      decreases Work(AVLStack.es, fFromLeft)
    {
      AVLStack.LeftIs(avl.tree);
      AVLStack.LastEntry(avl);
      ghost var init, e := AVLStack.Init(), AVLStack.Last();
      var pNode := AVLStack.aEntries[AVLStack.cEntries - 1];
      Descend(e);
      LowParts(init, e);
      var flag := AVLStack.achFlags[AVLStack.cEntries - 1];
      AVLStack.Raise(avl.tree);
      if flag == 0 {
        FirstDown(init, e, fFromLeft);
        var pFirst := if fFromLeft then pNode.pLeft else pNode.pRight;
        if pFirst != null {
          AVLStack.LeftIs(avl.tree);
          AVLStack.Push(pFirst, FirstChild(e.t, fFromLeft), avl.tree);
          LowPush(init, e.(flag := 1));
          LowPush(init + [e.(flag := 1)], Entry(FirstChild(e.t, fFromLeft), 0));
          continue;
        }
      }
      Center(init, e.(flag := 1), fFromLeft);
      LastDown(init, e.(flag := 2), fFromLeft);
      rc := pfnCallBack(pNode);
      OneMore(walk, visited, pNode, Remaining(init + [e.(flag := 2)], fFromLeft), pfnCallBack);
      visited := visited + [pNode];
      if rc != 0 {
        return;
      }
      AVLStack.LeftIs(avl.tree);
      AVLStack.Popped(init);
      AVLStack.Pop(avl.tree);
      AVLStack.LeftIs(avl.tree);
      var pLast := if fFromLeft then pNode.pRight else pNode.pLeft;
      if pLast != null {
        AVLStack.Push(pLast, LastChild(e.t, fFromLeft), avl.tree);
        LowPush(init, Entry(LastChild(e.t, fFromLeft), 0));
      }
    }
    AVLStack.LeftIs(avl.tree);
    AVLStack.EmptyLeft(fFromLeft);
    Finished(walk, visited, pfnCallBack);
    rc := 0;
  }

  ghost predicate SoFar(walk: seq<Node>, visited: seq<Node>, rest: seq<Node>, pfnCallBack: Node -> nat) {
    walk == visited + rest && forall n :: n in visited ==> pfnCallBack(n) == 0
  }

  lemma {:induction false} NoWalk(avl: Avl, fFromLeft: bool, pfnCallBack: Node -> nat)
    requires avl.Valid() && avl.root == null
    ensures StoppedAt(Walk(avl.tree, fFromLeft), [], pfnCallBack, 0)
  {
  }

  lemma {:induction false} Starting(avl: Avl, fFromLeft: bool, pfnCallBack: Node -> nat)
    requires avl.Valid() && avl.root != null
    ensures SoFar(Walk(avl.tree, fFromLeft), [], Remaining([Entry(avl.tree, 0)], fFromLeft), pfnCallBack)
    ensures Low([Entry(avl.tree, 0)])
  {
    assert [Entry(avl.tree, 0)][..0] == [];
    Pushed([], Entry(avl.tree, 0), fFromLeft);
    assert [] + [Entry(avl.tree, 0)] == [Entry(avl.tree, 0)];
  }

  lemma {:induction false} OneMore(walk: seq<Node>, visited: seq<Node>, pNode: Node, rest: seq<Node>,
      pfnCallBack: Node -> nat)
    requires SoFar(walk, visited, [pNode] + rest, pfnCallBack)
    ensures pfnCallBack(pNode) == 0 ==> SoFar(walk, visited + [pNode], rest, pfnCallBack)
    ensures pfnCallBack(pNode) != 0 ==> StoppedAt(walk, visited + [pNode], pfnCallBack, pfnCallBack(pNode))
  {
    assert visited + ([pNode] + rest) == visited + [pNode] + rest;
    assert (visited + [pNode])[..|visited|] == visited;
  }

  lemma {:induction false} Finished(walk: seq<Node>, visited: seq<Node>, pfnCallBack: Node -> nat)
    requires SoFar(walk, visited, [], pfnCallBack)
    ensures StoppedAt(walk, visited, pfnCallBack, 0)
  {
  }

  /** Nothing on the stack has been handed out yet. */
  ghost predicate Low(es: seq<Entry>) {
    forall i :: 0 <= i < |es| ==> es[i].flag <= 1
  }

  lemma {:induction false} LowParts(init: seq<Entry>, e: Entry)
    requires Low(init + [e])
    ensures Low(init) && e.flag <= 1
  {
    assert (init + [e])[|init|] == e;
    assert forall i :: 0 <= i < |init| ==> (init + [e])[i] == init[i];
  }

  lemma {:induction false} LowPush(init: seq<Entry>, e: Entry)
    requires Low(init) && e.flag <= 1
    ensures Low(init + [e])
  {
  }
}
