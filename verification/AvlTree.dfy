/** The AVL tree: nodes linked in place, with a stack of pointers to links instead of recursion. */
module AvlTree {
  import opened AvlSpec

  /** A pointer to a link: the root pointer, or a child pointer of a node. */
  datatype Link = Root | LeftOf(node: Node) | RightOf(node: Node)

  function HeightAt(n: Node?): nat
    reads n
  {
    if n == null then 0 else n.uchHeight
  }

  /** The nodes in memory, from n down, form the tree t. */
  ghost predicate Linked(n: Node?, t: Tree)
    reads Nodes(t)
  {
    match t
    case Leaf => n == null
    case Fork(m, l, r, h) => n == m && m.uchHeight == h && Linked(m.pLeft, l) && Linked(m.pRight, r)
  }

  lemma {:induction false} NodesAllocated(t: Tree)
    ensures allocated(Nodes(t))
  {
    if t.Fork? {
      NodesAllocated(t.left);
      NodesAllocated(t.right);
    }
  }

  lemma {:induction false} PathAllocated(p: Path)
    ensures allocated(PathNodes(p))
  {
    match p
    case Top =>
    case InLeft(_, _, other, up) =>
      NodesAllocated(other);
      PathAllocated(up);
    case InRight(_, _, other, up) =>
      NodesAllocated(other);
      PathAllocated(up);
  }

  class Avl {
    var root: Node?

    constructor ()
      ensures Valid() && tree == Leaf
    {
      root, tree := null, Leaf;
    }

    function Get(link: Link): Node?
      reads this, if link.Root? then {} else {link.node}
    {
      match link
      case Root => root
      case LeftOf(n) => n.pLeft
      case RightOf(n) => n.pRight
    }

    ghost function LinkOf(p: Path): Link {
      match p
      case Top => Root
      case InLeft(n, _, _, _) => LeftOf(n)
      case InRight(n, _, _, _) => RightOf(n)
    }

    /** The links on the way down to the place, the root's first. */
    ghost function Links(p: Path): (s: seq<Link>)
      ensures |s| == Depth(p)
    {
      match p
      case Top => []
      case InLeft(_, _, _, up) => Links(up) + [LinkOf(up)]
      case InRight(_, _, _, up) => Links(up) + [LinkOf(up)]
    }

    /** The memory around the place p, whose link holds n. */
    ghost predicate LinkedAround(p: Path, n: Node?)
      reads this, PathNodes(p)
    {
      match p
      case Top => root == n
      case InLeft(m, h, other, up) => m.pLeft == n && m.uchHeight == h && Linked(m.pRight, other) && LinkedAround(up, m)
      case InRight(m, h, other, up) =>
        m.pRight == n && m.uchHeight == h && Linked(m.pLeft, other) && LinkedAround(up, m)
    }

    lemma {:induction false} PlugLinked(p: Path, t: Tree)
      ensures Linked(root, Plug(p, t)) <==> Linked(Get(LinkOf(p)), t) && LinkedAround(p, Get(LinkOf(p)))
    {
      match p
      case Top =>
      case InLeft(n, h, other, up) => PlugLinked(up, Fork(n, t, other, h));
      case InRight(n, h, other, up) => PlugLinked(up, Fork(n, other, t, h));
    }

    lemma {:induction false} LinkHolds(p: Path, n: Node?)
      requires LinkedAround(p, n)
      ensures Get(LinkOf(p)) == n
    {
    }

    /** Changing what the link of p holds changes nothing else around it. */
    method SetAt(link: Link, n: Node?, ghost p: Path, ghost was: Node?)
      requires link == LinkOf(p) && DistinctPath(p) && LinkedAround(p, was)
      modifies if link.Root? then {this as object} else {link.node}
      ensures LinkedAround(p, n) && tree == old(tree)
    {
      match link
      case Root =>
        root := n;
      case LeftOf(m) =>
        m.pLeft := n;
        assert m !in PathNodes(p.up) && m !in Nodes(p.other);
      case RightOf(m) =>
        m.pRight := n;
        assert m !in PathNodes(p.up) && m !in Nodes(p.other);
    }

    // ----- Rebalancing ----------------------------------------------------------

    /** The left subtree is too high and leans to the left. */
    method RotateRight(pNode: Node, pLeftNode: Node, ghost t: Tree)
      requires Distinct(t) && t.Fork? && t.left.Fork? && Linked(pNode, t) && pLeftNode == t.left.node
      modifies pNode, pLeftNode
      ensures var Fork(n, l, r, _) := t;
              Linked(pLeftNode, Fork(l.node, l.left, Fork(n, l.right, r, 1 + HeightOf(l.right)), 2 + HeightOf(l.right)))
    {
      ghost var l, r := t.left, t.right;
      assert pNode !in Nodes(l.left) + Nodes(l.right) + Nodes(r) &&
             pLeftNode !in Nodes(l.left) + Nodes(l.right) + Nodes(r);
      var pLeftRightNode := pLeftNode.pRight;
      HeightIs(pLeftRightNode, l.right);
      var uchLeftRightHeight := HeightAt(pLeftRightNode);
      pNode.pLeft := pLeftRightNode;
      pLeftNode.pRight := pNode;
      pNode.uchHeight := 1 + uchLeftRightHeight;
      pLeftNode.uchHeight := 1 + pNode.uchHeight;
    }

    lemma {:induction false} HeightIs(n: Node?, t: Tree)
      requires Linked(n, t)
      ensures HeightAt(n) == HeightOf(t) && (n == null <==> t.Leaf?)
    {
    }

    lemma {:induction false} LinkedFork(n: Node?, t: Tree)
      requires Linked(n, t) && t.Fork?
      ensures n != null && n == t.node && Linked(n.pLeft, t.left) && Linked(n.pRight, t.right) && n.uchHeight == t.h
      ensures t.left.Fork? ==> n.pLeft == t.left.node
      ensures t.right.Fork? ==> n.pRight == t.right.node
    {
    }

    /** The left subtree is too high and leans to the right: its right child comes up. */
    method RotateLeftRight(pNode: Node, pLeftNode: Node, pLeftRightNode: Node, ghost ll: Tree, ghost a: Tree,
        ghost b: Tree, ghost r: Tree)
      requires pNode != pLeftNode && pLeftNode != pLeftRightNode && pLeftRightNode != pNode
      requires {pNode, pLeftNode, pLeftRightNode} !! Nodes(ll) + Nodes(a) + Nodes(b) + Nodes(r)
      requires pLeftNode.pRight == pLeftRightNode && Linked(pLeftNode.pLeft, ll) && Linked(pNode.pRight, r)
      requires Linked(pLeftRightNode.pLeft, a) && Linked(pLeftRightNode.pRight, b)
      modifies pNode, pLeftNode, pLeftRightNode
      ensures var h, mh := old(pLeftNode.uchHeight), old(pLeftRightNode.uchHeight);
              Linked(pLeftRightNode, Fork(pLeftRightNode, Fork(pLeftNode, ll, a, mh), Fork(pNode, b, r, mh), h))
    {
      hide Nodes, Inorder;
      var uchLeftHeight, uchLeftRightHeight := pLeftNode.uchHeight, pLeftRightNode.uchHeight;
      pLeftNode.pRight := pLeftRightNode.pLeft;
      pNode.pLeft := pLeftRightNode.pRight;
      pLeftRightNode.pLeft := pLeftNode;
      pLeftRightNode.pRight := pNode;
      pLeftNode.uchHeight, pNode.uchHeight := uchLeftRightHeight, uchLeftRightHeight;
      pLeftRightNode.uchHeight := uchLeftHeight;
      assert Linked(pLeftNode, Fork(pLeftNode, ll, a, uchLeftRightHeight));
      assert Linked(pNode, Fork(pNode, b, r, uchLeftRightHeight));
    }

    /** The right subtree is too high and leans to the right. */
    method RotateLeft(pNode: Node, pRightNode: Node, ghost t: Tree)
      requires Distinct(t) && t.Fork? && t.right.Fork? && Linked(pNode, t) && pRightNode == t.right.node
      modifies pNode, pRightNode
      ensures var Fork(n, l, r, _) := t;
              Linked(pRightNode, Fork(r.node, Fork(n, l, r.left, 1 + HeightOf(r.left)), r.right, 2 + HeightOf(r.left)))
    {
      ghost var l, r := t.left, t.right;
      ghost var rest := Nodes(l) + Nodes(r.left) + Nodes(r.right);
      assert pNode !in rest && pRightNode !in rest;
      var pRightLeftNode := pRightNode.pLeft;
      HeightIs(pRightLeftNode, r.left);
      var uchRightLeftHeight := HeightAt(pRightLeftNode);
      pNode.pRight := pRightLeftNode;
      pRightNode.pLeft := pNode;
      pNode.uchHeight := 1 + uchRightLeftHeight;
      pRightNode.uchHeight := 1 + pNode.uchHeight;
    }

    /** The right subtree is too high and leans to the left: its left child comes up. */
    method RotateRightLeft(pNode: Node, pRightNode: Node, pRightLeftNode: Node, ghost l: Tree, ghost a: Tree,
        ghost b: Tree, ghost rr: Tree)
      requires pNode != pRightNode && pRightNode != pRightLeftNode && pRightLeftNode != pNode
      requires {pNode, pRightNode, pRightLeftNode} !! Nodes(l) + Nodes(a) + Nodes(b) + Nodes(rr)
      requires pRightNode.pLeft == pRightLeftNode && Linked(pRightNode.pRight, rr) && Linked(pNode.pLeft, l)
      requires Linked(pRightLeftNode.pLeft, a) && Linked(pRightLeftNode.pRight, b)
      modifies pNode, pRightNode, pRightLeftNode
      ensures var h, mh := old(pRightNode.uchHeight), old(pRightLeftNode.uchHeight);
              Linked(pRightLeftNode, Fork(pRightLeftNode, Fork(pNode, l, a, mh), Fork(pRightNode, b, rr, mh), h))
    {
      hide Nodes, Inorder;
      var uchRightHeight, uchRightLeftHeight := pRightNode.uchHeight, pRightLeftNode.uchHeight;
      pRightNode.pLeft := pRightLeftNode.pRight;
      pNode.pRight := pRightLeftNode.pLeft;
      pRightLeftNode.pRight := pRightNode;
      pRightLeftNode.pLeft := pNode;
      pRightNode.uchHeight, pNode.uchHeight := uchRightLeftHeight, uchRightLeftHeight;
      pRightLeftNode.uchHeight := uchRightHeight;
      assert Linked(pNode, Fork(pNode, l, a, uchRightLeftHeight));
      assert Linked(pRightNode, Fork(pRightNode, b, rr, uchRightLeftHeight));
    }

    /** One stack entry: restores the balance of the node the link holds. Nothing more is to be
        done when its height is right already. */
    method BalanceNode(link: Link, ghost up: Path, ghost t: Tree) returns (done: bool)
      requires link == LinkOf(up) && t.Fork? && Balanced(t.left) && Balanced(t.right) && Apart(up, t)
      requires LinkedAt(up, t)
      modifies this, Nodes(t), PathNodes(up)
      ensures LinkedAt(up, Rebalanced(t))
      ensures done ==> HeightOf(Rebalanced(t)) == t.h
    {
      hide Rebalanced, Balanced, LinkedAround, Linked, PathNodes, Nodes, Distinct, DistinctPath;
      LinkHolds(up, t.node);
      var pNode := Get(link);
      LinkedFork(pNode, t);
      RebalancedCases(t);
      LinkOwner(up, t);
      PathAllocated(up);
      var pLeftNode, pRightNode := pNode.pLeft, pNode.pRight;
      HeightIs(pLeftNode, t.left);
      HeightIs(pRightNode, t.right);
      var uchLeftHeight, uchRightHeight := HeightAt(pLeftNode), HeightAt(pRightNode);
      done := false;
      if uchRightHeight + 1 < uchLeftHeight {
        LinkedFork(pLeftNode, t.left);
        var top := LiftLeft(pNode, pLeftNode, t);
        Relink(link, top, up, pNode, t);
      } else if uchLeftHeight + 1 < uchRightHeight {
        LinkedFork(pRightNode, t.right);
        var top := LiftRight(pNode, pRightNode, t);
        Relink(link, top, up, pNode, t);
      } else {
        var uchHeight := Max(uchLeftHeight, uchRightHeight) + 1;
        if uchHeight == pNode.uchHeight {
          done := true;
        } else {
          FixHeight(pNode, uchHeight, up, t);
        }
      }
    }

    lemma {:induction false} LinkOwner(p: Path, t: Tree)
      ensures LinkOf(p).Root? || LinkOf(p).node in PathNodes(p)
      ensures t.Fork? ==> t.node in Nodes(t)
    {
    }

    lemma {:induction false} RebalancedCases(t: Tree)
      requires t.Fork? && Balanced(t.left) && Balanced(t.right)
      ensures Rebalanced(t).Fork?
      ensures HeightOf(t.left) <= HeightOf(t.right) + 1 && HeightOf(t.right) <= HeightOf(t.left) + 1
          ==> Rebalanced(t) == t.(h := Max(HeightOf(t.left), HeightOf(t.right)) + 1)
      ensures Distinct(t) ==> Distinct(t.left) && Distinct(t.right)
    {
    }

    method FixHeight(pNode: Node, uchHeight: nat, ghost up: Path, ghost t: Tree)
      requires Linked(pNode, t) && t.Fork? && Apart(up, t) && LinkedAround(up, pNode)
      modifies pNode
      ensures Linked(pNode, t.(h := uchHeight)) && LinkedAround(up, pNode)
    {
      assert pNode !in PathNodes(up);
      assert pNode !in Nodes(t.left) && pNode !in Nodes(t.right);
      pNode.uchHeight := uchHeight;
    }

    method Relink(link: Link, top: Node, ghost up: Path, ghost was: Node, ghost t: Tree)
      requires link == LinkOf(up) && LinkedAround(up, was) && Apart(up, t)
      requires t.Fork? && Balanced(t.left) && Balanced(t.right) && Linked(top, Rebalanced(t))
      modifies if link.Root? then {this as object} else {link.node}
      ensures LinkedAround(up, top) && Linked(top, Rebalanced(t))
    {
      RebalancedNodes(t);
      hide Rebalanced;
      ghost var s := Rebalanced(t);
      match link
      case Root =>
        root := top;
      case LeftOf(m) =>
        assert m !in Nodes(s) && m !in PathNodes(up.up) && m !in Nodes(up.other);
        m.pLeft := top;
      case RightOf(m) =>
        assert m !in Nodes(s) && m !in PathNodes(up.up) && m !in Nodes(up.other);
        m.pRight := top;
    }

    method LiftLeft(pNode: Node, pLeftNode: Node, ghost t: Tree) returns (top: Node)
      requires t.Fork? && t.left.Fork? && Balanced(t.left) && Balanced(t.right) && Distinct(t)
      requires HeightOf(t.right) + 1 < HeightOf(t.left)
      requires Linked(pNode, t) && pLeftNode == t.left.node
      modifies Nodes(t)
      ensures top == Rebalanced(t).node && Linked(top, Rebalanced(t))
    {
      ghost var l := t.left;
      LinkedFork(pNode, t);
      LinkedFork(pLeftNode, l);
      HeightIs(pLeftNode.pLeft, l.left);
      HeightIs(pLeftNode.pRight, l.right);
      if HeightAt(pLeftNode.pLeft) >= HeightAt(pLeftNode.pRight) {
        RotateRight(pNode, pLeftNode, t);
        top := pLeftNode;
      } else {
        LinkedFork(pLeftNode.pRight, l.right);
        DistinctInnerLeft(t);
        top := pLeftNode.pRight;
        RotateLeftRight(pNode, pLeftNode, top, l.left, l.right.left, l.right.right, t.right);
      }
    }

    method LiftRight(pNode: Node, pRightNode: Node, ghost t: Tree) returns (top: Node)
      requires t.Fork? && t.right.Fork? && Balanced(t.left) && Balanced(t.right) && Distinct(t)
      requires HeightOf(t.left) + 1 < HeightOf(t.right)
      requires Linked(pNode, t) && pRightNode == t.right.node
      modifies Nodes(t)
      ensures top == Rebalanced(t).node && Linked(top, Rebalanced(t))
    {
      ghost var r := t.right;
      LinkedFork(pNode, t);
      LinkedFork(pRightNode, r);
      HeightIs(pRightNode.pRight, r.right);
      HeightIs(pRightNode.pLeft, r.left);
      if HeightAt(pRightNode.pRight) >= HeightAt(pRightNode.pLeft) {
        RotateLeft(pNode, pRightNode, t);
        top := pRightNode;
      } else {
        LinkedFork(pRightNode.pLeft, r.left);
        DistinctInnerRight(t);
        top := pRightNode.pLeft;
        RotateRightLeft(pNode, pRightNode, top, t.left, r.left.left, r.left.right, r.right);
      }
    }

    lemma {:induction false} DistinctInnerLeft(t: Tree)
      requires Distinct(t) && t.Fork? && t.left.Fork? && t.left.right.Fork?
      ensures var Fork(n, l, r, _) := t;
              var m := l.right;
              && n != l.node && l.node != m.node && m.node != n
              && {n, l.node, m.node} !! Nodes(l.left) + Nodes(m.left) + Nodes(m.right) + Nodes(r)
              && {n, l.node, m.node} <= Nodes(t)
    {
      var l, m := t.left, t.left.right;
      assert Distinct(l) && Distinct(m);
      assert Nodes(l) == {l.node} + Nodes(l.left) + Nodes(m);
      assert Nodes(m) == {m.node} + Nodes(m.left) + Nodes(m.right);
    }

    lemma {:induction false} DistinctInnerRight(t: Tree)
      requires Distinct(t) && t.Fork? && t.right.Fork? && t.right.left.Fork?
      ensures var Fork(n, l, r, _) := t;
              var m := r.left;
              && n != r.node && r.node != m.node && m.node != n
              && {n, r.node, m.node} !! Nodes(l) + Nodes(m.left) + Nodes(m.right) + Nodes(r.right)
              && {n, r.node, m.node} <= Nodes(t)
    {
      var r, m := t.right, t.right.left;
      assert Distinct(r) && Distinct(m);
      assert Nodes(r) == {r.node} + Nodes(m) + Nodes(r.right);
      assert Nodes(m) == {m.node} + Nodes(m.left) + Nodes(m.right);
    }

    /** The memory is the tree at the place p with the subtree t there. */
    ghost predicate LinkedAt(p: Path, t: Tree)
      reads this, PathNodes(p), Nodes(t)
    {
      LinkedAround(p, TopOf(t)) && Linked(TopOf(t), t)
    }

    /** A subtree whose height is within one of what fits the place p. */
    ghost predicate NearlyBalanced(p: Path, t: Tree, fits: nat) {
      && Balanced(t) && Fits(p, fits) && HeightOf(t) <= fits + 1 && fits <= HeightOf(t) + 1
      && Sorted(Around(p, t))
    }

    lemma {:induction false} OneUp(p: Path, t: Tree, fits: nat)
      requires !p.Top? && NearlyBalanced(p, t, fits) && LinkedAt(p, t)
      ensures var g := Grown(p, t);
              && LinkedAt(p.up, g) && g.Fork? && Balanced(g.left) && Balanced(g.right) && Apart(p.up, g)
              && NearlyBalanced(p.up, Rebalanced(g), p.h)
              && Around(p.up, Rebalanced(g)) == Around(p, t) && g.h == p.h
              && PathNodes(p.up) + Nodes(g) == PathNodes(p) + Nodes(t)
              && Nodes(Rebalanced(g)) == Nodes(g) && Rebalanced(g).Fork?
    {
      hide Inorder, Before, After, Sorted;
      var g := Grown(p, t);
      AroundUp(p, t);
      SortedIsApart(p.up, g);
      RebalancedBalanced(g);
      RebalancedInorder(g);
      RebalancedNodes(g);
      RebalancedCases(g);
    }

    lemma {:induction false} SortedResult(p: Path, t: Tree, fits: nat)
      requires NearlyBalanced(p, t, fits)
      ensures Sorted(Around(p, t))
    {
    }

    lemma {:induction false} Restored(p: Path, t: Tree)
      requires LinkedAt(p, t) && NearlyBalanced(p, t, HeightOf(t))
      ensures var whole := Plug(p, t);
              Linked(root, whole) && Balanced(whole) && Inorder(whole) == Around(p, t)
    {
      hide Inorder, Sorted;
      PlugLinked(p, t);
      LinkHolds(p, TopOf(t));
      PlugBalanced(p, t);
      PlugInorder(p, t);
    }

    /** AVLRebalance: rewinds the stack, stopping early where the height is right. */
    method Rebalance(stack: array<Link>, cEntries: nat, ghost p0: Path, ghost t0: Tree, ghost h0: nat)
        returns (ghost whole: Tree)
      requires cEntries == Depth(p0) <= stack.Length && stack[..cEntries] == Links(p0)
      requires LinkedAt(p0, t0) && NearlyBalanced(p0, t0, h0)
      modifies this, Nodes(t0), PathNodes(p0)
      ensures Linked(root, whole) && Balanced(whole) && Inorder(whole) == Around(p0, t0) && Sorted(Inorder(whole))
    {
      hide *;
      SortedResult(p0, t0, h0);
      ghost var p, t, h := p0, t0, h0;
      var c := cEntries;
      var done := false;
      while c > 0 && !done
        invariant c == Depth(p) <= stack.Length && stack[..c] == Links(p)
        invariant LinkedAt(p, t) && NearlyBalanced(p, t, h) && Around(p, t) == Around(p0, t0)
        invariant PathNodes(p) + Nodes(t) == PathNodes(p0) + Nodes(t0)
        invariant done ==> HeightOf(t) == h
        decreases c
      {
        LastLink(p);
        OneUp(p, t, h);
        c := c - 1;
        assert stack[..c] == stack[..c + 1][..c];
        done := BalanceNode(stack[c], p.up, Grown(p, t));
        h := p.h;
        t := Rebalanced(Grown(p, t));
        p := p.up;
      }
      AtTheTop(p, t, h, done);
      Restored(p, t);
      whole := Plug(p, t);
    }

    lemma {:induction false} LastLink(p: Path)
      requires Depth(p) > 0
      ensures !p.Top? && Depth(p.up) == Depth(p) - 1 && Links(p) == Links(p.up) + [LinkOf(p.up)]
    {
    }

    lemma {:induction false} AtTheTop(p: Path, t: Tree, h: nat, done: bool)
      requires NearlyBalanced(p, t, h) && (done ==> HeightOf(t) == h) && (Depth(p) == 0 || done)
      ensures NearlyBalanced(p, t, HeightOf(t))
    {
    }

    // ----- The tree ---------------------------------------------------------------

    /** The tree the memory holds. */
    ghost var tree: Tree

    ghost predicate Valid()
      reads this, Nodes(tree)
    {
      Linked(root, tree) && Balanced(tree) && Sorted(Inorder(tree))
    }

    /** The nodes in the order of their keys. */
    ghost function Contents(): seq<Node>
      reads `tree
    {
      Inorder(tree)
    }

    /** All that is left of the search for key is the subtree t at the place p. */
    ghost predicate Narrowed(p: Path, t: Tree, key: Key)
      reads this, PathNodes(p), Nodes(t)
    {
      && LinkedAt(p, t) && Plug(p, t) == tree && Balanced(t) && Fits(p, HeightOf(t))
      && (forall n :: n in Before(p) ==> n.Key < key) && (forall n :: n in After(p) ==> key < n.Key)
      && Sorted(Around(p, t)) && Depth(p) + HeightOf(t) <= AVL_MAX_HEIGHT
    }

    lemma {:induction false} NarrowedAtTop(key: Key)
      requires Valid() && HeightOf(tree) <= AVL_MAX_HEIGHT
      ensures Narrowed(Top, tree, key)
    {
      assert Around(Top, tree) == Inorder(tree);
    }

    lemma {:induction false} GoLeft(p: Path, t: Tree, key: Key)
      requires Narrowed(p, t, key) && t.Fork? && key < t.node.Key
      ensures Narrowed(InLeft(t.node, t.h, t.right, p), t.left, key)
      ensures t.node.pLeft == TopOf(t.left)
    {
      LinkedFork(t.node, t);
      var q := InLeft(t.node, t.h, t.right, p);
      AroundUp(q, t.left);
      KeysAround(p, t, key);
      hide Inorder, Sorted, Around, Plug, Linked, Max;
    }

    lemma {:induction false} GoRight(p: Path, t: Tree, key: Key)
      requires Narrowed(p, t, key) && t.Fork? && t.node.Key < key
      ensures Narrowed(InRight(t.node, t.h, t.left, p), t.right, key)
      ensures t.node.pRight == TopOf(t.right)
    {
      LinkedFork(t.node, t);
      var q := InRight(t.node, t.h, t.left, p);
      AroundUp(q, t.right);
      KeysAround(p, t, key);
      hide Inorder, Sorted, Around, Plug, Linked, Max;
    }

    /** Where the link of the place leads. */
    lemma {:induction false} LinkLeads(p: Path, t: Tree, key: Key)
      requires Narrowed(p, t, key)
      ensures LinkOf(p).Root? || LinkOf(p).node in PathNodes(p)
      ensures Get(LinkOf(p)) == TopOf(t)
      ensures t.Fork? ==> Depth(p) < AVL_MAX_HEIGHT && t.node in Nodes(t)
      ensures PathNodes(p) + Nodes(t) == Nodes(tree) && Apart(p, t) && LinkedAt(p, t)
    {
      LinkHolds(p, TopOf(t));
      PlugNodes(p, t);
      SortedIsApart(p, t);
    }

    method Attach(link: Link, pNode: Node, ghost p: Path)
      requires link == LinkOf(p) && DistinctPath(p) && LinkedAround(p, null) && pNode !in PathNodes(p)
      modifies pNode, if link.Root? then {this as object} else {link.node}
      ensures LinkedAt(p, Fork(pNode, Leaf, Leaf, 1)) && tree == old(tree)
    {
      PathAllocated(p);
      pNode.pLeft, pNode.pRight := null, null;
      pNode.uchHeight := 1;
      match link
      case Root =>
        root := pNode;
      case LeftOf(m) =>
        assert m !in PathNodes(p.up) && m !in Nodes(p.other);
        m.pLeft := pNode;
      case RightOf(m) =>
        assert m !in PathNodes(p.up) && m !in Nodes(p.other);
        m.pRight := pNode;
    }

    lemma {:induction false} LeafIsNew(p: Path, pNode: Node)
      requires Narrowed(p, Leaf, pNode.Key)
      ensures NearlyBalanced(p, Fork(pNode, Leaf, Leaf, 1), 0)
      ensures Around(p, Leaf) == Inorder(tree) == Before(p) + After(p)
      ensures Around(p, Fork(pNode, Leaf, Leaf, 1)) == Before(p) + [pNode] + After(p)
      ensures forall n :: n in Inorder(tree) ==> n.Key != pNode.Key
    {
      var a, b := Before(p), After(p);
      PlugInorder(p, Leaf);
      assert a + [] + b == a + b;
      assert Inorder(Fork(pNode, Leaf, Leaf, 1)) == [pNode];
      hide Inorder, Sorted;
      SortedAround(a, pNode, b);
    }

    lemma {:induction false} SortedAround(a: seq<Node>, n: Node, b: seq<Node>)
      requires Sorted(a + b) && (forall m :: m in a ==> m.Key < n.Key) && (forall m :: m in b ==> n.Key < m.Key)
      ensures Sorted(a + [n] + b) && forall m :: m in a + b ==> m.Key != n.Key
    {
      assert forall i :: 0 <= i < |a| ==> (a + b)[i] == a[i];
      assert forall i :: 0 <= i < |b| ==> (a + b)[|a| + i] == b[i];
      SortedParts(a, n, b);
    }

    /** AVLInsert. */
    method Insert(pNode: Node) returns (inserted: bool)
      requires Valid() && HeightOf(tree) <= AVL_MAX_HEIGHT && pNode !in Nodes(tree)
      modifies this, Nodes(tree), pNode
      ensures Valid()
      ensures inserted <==> forall n :: n in old(Contents()) ==> n.Key != pNode.Key
      ensures !inserted ==> tree == old(tree) && root == old(root)
      ensures inserted ==> OneLess(Contents(), pNode, old(Contents()))
    {
      hide *;
      NodesAllocated(tree);
      var stack := new Link[AVL_MAX_HEIGHT];
      var c := 0;
      var key := pNode.Key;
      var link := Root;
      ghost var p, t := Top, tree;
      NarrowedAtTop(key);
      LinkLeads(p, t, key);
      TopFacts();
      while Get(link) != null
        invariant Narrowed(p, t, key) && link == LinkOf(p)
        invariant c == Depth(p) <= AVL_MAX_HEIGHT && stack[..c] == Links(p)
        invariant Get(link) == TopOf(t)
        modifies stack
        decreases t
      {
        var pCurNode := Get(link);
        TopOfFork(t);
        LinkLeads(p, t, key);
        stack[c] := link;
        c := c + 1;
        assert stack[..c] == Links(p) + [link];
        if pCurNode.Key == key {
          InContents(p, t, key);
          return false;
        }
        if pCurNode.Key > key {
          GoLeft(p, t, key);
          link := LeftOf(pCurNode);
          p, t := InLeft(t.node, t.h, t.right, p), t.left;
        } else {
          GoRight(p, t, key);
          link := RightOf(pCurNode);
          p, t := InRight(t.node, t.h, t.left, p), t.right;
        }
        LinksDown(p);
        LinkLeads(p, t, key);
      }
      LeafHere(p, t, pNode);
      Attach(link, pNode, p);
      ghost var t0 := Fork(pNode, Leaf, Leaf, 1);
      AddedNodes(p, pNode);
      ghost var whole := Rebalance(stack, c, p, t0, 0);
      Publish(whole);
      inserted := true;
    }

    ghost method Publish(whole: Tree)
      requires Linked(root, whole) && Balanced(whole) && Sorted(Inorder(whole))
      modifies `tree
      ensures Valid() && Contents() == Inorder(whole)
    {
      NodesAllocated(whole);
      tree := whole;
    }

    lemma {:induction false} LeafHere(p: Path, t: Tree, pNode: Node)
      requires Narrowed(p, t, pNode.Key) && TopOf(t) == null && pNode !in Nodes(tree)
      ensures t == Leaf && DistinctPath(p) && LinkedAround(p, null) && pNode !in PathNodes(p)
      ensures PathNodes(p) <= Nodes(tree) && Contents() == Before(p) + After(p)
      ensures LinkOf(p).Root? || LinkOf(p).node in Nodes(tree)
      ensures NearlyBalanced(p, Fork(pNode, Leaf, Leaf, 1), 0)
      ensures Around(p, Fork(pNode, Leaf, Leaf, 1)) == Before(p) + [pNode] + After(p)
      ensures forall n :: n in Contents() ==> n.Key != pNode.Key
      ensures OneLess(Around(p, Fork(pNode, Leaf, Leaf, 1)), pNode, Contents())
    {
      LinkLeads(p, t, pNode.Key);
      LeafIsNew(p, pNode);
      OneLessFrom(Before(p), pNode, After(p));
    }

    lemma {:induction false} AddedNodes(p: Path, pNode: Node)
      ensures Nodes(Fork(pNode, Leaf, Leaf, 1)) == {pNode}
    {
    }

    lemma {:induction false} TopFacts()
      ensures Depth(Top) == 0 && Links(Top) == [] && LinkOf(Top) == Root
    {
    }

    lemma {:induction false} TopOfFork(t: Tree)
      requires TopOf(t) != null
      ensures t.Fork? && t.node == TopOf(t)
    {
    }

    lemma {:induction false} LinksDown(p: Path)
      requires !p.Top?
      ensures Depth(p) == Depth(p.up) + 1 && Links(p) == Links(p.up) + [LinkOf(p.up)]
      ensures LinkOf(p) == if p.InLeft? then LeftOf(p.parent) else RightOf(p.parent)
    {
    }

    lemma {:induction false} InContents(p: Path, t: Tree, key: Key)
      requires Narrowed(p, t, key) && t.Fork?
      ensures t.node in Contents()
    {
      PlugInorder(p, t);
    }

    // ----- Removal ------------------------------------------------------------------

    /** A way down along right links inside the subtree whose top node is hook. */
    ghost predicate LinkedSeg(seg: Path, n: Node?, hook: Node?)
      reads PathNodes(seg)
    {
      match seg
      case Top => hook == n
      case InLeft(_, _, _, _) => false
      case InRight(m, h, other, up) =>
        m.pRight == n && m.uchHeight == h && Linked(m.pLeft, other) && LinkedSeg(up, m, hook)
    }

    ghost predicate OnlyRight(seg: Path) {
      match seg
      case Top => true
      case InLeft(_, _, _, _) => false
      case InRight(_, _, _, up) => OnlyRight(up)
    }

    lemma {:induction false} JoinLinked(seg: Path, base: Path, n: Node?, hook: Node?)
      requires LinkedSeg(seg, n, hook) && LinkedAround(base, hook)
      ensures LinkedAround(Join(seg, base), n)
    {
      match seg
      case Top =>
      case InRight(m, h, other, up) => JoinLinked(up, base, m, hook);
    }

    /** The links on the way, when the node above the segment is d. */
    ghost function SegLinks(seg: Path, d: Node): (s: seq<Link>)
      ensures |s| == Depth(seg)
    {
      match seg
      case Top => []
      case InLeft(_, _, _, up) => SegLinks(up, d) + [SegLink(up, d)]
      case InRight(_, _, _, up) => SegLinks(up, d) + [SegLink(up, d)]
    }

    ghost function SegLink(seg: Path, d: Node): Link {
      match seg
      case Top => LeftOf(d)
      case InLeft(n, _, _, _) => LeftOf(n)
      case InRight(n, _, _, _) => RightOf(n)
    }

    /** Only the first link of the way names d. */
    lemma {:induction false} SegLinksPatched(seg: Path, d: Node, m: Node)
      ensures Depth(seg) > 0 ==> SegLinks(seg, d)[0 := LeftOf(m)] == SegLinks(seg, m)
      ensures Depth(seg) == 0 ==> SegLinks(seg, d) == SegLinks(seg, m) == []
    {
      if !seg.Top? {
        SegLinksPatched(seg.up, d, m);
      }
    }

    lemma {:induction false} JoinLinks(seg: Path, d: Node, h: nat, r: Tree, p: Path)
      ensures Links(Join(seg, InLeft(d, h, r, p))) == Links(p) + [LinkOf(p)] + SegLinks(seg, d)
      ensures LinkOf(Join(seg, InLeft(d, h, r, p))) == SegLink(seg, d)
    {
      var base := InLeft(d, h, r, p);
      if seg.Top? {
        assert Links(p) + [LinkOf(p)] + [] == Links(p) + [LinkOf(p)];
      } else {
        JoinLinks(seg.up, d, h, r, p);
        var a, b := Links(p) + [LinkOf(p)], SegLinks(seg.up, d);
        assert a + b + [SegLink(seg.up, d)] == a + (b + [SegLink(seg.up, d)]);
      }
    }

    /** The node m at the end of the way gives its place to its left child. */
    method UnlinkLast(ppLeftLeast: Link, m: Node, pDelete: Node, ghost seg: Path, ghost s: Tree)
      requires s.Fork? && s.right == Leaf && Linked(m, s) && OnlyRight(seg) && Distinct(s) && DistinctPath(seg)
      requires LinkedSeg(seg, m, pDelete.pLeft) && ppLeftLeast == SegLink(seg, pDelete)
      requires pDelete !in PathNodes(seg) + Nodes(s) && PathNodes(seg) !! Nodes(s)
      modifies ppLeftLeast.node
      ensures LinkedSeg(seg, TopOf(s.left), pDelete.pLeft) && Linked(TopOf(s.left), s.left)
      ensures pDelete.pRight == old(pDelete.pRight) && pDelete.uchHeight == old(pDelete.uchHeight)
    {
      NodesAllocated(s);
      PathAllocated(seg);
      LinkedFork(m, s);
      match ppLeftLeast
      case LeftOf(n) =>
        n.pLeft := m.pLeft;
      case RightOf(n) =>
        assert n !in PathNodes(seg.up) && n !in Nodes(seg.other);
        n.pRight := m.pLeft;
    }

    /** The node m gets the children and the height of pDelete. */
    method CopyLinks(m: Node, pDelete: Node, ghost p: Path, ghost r: Tree, ghost seg: Path, ghost hole: Tree)
      requires LinkedAround(p, pDelete) && m != pDelete
      requires LinkedSeg(seg, TopOf(hole), pDelete.pLeft) && Linked(TopOf(hole), hole) && Linked(pDelete.pRight, r)
      requires m !in PathNodes(p) && m !in PathNodes(seg) && m !in Nodes(hole) && m !in Nodes(r)
      modifies m
      ensures m.pRight == old(pDelete.pRight) && m.uchHeight == old(pDelete.uchHeight)
      ensures LinkedAround(p, pDelete) && Linked(m.pRight, r)
      ensures LinkedSeg(seg, TopOf(hole), m.pLeft) && Linked(TopOf(hole), hole)
    {
      m.pLeft := pDelete.pLeft;
      m.pRight := pDelete.pRight;
      m.uchHeight := pDelete.uchHeight;
    }

    /** The link of p leads to m instead. */
    method LeadTo(link: Link, m: Node, ghost was: Node, ghost p: Path, ghost r: Tree, ghost seg: Path, ghost hole: Tree)
      requires link == LinkOf(p) && LinkedAround(p, was) && DistinctPath(p)
      requires LinkedSeg(seg, TopOf(hole), m.pLeft) && Linked(TopOf(hole), hole) && Linked(m.pRight, r)
      requires m !in PathNodes(p) && PathNodes(p) !! PathNodes(seg) && PathNodes(p) !! Nodes(hole) &&
               PathNodes(p) !! Nodes(r)
      modifies if link.Root? then {this as object} else {link.node}
      ensures tree == old(tree)
      ensures LinkedSeg(seg, TopOf(hole), m.pLeft) && Linked(TopOf(hole), hole)
      ensures LinkedAround(InLeft(m, m.uchHeight, r, p), m.pLeft) && m.uchHeight == old(m.uchHeight)
    {
      match link
      case Root =>
        root := m;
      case LeftOf(n) =>
        assert n !in PathNodes(p.up) && n !in Nodes(p.other);
        n.pLeft := m;
      case RightOf(n) =>
        assert n !in PathNodes(p.up) && n !in Nodes(p.other);
        n.pRight := m;
    }

    /** The way along right links to the last node of the left subtree. */
    method FindLast(pDelete: Node, stack: array<Link>, cEntries: nat, ghost l: Tree)
        returns (ppLeftLeast: Link, m: Node, c: nat, ghost seg: Path, ghost s: Tree)
      requires Linked(pDelete.pLeft, l) && l.Fork? && Balanced(l) && Distinct(l) && pDelete !in Nodes(l)
      requires cEntries + HeightOf(l) <= stack.Length
      modifies stack
      ensures OnlyRight(seg) && Plug(seg, s) == l && s.Fork? && s.node == m && s.right == Leaf
      ensures LinkedSeg(seg, m, pDelete.pLeft) && Linked(m, s) && ppLeftLeast == SegLink(seg, pDelete)
      ensures c == cEntries + Depth(seg) < stack.Length
      ensures stack[..cEntries] == old(stack[..cEntries]) && stack[cEntries..c] == SegLinks(seg, pDelete)
    {
      hide Linked, Balanced, Fits, Plug, SegLinks, LinkedSeg, Distinct;
      NodesAllocated(l);
      ppLeftLeast := LeftOf(pDelete);
      seg, s := Top, l;
      SegStart(l, pDelete);
      LinkedFork(pDelete.pLeft, l);
      m := pDelete.pLeft;
      c := cEntries;
      while m.pRight != null
        invariant SegAt(seg, s, l, pDelete, m) && ppLeftLeast == SegLink(seg, pDelete) && OnlyRight(seg)
        invariant c == cEntries + Depth(seg) && Depth(seg) + HeightOf(s) <= HeightOf(l)
        invariant c < stack.Length
        invariant stack[..cEntries] == old(stack[..cEntries]) && stack[cEntries..c] == SegLinks(seg, pDelete)
        modifies stack
        decreases s
      {
        SegDown(seg, s, l, pDelete, m);
        ghost var q, next, right := InRight(m, s.h, s.left, seg), m.pRight, s.right;
        assert SegAt(q, right, l, pDelete, next);
        assert stack as object !in (set n: Node | n in PathNodes(q) :: n as object);
        assert stack as object !in (set n: Node | n in Nodes(right) :: n as object);
        assert stack as object != pDelete as object;
        stack[c] := ppLeftLeast;
        assert SegAt(q, right, l, pDelete, next);
        assert stack[cEntries..c + 1] == stack[cEntries..c] + [ppLeftLeast];
        c := c + 1;
        seg := InRight(m, s.h, s.left, seg);
        s := s.right;
        ppLeftLeast := RightOf(m);
        m := m.pRight;
      }
      LinkedFork(m, s);
      HeightIs(m.pRight, s.right);
    }

    /** The subtree s at the end of the way seg, inside the left subtree l of pDelete. */
    ghost predicate SegAt(seg: Path, s: Tree, l: Tree, pDelete: Node, m: Node)
      reads pDelete, PathNodes(seg), Nodes(s)
    {
      Plug(seg, s) == l && s.Fork? && s.node == m && LinkedSeg(seg, m, pDelete.pLeft) && Linked(m, s) && Balanced(l)
    }

    lemma {:induction false} SegStart(l: Tree, pDelete: Node)
      requires Linked(pDelete.pLeft, l) && l.Fork? && Balanced(l)
      ensures pDelete.pLeft != null && SegAt(Top, l, l, pDelete, pDelete.pLeft) && SegLinks(Top, pDelete) == []
      ensures HeightOf(l) > 0
    {
    }

    lemma {:induction false} SegDown(seg: Path, s: Tree, l: Tree, pDelete: Node, m: Node)
      requires SegAt(seg, s, l, pDelete, m) && m.pRight != null && OnlyRight(seg)
      ensures s.right.Fork? && SegAt(InRight(m, s.h, s.left, seg), s.right, l, pDelete, m.pRight)
      ensures SegLinks(InRight(m, s.h, s.left, seg), pDelete) == SegLinks(seg, pDelete) + [SegLink(seg, pDelete)]
      ensures HeightOf(s) > 1 && Depth(seg) + 1 + HeightOf(s.right) <= HeightOf(l)
    {
      LinkedFork(m, s);
      HeightIs(m.pRight, s.right);
      LinkedFork(m.pRight, s.right);
      var q := InRight(m, s.h, s.left, seg);
      PlugBalanced(q, s.right);
      PlugBalanced(seg, s);
      DepthBound(q, s.right);
    }

    /** The search for a key, remembering the links on the way, the last one included. */
    method FindLink(key: Key, stack: array<Link>)
        returns (link: Link, pNode: Node?, c: nat, ghost p: Path, ghost t: Tree)
      requires Valid() && HeightOf(tree) <= AVL_MAX_HEIGHT && stack.Length == AVL_MAX_HEIGHT
      modifies stack
      ensures Narrowed(p, t, key) && link == LinkOf(p) && pNode == TopOf(t)
      ensures pNode != null ==> pNode.Key == key && c == Depth(p) + 1 <= stack.Length && stack[..c] == Links(p) + [link]
    {
      hide *;
      link, c := Root, 0;
      p, t := Top, tree;
      NarrowedAtTop(key);
      LinkLeads(p, t, key);
      TopFacts();
      while Get(link) != null
        invariant Narrowed(p, t, key) && link == LinkOf(p)
        invariant c == Depth(p) <= stack.Length && stack[..c] == Links(p)
        invariant Get(link) == TopOf(t)
        modifies stack
        decreases t
      {
        pNode := Get(link);
        TopOfFork(t);
        LinkLeads(p, t, key);
        assert stack as object !in (set n: Node | n in PathNodes(p) + Nodes(t) :: n as object) &&
               stack as object != this as object;
        stack[c] := link;
        c := c + 1;
        assert stack[..c] == Links(p) + [link];
        if pNode.Key == key {
          return;
        }
        if pNode.Key > key {
          GoLeft(p, t, key);
          link := LeftOf(pNode);
          p, t := InLeft(t.node, t.h, t.right, p), t.left;
        } else {
          GoRight(p, t, key);
          link := RightOf(pNode);
          p, t := InRight(t.node, t.h, t.left, p), t.right;
        }
        LinksDown(p);
        LinkLeads(p, t, key);
      }
      pNode := null;
    }

    /** The node found has no left child: its right child comes up. */
    lemma {:induction false} RightComesUp(p: Path, t: Tree, key: Key)
      requires Narrowed(p, t, key) && t.Fork? && t.left == Leaf
      ensures NearlyBalanced(p, t.right, t.h)
      ensures var a, b := Before(p), Inorder(t.right) + After(p);
              Inorder(tree) == a + [t.node] + b && Around(p, t.right) == a + b
      ensures OneLess(Contents(), t.node, Around(p, t.right))
    {
      PlugInorder(p, t);
      var a, n, b := Before(p), t.node, Inorder(t.right) + After(p);
      assert Inorder(t) == [n] + Inorder(t.right);
      assert a + ([n] + Inorder(t.right)) + After(p) == a + [n] + b;
      assert a + Inorder(t.right) + After(p) == a + b;
      SortedParts(a, n, b);
      SortedJoin(a, n, b);
      OneLessFrom(a, n, b);
    }

    /** What is found of t, when s is the end of its left subtree. */
    ghost predicate AtTheEnd(t: Tree, seg: Path, s: Tree) {
      t.Fork? && t.left == Plug(seg, s) && OnlyRight(seg) && s.Fork? && s.right == Leaf
    }

    /** The node found has a left child: the last node m on its left takes its place. */
    lemma {:induction false} PredecessorComesUp(p: Path, t: Tree, key: Key, seg: Path, s: Tree)
      requires Narrowed(p, t, key) && AtTheEnd(t, seg, s)
      ensures var q := Join(seg, InLeft(s.node, t.h, t.right, p));
              && NearlyBalanced(q, s.left, s.h)
              && Depth(q) == Depth(p) + 1 + Depth(seg)
              && var a, b := Before(p) + Before(seg) + Inorder(s.left) + [s.node], Inorder(t.right) + After(p);
                 Contents() == a + [t.node] + b && Around(q, s.left) == a + b
      ensures OneLess(Contents(), t.node, Around(Join(seg, InLeft(s.node, t.h, t.right, p)), s.left))
    {
      hide *;
      NarrowedFacts(p, t, key);
      EndFacts(t, seg, s);
      EndOrder(t, seg, s);
      SwappedOrder(p, t, seg, s);
      PredecessorFits(p, t, seg, s);
      PlugInorder(p, t);
      var q := Join(seg, InLeft(s.node, t.h, t.right, p));
      JoinDepth(seg, s.node, t.h, t.right, p);
      var a, b := Before(p) + Before(seg) + Inorder(s.left) + [s.node], Inorder(t.right) + After(p);
      Regrouped(Before(p), Before(seg) + Inorder(s.left) + [s.node], t.node, Inorder(t.right), After(p));
      Regroup4(Before(p), Before(seg), Inorder(s.left), [s.node]);
      SortedJoin(a, t.node, b);
      OneLessFrom(a, t.node, b);
      NearlyFrom(q, s.left, s.h);
    }

    lemma {:induction false} NearlyFrom(q: Path, t: Tree, h: nat)
      requires Balanced(t) && Fits(q, h) && HeightOf(t) + 1 == h && Sorted(Around(q, t))
      ensures NearlyBalanced(q, t, h)
    {
    }

    lemma {:induction false} NarrowedFacts(p: Path, t: Tree, key: Key)
      requires Narrowed(p, t, key)
      ensures Balanced(t) && Fits(p, HeightOf(t)) && Contents() == Inorder(Plug(p, t)) && Sorted(Contents())
    {
      PlugInorder(p, t);
    }

    lemma {:induction false} EndFacts(t: Tree, seg: Path, s: Tree)
      requires AtTheEnd(t, seg, s)
      ensures t.Fork? && t.left == Plug(seg, s) && OnlyRight(seg) && s.Fork? && s.right == Leaf
    {
    }

    lemma {:induction false} JoinDepth(seg: Path, m: Node, h: nat, r: Tree, p: Path)
      ensures Depth(Join(seg, InLeft(m, h, r, p))) == Depth(p) + 1 + Depth(seg)
    {
      JoinPlug(seg, InLeft(m, h, r, p), Leaf);
    }

    lemma {:induction false} EndOrder(t: Tree, seg: Path, s: Tree)
      requires AtTheEnd(t, seg, s)
      ensures Inorder(t) == (Before(seg) + Inorder(s.left) + [s.node]) + [t.node] + Inorder(t.right)
    {
      PlugInorder(seg, s);
      NothingAfter(seg);
      assert Inorder(s) == Inorder(s.left) + [s.node] + [];
      assert Inorder(t.left) == Before(seg) + Inorder(s.left) + [s.node];
    }

    lemma {:induction false} SwappedOrder(p: Path, t: Tree, seg: Path, s: Tree)
      requires AtTheEnd(t, seg, s)
      ensures Around(Join(seg, InLeft(s.node, t.h, t.right, p)), s.left)
           == (Before(p) + Before(seg) + Inorder(s.left) + [s.node]) + (Inorder(t.right) + After(p))
    {
      hide *;
      EndFacts(t, seg, s);
      var base := InLeft(s.node, t.h, t.right, p);
      JoinPlug(seg, base, s.left);
      NothingAfter(seg);
      BaseOrder(s.node, t.h, t.right, p);
      AroundIs(Join(seg, base), s.left);
      Swapped(Before(p), Before(seg), Inorder(s.left), s.node, Inorder(t.right), After(p));
    }

    lemma {:induction false} BaseOrder(m: Node, h: nat, r: Tree, p: Path)
      ensures Before(InLeft(m, h, r, p)) == Before(p) && After(InLeft(m, h, r, p)) == [m] + Inorder(r) + After(p)
    {
    }

    lemma {:induction false} AroundIs(p: Path, t: Tree)
      ensures Around(p, t) == Before(p) + Inorder(t) + After(p)
    {
    }

    lemma {:induction false} PredecessorFits(p: Path, t: Tree, seg: Path, s: Tree)
      requires Balanced(t) && Fits(p, HeightOf(t)) && t.Fork? && t.left == Plug(seg, s)
      requires OnlyRight(seg) && s.Fork? && s.right == Leaf
      ensures Balanced(s.left) && HeightOf(s.left) + 1 == s.h
      ensures Fits(Join(seg, InLeft(s.node, t.h, t.right, p)), s.h)
    {
      hide Inorder, Sorted;
      var q := Join(seg, InLeft(t.node, t.h, t.right, p));
      JoinPlug(seg, InLeft(t.node, t.h, t.right, p), s);
      PlugBalanced(p, t);
      PlugBalanced(q, s);
      JoinFits(seg, t.node, s.node, t.h, t.right, p, s.h);
    }

    lemma {:induction false} NothingAfter(seg: Path)
      requires OnlyRight(seg)
      ensures After(seg) == []
    {
      if !seg.Top? {
        NothingAfter(seg.up);
      }
    }

    /** Which nodes are which, when the node found is to be replaced. */
    lemma {:induction false} DeletionApart(p: Path, t: Tree, key: Key, seg: Path, s: Tree)
      requires Narrowed(p, t, key) && AtTheEnd(t, seg, s)
      ensures PathNodes(p) + Nodes(t) == Nodes(tree) && DistinctPath(p) && LinkedAround(p, t.node)
      ensures Nodes(t) == {t.node} + PathNodes(seg) + Nodes(s) + Nodes(t.right)
      ensures PathNodes(p) !! Nodes(t) && Apart(seg, s)
      ensures t.node !in PathNodes(seg) + Nodes(s) + Nodes(t.right)
      ensures Nodes(t.right) !! PathNodes(seg) + Nodes(s)
      ensures LinkOf(p).Root? || LinkOf(p).node in PathNodes(p)
    {
      LinkLeads(p, t, key);
      PlugNodes(seg, s);
      PlugDistinct(seg, s);
    }

    lemma {:induction false} EndNode(s: Tree, p: Path, m: Node, h: nat, r: Tree)
      requires s.Fork? && s.right == Leaf && Distinct(s)
      ensures s.node !in Nodes(s.left) && Nodes(s) == {s.node} + Nodes(s.left)
      ensures PathNodes(InLeft(m, h, r, p)) == {m} + Nodes(r) + PathNodes(p)
    {
    }

    lemma {:induction false} NotANode(stack: array<Link>, nodes: set<Node>)
      ensures stack as object !in (set n: Node | n in nodes :: n as object) && stack as object != this as object
    {
    }

    lemma {:induction false} LeftThere(p: Path, t: Tree, key: Key, pDelete: Node)
      requires Narrowed(p, t, key) && t.Fork? && pDelete == t.node && pDelete.pLeft != null
      ensures Linked(pDelete.pLeft, t.left) && t.left.Fork? && Balanced(t.left) && Distinct(t.left)
      ensures pDelete !in Nodes(t.left)
      ensures Depth(p) + 1 + HeightOf(t.left) <= AVL_MAX_HEIGHT
    {
      LinkLeads(p, t, key);
      LinkedFork(pDelete, t);
      HeightIs(pDelete.pLeft, t.left);
    }

    lemma {:induction false} RightThere(p: Path, t: Tree, key: Key, pDelete: Node)
      requires Narrowed(p, t, key) && t.Fork? && pDelete == t.node
      ensures Linked(pDelete.pRight, t.right) && pDelete.uchHeight == t.h
    {
      LinkedFork(pDelete, t);
    }

    lemma {:induction false} SegOwner(seg: Path, d: Node)
      ensures !SegLink(seg, d).Root? && SegLink(seg, d).node in {d} + PathNodes(seg)
    {
    }

    lemma {:induction false} AtEnd(t: Tree, seg: Path, s: Tree)
      requires t.Fork? && t.left == Plug(seg, s) && OnlyRight(seg) && s.Fork? && s.right == Leaf
      ensures AtTheEnd(t, seg, s)
    {
    }

    lemma {:induction false} ApartParts(p: Path, t: Tree)
      requires Apart(p, t)
      ensures Distinct(t) && DistinctPath(p) && PathNodes(p) !! Nodes(t)
    {
    }

    lemma {:induction false} LinkedAtFrom(p: Path, t: Tree)
      requires LinkedAround(p, TopOf(t)) && Linked(TopOf(t), t)
      ensures LinkedAt(p, t)
    {
    }

    lemma {:induction false} JoinNodes(seg: Path, base: Path)
      ensures PathNodes(Join(seg, base)) == PathNodes(seg) + PathNodes(base)
    {
      JoinPlug(seg, base, Leaf);
    }

    /** The patched entry turns the links below the deleted node into those below its successor. */
    lemma {:induction false} PatchedLinks(was: seq<Link>, now: seq<Link>, i: nat, seg: Path, d: Node, m: Node, t: Tree,
        p: Path)
      requires t.Fork? && i == Depth(p) + 1 <= |was| && |now| == |was|
      requires was[..i] == Links(p) + [LinkOf(p)] && was[i..] == SegLinks(seg, d)
      requires now[..i] == was[..i] && (i < |was| ==> now[i] == LeftOf(m) && now[i + 1..] == was[i + 1..])
      ensures now == Links(Join(seg, InLeft(m, t.h, t.right, p)))
    {
      hide *;
      JoinLinks(seg, m, t.h, t.right, p);
      SegLinksPatched(seg, d, m);
      assert now == now[..i] + now[i..];
      assert Depth(seg) == |was| - i by {
        assert |SegLinks(seg, d)| == Depth(seg);
      }
      if i < |was| {
        assert now[i..] == was[i..][0 := LeftOf(m)];
      } else {
        assert now[i..] == was[i..];
      }
    }

    /** The node at the end of the way is linked out and linked in where the node found was. */
    method Replace(link: Link, ppLeftLeast: Link, pLeftLeast: Node, pDelete: Node, key: Key,
                   ghost p: Path, ghost t: Tree, ghost seg: Path, ghost s: Tree) returns (ghost q: Path)
      requires Narrowed(p, t, key) && AtTheEnd(t, seg, s) && pDelete == t.node && link == LinkOf(p)
      requires LinkedSeg(seg, pLeftLeast, pDelete.pLeft) && Linked(pLeftLeast, s)
      requires ppLeftLeast == SegLink(seg, pDelete)
      requires pLeftLeast == s.node
      modifies this, Nodes(tree)
      ensures tree == old(tree) && PathNodes(q) + Nodes(s.left) <= Nodes(tree)
      ensures q == Join(seg, InLeft(pLeftLeast, t.h, t.right, p)) && LinkedAt(q, s.left)
    {
      hide *;
      PathAllocated(p);
      NodesAllocated(t);
      EndFacts(t, seg, s);
      DeletionApart(p, t, key, seg, s);
      ApartParts(seg, s);
      EndNode(s, p, pLeftLeast, t.h, t.right);
      SegOwner(seg, pDelete);
      RightThere(p, t, key, pDelete);
      NodesAllocated(s);
      PathAllocated(seg);
      NodesAllocated(t.right);
      UnlinkLast(ppLeftLeast, pLeftLeast, pDelete, seg, s);
      CopyLinks(pLeftLeast, pDelete, p, t.right, seg, s.left);
      LeadTo(link, pLeftLeast, pDelete, p, t.right, seg, s.left);
      ghost var base := InLeft(pLeftLeast, t.h, t.right, p);
      q := Join(seg, base);
      JoinLinked(seg, base, TopOf(s.left), pLeftLeast.pLeft);
      LinkedAtFrom(q, s.left);
      JoinNodes(seg, base);
    }

    /** The place of the node found is taken by the last node of its left subtree. */
    method TakePredecessor(link: Link, pDelete: Node, stack: array<Link>, iStackEntry: nat, key: Key, ghost p: Path,
        ghost t: Tree)
        returns (c: nat, ghost q: Path, ghost hole: Tree, ghost fits: nat)
      requires Narrowed(p, t, key) && t.Fork? && pDelete == t.node && pDelete.pLeft != null && link == LinkOf(p)
      requires iStackEntry == Depth(p) + 1 <= stack.Length == AVL_MAX_HEIGHT
      requires stack[..iStackEntry] == Links(p) + [link]
      modifies this, Nodes(tree), stack
      ensures tree == old(tree) && PathNodes(q) + Nodes(hole) <= Nodes(tree)
      ensures LinkedAt(q, hole) && NearlyBalanced(q, hole, fits)
      ensures c == Depth(q) <= stack.Length && stack[..c] == Links(q)
      ensures OneLess(Contents(), pDelete, Around(q, hole))
    {
      hide *;
      LeftThere(p, t, key, pDelete);
      var ppLeftLeast, pLeftLeast;
      ghost var seg, s;
      PathAllocated(p);
      NodesAllocated(t);
      NotANode(stack, PathNodes(p) + Nodes(t));
      ppLeftLeast, pLeftLeast, c, seg, s := FindLast(pDelete, stack, iStackEntry, t.left);
      assert Narrowed(p, t, key);
      AtEnd(t, seg, s);
      EndFacts(t, seg, s);
      PredecessorComesUp(p, t, key, seg, s);
      q := Replace(link, ppLeftLeast, pLeftLeast, pDelete, key, p, t, seg, s);
      hole, fits := s.left, s.h;
      NotANode(stack, PathNodes(q) + Nodes(hole));
      PathAllocated(q);
      NodesAllocated(hole);
      ghost var was := stack[..c];
      stack[iStackEntry] := LeftOf(pLeftLeast);
      assert was[..iStackEntry] == Links(p) + [link];
      PatchedLinks(was, stack[..c], iStackEntry, seg, pDelete, pLeftLeast, t, p);
    }

    /** AVLRemove. */
    method Remove(key: Key) returns (pDelete: Node?)
      requires Valid() && HeightOf(tree) <= AVL_MAX_HEIGHT
      modifies this, Nodes(tree)
      ensures Valid()
      ensures pDelete == null <==> forall n :: n in old(Contents()) ==> n.Key != key
      ensures pDelete == null ==> tree == old(tree) && root == old(root)
      ensures pDelete != null ==> pDelete.Key == key
                                  && OneLess(old(Contents()), pDelete, Contents())
    {
      hide *;
      NodesAllocated(tree);
      var stack := new Link[AVL_MAX_HEIGHT];
      var link, c;
      ghost var p, t;
      link, pDelete, c, p, t := FindLink(key, stack);
      LinkLeads(p, t, key);
      if pDelete != null {
        TopOfFork(t);
        InContents(p, t, key);
        ghost var q, hole, fits;
        if pDelete.pLeft != null {
          c, q, hole, fits := TakePredecessor(link, pDelete, stack, c, key, p, t);
        } else {
          q, hole, fits := TakeRight(link, pDelete, p, t, key);
          c := c - 1;
          assert stack[..c] == Links(p);
        }
        ghost var whole := Rebalance(stack, c, q, hole, fits);
        Publish(whole);
      } else {
        NotThere(p, t, key);
      }
    }

    /** Without a left subtree, the right one takes the place of the node found. */
    method TakeRight(link: Link, pDelete: Node, ghost p: Path, ghost t: Tree, key: Key)
        returns (ghost q: Path, ghost hole: Tree, ghost fits: nat)
      requires Narrowed(p, t, key) && t.Fork? && pDelete == t.node && pDelete.pLeft == null && link == LinkOf(p)
      modifies if link.Root? then {this as object} else {link.node}
      ensures tree == old(tree) && PathNodes(q) + Nodes(hole) <= Nodes(tree)
      ensures LinkedAt(q, hole) && NearlyBalanced(q, hole, fits) && q == p
      ensures OneLess(Contents(), pDelete, Around(q, hole))
    {
      hide *;
      LinkLeads(p, t, key);
      ApartParts(p, t);
      LinkedParts(p, t);
      NoLeft(p, t, key, pDelete);
      RightComesUp(p, t, key);
      NodesAllocated(t.right);
      q, hole, fits := p, t.right, t.h;
      SetAt(link, pDelete.pRight, p, pDelete);
      LinkedAtFrom(p, hole);
    }

    lemma {:induction false} LinkedParts(p: Path, t: Tree)
      requires LinkedAt(p, t)
      ensures LinkedAround(p, TopOf(t)) && Linked(TopOf(t), t)
    {
    }

    lemma {:induction false} NoLeft(p: Path, t: Tree, key: Key, pDelete: Node)
      requires Narrowed(p, t, key) && t.Fork? && pDelete == t.node && pDelete.pLeft == null
      ensures t.left == Leaf && pDelete.pRight == TopOf(t.right) && Linked(pDelete.pRight, t.right)
      ensures TopOf(t) == pDelete
      ensures Nodes(t.right) <= Nodes(t)
    {
      LinkedFork(pDelete, t);
      HeightIs(pDelete.pLeft, t.left);
    }

    lemma {:induction false} NotThere(p: Path, t: Tree, key: Key)
      requires Narrowed(p, t, key) && TopOf(t) == null
      ensures forall n :: n in Contents() ==> n.Key != key
    {
      PlugInorder(p, t);
    }
  }

  lemma {:induction false} Regrouped(p: seq<Node>, x: seq<Node>, n: Node, r: seq<Node>, z: seq<Node>)
    ensures p + (x + [n] + r) + z == (p + x) + [n] + (r + z)
  {
  }

  lemma {:induction false} Swapped(p: seq<Node>, x: seq<Node>, y: seq<Node>, m: Node, r: seq<Node>, z: seq<Node>)
    ensures (p + x) + y + ([] + ([m] + r + z)) == (p + x + y + [m]) + (r + z)
  {
  }

  lemma {:induction false} Regroup4(a: seq<Node>, b: seq<Node>, c: seq<Node>, d: seq<Node>)
    ensures a + (b + c + d) == a + b + c + d
  {
  }

  lemma {:induction false} SortedJoin(a: seq<Node>, n: Node, b: seq<Node>)
    requires Sorted(a + [n] + b)
    ensures Sorted(a + b)
  {
    SortedParts(a, n, b);
    forall i, j | 0 <= i < j < |a + b| ensures (a + b)[i].Key < (a + b)[j].Key {
      if i < |a| <= j {
        assert a[i] in a && b[j - |a|] in b;
      }
    }
  }

  /** In a sorted tree everything beyond a node is on the other side of a key. */
  lemma {:induction false} KeysAround(p: Path, t: Tree, key: Key)
    requires t.Fork? && Sorted(Around(p, t))
    ensures key < t.node.Key ==> forall x :: x in [t.node] + Inorder(t.right) + After(p) ==> key < x.Key
    ensures t.node.Key < key ==> forall x :: x in Before(p) + Inorder(t.left) + [t.node] ==> x.Key < key
  {
    hide *;
    var a, b := Before(p) + Inorder(t.left), Inorder(t.right) + After(p);
    ForkAround(p, t);
    SortedParts(a, t.node, b);
    Beside(t.node, Inorder(t.right), After(p), a, b, key);
    Beside(t.node, Before(p), Inorder(t.left), a, b, key);
  }

  lemma {:induction false} ForkAround(p: Path, t: Tree)
    requires t.Fork?
    ensures Around(p, t) == (Before(p) + Inorder(t.left)) + [t.node] + (Inorder(t.right) + After(p))
  {
  }

  /** What is beyond the node is beyond the key. */
  lemma {:induction false} Beside(n: Node, x: seq<Node>, y: seq<Node>, a: seq<Node>, b: seq<Node>, key: Key)
    requires (forall m :: m in a ==> m.Key < n.Key) && (forall m :: m in b ==> n.Key < m.Key)
    ensures b == x + y && key < n.Key ==> forall m :: m in [n] + x + y ==> key < m.Key
    ensures a == x + y && n.Key < key ==> forall m :: m in x + y + [n] ==> m.Key < key
  {
    assert forall m :: m in [n] + x + y ==> m == n || m in x + y;
    assert forall m :: m in x + y + [n] ==> m == n || m in x + y;
  }
}
