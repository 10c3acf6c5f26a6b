/** Binary search trees of nodes, as values: what the linked nodes of the AVL tree stand for. */
module AvlSpec {

  /** Keys are only ever compared. Every countable total order, strcmp's included, can be
      embedded in the reals, so nothing is lost by taking them as keys. */
  type Key = real

  class Node {
    const Key: Key
    var pLeft: Node?
    var pRight: Node?
    var uchHeight: nat

    constructor (key: Key)
      ensures Key == key
    {
      Key := key;
      pLeft, pRight, uchHeight := null, null, 0;
    }
  }

  /** A tree of nodes with the heights stored in them. */
  datatype Tree = Leaf | Fork(node: Node, left: Tree, right: Tree, h: nat)

  ghost function Nodes(t: Tree): set<Node> {
    match t
    case Leaf => {}
    case Fork(n, l, r, _) => {n} + Nodes(l) + Nodes(r)
  }

  /** No node occurs twice. */
  ghost predicate Distinct(t: Tree) {
    match t
    case Leaf => true
    case Fork(n, l, r, _) => n !in Nodes(l) && n !in Nodes(r) && Nodes(l) !! Nodes(r) && Distinct(l) && Distinct(r)
  }

  /** AVL_HEIGHTOF: the stored height, 0 for no node. */
  function HeightOf(t: Tree): nat {
    if t.Leaf? then 0 else t.h
  }

  function Max(a: nat, b: nat): nat {
    if a > b then a else b
  }

  /** Stored heights are exact and differ by at most one at every node. */
  ghost predicate Balanced(t: Tree) {
    match t
    case Leaf => true
    case Fork(_, l, r, h) =>
      && h == 1 + Max(HeightOf(l), HeightOf(r))
      && HeightOf(l) <= HeightOf(r) + 1 && HeightOf(r) <= HeightOf(l) + 1
      && Balanced(l) && Balanced(r)
  }

  ghost function Inorder(t: Tree): seq<Node> {
    match t
    case Leaf => []
    case Fork(n, l, r, _) => Inorder(l) + [n] + Inorder(r)
  }

  /** Keys strictly increase. */
  ghost predicate Sorted(s: seq<Node>) {
    forall i, j :: 0 <= i < j < |s| ==> s[i].Key < s[j].Key
  }

  ghost function Size(t: Tree): nat {
    |Inorder(t)|
  }

  // ----- A place in a tree ----------------------------------------------------

  /** The way from a subtree up to the root. */
  datatype Path =
    | Top
    | InLeft(parent: Node, h: nat, other: Tree, up: Path)
    | InRight(parent: Node, h: nat, other: Tree, up: Path)

  ghost function Plug(p: Path, t: Tree): Tree {
    match p
    case Top => t
    case InLeft(n, h, other, up) => Plug(up, Fork(n, t, other, h))
    case InRight(n, h, other, up) => Plug(up, Fork(n, other, t, h))
  }

  ghost function PathNodes(p: Path): set<Node> {
    match p
    case Top => {}
    case InLeft(n, _, other, up) => {n} + Nodes(other) + PathNodes(up)
    case InRight(n, _, other, up) => {n} + Nodes(other) + PathNodes(up)
  }

  ghost predicate DistinctPath(p: Path) {
    match p
    case Top => true
    case InLeft(n, _, other, up) =>
      n !in Nodes(other) && n !in PathNodes(up) && Nodes(other) !! PathNodes(up) && Distinct(other) && DistinctPath(up)
    case InRight(n, _, other, up) =>
      n !in Nodes(other) && n !in PathNodes(up) && Nodes(other) !! PathNodes(up) && Distinct(other) && DistinctPath(up)
  }

  ghost predicate Apart(p: Path, t: Tree) {
    DistinctPath(p) && Distinct(t) && PathNodes(p) !! Nodes(t)
  }

  ghost function Before(p: Path): seq<Node> {
    match p
    case Top => []
    case InLeft(n, _, other, up) => Before(up)
    case InRight(n, _, other, up) => Before(up) + Inorder(other) + [n]
  }

  ghost function After(p: Path): seq<Node> {
    match p
    case Top => []
    case InLeft(n, _, other, up) => [n] + Inorder(other) + After(up)
    case InRight(n, _, other, up) => After(up)
  }

  ghost function Depth(p: Path): nat {
    match p
    case Top => 0
    case InLeft(_, _, _, up) => 1 + Depth(up)
    case InRight(_, _, _, up) => 1 + Depth(up)
  }

  /** The tree around the place is balanced if the subtree has height h. */
  ghost predicate Fits(p: Path, h: nat) {
    match p
    case Top => true
    case InLeft(_, hp, other, up) =>
      Balanced(other) && hp == 1 + Max(h, HeightOf(other)) && h <= HeightOf(other) + 1 && HeightOf(other) <= h + 1 &&
      Fits(up, hp)
    case InRight(_, hp, other, up) =>
      Balanced(other) && hp == 1 + Max(h, HeightOf(other)) && h <= HeightOf(other) + 1 && HeightOf(other) <= h + 1 &&
      Fits(up, hp)
  }

  lemma {:induction false} InorderFork(n: Node, l: Tree, r: Tree, h: nat)
    ensures Inorder(Fork(n, l, r, h)) == Inorder(l) + [n] + Inorder(r)
  {
  }

  lemma {:induction false} PlugInorder(p: Path, t: Tree)
    ensures Inorder(Plug(p, t)) == Before(p) + Inorder(t) + After(p)
  {
    hide Inorder;
    match p
    case Top =>
    case InLeft(n, h, other, up) =>
      PlugInorder(up, Fork(n, t, other, h));
      InorderFork(n, t, other, h);
      LastToRest(Before(up), Inorder(t), n, Inorder(other), After(up));
    case InRight(n, h, other, up) =>
      PlugInorder(up, Fork(n, other, t, h));
      InorderFork(n, other, t, h);
      FirstToRest(Before(up), Inorder(other), n, Inorder(t), After(up));
  }

  lemma {:induction false} LastToRest<T>(a: seq<T>, b: seq<T>, x: T, c: seq<T>, d: seq<T>)
    ensures a + (b + [x] + c) + d == a + b + ([x] + c + d)
  {
  }

  lemma {:induction false} FirstToRest<T>(a: seq<T>, b: seq<T>, x: T, c: seq<T>, d: seq<T>)
    ensures a + (b + [x] + c) + d == (a + b + [x]) + c + d
  {
  }

  lemma {:induction false} PlugNodes(p: Path, t: Tree)
    ensures Nodes(Plug(p, t)) == PathNodes(p) + Nodes(t)
  {
    match p
    case Top =>
    case InLeft(n, h, other, up) => PlugNodes(up, Fork(n, t, other, h));
    case InRight(n, h, other, up) => PlugNodes(up, Fork(n, other, t, h));
  }

  lemma {:induction false} PlugDistinct(p: Path, t: Tree)
    ensures Distinct(Plug(p, t)) <==> Apart(p, t)
  {
    match p
    case Top =>
    case InLeft(n, h, other, up) => PlugDistinct(up, Fork(n, t, other, h));
    case InRight(n, h, other, up) => PlugDistinct(up, Fork(n, other, t, h));
  }

  lemma {:induction false} PlugBalanced(p: Path, t: Tree)
    ensures Balanced(Plug(p, t)) <==> Balanced(t) && Fits(p, HeightOf(t))
  {
    match p
    case Top =>
    case InLeft(n, h, other, up) => PlugBalanced(up, Fork(n, t, other, h));
    case InRight(n, h, other, up) => PlugBalanced(up, Fork(n, other, t, h));
  }

  /** A balanced tree is at least as high as a place in it is deep. */
  lemma {:induction false} DepthBound(p: Path, t: Tree)
    requires Fits(p, HeightOf(t))
    ensures Depth(p) + HeightOf(t) <= HeightOf(Plug(p, t))
  {
    match p
    case Top =>
    case InLeft(n, h, other, up) => DepthBound(up, Fork(n, t, other, h));
    case InRight(n, h, other, up) => DepthBound(up, Fork(n, other, t, h));
  }

  ghost function Members(s: seq<Node>): set<Node> {
    set n | n in s
  }

  lemma {:induction false} InorderNodes(t: Tree)
    ensures Nodes(t) == Members(Inorder(t))
  {
    match t
    case Leaf =>
    case Fork(n, l, r, _) =>
      InorderNodes(l);
      InorderNodes(r);
  }

  // ----- How high a tree can be -------------------------------------------------

  function Fib(n: nat): nat {
    if n < 2 then n else Fib(n - 1) + Fib(n - 2)
  }

  lemma {:induction false} FibMonotone(m: nat, n: nat)
    requires 1 <= m <= n
    ensures Fib(m) <= Fib(n)
    decreases n
  {
    if m < n {
      FibMonotone(m, n - 1);
    }
  }

  /** A balanced tree of height h has at least Fib(h + 2) - 1 nodes. */
  lemma {:induction false} EnoughNodes(t: Tree)
    requires Balanced(t)
    ensures Size(t) + 1 >= Fib(HeightOf(t) + 2)
  {
    match t
    case Leaf =>
    case Fork(_, l, r, h) =>
      EnoughNodes(l);
      EnoughNodes(r);
      FibMonotone(HeightOf(l) + 2, h + 1);
      FibMonotone(HeightOf(r) + 2, h + 1);
      FibMonotone(h, HeightOf(l) + 2);
      FibMonotone(h, HeightOf(r) + 2);
  }

  const AVL_MAX_HEIGHT: nat := 19

  /** The most nodes for which the stacks are always large enough. */
  const MAX_NODES: nat := 17709

  lemma {:induction false} FibValues()
    ensures Fib(22) == 17711
  {
    assert Fib(10) == 55 && Fib(11) == 89;
    assert Fib(12) == 144 && Fib(13) == 233;
    assert Fib(14) == 377 && Fib(15) == 610;
    assert Fib(16) == 987 && Fib(17) == 1597;
    assert Fib(18) == 2584 && Fib(19) == 4181;
    assert Fib(20) == 6765 && Fib(21) == 10946;
  }

  /** The stacks of 19 entries suffice for every balanced tree of at most 17709 nodes. */
  lemma {:induction false} HeightBound(t: Tree)
    requires Balanced(t) && Size(t) <= MAX_NODES
    ensures HeightOf(t) <= AVL_MAX_HEIGHT
  {
    hide Fib;
    EnoughNodes(t);
    FibValues();
    if HeightOf(t) > AVL_MAX_HEIGHT {
      FibMonotone(22, HeightOf(t) + 2);
    }
  }

  /** The least trees of each height: one node less and the tree is lower. */
  ghost function Sparse(h: nat, nodes: seq<Node>): Tree
    requires |nodes| + 1 == Fib(h + 2)
    decreases h
  {
    if h == 0 then Leaf
    else if h == 1 then
      assert Fib(3) == 2;
      Fork(nodes[0], Leaf, Leaf, 1)
    else
      SparseSplit(h);
      var k := Fib(h + 1) - 1;
      Fork(nodes[k], Sparse(h - 1, nodes[..k]), Sparse(h - 2, nodes[k + 1..]), h)
  }

  lemma {:induction false} SparseSplit(h: nat)
    requires h >= 1
    ensures Fib(h + 2) == Fib(h + 1) + Fib(h) && Fib(h) >= 1 && Fib(h + 1) >= 1
  {
    FibMonotone(1, h);
    FibMonotone(1, h + 1);
  }

  /** The bound is tight: 17710 nodes can form a balanced tree of height 20. */
  lemma {:induction false} SparseIsBalanced(h: nat, nodes: seq<Node>)
    requires |nodes| + 1 == Fib(h + 2)
    ensures Balanced(Sparse(h, nodes)) && HeightOf(Sparse(h, nodes)) == h && Inorder(Sparse(h, nodes)) == nodes
  {
    hide *;
    if h < 2 {
      SparseLow(h, nodes);
    } else {
      SparseSplit(h);
      var k := Fib(h + 1) - 1;
      SparseIs(h, nodes);
      SparseIsBalanced(h - 1, nodes[..k]);
      SparseIsBalanced(h - 2, nodes[k + 1..]);
      var l, r := Sparse(h - 1, nodes[..k]), Sparse(h - 2, nodes[k + 1..]);
      BalancedFork(nodes[k], l, r, h);
      InorderFork(nodes[k], l, r, h);
      assert nodes == nodes[..k] + [nodes[k]] + nodes[k + 1..];
    }
  }

  lemma {:induction false} SparseLow(h: nat, nodes: seq<Node>)
    requires h < 2 && |nodes| + 1 == Fib(h + 2)
    ensures Balanced(Sparse(h, nodes)) && HeightOf(Sparse(h, nodes)) == h && Inorder(Sparse(h, nodes)) == nodes
  {
    assert Fib(2) == 1 && Fib(3) == 2;
  }

  lemma {:induction false} SparseIs(h: nat, nodes: seq<Node>)
    requires h >= 2 && |nodes| + 1 == Fib(h + 2)
    ensures var k := Fib(h + 1) - 1;
            && 0 <= k < |nodes| && k + 1 == Fib(h - 1 + 2) && |nodes| - k == Fib(h - 2 + 2)
            && Sparse(h, nodes) == Fork(nodes[k], Sparse(h - 1, nodes[..k]), Sparse(h - 2, nodes[k + 1..]), h)
  {
    SparseSplit(h);
    hide Fib;
  }

  lemma {:induction false} BalancedFork(n: Node, l: Tree, r: Tree, h: nat)
    requires h >= 2 && Balanced(l) && Balanced(r) && HeightOf(l) == h - 1 && HeightOf(r) == h - 2
    ensures Balanced(Fork(n, l, r, h)) && HeightOf(Fork(n, l, r, h)) == h
  {
  }

  function TopOf(t: Tree): Node? {
    if t.Leaf? then null else t.node
  }

  ghost function Around(p: Path, t: Tree): seq<Node> {
    Before(p) + Inorder(t) + After(p)
  }

  ghost function Grown(p: Path, t: Tree): Tree
    requires !p.Top?
  {
    if p.InLeft? then Fork(p.parent, t, p.other, p.h) else Fork(p.parent, p.other, t, p.h)
  }

  lemma {:induction false} AroundUp(p: Path, t: Tree)
    requires !p.Top?
    ensures Plug(p, t) == Plug(p.up, Grown(p, t)) && Around(p, t) == Around(p.up, Grown(p, t))
    ensures PathNodes(p) + Nodes(t) == PathNodes(p.up) + Nodes(Grown(p, t))
  {
    PlugInorder(p, t);
    PlugInorder(p.up, Grown(p, t));
    PlugNodes(p, t);
    PlugNodes(p.up, Grown(p, t));
  }

  lemma {:induction false} SortedIsApart(p: Path, t: Tree)
    requires Sorted(Around(p, t))
    ensures Apart(p, t)
  {
    PlugInorder(p, t);
    SortedIsDistinct(Plug(p, t));
    PlugDistinct(p, t);
  }

  /** The path seg inside the subtree at the place base. */
  ghost function Join(seg: Path, base: Path): Path {
    match seg
    case Top => base
    case InLeft(n, h, other, up) => InLeft(n, h, other, Join(up, base))
    case InRight(n, h, other, up) => InRight(n, h, other, Join(up, base))
  }

  lemma {:induction false} JoinPlug(seg: Path, base: Path, t: Tree)
    ensures Plug(Join(seg, base), t) == Plug(base, Plug(seg, t))
    ensures Depth(Join(seg, base)) == Depth(seg) + Depth(base)
    ensures PathNodes(Join(seg, base)) == PathNodes(seg) + PathNodes(base)
    ensures Before(Join(seg, base)) == Before(base) + Before(seg) && After(Join(seg, base)) == After(seg) + After(base)
  {
    hide Inorder;
    match seg
    case Top =>
    case InLeft(n, h, other, up) =>
      JoinPlug(up, base, Fork(n, t, other, h));
      JoinedParts([n] + Inorder(other), After(up), After(base));
    case InRight(n, h, other, up) =>
      JoinPlug(up, base, Fork(n, other, t, h));
      JoinedParts(Before(base), Before(up), Inorder(other));
      JoinedParts(Before(base), Before(up) + Inorder(other), [n]);
  }

  lemma {:induction false} JoinedParts<T>(a: seq<T>, b: seq<T>, c: seq<T>)
    ensures a + (b + c) == a + b + c
  {
  }

  /** Only the stored heights of the outer part matter to what is inside. */
  lemma {:induction false} JoinFits(seg: Path, d: Node, m: Node, h: nat, other: Tree, up: Path, fits: nat)
    ensures Fits(Join(seg, InLeft(d, h, other, up)), fits) <==> Fits(Join(seg, InLeft(m, h, other, up)), fits)
  {
    match seg
    case Top =>
    case InLeft(_, hs, _, rest) => JoinFits(rest, d, m, h, other, up, hs);
    case InRight(_, hs, _, rest) => JoinFits(rest, d, m, h, other, up, hs);
  }

  // ----- One step of rebalancing --------------------------------------------------

  /** What rebalancing makes of a node whose subtrees are balanced. */
  ghost function Rebalanced(t: Tree): Tree
    requires t.Fork? && Balanced(t.left) && Balanced(t.right)
  {
    var Fork(n, l, r, _) := t;
    if HeightOf(r) + 1 < HeightOf(l) then
      if HeightOf(l.left) >= HeightOf(l.right) then
        Fork(l.node, l.left, Fork(n, l.right, r, 1 + HeightOf(l.right)), 2 + HeightOf(l.right))
      else
        var m := l.right;
        Fork(m.node, Fork(l.node, l.left, m.left, m.h), Fork(n, m.right, r, m.h), l.h)
    else if HeightOf(l) + 1 < HeightOf(r) then
      if HeightOf(r.right) >= HeightOf(r.left) then
        Fork(r.node, Fork(n, l, r.left, 1 + HeightOf(r.left)), r.right, 2 + HeightOf(r.left))
      else
        var m := r.left;
        Fork(m.node, Fork(n, l, m.left, m.h), Fork(r.node, m.right, r.right, m.h), r.h)
    else t.(h := Max(HeightOf(l), HeightOf(r)) + 1)
  }

  lemma {:induction false} RebalancedBalanced(t: Tree)
    requires t.Fork? && Balanced(t.left) && Balanced(t.right)
    requires HeightOf(t.left) <= HeightOf(t.right) + 2 && HeightOf(t.right) <= HeightOf(t.left) + 2
    ensures Balanced(Rebalanced(t))
    ensures var m := 1 + Max(HeightOf(t.left), HeightOf(t.right)); m - 1 <= HeightOf(Rebalanced(t)) <= m
  {
  }

  lemma {:induction false} RebalancedInorder(t: Tree)
    requires t.Fork? && Balanced(t.left) && Balanced(t.right)
    ensures Inorder(Rebalanced(t)) == Inorder(t)
  {
    hide Inorder;
    var Fork(n, l, r, h) := t;
    if HeightOf(r) + 1 < HeightOf(l) {
      var Fork(x, a, b, hl) := l;
      if HeightOf(a) >= HeightOf(b) {
        TurnedOnce(a, x, b, n, r, hl, h, 1 + HeightOf(b), 2 + HeightOf(b));
      } else {
        TurnedTwice(a, x, b.left, b.node, b.right, n, r, b.h, hl, h, b.h, hl);
      }
    } else if HeightOf(l) + 1 < HeightOf(r) {
      var Fork(x, b, c, hr) := r;
      if HeightOf(c) >= HeightOf(b) {
        TurnedOnce(l, n, b, x, c, 1 + HeightOf(b), 2 + HeightOf(b), hr, h);
      } else {
        TurnedTwice(l, n, b.left, b.node, b.right, x, c, b.h, hr, h, b.h, hr);
      }
    } else {
      InorderFork(n, l, r, h);
      InorderFork(n, l, r, Max(HeightOf(l), HeightOf(r)) + 1);
    }
  }

  lemma {:induction false} TurnedOnce(a: Tree, x: Node, b: Tree, y: Node, c: Tree, h1: nat, h2: nat, h3: nat, h4: nat)
    ensures Inorder(Fork(y, Fork(x, a, b, h1), c, h2)) == Inorder(Fork(x, a, Fork(y, b, c, h3), h4))
  {
    hide Inorder;
    InorderFork(y, Fork(x, a, b, h1), c, h2);
    InorderFork(x, a, b, h1);
    InorderFork(x, a, Fork(y, b, c, h3), h4);
    InorderFork(y, b, c, h3);
    Regroup(Inorder(a), x, Inorder(b), y, Inorder(c));
  }

  lemma {:induction false} TurnedTwice(a: Tree, x: Node, b: Tree, y: Node, c: Tree, z: Node, d: Tree,
                                       h1: nat, h2: nat, h3: nat, h4: nat, h5: nat)
    ensures var turned := Fork(y, Fork(x, a, b, h4), Fork(z, c, d, h4), h5);
            && Inorder(Fork(z, Fork(x, a, Fork(y, b, c, h1), h2), d, h3)) == Inorder(turned)
            && Inorder(Fork(x, a, Fork(z, Fork(y, b, c, h1), d, h2), h3)) == Inorder(turned)
  {
    hide Inorder;
    InorderFork(y, b, c, h1);
    InorderFork(x, a, Fork(y, b, c, h1), h2);
    InorderFork(z, Fork(x, a, Fork(y, b, c, h1), h2), d, h3);
    InorderFork(z, Fork(y, b, c, h1), d, h2);
    InorderFork(x, a, Fork(z, Fork(y, b, c, h1), d, h2), h3);
    InorderFork(x, a, b, h4);
    InorderFork(z, c, d, h4);
    InorderFork(y, Fork(x, a, b, h4), Fork(z, c, d, h4), h5);
    RegroupTwice(Inorder(a), x, Inorder(b), y, Inorder(c), z, Inorder(d));
  }

  lemma {:induction false} Regroup<T>(a: seq<T>, x: T, b: seq<T>, y: T, c: seq<T>)
    ensures (a + [x] + b) + [y] + c == a + [x] + (b + [y] + c)
  {
  }

  lemma {:induction false} RegroupTwice<T>(a: seq<T>, x: T, b: seq<T>, y: T, c: seq<T>, z: T, d: seq<T>)
    ensures (a + [x] + (b + [y] + c)) + [z] + d == (a + [x] + b) + [y] + (c + [z] + d)
    ensures a + [x] + ((b + [y] + c) + [z] + d) == (a + [x] + b) + [y] + (c + [z] + d)
  {
  }

  lemma {:induction false} RebalancedNodes(t: Tree)
    requires t.Fork? && Balanced(t.left) && Balanced(t.right)
    ensures Nodes(Rebalanced(t)) == Nodes(t)
  {
    InorderNodes(t);
    InorderNodes(Rebalanced(t));
    RebalancedInorder(t);
  }

  /** The sequence r is s without its node n; everything else stays in its place. */
  ghost predicate OneLess(s: seq<Node>, n: Node, r: seq<Node>) {
    exists i :: 0 <= i < |s| && s[i] == n && r == s[..i] + s[i + 1..]
  }

  lemma {:induction false} OneLessFrom(a: seq<Node>, n: Node, b: seq<Node>)
    ensures OneLess(a + [n] + b, n, a + b)
  {
    var s := a + [n] + b;
    assert s[|a|] == n && s[..|a|] == a && s[|a| + 1..] == b;
  }

  /** Removing a key undoes its insertion, wherever rebalancing has put the nodes. */
  lemma {:induction false} InsertUndone(without: seq<Node>, s: seq<Node>, n: Node, m: Node, after: seq<Node>)
    requires Sorted(s) && OneLess(s, n, without) && OneLess(s, m, after) && n.Key == m.Key
    ensures m == n && after == without
  {
    var i :| 0 <= i < |s| && s[i] == n && without == s[..i] + s[i + 1..];
    var j :| 0 <= j < |s| && s[j] == m && after == s[..j] + s[j + 1..];
    assert i == j;
  }

  /** Two ordered sequences with a node between them. */
  lemma {:induction false} SortedParts(a: seq<Node>, n: Node, b: seq<Node>)
    ensures Sorted(a + [n] + b) <==>
            && Sorted(a) && Sorted(b)
            && (forall x :: x in a ==> x.Key < n.Key) && (forall x :: x in b ==> n.Key < x.Key)
  {
    if Sorted(a + [n] + b) {
      SortedApart(a, n, b);
    }
    if Sorted(a) && Sorted(b) && (forall x :: x in a ==> x.Key < n.Key) && (forall x :: x in b ==> n.Key < x.Key) {
      SortedTogether(a, n, b);
    }
  }

  lemma {:induction false} SortedSlice(s: seq<Node>, i: nat, j: nat)
    requires Sorted(s) && i <= j <= |s|
    ensures Sorted(s[i..j])
  {
  }

  lemma {:induction false} SortedAround(s: seq<Node>, k: nat)
    requires Sorted(s) && k < |s|
    ensures (forall x :: x in s[..k] ==> x.Key < s[k].Key) && (forall x :: x in s[k + 1..] ==> s[k].Key < x.Key)
  {
  }

  lemma {:induction false} SortedApart(a: seq<Node>, n: Node, b: seq<Node>)
    requires Sorted(a + [n] + b)
    ensures Sorted(a) && Sorted(b) && (forall x :: x in a ==> x.Key < n.Key) && (forall x :: x in b ==> n.Key < x.Key)
  {
    hide Sorted;
    var s, k := a + [n] + b, |a|;
    SortedSlice(s, 0, k);
    SortedSlice(s, k + 1, |s|);
    SortedAround(s, k);
    assert s[0..k] == s[..k] == a && s[k] == n && s[k + 1..|s|] == s[k + 1..] == b;
  }

  lemma {:induction false} SortedTogether(a: seq<Node>, n: Node, b: seq<Node>)
    requires Sorted(a) && Sorted(b) && (forall x :: x in a ==> x.Key < n.Key) && (forall x :: x in b ==> n.Key < x.Key)
    ensures Sorted(a + [n] + b)
  {
    var s := a + [n] + b;
    forall i, j | 0 <= i < j < |s| ensures s[i].Key < s[j].Key {
      assert s[i] == if i < |a| then a[i] else if i == |a| then n else b[i - |a| - 1];
      assert s[j] == if j < |a| then a[j] else if j == |a| then n else b[j - |a| - 1];
    }
  }

  lemma {:induction false} PartsApart(a: seq<Node>, n: Node, b: seq<Node>)
    requires forall x :: x in a ==> x.Key < n.Key
    requires forall x :: x in b ==> n.Key < x.Key
    ensures n !in Members(a) && n !in Members(b) && Members(a) !! Members(b)
  {
  }

  /** Ordered keys keep the nodes apart. */
  lemma {:induction false} SortedIsDistinct(t: Tree)
    requires Sorted(Inorder(t))
    ensures Distinct(t)
  {
    match t
    case Leaf =>
    case Fork(n, l, r, _) =>
      var a, b := Inorder(l), Inorder(r);
      SortedParts(a, n, b);
      SortedIsDistinct(l);
      SortedIsDistinct(r);
      InorderNodes(l);
      InorderNodes(r);
      PartsApart(a, n, b);
  }
}
