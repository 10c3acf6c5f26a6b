/** Lookups in the AVL tree and walks over all of it. None of them changes the tree. */
module AvlLookup {
  import opened AvlSpec
  import opened AvlTree

  // ----- Lookups ----------------------------------------------------------------

  /** Everything outside the subtree t is on the far side of key. */
  ghost predicate Closing(s: seq<Node>, a: seq<Node>, t: Tree, b: seq<Node>, key: Key) {
    && s == a + Inorder(t) + b && Sorted(s)
    && (forall n :: n in a ==> n.Key < key) && (forall n :: n in b ==> key < n.Key)
  }

  lemma {:induction false} CloseLeft(s: seq<Node>, a: seq<Node>, t: Tree, b: seq<Node>, key: Key)
    requires Closing(s, a, t, b, key) && t.Fork? && key < t.node.Key
    ensures Closing(s, a, t.left, [t.node] + Inorder(t.right) + b, key)
  {
    var x, n, y := a + Inorder(t.left), t.node, Inorder(t.right) + b;
    assert s == x + [n] + y;
    SortedParts(x, n, y);
    assert [n] + Inorder(t.right) + b == [n] + y;
    assert s == a + Inorder(t.left) + ([n] + y);
    hide Sorted, Inorder;
  }

  lemma {:induction false} CloseRight(s: seq<Node>, a: seq<Node>, t: Tree, b: seq<Node>, key: Key)
    requires Closing(s, a, t, b, key) && t.Fork? && t.node.Key < key
    ensures Closing(s, a + Inorder(t.left) + [t.node], t.right, b, key)
  {
    var x, n, y := a + Inorder(t.left), t.node, Inorder(t.right) + b;
    assert s == x + [n] + y;
    SortedParts(x, n, y);
    assert s == (x + [n]) + Inorder(t.right) + b;
    hide Sorted, Inorder;
  }

  lemma {:induction false} Found(s: seq<Node>, a: seq<Node>, t: Tree, b: seq<Node>, key: Key)
    requires Closing(s, a, t, b, key)
    ensures t.Fork? ==> t.node in s
    ensures t == Leaf ==> s == a + b
  {
  }

  lemma {:induction false} WholeTree(t: Tree, key: Key)
    requires Sorted(Inorder(t))
    ensures Closing(Inorder(t), [], t, [], key)
  {
    assert [] + Inorder(t) + [] == Inorder(t);
  }

  /** The node n has the least key of s that is not below key. */
  ghost predicate LeastFrom(s: seq<Node>, key: Key, n: Node?) {
    if n == null then forall m :: m in s ==> m.Key < key
    else n in s && key <= n.Key && forall m :: m in s && key <= m.Key ==> n.Key <= m.Key
  }

  /** The node n has the greatest key of s that is not above key. */
  ghost predicate GreatestUpTo(s: seq<Node>, key: Key, n: Node?) {
    if n == null then forall m :: m in s ==> key < m.Key
    else n in s && n.Key <= key && forall m :: m in s && m.Key <= key ==> m.Key <= n.Key
  }

  function FirstOf(s: seq<Node>): Node? {
    if s == [] then null else s[0]
  }

  function LastOf(s: seq<Node>): Node? {
    if s == [] then null else s[|s| - 1]
  }

  lemma {:induction false} FitWhenMissing(s: seq<Node>, a: seq<Node>, b: seq<Node>, key: Key)
    requires Closing(s, a, Leaf, b, key)
    ensures LeastFrom(s, key, FirstOf(b)) && GreatestUpTo(s, key, LastOf(a))
    ensures forall m :: m in s ==> m.Key != key
  {
    assert s == a + b;
    forall m | m in b ensures b[0].Key <= m.Key {
      var j :| 0 <= j < |b| && b[j] == m;
      assert s[|a|] == b[0] && s[|a| + j] == m;
    }
    forall m | m in a ensures m.Key <= a[|a| - 1].Key {
      var j :| 0 <= j < |a| && a[j] == m;
      assert s[|a| - 1] == a[|a| - 1] && s[j] == m;
    }
    hide Sorted;
  }

  lemma {:induction false} FitWhenFound(s: seq<Node>, a: seq<Node>, t: Tree, b: seq<Node>, key: Key)
    requires Closing(s, a, t, b, key) && t.Fork? && t.node.Key == key
    ensures LeastFrom(s, key, t.node) && GreatestUpTo(s, key, t.node)
  {
    hide Sorted;
  }

  lemma {:induction false} Children(n: Node, t: Tree)
    requires Linked(n, t)
    ensures t.Fork? && t.node == n && Linked(n.pLeft, t.left) && Linked(n.pRight, t.right)
  {
  }

  lemma {:induction false} NullIsLeaf(n: Node?, t: Tree)
    requires Linked(n, t)
    ensures n == null <==> t == Leaf
  {
  }

  lemma {:induction false} ValidParts(avl: Avl)
    requires avl.Valid()
    ensures Linked(avl.root, avl.tree) && Balanced(avl.tree) && Sorted(avl.Contents())
    ensures avl.Contents() == Inorder(avl.tree)
  {
  }

  /** AVLGet. */
  method Get(avl: Avl, key: Key) returns (pNode: Node?)
    requires avl.Valid()
    ensures pNode == null <==> forall n :: n in avl.Contents() ==> n.Key != key
    ensures pNode != null ==> pNode in avl.Contents() && pNode.Key == key
  {
    hide *;
    ValidParts(avl);
    pNode := avl.root;
    ghost var a, t, b := [], avl.tree, [];
    WholeTree(t, key);
    NullIsLeaf(pNode, t);
    while pNode != null && pNode.Key != key
      invariant Linked(pNode, t) && Closing(avl.Contents(), a, t, b, key)
      invariant pNode == null <==> t == Leaf
      decreases t
    {
      Children(pNode, t);
      if pNode.Key > key {
        CloseLeft(avl.Contents(), a, t, b, key);
        pNode := pNode.pLeft;
        b, t := [t.node] + Inorder(t.right) + b, t.left;
      } else {
        CloseRight(avl.Contents(), a, t, b, key);
        pNode := pNode.pRight;
        a, t := a + Inorder(t.left) + [t.node], t.right;
      }
      NullIsLeaf(pNode, t);
    }
    if pNode == null {
      FitWhenMissing(avl.Contents(), a, b, key);
    } else {
      Children(pNode, t);
      Found(avl.Contents(), a, t, b, key);
    }
  }

  /** AVLGetBestFit: the nearest node not below the key, or not above it. */
  method GetBestFit(avl: Avl, key: Key, fAbove: bool) returns (r: Node?)
    requires avl.Valid()
    ensures fAbove ==> LeastFrom(avl.Contents(), key, r)
    ensures !fAbove ==> GreatestUpTo(avl.Contents(), key, r)
  {
    hide *;
    ValidParts(avl);
    var pNode := avl.root;
    var pNodeLast: Node? := null;
    ghost var a, t, b := [], avl.tree, [];
    WholeTree(t, key);
    NullIsLeaf(pNode, t);
    EndsEmpty();
    while pNode != null && pNode.Key != key
      invariant Linked(pNode, t) && Closing(avl.Contents(), a, t, b, key)
      invariant pNode == null <==> t == Leaf
      invariant pNodeLast == if fAbove then FirstOf(b) else LastOf(a)
      decreases t
    {
      Children(pNode, t);
      if fAbove {
        if pNode.Key > key {
          pNodeLast := pNode;
        }
      } else {
        if pNode.Key < key {
          pNodeLast := pNode;
        }
      }
      Ends(a + Inorder(t.left), t.node, Inorder(t.right), b);
      if pNode.Key > key {
        CloseLeft(avl.Contents(), a, t, b, key);
        pNode := pNode.pLeft;
        b, t := [t.node] + Inorder(t.right) + b, t.left;
      } else {
        CloseRight(avl.Contents(), a, t, b, key);
        pNode := pNode.pRight;
        a, t := a + Inorder(t.left) + [t.node], t.right;
      }
      NullIsLeaf(pNode, t);
    }
    if pNode == null {
      FitWhenMissing(avl.Contents(), a, b, key);
      r := pNodeLast;
    } else {
      Children(pNode, t);
      FitWhenFound(avl.Contents(), a, t, b, key);
      r := pNode;
    }
  }

  lemma {:induction false} EndsEmpty()
    ensures FirstOf([]) == null && LastOf([]) == null
  {
  }

  lemma {:induction false} Ends(x: seq<Node>, n: Node, y: seq<Node>, b: seq<Node>)
    ensures LastOf(x + [n]) == n && FirstOf([n] + y + b) == n
  {
  }

  // ----- A node and its neighbours ------------------------------------------------

  method LastBelow(pNode: Node?, ghost t: Tree) returns (r: Node?)
    requires Linked(pNode, t)
    ensures r == LastOf(Inorder(t))
  {
    hide *;
    r := pNode;
    ghost var a, s := [], t;
    NullIsLeaf(r, t);
    NoNodes();
    if r != null {
      assert [] + Inorder(s) == Inorder(t);
      while r.pRight != null
        invariant r != null && Linked(r, s) && Inorder(t) == a + Inorder(s)
        decreases s
      {
        Children(r, s);
        InorderParts(s);
        assert a + Inorder(s) == (a + Inorder(s.left) + [s.node]) + Inorder(s.right);
        a, s := a + Inorder(s.left) + [s.node], s.right;
        r := r.pRight;
      }
      Children(r, s);
      NullIsLeaf(r.pRight, s.right);
      InorderParts(s);
      LastOne(a, Inorder(s.left), r);
    }
  }

  method FirstBelow(pNode: Node?, ghost t: Tree) returns (r: Node?)
    requires Linked(pNode, t)
    ensures r == FirstOf(Inorder(t))
  {
    hide *;
    r := pNode;
    ghost var s, b := t, [];
    NullIsLeaf(r, t);
    NoNodes();
    if r != null {
      assert Inorder(s) + [] == Inorder(t);
      while r.pLeft != null
        invariant r != null && Linked(r, s) && Inorder(t) == Inorder(s) + b
        decreases s
      {
        Children(r, s);
        InorderParts(s);
        assert Inorder(s) + b == Inorder(s.left) + ([s.node] + Inorder(s.right) + b);
        s, b := s.left, [s.node] + Inorder(s.right) + b;
        r := r.pLeft;
      }
      Children(r, s);
      NullIsLeaf(r.pLeft, s.left);
      InorderParts(s);
      FirstOne(r, Inorder(s.right), b);
    }
  }

  lemma {:induction false} NoNodes()
    ensures Inorder(Leaf) == [] && FirstOf([]) == null && LastOf([]) == null
  {
  }

  lemma {:induction false} InorderParts(t: Tree)
    requires t.Fork?
    ensures Inorder(t) == Inorder(t.left) + [t.node] + Inorder(t.right)
  {
  }

  lemma {:induction false} LastOne(a: seq<Node>, b: seq<Node>, n: Node)
    ensures LastOf(a + (b + [n] + [])) == n
  {
  }

  lemma {:induction false} FirstOne(n: Node, b: seq<Node>, c: seq<Node>)
    ensures FirstOf(([] + [n] + b) + c) == n
  {
  }

  /** The nodes u come just before n in the subtree g, and the nodes v just after it. */
  ghost predicate Split(g: Tree, u: seq<Node>, n: Node, v: seq<Node>) {
    Inorder(g) == u + [n] + v
  }

  ghost function OneUpBefore(q: Path, u: seq<Node>): seq<Node>
    requires !q.Top?
  {
    if q.InRight? then Inorder(q.other) + [q.parent] + u else u
  }

  ghost function OneUpAfter(q: Path, v: seq<Node>): seq<Node>
    requires !q.Top?
  {
    if q.InLeft? then v + [q.parent] + Inorder(q.other) else v
  }

  /** One level up, the parent is a neighbour only if there was none on its side. */
  lemma {:induction false} OneUpSplit(q: Path, g: Tree, u: seq<Node>, n: Node, v: seq<Node>)
    requires !q.Top? && Split(g, u, n, v) && Sorted(Inorder(Grown(q, g)))
    ensures Split(Grown(q, g), OneUpBefore(q, u), n, OneUpAfter(q, v))
    ensures q.InRight? ==>
              q.parent.Key < n.Key && LastOf(OneUpBefore(q, u)) == (if u == [] then q.parent else LastOf(u))
    ensures q.InRight? && u != [] ==> q.parent.Key < LastOf(u).Key
    ensures q.InLeft? ==>
              n.Key < q.parent.Key && FirstOf(OneUpAfter(q, v)) == (if v == [] then q.parent else FirstOf(v))
    ensures q.InLeft? && v != [] ==> FirstOf(v).Key < q.parent.Key
  {
    if q.InRight? {
      SortedParts(Inorder(q.other), q.parent, Inorder(g));
      assert n in Inorder(g);
      assert u != [] ==> LastOf(u) in Inorder(g);
      assert Inorder(q.other) + [q.parent] + (u + [n] + v) == (Inorder(q.other) + [q.parent] + u) + [n] + v;
    } else {
      SortedParts(Inorder(g), q.parent, Inorder(q.other));
      assert n in Inorder(g);
      assert v != [] ==> FirstOf(v) in Inorder(g);
      assert (u + [n] + v) + [q.parent] + Inorder(q.other) == u + [n] + (v + [q.parent] + Inorder(q.other));
    }
  }

  /** What the stack entry for the place above q leads to. */
  lemma {:induction false} EntryLeads(avl: Avl, q: Path, g: Tree)
    requires !q.Top? && Plug(q, g) == avl.tree && avl.Valid()
    ensures avl.Get(avl.LinkOf(q.up)) == q.parent && Plug(q.up, Grown(q, g)) == avl.tree
    ensures Sorted(Inorder(Grown(q, g)))
  {
    var up := Grown(q, g);
    AroundUp(q, g);
    avl.PlugLinked(q.up, up);
    PlugInorder(q.up, up);
    SortedMiddle(Before(q.up), Inorder(up), After(q.up));
  }

  lemma {:induction false} SortedMiddle(a: seq<Node>, b: seq<Node>, c: seq<Node>)
    requires Sorted(a + b + c)
    ensures Sorted(b)
  {
    var s := a + b + c;
    forall i, j | 0 <= i < j < |b| ensures b[i].Key < b[j].Key {
      assert s[|a| + i] == b[i] && s[|a| + j] == b[j];
    }
  }

  /** The node n at index i, with what is left and right of it. */
  ghost predicate Neighbours(s: seq<Node>, i: nat, n: Node, pLeft: Node?, pRight: Node?) {
    i < |s| && s[i] == n && pLeft == (if i == 0 then null else s[i - 1]) &&
    pRight == (if i + 1 == |s| then null else s[i + 1])
  }

  lemma {:induction false} SplitNeighbours(g: Tree, u: seq<Node>, n: Node, v: seq<Node>)
    requires Split(g, u, n, v)
    ensures Neighbours(Inorder(g), |u|, n, LastOf(u), FirstOf(v))
  {
  }

  lemma {:induction false} FoundHere(avl: Avl, p: Path, t: Tree, key: Key)
    requires avl.Narrowed(p, t, key) && t.Fork?
    ensures Split(t, Inorder(t.left), t.node, Inorder(t.right)) && Plug(p, t) == avl.tree
    ensures Linked(t.node.pLeft, t.left) && Linked(t.node.pRight, t.right)
  {
  }

  /** AVLGetWithAdjecentNodes. */
  method GetWithAdjacentNodes(avl: Avl, key: Key) returns (pNode: Node?, pLeft: Node?, pRight: Node?)
    requires avl.Valid() && HeightOf(avl.tree) <= AVL_MAX_HEIGHT
    ensures pNode == null <==> forall n :: n in avl.Contents() ==> n.Key != key
    ensures pNode == null ==> pLeft == null && pRight == null
    ensures pNode != null ==> pNode.Key == key && exists i :: Neighbours(avl.Contents(), i, pNode, pLeft, pRight)
  {
    hide *;
    ValidParts(avl);
    NodesAllocated(avl.tree);
    var stack := new Link[AVL_MAX_HEIGHT];
    var c;
    ghost var p, t;
    pNode, c, p, t := Search(avl, key, stack);
    if pNode == null {
      avl.NotThere(p, t, key);
      return null, null, null;
    }
    avl.TopOfFork(t);
    avl.InContents(p, t, key);
    FoundHere(avl, p, t, key);
    NodesAllocated(t.right);
    pLeft := LastBelow(pNode.pLeft, t.left);
    pRight := FirstBelow(pNode.pRight, t.right);
    ghost var q, g, u, v := p, t, Inorder(t.left), Inorder(t.right);
    while c > 0
      invariant c == Depth(q) <= stack.Length && stack[..c] == avl.Links(q)
      invariant Plug(q, g) == avl.tree && Split(g, u, pNode, v) && avl.Valid()
      invariant pLeft == LastOf(u) && pRight == FirstOf(v)
      decreases c
    {
      avl.LastLink(q);
      EntryLeads(avl, q, g);
      OneUpSplit(q, g, u, pNode, v);
      OneUpKeeps(q, u, v);
      c := c - 1;
      assert stack[..c] == stack[..c + 1][..c];
      var pCurNode := avl.Get(stack[c]);
      if pCurNode.Key < key && (pLeft == null || pCurNode.Key > pLeft.Key) {
        pLeft := pCurNode;
      } else if pCurNode.Key > key && (pRight == null || pCurNode.Key < pRight.Key) {
        pRight := pCurNode;
      }
      u, v := OneUpBefore(q, u), OneUpAfter(q, v);
      g := Grown(q, g);
      q := q.up;
    }
    SplitNeighbours(g, u, pNode, v);
    PlugAtTop(q, g);
  }

  lemma {:induction false} PlugAtTop(q: Path, g: Tree)
    requires Depth(q) == 0
    ensures Plug(q, g) == g
  {
  }

  lemma {:induction false} OneUpKeeps(q: Path, u: seq<Node>, v: seq<Node>)
    requires !q.Top?
    ensures q.InLeft? || q.InRight?
    ensures q.InLeft? ==> OneUpBefore(q, u) == u
    ensures q.InRight? ==> OneUpAfter(q, v) == v
    ensures FirstOf(v) == null <==> v == []
    ensures LastOf(u) == null <==> u == []
  {
  }

  method Search(avl: Avl, key: Key, stack: array<Link>) returns (pNode: Node?, c: nat, ghost p: Path, ghost t: Tree)
    requires avl.Valid() && HeightOf(avl.tree) <= AVL_MAX_HEIGHT && stack.Length == AVL_MAX_HEIGHT
    modifies stack
    ensures avl.Narrowed(p, t, key) && pNode == TopOf(t) && avl.Valid()
    ensures pNode != null ==> pNode.Key == key && c == Depth(p) <= stack.Length && stack[..c] == avl.Links(p)
  {
    hide *;
    NodesAllocated(avl.tree);
    var link := Root;
    c := 0;
    p, t := Top, avl.tree;
    avl.NarrowedAtTop(key);
    avl.LinkLeads(p, t, key);
    avl.TopFacts();
    pNode := avl.Get(link);
    while pNode != null && pNode.Key != key
      invariant avl.Narrowed(p, t, key) && link == avl.LinkOf(p)
      invariant c == Depth(p) <= stack.Length && stack[..c] == avl.Links(p)
      invariant pNode == TopOf(t) && avl.Valid()
      modifies stack
      decreases t
    {
      avl.TopOfFork(t);
      avl.LinkLeads(p, t, key);
      avl.NotANode(stack, PathNodes(p) + Nodes(t));
      stack[c] := link;
      c := c + 1;
      assert stack[..c] == avl.Links(p) + [link];
      if pNode.Key > key {
        avl.GoLeft(p, t, key);
        link := LeftOf(pNode);
        p, t := InLeft(t.node, t.h, t.right, p), t.left;
      } else {
        avl.GoRight(p, t, key);
        link := RightOf(pNode);
        p, t := InRight(t.node, t.h, t.left, p), t.right;
      }
      avl.LinksDown(p);
      avl.LinkLeads(p, t, key);
      pNode := avl.Get(link);
    }
  }
}
