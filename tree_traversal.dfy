/**
 * `depthTraversalTree` and `breadthTraversalTree`: the nodes of a tree in depth-first (preorder)
 * and in breadth-first (level) order. A node has a number `n` and an array of child nodes; a
 * leaf, which has no `children` property, is a node with no children. The depth-first traversal
 * pops nodes from a stack and pushes each node's children reversed; the breadth-first one runs a
 * cursor over an array it appends the children to. Each generator is modelled as the sequence of
 * nodes it yields.
 */
module TreeTraversal {

  datatype Tree = Node(n: int, children: seq<Tree>)

  /** The number of nodes of a tree and of a list of trees. */
  function Size(t: Tree): nat
    decreases t
  {
    1 + ForestSize(t.children)
  }

  function ForestSize(ts: seq<Tree>): nat
    decreases ts
  {
    if ts == [] then 0 else Size(ts[0]) + ForestSize(ts[1..])
  }

  lemma {:induction false} ForestSizeAppend(a: seq<Tree>, b: seq<Tree>)
    ensures ForestSize(a + b) == ForestSize(a) + ForestSize(b)
    decreases |a|
  {
    if a == [] {
      assert a + b == b;
    } else {
      ForestSizeAppend(a[1..], b);
      assert (a + b)[1..] == a[1..] + b;
    }
  }

  function Reverse<T>(s: seq<T>): (r: seq<T>)
    ensures |r| == |s|
  {
    if s == [] then [] else Reverse(s[1..]) + [s[0]]
  }

  lemma {:induction false} ReverseAppend<T>(a: seq<T>, b: seq<T>)
    ensures Reverse(a + b) == Reverse(b) + Reverse(a)
    decreases |a|
  {
    if a == [] {
      assert a + b == b && Reverse(b) + [] == Reverse(b);
    } else {
      ReverseAppend(a[1..], b);
      assert (a + b)[1..] == a[1..] + b;
    }
  }

  lemma {:induction false} ReverseReverse<T>(s: seq<T>)
    ensures Reverse(Reverse(s)) == s
    decreases |s|
  {
    if s != [] {
      ReverseReverse(s[1..]);
      ReverseAppend(Reverse(s[1..]), [s[0]]);
      assert Reverse([s[0]]) == [s[0]];
    }
  }

  // ---------------------------------------------------------------------
  // Depth first

  /** Preorder: a node, then the preorder of each child from left to right. */
  function Preorder(t: Tree): seq<Tree>
    decreases t
  {
    [t] + PreorderForest(t.children)
  }

  function PreorderForest(ts: seq<Tree>): seq<Tree>
    decreases ts
  {
    if ts == [] then [] else Preorder(ts[0]) + PreorderForest(ts[1..])
  }

  lemma {:induction false} PreorderForestAppend(a: seq<Tree>, b: seq<Tree>)
    ensures PreorderForest(a + b) == PreorderForest(a) + PreorderForest(b)
    decreases |a|
  {
    if a == [] {
      assert a + b == b;
    } else {
      PreorderForestAppend(a[1..], b);
      assert (a + b)[1..] == a[1..] + b;
    }
  }

  /** `depthTraversalTree(root)`: pop the top of the stack, yield it, push its children reversed,
      so that the leftmost child is popped next. */
  method DepthTraversalTree(root: Tree) returns (out: seq<Tree>)
    ensures out == Preorder(root)
  {
    var stack := [root];
    out := [];
    assert Reverse(stack) == [root];
    assert PreorderForest([root]) == Preorder(root) + [];
    while |stack| > 0
      invariant out + PreorderForest(Reverse(stack)) == Preorder(root)
      decreases |Preorder(root)| - |out|
    {
      var current := stack[|stack| - 1];
      ghost var rest := stack[..|stack| - 1];
      assert stack == rest + [current];
      stack := stack[..|stack| - 1];
      out := out + [current];
      stack := stack + Reverse(current.children);
      PopStep(rest, current);
    }
  }

  /** The stack after one step still holds what remains of the preorder. */
  lemma PopStep(rest: seq<Tree>, current: Tree)
    ensures PreorderForest(Reverse(rest + [current])) ==
      [current] + PreorderForest(Reverse(rest + Reverse(current.children)))
  {
    ReverseAppend(rest, [current]);
    assert Reverse([current]) == [current];
    ReverseAppend(rest, Reverse(current.children));
    ReverseReverse(current.children);
    PreorderForestAppend([current], Reverse(rest));
    PreorderForestAppend(current.children, Reverse(rest));
    assert PreorderForest([current]) == Preorder(current) + [];
  }

  /** Preorder yields each node of the tree once. */
  lemma {:induction false} PreorderSize(t: Tree)
    ensures |Preorder(t)| == Size(t)
    decreases t
  {
    PreorderForestSize(t.children);
  }

  lemma {:induction false} PreorderForestSize(ts: seq<Tree>)
    ensures |PreorderForest(ts)| == ForestSize(ts)
    decreases ts
  {
    if ts != [] {
      PreorderSize(ts[0]);
      PreorderForestSize(ts[1..]);
    }
  }

  /** The tree `depthTraversalTree` leaves behind: `children.reverse()` reverses the children array
      of every node it visits, in place, and it visits every node once. */
  function Mirror(t: Tree): Tree
    decreases t
  {
    Node(t.n, Reverse(MirrorForest(t.children)))
  }

  function MirrorForest(ts: seq<Tree>): (r: seq<Tree>)
    ensures |r| == |ts|
    decreases ts
  {
    if ts == [] then [] else [Mirror(ts[0])] + MirrorForest(ts[1..])
  }

  lemma {:induction false} MirrorForestAppend(a: seq<Tree>, b: seq<Tree>)
    ensures MirrorForest(a + b) == MirrorForest(a) + MirrorForest(b)
    decreases |a|
  {
    if a == [] {
      assert a + b == b;
    } else {
      MirrorForestAppend(a[1..], b);
      assert (a + b)[0] == a[0] && (a + b)[1..] == a[1..] + b;
      assert MirrorForest(a + b) == [Mirror(a[0])] + MirrorForest(a[1..] + b);
    }
  }

  lemma {:induction false} MirrorForestReverse(ts: seq<Tree>)
    ensures MirrorForest(Reverse(ts)) == Reverse(MirrorForest(ts))
    decreases |ts|
  {
    if ts != [] {
      MirrorForestReverse(ts[1..]);
      MirrorForestAppend(Reverse(ts[1..]), [ts[0]]);
      assert MirrorForest([ts[0]]) == [Mirror(ts[0])];
      ReverseAppend([Mirror(ts[0])], MirrorForest(ts[1..]));
      assert Reverse([Mirror(ts[0])]) == [Mirror(ts[0])];
    }
  }

  /** Traversing the changed tree a second time restores it: reversing every children array twice
      changes nothing. */
  lemma {:induction false} MirrorMirror(t: Tree)
    ensures Mirror(Mirror(t)) == t
    decreases t
  {
    MirrorForestMirror(t.children);
    MirrorForestReverse(MirrorForest(t.children));
    ReverseReverse(MirrorForest(MirrorForest(t.children)));
  }

  lemma {:induction false} MirrorForestMirror(ts: seq<Tree>)
    ensures MirrorForest(MirrorForest(ts)) == ts
    decreases ts
  {
    if ts != [] {
      MirrorMirror(ts[0]);
      MirrorForestMirror(ts[1..]);
      assert MirrorForest(ts)[1..] == MirrorForest(ts[1..]);
    }
  }

  /** The changed tree has the same nodes: no node is lost or added. */
  lemma {:induction false} MirrorSize(t: Tree)
    ensures Size(Mirror(t)) == Size(t)
    decreases t
  {
    MirrorForestSize(t.children);
    ForestSizeReverse(MirrorForest(t.children));
  }

  lemma {:induction false} MirrorForestSize(ts: seq<Tree>)
    ensures ForestSize(MirrorForest(ts)) == ForestSize(ts)
    decreases ts
  {
    if ts != [] {
      MirrorSize(ts[0]);
      MirrorForestSize(ts[1..]);
      assert MirrorForest(ts)[1..] == MirrorForest(ts[1..]);
    }
  }

  lemma {:induction false} ForestSizeReverse(ts: seq<Tree>)
    ensures ForestSize(Reverse(ts)) == ForestSize(ts)
    decreases |ts|
  {
    if ts != [] {
      ForestSizeReverse(ts[1..]);
      ForestSizeAppend(Reverse(ts[1..]), [ts[0]]);
      assert ForestSize([ts[0]]) == Size(ts[0]) + ForestSize([]);
    }
  }

  // ---------------------------------------------------------------------
  // Breadth first

  /** The children of a list of nodes, one node's after the other's. */
  function Children(ts: seq<Tree>): seq<Tree>
    decreases ts
  {
    if ts == [] then [] else ts[0].children + Children(ts[1..])
  }

  lemma {:induction false} ChildrenSize(ts: seq<Tree>)
    ensures ForestSize(Children(ts)) + |ts| == ForestSize(ts)
    decreases ts
  {
    if ts != [] {
      ChildrenSize(ts[1..]);
      ForestSizeAppend(ts[0].children, Children(ts[1..]));
    }
  }

  lemma {:induction false} ChildrenAppend(a: seq<Tree>, b: seq<Tree>)
    ensures Children(a + b) == Children(a) + Children(b)
    decreases |a|
  {
    if a == [] {
      assert a + b == b;
    } else {
      ChildrenAppend(a[1..], b);
      assert (a + b)[1..] == a[1..] + b;
    }
  }

  /** Level order: the nodes of one level, then the level order of their children. */
  function Levels(level: seq<Tree>): seq<Tree>
    decreases ForestSize(level)
  {
    if level == [] then []
    else
      ChildrenSize(level);
      level + Levels(Children(level))
  }

  /** The queue the cursor runs over, as a function of what is still ahead of the cursor: yield the
      first node and append its children at the back. */
  function Queue(ahead: seq<Tree>): seq<Tree>
    decreases ForestSize(ahead)
  {
    if ahead == [] then []
    else
      QueueShrinks(ahead);
      [ahead[0]] + Queue(ahead[1..] + ahead[0].children)
  }

  lemma QueueShrinks(ahead: seq<Tree>)
    requires ahead != []
    ensures ForestSize(ahead[1..] + ahead[0].children) < ForestSize(ahead)
  {
    ForestSizeAppend(ahead[1..], ahead[0].children);
  }

  /** `breadthTraversalTree(root)`: yield the node at the cursor, append its children to the array,
      move the cursor on. */
  method BreadthTraversalTree(root: Tree) returns (out: seq<Tree>)
    ensures out == Levels([root])
  {
    var treeNodes := [root];
    out := [];
    var i := 0;
    while i < |treeNodes|
      invariant 0 <= i <= |treeNodes|
      invariant out + Queue(treeNodes[i..]) == Queue([root])
      decreases ForestSize(treeNodes[i..])
    {
      out := out + [treeNodes[i]];
      ghost var before := treeNodes;
      var node := treeNodes[i];
      var j := 0;
      while j < |node.children|
        invariant 0 <= j <= |node.children|
        invariant treeNodes == before + node.children[..j]
      {
        assert node.children[..j + 1] == node.children[..j] + [node.children[j]];
        treeNodes := treeNodes + [node.children[j]];
        j := j + 1;
      }
      assert node.children[..j] == node.children;
      CursorStep(before, i);
      i := i + 1;
    }
    QueueIsLevels([root]);
  }

  /** Moving the cursor past a node whose children were appended keeps the rest of the queue. */
  lemma CursorStep(before: seq<Tree>, i: nat)
    requires i < |before|
    ensures (before + before[i].children)[i + 1..] == before[i + 1..] + before[i].children
    ensures Queue(before[i..]) == [before[i]] + Queue((before + before[i].children)[i + 1..])
    ensures ForestSize((before + before[i].children)[i + 1..]) < ForestSize(before[i..])
  {
    var ahead := before[i..];
    assert ahead[1..] == before[i + 1..];
    QueueShrinks(ahead);
  }

  /** Running the queue over a first level empties that level and, behind it, runs over its
      children. */
  lemma {:induction false} QueueSplit(f: seq<Tree>, g: seq<Tree>)
    ensures Queue(f + g) == f + Queue(g + Children(f))
    decreases |f|
  {
    if f == [] {
      assert f + g == g && g + [] == g;
    } else {
      var x := f[0];
      assert (f + g)[0] == x && (f + g)[1..] == f[1..] + g;
      QueueSplit(f[1..], g + x.children);
      assert f[1..] + g + x.children == f[1..] + (g + x.children);
      assert g + x.children + Children(f[1..]) == g + Children(f);
      assert [x] + (f[1..] + Queue(g + Children(f))) == f + Queue(g + Children(f));
    }
  }

  /** The cursor's queue is the level order. */
  lemma {:induction false} QueueIsLevels(level: seq<Tree>)
    ensures Queue(level) == Levels(level)
    decreases ForestSize(level)
  {
    if level != [] {
      QueueSplit(level, []);
      assert level + [] == level && [] + Children(level) == Children(level);
      ChildrenSize(level);
      QueueIsLevels(Children(level));
    }
  }

  /** A level's nodes and everything below them, in preorder, are the level and, below it, its
      children's preorder. */
  lemma {:induction false} PreorderByLevel(level: seq<Tree>)
    ensures multiset(PreorderForest(level)) == multiset(level) + multiset(PreorderForest(Children(level)))
    decreases |level|
  {
    if level != [] {
      var x, rest := level[0], level[1..];
      PreorderByLevel(rest);
      PreorderForestAppend(x.children, Children(rest));
      assert level == [x] + rest;
    }
  }

  /** The level order holds the same nodes, as often, as the preorder: each node once. */
  lemma {:induction false} LevelsPermutesPreorder(level: seq<Tree>)
    ensures multiset(Levels(level)) == multiset(PreorderForest(level))
    decreases ForestSize(level)
  {
    if level != [] {
      ChildrenSize(level);
      LevelsPermutesPreorder(Children(level));
      PreorderByLevel(level);
    }
  }

  /** Both traversals yield the same nodes, each as often as it occurs in the tree. */
  lemma SameNodes(root: Tree)
    ensures multiset(Levels([root])) == multiset(Preorder(root))
    ensures |Levels([root])| == Size(root)
  {
    LevelsPermutesPreorder([root]);
    assert PreorderForest([root]) == Preorder(root) + [];
    PreorderSize(root);
    assert |multiset(Levels([root]))| == |multiset(Preorder(root))|;
  }

  // ---------------------------------------------------------------------
  // The documented trees

  function Numbers(ts: seq<Tree>): seq<int> {
    if ts == [] then [] else [ts[0].n] + Numbers(ts[1..])
  }

  function Leaf(n: int): Tree { Node(n, []) }

  /** The depth-first example: node 1 has children 2, 6, 7; node 2 has 3, 4; node 4 has 5; node 7
      has 8. Preorder visits 1 to 8 in order. */
  lemma DepthExample()
    ensures Numbers(Preorder(Node(1, [Node(2, [Leaf(3), Node(4, [Leaf(5)])]), Leaf(6), Node(7, [Leaf(8)])])))
      == [1, 2, 3, 4, 5, 6, 7, 8]
  {
  }

  /** The breadth-first example: node 1 has children 2, 3, 4; node 2 has 5, 6; node 4 has 7; node 6
      has 8. Level order visits 1 to 8 in order. */
  lemma BreadthExample()
    ensures Numbers(Levels([Node(1, [Node(2, [Leaf(5), Node(6, [Leaf(8)])]), Leaf(3), Node(4, [Leaf(7)])])]))
      == [1, 2, 3, 4, 5, 6, 7, 8]
  {
  }
}
