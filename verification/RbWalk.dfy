/** Walking a red-black tree in order through its links: rb_first, rb_last, rb_next, rb_prev, and
    rb_replace_node. */
module RbWalk {
  import opened Collections
  import opened RbTheory
  import opened RbTree

  lemma NoDupAround<T>(a: seq<T>, k: T, b: seq<T>)
    requires NoDup(a) && NoDup(b) && k !in a && k !in b && (forall x | x in a :: x !in b)
    ensures NoDup(a + [k] + b)
  {
    var s := a + [k] + b;
    forall i, j | 0 <= i < j < |s| ensures s[i] != s[j] {
      if j < |a| {
        assert s[i] == a[i] && s[j] == a[j];
      } else if j == |a| {
        assert s[i] == a[i] && s[i] in a && s[j] == k;
      } else {
        assert s[j] == b[j - |a| - 1] && s[j] in b;
        if i < |a| { assert s[i] in a; }
        assert s[i] == if i < |a| then a[i] else if i == |a| then k else b[i - |a| - 1];
      }
    }
  }

  lemma {:induction false} KeysMembers(t: Tree<RbNode>)
    ensures KeySet(t) == set n | n in Keys(t)
  {
    if t.Node? {
      KeysMembers(t.left);
      KeysMembers(t.right);
    }
  }

  lemma {:induction false} KeysNoDup(t: Tree<RbNode>)
    requires Distinct(t)
    ensures NoDup(Keys(t))
  {
    if t.Node? {
      KeysMembers(t.left);
      KeysMembers(t.right);
      KeysNoDup(t.left);
      KeysNoDup(t.right);
      forall x | x in Keys(t.left) ensures x !in Keys(t.right) {
        assert x in KeySet(t.left);
      }
      NoDupAround(Keys(t.left), t.key, Keys(t.right));
    }
  }

  lemma {:induction false} SizeIsCount(t: Tree<RbNode>)
    requires Distinct(t)
    ensures Size(t) == |KeySet(t)|
  {
    if t.Node? {
      SizeIsCount(t.left);
      SizeIsCount(t.right);
      assert |KeySet(t.left) + {t.key}| == |KeySet(t.left)| + 1;
      assert (KeySet(t.left) + {t.key}) !! KeySet(t.right);
    }
  }

  /** Every node of a tree has a path to it. */
  lemma {:induction false} PathTo(c: Path<RbNode>, t: Tree<RbNode>, n: RbNode) returns (c': Path<RbNode>, t': Tree<RbNode>)
    requires n in KeySet(t)
    ensures t'.Node? && t'.key == n && Plug(c', t') == Plug(c, t)
    decreases t
  {
    if n == t.key {
      c', t' := c, t;
    } else if n in KeySet(t.left) {
      c', t' := PathTo(InLeft(t.key, t.color, t.right, c), t.left, n);
    } else {
      c', t' := PathTo(InRight(t.left, t.key, t.color, c), t.right, n);
    }
  }

  /** In sorted order, the neighbour `d` places further on; `null` past either end. */
  ghost function Neighbour(K: seq<RbNode>, n: RbNode, d: int): RbNode?
    requires n in K
  {
    var i :| 0 <= i < |K| && K[i] == n;
    if 0 <= i + d < |K| then K[i + d] else null
  }

  lemma NeighbourAt(K: seq<RbNode>, i: nat, d: int)
    requires NoDup(K) && i < |K|
    ensures Neighbour(K, K[i], d) == if 0 <= i + d < |K| then K[i + d] else null
  {
  }

  /** Stepping forward and stepping back undo each other. */
  lemma NextPrevInverse(K: seq<RbNode>, n: RbNode)
    requires NoDup(K) && n in K
    ensures var s := Neighbour(K, n, 1); s != null ==> s in K && Neighbour(K, s, -1) == n
    ensures var p := Neighbour(K, n, -1); p != null ==> p in K && Neighbour(K, p, 1) == n
    ensures Neighbour(K, n, 1) == null <==> n == K[|K| - 1]
    ensures Neighbour(K, n, -1) == null <==> n == K[0]
  {
    var i :| 0 <= i < |K| && K[i] == n;
    NeighbourAt(K, i, 1);
    NeighbourAt(K, i, -1);
    if i + 1 < |K| { NeighbourAt(K, i + 1, -1); }
    if i > 0 { NeighbourAt(K, i - 1, 1); }
  }

  /** Where the keys of a subtree stand in the whole order. */
  lemma Window(c: Path<RbNode>, t: Tree<RbNode>)
    requires t.Node?
    ensures var K := Keys(Plug(c, t)); var k := |Before(c)| + |Keys(t.left)|;
      && |K| == k + 1 + |Keys(t.right)| + |After(c)| && K[k] == t.key
      && (t.right.Node? ==> |Keys(t.right)| > 0 && K[k + 1] == Keys(t.right)[0])
      && (t.left.Node? ==> |Keys(t.left)| > 0 && K[k - 1] == Keys(t.left)[|Keys(t.left)| - 1])
    ensures |Keys(Plug(c, t))| == |Before(c)| + |Keys(t)| + |After(c)|
    ensures After(c) != [] ==> Keys(Plug(c, t))[|Before(c)| + |Keys(t)|] == After(c)[0]
    ensures Before(c) != [] ==> Keys(Plug(c, t))[|Before(c)| - 1] == Before(c)[|Before(c)| - 1]
  {
    KeysPlug(c, t);
  }

  /** Down the left links: the first key of a subtree. */
  method GoLeft(n: RbNode, root: RbRoot, ghost S: set<RbNode>, ghost c: Path<RbNode>, ghost t: Tree<RbNode>) returns (r: RbNode)
    requires Holds(S, root, Plug(c, t)) && t.Node? && n == t.key
    ensures |Keys(t)| > 0 && r == Keys(t)[0]
  {
    r := n;
    ghost var c', u := c, t;
    Look(S, root, c', u);
    while r.left != null
      invariant u.Node? && r == u.key && Plug(c', u) == Plug(c, t) && r.left == RootOf(u.left) && Keys(u)[0] == Keys(t)[0]
      decreases u
    {
      c', u := InLeft(u.key, u.color, u.right, c'), u.left;
      r := r.left;
      Look(S, root, c', u);
    }
  }

  /** `rb_first`. */
  method First(root: RbRoot, ghost S: set<RbNode>, ghost t: Tree<RbNode>) returns (r: RbNode?)
    requires Holds(S, root, t)
    ensures r == null <==> Keys(t) == []
    ensures Keys(t) != [] ==> r == Keys(t)[0]
  {
    var n := root.node;
    if n == null {
      return null;
    }
    r := GoLeft(n, root, S, Path.Top, t);
  }

  /** Down the right links: the last key of a subtree. */
  method GoRight(n: RbNode, root: RbRoot, ghost S: set<RbNode>, ghost c: Path<RbNode>, ghost t: Tree<RbNode>) returns (r: RbNode)
    requires Holds(S, root, Plug(c, t)) && t.Node? && n == t.key
    ensures |Keys(t)| > 0 && r == Keys(t)[|Keys(t)| - 1]
  {
    r := n;
    ghost var c', u := c, t;
    Look(S, root, c', u);
    while r.right != null
      invariant u.Node? && r == u.key && Plug(c', u) == Plug(c, t) && r.right == RootOf(u.right) && Keys(u)[|Keys(u)| - 1] == Keys(t)[|Keys(t)| - 1]
      decreases u
    {
      c', u := InRight(u.left, u.key, u.color, c'), u.right;
      r := r.right;
      Look(S, root, c', u);
    }
  }

  /** `rb_last`. */
  method Last(root: RbRoot, ghost S: set<RbNode>, ghost t: Tree<RbNode>) returns (r: RbNode?)
    requires Holds(S, root, t)
    ensures r == null <==> Keys(t) == []
    ensures Keys(t) != [] ==> r == Keys(t)[|Keys(t)| - 1]
  {
    var n := root.node;
    if n == null {
      return null;
    }
    r := GoRight(n, root, S, Path.Top, t);
  }

  /** `rb_next`. */
  method Next(x: RbNode, root: RbRoot, ghost S: set<RbNode>, ghost t0: Tree<RbNode>) returns (r: RbNode?)
    requires Holds(S, root, t0) && x in S
    ensures x in Keys(t0) && r == Neighbour(Keys(t0), x, 1)
  {
    KeysNoDup(t0);
    ghost var c, t := PathTo(Path.Top, t0, x);
    Look(S, root, c, t);
    Window(c, t);
    NeighbourAt(Keys(t0), |Before(c)| + |Keys(t.left)|, 1);
    if x.right != null {
      r := GoLeft(x.right, root, S, InRight(t.left, t.key, t.color, c), t.right);
    } else {
      r := GoUpLeft(x, root, S, c, t);
    }
  }

  /** Up until the walk leaves a left subtree: the first key after the subtree. */
  method GoUpLeft(x: RbNode, root: RbRoot, ghost S: set<RbNode>, ghost c0: Path<RbNode>, ghost t0: Tree<RbNode>) returns (r: RbNode?)
    requires Holds(S, root, Plug(c0, t0)) && t0.Node? && x == t0.key
    ensures r == (if After(c0) == [] then null else After(c0)[0])
  {
    var node := x;
    ghost var c, t := c0, t0;
    Look(S, root, c, t);
    while node.parent != null && node == node.parent.right
      invariant t.Node? && node == t.key && Plug(c, t) == Plug(c0, t0) && After(c) == After(c0)
      invariant node.parent == ParentOf(c) && (c.InLeft? ==> c.key.right != node)
      decreases Depth(c)
    {
      node := node.parent;
      c, t := c.up, PlugStep(c, t);
      Look(S, root, c, t);
    }
    Look(S, root, c, t);
    r := node.parent;
  }

  /** `rb_prev`. */
  method Prev(x: RbNode, root: RbRoot, ghost S: set<RbNode>, ghost t0: Tree<RbNode>) returns (r: RbNode?)
    requires Holds(S, root, t0) && x in S
    ensures x in Keys(t0) && r == Neighbour(Keys(t0), x, -1)
  {
    hide Linked, Distinct, KeySet, LinkedPath, DistinctPath, PathSet;
    KeysNoDup(t0);
    ghost var c, t := PathTo(Path.Top, t0, x);
    Look(S, root, c, t);
    Window(c, t);
    NeighbourAt(Keys(t0), |Before(c)| + |Keys(t.left)|, -1);
    if x.left != null {
      r := GoRight(x.left, root, S, InLeft(t.key, t.color, t.right, c), t.left);
    } else {
      r := GoUpRight(x, root, S, c, t);
    }
  }

  /** Up until the walk leaves a right subtree: the last key before the subtree. */
  method GoUpRight(x: RbNode, root: RbRoot, ghost S: set<RbNode>, ghost c0: Path<RbNode>, ghost t0: Tree<RbNode>) returns (r: RbNode?)
    requires Holds(S, root, Plug(c0, t0)) && t0.Node? && x == t0.key
    ensures r == (if Before(c0) == [] then null else Before(c0)[|Before(c0)| - 1])
  {
    var node := x;
    ghost var c, t := c0, t0;
    Look(S, root, c, t);
    while node.parent != null && node == node.parent.left
      invariant t.Node? && node == t.key && Plug(c, t) == Plug(c0, t0) && Before(c) == Before(c0)
      invariant node.parent == ParentOf(c) && (c.InRight? ==> c.key.left != node)
      decreases Depth(c)
    {
      node := node.parent;
      c, t := c.up, PlugStep(c, t);
      Look(S, root, c, t);
    }
    Look(S, root, c, t);
    r := node.parent;
  }

  /** `rb_replace_node`: the new node takes over the victim's place, links and colour. */
  method ReplaceNode(victim: RbNode, newnode: RbNode, root: RbRoot, ghost S: set<RbNode>, ghost c: Path<RbNode>, ghost t: Tree<RbNode>)
    requires Holds(S, root, Plug(c, t)) && t.Node? && t.key == victim && newnode !in S
    modifies S, newnode, root
    ensures Holds(S - {victim} + {newnode}, root, Plug(c, t.(key := newnode)))
  {
    hide LinkedPath, DistinctPath, PathSet;
    Look(S, root, c, t);
    Apart(S, root, c, t);
    Links(S, root, c, t);
    ghost var m, r := Snap(S), root.node;
    ReplaceLinks(victim, newnode, root, S);
    Replaced(m, Snap(S - {victim} + {newnode}), c, t, newnode, r, root.node);
  }

  method ReplaceLinks(victim: RbNode, newnode: RbNode, root: RbRoot, ghost S: set<RbNode>)
    requires victim in S && newnode !in S
    requires victim.left != null ==> victim.left in S && victim.left != victim && victim.left != victim.right
    requires victim.right != null ==> victim.right in S && victim.right != victim
    requires victim.parent != null ==>
      && victim.parent in S && victim.parent != victim && victim.parent != victim.left && victim.parent != victim.right
      && (victim.parent.left == victim || victim.parent.right == victim) && victim.parent.left != victim.parent.right
    modifies S, newnode, root
    ensures newnode.parent == victim.parent && newnode.left == victim.left && newnode.right == victim.right && newnode.color == victim.color
    ensures victim.left == old(victim.left) && victim.right == old(victim.right) && victim.parent == old(victim.parent) && victim.color == old(victim.color)
    ensures var l := victim.left; l != null ==>
      l.parent == newnode && l.left == old(victim.left.left) && l.right == old(victim.left.right) && l.color == old(victim.left.color)
    ensures var q := victim.right; q != null ==>
      q.parent == newnode && q.left == old(victim.right.left) && q.right == old(victim.right.right) && q.color == old(victim.right.color)
    ensures var p := victim.parent; p != null ==>
      && p.parent == old(victim.parent.parent) && p.color == old(victim.parent.color)
      && p.left == (if old(victim.parent.left) == victim then newnode else old(victim.parent.left))
      && p.right == (if old(victim.parent.left) == victim then old(victim.parent.right) else newnode)
    ensures forall n | n in S && n != victim && n != victim.left && n != victim.right && n != victim.parent ::
      n.parent == old(n.parent) && n.left == old(n.left) && n.right == old(n.right) && n.color == old(n.color)
    ensures root.node == if victim.parent == null then newnode else old(root.node)
  {
    var parent := victim.parent;
    if parent != null {
      if victim == parent.left {
        parent.left := newnode;
      } else {
        parent.right := newnode;
      }
    } else {
      root.node := newnode;
    }
    if victim.left != null {
      victim.left.parent := newnode;
    }
    if victim.right != null {
      victim.right.parent := newnode;
    }
    newnode.parent, newnode.left, newnode.right, newnode.color := victim.parent, victim.left, victim.right, victim.color;
  }
}
