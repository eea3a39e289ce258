/** The pointer red-black tree of rbtree.c. The heap is read through a snapshot of its nodes, and the
    ghost tree says which shape the links have. */
module RbTree {
  import opened Bytes
  import opened RbTheory

  /** A node together with the key of the record that embeds it (`rb_entry`). */
  class RbNode {
    var parent: RbNode?
    var left: RbNode?
    var right: RbNode?
    var color: Color
    const addr: seq<byte>

    constructor (addr: seq<byte>)
      ensures this.addr == addr
    {
      this.addr := addr;
      parent, left, right, color := null, null, null, Red;
    }
  }

  class RbRoot {
    var node: RbNode?

    constructor ()
      ensures node == null
    {
      node := null;
    }
  }

  // ------------------------------------------------------- shape of the heap

  datatype Cell = Cell(parent: RbNode?, left: RbNode?, right: RbNode?, color: Color)

  ghost function Snap(S: set<RbNode>): map<RbNode, Cell>
    reads S
  {
    map n | n in S :: Cell(n.parent, n.left, n.right, n.color)
  }

  ghost function RootOf(t: Tree<RbNode>): RbNode? { if t.Leaf? then null else t.key }

  ghost function ParentOf(c: Path<RbNode>): RbNode? { if c.Top? then null else c.key }

  ghost function KeySet(t: Tree<RbNode>): set<RbNode> {
    if t.Leaf? then {} else KeySet(t.left) + {t.key} + KeySet(t.right)
  }

  ghost function PathSet(c: Path<RbNode>): set<RbNode> {
    match c
    case Top => {}
    case InLeft(k, _, s, up) => {k} + KeySet(s) + PathSet(up)
    case InRight(s, k, _, up) => {k} + KeySet(s) + PathSet(up)
  }

  ghost predicate Distinct(t: Tree<RbNode>) {
    t.Node? ==>
      && t.key !in KeySet(t.left) && t.key !in KeySet(t.right) && KeySet(t.left) !! KeySet(t.right)
      && Distinct(t.left) && Distinct(t.right)
  }

  ghost predicate DistinctPath(c: Path<RbNode>) {
    match c
    case Top => true
    case InLeft(k, _, s, up) =>
      && k !in KeySet(s) && k !in PathSet(up) && KeySet(s) !! PathSet(up) && Distinct(s) && DistinctPath(up)
    case InRight(s, k, _, up) =>
      && k !in KeySet(s) && k !in PathSet(up) && KeySet(s) !! PathSet(up) && Distinct(s) && DistinctPath(up)
  }

  lemma {:induction false} DistinctPlug(c: Path<RbNode>, t: Tree<RbNode>)
    ensures KeySet(Plug(c, t)) == PathSet(c) + KeySet(t)
    ensures Distinct(Plug(c, t)) <==> Distinct(t) && DistinctPath(c) && KeySet(t) !! PathSet(c)
    decreases c
  {
    match c
    case Top =>
    case InLeft(k, col, s, up) => DistinctPlug(up, Node(t, k, col, s));
    case InRight(s, k, col, up) => DistinctPlug(up, Node(s, k, col, t));
  }

  /** In the memory `m`, the nodes of `t` are linked as `t` says and its root's parent is `p`. */
  ghost predicate Linked(m: map<RbNode, Cell>, t: Tree<RbNode>, p: RbNode?) {
    t.Node? ==>
      && t.key in m && m[t.key] == Cell(p, RootOf(t.left), RootOf(t.right), t.color)
      && Linked(m, t.left, t.key) && Linked(m, t.right, t.key)
  }

  /** The nodes along `c` are linked, `hole` hangs at its end and `r` is the root pointer. */
  ghost predicate LinkedPath(m: map<RbNode, Cell>, c: Path<RbNode>, hole: RbNode?, r: RbNode?) {
    match c
    case Top => r == hole
    case InLeft(k, col, s, up) =>
      && k in m && m[k] == Cell(ParentOf(up), hole, RootOf(s), col) && Linked(m, s, k) && LinkedPath(m, up, k, r)
    case InRight(s, k, col, up) =>
      && k in m && m[k] == Cell(ParentOf(up), RootOf(s), hole, col) && Linked(m, s, k) && LinkedPath(m, up, k, r)
  }

  lemma {:induction false} SplitLinks(m: map<RbNode, Cell>, c: Path<RbNode>, t: Tree<RbNode>, r: RbNode?)
    ensures Linked(m, Plug(c, t), null) && r == RootOf(Plug(c, t)) <==> Linked(m, t, ParentOf(c)) && LinkedPath(m, c, RootOf(t), r)
    decreases c
  {
    match c
    case Top =>
    case InLeft(k, col, s, up) => SplitLinks(m, up, Node(t, k, col, s), r);
    case InRight(s, k, col, up) => SplitLinks(m, up, Node(s, k, col, t), r);
  }

  lemma {:induction false} Frame(m: map<RbNode, Cell>, m': map<RbNode, Cell>, t: Tree<RbNode>, p: RbNode?)
    requires Linked(m, t, p)
    requires forall n | n in KeySet(t) :: n in m && n in m' && m'[n] == m[n]
    ensures Linked(m', t, p)
  {
    if t.Node? {
      Frame(m, m', t.left, t.key);
      Frame(m, m', t.right, t.key);
    }
  }

  /** Hanging `t` under another parent only changes the parent link of its root. */
  lemma Reparent(m: map<RbNode, Cell>, m': map<RbNode, Cell>, t: Tree<RbNode>, p: RbNode?, p': RbNode?)
    requires Linked(m, t, p) && Distinct(t)
    requires forall n | n in KeySet(t) :: n in m && n in m' && (n != RootOf(t) ==> m'[n] == m[n])
    requires t.Node? ==> m'[t.key] == m[t.key].(parent := p')
    ensures Linked(m', t, p')
  {
    if t.Node? {
      Frame(m, m', t.left, t.key);
      Frame(m, m', t.right, t.key);
    }
  }

  lemma {:induction false} FramePath(m: map<RbNode, Cell>, m': map<RbNode, Cell>, c: Path<RbNode>, hole: RbNode?, r: RbNode?)
    requires LinkedPath(m, c, hole, r)
    requires forall n | n in PathSet(c) :: n in m && n in m' && m'[n] == m[n]
    ensures LinkedPath(m', c, hole, r)
  {
    match c
    case Top =>
    case InLeft(k, _, s, up) => Frame(m, m', s, k); FramePath(m, m', up, k, r);
    case InRight(s, k, _, up) => Frame(m, m', s, k); FramePath(m, m', up, k, r);
  }

  /** Hanging `hole'` at the end of `c` only changes the child link of the last node, or the root pointer. */
  lemma Rehang(m: map<RbNode, Cell>, m': map<RbNode, Cell>, c: Path<RbNode>, hole: RbNode?, hole': RbNode?, r: RbNode?, r': RbNode?)
    requires LinkedPath(m, c, hole, r) && DistinctPath(c)
    requires forall n | n in PathSet(c) :: n in m && n in m' && (n != ParentOf(c) ==> m'[n] == m[n])
    requires c.Top? ==> r' == hole'
    requires !c.Top? ==> r' == r
    requires c.InLeft? ==> m'[c.key] == m[c.key].(left := hole')
    requires c.InRight? ==> m'[c.key] == m[c.key].(right := hole')
    ensures LinkedPath(m', c, hole', r')
  {
    match c
    case Top =>
    case InLeft(k, _, s, up) => Frame(m, m', s, k); FramePath(m, m', up, k, r);
    case InRight(s, k, _, up) => Frame(m, m', s, k); FramePath(m, m', up, k, r);
  }

  /** The heap holds exactly the tree `t`, on exactly the nodes `S`, under `root`. */
  ghost predicate Holds(S: set<RbNode>, root: RbRoot, t: Tree<RbNode>)
    reads S, root
  {
    KeySet(t) == S && Distinct(t) && Linked(Snap(S), t, null) && root.node == RootOf(t)
  }

  /** The subtree at the end of a path and the path around it, taken apart. */
  lemma Links(S: set<RbNode>, root: RbRoot, c: Path<RbNode>, t: Tree<RbNode>)
    requires Holds(S, root, Plug(c, t))
    ensures KeySet(t) <= S && PathSet(c) <= S && KeySet(t) !! PathSet(c) && Distinct(t) && DistinctPath(c)
    ensures Linked(Snap(S), t, ParentOf(c)) && LinkedPath(Snap(S), c, RootOf(t), root.node)
  {
    DistinctPlug(c, t);
    SplitLinks(Snap(S), c, t, root.node);
  }

  /** What the code reads at the end of a path. */
  lemma Look(S: set<RbNode>, root: RbRoot, c: Path<RbNode>, t: Tree<RbNode>)
    requires Holds(S, root, Plug(c, t))
    ensures t.Node? ==>
      && t.key in S && t.key.parent == ParentOf(c) && t.key.left == RootOf(t.left) && t.key.right == RootOf(t.right)
      && t.key.color == t.color
    ensures c.InLeft? ==>
      c.key in S && c.key.color == c.color && c.key.parent == ParentOf(c.up) && c.key.left == RootOf(t) && c.key.right == RootOf(c.right)
    ensures c.InRight? ==>
      c.key in S && c.key.color == c.color && c.key.parent == ParentOf(c.up) && c.key.right == RootOf(t) && c.key.left == RootOf(c.left)
    ensures c.Top? <==> root.node == RootOf(t)
    ensures c.InLeft? && t.Node? ==> c.key.right != t.key
    ensures c.InRight? && t.Node? ==> c.key.left != t.key
    ensures !c.Top? ==> Plug(c, t) == Plug(c.up, PlugStep(c, t))
  {
    Links(S, root, c, t);
    RootIsNotBelow(c, t);
  }

  /** The neighbours of a node are other nodes of the tree. */
  lemma Apart(S: set<RbNode>, root: RbRoot, c: Path<RbNode>, t: Tree<RbNode>)
    requires Holds(S, root, Plug(c, t)) && t.Node?
    ensures t.left.Node? ==> t.left.key in S && t.left.key != t.key && t.left.key != ParentOf(c) && t.left.key != RootOf(t.right)
    ensures t.right.Node? ==> t.right.key in S && t.right.key != t.key && t.right.key != ParentOf(c)
    ensures t.key in S && t.key != ParentOf(c)
    ensures !c.Top? ==> c.key in S
  {
    Links(S, root, c, t);
  }

  ghost function PlugStep(c: Path<RbNode>, t: Tree<RbNode>): Tree<RbNode>
    requires !c.Top?
  {
    if c.InLeft? then Node(t, c.key, c.color, c.right) else Node(c.left, c.key, c.color, t)
  }

  lemma {:induction false} RootIsNotBelow(c: Path<RbNode>, t: Tree<RbNode>)
    ensures !c.Top? ==> RootOf(Plug(c, t)) in PathSet(c)
    decreases c
  {
    match c
    case Top =>
    case InLeft(k, col, s, up) => RootIsNotBelow(up, Node(t, k, col, s));
    case InRight(s, k, col, up) => RootIsNotBelow(up, Node(s, k, col, t));
  }

  /** Replacing the subtree `t` at the end of `c` by `t'`: only `t'` itself and the link it hangs by need checking. */
  lemma Install(m: map<RbNode, Cell>, m': map<RbNode, Cell>, c: Path<RbNode>, t: Tree<RbNode>, t': Tree<RbNode>, r: RbNode?, r': RbNode?)
    requires Linked(m, Plug(c, t), null) && r == RootOf(Plug(c, t)) && Distinct(Plug(c, t))
    requires Linked(m', t', ParentOf(c)) && Distinct(t') && KeySet(t') !! PathSet(c)
    requires KeySet(Plug(c, t)) <= m.Keys && PathSet(c) <= m'.Keys
    requires forall n | n in PathSet(c) && n in m && n != ParentOf(c) :: m'[n] == m[n]
    requires c.Top? ==> r' == RootOf(t')
    requires !c.Top? ==> r' == r
    requires c.InLeft? && c.key in m ==> m'[c.key] == m[c.key].(left := RootOf(t'))
    requires c.InRight? && c.key in m ==> m'[c.key] == m[c.key].(right := RootOf(t'))
    ensures Linked(m', Plug(c, t'), null) && r' == RootOf(Plug(c, t'))
    ensures Distinct(Plug(c, t')) && KeySet(Plug(c, t')) == PathSet(c) + KeySet(t')
  {
    DistinctPlug(c, t);
    DistinctPlug(c, t');
    SplitLinks(m, c, t, r);
    Rehang(m, m', c, RootOf(t), RootOf(t'), r, r');
    SplitLinks(m', c, t', r');
  }

  lemma Relink(m: map<RbNode, Cell>, m': map<RbNode, Cell>, c: Path<RbNode>, t: Tree<RbNode>, t': Tree<RbNode>, r: RbNode?, r': RbNode?)
    requires Linked(m, Plug(c, t), null) && r == RootOf(Plug(c, t)) && Distinct(Plug(c, t))
    requires Linked(m', t', ParentOf(c)) && Distinct(t') && KeySet(t') == KeySet(t)
    requires KeySet(Plug(c, t)) <= m.Keys && m'.Keys == m.Keys
    requires forall n | n in m && n !in KeySet(t) && n != ParentOf(c) :: m'[n] == m[n]
    requires c.Top? ==> r' == RootOf(t')
    requires !c.Top? ==> r' == r
    requires c.InLeft? && c.key in m ==> m'[c.key] == m[c.key].(left := RootOf(t'))
    requires c.InRight? && c.key in m ==> m'[c.key] == m[c.key].(right := RootOf(t'))
    ensures Linked(m', Plug(c, t'), null) && r' == RootOf(Plug(c, t'))
    ensures Distinct(Plug(c, t')) && KeySet(Plug(c, t')) == KeySet(Plug(c, t))
  {
    DistinctPlug(c, t);
    Install(m, m', c, t, t', r, r');
  }

  lemma RotLLinked(m: map<RbNode, Cell>, m': map<RbNode, Cell>, t: Tree<RbNode>, p: RbNode?)
    requires t.Node? && t.right.Node? && Distinct(t) && Linked(m, t, p)
    requires KeySet(t) <= m'.Keys && KeySet(t) <= m.Keys
    requires m'[t.key] == Cell(t.right.key, RootOf(t.left), RootOf(t.right.left), t.color)
    requires t.right.key in m' && m'[t.right.key] == Cell(p, t.key, RootOf(t.right.right), t.right.color)
    requires forall n | n in KeySet(t) && n != t.key && n != t.right.key && n != RootOf(t.right.left) :: m'[n] == m[n]
    requires t.right.left.Node? && t.right.left.key in m && t.right.left.key in m' ==> m'[t.right.left.key] == m[t.right.left.key].(parent := t.key)
    ensures Linked(m', RotL(t), p) && Distinct(RotL(t)) && KeySet(RotL(t)) == KeySet(t)
  {
    Frame(m, m', t.left, t.key);
    Reparent(m, m', t.right.left, t.right.key, t.key);
    Frame(m, m', t.right.right, t.right.key);
  }

  lemma RotRLinked(m: map<RbNode, Cell>, m': map<RbNode, Cell>, t: Tree<RbNode>, p: RbNode?)
    requires t.Node? && t.left.Node? && Distinct(t) && Linked(m, t, p)
    requires KeySet(t) <= m'.Keys && KeySet(t) <= m.Keys
    requires m'[t.key] == Cell(t.left.key, RootOf(t.left.right), RootOf(t.right), t.color)
    requires t.left.key in m' && m'[t.left.key] == Cell(p, RootOf(t.left.left), t.key, t.left.color)
    requires forall n | n in KeySet(t) && n != t.key && n != t.left.key && n != RootOf(t.left.right) :: m'[n] == m[n]
    requires t.left.right.Node? && t.left.right.key in m && t.left.right.key in m' ==> m'[t.left.right.key] == m[t.left.right.key].(parent := t.key)
    ensures Linked(m', RotR(t), p) && Distinct(RotR(t)) && KeySet(RotR(t)) == KeySet(t)
  {
    Frame(m, m', t.right, t.key);
    Reparent(m, m', t.left.right, t.left.key, t.key);
    Frame(m, m', t.left.left, t.left.key);
  }

  /** `__rb_rotate_left`. */
  method RotateLeft(node: RbNode, root: RbRoot, ghost S: set<RbNode>)
    requires node in S && node.right in S && node.right != node
    requires node.right.left != null ==> node.right.left in S && node.right.left != node && node.right.left != node.right
    requires node.parent != null ==>
      && node.parent in S && node.parent != node && node.parent != node.right && node.parent != node.right.left
      && (node.parent.left == node || node.parent.right == node) && node.parent.left != node.parent.right
    modifies S, root
    ensures node.parent == old(node.right) && node.left == old(node.left) && node.right == old(node.right.left) && node.color == old(node.color)
    ensures var y := old(node.right);
      y.parent == old(node.parent) && y.left == node && y.right == old(node.right.right) && y.color == old(node.right.color)
    ensures var b := old(node.right.left); b != null ==>
      b.parent == node && b.left == old(node.right.left.left) && b.right == old(node.right.left.right) && b.color == old(node.right.left.color)
    ensures var p := old(node.parent); p != null ==>
      && p.parent == old(node.parent.parent) && p.color == old(node.parent.color)
      && p.left == (if old(node.parent.left) == node then old(node.right) else old(node.parent.left))
      && p.right == (if old(node.parent.left) == node then old(node.parent.right) else old(node.right))
    ensures forall n | n in S && n != node && n != old(node.right) && n != old(node.right.left) && n != old(node.parent) ::
      n.parent == old(n.parent) && n.left == old(n.left) && n.right == old(n.right) && n.color == old(n.color)
    ensures root.node == if old(node.parent) == null then old(node.right) else old(root.node)
  {
    var right := node.right;
    node.right := right.left;
    if node.right != null {
      right.left.parent := node;
    }
    right.left := node;
    right.parent := node.parent;
    if right.parent != null {
      if node == node.parent.left {
        node.parent.left := right;
      } else {
        node.parent.right := right;
      }
    } else {
      root.node := right;
    }
    node.parent := right;
  }

  /** `__rb_rotate_right`. */
  method RotateRight(node: RbNode, root: RbRoot, ghost S: set<RbNode>)
    requires node in S && node.left in S && node.left != node
    requires node.left.right != null ==> node.left.right in S && node.left.right != node && node.left.right != node.left
    requires node.parent != null ==>
      && node.parent in S && node.parent != node && node.parent != node.left && node.parent != node.left.right
      && (node.parent.right == node || node.parent.left == node) && node.parent.right != node.parent.left
    modifies S, root
    ensures node.parent == old(node.left) && node.right == old(node.right) && node.left == old(node.left.right) && node.color == old(node.color)
    ensures var y := old(node.left);
      y.parent == old(node.parent) && y.right == node && y.left == old(node.left.left) && y.color == old(node.left.color)
    ensures var b := old(node.left.right); b != null ==>
      b.parent == node && b.right == old(node.left.right.right) && b.left == old(node.left.right.left) && b.color == old(node.left.right.color)
    ensures var p := old(node.parent); p != null ==>
      && p.parent == old(node.parent.parent) && p.color == old(node.parent.color)
      && p.right == (if old(node.parent.right) == node then old(node.left) else old(node.parent.right))
      && p.left == (if old(node.parent.right) == node then old(node.parent.left) else old(node.left))
    ensures forall n | n in S && n != node && n != old(node.left) && n != old(node.left.right) && n != old(node.parent) ::
      n.parent == old(n.parent) && n.right == old(n.right) && n.left == old(n.left) && n.color == old(n.color)
    ensures root.node == if old(node.parent) == null then old(node.left) else old(root.node)
  {
    var left := node.left;
    node.left := left.right;
    if node.left != null {
      left.right.parent := node;
    }
    left.right := node;
    left.parent := node.parent;
    if left.parent != null {
      if node == node.parent.right {
        node.parent.right := left;
      } else {
        node.parent.left := left;
      }
    } else {
      root.node := left;
    }
    node.parent := left;
  }

  /** A left rotation in the middle of a tree: only the rotated subtree changes, and the order of the keys does not. */
  method RotateLeftAt(node: RbNode, root: RbRoot, ghost S: set<RbNode>, ghost c: Path<RbNode>, ghost t: Tree<RbNode>)
    requires t.Node? && t.key == node && t.right.Node?
    requires Holds(S, root, Plug(c, t))
    modifies S, root
    ensures Holds(S, root, Plug(c, RotL(t))) && Keys(Plug(c, RotL(t))) == Keys(Plug(c, t))
  {
    Links(S, root, c, t);
    RotLKeys(t);
    SameKeys(c, t, RotL(t));
    ghost var m := Snap(S);
    ghost var r := root.node;
    RotateLeft(node, root, S);
    RotLLinked(m, Snap(S), t, ParentOf(c));
    Relink(m, Snap(S), c, t, RotL(t), r, root.node);
  }

  /** A right rotation in the middle of a tree: only the rotated subtree changes, and the order of the keys does not. */
  method RotateRightAt(node: RbNode, root: RbRoot, ghost S: set<RbNode>, ghost c: Path<RbNode>, ghost t: Tree<RbNode>)
    requires t.Node? && t.key == node && t.left.Node?
    requires Holds(S, root, Plug(c, t))
    modifies S, root
    ensures Holds(S, root, Plug(c, RotR(t))) && Keys(Plug(c, RotR(t))) == Keys(Plug(c, t))
  {
    Links(S, root, c, t);
    RotRKeys(t);
    SameKeys(c, t, RotR(t));
    ghost var m := Snap(S);
    ghost var r := root.node;
    RotateRight(node, root, S);
    RotRLinked(m, Snap(S), t, ParentOf(c));
    Relink(m, Snap(S), c, t, RotR(t), r, root.node);
  }


  method SetColor(node: RbNode, color: Color, root: RbRoot, ghost S: set<RbNode>, ghost c: Path<RbNode>, ghost t: Tree<RbNode>)
    requires t.Node? && t.key == node
    requires Holds(S, root, Plug(c, t))
    modifies S
    ensures Holds(S, root, Plug(c, Paint(t, color))) && Keys(Plug(c, Paint(t, color))) == Keys(Plug(c, t))
  {
    hide LinkedPath, DistinctPath, PathSet;
    Links(S, root, c, t);
    ghost var m := Snap(S);
    node.color := color;
    SameKeys(c, t, Paint(t, color));
    Frame(m, Snap(S), t.left, node);
    Frame(m, Snap(S), t.right, node);
    Relink(m, Snap(S), c, t, Paint(t, color), root.node, root.node);
  }

  ghost function Depth(c: Path<RbNode>): nat { if c.Top? then 0 else 1 + Depth(c.up) }

  /** The walk of rb_insert_color: the red node `t.key` may have a red parent, and nothing else is out of balance. */
  ghost predicate Inserting(c: Path<RbNode>, t: Tree<RbNode>, h: int) {
    IsRed(t) && Balanced(t, h) && Fits(c, h)
  }

  ghost function Flipped(g: Tree<RbNode>): Tree<RbNode>
    requires g.Node? && g.left.Node? && g.right.Node?
  {
    Node(Paint(g.left, Black), g.key, Red, Paint(g.right, Black))
  }

  /** Below a red parent the grandparent is black, and flipping its children's red up keeps the balance. */
  lemma InsertFlip(c: Path<RbNode>, t: Tree<RbNode>, h: int)
    requires Inserting(c, t, h) && TopRed(c)
    ensures !c.up.Top? && c.up.color == Black
    ensures var g := PlugStep(c.up, PlugStep(c, t)); var u := if c.up.InLeft? then g.right else g.left;
      IsRed(u) ==> Inserting(c.up.up, Flipped(g), h + 1)
  {
    var p := PlugStep(c, t);
    assert Fits(c.up, h);
    assert Balanced(Paint(p, Black), h + 1);
    var u := if c.up.InLeft? then c.up.right else c.up.left;
    assert Balanced(u, h);
    if IsRed(u) { assert Balanced(Paint(u, Black), h + 1); }
  }

  /** With a black uncle the two rotations end the walk. */
  lemma InsertRotate(c: Path<RbNode>, t: Tree<RbNode>, h: int)
    requires Inserting(c, t, h) && TopRed(c)
    ensures !c.up.Top? && c.up.color == Black
    ensures c.up.InLeft? && !IsRed(c.up.right) ==>
      var p := if c.InLeft? then PlugStep(c, t) else RotL(PlugStep(c, t));
      Inserting(InLeft(p.key, Black, Node(p.right, c.up.key, Red, c.up.right), c.up.up), p.left, h)
    ensures c.up.InRight? && !IsRed(c.up.left) ==>
      var p := if c.InRight? then PlugStep(c, t) else RotR(PlugStep(c, t));
      Inserting(InRight(Node(c.up.left, c.up.key, Red, p.left), p.key, Black, c.up.up), p.right, h)
  {
    assert Fits(c.up, h);
    assert Fits(c.up.up, h + 1);
  }

  method InsertColor(x: RbNode, root: RbRoot, ghost S: set<RbNode>, ghost c0: Path<RbNode>) returns (ghost t': Tree<RbNode>)
    requires RedBlack(Plug(c0, Leaf))
    requires Holds(S, root, Plug(c0, Node(Leaf, x, Red, Leaf)))
    modifies S, root
    ensures Holds(S, root, t') && RedBlack(t')
    ensures Keys(t') == Before(c0) + [x] + After(c0)
  {
    var node := x;
    ghost var c, t := c0, Node(Leaf, x, Red, Leaf);
    ghost var h := Unplug(c0, Leaf);
    KeysPlug(c0, t);
    Look(S, root, c, t);
    while node.parent != null && node.parent.color == Red
      invariant t.Node? && t.key == node && Holds(S, root, Plug(c, t))
      invariant node.parent == ParentOf(c) && (!c.Top? ==> c.key.color == c.color)
      invariant Inserting(c, t, h)
      invariant Keys(Plug(c, t)) == Before(c0) + [x] + After(c0)
      decreases Depth(c)
    {
      node, c, t, h := InsertStep(node, root, S, c, t, h);
      Look(S, root, c, t);
    }
    RootBlack(c, t, h);
    ghost var T := Plug(c, t);
    Look(S, root, Path.Top, T);
    SetColor(root.node, Black, root, S, Path.Top, T);
    t' := Paint(T, Black);
  }

  lemma {:induction false} RootBlack(c: Path<RbNode>, t: Tree<RbNode>, h: int)
    requires t.Node? && Balanced(t, h) && Fits(c, h)
    requires IsRed(t) ==> !TopRed(c)
    ensures Plug(c, t).Node? && RedBlack(Paint(Plug(c, t), Black))
    decreases c
  {
    if c.Top? {
      assert Balanced(Paint(t, Black), if t.color == Red then h + 1 else h);
    } else if c.InLeft? {
      RootBlack(c.up, Node(t, c.key, c.color, c.right), if c.color == Black then h + 1 else h);
    } else {
      RootBlack(c.up, Node(c.left, c.key, c.color, t), if c.color == Black then h + 1 else h);
    }
  }

  /** Red uncle: the red moves up to the grandparent. */
  method Flip(parent: RbNode, uncle: RbNode, gparent: RbNode, root: RbRoot, ghost S: set<RbNode>, ghost up: Path<RbNode>, ghost g: Tree<RbNode>)
    requires g.Node? && g.left.Node? && g.right.Node? && g.key == gparent
    requires (g.left.key == parent && g.right.key == uncle) || (g.left.key == uncle && g.right.key == parent)
    requires Holds(S, root, Plug(up, g))
    modifies S, root
    ensures Holds(S, root, Plug(up, Flipped(g))) && Keys(Plug(up, Flipped(g))) == Keys(Plug(up, g))
  {
    ghost var l, r := Paint(g.left, Black), Paint(g.right, Black);
    ghost var isLeft := parent == g.left.key;
    SetColor(uncle, Black, root, S,
      if isLeft then InRight(g.left, gparent, g.color, up) else InLeft(gparent, g.color, g.right, up), if isLeft then g.right else g.left);
    SetColor(parent, Black, root, S,
      if isLeft then InLeft(gparent, g.color, r, up) else InRight(l, gparent, g.color, up), if isLeft then g.left else g.right);
    SetColor(gparent, Red, root, S, up, Node(l, gparent, g.color, r));
  }

  method InsertStep(x: RbNode, root: RbRoot, ghost S: set<RbNode>, ghost c: Path<RbNode>, ghost t: Tree<RbNode>, ghost h: int)
    returns (node: RbNode, ghost c': Path<RbNode>, ghost t': Tree<RbNode>, ghost h': int)
    requires t.Node? && t.key == x && Holds(S, root, Plug(c, t)) && Inserting(c, t, h) && TopRed(c)
    requires x.parent == c.key
    modifies S, root
    ensures t'.Node? && t'.key == node && Holds(S, root, Plug(c', t')) && Inserting(c', t', h')
    ensures Keys(Plug(c', t')) == Keys(Plug(c, t)) && Depth(c') < Depth(c)
  {
    var parent := x.parent;
    Look(S, root, c.up, PlugStep(c, t));
    Look(S, root, c, t);
    if parent == parent.parent.left {
      node, c', t', h' := InsertStepLeft(x, root, S, c, t, h);
    } else {
      node, c', t', h' := InsertStepRight(x, root, S, c, t, h);
    }
  }

  /** One turn of the loop with the parent a left child. */
  method InsertStepLeft(x: RbNode, root: RbRoot, ghost S: set<RbNode>, ghost c: Path<RbNode>, ghost t: Tree<RbNode>, ghost h: int)
    returns (node: RbNode, ghost c': Path<RbNode>, ghost t': Tree<RbNode>, ghost h': int)
    requires t.Node? && t.key == x && Holds(S, root, Plug(c, t)) && Inserting(c, t, h)
    requires TopRed(c) && c.up.InLeft? && x.parent == c.key && c.key.parent == c.up.key
    modifies S, root
    ensures t'.Node? && t'.key == node && Holds(S, root, Plug(c', t')) && Inserting(c', t', h')
    ensures Keys(Plug(c', t')) == Keys(Plug(c, t)) && Depth(c') < Depth(c)
  {
    node, c', t', h' := x, c, t, h;
    InsertFlip(c, t, h);
    InsertRotate(c, t, h);
    ghost var up, u := c.up, c.up.right;
    ghost var p := PlugStep(c, t);
    var parent, gparent := node.parent, node.parent.parent;
    ghost var g := Node(p, gparent, up.color, u);
    Look(S, root, c, t);
    Look(S, root, up, p);
    Look(S, root, InRight(p, gparent, up.color, up.up), u);
    var uncle := gparent.right;
    if uncle != null && uncle.color == Red {
      Flip(parent, uncle, gparent, root, S, up.up, g);
      node, c', t', h' := gparent, up.up, Flipped(g), h + 1;
      return;
    }
    if parent.right == node {
      RotateLeftAt(parent, root, S, up, p);
      parent, node := node, parent;
      p := RotL(p);
    }
    InsertRotateRight(parent, gparent, root, S, up.up, p, up.color, u);
    c', t' := InLeft(parent, Black, Node(p.right, gparent, Red, u), up.up), p.left;
  }

  /** The last rotation: the parent goes up and turns black, the grandparent goes down and turns red. */
  method InsertRotateRight(parent: RbNode, gparent: RbNode, root: RbRoot, ghost S: set<RbNode>,
                           ghost up: Path<RbNode>, ghost p: Tree<RbNode>, ghost col: Color, ghost u: Tree<RbNode>)
    requires p.Node? && p.key == parent
    requires Holds(S, root, Plug(up, Node(p, gparent, col, u)))
    modifies S, root
    ensures Holds(S, root, Plug(up, Node(p.left, parent, Black, Node(p.right, gparent, Red, u))))
    ensures Keys(Plug(up, Node(p.left, parent, Black, Node(p.right, gparent, Red, u)))) == Keys(Plug(up, Node(p, gparent, col, u)))
  {
    SetColor(parent, Black, root, S, InLeft(gparent, col, u, up), p);
    ghost var g := Node(Paint(p, Black), gparent, col, u);
    SetColor(gparent, Red, root, S, up, g);
    RotateRightAt(gparent, root, S, up, Paint(g, Red));
  }

  /** One turn of the loop with the parent a right child. */
  method InsertStepRight(x: RbNode, root: RbRoot, ghost S: set<RbNode>, ghost c: Path<RbNode>, ghost t: Tree<RbNode>, ghost h: int)
    returns (node: RbNode, ghost c': Path<RbNode>, ghost t': Tree<RbNode>, ghost h': int)
    requires t.Node? && t.key == x && Holds(S, root, Plug(c, t)) && Inserting(c, t, h)
    requires TopRed(c) && c.up.InRight? && x.parent == c.key && c.key.parent == c.up.key
    modifies S, root
    ensures t'.Node? && t'.key == node && Holds(S, root, Plug(c', t')) && Inserting(c', t', h')
    ensures Keys(Plug(c', t')) == Keys(Plug(c, t)) && Depth(c') < Depth(c)
  {
    node, c', t', h' := x, c, t, h;
    InsertFlip(c, t, h);
    InsertRotate(c, t, h);
    ghost var up, u := c.up, c.up.left;
    ghost var p := PlugStep(c, t);
    var parent, gparent := node.parent, node.parent.parent;
    ghost var g := Node(u, gparent, up.color, p);
    Look(S, root, c, t);
    Look(S, root, up, p);
    Look(S, root, InLeft(gparent, up.color, p, up.up), u);
    var uncle := gparent.left;
    if uncle != null && uncle.color == Red {
      Flip(parent, uncle, gparent, root, S, up.up, g);
      node, c', t', h' := gparent, up.up, Flipped(g), h + 1;
      return;
    }
    if parent.left == node {
      RotateRightAt(parent, root, S, up, p);
      parent, node := node, parent;
      p := RotR(p);
    }
    InsertRotateLeft(parent, gparent, root, S, up.up, p, up.color, u);
    c', t' := InRight(Node(u, gparent, Red, p.left), parent, Black, up.up), p.right;
  }

  /** The last rotation: the parent goes up and turns black, the grandparent goes down and turns red. */
  method InsertRotateLeft(parent: RbNode, gparent: RbNode, root: RbRoot, ghost S: set<RbNode>,
                           ghost up: Path<RbNode>, ghost p: Tree<RbNode>, ghost col: Color, ghost u: Tree<RbNode>)
    requires p.Node? && p.key == parent
    requires Holds(S, root, Plug(up, Node(u, gparent, col, p)))
    modifies S, root
    ensures Holds(S, root, Plug(up, Node(Node(u, gparent, Red, p.left), parent, Black, p.right)))
    ensures Keys(Plug(up, Node(Node(u, gparent, Red, p.left), parent, Black, p.right))) == Keys(Plug(up, Node(u, gparent, col, p)))
  {
    SetColor(parent, Black, root, S, InRight(u, gparent, col, up), p);
    ghost var g := Node(u, gparent, col, Paint(p, Black));
    SetColor(gparent, Red, root, S, up, g);
    RotateLeftAt(gparent, root, S, up, Paint(g, Red));
  }

  // ---------------------------------------------------------------- erasing

  /** `t` is one black short; a red root may also clash with its children, and painting it black mends both. */
  ghost predicate Short(t: Tree<RbNode>, h: int) {
    if IsRed(t) then Balanced(t.left, h) && Balanced(t.right, h) else Balanced(t, h)
  }

  ghost predicate Erasing(c: Path<RbNode>, t: Tree<RbNode>, h: int) {
    Short(t, h) && Fits(c, h + 1)
  }

  /** A red sibling is rotated up: the new sibling is black and the parent red. */
  lemma EraseRedLeft(c: Path<RbNode>, t: Tree<RbNode>, h: int)
    requires Erasing(c, t, h) && !IsRed(t) && c.InLeft? && IsRed(c.right)
    ensures c.color == Black && c.right.left.Node?
    ensures Erasing(InLeft(c.key, Red, c.right.left, InLeft(c.right.key, Black, c.right.right, c.up)), t, h)
    ensures !IsRed(c.right.left)
  {
    BalancedNonNegative(t, h);
    assert Balanced(c.right, h + 1);
    assert Balanced(c.right.left, h + 1) && Balanced(c.right.right, h + 1);
    assert Fits(InLeft(c.right.key, Black, c.right.right, c.up), h + 1);
  }

  /** Both nephews black: the sibling turns red and the parent's subtree is now the short one. */
  lemma EraseUpLeft(c: Path<RbNode>, t: Tree<RbNode>, h: int)
    requires Erasing(c, t, h) && !IsRed(t) && c.InLeft? && !IsRed(c.right)
    ensures c.right.Node?
    ensures !IsRed(c.right.left) && !IsRed(c.right.right) ==>
      Erasing(c.up, Node(t, c.key, c.color, Paint(c.right, Red)), if c.color == Black then h + 1 else h)
  {
    BalancedNonNegative(t, h);
  }

  ghost function MendedLeft(c: Path<RbNode>, t: Tree<RbNode>, s: Tree<RbNode>): Tree<RbNode>
    requires c.InLeft? && s.Node? && s.right.Node?
  {
    Node(Node(t, c.key, Black, s.left), s.key, c.color, Paint(s.right, Black))
  }

  /** A red nephew: after the rotations nothing is short any more. */
  lemma EraseMendLeft(c: Path<RbNode>, t: Tree<RbNode>, h: int)
    requires Erasing(c, t, h) && !IsRed(t) && c.InLeft? && !IsRed(c.right)
    ensures c.right.Node?
    ensures IsRed(c.right.right) ==> RedBlack(Plug(c.up, MendedLeft(c, t, c.right)))
    ensures IsRed(c.right.left) && !IsRed(c.right.right) ==>
      RedBlack(Plug(c.up, MendedLeft(c, t, RotR(Paint(Node(Paint(c.right.left, Black), c.right.key, c.right.color, c.right.right), Red)))))
  {
    BalancedNonNegative(t, h);
    assert Balanced(c.right, h + 1);
    assert Balanced(c.right.left, h) && Balanced(c.right.right, h);
    var g := if c.color == Black then h + 2 else h + 1;
    if IsRed(c.right.right) {
      assert Balanced(Paint(c.right.right, Black), h + 1);
      BalancedPlug(c.up, MendedLeft(c, t, c.right), g);
    } else if IsRed(c.right.left) {
      var s := RotR(Paint(Node(Paint(c.right.left, Black), c.right.key, c.right.color, c.right.right), Red));
      assert Balanced(Paint(s.right, Black), h + 1);
      BalancedPlug(c.up, MendedLeft(c, t, s), g);
    }
  }

  /** One turn of the loop with `node` a left child. */
  method EraseStepLeft(x: RbNode?, parent0: RbNode, root: RbRoot, ghost S: set<RbNode>, ghost c0: Path<RbNode>, ghost t: Tree<RbNode>, ghost h0: int)
    returns (node: RbNode?, parent: RbNode?, ghost c': Path<RbNode>, ghost t': Tree<RbNode>, ghost h': int)
    requires Holds(S, root, Plug(c0, t)) && Erasing(c0, t, h0) && !IsRed(t)
    requires x == RootOf(t) && c0.InLeft? && parent0 == c0.key
    modifies S, root
    ensures Holds(S, root, Plug(c', t')) && Erasing(c', t', h') && node == RootOf(t') && (parent == ParentOf(c') || c'.Top?)
    ensures Keys(Plug(c', t')) == Keys(Plug(c0, t))
    ensures IsRed(t') || Depth(c') < Depth(c0)
  {
    ghost var c := c0;
    node, parent := x, parent0;
    Look(S, root, c, t);
    Look(S, root, InRight(t, c.key, c.color, c.up), c.right);
    EraseSiblingLeft(c, t, h0);
    var other := parent.right;
    if other.color == Red {
      EraseRedLeft(c, t, h0);
      EraseRotateLeft(other, parent, root, S, c, t);
      c := InLeft(c.key, Red, c.right.left, InLeft(c.right.key, Black, c.right.right, c.up));
      Look(S, root, c, t);
      other := parent.right;
    }
    EraseUpLeft(c, t, h0);
    EraseMendLeft(c, t, h0);
    node, parent, c', t', h' := EraseBlackLeft(other, parent, root, S, c, t, h0);
  }

  lemma EraseSiblingLeft(c: Path<RbNode>, t: Tree<RbNode>, h: int)
    requires Erasing(c, t, h) && !IsRed(t) && c.InLeft?
    ensures c.right.Node?
  {
    BalancedNonNegative(t, h);
  }

  method EraseRotateLeft(other: RbNode, parent: RbNode, root: RbRoot, ghost S: set<RbNode>, ghost c: Path<RbNode>, ghost t: Tree<RbNode>)
    requires Holds(S, root, Plug(c, t)) && c.InLeft? && c.right.Node? && other == c.right.key && parent == c.key
    modifies S, root
    ensures var c' := InLeft(c.key, Red, c.right.left, InLeft(c.right.key, Black, c.right.right, c.up));
      Holds(S, root, Plug(c', t)) && Keys(Plug(c', t)) == Keys(Plug(c, t))
  {
    SetColor(other, Black, root, S, InRight(t, c.key, c.color, c.up), c.right);
    ghost var p := Node(t, c.key, c.color, Paint(c.right, Black));
    SetColor(parent, Red, root, S, c.up, p);
    RotateLeftAt(parent, root, S, c.up, Paint(p, Red));
    assert Plug(c.up, RotL(Paint(p, Red))) == Plug(InLeft(c.right.key, Black, c.right.right, c.up), Node(t, c.key, Red, c.right.left));
  }

  /** The rest of the turn, with a black sibling. */
  method EraseBlackLeft(other0: RbNode, parent0: RbNode, root: RbRoot, ghost S: set<RbNode>, ghost c: Path<RbNode>, ghost t: Tree<RbNode>, ghost h: int)
    returns (node: RbNode?, parent: RbNode?, ghost c': Path<RbNode>, ghost t': Tree<RbNode>, ghost h': int)
    requires Holds(S, root, Plug(c, t)) && Erasing(c, t, h) && !IsRed(t)
    requires c.InLeft? && c.right.Node? && !IsRed(c.right) && parent0 == c.key && other0 == c.right.key
    modifies S, root
    ensures Holds(S, root, Plug(c', t')) && Erasing(c', t', h') && node == RootOf(t') && (parent == ParentOf(c') || c'.Top?)
    ensures Keys(Plug(c', t')) == Keys(Plug(c, t))
    ensures c' == Path.Top || (c' == c.up && IsRed(t') == (c.color == Red))
  {
    var other := other0;
    parent := parent0;
    ghost var s := c.right;
    ghost var cs := InRight(t, c.key, c.color, c.up);
    Look(S, root, cs, s);
    Look(S, root, InRight(s.left, s.key, s.color, cs), s.right);
    Look(S, root, InLeft(s.key, s.color, s.right, cs), s.left);
    EraseUpLeft(c, t, h);
    EraseMendLeft(c, t, h);
    if (other.left == null || other.left.color == Black) && (other.right == null || other.right.color == Black) {
      SetColor(other, Red, root, S, cs, s);
      node := parent;
      c', t', h' := c.up, Node(t, c.key, c.color, Paint(s, Red)), if c.color == Black then h + 1 else h;
      Look(S, root, c', t');
      parent := node.parent;
    } else {
      if other.right == null || other.right.color == Black {
        s := EraseNephewLeft(other, other.left, root, S, cs, s);
        Look(S, root, cs, s);
        other := parent.right;
      }
      MendLeft(other, parent, root, S, c, t, s);
      node := root.node;
      c', t' := Path.Top, Plug(c.up, MendedLeft(c, t, s));
      h' :| Balanced(t', h');
    }
  }

  method EraseNephewLeft(other: RbNode, o_left: RbNode?, root: RbRoot, ghost S: set<RbNode>, ghost cs: Path<RbNode>, ghost s: Tree<RbNode>)
    returns (ghost s': Tree<RbNode>)
    requires Holds(S, root, Plug(cs, s)) && s.Node? && s.left.Node? && other == s.key && o_left == s.left.key
    modifies S, root
    ensures s' == RotR(Paint(Node(Paint(s.left, Black), s.key, s.color, s.right), Red))
    ensures Holds(S, root, Plug(cs, s')) && Keys(Plug(cs, s')) == Keys(Plug(cs, s))
  {
    if o_left != null {
      SetColor(o_left, Black, root, S, InLeft(s.key, s.color, s.right, cs), s.left);
    }
    s' := Node(Paint(s.left, Black), s.key, s.color, s.right);
    SetColor(other, Red, root, S, cs, s');
    RotateRightAt(other, root, S, cs, Paint(s', Red));
    s' := RotR(Paint(s', Red));
  }

  method MendLeft(other: RbNode, parent: RbNode, root: RbRoot, ghost S: set<RbNode>, ghost c: Path<RbNode>, ghost t: Tree<RbNode>, ghost s: Tree<RbNode>)
    requires c.InLeft? && s.Node? && s.right.Node? && other == s.key && parent == c.key
    requires Holds(S, root, Plug(c.up, Node(t, c.key, c.color, s)))
    modifies S, root
    ensures Holds(S, root, Plug(c.up, MendedLeft(c, t, s))) && Keys(Plug(c.up, MendedLeft(c, t, s))) == Keys(Plug(c.up, Node(t, c.key, c.color, s)))
  {
    ghost var p := Node(t, c.key, c.color, s);
    ghost var s' := Paint(s, c.color);
    Look(S, root, c.up, p);
    SetColor(other, parent.color, root, S, InRight(t, c.key, c.color, c.up), s);
    SetColor(parent, Black, root, S, c.up, Node(t, c.key, c.color, s'));
    ghost var cs := InRight(t, c.key, Black, c.up);
    Look(S, root, cs, s');
    if other.right != null {
      SetColor(other.right, Black, root, S, InRight(s.left, s.key, c.color, cs), s.right);
    }
    RotateLeftAt(parent, root, S, c.up, Node(t, c.key, Black, Node(s.left, s.key, c.color, Paint(s.right, Black))));
  }

  /** A red sibling is rotated up: the new sibling is black and the parent red. */
  lemma EraseRedRight(c: Path<RbNode>, t: Tree<RbNode>, h: int)
    requires Erasing(c, t, h) && !IsRed(t) && c.InRight? && IsRed(c.left)
    ensures c.color == Black && c.left.right.Node?
    ensures Erasing(InRight(c.left.right, c.key, Red, InRight(c.left.left, c.left.key, Black, c.up)), t, h)
    ensures !IsRed(c.left.right)
  {
    BalancedNonNegative(t, h);
    assert Balanced(c.left, h + 1);
    assert Balanced(c.left.right, h + 1) && Balanced(c.left.left, h + 1);
    assert Fits(InRight(c.left.left, c.left.key, Black, c.up), h + 1);
  }

  /** Both nephews black: the sibling turns red and the parent's subtree is now the short one. */
  lemma EraseUpRight(c: Path<RbNode>, t: Tree<RbNode>, h: int)
    requires Erasing(c, t, h) && !IsRed(t) && c.InRight? && !IsRed(c.left)
    ensures c.left.Node?
    ensures !IsRed(c.left.right) && !IsRed(c.left.left) ==>
      Erasing(c.up, Node(Paint(c.left, Red), c.key, c.color, t), if c.color == Black then h + 1 else h)
  {
    BalancedNonNegative(t, h);
  }

  ghost function MendedRight(c: Path<RbNode>, t: Tree<RbNode>, s: Tree<RbNode>): Tree<RbNode>
    requires c.InRight? && s.Node? && s.left.Node?
  {
    Node(Paint(s.left, Black), s.key, c.color, Node(s.right, c.key, Black, t))
  }

  /** A red nephew: after the rotations nothing is short any more. */
  lemma EraseMendRight(c: Path<RbNode>, t: Tree<RbNode>, h: int)
    requires Erasing(c, t, h) && !IsRed(t) && c.InRight? && !IsRed(c.left)
    ensures c.left.Node?
    ensures IsRed(c.left.left) ==> RedBlack(Plug(c.up, MendedRight(c, t, c.left)))
    ensures IsRed(c.left.right) && !IsRed(c.left.left) ==>
      RedBlack(Plug(c.up, MendedRight(c, t, RotL(Paint(Node(c.left.left, c.left.key, c.left.color, Paint(c.left.right, Black)), Red)))))
  {
    BalancedNonNegative(t, h);
    assert Balanced(c.left, h + 1);
    assert Balanced(c.left.left, h) && Balanced(c.left.right, h);
    var g := if c.color == Black then h + 2 else h + 1;
    if IsRed(c.left.left) {
      assert Balanced(Paint(c.left.left, Black), h + 1);
      BalancedPlug(c.up, MendedRight(c, t, c.left), g);
    } else if IsRed(c.left.right) {
      var s := RotL(Paint(Node(c.left.left, c.left.key, c.left.color, Paint(c.left.right, Black)), Red));
      assert Balanced(Paint(s.left, Black), h + 1);
      BalancedPlug(c.up, MendedRight(c, t, s), g);
    }
  }

  /** One turn of the loop with `node` a right child. */
  method EraseStepRight(x: RbNode?, parent0: RbNode, root: RbRoot, ghost S: set<RbNode>, ghost c0: Path<RbNode>, ghost t: Tree<RbNode>, ghost h0: int)
    returns (node: RbNode?, parent: RbNode?, ghost c': Path<RbNode>, ghost t': Tree<RbNode>, ghost h': int)
    requires Holds(S, root, Plug(c0, t)) && Erasing(c0, t, h0) && !IsRed(t)
    requires x == RootOf(t) && c0.InRight? && parent0 == c0.key
    modifies S, root
    ensures Holds(S, root, Plug(c', t')) && Erasing(c', t', h') && node == RootOf(t') && (parent == ParentOf(c') || c'.Top?)
    ensures Keys(Plug(c', t')) == Keys(Plug(c0, t))
    ensures IsRed(t') || Depth(c') < Depth(c0)
  {
    ghost var c := c0;
    node, parent := x, parent0;
    Look(S, root, c, t);
    Look(S, root, InLeft(c.key, c.color, t, c.up), c.left);
    EraseSiblingRight(c, t, h0);
    var other := parent.left;
    if other.color == Red {
      EraseRedRight(c, t, h0);
      EraseRotateRight(other, parent, root, S, c, t);
      c := InRight(c.left.right, c.key, Red, InRight(c.left.left, c.left.key, Black, c.up));
      Look(S, root, c, t);
      other := parent.left;
    }
    EraseUpRight(c, t, h0);
    EraseMendRight(c, t, h0);
    node, parent, c', t', h' := EraseBlackRight(other, parent, root, S, c, t, h0);
  }

  lemma EraseSiblingRight(c: Path<RbNode>, t: Tree<RbNode>, h: int)
    requires Erasing(c, t, h) && !IsRed(t) && c.InRight?
    ensures c.left.Node?
  {
    BalancedNonNegative(t, h);
  }

  method EraseRotateRight(other: RbNode, parent: RbNode, root: RbRoot, ghost S: set<RbNode>, ghost c: Path<RbNode>, ghost t: Tree<RbNode>)
    requires Holds(S, root, Plug(c, t)) && c.InRight? && c.left.Node? && other == c.left.key && parent == c.key
    modifies S, root
    ensures var c' := InRight(c.left.right, c.key, Red, InRight(c.left.left, c.left.key, Black, c.up));
      Holds(S, root, Plug(c', t)) && Keys(Plug(c', t)) == Keys(Plug(c, t))
  {
    SetColor(other, Black, root, S, InLeft(c.key, c.color, t, c.up), c.left);
    ghost var p := Node(Paint(c.left, Black), c.key, c.color, t);
    SetColor(parent, Red, root, S, c.up, p);
    RotateRightAt(parent, root, S, c.up, Paint(p, Red));
    assert Plug(c.up, RotR(Paint(p, Red))) == Plug(InRight(c.left.left, c.left.key, Black, c.up), Node(c.left.right, c.key, Red, t));
  }

  /** The rest of the turn, with a black sibling. */
  method EraseBlackRight(other0: RbNode, parent0: RbNode, root: RbRoot, ghost S: set<RbNode>, ghost c: Path<RbNode>, ghost t: Tree<RbNode>, ghost h: int)
    returns (node: RbNode?, parent: RbNode?, ghost c': Path<RbNode>, ghost t': Tree<RbNode>, ghost h': int)
    requires Holds(S, root, Plug(c, t)) && Erasing(c, t, h) && !IsRed(t)
    requires c.InRight? && c.left.Node? && !IsRed(c.left) && parent0 == c.key && other0 == c.left.key
    modifies S, root
    ensures Holds(S, root, Plug(c', t')) && Erasing(c', t', h') && node == RootOf(t') && (parent == ParentOf(c') || c'.Top?)
    ensures Keys(Plug(c', t')) == Keys(Plug(c, t))
    ensures c' == Path.Top || (c' == c.up && IsRed(t') == (c.color == Red))
  {
    var other := other0;
    parent := parent0;
    ghost var s := c.left;
    ghost var cs := InLeft(c.key, c.color, t, c.up);
    Look(S, root, cs, s);
    Look(S, root, InLeft(s.key, s.color, s.right, cs), s.left);
    Look(S, root, InRight(s.left, s.key, s.color, cs), s.right);
    EraseUpRight(c, t, h);
    EraseMendRight(c, t, h);
    if (other.right == null || other.right.color == Black) && (other.left == null || other.left.color == Black) {
      SetColor(other, Red, root, S, cs, s);
      node := parent;
      c', t', h' := c.up, Node(Paint(s, Red), c.key, c.color, t), if c.color == Black then h + 1 else h;
      Look(S, root, c', t');
      parent := node.parent;
    } else {
      if other.left == null || other.left.color == Black {
        s := EraseNephewRight(other, other.right, root, S, cs, s);
        Look(S, root, cs, s);
        other := parent.left;
      }
      MendRight(other, parent, root, S, c, t, s);
      node := root.node;
      c', t' := Path.Top, Plug(c.up, MendedRight(c, t, s));
      h' :| Balanced(t', h');
    }
  }

  method EraseNephewRight(other: RbNode, o_right: RbNode?, root: RbRoot, ghost S: set<RbNode>, ghost cs: Path<RbNode>, ghost s: Tree<RbNode>)
    returns (ghost s': Tree<RbNode>)
    requires Holds(S, root, Plug(cs, s)) && s.Node? && s.right.Node? && other == s.key && o_right == s.right.key
    modifies S, root
    ensures s' == RotL(Paint(Node(s.left, s.key, s.color, Paint(s.right, Black)), Red))
    ensures Holds(S, root, Plug(cs, s')) && Keys(Plug(cs, s')) == Keys(Plug(cs, s))
  {
    if o_right != null {
      SetColor(o_right, Black, root, S, InRight(s.left, s.key, s.color, cs), s.right);
    }
    s' := Node(s.left, s.key, s.color, Paint(s.right, Black));
    SetColor(other, Red, root, S, cs, s');
    RotateLeftAt(other, root, S, cs, Paint(s', Red));
    s' := RotL(Paint(s', Red));
  }

  method MendRight(other: RbNode, parent: RbNode, root: RbRoot, ghost S: set<RbNode>, ghost c: Path<RbNode>, ghost t: Tree<RbNode>, ghost s: Tree<RbNode>)
    requires c.InRight? && s.Node? && s.left.Node? && other == s.key && parent == c.key
    requires Holds(S, root, Plug(c.up, Node(s, c.key, c.color, t)))
    modifies S, root
    ensures Holds(S, root, Plug(c.up, MendedRight(c, t, s))) && Keys(Plug(c.up, MendedRight(c, t, s))) == Keys(Plug(c.up, Node(s, c.key, c.color, t)))
  {
    ghost var p := Node(s, c.key, c.color, t);
    ghost var s' := Paint(s, c.color);
    Look(S, root, c.up, p);
    SetColor(other, parent.color, root, S, InLeft(c.key, c.color, t, c.up), s);
    SetColor(parent, Black, root, S, c.up, Node(s', c.key, c.color, t));
    ghost var cs := InLeft(c.key, Black, t, c.up);
    Look(S, root, cs, s');
    if other.left != null {
      SetColor(other.left, Black, root, S, InLeft(s.key, c.color, s.right, cs), s.left);
    }
    RotateRightAt(parent, root, S, c.up, Node(Node(Paint(s.left, Black), s.key, c.color, s.right), c.key, Black, t));
  }

  method EraseColor(x: RbNode?, parent0: RbNode?, root: RbRoot, ghost S: set<RbNode>, ghost c0: Path<RbNode>, ghost t0: Tree<RbNode>, ghost h0: int)
    returns (ghost t': Tree<RbNode>)
    requires Holds(S, root, Plug(c0, t0)) && Erasing(c0, t0, h0) && x == RootOf(t0) && parent0 == ParentOf(c0)
    modifies S, root
    ensures Holds(S, root, t') && RedBlack(t') && Keys(t') == Keys(Plug(c0, t0))
  {
    var node, parent := x, parent0;
    ghost var c, t, h := c0, t0, h0;
    Look(S, root, c, t);
    while (node == null || node.color == Black) && node != root.node
      invariant Holds(S, root, Plug(c, t)) && Erasing(c, t, h) && node == RootOf(t)
      invariant parent == ParentOf(c) || c.Top?
      invariant c.Top? <==> root.node == RootOf(t)
      invariant t.Node? ==> t.key.color == t.color
      invariant Keys(Plug(c, t)) == Keys(Plug(c0, t0))
      decreases if IsRed(t) then 0 else 1 + Depth(c)
    {
      Look(S, root, c, t);
      if c.InLeft? { EraseSiblingLeft(c, t, h); } else { EraseSiblingRight(c, t, h); }
      if parent.left == node {
        node, parent, c, t, h := EraseStepLeft(node, parent, root, S, c, t, h);
      } else {
        node, parent, c, t, h := EraseStepRight(node, parent, root, S, c, t, h);
      }
      Look(S, root, c, t);
    }
    EraseDone(c, t, h);
    t' := Plug(c, t);
    if node != null {
      SetColor(node, Black, root, S, c, t);
      t' := Plug(c, Paint(t, Black));
    }
  }

  lemma EraseDone(c: Path<RbNode>, t: Tree<RbNode>, h: int)
    requires Erasing(c, t, h) && (c.Top? || IsRed(t))
    ensures t.Node? ==> RedBlack(Plug(c, Paint(t, Black)))
    ensures t.Leaf? ==> RedBlack(Plug(c, t))
  {
    if IsRed(t) {
      BalancedPlug(c, Paint(t, Black), h + 1);
    } else {
      assert Balanced(t, h);
    }
  }

  ghost function OnlyChild(t: Tree<RbNode>): Tree<RbNode>
    requires t.Node?
  {
    if t.left.Leaf? then t.right else t.left
  }

  /** Takes out a node with at most one child. */
  method Splice(node: RbNode, child: RbNode?, parent: RbNode?, root: RbRoot, ghost S: set<RbNode>, ghost c: Path<RbNode>, ghost t: Tree<RbNode>)
    requires Holds(S, root, Plug(c, t)) && t.Node? && t.key == node && (t.left.Leaf? || t.right.Leaf?)
    requires child == RootOf(OnlyChild(t)) && parent == ParentOf(c)
    modifies S, root
    ensures Holds(S - {node}, root, Plug(c, OnlyChild(t)))
    ensures node.parent == old(node.parent) && node.color == old(node.color)
  {
    Look(S, root, c, t);
    Apart(S, root, c, t);
    Links(S, root, c, t);
    ghost var m, r := Snap(S), root.node;
    SpliceLinks(node, child, parent, root, S);
    Spliced(m, Snap(S - {node}), c, t, r, root.node);
  }

  lemma Spliced(m: map<RbNode, Cell>, m': map<RbNode, Cell>, c: Path<RbNode>, t: Tree<RbNode>, r: RbNode?, r': RbNode?)
    requires t.Node? && (t.left.Leaf? || t.right.Leaf?)
    requires Linked(m, Plug(c, t), null) && r == RootOf(Plug(c, t)) && Distinct(Plug(c, t))
    requires KeySet(Plug(c, t)) == m.Keys && m'.Keys == m.Keys - {t.key}
    requires forall n | n in m' && n != RootOf(OnlyChild(t)) && n != ParentOf(c) :: m'[n] == m[n]
    requires var u := OnlyChild(t); u.Node? && u.key in m' ==> m'[u.key] == m[u.key].(parent := ParentOf(c))
    requires c.Top? ==> r' == RootOf(OnlyChild(t))
    requires !c.Top? ==> r' == r
    requires c.InLeft? && c.key in m' ==> m'[c.key] == m[c.key].(left := RootOf(OnlyChild(t)))
    requires c.InRight? && c.key in m' ==> m'[c.key] == m[c.key].(right := RootOf(OnlyChild(t)))
    ensures Linked(m', Plug(c, OnlyChild(t)), null) && r' == RootOf(Plug(c, OnlyChild(t)))
    ensures Distinct(Plug(c, OnlyChild(t))) && KeySet(Plug(c, OnlyChild(t))) == m'.Keys
  {
    DistinctPlug(c, t);
    SplitLinks(m, c, t, r);
    Reparent(m, m', OnlyChild(t), t.key, ParentOf(c));
    Install(m, m', c, t, OnlyChild(t), r, r');
  }

  method SpliceLinks(node: RbNode, child: RbNode?, parent: RbNode?, root: RbRoot, ghost S: set<RbNode>)
    requires node in S && (child != null ==> child in S && child != node && child != parent)
    requires parent != null ==> parent in S && parent != node && (parent.left == node || parent.right == node) && parent.left != parent.right
    modifies S, root
    ensures child != null ==>
      child.parent == parent && child.left == old(child.left) && child.right == old(child.right) && child.color == old(child.color)
    ensures parent != null ==>
      && parent.parent == old(parent.parent) && parent.color == old(parent.color)
      && parent.left == (if old(parent.left) == node then child else old(parent.left))
      && parent.right == (if old(parent.left) == node then old(parent.right) else child)
    ensures forall n | n in S && n != child && n != parent ::
      n.parent == old(n.parent) && n.left == old(n.left) && n.right == old(n.right) && n.color == old(n.color)
    ensures root.node == if parent == null then child else old(root.node)
  {
    if child != null {
      child.parent := parent;
    }
    if parent != null {
      if parent.left == node {
        parent.left := child;
      } else {
        parent.right := child;
      }
    } else {
      root.node := child;
    }
  }

  /** The first half of Replaced: the node itself and its children. */
  lemma ReplacedNode(m: map<RbNode, Cell>, m': map<RbNode, Cell>, c: Path<RbNode>, t: Tree<RbNode>, k': RbNode, r: RbNode?)
    requires t.Node? && Linked(m, Plug(c, t), null) && r == RootOf(Plug(c, t)) && Distinct(Plug(c, t))
    requires KeySet(Plug(c, t)) <= m.Keys && k' !in KeySet(Plug(c, t)) && m'.Keys == m.Keys - {t.key} + {k'}
    requires t.key in m && m'[k'] == m[t.key]
    requires forall n | n in m && n in m' && n != RootOf(t.left) && n != RootOf(t.right) && n != ParentOf(c) :: m'[n] == m[n]
    requires t.left.Node? && t.left.key in m && t.left.key in m' ==> m'[t.left.key] == m[t.left.key].(parent := k')
    requires t.right.Node? && t.right.key in m && t.right.key in m' ==> m'[t.right.key] == m[t.right.key].(parent := k')
    ensures var t' := t.(key := k');
      Linked(m', t', ParentOf(c)) && Distinct(t') && KeySet(t') == KeySet(t) - {t.key} + {k'} && KeySet(t') !! PathSet(c)
    ensures KeySet(t) !! PathSet(c) && t.key in KeySet(t) && KeySet(Plug(c, t)) == PathSet(c) + KeySet(t)
    ensures RootOf(t.left) !in PathSet(c) && RootOf(t.right) !in PathSet(c) && (!c.Top? ==> c.key in PathSet(c))
  {
    hide Plug;
    DistinctPlug(c, t);
    SplitLinks(m, c, t, r);
    Reparent(m, m', t.left, t.key, k');
    Reparent(m, m', t.right, t.key, k');
  }

  /** The node of `t` is replaced by `k'`, which takes over its colour and links. */
  lemma Replaced(m: map<RbNode, Cell>, m': map<RbNode, Cell>, c: Path<RbNode>, t: Tree<RbNode>, k': RbNode, r: RbNode?, r': RbNode?)
    requires t.Node? && Linked(m, Plug(c, t), null) && r == RootOf(Plug(c, t)) && Distinct(Plug(c, t))
    requires KeySet(Plug(c, t)) <= m.Keys && k' !in KeySet(Plug(c, t)) && m'.Keys == m.Keys - {t.key} + {k'}
    requires t.key in m && m'[k'] == m[t.key]
    requires forall n | n in m && n in m' && n != RootOf(t.left) && n != RootOf(t.right) && n != ParentOf(c) :: m'[n] == m[n]
    requires t.left.Node? && t.left.key in m && t.left.key in m' ==> m'[t.left.key] == m[t.left.key].(parent := k')
    requires t.right.Node? && t.right.key in m && t.right.key in m' ==> m'[t.right.key] == m[t.right.key].(parent := k')
    requires c.Top? ==> r' == k'
    requires !c.Top? ==> r' == r
    requires c.InLeft? && c.key in m && c.key in m' ==> m'[c.key] == m[c.key].(left := k')
    requires c.InRight? && c.key in m && c.key in m' ==> m'[c.key] == m[c.key].(right := k')
    ensures var t' := t.(key := k');
      && Linked(m', Plug(c, t'), null) && r' == RootOf(Plug(c, t')) && Distinct(Plug(c, t'))
      && KeySet(Plug(c, t')) == KeySet(Plug(c, t)) - {t.key} + {k'}
  {
    hide Linked, Distinct, KeySet, PathSet, Plug;
    ReplacedNode(m, m', c, t, k', r);
    Install(m, m', c, t, t.(key := k'), r, r');
  }

  /** The successor `node`, already taken out, takes the place of `old0`. */
  method TakePlace(old0: RbNode, node: RbNode, root: RbRoot, ghost S: set<RbNode>, ghost c: Path<RbNode>, ghost t: Tree<RbNode>)
    requires Holds(S, root, Plug(c, t)) && t.Node? && t.key == old0 && t.left.Node? && node !in S
    modifies S, node, root
    ensures Holds(S - {old0} + {node}, root, Plug(c, t.(key := node)))
  {
    hide LinkedPath, DistinctPath, PathSet;
    Look(S, root, c, t);
    Apart(S, root, c, t);
    Links(S, root, c, t);
    ghost var m, r := Snap(S), root.node;
    TakeLinks(old0, node, root, S);
    ghost var m' := Snap(S - {old0} + {node});
    Replaced(m, m', c, t, node, r, root.node);
  }

  method TakeLinks(old0: RbNode, node: RbNode, root: RbRoot, ghost S: set<RbNode>)
    requires old0 in S && node !in S && old0.left != null && old0.left in S && old0.left != old0 && old0.left != old0.right
    requires old0.right != null ==> old0.right in S && old0.right != old0
    requires old0.parent != null ==>
      && old0.parent in S && old0.parent != old0 && old0.parent != old0.left && old0.parent != old0.right
      && (old0.parent.left == old0 || old0.parent.right == old0) && old0.parent.left != old0.parent.right
    modifies S, node, root
    ensures node.parent == old(old0.parent) && node.left == old(old0.left) && node.right == old(old0.right) && node.color == old(old0.color)
    ensures old0.left == old(old0.left) && old0.right == old(old0.right) && old0.parent == old(old0.parent)
    ensures var l := old0.left; l.parent == node && l.left == old(old0.left.left) && l.right == old(old0.left.right) && l.color == old(old0.left.color)
    ensures var q := old0.right; q != null ==>
      q.parent == node && q.left == old(old0.right.left) && q.right == old(old0.right.right) && q.color == old(old0.right.color)
    ensures var p := old0.parent; p != null ==>
      && p.parent == old(old0.parent.parent) && p.color == old(old0.parent.color)
      && p.left == (if old(old0.parent.left) == old0 then node else old(old0.parent.left))
      && p.right == (if old(old0.parent.left) == old0 then old(old0.parent.right) else node)
    ensures forall n | n in S && n != old0 && n != old0.left && n != old0.right && n != old0.parent ::
      n.parent == old(n.parent) && n.left == old(n.left) && n.right == old(n.right) && n.color == old(n.color)
    ensures root.node == if old0.parent == null then node else old(root.node)
  {
    node.parent := old0.parent;
    node.color := old0.color;
    node.right := old0.right;
    node.left := old0.left;
    if old0.parent != null {
      if old0.parent.left == old0 {
        old0.parent.left := node;
      } else {
        old0.parent.right := node;
      }
    } else {
      root.node := node;
    }
    old0.left.parent := node;
    if old0.right != null {
      old0.right.parent := node;
    }
  }

  /** `rb_erase`. */
  method Erase(z: RbNode, root: RbRoot, ghost S: set<RbNode>, ghost c: Path<RbNode>, ghost t: Tree<RbNode>) returns (ghost t': Tree<RbNode>)
    requires t.Node? && t.key == z && Holds(S, root, Plug(c, t)) && RedBlack(Plug(c, t))
    modifies S, root
    ensures Holds(S - {z}, root, t') && RedBlack(t')
    ensures Keys(t') == Before(c) + (Keys(t.left) + Keys(t.right)) + After(c)
  {
    Look(S, root, c, t);
    if z.left != null && z.right != null {
      t' := EraseInner(z, root, S, c, t);
      return;
    }
    var child;
    if z.left == null {
      child := z.right;
    } else {
      child := z.left;
    }
    ghost var h := Unplug(c, t);
    var parent, color := z.parent, z.color;
    Splice(z, child, parent, root, S, c, t);
    t' := Plug(c, OnlyChild(t));
    KeysPlug(c, OnlyChild(t));
    assert Keys(OnlyChild(t)) == Keys(t.left) + Keys(t.right);
    if color == Black {
      t' := EraseColor(child, parent, root, S - {z}, c, OnlyChild(t), h - 1);
    } else {
      BalancedPlug(c, OnlyChild(t), h);
    }
  }

  /** A node with two children: its successor moves into its place. */
  method EraseInner(z: RbNode, root: RbRoot, ghost S: set<RbNode>, ghost c: Path<RbNode>, ghost t: Tree<RbNode>) returns (ghost t': Tree<RbNode>)
    requires t.Node? && t.key == z && t.left.Node? && t.right.Node? && Holds(S, root, Plug(c, t)) && RedBlack(Plug(c, t))
    modifies S, root
    ensures Holds(S - {z}, root, t') && RedBlack(t')
    ensures Keys(t') == Before(c) + (Keys(t.left) + Keys(t.right)) + After(c)
  {
    var child, parent, color;
    ghost var full, u, h;
    child, parent, color, full, u, h := MoveSuccessor(z, root, S, c, t);
    t' := Plug(full, u);
    if color == Black {
      t' := EraseColor(child, parent, root, S - {z}, full, u, h - 1);
    } else {
      BalancedPlug(full, u, h);
    }
  }

  method MoveSuccessor(z: RbNode, root: RbRoot, ghost S: set<RbNode>, ghost c: Path<RbNode>, ghost t: Tree<RbNode>)
    returns (child: RbNode?, parent: RbNode?, color: Color, ghost full': Path<RbNode>, ghost u': Tree<RbNode>, ghost h: int)
    requires t.Node? && t.key == z && t.left.Node? && t.right.Node? && Holds(S, root, Plug(c, t)) && RedBlack(Plug(c, t))
    modifies S, root
    ensures Holds(S - {z}, root, Plug(full', u')) && child == RootOf(u') && parent == ParentOf(full')
    ensures Keys(Plug(full', u')) == Before(c) + (Keys(t.left) + Keys(t.right)) + After(c)
    ensures color == Black ==> Erasing(full', u', h - 1)
    ensures color == Red ==> Balanced(u', h) && !IsRed(u') && Fits(full', h)
  {
    hide Holds, Linked, Distinct, KeySet, Snap, RedBlack, Balanced, Fits;
    var node;
    ghost var d, u;
    node, d, u := Leftmost(z, root, S, c, t);
    ghost var full := Append(d, InRight(t.left, z, t.color, c));
    h := MovedShape(c, t, d, u);
    full', u' := Append(d, InRight(t.left, node, t.color, c)), u.right;
    Look(S, root, full, u);
    child, parent, color := node.right, node.parent, node.color;
    Splice(node, child, parent, root, S, full, u);
    if node.parent == z {
      parent := node;
    }
    TakePlace(z, node, root, S - {node}, c, Node(t.left, z, t.color, Plug(d, u.right)));
    assert S - {node} - {z} + {node} == S - {z};
  }

  /** What is left when the successor `u.key` has moved into the place of `t.key`. */
  lemma MovedShape(c: Path<RbNode>, t: Tree<RbNode>, d: Path<RbNode>, u: Tree<RbNode>) returns (h: int)
    requires t.Node? && u.Node? && u.left.Leaf? && Plug(d, u) == t.right && Before(d) == [] && RedBlack(Plug(c, t))
    ensures var full, full' := Append(d, InRight(t.left, t.key, t.color, c)), Append(d, InRight(t.left, u.key, t.color, c));
      && Plug(full, u.right) == Plug(c, Node(t.left, t.key, t.color, Plug(d, u.right)))
      && Plug(full', u.right) == Plug(c, Node(t.left, u.key, t.color, Plug(d, u.right)))
      && Keys(Plug(full', u.right)) == Before(c) + (Keys(t.left) + Keys(t.right)) + After(c)
      && (if u.color == Black then Erasing(full', u.right, h - 1) else Balanced(u.right, h) && !IsRed(u.right) && Fits(full', h))
      && ParentOf(full') == (if d.Top? then u.key else ParentOf(full))
      && (!d.Top? ==> ParentOf(full) == ParentOf(d)) && (d.Top? ==> ParentOf(full) == t.key)
  {
    var base := InRight(t.left, t.key, t.color, c);
    PlugAppend(d, base, u);
    PlugAppend(d, base, u.right);
    var base' := InRight(t.left, u.key, t.color, c);
    PlugAppend(d, base', u.right);
    SuccessorKeys(c, t, d, u);
    h := Unplug(Append(d, base), u);
    Rekey(d, base, base', h);
  }

  /** Down to the successor of `z`. */
  method Leftmost(z: RbNode, root: RbRoot, ghost S: set<RbNode>, ghost c: Path<RbNode>, ghost t: Tree<RbNode>)
    returns (node: RbNode, ghost d: Path<RbNode>, ghost u: Tree<RbNode>)
    requires t.Node? && t.key == z && t.right.Node? && Holds(S, root, Plug(c, t))
    ensures u.Node? && u.key == node && u.left.Leaf? && node != z && node in S
    ensures Plug(d, u) == t.right && Before(d) == [] && (d.Top? ==> node == z.right) && (!d.Top? ==> ParentOf(d) != z)
    ensures Plug(Append(d, InRight(t.left, z, t.color, c)), u) == Plug(c, t)
  {
    ghost var base := InRight(t.left, z, t.color, c);
    Look(S, root, c, t);
    Links(S, root, c, t);
    node := z.right;
    d, u := Path.Top, t.right;
    Look(S, root, base, t.right);
    while node.left != null
      invariant u.Node? && node == u.key && Plug(d, u) == t.right && Before(d) == []
      invariant node.left == RootOf(u.left) && Plug(Append(d, base), u) == Plug(c, t)
      invariant d.Top? ==> node == z.right
      decreases u
    {
      d, u := InLeft(u.key, u.color, u.right, d), u.left;
      node := node.left;
      Look(S, root, Append(d, base), u);
    }
    InSubtree(d, u);
  }

  lemma {:induction false} InSubtree(d: Path<RbNode>, u: Tree<RbNode>)
    ensures KeySet(u) <= KeySet(Plug(d, u))
    ensures !d.Top? ==> d.key in KeySet(Plug(d, u))
    decreases d
  {
    if !d.Top? { InSubtree(d.up, PlugStep(d, u)); }
  }

  lemma {:induction false} Rekey(d: Path<RbNode>, b: Path<RbNode>, b': Path<RbNode>, h: int)
    requires b.InRight? && b'.InRight? && b.left == b'.left && b.color == b'.color && b.up == b'.up
    requires Fits(Append(d, b), h)
    ensures Fits(Append(d, b'), h) && TopRed(Append(d, b)) == TopRed(Append(d, b')) && !Append(d, b').Top?
    ensures d.Top? ==> ParentOf(Append(d, b')) == b'.key
    ensures !d.Top? ==> ParentOf(Append(d, b')) == ParentOf(d) == ParentOf(Append(d, b))
  {
    if !d.Top? { Rekey(d.up, b, b', if d.color == Black then h + 1 else h); }
  }

  /** Moving the leftmost key of the right subtree up into the erased place keeps the order. */
  lemma SuccessorKeys(c: Path<RbNode>, t: Tree<RbNode>, d: Path<RbNode>, u: Tree<RbNode>)
    requires t.Node? && u.Node? && u.left.Leaf? && Plug(d, u) == t.right && Before(d) == []
    ensures Keys(Plug(c, Node(t.left, u.key, t.color, Plug(d, u.right)))) == Before(c) + (Keys(t.left) + Keys(t.right)) + After(c)
  {
    KeysPlug(d, u);
    KeysPlug(d, u.right);
    KeysPlug(c, Node(t.left, u.key, t.color, Plug(d, u.right)));
    FirstKey(u.key, Keys(u.right), After(d));
    assert Keys(t.right) == [u.key] + (Keys(u.right) + After(d));
    assert Keys(Plug(d, u.right)) == Keys(u.right) + After(d);
    Reassociate(Keys(t.left), [u.key], Keys(Plug(d, u.right)));
  }

  lemma FirstKey<T>(k: T, a: seq<T>, b: seq<T>)
    ensures [] + ([] + [k] + a) + b == [k] + (a + b)
    ensures [] + a + b == a + b
  {
  }

  lemma Reassociate<T>(a: seq<T>, b: seq<T>, d: seq<T>)
    ensures a + b + d == a + (b + d)
  {
  }
}
