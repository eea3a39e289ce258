/** Red-black trees as values, and the zipper the pointer algorithms of rbtree.c walk along.
    A `Path` is the way from a subtree up to the root: what `rb_parent` links make reachable. */
module RbTheory {

  datatype Color = Red | Black

  datatype Tree<T> = Leaf | Node(left: Tree<T>, key: T, color: Color, right: Tree<T>)

  datatype Path<T> =
    | Top
    | InLeft(key: T, color: Color, right: Tree<T>, up: Path<T>)
    | InRight(left: Tree<T>, key: T, color: Color, up: Path<T>)

  /** The whole tree whose subtree at the end of `c` is `t`. */
  function Plug<T>(c: Path<T>, t: Tree<T>): Tree<T>
    decreases c
  {
    match c
    case Top => t
    case InLeft(k, col, r, up) => Plug(up, Node(t, k, col, r))
    case InRight(l, k, col, up) => Plug(up, Node(l, k, col, t))
  }

  /** `inner` seen from a subtree, continued by `outer`. */
  function Append<T>(inner: Path<T>, outer: Path<T>): Path<T> {
    match inner
    case Top => outer
    case InLeft(k, col, r, up) => InLeft(k, col, r, Append(up, outer))
    case InRight(l, k, col, up) => InRight(l, k, col, Append(up, outer))
  }

  lemma {:induction false} PlugAppend<T>(inner: Path<T>, outer: Path<T>, t: Tree<T>)
    ensures Plug(Append(inner, outer), t) == Plug(outer, Plug(inner, t))
    decreases inner
  {
    match inner
    case Top =>
    case InLeft(k, col, r, up) => PlugAppend(up, outer, Node(t, k, col, r));
    case InRight(l, k, col, up) => PlugAppend(up, outer, Node(l, k, col, t));
  }

  /** Search order: the keys from left to right. */
  function Keys<T>(t: Tree<T>): seq<T> {
    match t
    case Leaf => []
    case Node(l, k, _, r) => Keys(l) + [k] + Keys(r)
  }

  function Before<T>(c: Path<T>): seq<T> {
    match c
    case Top => []
    case InLeft(_, _, _, up) => Before(up)
    case InRight(l, k, _, up) => Before(up) + Keys(l) + [k]
  }

  function After<T>(c: Path<T>): seq<T> {
    match c
    case Top => []
    case InLeft(k, _, r, up) => [k] + Keys(r) + After(up)
    case InRight(_, _, _, up) => After(up)
  }

  lemma {:induction false} KeysPlug<T>(c: Path<T>, t: Tree<T>)
    ensures Keys(Plug(c, t)) == Before(c) + Keys(t) + After(c)
    decreases c
  {
    match c
    case Top =>
    case InLeft(k, col, r, up) =>
      KeysPlug(up, Node(t, k, col, r));
      RegroupAfter(Before(up), Keys(t), k, Keys(r), After(up));
    case InRight(l, k, col, up) =>
      KeysPlug(up, Node(l, k, col, t));
      RegroupBefore(Before(up), Keys(l), k, Keys(t), After(up));
  }

  lemma RegroupAfter<T>(a: seq<T>, b: seq<T>, x: T, d: seq<T>, e: seq<T>)
    ensures a + (b + [x] + d) + e == a + b + ([x] + d + e)
  {
  }

  lemma RegroupBefore<T>(a: seq<T>, b: seq<T>, x: T, d: seq<T>, e: seq<T>)
    ensures a + (b + [x] + d) + e == (a + b + [x]) + d + e
  {
  }

  lemma SameKeys<T>(c: Path<T>, t: Tree<T>, t': Tree<T>)
    requires Keys(t) == Keys(t')
    ensures Keys(Plug(c, t)) == Keys(Plug(c, t'))
  {
    KeysPlug(c, t);
    KeysPlug(c, t');
  }

  // ---------------------------------------------------------------- balance

  predicate IsRed<T>(t: Tree<T>) { t.Node? && t.color == Red }

  predicate TopRed<T>(c: Path<T>) { !c.Top? && c.color == Red }

  /** Every path from the root of `t` to a leaf meets `h` black nodes, and no red node has a red child. */
  predicate Balanced<T>(t: Tree<T>, h: int) {
    match t
    case Leaf => h == 0
    case Node(l, _, Black, r) => Balanced(l, h - 1) && Balanced(r, h - 1)
    case Node(l, _, Red, r) => Balanced(l, h) && Balanced(r, h) && !IsRed(l) && !IsRed(r)
  }

  /** Plugging a black-rooted tree of black height `h` gives a balanced tree whose root is black. */
  predicate Fits<T>(c: Path<T>, h: int) {
    match c
    case Top => true
    case InLeft(_, Black, s, up) => Balanced(s, h) && Fits(up, h + 1)
    case InRight(s, _, Black, up) => Balanced(s, h) && Fits(up, h + 1)
    case InLeft(_, Red, s, up) => Balanced(s, h) && !IsRed(s) && !up.Top? && !TopRed(up) && Fits(up, h)
    case InRight(s, _, Red, up) => Balanced(s, h) && !IsRed(s) && !up.Top? && !TopRed(up) && Fits(up, h)
  }

  /** What rb_insert_color and rb_erase promise of the whole tree. */
  ghost predicate RedBlack<T>(t: Tree<T>) {
    !IsRed(t) && exists h :: Balanced(t, h)
  }

  lemma {:induction false} BalancedPlug<T>(c: Path<T>, t: Tree<T>, h: int)
    requires Balanced(t, h) && Fits(c, h)
    requires IsRed(t) ==> !c.Top? && !TopRed(c)
    ensures RedBlack(Plug(c, t))
    decreases c
  {
    match c
    case Top =>
    case InLeft(k, col, r, up) => BalancedPlug(up, Node(t, k, col, r), if col == Black then h + 1 else h);
    case InRight(l, k, col, up) => BalancedPlug(up, Node(l, k, col, t), if col == Black then h + 1 else h);
  }

  lemma {:induction false} BalancedNonNegative<T>(t: Tree<T>, h: int)
    requires Balanced(t, h)
    ensures h >= 0
    ensures h == 0 && !IsRed(t) ==> t.Leaf?
  {
    if t.Node? { BalancedNonNegative(t.left, if t.color == Black then h - 1 else h); }
  }

  /** A subtree of a red-black tree is balanced and its path fits it. */
  lemma {:induction false} Unplug<T>(c: Path<T>, t: Tree<T>) returns (h: int)
    requires RedBlack(Plug(c, t))
    ensures Balanced(t, h) && Fits(c, h)
    ensures IsRed(t) ==> !c.Top? && !TopRed(c)
    decreases c
  {
    match c
    case Top => h :| Balanced(t, h);
    case InLeft(k, col, r, up) =>
      h := Unplug(up, Node(t, k, col, r));
      if col == Black { h := h - 1; }
    case InRight(l, k, col, up) =>
      h := Unplug(up, Node(l, k, col, t));
      if col == Black { h := h - 1; }
  }

  function Size<T>(t: Tree<T>): nat { if t.Leaf? then 0 else Size(t.left) + 1 + Size(t.right) }

  function Height<T>(t: Tree<T>): nat {
    if t.Leaf? then 0 else 1 + if Height(t.left) > Height(t.right) then Height(t.left) else Height(t.right)
  }

  function Pow2(n: nat): nat { if n == 0 then 1 else 2 * Pow2(n - 1) }

  lemma {:induction false} SizeBound<T>(t: Tree<T>, h: nat)
    requires Balanced(t, h)
    ensures Size(t) + 1 >= Pow2(h)
    ensures Height(t) <= 2 * h + if IsRed(t) then 1 else 0
  {
    if t.Node? {
      var g := if t.color == Black then h - 1 else h;
      BalancedNonNegative(t.left, g);
      SizeBound(t.left, g);
      SizeBound(t.right, g);
    }
  }

  lemma {:induction false} Pow2Monotone(a: nat, b: nat)
    requires a <= b
    ensures Pow2(a) <= Pow2(b)
  {
    if a < b { Pow2Monotone(a, b - 1); }
  }

  lemma {:induction false} Pow2Sum(a: nat, b: nat)
    ensures Pow2(a + b) == Pow2(a) * Pow2(b)
  {
    if a > 0 {
      Pow2Sum(a - 1, b);
      assert Pow2(a + b) == 2 * (Pow2(a - 1) * Pow2(b));
    }
  }

  lemma SquareMonotone(x: nat, y: nat)
    requires x <= y
    ensures x * x <= y * y
  {
    assert y * y - x * x == (y - x) * (y + x);
  }

  /** The height is at most 2 * log2(n + 1): a search never takes more steps than that. */
  lemma HeightLogarithmic<T>(t: Tree<T>)
    requires RedBlack(t)
    ensures Pow2(Height(t)) <= (Size(t) + 1) * (Size(t) + 1)
  {
    var h :| Balanced(t, h);
    BalancedNonNegative(t, h);
    SizeBound(t, h);
    Pow2Monotone(Height(t), 2 * h);
    Pow2Sum(h, h);
    SquareMonotone(Pow2(h), Size(t) + 1);
  }

  // ------------------------------------------------- the rebalancing steps

  function Paint<T>(t: Tree<T>, col: Color): Tree<T>
    requires t.Node?
  {
    t.(color := col)
  }

  /** `__rb_rotate_left` at the root of `t`. */
  function RotL<T>(t: Tree<T>): Tree<T>
    requires t.Node? && t.right.Node?
  {
    var y := t.right;
    Node(Node(t.left, t.key, t.color, y.left), y.key, y.color, y.right)
  }

  /** `__rb_rotate_right` at the root of `t`. */
  function RotR<T>(t: Tree<T>): Tree<T>
    requires t.Node? && t.left.Node?
  {
    var y := t.left;
    Node(y.left, y.key, y.color, Node(y.right, t.key, t.color, t.right))
  }

  lemma Regroup<T>(a: seq<T>, x: T, b: seq<T>, y: T, d: seq<T>)
    ensures a + [x] + (b + [y] + d) == (a + [x] + b) + [y] + d
  {
  }

  lemma RotLKeys<T>(t: Tree<T>)
    requires t.Node? && t.right.Node?
    ensures Keys(RotL(t)) == Keys(t)
  {
    Regroup(Keys(t.left), t.key, Keys(t.right.left), t.right.key, Keys(t.right.right));
    assert Keys(Node(t.left, t.key, t.color, t.right.left)) == Keys(t.left) + [t.key] + Keys(t.right.left);
  }

  lemma RotRKeys<T>(t: Tree<T>)
    requires t.Node? && t.left.Node?
    ensures Keys(RotR(t)) == Keys(t)
  {
    Regroup(Keys(t.left.left), t.left.key, Keys(t.left.right), t.key, Keys(t.right));
    assert Keys(Node(t.left.right, t.key, t.color, t.right)) == Keys(t.left.right) + [t.key] + Keys(t.right);
  }
}
