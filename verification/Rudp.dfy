/** The address map of rudp.c: a red-black tree of entries ordered by `memcmp` on their addresses. */
module Rudp {
  import opened Bytes
  import opened Collections
  import opened RbTheory
  import opened RbTree
  import opened RbWalk

  type Addr = seq<byte>

  /** `memcmp` on two buffers of the same length. */
  function Memcmp(a: Addr, b: Addr): int {
    if a == [] || b == [] then 0
    else if a[0] != b[0] then a[0] as int - b[0] as int
    else Memcmp(a[1..], b[1..])
  }

  ghost predicate Less(a: Addr, b: Addr) { Memcmp(a, b) < 0 }

  lemma {:induction false} MemcmpOrder(a: Addr, b: Addr)
    requires |a| == |b|
    ensures Memcmp(a, b) == 0 <==> a == b
    ensures Memcmp(a, b) > 0 <==> Less(b, a)
  {
    if a != [] {
      MemcmpOrder(a[1..], b[1..]);
      assert a == [a[0]] + a[1..] && b == [b[0]] + b[1..];
    }
  }

  /** The first byte in which they differ decides. */
  lemma {:induction false} MemcmpFirst(a: Addr, b: Addr)
    requires |a| == |b|
    ensures Less(a, b) <==> exists i :: 0 <= i < |a| && a[..i] == b[..i] && a[i] < b[i]
  {
    if a != [] {
      MemcmpFirst(a[1..], b[1..]);
      if a[0] != b[0] {
        assert a[..0] == b[..0];
        assert forall i | 0 < i < |a| :: a[..i][0] != b[..i][0];
      } else {
        forall i | 0 < i < |a| ensures a[..i] == b[..i] <==> a[1..][..i - 1] == b[1..][..i - 1] {
          assert a[..i] == [a[0]] + a[1..][..i - 1] && b[..i] == [b[0]] + b[1..][..i - 1];
        }
        if i :| 0 <= i < |a| - 1 && a[1..][..i] == b[1..][..i] && a[1..][i] < b[1..][i] { assert a[..i + 1] == b[..i + 1]; }
      }
    }
  }

  lemma {:induction false} LessTransitive(a: Addr, b: Addr, d: Addr)
    requires |a| == |b| == |d| && Less(a, b) && Less(b, d)
    ensures Less(a, d)
  {
    if a[0] == b[0] == d[0] { LessTransitive(a[1..], b[1..], d[1..]); }
  }

  /** sizeof(sockaddr_u) without Unix-domain sockets. */
  const ADDR_SIZE := 28
  const AF_INET: byte := 2
  const AF_INET6: byte := 10

  /** `sockaddr_len`. */
  function SockaddrLen(a: Addr): (n: nat)
    requires |a| == ADDR_SIZE
    ensures n <= ADDR_SIZE
  {
    if a[1] == 0 && a[0] == AF_INET then 16
    else if a[1] == 0 && a[0] == AF_INET6 then 28
    else ADDR_SIZE
  }

  /** What rudp_get stores: the first `sockaddr_len` bytes, copied into zeroed memory. */
  function Stored(a: Addr): (s: Addr)
    requires |a| == ADDR_SIZE
    ensures |s| == ADDR_SIZE
  {
    a[..SockaddrLen(a)] + seq(ADDR_SIZE - SockaddrLen(a), _ => 0)
  }

  /** The bytes behind the address proper are zero. */
  predicate Padded(a: Addr)
    requires |a| == ADDR_SIZE
  {
    forall i | SockaddrLen(a) <= i < ADDR_SIZE :: a[i] == 0
  }

  /** Storing keeps the address exactly when it is zero-padded, and always yields a zero-padded one. */
  lemma StoredPadded(a: Addr)
    requires |a| == ADDR_SIZE
    ensures Stored(a) == a <==> Padded(a)
    ensures Padded(Stored(a)) && SockaddrLen(Stored(a)) == SockaddrLen(a)
  {
    var s := Stored(a);
    assert s[0] == a[0] && s[1] == a[1];
    assert forall i | 0 <= i < SockaddrLen(a) :: s[i] == a[i];
    if Padded(a) { assert s == a; }
  }

  /** Of an IPv4 address the family, the port, the address and the 8 bytes behind it are stored; any other address is stored
      whole. */
  lemma StoredExactly(a: Addr)
    requires |a| == ADDR_SIZE
    ensures var s := Stored(a);
      if a[0] == 2 && a[1] == 0 then s[..16] == a[..16] && forall i | 16 <= i < ADDR_SIZE :: s[i] == 0 else s == a
  {
    assert a[..ADDR_SIZE] == a;
    assert Stored(a)[..SockaddrLen(a)] == a[..SockaddrLen(a)];
  }

  ghost predicate Sorted(K: seq<RbNode>) {
    && (forall i | 0 <= i < |K| :: |K[i].addr| == ADDR_SIZE)
    && (forall i, j | 0 <= i < j < |K| :: Less(K[i].addr, K[j].addr))
  }

  /** Every key of `K` is on the side `d` (negative: below) of `a`. */
  ghost predicate AllBelow(K: seq<RbNode>, a: Addr) { forall i | 0 <= i < |K| :: Less(K[i].addr, a) }
  ghost predicate AllAbove(K: seq<RbNode>, a: Addr) { forall i | 0 <= i < |K| :: Less(a, K[i].addr) }

  lemma SortedInsert(A: seq<RbNode>, x: RbNode, B: seq<RbNode>)
    requires Sorted(A + B) && |x.addr| == ADDR_SIZE && AllBelow(A, x.addr) && AllAbove(B, x.addr)
    ensures Sorted(A + [x] + B)
  {
    var K, K' := A + B, A + [x] + B;
    forall i | 0 <= i < |K'| ensures |K'[i].addr| == ADDR_SIZE {
      if i != |A| { assert K'[i] == K[if i < |A| then i else i - 1]; }
    }
    forall i, j | 0 <= i < j < |K'| ensures Less(K'[i].addr, K'[j].addr) {
      var i', j' := if i < |A| then i else i - 1, if j < |A| then j else j - 1;
      if i != |A| && j != |A| { assert K'[i] == K[i'] && K'[j] == K[j']; }
    }
  }

  lemma SortedDelete(A: seq<RbNode>, B: seq<RbNode>, x: seq<RbNode>)
    requires Sorted(A + x + B)
    ensures Sorted(A + B)
  {
    var K, K' := A + x + B, A + B;
    forall i, j | 0 <= i < j < |K'| ensures Less(K'[i].addr, K'[j].addr) {
      assert K'[i] == K[if i < |A| then i else i + |x|] && K'[j] == K[if j < |A| then j else j + |x|];
    }
    forall i | 0 <= i < |K'| ensures |K'[i].addr| == ADDR_SIZE {
      assert K'[i] == K[if i < |A| then i else i + |x|];
    }
  }

  /** Going left or right at a node keeps what lies before below, and what lies after above, the address. */
  lemma Descend(c: Path<RbNode>, t: Tree<RbNode>, a: Addr)
    requires t.Node? && Sorted(Keys(Plug(c, t))) && |a| == ADDR_SIZE
    requires AllBelow(Before(c), a) && AllAbove(After(c), a)
    ensures |t.key.addr| == ADDR_SIZE
    ensures Memcmp(a, t.key.addr) < 0 ==> AllAbove(After(InLeft(t.key, t.color, t.right, c)), a)
    ensures Memcmp(a, t.key.addr) > 0 ==> AllBelow(Before(InRight(t.left, t.key, t.color, c)), a)
  {
    KeysPlug(c, t);
    var K, l := Keys(Plug(c, t)), |Before(c)| + |Keys(t.left)|;
    assert K[l] == t.key;
    MemcmpOrder(a, t.key.addr);
    if Memcmp(a, t.key.addr) < 0 {
      var B := After(InLeft(t.key, t.color, t.right, c));
      forall i | 0 <= i < |B| ensures Less(a, B[i].addr) {
        assert B[i] == K[l + i];
        if i > 0 { LessTransitive(a, t.key.addr, K[l + i].addr); }
      }
    } else if Memcmp(a, t.key.addr) > 0 {
      var A := Before(InRight(t.left, t.key, t.color, c));
      forall i | 0 <= i < |A| ensures Less(A[i].addr, a) {
        assert A[i] == K[i];
        if i < l { LessTransitive(K[i].addr, t.key.addr, a); }
      }
    }
  }

  lemma NotFound(t: Tree<RbNode>, c: Path<RbNode>, a: Addr)
    requires At(t, c, Leaf, a) && Sorted(Keys(t))
    ensures forall n | n in KeySet(t) :: n.addr != a
  {
    KeysPlug(c, Leaf);
    KeysMembers(t);
    assert Before(c) + [] + After(c) == Before(c) + After(c);
    MemcmpOrder(a, a);
  }

  /** The search for `a` has come to the subtree `u` at the end of `c`; in an ordered tree `a` can only be there. */
  ghost predicate At(t: Tree<RbNode>, c: Path<RbNode>, u: Tree<RbNode>, a: Addr) {
    |a| == ADDR_SIZE && Plug(c, u) == t && (Sorted(Keys(t)) ==> AllBelow(Before(c), a) && AllAbove(After(c), a))
  }

  ghost predicate Sized(S: set<RbNode>) { forall n | n in S :: |n.addr| == ADDR_SIZE }

  ghost predicate AllPadded(S: set<RbNode>) { forall n | n in S :: |n.addr| == ADDR_SIZE && Padded(n.addr) }

  lemma SortedSized(t: Tree<RbNode>)
    requires Sorted(Keys(t))
    ensures Sized(KeySet(t))
  {
    KeysMembers(t);
  }

  /** One comparison further down. */
  lemma Towards(S: set<RbNode>, root: RbRoot, t: Tree<RbNode>, c: Path<RbNode>, u: Tree<RbNode>, a: Addr)
    returns (c': Path<RbNode>, u': Tree<RbNode>)
    requires Holds(S, root, t) && Sized(S) && At(t, c, u, a) && u.Node?
    ensures u.key in S && |u.key.addr| == ADDR_SIZE && (Memcmp(a, u.key.addr) == 0 ==> a == u.key.addr)
    ensures Memcmp(a, u.key.addr) != 0 ==> At(t, c', u', a) && Height(u') < Height(u) && !c'.Top? && c'.key == u.key && c'.up == c
    ensures Memcmp(a, u.key.addr) < 0 ==> RootOf(u') == u.key.left && c'.InLeft?
    ensures Memcmp(a, u.key.addr) > 0 ==> RootOf(u') == u.key.right && c'.InRight?
  {
    Look(S, root, c, u);
    if Sorted(Keys(t)) { Descend(c, u, a); }
    MemcmpOrder(a, u.key.addr);
    if Memcmp(a, u.key.addr) < 0 {
      c', u' := InLeft(u.key, u.color, u.right, c), u.left;
    } else {
      c', u' := InRight(u.left, u.key, u.color, c), u.right;
    }
  }

  class RudpMap {
    const root: RbRoot
    ghost var S: set<RbNode>
    ghost var T: Tree<RbNode>

    /** The shape of the tree, whatever the order of its addresses. */
    ghost predicate Shaped()
      reads this, root, S
    {
      Holds(S, root, T) && RedBlack(T)
    }

    ghost predicate Valid()
      reads this, root, S
    {
      Shaped() && Sorted(Keys(T))
    }

    /** `e` is the entry of `a`, or null when there is none. */
    ghost predicate IsEntry(a: Addr, e: RbNode?)
      reads this
    {
      if e == null then forall n | n in S :: n.addr != a else e in S && e.addr == a
    }

    /** The addresses of a valid map are pairwise different: `IsEntry` determines the entry. */
    lemma Unique(n: RbNode, n': RbNode)
      requires Valid() && n in S && n' in S && n.addr == n'.addr
      ensures n == n'
    {
      KeysMembers(T);
      var K := Keys(T);
      assert n in K && n' in K;
      var i :| 0 <= i < |K| && K[i] == n;
      var j :| 0 <= j < |K| && K[j] == n';
      if i < j {
        MemcmpOrder(K[i].addr, K[j].addr);
      } else if j < i {
        MemcmpOrder(K[j].addr, K[i].addr);
      }
    }

    constructor ()
      ensures Valid() && S == {} && fresh(root)
    {
      root := new RbRoot();
      S, T := {}, Leaf;
      new;
      assert Balanced(T, 0);
    }

    /** `rudp_search`, counting its comparisons: one with each node on the way to the entry, itself included, or to the place
        where it would be. */
    method Search(addr: Addr) returns (e: RbNode?, ghost c: Path<RbNode>, ghost u: Tree<RbNode>, ghost steps: nat)
      requires Valid() && |addr| == ADDR_SIZE
      ensures IsEntry(addr, e)
      ensures At(T, c, u, addr) && if e == null then u == Leaf else u.Node? && u.key == e
      ensures steps == Depth(c) + if e != null then 1 else 0
    {
      SortedSized(T);
      c, u, steps := Path.Top, T, 0;
      var n := root.node;
      while n != null
        invariant At(T, c, u, addr) && n == RootOf(u)
        invariant steps == Depth(c)
        decreases Height(u)
      {
        ghost var c', u' := Towards(S, root, T, c, u, addr);
        steps := steps + 1;
        var cmp := Memcmp(addr, n.addr);
        if cmp < 0 {
          n := n.left;
        } else if cmp > 0 {
          n := n.right;
        } else {
          return n, c, u, steps;
        }
        c, u := c', u';
      }
      NotFound(T, c, addr);
      e := null;
    }

    /** The descent of rudp_insert and rudp_get: the entry of `addr`, or the link where it belongs. */
    method FindLink(addr: Addr) returns (e: RbNode?, parent: RbNode?, onLeft: bool, ghost c: Path<RbNode>)
      requires Shaped() && Sized(S) && |addr| == ADDR_SIZE
      ensures e != null ==> e in S && e.addr == addr
      ensures Valid() ==> IsEntry(addr, e)
      ensures e == null ==> At(T, c, Leaf, addr) && parent == ParentOf(c) && (onLeft <==> c.InLeft?)
    {
      c, parent, onLeft := Path.Top, null, false;
      ghost var u := T;
      var n := root.node;
      while n != null
        invariant At(T, c, u, addr) && n == RootOf(u)
        invariant parent == ParentOf(c) && (onLeft <==> c.InLeft?)
        decreases Height(u)
      {
        ghost var c', u' := Towards(S, root, T, c, u, addr);
        parent := n;
        var cmp := Memcmp(addr, n.addr);
        if cmp < 0 {
          n, onLeft := n.left, true;
        } else if cmp > 0 {
          n, onLeft := n.right, false;
        } else {
          return n, parent, onLeft, c;
        }
        c, u := c', u';
      }
      if Sorted(Keys(T)) { NotFound(T, c, addr); }
      e := null;
    }

    /** `rb_link_node` at the link found, then `rb_insert_color`. */
    method Link(x: RbNode, parent: RbNode?, onLeft: bool, ghost c: Path<RbNode>)
      requires Shaped() && Plug(c, Leaf) == T && parent == ParentOf(c) && (onLeft <==> c.InLeft?) && x !in S
      modifies this, root, S, x
      ensures Shaped() && S == old(S) + {x} && Keys(T) == Before(c) + [x] + After(c)
    {
      hide Plug, Keys, Balanced, Before, After;
      LinkNode(x, parent, onLeft, root, S, c);
      S := S + {x};
      T := InsertColor(x, root, S, c);
    }

    /** `rudp_insert`. */
    method Insert(entry: RbNode) returns (ok: bool)
      requires Valid() && |entry.addr| == ADDR_SIZE && entry !in S
      modifies this, root, S, entry
      ensures Valid()
      ensures ok <==> forall n | n in old(S) :: n.addr != entry.addr
      ensures S == if ok then old(S) + {entry} else old(S)
    {
      SortedSized(T);
      var e, parent, onLeft;
      ghost var c;
      e, parent, onLeft, c := FindLink(entry.addr);
      ok := e == null;
      if ok {
        InsertSorted(T, c, entry);
        Link(entry, parent, onLeft, c);
      }
    }

    /** `rudp_get`: the entry of the address, made on the spot when missing. The new entry stores the
        zero-padded address, so the map stays ordered when the address was zero-padded already. */
    method Get(addr: Addr) returns (e: RbNode)
      requires Shaped() && Sized(S) && |addr| == ADDR_SIZE
      modifies this, root, S
      ensures Shaped() && Sized(S) && fresh(S - old(S)) && e in S && S == old(S) + {e}
      ensures e in old(S) ==> e.addr == addr && (old(Valid()) ==> Valid())
      ensures e !in old(S) ==> e.addr == Stored(addr)
      ensures old(Valid()) && e !in old(S) ==> forall n | n in old(S) :: n.addr != addr
      ensures old(Valid()) && (Padded(addr) || old(S) == {}) ==> Valid()
    {
      StoredPadded(addr);
      var found, parent, onLeft;
      ghost var c;
      found, parent, onLeft, c := FindLink(addr);
      if found != null {
        return found;
      }
      ghost var sorted := Sorted(Keys(T));
      e := new RbNode(Stored(addr));
      if Padded(addr) && sorted { InsertSorted(T, c, e); }
      Link(e, parent, onLeft, c);
      if old(S) == {} {
        KeysMembers(T);
        SizeIsCount(T);
        LoneKey(T, e);
      }
    }

    /** `rudp_remove`: unlinks the entry and hands it to the caller. */
    method Remove(addr: Addr) returns (e: RbNode?)
      requires Valid() && |addr| == ADDR_SIZE
      modifies this, root, S
      ensures Valid()
      ensures if e == null then S == old(S) && (forall n | n in S :: n.addr != addr)
              else e in old(S) && e.addr == addr && S == old(S) - {e}
    {
      ghost var c, u, steps;
      e, c, u, steps := Search(addr);
      if e != null {
        EraseEntry(e, c, u);
      }
    }

    method EraseEntry(e: RbNode, ghost c: Path<RbNode>, ghost u: Tree<RbNode>)
      requires Valid() && u.Node? && u.key == e && Plug(c, u) == T
      modifies this, root, S
      ensures Valid() && S == old(S) - {e}
    {
      DeleteSorted(c, u);
      T := Erase(e, root, S, c, u);
      S := S - {e};
    }

    /** `rudp_cleanup`: erases from the root until nothing is left. */
    method Cleanup()
      requires Valid()
      modifies this, root, S
      ensures Valid() && S == {} && root.node == null
    {
      while root.node != null
        invariant Valid() && S <= old(S)
        decreases S
      {
        Look(S, root, Path.Top, T);
        EraseEntry(root.node, Path.Top, T);
      }
    }

    /** In a map of zero-padded addresses, as rudp_get itself makes them, asking twice for the same address yields the same
        entry exactly when the address is zero-padded. */
    method GetTwice(addr: Addr) returns (e: RbNode, e': RbNode)
      requires Valid() && AllPadded(S) && |addr| == ADDR_SIZE
      modifies this, root, S
      ensures e == e' <==> Padded(addr)
      ensures AllPadded(S) && (Padded(addr) ==> Valid() && S == old(S) + {e})
    {
      hide Sorted, Stored, Padded;
      SortedSized(T);
      StoredPadded(addr);
      e := Get(addr);
      ghost var S1 := S;
      e' := Get(addr);
      if Padded(addr) && e' in S1 { Unique(e, e'); }
    }
  }

  lemma InsertSorted(t: Tree<RbNode>, c: Path<RbNode>, x: RbNode)
    requires At(t, c, Leaf, x.addr) && Sorted(Keys(t))
    ensures Sorted(Before(c) + [x] + After(c))
  {
    KeysPlug(c, Leaf);
    assert Before(c) + [] + After(c) == Before(c) + After(c);
    SortedInsert(Before(c), x, After(c));
  }

  lemma DeleteSorted(c: Path<RbNode>, u: Tree<RbNode>)
    requires u.Node? && Sorted(Keys(Plug(c, u)))
    ensures Sorted(Before(c) + (Keys(u.left) + Keys(u.right)) + After(c))
  {
    KeysPlug(c, u);
    Reassociate(Before(c), Keys(u.left), [u.key], Keys(u.right), After(c));
    SortedDelete(Before(c) + Keys(u.left), Keys(u.right) + After(c), [u.key]);
  }

  lemma Reassociate<T>(a: seq<T>, b: seq<T>, x: seq<T>, d: seq<T>, e: seq<T>)
    ensures a + (b + x + d) + e == (a + b) + x + (d + e)
    ensures a + (b + d) + e == (a + b) + (d + e)
  {
  }

  lemma LoneKey(t: Tree<RbNode>, x: RbNode)
    requires Distinct(t) && KeySet(t) == {x} && |x.addr| == ADDR_SIZE
    ensures Sorted(Keys(t))
  {
    KeysMembers(t);
    KeysNoDup(t);
    var K := Keys(t);
    forall i | 0 <= i < |K| ensures K[i] == x {
      assert K[i] in K;
    }
  }

  /** `rb_link_node`: a red leaf under `parent`. */
  method LinkNode(x: RbNode, parent: RbNode?, onLeft: bool, root: RbRoot, ghost S: set<RbNode>, ghost c: Path<RbNode>)
    requires Holds(S, root, Plug(c, Leaf)) && parent == ParentOf(c) && (onLeft <==> c.InLeft?) && x !in S
    modifies S, x, root
    ensures Holds(S + {x}, root, Plug(c, Node(Leaf, x, Red, Leaf)))
  {
    Links(S, root, c, Leaf);
    DistinctPlug(c, Leaf);
    ghost var m, r := Snap(S), root.node;
    x.parent := parent;
    x.color := Red;
    x.left, x.right := null, null;
    if parent == null {
      root.node := x;
    } else if onLeft {
      parent.left := x;
    } else {
      parent.right := x;
    }
    Install(m, Snap(S + {x}), c, Leaf, Node(Leaf, x, Red, Leaf), r, root.node);
  }

  lemma {:induction false} DepthBelow(c: Path<RbNode>, u: Tree<RbNode>)
    ensures Depth(c) + Height(u) <= Height(Plug(c, u)) && Depth(c) + (if u.Node? then 1 else 0) <= Height(Plug(c, u))
    decreases c
  {
    match c
    case Top =>
    case InLeft(k, col, r, up) => DepthBelow(up, Node(u, k, col, r));
    case InRight(l, k, col, up) => DepthBelow(up, Node(l, k, col, u));
  }

  /** A search in n entries that ends at the subtree `u` with the way `c` to it makes at most 2 * log2(n + 1) comparisons. */
  lemma SearchLogarithmic(c: Path<RbNode>, u: Tree<RbNode>)
    requires RedBlack(Plug(c, u)) && Distinct(Plug(c, u))
    ensures Size(Plug(c, u)) == |KeySet(Plug(c, u))|
    ensures Pow2(Depth(c) + if u.Node? then 1 else 0) <= (Size(Plug(c, u)) + 1) * (Size(Plug(c, u)) + 1)
  {
    hide *;
    var t := Plug(c, u);
    DepthBelow(c, u);
    HeightLogarithmic(t);
    SizeIsCount(t);
    Pow2Monotone(Depth(c) + if u.Node? then 1 else 0, Height(t));
  }
}
