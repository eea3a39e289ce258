/** The pointer heap of heap.h. Its nodes are the slots 1, 2, 3, ... of a complete binary tree: the
    children of slot i are the slots 2i and 2i+1, and the ghost sequence `nodes` says which node sits where. */
module Heap {

  import opened Collections
  import opened Lifecycle

  /** `htimer_t`: a timer with the event and the `heap_node` it embeds (`TIMER_ENTRY`). `nextTimeout` is in
      microseconds, `timeout` in milliseconds; a period timer (`isPeriod`) has no `timeout`. */
  class Timer {
    const ev: Event
    const isPeriod: bool
    var parent: Timer?
    var left: Timer?
    var right: Timer?
    var nextTimeout: nat
    var timeout: nat
    var repeat: nat
    /** The `repeat` it was added or last reset with, and how often it has become pending since. */
    ghost var total: nat
    ghost var fired: nat

    constructor (ev: Event, isPeriod: bool, timeout: nat, repeat: nat, nextTimeout: nat)
      ensures parent == left == right == null && this.nextTimeout == nextTimeout && this.ev == ev
      ensures this.isPeriod == isPeriod && this.timeout == timeout && this.repeat == repeat && total == repeat && fired == 0
    {
      this.ev, this.isPeriod, this.timeout, this.nextTimeout := ev, isPeriod, timeout, nextTimeout;
      this.repeat, total, fired := repeat, repeat, 0;
      parent, left, right := null, null, null;
    }
  }

  // ------------------------------------------------------------ values alone

  /** The element in slot `i`, counted from 1. */
  function Slot<T>(s: seq<T>, i: int): T
    requires 1 <= i <= |s|
  {
    s[i - 1]
  }

  function Exchange<T>(s: seq<T>, i: int, j: int): (r: seq<T>)
    requires 1 <= i <= |s| && 1 <= j <= |s|
    ensures |r| == |s|
    ensures forall k | 1 <= k <= |s| :: Slot(r, k) == if k == i then Slot(s, j) else if k == j then Slot(s, i) else Slot(s, k)
  {
    s[i - 1 := s[j - 1]][j - 1 := s[i - 1]]
  }

  /** Min-heap order: no slot holds less than its parent slot. */
  ghost predicate Heaped(v: seq<nat>) {
    forall j | 2 <= j <= |v| :: Slot(v, j / 2) <= Slot(v, j)
  }

  /** Slot `j`, if there is one, holds at least `x`. */
  ghost predicate AtLeast(v: seq<nat>, j: int, x: nat) { 1 <= j <= |v| ==> x <= Slot(v, j) }

  /** The parent of slot `i` is below both children of slot `i`. */
  ghost predicate Bridged(v: seq<nat>, i: int) {
    2 <= i <= |v| ==> AtLeast(v, 2 * i, Slot(v, i / 2)) && AtLeast(v, 2 * i + 1, Slot(v, i / 2))
  }

  /** Heap order everywhere but between slot `i` and its parent. */
  ghost predicate HeapedBelow(v: seq<nat>, i: int) {
    1 <= i <= |v| && Bridged(v, i) && forall j | 2 <= j <= |v| && j != i :: Slot(v, j / 2) <= Slot(v, j)
  }

  /** Heap order everywhere but between slot `i` and its parent or its children. */
  ghost predicate HeapedAround(v: seq<nat>, i: int) {
    1 <= i <= |v| && Bridged(v, i) && forall j | 2 <= j <= |v| && j != i && j / 2 != i :: Slot(v, j / 2) <= Slot(v, j)
  }

  lemma UpStep(v: seq<nat>, i: int)
    requires HeapedBelow(v, i) && i >= 2 && Slot(v, i) < Slot(v, i / 2)
    ensures HeapedBelow(Exchange(v, i / 2, i), i / 2)
  {
    var p, w := i / 2, Exchange(v, i / 2, i);
    forall j | 2 <= j <= |w| && j != p ensures Slot(w, j / 2) <= Slot(w, j) {
      if j / 2 == i { assert j == 2 * i || j == 2 * i + 1; }
    }
    if p >= 2 {
      assert Slot(v, p / 2) <= Slot(v, p);
      assert (2 * p) / 2 == p && (2 * p + 1) / 2 == p;
    }
  }

  lemma UpDone(v: seq<nat>, i: int)
    requires HeapedBelow(v, i) && (i == 1 || Slot(v, i / 2) <= Slot(v, i))
    ensures Heaped(v)
  {
  }

  /** Slot `e` is no later than slot `k` and its children. */
  ghost predicate Least(v: seq<nat>, k: int, e: int) {
    && 1 <= k <= |v| && 1 <= e <= |v| && Slot(v, e) <= Slot(v, k)
    && AtLeast(v, 2 * k, Slot(v, e)) && AtLeast(v, 2 * k + 1, Slot(v, e))
  }

  /** The smallest of a slot and its children, a child, goes up. */
  lemma DownStep(v: seq<nat>, i: int, k: int)
    requires HeapedAround(v, i) && (k == 2 * i || k == 2 * i + 1) && Least(v, i, k)
    ensures HeapedAround(Exchange(v, i, k), k)
  {
    var w := Exchange(v, i, k);
    assert k / 2 == i;
    forall j | 2 <= j <= |w| && j != k && j / 2 != k ensures Slot(w, j / 2) <= Slot(w, j) {
      if j / 2 == i { assert j == 2 * i || j == 2 * i + 1; }
    }
    assert (2 * k) / 2 == k && (2 * k + 1) / 2 == k;
  }

  lemma DownDone(v: seq<nat>, i: int)
    requires HeapedAround(v, i) && Least(v, i, i)
    ensures HeapedBelow(v, i)
  {
    forall j | 2 <= j <= |v| && j != i ensures Slot(v, j / 2) <= Slot(v, j) {
      if j / 2 == i { assert j == 2 * i || j == 2 * i + 1; }
    }
  }

  /** The root is a minimum. */
  lemma {:induction false} RootIsMin(v: seq<nat>, i: int)
    requires Heaped(v) && 1 <= i <= |v|
    ensures Slot(v, 1) <= Slot(v, i)
  {
    if i > 1 { RootIsMin(v, i / 2); }
  }

  /** A new last slot, or a slot overwritten by the removed last one, leaves one place to mend. */
  lemma AppendBelow(v: seq<nat>, x: nat)
    requires Heaped(v)
    ensures HeapedBelow(v + [x], |v| + 1)
  {
    var w := v + [x];
    forall j | 2 <= j <= |w| && j != |w| ensures Slot(w, j / 2) <= Slot(w, j) {
      assert Slot(w, j) == Slot(v, j) && Slot(w, j / 2) == Slot(v, j / 2);
    }
  }

  lemma OverwriteAround(v: seq<nat>, i: int, x: nat)
    requires Heaped(v) && 1 <= i <= |v|
    ensures HeapedAround(v[i - 1 := x], i)
  {
    var w := v[i - 1 := x];
    assert forall j | 1 <= j <= |w| && j != i :: Slot(w, j) == Slot(v, j);
    if i >= 2 {
      assert Slot(v, i / 2) <= Slot(v, i);
      assert (2 * i) / 2 == i && (2 * i + 1) / 2 == i;
    }
  }

  lemma DropLast(v: seq<nat>)
    requires Heaped(v) && v != []
    ensures Heaped(v[..|v| - 1])
  {
    var w := v[..|v| - 1];
    forall j | 2 <= j <= |w| ensures Slot(w, j / 2) <= Slot(w, j) {
      assert Slot(w, j) == Slot(v, j) && Slot(w, j / 2) == Slot(v, j / 2);
    }
  }

  // ----------------------------------------------------- the way to a slot

  /** The turns (true: right) from the root down to slot `n`. */
  function Turns(n: nat): seq<bool> {
    if n < 2 then [] else Turns(n / 2) + [n % 2 == 1]
  }

  /** The low `d` bits of `path`, lowest first. */
  function Bits(path: nat, d: nat): (b: seq<bool>)
    ensures |b| == d
  {
    if d == 0 then [] else [path % 2 == 1] + Bits(path / 2, d - 1)
  }

  /** The slot reached from slot `i` by the turns `b`. */
  function Reach(i: nat, b: seq<bool>): nat
    decreases |b|
  {
    if b == [] then i else Reach(2 * i + if b[0] then 1 else 0, b[1..])
  }

  lemma {:induction false} ReachAppend(i: nat, b: seq<bool>, x: bool)
    ensures Reach(i, b + [x]) == 2 * Reach(i, b) + if x then 1 else 0
    decreases |b|
  {
    if b == [] {
      assert b + [x] == [x] && [x][1..] == [];
    } else {
      assert (b + [x])[1..] == b[1..] + [x];
      ReachAppend(2 * i + if b[0] then 1 else 0, b[1..], x);
    }
  }

  /** Following the bits of `n` from the root ends in slot `n`. */
  lemma {:induction false} TurnsReach(n: nat)
    requires n >= 1
    ensures Reach(1, Turns(n)) == n
  {
    if n >= 2 {
      TurnsReach(n / 2);
      ReachAppend(1, Turns(n / 2), n % 2 == 1);
    }
  }

  lemma {:induction false} ReachGrows(i: nat, b: seq<bool>)
    requires i >= 1
    ensures Reach(i, b) >= i + |b|
    decreases |b|
  {
    if b != [] { ReachGrows(2 * i + if b[0] then 1 else 0, b[1..]); }
  }

  /** The first loop of heap_insert and heap_remove: the bits of `nelts` below the leading one, reversed. */
  method PathBits(nelts: nat) returns (path: nat, d: nat)
    requires nelts >= 1
    ensures Bits(path, d) == Turns(nelts)
    ensures d == 0 ==> path == 0
  {
    path, d := 0, 0;
    var n := nelts;
    while n >= 2
      invariant n >= 1 && Turns(nelts) == Turns(n) + Bits(path, d) && (d == 0 ==> path == 0)
      decreases n
    {
      assert Turns(n) + Bits(path, d) == Turns(n / 2) + ([n % 2 == 1] + Bits(path, d));
      path := 2 * path + n % 2;
      assert path / 2 == (path - n % 2) / 2;
      n, d := n / 2, d + 1;
    }
  }

  // ---------------------------------------------------------- links by slot

  datatype Cell = Cell(parent: Timer?, left: Timer?, right: Timer?)

  type Memory = map<Timer, Cell>

  ghost function Snap(S: set<Timer>): (m: Memory)
    reads S`parent, S`left, S`right
    ensures m.Keys == S
  {
    map n | n in S :: Cell(n.parent, n.left, n.right)
  }

  lemma ExchangeMembers<T>(s: seq<T>, i: int, j: int)
    requires 1 <= i <= |s| && 1 <= j <= |s|
    ensures Elems(Exchange(s, i, j)) == Elems(s)
  {
    var r := Exchange(s, i, j);
    forall x | x in r ensures x in s {
      var k :| 0 <= k < |r| && r[k] == x;
      assert r[k] == s[if k == i - 1 then j - 1 else if k == j - 1 then i - 1 else k];
    }
    forall x | x in s ensures x in r {
      var k :| 0 <= k < |s| && s[k] == x;
      assert r[if k == i - 1 then j - 1 else if k == j - 1 then i - 1 else k] == x;
    }
  }

  /** The node in slot `i`, null beyond the heap. */
  ghost function At(nodes: seq<Timer>, i: int): Timer? {
    if 1 <= i <= |nodes| then Slot(nodes, i) else null
  }

  /** What the links of the node in slot `i` have to be. */
  ghost function CellAt(nodes: seq<Timer>, i: int): Cell {
    Cell(At(nodes, i / 2), At(nodes, 2 * i), At(nodes, 2 * i + 1))
  }

  ghost predicate SlotsDiffer(nodes: seq<Timer>) {
    forall i, j | 1 <= i < j <= |nodes| :: Slot(nodes, i) != Slot(nodes, j)
  }

  /** The node in slot `i` has its links. */
  ghost predicate LinkedAt(m: Memory, nodes: seq<Timer>, i: int)
    requires 1 <= i <= |nodes|
  {
    Slot(nodes, i) in m && m[Slot(nodes, i)] == CellAt(nodes, i)
  }

  ghost predicate Linked(m: Memory, nodes: seq<Timer>) {
    SlotsDiffer(nodes) && forall i | 1 <= i <= |nodes| :: LinkedAt(m, nodes, i)
  }

  ghost function OtherChild(p: int, k: int): int { if k == 2 * p then 2 * p + 1 else 2 * p }

  /** The cell of the node in slot `i` after the nodes of slots `p` and `k` have changed places. */
  ghost function SwapCell(nodes: seq<Timer>, p: int, k: int, i: int): Cell
    requires 1 <= p && k <= |nodes| && (k == 2 * p || k == 2 * p + 1)
  {
    var c, parent, child := CellAt(nodes, i), Slot(nodes, p), Slot(nodes, k);
    if i == k then Cell(At(nodes, p / 2), if k == 2 * p then parent else At(nodes, 2 * p), if k == 2 * p then At(nodes, 2 * p + 1) else parent)
    else if i == p then Cell(child, At(nodes, 2 * k), At(nodes, 2 * k + 1))
    else if i == OtherChild(p, k) then c.(parent := child)
    else if i == 2 * k || i == 2 * k + 1 then c.(parent := parent)
    else if i == p / 2 then (if p % 2 == 0 then c.(left := child) else c.(right := child))
    else c
  }

  lemma SwappedAt(nodes: seq<Timer>, p: int, k: int, i: int)
    requires 1 <= p && k <= |nodes| && (k == 2 * p || k == 2 * p + 1) && 1 <= i <= |nodes|
    ensures var w := Exchange(nodes, p, k);
      CellAt(w, if i == p then k else if i == k then p else i) == SwapCell(nodes, p, k, i)
  {
  }

  /** Parent slot `p` and child slot `k` change nodes. */
  lemma Swapped(m': Memory, nodes: seq<Timer>, p: int, k: int)
    requires SlotsDiffer(nodes) && 1 <= p && k <= |nodes| && (k == 2 * p || k == 2 * p + 1)
    requires forall i | 1 <= i <= |nodes| :: Slot(nodes, i) in m' && m'[Slot(nodes, i)] == SwapCell(nodes, p, k, i)
    ensures Linked(m', Exchange(nodes, p, k))
  {
    var w := Exchange(nodes, p, k);
    forall i | 1 <= i <= |w| ensures LinkedAt(m', w, i) {
      SwappedAt(nodes, p, k, if i == p then k else if i == k then p else i);
    }
  }

  /** What heap_swap writes, node by node. */
  ghost function SwapWrite(m: Memory, parent: Timer, child: Timer, n: Timer): Cell
    requires parent in m && child in m && n in m
  {
    var pc, cc := m[parent], m[child];
    if n == child then
      Cell(pc.parent, if pc.left == child then parent else pc.left, if pc.left == child then pc.right else parent)
    else if n == parent then Cell(child, cc.left, cc.right)
    else if n == pc.parent then
      (if m[n].left == parent then m[n].(left := child) else m[n].(right := child))
    else if n == cc.left || n == cc.right then m[n].(parent := parent)
    else if n == pc.left || n == pc.right then m[n].(parent := child)
    else m[n]
  }

  lemma SwapWriteAt(m: Memory, nodes: seq<Timer>, p: int, k: int, i: int)
    requires Linked(m, nodes) && 1 <= p && k <= |nodes| && (k == 2 * p || k == 2 * p + 1) && 1 <= i <= |nodes|
    ensures Slot(nodes, p) in m && Slot(nodes, k) in m && Slot(nodes, i) in m
    ensures SwapWrite(m, Slot(nodes, p), Slot(nodes, k), Slot(nodes, i)) == SwapCell(nodes, p, k, i)
  {
    assert LinkedAt(m, nodes, p) && LinkedAt(m, nodes, k) && LinkedAt(m, nodes, i);
  }

  lemma SwapWritten(m: Memory, m': Memory, nodes: seq<Timer>, p: int, k: int)
    requires Linked(m, nodes) && 1 <= p && k <= |nodes| && (k == 2 * p || k == 2 * p + 1) && m.Keys == m'.Keys
    requires Slot(nodes, p) in m && Slot(nodes, k) in m
    requires forall n | n in m :: m'[n] == SwapWrite(m, Slot(nodes, p), Slot(nodes, k), n)
    ensures Linked(m', Exchange(nodes, p, k))
  {
    forall i | 1 <= i <= |nodes| ensures Slot(nodes, i) in m' && m'[Slot(nodes, i)] == SwapCell(nodes, p, k, i) {
      SwapWriteAt(m, nodes, p, k, i);
    }
    Swapped(m', nodes, p, k);
  }

  /** A child of slot `p` and the nodes around the two are all different nodes. */
  lemma SwapApart(nodes: seq<Timer>, p: int, k: int)
    requires SlotsDiffer(nodes) && 1 <= p && k <= |nodes| && (k == 2 * p || k == 2 * p + 1)
    ensures var parent, child, pp, lc, rc, sib :=
        Slot(nodes, p), Slot(nodes, k), At(nodes, p / 2), At(nodes, 2 * k), At(nodes, 2 * k + 1), At(nodes, OtherChild(p, k));
      && parent != child
      && (sib != null ==> sib != parent && sib != child && sib != pp && sib != lc && sib != rc)
      && (pp != null ==> pp != parent && pp != child && pp != lc && pp != rc && At(nodes, p / 2 * 2) != At(nodes, p / 2 * 2 + 1))
      && (lc != null ==> lc != parent && lc != child && lc != rc)
      && (rc != null ==> rc != parent && rc != child)
  {
  }

  /** `heap_swap` on the links alone; `S` bounds what it may touch. */
  method SwapLinks(heap: TimerHeap, parent: Timer, child: Timer, ghost S: set<Timer>)
    requires parent in S && child in S && parent != child && child.parent == parent
    requires (parent.left == child) != (parent.right == child)
    requires var sib := if parent.left == child then parent.right else parent.left;
      var pp, lc, rc := parent.parent, child.left, child.right;
      && (sib != null ==> sib in S && sib != parent && sib != child && sib != pp && sib != lc && sib != rc)
      && (pp != null ==> pp in S && pp != parent && pp != child && pp != lc && pp != rc
                         && (pp.left == parent || pp.right == parent) && pp.left != pp.right)
      && (lc != null ==> lc in S && lc != parent && lc != child && lc != rc)
      && (rc != null ==> rc in S && rc != parent && rc != child)
    modifies heap`root, S`parent, S`left, S`right
    ensures child.parent == old(parent.parent)
    ensures child.left == (if old(parent.left) == child then parent else old(parent.left))
    ensures child.right == (if old(parent.left) == child then old(parent.right) else parent)
    ensures parent.parent == child && parent.left == old(child.left) && parent.right == old(child.right)
    ensures var pp := old(parent.parent); pp != null ==>
      && pp.parent == old(parent.parent.parent)
      && pp.left == (if old(parent.parent.left) == parent then child else old(parent.parent.left))
      && pp.right == (if old(parent.parent.left) == parent then old(parent.parent.right) else child)
    ensures forall n | n in S && n != parent && n != child && n != old(parent.parent) ::
      && n.left == old(n.left) && n.right == old(n.right)
      && n.parent == (if n == old(child.left) || n == old(child.right) then parent
                      else if n == old(parent.left) || n == old(parent.right) then child else old(n.parent))
    ensures heap.root == if old(parent.parent) == null then child else old(heap.root)
  {
    var pparent, lchild, rchild := parent.parent, child.left, child.right;
    var sibling: Timer? := null;
    if pparent == null {
      heap.root := child;
    } else if pparent.left == parent {
      pparent.left := child;
    } else if pparent.right == parent {
      pparent.right := child;
    }
    if lchild != null {
      lchild.parent := parent;
    }
    if rchild != null {
      rchild.parent := parent;
    }
    child.parent := pparent;
    if parent.left == child {
      sibling := parent.right;
      child.left := parent;
      child.right := sibling;
    } else {
      sibling := parent.left;
      child.left := sibling;
      child.right := parent;
    }
    if sibling != null {
      sibling.parent := child;
    }
    parent.parent := child;
    parent.left := lchild;
    parent.right := rchild;
  }

  /** The same, as one statement about every cell. */
  method SwapCells(heap: TimerHeap, parent: Timer, child: Timer, ghost S: set<Timer>)
    requires parent in S && child in S && parent != child && child.parent == parent
    requires (parent.left == child) != (parent.right == child)
    requires var sib := if parent.left == child then parent.right else parent.left;
      var pp, lc, rc := parent.parent, child.left, child.right;
      && (sib != null ==> sib in S && sib != parent && sib != child && sib != pp && sib != lc && sib != rc)
      && (pp != null ==> pp in S && pp != parent && pp != child && pp != lc && pp != rc
                         && (pp.left == parent || pp.right == parent) && pp.left != pp.right)
      && (lc != null ==> lc in S && lc != parent && lc != child && lc != rc)
      && (rc != null ==> rc in S && rc != parent && rc != child)
    modifies heap`root, S`parent, S`left, S`right
    ensures forall n | n in S :: Cell(n.parent, n.left, n.right) == SwapWrite(old(Snap(S)), parent, child, n)
    ensures heap.root == if old(parent.parent) == null then child else old(heap.root)
  {
    SwapLinks(heap, parent, child, S);
  }

  /** When each timer is due. */
  type Times = map<Timer, nat>

  ghost function TimesOf(S: set<Timer>): (t: Times)
    reads S`nextTimeout
    ensures t.Keys == S
  {
    map n | n in S :: n.nextTimeout
  }

  ghost function Values(t: Times, nodes: seq<Timer>): (v: seq<nat>)
    requires Elems(nodes) <= t.Keys
    ensures |v| == |nodes|
    ensures forall i | 1 <= i <= |nodes| :: Slot(v, i) == t[Slot(nodes, i)]
  {
    seq(|nodes|, i requires 0 <= i < |nodes| => assert nodes[i] in Elems(nodes); t[nodes[i]])
  }

  class TimerHeap {
    var root: Timer?
    var nelts: nat

    constructor ()
      ensures Valid(this, {}, [])
    {
      root, nelts := null, 0;
    }
  }

  /** A complete binary tree on the nodes `S`: slots 1 to nelts, every link where the slot numbers say. */
  ghost predicate Shaped(heap: TimerHeap, S: set<Timer>, nodes: seq<Timer>)
    reads heap, S`parent, S`left, S`right
  {
    Elems(nodes) == S && |nodes| == heap.nelts && heap.root == At(nodes, 1) && Linked(Snap(S), nodes)
  }

  ghost predicate Valid(heap: TimerHeap, S: set<Timer>, nodes: seq<Timer>)
    reads heap, S`parent, S`left, S`right, S`nextTimeout
  {
    Shaped(heap, S, nodes) && Heaped(Values(TimesOf(S), nodes))
  }

  /** What the code reads from the node in slot `i`. */
  lemma Look(heap: TimerHeap, S: set<Timer>, nodes: seq<Timer>, i: int)
    requires Shaped(heap, S, nodes) && 1 <= i <= |nodes|
    ensures var n := Slot(nodes, i);
      n in S && n.parent == At(nodes, i / 2) && n.left == At(nodes, 2 * i) && n.right == At(nodes, 2 * i + 1)
  {
    assert LinkedAt(Snap(S), nodes, i);
  }

  /** `heap_swap`: parent and child change slots. */
  method Swap(heap: TimerHeap, parent: Timer, child: Timer, ghost S: set<Timer>, ghost nodes: seq<Timer>, ghost p: int, ghost k: int)
    returns (ghost nodes': seq<Timer>)
    requires Shaped(heap, S, nodes) && 1 <= p && k <= |nodes| && (k == 2 * p || k == 2 * p + 1)
    requires parent == Slot(nodes, p) && child == Slot(nodes, k)
    modifies heap`root, S`parent, S`left, S`right
    ensures Shaped(heap, S, nodes') && nodes' == Exchange(nodes, p, k)
  {
    SwapPointers(heap, parent, child, S, nodes, p, k);
    ExchangeMembers(nodes, p, k);
    nodes' := Exchange(nodes, p, k);
  }

  method SwapPointers(heap: TimerHeap, parent: Timer, child: Timer, ghost S: set<Timer>, ghost nodes: seq<Timer>, ghost p: int, ghost k: int)
    requires Shaped(heap, S, nodes) && 1 <= p && k <= |nodes| && (k == 2 * p || k == 2 * p + 1)
    requires parent == Slot(nodes, p) && child == Slot(nodes, k)
    modifies heap`root, S`parent, S`left, S`right
    ensures Linked(Snap(S), Exchange(nodes, p, k)) && heap.root == At(Exchange(nodes, p, k), 1)
  {
    Look(heap, S, nodes, p);
    Look(heap, S, nodes, k);
    if p >= 2 { Look(heap, S, nodes, p / 2); }
    SwapApart(nodes, p, k);
    ghost var m := Snap(S);
    SwapCells(heap, parent, child, S);
    SwapWritten(m, Snap(S), nodes, p, k);
  }

  lemma ExchangeValues(t: Times, nodes: seq<Timer>, i: int, j: int)
    requires 1 <= i <= |nodes| && 1 <= j <= |nodes| && Elems(nodes) <= t.Keys
    ensures Elems(Exchange(nodes, i, j)) == Elems(nodes)
    ensures Values(t, Exchange(nodes, i, j)) == Exchange(Values(t, nodes), i, j)
  {
    ExchangeMembers(nodes, i, j);
    var v, w := Values(t, Exchange(nodes, i, j)), Exchange(Values(t, nodes), i, j);
    forall k | 0 <= k < |v| ensures v[k] == w[k] {
      assert Slot(v, k + 1) == Slot(w, k + 1);
    }
  }

  /** `heap->compare(a, b)` with timers_compare. */
  function Compare(a: Timer, b: Timer): bool
    reads a`nextTimeout, b`nextTimeout
  {
    a.nextTimeout < b.nextTimeout
  }

  /** The sift-up loop of heap_insert and heap_remove. */
  method SiftUp(heap: TimerHeap, node: Timer, ghost S: set<Timer>, ghost nodes: seq<Timer>, ghost i: int) returns (ghost nodes': seq<Timer>)
    requires Shaped(heap, S, nodes) && HeapedBelow(Values(TimesOf(S), nodes), i) && node == Slot(nodes, i)
    modifies heap`root, S`parent, S`left, S`right
    ensures Valid(heap, S, nodes')
  {
    ghost var t := TimesOf(S);
    nodes' := nodes;
    ghost var k := i;
    Look(heap, S, nodes', k);
    while node.parent != null && Compare(node, node.parent)
      invariant Shaped(heap, S, nodes') && HeapedBelow(Values(t, nodes'), k) && node == Slot(nodes', k)
      invariant node.parent == At(nodes', k / 2)
      decreases k
    {
      ExchangeValues(t, nodes', k / 2, k);
      UpStep(Values(t, nodes'), k);
      nodes' := Swap(heap, node.parent, node, S, nodes', k / 2, k);
      k := k / 2;
      Look(heap, S, nodes', k);
    }
    UpDone(Values(t, nodes'), k);
    assert TimesOf(S) == t;
  }

  /** The sift-down loop of heap_remove, followed by its sift-up loop. */
  method SiftDown(heap: TimerHeap, v: Timer, ghost S: set<Timer>, ghost nodes: seq<Timer>, ghost i: int)
    returns (ghost nodes': seq<Timer>, ghost k: int)
    requires Shaped(heap, S, nodes) && HeapedAround(Values(TimesOf(S), nodes), i) && v == Slot(nodes, i)
    modifies heap`root, S`parent, S`left, S`right
    ensures Shaped(heap, S, nodes') && HeapedBelow(Values(TimesOf(S), nodes'), k) && v == Slot(nodes', k)
  {
    ghost var t := TimesOf(S);
    nodes', k := nodes, i;
    while true
      invariant Shaped(heap, S, nodes') && HeapedAround(Values(t, nodes'), k) && v == Slot(nodes', k)
      decreases |nodes'| - k
    {
      ghost var e;
      var est;
      est, e := Smallest(heap, v, S, nodes', k, t);
      if est == v {
        DownDone(Values(t, nodes'), k);
        break;
      }
      DownTurn(t, nodes', k, e);
      nodes' := Swap(heap, v, est, S, nodes', k, e);
      k := e;
    }
    assert TimesOf(S) == t;
  }

  lemma DownTurn(t: Times, nodes: seq<Timer>, k: int, e: int)
    requires Elems(nodes) <= t.Keys && HeapedAround(Values(t, nodes), k) && (e == 2 * k || e == 2 * k + 1) && Least(Values(t, nodes), k, e)
    ensures Elems(Exchange(nodes, k, e)) <= t.Keys && HeapedAround(Values(t, Exchange(nodes, k, e)), e)
  {
    ExchangeValues(t, nodes, k, e);
    DownStep(Values(t, nodes), k, e);
  }

  /** `est` of heap_remove: the node itself when it is strictly before both children, else the earlier child. */
  method Smallest(heap: TimerHeap, v: Timer, ghost S: set<Timer>, ghost nodes: seq<Timer>, ghost k: int, ghost t: Times) returns (est: Timer, ghost e: int)
    requires Shaped(heap, S, nodes) && 1 <= k <= |nodes| && v == Slot(nodes, k) && t == TimesOf(S)
    ensures (e == k || e == 2 * k || e == 2 * k + 1) && e <= |nodes| && est == Slot(nodes, e) && (est == v <==> e == k)
    ensures Least(Values(t, nodes), k, e)
  {
    Look(heap, S, nodes, k);
    est, e := v, k;
    if v.left != null {
      Look(heap, S, nodes, 2 * k);
      if !Compare(est, v.left) {
        est, e := v.left, 2 * k;
      }
    }
    if v.right != null {
      Look(heap, S, nodes, 2 * k + 1);
      if !Compare(est, v.right) {
        est, e := v.right, 2 * k + 1;
      }
    }
  }

  /** The second loop of heap_insert and heap_remove: down to the parent of slot `n`. */
  method ParentByPath(heap: TimerHeap, path0: nat, d0: nat, ghost S: set<Timer>, ghost nodes: seq<Timer>, ghost n: nat)
    returns (parent: Timer?, path: nat)
    requires Shaped(heap, S, nodes) && 1 <= n && n - 1 <= |nodes| && Bits(path0, d0) == Turns(n)
    ensures if n == 1 then parent == heap.root && path == path0 else parent == At(nodes, n / 2) && parent != null && path % 2 == n % 2
  {
    TurnsReach(n);
    parent, path := heap.root, path0;
    var d: nat := d0;
    ghost var j: nat := 1;
    while d > 1
      invariant Reach(j, Bits(path, d)) == n && j >= 1 && (d0 >= 1 ==> d >= 1) && d <= d0
      invariant parent == At(nodes, j)
      invariant d == d0 ==> path == path0
    {
      ReachGrows(j, Bits(path, d));
      Look(heap, S, nodes, j);
      parent := if path % 2 == 1 then parent.right else parent.left;
      j := 2 * j + path % 2;
      assert Bits(path, d)[1..] == Bits(path / 2, d - 1);
      d, path := d - 1, path / 2;
    }
    if d == 1 {
      ReachGrows(j, Bits(path, d));
      assert Bits(path, 1)[1..] == [];
    }
  }

  lemma Appended(m: Memory, m': Memory, nodes: seq<Timer>, x: Timer)
    requires Linked(m, nodes) && x !in nodes && x in m'
    requires var n := |nodes| + 1; m'[x] == Cell(At(nodes, n / 2), null, null)
    requires forall i | 1 <= i <= |nodes| && i != (|nodes| + 1) / 2 ::
      Slot(nodes, i) in m && Slot(nodes, i) in m' && m'[Slot(nodes, i)] == m[Slot(nodes, i)]
    requires var n := |nodes| + 1; n >= 2 ==>
      Slot(nodes, n / 2) in m && Slot(nodes, n / 2) in m' && m'[Slot(nodes, n / 2)] ==
        (if n % 2 == 0 then m[Slot(nodes, n / 2)].(left := x) else m[Slot(nodes, n / 2)].(right := x))
    ensures Linked(m', nodes + [x])
  {
    var w := nodes + [x];
    forall i | 1 <= i <= |w| ensures LinkedAt(m', w, i) {
      if i <= |nodes| {
        assert LinkedAt(m, nodes, i) && Slot(w, i) == Slot(nodes, i);
      }
    }
    forall i, j | 1 <= i < j <= |w| ensures Slot(w, i) != Slot(w, j) {
      assert Slot(w, i) == Slot(nodes, i) && Slot(w, i) in nodes;
      if j <= |nodes| { assert Slot(w, j) == Slot(nodes, j); }
    }
  }

  /** `heap_insert`. */
  method Insert(heap: TimerHeap, node: Timer, ghost S: set<Timer>, ghost nodes: seq<Timer>) returns (ghost nodes': seq<Timer>)
    requires Valid(heap, S, nodes) && node !in S && node.left == null && node.right == null
    modifies heap, S`parent, S`left, S`right, node`parent, node`left, node`right
    ensures Valid(heap, S + {node}, nodes')
  {
    ghost var t := TimesOf(S + {node});
    AppendNode(heap, node, S, nodes);
    nodes' := nodes + [node];
    AppendValues(t, TimesOf(S), nodes, node);
    AppendBelow(Values(TimesOf(S), nodes), node.nextTimeout);
    nodes' := SiftUp(heap, node, S + {node}, nodes', |nodes| + 1);
  }

  lemma AppendValues(t: Times, t0: Times, nodes: seq<Timer>, x: Timer)
    requires Elems(nodes) <= t0.Keys && t0.Keys <= t.Keys && x in t && forall n | n in t0 :: t0[n] == t[n]
    ensures Elems(nodes + [x]) == Elems(nodes) + {x}
    ensures Values(t, nodes + [x]) == Values(t0, nodes) + [t[x]]
  {
    var v, w := Values(t, nodes + [x]), Values(t0, nodes) + [t[x]];
    forall k | 0 <= k < |v| ensures v[k] == w[k] {
      assert Slot(v, k + 1) == t[Slot(nodes + [x], k + 1)];
      if k < |nodes| { assert Slot(Values(t0, nodes), k + 1) == t0[Slot(nodes, k + 1)]; }
    }
  }

  /** The node takes the first free slot. */
  method AppendNode(heap: TimerHeap, node: Timer, ghost S: set<Timer>, ghost nodes: seq<Timer>)
    requires Shaped(heap, S, nodes) && node !in S && node.left == null && node.right == null
    modifies heap, S`parent, S`left, S`right, node`parent, node`left, node`right
    ensures Shaped(heap, S + {node}, nodes + [node])
  {
    ghost var n := |nodes| + 1;
    var path, d := PathBits(heap.nelts + 1);
    var parent;
    parent, path := ParentByPath(heap, path, d, S, nodes, n);
    LinkLast(heap, node, parent, path % 2 == 1, S, nodes);
    hide Linked, SlotsDiffer;
  }

  /** The links of it. */
  method LinkLast(heap: TimerHeap, node: Timer, parent: Timer?, onRight: bool, ghost S: set<Timer>, ghost nodes: seq<Timer>)
    requires Shaped(heap, S, nodes) && node !in S && node.left == null && node.right == null
    requires parent == At(nodes, (|nodes| + 1) / 2) && (nodes != [] ==> (onRight <==> |nodes| % 2 == 0))
    modifies heap, S`parent, S`left, S`right, node`parent, node`left, node`right
    ensures heap.nelts == |nodes| + 1 && heap.root == (if nodes == [] then node else old(heap.root)) && Linked(Snap(S + {node}), nodes + [node])
  {
    ghost var m, n := Snap(S), |nodes| + 1;
    if n >= 2 { Look(heap, S, nodes, n / 2); }
    heap.nelts := heap.nelts + 1;
    node.parent := parent;
    if parent == null {
      heap.root := node;
    } else if onRight {
      parent.right := node;
    } else {
      parent.left := node;
    }
    forall i | 1 <= i <= |nodes| && i != n / 2 ensures Slot(nodes, i) in S && Slot(nodes, i) != parent {}
    Appended(m, Snap(S + {node}), nodes, node);
  }

  // -------------------------------------------------------------- removing

  lemma Detached(m: Memory, m': Memory, nodes: seq<Timer>)
    requires Linked(m, nodes) && |nodes| >= 2
    requires forall i | 1 <= i < |nodes| && i != |nodes| / 2 ::
      Slot(nodes, i) in m && Slot(nodes, i) in m' && m'[Slot(nodes, i)] == m[Slot(nodes, i)]
    requires var q := Slot(nodes, |nodes| / 2);
      q in m && q in m' && m'[q] == if |nodes| % 2 == 0 then m[q].(left := null) else m[q].(right := null)
    ensures Linked(m', nodes[..|nodes| - 1])
  {
    var w := nodes[..|nodes| - 1];
    forall i | 1 <= i <= |w| ensures LinkedAt(m', w, i) {
      assert LinkedAt(m, nodes, i) && Slot(w, i) == Slot(nodes, i);
    }
    forall i, j | 1 <= i < j <= |w| ensures Slot(w, i) != Slot(w, j) {
      assert Slot(w, i) == Slot(nodes, i) && Slot(w, j) == Slot(nodes, j);
    }
  }

  lemma LastMember(S: set<Timer>, nodes: seq<Timer>)
    requires Elems(nodes) == S && nodes != [] && SlotsDiffer(nodes)
    ensures Elems(nodes[..|nodes| - 1]) == S - {Slot(nodes, |nodes|)}
  {
    var w, n := nodes[..|nodes| - 1], |nodes|;
    forall x | x in w ensures x in nodes && x != Slot(nodes, n) {
      var k :| 0 <= k < |w| && w[k] == x;
      assert Slot(nodes, k + 1) == x;
    }
    forall x | x in nodes && x != Slot(nodes, n) ensures x in w {
      var k :| 0 <= k < |nodes| && nodes[k] == x;
      assert w[k] == x;
    }
  }

  /** The last slot is cut off: all of heap_remove up to heap_replace, for more than one node. */
  method DetachLast(heap: TimerHeap, ghost S: set<Timer>, ghost nodes: seq<Timer>) returns (last: Timer?)
    requires Shaped(heap, S, nodes) && |nodes| >= 1
    modifies heap`nelts, S`left, S`right
    ensures heap.nelts == |nodes| - 1
    ensures |nodes| == 1 ==> last == null && Slot(nodes, 1).left == null && Slot(nodes, 1).right == null
    ensures |nodes| >= 2 ==>
      && last == Slot(nodes, |nodes|) && last.left == null && last.right == null
      && Shaped(heap, S - {last}, nodes[..|nodes| - 1])
  {
    ghost var m, n := Snap(S), |nodes|;
    var path, d := PathBits(heap.nelts);
    Look(heap, S, nodes, n);
    if n >= 2 { Look(heap, S, nodes, n / 2); }
    Look(heap, S, nodes, 1);
    var parent;
    parent, path := ParentByPath(heap, path, d, S, nodes, n);
    heap.nelts := heap.nelts - 1;
    if path % 2 == 1 {
      last := parent.right;
      parent.right := null;
    } else {
      last := parent.left;
      parent.left := null;
    }
    if n >= 2 {
      LastMember(S, nodes);
      Detached(m, Snap(S - {last}), nodes);
    }
  }

  /** Slot `i` changes its node for `x`, a node from outside. */
  lemma Substituted(m: Memory, m': Memory, nodes: seq<Timer>, i: int, x: Timer)
    requires Linked(m, nodes) && 1 <= i <= |nodes| && x !in nodes && x in m' && m'[x] == CellAt(nodes, i)
    requires forall j | 1 <= j <= |nodes| && j != i ::
      Slot(nodes, j) in m && Slot(nodes, j) in m' && m'[Slot(nodes, j)] ==
        (if j / 2 == i then m[Slot(nodes, j)].(parent := x)
         else if j == i / 2 then (if i % 2 == 0 then m[Slot(nodes, j)].(left := x) else m[Slot(nodes, j)].(right := x))
         else m[Slot(nodes, j)])
    ensures Linked(m', nodes[i - 1 := x])
  {
    var w := nodes[i - 1 := x];
    forall j | 1 <= j <= |w| ensures LinkedAt(m', w, j) {
      if j != i { assert LinkedAt(m, nodes, j) && Slot(w, j) == Slot(nodes, j); }
    }
    forall j, k | 1 <= j < k <= |w| ensures Slot(w, j) != Slot(w, k) {
      assert nodes[j - 1] in nodes && nodes[k - 1] in nodes;
      assert j != i ==> Slot(w, j) == Slot(nodes, j);
      assert k != i ==> Slot(w, k) == Slot(nodes, k);
    }
  }

  lemma SubstituteMember(S: set<Timer>, nodes: seq<Timer>, i: int, x: Timer)
    requires Elems(nodes) == S && SlotsDiffer(nodes) && 1 <= i <= |nodes|
    ensures Elems(nodes[i - 1 := x]) == S - {Slot(nodes, i)} + {x}
  {
    var w := nodes[i - 1 := x];
    forall y | y in w ensures y == x || (y in nodes && y != Slot(nodes, i)) {
      var k :| 0 <= k < |w| && w[k] == y;
      if k != i - 1 { assert Slot(nodes, k + 1) == y; }
    }
    forall y | y in nodes && y != Slot(nodes, i) ensures y in w {
      var k :| 0 <= k < |nodes| && nodes[k] == y;
      assert w[k] == y;
    }
    assert w[i - 1] == x;
  }

  /** `heap_replace` on the links alone, then the replaced node's own links are cleared. */
  method ReplaceLinks(heap: TimerHeap, s: Timer, r: Timer, ghost S: set<Timer>)
    requires s in S && r !in S
    requires s.left != null ==> s.left in S && s.left != s && s.left != s.right
    requires s.right != null ==> s.right in S && s.right != s
    requires s.parent != null ==>
      && s.parent in S && s.parent != s && s.parent != s.left && s.parent != s.right
      && (s.parent.left == s || s.parent.right == s) && s.parent.left != s.parent.right
    modifies heap`root, S`parent, S`left, S`right, r`parent, r`left, r`right
    ensures r.parent == old(s.parent) && r.left == old(s.left) && r.right == old(s.right)
    ensures s.parent == null && s.left == null && s.right == null
    ensures forall n | n in S && n != s ::
      && n.parent == (if n == old(s.left) || n == old(s.right) then r else old(n.parent))
      && n.left == (if n == old(s.parent) && old(n.left) == s then r else old(n.left))
      && n.right == (if n == old(s.parent) && old(n.left) != s then r else old(n.right))
    ensures heap.root == if old(s.parent) == null then r else old(heap.root)
  {
    if s.parent == null {
      heap.root := r;
    } else if s.parent.left == s {
      s.parent.left := r;
    } else if s.parent.right == s {
      s.parent.right := r;
    }
    if s.left != null {
      s.left.parent := r;
    }
    if s.right != null {
      s.right.parent := r;
    }
    r.parent, r.left, r.right := s.parent, s.left, s.right;
    s.parent, s.left, s.right := null, null, null;
  }

  method ReplaceNode(heap: TimerHeap, node: Timer, last: Timer, ghost S: set<Timer>, ghost nodes: seq<Timer>, ghost i: int)
    requires Shaped(heap, S, nodes) && 1 <= i <= |nodes| && node == Slot(nodes, i) && last !in S
    modifies heap`root, S`parent, S`left, S`right, last`parent, last`left, last`right
    ensures Shaped(heap, S - {node} + {last}, nodes[i - 1 := last])
    ensures node.parent == null && node.left == null && node.right == null
  {
    ghost var m := Snap(S);
    Look(heap, S, nodes, i);
    if 2 * i <= |nodes| { Look(heap, S, nodes, 2 * i); }
    if 2 * i + 1 <= |nodes| { Look(heap, S, nodes, 2 * i + 1); }
    if i >= 2 { Look(heap, S, nodes, i / 2); }
    ReplaceLinks(heap, node, last, S);
    Replaced(m, Snap(S - {node} + {last}), nodes, i, last);
    SubstituteMember(S, nodes, i, last);
  }

  lemma Replaced(m: Memory, m': Memory, nodes: seq<Timer>, i: int, x: Timer)
    requires Linked(m, nodes) && 1 <= i <= |nodes| && x !in nodes && m.Keys == Elems(nodes)
    requires m'.Keys == m.Keys - {Slot(nodes, i)} + {x}
    requires Slot(nodes, i) in m && m'[x] == m[Slot(nodes, i)]
    requires var s := Slot(nodes, i); forall n | n in m && n != s ::
      m'[n] == Cell(if n == m[s].left || n == m[s].right then x else m[n].parent,
                    if n == m[s].parent && m[n].left == s then x else m[n].left,
                    if n == m[s].parent && m[n].left != s then x else m[n].right)
    ensures Linked(m', nodes[i - 1 := x])
  {
    assert LinkedAt(m, nodes, i);
    forall j | 1 <= j <= |nodes| && j != i
      ensures Slot(nodes, j) in m && Slot(nodes, j) in m' && m'[Slot(nodes, j)] ==
        (if j / 2 == i then m[Slot(nodes, j)].(parent := x)
         else if j == i / 2 then (if i % 2 == 0 then m[Slot(nodes, j)].(left := x) else m[Slot(nodes, j)].(right := x))
         else m[Slot(nodes, j)])
    {
      assert LinkedAt(m, nodes, j);
    }
    Substituted(m, m', nodes, i, x);
  }

  /** `heap_remove` of any member. */
  method Remove(heap: TimerHeap, node: Timer, ghost S: set<Timer>, ghost nodes: seq<Timer>) returns (ghost nodes': seq<Timer>)
    requires Valid(heap, S, nodes) && node in S
    modifies heap, S`parent, S`left, S`right
    ensures Valid(heap, S - {node}, nodes')
    ensures node.left == null && node.right == null
  {
    ghost var t := TimesOf(S);
    var last := DetachLast(heap, S, nodes);
    if last == null {
      LoneMember(S, nodes, node);
      if heap.root == node {
        heap.root := null;
      }
      nodes' := [];
      return;
    }
    nodes' := nodes[..|nodes| - 1];
    CutValues(t, nodes);
    nodes' := FillGap(heap, node, last, S, nodes', t);
  }

  /** The rest of heap_remove, with the last slot cut off. */
  method FillGap(heap: TimerHeap, node: Timer, last: Timer, ghost S: set<Timer>, ghost nodes: seq<Timer>, ghost t: Times)
    returns (ghost nodes': seq<Timer>)
    requires last in S && node in S && t == TimesOf(S) && last.left == null && last.right == null
    requires Shaped(heap, S - {last}, nodes) && Heaped(Values(t, nodes))
    modifies heap`root, S`parent, S`left, S`right
    ensures Valid(heap, S - {node}, nodes')
    ensures node.left == null && node.right == null
  {
    nodes' := nodes;
    if last == node {
      // heap_replace of a node by itself changes nothing, and neither loop moves a node without links
      node.parent, node.left, node.right := null, null, null;
      SameValues(t, TimesOf(S - {node}), nodes');
    } else {
      nodes' := MoveLast(heap, node, last, S, nodes', t);
    }
  }

  /** The cut-off last node takes the place of `node` and sinks or rises to where it belongs. */
  method MoveLast(heap: TimerHeap, node: Timer, last: Timer, ghost S: set<Timer>, ghost nodes: seq<Timer>, ghost t: Times)
    returns (ghost nodes': seq<Timer>)
    requires last in S && node in S && node != last && t == TimesOf(S)
    requires Shaped(heap, S - {last}, nodes) && Heaped(Values(t, nodes))
    modifies heap`root, S`parent, S`left, S`right
    ensures Shaped(heap, S - {node}, nodes') && Heaped(Values(TimesOf(S - {node}), nodes'))
    ensures node.left == null && node.right == null
  {
    ghost var i := SlotOf(nodes, node);
    ReplaceNode(heap, node, last, S - {last}, nodes, i);
    OverwriteValues(t, nodes, i, last);
    nodes' := nodes[i - 1 := last];
    assert S - {last} - {node} + {last} == S - {node};
    SameValues(t, TimesOf(S - {node}), nodes');
    nodes' := Sift(heap, last, S - {node}, nodes', i);
  }

  lemma SameValues(t: Times, t': Times, nodes: seq<Timer>)
    requires Elems(nodes) <= t.Keys && Elems(nodes) <= t'.Keys && forall n | n in Elems(nodes) :: t[n] == t'[n]
    ensures Values(t, nodes) == Values(t', nodes)
  {
    forall k | 0 <= k < |nodes| ensures Values(t, nodes)[k] == Values(t', nodes)[k] {
      assert nodes[k] in Elems(nodes);
      assert Slot(Values(t, nodes), k + 1) == t[Slot(nodes, k + 1)] && Slot(Values(t', nodes), k + 1) == t'[Slot(nodes, k + 1)];
    }
  }

  method Sift(heap: TimerHeap, v: Timer, ghost S: set<Timer>, ghost nodes: seq<Timer>, ghost i: int) returns (ghost nodes': seq<Timer>)
    requires Shaped(heap, S, nodes) && HeapedAround(Values(TimesOf(S), nodes), i) && v == Slot(nodes, i)
    modifies heap`root, S`parent, S`left, S`right
    ensures Valid(heap, S, nodes')
  {
    ghost var k;
    nodes', k := SiftDown(heap, v, S, nodes, i);
    nodes' := SiftUp(heap, v, S, nodes', k);
  }

  lemma LoneMember(S: set<Timer>, nodes: seq<Timer>, x: Timer)
    requires Elems(nodes) == S && |nodes| == 1 && x in S
    ensures S == {x} && nodes == [x]
  {
  }

  lemma SlotOf(nodes: seq<Timer>, x: Timer) returns (i: int)
    requires x in Elems(nodes)
    ensures 1 <= i <= |nodes| && Slot(nodes, i) == x
  {
    var k :| 0 <= k < |nodes| && nodes[k] == x;
    i := k + 1;
  }

  lemma CutValues(t: Times, nodes: seq<Timer>)
    requires Elems(nodes) <= t.Keys && nodes != [] && Heaped(Values(t, nodes))
    ensures var w := nodes[..|nodes| - 1]; Elems(w) <= t.Keys && Heaped(Values(t, w))
  {
    var v, w := Values(t, nodes), nodes[..|nodes| - 1];
    assert forall x | x in w :: x in nodes;
    DropLast(v);
    forall k | 0 <= k < |w| ensures Values(t, w)[k] == v[k] {
      assert Slot(Values(t, w), k + 1) == t[Slot(w, k + 1)] && Slot(v, k + 1) == t[Slot(nodes, k + 1)];
    }
    assert Values(t, w) == v[..|v| - 1];
  }

  lemma OverwriteValues(t: Times, nodes: seq<Timer>, i: int, x: Timer)
    requires Elems(nodes) <= t.Keys && 1 <= i <= |nodes| && x in t && Heaped(Values(t, nodes))
    ensures var w := nodes[i - 1 := x]; Elems(w) <= t.Keys && HeapedAround(Values(t, w), i)
  {
    var v, w := Values(t, nodes), nodes[i - 1 := x];
    forall y | y in w ensures y in t {
      assert y == x || y in Elems(nodes);
    }
    OverwriteAround(v, i, t[x]);
    forall k | 0 <= k < |w| ensures Values(t, w)[k] == v[i - 1 := t[x]][k] {
      assert Slot(Values(t, w), k + 1) == t[Slot(w, k + 1)] && Slot(v, k + 1) == t[Slot(nodes, k + 1)];
    }
    assert Values(t, w) == v[i - 1 := t[x]];
  }

  /** `heap_dequeue`: removes the root, a timer due no later than any other. */
  method Dequeue(heap: TimerHeap, ghost S: set<Timer>, ghost nodes: seq<Timer>) returns (ghost nodes': seq<Timer>)
    requires Valid(heap, S, nodes)
    modifies heap, S`parent, S`left, S`right
    ensures old(heap.root) == null ==> S == {} && Valid(heap, S, nodes')
    ensures old(heap.root) != null ==> old(heap.root) in S && Valid(heap, S - {old(heap.root)}, nodes')
    ensures old(heap.root) != null ==>
      old(heap.root).left == null && old(heap.root).right == null && forall n | n in S :: old(heap.root).nextTimeout <= n.nextTimeout
  {
    nodes' := nodes;
    RootEarliest(heap, S, nodes);
    if heap.nelts == 0 {
      return;
    }
    nodes' := Remove(heap, heap.root, S, nodes);
  }

  /** The root of the heap is a timer due no later than any other. */
  lemma RootEarliest(heap: TimerHeap, S: set<Timer>, nodes: seq<Timer>)
    requires Valid(heap, S, nodes)
    ensures heap.root == null <==> S == {}
    ensures heap.root == null <==> heap.nelts == 0
    ensures |S| == heap.nelts
    ensures heap.root != null ==> heap.root in S && forall n | n in S :: heap.root.nextTimeout <= n.nextTimeout
  {
    CountMembers(nodes);
    if nodes != [] {
      assert nodes[0] in nodes;
      var v := Values(TimesOf(S), nodes);
      forall n | n in S ensures heap.root.nextTimeout <= n.nextTimeout {
        var i := SlotOf(nodes, n);
        RootIsMin(v, i);
        assert Slot(v, i) == n.nextTimeout && Slot(v, 1) == heap.root.nextTimeout;
      }
    }
  }

  lemma {:induction false} CountMembers(nodes: seq<Timer>)
    requires SlotsDiffer(nodes)
    ensures |Elems(nodes)| == |nodes|
  {
    if nodes != [] {
      var w := nodes[..|nodes| - 1];
      forall i, j | 1 <= i < j <= |w| ensures Slot(w, i) != Slot(w, j) {
        assert Slot(w, i) == Slot(nodes, i) && Slot(w, j) == Slot(nodes, j);
      }
      CountMembers(w);
      LastMember(Elems(nodes), nodes);
    }
  }
}
