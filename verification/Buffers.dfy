/** The variable-length buffer and the ring buffer of hbuf.h. */
module Buffers {

  import opened Bytes

  function Max(a: nat, b: nat): nat { if a < b then b else a }

  /** `HVLBuf` with memory of its own: bytes go in and out at both ends. */
  class HVLBuf {
    var base: array<byte>
    var offset: nat
    var count: nat

    ghost predicate Valid()
      reads `base, `offset, `count
    {
      offset + count <= base.Length
    }

    ghost function Contents(): (s: seq<byte>)
      requires Valid()
      reads this, base
      ensures |s| == count
    {
      base[offset..offset + count]
    }

    constructor (cap: nat)
      ensures Valid() && Contents() == [] && fresh(base)
    {
      base, offset, count := new byte[cap](_ => 0), 0, 0;
    }

    /** `resize`. */
    method Resize(cap: nat)
      requires Valid() && base.Length <= cap
      modifies `base
      ensures Valid() && base.Length == cap && Contents() == old(Contents()) && (base == old(base) || fresh(base))
    {
      if cap == base.Length {
        return;
      }
      var b := new byte[cap](_ => 0);
      forall i | 0 <= i < base.Length {
        b[i] := base[i];
      }
      base := b;
    }

    /** `memmove(base + to, data(), size)`: the contents start at `to` now. */
    method Move(to: nat)
      requires Valid() && to + count <= base.Length
      modifies `offset, base
      ensures Valid() && offset == to && Contents() == old(Contents())
    {
      if to <= offset {
        MoveDown(to);
      } else {
        MoveUp(to);
      }
      offset := to;
    }

    method MoveDown(to: nat)
      requires Valid() && to <= offset
      modifies base
      ensures base[to..to + count] == old(Contents())
    {
      ghost var was := Contents();
      var i := 0;
      while i < count
        invariant i <= count && (forall k | 0 <= k < i :: base[to + k] == was[k])
        invariant forall k | i <= k < count :: base[offset + k] == was[k]
      {
        base[to + i] := base[offset + i];
        i := i + 1;
      }
    }

    method MoveUp(to: nat)
      requires Valid() && offset <= to && to + count <= base.Length
      modifies base
      ensures base[to..to + count] == old(Contents())
    {
      ghost var was := Contents();
      var i: nat := count;
      while i > 0
        invariant i <= count && (forall k | i <= k < count :: base[to + k] == was[k])
        invariant forall k | 0 <= k < i :: base[offset + k] == was[k]
      {
        i := i - 1;
        base[to + i] := base[offset + i];
      }
    }

    /** `memcpy(data() - len, ptr, len)`. */
    method CopyBefore(bytes: seq<byte>)
      requires Valid() && |bytes| <= offset
      modifies `offset, `count, base
      ensures Valid() && Contents() == bytes + old(Contents())
    {
      ghost var was := Contents();
      var len := |bytes|;
      forall i | 0 <= i < len {
        base[offset - len + i] := bytes[i];
      }
      assert base[offset..offset + count] == was && base[offset - len..offset] == bytes;
      offset, count := offset - len, count + len;
      assert base[offset..offset + count] == base[offset..offset + len] + base[offset + len..offset + count];
    }

    /** `memcpy(data() + size, ptr, len)`. */
    method CopyBehind(bytes: seq<byte>)
      requires Valid() && offset + count + |bytes| <= base.Length
      modifies `count, base
      ensures Valid() && Contents() == old(Contents()) + bytes
    {
      ghost var was := Contents();
      var len := |bytes|;
      forall i | 0 <= i < len {
        base[offset + count + i] := bytes[i];
      }
      assert base[offset..offset + count] == was && base[offset + count..offset + count + len] == bytes;
      count := count + len;
      assert base[offset..offset + count] == base[offset..offset + count - len] + base[offset + count - len..offset + count];
    }

    method PushFront(bytes: seq<byte>)
      requires Valid()
      modifies this, base
      ensures Valid() && Contents() == bytes + old(Contents()) && (base == old(base) || fresh(base))
    {
      hide Contents;
      var len := |bytes|;
      if len > base.Length - count {
        Resize(Max(base.Length, len) * 2);
      }
      if offset < len {
        Move(base.Length - count);
      }
      CopyBefore(bytes);
    }

    method PushBack(bytes: seq<byte>)
      requires Valid()
      modifies this, base
      ensures Valid() && Contents() == old(Contents()) + bytes && (base == old(base) || fresh(base))
    {
      hide Contents;
      var len := |bytes|;
      if len > base.Length - count {
        Resize(Max(base.Length, len) * 2);
      } else if len > base.Length - offset - count {
        Move(0);
      }
      CopyBehind(bytes);
    }

    /** Takes the first `len` bytes, or nothing when there are not so many. */
    method PopFront(len: nat) returns (bytes: seq<byte>)
      requires Valid()
      modifies `offset, `count
      ensures Valid() && bytes + Contents() == old(Contents()) && |bytes| == if len <= old(count) then len else 0
    {
      bytes := [];
      if len <= count {
        bytes := base[offset..offset + len];
        offset := offset + len;
        if offset >= base.Length {
          offset := 0;
        }
        count := count - len;
      }
    }

    /** Takes the last `len` bytes, or nothing when there are not so many. */
    method PopBack(len: nat) returns (bytes: seq<byte>)
      requires Valid()
      modifies `count
      ensures Valid() && Contents() + bytes == old(Contents()) && |bytes| == if len <= old(count) then len else 0
    {
      bytes := [];
      if len <= count {
        bytes := base[offset + count - len..offset + count];
        count := count - len;
      }
    }
  }

  // ------------------------------------------------------------ the ring buffer

  /** A block that `alloc` has given and `free` has not taken back. */
  datatype Block = Block(pos: nat, len: nat)

  /** The blocks `s` lie end to end from `from` to `to`. */
  ghost predicate Chain(s: seq<Block>, from: nat, to: nat) {
    if s == [] then from == to else s[0].pos == from && s[0].len > 0 && Chain(s[1..], from + s[0].len, to)
  }

  ghost function Total(s: seq<Block>): nat { if s == [] then 0 else s[0].len + Total(s[1..]) }

  lemma {:induction false} ChainAppend(s: seq<Block>, from: nat, to: nat, len: nat)
    requires Chain(s, from, to) && len > 0
    ensures Chain(s + [Block(to, len)], from, to + len) && Total(s + [Block(to, len)]) == Total(s) + len
  {
    if s == [] {
      assert [Block(to, len)][1..] == [];
    } else {
      ChainAppend(s[1..], from + s[0].len, to, len);
      assert (s + [Block(to, len)])[1..] == s[1..] + [Block(to, len)];
    }
  }

  lemma {:induction false} ChainTotal(s: seq<Block>, from: nat, to: nat)
    requires Chain(s, from, to)
    ensures to == from + Total(s) && (s != [] <==> from < to)
  {
    if s != [] { ChainTotal(s[1..], from + s[0].len, to); }
  }

  lemma {:induction false} TotalAppend(s: seq<Block>, t: seq<Block>)
    ensures Total(s + t) == Total(s) + Total(t)
  {
    if s == [] {
      assert s + t == t;
    } else {
      TotalAppend(s[1..], t);
      assert (s + t)[1..] == s[1..] + t;
    }
  }

  ghost predicate Apart(a: Block, b: Block) { a.pos + a.len <= b.pos || b.pos + b.len <= a.pos }

  /** The blocks of a chain lie in it, one after the other. */
  lemma {:induction false} ChainApart(s: seq<Block>, from: nat, to: nat)
    requires Chain(s, from, to)
    ensures forall i | 0 <= i < |s| :: from <= s[i].pos && s[i].len > 0 && s[i].pos + s[i].len <= to
    ensures forall i, j | 0 <= i < j < |s| :: s[i].pos + s[i].len <= s[j].pos
  {
    ChainTotal(s, from, to);
    if s != [] {
      var t := s[1..];
      ChainApart(t, from + s[0].len, to);
      assert forall i | 1 <= i < |s| :: s[i] == t[i - 1];
    }
  }

  /** The fields of a ring buffer and its live blocks, oldest first: `pre` up to `wrap`, near the end of the buffer, and
      `post` from 0 on. */
  datatype Ring = Ring(head: nat, tail: nat, size: nat, pre: seq<Block>, post: seq<Block>, wrap: nat)

  /** The block that wrapped around is longer than the gap it left at the end of the buffer. */
  ghost predicate RingOk(cap: nat, r: Ring) {
    && r.size == Total(r.pre) + Total(r.post) && r.wrap <= cap && Chain(r.pre, r.head, r.wrap)
    && if r.post == []
       then r.tail == (if r.pre != [] && r.wrap == cap then 0 else r.wrap) && (r.head < cap || cap == 0)
       else Chain(r.post, 0, r.tail) && r.tail <= r.head < cap && r.post[0].len > cap - r.wrap
  }

  lemma NotWrapped(cap: nat, r: Ring)
    requires RingOk(cap, r)
    ensures r.head < r.tail || r.size == 0 ==> r.post == [] && r.tail == r.wrap
    ensures !(r.head < r.tail || r.size == 0) && r.post == [] ==> r.pre != [] && r.tail == 0 && r.wrap == cap
    ensures r.tail <= cap && r.head <= cap && (r.tail == cap ==> cap == 0)
  {
    ChainTotal(r.pre, r.head, r.wrap);
    if r.post != [] { ChainTotal(r.post, 0, r.tail); }
  }

  lemma AllocAtTail(cap: nat, r: Ring, len: nat)
    requires RingOk(cap, r) && r.post == [] && r.tail == r.wrap && 0 < len <= cap - r.tail
    ensures RingOk(cap, r.(pre := r.pre + [Block(r.tail, len)], wrap := r.tail + len, size := r.size + len,
                           tail := if r.tail + len == cap then 0 else r.tail + len))
  {
    ChainTotal(r.pre, r.head, r.wrap);
    ChainAppend(r.pre, r.head, r.wrap, len);
  }

  lemma AllocAtStart(cap: nat, r: Ring, len: nat)
    requires RingOk(cap, r) && r.post == [] && (r.tail == r.wrap || r.wrap == cap) && cap - r.wrap < len <= r.head
    ensures RingOk(cap, r.(post := [Block(0, len)], size := r.size + len, tail := len))
  {
    ChainTotal(r.pre, r.head, r.wrap);
    assert [Block(0, len)][1..] == [];
  }

  lemma AllocBehind(cap: nat, r: Ring, len: nat)
    requires RingOk(cap, r) && r.post != [] && 0 < len <= r.head - r.tail
    ensures RingOk(cap, r.(post := r.post + [Block(r.tail, len)], size := r.size + len, tail := r.tail + len))
  {
    ChainAppend(r.post, 0, r.tail, len);
  }

  /** What is left when the oldest block is gone: when nothing is left before the gap and there is none, or when the oldest
      was the wrapped block, the blocks from 0 on are the whole. */
  ghost function Freed(cap: nat, r: Ring): Ring
    requires r.pre + r.post != []
  {
    var b := (r.pre + r.post)[0];
    var size := if r.size >= b.len then r.size - b.len else 0;
    if r.pre == [] then Ring(b.len, r.tail, size, r.post[1..], [], r.tail)
    else if r.pre[1..] == [] && r.wrap == cap then Ring(0, r.tail, size, r.post, [], r.tail)
    else Ring(r.head + b.len, r.tail, size, r.pre[1..], r.post, r.wrap)
  }

  function FreedHead(cap: nat, head: nat, len: nat): nat
    requires head <= cap
  {
    if len <= cap - head then if head + len == cap then 0 else head + len else len
  }

  lemma FreedOk(cap: nat, r: Ring)
    requires RingOk(cap, r) && r.pre + r.post != []
    ensures RingOk(cap, Freed(cap, r)) && Freed(cap, r).pre + Freed(cap, r).post == (r.pre + r.post)[1..]
    ensures (r.pre + r.post)[0].len <= r.size && r.head <= cap
    ensures Freed(cap, r).tail == r.tail && Freed(cap, r).size == r.size - (r.pre + r.post)[0].len
    ensures Freed(cap, r).head == FreedHead(cap, r.head, (r.pre + r.post)[0].len)
  {
    ChainTotal(r.pre, r.head, r.wrap);
    if r.pre == [] {
      assert r.pre + r.post == r.post;
      ChainTotal(r.post, 0, r.tail);
      ChainTotal(r.post[1..], r.post[0].len, r.tail);
    } else {
      assert (r.pre + r.post)[1..] == r.pre[1..] + r.post;
      ChainTotal(r.pre[1..], r.head + r.pre[0].len, r.wrap);
      if r.post != [] { ChainTotal(r.post, 0, r.tail); }
    }
  }

  /** `HRingBuf`, used first in, first out, whole blocks. */
  class HRingBuf {
    const cap: nat
    var head: nat
    var tail: nat
    var size: nat
    ghost var pre: seq<Block>
    ghost var post: seq<Block>
    ghost var wrap: nat

    ghost function State(): Ring
      reads this
    {
      Ring(head, tail, size, pre, post, wrap)
    }

    ghost function Blocks(): seq<Block>
      reads this
    {
      pre + post
    }

    ghost predicate Valid()
      reads this
    {
      RingOk(cap, State())
    }

    constructor (cap: nat)
      ensures Valid() && Blocks() == [] && this.cap == cap
    {
      this.cap := cap;
      head, tail, size, pre, post, wrap := 0, 0, 0, [], [], 0;
    }

    /** The live blocks lie inside the buffer and never overlap, and `size` is their total length. */
    lemma LiveBlocks()
      requires Valid()
      ensures forall i | 0 <= i < |Blocks()| :: Blocks()[i].len > 0 && Blocks()[i].pos + Blocks()[i].len <= cap
      ensures forall i, j | 0 <= i < j < |Blocks()| :: Apart(Blocks()[i], Blocks()[j])
      ensures size == Total(Blocks())
    {
      ChainApart(pre, head, wrap);
      if post != [] { ChainApart(post, 0, tail); }
      TotalAppend(pre, post);
      forall i, j | 0 <= i < j < |Blocks()| ensures Apart(Blocks()[i], Blocks()[j]) {
        if i < |pre| <= j { assert Blocks()[i] == pre[i] && Blocks()[j] == post[j - |pre|]; }
      }
    }

    /** `alloc`: the offset of the new block, or -1. */
    method Alloc(len: nat) returns (ret: int)
      requires Valid()
      modifies this
      ensures Valid() && Blocks() == old(Blocks()) + if ret >= 0 && len > 0 then [Block(ret, len)] else []
      ensures ret == -1 ==> unchanged(this)
      ensures ret >= 0 <==> if old(head < tail || size == 0) then len <= cap - old(tail) || len <= old(head) else len <= old(head) - old(tail)
    {
      hide RingOk;
      NotWrapped(cap, State());
      assert post == [] ==> pre + post == pre;
      ret := -1;
      if head < tail || size == 0 {
        if cap - tail >= len {
          ret := tail;
          if len > 0 {
            AllocAtTail(cap, State(), len);
            pre, wrap := pre + [Block(tail, len)], tail + len;
          }
          tail := tail + len;
          if tail == cap {
            tail := 0;
          }
        } else if head >= len {
          AllocAtStart(cap, State(), len);
          ret := 0;
          assert len > 0;
          post := [Block(0, len)];
          tail := len;
        }
      } else {
        if head - tail >= len {
          if len > 0 {
            if post == [] { AllocAtStart(cap, State(), len); } else { AllocBehind(cap, State(), len); }
            post := post + [Block(tail, len)];
            assert old(post) == [] ==> post == [Block(0, len)];
          }
          ret := tail;
          tail := tail + len;
        }
      }
      size := size + if ret >= 0 then len else 0;
      assert old(pre + post) + [] == old(pre + post);
      assert ret >= 0 && len > 0 ==> pre + post == old(pre + post) + [Block(ret, len)];
    }

    /** `free` of the oldest block: `head` comes to the next block, or to the gap before one that is longer than the gap. */
    method Free(len: nat)
      requires Valid() && Blocks() != [] && len == Blocks()[0].len
      modifies this
      ensures Valid() && Blocks() == old(Blocks())[1..]
      ensures Blocks() != [] ==> head == Blocks()[0].pos || (Blocks()[0].pos == 0 && head + Blocks()[0].len > cap)
    {
      FreedOk(cap, State());
      ghost var r := Freed(cap, State());
      hide RingOk, Freed;
      pre, post, wrap := r.pre, r.post, r.wrap;
      size := size - len;
      if len <= cap - head {
        head := head + len;
        if head == cap {
          head := 0;
        }
      } else {
        head := len;
      }
      assert State() == r;
      if Blocks() != [] { HeadAtBlock(); }
    }

    lemma HeadAtBlock()
      requires Valid() && Blocks() != []
      ensures head == Blocks()[0].pos || (Blocks()[0].pos == 0 && head + Blocks()[0].len > cap)
    {
    }
  }
}
