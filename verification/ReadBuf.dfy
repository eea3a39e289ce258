/** The read buffer of an io (hevent.c) and the three unpackers over it (unpack.c). */
module ReadBuf {

  import opened Bytes
  import opened Collections
  import opened Unpack

  const HLOOP_READ_BUFSIZE := 8192
  const READ_BUFSIZE_HIGH_WATER := 65536
  const DEFAULT_PACKAGE_MAX_LENGTH := 0x20_0000

  /** `UntilLength` waits for `n` bytes to be delivered at once; `Idle` comes after that, when reading has stopped. */
  datatype Mode = Plain | Unpacking(setting: Setting) | UntilLength(n: nat) | Idle

  /** Reading, or given up with an error and closed (or to be closed). */
  datatype Status = Running | Stopped(reason: Reason)

  // ------------------------------------------------------------ lemmas about parsing a buffer bit by bit

  /** The first `k` bytes of `s` have been cut into `done`. */
  ghost predicate CutTo(u: Setting, s: seq<byte>, k: nat, done: seq<seq<byte>>)
    requires Usable(u)
  {
    k <= |s| && Parse(u, s) == Prepend(done, Parse(u, s[k..]))
  }

  lemma CutStart(u: Setting, s: seq<byte>)
    requires Usable(u)
    ensures CutTo(u, s, 0, [])
  {
    var r := Parse(u, s);
    assert s[0..] == s && [] + r.packages == r.packages;
  }

  lemma CutOn(u: Setting, s: seq<byte>, k: nat, done: seq<seq<byte>>, n: nat)
    requires Usable(u) && CutTo(u, s, k, done) && Step(u, s[k..]) == Package(n)
    ensures n > 0 && k + n <= |s| && CutTo(u, s, k + n, done + [s[k..k + n]])
  {
    hide Usable, Step;
    assert s[k..][..n] == s[k..k + n] && s[k..][n..] == s[k + n..];
    var q := Parse(u, s[k + n..]);
    assert done + ([s[k..k + n]] + q.packages) == done + [s[k..k + n]] + q.packages;
  }

  lemma CutEnd(u: Setting, s: seq<byte>, k: nat, done: seq<seq<byte>>)
    requires Usable(u) && CutTo(u, s, k, done)
    ensures Step(u, s[k..]) == More ==> Parse(u, s) == Open(done, s[k..])
    ensures Step(u, s[k..]).Fail? ==> Parse(u, s) == Failed(done, Step(u, s[k..]).reason)
  {
    hide Usable, Step;
    assert done + [] == done;
  }

  /** `LIMIT(lower, v, upper)`. */
  function Limit(lower: nat, v: nat, upper: nat): nat { if v < lower then lower else if v > upper then upper else v }

  datatype LengthRead = Incomplete | TooBig | Length(n: nat)

  lemma {:induction false} LeAppend(s: seq<byte>, b: byte)
    ensures LeValue(s + [b]) == LeValue(s) + b as nat * Power(256, |s|)
  {
    if s != [] {
      assert (s + [b])[1..] == s[1..] + [b];
      LeAppend(s[1..], b);
      assert 256 * (b as nat * Power(256, |s| - 1)) == b as nat * Power(256, |s|);
    }
  }

  lemma {:induction false} VarintAppend(s: seq<byte>, b: byte)
    ensures VarintValue(s + [b]) == VarintValue(s) + (b % 128) as nat * Power(128, |s|)
  {
    if s != [] {
      assert (s + [b])[1..] == s[1..] + [b];
      VarintAppend(s[1..], b);
      assert 128 * ((b % 128) as nat * Power(128, |s| - 1)) == (b % 128) as nat * Power(128, |s|);
    }
  }

  /** Why a buffer of `len` bytes that ends with `rest` waits for more: `needed` is the length last computed. */
  ghost predicate Waiting(u: Setting, rest: seq<byte>, needed: nat, len: nat)
    requires Usable(u) && u.LengthField?
  {
    && (rest != [] && needed > u.max ==> Step(u, rest) == Fail(OverLimit))
    && (rest == [] || needed <= u.max ==> Step(u, rest) == More)
    && (needed > len ==> |rest| < needed)
    && (|rest| == len ==> (needed <= len <==> Dangling(u, rest)))
  }

  /** The bytes end within a varint. */
  predicate Dangling(u: Setting, s: seq<byte>)
    requires Usable(u)
  {
    u.LengthField? && u.coding == Varint && |s| >= u.bodyOffset && SizeFrom(s[u.offset..], 0).Unfinished?
  }

  /** They end there before the longest varint would. */
  lemma DanglingIsShort(u: Setting, s: seq<byte>)
    requires Usable(u) && Dangling(u, s)
    ensures |s| < u.offset + VARINT_BYTES
  {
    var r := SizeFrom(s[u.offset..], 0);
  }

  lemma WaitingHead(u: Setting, rest: seq<byte>, needed: nat, len: nat)
    requires Usable(u) && u.LengthField? && |rest| < u.bodyOffset && |rest| <= len <= u.max
    requires (u.bodyOffset <= len && needed <= len) || needed == u.bodyOffset
    ensures Waiting(u, rest, needed, len)
  {
  }

  lemma WaitingVarint(u: Setting, rest: seq<byte>, needed: nat, len: nat)
    requires Usable(u) && u.LengthField? && u.coding == Varint && u.bodyOffset <= |rest| <= len <= u.max
    requires Dangling(u, rest) && Step(u, rest) == More
    requires (u.bodyOffset <= len && needed <= len) || needed == u.bodyOffset
    ensures Waiting(u, rest, needed, len)
  {
  }

  lemma WaitingBody(u: Setting, rest: seq<byte>, needed: nat, len: nat)
    requires Usable(u) && u.LengthField? && |rest| < needed && Step(u, rest) == Delivered(u, rest, needed) && !Dangling(u, rest)
    ensures Waiting(u, rest, needed, len)
  {
  }

  /** The package at the start of `s` when its length is a varint of `k` bytes. */
  function FieldPackage(u: Setting, s: seq<byte>, k: nat): Next
    requires u.LengthField? && u.offset + k <= |s|
  {
    Delivered(u, s, PackageLength(u, u.bodyOffset + k - u.bytes, VarintValue(s[u.offset..u.offset + k])))
  }

  lemma VarintStep(u: Setting, s: seq<byte>)
    requires Usable(u) && u.LengthField? && u.coding == Varint && u.bodyOffset <= u.max && |s| >= u.bodyOffset
    ensures u.offset < |s|
    ensures match SizeFrom(s[u.offset..], 0)
            case Unfinished => Step(u, s) == More && Dangling(u, s)
            case Oversized => Step(u, s) == Fail(VarintTooBig) && !Dangling(u, s)
            case Size(k) => Step(u, s) == FieldPackage(u, s, k) && !Dangling(u, s)
  {
    hide SizeFrom, VarintValue, PackageLength, Delivered;
  }

  /** `package_max_length` with its default. */
  function Defaulted(u: Setting): Setting {
    if u.max != 0 then u
    else match u
      case FixedLength(_, length) => FixedLength(DEFAULT_PACKAGE_MAX_LENGTH, length)
      case Delimiter(_, d) => Delimiter(DEFAULT_PACKAGE_MAX_LENGTH, d)
      case LengthField(_, bodyOffset, offset, bytes, adjustment, coding) =>
        LengthField(DEFAULT_PACKAGE_MAX_LENGTH, bodyOffset, offset, bytes, adjustment, coding)
  }

  lemma NothingRead(u: Setting)
    requires Usable(u)
    ensures Parse(u, []) == Open([], [])
  {
  }

  // ------------------------------------------------------------ a stream cut at given lengths

  ghost function Total(asks: seq<nat>): nat {
    if asks == [] then 0 else Total(asks[..|asks| - 1]) + asks[|asks| - 1]
  }

  /** The first `read` bytes of the stream are pieces of the lengths asked for, one after the other, and the bytes kept. */
  ghost predicate Cut(stream: seq<byte>, read: nat, asks: seq<nat>, pieces: seq<seq<byte>>, kept: seq<byte>) {
    && |pieces| == |asks| && Total(asks) <= read <= |stream| && kept == stream[Total(asks)..read]
    && forall i | 0 <= i < |asks| :: IsPiece(stream, asks, i, pieces[i])
  }

  ghost predicate IsPiece(stream: seq<byte>, asks: seq<nat>, i: nat, piece: seq<byte>)
    requires i < |asks|
  {
    Total(asks[..i]) + asks[i] <= |stream| && piece == stream[Total(asks[..i])..Total(asks[..i]) + asks[i]]
  }

  lemma CutNothing(stream: seq<byte>, asks: seq<nat>)
    requires asks != []
    ensures Cut(stream, 0, asks[..0], [], [])
  {
    assert stream[0..0] == [];
  }

  /** `n` bytes more: they are kept, or complete the piece waited for. */
  lemma CutOnce(stream: seq<byte>, read: nat, asks: seq<nat>, k: nat, pieces: seq<seq<byte>>, kept: seq<byte>, n: nat)
    requires k < |asks| && Cut(stream, read, asks[..k], pieces, kept) && read + n <= |stream| && |kept| + n <= asks[k]
    ensures var chunk := stream[read..read + n];
      if |kept| + n == asks[k] then Cut(stream, read + n, asks[..k + 1], pieces + [kept + chunk], [])
      else Cut(stream, read + n, asks[..k], pieces, kept + chunk)
  {
    var a, b, chunk := asks[..k], asks[..k + 1], stream[read..read + n];
    assert kept + chunk == stream[Total(a)..read + n];
    if |kept| + n == asks[k] {
      assert b[..k] == a && Total(b) == Total(a) + asks[k];
      forall i | 0 <= i < k + 1 ensures IsPiece(stream, b, i, (pieces + [kept + chunk])[i]) {
        assert b[..i] == asks[..i];
        if i < k { assert a[..i] == asks[..i] && IsPiece(stream, a, i, pieces[i]); }
      }
    }
  }

  class ReadIo {
    var base: array<byte>
    var head: nat
    var tail: nat
    var alloced: bool
    var smallCnt: nat
    var maxReadBufsize: nat
    var mode: Mode
    var status: Status
    /** What the read callback was called with. */
    ghost var delivered: seq<seq<byte>>

    constructor (max: nat)
      ensures mode == Plain && status == Running && head == tail == 0 && delivered == [] && Valid() && fresh(base)
      ensures !alloced && smallCnt == 0 && maxReadBufsize == max && base.Length == HLOOP_READ_BUFSIZE
    {
      base := new byte[HLOOP_READ_BUFSIZE];
      head, tail, alloced, smallCnt, maxReadBufsize := 0, 0, false, 0, max;
      mode, status, delivered := Plain, Running, [];
    }

    /** The bytes read and not delivered yet. */
    ghost function Kept(): seq<byte>
      requires head <= tail <= base.Length
      reads this, base
    {
      base[head..tail]
    }

    /** The buffer suits the setting. */
    ghost predicate Fitting(u: Setting)
      reads `base, `alloced, `smallCnt, `maxReadBufsize
    {
      && Usable(u) && alloced && u.max == maxReadBufsize && 0 < base.Length <= u.max
      && (u.FixedLength? ==> base.Length == u.length && smallCnt == 0)
    }

    /** Between two reads there is room for the next, and no package is waiting in the buffer. */
    ghost predicate Valid()
      reads this, base
    {
      && head <= tail <= base.Length && 0 < base.Length && status == Running && (alloced || head == tail)
      && (smallCnt > 0 ==> alloced && base.Length > READ_BUFSIZE_HIGH_WATER) && (alloced ==> base.Length <= maxReadBufsize)
      && match mode
         case Plain => head == tail == 0
         case Unpacking(u) => Fitting(u) && head == 0 && tail < base.Length && Step(u, Kept()) == More
         case UntilLength(n) => Room(n)
         case Idle => true
    }

    /** The buffer has room for the bytes waited for, and they are not all there yet. */
    ghost predicate Room(n: nat)
      reads this
    {
      alloced && tail < head + n <= base.Length
    }

    /** `hio_alloc_readbuf`: the bytes in the buffer stay, as far as they fit; a first own buffer starts with zeros. */
    method AllocReadbuf(len: nat)
      modifies `base, `alloced, `smallCnt, `status
      ensures if len > maxReadBufsize
              then unchanged(`base) && unchanged(`alloced) && unchanged(`smallCnt) && status == Stopped(OverLimit)
              else fresh(base) && base.Length == len && alloced && smallCnt == 0 && status == old(status)
      ensures len <= maxReadBufsize ==>
        forall i | 0 <= i < len :: base[i] == if old(alloced) && i < old(base.Length) then old(base[i]) else 0
    {
      if len > maxReadBufsize {
        status := Stopped(OverLimit);
        return;
      }
      var b := new byte[len](_ => 0);
      if alloced {
        forall i | 0 <= i < len && i < base.Length {
          b[i] := base[i];
        }
      }
      base := b;
      alloced, smallCnt := true, 0;
    }

    /** `memmove(base + to, base + from, n)`. */
    method Memmove(to: nat, from: nat, n: nat)
      requires to <= from && from + n <= base.Length
      modifies base
      ensures base[to..to + n] == old(base[from..from + n])
    {
      ghost var was := base[from..from + n];
      var i := 0;
      while i < n
        invariant i <= n && base[to..to + i] == was[..i]
        invariant forall k | from + i <= k < from + n :: base[k] == was[k - from]
      {
        base[to + i] := base[from + i];
        i := i + 1;
      }
    }

    /** `hio_read_cb`: the callback gets the bytes, and small packages in a big buffer are counted. */
    method ReadCb(package: seq<byte>)
      modifies `delivered, `smallCnt
      ensures delivered == old(delivered) + [package]
      ensures smallCnt > 0 ==> (alloced && base.Length > READ_BUFSIZE_HIGH_WATER) || old(smallCnt) > 0
      ensures |package| >= base.Length / 2 && old(smallCnt) == 0 ==> smallCnt == 0
    {
      delivered := delivered + [package];
      CountSmall(|package|);
    }

    /** The end of hio_read_cb, behind the callback. */
    method CountSmall(len: nat)
      modifies `smallCnt
      ensures smallCnt == if !alloced || base.Length <= READ_BUFSIZE_HIGH_WATER then old(smallCnt)
                          else if len < base.Length / 2 then old(smallCnt) + 1 else 0
    {
      if alloced && base.Length > READ_BUFSIZE_HIGH_WATER {
        if len < base.Length / 2 {
          smallCnt := smallCnt + 1;
        } else {
          smallCnt := 0;
        }
      }
    }

    /** The bytes from `p` on move to the front of the buffer. */
    method Compact(p: nat)
      requires p <= tail <= base.Length
      modifies `head, `tail, base
      ensures head == 0 && tail == old(tail) - p && base[..tail] == old(base[p..tail])
    {
      var remain := tail - p;
      head, tail := 0, remain;
      if remain > 0 && p != 0 {
        Memmove(0, p, remain);
      }
    }

    /** The bytes `s` of the buffer are cut into `done` up to `p`. */
    ghost predicate Cutting(u: Setting, s: seq<byte>, p: nat, before: seq<seq<byte>>, done: seq<seq<byte>>)
      reads this, base
    {
      && head <= p <= tail <= base.Length && s == base[head..tail] && Usable(u)
      && delivered == before + done && CutTo(u, s, p - head, done)
    }

    lemma Begin(u: Setting)
      requires Usable(u) && head <= tail <= base.Length
      ensures Cutting(u, Kept(), head, delivered, [])
    {
      CutStart(u, Kept());
    }

    /** The package of `n` bytes at `p` goes to the callback. */
    method Deliver(u: Setting, p: nat, n: nat, ghost s: seq<byte>, ghost before: seq<seq<byte>>, ghost done: seq<seq<byte>>)
      returns (ghost done': seq<seq<byte>>)
      requires Cutting(u, s, p, before, done) && Step(u, base[p..tail]) == Package(n)
      modifies `delivered, `smallCnt
      ensures head <= p && p + n <= tail <= base.Length && Cutting(u, s, p + n, before, done')
      ensures smallCnt > 0 ==> (alloced && base.Length > READ_BUFSIZE_HIGH_WATER) || old(smallCnt) > 0
      ensures n >= base.Length / 2 && old(smallCnt) == 0 ==> smallCnt == 0
    {
      hide Step, Usable, CutTo;
      assert base[p..tail] == s[p - head..];
      CutOn(u, s, p - head, done, n);
      assert base[p..p + n] == s[p - head..p - head + n];
      ReadCb(base[p..p + n]);
      done' := done + [s[p - head..p - head + n]];
    }

    /** The end of an unpacker: what is left moves to the front of the buffer. */
    method Keep(u: Setting, p: nat, ghost s: seq<byte>, ghost before: seq<seq<byte>>, ghost done: seq<seq<byte>>)
      requires Cutting(u, s, p, before, done)
      modifies `head, `tail, base
      ensures head == 0 && tail == old(tail) - p && tail <= base.Length && Kept() == old(base[p..tail])
      ensures Step(u, Kept()) == More ==> Parse(u, s) == Open(done, Kept())
      ensures Step(u, Kept()).Fail? ==> Parse(u, s) == Failed(done, Step(u, Kept()).reason)
    {
      hide Step, Usable, CutTo;
      assert base[p..tail] == s[p - head..];
      CutEnd(u, s, p - head, done);
      Compact(p);
      assert base[0..tail] == base[..tail];
    }

    /** `hio_unpack_by_fixed_length`. */
    method UnpackByFixedLength(u: Setting)
      requires u.FixedLength? && Fitting(u) && head <= tail <= base.Length && status == Running
      modifies `head, `tail, `delivered, `smallCnt, base
      ensures head == 0 && tail < base.Length && smallCnt == 0 && Shows(old(delivered), Parse(u, old(Kept())))
      ensures Step(u, Kept()) == More
    {
      hide CutTo, Parse;
      ghost var s, done: seq<seq<byte>> := Kept(), [];
      Begin(u);
      var p := head;
      var remain := tail - p;
      while remain >= u.length
        modifies `delivered, `smallCnt
        invariant head <= p && p + remain == tail && smallCnt == 0 && Cutting(u, s, p, old(delivered), done)
      {
        done := Deliver(u, p, u.length, s, old(delivered), done);
        p := p + u.length;
        remain := remain - u.length;
      }
      Keep(u, p, s, old(delivered), done);
    }

    /** The inner loop of hio_unpack_by_delimiter. */
    method Matches(p: nat, d: seq<byte>) returns (hit: bool)
      requires p + |d| <= tail <= base.Length
      ensures hit <==> base[p..p + |d|] == d
    {
      var i := 0;
      while i < |d|
        invariant i <= |d| && base[p..p + i] == d[..i]
      {
        if base[p + i] != d[i] {
          assert base[p..p + |d|][i] != d[i];
          return false;
        }
        i := i + 1;
      }
      return true;
    }

    /** No match of `d` begins in the buffer from `sp` on and before `p`. */
    ghost predicate Clear(d: seq<byte>, sp: nat, p: nat)
      requires sp <= tail <= base.Length
      reads this, base
    {
      sp <= p && forall j | 0 <= j < p - sp :: !MatchAt(base[sp..tail], d, j)
    }

    /** Looking from `delimiter_bytes - 1` before the new bytes on misses nothing: the old bytes alone hold no match. */
    lemma ResumeClear(u: Setting, readbytes: nat, p: nat)
      requires Usable(u) && u.Delimiter? && head + readbytes <= tail <= base.Length
      requires Step(u, base[head..tail - readbytes]) == More
      requires p == if tail - readbytes - |u.delimiter| + 1 < head then head else tail - readbytes - |u.delimiter| + 1
      ensures Clear(u.delimiter, head, p)
    {
      var d, s, kept := u.delimiter, base[head..tail], base[head..tail - readbytes];
      assert kept == s[..|kept|];
      forall j | 0 <= j < p - head ensures !MatchAt(s, d, j) {
        assert s[j..j + |d|] == kept[j..j + |d|];
        assert !MatchAt(kept, d, j);
      }
    }

    lemma ClearHit(u: Setting, sp: nat, p: nat)
      requires Usable(u) && u.Delimiter? && sp <= p <= tail <= base.Length && tail - sp <= u.max && Clear(u.delimiter, sp, p)
      requires p + |u.delimiter| <= tail && base[p..p + |u.delimiter|] == u.delimiter
      ensures Step(u, base[sp..tail]) == Package(p + |u.delimiter| - sp)
    {
      var s, d := base[sp..tail], u.delimiter;
      Part(sp, tail, p - sp, p - sp + |d|);
      assert MatchAt(s, d, p - sp);
      assert FirstMatch(s, d, 0) <= p - sp;
    }

    lemma ClearMiss(d: seq<byte>, sp: nat, p: nat)
      requires sp <= p && p + |d| <= tail <= base.Length && Clear(d, sp, p) && base[p..p + |d|] != d
      ensures Clear(d, sp, p + 1)
    {
      forall j | 0 <= j < p + 1 - sp ensures !MatchAt(base[sp..tail], d, j) {
        if j == p - sp { Part(sp, tail, j, j + |d|); }
      }
    }

    lemma ClearToTheEnd(u: Setting, sp: nat, p: nat)
      requires Usable(u) && u.Delimiter? && sp <= p && sp <= tail <= base.Length && Clear(u.delimiter, sp, p) && p + |u.delimiter| > tail
      ensures Step(u, base[sp..tail]) == if tail - sp >= u.max then Fail(OverLimit) else More
    {
      var k := FirstMatch(base[sp..tail], u.delimiter, 0);
      assert k < p - sp ==> !MatchAt(base[sp..tail], u.delimiter, k);
    }

    /** The loop of hio_unpack_by_delimiter; the last `readbytes` bytes of the buffer are new. */
    method ScanDelimiter(u: Setting, readbytes: nat) returns (sp: nat, ghost done: seq<seq<byte>>)
      requires u.Delimiter? && Fitting(u) && head + readbytes <= tail <= base.Length
      requires Step(u, base[head..tail - readbytes]) == More
      modifies `delivered, `smallCnt
      ensures Cutting(u, Kept(), sp, old(delivered), done)
      ensures Step(u, base[sp..tail]) == if tail - sp >= u.max then Fail(OverLimit) else More
      ensures smallCnt > 0 ==> base.Length > READ_BUFSIZE_HIGH_WATER || old(smallCnt) > 0
    {
      var d := u.delimiter;
      assert |d| > 0;
      hide CutTo, Parse, Step, MatchAt, Usable, Clear, Cutting;
      ghost var s := Kept();
      Begin(u);
      var p := tail - readbytes - |d| + 1;
      if p < head {
        p := head;
      }
      ResumeClear(u, readbytes, p);
      sp, done := ScanFrom(u, p, s, delivered);
    }

    method ScanFrom(u: Setting, p0: nat, ghost s: seq<byte>, ghost before: seq<seq<byte>>) returns (sp: nat, ghost done: seq<seq<byte>>)
      requires u.Delimiter? && Fitting(u) && head <= p0 <= tail <= base.Length && 0 < |u.delimiter|
      requires Cutting(u, s, head, before, []) && Clear(u.delimiter, head, p0)
      modifies `delivered, `smallCnt
      ensures head <= sp <= tail && Cutting(u, s, sp, before, done)
      ensures Step(u, base[sp..tail]) == if tail - sp >= u.max then Fail(OverLimit) else More
      ensures smallCnt > 0 ==> base.Length > READ_BUFSIZE_HIGH_WATER || old(smallCnt) > 0
    {
      hide CutTo, Parse, Step, MatchAt, Usable, Clear, Cutting;
      done := [];
      sp := head;
      var p, remain := p0, tail - p0;
      while remain >= |u.delimiter|
        modifies `delivered, `smallCnt
        invariant head <= sp <= p && sp <= tail && p + remain == tail && Cutting(u, s, sp, before, done) && Clear(u.delimiter, sp, p)
        invariant smallCnt > 0 ==> base.Length > READ_BUFSIZE_HIGH_WATER || old(smallCnt) > 0
        decreases remain
      {
        sp, p, remain, done := ScanStep(u, sp, p, remain, s, before, done);
      }
      ClearToTheEnd(u, sp, p);
    }

    /** One turn of the loop: a package when the delimiter is at `p`, else one byte on. */
    method ScanStep(u: Setting, sp0: nat, p0: nat, remain0: nat, ghost s: seq<byte>, ghost before: seq<seq<byte>>, ghost done0: seq<seq<byte>>)
      returns (sp: nat, p: nat, remain: nat, ghost done: seq<seq<byte>>)
      requires u.Delimiter? && Fitting(u) && head <= sp0 <= p0 && p0 + remain0 == tail <= base.Length && 0 < |u.delimiter| <= remain0
      requires Cutting(u, s, sp0, before, done0) && Clear(u.delimiter, sp0, p0)
      modifies `delivered, `smallCnt
      ensures head <= sp <= p && sp <= tail && p + remain == tail && remain < remain0
      ensures Cutting(u, s, sp, before, done) && Clear(u.delimiter, sp, p)
      ensures smallCnt > 0 ==> base.Length > READ_BUFSIZE_HIGH_WATER || old(smallCnt) > 0
    {
      hide CutTo, Parse, Step, MatchAt, Usable, Clear, Cutting;
      var d := u.delimiter;
      sp, p, remain, done := sp0, p0, remain0, done0;
      var hit := Matches(p, d);
      if hit {
        ClearHit(u, sp, p);
        p := p + |d|;
        remain := remain - |d|;
        done := Deliver(u, sp, p - sp, s, before, done);
        sp := p;
        NothingBefore(d, sp);
      } else {
        ClearMiss(d, sp, p);
        p := p + 1;
        remain := remain - 1;
      }
    }

    lemma NothingBefore(d: seq<byte>, sp: nat)
      requires sp <= tail <= base.Length
      ensures Clear(d, sp, sp)
    {
    }

    /** `hio_unpack_by_delimiter`. */
    method UnpackByDelimiter(u: Setting, readbytes: nat)
      requires u.Delimiter? && Fitting(u) && head + readbytes <= tail <= base.Length && status == Running
      requires Step(u, base[head..tail - readbytes]) == More
      modifies this, base
      ensures unchanged(`mode) && unchanged(`maxReadBufsize) && head == 0 && tail <= base.Length
      ensures Shows(old(delivered), Parse(u, old(Kept())))
      ensures status == Running ==> tail < base.Length && Fitting(u) && Step(u, Kept()) == More
      ensures fresh(base) || base == old(base)
      ensures smallCnt > 0 ==> base.Length > READ_BUFSIZE_HIGH_WATER || (old(smallCnt) > 0 && base == old(base))
    {
      hide Parse, Step, Usable, CutTo;
      ghost var s := Kept();
      var sp;
      ghost var done;
      sp, done := ScanDelimiter(u, readbytes);
      Keep(u, sp, s, old(delivered), done);
      if tail > 0 && tail == base.Length {
        if base.Length >= u.max {
          status := Stopped(OverLimit);
        } else {
          Grow(u, Min(base.Length * 2, u.max));
        }
      }
    }

    /** The length field in big-endian order. */
    method BigEndianField(p: nat, n: nat) returns (v: nat)
      requires p + n <= base.Length
      ensures v == BeValue(base[p..p + n])
    {
      v := 0;
      var i := 0;
      while i < n
        invariant i <= n && v == BeValue(base[p..p + i])
      {
        assert base[p..p + i + 1] == base[p..p + i] + [base[p + i]];
        v := (v * 256 + base[p + i] as nat) % TWO_TO_THE_32;
        i := i + 1;
      }
    }

    /** The length field in little-endian order: each byte is shifted to its own place. */
    method LittleEndianField(p: nat, n: nat) returns (v: nat)
      requires p + n <= base.Length
      ensures v == LeValue(base[p..p + n])
    {
      v := 0;
      var i, place := 0, 1;
      while i < n
        invariant i <= n && v == LeValue(base[p..p + i]) && place == Power(256, i)
      {
        LeAppend(base[p..p + i], base[p + i]);
        assert base[p..p + i + 1] == base[p..p + i] + [base[p + i]];
        v := v + base[p + i] as nat * place;
        i, place := i + 1, 256 * place;
      }
    }

    /** `varint_decode` with `len` bytes to look at: `bytes` is 0 when they do not suffice, -1 for more than ten bytes. */
    method VarintDecode(p: nat, len: nat) returns (value: nat, bytes: int)
      requires 0 < len && p + len <= base.Length
      ensures match SizeFrom(base[p..p + len], 0)
              case Unfinished => bytes == 0
              case Oversized => bytes == -1
              case Size(k) => bytes == k && value == VarintValue(base[p..p + k])
    {
      ghost var s := base[p..p + len];
      value, bytes := 0, 0;
      var place := 1;
      while bytes < VARINT_BYTES
        invariant 0 <= bytes <= VARINT_BYTES && bytes <= len && place == Power(128, bytes)
        invariant SizeFrom(s, 0) == SizeFrom(s, bytes) && value == VarintValue(base[p..p + bytes])
      {
        if bytes == len {
          return 0, 0;
        }
        var b := base[p + bytes];
        assert b == s[bytes];
        VarintAppend(base[p..p + bytes], b);
        assert base[p..p + bytes + 1] == base[p..p + bytes] + [b];
        value := value + (b % 128) as nat * place;
        bytes, place := bytes + 1, 128 * place;
        if b < 128 {
          return value, bytes;
        }
      }
      return value, -1;
    }

    /** A part of a part of the buffer. */
    lemma Part(lo: nat, hi: nat, i: nat, j: nat)
      requires lo <= hi <= base.Length && i <= j <= hi - lo
      ensures base[lo..hi][i..j] == base[lo + i..lo + j]
    {
      var s, t := base[lo..hi][i..j], base[lo + i..lo + j];
      forall k | 0 <= k < j - i ensures s[k] == t[k] {
        assert base[lo..hi][i + k] == base[lo + i + k];
      }
    }

    /** What hio_unpack_by_length_field reads at `p`: the length of the package there, when it can be told. */
    method ReadLength(u: Setting, p: nat) returns (r: LengthRead)
      requires Usable(u) && u.LengthField? && u.bodyOffset <= u.max && p <= tail <= base.Length && tail - p >= u.bodyOffset
      ensures (r == Incomplete <==> Dangling(u, base[p..tail])) && (r == Incomplete ==> Step(u, base[p..tail]) == More)
      ensures r == TooBig ==> Step(u, base[p..tail]) == Fail(VarintTooBig)
      ensures r.Length? ==> Step(u, base[p..tail]) == Delivered(u, base[p..tail], r.n)
    {
      hide BeValue, LeValue, SizeFrom, VarintValue, PackageLength, Delivered;
      var lp := p + u.offset;
      Part(p, tail, u.offset, u.offset + u.bytes);
      if u.coding == BigEndian {
        var bodyLen := BigEndianField(lp, u.bytes);
        return Length(PackageLength(u, u.bodyOffset, bodyLen));
      } else if u.coding == LittleEndian {
        var bodyLen := LittleEndianField(lp, u.bytes);
        return Length(PackageLength(u, u.bodyOffset, bodyLen));
      }
      r := ReadVarint(u, p);
    }

    /** The varint case: a head without the place set aside for the field, and with its real length. */
    method ReadVarint(u: Setting, p: nat) returns (r: LengthRead)
      requires Usable(u) && u.LengthField? && u.coding == Varint && u.bodyOffset <= u.max && p <= tail <= base.Length && tail - p >= u.bodyOffset
      ensures (r == Incomplete <==> Dangling(u, base[p..tail])) && (r == Incomplete ==> Step(u, base[p..tail]) == More)
      ensures r == TooBig ==> Step(u, base[p..tail]) == Fail(VarintTooBig)
      ensures r.Length? ==> Step(u, base[p..tail]) == Delivered(u, base[p..tail], r.n)
    {
      hide Step, Usable, SizeFrom, VarintValue, PackageLength, Delivered, Dangling;
      ghost var s := base[p..tail];
      VarintStep(u, s);
      var lp := p + u.offset;
      Part(p, tail, u.offset, tail - p);
      assert s[u.offset..] == base[lp..lp + (tail - lp)];
      var bodyLen, varintBytes := VarintDecode(lp, tail - lp);
      if varintBytes == 0 {
        return Incomplete;
      }
      if varintBytes == -1 {
        return TooBig;
      }
      Part(p, tail, u.offset, u.offset + varintBytes);
      return Length(PackageLength(u, u.bodyOffset + varintBytes - u.bytes, bodyLen));
    }

    /** The loop of hio_unpack_by_length_field: up to `p` the packages are delivered, and `needed` is the length last
        computed. `Running` says that what follows is no complete package. */
    method ScanLengths(u: Setting) returns (p: nat, needed: nat, verdict: Status, ghost done: seq<seq<byte>>)
      requires u.LengthField? && Fitting(u) && head <= tail <= base.Length
      modifies `delivered, `smallCnt
      ensures Cutting(u, Kept(), p, old(delivered), done)
      ensures smallCnt > 0 ==> base.Length > READ_BUFSIZE_HIGH_WATER || old(smallCnt) > 0
      ensures verdict.Stopped? ==> Step(u, base[p..tail]) == Fail(verdict.reason)
      ensures verdict == Running ==> Waiting(u, base[p..tail], needed, base.Length)
    {
      hide CutTo, Parse, Step, Usable, Cutting;
      ghost var s := Kept();
      Begin(u);
      done := [];
      p, needed, verdict := head, u.bodyOffset, Running;
      var remain: nat := tail - p;
      while remain >= u.bodyOffset
        modifies `delivered, `smallCnt
        invariant head <= p && p + remain == tail && Cutting(u, s, p, old(delivered), done)
        invariant smallCnt > 0 ==> base.Length > READ_BUFSIZE_HIGH_WATER || old(smallCnt) > 0
        invariant (u.bodyOffset <= base.Length && needed <= base.Length) || needed == u.bodyOffset
        decreases remain
      {
        var r := ReadLength(u, p);
        if r == Incomplete {
          WaitingVarint(u, base[p..tail], needed, base.Length);
          return;
        }
        if r == TooBig {
          verdict := Stopped(VarintTooBig);
          return;
        }
        needed := r.n;
        if needed == 0 {
          // here the loop of the program would go round for ever
          verdict := Stopped(Endless);
          return;
        }
        if remain >= needed {
          done := Deliver(u, p, needed, s, old(delivered), done);
          p := p + needed;
          remain := remain - needed;
        } else {
          WaitingBody(u, base[p..tail], needed, base.Length);
          return;
        }
      }
      WaitingHead(u, base[p..tail], needed, base.Length);
    }

    /** `hio_unpack_by_length_field`. */
    method UnpackByLengthField(u: Setting)
      requires u.LengthField? && Fitting(u) && head <= tail <= base.Length && status == Running
      modifies this, base
      ensures unchanged(`mode) && unchanged(`maxReadBufsize) && head <= tail <= base.Length
      ensures Shows(old(delivered), Parse(u, old(Kept())))
      ensures status == Running ==> head == 0 && Fitting(u) && Step(u, Kept()) == More
      ensures status == Running ==> if tail == old(base.Length) && Dangling(u, Kept()) then base == old(base) else tail < base.Length
      ensures base == old(base) || (fresh(base) && Min(old(base.Length) * 2, u.max) <= base.Length)
      ensures smallCnt > 0 ==> base.Length > READ_BUFSIZE_HIGH_WATER || (old(smallCnt) > 0 && base == old(base))
    {
      hide Parse, Step, Usable, CutTo;
      ghost var s := Kept();
      var p, needed, verdict;
      ghost var done;
      p, needed, verdict, done := ScanLengths(u);
      if verdict != Running {
        CutEnd(u, s, p - head, done);
        assert base[p..tail] == s[p - head..];
        status := verdict;
        return;
      }
      Keep(u, p, s, old(delivered), done);
      if tail > 0 && needed > base.Length {
        if needed > u.max {
          status := Stopped(OverLimit);
        } else {
          Grow(u, Limit(needed, base.Length * 2, u.max));
        }
      }
    }

    /** A bigger buffer with the same bytes. */
    method Grow(u: Setting, len: nat)
      requires Fitting(u) && !u.FixedLength? && head <= tail <= base.Length <= len <= u.max
      modifies `base, `alloced, `smallCnt, `status
      ensures fresh(base) && base.Length == len && Kept() == old(Kept()) && Fitting(u) && smallCnt == 0 && status == old(status)
    {
      hide Usable;
      AllocReadbuf(len);
    }

    /** `hio_unpack`. */
    method UnpackBy(u: Setting, readbytes: nat)
      requires Fitting(u) && head + readbytes <= tail <= base.Length && status == Running
      requires Step(u, base[head..tail - readbytes]) == More
      modifies this, base
      ensures unchanged(`mode) && unchanged(`maxReadBufsize) && head <= tail <= base.Length && (fresh(base) || base == old(base))
      ensures Shows(old(delivered), Parse(u, old(Kept())))
      ensures status == Running ==> head == 0 && Fitting(u) && Step(u, Kept()) == More
      ensures status == Running ==> if tail == old(base.Length) && Dangling(u, Kept()) then base == old(base) else tail < base.Length
      ensures smallCnt > 0 ==> base.Length > READ_BUFSIZE_HIGH_WATER || (old(smallCnt) > 0 && base == old(base))
    {
      hide Parse, Step, Usable;
      match u
      case FixedLength(_, _) => UnpackByFixedLength(u);
      case Delimiter(_, _) => UnpackByDelimiter(u, readbytes);
      case LengthField(_, _, _, _, _, _) => UnpackByLengthField(u);
    }

    /** `hio_memmove_readbuf`. */
    method MemmoveReadbuf()
      requires head <= tail <= base.Length
      modifies `head, `tail, base
      ensures head == 0 && tail <= base.Length && Kept() == old(Kept())
    {
      if tail == head {
        head, tail := 0, 0;
        return;
      }
      var size := tail - head;
      Memmove(0, head, size);
      head, tail := 0, size;
    }

    /** A big buffer with little in it, after three small packages. */
    ghost predicate Shrinks()
      reads this
    {
      smallCnt >= 3 && (if head == tail then 0 else tail) < base.Length / 2
    }

    /** The end of hio_handle_read: a full buffer is compacted or doubled, a big one with little in it halved. */
    method Autosize()
      requires head <= tail <= base.Length && 0 < base.Length && (alloced || head == tail)
      requires smallCnt > 0 ==> alloced && base.Length > READ_BUFSIZE_HIGH_WATER
      requires alloced ==> base.Length <= maxReadBufsize
      modifies this, base
      ensures unchanged(`mode) && unchanged(`maxReadBufsize) && unchanged(`delivered) && (fresh(base) || base == old(base))
      ensures head <= tail <= base.Length && 0 < base.Length && Kept() == old(Kept())
      ensures old(head == 0 || head == tail) ==> head == 0
      ensures status == if old(head == 0 && tail == base.Length && base.Length * 2 > maxReadBufsize) then Stopped(OverLimit) else old(status)
      ensures old(head == 0 && tail == base.Length && base.Length * 2 > maxReadBufsize) || tail < base.Length
      ensures (old(alloced) ==> alloced) && (alloced ==> base.Length <= maxReadBufsize)
      ensures smallCnt > 0 ==> alloced && base.Length > READ_BUFSIZE_HIGH_WATER
      ensures old(tail < base.Length && smallCnt == 0) ==> base == old(base) && smallCnt == 0
      ensures old(head == 0 && tail == base.Length && base.Length * 2 <= maxReadBufsize) ==>
        fresh(base) && base.Length == old(base.Length * 2) && alloced && smallCnt == 0
      ensures old(0 < head < tail == base.Length) ==> base == old(base) && head == 0 && unchanged(`smallCnt) && unchanged(`alloced)
      ensures old(Shrinks()) ==> fresh(base) && base.Length == old(base.Length / 2) && smallCnt == 0
      ensures !old(Shrinks()) && old(tail < base.Length) ==> base == old(base) && unchanged(`smallCnt) && unchanged(`alloced)
      ensures old(tail < base.Length) ==> head == if old(head == tail) then 0 else old(head)
    {
      if head == tail {
        head, tail := 0, 0;
      }
      if tail == base.Length {
        if head == 0 {
          AllocReadbuf(base.Length * 2);
        } else {
          MemmoveReadbuf();
        }
      } else {
        var smallSize := base.Length / 2;
        if tail < smallSize && smallCnt >= 3 {
          AllocReadbuf(smallSize);
        }
      }
    }

    /** `hio_handle_read` in the plain and the unpack mode; the last `readbytes` bytes of the buffer are new. */
    method HandleRead(readbytes: nat)
      requires Filled(readbytes)
      modifies this, base
      ensures unchanged(`mode) && unchanged(`maxReadBufsize) && (fresh(base) || base == old(base))
      ensures head <= tail <= base.Length && (status == Running ==> Valid())
      ensures mode.Plain? ==> status == Running && delivered == old(delivered) + [old(Kept())]
      ensures mode.Unpacking? ==> Usable(mode.setting) && Handled(mode.setting, old(delivered), Parse(mode.setting, old(Kept())), old(base.Length))
    {
      hide Parse, Step, Usable;
      if mode.Unpacking? {
        UnpackBy(mode.setting, readbytes);
        if status.Stopped? {
          // closed: the buffer is no longer in use
          return;
        }
      } else {
        var bytes := base[head..tail];
        head, tail := 0, 0;
        ReadCb(bytes);
      }
      Autosize();
    }

    /** A read has put `readbytes` bytes behind those kept. */
    ghost predicate Filled(readbytes: nat)
      reads this, base
    {
      && head + readbytes <= tail <= base.Length && 0 < base.Length && status == Running
      && (smallCnt > 0 ==> alloced && base.Length > READ_BUFSIZE_HIGH_WATER) && (alloced ==> base.Length <= maxReadBufsize)
      && if mode.Unpacking? then Fitting(mode.setting) && head == 0 && Step(mode.setting, base[head..tail - readbytes]) == More
         else mode.Plain? && head == 0 && tail == readbytes
    }

    /** The outcome is that of the parse, unless the buffer of `len` bytes is full, ends within a varint, and may not be
        doubled: then the io is given up. */
    ghost predicate Handled(u: Setting, before: seq<seq<byte>>, r: Parsed, len: nat)
      requires Usable(u) && head <= tail <= base.Length
      reads this, base
    {
      if r.Open? && |r.rest| == len && Dangling(u, r.rest) && len * 2 > u.max
      then status == Stopped(OverLimit) && delivered == before + r.packages
      else Shows(before, r)
    }

    /** The same without the length of the buffer. */
    ghost predicate Told(u: Setting, before: seq<seq<byte>>, r: Parsed)
      requires Usable(u) && head <= tail <= base.Length
      reads this, base
    {
      || Shows(before, r)
      || (status == Stopped(OverLimit) && delivered == before + r.packages && r.Open? && Dangling(u, r.rest) && |r.rest| * 2 > u.max)
    }

    /** With any other coding, or with this much room, the outcome is always that of the parse. */
    lemma RoomForVarints(u: Setting, before: seq<seq<byte>>, r: Parsed)
      requires Usable(u) && head <= tail <= base.Length && Told(u, before, r)
      requires u.LengthField? && u.coding == Varint ==> u.max >= 2 * (u.offset + VARINT_BYTES)
      ensures Shows(before, r)
    {
      if r.Open? && Dangling(u, r.rest) { DanglingIsShort(u, r.rest); }
    }

    /** The packages delivered since `before`, the bytes kept and the verdict are those of `r`. */
    ghost predicate Shows(before: seq<seq<byte>>, r: Parsed)
      requires head <= tail <= base.Length
      reads this, base
    {
      && delivered == before + r.packages
      && match r
         case Open(_, rest) => status == Running && Kept() == rest
         case Failed(_, reason) => status == Stopped(reason)
    }

    /** `hio_set_unpack` on an io that has read nothing yet; a `package_max_length` of 0 stands for the default. */
    method SetUnpack(u0: Setting) returns (u: Setting)
      requires Valid() && head == tail && Usable(Defaulted(u0))
      modifies this
      ensures u.max == (if u0.max == 0 then DEFAULT_PACKAGE_MAX_LENGTH else u0.max) && u.(max := u0.max) == u0
      ensures mode == Unpacking(u) && Valid() && Kept() == [] && delivered == old(delivered) && fresh(base)
      ensures base.Length == if u.FixedLength? then u.length else Min(HLOOP_READ_BUFSIZE, u.max)
    {
      u := Defaulted(u0);
      mode := Unpacking(u);
      head, tail := 0, 0;
      maxReadBufsize := u.max;
      if u.FixedLength? {
        AllocReadbuf(u.length);
      } else {
        AllocReadbuf(Min(HLOOP_READ_BUFSIZE, u.max));
      }
    }

    /** `nio_read` when the system call has read `chunk`: at most as many bytes as there is room for, at least one. */
    method NioRead(chunk: seq<byte>)
      requires Valid() && (mode.Plain? || mode.Unpacking?) && 0 < |chunk| <= base.Length - tail
      modifies this, base
      ensures unchanged(`mode) && (fresh(base) || base == old(base)) && head <= tail <= base.Length && (status == Running ==> Valid())
      ensures mode.Plain? ==> status == Running && delivered == old(delivered) + [chunk]
      ensures mode.Unpacking? ==> Usable(mode.setting) && Handled(mode.setting, old(delivered), Parse(mode.setting, old(Kept()) + chunk), old(base.Length))
    {
      hide Parse, Step, Usable;
      ghost var kept := Kept();
      Receive(chunk, base.Length - tail);
      assert base[head..tail - |chunk|] == kept && Kept() == kept + chunk;
      HandleRead(|chunk|);
    }

    /** The system call, asked for `len` bytes, puts some behind those kept, and a terminator follows fewer than these. */
    method Receive(chunk: seq<byte>, len: nat)
      requires head <= tail && |chunk| <= len && tail + len <= base.Length
      modifies `tail, base
      ensures tail == old(tail) + |chunk| && base[head..tail] == old(base[head..tail]) + chunk
    {
      var n := |chunk|;
      forall i | 0 <= i < n {
        base[tail + i] := chunk[i];
      }
      if n < len {
        base[tail + n] := 0;
      }
      tail := tail + n;
    }

    // ---------------------------------------------------------- reading a number of bytes

    /** Where the bytes begin once hio_read_until_length has decided whether to move them. */
    ghost function Start(): nat
      reads this
    {
      if head > 1024 || tail < head + 1024 then 0 else head
    }

    /** `hio_read_until_length` up to its callback: so many bytes are there and it gets them, or there is room to wait for them. */
    method ReadUntilLength(n: nat) returns (r: Option<seq<byte>>)
      requires Valid() && !mode.Unpacking?
      modifies this, base
      ensures unchanged(`maxReadBufsize) && (base == old(base) || fresh(base)) && head <= tail <= base.Length
      ensures r.Some? <==> 0 < n <= old(tail - head)
      ensures r.Some? ==> r.value == old(Kept())[..n] && Kept() == old(Kept())[n..] && Valid() && mode == Idle
      ensures delivered == if r.Some? then old(delivered) + [r.value] else old(delivered)
      ensures r.Some? || n == 0 ==> base == old(base) && unchanged(`alloced) && unchanged(`smallCnt) && status == Running
      ensures n == 0 ==> unchanged(this) && base[..] == old(base[..])
      ensures n > old(tail - head) ==> Kept() == old(Kept()) && head == old(Start()) && mode == UntilLength(n) && Waits(old(alloced), old(base.Length), Running, old(Start()) + n)
      ensures n > old(tail - head) && status == Running ==> Valid()
      ensures old(alloced && base.Length >= Start() + n) ==> base == old(base) && unchanged(`smallCnt)
    {
      if n == 0 {
        return None;
      }
      if tail - head >= n {
        var bytes := Take(n);
        return Some(bytes);
      }
      WaitFor(n);
      return None;
    }

    /** The first `n` bytes kept are delivered. */
    method Take(n: nat) returns (bytes: seq<byte>)
      requires 0 < n <= tail - head && tail <= base.Length
      modifies `head, `tail, `mode, `delivered
      ensures head <= tail <= base.Length && bytes == old(Kept())[..n] && Kept() == old(Kept())[n..]
      ensures (head == tail ==> head == 0) && mode == Idle && delivered == old(delivered) + [bytes]
    {
      assert base[head..tail][..n] == base[head..head + n] && base[head..tail][n..] == base[head + n..tail];
      bytes := base[head..head + n];
      head := head + n;
      if head == tail {
        head, tail := 0, 0;
      }
      mode, delivered := Idle, delivered + [bytes];
    }

    method WaitFor(n: nat)
      requires Valid() && !mode.Unpacking? && n > tail - head
      modifies this, base
      ensures unchanged(`maxReadBufsize) && unchanged(`delivered) && (base == old(base) || fresh(base)) && head <= tail <= base.Length
      ensures Kept() == old(Kept()) && head == old(Start()) && mode == UntilLength(n) && Waits(old(alloced), old(base.Length), Running, old(Start()) + n)
      ensures status == Running ==> Valid()
      ensures old(alloced && base.Length >= Start() + n) ==> base == old(base) && unchanged(`smallCnt)
    {
      hide Step, Usable, Fitting;
      MakeWay();
      mode := UntilLength(n);
      MakeRoom(head + n);
    }

    /** The bytes kept move to the front, unless they are many and begin near it. */
    method MakeWay()
      requires head <= tail <= base.Length
      modifies `head, `tail, base
      ensures head == old(Start()) && head <= tail <= base.Length && Kept() == old(Kept())
    {
      if head > 1024 || tail - head < 1024 {
        MemmoveReadbuf();
      }
    }

    /** An own buffer of `need` bytes at least. */
    method MakeRoom(need: nat)
      requires head <= tail <= base.Length && tail < need && (alloced || head == tail)
      modifies `base, `alloced, `smallCnt, `status
      ensures Waits(old(alloced), old(base.Length), old(status), need) && (status == Running ==> alloced)
      ensures head <= tail <= base.Length && Kept() == old(Kept()) && (base == old(base) || fresh(base))
      ensures old(alloced && base.Length >= need) ==> base == old(base) && unchanged(`smallCnt)
    {
      if !alloced || base.Length < need {
        ghost var kept := Kept();
        AllocReadbuf(need);
        assert Kept() == kept;
      }
    }

    /** The buffer is as long as before, or as long as needed; the io is given up if that is too much. */
    ghost predicate Waits(wasAlloced: bool, len: nat, was: Status, need: nat)
      reads this, base
    {
      if wasAlloced && len >= need then status == was && base.Length == len
      else if need > maxReadBufsize then status == Stopped(OverLimit)
      else status == was && base.Length == need && smallCnt == 0
    }

    /** `nio_read` while a number of bytes is waited for, and the start of hio_handle_read, up to the callback: no more is
        read than that number, and with the last of them the callback gets them all. */
    method NioReadUntil(chunk: seq<byte>) returns (r: Option<seq<byte>>)
      requires Valid() && mode.UntilLength? && 0 < |chunk| <= mode.n - (tail - head)
      modifies this, base
      ensures unchanged(`base) && unchanged(`alloced) && unchanged(`smallCnt) && unchanged(`maxReadBufsize) && Valid()
      ensures r.Some? <==> old(tail - head) + |chunk| == old(mode.n)
      ensures r.Some? ==> r.value == old(Kept()) + chunk && head == tail == 0 && mode == Idle && delivered == old(delivered) + [r.value]
      ensures r == None ==> Kept() == old(Kept()) + chunk && unchanged(`head) && unchanged(`mode) && unchanged(`delivered)
    {
      Receive(chunk, mode.n - (tail - head));
      if tail - head < mode.n {
        return None;
      }
      var bytes := Take(mode.n);
      return Some(bytes);
    }

    /** The end of hio_handle_read in this mode. The buffer may be halved though the bytes waited for need all of it. */
    method AfterRead()
      requires Valid() && !mode.Unpacking?
      modifies this, base
      ensures unchanged(`maxReadBufsize) && unchanged(`mode) && unchanged(`delivered) && (base == old(base) || fresh(base))
      ensures head <= tail <= base.Length && Kept() == old(Kept()) && (status == Running ==> Valid())
      ensures status == Stopped(Overrun) <==>
        old(mode.UntilLength? && Shrinks() && (if head == tail then 0 else head) + mode.n > base.Length / 2)
      ensures status != Stopped(Overrun) ==>
        status == if old(head == 0 && tail == base.Length && base.Length * 2 > maxReadBufsize) then Stopped(OverLimit) else Running
      ensures old(Shrinks()) ==> base.Length == old(base.Length) / 2 && smallCnt == 0
      ensures old(tail < base.Length && smallCnt < 3) ==> base == old(base) && unchanged(`smallCnt) && unchanged(`alloced)
      ensures old(mode.UntilLength? && base.Length <= READ_BUFSIZE_HIGH_WATER) ==> status == Running && base == old(base)
      ensures old(tail < base.Length) ==> head == if old(head == tail) then 0 else old(head)
    {
      Autosize();
      if status == Running && mode.UntilLength? && head + mode.n > base.Length {
        // here the next read of the program would go past the end of the buffer
        status := Stopped(Overrun);
      }
    }

    /** One read of hio_handle_read with a callback that asks for `next` bytes, or for none. */
    method Serve(chunk: seq<byte>, next: nat) returns (r: Option<seq<byte>>)
      requires Valid() && mode.UntilLength? && 0 < |chunk| <= mode.n - (tail - head)
      modifies this, base
      ensures unchanged(`maxReadBufsize) && (base == old(base) || fresh(base)) && head <= tail <= base.Length && (status == Running ==> Valid())
      ensures r.Some? <==> old(tail - head) + |chunk| == old(mode.n)
      ensures r.Some? ==> r.value == old(Kept()) + chunk && Kept() == [] && head == 0 && mode == if next > 0 then UntilLength(next) else Idle
      ensures r == None ==> Kept() == old(Kept()) + chunk && unchanged(`mode)
      ensures delivered == if r.Some? then old(delivered) + [r.value] else old(delivered)
      ensures old(base.Length) <= READ_BUFSIZE_HIGH_WATER && next <= READ_BUFSIZE_HIGH_WATER && next <= maxReadBufsize ==>
        status == Running && base.Length <= READ_BUFSIZE_HIGH_WATER
    {
      hide Step, Usable, Fitting;
      r := NioReadUntil(chunk);
      if r.Some? {
        var more := ReadUntilLength(next);
        if status.Stopped? {
          return;
        }
        CountSmall(|r.value|);
      }
      AfterRead();
    }

    /** Reads of any sizes, while the callback asks for the next number of bytes each time. It gets exactly these: the
        stream cut at the numbers asked for. Asking for no more than 64 KiB at a time, nothing goes wrong. */
    method ReadLengths(stream: seq<byte>, asks: seq<nat>) returns (read: nat)
      requires Valid() && (mode.Plain? || mode.Idle?) && Kept() == [] && delivered == [] && asks != [] && 0 !in asks
      modifies this, base
      ensures head <= tail <= base.Length && read <= |stream| && |delivered| <= |asks|
      ensures Cut(stream, read, asks[..|delivered|], delivered, Kept())
      ensures status == Running ==> Valid() && if |delivered| == |asks| then Kept() == []
                                               else mode == UntilLength(asks[|delivered|]) && read == |stream|
      ensures old(base.Length) <= READ_BUFSIZE_HIGH_WATER && Modest(asks) ==> status == Running
    {
      ghost var small := base.Length <= READ_BUFSIZE_HIGH_WATER && Modest(asks);
      read := 0;
      assert asks[..0] == [] && asks[0] in asks;
      var none := ReadUntilLength(asks[0]);
      CutNothing(stream, asks);
      var k := 0;
      hide Valid, Cut, Modest;
      while status == Running && k < |asks| && read < |stream|
        invariant k == |delivered| && (base == old(base) || fresh(base))
        invariant Along(stream, read, asks) && maxReadBufsize == old(maxReadBufsize)
        invariant small ==> status == Running && base.Length <= READ_BUFSIZE_HIGH_WATER && Modest(asks)
        decreases |stream| - read
      {
        read, k := ReadNext(stream, read, asks, k);
      }
    }

    ghost predicate Modest(asks: seq<nat>)
      reads `maxReadBufsize
    {
      forall n | n in asks :: n <= READ_BUFSIZE_HIGH_WATER && n <= maxReadBufsize
    }

    /** The io is on its way through the stream and the numbers asked for. */
    ghost predicate Along(stream: seq<byte>, read: nat, asks: seq<nat>)
      reads this, base
    {
      && read <= |stream| && |delivered| <= |asks| && head <= tail <= base.Length && 0 !in asks
      && Cut(stream, read, asks[..|delivered|], delivered, Kept())
      && (status == Running ==> Valid() && if |delivered| < |asks| then mode == UntilLength(asks[|delivered|]) else Kept() == [])
    }

    /** One read of any size. */
    method ReadNext(stream: seq<byte>, read0: nat, asks: seq<nat>, k0: nat) returns (read: nat, k: nat)
      requires Along(stream, read0, asks) && status == Running && k0 == |delivered| < |asks| && read0 < |stream|
      modifies this, base
      ensures read0 < read && k == |delivered| && Along(stream, read, asks) && unchanged(`maxReadBufsize) && (base == old(base) || fresh(base))
      ensures old(base.Length) <= READ_BUFSIZE_HIGH_WATER && Modest(asks) ==> status == Running && base.Length <= READ_BUFSIZE_HIGH_WATER
    {
      hide Cut;
      ghost var kept, before := Kept(), delivered;
      Waited();
      hide Valid;
      var n: nat :| 0 < n <= |stream| - read0 && n <= mode.n - (tail - head);
      read := read0 + n;
      var next := if k0 + 1 < |asks| then asks[k0 + 1] else 0;
      assert k0 + 1 < |asks| ==> next in asks;
      CutOnce(stream, read0, asks, k0, before, kept, n);
      var r := Serve(stream[read0..read], next);
      k := if r.Some? then k0 + 1 else k0;
    }

    lemma Waited()
      requires Valid() && mode.UntilLength?
      ensures tail - head < mode.n && head <= tail <= base.Length
    {
    }

    /** One read more, in terms of the whole stream so far. */
    lemma FedOn(u: Setting, before: seq<seq<byte>>, kept: seq<byte>, chunk: seq<byte>, sofar: seq<byte>, len: nat)
      requires Usable(u) && head <= tail <= base.Length && Parse(u, sofar) == Open(before, kept)
      requires Parse(u, sofar + chunk) == Feed(u, Parse(u, sofar), chunk)
      requires Handled(u, before, Parse(u, kept + chunk), len)
      ensures Told(u, [], Parse(u, sofar + chunk))
    {
      hide Parse, Usable;
      var q := Parse(u, kept + chunk);
      assert [] + (before + q.packages) == before + q.packages;
    }

    lemma StillOpen(u: Setting, sofar: seq<byte>)
      requires Usable(u) && head <= tail <= base.Length && status == Running && Told(u, [], Parse(u, sofar))
      ensures Parse(u, sofar) == Open(delivered, Kept())
    {
      hide Parse, Usable;
    }

    /** One read of any size. */
    method ReadSome(ghost u: Setting, stream: seq<byte>, read0: nat) returns (read: nat)
      requires Valid() && mode == Unpacking(u) && Usable(u) && read0 < |stream| && Told(u, [], Parse(u, stream[..read0]))
      modifies this, base
      ensures read0 < read <= |stream| && unchanged(`mode) && (fresh(base) || base == old(base))
      ensures head <= tail <= base.Length && (status == Running ==> Valid()) && Told(u, [], Parse(u, stream[..read]))
    {
      hide Parse, Step, Usable, Handled, Told;
      var n :| 0 < n <= |stream| - read0 && n <= base.Length - tail;
      var chunk := stream[read0..read0 + n];
      read := read0 + n;
      StillOpen(u, stream[..read0]);
      ParseAppend(u, stream[..read0], chunk);
      assert stream[..read0] + chunk == stream[..read];
      ghost var before, kept, len := delivered, Kept(), base.Length;
      NioRead(chunk);
      FedOn(u, before, kept, chunk, stream[..read0], len);
    }

    /** Reads of any sizes, until the stream is at its end or the io is closed. */
    method ReadStream(stream: seq<byte>) returns (read: nat)
      requires Valid() && mode.Unpacking? && Kept() == [] && delivered == []
      modifies this, base
      ensures unchanged(`mode) && head <= tail <= base.Length && read <= |stream| && (status == Running ==> read == |stream| && Valid())
      ensures Usable(mode.setting) && Told(mode.setting, [], Parse(mode.setting, stream[..read]))
      ensures var u := mode.setting;
        (u.LengthField? && u.coding == Varint ==> u.max >= 2 * (u.offset + VARINT_BYTES)) ==> Shows([], Parse(u, stream[..read]))
    {
      ghost var u := mode.setting;
      read := 0;
      NothingRead(u);
      assert stream[..0] == [];
      hide Parse, Step, Usable, Valid;
      while read < |stream| && status == Running
        invariant read <= |stream| && mode == Unpacking(u) && head <= tail <= base.Length && (fresh(base) || base == old(base))
        invariant status == Running ==> Valid()
        invariant Told(u, [], Parse(u, stream[..read]))
        decreases |stream| - read
      {
        read := ReadSome(u, stream, read);
      }
      if u.LengthField? && u.coding == Varint ==> u.max >= 2 * (u.offset + VARINT_BYTES) {
        RoomForVarints(u, [], Parse(u, stream[..read]));
      }
    }
  }

  /** A setting with less room, and a message within its limit that it does not read. */
  const CROWDED := LengthField(10000, 8191, 8190, 1, 0, Varint)

  function CrowdedBytes(): (s: seq<byte>)
    ensures |s| == 8192
  {
    seq(8190, _ => 0) + [128, 128]
  }

  lemma CrowdedMessage()
    ensures Usable(CROWDED) && IsMessage(CROWDED, CrowdedBytes() + [0]) && Parse(CROWDED, CrowdedBytes()) == Open([], CrowdedBytes())
    ensures Dangling(CROWDED, CrowdedBytes())
  {
    var s := CrowdedBytes();
    assert s[8190..] == [128, 128];
    assert SizeFrom(s[8190..], 0) == SizeFrom(s[8190..], 1) == SizeFrom(s[8190..], 2) == Unfinished;
    var m := s + [0];
    assert m[8190..] == [128, 128, 0];
    assert SizeFrom(m[8190..], 0) == SizeFrom(m[8190..], 1) == SizeFrom(m[8190..], 2) == Size(3);
    assert m[8190..8193] == [128, 128, 0];
    assert VarintValue([128, 128, 0]) == 128 * VarintValue([128, 0]) && VarintValue([128, 0]) == 128 * VarintValue([0]);
  }

  /** The buffer of 8192 bytes is full before the end of the varint and may not be doubled: the io is given up. */
  method Crowded() returns (io: ReadIo)
    ensures io.status == Stopped(OverLimit) && io.delivered == []
  {
    io := new ReadIo(DEFAULT_PACKAGE_MAX_LENGTH);
    CrowdedMessage();
    var u := io.SetUnpack(CROWDED);
    hide Parse, Step;
    ghost var kept := io.Kept();
    assert kept + CrowdedBytes() == CrowdedBytes();
    io.NioRead(CrowdedBytes());
  }

  /** With larger buffers the room may go: after three small packages the buffer is halved, whatever is waited for. */
  method Halved() returns (io: ReadIo)
    ensures io.status == Stopped(Overrun) && io.mode == UntilLength(70000) && io.base.Length == 35000
  {
    io := new ReadIo(0x100_0000);
    var r := io.ReadUntilLength(70000);
    r := io.NioReadUntil(seq(70000, _ => 0));
    r := io.ReadUntilLength(1);
    io.CountSmall(70000);
    io.AfterRead();
    SmallRead(io, 1);
    SmallRead(io, 1);
    SmallRead(io, 70000);
  }

  /** A read of the one byte waited for; `next` bytes are asked for then. */
  method SmallRead(io: ReadIo, next: nat)
    requires io.Valid() && io.mode == UntilLength(1) && io.head == io.tail == 0 && io.alloced && io.base.Length == 70000
    requires 0 < next <= 70000 && io.smallCnt <= 2
    modifies io, io.base
    ensures io.base == old(io.base) || fresh(io.base)
    ensures io.mode == UntilLength(next) && io.head == io.tail == 0
    ensures if old(io.smallCnt) == 2 && next > 35000 then io.status == Stopped(Overrun) && io.base.Length == 35000
            else io.Valid()
    ensures old(io.smallCnt) < 2 ==> io.alloced && io.base.Length == 70000 && io.smallCnt == old(io.smallCnt) + 1
  {
    var r := io.NioReadUntil([7]);
    r := io.ReadUntilLength(next);
    io.CountSmall(1);
    io.AfterRead();
  }
}
