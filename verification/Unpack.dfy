/** What the unpackers of unpack.c find in a stream of bytes, whatever reads it arrives in. */
module Unpack {

  import opened Bytes

  const TWO_TO_THE_32: nat := 0x1_0000_0000

  datatype Coding = BigEndian | LittleEndian | Varint

  /** `unpack_setting_t`, one constructor a mode; `max` is `package_max_length`. */
  datatype Setting =
    | FixedLength(max: nat, length: nat)
    | Delimiter(max: nat, delimiter: seq<byte>)
    | LengthField(max: nat, bodyOffset: nat, offset: nat, bytes: nat, adjustment: int, coding: Coding)

  /** What hio_set_unpack asserts. Beyond that, a delimiter and a length field have a byte, and a little-endian field
      fits an unsigned int. */
  predicate Usable(u: Setting) {
    match u
    case FixedLength(max, length) => 0 < length <= max
    case Delimiter(max, delimiter) => 0 < max && 0 < |delimiter|
    case LengthField(max, bodyOffset, offset, bytes, _, coding) =>
      0 < max && 0 < bytes && offset + bytes <= bodyOffset && (coding == LittleEndian ==> bytes <= 4)
  }

  /** Why a stream is given up. The last two are not the program's: on a package of length 0 its loop never ends, and a read
      is longer than the room for it. */
  datatype Reason = OverLimit | VarintTooBig | Endless | Overrun

  /** What comes next in a stream: not enough bytes yet, a package, or the end. */
  datatype Next = More | Package(len: nat) | Fail(reason: Reason)

  // ------------------------------------------------------------ the length field

  function BeValue(s: seq<byte>): (v: nat)
    ensures v < TWO_TO_THE_32
  {
    if s == [] then 0 else (BeValue(s[..|s| - 1]) * 256 + s[|s| - 1] as nat) % TWO_TO_THE_32
  }

  function Power(b: nat, n: nat): nat { if n == 0 then 1 else b * Power(b, n - 1) }

  function LeValue(s: seq<byte>): (v: nat)
  {
    if s == [] then 0 else s[0] as nat + 256 * LeValue(s[1..])
  }

  /** The bytes of a varint: all but the last have their top bit set. `None` says that `s` ends before it. */
  datatype VarintSize = Unfinished | Oversized | Size(bytes: nat)

  const VARINT_BYTES := 10

  function SizeFrom(s: seq<byte>, i: nat): (r: VarintSize)
    requires i <= VARINT_BYTES && i <= |s|
    ensures r.Size? ==> i < r.bytes <= VARINT_BYTES && r.bytes <= |s| && s[r.bytes - 1] < 128
    ensures r.Size? ==> forall k | i <= k < r.bytes - 1 :: s[k] >= 128
    ensures r.Oversized? ==> |s| >= VARINT_BYTES && forall k | i <= k < VARINT_BYTES :: s[k] >= 128
    ensures r.Unfinished? ==> |s| < VARINT_BYTES && forall k | i <= k < |s| :: s[k] >= 128
    decreases VARINT_BYTES - i
  {
    if i == VARINT_BYTES then Oversized else if i >= |s| then Unfinished else if s[i] < 128 then Size(i + 1) else SizeFrom(s, i + 1)
  }

  /** Seven bits a byte, the lowest first. */
  function VarintValue(s: seq<byte>): nat {
    if s == [] then 0 else (s[0] % 128) as nat + 128 * VarintValue(s[1..])
  }

  /** The length of the package at the start of `s`, in unsigned 32-bit arithmetic. */
  function PackageLength(u: Setting, headLen: int, bodyLen: nat): (n: nat)
    requires u.LengthField?
    ensures n < TWO_TO_THE_32
  {
    (headLen + bodyLen + u.adjustment) % TWO_TO_THE_32
  }

  function Delivered(u: Setting, s: seq<byte>, n: nat): Next {
    if n == 0 then Fail(Endless) else if n > u.max then Fail(OverLimit) else if n <= |s| then Package(n) else More
  }

  function FieldStep(u: Setting, s: seq<byte>): Next
    requires Usable(u) && u.LengthField?
  {
    if s == [] then More
    else if u.bodyOffset > u.max then Fail(OverLimit)
    else if |s| < u.bodyOffset then More
    else if u.coding == BigEndian then Delivered(u, s, PackageLength(u, u.bodyOffset, BeValue(s[u.offset..u.offset + u.bytes])))
    else if u.coding == LittleEndian then Delivered(u, s, PackageLength(u, u.bodyOffset, LeValue(s[u.offset..u.offset + u.bytes])))
    else match SizeFrom(s[u.offset..], 0)
      case Unfinished => More
      case Oversized => Fail(VarintTooBig)
      case Size(k) => Delivered(u, s, PackageLength(u, u.bodyOffset + k - u.bytes, VarintValue(s[u.offset..u.offset + k])))
  }

  // ------------------------------------------------------------ the delimiter

  predicate MatchAt(s: seq<byte>, d: seq<byte>, i: int) { 0 <= i && i + |d| <= |s| && s[i..i + |d|] == d }

  /** The first match at `i` or later, or the first place too late for one. */
  function FirstMatch(s: seq<byte>, d: seq<byte>, i: nat): (k: nat)
    ensures i <= k && (MatchAt(s, d, k) || k + |d| > |s|)
    ensures forall j | i <= j < k :: !MatchAt(s, d, j)
    decreases |s| - i
  {
    if i + |d| > |s| || s[i..i + |d|] == d then i else FirstMatch(s, d, i + 1)
  }

  function DelimiterStep(u: Setting, s: seq<byte>): Next
    requires u.Delimiter?
  {
    var end := FirstMatch(s, u.delimiter, 0) + |u.delimiter|;
    if end <= |s| && end <= u.max then Package(end) else if |s| >= u.max then Fail(OverLimit) else More
  }

  // ------------------------------------------------------------ any mode

  function Step(u: Setting, s: seq<byte>): (r: Next)
    requires Usable(u)
    ensures r.Package? ==> 0 < r.len <= |s| && r.len <= u.max
    ensures s == [] ==> r == More
  {
    match u
    case FixedLength(max, length) => if |s| >= length then Package(length) else More
    case Delimiter(_, _) => DelimiterStep(u, s)
    case LengthField(_, _, _, _, _, _) => FieldStep(u, s)
  }

  /** The packages in a stream, the bytes behind them, and whether the stream was given up. */
  datatype Parsed = Open(packages: seq<seq<byte>>, rest: seq<byte>) | Failed(packages: seq<seq<byte>>, reason: Reason)

  function Prepend(packages: seq<seq<byte>>, r: Parsed): Parsed {
    match r
    case Open(ps, rest) => Open(packages + ps, rest)
    case Failed(ps, reason) => Failed(packages + ps, reason)
  }

  function Parse(u: Setting, s: seq<byte>): (r: Parsed)
    requires Usable(u)
    decreases |s|
  {
    match Step(u, s)
    case More => Open([], s)
    case Fail(reason) => Failed([], reason)
    case Package(n) => Prepend([s[..n]], Parse(u, s[n..]))
  }

  /** One read more: the bytes kept from before and the new ones. */
  function Feed(u: Setting, r: Parsed, chunk: seq<byte>): Parsed
    requires Usable(u)
  {
    if r.Failed? then r else Prepend(r.packages, Parse(u, r.rest + chunk))
  }

  function FeedAll(u: Setting, chunks: seq<seq<byte>>): Parsed
    requires Usable(u)
  {
    if chunks == [] then Open([], []) else Feed(u, FeedAll(u, chunks[..|chunks| - 1]), chunks[|chunks| - 1])
  }

  // ------------------------------------------------------------ chunks do not matter

  lemma {:induction false} SizeStable(s: seq<byte>, t: seq<byte>, i: nat)
    requires i <= VARINT_BYTES && i <= |s| && !SizeFrom(s, i).Unfinished?
    ensures SizeFrom(s + t, i) == SizeFrom(s, i)
    decreases VARINT_BYTES - i
  {
    if i < VARINT_BYTES && s[i] >= 128 { SizeStable(s, t, i + 1); }
  }

  /** A match that is complete in `s` is the first in `s + t` too. */
  lemma MatchStable(s: seq<byte>, t: seq<byte>, d: seq<byte>)
    ensures var k, k' := FirstMatch(s, d, 0), FirstMatch(s + t, d, 0);
      if k + |d| <= |s| then k' == k else k' + |d| > |s|
  {
    var k, k' := FirstMatch(s, d, 0), FirstMatch(s + t, d, 0);
    forall j: nat | j + |d| <= |s| ensures MatchAt(s + t, d, j) <==> MatchAt(s, d, j) {
      assert (s + t)[j..j + |d|] == s[j..j + |d|];
    }
    if k + |d| <= |s| {
      assert MatchAt(s + t, d, k);
      assert k <= k' || !MatchAt(s, d, k');
    } else {
      assert k' + |d| <= |s| ==> MatchAt(s, d, k');
    }
  }

  lemma FieldStable(u: Setting, s: seq<byte>, t: seq<byte>)
    requires Usable(u) && u.LengthField? && FieldStep(u, s) != More
    ensures FieldStep(u, s + t) == FieldStep(u, s)
  {
    hide SizeFrom, BeValue, LeValue, VarintValue, PackageLength;
    if u.bodyOffset <= u.max {
      var offset, end := u.offset, u.offset + u.bytes;
      if u.coding == Varint {
        SizeStable(s[offset..], t, 0);
        assert (s + t)[offset..] == s[offset..] + t;
        var size := SizeFrom(s[offset..], 0);
        assert size.Size? ==> (s + t)[offset..offset + size.bytes] == s[offset..offset + size.bytes];
      } else {
        assert (s + t)[offset..end] == s[offset..end];
      }
    }
  }

  /** What the first bytes decide, later bytes do not change. */
  lemma StepStable(u: Setting, s: seq<byte>, t: seq<byte>)
    requires Usable(u) && Step(u, s) != More
    ensures Step(u, s + t) == Step(u, s)
  {
    hide FieldStep, FirstMatch, MatchAt;
    match u
    case FixedLength(_, length) => assert (s + t)[..length] == s[..length];
    case Delimiter(_, d) => MatchStable(s, t, d);
    case LengthField(_, _, _, _, _, _) => FieldStable(u, s, t);
  }

  /** Parsing a stream in two reads is parsing it in one. */
  lemma {:induction false} ParseAppend(u: Setting, s: seq<byte>, t: seq<byte>)
    requires Usable(u)
    ensures Parse(u, s + t) == Feed(u, Parse(u, s), t)
    decreases |s|
  {
    match Step(u, s)
    case More =>
    case Fail(_) => StepStable(u, s, t);
    case Package(n) =>
      StepStable(u, s, t);
      assert (s + t)[..n] == s[..n] && (s + t)[n..] == s[n..] + t;
      ParseAppend(u, s[n..], t);
      PrependTwice(u, [s[..n]], Parse(u, s[n..]), t);
  }

  lemma PrependTwice(u: Setting, ps: seq<seq<byte>>, r: Parsed, t: seq<byte>)
    requires Usable(u)
    ensures Prepend(ps, Feed(u, r, t)) == Feed(u, Prepend(ps, r), t)
  {
    if r.Open? {
      var q := Parse(u, r.rest + t);
      assert ps + (r.packages + q.packages) == ps + r.packages + q.packages;
    }
  }

  /** However a stream is split into reads, the packages, the bytes left over and the verdict are those of the whole. */
  lemma {:induction false} ChunksDoNotMatter(u: Setting, chunks: seq<seq<byte>>)
    requires Usable(u)
    ensures FeedAll(u, chunks) == Parse(u, Concat(chunks))
  {
    if chunks != [] {
      var init, last := chunks[..|chunks| - 1], chunks[|chunks| - 1];
      ChunksDoNotMatter(u, init);
      assert chunks == init + [last];
      ConcatAppend(init, [last]);
      assert Concat([last]) == last by { assert [last][1..] == []; }
      ParseAppend(u, Concat(init), last);
    }
  }

  // ------------------------------------------------------------ what the packages are

  /** No package is empty or longer than `package_max_length`. */
  lemma {:induction false} PackagesBounded(u: Setting, s: seq<byte>)
    requires Usable(u)
    ensures forall p | p in Parse(u, s).packages :: 0 < |p| <= u.max
    decreases |s|
  {
    hide Usable;
    match Step(u, s)
    case More =>
    case Fail(_) =>
    case Package(n) => PackagesBounded(u, s[n..]);
  }

  /** The packages of `r` are the beginning of `s`; the rest is kept, or what stopped the unpacker comes next. */
  predicate Accounts(u: Setting, s: seq<byte>, r: Parsed)
    requires Usable(u)
  {
    match r
    case Open(packages, rest) => Concat(packages) + rest == s && Step(u, rest) == More
    case Failed(packages, reason) => Concat(packages) <= s && Step(u, s[|Concat(packages)|..]) == Fail(reason)
  }

  lemma AccountsStep(u: Setting, p: seq<byte>, s: seq<byte>, r: Parsed)
    requires Usable(u) && Accounts(u, s, r)
    ensures Accounts(u, p + s, Prepend([p], r))
  {
    hide Step, Usable, Concat;
    OnePackageMore(p, s, r.packages);
    if r.Open? { assert p + s == p + Concat(r.packages) + r.rest; }
  }

  /** Nothing is lost. */
  lemma {:induction false} ParseKeepsBytes(u: Setting, s: seq<byte>)
    requires Usable(u)
    ensures Accounts(u, s, Parse(u, s))
    decreases |s|
  {
    hide Usable;
    match Step(u, s)
    case More =>
    case Fail(_) =>
      assert s[|Concat([])|..] == s;
    case Package(n) =>
      hide Accounts, Step;
      ParseKeepsBytes(u, s[n..]);
      AccountsStep(u, s[..n], s[n..], Parse(u, s[n..]));
      assert s == s[..n] + s[n..];
  }

  lemma OnePackageMore(p: seq<byte>, s: seq<byte>, ps: seq<seq<byte>>)
    ensures Concat([p] + ps) == p + Concat(ps)
    ensures Concat(ps) <= s ==> Concat([p] + ps) <= p + s && (p + s)[|Concat([p] + ps)|..] == s[|Concat(ps)|..]
  {
    assert ([p] + ps)[1..] == ps;
    if Concat(ps) <= s {
      assert p + s == p + Concat(ps) + s[|Concat(ps)|..];
    }
  }

  /** A message is one package, complete in itself. */
  predicate IsMessage(u: Setting, m: seq<byte>)
    requires Usable(u)
  {
    Step(u, m) == Package(|m|)
  }

  lemma MessageFirst(u: Setting, m: seq<byte>, s: seq<byte>)
    requires Usable(u) && IsMessage(u, m)
    ensures Parse(u, m + s) == Prepend([m], Parse(u, s))
  {
    hide Step, Usable;
    StepStable(u, m, s);
    assert (m + s)[..|m|] == m && (m + s)[|m|..] == s;
  }

  /** Round trip: messages sent one after the other come out as they went in, and what follows them is kept. */
  lemma {:induction false} MessagesComeBack(u: Setting, messages: seq<seq<byte>>, tail: seq<byte>)
    requires Usable(u) && (forall m | m in messages :: IsMessage(u, m)) && Step(u, tail) == More
    ensures Parse(u, Concat(messages) + tail) == Open(messages, tail)
  {
    hide Step, Usable, IsMessage;
    if messages == [] {
      assert Concat(messages) + tail == tail;
    } else {
      var m, rest := messages[0], messages[1..];
      assert Concat(messages) + tail == m + (Concat(rest) + tail);
      MessageFirst(u, m, Concat(rest) + tail);
      MessagesComeBack(u, rest, tail);
      assert [m] + rest == messages;
    }
  }

  /** The greedy leftmost split: `p` ends with the first occurrence of the delimiter in it. */
  predicate EndsFirst(p: seq<byte>, d: seq<byte>) {
    |p| >= |d| && MatchAt(p, d, |p| - |d|) && forall j: nat | j < |p| - |d| :: !MatchAt(p, d, j)
  }

  lemma DelimiterMessage(u: Setting, p: seq<byte>)
    requires Usable(u) && u.Delimiter?
    ensures IsMessage(u, p) <==> EndsFirst(p, u.delimiter) && |p| <= u.max
  {
    var d := u.delimiter;
    var k := FirstMatch(p, d, 0);
    if EndsFirst(p, d) {
      assert MatchAt(p, d, |p| - |d|);
      assert k <= |p| - |d|;
    }
  }

  /** The pieces of the delimiter mode: each ends with its first delimiter, and the rest has none. */
  ghost predicate DelimiterPieces(u: Setting, packages: seq<seq<byte>>, rest: seq<byte>)
    requires u.Delimiter?
  {
    && (forall p | p in packages :: EndsFirst(p, u.delimiter) && |p| <= u.max)
    && (forall i :: !MatchAt(rest, u.delimiter, i)) && |rest| < u.max
  }

  /** The delimiter mode cuts at every first delimiter, and nowhere else. */
  lemma {:induction false} GreedySplit(u: Setting, s: seq<byte>, packages: seq<seq<byte>>, rest: seq<byte>)
    requires Usable(u) && u.Delimiter?
    ensures Parse(u, s) == Open(packages, rest) <==> Concat(packages) + rest == s && DelimiterPieces(u, packages, rest)
    decreases |s|
  {
    if Concat(packages) + rest == s && DelimiterPieces(u, packages, rest) {
      hide EndsFirst, MatchAt, Parse, Concat, Usable;
      forall p | p in packages ensures IsMessage(u, p) { DelimiterMessage(u, p); }
      MessagesComeBack(u, packages, rest);
    }
    if Parse(u, s) == Open(packages, rest) {
      ParseKeepsBytes(u, s);
      NoMatchLeft(u, rest);
      hide *;
      forall p | p in packages ensures EndsFirst(p, u.delimiter) && |p| <= u.max { DelimiterEnds(u, s, p); }
      assert DelimiterPieces(u, packages, rest);
    }
  }

  lemma NoMatchLeft(u: Setting, rest: seq<byte>)
    requires Usable(u) && u.Delimiter?
    ensures Step(u, rest) == More <==> (forall i :: !MatchAt(rest, u.delimiter, i)) && |rest| < u.max
  {
    var k := FirstMatch(rest, u.delimiter, 0);
    assert k + |u.delimiter| <= |rest| ==> MatchAt(rest, u.delimiter, k);
  }

  lemma {:induction false} DelimiterEnds(u: Setting, s: seq<byte>, p: seq<byte>)
    requires Usable(u) && u.Delimiter? && p in Parse(u, s).packages
    ensures EndsFirst(p, u.delimiter) && |p| <= u.max
    decreases |s|
  {
    var n := Step(u, s).len;
    FirstPiece(u, s, n);
    hide Step, EndsFirst, Usable;
    if p != s[..n] { DelimiterEnds(u, s[n..], p); }
  }

  lemma FirstPiece(u: Setting, s: seq<byte>, n: nat)
    requires Usable(u) && u.Delimiter? && n <= |s|
    ensures Step(u, s) == Package(n) <==> EndsFirst(s[..n], u.delimiter) && n <= u.max
  {
    DelimiterMessage(u, s[..n]);
    assert s == s[..n] + s[n..];
    MatchStable(s[..n], s[n..], u.delimiter);
    hide Usable;
  }

  /** That mode gives a stream up exactly when none of its first `max` bytes ends a piece. */
  lemma DelimiterFails(u: Setting, s: seq<byte>)
    requires Usable(u) && u.Delimiter?
    ensures Step(u, s) == Fail(OverLimit) <==> |s| >= u.max && forall n: nat | n <= u.max :: !EndsFirst(s[..n], u.delimiter)
  {
    forall n: nat | n <= u.max && n <= |s| ensures Step(u, s) == Package(n) <==> EndsFirst(s[..n], u.delimiter) { FirstPiece(u, s, n); }
    if Step(u, s).Package? { assert EndsFirst(s[..Step(u, s).len], u.delimiter); }
  }

  /** The fixed-length mode cuts pieces of just that length, and never gives up. */
  lemma {:induction false} FixedSplit(u: Setting, s: seq<byte>, packages: seq<seq<byte>>, rest: seq<byte>)
    requires Usable(u) && u.FixedLength?
    ensures Parse(u, s) == Open(packages, rest) <==>
      Concat(packages) + rest == s && (forall p | p in packages :: |p| == u.length) && |rest| < u.length
    ensures Parse(u, s).Open?
  {
    FixedPieces(u, s);
    if Concat(packages) + rest == s && (forall p | p in packages :: |p| == u.length) && |rest| < u.length {
      MessagesComeBack(u, packages, rest);
    }
    ParseKeepsBytes(u, s);
  }

  lemma {:induction false} FixedPieces(u: Setting, s: seq<byte>)
    requires Usable(u) && u.FixedLength?
    ensures Parse(u, s).Open? && (forall p | p in Parse(u, s).packages :: |p| == u.length) && |Parse(u, s).rest| < u.length
    decreases |s|
  {
    if |s| >= u.length { FixedPieces(u, s[u.length..]); }
  }

  /** Of a message that is not complete yet nothing is delivered. */
  lemma MessageIncomplete(u: Setting, m: seq<byte>, p: seq<byte>)
    requires Usable(u) && IsMessage(u, m) && p < m
    ensures Parse(u, p) == Open([], p)
  {
    hide Usable;
    var t := m[|p|..];
    assert p + t == m;
    hide Step;
    if Step(u, p) != More { StepStable(u, p, t); }
  }

  // ------------------------------------------------------------ senders

  /** The `n` bytes of `v`, the highest first. */
  function BeBytes(v: nat, n: nat): (s: seq<byte>)
    ensures |s| == n
  {
    if n == 0 then [] else BeBytes(v / 256, n - 1) + [(v % 256) as byte]
  }

  /** The `n` bytes of `v`, the lowest first. */
  function LeBytes(v: nat, n: nat): (s: seq<byte>)
    ensures |s| == n
  {
    if n == 0 then [] else [(v % 256) as byte] + LeBytes(v / 256, n - 1)
  }

  /** What varint_encode writes. */
  function VarintBytes(v: nat): (s: seq<byte>)
    ensures s != []
  {
    if v < 128 then [v as byte] else [(128 + v % 128) as byte] + VarintBytes(v / 128)
  }

  lemma DivideBelow(v: nat, b: nat, n: nat)
    requires b > 0 && n > 0 && v < Power(b, n)
    ensures v / b < Power(b, n - 1)
  {
    var q, p := v / b, Power(b, n - 1);
    assert b * q <= v < b * p;
    assert q >= p ==> b * q >= b * p;
  }

  lemma {:induction false} BeRoundTrip(v: nat, n: nat)
    requires v < Power(256, n) && v < TWO_TO_THE_32
    ensures BeValue(BeBytes(v, n)) == v
  {
    if n > 0 {
      DivideBelow(v, 256, n);
      BeRoundTrip(v / 256, n - 1);
      hide Power;
      var s := BeBytes(v, n);
      assert s[..n - 1] == BeBytes(v / 256, n - 1) && s[n - 1] as nat == v % 256;
      hide BeBytes;
      assert BeValue(s) == (v / 256 * 256 + v % 256) % TWO_TO_THE_32;
    }
  }

  lemma {:induction false} LeRoundTrip(v: nat, n: nat)
    requires v < Power(256, n)
    ensures LeValue(LeBytes(v, n)) == v
  {
    if n > 0 {
      DivideBelow(v, 256, n);
      LeRoundTrip(v / 256, n - 1);
      assert LeBytes(v, n)[1..] == LeBytes(v / 256, n - 1);
    }
  }

  lemma {:induction false} VarintRoundTrip(v: nat)
    ensures VarintValue(VarintBytes(v)) == v
  {
    if v >= 128 {
      VarintRoundTrip(v / 128);
      assert VarintBytes(v)[1..] == VarintBytes(v / 128);
    }
  }

  /** A number below 2^(7n) takes at most `n` bytes. */
  lemma {:induction false} VarintFits(v: nat, n: nat)
    requires n > 0 && v < Power(128, n)
    ensures |VarintBytes(v)| <= n
  {
    assert Power(128, 1) == 128;
    if v >= 128 {
      DivideBelow(v, 128, n);
      VarintFits(v / 128, n - 1);
    }
  }

  /** The decoder finds the end of what the encoder wrote, whatever follows. */
  lemma {:induction false} VarintEndFound(p: seq<byte>, v: nat, t: seq<byte>)
    requires |p| + |VarintBytes(v)| <= VARINT_BYTES
    ensures SizeFrom(p + VarintBytes(v) + t, |p|) == Size(|p| + |VarintBytes(v)|)
    decreases v
  {
    var s := p + VarintBytes(v) + t;
    assert s[|p|] == VarintBytes(v)[0];
    if v >= 128 {
      var q := p + [(128 + v % 128) as byte];
      assert s == q + VarintBytes(v / 128) + t;
      VarintEndFound(q, v / 128, t);
    }
  }

  /** How the field for a body of length `v` is written. */
  function FieldBytes(u: Setting, v: nat): seq<byte>
    requires u.LengthField?
  {
    match u.coding
    case BigEndian => BeBytes(v, u.bytes)
    case LittleEndian => LeBytes(v, u.bytes)
    case Varint => VarintBytes(v)
  }

  /** A sender's message: the head with the length field in its place, and the body. */
  function Framed(u: Setting, before: seq<byte>, after: seq<byte>, body: seq<byte>): (m: seq<byte>)
    requires u.LengthField? && |body| >= u.adjustment
  {
    before + FieldBytes(u, |body| - u.adjustment) + after + body
  }

  /** The field read back from where it was put. */
  lemma FieldRead(u: Setting, before: seq<byte>, t: seq<byte>, v: nat)
    requires Usable(u) && u.LengthField? && |before| == u.offset && v < TWO_TO_THE_32
    requires u.coding != Varint ==> v < Power(256, u.bytes)
    requires u.coding == Varint ==> |VarintBytes(v)| <= VARINT_BYTES
    ensures var field := FieldBytes(u, v);
      && (u.coding == BigEndian ==> |field| == u.bytes && BeValue(field) == v)
      && (u.coding == LittleEndian ==> |field| == u.bytes && LeValue(field) == v)
      && (u.coding == Varint ==> SizeFrom((before + field + t)[u.offset..], 0) == Size(|field|) && VarintValue(field) == v)
  {
    hide SizeFrom, BeValue, LeValue, VarintValue, VarintBytes, BeBytes, LeBytes, Power;
    match u.coding
    case BigEndian => BeRoundTrip(v, u.bytes);
    case LittleEndian => LeRoundTrip(v, u.bytes);
    case Varint =>
      VarintRoundTrip(v);
      VarintEndFound([], v, t);
      assert (before + VarintBytes(v) + t)[u.offset..] == [] + VarintBytes(v) + t;
  }

  /** The receiver's side of it: what is framed by the setting is one package, or longer than allowed. */
  lemma FramedStep(u: Setting, before: seq<byte>, after: seq<byte>, body: seq<byte>)
    requires Usable(u) && u.LengthField? && |body| >= u.adjustment
    requires |before| == u.offset && |after| == u.bodyOffset - u.offset - u.bytes
    requires u.coding != Varint ==> |body| - u.adjustment < Power(256, u.bytes)
    requires u.coding == Varint ==> |VarintBytes(|body| - u.adjustment)| <= VARINT_BYTES
    requires 0 < |Framed(u, before, after, body)| < TWO_TO_THE_32 && |body| - u.adjustment < TWO_TO_THE_32
    requires u.bodyOffset <= |Framed(u, before, after, body)|
    ensures var m := Framed(u, before, after, body); Step(u, m) == if |m| <= u.max then Package(|m|) else Fail(OverLimit)
  {
    hide SizeFrom, BeValue, LeValue, VarintValue, FieldBytes, Power, PackageLength;
    var v := |body| - u.adjustment;
    var field, m := FieldBytes(u, v), Framed(u, before, after, body);
    FieldRead(u, before, after + body, v);
    assert m == before + field + (after + body);
    assert m[u.offset..u.offset + |field|] == field;
    LengthOf(u, u.bodyOffset + |field| - u.bytes, v, |m|);
  }

  lemma LengthOf(u: Setting, headLen: int, v: nat, n: nat)
    requires u.LengthField? && headLen + v + u.adjustment == n < TWO_TO_THE_32
    ensures PackageLength(u, headLen, v) == n
  {
  }

  // ------------------------------------------------------------ packages of length 0

  lemma {:induction false} BeBelow(s: seq<byte>)
    ensures BeValue(s) < Power(256, |s|)
  {
    if s != [] { BeBelow(s[..|s| - 1]); }
  }

  lemma {:induction false} LeBelow(s: seq<byte>)
    ensures LeValue(s) < Power(256, |s|)
  {
    if s != [] { LeBelow(s[1..]); }
  }

  /** The body length that makes the package length wrap around to 0. */
  function Vanishing(u: Setting): (v: nat)
    requires u.LengthField?
    ensures v < TWO_TO_THE_32
  {
    (0 - u.bodyOffset - u.adjustment) % TWO_TO_THE_32
  }

  lemma EndlessStream(u: Setting) returns (s: seq<byte>)
    requires Usable(u) && u.LengthField? && u.coding != Varint && u.bodyOffset <= u.max && Vanishing(u) < Power(256, u.bytes)
    ensures Step(u, s) == Fail(Endless)
  {
    hide Power, BeValue, LeValue, FieldBytes;
    var v := Vanishing(u);
    var zeros: seq<byte> := seq(u.bodyOffset, _ => 0);
    var before, after := zeros[..u.offset], zeros[..u.bodyOffset - u.offset - u.bytes];
    FieldRead(u, before, after, v);
    s := before + FieldBytes(u, v) + after;
    assert s[u.offset..u.offset + u.bytes] == FieldBytes(u, v);
  }

  lemma NotEndless(u: Setting, s: seq<byte>)
    requires Usable(u) && u.LengthField? && u.coding != Varint && u.bodyOffset <= u.max && Vanishing(u) >= Power(256, u.bytes)
    ensures Step(u, s) != Fail(Endless)
  {
    hide Power, BeValue, LeValue;
    if |s| >= u.bodyOffset {
      var field := s[u.offset..u.offset + u.bytes];
      BeBelow(field);
      LeBelow(field);
    }
  }

  /** Six bytes of seven bits each: such a varint has bits to spare beyond the 32 that count. */
  lemma SixBytes(v: nat)
    requires 0x8_0000_0000 <= v < 0x400_0000_0000
    ensures |VarintBytes(v)| == 6
  {
    var v1 := v / 128;
    var v2 := v1 / 128;
    var v3 := v2 / 128;
    var v4 := v3 / 128;
    assert 128 <= v4 < 16384;
    OneMoreByte(v);
    OneMoreByte(v1);
    OneMoreByte(v2);
    OneMoreByte(v3);
    OneMoreByte(v4);
    assert |VarintBytes(v4 / 128)| == 1;
  }

  lemma OneMoreByte(v: nat)
    requires v >= 128
    ensures |VarintBytes(v)| == 1 + |VarintBytes(v / 128)|
  {
  }

  /** So there is always one that makes the package length wrap around to 0. */
  lemma EndlessVarint(u: Setting) returns (s: seq<byte>)
    requires Usable(u) && u.LengthField? && u.coding == Varint && u.bodyOffset <= u.max
    ensures Step(u, s) == Fail(Endless)
  {
    hide SizeFrom, VarintValue, VarintBytes;
    var headLen := u.bodyOffset + 6 - u.bytes;
    var v := 0x8_0000_0000 + (0 - headLen - u.adjustment) % TWO_TO_THE_32;
    SixBytes(v);
    var zeros: seq<byte> := seq(u.bodyOffset, _ => 0);
    VarintRoundTrip(v);
    VarintEndFound([], v, zeros);
    s := zeros[..u.offset] + VarintBytes(v) + zeros;
    assert s[u.offset..] == [] + VarintBytes(v) + zeros;
    assert s[u.offset..u.offset + 6] == VarintBytes(v);
  }

  /** A stream can send the loop of the length field mode round for ever exactly when the head may be read at all and the
      field is a varint, or has room for that body length. */
  lemma EndlessWhen(u: Setting)
    requires Usable(u) && u.LengthField?
    ensures (exists s :: Step(u, s) == Fail(Endless)) <==>
      u.bodyOffset <= u.max && (u.coding == Varint || Vanishing(u) < Power(256, u.bytes))
  {
    hide Power, Vanishing, Delivered, BeValue, LeValue, SizeFrom;
    if u.bodyOffset > u.max {
    } else if u.coding == Varint {
      hide *;
      var s := EndlessVarint(u);
    } else if Vanishing(u) < Power(256, u.bytes) {
      hide *;
      var s := EndlessStream(u);
    } else {
      hide *;
      forall s ensures Step(u, s) != Fail(Endless) { NotEndless(u, s); }
    }
  }

  /** So always with a fixed field of four bytes, and never with fewer when a package without a body still has a byte. */
  lemma EndlessBytes(u: Setting)
    requires u.LengthField?
    ensures u.bytes == 4 ==> Vanishing(u) < Power(256, u.bytes)
    ensures u.bytes < 4 && 1 <= u.bodyOffset + u.adjustment <= 0xFF00_0000 ==> Vanishing(u) >= Power(256, u.bytes)
  {
    assert Power(256, 4) == TWO_TO_THE_32 && Power(256, 3) == 0x100_0000 && Power(256, 2) == 0x1_0000 && Power(256, 1) == 256;
  }
}
