/** Writing and closing an io (nio.c): what the socket does not take is queued and written later, and a close waits for it.
    The functions `After...` say what each call makes of the state of an io; the class does it in place. */
module Nio {

  import opened Bytes
  import opened Collections
  import opened Queue

  /** `offset_buf_t`: the bytes from `offset` on are still to be written. */
  datatype Buf = Buf(bytes: seq<byte>, offset: nat)

  ghost predicate BufOk(b: Buf) { b.offset <= |b.bytes| }

  ghost function Remaining(b: Buf): seq<byte>
    requires BufOk(b)
  {
    b.bytes[b.offset..]
  }

  ghost predicate AllOk(q: seq<Buf>) { forall i | 0 <= i < |q| :: BufOk(q[i]) }

  /** The bytes of a queue of buffers that are still to be written. */
  ghost function Unsent(q: seq<Buf>): seq<byte>
    requires AllOk(q)
  {
    if q == [] then [] else Remaining(q[0]) + Unsent(q[1..])
  }

  lemma {:induction false} UnsentPush(q: seq<Buf>, b: Buf)
    requires AllOk(q) && BufOk(b)
    ensures AllOk(q + [b]) && Unsent(q + [b]) == Unsent(q) + Remaining(b)
  {
    if q == [] {
      assert [b][1..] == [];
    } else {
      UnsentPush(q[1..], b);
      assert (q + [b])[0] == q[0] && (q + [b])[1..] == q[1..] + [b];
      assert Remaining(q[0]) + (Unsent(q[1..]) + Remaining(b)) == Remaining(q[0]) + Unsent(q[1..]) + Remaining(b);
    }
  }

  /** What a write to the socket gives: a number of bytes, which may be 0, EAGAIN or EINTR, or another error. */
  datatype Result = Wrote(n: nat) | Again | Error

  /** The front buffer with `n` bytes more written. */
  function Advance(b: Buf, n: nat): Buf { Buf(b.bytes, b.offset + n) }

  lemma UnsentAdvance(q: seq<Buf>, n: nat)
    requires q != [] && AllOk(q) && n <= |Remaining(q[0])|
    ensures var q' := [Advance(q[0], n)] + q[1..];
      AllOk(q') && Unsent(q) == Remaining(q[0])[..n] + Unsent(q') && Remaining(q'[0]) == Remaining(q[0])[n..]
  {
    var q' := [Advance(q[0], n)] + q[1..];
    assert q'[1..] == q[1..] && q'[0] == Advance(q[0], n);
    hide Unsent;
    forall i | 0 <= i < |q'| ensures BufOk(q'[i]) {
      if i > 0 { assert q'[i] == q[i]; }
    }
    assert Remaining(q[0]) == Remaining(q[0])[..n] + Remaining(q'[0]);
    UnsentCons(q);
    UnsentCons(q');
    assert Remaining(q[0])[..n] + Remaining(q'[0]) + Unsent(q[1..]) == Remaining(q[0])[..n] + (Remaining(q'[0]) + Unsent(q[1..]));
  }

  lemma UnsentCons(q: seq<Buf>)
    requires q != [] && AllOk(q)
    ensures AllOk(q[1..]) && Unsent(q) == Remaining(q[0]) + Unsent(q[1..])
  {
  }

  /** Bytes are conserved: what the socket has taken and what is queued is all there was to send; `size` counts the queued bytes. */
  ghost predicate Balanced(q: seq<Buf>, wire: seq<byte>, taken: seq<byte>, size: int) {
    AllOk(q) && wire + Unsent(q) == taken && size == |Unsent(q)|
  }

  lemma BalancedPush(q: seq<Buf>, wire: seq<byte>, taken: seq<byte>, size: int, bytes: seq<byte>)
    requires Balanced(q, wire, taken, size)
    ensures Balanced(q + [Buf(bytes, 0)], wire, taken + bytes, size + |bytes|)
  {
    UnsentPush(q, Buf(bytes, 0));
    assert wire + (Unsent(q) + bytes) == taken + bytes;
  }

  /** The socket takes `n` bytes of the front buffer. */
  lemma BalancedSend(q: seq<Buf>, wire: seq<byte>, taken: seq<byte>, size: int, n: nat)
    requires q != [] && Balanced(q, wire, taken, size) && BufOk(q[0]) && n <= |Remaining(q[0])|
    ensures n <= size && Balanced([Advance(q[0], n)] + q[1..], wire + Remaining(q[0])[..n], taken, size - n)
  {
    UnsentAdvance(q, n);
    var q' := [Advance(q[0], n)] + q[1..];
    assert wire + (Remaining(q[0])[..n] + Unsent(q')) == wire + Remaining(q[0])[..n] + Unsent(q');
  }

  lemma BalancedPop(q: seq<Buf>, wire: seq<byte>, taken: seq<byte>, size: int)
    requires q != [] && Balanced(q, wire, taken, size) && q[0].offset == |q[0].bytes|
    ensures Balanced(q[1..], wire, taken, size)
  {
    assert Remaining(q[0]) == [];
    assert [] + Unsent(q[1..]) == Unsent(q[1..]);
  }

  /** The socket takes `bytes` at once while nothing is queued. */
  lemma BalancedDirect(wire: seq<byte>, taken: seq<byte>, size: int, bytes: seq<byte>)
    requires Balanced([], wire, taken, size)
    ensures Balanced([], wire + bytes, taken + bytes, size)
  {
    assert wire == taken && wire + bytes + [] == taken + bytes;
  }

  // ------------------------------------------------------------ the state of an io

  datatype Cause = NoError | SocketError | TooLong | TimedOut

  /** `posted` are the ids of the closes posted to the loop. The last four fields are not the program's: the bytes the socket
      has taken; these and those it is still to get; the ids whose close callback has been called; and whether the program
      has gone on with a buffer that was gone. */
  datatype State = State(
    isStream: bool, id: nat, closed: bool, close: bool, error: Cause, closeTimer: bool, watching: bool,
    queue: seq<Buf>, size: int, max: nat, posted: seq<nat>,
    wire: seq<byte>, taken: seq<byte>, closedIds: seq<nat>, aborted: bool)

  const MAX_WRITE_BUFSIZE := 0x100_0000

  /** What a write callback does, and one turn of the loop of nio_write: what the socket gives and what the callback does. */
  datatype Act = Writing(bytes: seq<byte>) | Closing
  datatype Turn = Turn(result: Result, callback: seq<Act>)

  datatype Action =
    | Write(bytes: seq<byte>, result: Result)
    | Writable(turns: seq<Turn>)
    | Close
    | CloseAsync
    | HandlePosted
    | CloseTimeout
    | Reuse(skipped: nat)

  /** The socket takes no more bytes than it is given. */
  function Clip(w: Result, len: nat): (r: Result)
    ensures r.Wrote? ==> r.n <= len
  {
    if w.Wrote? && w.n > len then Wrote(len) else w
  }

  /** `hio_close_async`, and `hio_close` in another thread. */
  ghost function AfterCloseAsync(s: State): State { s.(posted := s.posted + [s.id]) }

  /** A failed write of hio_write: a stream is to be closed. */
  ghost function AfterFailure(s: State): State { if s.isStream then AfterCloseAsync(s) else s }

  /** The rest of a payload goes into the queue, unless that gets too long. */
  ghost function AfterQueueing(s: State, rest: seq<byte>): State {
    if rest == [] then s
    else if s.size + |rest| > s.max then AfterFailure(s.(error := TooLong))
    else s.(queue := s.queue + [Buf(rest, 0)], size := s.size + |rest|, taken := s.taken + rest)
  }

  ghost function Direct(s: State, bytes: seq<byte>): State { s.(wire := s.wire + bytes, taken := s.taken + bytes) }

  /** `hio_write` up to its write callback: the socket is asked first when nothing is queued. */
  ghost function AfterWrite(s: State, bytes: seq<byte>, w: Result): State {
    if s.closed then s
    else if s.queue != [] then AfterQueueing(s, bytes)
    else match Clip(w, |bytes|)
      case Error => AfterFailure(s.(error := SocketError))
      case Again => AfterQueueing(s.(watching := true), bytes)
      case Wrote(n) =>
        if n == 0 then AfterFailure(s)
        else if n == |bytes| then Direct(s, bytes)
        else AfterQueueing(Direct(s, bytes[..n]).(watching := true), bytes[n..])
  }

  predicate Fits(s: State, n: nat) { n == 0 || s.size + n <= s.max }

  /** What it returns: the number of bytes the socket took at once, or -1. */
  function Returned(s: State, bytes: seq<byte>, w: Result): int {
    if s.closed then -1
    else if s.queue != [] then if Fits(s, |bytes|) then 0 else -1
    else match Clip(w, |bytes|)
      case Error => -1
      case Again => if Fits(s, |bytes|) then 0 else -1
      case Wrote(n) => if n > 0 && (n == |bytes| || Fits(s, |bytes| - n)) then n else -1
  }

  lemma NothingAtOnce(s: State, bytes: seq<byte>)
    ensures bytes[..|bytes|] == bytes && bytes[|bytes|..] == [] && bytes[0..] == bytes && Direct(s, bytes[..0]) == s
    ensures s.wire + bytes[..0] == s.wire && s.taken + bytes[..0] == s.taken
  {
    assert s.wire + [] == s.wire && s.taken + [] == s.taken;
  }

  /** `hio_close` in the thread of the loop. With bytes queued and no error, the first close only asks for one later. */
  ghost function AfterClose(s: State): State {
    if s.closed then s
    else if s.queue != [] && s.error == NoError && !s.close then s.(close := true, closeTimer := true)
    else s.(closed := true, queue := [], watching := false, closeTimer := false, closedIds := s.closedIds + [s.id])
  }

  ghost function AfterActs(s: State, acts: seq<Act>): State
    decreases |acts|
  {
    if acts == [] then s
    else AfterActs(if acts[0].Closing? then AfterClose(s) else AfterWrite(s, acts[0].bytes, Again), acts[1..])
  }

  /** The socket takes `n` bytes of the front buffer. */
  ghost function AfterSent(s: State, n: nat): State
    requires s.queue != [] && s.queue[0].offset + n <= |s.queue[0].bytes|
  {
    var b := s.queue[0];
    s.(queue := [Advance(b, n)] + s.queue[1..], size := s.size - n, wire := s.wire + b.bytes[b.offset..b.offset + n])
  }

  /** The state after one turn, and whether the loop goes on. */
  datatype Went = Went(s: State, more: bool)

  ghost function AfterBroken(s: State): Went { Went(if s.isStream then AfterClose(s) else s, false) }

  ghost function AfterTurn(s: State, turn: Turn): Went
    requires s.queue != [] && BufOk(s.queue[0])
  {
    var len := |s.queue[0].bytes| - s.queue[0].offset;
    match Clip(turn.result, len)
    case Error => AfterBroken(s.(error := SocketError))
    case Again => Went(s, false)
    case Wrote(n) =>
      if n == 0 then AfterBroken(s)
      else
        var t := AfterActs(AfterSent(s, n), turn.callback);
        if n < len then Went(t, false)
        else if t.queue == [] then Went(t.(aborted := true), false)
        else Went(t.(queue := t.queue[1..]), !t.closed)
  }

  /** `nio_write`; a turn that is not given is one in which the socket takes nothing. */
  ghost function AfterNioWrite(s: State, turns: seq<Turn>): State
    requires AllOk(s.queue)
    decreases |turns|
  {
    if s.queue == [] then if s.close then AfterClose(s.(close := false)) else s
    else if turns == [] then s
    else
      var w := AfterTurn(s, turns[0]);
      if w.more && AllOk(w.s.queue) then AfterNioWrite(w.s, turns[1..]) else w.s
  }

  /** How many turns it takes. */
  ghost function Used(s: State, turns: seq<Turn>): (k: nat)
    requires AllOk(s.queue)
    ensures k <= |turns|
    decreases |turns|
  {
    if s.queue == [] || turns == [] then 0
    else
      var w := AfterTurn(s, turns[0]);
      if w.more && AllOk(w.s.queue) then 1 + Used(w.s, turns[1..]) else 1
  }

  /** The write half of hio_handle_events. */
  ghost function AfterWritable(s: State, turns: seq<Turn>): State
    requires AllOk(s.queue)
  {
    if s.closed || !s.watching then s else AfterNioWrite(if s.queue == [] then s.(watching := false) else s, turns)
  }

  /** `hio_close_event_cb`: a close posted for an earlier use of the io is ignored. */
  ghost function AfterPosted(s: State): State {
    if s.posted == [] then s
    else
      var t := s.(posted := s.posted[1..]);
      if s.posted[0] != s.id then t else AfterClose(t)
  }

  /** `__close_timeout_cb`. */
  ghost function AfterTimeout(s: State): State { if s.closeTimer then AfterClose(s.(error := TimedOut)) else s }

  /** `hio_ready` when the file descriptor is used again; other ios have got `skipped` ids meanwhile. */
  ghost function AfterReuse(s: State, skipped: nat): State {
    if !s.closed then s
    else State(s.isStream, s.id + 1 + skipped, false, false, NoError, false, false, s.queue, 0, MAX_WRITE_BUFSIZE, s.posted, [], [], s.closedIds, false)
  }

  ghost function After(s: State, a: Action): State
    requires AllOk(s.queue)
  {
    if s.aborted then s
    else match a
      case Write(bytes, w) => AfterWrite(s, bytes, w)
      case Writable(turns) => AfterWritable(s, turns)
      case Close => AfterClose(s)
      case CloseAsync => AfterCloseAsync(s)
      case HandlePosted => AfterPosted(s)
      case CloseTimeout => AfterTimeout(s)
      case Reuse(skipped) => AfterReuse(s, skipped)
  }

  // ------------------------------------------------------------ what every call keeps

  /** A closed io has no queue, and each id was closed once. */
  ghost predicate Ids(s: State) {
    NoDup(s.closedIds) && (forall i | i in s.closedIds :: i <= s.id) && (s.closed <==> s.id in s.closedIds) && (s.aborted ==> s.closed)
  }

  /** The buffers from `k` on have bytes left. */
  ghost predicate Settled(q: seq<Buf>, k: nat) { forall i | k <= i < |q| :: q[i].offset < |q[i].bytes| }

  /** An open io: bytes are conserved, the queued ones counted and watched for, and a close that waits is timed. In a
      write callback (`k` is 1) there is a front buffer, which may be used up. */
  ghost predicate Opened(s: State, k: nat) {
    && Balanced(s.queue, s.wire, s.taken, s.size) && Settled(s.queue, k) && (k > 0 ==> s.queue != [])
    && (s.queue != [] ==> s.watching) && (s.close <==> s.closeTimer)
  }

  ghost predicate Kept(s: State, k: nat) {
    Ids(s) && if s.closed then s.queue == [] && !s.watching && !s.closeTimer && s.wire <= s.taken else Opened(s, k)
  }

  /** Between two calls a close waits only for queued bytes. */
  ghost predicate Good(s: State) { Kept(s, 0) && (s.close && !s.closed ==> s.queue != []) }

  lemma QueueingKeeps(s: State, rest: seq<byte>, k: nat)
    requires Ids(s) && !s.closed && Balanced(s.queue, s.wire, s.taken, s.size) && Settled(s.queue, k) && (k > 0 ==> s.queue != [])
    requires s.watching && (s.close <==> s.closeTimer)
    ensures Kept(AfterQueueing(s, rest), k) && s.queue <= AfterQueueing(s, rest).queue
  {
    if rest != [] && s.size + |rest| <= s.max {
      BalancedPush(s.queue, s.wire, s.taken, s.size, rest);
    }
  }

  lemma WriteKeeps(s: State, bytes: seq<byte>, w: Result, k: nat)
    requires Kept(s, k)
    ensures Kept(AfterWrite(s, bytes, w), k) && s.queue <= AfterWrite(s, bytes, w).queue
  {
    if !s.closed {
      if s.queue != [] {
        QueueingKeeps(s, bytes, k);
      } else {
        match Clip(w, |bytes|)
        case Error =>
        case Again => QueueingKeeps(s.(watching := true), bytes, k);
        case Wrote(n) =>
          BalancedDirect(s.wire, s.taken, s.size, bytes[..n]);
          if 0 < n < |bytes| { QueueingKeeps(Direct(s, bytes[..n]).(watching := true), bytes[n..], k); }
          assert n == |bytes| ==> bytes[..n] == bytes;
      }
    }
  }

  /** A close with bytes queued keeps them exactly when it is the first and there has been no error. */
  lemma CloseKeeps(s: State, k: nat)
    requires Kept(s, k)
    ensures Kept(AfterClose(s), k)
    ensures !s.closed && s.queue != [] ==> (AfterClose(s).queue == s.queue <==> !s.close && s.error == NoError)
    ensures AfterClose(s).closed <==> s.closed || s.queue == [] || s.error != NoError || s.close
  {
    hide Unsent;
  }

  // ------------------------------------------------------------ the write callback

  /** Whether what a callback does takes the queue away: a close while one waits, or with an error, does. */
  predicate Forces(close: bool, error: bool, size: int, max: nat, acts: seq<Act>)
    decreases |acts|
  {
    acts != [] &&
    match acts[0]
    case Closing => close || error || Forces(true, error, size, max, acts[1..])
    case Writing(bytes) =>
      if bytes != [] && size + |bytes| > max then Forces(close, true, size, max, acts[1..])
      else Forces(close, error, size + |bytes|, max, acts[1..])
  }

  lemma {:induction false} ActsOnClosed(s: State, acts: seq<Act>)
    requires s.closed
    ensures AfterActs(s, acts) == s
    decreases |acts|
  {
    if acts != [] { ActsOnClosed(s, acts[1..]); }
  }

  /** What the fields that a callback leaves alone are, and what it may do to the others. */
  ghost predicate Beside(s: State, t: State) {
    && t.id == s.id && t.isStream == s.isStream && t.max == s.max && t.wire == s.wire && t.aborted == s.aborted
    && s.taken <= t.taken && (s.close ==> t.close) && (s.error != NoError ==> t.error != NoError)
    && (if t.closed then t.closedIds == s.closedIds + [s.id] else t.closedIds == s.closedIds && s.queue <= t.queue)
  }

  ghost function AfterAct(s: State, act: Act): State {
    if act.Closing? then AfterClose(s) else AfterWrite(s, act.bytes, Again)
  }

  lemma ActKeeps(s: State, act: Act)
    requires Kept(s, 1) && !s.closed
    ensures var t := AfterAct(s, act);
      && Kept(t, 1) && Beside(s, t) && (t.closed <==> act.Closing? && (s.close || s.error != NoError))
      && (!t.closed && act.Closing? ==> t.close && t.error == s.error && t.size == s.size)
      && (act.Writing? ==> t.close == s.close)
      && (act.Writing? && act.bytes != [] && s.size + |act.bytes| > s.max ==> t.error != NoError && t.size == s.size)
      && (act.Writing? && !(act.bytes != [] && s.size + |act.bytes| > s.max) ==> t.error == s.error && t.size == s.size + |act.bytes|)
  {
    hide Balanced, Ids;
    if act.Closing? { CloseKeeps(s, 1); } else { WriteKeeps(s, act.bytes, Again, 1); }
  }

  lemma BesideOn(s: State, t: State, u: State)
    requires Beside(s, t) && !t.closed && Beside(t, u)
    ensures Beside(s, u)
  {
  }

  lemma {:induction false} ActsKeep(s: State, acts: seq<Act>)
    requires Kept(s, 1) && !s.closed
    ensures Kept(AfterActs(s, acts), 1) && Beside(s, AfterActs(s, acts))
    ensures AfterActs(s, acts).closed <==> Forces(s.close, s.error != NoError, s.size, s.max, acts)
    decreases |acts|
  {
    if acts == [] {
    } else {
      var t := AfterAct(s, acts[0]);
      ActKeeps(s, acts[0]);
      assert AfterActs(s, acts) == AfterActs(t, acts[1..]);
      assert t.max == s.max;
      hide Kept, Beside, AfterAct, AfterActs;
      if t.closed {
        ActsOnClosed(t, acts[1..]);
      } else {
        ActsKeep(t, acts[1..]);
        BesideOn(s, t, AfterActs(t, acts[1..]));
      }
    }
  }

  /** Callbacks that close nothing take nothing away. */
  lemma {:induction false} ForcesCloses(close: bool, error: bool, size: int, max: nat, acts: seq<Act>)
    requires Closing !in acts
    ensures !Forces(close, error, size, max, acts)
    decreases |acts|
  {
    if acts != [] {
      assert acts[0] in acts;
      forall a | a in acts[1..] ensures a != Closing { assert a in acts; }
      ForcesCloses(close, true, size, max, acts[1..]);
      ForcesCloses(close, error, size + |acts[0].bytes|, max, acts[1..]);
    }
  }

  lemma SentKeeps(s: State, n: nat)
    requires Kept(s, 0) && !s.closed && s.queue != [] && s.queue[0].offset + n <= |s.queue[0].bytes|
    ensures var t := AfterSent(s, n);
      Kept(t, 1) && |t.queue| == |s.queue| && t.queue[0].offset == s.queue[0].offset + n && t.queue[0].bytes == s.queue[0].bytes
  {
    hide Balanced, NoDup;
    BalancedSend(s.queue, s.wire, s.taken, s.size, n);
    var b := s.queue[0];
    assert Remaining(b)[..n] == b.bytes[b.offset..b.offset + n];
  }

  /** The front buffer, used up, is taken off. */
  lemma PopKeeps(s: State)
    requires Kept(s, 1) && !s.closed && s.queue[0].offset == |s.queue[0].bytes|
    ensures Kept(s.(queue := s.queue[1..]), 0)
  {
    BalancedPop(s.queue, s.wire, s.taken, s.size);
  }

  /** The turn sends the front buffer to its end, and its callback takes the queue away. */
  ghost predicate Loses(s: State, turn: Turn)
    requires s.queue != [] && BufOk(s.queue[0])
  {
    var len := |s.queue[0].bytes| - s.queue[0].offset;
    turn.result.Wrote? && turn.result.n >= len > 0 && Forces(s.close, s.error != NoError, s.size - len, s.max, turn.callback)
  }

  /** A turn fails, or its callback closes. */
  predicate Breaks(isStream: bool, turn: Turn) {
    (isStream && (turn.result == Error || turn.result == Wrote(0))) || Closing in turn.callback
  }

  /** What a turn makes of an open io. */
  ghost predicate Turned(s: State, w: Went, breaks: bool) {
    && Kept(w.s, 0) && (w.more ==> !w.s.closed)
    && w.s.id == s.id && w.s.isStream == s.isStream && s.wire <= w.s.wire && s.taken <= w.s.taken && (s.close ==> w.s.close)
    && w.s.closedIds == (if w.s.closed then s.closedIds + [s.id] else s.closedIds)
    && (!w.more && !w.s.closed ==> w.s.queue != [])
    && (s.close && w.s.closed ==> breaks)
  }

  lemma BrokenTurn(s: State, e: Cause)
    requires Kept(s, 0) && !s.closed && s.queue != []
    ensures var w := AfterBroken(s.(error := e)); Turned(s, w, s.isStream) && w.s.aborted == s.aborted
  {
    hide Balanced;
    CloseKeeps(s.(error := e), 0);
  }

  lemma WrittenTurn(s: State, n: nat, acts: seq<Act>)
    requires Kept(s, 0) && !s.closed && s.queue != [] && s.queue[0].offset + n <= |s.queue[0].bytes| && n > 0
    ensures var b, t := s.queue[0], AfterActs(AfterSent(s, n), acts);
      var w := if b.offset + n < |b.bytes| then Went(t, false)
               else if t.queue == [] then Went(t.(aborted := true), false)
               else Went(t.(queue := t.queue[1..]), !t.closed);
      && Turned(s, w, Closing in acts)
      && (w.s.aborted <==> b.offset + n == |b.bytes| && Forces(s.close, s.error != NoError, s.size - n, s.max, acts))
  {
    hide Balanced, AfterActs, Forces, NoDup;
    SentKeeps(s, n);
    var t := AfterSent(s, n);
    ActsKeep(t, acts);
    if Closing !in acts { ForcesCloses(t.close, t.error != NoError, t.size, t.max, acts); }
    var r := AfterActs(t, acts);
    if !r.closed && r.queue[0].offset == |r.queue[0].bytes| { PopKeeps(r); }
  }

  /** One turn. The program goes on with a buffer that is gone exactly when the turn loses it. */
  lemma TurnKeeps(s: State, turn: Turn)
    requires Kept(s, 0) && !s.closed && s.queue != [] && BufOk(s.queue[0])
    ensures Turned(s, AfterTurn(s, turn), Breaks(s.isStream, turn)) && (AfterTurn(s, turn).s.aborted <==> Loses(s, turn))
  {
    var len := |s.queue[0].bytes| - s.queue[0].offset;
    assert len > 0 && !s.aborted;
    match Clip(turn.result, len)
    case Error => BrokenTurn(s, SocketError);
    case Again =>
    case Wrote(n) =>
      hide AfterActs, Forces, Kept, AfterSent;
      if n == 0 { BrokenTurn(s, s.error); } else { WrittenTurn(s, n, turn.callback); }
  }

  // ------------------------------------------------------------ every call, every run

  /** Some of the first `k` turns breaks. */
  predicate AnyBreaks(isStream: bool, turns: seq<Turn>, k: nat)
    requires k <= |turns|
  {
    exists i | 0 <= i < k :: Breaks(isStream, turns[i])
  }

  predicate AnyCloses(turns: seq<Turn>, k: nat)
    requires k <= |turns|
  {
    exists i | 0 <= i < k :: Closing in turns[i].callback
  }

  /** What any number of turns makes of an open io. */
  ghost predicate WrittenOut(s: State, t: State, turns: seq<Turn>, k: nat)
    requires k <= |turns|
  {
    && Good(t) && t.id == s.id && t.isStream == s.isStream && s.wire <= t.wire && s.taken <= t.taken
    && t.closedIds == (if t.closed then s.closedIds + [s.id] else s.closedIds)
    && (s.close ==> t.close || t.closed)
    && (s.close && t.closed ==> t.wire == t.taken || AnyBreaks(s.isStream, turns, k))
    && (t.aborted ==> AnyCloses(turns, k))
  }

  lemma {:induction false} NioWriteKeeps(s: State, turns: seq<Turn>)
    requires Kept(s, 0) && !s.closed && AllOk(s.queue)
    ensures WrittenOut(s, AfterNioWrite(s, turns), turns, Used(s, turns))
    decreases |turns|
  {
    if s.queue == [] {
      hide NoDup;
      assert s.wire + [] == s.wire;
    } else if turns == [] {
    } else {
      TurnKeeps(s, turns[0]);
      var w := AfterTurn(s, turns[0]);
      LoserCloses(s, turns[0]);
      hide AfterTurn, Turned, Kept, Loses;
      if w.more {
        Balance(s, w, Breaks(s.isStream, turns[0]));
        NioWriteKeeps(w.s, turns[1..]);
        Later(s, w, AfterNioWrite(w.s, turns[1..]), turns, Used(w.s, turns[1..]));
      } else {
        OneTurn(s, w, turns);
      }
    }
  }

  lemma LoserCloses(s: State, turn: Turn)
    requires s.queue != [] && BufOk(s.queue[0])
    ensures Loses(s, turn) ==> Closing in turn.callback
  {
    var len := |s.queue[0].bytes| - s.queue[0].offset;
    if Closing !in turn.callback { ForcesCloses(s.close, s.error != NoError, s.size - len, s.max, turn.callback); }
  }

  lemma Balance(s: State, w: Went, breaks: bool)
    requires Turned(s, w, breaks) && w.more
    ensures Kept(w.s, 0) && !w.s.closed && AllOk(w.s.queue)
  {
  }

  lemma Later(s: State, w: Went, t: State, turns: seq<Turn>, k: nat)
    requires turns != [] && k < |turns| && Turned(s, w, Breaks(s.isStream, turns[0])) && w.more && WrittenOut(w.s, t, turns[1..], k)
    ensures WrittenOut(s, t, turns, k + 1)
  {
    hide Good, Kept, Breaks;
    if AnyBreaks(w.s.isStream, turns[1..], k) {
      var i :| 0 <= i < k && Breaks(w.s.isStream, turns[1..][i]);
      assert Breaks(s.isStream, turns[i + 1]);
    }
    if AnyCloses(turns[1..], k) {
      var i :| 0 <= i < k && Closing in turns[1..][i].callback;
      assert Closing in turns[i + 1].callback;
    }
  }

  lemma OneTurn(s: State, w: Went, turns: seq<Turn>)
    requires turns != [] && Turned(s, w, Breaks(s.isStream, turns[0])) && !w.more && (w.s.aborted ==> Closing in turns[0].callback)
    ensures WrittenOut(s, w.s, turns, 1)
  {
    hide Kept, Breaks;
    assert Breaks(s.isStream, turns[0]) ==> AnyBreaks(s.isStream, turns, 1);
    assert Closing in turns[0].callback ==> AnyCloses(turns, 1);
  }

  lemma GoodQueue(s: State)
    requires Good(s)
    ensures AllOk(s.queue)
  {
  }

  /** What every call keeps. */
  ghost predicate Moved(s: State, t: State) {
    Good(t) && s.closedIds <= t.closedIds && s.id <= t.id && t.isStream == s.isStream
  }

  lemma WriteMoves(s: State, bytes: seq<byte>, w: Result)
    requires Good(s)
    ensures Moved(s, AfterWrite(s, bytes, w)) && AfterWrite(s, bytes, w).closed == s.closed
  {
    hide Balanced, NoDup;
    WriteKeeps(s, bytes, w, 0);
  }

  lemma WritableMoves(s: State, turns: seq<Turn>)
    requires Good(s) && AllOk(s.queue)
    ensures Moved(s, AfterWritable(s, turns))
    ensures !s.closed && s.watching && s.queue != [] ==> WrittenOut(s, AfterWritable(s, turns), turns, Used(s, turns))
  {
    hide Balanced, NoDup, AfterNioWrite, Used;
    if !s.closed && s.watching { NioWriteKeeps(if s.queue == [] then s.(watching := false) else s, turns); }
  }

  lemma CloseMoves(s: State)
    requires Good(s)
    ensures Moved(s, AfterClose(s)) && Moved(s, AfterCloseAsync(s)) && Moved(s, AfterPosted(s)) && Moved(s, AfterTimeout(s))
  {
    hide Balanced, NoDup;
    CloseKeeps(s, 0);
    CloseKeeps(s.(error := TimedOut), 0);
    if s.posted != [] { CloseKeeps(s.(posted := s.posted[1..]), 0); }
  }

  lemma ReuseMoves(s: State, skipped: nat)
    requires Good(s)
    ensures Moved(s, AfterReuse(s, skipped))
  {
    assert s.closed ==> s.queue == [];
  }

  /** Every call keeps what is good: bytes are conserved and nobody's close callback is called twice. */
  lemma AfterKeeps(s: State, a: Action)
    requires Good(s) && AllOk(s.queue)
    ensures Moved(s, After(s, a))
  {
    assert Moved(s, s);
    hide Moved, Good, AfterWrite, AfterWritable, AfterClose, AfterPosted, AfterTimeout, AfterReuse, AfterCloseAsync;
    match a
    case Write(bytes, w) => WriteMoves(s, bytes, w);
    case Writable(turns) => WritableMoves(s, turns);
    case Reuse(skipped) => ReuseMoves(s, skipped);
    case _ => CloseMoves(s);
  }

  ghost function AfterAll(s: State, actions: seq<Action>): State
    requires Good(s)
    decreases |actions|
  {
    GoodQueue(s);
    if actions == [] then s else AfterKeeps(s, actions[0]); AfterAll(After(s, actions[0]), actions[1..])
  }

  /** Any run: what the socket has taken comes first of what it is to get, in order, and the rest is queued and counted; no
      id is closed twice; and a close waits only while bytes are queued. */
  lemma {:induction false} RunKeeps(s: State, actions: seq<Action>)
    requires Good(s)
    ensures var t := AfterAll(s, actions);
      && Good(t) && NoDup(t.closedIds) && t.wire <= t.taken && s.closedIds <= t.closedIds
      && (!t.closed ==> AllOk(t.queue) && t.wire + Unsent(t.queue) == t.taken && t.size == |t.taken| - |t.wire|)
      && (!t.closed && t.close ==> t.wire != t.taken)
    decreases |actions|
  {
    if actions == [] {
      GoodFacts(s);
    } else {
      GoodQueue(s);
      AfterKeeps(s, actions[0]);
      hide Good;
      RunKeeps(After(s, actions[0]), actions[1..]);
    }
  }

  lemma GoodFacts(s: State)
    requires Good(s)
    ensures NoDup(s.closedIds) && s.wire <= s.taken
    ensures !s.closed ==> AllOk(s.queue) && s.wire + Unsent(s.queue) == s.taken && s.size == |s.taken| - |s.wire|
    ensures !s.closed && s.close ==> s.wire != s.taken
  {
    if !s.closed && s.queue != [] { assert Remaining(s.queue[0]) != []; }
  }

  // ------------------------------------------------------------ a close that waits

  /** The calls that may carry out a close that waits: another close, its timeout, or a write to the socket that sends the
      last byte, fails, or has a callback that closes. */
  ghost predicate Completes(s: State, a: Action, t: State)
    requires AllOk(s.queue)
  {
    match a
    case Close => true
    case HandlePosted => s.posted != [] && s.posted[0] == s.id
    case CloseTimeout => true
    case Writable(turns) => t.wire == t.taken || AnyBreaks(s.isStream, turns, Used(s, turns))
    case _ => false
  }

  lemma DeferredClose(s: State, a: Action)
    requires Good(s) && AllOk(s.queue) && s.close && !s.closed
    ensures After(s, a).closed ==> Completes(s, a, After(s, a))
    ensures !a.Writable? && Completes(s, a, After(s, a)) ==> After(s, a).closed
    ensures !After(s, a).closed ==> After(s, a).close && !After(s, a).aborted
    ensures s.taken <= After(s, a).taken && s.wire <= After(s, a).wire
  {
    AfterKeeps(s, a);
    match a
    case Write(bytes, w) => hide Balanced, NoDup;
    case Writable(turns) =>
      hide Balanced, NoDup, AfterNioWrite, Used;
      WritableMoves(s, turns);
    case _ => hide Balanced, NoDup;
  }

  /** The io is left alone but for writing: nobody closes it again, nothing fails, and its callbacks close nothing. */
  predicate Peaceful(isStream: bool, a: Action) {
    match a
    case Write(_, _) => true
    case CloseAsync => true
    case Writable(turns) => forall turn | turn in turns :: !Breaks(isStream, turn)
    case _ => false
  }

  lemma {:induction false} ClosedStays(s: State, actions: seq<Action>)
    requires Good(s) && s.closed && forall a | a in actions :: Peaceful(s.isStream, a)
    ensures var t := AfterAll(s, actions); t.closed && t.wire == s.wire && t.taken == s.taken
    decreases |actions|
  {
    if actions != [] {
      assert actions[0] in actions;
      GoodQueue(s);
      AfterKeeps(s, actions[0]);
      var t := After(s, actions[0]);
      forall b | b in actions[1..] ensures Peaceful(t.isStream, b) { assert b in actions; }
      hide Good;
      ClosedStays(t, actions[1..]);
    }
  }

  /** A close that waits, left alone, closes the io only when every byte accepted before and after it is sent. */
  lemma {:induction false} GracefulClose(s: State, actions: seq<Action>)
    requires Good(s) && s.close && !s.closed && forall a | a in actions :: Peaceful(s.isStream, a)
    ensures var t := AfterAll(s, actions);
      s.taken <= t.taken && if t.closed then t.wire == t.taken else t.close && t.wire < t.taken
    decreases |actions|
  {
    if actions == [] {
      RunKeeps(s, []);
    } else {
      var a := actions[0];
      assert a in actions;
      GoodQueue(s);
      AfterKeeps(s, a);
      DeferredClose(s, a);
      var t := After(s, a);
      assert t.closed ==> t.wire == t.taken;
      hide After, Good, Completes;
      forall b | b in actions[1..] ensures Peaceful(t.isStream, b) { assert b in actions; }
      if t.closed {
        ClosedStays(t, actions[1..]);
      } else {
        GracefulClose(t, actions[1..]);
      }
    }
  }

  // ------------------------------------------------------------ a close in a write callback

  /** With one turn, the program goes on with a buffer that is gone exactly when the turn sends the front buffer to its end
      and its callback closes an io with a close waiting or an error, be it one of its own. */
  lemma AbortsWhen(s: State, turn: Turn)
    requires Good(s) && AllOk(s.queue) && !s.closed && s.queue != []
    ensures After(s, Writable([turn])).aborted <==> Loses(s, turn)
  {
    TurnKeeps(s, turn);
    var w := AfterTurn(s, turn);
    hide AfterTurn, Loses;
    assert [turn][1..] == [];
    if w.more {
      Balance(w.s, w, Breaks(s.isStream, turn));
      assert AfterNioWrite(s, [turn]) == AfterNioWrite(w.s, []);
    }
  }

  function Opening(isStream: bool, id: nat, max: nat): State {
    State(isStream, id, false, false, NoError, false, false, [], 0, max, [], [], [], [], false)
  }

  /** It happens: a byte is queued, the io is closed, and the callback of the write that sends the byte closes it again. */
  lemma ClosedAgain()
    ensures Good(Opening(true, 1, 10))
    ensures AfterAll(Opening(true, 1, 10), [Write([7], Again), Close, Writable([Turn(Wrote(1), [Closing])])]).aborted
  {
    var s0, s1, s2 := Opening(true, 1, 10), After(Opening(true, 1, 10), Write([7], Again)), After(After(Opening(true, 1, 10), Write([7], Again)), Close);
    var turn := Turn(Wrote(1), [Closing]);
    assert Good(s0);
    AfterKeeps(s0, Write([7], Again));
    AfterKeeps(s1, Close);
    assert s2.close && !s2.closed && s2.queue == [Buf([7], 0)] && s2.error == NoError;
    GoodQueue(s2);
    AbortsWhen(s2, turn);
    assert Forces(true, false, s2.size - 1, s2.max, turn.callback);
    var actions := [Write([7], Again), Close, Writable([turn])];
    assert actions[1..][1..] == [Writable([turn])] && actions[1..][0] == Close && [Writable([turn])][1..] == [];
    AfterKeeps(s2, Writable([turn]));
    hide After, Good;
    assert AfterAll(s0, actions) == AfterAll(s1, actions[1..]) == AfterAll(s2, [Writable([turn])]) == AfterAll(After(s2, Writable([turn])), []);
  }

  /** The write callbacks of `a` do not close the io. */
  ghost predicate ClosesNothing(a: Action) {
    a.Writable? ==> forall turn | turn in a.turns :: Closing !in turn.callback
  }

  /** It does not happen when no write callback closes the io. */
  lemma {:induction false} NothingLost(s: State, actions: seq<Action>)
    requires Good(s) && !s.aborted
    requires forall a | a in actions :: ClosesNothing(a)
    ensures !AfterAll(s, actions).aborted
    decreases |actions|
  {
    if actions != [] {
      var a := actions[0];
      assert a in actions;
      GoodQueue(s);
      AfterKeeps(s, a);
      StillThere(s, a);
      hide Good, After;
      NothingLost(After(s, a), actions[1..]);
    }
  }

  lemma StillThere(s: State, a: Action)
    requires Good(s) && AllOk(s.queue) && !s.aborted
    requires a.Writable? ==> forall turn | turn in a.turns :: Closing !in turn.callback
    ensures !After(s, a).aborted
  {
    if a.Writable? && !s.closed && s.watching {
      hide Balanced, NoDup, AfterNioWrite, Used;
      NioWriteKeeps(if s.queue == [] then s.(watching := false) else s, a.turns);
    }
  }

  // ------------------------------------------------------------ the calls, by the fields of the io

  /** hio_write of `bytes`, when the socket, if it is asked, answers `w`: `s` has become `t`, and `r` is returned. It does not
      fail exactly when the io is open, the socket was not asked, is not ready or takes some bytes, and the rest fits into the
      queue. Then it returns the number of bytes taken, and the rest is queued, counted and watched for. */
  ghost predicate Written(s: State, t: State, bytes: seq<byte>, w: Result, r: int) {
    var asked := !s.closed && s.queue == [];
    var n := if asked && w.Wrote? then Min(w.n, |bytes|) else 0;
    && (r >= 0 <==> !s.closed && (!asked || w == Again || n > 0) && (n == |bytes| || s.size + |bytes| - n <= s.max))
    && (r >= 0 ==>
          && r == n && t.queue == s.queue + (if n < |bytes| then [Buf(bytes[n..], 0)] else []) && t.size == s.size + |bytes| - n
          && t.wire == s.wire + bytes[..n] && t.taken == s.taken + bytes && t.error == s.error && t.posted == s.posted
          && (asked && n < |bytes| ==> t.watching))
    && (r < 0 ==>
          && r == -1 && t.queue == s.queue && t.size == s.size && t.wire == s.wire + bytes[..n] && t.taken == s.taken + bytes[..n]
          && t.posted == (if s.isStream && !s.closed then s.posted + [s.id] else s.posted)
          && t.error == if s.closed || (asked && w.Wrote? && n == 0) then s.error else if asked && w == Error then SocketError else TooLong)
    && t.closed == s.closed && t.close == s.close && t.closeTimer == s.closeTimer && t.id == s.id && t.isStream == s.isStream && t.max == s.max
    && (t.watching <==> s.watching || (asked && (w == Again || 0 < n < |bytes|)))
  }

  lemma WriteExactly(s: State, bytes: seq<byte>, w: Result)
    ensures Written(s, AfterWrite(s, bytes, w), bytes, w, Returned(s, bytes, w))
  {
    NothingAtOnce(s, bytes);
    if !s.closed && s.queue == [] && Clip(w, |bytes|).Wrote? {
      TakenExactly(s, bytes, w);
    } else {
      assert s.queue + [] == s.queue;
    }
  }

  /** `n` bytes went out at once, and the rest is queued when there is room for it. */
  ghost predicate Accepts(s: State, t: State, bytes: seq<byte>, n: nat, ok: bool) {
    && n <= |bytes| && t.wire == s.wire + bytes[..n] && t.taken == s.taken + (if ok then bytes else bytes[..n])
    && (ok ==> t.error == s.error && t.posted == s.posted)
    && (!ok ==> t.queue == s.queue && t.posted == if s.closed || !s.isStream then s.posted else s.posted + [s.id])
  }

  /** So when hio_write does not fail, all the bytes will be sent and those it counts have been; when it fails, only what the
      socket took at once is, nothing more is queued, and a stream is going to be closed. */
  lemma WriteAccepts(s: State, bytes: seq<byte>, w: Result) returns (n: nat)
    ensures var r := Returned(s, bytes, w); Accepts(s, AfterWrite(s, bytes, w), bytes, n, r >= 0) && (r >= 0 ==> n == r)
  {
    WriteExactly(s, bytes, w);
    hide AfterWrite, Returned;
    n := if !s.closed && s.queue == [] && w.Wrote? then Min(w.n, |bytes|) else 0;
  }

  /** The socket is asked and takes some bytes. */
  lemma TakenExactly(s: State, bytes: seq<byte>, w: Result)
    requires !s.closed && s.queue == [] && w.Wrote?
    ensures Written(s, AfterWrite(s, bytes, w), bytes, w, Returned(s, bytes, w))
  {
    var n := Min(w.n, |bytes|);
    assert bytes[..n] + bytes[n..] == bytes;
    assert s.taken + bytes[..n] + bytes[n..] == s.taken + bytes;
    if n == 0 {
      assert bytes[..0] == [] && s.wire + [] == s.wire && s.taken + [] == s.taken;
    } else if n == |bytes| {
      assert bytes[..n] == bytes;
    }
  }

  /** How many bytes of the front buffer the socket takes. */
  function Taken(result: Result, len: nat): nat { if result.Wrote? then Min(result.n, len) else 0 }

  /** One turn of nio_write, with a callback that does nothing: `s`, with the front buffer `b`, has become `t`. */
  ghost predicate TurnedOnce(s: State, t: State, b: Buf, result: Result)
    requires s.queue != [] && BufOk(b)
  {
    var n := Taken(result, |b.bytes| - b.offset);
    && t.taken == s.taken && t.id == s.id && t.posted == s.posted && t.max == s.max
    && if result == Again then t == s
       else if n == 0 then
         && t.wire == s.wire && t.error == (if result == Error then SocketError else s.error)
         && (t.closed <==> s.isStream && (s.close || t.error != NoError)) && (!t.closed ==> t.queue == s.queue && t.close == (s.close || s.isStream))
       else
         && t.wire == s.wire + b.bytes[b.offset..b.offset + n] && t.error == s.error && t.size == s.size - n
         && t.queue == (if b.offset + n < |b.bytes| then [Buf(b.bytes, b.offset + n)] else []) + s.queue[1..]
         && (t.closed <==> s.close && t.queue == []) && (!t.closed ==> t.close == s.close)
  }

  /** nio_write with one turn to go. */
  lemma OnlyTurn(s: State, turn: Turn)
    requires Good(s) && AllOk(s.queue) && !s.closed && s.queue != []
    ensures var w, t := AfterTurn(s, turn), After(s, Writable([turn]));
      t == if w.more && w.s.queue == [] && w.s.close then AfterClose(w.s.(close := false)) else w.s
  {
    TurnKeeps(s, turn);
    var w := AfterTurn(s, turn);
    hide AfterTurn, AfterClose;
    assert [turn][1..] == [];
    if w.more {
      Balance(s, w, Breaks(s.isStream, turn));
      assert AfterNioWrite(s, [turn]) == AfterNioWrite(w.s, []);
    }
  }

  lemma TurnExactly(s: State, result: Result)
    requires Good(s) && AllOk(s.queue) && !s.closed && s.queue != []
    ensures TurnedOnce(s, After(s, Writable([Turn(result, [])])), s.queue[0], result)
  {
    var turn, t := Turn(result, []), After(s, Writable([Turn(result, [])]));
    OnlyTurn(s, turn);
    assert s.queue[0].offset < |s.queue[0].bytes|;
    hide Good, After;
    if Taken(result, |s.queue[0].bytes| - s.queue[0].offset) == 0 {
      TurnFails(s, turn);
    } else {
      TurnSends(s, turn);
    }
  }

  lemma TurnFails(s: State, turn: Turn)
    requires AllOk(s.queue) && !s.closed && s.queue != [] && turn.callback == []
    requires s.queue[0].offset < |s.queue[0].bytes| && Taken(turn.result, |s.queue[0].bytes| - s.queue[0].offset) == 0
    ensures !AfterTurn(s, turn).more && TurnedOnce(s, AfterTurn(s, turn).s, s.queue[0], turn.result)
  {
    hide AfterActs, AfterSent, AllOk;
    if turn.result == Again {
      hide AfterClose;
    } else if !s.isStream {
      hide AfterClose;
    }
  }

  lemma TurnCases(s: State, turn: Turn, u: State, n: nat)
    requires s.queue != [] && BufOk(s.queue[0]) && turn.callback == [] && n == Taken(turn.result, |s.queue[0].bytes| - s.queue[0].offset) > 0
    requires u == AfterSent(s, n) && !u.closed && u.queue != []
    ensures AfterTurn(s, turn) == if n < |s.queue[0].bytes| - s.queue[0].offset then Went(u, false) else Went(u.(queue := u.queue[1..]), true)
  {
    hide AfterSent, AfterClose, AfterWrite;
  }

  lemma TurnSends(s: State, turn: Turn)
    requires AllOk(s.queue) && !s.closed && s.queue != [] && turn.callback == []
    requires s.queue[0].offset < |s.queue[0].bytes| && Taken(turn.result, |s.queue[0].bytes| - s.queue[0].offset) > 0
    ensures var w := AfterTurn(s, turn);
      TurnedOnce(s, if w.more && w.s.queue == [] && w.s.close then AfterClose(w.s.(close := false)) else w.s, s.queue[0], turn.result)
  {
    var b := s.queue[0];
    var n := Taken(turn.result, |b.bytes| - b.offset);
    SentFields(s, n);
    TurnCases(s, turn, AfterSent(s, n), n);
    hide *;
    if n < |b.bytes| - b.offset {
      PartSent(s, turn.result);
    } else {
      WholeSent(s, turn.result);
    }
  }

  lemma SentFields(s: State, n: nat)
    requires s.queue != [] && s.queue[0].offset + n <= |s.queue[0].bytes|
    ensures var b := s.queue[0];
      AfterSent(s, n) == s.(queue := [Buf(b.bytes, b.offset + n)] + s.queue[1..], size := s.size - n, wire := s.wire + b.bytes[b.offset..b.offset + n])
  {
  }

  lemma PartSent(s: State, result: Result)
    requires s.queue != [] && BufOk(s.queue[0]) && !s.closed && 0 < Taken(result, |s.queue[0].bytes| - s.queue[0].offset) < |s.queue[0].bytes| - s.queue[0].offset
    ensures TurnedOnce(s, AfterSent(s, Taken(result, |s.queue[0].bytes| - s.queue[0].offset)), s.queue[0], result)
  {
    SentFields(s, Taken(result, |s.queue[0].bytes| - s.queue[0].offset));
    hide AfterSent;
  }

  lemma WholeSent(s: State, result: Result)
    requires s.queue != [] && BufOk(s.queue[0]) && !s.closed && 0 < Taken(result, |s.queue[0].bytes| - s.queue[0].offset) == |s.queue[0].bytes| - s.queue[0].offset
    ensures var u := AfterSent(s, |s.queue[0].bytes| - s.queue[0].offset);
      && u.queue != []
      && var t := u.(queue := u.queue[1..]);
      TurnedOnce(s, if t.queue == [] && t.close then AfterClose(t.(close := false)) else t, s.queue[0], result)
  {
    var b, q := s.queue[0], s.queue[1..];
    SentFields(s, |b.bytes| - b.offset);
    assert ([Buf(b.bytes, |b.bytes|)] + q)[1..] == [] + q;
    hide AfterSent;
  }

  /** nio_write goes on with the next buffer exactly when the socket has taken the whole of one, the io is still open, and there
      is a next one. */
  lemma GoesOn(s: State, turn: Turn, turns: seq<Turn>)
    requires Good(s) && AllOk(s.queue) && !s.closed && s.queue != []
    ensures var t, b := After(s, Writable([turn])), s.queue[0];
      && AllOk(t.queue)
      && After(s, Writable([turn] + turns)) ==
           if turn.result.Wrote? && turn.result.n >= |b.bytes| - b.offset && !t.closed && t.queue != [] then After(t, Writable(turns)) else t
  {
    var b, w, t := s.queue[0], AfterTurn(s, turn), After(s, Writable([turn]));
    assert s.watching && b.offset < |b.bytes|;
    OnlyTurn(s, turn);
    TurnKeeps(s, turn);
    AfterKeeps(s, Writable([turn]));
    GoodQueue(t);
    assert ([turn] + turns)[0] == turn && ([turn] + turns)[1..] == turns;
    assert After(s, Writable([turn] + turns)) == if w.more && AllOk(w.s.queue) then AfterNioWrite(w.s, turns) else w.s;
    MoreWhen(s, turn);
    if w.more {
      Balance(s, w, Breaks(s.isStream, turn));
      if t.queue != [] { assert t == w.s && t.watching && !t.aborted; }
    }
  }

  /** The calls of a write callback, as calls of their own. */
  function Calls(acts: seq<Act>): seq<Action>
    decreases |acts|
  {
    if acts == [] then [] else [if acts[0].Closing? then Close else Write(acts[0].bytes, Again)] + Calls(acts[1..])
  }

  lemma {:induction false} ActsAreCalls(s: State, acts: seq<Act>)
    requires Good(s) && !s.aborted && (s.closed || s.queue != [])
    ensures AfterActs(s, acts) == AfterAll(s, Calls(acts))
    decreases |acts|
  {
    if acts != [] {
      var a := Calls(acts)[0];
      assert Calls(acts)[1..] == Calls(acts[1..]);
      GoodQueue(s);
      AfterKeeps(s, a);
      if a.Write? { WriteKeeps(s, a.bytes, Again, 0); }
      var t := After(s, a);
      assert t.closed || t.queue != [];
      assert AfterActs(s, acts) == AfterActs(t, acts[1..]);
      hide Good, After, AfterActs, Calls;
      ActsAreCalls(t, acts[1..]);
    }
  }

  /** When the socket takes a part of the front buffer, what the callback does in the turn is what it would do after it. */
  lemma CallbackCalls(s: State, turn: Turn)
    requires Good(s) && AllOk(s.queue) && !s.closed && s.queue != []
    requires 0 < Taken(turn.result, |s.queue[0].bytes| - s.queue[0].offset) < |s.queue[0].bytes| - s.queue[0].offset
    ensures var t := After(s, Writable([Turn(turn.result, [])])); Good(t) && After(s, Writable([turn])) == AfterAll(t, Calls(turn.callback))
  {
    var bare, u := Turn(turn.result, []), AfterSent(s, Taken(turn.result, |s.queue[0].bytes| - s.queue[0].offset));
    AfterKeeps(s, Writable([bare]));
    GoodFacts(s);
    OnlyTurn(s, bare);
    OnlyTurn(s, turn);
    hide After, Good, AfterSent;
    assert AfterTurn(s, bare) == Went(u, false) && AfterTurn(s, turn) == Went(AfterActs(u, turn.callback), false);
    assert u.queue != [] && !u.aborted by { assert u == AfterSent(s, Taken(turn.result, |s.queue[0].bytes| - s.queue[0].offset)); }
    ActsAreCalls(u, turn.callback);
  }

  lemma MoreWhen(s: State, turn: Turn)
    requires s.queue != [] && BufOk(s.queue[0]) && s.queue[0].offset < |s.queue[0].bytes|
    ensures AfterTurn(s, turn).more ==> turn.result.Wrote? && turn.result.n >= |s.queue[0].bytes| - s.queue[0].offset
    ensures turn.result.Wrote? && turn.result.n >= |s.queue[0].bytes| - s.queue[0].offset && !AfterTurn(s, turn).more ==>
              AfterTurn(s, turn).s.aborted || AfterTurn(s, turn).s.closed
  {
  }

  /** A socket that takes whatever it is given gets all that is queued, and a close that waits is carried out. */
  lemma {:induction false} Drains(s: State, turns: seq<Turn>)
    requires Good(s) && AllOk(s.queue) && !s.closed && s.queue != [] && |turns| >= |s.queue|
    requires forall turn | turn in turns :: turn.callback == [] && turn.result.Wrote? && turn.result.n >= s.size
    ensures var t := After(s, Writable(turns)); t.wire == s.taken == t.taken && t.queue == [] && (t.closed <==> s.close)
    decreases |s.queue|
  {
    var turn, rest := turns[0], turns[1..];
    assert turns == [turn] + rest && turn in turns && turn == Turn(turn.result, []);
    FrontFits(s);
    var b := s.queue[0];
    var t := After(s, Writable([turn]));
    GoesOn(s, turn, rest);
    TurnExactly(s, turn.result);
    AfterKeeps(s, Writable([turn]));
    hide After;
    assert t.queue == s.queue[1..] by { assert [] + s.queue[1..] == s.queue[1..]; }
    GoodFacts(t);
    GoodFacts(s);
    if t.queue != [] {
      forall x | x in rest ensures x.callback == [] && x.result.Wrote? && x.result.n >= t.size { assert x in turns; }
      Drains(t, rest);
    } else {
      AllSent(s, t);
    }
  }

  /** No buffer has more bytes left than are queued. */
  lemma FrontFits(s: State)
    requires Good(s) && !s.closed && s.queue != []
    ensures s.queue[0].offset < |s.queue[0].bytes| && |s.queue[0].bytes| - s.queue[0].offset <= s.size
  {
  }

  /** The last bytes are out. */
  lemma AllSent(s: State, t: State)
    requires Good(s) && AllOk(s.queue) && !s.closed && s.queue != [] && s.queue[1..] == []
    requires t.wire == s.wire + s.queue[0].bytes[s.queue[0].offset..|s.queue[0].bytes|]
    ensures t.wire == s.taken
  {
    var b := s.queue[0];
    assert b.bytes[b.offset..|b.bytes|] == Remaining(b);
    assert Unsent(s.queue) == Remaining(b) + [];
    assert Remaining(b) + [] == Remaining(b);
  }

  /** A close posted for the io as it is now closes it, or waits for the queued bytes if it is the first and nothing has failed;
      so does a timeout, at once. */
  lemma PostedCloses(s: State)
    requires AllOk(s.queue) && !s.closed && !s.aborted && s.posted != []
    ensures var t := After(s, HandlePosted);
      && t.posted == s.posted[1..] && t.wire == s.wire && t.taken == s.taken
      && (t.closed <==> s.posted[0] == s.id && (s.queue == [] || s.close || s.error != NoError))
      && (!t.closed ==> t.queue == s.queue && (t.close <==> s.close || s.posted[0] == s.id))
    ensures s.closeTimer ==> After(s, CloseTimeout).closed && After(s, CloseTimeout).error == TimedOut
  {
  }

  /** An io that is ready for writing and has nothing to write is no longer watched for that. */
  lemma NothingToWrite(s: State, turns: seq<Turn>)
    requires Good(s) && AllOk(s.queue) && !s.closed && s.queue == []
    ensures After(s, Writable(turns)) == s.(watching := false)
  {
    assert s.watching || s == s.(watching := false);
  }

  lemma PostsClose(s: State)
    requires AllOk(s.queue) && !s.aborted
    ensures After(s, CloseAsync) == s.(posted := s.posted + [s.id])
  {
  }

  /** An io used again is as good as new, under an id that it never had. */
  lemma ReusedAsNew(s: State, skipped: nat)
    requires Good(s) && s.closed && !s.aborted
    ensures var t := After(s, Reuse(skipped));
      && !t.closed && !t.close && t.error == NoError && !t.closeTimer && !t.watching && t.queue == [] && t.size == 0 && t.max == MAX_WRITE_BUFSIZE
      && t.id > s.id && t.id !in t.closedIds && t.closedIds == s.closedIds && t.posted == s.posted && t.wire == t.taken == []
  {
  }

  // ------------------------------------------------------------ the io itself

  class WriteIo {
    const isStream: bool
    const queue: Queue<Buf>
    var id: nat
    var closed: bool
    var close: bool
    var error: Cause
    var closeTimer: bool
    var watching: bool
    var writeBufsize: int
    var maxWriteBufsize: nat
    var posted: seq<nat>
    ghost var wire: seq<byte>
    ghost var taken: seq<byte>
    ghost var closedIds: seq<nat>
    /** The program has gone on with a buffer that was gone; the model stops there. */
    var aborted: bool

    constructor (isStream: bool, id: nat, max: nat)
      ensures Valid() && Current() == Opening(isStream, id, max) && fresh(queue) && fresh(queue.ptr)
    {
      this.isStream, this.id, maxWriteBufsize, writeBufsize := isStream, id, max, 0;
      closed, close, error, closeTimer, watching, aborted := false, false, NoError, false, false, false;
      posted, wire, taken, closedIds := [], [], [], [];
      queue := new Queue<Buf>(0);
    }

    ghost predicate Valid()
      reads this, queue
    {
      queue.Valid()
    }

    ghost function Current(): State
      requires Valid()
      reads this, queue, queue.ptr
    {
      State(isStream, id, closed, close, error, closeTimer, watching, queue.Contents(), writeBufsize, maxWriteBufsize, posted,
            wire, taken, closedIds, aborted)
    }

    /** `hio_close_async`, and `hio_close` in another thread. */
    method CloseAsync()
      requires Valid()
      modifies `posted
      ensures Valid() && Current() == AfterCloseAsync(old(Current()))
    {
      posted := posted + [id];
    }

    method Fail()
      requires Valid()
      modifies `posted
      ensures Valid() && Current() == AfterFailure(old(Current()))
    {
      if isStream {
        CloseAsync();
      }
    }

    /** The fields and what Current says. */
    lemma Fields()
      requires Valid()
      ensures Current().closed == closed && Current().close == close && Current().isStream == isStream && Current().error == error
      ensures Current().queue == queue.Contents() && |Current().queue| == queue.size
      ensures Current().size == writeBufsize && Current().max == maxWriteBufsize
    {
    }

    method SetError(e: Cause)
      requires Valid()
      modifies `error
      ensures Valid() && Current() == old(Current()).(error := e)
    {
      error := e;
    }

    method Push(rest: seq<byte>)
      requires Valid()
      modifies this, queue, queue.ptr
      ensures Valid() && (queue.ptr == old(queue.ptr) || fresh(queue.ptr))
      ensures var s := old(Current());
        Current() == s.(queue := s.queue + [Buf(rest, 0)], size := s.size + |rest|, taken := s.taken + rest)
    {
      hide Queue.Contents, Queue.Valid;
      Append(Buf(rest, 0));
      writeBufsize := writeBufsize + |rest|;
      taken := taken + rest;
    }

    method Append(b: Buf)
      requires Valid()
      modifies queue, queue.ptr
      ensures Valid() && (queue.ptr == old(queue.ptr) || fresh(queue.ptr))
      ensures Current() == old(Current()).(queue := old(Current()).queue + [b])
    {
      Reserve();
      queue.PushBack(b);
    }

    method Pop()
      requires Valid() && queue.size > 0
      modifies queue`size, queue`offset
      ensures Valid() && Current() == old(Current()).(queue := old(Current()).queue[1..])
    {
      queue.PopFront();
    }

    method Abort()
      requires Valid()
      modifies `aborted
      ensures Valid() && Current() == old(Current()).(aborted := true)
    {
      aborted := true;
    }

    /** `write_queue_init` before the first use. */
    method Reserve()
      requires Valid()
      modifies queue`ptr
      ensures Valid() && (queue.ptr == old(queue.ptr) || fresh(queue.ptr)) && queue.Contents() == old(queue.Contents())
    {
      if queue.ptr.Length == 0 && queue.Empty() {
        queue.Resize(4);
      }
    }

    /** The part of hio_write that queues what is left. */
    method Enqueue(rest: seq<byte>) returns (ok: bool)
      requires Valid()
      modifies this, queue, queue.ptr
      ensures Valid() && (queue.ptr == old(queue.ptr) || fresh(queue.ptr)) && Current() == AfterQueueing(old(Current()), rest)
      ensures ok <==> Fits(old(Current()), |rest|)
    {
      Fields();
      hide Current, AfterFailure;
      if rest == [] {
        return true;
      }
      if writeBufsize + |rest| > maxWriteBufsize {
        SetError(TooLong);
        Fail();
        return false;
      }
      Push(rest);
      return true;
    }

    /** The part of hio_write that asks the socket; `over` says that it is the whole of it. */
    method TryWrite(bytes: seq<byte>, w: Result) returns (r: int, over: bool)
      requires Valid() && !closed && queue.size == 0
      modifies `error, `watching, `posted, `wire, `taken
      ensures Valid()
      ensures over ==> Current() == AfterWrite(old(Current()), bytes, w) && r == Returned(old(Current()), bytes, w)
      ensures !over ==> 0 <= r <= |bytes| && AfterQueueing(Current(), bytes[r..]) == AfterWrite(old(Current()), bytes, w)
      ensures !over ==> Returned(old(Current()), bytes, w) == if Fits(Current(), |bytes| - r) then r else -1
    {
      hide AfterQueueing;
      match Clip(w, |bytes|) {
        case Error =>
          error := SocketError;
          Fail();
          return -1, true;
        case Again =>
          assert bytes[0..] == bytes;
          watching := true;
          return 0, false;
        case Wrote(n) =>
          if n == 0 {
            Fail();
            return -1, true;
          }
          assert bytes[..|bytes|] == bytes;
          wire, taken := wire + bytes[..n], taken + bytes[..n];
          if n == |bytes| {
            return n, true;
          }
          watching := true;
          return n, false;
      }
    }

    /** `hio_write`, up to its write callback. It returns how many bytes the socket took at once, or -1. */
    method Write(bytes: seq<byte>, w: Result) returns (r: int)
      requires Valid()
      modifies this, queue, queue.ptr
      ensures Valid() && (queue.ptr == old(queue.ptr) || fresh(queue.ptr)) && Current() == AfterWrite(old(Current()), bytes, w)
      ensures r == Returned(old(Current()), bytes, w) && Written(old(Current()), Current(), bytes, w, r)
    {
      WriteExactly(Current(), bytes, w);
      hide AfterQueueing, Written;
      if closed {
        return -1;
      }
      r := 0;
      if queue.Empty() {
        var over;
        r, over := TryWrite(bytes, w);
        if over {
          return;
        }
      }
      assert bytes[0..] == bytes;
      hide AfterWrite, Returned;
      var ok := Enqueue(bytes[r..]);
      if !ok {
        r := -1;
      }
    }

    /** `hio_done`: nothing is watched any more and what was queued is dropped. */
    method Done()
      requires Valid()
      modifies `watching, queue, queue.ptr
      ensures Valid() && queue.Contents() == [] && !watching && fresh(queue.ptr)
    {
      watching := false;
      while !queue.Empty()
        modifies queue`size, queue`offset
        invariant queue.Valid()
        decreases queue.size
      {
        queue.PopFront();
      }
      queue.Cleanup();
    }

    /** `hio_close` in the thread of the loop. */
    method Close()
      requires Valid()
      modifies this, queue, queue.ptr
      ensures Valid() && (queue.ptr == old(queue.ptr) || fresh(queue.ptr)) && Current() == AfterClose(old(Current()))
    {
      if closed {
        return;
      }
      if !queue.Empty() && error == NoError && !close {
        close := true;
        closeTimer := true;
        return;
      }
      closed := true;
      Done();
      closeTimer := false;
      closedIds := closedIds + [id];
    }

    /** `hio_close_event_cb`. */
    method HandlePosted()
      requires Valid()
      modifies this, queue, queue.ptr
      ensures Valid() && (queue.ptr == old(queue.ptr) || fresh(queue.ptr)) && Current() == AfterPosted(old(Current()))
    {
      if posted == [] {
        return;
      }
      var id0 := posted[0];
      posted := posted[1..];
      if id0 != id {
        return;
      }
      Close();
    }

    /** `__close_timeout_cb`. */
    method CloseTimeout()
      requires Valid()
      modifies this, queue, queue.ptr
      ensures Valid() && (queue.ptr == old(queue.ptr) || fresh(queue.ptr)) && Current() == AfterTimeout(old(Current()))
    {
      if closeTimer {
        error := TimedOut;
        Close();
      }
    }

    /** `hio_ready`. */
    method Reuse(skipped: nat)
      requires Valid()
      modifies this
      ensures Valid() && Current() == AfterReuse(old(Current()), skipped)
    {
      if closed {
        id := id + 1 + skipped;
        closed, close, error, closeTimer, watching, aborted := false, false, NoError, false, false, false;
        writeBufsize, maxWriteBufsize := 0, MAX_WRITE_BUFSIZE;
        wire, taken := [], [];
      }
    }

    /** A write callback under the lock of nio_write. */
    method Callback(acts: seq<Act>)
      requires Valid()
      modifies this, queue, queue.ptr
      ensures Valid() && (queue.ptr == old(queue.ptr) || fresh(queue.ptr)) && Current() == AfterActs(old(Current()), acts)
    {
      hide AfterWrite, AfterClose;
      var i := 0;
      assert acts[0..] == acts;
      while i < |acts|
        invariant i <= |acts| && Valid() && (queue.ptr == old(queue.ptr) || fresh(queue.ptr))
        invariant AfterActs(Current(), acts[i..]) == AfterActs(old(Current()), acts)
      {
        match acts[i] {
          case Closing => Close();
          case Writing(bytes) => var r := Write(bytes, Again);
        }
        i := i + 1;
      }
    }

    /** One turn of the loop of nio_write: the front buffer is sent and, when it is used up, taken off. */
    method WriteFront(turn: Turn) returns (more: bool)
      requires Valid() && queue.size > 0 && BufOk(queue.Contents()[0])
      modifies this, queue, queue.ptr
      ensures Valid() && (queue.ptr == old(queue.ptr) || fresh(queue.ptr)) && Went(Current(), more) == AfterTurn(old(Current()), turn)
    {
      hide AfterActs, AfterBroken, AfterSent, Current;
      Fields();
      var pbuf := queue.Front();
      var len := |pbuf.bytes| - pbuf.offset;
      var w := Clip(turn.result, len);
      if w == Again {
        return false;
      }
      if w == Error {
        SetError(SocketError);
      }
      if w == Error || w == Wrote(0) {
        Disconnect();
        return false;
      }
      Sent(w.n);
      Callback(turn.callback);
      if w.n < len {
        return false;
      }
      Fields();
      if queue.Empty() {
        // here the program pops from an empty queue
        Abort();
        return false;
      }
      Pop();
      Fields();
      return !closed;
    }

    method Disconnect()
      requires Valid()
      modifies this, queue, queue.ptr
      ensures Valid() && (queue.ptr == old(queue.ptr) || fresh(queue.ptr)) && Went(Current(), false) == AfterBroken(old(Current()))
    {
      if isStream {
        Close();
      }
    }

    /** The socket has taken `n` bytes of the front buffer. */
    method Sent(n: nat)
      requires Valid() && queue.size > 0 && queue.Contents()[0].offset + n <= |queue.Contents()[0].bytes|
      modifies `writeBufsize, `wire, queue.ptr
      ensures Valid() && Current() == AfterSent(old(Current()), n)
    {
      var pbuf := queue.Front();
      queue.SetFront(Advance(pbuf, n));
      writeBufsize := writeBufsize - n;
      wire := wire + pbuf.bytes[pbuf.offset..pbuf.offset + n];
    }

    /** `nio_write`. */
    method NioWrite(turns: seq<Turn>)
      requires Valid() && Kept(Current(), 0) && !closed && AllOk(queue.Contents())
      modifies this, queue, queue.ptr
      ensures Valid() && (queue.ptr == old(queue.ptr) || fresh(queue.ptr)) && Current() == AfterNioWrite(old(Current()), turns)
    {
      hide AfterClose, AfterTurn, Kept;
      var i := 0;
      assert turns[0..] == turns;
      while !queue.Empty() && i < |turns|
        invariant i <= |turns| && Valid() && (queue.ptr == old(queue.ptr) || fresh(queue.ptr))
        invariant Kept(Current(), 0) && !closed && AllOk(queue.Contents())
        invariant AfterNioWrite(Current(), turns[i..]) == AfterNioWrite(old(Current()), turns)
        decreases |turns| - i
      {
        ghost var s := Current();
        TurnKeeps(s, turns[i]);
        var more := WriteFront(turns[i]);
        if !more {
          return;
        }
        Balance(s, Went(Current(), more), Breaks(isStream, turns[i]));
        i := i + 1;
      }
      if queue.Empty() && close {
        close := false;
        Close();
      }
    }

    /** The write half of hio_handle_events. */
    method HandleWritable(turns: seq<Turn>)
      requires Valid() && Good(Current())
      modifies this, queue, queue.ptr
      ensures Valid() && AllOk(old(queue.Contents())) && Current() == AfterWritable(old(Current()), turns)
      ensures queue.ptr == old(queue.ptr) || fresh(queue.ptr)
    {
      hide AfterNioWrite;
      GoodQueue(Current());
      if closed || !watching {
        return;
      }
      if queue.Empty() {
        watching := false;
      }
      NioWrite(turns);
    }

    /** Any call. */
    method Do(a: Action)
      requires Valid() && Good(Current()) && !aborted
      modifies this, queue, queue.ptr
      ensures Valid() && AllOk(old(queue.Contents())) && Current() == After(old(Current()), a) && Good(Current())
      ensures queue.ptr == old(queue.ptr) || fresh(queue.ptr)
    {
      hide Good, AfterWrite, AfterWritable, AfterClose, AfterPosted, AfterTimeout, AfterReuse, AfterCloseAsync;
      GoodQueue(Current());
      AfterKeeps(Current(), a);
      match a {
        case Write(bytes, w) => var r := Write(bytes, w);
        case Writable(turns) => HandleWritable(turns);
        case Close => Close();
        case CloseAsync => CloseAsync();
        case HandlePosted => HandlePosted();
        case CloseTimeout => CloseTimeout();
        case Reuse(skipped) => Reuse(skipped);
      }
    }

    /** A whole life, until the program aborts. */
    method Live(actions: seq<Action>)
      requires Valid() && Good(Current())
      modifies this, queue, queue.ptr
      ensures Valid() && Good(Current()) && Current() == AfterAll(old(Current()), actions)
    {
      hide Good, After;
      var i := 0;
      assert actions[0..] == actions;
      while i < |actions| && !aborted
        invariant i <= |actions| && Valid() && Good(Current()) && (queue.ptr == old(queue.ptr) || fresh(queue.ptr))
        invariant AfterAll(Current(), actions[i..]) == AfterAll(old(Current()), actions)
        decreases |actions| - i
      {
        Do(actions[i]);
        i := i + 1;
      }
      Over(Current(), actions[i..]);
    }
  }

  lemma {:induction false} Over(s: State, actions: seq<Action>)
    requires Good(s) && (s.aborted || actions == [])
    ensures AfterAll(s, actions) == s
    decreases |actions|
  {
    if actions != [] {
      GoodQueue(s);
      Over(s, actions[1..]);
    }
  }
}
