/** The timers of hloop.c: two heaps of timers over one loop. */
module Timers {

  import opened Collections
  import opened Events
  import opened Heap
  import opened Lifecycle

  const INFINITE: nat := 0xFFFF_FFFF

  /** `--repeat` on a uint32_t, unless it is INFINITE. */
  function Decremented(repeat: nat): nat {
    if repeat == INFINITE then INFINITE else if repeat == 0 then INFINITE else repeat - 1
  }

  /** A timer set to fire `total` times has fired `fired` times and has `repeat` to go; `total == 0` stands for no limit. */
  predicate Counted(total: nat, fired: nat, repeat: nat) {
    && repeat <= INFINITE
    && (1 <= total < INFINITE ==> fired + repeat == total)
    && (total == 0 ==> repeat == INFINITE || (repeat == 0 && fired == 0))
    && (total >= INFINITE ==> repeat == INFINITE)
  }

  /** Firing keeps the account, and the countdown reaches 0 exactly with the last of `total` firings. */
  lemma FiringCounted(total: nat, fired: nat, repeat: nat)
    requires Counted(total, fired, repeat) && (1 <= total < INFINITE ==> repeat >= 1)
    ensures Counted(total, fired + 1, Decremented(repeat))
    ensures Decremented(repeat) == 0 <==> fired + 1 == total < INFINITE
  {
    if total == 0 {}
  }

  /** The next multiple of `step` after `was` that lies beyond `now`. */
  ghost predicate Advanced(was: nat, next: nat, step: nat, now: nat) {
    next > now && next - step <= now && exists k: nat :: next == was + k * step
  }

  /** Where a turn takes the time of a timer: nowhere when its countdown is over, else beyond `now`. */
  ghost predicate Moved(was: nat, next: nat, repeat: nat, isPeriod: bool, timeout: nat, now: nat) {
    && (repeat == 0 ==> next == was)
    && (repeat != 0 ==> next > now && (!isPeriod ==> timeout > 0 && Advanced(was, next, timeout * 1000, now)))
  }

  /** The catch-up loop of __hloop_process_timers: whole timeouts are added until the timer is due after `now`. */
  method Advance(was: nat, step: nat, now: nat) returns (next: nat)
    requires step > 0 && was <= now
    ensures Advanced(was, next, step, now)
  {
    next := was;
    ghost var k: nat := 0;
    while next <= now
      invariant next == was + k * step && (k > 0 ==> next - step <= now)
      decreases now + 1 - next
    {
      next, k := next + step, k + 1;
    }
  }

  /** Timeouts of whole tenths of a second from one second on are rounded down to a tenth of a second. */
  function Granular(timeout: nat, at: nat): nat {
    if timeout >= 1000 && timeout % 100 == 0 then at / 100000 * 100000 else at
  }

  /** A timer set at `now` is due at `next`: the full timeout later, or, if that is a whole number of tenths of a second from
      one second on, at the last tenth of a second before that. */
  ghost predicate DueIn(timeout: nat, now: nat, next: nat) {
    if timeout < 1000 || timeout % 100 != 0 then next == now + timeout * 1000
    else next % 100_000 == 0 && next <= now + timeout * 1000 < next + 100_000
  }

  /** Rounding never makes a new timer due at once. */
  lemma GranularLater(timeout: nat, now: nat)
    requires timeout > 0
    ensures now < Granular(timeout, now + timeout * 1000) && DueIn(timeout, now, Granular(timeout, now + timeout * 1000))
  {
  }

  /** So never before nine tenths of the timeout are over, and never after all of it. */
  lemma DueWithin(timeout: nat, now: nat, next: nat)
    requires DueIn(timeout, now, next) && timeout > 0
    ensures now + timeout * 900 < next <= now + timeout * 1000
  {
  }

  /** No two timers embed the same event. */
  ghost predicate Distinct(S: set<Timer>) { forall t, u | t in S && u in S && t.ev == u.ev :: t == u }

  lemma StillDistinct(T: set<Timer>, R: set<Timer>, T': set<Timer>, R': set<Timer>)
    requires Distinct(T + R) && T' <= T && R' <= R
    ensures Distinct(T' + R') && Distinct(R' + T') && Distinct(T') && Distinct(R')
  {
  }

  datatype Heaps = Heaps(T: set<Timer>, ts: seq<Timer>, R: set<Timer>, rs: seq<Timer>)

  /** A heap with the timers in it. */
  datatype Holding = Holding(heap: TimerHeap, S: set<Timer>, nodes: seq<Timer>)

  class TimerLoop {
    const loop: Loop
    const timers: TimerHeap
    const realtimers: TimerHeap
    var ntimers: nat

    constructor (loop: Loop)
      ensures this.loop == loop && fresh(timers) && fresh(realtimers) && timers != realtimers && ntimers == 0
      ensures Holds(timers, {}, []) && Holds(realtimers, {}, [])
    {
      this.loop := loop;
      timers := new TimerHeap();
      realtimers := new TimerHeap();
      ntimers := 0;
    }

    function HeapOf(t: Timer): (heap: TimerHeap)
      ensures heap == timers || heap == realtimers
    {
      if t.isPeriod then realtimers else timers
    }

    /** A timer that waits in its heap. */
    ghost predicate Waiting(t: Timer)
      reads t`total, t`fired, t`repeat, t`timeout, loop`events, loop.events`active, loop.events`destroy
    {
      && t.ev in loop.events && t.ev.active && !t.ev.destroy && !t.ev.isIo
      && Counted(t.total, t.fired, t.repeat) && (1 <= t.total < INFINITE ==> t.repeat >= 1)
      && (!t.isPeriod ==> t.timeout > 0)
    }

    lemma WaitingMeans(t: Timer)
      ensures Waiting(t) <==>
        && t.ev in loop.events && t.ev.active && !t.ev.destroy && !t.ev.isIo
        && Counted(t.total, t.fired, t.repeat) && (1 <= t.total < INFINITE ==> t.repeat >= 1)
        && (!t.isPeriod ==> t.timeout > 0)
    {
    }

    /** One of the two heaps, holding the timers `S`. */
    ghost predicate Holds(heap: TimerHeap, S: set<Timer>, nodes: seq<Timer>)
      reads heap, S, loop`events, loop.events`active, loop.events`destroy
    {
      && Heap.Valid(heap, S, nodes) && Distinct(S) && forall t | t in S :: HeapOf(t) == heap && Waiting(t)
    }

    method RemoveFromHeap(t: Timer, ghost S: set<Timer>, ghost nodes: seq<Timer>) returns (ghost nodes': seq<Timer>)
      requires Heap.Valid(HeapOf(t), S, nodes) && t in S
      modifies HeapOf(t), S`parent, S`left, S`right
      ensures Heap.Valid(HeapOf(t), S - {t}, nodes') && t.left == null && t.right == null
    {
      hide Heap.Valid;
      if t.isPeriod {
        nodes' := Remove(realtimers, t, S, nodes);
      } else {
        nodes' := Remove(timers, t, S, nodes);
      }
    }

    /** `__htimer_del`: out of its heap, and marked, unless it already is. */
    method Unlink(t: Timer, ghost S: set<Timer>, ghost nodes: seq<Timer>) returns (ghost nodes': seq<Timer>)
      requires Heap.Valid(HeapOf(t), S, nodes) && (t in S <==> !t.ev.destroy) && ntimers >= |S|
      requires loop.Alive({}) && t.ev in loop.events && !t.ev.isIo
      modifies HeapOf(t), S`parent, S`left, S`right, `ntimers, t.ev`destroy
      ensures FlagsIn(loop.events) == old(FlagsIn(loop.events))[t.ev := old(FlagsOf(t.ev)).(destroy := true)]
      ensures Heap.Valid(HeapOf(t), S - {t}, nodes') && t.ev.destroy && ntimers == old(ntimers) - |S| + |S - {t}|
      ensures t in S ==> t.left == null && t.right == null
      ensures loop.Alive({t.ev}) && (old(loop.Valid({})) ==> loop.Valid({t.ev}))
      ensures loop.Doomed() == old(loop.Doomed()) + {t.ev}
      ensures forall u | u in S && u.ev != t.ev && old(Waiting(u)) :: Waiting(u)
    {
      hide Heap.Valid, Loop.Alive, Loop.Valid, Loop.Doomed, Waiting, FlagsIn;
      nodes' := nodes;
      if t.ev.destroy {
        AlreadyMarked(t, S);
        return;
      }
      CountWithoutTimer(S, t);
      nodes' := RemoveFromHeap(t, S, nodes);
      ntimers := ntimers - 1;
      MarkTimer(t, S);
    }

    /** Marking a timer that is marked changes nothing. */
    lemma AlreadyMarked(t: Timer, S: set<Timer>)
      requires loop.Alive({}) && t.ev in loop.events && t !in S && t.ev.destroy
      ensures loop.Alive({t.ev}) && (loop.Valid({}) ==> loop.Valid({t.ev})) && S - {t} == S && loop.Doomed() + {t.ev} == loop.Doomed()
      ensures FlagsIn(loop.events)[t.ev := FlagsOf(t.ev).(destroy := true)] == FlagsIn(loop.events)
    {
      hide Loop.Alive, Loop.Valid, Loop.Doomed, FlagsIn;
      loop.LifeOf(t.ev);
      loop.InDoomed(t.ev);
      SameFlags(loop.events, t.ev);
    }

    /** `destroy = 1` on the event of `t`. */
    method MarkTimer(t: Timer, ghost S: set<Timer>)
      requires loop.Alive({}) && t.ev in loop.events && !t.ev.isIo
      modifies t.ev`destroy
      ensures FlagsIn(loop.events) == old(FlagsIn(loop.events))[t.ev := old(FlagsOf(t.ev)).(destroy := true)]
      ensures t.ev.destroy && loop.Alive({t.ev}) && (old(loop.Valid({})) ==> loop.Valid({t.ev})) && loop.Doomed() == old(loop.Doomed()) + {t.ev}
      ensures forall u | u in S && u.ev != t.ev && old(Waiting(u)) :: Waiting(u)
    {
      hide Loop.Alive, Loop.Valid, Loop.Doomed;
      loop.Mark(t.ev);
    }

    /** `EVENT_DEL` on the event of `t`. */
    method DeleteEvent(t: Timer, ghost S: set<Timer>)
      requires loop.Alive({t.ev}) && t.ev in loop.events && t.ev.active && !t.ev.isIo && !t.ev.freed
      modifies loop`nactives, loop`log, t.ev`active, t.ev`destroy, t.ev`freed
      ensures loop.Alive({}) && FlagsIn(loop.events) == old(FlagsIn(loop.events))[t.ev := Step(old(FlagsOf(t.ev)), Deleted(t.ev))] && loop.log == old(loop.log) + [Deleted(t.ev)]
      ensures loop.Doomed() == old(loop.Doomed()) + {t.ev}
      ensures forall u | u in S && u.ev != t.ev && old(Waiting(u)) :: Waiting(u)
    {
      hide Loop.Alive, Loop.Valid, Loop.Doomed;
      loop.Del(t.ev);
    }

    /** The next time of a timer that has fired: for a period, what cron_next_timeout says. */
    method Retime(t: Timer, now: nat, ghost all: set<Timer>)
      requires t in all && t.nextTimeout <= now && (!t.isPeriod ==> t.timeout > 0)
      modifies t`nextTimeout
      ensures StatusOf(all) == old(StatusOf(all))[t := StatusAt(t)]
      ensures t.nextTimeout > now && (!t.isPeriod ==> Advanced(old(t.nextTimeout), t.nextTimeout, t.timeout * 1000, now))
    {
      if t.isPeriod {
        var next: nat :| next > now;
        t.nextTimeout := next;
      } else {
        t.nextTimeout := Advance(t.nextTimeout, t.timeout * 1000, now);
      }
    }

    /** The due root of a heap is taken out, moved on to its next time and put back. */
    method Reschedule(heap: TimerHeap, t: Timer, now: nat, ghost S: set<Timer>, ghost nodes: seq<Timer>, ghost all: set<Timer>) returns (ghost nodes': seq<Timer>)
      requires Heap.Valid(heap, S, nodes) && heap.root == t && t in S && t.nextTimeout <= now && (!t.isPeriod ==> t.timeout > 0) && t in all
      modifies heap, S`parent, S`left, S`right, t`nextTimeout
      ensures Heap.Valid(heap, S, nodes') && StatusOf(all) == old(StatusOf(all))[t := StatusAt(t)]
      ensures t.nextTimeout > now && (!t.isPeriod ==> Advanced(old(t.nextTimeout), t.nextTimeout, t.timeout * 1000, now))
    {
      hide Heap.Valid, StatusOf, StatusAt;
      nodes' := Dequeue(heap, S, nodes);
      Retime(t, now, all);
      nodes' := Insert(heap, t, S - {t}, nodes');
      assert S - {t} + {t} == S;
    }

    /** The due root leaves its heap for good when its countdown is over; otherwise it gets its next time. */
    method Settle(heap: TimerHeap, t: Timer, now: nat, ghost S: set<Timer>, ghost nodes: seq<Timer>, ghost all: set<Timer>)
      returns (ghost S': set<Timer>, ghost nodes': seq<Timer>)
      requires t in all && loop.Valid({}) && Heap.Valid(heap, S, nodes) && heap.root == t && t in S && t.nextTimeout <= now && ntimers >= |S|
      requires heap == HeapOf(t) && (!t.isPeriod ==> t.timeout > 0)
      requires t.ev in loop.events && !t.ev.isIo && !t.ev.destroy
      modifies heap, S`parent, S`left, S`right, t`nextTimeout, `ntimers, t.ev`destroy
      ensures loop.Valid({t.ev}) && Heap.Valid(heap, S', nodes')
      ensures StatusOf(all) == old(StatusOf(all))[t := StatusAt(t)]
      ensures S' == (if t.repeat == 0 then S - {t} else S) && ntimers == old(ntimers) - (|S| - |S'|)
      ensures t.ev.destroy <==> t.repeat == 0
      ensures t.repeat == 0 ==> t.left == null && t.right == null
      ensures Moved(old(t.nextTimeout), t.nextTimeout, t.repeat, t.isPeriod, t.timeout, now)
      ensures loop.Doomed() == old(loop.Doomed()) + if t.repeat == 0 then {t.ev} else {}
      ensures forall u | u in S && u.ev != t.ev && old(Waiting(u)) :: Waiting(u)
    {
      hide Loop.Alive, Loop.Doomed, Heap.Valid, Loop.Valid, Waiting, StatusOf, StatusAt, FlagsIn;
      SameStatus(all, t);
      loop.Loosen(t.ev);
      if t.repeat == 0 {
        nodes' := Unlink(t, S, nodes);
        S' := S - {t};
      } else {
        nodes' := Reschedule(heap, t, now, S, nodes, all);
        S' := S;
      }
    }

    /** The timers `S'`, which are those of `S` but for `t`: all are still waiting. */
    lemma HoldsAfter(heap: TimerHeap, S: set<Timer>, S': set<Timer>, nodes: seq<Timer>, t: Timer)
      requires Heap.Valid(heap, S', nodes) && Distinct(S) && t in S && (S' == S - {t} || S' == S)
      requires forall u | u in S :: HeapOf(u) == heap && (u.ev != t.ev ==> Waiting(u))
      requires t in S' ==> Waiting(t)
      ensures Holds(heap, S', nodes)
    {
    }

    /** The timers of `S` without `t`, all still waiting. */
    lemma HoldsOthers(heap: TimerHeap, S: set<Timer>, nodes: seq<Timer>, t: Timer)
      requires Heap.Valid(heap, S - {t}, nodes) && Distinct(S)
      requires forall u | u in S :: HeapOf(u) == heap && (u.ev != t.ev ==> Waiting(u))
      requires forall u | u in S && u.ev == t.ev :: u == t
      ensures Holds(heap, S - {t}, nodes)
    {
    }

    /** `--repeat`. */
    method CountDown(t: Timer, ghost all: set<Timer>)
      requires t in all && Counted(t.total, t.fired, t.repeat) && (1 <= t.total < INFINITE ==> t.repeat >= 1)
      modifies t`repeat, t`fired
      ensures StatusOf(all) == old(StatusOf(all))[t := StatusAt(t)]
      ensures t.repeat == Decremented(old(t.repeat)) && t.fired == old(t.fired) + 1 && Counted(t.total, t.fired, t.repeat)
      ensures (t.repeat == 0 ==> t.fired == t.total) && (t.repeat != 0 && 1 <= t.total < INFINITE ==> t.repeat >= 1)
    {
      FiringCounted(t.total, t.fired, t.repeat);
      t.repeat := Decremented(t.repeat);
      t.fired := t.fired + 1;
    }

    method TickBare(heap: TimerHeap, t: Timer, now: nat, ghost S: set<Timer>, ghost nodes: seq<Timer>, ghost all: set<Timer>)
      returns (ghost S': set<Timer>, ghost nodes': seq<Timer>)
      requires t in all && loop.Valid({}) && Heap.Valid(heap, S, nodes) && heap.root == t && t in S && t.nextTimeout <= now && ntimers >= |S|
      requires heap == HeapOf(t) && (!t.isPeriod ==> t.timeout > 0) && t.ev in loop.events && !t.ev.isIo && !t.ev.destroy
      requires Counted(t.total, t.fired, t.repeat) && (1 <= t.total < INFINITE ==> t.repeat >= 1)
      modifies heap, S`parent, S`left, S`right, t`repeat, t`fired, t`nextTimeout, `ntimers, t.ev`destroy
      ensures loop.Valid({t.ev}) && Heap.Valid(heap, S', nodes')
      ensures t.repeat == Decremented(old(t.repeat)) && t.fired == old(t.fired) + 1 && Counted(t.total, t.fired, t.repeat)
      ensures StatusOf(all) == old(StatusOf(all))[t := StatusAt(t)]
      ensures S' == (if t.repeat == 0 then S - {t} else S) && ntimers == old(ntimers) - (|S| - |S'|)
      ensures (t.ev.destroy <==> t.repeat == 0) && (t.repeat == 0 ==> t.left == null && t.right == null)
      ensures (t.repeat == 0 ==> t.fired == t.total) && Moved(old(t.nextTimeout), t.nextTimeout, t.repeat, t.isPeriod, t.timeout, now)
      ensures loop.Doomed() == old(loop.Doomed()) + if t.repeat == 0 then {t.ev} else {}
      ensures t.repeat != 0 && 1 <= t.total < INFINITE ==> t.repeat >= 1
      ensures forall u | u in S && u.ev != t.ev && old(Waiting(u)) :: Waiting(u)
    {
      hide Loop.Alive, Loop.Valid, Loop.Doomed, Heap.Valid, Moved, Waiting, Counted, Decremented, StatusOf, StatusAt;
      CountDown(t, all);
      S', nodes' := Settle(heap, t, now, S, nodes, all);
    }

    /** The countdown and what follows from it. */
    method Tick(heap: TimerHeap, t: Timer, now: nat, ghost S: set<Timer>, ghost nodes: seq<Timer>, ghost all: set<Timer>)
      returns (ghost S': set<Timer>, ghost nodes': seq<Timer>)
      requires t in all && loop.Valid({}) && Holds(heap, S, nodes) && heap.root == t && t in S && t.nextTimeout <= now && ntimers >= |S|
      modifies heap, S`parent, S`left, S`right, t`repeat, t`fired, t`nextTimeout, `ntimers, t.ev`destroy
      ensures loop.Valid({t.ev}) && Holds(heap, S', nodes') && t.ev in loop.events && !t.ev.freed
      ensures t.repeat == Decremented(old(t.repeat)) && t.fired == old(t.fired) + 1 && Counted(t.total, t.fired, t.repeat)
      ensures StatusOf(all) == old(StatusOf(all))[t := StatusAt(t)]
      ensures S' == (if t.repeat == 0 then S - {t} else S) && ntimers == old(ntimers) - (|S| - |S'|)
      ensures (t.ev.destroy <==> t.repeat == 0) && (t.repeat == 0 ==> t.left == null && t.right == null)
      ensures (t.repeat == 0 ==> t.fired == t.total) && Moved(old(t.nextTimeout), t.nextTimeout, t.repeat, t.isPeriod, t.timeout, now)
      ensures loop.Doomed() == old(loop.Doomed()) + if t.repeat == 0 then {t.ev} else {}
    {
      hide Loop.Alive, Loop.Valid, Loop.Doomed, Heap.Valid, Distinct, Moved, Waiting, Counted, Decremented, StatusOf, StatusAt;
      WaitingMeans(t);
      loop.Loosen(t.ev);
      S', nodes' := TickBare(heap, t, now, S, nodes, all);
      WaitingMeans(t);
      HoldsAfter(heap, S, S', nodes', t);
    }

    /** One turn of __hloop_process_timers: the root is due. */
    method Fire(heap: TimerHeap, t: Timer, now: nat, ghost S: set<Timer>, ghost nodes: seq<Timer>, ghost all: set<Timer>, ghost out: set<Timer>)
      returns (ghost S': set<Timer>, ghost nodes': seq<Timer>)
      requires loop.Valid({}) && Holds(heap, S, nodes) && heap.root == t && t in S && t.nextTimeout <= now && ntimers >= |S|
      requires t in all && out !! S && Loose(out)
      modifies heap, S`parent, S`left, S`right, t`repeat, t`fired, t`nextTimeout, `ntimers,
               loop`npendings, loop`lists, loop`joined, loop.pendings, t.ev`destroy, t.ev`pending, t.ev`linked, t.ev`next
      ensures loop.Valid({}) && loop.Linked() == old(loop.Linked()) + {t.ev} && Grown(old(loop.Linked()), old(loop.joined), loop.Linked(), loop.joined) && Holds(heap, S', nodes')
      ensures t.ev.pending && Outcome(old(StatusAt(t)), StatusAt(t), t.isPeriod, now) && StatusOf(all) == old(StatusOf(all))[t := StatusAt(t)]
      ensures S' == (if t.repeat == 0 then S - {t} else S) && ntimers == old(ntimers) - (|S| - |S'|)
      ensures (t.ev.destroy <==> t.repeat == 0) && Loose(if t.repeat == 0 then out + {t} else out)
      ensures loop.Doomed() == old(loop.Doomed()) + if t.repeat == 0 then {t.ev} else {}
    {
      hide Loop.Doomed, Loop.Linked, Heap.Valid, Loop.Valid, Holds, Grown, StatusOf;
      S', nodes' := Tick(heap, t, now, S, nodes, all);
      loop.SetPending(t.ev);
    }

    /** The root is the timer due first; the waiting timers are not destroyed. */
    lemma RootOf(heap: TimerHeap, S: set<Timer>, nodes: seq<Timer>)
      requires Holds(heap, S, nodes)
      ensures heap.root == null <==> S == {}
      ensures heap.root != null ==> heap.root in S && forall t | t in S :: heap.root.nextTimeout <= t.nextTimeout
      ensures forall t | t in S :: t.ev in loop.events && !t.ev.destroy && (!t.isPeriod ==> t.timeout > 0)
    {
      RootEarliest(heap, S, nodes);
    }

    /** One turn of the loop of __hloop_process_timers, with its account: `S0` are the timers at the start, `before` what
        they were then. */
    method Turn(heap: TimerHeap, now: nat, ghost S: set<Timer>, ghost nodes: seq<Timer>,
                ghost S0: set<Timer>, ghost before: map<Timer, Status>, ghost done: set<Timer>)
      returns (ghost t: Timer, ghost S': set<Timer>, ghost nodes': seq<Timer>)
      requires loop.Valid({}) && Holds(heap, S, nodes) && heap.root != null && heap.root.nextTimeout <= now && ntimers >= |S|
      requires S <= S0 && Loose(S0 - S) && Account(before, StatusOf(S0), done, S, now)
      modifies heap, S0, `ntimers, loop`npendings, loop`lists, loop`joined, loop.pendings,
               loop.events`destroy, loop.events`pending, loop.events`linked, loop.events`next
      ensures t in S && t !in done && t in Due(before, now) && S' <= S && Loose(S0 - S')
      ensures loop.Valid({}) && Holds(heap, S', nodes') && ntimers == old(ntimers) - (|S| - |S'|)
      ensures loop.Linked() == old(loop.Linked()) + {t.ev} && Grown(old(loop.Linked()), old(loop.joined), loop.Linked(), loop.joined)
      ensures Account(before, StatusOf(S0), done + {t}, S', now)
      ensures loop.Doomed() == old(loop.Doomed()) + EventsOf(S - S')
    {
      hide Loop.Valid, Loop.Linked, Loop.Doomed, Holds, Account, Outcome, Grown, Loose;
      RootOf(heap, S, nodes);
      var root := heap.root;
      t := root;
      ghost var was := StatusOf(S0);
      OutOf(S0, S, root);
      S', nodes' := Fire(heap, root, now, S, nodes, S0, S0 - S);
      AccountTurn(before, was, done, S, S', t, StatusAt(t), now);
    }

    /** `__hloop_process_timers` on one heap: exactly the due timers take their turn, and what is left is due after `now`. */
    method ProcessHeap(heap: TimerHeap, now: nat, ghost S: set<Timer>, ghost nodes: seq<Timer>)
      returns (n: nat, ghost S': set<Timer>, ghost nodes': seq<Timer>)
      requires loop.Valid({}) && Holds(heap, S, nodes) && ntimers >= |S|
      modifies heap, S, `ntimers, loop`npendings, loop`lists, loop`joined, loop.pendings,
               loop.events`destroy, loop.events`pending, loop.events`linked, loop.events`next
      ensures loop.Valid({}) && Holds(heap, S', nodes') && ntimers == old(ntimers) - (|S| - |S'|)
      ensures Processed(old(StatusOf(S)), StatusOf(S), S', now)
      ensures S' <= S && Loose(S - S') && loop.Doomed() == old(loop.Doomed()) + EventsOf(S - S')
      ensures n == |Due(old(StatusOf(S)), now)| && loop.Linked() == old(loop.Linked()) + EventsOf(Due(old(StatusOf(S)), now))
      ensures Grown(old(loop.Linked()), old(loop.joined), loop.Linked(), loop.joined)
    {
      hide Loop.Valid, Loop.Linked, Loop.Doomed, Holds, Account, Processed, Due, EventsOf, StatusOf, Progress, Grown;
      S', nodes', n := S, nodes, 0;
      ghost var before, done: set<Timer> := StatusOf(S), {};
      ghost var start := Tally(ntimers, loop.Linked(), loop.Doomed(), loop.joined);
      AccountStart(before, now);
      ProgressStart(start, Due(before, now), S);
      while heap.root != null && heap.root.nextTimeout <= now
        invariant loop.Valid({}) && Holds(heap, S', nodes') && S' <= S && Loose(S - S') && ntimers >= |S'|
        invariant Account(before, StatusOf(S), done, S', now)
        invariant Progress(start, Tally(ntimers, loop.Linked(), loop.Doomed(), loop.joined), n, Due(before, now), done, S, S')
        decreases |Due(before, now)| - n
      {
        ghost var was, S'' := Tally(ntimers, loop.Linked(), loop.Doomed(), loop.joined), S';
        ghost var t;
        t, S', nodes' := Turn(heap, now, S', nodes', S, before, done);
        ProgressTurn(start, was, Tally(ntimers, loop.Linked(), loop.Doomed(), loop.joined), n, Due(before, now), done, t, S, S'', S');
        done, n := done + {t}, n + 1;
      }
      RootOf(heap, S', nodes');
      assert forall t | t in S :: StatusOf(S)[t].next == t.nextTimeout by { StatusMeans(S); }
      AccountOver(before, StatusOf(S), done, S', now);
      ProgressOver(start, Tally(ntimers, loop.Linked(), loop.Doomed(), loop.joined), n, Due(before, now), done, S, S');
    }

    /** Both heaps of the loop: `T` are the timeouts and `R` the periods; `ntimers` counts them all. */
    ghost predicate Valid(T: set<Timer>, ts: seq<Timer>, R: set<Timer>, rs: seq<Timer>)
      reads this, timers, realtimers, T, R, loop`events, loop.events`active, loop.events`destroy
    {
      && timers != realtimers && Holds(timers, T, ts) && Holds(realtimers, R, rs) && Distinct(T + R)
      && ntimers == |T| + |R|
    }

    /** A waiting timer does not mind what happens to the events `gone` of others. */
    twostate lemma StillWaiting(R: set<Timer>, new gone: set<Event>)
      requires forall t | t in R :: old(Waiting(t))
      requires unchanged(R`total) && unchanged(R`fired) && unchanged(R`repeat) && unchanged(R`timeout)
      requires old(loop.events) <= loop.events && loop.Doomed() <= old(loop.Doomed()) + gone
      requires forall e | e in old(loop.events) && e !in gone :: e.active == old(e.active)
      ensures forall t | t in R && t.ev !in gone :: Waiting(t)
    {
      forall t | t in R && t.ev !in gone ensures Waiting(t) {
        assert old(Waiting(t));
        assert t.ev in old(loop.events) && t.ev !in old(loop.Doomed());
        assert t.ev !in loop.Doomed();
      }
    }

    /** A heap whose timers have not changed still holds them. */
    twostate lemma StillHolds(h: Holding, new gone: set<Event>)
      requires old(Holds(h.heap, h.S, h.nodes)) && unchanged(h.heap) && unchanged(h.S) && EventsOf(h.S) !! gone
      requires old(loop.events) <= loop.events && loop.Doomed() <= old(loop.Doomed()) + gone
      requires forall e | e in old(loop.events) && e !in gone :: e.active == old(e.active)
      ensures Holds(h.heap, h.S, h.nodes)
    {
      StillWaiting(h.S, gone);
      assert forall t | t in h.S :: t.ev in EventsOf(h.S);
    }

    /** Both heaps are as they were when an event of no waiting timer changes, or none that is active or marked comes or goes. */
    twostate lemma HeapsStay(h: Heaps, new e: Event, new f: Flags)
      requires old(Valid(h.T, h.ts, h.R, h.rs)) && ntimers == old(ntimers) && Heap.Valid(timers, h.T, h.ts) && Heap.Valid(realtimers, h.R, h.rs)
      requires StatusOf(h.T) == old(StatusOf(h.T)) && StatusOf(h.R) == old(StatusOf(h.R))
      requires FlagsIn(loop.events) == old(FlagsIn(loop.events))[e := f]
      requires Alike(old(FlagsIn(loop.events)), e, f) || (e !in EventsOf(h.T) && e !in EventsOf(h.R))
      ensures Valid(h.T, h.ts, h.R, h.rs)
    {
      hide Holds, Heap.Valid, Distinct, StatusOf, FlagsIn, EventsOf, Alike;
      StillHeld(Holding(timers, h.T, h.ts), e, f);
      StillHeld(Holding(realtimers, h.R, h.rs), e, f);
    }

    twostate lemma StillHeld(h: Holding, new e: Event, new f: Flags)
      requires old(Holds(h.heap, h.S, h.nodes)) && Heap.Valid(h.heap, h.S, h.nodes) && StatusOf(h.S) == old(StatusOf(h.S))
      requires FlagsIn(loop.events) == old(FlagsIn(loop.events))[e := f]
      requires Alike(old(FlagsIn(loop.events)), e, f) || e !in EventsOf(h.S)
      ensures Holds(h.heap, h.S, h.nodes)
    {
      hide Heap.Valid, Distinct, StatusOf, FlagsIn, EventsOf, Waiting, Alike;
      StillWaits(h.S, e, f);
    }

    twostate lemma StillWaits(S: set<Timer>, new e: Event, new f: Flags)
      requires StatusOf(S) == old(StatusOf(S)) && FlagsIn(loop.events) == old(FlagsIn(loop.events))[e := f]
      requires Alike(old(FlagsIn(loop.events)), e, f) || e !in EventsOf(S)
      ensures forall t | t in S && old(Waiting(t)) :: Waiting(t)
    {
      hide Counted;
      var m, m' := old(FlagsIn(loop.events)), FlagsIn(loop.events);
      forall t | t in S && old(Waiting(t)) ensures Waiting(t) {
        assert m[t.ev] == old(FlagsOf(t.ev)) && t.ev in EventsOf(S) && m'[t.ev] == FlagsOf(t.ev);
        assert StatusOf(S)[t] == StatusAt(t) && old(StatusOf(S))[t] == old(StatusAt(t));
      }
    }

    lemma EventsWithin(T: set<Timer>, ts: seq<Timer>, R: set<Timer>, rs: seq<Timer>)
      requires Valid(T, ts, R, rs)
      ensures EventsOf(T) <= loop.events && EventsOf(R) <= loop.events
    {
      hide Heap.Valid, Counted, Distinct;
    }

    lemma HeapsOf(T: set<Timer>, ts: seq<Timer>, R: set<Timer>, rs: seq<Timer>)
      requires Valid(T, ts, R, rs)
      ensures Heap.Valid(timers, T, ts) && Heap.Valid(realtimers, R, rs)
    {
    }

    lemma Apart(heap: TimerHeap, S: set<Timer>, nodes: seq<Timer>, other: TimerHeap, R: set<Timer>, rs: seq<Timer>)
      requires Holds(heap, S, nodes) && Holds(other, R, rs) && heap != other && Distinct(S + R)
      ensures S !! R && EventsOf(R) !! EventsOf(S)
    {
    }

    /** Processing one heap leaves the other, with its timers `R`, as it is. */
    method ProcessBeside(heap: TimerHeap, other: TimerHeap, now: nat, ghost S: set<Timer>, ghost nodes: seq<Timer>, ghost R: set<Timer>, ghost rs: seq<Timer>,
                        ghost kept: set<Timer>, ghost out: set<Timer>)
      returns (n: nat, ghost S': set<Timer>, ghost nodes': seq<Timer>)
      requires loop.Valid({}) && Holds(heap, S, nodes) && ntimers >= |S| && S !! kept && out !! S && Loose(out)
      requires heap != other && Holds(other, R, rs) && Distinct(S + R)
      modifies heap, S, `ntimers, loop`npendings, loop`lists, loop`joined, loop.pendings,
               loop.events`destroy, loop.events`pending, loop.events`linked, loop.events`next
      ensures loop.Valid({}) && Holds(heap, S', nodes') && ntimers == old(ntimers) - (|S| - |S'|)
      ensures Holds(other, R, rs) && StatusOf(kept) == old(StatusOf(kept))
      ensures Processed(old(StatusOf(S)), StatusOf(S), S', now)
      ensures S' <= S && Loose(S - S') && Loose(out) && loop.Doomed() == old(loop.Doomed()) + EventsOf(S - S')
      ensures n == |Due(old(StatusOf(S)), now)| && loop.Linked() == old(loop.Linked()) + EventsOf(Due(old(StatusOf(S)), now))
      ensures Grown(old(loop.Linked()), old(loop.joined), loop.Linked(), loop.joined)
    {
      hide Loop.Valid, Loop.Linked, Loop.Doomed, Processed, Holds, Distinct, EventsOf, StatusOf, Due, Grown, Loose;
      Apart(heap, S, nodes, other, R, rs);
      n, S', nodes' := ProcessHeap(heap, now, S, nodes);
      EventsOfSubset(S, S - S');
      StillHolds(Holding(other, R, rs), EventsOf(S - S'));
    }

    /** `hloop_process_timers`: both heaps, each against its own clock. */
    method ProcessTimers(monotonic: nat, now: nat, ghost T: set<Timer>, ghost ts: seq<Timer>, ghost R: set<Timer>, ghost rs: seq<Timer>)
      returns (n: nat, ghost T': set<Timer>, ghost ts': seq<Timer>, ghost R': set<Timer>, ghost rs': seq<Timer>)
      requires loop.Valid({}) && Valid(T, ts, R, rs)
      modifies timers, realtimers, T, R, `ntimers, loop`npendings, loop`lists, loop`joined, loop.pendings,
               loop.events`destroy, loop.events`pending, loop.events`linked, loop.events`next
      ensures loop.Valid({}) && Valid(T', ts', R', rs') && T' <= T && R' <= R && Loose(T - T') && Loose(R - R')
      ensures Processed(old(StatusOf(T)), StatusOf(T), T', monotonic) && Processed(old(StatusOf(R)), StatusOf(R), R', now)
      ensures loop.Doomed() == old(loop.Doomed()) + EventsOf(T - T') + EventsOf(R - R')
      ensures n == |Due(old(StatusOf(T)), monotonic)| + |Due(old(StatusOf(R)), now)|
      ensures loop.Linked() == old(loop.Linked()) + EventsOf(Due(old(StatusOf(T)), monotonic)) + EventsOf(Due(old(StatusOf(R)), now))
      ensures Grown(old(loop.Linked()), old(loop.joined), loop.Linked(), loop.joined)
    {
      hide Heap.Valid, Loop.Valid, Loop.Linked, Loop.Doomed, Processed, Holds, Distinct, StatusOf, Due, EventsOf, Grown;
      ghost var linked, joined := loop.Linked(), loop.joined;
      Apart(timers, T, ts, realtimers, R, rs);
      StillDistinct(T, R, T, R);
      n, T', ts' := ProcessBeside(timers, realtimers, monotonic, T, ts, R, rs, R, {});
      var m: nat;
      ghost var linked', joined' := loop.Linked(), loop.joined;
      StillDistinct(T, R, T', R);
      m, R', rs' := ProcessBeside(realtimers, timers, now, R, rs, T', ts', T, T - T');
      StillDistinct(T, R, T', R');
      GrownOn(linked, joined, linked', joined', loop.Linked(), loop.joined);
      n := n + m;
    }

    static method Allocated(priority: Priority, isPeriod: bool, timeout: nat, repeat: nat, next: nat) returns (t: Timer)
      ensures fresh(t) && fresh(t.ev) && t.isPeriod == isPeriod && t.timeout == timeout && t.nextTimeout == next
      ensures t.repeat == t.total == repeat && t.fired == 0 && t.parent == t.left == t.right == null
      ensures FlagsOf(t.ev) == NEW && !t.ev.isIo && t.ev.priority == priority && t.ev.hasCb
    {
      var ev := new Event(priority, true, false);
      t := new Timer(ev, isPeriod, timeout, repeat, next);
    }

    /** The new timer of htimer_add. */
    method NewTimeout(timeout: nat, repeat: nat, now: nat, ghost T: set<Timer>, ghost ts: seq<Timer>, ghost R: set<Timer>, ghost rs: seq<Timer>)
      returns (r: Timer, ghost ts': seq<Timer>)
      requires loop.Alive({}) && Valid(T, ts, R, rs) && repeat <= INFINITE && timeout > 0
      modifies timers, T`parent, T`left, T`right, `ntimers, loop`events, loop`nactives, loop`log
      ensures loop.Alive({}) && (old(loop.Valid({})) ==> loop.Valid({}))
      ensures loop.Doomed() == old(loop.Doomed())
      ensures FlagsIn(loop.events) == old(FlagsIn(loop.events))[r.ev := Step(NEW, Added(r.ev))] && loop.log == old(loop.log) + [Added(r.ev)] && !r.ev.isIo
      ensures fresh(r) && fresh(r.ev) && Valid(T + {r}, ts', R, rs) && loop.events == old(loop.events) + {r.ev}
      ensures !r.isPeriod && r.timeout == timeout && r.repeat == r.total == repeat && r.fired == 0
      ensures now < r.nextTimeout && DueIn(timeout, now, r.nextTimeout) && r.ev.priority == HIGHEST_PRIORITY && r.ev.hasCb
    {
      hide Loop.Alive, Loop.Valid, Loop.Doomed, Holds, Distinct, Granular, DueIn, EventsOf, Step, FlagsIn;
      GranularLater(timeout, now);
      r := Allocated(HIGHEST_PRIORITY, false, timeout, repeat, Granular(timeout, now + timeout * 1000));
      ts' := EnterBeside(timers, realtimers, r, T, ts, R, rs);
    }

    /** `htimer_add`: a timer due strictly later than now, unless the timeout is 0. */
    method Add(timeout: nat, repeat: nat, now: nat, ghost T: set<Timer>, ghost ts: seq<Timer>, ghost R: set<Timer>, ghost rs: seq<Timer>)
      returns (r: Timer?, ghost ts': seq<Timer>)
      requires loop.Alive({}) && Valid(T, ts, R, rs) && repeat <= INFINITE
      modifies timers, T`parent, T`left, T`right, `ntimers, loop`events, loop`nactives, loop`log
      ensures loop.Alive({}) && (old(loop.Valid({})) ==> loop.Valid({}))
      ensures loop.Doomed() == old(loop.Doomed())
      ensures r == null ==> loop.log == old(loop.log)
      ensures r != null ==> FlagsIn(loop.events) == old(FlagsIn(loop.events))[r.ev := Step(NEW, Added(r.ev))] && loop.log == old(loop.log) + [Added(r.ev)] && !r.ev.isIo
      ensures r == null <==> timeout == 0
      ensures r == null ==> Valid(T, ts, R, rs) && loop.events == old(loop.events)
      ensures r != null ==> fresh(r) && fresh(r.ev) && Valid(T + {r}, ts', R, rs) && loop.events == old(loop.events) + {r.ev}
      ensures r != null ==> !r.isPeriod && r.timeout == timeout && r.repeat == r.total == repeat && r.fired == 0
      ensures r != null ==> now < r.nextTimeout && DueIn(timeout, now, r.nextTimeout) && r.ev.priority == HIGHEST_PRIORITY && r.ev.hasCb
    {
      hide Loop.Alive, Loop.Valid, Loop.Doomed, Holds, Distinct, Step, Valid, DueIn, FlagsIn;
      r, ts' := null, ts;
      if timeout == 0 {
        return;
      }
      r, ts' := NewTimeout(timeout, repeat, now, T, ts, R, rs);
    }

    method EnterBeside(heap: TimerHeap, other: TimerHeap, t: Timer, ghost S: set<Timer>, ghost nodes: seq<Timer>, ghost R: set<Timer>, ghost rs: seq<Timer>)
      returns (ghost nodes': seq<Timer>)
      requires loop.Alive({}) && Holds(heap, S, nodes) && HeapOf(t) == heap && heap != other && Holds(other, R, rs) && Distinct(S + R)
      requires t.parent == t.left == t.right == null && t.ev !in loop.events && t.repeat == t.total <= INFINITE && t.fired == 0 && (!t.isPeriod ==> t.timeout > 0)
      requires FlagsOf(t.ev) == NEW && !t.ev.isIo
      modifies heap, S`parent, S`left, S`right, t`parent, t`left, t`right, `ntimers, loop`events, loop`nactives, loop`log, t.ev`active
      ensures loop.Alive({}) && (old(loop.Valid({})) ==> loop.Valid({}))
      ensures Holds(heap, S + {t}, nodes') && Holds(other, R, rs) && Distinct(S + {t} + R) && Distinct(R + (S + {t})) && t !in S
      ensures FlagsIn(loop.events) == old(FlagsIn(loop.events))[t.ev := Step(NEW, Added(t.ev))] && loop.log == old(loop.log) + [Added(t.ev)]
      ensures loop.Doomed() == old(loop.Doomed())
      ensures ntimers == old(ntimers) + 1 && loop.events == old(loop.events) + {t.ev}
    {
      hide Loop.Alive, Loop.Valid, Loop.Doomed, Holds, Distinct, EventsOf, FlagsIn;
      Newcomer(heap, S, nodes, other, R, rs, t);
      nodes' := Enter(heap, t, S, nodes);
      StillHolds(Holding(other, R, rs), {});
    }

    lemma Newcomer(heap: TimerHeap, S: set<Timer>, nodes: seq<Timer>, other: TimerHeap, R: set<Timer>, rs: seq<Timer>, t: Timer)
      requires Holds(heap, S, nodes) && Holds(other, R, rs) && heap != other && Distinct(S + R) && t.ev !in loop.events
      ensures t !in S + R && S !! R && EventsOf(R) !! {} && Distinct(S + {t} + R) && Distinct(R + (S + {t}))
    {
    }

    /** `EVENT_ADD` on the event of a new timer. */
    method AddEvent(t: Timer)
      requires loop.Alive({}) && t.ev !in loop.events && t.repeat == t.total <= INFINITE && t.fired == 0 && (!t.isPeriod ==> t.timeout > 0)
      requires FlagsOf(t.ev) == NEW && !t.ev.isIo
      modifies loop`events, loop`nactives, loop`log, t.ev`active
      ensures loop.Alive({}) && (old(loop.Valid({})) ==> loop.Valid({})) && loop.events == old(loop.events) + {t.ev}
      ensures FlagsIn(loop.events) == old(FlagsIn(loop.events))[t.ev := Step(NEW, Added(t.ev))] && loop.log == old(loop.log) + [Added(t.ev)]
      ensures loop.Doomed() == old(loop.Doomed()) && Waiting(t)
    {
      hide Loop.Alive, Loop.Valid;
      loop.Add(t.ev);
    }

    /** The part that htimer_add and htimer_add_period share: a new timer enters its heap and its event the loop. */
    method Enter(heap: TimerHeap, t: Timer, ghost S: set<Timer>, ghost nodes: seq<Timer>) returns (ghost nodes': seq<Timer>)
      requires loop.Alive({}) && Holds(heap, S, nodes) && HeapOf(t) == heap
      requires t.parent == t.left == t.right == null && t.ev !in loop.events && t.repeat == t.total <= INFINITE && t.fired == 0 && (!t.isPeriod ==> t.timeout > 0)
      requires FlagsOf(t.ev) == NEW && !t.ev.isIo
      modifies heap, S`parent, S`left, S`right, t`parent, t`left, t`right, `ntimers, loop`events, loop`nactives, loop`log, t.ev`active
      ensures loop.Alive({}) && (old(loop.Valid({})) ==> loop.Valid({}))
      ensures FlagsIn(loop.events) == old(FlagsIn(loop.events))[t.ev := Step(NEW, Added(t.ev))] && loop.log == old(loop.log) + [Added(t.ev)]
      ensures loop.Doomed() == old(loop.Doomed())
      ensures t !in S && Holds(heap, S + {t}, nodes') && ntimers == old(ntimers) + 1 && loop.events == old(loop.events) + {t.ev}
    {
      hide *;
      OpenHolds(heap, S, nodes, t);
      nodes' := Heap.Insert(heap, t, S, nodes);
      AddEvent(t);
      ntimers := ntimers + 1;
      AwaitStill(Holding(heap, S, nodes), t.ev, Step(NEW, Added(t.ev)));
      CloseHolds(heap, S, nodes', t);
    }

    /** All timers of `S` belong into `heap` and wait. */
    ghost predicate Awaiting(heap: TimerHeap, S: set<Timer>)
      reads S`total, S`fired, S`repeat, S`timeout, loop`events, loop.events`active, loop.events`destroy
    {
      Distinct(S) && forall t | t in S :: HeapOf(t) == heap && Waiting(t)
    }

    lemma OpenHolds(heap: TimerHeap, S: set<Timer>, nodes: seq<Timer>, t: Timer)
      requires Holds(heap, S, nodes) && t.ev !in loop.events
      ensures Heap.Valid(heap, S, nodes) && Awaiting(heap, S) && t !in S && t.ev !in EventsOf(S)
    {
      hide Heap.Valid, Counted;
    }

    twostate lemma AwaitStill(h: Holding, new e: Event, new f: Flags)
      requires old(Awaiting(h.heap, h.S)) && StatusOf(h.S) == old(StatusOf(h.S)) && FlagsIn(loop.events) == old(FlagsIn(loop.events))[e := f]
      requires e !in EventsOf(h.S)
      ensures Awaiting(h.heap, h.S)
    {
      hide Distinct, Waiting, StatusOf, FlagsIn, EventsOf;
      StillWaits(h.S, e, f);
    }

    lemma CloseHolds(heap: TimerHeap, S: set<Timer>, nodes: seq<Timer>, t: Timer)
      requires Heap.Valid(heap, S + {t}, nodes) && Awaiting(heap, S) && t.ev !in EventsOf(S) && HeapOf(t) == heap && Waiting(t)
      ensures Holds(heap, S + {t}, nodes)
    {
      hide Heap.Valid, Waiting;
    }

    /** The new timer of htimer_add_period. */
    method NewPeriod(repeat: nat, next: nat,
                     ghost T: set<Timer>, ghost ts: seq<Timer>, ghost R: set<Timer>, ghost rs: seq<Timer>)
      returns (r: Timer, ghost rs': seq<Timer>)
      requires loop.Alive({}) && Valid(T, ts, R, rs) && repeat <= INFINITE
      modifies realtimers, R`parent, R`left, R`right, `ntimers, loop`events, loop`nactives, loop`log
      ensures loop.Alive({}) && (old(loop.Valid({})) ==> loop.Valid({}))
      ensures loop.Doomed() == old(loop.Doomed())
      ensures FlagsIn(loop.events) == old(FlagsIn(loop.events))[r.ev := Step(NEW, Added(r.ev))] && loop.log == old(loop.log) + [Added(r.ev)] && !r.ev.isIo
      ensures fresh(r) && fresh(r.ev) && Valid(T, ts, R + {r}, rs') && loop.events == old(loop.events) + {r.ev}
      ensures r.isPeriod && r.repeat == r.total == repeat && r.fired == 0 && r.nextTimeout == next && r.ev.priority == HIGH_PRIORITY && r.ev.hasCb
    {
      hide Loop.Alive, Loop.Valid, Loop.Doomed, Holds, Distinct, EventsOf, Step, FlagsIn;
      StillDistinct(T, R, T, R);
      r := Allocated(HIGH_PRIORITY, true, 0, repeat, next);
      rs' := EnterBeside(realtimers, timers, r, R, rs, T, ts);
    }

    /** `htimer_add_period`: `next` is the time cron_next_timeout gives. */
    method AddPeriod(minute: int, hour: int, day: int, week: int, month: int, repeat: nat, next: nat,
                     ghost T: set<Timer>, ghost ts: seq<Timer>, ghost R: set<Timer>, ghost rs: seq<Timer>)
      returns (r: Timer?, ghost rs': seq<Timer>)
      requires loop.Alive({}) && Valid(T, ts, R, rs) && repeat <= INFINITE
      modifies realtimers, R`parent, R`left, R`right, `ntimers, loop`events, loop`nactives, loop`log
      ensures loop.Alive({}) && (old(loop.Valid({})) ==> loop.Valid({}))
      ensures loop.Doomed() == old(loop.Doomed())
      ensures r == null ==> loop.log == old(loop.log)
      ensures r != null ==> FlagsIn(loop.events) == old(FlagsIn(loop.events))[r.ev := Step(NEW, Added(r.ev))] && loop.log == old(loop.log) + [Added(r.ev)] && !r.ev.isIo
      ensures r == null <==> minute > 59 || hour > 23 || day > 31 || week > 6 || month > 12
      ensures r == null ==> Valid(T, ts, R, rs) && loop.events == old(loop.events)
      ensures r != null ==> fresh(r) && fresh(r.ev) && Valid(T, ts, R + {r}, rs') && loop.events == old(loop.events) + {r.ev}
      ensures r != null ==> r.isPeriod && r.repeat == r.total == repeat && r.fired == 0 && r.nextTimeout == next && r.ev.priority == HIGH_PRIORITY && r.ev.hasCb
    {
      hide Loop.Alive, Loop.Valid, Loop.Doomed, Holds, Distinct, Step, Valid, DueIn, FlagsIn;
      r, rs' := null, rs;
      if minute > 59 || hour > 23 || day > 31 || week > 6 || month > 12 {
        return;
      }
      r, rs' := NewPeriod(repeat, next, T, ts, R, rs);
    }

    /** `htimer_del` when the timer belongs to `heap`, which holds `S`: it may have left it before. */
    method DeleteFrom(t: Timer, ghost S: set<Timer>, ghost nodes: seq<Timer>) returns (ghost nodes': seq<Timer>)
      requires loop.Alive({}) && Holds(HeapOf(t), S, nodes) && ntimers >= |S|
      requires t.ev in loop.events && !t.ev.isIo && !t.ev.freed && (t in S <==> !t.ev.destroy)
      requires forall u | u in S && u.ev == t.ev :: u == t
      modifies HeapOf(t), S`parent, S`left, S`right, `ntimers, loop`nactives, loop`log, t.ev`destroy, t.ev`active, t.ev`freed
      ensures loop.Alive({}) && FlagsIn(loop.events) == old(FlagsIn(loop.events))[t.ev := Step(old(FlagsOf(t.ev)), Deleted(t.ev))] && loop.log == old(loop.log) + [Deleted(t.ev)]
      ensures loop.Doomed() == old(loop.Doomed()) + {t.ev} && (t in S ==> t.left == null && t.right == null)
      ensures Holds(HeapOf(t), S - {t}, nodes') && ntimers == old(ntimers) - |S| + |S - {t}|
    {
      hide Loop.Alive, Loop.Valid, Loop.Doomed, Heap.Valid, Holds, Distinct, Waiting, FlagsIn;
      nodes' := nodes;
      if !t.ev.active {
        NotActive(t, S);
        loop.log := loop.log + [Deleted(t.ev)];
        return;
      }
      nodes' := DeleteActive(t, S, nodes);
    }

    /** Deleting a timer that is not active changes nothing. */
    lemma NotActive(t: Timer, S: set<Timer>)
      requires loop.Alive({}) && t.ev in loop.events && (t in S <==> !t.ev.destroy) && !t.ev.active && !t.ev.isIo && !t.ev.freed
      ensures t !in S && S - {t} == S && loop.Doomed() + {t.ev} == loop.Doomed()
      ensures FlagsIn(loop.events)[t.ev := Step(FlagsOf(t.ev), Deleted(t.ev))] == FlagsIn(loop.events)
    {
      hide Loop.Alive, Loop.Valid, Loop.Doomed, FlagsIn;
      loop.LifeOf(t.ev);
      loop.InDoomed(t.ev);
      SameFlags(loop.events, t.ev);
    }

    method DeleteActive(t: Timer, ghost S: set<Timer>, ghost nodes: seq<Timer>) returns (ghost nodes': seq<Timer>)
      requires loop.Alive({}) && Holds(HeapOf(t), S, nodes) && ntimers >= |S|
      requires t.ev in loop.events && !t.ev.isIo && !t.ev.freed && t.ev.active && (t in S <==> !t.ev.destroy)
      requires forall u | u in S && u.ev == t.ev :: u == t
      modifies HeapOf(t), S`parent, S`left, S`right, `ntimers, loop`nactives, loop`log, t.ev`destroy, t.ev`active, t.ev`freed
      ensures loop.Alive({}) && FlagsIn(loop.events) == old(FlagsIn(loop.events))[t.ev := Step(old(FlagsOf(t.ev)), Deleted(t.ev))] && loop.log == old(loop.log) + [Deleted(t.ev)]
      ensures loop.Doomed() == old(loop.Doomed()) + {t.ev} && (t in S ==> t.left == null && t.right == null)
      ensures Holds(HeapOf(t), S - {t}, nodes') && ntimers == old(ntimers) - |S| + |S - {t}|
    {
      hide Loop.Alive, Loop.Valid, Loop.Doomed, Heap.Valid, Distinct, Waiting, FlagsIn, Step;
      MarkedThenDeleted(FlagsIn(loop.events), loop.Doomed(), t.ev, FlagsOf(t.ev));
      nodes' := Unlink(t, S, nodes);
      DeleteEvent(t, S);
      HoldsOthers(HeapOf(t), S, nodes', t);
    }

    static lemma MarkedThenDeleted(m: map<Event, Flags>, doomed: set<Event>, e: Event, f: Flags)
      requires f.active && !f.freed
      ensures m[e := f.(destroy := true)][e := Step(f.(destroy := true), Deleted(e))] == m[e := Step(f, Deleted(e))]
      ensures doomed + {e} + {e} == doomed + {e}
    {
    }

    /** A timer that may be deleted or reset: it is not freed, and in its heap unless it is destroyed. */
    ghost predicate Known(t: Timer, S: set<Timer>)
      reads loop`events, t.ev
    {
      && t.ev in loop.events && !t.ev.isIo && !t.ev.freed && (t in S <==> !t.ev.destroy)
      && forall u | u in S && u.ev == t.ev :: u == t
    }

    method DeleteBeside(t: Timer, ghost other: TimerHeap, ghost S: set<Timer>, ghost nodes: seq<Timer>, ghost R: set<Timer>, ghost rs: seq<Timer>)
      returns (ghost nodes': seq<Timer>)
      requires loop.Alive({}) && Holds(HeapOf(t), S, nodes) && ntimers >= |S| && Holds(other, R, rs) && other != HeapOf(t) && Distinct(S + R)
      requires Known(t, S + R) && t !in R
      modifies HeapOf(t), S`parent, S`left, S`right, `ntimers, loop`nactives, loop`log, t.ev`destroy, t.ev`active, t.ev`freed
      ensures loop.Alive({}) && FlagsIn(loop.events) == old(FlagsIn(loop.events))[t.ev := Step(old(FlagsOf(t.ev)), Deleted(t.ev))] && loop.log == old(loop.log) + [Deleted(t.ev)]
      ensures loop.Doomed() == old(loop.Doomed()) + {t.ev} && (t in S ==> t.left == null && t.right == null)
      ensures Holds(HeapOf(t), S - {t}, nodes') && Holds(other, R, rs) && ntimers == old(ntimers) - |S| + |S - {t}|
    {
      hide Loop.Alive, Loop.Valid, Loop.Doomed, Holds, Distinct, FlagsIn;
      Apart(HeapOf(t), S, nodes, other, R, rs);
      nodes' := DeleteFrom(t, S, nodes);
      StillHolds(Holding(other, R, rs), {t.ev});
    }

    /** `htimer_del`: the timer is in no heap any more, and freed unless its callback is still to come. */
    method Delete(t: Timer, ghost T: set<Timer>, ghost ts: seq<Timer>, ghost R: set<Timer>, ghost rs: seq<Timer>)
      returns (ghost ts': seq<Timer>, ghost rs': seq<Timer>)
      requires loop.Alive({}) && Valid(T, ts, R, rs) && Known(t, T + R)
      modifies HeapOf(t), T`parent, T`left, T`right, R`parent, R`left, R`right, `ntimers, loop`nactives, loop`log, t.ev`destroy, t.ev`active, t.ev`freed
      ensures loop.Alive({}) && FlagsIn(loop.events) == old(FlagsIn(loop.events))[t.ev := Step(old(FlagsOf(t.ev)), Deleted(t.ev))] && loop.log == old(loop.log) + [Deleted(t.ev)]
      ensures loop.Doomed() == old(loop.Doomed()) + {t.ev} && (t in T + R ==> t.left == null && t.right == null)
      ensures Valid(T - {t}, ts', R - {t}, rs')
    {
      ts', rs' := ts, rs;
      InOwnHeap(t, T, ts, R, rs);
      hide Loop.Alive, Loop.Valid, Loop.Doomed, Holds, Distinct, Known, FlagsIn;
      if t.isPeriod {
        rs' := DeleteBeside(t, timers, R, rs, T, ts);
      } else {
        ts' := DeleteBeside(t, realtimers, T, ts, R, rs);
      }
    }

    lemma InOwnHeap(t: Timer, T: set<Timer>, ts: seq<Timer>, R: set<Timer>, rs: seq<Timer>)
      requires Valid(T, ts, R, rs)
      ensures if t.isPeriod then T - {t} == T && t !in T else R - {t} == R && t !in R
      ensures Distinct(R + T) && Distinct(T - {t} + (R - {t})) && T + R == R + T
    {
      hide Distinct, Heap.Valid, Waiting;
      StillDistinct(T, R, T, R);
      StillDistinct(T, R, T - {t}, R - {t});
    }

    /** The new countdown and the new time of htimer_reset. */
    method Rewind(t: Timer, timeout: nat, now: nat)
      requires t.timeout > 0
      modifies t`nextTimeout, t`timeout, t`repeat, t`total, t`fired
      ensures t.repeat == (if old(t.repeat) == 0 then 1 else old(t.repeat)) && t.total == t.repeat && t.fired == 0
      ensures t.timeout == (if timeout > 0 then timeout else old(t.timeout)) && now < t.nextTimeout && DueIn(t.timeout, now, t.nextTimeout)
    {
      if t.repeat == 0 {
        t.repeat := 1;
      }
      if timeout > 0 {
        t.timeout := timeout;
      }
      GranularLater(t.timeout, now);
      hide DueIn;
      t.nextTimeout := Granular(t.timeout, now + t.timeout * 1000);
      t.total, t.fired := t.repeat, 0;
    }

    /** The heap part of htimer_reset: back in, whether the timer was there or destroyed. */
    method Rearm(t: Timer, timeout: nat, now: nat, ghost T: set<Timer>, ghost ts: seq<Timer>) returns (ghost ts': seq<Timer>)
      requires Heap.Valid(timers, T, ts) && ntimers >= |T| && t.timeout > 0
      requires t !in T ==> t.left == null && t.right == null
      requires t in T <==> !t.ev.destroy
      modifies timers, T`parent, T`left, T`right, t`parent, t`left, t`right, t`nextTimeout, t`timeout, t`repeat, t`total, t`fired, `ntimers
      ensures Heap.Valid(timers, T + {t}, ts') && ntimers == old(ntimers) - |T| + |T + {t}|
      ensures t.repeat == (if old(t.repeat) == 0 then 1 else old(t.repeat)) && t.total == t.repeat && t.fired == 0
      ensures t.timeout == (if timeout > 0 then timeout else old(t.timeout)) && now < t.nextTimeout && DueIn(t.timeout, now, t.nextTimeout)
    {
      hide Heap.Valid, DueIn;
      ts' := ts;
      if t.ev.destroy {
        assert T - {t} == T;
        ntimers := ntimers + 1;
      } else {
        assert T + {t} == T;
        ts' := Remove(timers, t, T, ts);
      }
      Rewind(t, timeout, now);
      ts' := Heap.Insert(timers, t, T - {t}, ts');
      assert T - {t} + {t} == T + {t};
    }

    /** `EVENT_RESET` on the event of `t`. */
    method ResetEvent(t: Timer, ghost S: set<Timer>)
      requires loop.Alive({}) && t.ev in loop.events && !t.ev.isIo && !t.ev.freed && forall u | u in S && u.ev == t.ev :: u == t
      modifies loop`nactives, loop`log, t.ev`active, t.ev`destroy, t.ev`pending
      ensures loop.Alive({}) && FlagsIn(loop.events) == old(FlagsIn(loop.events))[t.ev := Step(old(FlagsOf(t.ev)), Rearmed(t.ev))]
      ensures loop.log == old(loop.log) + [Rearmed(t.ev)] && loop.Doomed() == old(loop.Doomed()) - {t.ev} && t.ev.active && !t.ev.destroy
      ensures forall u | u in S - {t} && old(Waiting(u)) :: Waiting(u)
    {
      hide Loop.Alive, Loop.Valid, Loop.Doomed;
      loop.Reset(t.ev);
    }

    /** htimer_reset of a timeout: back in its heap for the full timeout from now, with its countdown anew. */
    method ResetTimeout(t: Timer, timeout: nat, now: nat, ghost T: set<Timer>, ghost ts: seq<Timer>) returns (ghost ts': seq<Timer>)
      requires loop.Alive({}) && Holds(timers, T, ts) && ntimers >= |T| && t.timeout > 0 && t.repeat <= INFINITE && !t.isPeriod && Known(t, T)
      requires t !in T ==> t.left == null && t.right == null
      modifies timers, T`parent, T`left, T`right, t, `ntimers, loop`nactives, loop`log, t.ev`active, t.ev`destroy, t.ev`pending
      ensures loop.Alive({}) && FlagsIn(loop.events) == old(FlagsIn(loop.events))[t.ev := Step(old(FlagsOf(t.ev)), Rearmed(t.ev))] && loop.log == old(loop.log) + [Rearmed(t.ev)]
      ensures loop.Doomed() == old(loop.Doomed()) - {t.ev}
      ensures Holds(timers, T + {t}, ts') && ntimers == old(ntimers) - |T| + |T + {t}|
      ensures t.repeat == (if old(t.repeat) == 0 then 1 else old(t.repeat)) && t.total == t.repeat && t.fired == 0
      ensures t.timeout == (if timeout > 0 then timeout else old(t.timeout)) && now < t.nextTimeout && DueIn(t.timeout, now, t.nextTimeout)
    {
      hide Loop.Alive, Loop.Valid, Loop.Doomed, Heap.Valid, Distinct, Waiting, Step, DueIn, FlagsIn;
      ts' := Rearm(t, timeout, now, T, ts);
      ResetEvent(t, T);
      assert Waiting(t) by { WaitsAgain(t); }
      Joined(timers, T, ts', t);
    }

    lemma WaitsAgain(t: Timer)
      requires t.ev in loop.events && t.ev.active && !t.ev.destroy && !t.ev.isIo
      requires t.total == t.repeat && 0 < t.repeat <= INFINITE && t.fired == 0 && t.timeout > 0
      ensures Waiting(t)
    {
    }

    lemma Joined(heap: TimerHeap, S: set<Timer>, nodes: seq<Timer>, t: Timer)
      requires Heap.Valid(heap, S + {t}, nodes) && Distinct(S) && HeapOf(t) == heap && Waiting(t)
      requires forall u | u in S :: HeapOf(u) == heap && (u.ev != t.ev ==> Waiting(u))
      requires forall u | u in S && u.ev == t.ev :: u == t
      ensures Holds(heap, S + {t}, nodes)
    {
    }

    /** `htimer_reset`; a period timer is left alone. */
    method Reset(t: Timer, timeout: nat, now: nat, ghost T: set<Timer>, ghost ts: seq<Timer>, ghost R: set<Timer>, ghost rs: seq<Timer>)
      returns (ghost ts': seq<Timer>)
      requires loop.Alive({}) && Valid(T, ts, R, rs) && Known(t, T + R) && t.repeat <= INFINITE && (!t.isPeriod ==> t.timeout > 0)
      requires t !in T + R ==> t.left == null && t.right == null
      modifies timers, T`parent, T`left, T`right, t, `ntimers, loop`nactives, loop`log, t.ev`active, t.ev`destroy, t.ev`pending
      ensures loop.Alive({}) && Valid(if t.isPeriod then T else T + {t}, ts', R, rs)
      ensures t.isPeriod ==> ts' == ts && unchanged(t) && unchanged(t.ev) && loop.log == old(loop.log) && loop.Doomed() == old(loop.Doomed())
      ensures !t.isPeriod ==> FlagsIn(loop.events) == old(FlagsIn(loop.events))[t.ev := Step(old(FlagsOf(t.ev)), Rearmed(t.ev))] && loop.log == old(loop.log) + [Rearmed(t.ev)]
      ensures !t.isPeriod ==> loop.Doomed() == old(loop.Doomed()) - {t.ev}
      ensures !t.isPeriod ==> t.repeat == (if old(t.repeat) == 0 then 1 else old(t.repeat)) && t.total == t.repeat && t.fired == 0
      ensures !t.isPeriod ==> t.timeout == (if timeout > 0 then timeout else old(t.timeout)) && now < t.nextTimeout && DueIn(t.timeout, now, t.nextTimeout)
    {
      hide Loop.Alive, Loop.Valid, Loop.Doomed, Holds, Distinct, Known, DueIn, EventsOf, FlagsIn;
      ts' := ts;
      if t.isPeriod {
        return;
      }
      Rejoins(t, T, ts, R, rs);
      ts' := ResetTimeout(t, timeout, now, T, ts);
      StillHolds(Holding(realtimers, R, rs), {t.ev});
    }

    lemma Rejoins(t: Timer, T: set<Timer>, ts: seq<Timer>, R: set<Timer>, rs: seq<Timer>)
      requires Valid(T, ts, R, rs) && Known(t, T + R) && !t.isPeriod
      ensures t !in R && Known(t, T) && EventsOf(R) !! {t.ev} && Distinct(T + {t} + R) && T !! R
    {
      hide Heap.Valid, Waiting;
    }
  }

  lemma OutOf(S0: set<Timer>, S: set<Timer>, t: Timer)
    requires S <= S0 && t in S
    ensures S0 - (S - {t}) == S0 - S + {t} && (S0 - S) !! S
  {
  }

  /** `e` with the flags `f` is as active and as marked as it was. */
  ghost predicate Alike(m: map<Event, Flags>, e: Event, f: Flags) { e in m && m[e].active == f.active && m[e].destroy == f.destroy }

  /** The timers of `S` have no children. */
  ghost predicate Loose(S: set<Timer>)
    reads S`left, S`right
  {
    forall u | u in S :: u.left == null && u.right == null
  }

  /** What processing reads and writes in a timer. */
  datatype Status = Status(repeat: nat, fired: nat, next: nat, total: nat, timeout: nat)

  ghost function StatusAt(t: Timer): Status
    reads t`repeat, t`fired, t`nextTimeout, t`total, t`timeout
  {
    Status(t.repeat, t.fired, t.nextTimeout, t.total, t.timeout)
  }

  ghost function StatusOf(S: set<Timer>): (m: map<Timer, Status>)
    reads S`repeat, S`fired, S`nextTimeout, S`total, S`timeout
    ensures m.Keys == S
  {
    map t | t in S :: StatusAt(t)
  }

  lemma SameStatus(S: set<Timer>, t: Timer)
    requires t in S
    ensures StatusOf(S)[t := StatusAt(t)] == StatusOf(S)
  {
  }

  lemma StatusMeans(S: set<Timer>)
    ensures forall t | t in S :: StatusOf(S)[t] == StatusAt(t)
  {
  }

  ghost function Due(m: map<Timer, Status>, now: nat): set<Timer> { set t | t in m && m[t].next <= now }

  function EventsOf(S: set<Timer>): set<Event> { set t | t in S :: t.ev }

  lemma EventsOfUnion(S: set<Timer>, T: set<Timer>)
    ensures EventsOf(S + T) == EventsOf(S) + EventsOf(T)
  {
  }

  lemma EventsOfSubset(S: set<Timer>, S': set<Timer>)
    requires S' <= S
    ensures EventsOf(S') <= EventsOf(S)
  {
  }

  /** What processing counts in the loop: `ntimers`, the events that are linked and those to be deleted, how often each has
      become pending. */
  datatype Tally = Tally(ntimers: int, linked: set<Event>, doomed: set<Event>, joined: multiset<Event>)

  /** `n` timers, the set `done`, have had their turn since `start`, and `S` has become `S'`. */
  ghost predicate Progress(start: Tally, tally: Tally, n: int, due: set<Timer>, done: set<Timer>, S: set<Timer>, S': set<Timer>) {
    && S' <= S && done <= due && n == |done| && tally.ntimers == start.ntimers - (|S| - |S'|)
    && tally.linked == start.linked + EventsOf(done) && tally.doomed == start.doomed + EventsOf(S - S')
    && Grown(start.linked, start.joined, tally.linked, tally.joined)
  }

  lemma ProgressStart(start: Tally, due: set<Timer>, S: set<Timer>)
    ensures Progress(start, start, 0, due, {}, S, S)
  {
  }

  lemma ProgressTurn(start: Tally, was: Tally, tally: Tally, n: int, due: set<Timer>, done: set<Timer>, t: Timer,
                     S0: set<Timer>, S: set<Timer>, S': set<Timer>)
    requires Progress(start, was, n, due, done, S0, S) && t in due && t !in done && S' <= S
    requires tally == Tally(was.ntimers - (|S| - |S'|), was.linked + {t.ev}, was.doomed + EventsOf(S - S'), tally.joined)
    requires Grown(was.linked, was.joined, tally.linked, tally.joined)
    ensures Progress(start, tally, n + 1, due, done + {t}, S0, S') && n < |due|
  {
    hide Grown;
    GrownOn(start.linked, start.joined, was.linked, was.joined, tally.linked, tally.joined);
    CountWithoutTimer(due - done, t);
    EventsOfUnion(done, {t});
    assert EventsOf({t}) == {t.ev};
    EventsOfUnion(S0 - S, S - S');
    assert S0 - S + (S - S') == S0 - S';
  }

  lemma ProgressOver(start: Tally, tally: Tally, n: int, due: set<Timer>, done: set<Timer>, S: set<Timer>, S': set<Timer>)
    requires Progress(start, tally, n, due, done, S, S') && done == due
    ensures n == |due| && tally == Tally(start.ntimers - (|S| - |S'|), start.linked + EventsOf(due), start.doomed + EventsOf(S - S'), tally.joined)
    ensures Grown(start.linked, start.joined, tally.linked, tally.joined)
  {
  }

  /** A due timer has fired once more, and is deleted or due later. */
  ghost predicate Outcome(before: Status, after: Status, isPeriod: bool, now: nat) {
    && after.total == before.total && after.timeout == before.timeout
    && after.repeat == Decremented(before.repeat) && after.fired == before.fired + 1
    && (after.repeat == 0 ==> after.fired == after.total)
    && Moved(before.next, after.next, after.repeat, isPeriod, after.timeout, now)
  }

  /** The timers `done` have had their turn, the others are as they were; `S` are still in the heap. */
  ghost predicate Account(before: map<Timer, Status>, after: map<Timer, Status>, done: set<Timer>, S: set<Timer>, now: nat) {
    && done <= Due(before, now) && S <= before.Keys == after.Keys
    && (forall t | t in before && t in done :: Outcome(before[t], after[t], t.isPeriod, now) && (t in S <==> after[t].repeat != 0))
    && (forall t | t in before && t !in done :: after[t] == before[t] && t in S)
  }

  lemma AccountStart(before: map<Timer, Status>, now: nat)
    ensures Account(before, before, {}, before.Keys, now)
  {
  }

  lemma AccountTurn(before: map<Timer, Status>, after: map<Timer, Status>, done: set<Timer>, S: set<Timer>, S': set<Timer>,
                    t: Timer, status: Status, now: nat)
    requires Account(before, after, done, S, now) && t in S && t in after && after[t].next <= now
    requires Outcome(after[t], status, t.isPeriod, now) && S' == if status.repeat == 0 then S - {t} else S
    ensures t !in done && t in before && before[t].next <= now && S' <= before.Keys
    ensures Account(before, after[t := status], done + {t}, S', now)
  {
  }

  lemma AccountOver(before: map<Timer, Status>, after: map<Timer, Status>, done: set<Timer>, S: set<Timer>, now: nat)
    requires Account(before, after, done, S, now) && forall t | t in S :: t in after && after[t].next > now
    ensures done == Due(before, now) && Processed(before, after, S, now)
  {
  }

  /** Exactly the due timers have had their turn; those still in the heap are due after `now`. */
  ghost predicate Processed(before: map<Timer, Status>, after: map<Timer, Status>, S: set<Timer>, now: nat) {
    && Account(before, after, Due(before, now), S, now)
    && forall t | t in S :: t in after && after[t].next > now
  }

  /** A timer set at `since` has had no turn when `now` is earlier than its timeout, less a tenth of a second if that is
      coarse, and one when it is not. */
  lemma FirstFiring(before: map<Timer, Status>, after: map<Timer, Status>, S: set<Timer>, now: nat, t: Timer, timeout: nat, since: nat)
    requires Processed(before, after, S, now) && t in before && before[t].fired == 0 && timeout > 0 && DueIn(timeout, since, before[t].next)
    ensures now >= since + timeout * 1000 ==> after[t].fired == 1
    ensures now + (if timeout < 1000 || timeout % 100 != 0 then 0 else 99_999) < since + timeout * 1000 ==> after[t].fired == 0 && after[t].next == before[t].next
  {
  }

  lemma CountWithoutTimer(s: set<Timer>, t: Timer)
    requires t in s
    ensures |s - {t}| == |s| - 1
  {
    assert s - {t} !! {t} && s == s - {t} + {t};
  }
}
