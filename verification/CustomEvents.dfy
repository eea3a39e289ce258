/** Events posted from other threads: hloop_post_event and eventfd_read_cb, and EventLoop's queue of functors above
    them. Every interleaving of the threads is a sequence of the actions below. */
module CustomEvents {

  /** An event in the queue of the loop; the callback of a layered one is `onCustomEvent`, which runs the next functor. */
  datatype Ev = Ev(layered: bool, id: nat)

  /** Where a thread is in a post. From `Holding` on it has the mutex. */
  datatype Pc =
    | Away
    | Entering(ev: Ev)
    | Holding(ev: Ev)
    | Wrote(ev: Ev)
    | Leaving

  /** Where the loop thread is in eventfd_read_cb; `left` events of the last read are still to be taken. */
  datatype Reader =
    | Polling
    | Taking(left: nat)
    | Inside(left: nat)
    | Popped(ev: Ev, left: nat)
    | Calling(ev: Ev, left: nat)
    | InCallback(left: nat)

  datatype Mutex = Free | Poster(t: nat) | Reading

  /** The thread that runs the loop. */
  const LOOP_THREAD: nat := 0

  datatype State = State(
    queue: seq<Ev>,
    counter: nat,
    mutex: Mutex,
    pcs: map<nat, Pc>,
    reader: Reader,
    customEvents: seq<nat>,
    // what has happened so far
    pushed: seq<Ev>,
    popped: seq<Ev>,
    functors: seq<nat>,
    run: seq<nat>,
    failed: nat)

  function Init(threads: set<nat>): State {
    State([], 0, Free, map t | t in threads :: Away, Polling, [], [], [], [], [], 0)
  }

  datatype Action =
    | Post(t: nat, ev: Ev)
    | Lock(t: nat)
    | Write(t: nat)
    | WriteFails(t: nat)
    | Push(t: nat)
    | Unlock(t: nat)
    | Read(k: nat)
    | ReaderLock
    | ReaderPop
    | ReaderFindsEmpty
    | ReaderUnlock
    | ReaderCall
    | ReaderNext

  predicate Enabled(s: State, a: Action) {
    match a
    case Post(t, _) => t in s.pcs && s.pcs[t].Away? && (t == LOOP_THREAD ==> s.reader.Polling? || s.reader.InCallback?)
    case Lock(t) => t in s.pcs && s.pcs[t].Entering? && s.mutex.Free?
    case Write(t) => t in s.pcs && s.pcs[t].Holding?
    case WriteFails(t) => t in s.pcs && s.pcs[t].Holding?
    case Push(t) => t in s.pcs && s.pcs[t].Wrote?
    case Unlock(t) => t in s.pcs && s.pcs[t].Leaving?
    case Read(k) => s.reader.Polling? && LoopThreadFree(s) && 0 < k <= s.counter
    case ReaderLock => s.reader.Taking? && s.mutex.Free?
    case ReaderPop => s.reader.Inside? && s.queue != []
    case ReaderFindsEmpty => s.reader.Inside? && s.queue == []
    case ReaderUnlock => s.reader.Popped?
    case ReaderCall => s.reader.Calling?
    case ReaderNext => s.reader.InCallback? && LoopThreadFree(s)
  }

  predicate LoopThreadFree(s: State) { LOOP_THREAD in s.pcs ==> s.pcs[LOOP_THREAD].Away? }

  function At(s: State, t: nat, pc: Pc): State { s.(pcs := s.pcs[t := pc]) }

  /** What an action does. The loop of eventfd_read_cb ends early when it finds the queue empty, and `pop` on an empty
      std::queue, which the language leaves undefined, is taken to change nothing. */
  function Next(s: State, a: Action): State
    requires Enabled(s, a)
  {
    match a
    case Post(t, ev) =>
      // postEvent has pushed its functor; an event of another kind goes to hloop_post_event at once
      var s1 := At(s, t, Entering(ev));
      if ev.layered then s1.(customEvents := s.customEvents + [ev.id], functors := s.functors + [ev.id]) else s1
    case Lock(t) => At(s, t, Holding(s.pcs[t].ev)).(mutex := Poster(t))
    case Write(t) => At(s, t, Wrote(s.pcs[t].ev)).(counter := s.counter + 1)
    case WriteFails(t) => At(s, t, Leaving).(failed := s.failed + if s.pcs[t].ev.layered then 1 else 0)
    case Push(t) => At(s, t, Leaving).(queue := s.queue + [s.pcs[t].ev], pushed := s.pushed + [s.pcs[t].ev])
    case Unlock(t) => At(s, t, Away).(mutex := Free)
    case Read(k) => s.(counter := s.counter - k, reader := Taking(k))
    case ReaderLock => s.(mutex := Reading, reader := Inside(s.reader.left))
    case ReaderPop =>
      s.(queue := s.queue[1..], popped := s.popped + [s.queue[0]],
         reader := Popped(s.queue[0], if s.reader.left == 0 then 0 else s.reader.left - 1))
    case ReaderFindsEmpty => s.(mutex := Free, reader := Polling)
    case ReaderUnlock => s.(mutex := Free, reader := Calling(s.reader.ev, s.reader.left))
    case ReaderCall =>
      var s1 := s.(reader := InCallback(s.reader.left));
      if s.reader.ev.layered && s.customEvents != []
      then s1.(customEvents := s.customEvents[1..], run := s.run + [s.customEvents[0]])
      else s1
    case ReaderNext => s.(reader := if s.reader.left == 0 then Polling else Taking(s.reader.left))
  }

  /** Each action of `run` is enabled when its turn comes. */
  predicate Legal(s: State, run: seq<Action>)
    decreases |run|
  {
    run == [] || (Enabled(s, run[0]) && Legal(Next(s, run[0]), run[1..]))
  }

  function After(s: State, run: seq<Action>): State
    requires Legal(s, run)
    decreases |run|
  {
    if run == [] then s else After(Next(s, run[0]), run[1..])
  }

  // ------------------------------------------------------------ the invariant

  function Unread(r: Reader): nat {
    match r
    case Polling => 0
    case Taking(n) => n
    case Inside(n) => n
    case Popped(_, n) => n
    case Calling(_, n) => n
    case InCallback(n) => n
  }

  /** One while a poster is between its write and its push. */
  function Between(s: State): nat {
    if s.mutex.Poster? && s.mutex.t in s.pcs && s.pcs[s.mutex.t].Wrote? then 1 else 0
  }

  /** Each byte or count in the fd stands for an event in the queue, but for the poster that has still to push. */
  predicate CountOk(s: State) { s.counter + Unread(s.reader) == |s.queue| + Between(s) }

  predicate Holds(pc: Pc) { pc.Holding? || pc.Wrote? || pc.Leaving? }

  predicate MutexOk(s: State) {
    && (s.mutex.Poster? ==> s.mutex.t in s.pcs)
    && (forall t | t in s.pcs :: Holds(s.pcs[t]) <==> s.mutex == Poster(t))
    && (s.mutex.Reading? <==> s.reader.Inside? || s.reader.Popped?)
    && (s.reader.Taking? || s.reader.Inside? ==> s.reader.left > 0)
    && (s.reader.Polling? || s.reader.InCallback? || LoopThreadFree(s))
  }

  function LayeredOf(q: seq<Ev>): nat {
    if q == [] then 0 else (if q[0].layered then 1 else 0) + LayeredOf(q[1..])
  }

  predicate Carries(pc: Pc) { (pc.Entering? || pc.Holding? || pc.Wrote?) && pc.ev.layered }

  /** The threads whose functor is queued and whose event is not. */
  function InFlight(pcs: map<nat, Pc>): set<nat> { set t | t in pcs && Carries(pcs[t]) }

  function InHand(r: Reader): nat { if (r.Popped? || r.Calling?) && r.ev.layered then 1 else 0 }

  /** Each functor waits for an event: in the queue, in the hands of the reader or on its way; failed posts leave theirs behind. */
  predicate LayerOk(s: State) {
    |s.customEvents| == LayeredOf(s.queue) + |InFlight(s.pcs)| + InHand(s.reader) + s.failed
  }

  predicate OrderOk(s: State) { s.pushed == s.popped + s.queue && s.functors == s.run + s.customEvents }

  predicate Inv(s: State) { CountOk(s) && MutexOk(s) && LayerOk(s) && OrderOk(s) }

  // ------------------------------------------------------------ every action keeps it

  lemma CountKept(s: State, a: Action)
    requires Enabled(s, a) && CountOk(s) && MutexOk(s)
    ensures CountOk(Next(s, a))
  {
  }

  lemma MutexKept(s: State, a: Action)
    requires Enabled(s, a) && CountOk(s) && MutexOk(s)
    ensures MutexOk(Next(s, a))
  {
  }

  lemma OrderKept(s: State, a: Action)
    requires Enabled(s, a) && OrderOk(s)
    ensures OrderOk(Next(s, a))
  {
  }

  lemma {:induction false} LayeredAppend(q: seq<Ev>, ev: Ev)
    ensures LayeredOf(q + [ev]) == LayeredOf(q) + if ev.layered then 1 else 0
  {
    if q != [] {
      assert (q + [ev])[1..] == q[1..] + [ev];
      LayeredAppend(q[1..], ev);
    }
  }

  /** A thread whose place changes joins, leaves or stays. */
  lemma InFlightMove(pcs: map<nat, Pc>, t: nat, pc: Pc)
    requires t in pcs
    ensures |InFlight(pcs[t := pc])| == |InFlight(pcs)| + (if Carries(pc) then 1 else 0) - (if Carries(pcs[t]) then 1 else 0)
  {
    var others := InFlight(pcs) - {t};
    assert InFlight(pcs) == if Carries(pcs[t]) then others + {t} else others;
    assert InFlight(pcs[t := pc]) == if Carries(pc) then others + {t} else others;
  }

  lemma LayerKept(s: State, a: Action)
    requires Enabled(s, a) && LayerOk(s)
    ensures LayerOk(Next(s, a))
  {
    match a
    case Post(t, ev) => InFlightMove(s.pcs, t, Entering(ev));
    case Lock(t) => InFlightMove(s.pcs, t, Holding(s.pcs[t].ev));
    case Write(t) => InFlightMove(s.pcs, t, Wrote(s.pcs[t].ev));
    case WriteFails(t) => InFlightMove(s.pcs, t, Leaving);
    case Push(t) =>
      InFlightMove(s.pcs, t, Leaving);
      LayeredAppend(s.queue, s.pcs[t].ev);
    case Unlock(t) => InFlightMove(s.pcs, t, Away);
    case _ =>
  }

  lemma InvKept(s: State, a: Action)
    requires Enabled(s, a) && Inv(s)
    ensures Inv(Next(s, a))
  {
    CountKept(s, a);
    MutexKept(s, a);
    LayerKept(s, a);
    OrderKept(s, a);
  }

  lemma InvAtStart(threads: set<nat>)
    ensures Inv(Init(threads))
  {
    assert InFlight(Init(threads).pcs) == {};
  }

  /** The invariant holds in every run, however the threads interleave and whichever writes fail. */
  lemma {:induction false} RunKeepsInv(s: State, run: seq<Action>)
    requires Inv(s) && Legal(s, run)
    ensures Inv(After(s, run))
    decreases |run|
  {
    if run != [] {
      InvKept(s, run[0]);
      RunKeepsInv(Next(s, run[0]), run[1..]);
    }
  }

  /** No thread is inside a post and the loop thread waits for the fd. */
  predicate Quiet(s: State) { s.mutex.Free? && s.reader.Polling? && forall t | t in s.pcs :: s.pcs[t].Away? }

  /** In every run: the reader never finds the queue empty and onCustomEvent never pops an empty queue; events are
      delivered once, in the order of their pushes, and functors in the order of theirs; and when all is quiet, the fd is
      readable as long as an event is queued, and the functors without an event are those of the failed posts. */
  lemma EveryRun(threads: set<nat>, run: seq<Action>)
    requires Legal(Init(threads), run)
    ensures var s := After(Init(threads), run);
      && !Enabled(s, ReaderFindsEmpty)
      && (Enabled(s, ReaderCall) && s.reader.ev.layered ==> s.customEvents != [])
      && s.popped <= s.pushed && s.run <= s.functors
      && (Quiet(s) ==> s.counter == |s.queue| && |s.customEvents| == LayeredOf(s.queue) + s.failed)
  {
    InvAtStart(threads);
    RunKeepsInv(Init(threads), run);
    var s := After(Init(threads), run);
    assert s.pushed[..|s.popped|] == s.popped && s.functors[..|s.run|] == s.run;
    if Quiet(s) { assert InFlight(s.pcs) == {}; }
  }

  // ------------------------------------------------------------ what was posted, by the actions alone

  function Posts(run: seq<Action>): seq<Ev> {
    if run == [] then []
    else Posts(run[..|run| - 1]) + if run[|run| - 1].Post? then [run[|run| - 1].ev] else []
  }

  /** The event that `t` has posted last. */
  function Latest(run: seq<Action>, t: nat): seq<Ev> {
    if run == [] then []
    else if run[|run| - 1].Post? && run[|run| - 1].t == t then [run[|run| - 1].ev]
    else Latest(run[..|run| - 1], t)
  }

  /** Each push is one of the event that its thread has posted last. */
  function Pushes(run: seq<Action>): seq<Ev> {
    if run == [] then []
    else Pushes(run[..|run| - 1]) + if run[|run| - 1].Push? then Latest(run, run[|run| - 1].t) else []
  }

  /** The events of the writes that failed. */
  function Drops(run: seq<Action>): seq<Ev> {
    if run == [] then []
    else Drops(run[..|run| - 1]) + if run[|run| - 1].WriteFails? then Latest(run, run[|run| - 1].t) else []
  }

  function LayeredIds(q: seq<Ev>): seq<nat> {
    if q == [] then [] else LayeredIds(q[..|q| - 1]) + if q[|q| - 1].layered then [q[|q| - 1].id] else []
  }

  predicate OnItsWay(pc: Pc, ev: Ev) { (pc.Entering? || pc.Holding? || pc.Wrote?) && pc.ev == ev }

  /** The threads with `ev` in their hands. */
  function Carriers(pcs: map<nat, Pc>, ev: Ev): set<nat> { set t | t in pcs && OnItsWay(pcs[t], ev) }

  function Count(q: seq<Ev>, ev: Ev): nat { multiset(q)[ev] }

  /** A thread inside a post has the event that it has posted last. */
  ghost predicate HandsTraced(s: State, run: seq<Action>) {
    forall t, ev | t in s.pcs && OnItsWay(s.pcs[t], ev) :: Latest(run, t) == [ev]
  }

  /** What the state records is what the actions say. */
  ghost predicate Traced(s: State, run: seq<Action>) {
    && HandsTraced(s, run) && s.pushed == Pushes(run) && s.functors == LayeredIds(Posts(run))
    && (s.reader.Popped? || s.reader.Calling? ==> s.popped != [] && s.reader.ev == s.popped[|s.popped| - 1])
  }

  /** Each event posted is pushed, on its way or dropped, as often as it was posted. */
  ghost predicate Counted(s: State, run: seq<Action>, ev: Ev) {
    Count(Posts(run), ev) == Count(s.pushed, ev) + |Carriers(s.pcs, ev)| + Count(Drops(run), ev)
  }

  /** A thread whose place changes picks the event up, lets go of it or neither. */
  lemma CarriersMove(pcs: map<nat, Pc>, t: nat, pc: Pc, ev: Ev)
    requires t in pcs
    ensures |Carriers(pcs[t := pc], ev)| == |Carriers(pcs, ev)| + (if OnItsWay(pc, ev) then 1 else 0) - (if OnItsWay(pcs[t], ev) then 1 else 0)
  {
    var others := Carriers(pcs, ev) - {t};
    assert Carriers(pcs, ev) == if OnItsWay(pcs[t], ev) then others + {t} else others;
    assert Carriers(pcs[t := pc], ev) == if OnItsWay(pc, ev) then others + {t} else others;
  }

  lemma OneActionMore(run: seq<Action>, a: Action)
    ensures var more := run + [a];
      && Posts(more) == (if a.Post? then Posts(run) + [a.ev] else Posts(run))
      && Pushes(more) == (if a.Push? then Pushes(run) + Latest(run, a.t) else Pushes(run))
      && Drops(more) == (if a.WriteFails? then Drops(run) + Latest(run, a.t) else Drops(run))
      && forall t :: Latest(more, t) == if a.Post? && a.t == t then [a.ev] else Latest(run, t)
  {
    assert (run + [a])[..|run|] == run;
  }

  lemma LayeredMore(q: seq<Ev>, ev: Ev)
    ensures LayeredIds(q + [ev]) == LayeredIds(q) + if ev.layered then [ev.id] else []
  {
    assert (q + [ev])[..|q|] == q;
  }

  lemma HandsKept(s: State, run: seq<Action>, a: Action)
    requires Enabled(s, a) && HandsTraced(s, run)
    ensures HandsTraced(Next(s, a), run + [a])
  {
    OneActionMore(run, a);
    hide Latest, Posts, Pushes, Drops;
    var s' := Next(s, a);
    forall t, ev | t in s'.pcs && OnItsWay(s'.pcs[t], ev) ensures Latest(run + [a], t) == [ev] {
      assert (a.Post? && a.t == t && a.ev == ev) || OnItsWay(s.pcs[t], ev);
    }
  }

  lemma NextPush(s: State, t: nat)
    requires Enabled(s, Push(t))
    ensures s.pcs[t].Wrote? && Next(s, Push(t)).pushed == s.pushed + [s.pcs[t].ev]
  {
  }

  lemma PushesKept(s: State, run: seq<Action>, a: Action)
    requires Enabled(s, a) && HandsTraced(s, run) && s.pushed == Pushes(run)
    ensures Next(s, a).pushed == Pushes(run + [a])
  {
    OneActionMore(run, a);
    if a.Push? {
      var e := s.pcs[a.t].ev;
      assert OnItsWay(s.pcs[a.t], e) && Latest(run, a.t) == [e];
      hide *;
      assert Next(s, a).pushed == s.pushed + [e] by { NextPush(s, a.t); }
    } else {
      hide Posts, Pushes, Drops, HandsTraced, Latest, OnItsWay;
    }
  }

  lemma FunctorsKept(s: State, run: seq<Action>, a: Action)
    requires Enabled(s, a) && s.functors == LayeredIds(Posts(run))
    ensures Next(s, a).functors == LayeredIds(Posts(run + [a]))
  {
    OneActionMore(run, a);
    if a.Post? { LayeredMore(Posts(run), a.ev); }
    hide Latest, Posts, Pushes, Drops, LayeredIds;
  }

  lemma TraceKept(s: State, run: seq<Action>, a: Action)
    requires Enabled(s, a) && Traced(s, run)
    ensures Traced(Next(s, a), run + [a])
  {
    HandsKept(s, run, a);
    PushesKept(s, run, a);
    FunctorsKept(s, run, a);
    hide Latest, Posts, Pushes, Drops, HandsTraced, LayeredIds, OnItsWay;
  }

  lemma CountMore(q: seq<Ev>, e: Ev, ev: Ev)
    ensures Count(q + [e], ev) == Count(q, ev) + if e == ev then 1 else 0
  {
  }

  lemma CountingKept(s: State, run: seq<Action>, a: Action, ev: Ev)
    requires Enabled(s, a) && HandsTraced(s, run) && Counted(s, run, ev)
    ensures Counted(Next(s, a), run + [a], ev)
  {
    OneActionMore(run, a);
    hide Posts, Pushes, Drops, Carriers, Count;
    if a.Post? || a.Lock? || a.Write? || a.WriteFails? || a.Push? || a.Unlock? {
      CarriersMove(s.pcs, a.t, Next(s, a).pcs[a.t], ev);
      if a.Post? {
        CountMore(Posts(run), a.ev, ev);
      } else if a.WriteFails? || a.Push? {
        var e := s.pcs[a.t].ev;
        assert OnItsWay(s.pcs[a.t], e) && Latest(run, a.t) == [e];
        hide Latest, HandsTraced;
        CountMore(Drops(run), e, ev);
        CountMore(s.pushed, e, ev);
      }
    }
  }

  lemma {:induction false} LegalLast(s: State, run: seq<Action>)
    requires Legal(s, run) && run != []
    ensures var init := run[..|run| - 1];
      Legal(s, init) && Enabled(After(s, init), run[|run| - 1]) && After(s, run) == Next(After(s, init), run[|run| - 1])
    decreases |run|
  {
    if |run| > 1 {
      LegalLast(Next(s, run[0]), run[1..]);
      assert run[1..][..|run| - 2] == run[..|run| - 1][1..];
    }
  }

  /** In every run the queue has got just the events that the threads have posted, each as often as it was posted, but for
      those on their way and those whose write failed; and the functors queued are those of the layered posts, in order. */
  lemma {:induction false} PostedExactly(threads: set<nat>, run: seq<Action>)
    requires Legal(Init(threads), run)
    ensures Traced(After(Init(threads), run), run) && forall ev :: Counted(After(Init(threads), run), run, ev)
    decreases |run|
  {
    var s0 := Init(threads);
    if run == [] {
      forall ev ensures Carriers(s0.pcs, ev) == {} {}
    } else {
      var init, a := run[..|run| - 1], run[|run| - 1];
      LegalLast(s0, run);
      PostedExactly(threads, init);
      var s := After(s0, init);
      assert run == init + [a];
      TraceKept(s, init, a);
      forall ev ensures Counted(After(s0, run), run, ev) { CountingKept(s, init, a, ev); }
    }
  }

  /** So every event handled was posted, and no event is handled more often than it was posted. */
  lemma HandledWasPosted(threads: set<nat>, run: seq<Action>)
    requires Legal(Init(threads), run)
    ensures multiset(After(Init(threads), run).popped) <= multiset(Posts(run))
  {
    var s := After(Init(threads), run);
    PostedExactly(threads, run);
    EveryRun(threads, run);
    assert s.pushed == s.popped + s.pushed[|s.popped|..];
    forall ev ensures multiset(s.popped)[ev] <= multiset(Posts(run))[ev] { assert Counted(s, run, ev); }
  }

  lemma NoneOnItsWay(threads: set<nat>, run: seq<Action>)
    requires Legal(Init(threads), run) && Quiet(After(Init(threads), run))
    ensures multiset(Posts(run)) == multiset(After(Init(threads), run).pushed) + multiset(Drops(run))
  {
    PostedExactly(threads, run);
    var s := After(Init(threads), run);
    hide After, Posts, Drops;
    forall ev ensures multiset(Posts(run))[ev] == multiset(s.pushed)[ev] + multiset(Drops(run))[ev] {
      assert Counted(s, run, ev) && Carriers(s.pcs, ev) == {};
    }
  }

  // ------------------------------------------------------------ nobody is stuck

  /** With the functor of `ev` queued, if it has one. */
  function Queued(s: State, ev: Ev): State {
    if ev.layered then s.(customEvents := s.customEvents + [ev.id], functors := s.functors + [ev.id]) else s
  }

  lemma Two(s: State, a: Action, b: Action)
    requires Enabled(s, a) && Enabled(Next(s, a), b)
    ensures Legal(s, [a, b]) && After(s, [a, b]) == Next(Next(s, a), b)
  {
    var s' := Next(Next(s, a), b);
    assert [a, b][1..] == [b] && [b][1..] == [];
    assert Legal(s', []) && After(s', []) == s';
    hide Enabled, Next;
    assert Legal(Next(s, a), [b]) && After(Next(s, a), [b]) == s';
  }

  lemma One(s: State, a: Action)
    requires Enabled(s, a)
    ensures Legal(s, [a]) && After(s, [a]) == Next(s, a)
  {
    assert [a][1..] == [] && Legal(Next(s, a), []);
    hide Enabled, Next;
  }

  /** A thread alone posts an event in five steps. */
  lemma PostGoesThrough(s: State, t: nat, ev: Ev)
    requires s.mutex.Free? && t in s.pcs && s.pcs[t].Away? && (t == LOOP_THREAD ==> s.reader.Polling? || s.reader.InCallback?)
    ensures var run := [Post(t, ev), Lock(t)] + [Write(t), Push(t)] + [Unlock(t)];
      Legal(s, run) && After(s, run) == Queued(s, ev).(queue := s.queue + [ev], pushed := s.pushed + [ev], counter := s.counter + 1)
  {
    var a, b := [Post(t, ev), Lock(t)], [Write(t), Push(t)];
    Two(s, Post(t, ev), Lock(t));
    var s2 := After(s, a);
    Two(s2, Write(t), Push(t));
    var s4 := After(s2, b);
    One(s4, Unlock(t));
    assert s4.pcs[t := Away] == s.pcs;
    assert Next(s4, Unlock(t)) == Queued(s, ev).(queue := s.queue + [ev], pushed := s.pushed + [ev], counter := s.counter + 1);
    hide *;
    LegalAppend(s, a, b);
    LegalAppend(s, a + b, [Unlock(t)]);
  }

  /** A write that fails changes nothing but that the functor stays behind. */
  lemma FailedPost(s: State, t: nat, ev: Ev)
    requires s.mutex.Free? && t in s.pcs && s.pcs[t].Away? && (t == LOOP_THREAD ==> s.reader.Polling? || s.reader.InCallback?)
    ensures var run := [Post(t, ev), Lock(t)] + [WriteFails(t), Unlock(t)];
      Legal(s, run) && After(s, run) == Queued(s, ev).(failed := s.failed + if ev.layered then 1 else 0)
  {
    var a, b := [Post(t, ev), Lock(t)], [WriteFails(t), Unlock(t)];
    Two(s, Post(t, ev), Lock(t));
    var s2 := After(s, a);
    Two(s2, WriteFails(t), Unlock(t));
    assert After(s2, b).pcs == s.pcs;
    assert After(s2, b) == Queued(s, ev).(failed := s.failed + if ev.layered then 1 else 0);
    hide *;
    LegalAppend(s, a, b);
  }

  /** No deadlock: in every run, as long as there is anything to do somebody can do it. */
  lemma SomebodyCan(threads: set<nat>, run: seq<Action>)
    requires Legal(Init(threads), run)
    ensures var s := After(Init(threads), run);
      (exists a :: Enabled(s, a) && !a.Post?) || (Quiet(s) && s.queue == [])
  {
    InvAtStart(threads);
    RunKeepsInv(Init(threads), run);
    CanMove(After(Init(threads), run));
  }

  lemma CanMove(s: State)
    requires CountOk(s) && MutexOk(s)
    ensures (exists a :: Enabled(s, a) && !a.Post?) || (Quiet(s) && s.queue == [])
  {
    match s.mutex
    case Poster(t) =>
      assert Holds(s.pcs[t]);
      assert Enabled(s, Write(t)) || Enabled(s, Push(t)) || Enabled(s, Unlock(t));
    case Reading => assert Enabled(s, ReaderPop) || Enabled(s, ReaderFindsEmpty) || Enabled(s, ReaderUnlock);
    case Free =>
      if t :| t in s.pcs && !s.pcs[t].Away? {
        assert !Holds(s.pcs[t]);
        assert Enabled(s, Lock(t));
      } else if s.reader.Polling? {
        if s.queue != [] { assert Enabled(s, Read(s.counter)); }
      } else {
        assert Enabled(s, ReaderLock) || Enabled(s, ReaderCall) || Enabled(s, ReaderNext);
      }
  }

  // ------------------------------------------------------------ everything is delivered

  /** One event from `Taking`: lock, pop, unlock, callback, next. */
  function Round(): seq<Action> { [ReaderLock, ReaderPop, ReaderUnlock, ReaderCall, ReaderNext] }

  lemma RoundTakesOne(s: State)
    requires Inv(s) && s.mutex.Free? && s.reader.Taking? && (forall t | t in s.pcs :: s.pcs[t].Away?) && s.counter == 0
    ensures s.queue != [] && Legal(s, Round())
    ensures var s' := After(s, Round());
      && s'.queue == s.queue[1..] && s'.mutex.Free? && s'.counter == 0 && s'.pcs == s.pcs && s'.failed == s.failed
      && s'.pushed == s.pushed && s'.functors == s.functors
      && s'.reader == if s.reader.left == 1 then Polling else Taking(s.reader.left - 1)
  {
    var s1 := Next(s, ReaderLock);
    var s2 := Next(s1, ReaderPop);
    var s3 := Next(s2, ReaderUnlock);
    var s4 := Next(s3, ReaderCall);
    var s5 := Next(s4, ReaderNext);
    assert Round()[1..] == [ReaderPop, ReaderUnlock, ReaderCall, ReaderNext];
    assert Round()[1..][1..] == [ReaderUnlock, ReaderCall, ReaderNext];
    assert Round()[1..][1..][1..] == [ReaderCall, ReaderNext];
    assert Round()[1..][1..][1..][1..] == [ReaderNext];
    assert Round()[1..][1..][1..][1..][1..] == [];
    assert Legal(s5, []) && After(s5, []) == s5;
    assert Legal(s4, [ReaderNext]) && After(s4, [ReaderNext]) == s5;
    assert Legal(s3, [ReaderCall, ReaderNext]) && After(s3, [ReaderCall, ReaderNext]) == s5;
    assert Legal(s2, [ReaderUnlock, ReaderCall, ReaderNext]) && After(s2, [ReaderUnlock, ReaderCall, ReaderNext]) == s5;
  }

  lemma {:induction false} LegalAppend(s: State, a: seq<Action>, b: seq<Action>)
    requires Legal(s, a) && Legal(After(s, a), b)
    ensures Legal(s, a + b) && After(s, a + b) == After(After(s, a), b)
    decreases |a|
  {
    if a == [] {
      assert a + b == b;
    } else {
      assert (a + b)[0] == a[0] && (a + b)[1..] == a[1..] + b;
      LegalAppend(Next(s, a[0]), a[1..], b);
    }
  }

  /** A step of the loop thread. */
  predicate OfLoop(a: Action) {
    a.Read? || a.ReaderLock? || a.ReaderPop? || a.ReaderFindsEmpty? || a.ReaderUnlock? || a.ReaderCall? || a.ReaderNext?
  }

  lemma {:induction false} RoundsTakeAll(s: State) returns (run: seq<Action>)
    requires Inv(s) && s.mutex.Free? && s.reader.Taking? && (forall t | t in s.pcs :: s.pcs[t].Away?) && s.counter == 0
    ensures Legal(s, run) && Quiet(After(s, run)) && After(s, run).queue == []
    ensures After(s, run).pushed == s.pushed && After(s, run).functors == s.functors && After(s, run).failed == s.failed
    ensures forall a | a in run :: OfLoop(a)
    decreases |s.queue|
  {
    RoundTakesOne(s);
    RunKeepsInv(s, Round());
    var s' := After(s, Round());
    if s'.reader.Polling? {
      run := Round();
    } else {
      var rest := RoundsTakeAll(s');
      run := Round() + rest;
      LegalAppend(s, Round(), rest);
    }
  }

  /** From any quiet state the loop thread alone delivers all there is: every event posted has then been handled, but for those
      whose write failed, and every functor has run but as many as posts have failed. */
  lemma LoopDeliversAll(threads: set<nat>, run: seq<Action>) returns (more: seq<Action>)
    requires Legal(Init(threads), run) && Quiet(After(Init(threads), run))
    ensures Legal(Init(threads), run + more) && forall a | a in more :: OfLoop(a)
    ensures var s, s' := After(Init(threads), run), After(Init(threads), run + more);
      && Quiet(s') && s'.popped == s'.pushed == s.pushed && s'.functors == s.functors
      && |s'.run| == |s.functors| - s.failed
      && multiset(Posts(run)) == multiset(s'.popped) + multiset(Drops(run))
  {
    var s0 := Init(threads);
    var s := After(s0, run);
    NoneOnItsWay(threads, run);
    EveryRun(threads, run);
    InvAtStart(threads);
    RunKeepsInv(s0, run);
    if s.queue == [] {
      more := [];
    } else {
      var read := [Read(s.counter)];
      var s1 := Next(s, read[0]);
      assert read[1..] == [];
      assert Legal(s1, []) && After(s1, []) == s1;
      assert Legal(s, read);
      assert After(s, read) == s1;
      InvKept(s, read[0]);
      var rest := RoundsTakeAll(s1);
      LegalAppend(s, read, rest);
      more := read + rest;
    }
    LegalAppend(s0, run, more);
    EveryRun(threads, run + more);
    RunKeepsInv(s0, run + more);
  }
}
