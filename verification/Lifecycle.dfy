/** The life of a loop event, told by a record of what the loop and its callbacks do: the macros of hevent.h as steps. */
module Lifecycle {

  import opened Collections

  const LOWEST_PRIORITY := -5
  const HIGHEST_PRIORITY := 5
  const HIGH_PRIORITY := 3
  const PRIORITY_SIZE: nat := HIGHEST_PRIORITY - LOWEST_PRIORITY + 1

  type Priority = p: int | LOWEST_PRIORITY <= p <= HIGHEST_PRIORITY witness 0

  /** `hevent_t`. A timer or idle event is freed when it is deleted; an io event (`isIo`) is kept. */
  class Event {
    const priority: Priority
    const hasCb: bool
    const isIo: bool
    var active: bool
    var pending: bool
    var destroy: bool
    var next: Event?
    /** Not in the C structure: on a pending list and its turn not over; handed to HV_FREE. */
    var linked: bool
    var freed: bool

    constructor (priority: Priority, hasCb: bool, isIo: bool)
      ensures this.priority == priority && this.hasCb == hasCb && this.isIo == isIo
      ensures FlagsOf(this) == NEW && next == null
    {
      this.priority, this.hasCb, this.isIo := priority, hasCb, isIo;
      active, pending, destroy, linked, freed, next := false, false, false, false, false, null;
    }
  }

  datatype Flags = Flags(active: bool, pending: bool, destroy: bool, freed: bool, linked: bool)

  const NEW := Flags(false, false, false, false, false)

  ghost function FlagsOf(e: Event): Flags
    reads e`active, e`pending, e`destroy, e`freed, e`linked
  {
    Flags(e.active, e.pending, e.destroy, e.freed, e.linked)
  }

  ghost function FlagsIn(E: set<Event>): (m: map<Event, Flags>)
    reads E`active, E`pending, E`destroy, E`freed, E`linked
    ensures m.Keys == E
  {
    map e | e in E :: FlagsOf(e)
  }

  lemma SameFlags(E: set<Event>, e: Event)
    requires e in E
    ensures FlagsIn(E)[e := FlagsOf(e)] == FlagsIn(E)
  {
  }

  // ------------------------------------------------------------ the record of a batch

  /** What is written down: EVENT_ADD; htimer_del or hidle_del; htimer_reset; hio_add or hio_del; the batch comes to an event,
      and calls it or not; the turn of the event is over. */
  datatype Entry =
    | Added(ev: Event)
    | Deleted(ev: Event)
    | Rearmed(ev: Event)
    | Switched(ev: Event, on: bool)
    | Reached(ev: Event, called: bool)
    | Over(ev: Event)

  /** What an entry does to its event; a freed one is no event any more. */
  ghost function Step(f: Flags, x: Entry): Flags {
    if f.freed then f else
    match x
    case Added(_) => f.(active := true)
    case Deleted(_) => if f.active then f.(active := false, destroy := true, freed := !f.pending) else f
    case Rearmed(_) => f.(active := true, destroy := false, pending := false)
    case Switched(_, on) => f.(active := on)
    case Reached(_, _) => f
    case Over(_) => if f.pending && f.destroy then Flags(false, false, true, true, false) else f.(pending := false, linked := false)
  }

  /** What becomes of an event that was `f` before the record. */
  ghost function Fate(f: Flags, log: seq<Entry>, e: Event): Flags {
    if log == [] then f
    else
      var g, x := Fate(f, log[..|log| - 1], e), log[|log| - 1];
      if x.ev == e then Step(g, x) else g
  }

  lemma FateMore(f: Flags, log: seq<Entry>, x: Entry, e: Event)
    ensures Fate(f, log + [x], e) == if x.ev == e then Step(Fate(f, log, e), x) else Fate(f, log, e)
  {
    assert (log + [x])[..|log|] == log;
  }

  ghost function Origin(m: map<Event, Flags>, e: Event): Flags { if e in m then m[e] else NEW }

  /** The state of `e` after the record `log` of a batch that found the events as `m`. */
  ghost function After(m: map<Event, Flags>, log: seq<Entry>, e: Event): Flags { Fate(Origin(m, e), log, e) }

  /** Pending, active and with a callback. */
  ghost predicate Callable(m: map<Event, Flags>, log: seq<Entry>, e: Event) {
    After(m, log, e).pending && After(m, log, e).active && e.hasCb
  }

  /** An entry is about an event that is not freed, an event that is reached is called exactly when it is callable then, and
      its turn is over after that. */
  ghost predicate Fair(m: map<Event, Flags>, past: seq<Entry>, x: Entry) {
    && !After(m, past, x.ev).freed
    && match x
       case Added(e) => e !in m
       case Deleted(e) => !e.isIo
       case Rearmed(e) => !e.isIo
       case Switched(e, _) => e.isIo
       case Reached(e, called) => called <==> Callable(m, past, e)
       case Over(e) => e in ReachedIn(past)
  }

  ghost predicate Honest(m: map<Event, Flags>, log: seq<Entry>) {
    forall i | 0 <= i < |log| :: Fair(m, log[..i], log[i])
  }

  lemma HonestMore(m: map<Event, Flags>, log: seq<Entry>, x: Entry)
    ensures Honest(m, log + [x]) <==> Honest(m, log) && Fair(m, log, x)
  {
    hide Fair;
    var w := log + [x];
    assert w[|log|] == x && w[..|log|] == log;
    forall i | 0 <= i < |log| ensures w[..i] == log[..i] && w[i] == log[i] {
    }
  }

  /** The events are what the record makes of them. */
  ghost predicate Traced(m: map<Event, Flags>, log: seq<Entry>, m': map<Event, Flags>) {
    && m.Keys <= m'.Keys && (forall x | x in log :: x.ev in m')
    && forall e | e in m' :: m'[e] == After(m, log, e)
  }

  /** The events reached, those whose turn is over and those called, in order. */
  ghost function ReachedIn(log: seq<Entry>): seq<Event> {
    if log == [] then [] else ReachedIn(log[..|log| - 1]) + if log[|log| - 1].Reached? then [log[|log| - 1].ev] else []
  }

  ghost function OverIn(log: seq<Entry>): seq<Event> {
    if log == [] then [] else OverIn(log[..|log| - 1]) + if log[|log| - 1].Over? then [log[|log| - 1].ev] else []
  }

  ghost function CalledIn(log: seq<Entry>): seq<Event> {
    if log == [] then []
    else CalledIn(log[..|log| - 1]) + if log[|log| - 1].Reached? && log[|log| - 1].called then [log[|log| - 1].ev] else []
  }

  lemma ListsMore(log: seq<Entry>, x: Entry)
    ensures ReachedIn(log + [x]) == ReachedIn(log) + if x.Reached? then [x.ev] else []
    ensures OverIn(log + [x]) == OverIn(log) + if x.Over? then [x.ev] else []
    ensures CalledIn(log + [x]) == CalledIn(log) + if x.Reached? && x.called then [x.ev] else []
  {
    assert (log + [x])[..|log|] == log;
  }

  /** A batch that found the events as `m` and has left them as `m'`; it has come to the events `reached`, the turn of those in
      `over` is over. */
  ghost predicate Record(m: map<Event, Flags>, log: seq<Entry>, m': map<Event, Flags>, reached: seq<Event>, over: seq<Event>) {
    Traced(m, log, m') && Honest(m, log) && ReachedIn(log) == reached && OverIn(log) == over
  }

  lemma {:induction false} NoNews(m: map<Event, Flags>, log: seq<Entry>, e: Event)
    requires forall x | x in log :: x.ev != e
    ensures After(m, log, e) == Origin(m, e)
  {
    if log != [] {
      assert log[|log| - 1] in log;
      NoNews(m, log[..|log| - 1], e);
    }
  }

  lemma RecordStart(m: map<Event, Flags>)
    ensures Record(m, [], m, [], [])
  {
  }

  /** One entry more. */
  lemma RecordOn(m: map<Event, Flags>, log: seq<Entry>, m': map<Event, Flags>, reached: seq<Event>, over: seq<Event>, x: Entry, m'': map<Event, Flags>)
    requires Record(m, log, m', reached, over) && !Origin(m', x.ev).freed && (x.Added? <==> x.ev !in m')
    requires m'' == m'[x.ev := Step(Origin(m', x.ev), x)]
    requires match x
             case Added(_) => true
             case Deleted(e) => !e.isIo
             case Rearmed(e) => !e.isIo
             case Switched(e, _) => e.isIo
             case Reached(e, called) => called <==> m'[e].pending && m'[e].active && e.hasCb
             case Over(e) => e in reached
    ensures Record(m, log + [x], m'', reached + if x.Reached? then [x.ev] else [], over + if x.Over? then [x.ev] else [])
  {
    hide Step, ReachedIn, OverIn, Fate;
    HonestMore(m, log, x);
    ListsMore(log, x);
    if x.Added? { NoNews(m, log, x.ev); }
    assert Origin(m', x.ev) == After(m, log, x.ev);
    hide Honest;
    forall e | e in m'' ensures m''[e] == After(m, log + [x], e) { FateMore(Origin(m, e), log, x, e); }
  }

  lemma RecordReach(m: map<Event, Flags>, log: seq<Entry>, m': map<Event, Flags>, reached: seq<Event>, over: seq<Event>, e: Event, called: bool)
    requires Record(m, log, m', reached, over) && e in m' && !m'[e].freed && (called <==> m'[e].pending && m'[e].active && e.hasCb)
    ensures Record(m, log + [Reached(e, called)], m', reached + [e], over)
  {
    hide Record;
    assert m'[e := m'[e]] == m';
    RecordOn(m, log, m', reached, over, Reached(e, called), m');
    assert over + [] == over;
  }

  lemma RecordOver(m: map<Event, Flags>, log: seq<Entry>, m': map<Event, Flags>, reached: seq<Event>, over: seq<Event>, e: Event)
    requires Record(m, log, m', reached, over) && e in m' && !m'[e].freed && e in reached
    ensures Record(m, log + [Over(e)], m'[e := Step(m'[e], Over(e))], reached, over + [e])
  {
    hide Record, Step;
    RecordOn(m, log, m', reached, over, Over(e), m'[e := Step(m'[e], Over(e))]);
    assert reached + [] == reached;
  }

  // ------------------------------------------------------------ what a record tells

  lemma LastEntry(m: map<Event, Flags>, log: seq<Entry>, e: Event)
    requires log != [] && Honest(m, log)
    ensures var past, x := log[..|log| - 1], log[|log| - 1];
      && log == past + [x] && Honest(m, past) && Fair(m, past, x)
      && After(m, log, e) == if x.ev == e then Step(After(m, past, e), x) else After(m, past, e)
  {
    hide Fair;
    var past, x := log[..|log| - 1], log[|log| - 1];
    assert log == past + [x];
    HonestMore(m, past, x);
    FateMore(Origin(m, e), past, x, e);
  }

  /** Somebody other than the loop has acted on `e`. */
  predicate About(x: Entry, e: Event) { x == Deleted(e) || x == Rearmed(e) || (x.Switched? && x.ev == e) }

  ghost predicate Touched(log: seq<Entry>, e: Event) { exists x | x in log :: About(x, e) }

  lemma TouchedMore(log: seq<Entry>, x: Entry, e: Event)
    ensures Touched(log + [x], e) <==> Touched(log, e) || About(x, e)
  {
    assert x in log + [x];
    if y :| y in log && About(y, e) { assert y in log + [x]; }
  }

  /** An event nobody has touched is, until its turn is over, what it was. */
  lemma {:induction false} Untouched(m: map<Event, Flags>, log: seq<Entry>, e: Event)
    requires Honest(m, log) && e in m && !Touched(log, e)
    ensures After(m, log, e) == if Over(e) in log then Step(m[e], Over(e)) else m[e]
  {
    if log != [] {
      var past, x := log[..|log| - 1], log[|log| - 1];
      LastEntry(m, log, e);
      TouchedMore(past, x, e);
      Untouched(m, past, e);
      hide Honest, After, Touched;
    }
  }

  /** A timer or idle event that was pending at the start is callable, before its turn is over, exactly when it was active and
      has been neither deleted nor reset. */
  lemma {:induction false} CallableTimer(m: map<Event, Flags>, log: seq<Entry>, e: Event)
    requires Honest(m, log) && e in m && m[e].pending && !m[e].freed && !e.isIo && Over(e) !in log
    ensures Callable(m, log, e) <==> m[e].active && e.hasCb && Deleted(e) !in log && Rearmed(e) !in log
    ensures After(m, log, e).pending <==> Rearmed(e) !in log
    ensures After(m, log, e).freed ==> Rearmed(e) in log
  {
    if log != [] {
      var past, x := log[..|log| - 1], log[|log| - 1];
      LastEntry(m, log, e);
      CallableTimer(m, past, e);
      hide Honest, After;
    }
  }

  /** The last word on whether an io event is active. */
  ghost function LastSwitch(active: bool, log: seq<Entry>, e: Event): bool {
    if log == [] then active
    else
      var x := log[|log| - 1];
      if x.Switched? && x.ev == e then x.on else LastSwitch(active, log[..|log| - 1], e)
  }

  /** An io event that was pending at the start is callable, before its turn is over, exactly when it was last switched on. */
  lemma {:induction false} CallableIo(m: map<Event, Flags>, log: seq<Entry>, e: Event)
    requires Honest(m, log) && e in m && m[e].pending && !m[e].freed && e.isIo && Over(e) !in log
    ensures Callable(m, log, e) <==> LastSwitch(m[e].active, log, e) && e.hasCb
    ensures After(m, log, e) == m[e].(active := LastSwitch(m[e].active, log, e))
  {
    if log != [] {
      var past, x := log[..|log| - 1], log[|log| - 1];
      LastEntry(m, log, e);
      CallableIo(m, past, e);
      hide Honest, After;
    }
  }

  /** Reset and then deleted before its turn is over. */
  ghost predicate Early(log: seq<Entry>, e: Event) {
    exists i, j | 0 <= i < j < |log| :: log[i] == Rearmed(e) && log[j] == Deleted(e) && Over(e) !in log[..j]
  }

  lemma EarlyMore(log: seq<Entry>, x: Entry, e: Event)
    ensures Early(log + [x], e) <==> Early(log, e) || (x == Deleted(e) && Rearmed(e) in log && Over(e) !in log)
  {
    var w := log + [x];
    assert forall j | 0 <= j <= |log| :: w[..j] == log[..j];
    if x == Deleted(e) && Rearmed(e) in log && Over(e) !in log {
      var i :| 0 <= i < |log| && log[i] == Rearmed(e);
      assert w[i] == Rearmed(e) && w[|log|] == Deleted(e) && w[..|log|] == log;
    }
    if i, j :| 0 <= i < j < |log| && log[i] == Rearmed(e) && log[j] == Deleted(e) && Over(e) !in log[..j] {
      assert w[i] == Rearmed(e) && w[j] == Deleted(e) && Over(e) !in w[..j];
    }
    if i, j :| 0 <= i < j < |w| && w[i] == Rearmed(e) && w[j] == Deleted(e) && Over(e) !in w[..j] {
      assert log[i] == Rearmed(e) && w[..j] == log[..j];
      if j < |log| { assert log[j] == Deleted(e); } else { assert log[..j] == log; }
    }
  }

  /** A pending event is freed while it is still linked exactly when it is reset and then deleted before its turn is over. */
  lemma {:induction false} FreedEarly(m: map<Event, Flags>, log: seq<Entry>, e: Event)
    requires Honest(m, log) && e in m && m[e].linked && m[e].pending && !m[e].freed
    ensures After(m, log, e).freed && After(m, log, e).linked <==> Early(log, e)
    ensures Over(e) in log <==> !After(m, log, e).linked
    ensures !After(m, log, e).freed && Over(e) !in log ==>
              if Rearmed(e) in log then !After(m, log, e).pending && After(m, log, e).active else After(m, log, e).pending
  {
    if log != [] {
      var past, x := log[..|log| - 1], log[|log| - 1];
      LastEntry(m, log, e);
      EarlyMore(past, x, e);
      FreedEarly(m, past, e);
      NeverRearmed(m, past, e);
      hide Early, Honest, After;
    }
  }

  lemma NeverRearmed(m: map<Event, Flags>, log: seq<Entry>, e: Event)
    requires Honest(m, log)
    ensures e.isIo ==> Rearmed(e) !in log && Deleted(e) !in log
  {
    forall x | x in log ensures x == Rearmed(e) || x == Deleted(e) ==> !e.isIo {
      var i :| 0 <= i < |log| && log[i] == x;
      assert Fair(m, log[..i], log[i]);
    }
  }

  lemma {:induction false} OversAre(log: seq<Entry>, e: Event)
    ensures e in OverIn(log) <==> Over(e) in log
  {
    if log != [] {
      OversAre(log[..|log| - 1], e);
      assert log == log[..|log| - 1] + [log[|log| - 1]];
    }
  }

  /** Nothing in a record puts an event on a list. */
  lemma {:induction false} NeverLinked(f: Flags, log: seq<Entry>, e: Event)
    ensures Fate(f, log, e).linked ==> f.linked
  {
    if log != [] { NeverLinked(f, log[..|log| - 1], e); }
  }

  /** A batch that found the events `all`, and no others, on the lists. */
  ghost predicate Found(m: map<Event, Flags>, all: seq<Event>) {
    NoDup(all) && forall e | e in m :: (m[e].linked <==> e in all) && (m[e].linked ==> m[e].pending && !m[e].freed)
  }

  /** A batch that has come to its end, or to an event that is freed and still linked: it breaks exactly when some event was
      reset and then deleted before its turn was over. */
  lemma Ends(m: map<Event, Flags>, log: seq<Entry>, m': map<Event, Flags>, reached: seq<Event>, over: seq<Event>, all: seq<Event>, ok: bool)
    requires Record(m, log, m', reached, over) && Found(m, all) && over <= all && forall e | e in all :: e in m
    requires if ok then over == all else |over| < |all| && all[|over|] in m' && m'[all[|over|]].freed
    ensures ok <==> forall e | e in all :: !Early(log, e)
    ensures ok ==> forall e | e in m' :: !m'[e].linked
  {
    hide Honest, Early, Fate, OverIn;
    if ok {
      forall e | e in m' ensures !m'[e].linked && (e in all ==> !Early(log, e)) {
        NeverLinked(Origin(m, e), log, e);
        OversAre(log, e);
        if e in all { FreedEarly(m, log, e); }
      }
    } else {
      var e := all[|over|];
      assert e in all;
      OversAre(log, e);
      FreedEarly(m, log, e);
    }
  }

  lemma {:induction false} OverMeansReached(m: map<Event, Flags>, log: seq<Entry>, e: Event)
    requires Honest(m, log)
    ensures Over(e) in log ==> e in ReachedIn(log)
  {
    if log != [] {
      LastEntry(m, log, e);
      OverMeansReached(m, log[..|log| - 1], e);
      hide Honest, After;
    }
  }

  /** The prefix of an honest record. */
  lemma HonestBefore(m: map<Event, Flags>, log: seq<Entry>, i: nat)
    requires Honest(m, log) && i < |log|
    ensures Honest(m, log[..i]) && Fair(m, log[..i], log[i])
  {
    hide Fair;
    forall j | 0 <= j < i ensures Fair(m, log[..i][..j], log[..i][j]) {
      assert log[..i][..j] == log[..j];
    }
  }

  lemma {:induction false} ReachedBefore(log: seq<Entry>, i: nat)
    requires i < |log| && log[i].Reached? && NoDup(ReachedIn(log))
    ensures log[i].ev !in ReachedIn(log[..i]) && log[i].ev in ReachedIn(log)
    decreases |log|
  {
    var past := log[..|log| - 1];
    var t := if log[|log| - 1].Reached? then [log[|log| - 1].ev] else [];
    NoDupParts(ReachedIn(past), t);
    if i < |log| - 1 {
      assert past[..i] == log[..i] && past[i] == log[i];
      ReachedBefore(past, i);
    } else {
      assert log[i].ev in Elems(t);
    }
  }

  /** In a batch that comes to each event once: a timer or idle event on the lists is called, when its turn comes, exactly when
      it was active at the start and has been neither deleted nor reset since; */
  lemma TimerCalledWhen(m: map<Event, Flags>, log: seq<Entry>, i: nat)
    requires Honest(m, log) && NoDup(ReachedIn(log)) && i < |log| && log[i].Reached?
    requires var e := log[i].ev; e in m && m[e].pending && !m[e].freed && !e.isIo
    ensures var e := log[i].ev; log[i].called <==> m[e].active && e.hasCb && Deleted(e) !in log[..i] && Rearmed(e) !in log[..i]
  {
    HonestBefore(m, log, i);
    ReachedBefore(log, i);
    OverMeansReached(m, log[..i], log[i].ev);
    CallableTimer(m, log[..i], log[i].ev);
  }

  /** an io event exactly when it was last switched on; */
  lemma IoCalledWhen(m: map<Event, Flags>, log: seq<Entry>, i: nat)
    requires Honest(m, log) && NoDup(ReachedIn(log)) && i < |log| && log[i].Reached?
    requires var e := log[i].ev; e in m && m[e].pending && !m[e].freed && e.isIo
    ensures var e := log[i].ev; log[i].called <==> LastSwitch(m[e].active, log[..i], e) && e.hasCb
  {
    HonestBefore(m, log, i);
    ReachedBefore(log, i);
    OverMeansReached(m, log[..i], log[i].ev);
    CallableIo(m, log[..i], log[i].ev);
  }

  /** and one that nobody has touched exactly when it was active. */
  lemma {:induction false} UntouchedCalled(m: map<Event, Flags>, log: seq<Entry>, e: Event)
    requires Honest(m, log) && NoDup(ReachedIn(log)) && e in m && !Touched(log, e)
    ensures e in CalledIn(log) <==> e in ReachedIn(log) && m[e].pending && m[e].active && e.hasCb
  {
    if log != [] {
      var past, x := log[..|log| - 1], log[|log| - 1];
      LastEntry(m, log, e);
      TouchedMore(past, x, e);
      NoDupParts(ReachedIn(past), if x.Reached? then [x.ev] else []);
      UntouchedCalled(m, past, e);
      if x.Reached? && x.ev == e {
        assert e in Elems([e]);
        OverMeansReached(m, past, e);
        Untouched(m, past, e);
      }
      hide Honest, After, Touched, NoDup;
    }
  }

  ghost predicate Falling(l: seq<Event>) { forall j, k | 0 <= j < k < |l| :: l[j].priority >= l[k].priority }

  /** The events called are among those reached, once each and in their order. */
  lemma {:induction false} CallsInOrder(log: seq<Entry>)
    requires NoDup(ReachedIn(log)) && Falling(ReachedIn(log))
    ensures NoDup(CalledIn(log)) && Falling(CalledIn(log)) && forall e | e in CalledIn(log) :: e in ReachedIn(log)
  {
    if log != [] {
      var past, x := log[..|log| - 1], log[|log| - 1];
      var t := if x.Reached? then [x.ev] else [];
      NoDupParts(ReachedIn(past), t);
      assert forall i | 0 <= i < |ReachedIn(past)| :: ReachedIn(log)[i] == ReachedIn(past)[i];
      CallsInOrder(past);
      if x.Reached? {
        assert x.ev in Elems(t) && ReachedIn(log)[|ReachedIn(past)|] == x.ev;
        forall e | e in CalledIn(past) ensures e != x.ev && e.priority >= x.ev.priority {
          var i :| 0 <= i < |ReachedIn(past)| && ReachedIn(past)[i] == e;
        }
        OneMore(CalledIn(past), x.ev);
      }
    }
  }

  lemma OneMore(l: seq<Event>, e: Event)
    requires NoDup(l) && Falling(l) && forall x | x in l :: x != e && x.priority >= e.priority
    ensures NoDup(l + [e]) && Falling(l + [e])
  {
  }
}
