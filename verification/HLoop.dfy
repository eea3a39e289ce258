/** hloop_process_pendings, hloop_process_events and hloop_run, with callbacks that work on any event and timer of the loop. */
module HLoop {

  import opened Collections
  import opened Events
  import opened Heap
  import opened Lifecycle
  import opened Timers

  /** The timers `H` ever made: those waiting are the ones not marked. */
  ghost predicate Handles(H: set<Timer>, waiting: set<Timer>, st: map<Timer, Status>, events: set<Event>, doomed: set<Event>) {
    && waiting <= H && Distinct(H) && H == st.Keys
    && forall u | u in H ::
         && u.ev in events && !u.ev.isIo && (u in waiting <==> u.ev !in doomed)
         && st[u].repeat <= INFINITE && (!u.isPeriod ==> st[u].timeout > 0)
  }

  /** What holds between any two steps of a program: the heaps hold the timers waiting, the others have no children. */
  ghost predicate Kit(tl: TimerLoop, H: set<Timer>, h: Heaps)
    reads tl, tl.timers, tl.realtimers, H, h.T, h.R, tl.loop`events, tl.loop`nactives, tl.loop.events
  {
    && tl.loop.Alive({}) && tl.Valid(h.T, h.ts, h.R, h.rs) && Loose(H - (h.T + h.R))
    && Handles(H, h.T + h.R, StatusOf(H), tl.loop.events, tl.loop.Doomed())
  }

  lemma OpenKit(tl: TimerLoop, H: set<Timer>, h: Heaps)
    requires Kit(tl, H, h)
    ensures tl.loop.Alive({}) && tl.Valid(h.T, h.ts, h.R, h.rs) && Loose(H - (h.T + h.R)) && h.T + h.R <= H
    ensures Handles(H, h.T + h.R, StatusOf(H), tl.loop.events, tl.loop.Doomed())
  {
  }

  lemma CloseKit(tl: TimerLoop, H: set<Timer>, h: Heaps)
    requires tl.loop.Alive({}) && tl.Valid(h.T, h.ts, h.R, h.rs) && Loose(H - (h.T + h.R))
    requires Handles(H, h.T + h.R, StatusOf(H), tl.loop.events, tl.loop.Doomed())
    ensures Kit(tl, H, h)
  {
  }

  lemma KitAt(tl: TimerLoop, H: set<Timer>, h: Heaps, u: Timer)
    requires Kit(tl, H, h) && u in H && !u.ev.freed
    ensures tl.Known(u, h.T + h.R) && u.repeat <= INFINITE && (!u.isPeriod ==> u.timeout > 0)
    ensures u !in h.T + h.R ==> u.left == null && u.right == null
  {
    hide Loop.Alive, TimerLoop.Valid;
    assert StatusOf(H)[u] == StatusAt(u);
  }

  // ------------------------------------------------------------ the account of a batch

  /** What a batch finds: the events, the timers with their status and those of them that wait, the events its callbacks are
      going to leave alone, and the callbacks run before. */
  datatype Start = Start(m: map<Event, Flags>, H: set<Timer>, st: map<Timer, Status>, waiting: set<Timer>, off: set<Event>, ran: multiset<Event>)

  /** What there is now. */
  datatype Now = Now(log: seq<Entry>, m: map<Event, Flags>, H: set<Timer>, st: map<Timer, Status>, waiting: set<Timer>, ran: multiset<Event>)

  /** Timers whose events nobody has touched are as they were. */
  ghost predicate Kept(b: Start, s: Now) {
    && b.H <= s.H && b.H <= b.st.Keys && s.H <= s.st.Keys
    && (forall u | u in b.H && !Touched(s.log, u.ev) :: s.st[u] == b.st[u] && (u in s.waiting <==> u in b.waiting))
    && forall e | e in b.off :: !Touched(s.log, e)
  }

  /** The account: the batch has come to `reached`, the turn of `over` is over, and `ncbs` callbacks have been run. */
  ghost predicate Told(b: Start, s: Now, ncbs: nat, reached: seq<Event>, over: seq<Event>) {
    && Kept(b, s) && Record(b.m, s.log, s.m, reached, over)
    && s.ran == b.ran + multiset(CalledIn(s.log)) && ncbs == |CalledIn(s.log)|
  }

  lemma ToldStart(b: Start, s: Now)
    requires s == Now([], b.m, b.H, b.st, b.waiting, b.ran) && b.H <= b.st.Keys
    ensures Told(b, s, 0, [], [])
  {
    RecordStart(b.m);
  }

  lemma KeptOn(b: Start, s: Now, x: Entry, s': Now)
    requires Kept(b, s) && s'.log == s.log + [x] && x.ev !in b.off && s.H <= s'.H <= s'.st.Keys
    requires forall u | u in s.H && u in s.st && !About(x, u.ev) :: s'.st[u] == s.st[u] && (u in s'.waiting <==> u in s.waiting)
    ensures Kept(b, s')
  {
    hide Touched;
    forall u | u in b.H { TouchedMore(s.log, x, u.ev); }
    forall e | e in b.off { TouchedMore(s.log, x, e); }
  }

  /** A step of a callback. */
  lemma ToldOn(b: Start, s: Now, ncbs: nat, reached: seq<Event>, over: seq<Event>, x: Entry, s': Now)
    requires Told(b, s, ncbs, reached, over) && !Origin(s.m, x.ev).freed && x.ev !in b.off && (x.Added? <==> x.ev !in s.m)
    requires !x.Reached? && !x.Over? && (x.Deleted? || x.Rearmed? ==> !x.ev.isIo) && (x.Switched? ==> x.ev.isIo)
    requires s'.log == s.log + [x] && s'.m == s.m[x.ev := Step(Origin(s.m, x.ev), x)] && s'.ran == s.ran && s.H <= s'.H <= s'.st.Keys
    requires forall u | u in s.H && u in s.st && !About(x, u.ev) :: s'.st[u] == s.st[u] && (u in s'.waiting <==> u in s.waiting)
    ensures Told(b, s', ncbs, reached, over)
  {
    hide Record, CalledIn, Kept, Step, Origin, About;
    KeptOn(b, s, x, s');
    RecordOn(b.m, s.log, s.m, reached, over, x, s'.m);
    ListsMore(s.log, x);
    assert reached + [] == reached && over + [] == over && CalledIn(s.log) + [] == CalledIn(s.log);
  }

  /** The batch comes to an event. */
  lemma ToldReach(b: Start, s: Now, ncbs: nat, reached: seq<Event>, over: seq<Event>, e: Event, called: bool)
    requires Told(b, s, ncbs, reached, over) && e in s.m && !s.m[e].freed && (called <==> s.m[e].pending && s.m[e].active && e.hasCb)
    ensures var x := Reached(e, called);
      Told(b, Now(s.log + [x], s.m, s.H, s.st, s.waiting, if called then s.ran + multiset{e} else s.ran), if called then ncbs + 1 else ncbs, reached + [e], over)
  {
    hide Record, CalledIn, Kept;
    var x := Reached(e, called);
    ListsMore(s.log, x);
    KeptOn'(b, s, Now(s.log + [x], s.m, s.H, s.st, s.waiting, if called then s.ran + multiset{e} else s.ran), x);
    RecordReach(b.m, s.log, s.m, reached, over, e, called);
    assert CalledIn(s.log) + [] == CalledIn(s.log);
  }

  /** The turn of an event is over. */
  lemma ToldOver(b: Start, s: Now, ncbs: nat, reached: seq<Event>, over: seq<Event>, e: Event)
    requires Told(b, s, ncbs, reached, over) && e in s.m && !s.m[e].freed && e in reached
    ensures Told(b, Now(s.log + [Over(e)], s.m[e := Step(s.m[e], Over(e))], s.H, s.st, s.waiting, s.ran), ncbs, reached, over + [e])
  {
    hide Record, CalledIn, Kept, Step;
    var x := Over(e);
    ListsMore(s.log, x);
    KeptOn'(b, s, Now(s.log + [x], s.m[e := Step(s.m[e], x)], s.H, s.st, s.waiting, s.ran), x);
    RecordOver(b.m, s.log, s.m, reached, over, e);
    assert CalledIn(s.log) + [] == CalledIn(s.log);
  }

  /** What the loop itself does touches nothing. */
  lemma KeptOn'(b: Start, s: Now, s': Now, x: Entry)
    requires Kept(b, s) && (x.Reached? || x.Over?) && s'.log == s.log + [x] && s'.H == s.H && s'.st == s.st && s'.waiting == s.waiting
    ensures Kept(b, s')
  {
    hide Touched;
    forall u | u in b.H { TouchedMore(s.log, x, u.ev); }
    forall e | e in b.off { TouchedMore(s.log, x, e); }
  }

  // ------------------------------------------------------------ what a program does

  ghost function Shot(tl: TimerLoop, H: set<Timer>, waiting: set<Timer>): Now
    reads tl.loop`log, tl.loop`events, tl.loop`ran, tl.loop.events, H
  {
    Now(tl.loop.log, FlagsIn(tl.loop.events), H, StatusOf(H), waiting, tl.loop.ran)
  }

  lemma HandlesLess(H: set<Timer>, waiting: set<Timer>, st: map<Timer, Status>, events: set<Event>, doomed: set<Event>, u: Timer)
    requires Handles(H, waiting, st, events, doomed) && u in H
    ensures Handles(H, waiting - {u}, st, events, doomed + {u.ev})
  {
  }

  /** htimer_del, with what it does to the heaps; `out` are the timers that do not wait. */
  method DeleteBare(tl: TimerLoop, u: Timer, ghost H: set<Timer>, ghost h: Heaps, ghost out: set<Timer>) returns (ghost h': Heaps)
    requires tl.loop.Alive({}) && tl.Valid(h.T, h.ts, h.R, h.rs) && tl.Known(u, h.T + h.R)
    requires Loose(out) && out !! (h.T + h.R) && (u in out || u in h.T + h.R)
    modifies tl.HeapOf(u), h.T`parent, h.T`left, h.T`right, h.R`parent, h.R`left, h.R`right, tl`ntimers, tl.loop`nactives, tl.loop`log,
             u.ev`destroy, u.ev`active, u.ev`freed
    ensures tl.loop.Alive({}) && tl.Valid(h'.T, h'.ts, h'.R, h'.rs) && h'.T == h.T - {u} && h'.R == h.R - {u}
    ensures Loose(out + {u}) && StatusOf(H) == old(StatusOf(H)) && tl.loop.Doomed() == old(tl.loop.Doomed()) + {u.ev}
    ensures FlagsIn(tl.loop.events) == old(FlagsIn(tl.loop.events))[u.ev := Step(old(FlagsOf(u.ev)), Deleted(u.ev))]
    ensures tl.loop.log == old(tl.loop.log) + [Deleted(u.ev)]
  {
    hide *;
    ghost var ts', rs';
    ts', rs' := tl.Delete(u, h.T, h.ts, h.R, h.rs);
    h' := Heaps(h.T - {u}, ts', h.R - {u}, rs');
    LooseMore(out, u);
  }

  lemma LooseMore(L: set<Timer>, u: Timer)
    requires Loose(L) && (u !in L ==> u.left == null && u.right == null)
    ensures Loose(L + {u})
  {
  }

  /** htimer_del. */
  method DeleteTimer(tl: TimerLoop, u: Timer, H: set<Timer>, ghost h: Heaps) returns (ghost h': Heaps)
    requires Kit(tl, H, h) && u in H && !u.ev.freed
    modifies tl.HeapOf(u), h.T`parent, h.T`left, h.T`right, h.R`parent, h.R`left, h.R`right, tl`ntimers, tl.loop`nactives, tl.loop`log,
             u.ev`destroy, u.ev`active, u.ev`freed
    ensures Kit(tl, H, h') && h'.T + h'.R == h.T + h.R - {u} && StatusOf(H) == old(StatusOf(H))
    ensures FlagsIn(tl.loop.events) == old(FlagsIn(tl.loop.events))[u.ev := Step(old(FlagsOf(u.ev)), Deleted(u.ev))]
    ensures tl.loop.log == old(tl.loop.log) + [Deleted(u.ev)]
  {
    hide *;
    KitAt(tl, H, h, u);
    OpenKit(tl, H, h);
    WithoutOne(h, H, u);
    ghost var waiting, st, doomed := h.T + h.R, StatusOf(H), tl.loop.Doomed();
    h' := DeleteBare(tl, u, H, h, H - waiting);
    HandlesLess(H, waiting, st, tl.loop.events, doomed, u);
    CloseKit(tl, H, h');
  }

  lemma WithoutOne(h: Heaps, H: set<Timer>, u: Timer)
    requires u in H
    ensures h.T - {u} + (h.R - {u}) == h.T + h.R - {u} && H - (h.T + h.R - {u}) == H - (h.T + h.R) + {u}
  {
  }

  lemma HandlesAgain(H: set<Timer>, waiting: set<Timer>, st: map<Timer, Status>, events: set<Event>, doomed: set<Event>, u: Timer, f: Status)
    requires Handles(H, waiting, st, events, doomed) && u in H && f.repeat <= INFINITE && (!u.isPeriod ==> f.timeout > 0)
    ensures Handles(H, waiting + {u}, st[u := f], events, doomed - {u.ev})
  {
  }

  /** htimer_reset on a timeout, with what it does to the heaps. */
  method ResetBare(tl: TimerLoop, u: Timer, timeout: nat, now: nat, ghost H: set<Timer>, ghost h: Heaps, ghost out: set<Timer>) returns (ghost h': Heaps)
    requires tl.loop.Alive({}) && tl.Valid(h.T, h.ts, h.R, h.rs) && tl.Known(u, h.T + h.R) && !u.isPeriod && u.timeout > 0 && u.repeat <= INFINITE
    requires Loose(out) && out !! (h.T + h.R) && (u in out ==> u.left == null && u.right == null) && (u in out || u in h.T + h.R) && u in H
    modifies tl.timers, h.T`parent, h.T`left, h.T`right, u, tl`ntimers, tl.loop`nactives, tl.loop`log, u.ev`active, u.ev`destroy, u.ev`pending
    ensures tl.loop.Alive({}) && tl.Valid(h'.T, h'.ts, h'.R, h'.rs) && h'.T == h.T + {u} && h'.R == h.R
    ensures Loose(out - {u}) && StatusOf(H) == old(StatusOf(H))[u := StatusAt(u)] && tl.loop.Doomed() == old(tl.loop.Doomed()) - {u.ev}
    ensures u.repeat <= INFINITE && u.timeout > 0
    ensures FlagsIn(tl.loop.events) == old(FlagsIn(tl.loop.events))[u.ev := Step(old(FlagsOf(u.ev)), Rearmed(u.ev))]
    ensures tl.loop.log == old(tl.loop.log) + [Rearmed(u.ev)]
  {
    hide *;
    LooseLess(out, u);
    ghost var others := H - {u};
    ghost var st, f := StatusOf(others), StatusAt(u);
    StatusWith(others, u);
    ghost var ts' := tl.Reset(u, timeout, now, h.T, h.ts, h.R, h.rs);
    h' := Heaps(h.T + {u}, ts', h.R, h.rs);
    StatusWith(others, u);
    BackWith(H, u, st, f, StatusAt(u));
    OnceAtLeast(old(u.repeat));
  }

  lemma LooseLess(L: set<Timer>, u: Timer)
    requires Loose(L)
    ensures Loose(L - {u})
  {
  }

  /** htimer_reset; a period timer is left alone. */
  method ResetTimer(tl: TimerLoop, u: Timer, timeout: nat, now: nat, H: set<Timer>, ghost h: Heaps) returns (ghost h': Heaps)
    requires Kit(tl, H, h) && u in H && !u.ev.freed && !u.isPeriod
    modifies tl.timers, h.T`parent, h.T`left, h.T`right, u, tl`ntimers, tl.loop`nactives, tl.loop`log, u.ev`active, u.ev`destroy, u.ev`pending
    ensures Kit(tl, H, h') && h'.T + h'.R == h.T + h.R + {u} && StatusOf(H) == old(StatusOf(H))[u := StatusAt(u)]
    ensures FlagsIn(tl.loop.events) == old(FlagsIn(tl.loop.events))[u.ev := Step(old(FlagsOf(u.ev)), Rearmed(u.ev))]
    ensures tl.loop.log == old(tl.loop.log) + [Rearmed(u.ev)]
  {
    hide *;
    KitAt(tl, H, h, u);
    OpenKit(tl, H, h);
    WithOne(h, H, u);
    ghost var waiting, st, doomed := h.T + h.R, StatusOf(H), tl.loop.Doomed();
    h' := ResetBare(tl, u, timeout, now, H, h, H - waiting);
    StatusParts(u);
    HandlesAgain(H, waiting, st, tl.loop.events, doomed, u, StatusAt(u));
    CloseKit(tl, H, h');
  }

  lemma StatusParts(u: Timer)
    ensures StatusAt(u).repeat == u.repeat && StatusAt(u).timeout == u.timeout
  {
  }

  lemma WithOne(h: Heaps, H: set<Timer>, u: Timer)
    ensures h.T + {u} + h.R == h.T + h.R + {u} && H - (h.T + h.R + {u}) == H - (h.T + h.R) - {u}
    ensures h.T + (h.R + {u}) == h.T + h.R + {u} && H + {u} - (h.T + h.R + {u}) == H - (h.T + h.R) - {u}
  {
  }

  lemma HandlesMore(H: set<Timer>, waiting: set<Timer>, st: map<Timer, Status>, events: set<Event>, doomed: set<Event>, r: Timer, f: Status)
    requires Handles(H, waiting, st, events, doomed) && doomed <= events && r.ev !in events && !r.ev.isIo
    requires f.repeat <= INFINITE && (!r.isPeriod ==> f.timeout > 0)
    ensures Handles(H + {r}, waiting + {r}, st[r := f], events + {r.ev}, doomed)
  {
  }

  /** htimer_add and htimer_add_period, with what they do to the heaps. */
  method AddBare(tl: TimerLoop, isPeriod: bool, timeout: nat, repeat: nat, at: nat, ghost H: set<Timer>, ghost h: Heaps, ghost out: set<Timer>)
    returns (r: Timer, ghost h': Heaps)
    requires tl.loop.Alive({}) && tl.Valid(h.T, h.ts, h.R, h.rs) && repeat <= INFINITE && (!isPeriod ==> timeout > 0) && Loose(out) && out !! (h.T + h.R)
    modifies tl.timers, tl.realtimers, h.T`parent, h.T`left, h.T`right, h.R`parent, h.R`left, h.R`right, tl`ntimers,
             tl.loop`events, tl.loop`nactives, tl.loop`log
    ensures tl.loop.Alive({}) && tl.Valid(h'.T, h'.ts, h'.R, h'.rs) && fresh(r) && fresh(r.ev) && r.isPeriod == isPeriod && !r.ev.isIo
    ensures h' == Heaps(if isPeriod then h.T else h.T + {r}, h'.ts, if isPeriod then h.R + {r} else h.R, h'.rs)
    ensures Loose(out) && StatusOf(H) == old(StatusOf(H)) && tl.loop.Doomed() == old(tl.loop.Doomed()) && r.repeat == repeat && (!isPeriod ==> r.timeout > 0)
    ensures tl.loop.events == old(tl.loop.events) + {r.ev}
    ensures FlagsIn(tl.loop.events) == old(FlagsIn(tl.loop.events))[r.ev := Step(NEW, Added(r.ev))]
    ensures tl.loop.log == old(tl.loop.log) + [Added(r.ev)]
  {
    hide *;
    ghost var ts', rs' := h.ts, h.rs;
    if isPeriod {
      r, rs' := tl.NewPeriod(repeat, at, h.T, h.ts, h.R, h.rs);
      h' := Heaps(h.T, ts', h.R + {r}, rs');
    } else {
      r, ts' := tl.NewTimeout(timeout, repeat, at, h.T, h.ts, h.R, h.rs);
      h' := Heaps(h.T + {r}, ts', h.R, rs');
    }
  }

  method AddTimer(tl: TimerLoop, isPeriod: bool, timeout: nat, repeat: nat, at: nat, H: set<Timer>, ghost h: Heaps) returns (r: Timer, ghost h': Heaps)
    requires Kit(tl, H, h) && repeat <= INFINITE && (!isPeriod ==> timeout > 0)
    modifies tl.timers, tl.realtimers, h.T`parent, h.T`left, h.T`right, h.R`parent, h.R`left, h.R`right, tl`ntimers,
             tl.loop`events, tl.loop`nactives, tl.loop`log
    ensures Kit(tl, H + {r}, h') && h'.T + h'.R == h.T + h.R + {r} && fresh(r) && fresh(r.ev)
    ensures StatusOf(H + {r}) == old(StatusOf(H))[r := StatusAt(r)] && tl.loop.events == old(tl.loop.events) + {r.ev}
    ensures FlagsIn(tl.loop.events) == old(FlagsIn(tl.loop.events))[r.ev := Step(NEW, Added(r.ev))]
    ensures tl.loop.log == old(tl.loop.log) + [Added(r.ev)]
  {
    hide *;
    OpenKit(tl, H, h);
    ghost var waiting, st, events, doomed := h.T + h.R, StatusOf(H), tl.loop.events, tl.loop.Doomed();
    DoomedWithin(tl.loop);
    r, h' := AddBare(tl, isPeriod, timeout, repeat, at, H, h, H - waiting);
    StatusParts(r);
    StatusWith(H, r);
    HandlesMore(H, waiting, st, events, doomed, r, StatusAt(r));
    WithOne(h, H, r);
    LooseLess(H - waiting, r);
    CloseKit(tl, H + {r}, h');
  }

  lemma BackWith(H: set<Timer>, u: Timer, st: map<Timer, Status>, f: Status, g: Status)
    requires u in H
    ensures H - {u} + {u} == H && st[u := f][u := g] == st[u := g]
  {
  }

  lemma OnceAtLeast(repeat: nat)
    requires repeat <= INFINITE
    ensures (if repeat == 0 then 1 else repeat) <= INFINITE
  {
  }

  lemma StatusWith(H: set<Timer>, r: Timer)
    ensures StatusOf(H + {r}) == StatusOf(H)[r := StatusAt(r)]
  {
  }

  lemma DoomedWithin(loop: Loop)
    ensures loop.Doomed() <= loop.events
  {
  }

  /** The events of timers among those of the loop. */
  lemma NotOfTimers(H: set<Timer>, h: Heaps, st: map<Timer, Status>, events: set<Event>, doomed: set<Event>, e: Event)
    requires Handles(H, h.T + h.R, st, events, doomed) && (e.isIo || e !in EventsOf(H) || e in doomed)
    ensures e !in EventsOf(h.T) && e !in EventsOf(h.R)
  {
  }

  lemma HandlesBeside(H: set<Timer>, waiting: set<Timer>, st: map<Timer, Status>, events: set<Event>, doomed: set<Event>, e: Event)
    requires Handles(H, waiting, st, events, doomed) && e !in EventsOf(H)
    ensures Handles(H, waiting, st, events, doomed + {e})
    ensures doomed <= events && e !in events ==> Handles(H, waiting, st, events + {e}, doomed)
  {
    assert forall u | u in H :: u.ev in EventsOf(H);
  }

  /** EVENT_ADD of an idle or io event. */
  method AddEvent(tl: TimerLoop, p: Priority, isIo: bool, ghost H: set<Timer>, ghost h: Heaps) returns (e: Event)
    requires Kit(tl, H, h)
    modifies tl.loop`events, tl.loop`nactives, tl.loop`log
    ensures Kit(tl, H, h) && fresh(e) && tl.loop.events == old(tl.loop.events) + {e} && StatusOf(H) == old(StatusOf(H))
    ensures FlagsIn(tl.loop.events) == old(FlagsIn(tl.loop.events))[e := Step(NEW, Added(e))]
    ensures tl.loop.log == old(tl.loop.log) + [Added(e)]
  {
    hide *;
    OpenKit(tl, H, h);
    DoomedWithin(tl.loop);
    ghost var events, doomed := tl.loop.events, tl.loop.Doomed();
    e := AddTo(tl, h, p, isIo);
    EventsWithin(H, h.T + h.R, StatusOf(H), events, doomed);
    HandlesBeside(H, h.T + h.R, StatusOf(H), events, doomed, e);
    CloseKit(tl, H, h);
  }

  lemma EventsWithin(H: set<Timer>, waiting: set<Timer>, st: map<Timer, Status>, events: set<Event>, doomed: set<Event>)
    requires Handles(H, waiting, st, events, doomed)
    ensures EventsOf(H) <= events
  {
  }

  method AddFlags(loop: Loop, p: Priority, isIo: bool) returns (e: Event)
    requires loop.Alive({})
    modifies loop`events, loop`nactives, loop`log
    ensures loop.Alive({}) && loop.Doomed() == old(loop.Doomed()) && fresh(e) && loop.events == old(loop.events) + {e}
    ensures FlagsIn(loop.events) == old(FlagsIn(loop.events))[e := Step(NEW, Added(e))] && loop.log == old(loop.log) + [Added(e)]
  {
    hide Loop.Alive, Loop.Valid;
    e := new Event(p, true, isIo);
    loop.Add(e);
  }

  method AddTo(tl: TimerLoop, ghost h: Heaps, p: Priority, isIo: bool) returns (e: Event)
    requires tl.loop.Alive({}) && tl.Valid(h.T, h.ts, h.R, h.rs)
    modifies tl.loop`events, tl.loop`nactives, tl.loop`log
    ensures tl.loop.Alive({}) && tl.Valid(h.T, h.ts, h.R, h.rs) && tl.loop.Doomed() == old(tl.loop.Doomed())
    ensures fresh(e) && tl.loop.events == old(tl.loop.events) + {e} && tl.loop.log == old(tl.loop.log) + [Added(e)]
    ensures FlagsIn(tl.loop.events) == old(FlagsIn(tl.loop.events))[e := Step(NEW, Added(e))]
  {
    hide *;
    tl.HeapsOf(h.T, h.ts, h.R, h.rs);
    tl.EventsWithin(h.T, h.ts, h.R, h.rs);
    e := AddFlags(tl.loop, p, isIo);
    tl.HeapsStay(h, e, Step(NEW, Added(e)));
  }

  /** hio_add and hio_del. */
  method ToggleIo(tl: TimerLoop, e: Event, on: bool, ghost H: set<Timer>, ghost h: Heaps)
    requires Kit(tl, H, h) && e in tl.loop.events && e.isIo
    modifies tl.loop`nactives, tl.loop`log, e`active
    ensures Kit(tl, H, h) && StatusOf(H) == old(StatusOf(H))
    ensures FlagsIn(tl.loop.events) == old(FlagsIn(tl.loop.events))[e := Step(old(FlagsOf(e)), Switched(e, on))]
    ensures tl.loop.log == old(tl.loop.log) + [Switched(e, on)]
  {
    hide *;
    OpenKit(tl, H, h);
    NotOfTimers(H, h, StatusOf(H), tl.loop.events, tl.loop.Doomed(), e);
    ToggleOn(tl, h, e, on);
    CloseKit(tl, H, h);
  }

  method ToggleFlags(loop: Loop, e: Event, on: bool)
    requires loop.Alive({}) && e in loop.events && e.isIo
    modifies loop`nactives, loop`log, e`active
    ensures loop.Alive({}) && loop.Doomed() == old(loop.Doomed()) && loop.log == old(loop.log) + [Switched(e, on)]
    ensures FlagsIn(loop.events) == old(FlagsIn(loop.events))[e := Step(old(FlagsOf(e)), Switched(e, on))]
  {
    hide Loop.Alive;
    loop.Toggle(e, on);
  }

  method ToggleOn(tl: TimerLoop, ghost h: Heaps, e: Event, on: bool)
    requires tl.loop.Alive({}) && tl.Valid(h.T, h.ts, h.R, h.rs) && e in tl.loop.events && e.isIo && e !in EventsOf(h.T) && e !in EventsOf(h.R)
    modifies tl.loop`nactives, tl.loop`log, e`active
    ensures tl.loop.Alive({}) && tl.Valid(h.T, h.ts, h.R, h.rs) && tl.loop.Doomed() == old(tl.loop.Doomed())
    ensures FlagsIn(tl.loop.events) == old(FlagsIn(tl.loop.events))[e := Step(old(FlagsOf(e)), Switched(e, on))]
    ensures tl.loop.log == old(tl.loop.log) + [Switched(e, on)]
  {
    hide *;
    tl.HeapsOf(h.T, h.ts, h.R, h.rs);
    ToggleFlags(tl.loop, e, on);
    tl.HeapsStay(h, e, Step(old(FlagsOf(e)), Switched(e, on)));
  }

  /** hidle_del. */
  method DeleteIdle(tl: TimerLoop, e: Event, ghost H: set<Timer>, ghost h: Heaps)
    requires Kit(tl, H, h) && e in tl.loop.events && !e.isIo && !e.freed && e !in EventsOf(H)
    modifies tl.loop`nactives, tl.loop`log, e`active, e`destroy, e`freed
    ensures Kit(tl, H, h) && StatusOf(H) == old(StatusOf(H))
    ensures FlagsIn(tl.loop.events) == old(FlagsIn(tl.loop.events))[e := Step(old(FlagsOf(e)), Deleted(e))]
    ensures tl.loop.log == old(tl.loop.log) + [Deleted(e)]
  {
    hide *;
    OpenKit(tl, H, h);
    ghost var doomed := tl.loop.Doomed();
    NotOfTimers(H, h, StatusOf(H), tl.loop.events, doomed, e);
    HandlesBeside(H, h.T + h.R, StatusOf(H), tl.loop.events, doomed, e);
    DeleteOn(tl, h, e);
    CloseKit(tl, H, h);
  }

  method DeleteFlags(loop: Loop, e: Event)
    requires loop.Alive({}) && e in loop.events && !e.isIo && !e.freed
    modifies loop`nactives, loop`log, e`active, e`destroy, e`freed
    ensures loop.Alive({}) && loop.Doomed() == old(loop.Doomed()) + {e} && loop.log == old(loop.log) + [Deleted(e)]
    ensures FlagsIn(loop.events) == old(FlagsIn(loop.events))[e := Step(old(FlagsOf(e)), Deleted(e))]
  {
    hide Loop.Alive, Loop.Doomed;
    loop.LifeOf(e);
    loop.Del(e);
  }

  method DeleteOn(tl: TimerLoop, ghost h: Heaps, e: Event)
    requires tl.loop.Alive({}) && tl.Valid(h.T, h.ts, h.R, h.rs) && e in tl.loop.events && !e.isIo && !e.freed
    requires e !in EventsOf(h.T) && e !in EventsOf(h.R)
    modifies tl.loop`nactives, tl.loop`log, e`active, e`destroy, e`freed
    ensures tl.loop.Alive({}) && tl.Valid(h.T, h.ts, h.R, h.rs) && tl.loop.Doomed() == old(tl.loop.Doomed()) + {e}
    ensures FlagsIn(tl.loop.events) == old(FlagsIn(tl.loop.events))[e := Step(old(FlagsOf(e)), Deleted(e))]
    ensures tl.loop.log == old(tl.loop.log) + [Deleted(e)]
  {
    hide *;
    tl.HeapsOf(h.T, h.ts, h.R, h.rs);
    DeleteFlags(tl.loop, e);
    tl.HeapsStay(h, e, Step(old(FlagsOf(e)), Deleted(e)));
  }

  // ------------------------------------------------------------ callbacks

  /** Within a batch. */
  ghost predicate InBatch(tl: TimerLoop, H: set<Timer>, h: Heaps, b: Start, ncbs: nat, reached: seq<Event>, over: seq<Event>)
    reads tl, tl.timers, tl.realtimers, H, h.T, h.R, tl.loop`events, tl.loop`nactives, tl.loop`log, tl.loop`ran, tl.loop.events
  {
    Kit(tl, H, h) && Told(b, Shot(tl, H, h.T + h.R), ncbs, reached, over)
  }

  /** A batch goes on after a step of a callback. */
  lemma BatchOn(tl: TimerLoop, H: set<Timer>, h: Heaps, b: Start, ncbs: nat, reached: seq<Event>, over: seq<Event>, s: Now, x: Entry)
    requires Kit(tl, H, h) && Told(b, s, ncbs, reached, over) && !Origin(s.m, x.ev).freed && x.ev !in b.off && (x.Added? <==> x.ev !in s.m)
    requires !x.Reached? && !x.Over? && (x.Deleted? || x.Rearmed? ==> !x.ev.isIo) && (x.Switched? ==> x.ev.isIo) && s.H <= H
    requires tl.loop.log == s.log + [x] && FlagsIn(tl.loop.events) == s.m[x.ev := Step(Origin(s.m, x.ev), x)] && tl.loop.ran == s.ran
    requires forall u | u in s.H && u in s.st && !About(x, u.ev) :: StatusOf(H)[u] == s.st[u] && (u in h.T + h.R <==> u in s.waiting)
    ensures InBatch(tl, H, h, b, ncbs, reached, over)
  {
    hide Kit, Told, Step, Origin, About, FlagsIn, StatusOf;
    ToldOn(b, s, ncbs, reached, over, x, Shot(tl, H, h.T + h.R));
  }

  /** A callback adds a timer. */
  method ActAdd(tl: TimerLoop, isPeriod: bool, timeout: nat, repeat: nat, at: nat, H: set<Timer>, ghost h: Heaps,
                ghost b: Start, ghost ncbs: nat, ghost reached: seq<Event>, ghost over: seq<Event>)
    returns (H': set<Timer>, ghost h': Heaps)
    requires InBatch(tl, H, h, b, ncbs, reached, over) && repeat <= INFINITE && (!isPeriod ==> timeout > 0) && b.off <= tl.loop.events
    modifies tl.timers, tl.realtimers, h.T`parent, h.T`left, h.T`right, h.R`parent, h.R`left, h.R`right, tl`ntimers,
             tl.loop`events, tl.loop`nactives, tl.loop`log
    ensures InBatch(tl, H', h', b, ncbs, reached, over) && H <= H' && fresh(H' - H)
    ensures old(tl.loop.events) <= tl.loop.events && fresh(tl.loop.events - old(tl.loop.events))
  {
    hide *;
    OpenBatch(tl, H, h, b, ncbs, reached, over);
    ghost var s := Shot(tl, H, h.T + h.R);
    var r;
    r, h' := AddTimer(tl, isPeriod, timeout, repeat, at, H, h);
    H' := H + {r};
    NewOrigin(s.m, r.ev, old(tl.loop.events));
    BatchOn(tl, H', h', b, ncbs, reached, over, s, Added(r.ev));
  }

  lemma OpenBatch(tl: TimerLoop, H: set<Timer>, h: Heaps, b: Start, ncbs: nat, reached: seq<Event>, over: seq<Event>)
    requires InBatch(tl, H, h, b, ncbs, reached, over)
    ensures Kit(tl, H, h) && h.T + h.R <= H
    ensures var s := Shot(tl, H, h.T + h.R);
      && Told(b, s, ncbs, reached, over) && s.log == tl.loop.log && s.m == FlagsIn(tl.loop.events) && s.H == H && s.st == StatusOf(H)
      && s.waiting == h.T + h.R && s.ran == tl.loop.ran
  {
  }

  lemma NewOrigin(m: map<Event, Flags>, e: Event, events: set<Event>)
    requires m.Keys == events
    ensures e !in events ==> Origin(m, e) == NEW && !Origin(m, e).freed
    ensures e in events ==> Origin(m, e) == m[e]
  {
  }

  /** It deletes or resets one. */
  method ActOn(tl: TimerLoop, u: Timer, delete: bool, timeout: nat, now: nat, H: set<Timer>, ghost h: Heaps,
               ghost b: Start, ghost ncbs: nat, ghost reached: seq<Event>, ghost over: seq<Event>)
    returns (ghost h': Heaps)
    requires InBatch(tl, H, h, b, ncbs, reached, over) && u in H && !u.ev.freed && u.ev !in b.off && (delete || !u.isPeriod)
    modifies tl.timers, tl.realtimers, h.T`parent, h.T`left, h.T`right, h.R`parent, h.R`left, h.R`right, u, tl`ntimers, tl.loop`nactives, tl.loop`log,
             u.ev`active, u.ev`destroy, u.ev`freed, u.ev`pending
    ensures InBatch(tl, H, h', b, ncbs, reached, over)
  {
    hide *;
    OpenBatch(tl, H, h, b, ncbs, reached, over);
    IsKnown(tl, H, h, u);
    ghost var s := Shot(tl, H, h.T + h.R);
    ghost var x;
    if delete {
      h' := DeleteTimer(tl, u, H, h);
      x := Deleted(u.ev);
    } else {
      h' := ResetTimer(tl, u, timeout, now, H, h);
      x := Rearmed(u.ev);
    }
    ActedOn(H, u, x);
    BatchOn(tl, H, h', b, ncbs, reached, over, s, x);
  }

  lemma IsKnown(tl: TimerLoop, H: set<Timer>, h: Heaps, u: Timer)
    requires Kit(tl, H, h) && u in H
    ensures u.ev in tl.loop.events && !u.ev.isIo && FlagsIn(tl.loop.events)[u.ev] == FlagsOf(u.ev)
    ensures Origin(FlagsIn(tl.loop.events), u.ev) == FlagsOf(u.ev) && FlagsOf(u.ev).freed == u.ev.freed
    ensures Distinct(H)
  {
    hide Loop.Alive, TimerLoop.Valid;
  }

  lemma ActedOn(H: set<Timer>, u: Timer, x: Entry)
    requires Distinct(H) && u in H && (x == Deleted(u.ev) || x == Rearmed(u.ev))
    ensures forall v | v in H && !About(x, v.ev) :: v != u
  {
  }

  /** It adds an idle or io event. */
  method ActNew(tl: TimerLoop, p: Priority, isIo: bool, H: set<Timer>, ghost h: Heaps,
                ghost b: Start, ghost ncbs: nat, ghost reached: seq<Event>, ghost over: seq<Event>)
    requires InBatch(tl, H, h, b, ncbs, reached, over) && b.off <= tl.loop.events
    modifies tl.loop`events, tl.loop`nactives, tl.loop`log
    ensures InBatch(tl, H, h, b, ncbs, reached, over)
    ensures old(tl.loop.events) <= tl.loop.events && fresh(tl.loop.events - old(tl.loop.events))
  {
    hide *;
    OpenBatch(tl, H, h, b, ncbs, reached, over);
    ghost var s := Shot(tl, H, h.T + h.R);
    var e := AddEvent(tl, p, isIo, H, h);
    NewOrigin(s.m, e, old(tl.loop.events));
    BatchOn(tl, H, h, b, ncbs, reached, over, s, Added(e));
  }

  /** It adds or deletes an io, or deletes an idle event. */
  method ActEvent(tl: TimerLoop, e: Event, on: bool, H: set<Timer>, ghost h: Heaps,
                  ghost b: Start, ghost ncbs: nat, ghost reached: seq<Event>, ghost over: seq<Event>)
    requires InBatch(tl, H, h, b, ncbs, reached, over) && e in tl.loop.events && e !in b.off && !e.freed && (!e.isIo ==> e !in EventsOf(H))
    modifies tl.loop`nactives, tl.loop`log, e`active, e`destroy, e`freed
    ensures InBatch(tl, H, h, b, ncbs, reached, over)
  {
    hide *;
    OpenBatch(tl, H, h, b, ncbs, reached, over);
    FlagsKnown(tl.loop.events, e);
    ghost var s := Shot(tl, H, h.T + h.R);
    ghost var x;
    if e.isIo {
      ToggleIo(tl, e, on, H, h);
      x := Switched(e, on);
    } else {
      DeleteIdle(tl, e, H, h);
      x := Deleted(e);
    }
    BatchOn(tl, H, h, b, ncbs, reached, over, s, x);
  }

  lemma FlagsKnown(E: set<Event>, e: Event)
    requires e in E
    ensures Origin(FlagsIn(E), e) == FlagsOf(e) && FlagsOf(e).freed == e.freed
  {
  }

  /** Whatever a callback does: any number of calls on timers and events that are not freed and not in `b.off`. */
  method Callback(tl: TimerLoop, H: set<Timer>, ghost h: Heaps, off: set<Event>,
                  ghost b: Start, ghost ncbs: nat, ghost reached: seq<Event>, ghost over: seq<Event>, steps: nat)
    returns (H': set<Timer>, ghost h': Heaps)
    requires InBatch(tl, H, h, b, ncbs, reached, over) && b.off == off <= tl.loop.events
    modifies tl.timers, tl.realtimers, H, tl`ntimers, tl.loop`events, tl.loop`nactives, tl.loop`log,
             tl.loop.events`active, tl.loop.events`destroy, tl.loop.events`freed, tl.loop.events`pending
    ensures InBatch(tl, H', h', b, ncbs, reached, over) && H <= H' && fresh(H' - H)
    ensures old(tl.loop.events) <= tl.loop.events && fresh(tl.loop.events - old(tl.loop.events))
    decreases steps
  {
    hide *;
    H', h' := H, h;
    if steps > 0 {
      H', h' := Act(tl, H, h, off, b, ncbs, reached, over);
      H', h' := Callback(tl, H', h', off, b, ncbs, reached, over, steps - 1);
    }
  }

  method Act(tl: TimerLoop, H: set<Timer>, ghost h: Heaps, off: set<Event>,
             ghost b: Start, ghost ncbs: nat, ghost reached: seq<Event>, ghost over: seq<Event>)
    returns (H': set<Timer>, ghost h': Heaps)
    requires InBatch(tl, H, h, b, ncbs, reached, over) && b.off == off <= tl.loop.events
    modifies tl.timers, tl.realtimers, H, tl`ntimers, tl.loop`events, tl.loop`nactives, tl.loop`log,
             tl.loop.events`active, tl.loop.events`destroy, tl.loop.events`freed, tl.loop.events`pending
    ensures InBatch(tl, H', h', b, ncbs, reached, over) && H <= H' && fresh(H' - H)
    ensures old(tl.loop.events) <= tl.loop.events && fresh(tl.loop.events - old(tl.loop.events))
  {
    hide *;
    BatchWithin(tl, H, h, b, ncbs, reached, over);
    H', h' := H, h;
    var isPeriod: bool, timeout: nat, repeat: nat, at: nat := *, *, *, *;
    var onTimer: bool, isNew: bool := *, *;
    if onTimer && isNew {
      if repeat <= INFINITE && (isPeriod || timeout > 0) {
        H', h' := ActAdd(tl, isPeriod, timeout, repeat, at, H, h, b, ncbs, reached, over);
      }
    } else if onTimer {
      if H != {} {
        var u :| u in H;
        var delete: bool := *;
        if !u.ev.freed && u.ev !in off && (delete || !u.isPeriod) {
          h' := ActOn(tl, u, delete, timeout, at, H, h, b, ncbs, reached, over);
        }
      }
    } else {
      ActOther(tl, isNew, H, h, off, b, ncbs, reached, over);
    }
  }

  method ActOther(tl: TimerLoop, isNew: bool, H: set<Timer>, ghost h: Heaps, off: set<Event>,
                  ghost b: Start, ghost ncbs: nat, ghost reached: seq<Event>, ghost over: seq<Event>)
    requires InBatch(tl, H, h, b, ncbs, reached, over) && b.off == off <= tl.loop.events
    modifies tl.loop`events, tl.loop`nactives, tl.loop`log, tl.loop.events`active, tl.loop.events`destroy, tl.loop.events`freed
    ensures InBatch(tl, H, h, b, ncbs, reached, over)
    ensures old(tl.loop.events) <= tl.loop.events && fresh(tl.loop.events - old(tl.loop.events))
  {
    hide *;
    if isNew {
      var p: Priority, isIo: bool := *, *;
      ActNew(tl, p, isIo, H, h, b, ncbs, reached, over);
    } else if tl.loop.events != {} {
      var e :| e in tl.loop.events;
      var on: bool := *;
      if !e.freed && e !in off && (e.isIo || forall u | u in H :: u.ev != e) {
        NotATimer(H, e);
        ActEvent(tl, e, on, H, h, b, ncbs, reached, over);
      }
    }
  }

  lemma NotATimer(H: set<Timer>, e: Event)
    requires e.isIo || forall u | u in H :: u.ev != e
    ensures !e.isIo ==> e !in EventsOf(H)
  {
  }

  lemma BatchWithin(tl: TimerLoop, H: set<Timer>, h: Heaps, b: Start, ncbs: nat, reached: seq<Event>, over: seq<Event>)
    requires InBatch(tl, H, h, b, ncbs, reached, over)
    ensures h.T <= H && h.R <= H && forall u | u in H :: u.ev in tl.loop.events
  {
  }

  // ------------------------------------------------------------ hloop_process_pendings

  /** The end of a turn does no harm to the timers that wait. */
  lemma Harmless(tl: TimerLoop, H: set<Timer>, h: Heaps, cur: Event)
    requires Kit(tl, H, h) && cur in tl.loop.events && !cur.freed
    ensures Alike(FlagsIn(tl.loop.events), cur, Step(FlagsOf(cur), Over(cur))) || (cur !in EventsOf(h.T) && cur !in EventsOf(h.R))
  {
    hide Loop.Alive, TimerLoop.Valid;
    if cur.destroy { assert cur in tl.loop.Doomed(); }
  }

  method FinishOn(tl: TimerLoop, cur: Event, ghost h: Heaps)
    requires tl.loop.Alive({}) && tl.Valid(h.T, h.ts, h.R, h.rs) && cur in tl.loop.events && !cur.freed
    requires Alike(FlagsIn(tl.loop.events), cur, Step(FlagsOf(cur), Over(cur))) || (cur !in EventsOf(h.T) && cur !in EventsOf(h.R))
    modifies tl.loop`nactives, tl.loop`log, cur`active, cur`freed, cur`pending, cur`linked
    ensures tl.loop.Alive({}) && tl.Valid(h.T, h.ts, h.R, h.rs) && tl.loop.Doomed() == old(tl.loop.Doomed())
    ensures FlagsIn(tl.loop.events) == old(FlagsIn(tl.loop.events))[cur := Step(old(FlagsOf(cur)), Over(cur))]
    ensures tl.loop.log == old(tl.loop.log) + [Over(cur)]
  {
    hide *;
    tl.HeapsOf(h.T, h.ts, h.R, h.rs);
    FinishFlags(tl.loop, cur);
    tl.HeapsStay(h, cur, Step(old(FlagsOf(cur)), Over(cur)));
  }

  method FinishFlags(loop: Loop, cur: Event)
    requires loop.Alive({}) && cur in loop.events && !cur.freed
    modifies loop`nactives, loop`log, cur`active, cur`freed, cur`pending, cur`linked
    ensures loop.Alive({}) && loop.Doomed() == old(loop.Doomed()) && loop.log == old(loop.log) + [Over(cur)]
    ensures FlagsIn(loop.events) == old(FlagsIn(loop.events))[cur := Step(old(FlagsOf(cur)), Over(cur))]
  {
    hide Loop.Alive, Loop.Doomed;
    loop.Finish(cur);
  }

  /** The turn of `cur` comes to its end. */
  method FinishTurn(tl: TimerLoop, cur: Event, ghost H: set<Timer>, ghost h: Heaps, ghost b: Start, ghost ncbs: nat, ghost done: seq<Event>)
    requires InBatch(tl, H, h, b, ncbs, done + [cur], done) && cur in tl.loop.events && !cur.freed
    modifies tl.loop`nactives, tl.loop`log, cur`active, cur`freed, cur`pending, cur`linked
    ensures InBatch(tl, H, h, b, ncbs, done + [cur], done + [cur])
  {
    hide *;
    OpenBatch(tl, H, h, b, ncbs, done + [cur], done);
    OpenKit(tl, H, h);
    Harmless(tl, H, h, cur);
    FlagsKnown(tl.loop.events, cur);
    NewOrigin(FlagsIn(tl.loop.events), cur, tl.loop.events);
    ghost var s := Shot(tl, H, h.T + h.R);
    FinishOn(tl, cur, h);
    CloseKit(tl, H, h);
    ToldOver(b, s, ncbs, done + [cur], done, cur);
    CloseBatch(tl, H, h, b, ncbs, done + [cur], done + [cur], Now(s.log + [Over(cur)], s.m[cur := Step(s.m[cur], Over(cur))], s.H, s.st, s.waiting, s.ran));
  }

  lemma CloseBatch(tl: TimerLoop, H: set<Timer>, h: Heaps, b: Start, ncbs: nat, reached: seq<Event>, over: seq<Event>, s: Now)
    requires Kit(tl, H, h) && Told(b, s, ncbs, reached, over)
    requires s == Now(tl.loop.log, FlagsIn(tl.loop.events), H, StatusOf(H), h.T + h.R, tl.loop.ran)
    ensures InBatch(tl, H, h, b, ncbs, reached, over)
  {
  }

  /** The batch has come to `cur` and is about to call it. */
  ghost predicate Calling(tl: TimerLoop, H: set<Timer>, h: Heaps, b: Start, ncbs: nat, done: seq<Event>, cur: Event)
    reads tl, tl.timers, tl.realtimers, H, h.T, h.R, tl.loop`events, tl.loop`nactives, tl.loop`log, tl.loop`ran, tl.loop.events
  {
    && Kit(tl, H, h)
    && Told(b, Now(tl.loop.log, FlagsIn(tl.loop.events), H, StatusOf(H), h.T + h.R, tl.loop.ran + multiset{cur}), ncbs + 1, done + [cur], done)
  }

  /** The batch comes to `cur`. */
  method ReachTurn(tl: TimerLoop, cur: Event, ghost H: set<Timer>, ghost h: Heaps, ghost b: Start, ghost ncbs: nat, ghost done: seq<Event>)
    returns (next: Event?, called: bool)
    requires InBatch(tl, H, h, b, ncbs, done, done) && cur in tl.loop.events && !cur.freed
    modifies tl.loop`log
    ensures next == cur.next && (called <==> cur.pending && cur.active && cur.hasCb)
    ensures if called then Calling(tl, H, h, b, ncbs, done, cur) else InBatch(tl, H, h, b, ncbs, done + [cur], done)
  {
    hide *;
    OpenBatch(tl, H, h, b, ncbs, done, done);
    FlagsKnown(tl.loop.events, cur);
    NewOrigin(FlagsIn(tl.loop.events), cur, tl.loop.events);
    FlagsParts(cur);
    ghost var s := Shot(tl, H, h.T + h.R);
    next, called := tl.loop.Reach(cur);
    ToldReach(b, s, ncbs, done, done, cur, called);
    CloseReach(tl, H, h, b, ncbs, done, s, cur, called);
  }

  lemma CloseReach(tl: TimerLoop, H: set<Timer>, h: Heaps, b: Start, ncbs: nat, done: seq<Event>, s: Now, cur: Event, called: bool)
    requires Kit(tl, H, h) && s.m == FlagsIn(tl.loop.events) && s.H == H && s.st == StatusOf(H) && s.waiting == h.T + h.R && s.ran == tl.loop.ran
    requires tl.loop.log == s.log + [Reached(cur, called)]
    requires Told(b, Now(s.log + [Reached(cur, called)], s.m, s.H, s.st, s.waiting, if called then s.ran + multiset{cur} else s.ran),
                  if called then ncbs + 1 else ncbs, done + [cur], done)
    ensures if called then Calling(tl, H, h, b, ncbs, done, cur) else InBatch(tl, H, h, b, ncbs, done + [cur], done)
  {
  }

  /** `cur->cb(cur); ++ncbs;` */
  method Call(tl: TimerLoop, cur: Event, H: set<Timer>, ghost h: Heaps, off: set<Event>, ghost b: Start, ncbs0: nat, ghost done: seq<Event>)
    returns (ncbs: nat, H': set<Timer>, ghost h': Heaps)
    requires Calling(tl, H, h, b, ncbs0, done, cur) && b.off == off <= tl.loop.events
    modifies tl.timers, tl.realtimers, H, tl`ntimers, tl.loop`events, tl.loop`nactives, tl.loop`log, tl.loop`ran,
             tl.loop.events`active, tl.loop.events`destroy, tl.loop.events`freed, tl.loop.events`pending
    ensures InBatch(tl, H', h', b, ncbs, done + [cur], done)
    ensures H <= H' && fresh(H' - H) && old(tl.loop.events) <= tl.loop.events && fresh(tl.loop.events - old(tl.loop.events))
  {
    hide *;
    OpenCall(tl, H, h, b, ncbs0, done, cur);
    tl.loop.ran := tl.loop.ran + multiset{cur};
    ncbs := ncbs0 + 1;
    CloseBatch(tl, H, h, b, ncbs, done + [cur], done, Now(tl.loop.log, FlagsIn(tl.loop.events), H, StatusOf(H), h.T + h.R, tl.loop.ran));
    var steps: nat := *;
    H', h' := Callback(tl, H, h, off, b, ncbs, done + [cur], done, steps);
  }

  lemma OpenCall(tl: TimerLoop, H: set<Timer>, h: Heaps, b: Start, ncbs: nat, done: seq<Event>, cur: Event)
    requires Calling(tl, H, h, b, ncbs, done, cur)
    ensures Kit(tl, H, h) && h.T <= H && h.R <= H
    ensures Told(b, Now(tl.loop.log, FlagsIn(tl.loop.events), H, StatusOf(H), h.T + h.R, tl.loop.ran + multiset{cur}), ncbs + 1, done + [cur], done)
  {
  }

  lemma FlagsParts(e: Event)
    ensures FlagsOf(e) == Flags(e.active, e.pending, e.destroy, e.freed, e.linked)
  {
  }

  /** One turn of the loop of hloop_process_pendings. An event that is freed by then, or by its own callback, is used all the
      same; the model ends there, with `ok == false`. */
  method Turn(tl: TimerLoop, cur: Event, H: set<Timer>, ghost h: Heaps, off: set<Event>, ghost b: Start, ncbs0: nat, ghost done: seq<Event>)
    returns (ok: bool, next: Event?, ncbs: nat, ghost reached: seq<Event>, H': set<Timer>, ghost h': Heaps)
    requires InBatch(tl, H, h, b, ncbs0, done, done) && cur in tl.loop.events && b.off == off <= tl.loop.events
    modifies tl.timers, tl.realtimers, H, tl`ntimers, tl.loop`events, tl.loop`nactives, tl.loop`log, tl.loop`ran, tl.loop.events`active,
             tl.loop.events`destroy, tl.loop.events`freed, tl.loop.events`pending, tl.loop.events`linked
    ensures ok ==> reached == done + [cur] && next == cur.next && InBatch(tl, H', h', b, ncbs, reached, reached)
    ensures !ok ==> (reached == done || reached == done + [cur]) && cur.freed && InBatch(tl, H', h', b, ncbs, reached, done)
    ensures H <= H' && fresh(H' - H) && old(tl.loop.events) <= tl.loop.events && fresh(tl.loop.events - old(tl.loop.events))
  {
    hide *;
    BatchWithin(tl, H, h, b, ncbs0, done, done);
    H', h', ncbs, reached := H, h, ncbs0, done;
    ok, next := !cur.freed, null;
    if ok {
      var called;
      next, called := ReachTurn(tl, cur, H, h, b, ncbs0, done);
      reached := done + [cur];
      if called {
        ncbs, H', h' := Call(tl, cur, H, h, off, b, ncbs0, done);
      }
      ok := !cur.freed;
      if ok {
        FinishTurn(tl, cur, H', h', b, ncbs, done);
      }
    }
  }

  /** A batch over the events `all`, in this order; when it breaks, the next of them has been freed before its turn was over. */
  ghost predicate Going(tl: TimerLoop, H: set<Timer>, h: Heaps, b: Start, ncbs: nat, ok: bool, all: seq<Event>, reached: seq<Event>, over: seq<Event>)
    reads tl, tl.timers, tl.realtimers, H, h.T, h.R, tl.loop`events, tl.loop`nactives, tl.loop`log, tl.loop`ran, tl.loop.events
  {
    && InBatch(tl, H, h, b, ncbs, reached, over) && over <= all && reached <= all && b.off <= tl.loop.events && Elems(all) <= tl.loop.events
    && if ok then reached == over else |over| < |all| && all[|over|] in tl.loop.events && all[|over|].freed
  }

  lemma GoingAt(tl: TimerLoop, H: set<Timer>, h: Heaps, b: Start, ncbs: nat, all: seq<Event>, done: seq<Event>, l: seq<Event>, low: seq<Event>)
    requires Going(tl, H, h, b, ncbs, true, all, done, done) && all == done + (l + low)
    ensures InBatch(tl, H, h, b, ncbs, done, done) && b.off <= tl.loop.events && h.T <= H && h.R <= H && Elems(all) <= tl.loop.events
    ensures l != [] ==> l[0] in tl.loop.events && all == done + [l[0]] + (l[1..] + low)
  {
    hide Told, Kit;
    BatchWithin(tl, H, h, b, ncbs, done, done);
    if l != [] {
      assert all[|done|] == l[0] && all[|done|] in Elems(all);
      assert l == [l[0]] + l[1..];
    }
  }

  lemma GoingOn(tl: TimerLoop, H: set<Timer>, h: Heaps, b: Start, ncbs: nat, ok: bool, all: seq<Event>, done: seq<Event>, cur: Event, rest: seq<Event>,
                reached: seq<Event>)
    requires all == done + [cur] + rest && b.off <= tl.loop.events && Elems(all) <= tl.loop.events && cur in tl.loop.events
    requires ok ==> reached == done + [cur] && InBatch(tl, H, h, b, ncbs, reached, reached)
    requires !ok ==> (reached == done || reached == done + [cur]) && cur.freed && InBatch(tl, H, h, b, ncbs, reached, done)
    ensures Going(tl, H, h, b, ncbs, ok, all, reached, if ok then reached else done)
  {
    hide InBatch;
  }

  lemma AllOver(done: seq<Event>, l: seq<Event>)
    requires l != []
    ensures done + l == done + [l[0]] + l[1..]
  {
  }

  lemma ChainAt(cur: Event?, l: seq<Event>)
    requires Chain(cur, l)
    ensures cur == null ==> l == []
    ensures cur != null ==> l != [] && l[0] == cur && Chain(cur.next, l[1..])
  {
  }

  /** The list `l0` from `cur0` on; the events of `low` come after it. */
  method DrainChain(tl: TimerLoop, cur0: Event?, H: set<Timer>, ghost h: Heaps, off: set<Event>, ghost b: Start, ncbs0: nat,
                    ghost all: seq<Event>, ghost done0: seq<Event>, ghost l0: seq<Event>, ghost low: seq<Event>)
    returns (ok: bool, ncbs: nat, ghost reached: seq<Event>, ghost over: seq<Event>, H': set<Timer>, ghost h': Heaps)
    requires Going(tl, H, h, b, ncbs0, true, all, done0, done0) && all == done0 + (l0 + low) && Chain(cur0, l0) && b.off == off
    modifies tl.timers, tl.realtimers, H, tl`ntimers, tl.loop`events, tl.loop`nactives, tl.loop`log, tl.loop`ran, tl.loop.events`active,
             tl.loop.events`destroy, tl.loop.events`freed, tl.loop.events`pending, tl.loop.events`linked
    ensures Going(tl, H', h', b, ncbs, ok, all, reached, over) && (ok ==> over == done0 + l0)
    ensures H <= H' && fresh(H' - H) && old(tl.loop.events) <= tl.loop.events && fresh(tl.loop.events - old(tl.loop.events))
  {
    hide *;
    ok, ncbs, reached, over, H', h' := true, ncbs0, done0, done0, H, h;
    var cur := cur0;
    ghost var l := l0;
    GoingAt(tl, H, h, b, ncbs, all, over, l, low);
    ChainAt(cur, l);
    while cur != null
      invariant ok && reached == over && Going(tl, H', h', b, ncbs, true, all, over, over)
      invariant all == over + (l + low) && Chain(cur, l) && over + l == done0 + l0 && (cur == null ==> l == [])
      invariant H <= H' && fresh(H' - H) && old(tl.loop.events) <= tl.loop.events && fresh(tl.loop.events - old(tl.loop.events))
      decreases |l|
    {
      ChainAt(cur, l);
      GoingAt(tl, H', h', b, ncbs, all, over, l, low);
      ghost var done := over;
      var next;
      ok, next, ncbs, reached, H', h' := Turn(tl, cur, H', h', off, b, ncbs, done);
      GoingOn(tl, H', h', b, ncbs, ok, all, done, cur, l[1..] + low, reached);
      if !ok {
        return;
      }
      AllOver(done, l);
      over, l, cur := reached, l[1..], next;
      ChainAt(cur, l);
    }
  }

  lemma DrainedAt(loop: Loop, i: nat, E: set<Event>)
    requires loop.Drained(i + 1, E) && i < PRIORITY_SIZE
    ensures i < loop.pendings.Length && i < |loop.lists| && Chain(loop.pendings[i], loop.lists[i])
    ensures Order(loop.lists, i + 1) == loop.lists[i] + Order(loop.lists, i)
  {
    assert loop.ListOk(i, loop.pendings[i]);
  }

  method Unhead(loop: Loop, i: nat, ghost E: set<Event>)
    requires loop.Drained(i + 1, E) && i < PRIORITY_SIZE
    modifies loop.pendings
    ensures loop.Drained(i, E)
  {
    DrainedAt(loop, i, E);
    NoDupParts(loop.lists[i], Order(loop.lists, i));
    assert forall k | 0 <= k < i :: loop.ListOk(k, loop.pendings[k]);
    loop.pendings[i] := null;
    assert forall k | 0 <= k < i :: loop.ListOk(k, loop.pendings[k]);
  }

  /** One pending list. */
  method DrainList(tl: TimerLoop, i: nat, H: set<Timer>, ghost h: Heaps, off: set<Event>, ghost b: Start, ncbs0: nat, ghost all: seq<Event>, ghost done: seq<Event>)
    returns (ok: bool, ncbs: nat, ghost reached: seq<Event>, ghost over: seq<Event>, H': set<Timer>, ghost h': Heaps)
    requires Going(tl, H, h, b, ncbs0, true, all, done, done) && b.off == off && i < PRIORITY_SIZE && tl.loop.Drained(i + 1, b.m.Keys)
    requires i < |tl.loop.lists| && all == done + Order(tl.loop.lists, i + 1)
    modifies tl.timers, tl.realtimers, H, tl`ntimers, tl.loop`events, tl.loop`nactives, tl.loop`log, tl.loop`ran, tl.loop.pendings, tl.loop.events`active,
             tl.loop.events`destroy, tl.loop.events`freed, tl.loop.events`pending, tl.loop.events`linked
    ensures Going(tl, H', h', b, ncbs, ok, all, reached, over)
    ensures ok ==> tl.loop.Drained(i, b.m.Keys) && all == over + Order(tl.loop.lists, i)
    ensures H <= H' && fresh(H' - H) && old(tl.loop.events) <= tl.loop.events && fresh(tl.loop.events - old(tl.loop.events))
  {
    hide *;
    DrainedAt(tl.loop, i, b.m.Keys);
    ok, ncbs, reached, over, H', h' := DrainChain(tl, tl.loop.pendings[i], H, h, off, b, ncbs0, all, done, tl.loop.lists[i], Order(tl.loop.lists, i));
    if ok {
      GoingOver(tl, H', h', b, ncbs, all, reached, over);
      Unhead(tl.loop, i, b.m.Keys);
    }
  }

  /** The loop over the priorities, high to low. */
  method DrainAll(tl: TimerLoop, H: set<Timer>, ghost h: Heaps, off: set<Event>, ghost b: Start, ghost all: seq<Event>)
    returns (ok: bool, ncbs: nat, ghost reached: seq<Event>, ghost over: seq<Event>, H': set<Timer>, ghost h': Heaps)
    requires Going(tl, H, h, b, 0, true, all, [], []) && b.off == off && tl.loop.Drained(PRIORITY_SIZE, b.m.Keys)
    requires |tl.loop.lists| == PRIORITY_SIZE && all == Order(tl.loop.lists, PRIORITY_SIZE)
    modifies tl.timers, tl.realtimers, H, tl`ntimers, tl.loop`events, tl.loop`nactives, tl.loop`log, tl.loop`ran, tl.loop.pendings, tl.loop.events`active,
             tl.loop.events`destroy, tl.loop.events`freed, tl.loop.events`pending, tl.loop.events`linked
    ensures Going(tl, H', h', b, ncbs, ok, all, reached, over) && (ok ==> tl.loop.Drained(0, b.m.Keys) && over == all)
    ensures H <= H' && fresh(H' - H) && old(tl.loop.events) <= tl.loop.events && fresh(tl.loop.events - old(tl.loop.events))
  {
    hide *;
    ok, ncbs, reached, over, H', h' := true, 0, [], [], H, h;
    var i: nat := PRIORITY_SIZE;
    while i > 0
      invariant i <= PRIORITY_SIZE && ok && reached == over && Going(tl, H', h', b, ncbs, true, all, over, over) && tl.loop.Drained(i, b.m.Keys)
      invariant i <= |tl.loop.lists| && all == over + Order(tl.loop.lists, i)
      invariant H <= H' && fresh(H' - H) && old(tl.loop.events) <= tl.loop.events && fresh(tl.loop.events - old(tl.loop.events))
    {
      i := i - 1;
      ok, ncbs, reached, over, H', h' := DrainList(tl, i, H', h', off, b, ncbs, all, over);
      if !ok {
        return;
      }
      GoingOver(tl, H', h', b, ncbs, all, reached, over);
    }
    OrderNone(tl.loop.lists);
  }

  lemma GoingOver(tl: TimerLoop, H: set<Timer>, h: Heaps, b: Start, ncbs: nat, all: seq<Event>, reached: seq<Event>, over: seq<Event>)
    requires Going(tl, H, h, b, ncbs, true, all, reached, over)
    ensures reached == over && h.T <= H && h.R <= H
  {
  }

  lemma OrderNone(lists: seq<seq<Event>>)
    ensures Order(lists, 0) == []
  {
  }

  /** What a batch that starts now finds. */
  ghost function Began(tl: TimerLoop, H: set<Timer>, h: Heaps, off: set<Event>): Start
    reads H, tl.loop`events, tl.loop`ran, tl.loop.events
  {
    Start(FlagsIn(tl.loop.events), H, StatusOf(H), h.T + h.R, off, tl.loop.ran)
  }

  /** `hloop_process_pendings`. The batch goes through the lists in order, highest priority first, calls each event exactly if it
      is callable when its turn comes, and leaves nothing pending; unless a callback resets and then deletes an event whose
      turn is not over. */
  method ProcessPendings(tl: TimerLoop, H: set<Timer>, ghost h: Heaps, off: set<Event>)
    returns (ok: bool, ncbs: nat, H': set<Timer>, ghost h': Heaps)
    requires tl.loop.Valid({}) && Kit(tl, H, h) && off <= tl.loop.events
    modifies tl.timers, tl.realtimers, H, tl`ntimers, tl.loop`events, tl.loop`nactives, tl.loop`npendings, tl.loop`lists, tl.loop`log, tl.loop`ran,
             tl.loop.pendings, tl.loop.events`active, tl.loop.events`destroy, tl.loop.events`freed, tl.loop.events`pending, tl.loop.events`linked
    ensures InBatch(tl, H', h', old(Began(tl, H, h, off)), ncbs, ReachedIn(tl.loop.log), OverIn(tl.loop.log))
    ensures Traced(old(FlagsIn(tl.loop.events)), tl.loop.log, FlagsIn(tl.loop.events)) && Honest(old(FlagsIn(tl.loop.events)), tl.loop.log)
    ensures ncbs == |CalledIn(tl.loop.log)| && tl.loop.ran == old(tl.loop.ran) + multiset(CalledIn(tl.loop.log))
    ensures ReachedIn(tl.loop.log) <= old(Order(tl.loop.lists, PRIORITY_SIZE)) && NoDup(ReachedIn(tl.loop.log)) && Falling(ReachedIn(tl.loop.log))
    ensures ok <==> forall e | e in old(tl.loop.Linked()) :: !Early(tl.loop.log, e)
    ensures ok ==> ReachedIn(tl.loop.log) == OverIn(tl.loop.log) == old(Order(tl.loop.lists, PRIORITY_SIZE))
    ensures ok ==> tl.loop.Valid({}) && tl.loop.npendings == 0 && tl.loop.Linked() == {}
    ensures H <= H' && fresh(H' - H) && old(tl.loop.events) <= tl.loop.events && fresh(tl.loop.events - old(tl.loop.events))
  {
    hide *;
    HasLists(tl.loop);
    ghost var b, all := Began(tl, H, h, off), Order(tl.loop.lists, PRIORITY_SIZE);
    tl.loop.log := [];
    BatchStarts(tl, H, h, off, b, all);
    if tl.loop.npendings == 0 {
      BatchEnds(tl, H, h, b, 0, true, all, [], [], old(tl.loop.Linked()));
      return true, 0, H, h;
    }
    ghost var reached, over;
    ok, ncbs, reached, over, H', h' := DrainAll(tl, H, h, off, b, all);
    EndBatch(tl, H', h', b, ncbs, ok, all, reached, over, old(tl.loop.Linked()));
  }

  /** The end of hloop_process_pendings. */
  method EndBatch(tl: TimerLoop, ghost H: set<Timer>, ghost h: Heaps, ghost b: Start, ncbs: nat, ok: bool, ghost all: seq<Event>,
                  ghost reached: seq<Event>, ghost over: seq<Event>, ghost linked: set<Event>)
    requires linked == Elems(all) && Going(tl, H, h, b, ncbs, ok, all, reached, over) && (ok ==> over == all && tl.loop.Drained(0, b.m.Keys))
    requires Found(b.m, all) && Falling(all) && forall e | e in all :: e in b.m
    modifies tl.loop`npendings, tl.loop`lists
    ensures InBatch(tl, H, h, b, ncbs, reached, over) && reached == ReachedIn(tl.loop.log) && over == OverIn(tl.loop.log) && (ok ==> reached == all)
    ensures Traced(b.m, tl.loop.log, FlagsIn(tl.loop.events)) && Honest(b.m, tl.loop.log)
    ensures ncbs == |CalledIn(tl.loop.log)| && tl.loop.ran == b.ran + multiset(CalledIn(tl.loop.log))
    ensures reached <= all && NoDup(reached) && Falling(reached)
    ensures h.T <= H && h.R <= H && (ok <==> forall e | e in linked :: !Early(tl.loop.log, e))
    ensures ok ==> tl.loop.Valid({}) && tl.loop.npendings == 0 && tl.loop.Linked() == {}
  {
    hide *;
    BatchEnds(tl, H, h, b, ncbs, ok, all, reached, over, linked);
    if ok {
      tl.loop.ClearLists(b.m.Keys);
    }
  }

  lemma HasLists(loop: Loop)
    requires loop.Valid({})
    ensures |loop.lists| == PRIORITY_SIZE
  {
  }

  lemma Finds(loop: Loop)
    requires loop.Valid({})
    ensures Found(FlagsIn(loop.events), Order(loop.lists, PRIORITY_SIZE)) && loop.Drained(PRIORITY_SIZE, loop.events)
    ensures forall e | e in Order(loop.lists, PRIORITY_SIZE) :: e in loop.events
  {
    hide NoDup;
    assert forall e | e in Order(loop.lists, PRIORITY_SIZE) :: e in loop.Linked();
  }

  /** A batch starts, */
  lemma BatchStarts(tl: TimerLoop, H: set<Timer>, h: Heaps, off: set<Event>, b: Start, all: seq<Event>)
    requires tl.loop.Valid({}) && Kit(tl, H, h) && off <= tl.loop.events && tl.loop.log == []
    requires b == Began(tl, H, h, off) && all == Order(tl.loop.lists, PRIORITY_SIZE)
    ensures Going(tl, H, h, b, 0, true, all, [], []) && Found(b.m, all) && Falling(all) && (forall e | e in all :: e in b.m)
    ensures tl.loop.Drained(PRIORITY_SIZE, b.m.Keys) && |tl.loop.lists| == PRIORITY_SIZE && b.off == off && b.ran == tl.loop.ran
    ensures b.m == FlagsIn(tl.loop.events) && tl.loop.Linked() == Elems(all)
    ensures tl.loop.npendings == 0 ==> all == [] && tl.loop.Linked() == {}
  {
    hide Kit, Falling, Loop.Alive, Found, Told, Loop.Drained;
    Finds(tl.loop);
    ToldStart(b, Shot(tl, H, h.T + h.R));
    tl.loop.ListsFall();
  }

  /** and ends. */
  lemma BatchEnds(tl: TimerLoop, H: set<Timer>, h: Heaps, b: Start, ncbs: nat, ok: bool, all: seq<Event>, reached: seq<Event>, over: seq<Event>,
                  linked: set<Event>)
    requires linked == Elems(all) && Going(tl, H, h, b, ncbs, ok, all, reached, over) && (ok ==> over == all) && Found(b.m, all) && Falling(all) && forall e | e in all :: e in b.m
    ensures InBatch(tl, H, h, b, ncbs, reached, over) && reached == ReachedIn(tl.loop.log) && over == OverIn(tl.loop.log) && (ok ==> reached == all)
    ensures Traced(b.m, tl.loop.log, FlagsIn(tl.loop.events)) && Honest(b.m, tl.loop.log)
    ensures ncbs == |CalledIn(tl.loop.log)| && tl.loop.ran == b.ran + multiset(CalledIn(tl.loop.log))
    ensures reached <= all && NoDup(reached) && Falling(reached)
    ensures h.T <= H && h.R <= H && (ok <==> forall e | e in linked :: !Early(tl.loop.log, e))
    ensures ok ==> tl.loop.Alive({}) && forall e | e in tl.loop.events :: !e.linked
  {
    hide Traced, Honest, Early, Loop.Alive, TimerLoop.Valid, Kept, Falling, NoDup, CalledIn, ReachedIn, OverIn;
    Ends(b.m, tl.loop.log, FlagsIn(tl.loop.events), reached, over, all, ok);
    assert forall e :: e in all <==> e in linked;
    PrefixFalls(all, reached);
    if ok { NotLinked(tl.loop.events, FlagsIn(tl.loop.events)); }
  }

  lemma PrefixFalls(all: seq<Event>, l: seq<Event>)
    requires l <= all
    ensures NoDup(all) ==> NoDup(l)
    ensures Falling(all) ==> Falling(l)
  {
    assert forall i | 0 <= i < |l| :: l[i] == all[i];
  }

  lemma NotLinked(E: set<Event>, m: map<Event, Flags>)
    requires m == FlagsIn(E) && forall e | e in m :: !m[e].linked
    ensures forall e | e in E :: !e.linked
  {
    forall e | e in E ensures !e.linked { assert m[e] == FlagsOf(e); }
  }

  // ------------------------------------------------------------ hloop_process_events

  /** Between two rounds nothing is pending. */
  ghost predicate Idle(tl: TimerLoop, H: set<Timer>, h: Heaps)
    reads tl, tl.timers, tl.realtimers, H, h.T, h.R, tl.loop, tl.loop.pendings, tl.loop.events
  {
    tl.loop.Valid({}) && Kit(tl, H, h) && tl.loop.Linked() == {}
  }

  lemma OpenIdle(tl: TimerLoop, H: set<Timer>, h: Heaps)
    requires Idle(tl, H, h)
    ensures tl.loop.Valid({}) && Kit(tl, H, h) && tl.loop.Linked() == {} && h.T <= H && h.R <= H
  {
  }

  /** `hloop_process_ios`: io events become pending, as the watcher finds them. */
  method PollIos(loop: Loop)
    requires loop.Valid({})
    modifies loop`npendings, loop`lists, loop`joined, loop.pendings, loop.events`pending, loop.events`linked, loop.events`next
    ensures loop.Valid({}) && Grown(old(loop.Linked()), old(loop.joined), loop.Linked(), loop.joined)
    ensures forall e | e in loop.Linked() :: e in old(loop.Linked()) || e.isIo
  {
    GrownNot(loop.Linked(), loop.joined);
    hide Loop.Valid, Loop.Linked, Grown;
    var steps: nat := *;
    while steps > 0 && loop.events != {}
      invariant loop.Valid({}) && Grown(old(loop.Linked()), old(loop.joined), loop.Linked(), loop.joined)
      invariant forall e | e in loop.Linked() :: e in old(loop.Linked()) || e.isIo
    {
      var ev :| ev in loop.events;
      if ev.isIo {
        loop.Loosen(ev);
        loop.IoLives(ev);
        ghost var l, j := loop.Linked(), loop.joined;
        loop.SetPending(ev);
        GrownOn(old(loop.Linked()), old(loop.joined), l, j, loop.Linked(), loop.joined);
      }
      steps := steps - 1;
    }
  }

  method Poll(tl: TimerLoop, ghost H: set<Timer>, ghost h: Heaps)
    requires Idle(tl, H, h)
    modifies tl.loop`npendings, tl.loop`lists, tl.loop`joined, tl.loop.pendings, tl.loop.events`pending, tl.loop.events`linked, tl.loop.events`next
    ensures tl.loop.Valid({}) && Kit(tl, H, h) && tl.loop.Linked() !! EventsOf(H)
    ensures StatusOf(H) == old(StatusOf(H)) && StatusOf(h.T) == old(StatusOf(h.T)) && StatusOf(h.R) == old(StatusOf(h.R))
    ensures Grown({}, old(tl.loop.joined), tl.loop.Linked(), tl.loop.joined)
  {
    hide *;
    OpenIdle(tl, H, h);
    OpenKit(tl, H, h);
    ghost var st := StatusOf(H);
    PollBeside(tl, H, h, H - (h.T + h.R));
    CloseKit(tl, H, h);
    NoTimers(H, h.T + h.R, st, tl.loop.events, tl.loop.Doomed(), tl.loop.Linked());
  }

  /** Polling changes no timer. */
  method PollBeside(tl: TimerLoop, ghost H: set<Timer>, ghost h: Heaps, ghost out: set<Timer>)
    requires tl.loop.Valid({}) && tl.Valid(h.T, h.ts, h.R, h.rs) && Loose(out) && tl.loop.Linked() == {}
    modifies tl.loop`npendings, tl.loop`lists, tl.loop`joined, tl.loop.pendings, tl.loop.events`pending, tl.loop.events`linked, tl.loop.events`next
    ensures tl.loop.Valid({}) && tl.loop.Alive({}) && tl.Valid(h.T, h.ts, h.R, h.rs) && Loose(out) && tl.loop.Doomed() == old(tl.loop.Doomed())
    ensures StatusOf(H) == old(StatusOf(H)) && StatusOf(h.T) == old(StatusOf(h.T)) && StatusOf(h.R) == old(StatusOf(h.R))
    ensures Grown({}, old(tl.loop.joined), tl.loop.Linked(), tl.loop.joined) && forall e | e in tl.loop.Linked() :: e.isIo
  {
    hide *;
    PollIos(tl.loop);
    tl.loop.Living();
  }

  lemma NoTimers(H: set<Timer>, waiting: set<Timer>, st: map<Timer, Status>, events: set<Event>, doomed: set<Event>, linked: set<Event>)
    requires Handles(H, waiting, st, events, doomed) && forall e | e in linked :: e.isIo
    ensures linked !! EventsOf(H)
  {
  }

  /** Each of the timers `due` has fired, and no other: how they were and are, and which waited and wait. */
  ghost predicate AllFired(S: set<Timer>, before: map<Timer, Status>, w: set<Timer>, due: set<Timer>, monotonic: nat, now: nat,
                           after: map<Timer, Status>, w': set<Timer>)
  {
    forall u | u in S ::
      && u in before && u in after
      && if u in due then
           u in w && Outcome(before[u], after[u], u.isPeriod, if u.isPeriod then now else monotonic) && (u in w' <==> after[u].repeat != 0)
         else
           after[u] == before[u] && (u in w' <==> u in w)
  }

  /** A timer in a heap: it has fired when it was due. */
  lemma FiredIn(before: map<Timer, Status>, after: map<Timer, Status>, S: set<Timer>, now: nat)
    requires Processed(before, after, S, now)
    ensures S <= before.Keys == after.Keys && Due(before, now) <= before.Keys
    ensures forall u | u in Due(before, now) :: Outcome(before[u], after[u], u.isPeriod, now) && (u in S <==> after[u].repeat != 0)
    ensures forall u | u in before && u !in Due(before, now) :: after[u] == before[u] && u in S
  {
    hide Outcome;
  }

  /** What processing leaves. */
  lemma FiredHandles(H: set<Timer>, h: Heaps, st: map<Timer, Status>, events: set<Event>, doomed: set<Event>, due: set<Timer>, monotonic: nat, now: nat,
                     h': Heaps, st': map<Timer, Status>)
    requires Handles(H, h.T + h.R, st, events, doomed) && st'.Keys == H && h'.T <= h.T && h'.R <= h.R && h.T !! h.R
    requires AllFired(H, st, h.T + h.R, due, monotonic, now, st', h'.T + h'.R)
    ensures Handles(H, h'.T + h'.R, st', events, doomed + EventsOf(h.T - h'.T) + EventsOf(h.R - h'.R))
  {
    hide Moved;
    var gone := h.T - h'.T + (h.R - h'.R);
    EventsOfUnion(h.T - h'.T, h.R - h'.R);
    forall u | u in H ensures u in h'.T + h'.R <==> u.ev !in doomed + EventsOf(gone) {
      assert u.ev in EventsOf(gone) <==> u in gone by {
        if u.ev in EventsOf(gone) { var v :| v in gone && v.ev == u.ev; }
      }
    }
  }

  lemma Kinds(tl: TimerLoop, h: Heaps)
    requires tl.Valid(h.T, h.ts, h.R, h.rs)
    ensures h.T !! h.R && (forall t | t in h.T :: !t.isPeriod) && forall t | t in h.R :: t.isPeriod
  {
    hide Heap.Valid, Distinct, TimerLoop.Waiting;
  }

  /** The status of all timers, of those in each heap and of the others. */
  ghost predicate Parts(H: set<Timer>, h: Heaps, st: map<Timer, Status>, stT: map<Timer, Status>, stR: map<Timer, Status>, stO: map<Timer, Status>) {
    && h.T + h.R <= H && st.Keys == H && stT.Keys == h.T && stR.Keys == h.R && stO.Keys == H - (h.T + h.R)
    && (forall u | u in h.T :: stT[u] == st[u]) && (forall u | u in h.R :: stR[u] == st[u])
    && forall u | u in H && u !in h.T && u !in h.R :: stO[u] == st[u]
  }

  lemma Agree(H: set<Timer>, h: Heaps)
    requires h.T + h.R <= H
    ensures Parts(H, h, StatusOf(H), StatusOf(h.T), StatusOf(h.R), StatusOf(H - (h.T + h.R)))
  {
  }

  lemma AllHaveFired(H: set<Timer>, h: Heaps, h': Heaps, due: set<Timer>, monotonic: nat, now: nat, b: map<Timer, Status>, bT: map<Timer, Status>,
                     bR: map<Timer, Status>, stO: map<Timer, Status>, a: map<Timer, Status>, aT: map<Timer, Status>, aR: map<Timer, Status>)
    requires Processed(bT, aT, h'.T, monotonic) && Processed(bR, aR, h'.R, now) && due == Due(bT, monotonic) + Due(bR, now)
    requires Parts(H, h, b, bT, bR, stO) && Parts(H, h, a, aT, aR, stO)
    requires h.T !! h.R && (forall u | u in h.T :: !u.isPeriod) && forall u | u in h.R :: u.isPeriod
    ensures AllFired(H, b, h.T + h.R, due, monotonic, now, a, h'.T + h'.R) && h'.T <= h.T && h'.R <= h.R && due <= h.T + h.R
  {
    hide Outcome;
    FiredIn(bT, aT, h'.T, monotonic);
    FiredIn(bR, aR, h'.R, now);
    hide Processed, Due;
  }

  lemma CountDue(bT: map<Timer, Status>, bR: map<Timer, Status>, monotonic: nat, now: nat)
    requires bT.Keys !! bR.Keys
    ensures |Due(bT, monotonic) + Due(bR, now)| == |Due(bT, monotonic)| + |Due(bR, now)|
    ensures EventsOf(Due(bT, monotonic) + Due(bR, now)) == EventsOf(Due(bT, monotonic)) + EventsOf(Due(bR, now))
  {
    assert Due(bT, monotonic) !! Due(bR, now);
  }

  /** hloop_process_timers, with what it does to the timers `out` that do not wait. */
  method FireBare(tl: TimerLoop, monotonic: nat, now: nat, ghost H: set<Timer>, ghost h: Heaps, ghost due: set<Timer>, ghost out: set<Timer>)
    returns (n: nat, ghost h': Heaps)
    requires tl.loop.Valid({}) && tl.Valid(h.T, h.ts, h.R, h.rs) && due == Due(StatusOf(h.T), monotonic) + Due(StatusOf(h.R), now)
    requires Loose(out) && out !! h.T && out !! h.R && h.T !! h.R
    modifies tl.timers, tl.realtimers, h.T, h.R, tl`ntimers, tl.loop`npendings, tl.loop`lists, tl.loop`joined, tl.loop.pendings,
             tl.loop.events`destroy, tl.loop.events`pending, tl.loop.events`linked, tl.loop.events`next
    ensures tl.loop.Valid({}) && tl.loop.Alive({}) && tl.Valid(h'.T, h'.ts, h'.R, h'.rs) && n == |due|
    ensures Processed(old(StatusOf(h.T)), StatusOf(h.T), h'.T, monotonic) && Processed(old(StatusOf(h.R)), StatusOf(h.R), h'.R, now)
    ensures Loose(out) && Loose(h.T - h'.T) && Loose(h.R - h'.R) && StatusOf(out) == old(StatusOf(out))
    ensures tl.loop.Linked() == old(tl.loop.Linked()) + EventsOf(due) && Grown(old(tl.loop.Linked()), old(tl.loop.joined), tl.loop.Linked(), tl.loop.joined)
    ensures tl.loop.Doomed() == old(tl.loop.Doomed()) + EventsOf(h.T - h'.T) + EventsOf(h.R - h'.R)
  {
    hide *;
    CountDue(StatusOf(h.T), StatusOf(h.R), monotonic, now);
    ghost var T', ts', R', rs';
    n, T', ts', R', rs' := tl.ProcessTimers(monotonic, now, h.T, h.ts, h.R, h.rs);
    h' := Heaps(T', ts', R', rs');
    tl.loop.Living();
  }

  /** The timers that wait are active. */
  lemma WaitingActive(tl: TimerLoop, h: Heaps)
    requires tl.Valid(h.T, h.ts, h.R, h.rs)
    ensures EventsOf(h.T + h.R) <= ActiveSet(tl.loop.events)
  {
    hide Heap.Valid, Distinct, Counted;
    forall u | u in h.T + h.R ensures u.ev in ActiveSet(tl.loop.events) { assert tl.Waiting(u); }
  }

  /** hloop_process_timers, with `due` the timers that are due in either heap. */
  method FireTimers(tl: TimerLoop, monotonic: nat, now: nat, ghost H: set<Timer>, ghost h: Heaps, ghost due: set<Timer>) returns (n: nat, ghost h': Heaps)
    requires tl.loop.Valid({}) && Kit(tl, H, h) && due == Due(StatusOf(h.T), monotonic) + Due(StatusOf(h.R), now)
    modifies tl.timers, tl.realtimers, h.T, h.R, tl`ntimers, tl.loop`npendings, tl.loop`lists, tl.loop`joined, tl.loop.pendings,
             tl.loop.events`destroy, tl.loop.events`pending, tl.loop.events`linked, tl.loop.events`next
    ensures tl.loop.Valid({}) && Kit(tl, H, h') && n == |due| && due <= h.T + h.R && h'.T <= h.T && h'.R <= h.R
    ensures AllFired(H, old(StatusOf(H)), h.T + h.R, due, monotonic, now, StatusOf(H), h'.T + h'.R)
    ensures tl.loop.Linked() == old(tl.loop.Linked()) + EventsOf(due) && EventsOf(due) <= ActiveSet(tl.loop.events)
    ensures Grown(old(tl.loop.Linked()), old(tl.loop.joined), tl.loop.Linked(), tl.loop.joined)
  {
    hide *;
    OpenKit(tl, H, h);
    Kinds(tl, h);
    WaitingActive(tl, h);
    ghost var b, doomed := StatusOf(H), tl.loop.Doomed();
    n, h' := FireBeside(tl, monotonic, now, H, h, due, H - (h.T + h.R));
    FiredHandles(H, h, b, tl.loop.events, doomed, due, monotonic, now, h', StatusOf(H));
    CloseKit(tl, H, h');
  }

  method FireBeside(tl: TimerLoop, monotonic: nat, now: nat, ghost H: set<Timer>, ghost h: Heaps, ghost due: set<Timer>, ghost out: set<Timer>)
    returns (n: nat, ghost h': Heaps)
    requires tl.loop.Valid({}) && tl.Valid(h.T, h.ts, h.R, h.rs) && due == Due(StatusOf(h.T), monotonic) + Due(StatusOf(h.R), now)
    requires Loose(out) && out == H - (h.T + h.R) && h.T + h.R <= H
    requires h.T !! h.R && (forall u | u in h.T :: !u.isPeriod) && (forall u | u in h.R :: u.isPeriod) && EventsOf(h.T + h.R) <= ActiveSet(tl.loop.events)
    modifies tl.timers, tl.realtimers, h.T, h.R, tl`ntimers, tl.loop`npendings, tl.loop`lists, tl.loop`joined, tl.loop.pendings,
             tl.loop.events`destroy, tl.loop.events`pending, tl.loop.events`linked, tl.loop.events`next
    ensures tl.loop.Valid({}) && tl.loop.Alive({}) && tl.Valid(h'.T, h'.ts, h'.R, h'.rs) && n == |due| && due <= h.T + h.R && h'.T <= h.T && h'.R <= h.R
    ensures AllFired(H, old(StatusOf(H)), h.T + h.R, due, monotonic, now, StatusOf(H), h'.T + h'.R) && Loose(H - (h'.T + h'.R)) && StatusOf(H).Keys == H
    ensures tl.loop.Linked() == old(tl.loop.Linked()) + EventsOf(due) && EventsOf(due) <= ActiveSet(tl.loop.events)
    ensures Grown(old(tl.loop.Linked()), old(tl.loop.joined), tl.loop.Linked(), tl.loop.joined)
    ensures tl.loop.Doomed() == old(tl.loop.Doomed()) + EventsOf(h.T - h'.T) + EventsOf(h.R - h'.R)
  {
    hide *;
    ghost var b, bT, bR, bO := StatusOf(H), StatusOf(h.T), StatusOf(h.R), StatusOf(out);
    Agree(H, h);
    n, h' := FireBare(tl, monotonic, now, H, h, due, out);
    Agree(H, h);
    AllHaveFired(H, h, h', due, monotonic, now, b, bT, bR, bO, StatusOf(H), StatusOf(h.T), StatusOf(h.R));
    EventsOfSubset(h.T + h.R, due);
    LooseAll(H, h, h', out);
  }

  lemma LooseAll(H: set<Timer>, h: Heaps, h': Heaps, out: set<Timer>)
    requires Loose(out) && Loose(h.T - h'.T) && Loose(h.R - h'.R) && out == H - (h.T + h.R)
    ensures Loose(H - (h'.T + h'.R))
  {
  }

  /** How the timers find themselves when the batch begins: those due are pending and active, the others are not linked. */
  lemma Ready(loop: Loop, H: set<Timer>, due: set<Timer>, before: set<Event>)
    requires loop.Valid({}) && loop.Linked() == before + EventsOf(due) && before !! EventsOf(H) && Distinct(H) && due <= H
    requires EventsOf(due) <= ActiveSet(loop.events) && EventsOf(H) <= loop.events
    ensures AllReady(H, due, FlagsIn(loop.events), Order(loop.lists, PRIORITY_SIZE))
  {
    forall u | u in H ensures u.ev in FlagsIn(loop.events) && (u.ev in Order(loop.lists, PRIORITY_SIZE) <==> u in due) {
      assert u.ev in EventsOf(H) && (u.ev in EventsOf(due) <==> u in due);
      assert u.ev in Order(loop.lists, PRIORITY_SIZE) <==> u.ev in loop.Linked();
    }
    forall u | u in due ensures FlagsIn(loop.events)[u.ev].pending && FlagsIn(loop.events)[u.ev].active {
      assert u.ev in EventsOf(due) && FlagsIn(loop.events)[u.ev] == FlagsOf(u.ev) && u.ev in loop.Linked();
    }
  }

  ghost predicate AllReady(H: set<Timer>, due: set<Timer>, m: map<Event, Flags>, all: seq<Event>) {
    && (forall u | u in H :: u.ev in m && (u.ev in all <==> u in due))
    && forall u | u in due :: u.ev in m && m[u.ev].pending && m[u.ev].active
  }

  /** Between the histories `j` and `j'` the events of `some`, and no others of `S`, have come once more. */
  ghost predicate OnceMore(S: set<Timer>, some: set<Timer>, j: multiset<Event>, j': multiset<Event>) {
    forall u | u in S :: j'[u.ev] == j[u.ev] + if u in some then 1 else 0
  }

  ghost function WithCallback(S: set<Timer>): set<Timer> { set t | t in S && t.ev.hasCb }

  /** The timers whose events nobody has touched. */
  ghost function Alone(H: set<Timer>, log: seq<Entry>): set<Timer> { set u | u in H && !Touched(log, u.ev) }

  /** Once the io events and then the timers `due` have joined the lists, each of these has become pending once more, and no
      other timer has. */
  lemma JoinedWhenDue(H: set<Timer>, due: set<Timer>, l: set<Event>, j: multiset<Event>, before: set<Event>, j': multiset<Event>,
                      l': set<Event>, j'': multiset<Event>)
    requires Distinct(H) && due <= H && before !! EventsOf(H) && l' == before + EventsOf(due)
    requires Grown(l, j, before, j') && Grown(before, j', l', j'')
    ensures OnceMore(H, due, j, j'')
  {
    hide Grown;
    forall u | u in H ensures j''[u.ev] == j[u.ev] + if u in due then 1 else 0 {
      GrownAt(l, j, before, j', u.ev);
      GrownAt(before, j', l', j'', u.ev);
      assert u.ev in EventsOf(H) && (u.ev in EventsOf(due) <==> u in due);
    }
  }

  /** A whole batch runs the callback of each timer due that nobody touches once, and of no other such timer. */
  lemma RanOnce(S: set<Timer>, due: set<Timer>, m: map<Event, Flags>, log: seq<Entry>, ran: multiset<Event>)
    requires Honest(m, log) && NoDup(ReachedIn(log)) && Falling(ReachedIn(log)) && AllReady(S, due, m, ReachedIn(log))
    ensures OnceMore(Alone(S, log), WithCallback(due), ran, ran + multiset(CalledIn(log)))
  {
    CallsInOrder(log);
    forall u | u in Alone(S, log) ensures (ran + multiset(CalledIn(log)))[u.ev] == ran[u.ev] + if u in due && u.ev.hasCb then 1 else 0 {
      UntouchedCalled(m, log, u.ev);
      CountedOnce(CalledIn(log), u.ev);
    }
  }

  lemma FiredStill(b: Start, s: Now, before: map<Timer, Status>, w: set<Timer>, due: set<Timer>, monotonic: nat, now: nat)
    requires Kept(b, s) && AllFired(b.H, before, w, due, monotonic, now, b.st, b.waiting)
    ensures AllFired(Alone(b.H, s.log), before, w, due, monotonic, now, s.st, s.waiting)
    ensures forall e | e in b.off :: !Touched(s.log, e)
  {
    hide Outcome, Touched;
  }

  /** `hloop_process_events`: one round. Exactly the timers that are due become pending; of the timers that no callback touches,
      those due have fired once and been called once, and the others are as they were. */
  method Round(tl: TimerLoop, monotonic: nat, now: nat, H: set<Timer>, ghost h: Heaps, off: set<Event>, ghost due: set<Timer>)
    returns (ok: bool, n: nat, ncbs: nat, H': set<Timer>, ghost h': Heaps)
    requires Idle(tl, H, h) && off <= tl.loop.events && due == Due(StatusOf(h.T), monotonic) + Due(StatusOf(h.R), now)
    modifies tl.timers, tl.realtimers, H, tl`ntimers, tl.loop`events, tl.loop`nactives, tl.loop`npendings, tl.loop`lists, tl.loop`log, tl.loop`ran,
             tl.loop`joined, tl.loop.pendings, tl.loop.events
    ensures n == |due| && OnceMore(H, due, old(tl.loop.joined), tl.loop.joined)
    ensures AllFired(Alone(H, tl.loop.log), old(StatusOf(H)), h.T + h.R, due, monotonic, now, StatusOf(H'), h'.T + h'.R)
    ensures forall e | e in off :: !Touched(tl.loop.log, e)
    ensures ok ==> OnceMore(Alone(H, tl.loop.log), WithCallback(due), old(tl.loop.ran), tl.loop.ran)
    ensures ok ==> Idle(tl, H', h')
    ensures !ok ==> exists e | e in tl.loop.events :: Early(tl.loop.log, e)
    ensures H <= H' && fresh(H' - H) && old(tl.loop.events) <= tl.loop.events && fresh(tl.loop.events - old(tl.loop.events))
  {
    hide *;
    ghost var b, all, waiting, st := Began(tl, H, h, off), [], h.T + h.R, StatusOf(H);
    OpenIdle(tl, H, h);
    n, h', b, all := BeforeBatch(tl, monotonic, now, H, h, off, due);
    ok, ncbs, H', h' := TheBatch(tl, H, h', off, b, all, due, st, waiting, monotonic, now);
  }

  /** The batch of a round. */
  method TheBatch(tl: TimerLoop, H: set<Timer>, ghost h: Heaps, off: set<Event>, ghost b: Start, ghost all: seq<Event>, ghost due: set<Timer>,
                  ghost st: map<Timer, Status>, ghost waiting: set<Timer>, ghost monotonic: nat, ghost now: nat)
    returns (ok: bool, ncbs: nat, H': set<Timer>, ghost h': Heaps)
    requires tl.loop.Valid({}) && Kit(tl, H, h) && off <= tl.loop.events
    requires b == Began(tl, H, h, off) && b.H == H && b.off == off && |tl.loop.lists| == PRIORITY_SIZE && all == Order(tl.loop.lists, PRIORITY_SIZE)
    requires AllFired(H, st, waiting, due, monotonic, now, b.st, b.waiting) && AllReady(H, due, b.m, all)
    modifies tl.timers, tl.realtimers, H, tl`ntimers, tl.loop`events, tl.loop`nactives, tl.loop`npendings, tl.loop`lists, tl.loop`log, tl.loop`ran,
             tl.loop.pendings, tl.loop.events`active, tl.loop.events`destroy, tl.loop.events`freed, tl.loop.events`pending, tl.loop.events`linked
    ensures AllFired(Alone(H, tl.loop.log), st, waiting, due, monotonic, now, StatusOf(H'), h'.T + h'.R)
    ensures forall e | e in off :: !Touched(tl.loop.log, e)
    ensures ok ==> OnceMore(Alone(H, tl.loop.log), WithCallback(due), b.ran, tl.loop.ran) && Idle(tl, H', h')
    ensures !ok ==> exists e | e in tl.loop.events :: Early(tl.loop.log, e)
    ensures H <= H' && fresh(H' - H) && old(tl.loop.events) <= tl.loop.events && fresh(tl.loop.events - old(tl.loop.events))
  {
    hide *;
    WithinEvents(tl.loop);
    ghost var linked := tl.loop.Linked();
    ok, ncbs, H', h' := ProcessPendings(tl, H, h, off);
    AfterBatch(tl, H', h', b, ncbs, ok, all, due, st, waiting, monotonic, now);
    if ok {
      CloseIdle(tl, H', h');
    } else {
      assert exists e | e in linked :: Early(tl.loop.log, e);
    }
  }

  lemma WithinEvents(loop: Loop)
    requires loop.Valid({})
    ensures loop.Linked() <= loop.events
  {
  }

  lemma CloseIdle(tl: TimerLoop, H: set<Timer>, h: Heaps)
    requires tl.loop.Valid({}) && Kit(tl, H, h) && tl.loop.Linked() == {}
    ensures Idle(tl, H, h)
  {
  }

  /** What a batch leaves of the timers that nobody touches. */
  lemma AfterBatch(tl: TimerLoop, H': set<Timer>, h': Heaps, b: Start, ncbs: nat, ok: bool, all: seq<Event>, due: set<Timer>,
                   st: map<Timer, Status>, waiting: set<Timer>, monotonic: nat, now: nat)
    requires InBatch(tl, H', h', b, ncbs, ReachedIn(tl.loop.log), OverIn(tl.loop.log))
    requires NoDup(ReachedIn(tl.loop.log)) && Falling(ReachedIn(tl.loop.log)) && (ok ==> ReachedIn(tl.loop.log) == all)
    requires AllFired(b.H, st, waiting, due, monotonic, now, b.st, b.waiting) && AllReady(b.H, due, b.m, all)
    ensures AllFired(Alone(b.H, tl.loop.log), st, waiting, due, monotonic, now, StatusOf(H'), h'.T + h'.R) && Kit(tl, H', h')
    ensures forall e | e in b.off :: !Touched(tl.loop.log, e)
    ensures ok ==> OnceMore(Alone(b.H, tl.loop.log), WithCallback(due), b.ran, tl.loop.ran)
  {
    hide Kit, Kept, AllFired, AllReady, Honest, Traced, NoDup, Falling, OnceMore, Alone, WithCallback, ReachedIn, OverIn, CalledIn, Touched;
    FiredStill(b, Shot(tl, H', h'.T + h'.R), st, waiting, due, monotonic, now);
    if ok { RanOnce(b.H, due, b.m, tl.loop.log, b.ran); }
  }

  /** What comes before the batch. */
  method BeforeBatch(tl: TimerLoop, monotonic: nat, now: nat, ghost H: set<Timer>, ghost h: Heaps, off: set<Event>, ghost due: set<Timer>)
    returns (n: nat, ghost h': Heaps, ghost b: Start, ghost all: seq<Event>)
    requires Idle(tl, H, h) && due == Due(StatusOf(h.T), monotonic) + Due(StatusOf(h.R), now)
    modifies tl.timers, tl.realtimers, h.T, h.R, tl`ntimers, tl.loop`npendings, tl.loop`lists, tl.loop`joined, tl.loop.pendings,
             tl.loop.events`destroy, tl.loop.events`pending, tl.loop.events`linked, tl.loop.events`next
    ensures tl.loop.Valid({}) && Kit(tl, H, h') && n == |due| && h'.T <= H && h'.R <= H
    ensures AllFired(H, old(StatusOf(H)), h.T + h.R, due, monotonic, now, StatusOf(H), h'.T + h'.R)
    ensures OnceMore(H, due, old(tl.loop.joined), tl.loop.joined)
    ensures b == Began(tl, H, h', off) && b.H == H && b.st == StatusOf(H) && b.waiting == h'.T + h'.R && b.off == off && b.ran == tl.loop.ran == old(tl.loop.ran)
    ensures |tl.loop.lists| == PRIORITY_SIZE && all == Order(tl.loop.lists, PRIORITY_SIZE)
    ensures AllReady(H, due, b.m, all)
  {
    hide *;
    ghost var before;
    n, h', before := PollAndFire(tl, monotonic, now, H, h, due);
    HasLists(tl.loop);
    b, all := Began(tl, H, h', off), Order(tl.loop.lists, PRIORITY_SIZE);
    KitEvents(tl, H, h');
    Ready(tl.loop, H, due, before);
    BeganWith(tl, H, h', off);
  }

  method PollAndFire(tl: TimerLoop, monotonic: nat, now: nat, ghost H: set<Timer>, ghost h: Heaps, ghost due: set<Timer>)
    returns (n: nat, ghost h': Heaps, ghost before: set<Event>)
    requires Idle(tl, H, h) && due == Due(StatusOf(h.T), monotonic) + Due(StatusOf(h.R), now)
    modifies tl.timers, tl.realtimers, h.T, h.R, tl`ntimers, tl.loop`npendings, tl.loop`lists, tl.loop`joined, tl.loop.pendings,
             tl.loop.events`destroy, tl.loop.events`pending, tl.loop.events`linked, tl.loop.events`next
    ensures tl.loop.Valid({}) && Kit(tl, H, h') && n == |due| && h'.T <= H && h'.R <= H && due <= H
    ensures AllFired(H, old(StatusOf(H)), h.T + h.R, due, monotonic, now, StatusOf(H), h'.T + h'.R)
    ensures OnceMore(H, due, old(tl.loop.joined), tl.loop.joined)
    ensures tl.loop.Linked() == before + EventsOf(due) && before !! EventsOf(H) && EventsOf(due) <= ActiveSet(tl.loop.events)
  {
    hide *;
    OpenIdle(tl, H, h);
    KitEvents(tl, H, h);
    Poll(tl, H, h);
    ghost var joined' := tl.loop.joined;
    before := tl.loop.Linked();
    n, h' := FireTimers(tl, monotonic, now, H, h, due);
    JoinedWhenDue(H, due, {}, old(tl.loop.joined), before, joined', tl.loop.Linked(), tl.loop.joined);
  }

  lemma BeganWith(tl: TimerLoop, H: set<Timer>, h: Heaps, off: set<Event>)
    ensures Began(tl, H, h, off) == Start(FlagsIn(tl.loop.events), H, StatusOf(H), h.T + h.R, off, tl.loop.ran)
  {
  }

  lemma KitEvents(tl: TimerLoop, H: set<Timer>, h: Heaps)
    requires Kit(tl, H, h)
    ensures Distinct(H) && EventsOf(H) <= tl.loop.events
  {
    hide Loop.Alive, TimerLoop.Valid, Distinct;
  }

  // ------------------------------------------------------------ hloop_run

  /** `hloop_new`: nothing is pending, and there are no timers yet. */
  method New() returns (tl: TimerLoop, ghost h: Heaps)
    ensures fresh(tl) && fresh(tl.loop) && Idle(tl, {}, h) && h.T == h.R == {} && tl.loop.events == {}
  {
    hide *;
    var loop := new Loop();
    loop.Living();
    Unlinked(loop);
    tl := new TimerLoop(loop);
    h := Heaps({}, [], {}, []);
    NoTimersYet(tl);
    CloseIdle(tl, {}, h);
  }

  lemma Unlinked(loop: Loop)
    requires loop.Valid({}) && Order(loop.lists, PRIORITY_SIZE) == []
    ensures loop.Linked() == {}
  {
  }

  lemma NoTimersYet(tl: TimerLoop)
    requires tl.Holds(tl.timers, {}, []) && tl.Holds(tl.realtimers, {}, []) && tl.timers != tl.realtimers && tl.ntimers == 0 && tl.loop.Alive({})
    ensures Kit(tl, {}, Heaps({}, [], {}, []))
  {
    hide TimerLoop.Holds, Loop.Alive;
  }

  /** What a program does between two calls of hloop_run, one round each (HLOOP_FLAG_RUN_ONCE). */
  method Interlude(tl: TimerLoop, H: set<Timer>, ghost h: Heaps, off: set<Event>) returns (H': set<Timer>, ghost h': Heaps)
    requires Idle(tl, H, h) && off <= tl.loop.events
    modifies tl.timers, tl.realtimers, H, tl`ntimers, tl.loop`events, tl.loop`nactives, tl.loop`log,
             tl.loop.events`active, tl.loop.events`destroy, tl.loop.events`freed, tl.loop.events`pending
    ensures Idle(tl, H', h') && forall u | u in H && u.ev in off :: AsBefore(old(StatusOf(H)), h.T + h.R, StatusOf(H'), h'.T + h'.R, u)
    ensures H <= H' && fresh(H' - H) && old(tl.loop.events) <= tl.loop.events && fresh(tl.loop.events - old(tl.loop.events))
  {
    hide *;
    OpenIdle(tl, H, h);
    tl.loop.NoneLinked();
    NoFlags(tl.loop.events);
    ghost var b := Began(tl, H, h, off);
    BeganWith(tl, H, h, off);
    tl.loop.log := [];
    Opening(tl, H, h, b);
    var steps: nat := *;
    H', h' := Callback(tl, H, h, off, b, 0, [], [], steps);
    Closing(tl, H', h', b);
    tl.loop.AllEmptyValid();
    CloseIdle(tl, H', h');
  }

  lemma NoFlags(E: set<Event>)
    requires forall e | e in E :: !e.linked
    ensures forall e | e in FlagsIn(E) :: !FlagsIn(E)[e].linked
  {
  }

  ghost predicate AsBefore(st: map<Timer, Status>, w: set<Timer>, st': map<Timer, Status>, w': set<Timer>, u: Timer) {
    u in st && u in st' && st'[u] == st[u] && (u in w' <==> u in w)
  }

  lemma Opening(tl: TimerLoop, H: set<Timer>, h: Heaps, b: Start)
    requires Kit(tl, H, h) && tl.loop.log == [] && b.m == FlagsIn(tl.loop.events) && b.H == H && b.st == StatusOf(H) && b.waiting == h.T + h.R
    requires b.ran == tl.loop.ran
    ensures InBatch(tl, H, h, b, 0, [], [])
  {
    hide Kit;
    ToldStart(b, Shot(tl, H, h.T + h.R));
  }

  /** Outside a batch too, nothing that is called puts an event on a list, and timers left alone stay as they are. */
  lemma Closing(tl: TimerLoop, H: set<Timer>, h: Heaps, b: Start)
    requires InBatch(tl, H, h, b, 0, [], []) && forall e | e in b.m :: !b.m[e].linked
    ensures Kit(tl, H, h) && tl.loop.Alive({}) && (forall e | e in tl.loop.events :: !e.linked) && h.T <= H && h.R <= H
    ensures forall u | u in b.H && u.ev in b.off :: AsBefore(b.st, b.waiting, StatusOf(H), h.T + h.R, u)
  {
    hide Touched, Loop.Alive, TimerLoop.Valid, Honest, ReachedIn, OverIn, Fate;
    var m := FlagsIn(tl.loop.events);
    forall e | e in m ensures !m[e].linked { NeverLinked(Origin(b.m, e), tl.loop.log, e); }
    NotLinked(tl.loop.events, m);
  }

  /** The account of one timer: it has become pending `fired` times, and it is waiting for more or freed after the last. */
  ghost predicate Watched(status: Status, waiting: bool, total: nat, fired: nat) {
    && status.total == total && status.fired == fired
    && if waiting then Counted(total, fired, status.repeat) && (1 <= total < INFINITE ==> status.repeat >= 1)
       else fired == total && 1 <= total < INFINITE
  }

  /** One timer in a round. */
  lemma WatchedOn(before: Status, after: Status, w: bool, w': bool, isDue: bool, isPeriod: bool, now: nat, total: nat, fired: nat)
    requires Watched(before, w, total, fired)
    requires if isDue then w && Outcome(before, after, isPeriod, now) && (w' <==> after.repeat != 0) else after == before && w' == w
    ensures Watched(after, w', total, if isDue then fired + 1 else fired)
  {
    hide Moved;
    if isDue { FiringCounted(before.total, before.fired, before.repeat); }
  }

  lemma WatchedAfter(S: set<Timer>, t: Timer, st: map<Timer, Status>, w: set<Timer>, due: set<Timer>, monotonic: nat, now: nat,
                     st': map<Timer, Status>, w': set<Timer>, total: nat, fired: nat)
    requires AllFired(S, st, w, due, monotonic, now, st', w') && t in S && t in st && Watched(st[t], t in w, total, fired)
    ensures t in st' && Watched(st'[t], t in w', total, if t in due then fired + 1 else fired)
    ensures t !in due ==> st'[t] == st[t] && (t in w' <==> t in w)
  {
    WatchedOn(st[t], st'[t], t in w, t in w', t in due, t.isPeriod, if t.isPeriod then now else monotonic, total, fired);
  }

  /** Between two rounds the timers that wait are those that are not freed. */
  lemma IdleMeans(tl: TimerLoop, H: set<Timer>, h: Heaps, u: Timer)
    requires Idle(tl, H, h) && u in H
    ensures u.ev.freed <==> u !in h.T + h.R
    ensures u.ev in tl.loop.events && u in StatusOf(H) && StatusOf(H)[u] == StatusAt(u)
  {
    hide Heap.Valid, Counted;
    if u in h.T + h.R { assert tl.Waiting(u); }
    assert !u.ev.linked;
  }

  /** The clock of a round that counts for `t`. */
  function ClockOf(t: Timer, monotonic: nat, now: nat): nat { if t.isPeriod then now else monotonic }

  /** By one of the clocks a timer that waits is due. */
  ghost predicate ComesDue(waiting: bool, next: nat, clocks: seq<nat>) { waiting && exists c | c in clocks :: next <= c }

  lemma DueSplit(waiting: bool, next: nat, a: seq<nat>, b: seq<nat>)
    ensures ComesDue(waiting, next, a + b) <==> ComesDue(waiting, next, a) || ComesDue(waiting, next, b)
    ensures |a| == 1 ==> (ComesDue(waiting, next, a) <==> waiting && next <= a[0])
    ensures a == [] ==> !ComesDue(waiting, next, a)
  {
    if |a| == 1 { assert a[0] in a && a == [a[0]]; }
    if c :| c in a && next <= c { assert c in a + b; }
    if c :| c in b && next <= c { assert c in a + b; }
  }

  lemma DueMeans(tl: TimerLoop, H: set<Timer>, h: Heaps, t: Timer, monotonic: nat, now: nat)
    requires Idle(tl, H, h) && t in H
    ensures t in Due(StatusOf(h.T), monotonic) + Due(StatusOf(h.R), now) <==> t in h.T + h.R && StatusAt(t).next <= ClockOf(t, monotonic, now)
  {
    hide Heap.Valid, Loop.Valid, Counted;
    StatusMeans(h.T);
    StatusMeans(h.R);
  }

  /** A round, or what a program does between two rounds; nobody deletes or resets `t`. */
  method RunStep(tl: TimerLoop, t: Timer, H: set<Timer>, ghost h: Heaps, ghost total: nat, ghost fired: nat)
    returns (ok: bool, ghost pended: bool, ghost clocks: seq<nat>, H': set<Timer>, ghost h': Heaps)
    requires Idle(tl, H, h) && t in H && Watched(StatusAt(t), t in h.T + h.R, total, fired)
    modifies tl.timers, tl.realtimers, H, tl`ntimers, tl.loop`events, tl.loop`nactives, tl.loop`npendings, tl.loop`lists, tl.loop`log, tl.loop`ran,
             tl.loop`joined, tl.loop.pendings, tl.loop.events
    ensures ok ==> Idle(tl, H', h') && Watched(StatusAt(t), t in h'.T + h'.R, total, if pended then fired + 1 else fired)
    ensures ok ==> tl.loop.joined[t.ev] == old(tl.loop.joined[t.ev]) + if pended then 1 else 0
    ensures ok ==> tl.loop.ran[t.ev] == old(tl.loop.ran[t.ev]) + if pended && t.ev.hasCb then 1 else 0
    ensures !ok ==> exists e | e in tl.loop.events :: Early(tl.loop.log, e)
    ensures pended <==> ComesDue(t in h.T + h.R, old(t.nextTimeout), clocks)
    ensures ok && !pended ==> t.nextTimeout == old(t.nextTimeout) && (t in h'.T + h'.R <==> t in h.T + h.R)
    ensures H <= H' && fresh(H' - H) && old(tl.loop.events) <= tl.loop.events && fresh(tl.loop.events - old(tl.loop.events))
  {
    hide *;
    IdleMeans(tl, H, h, t);
    var round: bool := *;
    if round {
      var monotonic: nat, now: nat := *, *;
      ok, pended, clocks, H', h' := WatchedRound(tl, monotonic, now, t, H, h, total, fired);
    } else {
      ok, pended, clocks := true, false, [];
      DueSplit(t in h.T + h.R, t.nextTimeout, [], []);
      H', h' := WatchedInterlude(tl, t, H, h);
    }
  }

  /** What a program does between two rounds leaves `t` as it is. */
  method WatchedInterlude(tl: TimerLoop, t: Timer, H: set<Timer>, ghost h: Heaps) returns (H': set<Timer>, ghost h': Heaps)
    requires Idle(tl, H, h) && t in H
    modifies tl.timers, tl.realtimers, H, tl`ntimers, tl.loop`events, tl.loop`nactives, tl.loop`log,
             tl.loop.events`active, tl.loop.events`destroy, tl.loop.events`freed, tl.loop.events`pending
    ensures Idle(tl, H', h') && StatusAt(t) == old(StatusAt(t)) && t.nextTimeout == old(t.nextTimeout) && (t in h'.T + h'.R <==> t in h.T + h.R)
    ensures H <= H' && fresh(H' - H) && old(tl.loop.events) <= tl.loop.events && fresh(tl.loop.events - old(tl.loop.events))
  {
    hide *;
    IdleMeans(tl, H, h, t);
    NextOf(t);
    ghost var st, w := StatusOf(H), h.T + h.R;
    H', h' := Interlude(tl, H, h, {t.ev});
    IdleMeans(tl, H', h', t);
    Unwatched(st, w, StatusOf(H'), h'.T + h'.R, t);
    NextOf(t);
  }

  lemma Unwatched(st: map<Timer, Status>, w: set<Timer>, st': map<Timer, Status>, w': set<Timer>, u: Timer)
    requires AsBefore(st, w, st', w', u)
    ensures u in st && u in st' && st'[u] == st[u] && (u in w' <==> u in w)
  {
  }

  lemma NextOf(t: Timer)
    ensures StatusAt(t).next == t.nextTimeout
  {
  }

  method WatchedRound(tl: TimerLoop, monotonic: nat, now: nat, t: Timer, H: set<Timer>, ghost h: Heaps, ghost total: nat, ghost fired: nat)
    returns (ok: bool, ghost pended: bool, ghost clocks: seq<nat>, H': set<Timer>, ghost h': Heaps)
    requires Idle(tl, H, h) && t in H && Watched(StatusAt(t), t in h.T + h.R, total, fired)
    modifies tl.timers, tl.realtimers, H, tl`ntimers, tl.loop`events, tl.loop`nactives, tl.loop`npendings, tl.loop`lists, tl.loop`log, tl.loop`ran,
             tl.loop`joined, tl.loop.pendings, tl.loop.events
    ensures ok ==> Idle(tl, H', h') && Watched(StatusAt(t), t in h'.T + h'.R, total, if pended then fired + 1 else fired)
    ensures ok ==> tl.loop.joined[t.ev] == old(tl.loop.joined[t.ev]) + if pended then 1 else 0
    ensures ok ==> tl.loop.ran[t.ev] == old(tl.loop.ran[t.ev]) + if pended && t.ev.hasCb then 1 else 0
    ensures !ok ==> exists e | e in tl.loop.events :: Early(tl.loop.log, e)
    ensures pended <==> ComesDue(t in h.T + h.R, old(t.nextTimeout), clocks)
    ensures ok && !pended ==> t.nextTimeout == old(t.nextTimeout) && (t in h'.T + h'.R <==> t in h.T + h.R)
    ensures H <= H' && fresh(H' - H) && old(tl.loop.events) <= tl.loop.events && fresh(tl.loop.events - old(tl.loop.events))
  {
    hide *;
    IdleMeans(tl, H, h, t);
    ghost var due := Due(StatusOf(h.T), monotonic) + Due(StatusOf(h.R), now);
    ghost var st, w := StatusOf(H), h.T + h.R;
    pended, clocks := t in due, [ClockOf(t, monotonic, now)];
    DueMeans(tl, H, h, t, monotonic, now);
    DueSplit(t in h.T + h.R, t.nextTimeout, clocks, []);
    NextOf(t);
    var n, ncbs;
    ok, n, ncbs, H', h' := Round(tl, monotonic, now, H, h, {t.ev}, due);
    OnceMoreAt(H, due, tl.loop.log, old(tl.loop.joined), tl.loop.joined, old(tl.loop.ran), tl.loop.ran, t, ok);
    WatchedAfter(Alone(H, tl.loop.log), t, st, w, due, monotonic, now, StatusOf(H'), h'.T + h'.R, total, fired);
    if ok { IdleMeans(tl, H', h', t); NextOf(t); }
  }

  lemma OnceMoreAt(H: set<Timer>, due: set<Timer>, log: seq<Entry>, j: multiset<Event>, j': multiset<Event>, r: multiset<Event>, r': multiset<Event>, t: Timer, ok: bool)
    requires t in H && !Touched(log, t.ev) && OnceMore(H, due, j, j') && (ok ==> OnceMore(Alone(H, log), WithCallback(due), r, r'))
    ensures t in Alone(H, log) && j'[t.ev] == j[t.ev] + if t in due then 1 else 0
    ensures ok ==> r'[t.ev] == r[t.ev] + if t in due && t.ev.hasCb then 1 else 0
  {
  }

  /** Any number of steps. */
  method RunSteps(tl: TimerLoop, t: Timer, H0: set<Timer>, ghost h0: Heaps, ghost total: nat, ghost fired: nat, steps: nat)
    returns (ok: bool, ghost pends: nat, ghost clocks: seq<nat>, H: set<Timer>, ghost h: Heaps)
    requires Idle(tl, H0, h0) && t in H0 && Watched(StatusAt(t), t in h0.T + h0.R, total, fired)
    modifies tl.timers, tl.realtimers, H0, tl`ntimers, tl.loop`events, tl.loop`nactives, tl.loop`npendings, tl.loop`lists, tl.loop`log, tl.loop`ran,
             tl.loop`joined, tl.loop.pendings, tl.loop.events
    ensures ok ==> Idle(tl, H, h) && t in H && Watched(StatusAt(t), t in h.T + h.R, total, fired + pends)
    ensures ok ==> tl.loop.joined[t.ev] == old(tl.loop.joined[t.ev]) + pends
    ensures ok ==> tl.loop.ran[t.ev] == old(tl.loop.ran[t.ev]) + if t.ev.hasCb then pends else 0
    ensures !ok ==> exists e | e in tl.loop.events :: Early(tl.loop.log, e)
    ensures ok ==> (pends > 0 <==> ComesDue(t in h0.T + h0.R, old(t.nextTimeout), clocks))
    decreases steps
  {
    hide *;
    ok, H, h, pends, clocks := true, H0, h0, 0, [];
    ghost var waiting, next := t in h0.T + h0.R, t.nextTimeout;
    DueSplit(waiting, next, [], []);
    if steps > 0 {
      ghost var pended;
      ok, pended, clocks, H, h := RunStep(tl, t, H, h, total, fired);
      if ok {
        ghost var fired' := if pended then fired + 1 else fired;
        ghost var more;
        ok, pends, more, H, h := RunSteps(tl, t, H, h, total, fired', steps - 1);
        pends := if pended then pends + 1 else pends;
        DueSplit(waiting, next, clocks, more);
        clocks := clocks + more;
      }
    }
  }

  /** `hloop_run`. In any run in which nobody deletes or resets `t`, whatever callbacks do to other timers and events: each time
      it fires it becomes pending once and its callback is run once; it does so first in the first round whose clock, one of `clocks`,
      has reached its time; with a countdown of `total` it waits as long as it has fired
      fewer times, and after the last time it is freed. A run breaks only when a callback resets and then deletes an event whose
      turn is not over. */
  method Run(tl: TimerLoop, t: Timer, H0: set<Timer>, ghost h0: Heaps, steps: nat) returns (ok: bool, ghost clocks: seq<nat>, H: set<Timer>, ghost h: Heaps)
    requires Idle(tl, H0, h0) && t in h0.T + h0.R && t in H0
    modifies tl.timers, tl.realtimers, H0, tl`ntimers, tl.loop`events, tl.loop`nactives, tl.loop`npendings, tl.loop`lists, tl.loop`log, tl.loop`ran,
             tl.loop`joined, tl.loop.pendings, tl.loop.events
    ensures ok ==> Idle(tl, H, h) && t.total == old(t.total)
    ensures ok ==> tl.loop.joined[t.ev] + old(t.fired) == old(tl.loop.joined[t.ev]) + t.fired
    ensures ok ==> if t.ev.hasCb then tl.loop.ran[t.ev] + old(t.fired) == old(tl.loop.ran[t.ev]) + t.fired else tl.loop.ran[t.ev] == old(tl.loop.ran[t.ev])
    ensures ok ==> (t in h.T + h.R <==> !t.ev.freed)
    ensures ok ==> (t.fired > old(t.fired) <==> exists c | c in clocks :: old(t.nextTimeout) <= c)
    ensures ok && 1 <= t.total < INFINITE ==> (t.ev.freed <==> t.fired == t.total) && t.fired <= t.total
    ensures ok && !(1 <= t.total < INFINITE) ==> !t.ev.freed
    ensures !ok ==> exists e | e in tl.loop.events :: Early(tl.loop.log, e)
  {
    ghost var total, fired, next, pends := t.total, t.fired, t.nextTimeout, 0;
    WatchStart(tl, H0, h0, t);
    hide *;
    ok, pends, clocks, H, h := RunSteps(tl, t, H0, h0, total, fired, steps);
    if ok { WatchEnd(tl, H, h, t, total, fired + pends); }
    DueByClock(next, clocks);
  }

  lemma DueByClock(next: nat, clocks: seq<nat>)
    ensures ComesDue(true, next, clocks) <==> exists c | c in clocks :: next <= c
  {
  }

  lemma WatchStart(tl: TimerLoop, H: set<Timer>, h: Heaps, t: Timer)
    requires Idle(tl, H, h) && t in h.T + h.R
    ensures Watched(StatusAt(t), true, t.total, t.fired)
  {
    hide Heap.Valid, Counted;
    assert tl.Waiting(t);
  }

  lemma WatchEnd(tl: TimerLoop, H: set<Timer>, h: Heaps, t: Timer, total: nat, fired: nat)
    requires Idle(tl, H, h) && t in H && Watched(StatusAt(t), t in h.T + h.R, total, fired)
    ensures t.total == total && t.fired == fired && (t in h.T + h.R <==> !t.ev.freed)
    ensures 1 <= total < INFINITE ==> (t.ev.freed <==> fired == total) && fired <= total
    ensures !(1 <= total < INFINITE) ==> !t.ev.freed
  {
    IdleMeans(tl, H, h, t);
  }
}
