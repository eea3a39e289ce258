/** The pending lists of a loop and the macros of hevent.h. */
module Events {

  import opened Collections
  import opened Lifecycle

  function PriorityIndex(p: Priority): (i: nat)
    ensures i < PRIORITY_SIZE
  {
    p - LOWEST_PRIORITY
  }

  /** `head` starts the chain of `pending_next` links through exactly the events of `l`. */
  ghost predicate Chain(head: Event?, l: seq<Event>)
    reads l`next
  {
    if l == [] then head == null else head == l[0] && Chain(l[0].next, l[1..])
  }

  /** The events of the lists `0` to `n - 1`, highest list first: the order of a batch. */
  ghost function Order(lists: seq<seq<Event>>, n: nat): seq<Event>
    requires n <= |lists|
  {
    if n == 0 then [] else lists[n - 1] + Order(lists, n - 1)
  }

  /** The event comes before all others of its priority: the last to become pending is the first to be called. */
  ghost predicate InFront(lists: seq<seq<Event>>, lists': seq<seq<Event>>, ev: Event) {
    && |lists'| == |lists| && PriorityIndex(ev.priority) < |lists|
    && forall i | 0 <= i < |lists| :: lists'[i] == if i == PriorityIndex(ev.priority) then [ev] + lists[i] else lists[i]
  }

  ghost function ActiveSet(E: set<Event>): set<Event>
    reads E`active
  {
    set e | e in E && e.active
  }

  lemma {:induction false} OrderMember(lists: seq<seq<Event>>, n: nat, e: Event)
    requires n <= |lists|
    ensures e in Order(lists, n) <==> exists i | 0 <= i < n :: e in lists[i]
  {
    if n > 0 { OrderMember(lists, n - 1, e); }
  }

  lemma {:induction false} OrderPush(lists: seq<seq<Event>>, n: nat, i: nat, ev: Event)
    requires n <= |lists| && i < |lists|
    requires NoDup(Order(lists, n)) && ev !in Elems(Order(lists, n))
    ensures var w := Order(lists[i := [ev] + lists[i]], n);
      && NoDup(w) && Elems(w) == Elems(Order(lists, n)) + (if i < n then {ev} else {})
      && |w| == |Order(lists, n)| + if i < n then 1 else 0
  {
    hide NoDup, Elems;
    if n > 0 {
      var o, o' := Order(lists, n - 1), Order(lists[i := [ev] + lists[i]], n - 1);
      NoDupParts(lists[n - 1], o);
      ElemsJoin(lists[n - 1], o);
      OrderPush(lists, n - 1, i, ev);
      if i == n - 1 {
        assert Order(lists[i := [ev] + lists[i]], n) == [ev] + (lists[i] + o');
        NoDupJoin(lists[i], o');
        ElemsJoin(lists[i], o');
        ElemsJoin([ev], lists[i] + o');
        NoDupOne(ev, lists[i] + o');
      } else {
        NoDupJoin(lists[n - 1], o');
        ElemsJoin(lists[n - 1], o');
      }
    }
  }

  lemma FirstOf(l: seq<Event>)
    ensures l != [] ==> l[0] in Elems(l)
  {
  }

  lemma ElemsJoin(a: seq<Event>, b: seq<Event>)
    ensures Elems(a + b) == Elems(a) + Elems(b)
  {
  }

  /** A new event in front of a list. */
  lemma NoDupOne(ev: Event, l: seq<Event>)
    requires NoDup(l) && ev !in Elems(l)
    ensures NoDup([ev] + l) && Elems([ev]) == {ev}
  {
  }

  lemma CountWithout(s: set<Event>, e: Event)
    requires e in s
    ensures |s - {e}| == |s| - 1
  {
    assert s - {e} !! {e} && s == s - {e} + {e};
  }

  lemma PopHead(l: seq<Event>)
    requires l != [] && NoDup(l)
    ensures NoDup(l[1..]) && Elems(l[1..]) == Elems(l) - {l[0]}
  {
    assert l == [l[0]] + l[1..];
    NoDupParts([l[0]], l[1..]);
    assert l[0] in Elems([l[0]]);
  }

  /** As the events linked grow from `linked` to `linked'`, each of the new ones becomes pending once and no other does. */
  ghost predicate Grown(linked: set<Event>, joined: multiset<Event>, linked': set<Event>, joined': multiset<Event>) {
    linked <= linked' && joined' == joined + multiset(linked' - linked)
  }

  lemma GrownNot(linked: set<Event>, joined: multiset<Event>)
    ensures Grown(linked, joined, linked, joined)
  {
    assert linked - linked == {};
  }

  lemma GrownBy(linked: set<Event>, joined: multiset<Event>, ev: Event)
    ensures ev in linked ==> Grown(linked, joined, linked + {ev}, joined)
    ensures ev !in linked ==> Grown(linked, joined, linked + {ev}, joined + multiset{ev})
  {
    assert linked + {ev} - linked == if ev in linked then {} else {ev};
  }

  lemma GrownOn(l: set<Event>, j: multiset<Event>, l': set<Event>, j': multiset<Event>, l'': set<Event>, j'': multiset<Event>)
    requires Grown(l, j, l', j') && Grown(l', j', l'', j'')
    ensures Grown(l, j, l'', j'')
  {
    assert l'' - l == (l' - l) + (l'' - l') && (l' - l) !! (l'' - l');
  }

  lemma GrownAt(l: set<Event>, j: multiset<Event>, l': set<Event>, j': multiset<Event>, e: Event)
    requires Grown(l, j, l', j')
    ensures j'[e] == j[e] + if e in l' && e !in l then 1 else 0
  {
  }

  /** How often an event is in a list without repetitions. */
  lemma {:induction false} CountedOnce(l: seq<Event>, e: Event)
    requires NoDup(l)
    ensures multiset(l)[e] == if e in l then 1 else 0
  {
    if l != [] {
      PopHead(l);
      CountedOnce(l[1..], e);
      assert l == [l[0]] + l[1..] && (e in l[1..] <==> e in Elems(l[1..]));
    }
  }

  lemma {:induction false} ListInOrder(lists: seq<seq<Event>>, n: nat, j: nat)
    requires j < n <= |lists|
    ensures Elems(lists[j]) <= Elems(Order(lists, n))
  {
    if j < n - 1 { ListInOrder(lists, n - 1, j); }
  }

  class Loop {
    const pendings: array<Event?>
    var npendings: nat
    var nactives: nat
    /** Every event ever made on this loop, and the pending lists. */
    var events: set<Event>
    ghost var lists: seq<seq<Event>>
    /** How often each event has become pending and how often its callback has been run; what has been done to the events
        since the last batch began. */
    ghost var joined: multiset<Event>
    ghost var ran: multiset<Event>
    ghost var log: seq<Entry>

    constructor ()
      ensures Valid() && Order(lists, PRIORITY_SIZE) == [] && events == {} && fresh(pendings)
      ensures log == [] && joined == ran == multiset{}
    {
      pendings := new Event?[PRIORITY_SIZE](_ => null);
      npendings, nactives := 0, 0;
      events, joined, ran, log := {}, multiset{}, multiset{}, [];
      lists := seq(PRIORITY_SIZE, _ => []);
      new;
      EmptyOrder(lists, PRIORITY_SIZE);
    }

    /** The events on the pending lists. */
    ghost function Linked(): set<Event>
      reads `lists
    {
      Elems(Order(lists, |lists|))
    }

    /** The events marked for deletion. */
    ghost function Doomed(): set<Event>
      reads `events, events`destroy
    {
      set e | e in events && e.destroy
    }

    /** The list of priority index `i` is chained from `head`. */
    ghost predicate ListOk(i: int, head: Event?)
      requires 0 <= i < |lists|
      reads `lists, Linked()`next
    {
      && Elems(lists[i]) <= Linked() && Chain(head, lists[i])
      && forall e | e in lists[i] :: PriorityIndex(e.priority) == i
    }

    /** The lists below `n` are chained from their heads. */
    ghost predicate ListsOkUpTo(n: int)
      reads `lists, pendings, Linked()`next
    {
      && pendings.Length == |lists| == PRIORITY_SIZE && 0 <= n <= PRIORITY_SIZE
      && NoDup(Order(lists, n)) && forall i | 0 <= i < n :: ListOk(i, pendings[i])
    }

    /** Every pending list is chained from its head, and no event is linked twice. */
    ghost predicate ListsOk()
      reads `lists, pendings, Linked()`next
    {
      && pendings.Length == |lists| == PRIORITY_SIZE
      && NoDup(Order(lists, PRIORITY_SIZE))
      && (forall i | 0 <= i < PRIORITY_SIZE :: ListOk(i, pendings[i]))
    }

    /** The life cycle: a pending event is linked; a destroyed event is pending until it is freed (`but` may be on
        its way there); an inactive event other than an io has been destroyed. */
    ghost predicate Alive(but: set<Event>)
      reads `events, `nactives, events
    {
      && (forall e | e in events && e.pending :: e.linked)
      && (forall e | e in events && e.freed :: !e.active && !e.pending && e.destroy)
      && (forall e | e in events && e.destroy && !e.freed :: e.pending || e in but)
      && (forall e | e in events && !e.active && !e.isIo && !e.freed :: e.destroy)
      && (forall e | e in events && e.isIo :: !e.destroy)
      && nactives == |ActiveSet(events)|
    }

    /** Between two batches exactly the pending events are linked. */
    ghost predicate Tidy()
      reads `events, `lists, `npendings, pendings, events`linked, events`pending, events`next
    {
      && Linked() <= events && ListsOk()
      && (forall e | e in events :: e.linked <==> e in Linked())
      && (forall e | e in events && e.linked :: e.pending)
      && npendings == |Order(lists, PRIORITY_SIZE)|
    }

    ghost predicate Valid(but: set<Event> := {})
      reads `events, `nactives, `lists, `npendings, pendings, events
    {
      Tidy() && Alive(but)
    }

    lemma LifeOf(ev: Event)
      requires Alive({}) && ev in events
      ensures Alive({ev}) && (Valid({}) ==> Valid({ev})) && (!ev.isIo && !ev.active && !ev.freed ==> ev.destroy && ev.pending)
    {
    }

    lemma InDoomed(ev: Event)
      requires ev in events && ev.destroy
      ensures ev in Doomed()
    {
    }

    lemma Loosen(ev: Event)
      requires Valid({}) && ev in events
      ensures Valid({ev}) && Alive({}) && (ev.active ==> !ev.freed)
    {
    }

    lemma Living()
      requires Valid({})
      ensures Alive({})
    {
    }

    lemma PendingIsLinked(ev: Event)
      requires Valid({}) && ev in events
      ensures Alive({}) && (ev.pending ==> ev.linked)
    {
    }

    /** Nothing is on a list. */
    ghost predicate AllEmpty()
      reads `lists, `npendings, pendings
    {
      && pendings.Length == |lists| == PRIORITY_SIZE && npendings == 0 && (forall i | 0 <= i < PRIORITY_SIZE :: lists[i] == [] && pendings[i] == null)
    }

    lemma NoneLinked()
      requires Valid({}) && Linked() == {}
      ensures AllEmpty() && forall e | e in events :: !e.linked
    {
      FirstOf(Order(lists, PRIORITY_SIZE));
      NothingLinked();
      EmptyOrderMeansEmpty(lists, PRIORITY_SIZE);
      forall i | 0 <= i < PRIORITY_SIZE ensures pendings[i] == null { assert ListOk(i, pendings[i]); }
    }

    lemma AllEmptyValid()
      requires AllEmpty() && Alive({}) && forall e | e in events :: !e.linked
      ensures Valid({}) && Linked() == {}
    {
      hide Alive;
      EmptyOrder(lists, PRIORITY_SIZE);
      assert Linked() == {};
      assert forall i | 0 <= i < PRIORITY_SIZE :: ListOk(i, pendings[i]);
    }

    lemma IoLives(ev: Event)
      requires Valid({}) && ev in events && ev.isIo
      ensures !ev.freed
    {
    }

    /** `EVENT_PENDING`. */
    method SetPending(ev: Event)
      requires Valid({ev}) && ev in events && !ev.freed
      modifies `npendings, `lists, `joined, pendings, ev`pending, ev`linked, ev`next
      ensures Valid({}) && ev.pending
      ensures Linked() == old(Linked()) + {ev} && Grown(old(Linked()), old(joined), Linked(), joined)
      ensures if old(ev.pending) then unchanged(this) else InFront(old(lists), lists, ev)
    {
      IsPending(ev);
      GrownBy(Linked(), joined, ev);
      hide Grown, Valid, Linked, InFront;
      if !ev.pending {
        Join(ev);
      }
    }

    lemma IsPending(ev: Event)
      requires Valid({ev}) && ev in events
      ensures ev.pending <==> ev in Linked()
      ensures ev.pending ==> Valid({}) && Linked() == Linked() + {ev}
    {
    }

    /** The same for an event that is not pending. */
    method Join(ev: Event)
      requires Valid({ev}) && ev in events && !ev.freed && !ev.pending
      modifies `npendings, `lists, `joined, pendings, ev`pending, ev`linked, ev`next
      ensures Valid({}) && ev.pending && Linked() == old(Linked()) + {ev} && joined == old(joined) + multiset{ev}
      ensures InFront(old(lists), lists, ev)
    {
      hide Chain, NoDup, PriorityIndex, InFront;
      ev.pending := true;
      ev.linked := true;
      npendings := npendings + 1;
      joined := joined + multiset{ev};
      Push(ev);
    }

    /** The event becomes the head of the list of its priority. */
    method Push(ev: Event)
      requires ListsOk() && ev !in Linked()
      modifies this`lists, pendings, ev`next
      ensures ListsOk()
      ensures Linked() == old(Linked()) + {ev}
      ensures |Order(lists, PRIORITY_SIZE)| == |old(Order(lists, PRIORITY_SIZE))| + 1
      ensures InFront(old(lists), lists, ev)
    {
      var i := PriorityIndex(ev.priority);
      ghost var w := lists[i := [ev] + lists[i]];
      OrderPush(lists, PRIORITY_SIZE, i, ev);
      LinkFirst(ev, i, w);
      hide Chain, NoDup, PriorityIndex;
      forall j | 0 <= j < PRIORITY_SIZE
        ensures Elems(w[j]) <= Elems(Order(w, PRIORITY_SIZE)) && forall e: Event | e in w[j] :: PriorityIndex(e.priority) == j
      {
        assert old(ListOk(j, pendings[j]));
        ListInOrder(w, PRIORITY_SIZE, j);
      }
      lists := w;
    }

    /** The links of it. */
    method LinkFirst(ev: Event, i: nat, ghost w: seq<seq<Event>>)
      requires ListsOk() && ev !in Linked() && i < PRIORITY_SIZE && w == lists[i := [ev] + lists[i]]
      modifies pendings, ev`next
      ensures forall j | 0 <= j < PRIORITY_SIZE :: Chain(pendings[j], w[j])
    {
      hide Order, NoDup, PriorityIndex;
      forall j | 0 <= j < PRIORITY_SIZE ensures ev !in lists[j] && Chain(pendings[j], lists[j]) { assert ListOk(j, pendings[j]); }
      ev.next := pendings[i];
      assert forall j | 0 <= j < PRIORITY_SIZE :: Chain(pendings[j], lists[j]);
      pendings[i] := ev;
      assert w[i][0] == ev && w[i][1..] == lists[i];
    }

    /** `EVENT_ACTIVE`: `nactives` counts the active events. */
    method Activate(ev: Event)
      requires ev in events && nactives == |ActiveSet(events)|
      modifies `nactives, ev`active
      ensures ev.active && nactives == |ActiveSet(events)|
    {
      if !ev.active {
        ghost var before := ActiveSet(events);
        ev.active := true;
        nactives := nactives + 1;
        assert ActiveSet(events) == before + {ev};
      }
    }

    /** `EVENT_INACTIVE`. */
    method Inactivate(ev: Event)
      requires ev in events && nactives == |ActiveSet(events)|
      modifies `nactives, ev`active
      ensures !ev.active && nactives == |ActiveSet(events)|
    {
      if ev.active {
        ghost var before := ActiveSet(events);
        ev.active := false;
        assert before - {ev} == ActiveSet(events);
        CountWithout(before, ev);
        nactives := nactives - 1;
      }
    }

    /** `EVENT_ADD` of a new event. */
    method Add(ev: Event)
      requires Alive({}) && ev !in events && FlagsOf(ev) == NEW
      modifies `events, `nactives, `log, ev`active
      ensures Alive({}) && events == old(events) + {ev} && (old(Valid({})) ==> Valid({}))
      ensures FlagsOf(ev) == Step(NEW, Added(ev)) && log == old(log) + [Added(ev)]
    {
      assert ActiveSet(events + {ev}) == ActiveSet(events);
      events := events + {ev};
      Activate(ev);
      log := log + [Added(ev)];
    }

    /** `destroy = 1`: the event is to be freed once its turn is over. */
    method Mark(ev: Event)
      requires Alive({}) && ev in events && !ev.isIo
      modifies ev`destroy
      ensures ev.destroy && Alive({ev}) && (old(Valid({})) ==> Valid({ev}))
      ensures Doomed() == old(Doomed()) + {ev}
    {
      ev.destroy := true;
    }

    /** `EVENT_DEL`: freed now, or after its turn when it is pending. */
    method Release(ev: Event)
      requires ev in events && nactives == |ActiveSet(events)| && !ev.freed && ev.destroy
      modifies `nactives, ev`active, ev`freed
      ensures !ev.active && nactives == |ActiveSet(events)| && (ev.freed <==> !ev.pending)
    {
      Inactivate(ev);
      if !ev.pending {
        ev.freed := true;
      }
    }

    /** htimer_del and hidle_del on the event: marked, made inactive, and freed unless it is pending. So it is freed while it is
        linked exactly when a reset has taken its pending mark away. */
    method Del(ev: Event)
      requires Alive({ev}) && (ev.active || Alive({})) && ev in events && !ev.freed && !ev.isIo
      modifies `nactives, `log, ev`active, ev`destroy, ev`freed
      ensures Alive({}) && log == old(log) + [Deleted(ev)] && FlagsOf(ev) == Step(old(FlagsOf(ev)), Deleted(ev))
      ensures ev.freed && ev.linked <==> old(ev.active && ev.linked && !ev.pending)
      ensures Doomed() == old(Doomed()) + {ev} && ev.destroy
    {
      log := log + [Deleted(ev)];
      if !ev.active {
        return;
      }
      ev.destroy := true;
      Release(ev);
    }

    /** `EVENT_RESET`: htimer_reset on the event. */
    method Reset(ev: Event)
      requires Alive({}) && ev in events && !ev.freed && !ev.isIo
      modifies `nactives, `log, ev`active, ev`destroy, ev`pending
      ensures Alive({}) && log == old(log) + [Rearmed(ev)] && FlagsOf(ev) == Step(old(FlagsOf(ev)), Rearmed(ev))
      ensures ev.active && !ev.destroy && Doomed() == old(Doomed()) - {ev}
    {
      log := log + [Rearmed(ev)];
      ev.destroy := false;
      Activate(ev);
      ev.pending := false;
    }

    /** hio_add and hio_del on an io event: it comes and goes without being freed. */
    method Toggle(ev: Event, on: bool)
      requires Alive({}) && ev in events && ev.isIo
      modifies `nactives, `log, ev`active
      ensures Alive({}) && log == old(log) + [Switched(ev, on)] && FlagsOf(ev) == Step(old(FlagsOf(ev)), Switched(ev, on))
    {
      log := log + [Switched(ev, on)];
      if on {
        Activate(ev);
      } else {
        Inactivate(ev);
      }
    }

    /** The batch comes to an event. */
    method Reach(cur: Event) returns (next: Event?, called: bool)
      requires cur in events
      modifies `log
      ensures next == cur.next && (called <==> cur.pending && cur.active && cur.hasCb) && log == old(log) + [Reached(cur, called)]
    {
      next := cur.next;
      called := cur.pending && cur.active && cur.hasCb;
      log := log + [Reached(cur, called)];
    }

    /** The end of a turn: the event is no longer pending, and freed when it is marked. */
    method Finish(cur: Event)
      requires Alive({}) && cur in events && !cur.freed
      modifies `nactives, `log, cur`active, cur`freed, cur`pending, cur`linked
      ensures Alive({}) && log == old(log) + [Over(cur)] && FlagsOf(cur) == Step(old(FlagsOf(cur)), Over(cur)) && Doomed() == old(Doomed())
    {
      log := log + [Over(cur)];
      if cur.pending {
        cur.pending := false;
        if cur.destroy {
          Release(cur);
        }
      }
      cur.linked := false;
    }

    lemma NothingLinked()
      requires Valid({}) && npendings == 0
      ensures Linked() == {} && Drained(0, {})
    {
      EmptyOrderMeansEmpty(lists, PRIORITY_SIZE);
      forall i | 0 <= i < PRIORITY_SIZE ensures pendings[i] == null { assert ListOk(i, pendings[i]); }
    }

    /** With every list at its end and every turn over, nothing is pending. */
    method ClearLists(ghost E: set<Event>)
      requires Alive({}) && Drained(0, E) && forall e | e in events :: !e.linked
      modifies `npendings, `lists
      ensures Valid({}) && npendings == 0 && Linked() == {}
    {
      hide Alive, Valid;
      npendings := 0;
      lists := seq(PRIORITY_SIZE, _ => []);
      AllEmptyValid();
    }

    /** The lists, all of events in `E`, are at their end from `i` on; those below `i` are still to come. */
    ghost predicate Drained(i: int, E: set<Event>)
      reads `lists, pendings, E`next
    {
      Linked() <= E && ListsOkUpTo(i) && forall k | i <= k < PRIORITY_SIZE :: pendings[k] == null
    }

    /** The lists hold the events highest priority first. */
    lemma ListsFall()
      requires ListsOk()
      ensures Falling(Order(lists, PRIORITY_SIZE))
    {
      forall i, e | 0 <= i < |lists| && e in lists[i] ensures PriorityIndex(e.priority) == i { assert ListOk(i, pendings[i]); }
      OrderFalls(lists, PRIORITY_SIZE);
    }
  }

  lemma {:induction false} OrderFalls(lists: seq<seq<Event>>, n: nat)
    requires n <= |lists| && forall i, e | 0 <= i < |lists| && e in lists[i] :: PriorityIndex(e.priority) == i
    ensures Falling(Order(lists, n)) && forall e | e in Order(lists, n) :: PriorityIndex(e.priority) < n
  {
    if n > 0 { OrderFalls(lists, n - 1); }
  }

  lemma {:induction false} EmptyOrderMeansEmpty(lists: seq<seq<Event>>, n: nat)
    requires n <= |lists| && Order(lists, n) == []
    ensures forall i | 0 <= i < n :: lists[i] == []
  {
    if n > 0 { EmptyOrderMeansEmpty(lists, n - 1); }
  }

  lemma {:induction false} EmptyOrder(lists: seq<seq<Event>>, n: nat)
    requires n <= |lists| && forall i | 0 <= i < |lists| :: lists[i] == []
    ensures Order(lists, n) == []
  {
    if n > 0 { EmptyOrder(lists, n - 1); }
  }

  /** A loop with one pending timer. */
  method OnePending(p: Priority) returns (loop: Loop, ev: Event)
    ensures fresh(loop) && fresh(ev) && loop.Alive({}) && ev in loop.events && !ev.isIo && ev in loop.Linked()
    ensures FlagsOf(ev) == Flags(true, true, false, false, true) && loop.log == [Added(ev)]
  {
    hide Loop.Valid, Loop.Alive, Loop.Tidy, Loop.Linked, Order, ActiveSet;
    loop := new Loop();
    ev := new Event(p, true, false);
    loop.Living();
    loop.Add(ev);
    loop.Loosen(ev);
    loop.SetPending(ev);
    loop.PendingIsLinked(ev);
  }

  /** A timer that is reset and then deleted while it waits for its turn: it is freed and still on its list. */
  method FreedWhileLinked(p: Priority) returns (loop: Loop, ev: Event)
    ensures ev.freed && ev in loop.Linked() && loop.log == [Added(ev), Rearmed(ev), Deleted(ev)]
  {
    hide Loop.Alive, Loop.Linked, Loop.Doomed;
    loop, ev := OnePending(p);
    loop.Reset(ev);
    loop.LifeOf(ev);
    loop.Del(ev);
    assert [Added(ev)] + [Rearmed(ev)] + [Deleted(ev)] == [Added(ev), Rearmed(ev), Deleted(ev)];
  }
}
