/** The io watchers over poll (poll.c) and kqueue (kqueue.c), under hio_add and hio_del. */
module Watchers {

  /** `HV_READ` and `HV_WRITE` as bits of `io->events` and of a request. */
  datatype Events = Events(read: bool, write: bool)

  const NONE := Events(false, false)

  function Meet(a: Events, b: Events): Events { Events(a.read && b.read, a.write && b.write) }
  function Join(a: Events, b: Events): Events { Events(a.read || b.read, a.write || b.write) }
  function Minus(a: Events, b: Events): Events { Events(a.read && !b.read, a.write && !b.write) }

  /** What hio_add makes of the recorded events: a request that overlaps them is ignored as a whole. */
  function Added(have: Events, want: Events): Events { if Meet(have, want) == NONE then Join(have, want) else have }

  /** `now` is what is watched when `want` is requested for an io that has `have`: both, unless they overlap. */
  ghost predicate Grown(have: Events, want: Events, now: Events) {
    var overlap := (have.read && want.read) || (have.write && want.write);
    && (now.read <==> have.read || (want.read && !overlap))
    && (now.write <==> have.write || (want.write && !overlap))
  }

  /** `now` is what is left of `have` without `want`. */
  ghost predicate Reduced(have: Events, want: Events, now: Events) {
    (now.read <==> have.read && !want.read) && (now.write <==> have.write && !want.write)
  }

  lemma ByFields(have: Events, want: Events)
    ensures Grown(have, want, Added(have, want)) && Reduced(have, want, Minus(have, want))
  {
  }

  class WatchedIo {
    const fd: nat
    var events: Events
    var active: bool
    /** `event_index[READ_INDEX]`, which poll uses for all, and `event_index[WRITE_INDEX]`. */
    var readIndex: int
    var writeIndex: int

    constructor (fd: nat)
      ensures this.fd == fd && events == NONE && !active && readIndex == writeIndex == -1
    {
      this.fd, events, active, readIndex, writeIndex := fd, NONE, false, -1, -1;
    }
  }

  /** `struct pollfd`. */
  datatype PollFd = PollFd(fd: nat, events: Events)

  /** What poll.c keeps for one io, as a value. */
  datatype Slot = Slot(index: int, events: Events, active: bool)

  /** The slots are the exact inverse of the packed array, which holds exactly the recorded interests; an io is active as long
      as it has any. */
  ghost predicate PollOk(fds: seq<PollFd>, slots: map<nat, Slot>) {
    && (forall i | 0 <= i < |fds| :: fds[i].fd in slots && slots[fds[i].fd].index == i && fds[i].events == slots[fds[i].fd].events)
    && (forall fd | fd in slots && slots[fd].index != -1 :: 0 <= slots[fd].index < |fds| && fds[slots[fd].index].fd == fd)
    && (forall fd | fd in slots :: slots[fd].index == -1 <==> slots[fd].events == NONE)
    && (forall fd | fd in slots :: slots[fd].active <==> slots[fd].events != NONE)
  }

  /** The array when `want` is added for `fd`, at the end or at `i`. */
  ghost function AddedTo(fds: seq<PollFd>, i: int, fd: nat, want: Events): seq<PollFd>
    requires i == -1 || 0 <= i < |fds|
  {
    if i == -1 then fds + [PollFd(fd, want)] else fds[i := PollFd(fd, Join(fds[i].events, want))]
  }

  ghost function AddedSlot(fds: seq<PollFd>, slot: Slot, want: Events): Slot {
    Slot(if slot.index == -1 then |fds| else slot.index, Join(slot.events, want), true)
  }

  lemma PollAdd(fds: seq<PollFd>, slots: map<nat, Slot>, fd: nat, want: Events)
    requires PollOk(fds, slots) && fd in slots && want != NONE
    ensures slots[fd].index == -1 || (0 <= slots[fd].index < |fds| && fds[slots[fd].index].fd == fd)
    ensures PollOk(AddedTo(fds, slots[fd].index, fd, want), slots[fd := AddedSlot(fds, slots[fd], want)])
  {
  }

  /** The count of ios, too. */
  ghost predicate PollState(fds: seq<PollFd>, slots: map<nat, Slot>, nios: int) {
    PollOk(fds, slots) && nios == |ActiveFds(slots)|
  }

  lemma PollStateAdd(fds: seq<PollFd>, slots: map<nat, Slot>, fd: nat, want: Events, nios: int)
    requires PollState(fds, slots, nios) && fd in slots && want != NONE
    ensures slots[fd].index == -1 || (0 <= slots[fd].index < |fds| && fds[slots[fd].index].fd == fd)
    ensures PollState(AddedTo(fds, slots[fd].index, fd, want), slots[fd := AddedSlot(fds, slots[fd], want)],
                      nios + if slots[fd].active then 0 else 1)
  {
    PollAdd(fds, slots, fd, want);
    ActiveMove(slots, fd, AddedSlot(fds, slots[fd], want));
  }

  /** Deletion by moving the last element into the gap. */
  ghost function DelNomove(fds: seq<PollFd>, i: nat): seq<PollFd>
    requires i < |fds|
  {
    if i == |fds| - 1 then fds[..i] else fds[..|fds| - 1][i := fds[|fds| - 1]]
  }

  ghost function Moved(fds: seq<PollFd>, slots: map<nat, Slot>, i: nat): map<nat, Slot>
    requires i < |fds| && fds[|fds| - 1].fd in slots
  {
    if i == |fds| - 1 then slots else slots[fds[|fds| - 1].fd := slots[fds[|fds| - 1].fd].(index := i)]
  }

  lemma PollDelete(fds: seq<PollFd>, slots: map<nat, Slot>, fd: nat)
    requires PollOk(fds, slots) && fd in slots && slots[fd].index != -1
    ensures 0 <= slots[fd].index < |fds| && fds[slots[fd].index] == PollFd(fd, slots[fd].events) && fds[|fds| - 1].fd in slots
    ensures slots[fd].index < |fds| - 1 ==> fds[|fds| - 1].fd != fd
    ensures PollOk(DelNomove(fds, slots[fd].index), Moved(fds, slots, slots[fd].index)[fd := Slot(-1, NONE, false)])
  {
  }

  ghost function ActiveFds(slots: map<nat, Slot>): set<nat> { set fd | fd in slots && slots[fd].active }

  /** Fewer interests, but some. */
  lemma PollStateKeep(fds: seq<PollFd>, slots: map<nat, Slot>, fd: nat, events: Events, nios: int)
    requires PollState(fds, slots, nios) && fd in slots && slots[fd].index != -1 && events != NONE
    ensures 0 <= slots[fd].index < |fds| && fds[slots[fd].index] == PollFd(fd, slots[fd].events) && fds[|fds| - 1].fd in slots
    ensures slots[fd].index < |fds| - 1 ==> fds[|fds| - 1].fd != fd
    ensures PollState(fds[slots[fd].index := PollFd(fd, events)], slots[fd := Slot(slots[fd].index, events, true)], nios)
  {
    ActiveMove(slots, fd, Slot(slots[fd].index, events, true));
  }

  /** No interests any more. */
  lemma PollStateDelete(fds: seq<PollFd>, slots: map<nat, Slot>, fd: nat, nios: int)
    requires PollState(fds, slots, nios) && fd in slots && slots[fd].index != -1
    ensures 0 <= slots[fd].index < |fds| && fds[slots[fd].index] == PollFd(fd, slots[fd].events) && fds[|fds| - 1].fd in slots
    ensures slots[fd].index < |fds| - 1 ==> fds[|fds| - 1].fd != fd
    ensures nios > 0
    ensures PollState(DelNomove(fds, slots[fd].index), Moved(fds, slots, slots[fd].index)[fd := Slot(-1, NONE, false)], nios - 1)
  {
    PollDelete(fds, slots, fd);
    assert fd in ActiveFds(slots);
    var slots' := Moved(fds, slots, slots[fd].index);
    ActiveMoved(fds, slots, slots[fd].index);
    ActiveMove(slots', fd, Slot(-1, NONE, false));
  }

  lemma PollStateLess(fds: seq<PollFd>, slots: map<nat, Slot>, fd: nat, events: Events, nios: int)
    requires PollState(fds, slots, nios) && fd in slots && slots[fd].index != -1
    ensures 0 <= slots[fd].index < |fds| && fds[slots[fd].index] == PollFd(fd, slots[fd].events) && fds[|fds| - 1].fd in slots
    ensures slots[fd].index < |fds| - 1 ==> fds[|fds| - 1].fd != fd
    ensures nios > 0
    ensures events != NONE ==> PollState(fds[slots[fd].index := PollFd(fd, events)], slots[fd := Slot(slots[fd].index, events, true)], nios)
    ensures events == NONE ==>
      PollState(DelNomove(fds, slots[fd].index), Moved(fds, slots, slots[fd].index)[fd := Slot(-1, NONE, false)], nios - 1)
  {
    hide PollState, DelNomove, Moved;
    PollStateDelete(fds, slots, fd, nios);
    if events != NONE { PollStateKeep(fds, slots, fd, events, nios); }
  }

  /** How an io coming or going changes the count. */
  lemma ActiveMove(slots: map<nat, Slot>, fd: nat, slot: Slot)
    requires fd in slots
    ensures |ActiveFds(slots[fd := slot])| == |ActiveFds(slots)| + (if slot.active then 1 else 0) - (if slots[fd].active then 1 else 0)
  {
    var others := ActiveFds(slots) - {fd};
    assert ActiveFds(slots) == if slots[fd].active then others + {fd} else others;
    assert ActiveFds(slots[fd := slot]) == if slot.active then others + {fd} else others;
  }

  /** The array and the slots when only `events` are left of the interests of `fd`, at `i`. */
  ghost function PackedLess(fds: seq<PollFd>, i: int, fd: nat, events: Events): seq<PollFd>
    requires 0 <= i < |fds|
  {
    if events != NONE then fds[i := PollFd(fd, events)] else DelNomove(fds, i)
  }

  ghost function SlotsLess(fds: seq<PollFd>, slots: map<nat, Slot>, i: int, fd: nat, events: Events, active: bool): (m: map<nat, Slot>)
    requires 0 <= i < |fds| && fd in slots && fds[|fds| - 1].fd in slots
    ensures fd in m
  {
    if events != NONE then slots[fd := Slot(i, events, active)] else Moved(fds, slots, i)[fd := Slot(-1, NONE, active)]
  }

  /** The slots when the watcher has been told, but the io has not. */
  ghost function SlotsGone(fds: seq<PollFd>, slots: map<nat, Slot>, i: int, fd: nat, events: Events): (m: map<nat, Slot>)
    requires 0 <= i < |fds| && fd in slots && fds[|fds| - 1].fd in slots
    ensures fd in m
  {
    if events != NONE then slots else Moved(fds, slots, i)[fd := slots[fd].(index := -1)]
  }

  lemma GoneLess(fds: seq<PollFd>, slots: map<nat, Slot>, i: int, fd: nat, events: Events)
    requires 0 <= i < |fds| && fd in slots && fds[|fds| - 1].fd in slots && slots[fd].index == i
    ensures var s := SlotsGone(fds, slots, i, fd, events);
      s[fd := s[fd].(events := events)] == SlotsLess(fds, slots, i, fd, events, slots[fd].active)
  {
    if events == NONE { Overwrite(Moved(fds, slots, i), fd, slots[fd].(index := -1), Slot(-1, NONE, slots[fd].active)); }
  }

  /** Nothing is lost, or all. */
  lemma LessNothing(fds: seq<PollFd>, slots: map<nat, Slot>, i: int, fd: nat)
    requires 0 <= i < |fds| && fd in slots && fds[|fds| - 1].fd in slots && slots[fd].index == i && fds[i] == PollFd(fd, slots[fd].events)
    ensures slots[fd].events != NONE ==> PackedLess(fds, i, fd, slots[fd].events) == fds
    ensures slots[fd].events != NONE ==> SlotsLess(fds, slots, i, fd, slots[fd].events, slots[fd].active) == slots
  {
    SameSlot(fds, slots, i, fd);
  }

  lemma Inactive(fds: seq<PollFd>, slots: map<nat, Slot>, i: int, fd: nat)
    requires 0 <= i < |fds| && fd in slots && fds[|fds| - 1].fd in slots
    ensures forall active :: var s := SlotsLess(fds, slots, i, fd, NONE, active);
      s[fd := s[fd].(active := false)] == SlotsLess(fds, slots, i, fd, NONE, false)
  {
    forall active ensures var s := SlotsLess(fds, slots, i, fd, NONE, active);
      s[fd := s[fd].(active := false)] == SlotsLess(fds, slots, i, fd, NONE, false)
    {
      Overwrite(Moved(fds, slots, i), fd, Slot(-1, NONE, active), Slot(-1, NONE, false));
    }
  }

  lemma SameSlot(fds: seq<PollFd>, slots: map<nat, Slot>, i: int, fd: nat)
    requires 0 <= i < |fds| && fd in slots
    ensures fds[i := fds[i]] == fds && slots[fd := slots[fd]] == slots
  {
  }

  lemma Overwrite(slots: map<nat, Slot>, fd: nat, a: Slot, b: Slot)
    ensures slots[fd := a][fd := b] == slots[fd := b]
  {
  }

  lemma ActiveMoved(fds: seq<PollFd>, slots: map<nat, Slot>, i: nat)
    requires i < |fds| && fds[|fds| - 1].fd in slots
    ensures ActiveFds(Moved(fds, slots, i)) == ActiveFds(slots)
  {
  }

  class PollLoop {
    const ios: map<nat, WatchedIo>
    ghost const all: set<WatchedIo>
    var fds: array<PollFd>
    var size: nat
    var nios: nat

    constructor (ios: map<nat, WatchedIo>)
      requires forall fd | fd in ios :: ios[fd].fd == fd && ios[fd].events == NONE && !ios[fd].active && ios[fd].readIndex == -1
      ensures Valid() && Packed() == [] && this.ios == ios && fresh(fds)
    {
      this.ios, all := ios, set fd | fd in ios :: ios[fd];
      fds := new PollFd[64](_ => PollFd(0, NONE));
      size, nios := 0, 0;
      new;
      assert ActiveFds(Slots()) == {};
    }

    ghost function Slots(): (m: map<nat, Slot>)
      requires Keyed()
      reads all
      ensures m.Keys == ios.Keys
    {
      map fd | fd in ios :: Slot(ios[fd].readIndex, ios[fd].events, ios[fd].active)
    }

    ghost function Packed(): seq<PollFd>
      requires size <= fds.Length
      reads this, fds
    {
      fds[..size]
    }

    ghost predicate Valid()
      reads this, fds, all
    {
      && Keyed() && 0 < fds.Length && size <= fds.Length
      && PollState(Packed(), Slots(), nios)
    }

    /** `iowatcher_add_event`: a new element for an io that has none, or more events in the one it has. */
    method AddEvent(io: WatchedIo, want: Events)
      requires 0 < fds.Length && size <= fds.Length
      requires io.readIndex == -1 || (0 <= io.readIndex < size && fds[io.readIndex].fd == io.fd)
      modifies `fds, `size, fds, io`readIndex
      ensures 0 < fds.Length && size <= fds.Length && (fds == old(fds) || fresh(fds))
      ensures io.readIndex == if old(io.readIndex) == -1 then old(size) else old(io.readIndex)
      ensures Packed() == AddedTo(old(Packed()), old(io.readIndex), io.fd, want)
    {
      var idx := io.readIndex;
      if idx < 0 {
        idx := size;
        io.readIndex := idx;
        if idx == fds.Length {
          Double();
        }
        size := size + 1;
        fds[idx] := PollFd(io.fd, NONE);
      }
      var pfd := fds[idx];
      fds[idx] := PollFd(pfd.fd, Join(pfd.events, want));
    }

    method Double()
      requires 0 < fds.Length && size <= fds.Length
      modifies `fds
      ensures fresh(fds) && fds.Length == 2 * old(fds.Length) && Packed() == old(Packed())
    {
      var f := new PollFd[fds.Length * 2](_ => PollFd(0, NONE));
      forall i | 0 <= i < fds.Length {
        f[i] := fds[i];
      }
      fds := f;
    }

    /** `hio_add`: a request that overlaps what is watched changes nothing. */
    method HioAdd(io: WatchedIo, want: Events)
      requires Valid() && io.fd in ios && ios[io.fd] == io && want != NONE
      modifies this, fds, io
      ensures Valid() && (fds == old(fds) || fresh(fds))
      ensures Grown(old(io.events), want, io.events) && io.active && Shown(io)
    {
      ByFields(io.events, want);
      ghost var before, packed := Slots(), Packed();
      Facts(io);
      PollStateAdd(packed, before, io.fd, want, nios);
      hide PollState, AddedTo;
      Activate(io);
      if Meet(io.events, want) == NONE {
        Watch(io, want);
        Changed(before, io);
      }
      ShownAs(io);
    }

    /** `EVENT_ADD` of an io that is not active. */
    method Activate(io: WatchedIo)
      modifies `nios, io`active
      ensures io.active && nios == old(nios) + if old(io.active) then 0 else 1
    {
      if !io.active {
        io.active := true;
        nios := nios + 1;
      }
    }

    /** The interests are added, in the watcher and in the io. */
    method Watch(io: WatchedIo, want: Events)
      requires 0 < fds.Length && size <= fds.Length && Meet(io.events, want) == NONE
      requires io.readIndex == -1 || (0 <= io.readIndex < size && fds[io.readIndex].fd == io.fd)
      modifies `fds, `size, fds, io`readIndex, io`events
      ensures 0 < fds.Length && size <= fds.Length && (fds == old(fds) || fresh(fds)) && io.events == Join(old(io.events), want)
      ensures io.readIndex == if old(io.readIndex) == -1 then old(size) else old(io.readIndex)
      ensures Packed() == AddedTo(old(Packed()), old(io.readIndex), io.fd, want)
    {
      hide AddedTo;
      AddEvent(io, want);
      io.events := Join(io.events, want);
    }

    /** `iowatcher_del_event` for an io that has an element: it loses events, or its place to the last element. */
    method DelEvent(io: WatchedIo, want: Events)
      requires Keyed() && size <= fds.Length && 0 <= io.readIndex < size && fds[io.readIndex].fd == io.fd && io.fd in ios && ios[io.fd] == io
      requires fds[size - 1].fd in ios && (io.readIndex < size - 1 ==> fds[size - 1].fd != io.fd)
      modifies `size, fds, all`readIndex
      ensures size <= fds.Length
      ensures Packed() == PackedLess(old(Packed()), old(io.readIndex), io.fd, Minus(old(fds[io.readIndex].events), want))
      ensures Slots() == SlotsGone(old(Packed()), old(Slots()), old(io.readIndex), io.fd, Minus(old(fds[io.readIndex].events), want))
    {
      var idx := io.readIndex;
      var pfd := fds[idx];
      fds[idx] := PollFd(pfd.fd, Minus(pfd.events, want));
      if fds[idx].events == NONE {
        size := size - 1;
        if idx < size {
          fds[idx] := fds[size];
          var last := ios[fds[idx].fd];
          last.readIndex := idx;
        }
        io.readIndex := -1;
      }
    }

    ghost predicate Keyed() { forall fd | fd in ios :: ios[fd] in all && ios[fd].fd == fd }

    /** The interests are taken away, in the watcher and in the io. */
    method Unwatch(io: WatchedIo, want: Events)
      requires Keyed() && size <= fds.Length && 0 <= io.readIndex < size && fds[io.readIndex] == PollFd(io.fd, io.events)
      requires io.fd in ios && ios[io.fd] == io && fds[size - 1].fd in ios && (io.readIndex < size - 1 ==> fds[size - 1].fd != io.fd)
      modifies `size, fds, all`readIndex, io`events
      ensures size <= fds.Length && io.events == Minus(old(io.events), want)
      ensures Packed() == PackedLess(old(Packed()), old(io.readIndex), io.fd, io.events)
      ensures Slots() == SlotsLess(old(Packed()), old(Slots()), old(io.readIndex), io.fd, io.events, old(Slots())[io.fd].active)
    {
      SlotOf(io);
      GoneLess(Packed(), Slots(), io.readIndex, io.fd, Minus(io.events, want));
      hide Slots, Packed, PackedLess, SlotsLess, SlotsGone, Keyed;
      DelEvent(io, want);
      SetEvents(io, Minus(io.events, want));
    }

    lemma SlotOf(io: WatchedIo)
      requires Keyed() && io.fd in ios && ios[io.fd] == io
      ensures Slots()[io.fd] == Slot(io.readIndex, io.events, io.active)
    {
    }

    method SetEvents(io: WatchedIo, events: Events)
      requires Keyed() && io.fd in ios && ios[io.fd] == io
      modifies io`events
      ensures io.events == events && Slots() == old(Slots())[io.fd := old(Slots())[io.fd].(events := events)]
    {
      io.events := events;
    }

    /** `EVENT_INACTIVE`. */
    method Deactivate(io: WatchedIo)
      requires Keyed() && io.fd in ios && ios[io.fd] == io
      modifies io`active
      ensures Slots() == old(Slots())[io.fd := old(Slots())[io.fd].(active := false)]
    {
      io.active := false;
    }

    /** What hio_del does to an active io. */
    method Lose(io: WatchedIo, want: Events)
      requires Keyed() && size <= fds.Length && 0 <= io.readIndex < size && fds[io.readIndex] == PollFd(io.fd, io.events)
      requires io.fd in ios && ios[io.fd] == io && fds[size - 1].fd in ios && (io.readIndex < size - 1 ==> fds[size - 1].fd != io.fd)
      requires io.active && io.events != NONE && nios > 0
      modifies `size, `nios, fds, all`readIndex, io`events, io`active
      ensures size <= fds.Length && io.events == Minus(old(io.events), want)
      ensures Packed() == PackedLess(old(Packed()), old(io.readIndex), io.fd, io.events)
      ensures Slots() == SlotsLess(old(Packed()), old(Slots()), old(io.readIndex), io.fd, io.events, io.events != NONE)
      ensures nios == old(nios) - if io.events != NONE then 0 else 1
    {
      SlotOf(io);
      assert Packed()[io.readIndex] == PollFd(io.fd, io.events);
      LessNothing(Packed(), Slots(), io.readIndex, io.fd);
      Inactive(Packed(), Slots(), io.readIndex, io.fd);
      hide Slots, Packed, Keyed, PackedLess, SlotsLess;
      if Meet(io.events, want) != NONE {
        Unwatch(io, want);
      }
      Retire(io);
    }

    /** An io without interests is no longer active. */
    method Retire(io: WatchedIo)
      requires Keyed() && size <= fds.Length && io.fd in ios && ios[io.fd] == io && nios > 0
      modifies `nios, io`active
      ensures Packed() == old(Packed()) && nios == old(nios) - if io.events != NONE then 0 else 1
      ensures Slots() == if io.events != NONE then old(Slots()) else old(Slots())[io.fd := old(Slots())[io.fd].(active := false)]
    {
      hide Slots;
      if io.events == NONE {
        nios := nios - 1;
        Deactivate(io);
      }
    }

    /** `hio_del`. */
    method HioDel(io: WatchedIo, want: Events)
      requires Valid() && io.fd in ios && ios[io.fd] == io
      modifies this, fds, all`readIndex, io
      ensures Valid() && fds == old(fds) && Reduced(old(io.events), want, io.events) && Shown(io)
      ensures io.active <==> io.events.read || io.events.write
    {
      Facts(io);
      ByFields(io.events, want);
      ShownAs(io);
      if !io.active {
        return;
      }
      SlotOf(io);
      PollStateLess(Packed(), Slots(), io.fd, Minus(io.events, want), nios);
      hide PollState, DelNomove, Moved, Shown;
      Lose(io, want);
      ShownAs(io);
      Facts(io);
    }

    /** poll is asked for just the events of `io`, in one element, or none if there are no events. */
    ghost predicate Shown(io: WatchedIo)
      reads this, fds, io
    {
      && size <= fds.Length
      && (forall i | 0 <= i < size && fds[i].fd == io.fd :: fds[i].events == io.events && i == io.readIndex)
      && (io.events.read || io.events.write <==> exists i :: 0 <= i < size && fds[i].fd == io.fd)
    }

    lemma ShownAs(io: WatchedIo)
      requires Valid() && io.fd in ios && ios[io.fd] == io
      ensures Shown(io)
    {
      Facts(io);
      assert forall i | 0 <= i < size :: fds[i] == Packed()[i];
      if io.readIndex != -1 { assert fds[io.readIndex].fd == io.fd; }
    }

    /** What the index of an io says. */
    lemma Facts(io: WatchedIo)
      requires Valid() && io.fd in ios && ios[io.fd] == io
      ensures io.readIndex == -1 <==> io.events == NONE
      ensures io.active <==> io.events != NONE
      ensures io.readIndex != -1 ==> 0 <= io.readIndex < size && fds[io.readIndex] == PollFd(io.fd, io.events)
    {
      assert Slots()[io.fd] == Slot(io.readIndex, io.events, io.active);
    }

    /** The slots after a change of one io alone. */
    lemma Changed(before: map<nat, Slot>, io: WatchedIo)
      requires Keyed() && io.fd in ios && ios[io.fd] == io && before.Keys == ios.Keys
      requires forall fd | fd in ios && fd != io.fd :: before[fd] == Slot(ios[fd].readIndex, ios[fd].events, ios[fd].active)
      ensures Slots() == before[io.fd := Slot(io.readIndex, io.events, io.active)]
    {
    }
  }

  // ------------------------------------------------------------ kqueue

  datatype Filter = EVFILT_READ | EVFILT_WRITE

  datatype Key = Key(fd: nat, filter: Filter)

  /** `struct kevent`: a filter of a file descriptor to be added (and enabled), or deleted. */
  datatype Change = Change(key: Key, delete: bool)

  /** The indexes per fd and filter are the exact inverse of the packed array of changes. */
  ghost predicate KqueueOk(changes: seq<Change>, index: map<Key, int>) {
    && (forall i | 0 <= i < |changes| :: changes[i].key in index && index[changes[i].key] == i && !changes[i].delete)
    && (forall k | k in index && index[k] != -1 :: 0 <= index[k] < |changes| && changes[index[k]].key == k)
  }

  lemma KqueueAppend(changes: seq<Change>, index: map<Key, int>, key: Key)
    requires KqueueOk(changes, index) && key in index && index[key] == -1
    ensures KqueueOk(changes + [Change(key, false)], index[key := |changes|])
  {
  }

  /** The change at `i` gives way to the last one. */
  lemma KqueueDelete(changes: seq<Change>, index: map<Key, int>, key: Key)
    requires KqueueOk(changes, index) && key in index && index[key] != -1
    ensures 0 <= index[key] < |changes| && changes[|changes| - 1].key in index
    ensures index[key] < |changes| - 1 ==> changes[|changes| - 1].key != key
    ensures KqueueOk(Swapped(changes, index[key]), Reindexed(changes, index, index[key])[key := -1])
  {
  }

  ghost function Swapped(changes: seq<Change>, i: nat): seq<Change>
    requires i < |changes|
  {
    if i == |changes| - 1 then changes[..i] else changes[..|changes| - 1][i := changes[|changes| - 1]]
  }

  ghost function Reindexed(changes: seq<Change>, index: map<Key, int>, i: nat): map<Key, int>
    requires i < |changes|
  {
    if i == |changes| - 1 then index else index[changes[|changes| - 1].key := i]
  }

  /** What the kernel watches after `kevent` with these changes. */
  ghost function Applied(kernel: set<Key>, changes: seq<Change>): set<Key> {
    if changes == [] then kernel
    else
      var last := changes[|changes| - 1];
      var k := Applied(kernel, changes[..|changes| - 1]);
      if last.delete then k - {last.key} else k + {last.key}
  }

  ghost function Watched(index: map<Key, int>): set<Key> { set k | k in index && index[k] != -1 }

  ghost function KeySet(changes: seq<Change>): set<Key> {
    if changes == [] then {} else KeySet(changes[..|changes| - 1]) + {changes[|changes| - 1].key}
  }

  lemma {:induction false} KeySetMembers(changes: seq<Change>)
    ensures forall i | 0 <= i < |changes| :: changes[i].key in KeySet(changes)
    ensures forall k | k in KeySet(changes) :: exists i :: 0 <= i < |changes| && changes[i].key == k
  {
    if changes != [] {
      var init := changes[..|changes| - 1];
      KeySetMembers(init);
      forall i | 0 <= i < |changes| ensures changes[i].key in KeySet(changes) {
        if i < |init| { assert changes[i] == init[i]; }
      }
      forall k | k in KeySet(changes) ensures exists i :: 0 <= i < |changes| && changes[i].key == k {
        if k in KeySet(init) {
          var i :| 0 <= i < |init| && init[i].key == k;
          assert changes[i].key == k;
        } else {
          assert changes[|changes| - 1].key == k;
        }
      }
    }
  }

  lemma {:induction false} AppliedAdds(kernel: set<Key>, changes: seq<Change>)
    requires forall i | 0 <= i < |changes| :: !changes[i].delete
    ensures Applied(kernel, changes) == kernel + KeySet(changes)
  {
    if changes != [] {
      AppliedAdds(kernel, changes[..|changes| - 1]);
    }
  }

  lemma IndexedKeys(changes: seq<Change>, index: map<Key, int>)
    requires KqueueOk(changes, index)
    ensures KeySet(changes) == Watched(index)
  {
    KeySetMembers(changes);
    forall k | k in Watched(index) ensures k in KeySet(changes) {
      assert changes[index[k]].key == k;
    }
  }

  /** Submitting the packed array adds nothing but what is indexed. */
  lemma AppliedIndexed(kernel: set<Key>, changes: seq<Change>, index: map<Key, int>)
    requires KqueueOk(changes, index) && kernel <= Watched(index)
    ensures Applied(kernel, changes) == Watched(index)
  {
    IndexedKeys(changes, index);
    AppliedAdds(kernel, changes);
  }

  /** Submitting it with the deleted change still behind it takes that one away. */
  lemma AppliedDelete(kernel: set<Key>, changes: seq<Change>, index: map<Key, int>, key: Key)
    requires KqueueOk(changes, index) && kernel <= Watched(index) + {key} && key !in Watched(index)
    ensures Applied(kernel, changes + [Change(key, true)]) == Watched(index)
  {
    IndexedKeys(changes, index);
    AppliedAdds(kernel, changes);
    hide KqueueOk, Watched, KeySet;
    assert (changes + [Change(key, true)])[..|changes|] == changes;
  }

  /** The kernel watches exactly what is indexed. */
  ghost predicate Synced(changes: seq<Change>, index: map<Key, int>, kernel: set<Key>) {
    KqueueOk(changes, index) && kernel == Watched(index)
  }

  lemma SyncedAll(kernel: set<Key>, changes: seq<Change>, index: map<Key, int>)
    requires KqueueOk(changes, index) && kernel <= Watched(index)
    ensures Synced(changes, index, Applied(kernel, changes))
  {
    AppliedIndexed(kernel, changes, index);
  }

  lemma SyncedDeletion(kernel: set<Key>, rest: seq<Change>, index: map<Key, int>, key: Key)
    requires KqueueOk(rest, index) && kernel <= Watched(index) + {key} && key !in Watched(index)
    ensures Synced(rest, index, Applied(kernel, rest + [Change(key, true)]))
  {
    AppliedDelete(kernel, rest, index, key);
  }

  lemma NothingWatched(index: map<Key, int>)
    requires forall k | k in index :: index[k] == -1
    ensures Watched(index) == {} && KqueueOk([], index)
  {
  }

  ghost predicate RecordedIn(watched: set<Key>, fd: nat, events: Events, active: bool) {
    && (events.read <==> Key(fd, EVFILT_READ) in watched)
    && (events.write <==> Key(fd, EVFILT_WRITE) in watched)
    && (active <==> events != NONE)
  }

  /** The keys of an io for these events. */
  ghost function KeysOf(fd: nat, events: Events): set<Key> {
    (if events.read then {Key(fd, EVFILT_READ)} else {}) + (if events.write then {Key(fd, EVFILT_WRITE)} else {})
  }

  lemma KeysTogether(w: set<Key>, fd: nat, events: Events)
    ensures w + KeysOf(fd, events) ==
      var r := if events.read then w + {Key(fd, EVFILT_READ)} else w;
      if events.write then r + {Key(fd, EVFILT_WRITE)} else r
    ensures w - KeysOf(fd, events) ==
      var r := if events.read then w - {Key(fd, EVFILT_READ)} else w;
      if events.write then r - {Key(fd, EVFILT_WRITE)} else r
  {
  }

  /** What an io records. */
  datatype Record = Record(events: Events, active: bool)

  ghost predicate AllRecorded(watched: set<Key>, records: map<nat, Record>) {
    forall fd | fd in records :: RecordedIn(watched, fd, records[fd].events, records[fd].active)
  }

  lemma RecordedAdd(watched: set<Key>, records: map<nat, Record>, fd: nat, want: Events)
    requires AllRecorded(watched, records) && fd in records && want != NONE
    ensures AllRecorded(watched + KeysOf(fd, want), records[fd := Record(Join(records[fd].events, want), true)])
    ensures records[fd].active <==> records[fd].events != NONE
  {
    assert RecordedIn(watched, fd, records[fd].events, records[fd].active);
  }

  lemma RecordedDel(watched: set<Key>, records: map<nat, Record>, fd: nat, want: Events)
    requires AllRecorded(watched, records) && fd in records
    ensures var events := Minus(records[fd].events, want);
      AllRecorded(watched - KeysOf(fd, want), records[fd := Record(events, events != NONE)])
    ensures records[fd].active <==> records[fd].events != NONE
  {
    assert RecordedIn(watched, fd, records[fd].events, records[fd].active);
  }

  class KqueueLoop {
    const ios: map<nat, WatchedIo>
    ghost const all: set<WatchedIo>
    ghost const keys: set<Key>
    var changes: array<Change>
    var nchanges: nat
    /** The filters the kernel has been told of. */
    ghost var kernel: set<Key>

    constructor (ios: map<nat, WatchedIo>)
      requires forall fd | fd in ios :: ios[fd].fd == fd && ios[fd].events == NONE && !ios[fd].active && ios[fd].readIndex == ios[fd].writeIndex == -1
      ensures Valid() && kernel == {} && this.ios == ios && fresh(changes)
    {
      this.ios, all := ios, set fd | fd in ios :: ios[fd];
      keys := (set fd | fd in ios :: Key(fd, EVFILT_READ)) + set fd | fd in ios :: Key(fd, EVFILT_WRITE);
      changes := new Change[64](_ => Change(Key(0, EVFILT_READ), false));
      nchanges, kernel := 0, {};
      new;
      forall k ensures k in keys <==> k.fd in ios {
        assert k.filter.EVFILT_READ? || k.filter.EVFILT_WRITE?;
        assert k == Key(k.fd, k.filter);
      }
      NothingWatched(Index());
    }

    ghost predicate Keyed() {
      && (forall fd | fd in ios :: ios[fd] in all && ios[fd].fd == fd)
      && forall k {:trigger k in keys} :: k in keys <==> k.fd in ios
    }

    function IndexOf(io: WatchedIo, f: Filter): int
      reads io`readIndex, io`writeIndex
    {
      if f.EVFILT_READ? then io.readIndex else io.writeIndex
    }

    ghost function Index(): (m: map<Key, int>)
      requires Keyed()
      reads all`readIndex, all`writeIndex
      ensures m.Keys == keys
    {
      map k | k in keys :: IndexOf(ios[k.fd], k.filter)
    }

    ghost function Packed(): seq<Change>
      requires nchanges <= changes.Length
      reads this, changes
    {
      changes[..nchanges]
    }

    /** The packed array, the indexes and the kernel agree. */
    ghost predicate InStep()
      reads this, changes, all`readIndex, all`writeIndex
    {
      && Keyed() && 0 < changes.Length && nchanges <= changes.Length
      && Synced(Packed(), Index(), kernel)
    }

    ghost function Records(): (m: map<nat, Record>)
      requires Keyed()
      reads all`events, all`active
      ensures m.Keys == ios.Keys
    {
      map fd | fd in ios :: Record(ios[fd].events, ios[fd].active)
    }

    /** Each io records exactly the events that are watched for it, and is active as long as there are any. */
    ghost predicate Valid()
      reads this, changes, all
    {
      InStep() && AllRecorded(Watched(Index()), Records())
    }

    method SetRecord(io: WatchedIo, events: Events, active: bool)
      requires InStep() && io.fd in ios && ios[io.fd] == io
      modifies io`events, io`active
      ensures io.events == events && io.active == active && Records() == old(Records())[io.fd := Record(events, active)]
      ensures InStep() && Index() == old(Index())
    {
      hide Watched, KqueueOk;
      io.events, io.active := events, active;
    }

    lemma RecordAt(io: WatchedIo)
      requires Keyed() && io.fd in ios && ios[io.fd] == io
      ensures Records()[io.fd] == Record(io.events, io.active) && Records()[io.fd := Record(io.events, io.active)] == Records()
    {
    }

    /** `kevent` submits the first `n` changes. */
    method Kevent(n: nat)
      requires n <= changes.Length
      modifies `kernel
      ensures kernel == Applied(old(kernel), changes[..n])
    {
      kernel := Applied(kernel, changes[..n]);
    }

    method SetIndex(io: WatchedIo, f: Filter, i: int)
      requires Keyed() && io.fd in ios && ios[io.fd] == io
      modifies io`readIndex, io`writeIndex
      ensures Index() == old(Index())[Key(io.fd, f) := i]
      ensures Records() == old(Records())
    {
      if f.EVFILT_READ? {
        io.readIndex := i;
      } else {
        io.writeIndex := i;
      }
    }

    method Double()
      requires 0 < changes.Length && nchanges <= changes.Length
      modifies `changes
      ensures fresh(changes) && changes.Length == 2 * old(changes.Length) && Packed() == old(Packed())
    {
      var c := new Change[changes.Length * 2](_ => Change(Key(0, EVFILT_READ), false));
      forall i | 0 <= i < changes.Length {
        c[i] := changes[i];
      }
      changes := c;
    }

    /** A new last change for the filter of an io. */
    method Register(io: WatchedIo, f: Filter)
      requires Keyed() && io.fd in ios && ios[io.fd] == io && 0 < changes.Length && nchanges <= changes.Length
      modifies `changes, `nchanges, changes, io`readIndex, io`writeIndex
      ensures 0 < changes.Length && nchanges <= changes.Length && (changes == old(changes) || fresh(changes))
      ensures Packed() == old(Packed()) + [Change(Key(io.fd, f), false)]
      ensures Index() == old(Index())[Key(io.fd, f) := |old(Packed())|]
      ensures Records() == old(Records())
    {
      hide Index, Records;
      var idx := nchanges;
      SetIndex(io, f, idx);
      if idx == changes.Length {
        Double();
      }
      changes[idx] := Change(Key(io.fd, f), false);
      nchanges := nchanges + 1;
    }

    /** `__add_event`. */
    method AddFilter(io: WatchedIo, f: Filter)
      requires InStep() && io.fd in ios && ios[io.fd] == io
      modifies this, changes, io`readIndex, io`writeIndex
      ensures InStep() && (changes == old(changes) || fresh(changes))
      ensures Watched(Index()) == old(Watched(Index())) + {Key(io.fd, f)}
      ensures Keyed() && Records() == old(Records())
    {
      ghost var key := Key(io.fd, f);
      IndexAt(io, f);
      var idx := IndexOf(io, f);
      NoStrays(key);
      WatchedMore(Index(), key, nchanges);
      if idx < 0 { KqueueAppend(Packed(), Index(), key); }
      hide KqueueOk, Watched, Index, IndexOf, Packed, Applied, Records;
      if idx < 0 {
        Register(io, f);
      }
      SubmitAll();
    }

    /** The changes are submitted: now the kernel watches what is indexed. */
    method SubmitAll()
      requires Keyed() && 0 < changes.Length && nchanges <= changes.Length && KqueueOk(Packed(), Index()) && kernel <= Watched(Index())
      modifies `kernel
      ensures InStep() && Index() == old(Index()) && Records() == old(Records())
    {
      SyncedAll(kernel, Packed(), Index());
      hide Synced, KqueueOk, Watched, Index, Applied, Records, Keyed;
      Kevent(nchanges);
    }

    /** The change at `idx` is swapped to the end, marked as a deletion, and the last one takes its index. */
    method Unregister(io: WatchedIo, f: Filter)
      requires Keyed() && io.fd in ios && ios[io.fd] == io && 0 < nchanges <= changes.Length
      requires 0 <= IndexOf(io, f) < nchanges && changes[IndexOf(io, f)].key == Key(io.fd, f)
      requires changes[nchanges - 1].key in keys && (IndexOf(io, f) < nchanges - 1 ==> changes[nchanges - 1].key != Key(io.fd, f))
      modifies changes, all`readIndex, all`writeIndex
      ensures Packed() == Swapped(old(Packed()), old(IndexOf(io, f))) + [Change(Key(io.fd, f), true)]
      ensures Index() == Reindexed(old(Packed()), old(Index()), old(IndexOf(io, f)))[Key(io.fd, f) := -1]
      ensures Records() == old(Records())
    {
      ghost var index := Index();
      var idx := IndexOf(io, f);
      var lastidx := nchanges - 1;
      var last := changes[lastidx].key;
      Commute(index, Key(io.fd, f), last, idx);
      hide Index, Records;
      SwapOut(idx);
      SetIndex(io, f, -1);
      if idx < lastidx {
        SetIndex(ios[last.fd], last.filter, idx);
      }
    }

    /** The change at `idx` becomes a deletion and trades places with the last. */
    method SwapOut(idx: nat)
      requires idx < nchanges <= changes.Length
      modifies changes
      ensures Packed() == Swapped(old(Packed()), idx) + [Change(old(changes[idx]).key, true)]
    {
      var lastidx := nchanges - 1;
      changes[idx] := Change(changes[idx].key, true);
      if idx < lastidx {
        changes[idx], changes[lastidx] := changes[lastidx], changes[idx];
      }
    }

    /** `__del_event`. */
    method DelFilter(io: WatchedIo, f: Filter)
      requires InStep() && io.fd in ios && ios[io.fd] == io
      modifies this, changes, all`readIndex, all`writeIndex
      ensures InStep() && changes == old(changes)
      ensures Watched(Index()) == old(Watched(Index())) - {Key(io.fd, f)}
      ensures Keyed() && Records() == old(Records())
    {
      ghost var key := Key(io.fd, f);
      IndexAt(io, f);
      var idx := IndexOf(io, f);
      NoStrays(key);
      if idx < 0 {
        NotWatched(Index(), key);
        return;
      }
      KqueueDelete(Packed(), Index(), key);
      WatchedLess(Packed(), Index(), key);
      ghost var rest, index := Swapped(Packed(), idx), Reindexed(Packed(), Index(), idx)[key := -1];
      hide KqueueOk, Watched, Index, IndexOf, Swapped, Reindexed, Applied, Keyed, Records;
      Unregister(io, f);
      SubmitDeletion(rest, key);
    }

    /** The changes are submitted with the deletion of `key` behind them, which is then forgotten. */
    method SubmitDeletion(ghost rest: seq<Change>, ghost key: Key)
      requires Keyed() && 0 < nchanges <= changes.Length && Packed() == rest + [Change(key, true)]
      requires KqueueOk(rest, Index()) && kernel <= Watched(Index()) + {key} && key !in Watched(Index())
      modifies `kernel, `nchanges
      ensures InStep() && Index() == old(Index()) && Records() == old(Records())
    {
      SyncedDeletion(kernel, rest, Index(), key);
      Dropped(rest, key);
      hide Synced, KqueueOk, Watched, Index, Applied, Records, Keyed, Packed;
      Kevent(nchanges);
      Forget();
    }

    /** The last change is forgotten. */
    method Forget()
      requires Keyed() && 0 < nchanges <= changes.Length
      modifies `nchanges
      ensures nchanges == old(nchanges) - 1 && Packed() == old(Packed())[..nchanges]
      ensures Index() == old(Index()) && Records() == old(Records())
    {
      hide Index, Records, Keyed;
      nchanges := nchanges - 1;
      assert changes[..nchanges] == old(changes[..nchanges])[..nchanges];
    }

    lemma Dropped(rest: seq<Change>, key: Key)
      requires 0 < nchanges <= changes.Length && Packed() == rest + [Change(key, true)]
      ensures |rest| == nchanges - 1 && Packed()[..nchanges - 1] == rest
    {
    }

    /** `iowatcher_add_event`. */
    method AddEvent(io: WatchedIo, want: Events)
      requires InStep() && io.fd in ios && ios[io.fd] == io
      modifies this, changes, io`readIndex, io`writeIndex
      ensures InStep() && (changes == old(changes) || fresh(changes))
      ensures Watched(Index()) == old(Watched(Index())) + KeysOf(io.fd, want)
      ensures Keyed() && Records() == old(Records())
    {
      assert Keyed();
      KeysTogether(Watched(Index()), io.fd, want);
      hide InStep, Watched, Index, Keyed, Records, KeysOf;
      if want.read {
        AddFilter(io, EVFILT_READ);
      }
      if want.write {
        AddFilter(io, EVFILT_WRITE);
      }
    }

    /** `iowatcher_del_event`. */
    method DelEvent(io: WatchedIo, want: Events)
      requires InStep() && io.fd in ios && ios[io.fd] == io
      modifies this, changes, all`readIndex, all`writeIndex
      ensures InStep() && changes == old(changes)
      ensures Watched(Index()) == old(Watched(Index())) - KeysOf(io.fd, want)
      ensures Keyed() && Records() == old(Records())
    {
      assert Keyed();
      KeysTogether(Watched(Index()), io.fd, want);
      hide InStep, Watched, Index, Keyed, Records, KeysOf;
      if want.read {
        DelFilter(io, EVFILT_READ);
      }
      if want.write {
        DelFilter(io, EVFILT_WRITE);
      }
    }

    /** `hio_add` over kqueue. */
    method HioAdd(io: WatchedIo, want: Events)
      requires Valid() && io.fd in ios && ios[io.fd] == io && want != NONE
      modifies this, changes, io
      ensures Valid() && (changes == old(changes) || fresh(changes))
      ensures Grown(old(io.events), want, io.events) && io.active && InKernel(io)
    {
      ByFields(io.events, want);
      InKernelAs(io);
      RecordAt(io);
      RecordedAdd(Watched(Index()), Records(), io.fd, want);
      if Meet(io.events, want) == NONE {
        Track(io, want);
        InKernelAs(io);
      }
    }

    /** The kernel watches just the events of `io`. */
    ghost predicate InKernel(io: WatchedIo)
      reads this, io
    {
      (Key(io.fd, EVFILT_READ) in kernel <==> io.events.read) && (Key(io.fd, EVFILT_WRITE) in kernel <==> io.events.write)
    }

    lemma InKernelAs(io: WatchedIo)
      requires Valid() && io.fd in ios && ios[io.fd] == io
      ensures InKernel(io)
      ensures io.active <==> io.events.read || io.events.write
    {
      hide KqueueOk, Watched;
      assert RecordedIn(kernel, io.fd, Records()[io.fd].events, Records()[io.fd].active);
    }

    method Track(io: WatchedIo, want: Events)
      requires InStep() && io.fd in ios && ios[io.fd] == io
      requires AllRecorded(Watched(Index()) + KeysOf(io.fd, want), Records()[io.fd := Record(Join(io.events, want), true)])
      modifies this, changes, io
      ensures Valid() && (changes == old(changes) || fresh(changes)) && io.events == Join(old(io.events), want) && io.active
    {
      assert Keyed();
      hide InStep, Watched, Index, AllRecorded, Records, KeysOf, Keyed;
      AddEvent(io, want);
      SetRecord(io, Join(io.events, want), true);
    }

    /** `hio_del` over kqueue. */
    method HioDel(io: WatchedIo, want: Events)
      requires Valid() && io.fd in ios && ios[io.fd] == io
      modifies this, changes, all`readIndex, all`writeIndex, io
      ensures Valid() && changes == old(changes) && Reduced(old(io.events), want, io.events) && InKernel(io)
      ensures io.active <==> io.events.read || io.events.write
    {
      ByFields(io.events, want);
      InKernelAs(io);
      RecordAt(io);
      RecordedDel(Watched(Index()), Records(), io.fd, want);
      if !io.active {
        return;
      }
      if Meet(io.events, want) != NONE {
        Untrack(io, want);
        InKernelAs(io);
      }
    }

    method Untrack(io: WatchedIo, want: Events)
      requires InStep() && io.fd in ios && ios[io.fd] == io
      requires var events := Minus(io.events, want);
        AllRecorded(Watched(Index()) - KeysOf(io.fd, want), Records()[io.fd := Record(events, events != NONE)])
      modifies this, changes, all`readIndex, all`writeIndex, io
      ensures Valid() && changes == old(changes) && io.events == Minus(old(io.events), want)
    {
      assert Keyed();
      hide InStep, Watched, Index, AllRecorded, Records, KeysOf, Keyed;
      DelEvent(io, want);
      SetRecord(io, Minus(io.events, want), Minus(io.events, want) != NONE);
    }

    lemma IndexAt(io: WatchedIo, f: Filter)
      requires Keyed() && io.fd in ios && ios[io.fd] == io
      ensures Key(io.fd, f) in Index() && Index()[Key(io.fd, f)] == IndexOf(io, f)
    {
    }

    lemma NoStrays(key: Key)
      requires InStep() && key in Index()
      ensures |Packed()| == nchanges && (Index()[key] == -1 <==> Index()[key] < 0)
    {
    }
  }

  lemma WatchedMore(index: map<Key, int>, key: Key, i: nat)
    requires key in index
    ensures Watched(index[key := i]) == Watched(index) + {key}
    ensures index[key] != -1 ==> Watched(index) == Watched(index) + {key}
    ensures Watched(index) <= Watched(index[key := i])
  {
  }

  lemma NotWatched(index: map<Key, int>, key: Key)
    requires key in index && index[key] == -1
    ensures Watched(index) - {key} == Watched(index)
  {
  }

  lemma WatchedLess(changes: seq<Change>, index: map<Key, int>, key: Key)
    requires KqueueOk(changes, index) && key in index && index[key] != -1
    ensures 0 <= index[key] < |changes| && Watched(Reindexed(changes, index, index[key])[key := -1]) == Watched(index) - {key}
    ensures key !in Watched(Reindexed(changes, index, index[key])[key := -1])
    ensures Watched(index) <= Watched(Reindexed(changes, index, index[key])[key := -1]) + {key}
  {
  }

  lemma Commute(index: map<Key, int>, key: Key, last: Key, i: int)
    ensures key != last ==> index[key := -1][last := i] == index[last := i][key := -1]
  {
  }
}
