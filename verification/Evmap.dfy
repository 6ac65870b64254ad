/** The map from file descriptors to events, the changelist that batches their changes, and the epoll backend. */
module Evmap {
  import opened Basics

  /** A set of the level-triggered conditions EV_READ and EV_WRITE. */
  datatype Mask = Mask(read: bool, write: bool)

  const NOTHING := Mask(false, false)

  datatype Change = NoChange | ChangeAdd | ChangeDel

  /** A queued change: what was enabled on `fd` before, and what is to happen to each condition. */
  datatype EventChange = EventChange(fd: int, oldEvents: Mask, read: Change, write: Change)

  datatype Event = Event(id: int, fd: int, read: bool, write: bool)

  /** The events of one fd, how many of them want each condition, and one more than the index of the
      queued change for the fd (0 if there is none). */
  datatype Io = Io(events: seq<Event>, nread: nat, nwrite: nat, idxplus1: nat)

  datatype CtlOp = CtlAdd | CtlMod | CtlDel

  datatype Errno = Ok | ENOENT | EEXIST | EBADF

  function After(c: Change, was: bool): bool {
    match c
    case NoChange => was
    case ChangeAdd => true
    case ChangeDel => false
  }

  /** The conditions that are to be enabled after the change. */
  function Want(ch: EventChange): Mask {
    Mask(After(ch.read, ch.oldEvents.read), After(ch.write, ch.oldEvents.write))
  }

  /** The change says of every condition that was enabled what is to become of it. */
  predicate Explicit(ch: EventChange) {
    (ch.oldEvents.read ==> ch.read != NoChange) && (ch.oldEvents.write ==> ch.write != NoChange)
  }

  predicate NoOp(ch: EventChange) {
    ch.read == NoChange && ch.write == NoChange
  }

  function CountRead(evs: seq<Event>): nat {
    if evs == [] then 0 else CountRead(evs[..|evs| - 1]) + if evs[|evs| - 1].read then 1 else 0
  }

  function CountWrite(evs: seq<Event>): nat {
    if evs == [] then 0 else CountWrite(evs[..|evs| - 1]) + if evs[|evs| - 1].write then 1 else 0
  }

  /** The conditions that some event wants. */
  function Wanted(evs: seq<Event>): Mask {
    Mask(exists ev | ev in evs :: ev.read, exists ev | ev in evs :: ev.write)
  }

  lemma {:induction false} CountsMeanWanted(evs: seq<Event>)
    ensures Wanted(evs) == Mask(CountRead(evs) > 0, CountWrite(evs) > 0)
  {
    if evs != [] {
      var n := |evs| - 1;
      CountsMeanWanted(evs[..n]);
      assert forall ev :: ev in evs <==> ev in evs[..n] || ev == evs[n];
    }
  }

  lemma {:induction false} CountsOfConcat(a: seq<Event>, b: seq<Event>)
    ensures CountRead(a + b) == CountRead(a) + CountRead(b)
    ensures CountWrite(a + b) == CountWrite(a) + CountWrite(b)
  {
    if b == [] {
      assert a + b == a;
    } else {
      var n := |b| - 1;
      assert (a + b)[..|a + b| - 1] == a + b[..n];
      CountsOfConcat(a, b[..n]);
    }
  }

  lemma CountsOfOne(ev: Event)
    ensures CountRead([ev]) == if ev.read then 1 else 0
    ensures CountWrite([ev]) == if ev.write then 1 else 0
  {
    assert [ev][..0] == [];
  }

  class Base {
    const useChangelist: bool
    var io: map<int, Io>
    var changes: seq<EventChange>
    // The kernel's side: the open descriptors and the interest list.
    var open: set<int>
    var kernel: map<int, Mask>

    constructor (useChangelist: bool)
      ensures Valid() && this.useChangelist == useChangelist && io == map[] && changes == []
    {
      this.useChangelist := useChangelist;
      io, changes, open, kernel := map[], [], {}, map[];
    }

    /** The conditions the kernel watches on fd. */
    function Watched(fd: int): Mask
      reads this`kernel
    {
      if fd in kernel then kernel[fd] else NOTHING
    }

    function Events(fd: int): seq<Event>
      reads this`io
    {
      if fd in io then io[fd].events else []
    }

    lemma EventsInIo(fd: int)
      requires Valid()
      ensures if fd in io then fd >= 0 && Events(fd) == io[fd].events else Events(fd) == []
    {
      assert EntryOk(fd);
    }

    /** The conditions that the events of fd want. */
    function WantedOn(fd: int): Mask
      reads this`io
    {
      Wanted(Events(fd))
    }

    ghost predicate EntryOk(fd: int)
      reads this`io
    {
      fd in io ==>
        && fd >= 0
        && io[fd].nread == CountRead(io[fd].events) <= 0xffff
        && io[fd].nwrite == CountWrite(io[fd].events) <= 0xffff
        && forall ev | ev in io[fd].events :: ev.fd == fd
    }

    /** The entry of fd and the changelist agree on which change is queued for it. */
    ghost predicate IndexOk(fd: int)
      reads this`io, this`changes
    {
      fd in io && io[fd].idxplus1 > 0 ==> io[fd].idxplus1 <= |changes| && changes[io[fd].idxplus1 - 1].fd == fd
    }

    ghost predicate ChangeOk(i: int)
      reads this`io, this`changes
    {
      0 <= i < |changes| ==> changes[i].fd in io && io[changes[i].fd].idxplus1 == i + 1
    }

    /** The queued change, if any, leads from what the kernel watches to the conditions m.  If the descriptor has been
        closed since the change was queued, the kernel watches nothing any more, but then the change leaves nothing to
        what was enabled before. */
    ghost predicate LeadsTo(fd: int, m: Mask)
      reads this`io, this`changes, this`kernel
    {
      if fd in io && 0 < io[fd].idxplus1 <= |changes| then
        var ch := changes[io[fd].idxplus1 - 1];
        (ch.oldEvents == Watched(fd) || (Watched(fd) == NOTHING && Explicit(ch))) && Want(ch) == m
      else
        Watched(fd) == m
    }

    ghost predicate UpToDate(fd: int)
      reads this`io, this`changes, this`kernel
    {
      LeadsTo(fd, WantedOn(fd))
    }

    ghost predicate Consistent()
      reads this
    {
      && (forall fd :: EntryOk(fd))
      && (forall fd :: IndexOk(fd))
      && (forall i :: ChangeOk(i))
      && (!useChangelist ==> changes == [])
      && (forall fd | fd in kernel :: fd in open && kernel[fd] != NOTHING)
    }

    ghost predicate Valid()
      reads this
    {
      Consistent() && forall fd :: UpToDate(fd)
    }

    /** The application closes a descriptor that has no events; the kernel forgets it, a queued change stays queued. */
    method Close(fd: int)
      requires Valid() && Events(fd) == []
      modifies this`open, this`kernel
      ensures Valid() && open == old(open) - {fd} && forall g :: Events(g) == old(Events(g))
    {
      hide CountRead, CountWrite;
      assert UpToDate(fd);
      open, kernel := open - {fd}, kernel - {fd};
      forall g ensures UpToDate(g) { assert old(UpToDate(g)); }
    }

    /** The application opens a file, and gets this descriptor for it. */
    method Open(fd: int)
      requires Valid()
      modifies this`open
      ensures Valid() && open == old(open) + {fd} && forall g :: Events(g) == old(Events(g))
    {
      open := open + {fd};
    }

    method EpollCtl(op: CtlOp, fd: int, events: Mask) returns (e: Errno)
      modifies this`kernel
      ensures e == if fd !in open then EBADF
        else if op == CtlAdd then (if fd in old(kernel) then EEXIST else Ok)
        else if fd in old(kernel) then Ok else ENOENT
      ensures kernel == if e != Ok then old(kernel)
        else if op == CtlDel then old(kernel) - {fd} else old(kernel)[fd := events]
    {
      if fd !in open { return EBADF; }
      if op == CtlAdd {
        if fd in kernel { return EEXIST; }
        kernel := kernel[fd := events];
      } else {
        if fd !in kernel { return ENOENT; }
        kernel := if op == CtlDel then kernel - {fd} else kernel[fd := events];
      }
      return Ok;
    }

    /** Chooses an epoll_ctl operation for the change. Whatever the kernel watched on an open fd, it then
        watches what the change asks for, unless the change does nothing.  A second system call is needed only if the
        kernel does not watch what was thought to be enabled. */
    method ApplyOneChange(ch: EventChange) returns (r: int, ghost calls: nat)
      requires forall fd | fd in kernel :: fd in open
      modifies this`kernel
      ensures r == if NoOp(ch) || ch.fd in open || Want(ch) == NOTHING then 0 else -1
      ensures kernel == if NoOp(ch) || ch.fd !in open then old(kernel)
        else if Want(ch) == NOTHING then old(kernel) - {ch.fd} else old(kernel)[ch.fd := Want(ch)]
      ensures if NoOp(ch) then calls == 0 else 1 <= calls <= 2
      ensures !NoOp(ch) && (ch.oldEvents != NOTHING <==> ch.fd in old(kernel)) ==> calls == 1
    {
      calls := 0;
      var op, events := CtlAdd, NOTHING;
      if ch.read == ChangeAdd || ch.write == ChangeAdd {
        events := Mask(
          ch.read == ChangeAdd || (ch.read != ChangeDel && ch.oldEvents.read),
          ch.write == ChangeAdd || (ch.write != ChangeDel && ch.oldEvents.write));
        if ch.oldEvents != NOTHING { op := CtlMod; }
      } else if ch.read == ChangeDel || ch.write == ChangeDel {
        op := CtlDel;
        if ch.read == ChangeDel {
          if ch.write == ChangeDel {
            events := Mask(true, true);
          } else if ch.oldEvents.write {
            events, op := Mask(false, true), CtlMod;
          } else {
            events := Mask(true, false);
          }
        } else if ch.write == ChangeDel {
          if ch.oldEvents.read {
            events, op := Mask(true, false), CtlMod;
          } else {
            events := Mask(false, true);
          }
        }
      }
      if events == NOTHING { return 0, calls; }
      var e := EpollCtl(op, ch.fd, events);
      calls := 1;
      if e != Ok {
        if op == CtlMod && e == ENOENT {
          e := EpollCtl(CtlAdd, ch.fd, events);
          calls := 2;
          if e != Ok { return -1, calls; }
        } else if op == CtlAdd && e == EEXIST {
          e := EpollCtl(CtlMod, ch.fd, events);
          calls := 2;
          if e != Ok { return -1, calls; }
        } else if op == CtlDel && (e == ENOENT || e == EBADF) {
        } else {
          return -1, calls;
        }
      }
      r := 0;
    }

    /** The index of the queued change for fd, which is created when there is none; -1 without memory. */
    method GetOrConstruct(fd: int, oldEvents: Mask, oom: bool) returns (idx: int)
      requires Consistent() && useChangelist && fd in io
      modifies this`io, this`changes
      ensures Consistent() && -1 <= idx < |changes| && (!oom ==> idx >= 0)
      ensures idx == -1 ==> io == old(io) && changes == old(changes)
      ensures idx >= 0 ==> changes[idx].fd == fd && io == old(io)[fd := old(io[fd]).(idxplus1 := idx + 1)]
      ensures idx >= 0 ==> changes == if old(io[fd].idxplus1) > 0 then old(changes)
        else old(changes) + [EventChange(fd, oldEvents, NoChange, NoChange)]
      ensures idx >= 0 ==> idx == if old(io[fd].idxplus1) > 0 then old(io[fd].idxplus1) - 1 else |old(changes)|
    {
      assert IndexOk(fd);
      if io[fd].idxplus1 == 0 {
        if oom {
          var available: bool := *;
          if !available { return -1; }
        }
        idx := |changes|;
        changes := changes + [EventChange(fd, oldEvents, NoChange, NoChange)];
        io := io[fd := io[fd].(idxplus1 := idx + 1)];
        forall g ensures EntryOk(g) && IndexOk(g) {
          assert old(EntryOk(g)) && old(IndexOk(g));
        }
        forall i ensures ChangeOk(i) {
          assert old(ChangeOk(i));
        }
      } else {
        idx := io[fd].idxplus1 - 1;
      }
    }

    /** The queued change of fd, or one that does nothing. */
    function Queued(fd: int): EventChange
      reads this`io, this`changes
    {
      if fd in io && 0 < io[fd].idxplus1 <= |changes| then changes[io[fd].idxplus1 - 1]
      else EventChange(fd, NOTHING, NoChange, NoChange)
    }

    /** Queues that `events` are to be enabled on fd. */
    method ChangelistAdd(fd: int, oldEvents: Mask, events: Mask, oom: bool) returns (r: int)
      requires Consistent() && useChangelist && fd in io && LeadsTo(fd, oldEvents)
      requires forall g | g != fd :: UpToDate(g)
      modifies this`io, this`changes
      ensures Consistent() && (r == 0 || r == -1) && (!oom ==> r == 0)
      ensures LeadsTo(fd, if r == 0 then Plus(oldEvents, events) else oldEvents)
      ensures forall g | g != fd :: UpToDate(g)
      ensures fd in io && io == old(io)[fd := old(io[fd]).(idxplus1 := io[fd].idxplus1)]
    {
      var idx := GetOrConstruct(fd, oldEvents, oom);
      forall g | g != fd ensures UpToDate(g) {
        assert old(UpToDate(g)) && old(IndexOk(g)) && old(EntryOk(g));
      }
      assert old(IndexOk(fd));
      if idx < 0 { return -1; }
      var ch := changes[idx];
      if events.read { ch := ch.(read := ChangeAdd); }
      if events.write { ch := ch.(write := ChangeAdd); }
      Requeue(idx, ch);
      return 0;
    }

    /** Queues that `events` are to be disabled on fd. */
    method ChangelistDel(fd: int, oldEvents: Mask, events: Mask, oom: bool) returns (r: int)
      requires Consistent() && useChangelist && fd in io && LeadsTo(fd, oldEvents)
      requires forall g | g != fd :: UpToDate(g)
      modifies this`io, this`changes
      ensures Consistent() && (r == 0 || r == -1) && (!oom ==> r == 0)
      ensures LeadsTo(fd, if r == 0 then Minus(oldEvents, events) else oldEvents)
      ensures forall g | g != fd :: UpToDate(g)
      ensures fd in io && io == old(io)[fd := old(io[fd]).(idxplus1 := io[fd].idxplus1)]
      ensures r == 0 ==> var ch := Queued(fd);
        && (events.read ==> !ch.oldEvents.read || ch.read == ChangeDel)
        && (events.write ==> !ch.oldEvents.write || ch.write == ChangeDel)
        && (events.read && !ch.oldEvents.read && old(Queued(fd)).read == ChangeAdd ==> ch.read == NoChange)
        && (events.write && !ch.oldEvents.write && old(Queued(fd)).write == ChangeAdd ==> ch.write == NoChange)
        && (events.read && old(Queued(fd)).read != ChangeAdd ==> ch.read == ChangeDel)
        && (events.write && old(Queued(fd)).write != ChangeAdd ==> ch.write == ChangeDel)
    {
      var idx := GetOrConstruct(fd, oldEvents, oom);
      forall g | g != fd ensures UpToDate(g) {
        assert old(UpToDate(g)) && old(IndexOk(g)) && old(EntryOk(g));
      }
      assert old(IndexOk(fd));
      if idx < 0 { return -1; }
      var ch := changes[idx];
      if events.read {
        ch := ch.(read := if !ch.oldEvents.read && ch.read == ChangeAdd then NoChange else ChangeDel);
      }
      if events.write {
        ch := ch.(write := if !ch.oldEvents.write && ch.write == ChangeAdd then NoChange else ChangeDel);
      }
      Requeue(idx, ch);
      return 0;
    }

    /** Stores the new version of a queued change. */
    method Requeue(idx: nat, ch: EventChange)
      requires Consistent() && useChangelist && idx < |changes| && ch.fd == changes[idx].fd
      requires forall g | g != ch.fd :: UpToDate(g)
      modifies this`changes
      ensures Consistent() && changes == old(changes)[idx := ch]
      ensures forall g | g != ch.fd :: UpToDate(g)
    {
      assert ChangeOk(idx);
      changes := changes[idx := ch];
      forall i ensures ChangeOk(i) {
        assert old(ChangeOk(i));
      }
      forall g ensures IndexOk(g) && (g != ch.fd ==> UpToDate(g)) {
        assert old(IndexOk(g)) && (g != ch.fd ==> old(UpToDate(g)));
      }
    }

    /** Enables `events` on fd at once. */
    method NochangelistAdd(fd: int, oldEvents: Mask, events: Mask) returns (r: int)
      requires Consistent() && !useChangelist && fd in io && LeadsTo(fd, oldEvents) && events != NOTHING
      requires forall g | g != fd :: UpToDate(g)
      modifies this`kernel
      ensures Consistent() && r == if fd in open then 0 else -1
      ensures LeadsTo(fd, if r == 0 then Plus(oldEvents, events) else oldEvents)
      ensures forall g | g != fd :: UpToDate(g)
    {
      var ch := EventChange(fd, oldEvents,
        if events.read then ChangeAdd else NoChange, if events.write then ChangeAdd else NoChange);
      ghost var calls;
      r, calls := ApplyOneChange(ch);
      Unqueued(fd);
    }

    /** Disables `events`, all of them enabled before, on fd at once. */
    method NochangelistDel(fd: int, oldEvents: Mask, events: Mask) returns (r: int)
      requires Consistent() && !useChangelist && fd in io && LeadsTo(fd, oldEvents) && events != NOTHING
      requires forall g | g != fd :: UpToDate(g)
      modifies this`kernel
      ensures Consistent() && r == if fd in open || Minus(oldEvents, events) == NOTHING then 0 else -1
      ensures LeadsTo(fd, if r == 0 then Minus(oldEvents, events) else oldEvents)
      ensures forall g | g != fd :: UpToDate(g)
    {
      var ch := EventChange(fd, oldEvents,
        if events.read then ChangeDel else NoChange, if events.write then ChangeDel else NoChange);
      ghost var calls;
      r, calls := ApplyOneChange(ch);
      Unqueued(fd);
    }

    twostate lemma Unqueued(fd: int)
      requires old(Consistent()) && !useChangelist && unchanged(`io) && unchanged(`changes)
      requires forall g | g != fd :: old(UpToDate(g)) && Watched(g) == old(Watched(g))
      ensures forall g | g != fd :: UpToDate(g)
      ensures fd in io ==> io[fd].idxplus1 == 0 || io[fd].idxplus1 > |changes|
    {
      forall g | g != fd ensures UpToDate(g) {
        assert old(UpToDate(g)) && old(IndexOk(g));
      }
    }

    method BackendAdd(fd: int, oldEvents: Mask, events: Mask, oom: bool) returns (r: int)
      requires Consistent() && fd in io && LeadsTo(fd, oldEvents) && events != NOTHING
      requires forall g | g != fd :: UpToDate(g)
      modifies this`io, this`changes, this`kernel
      ensures Consistent() && (r == 0 || r == -1)
      ensures r == 0 <== if useChangelist then !oom else fd in open
      ensures LeadsTo(fd, if r == 0 then Plus(oldEvents, events) else oldEvents)
      ensures forall g | g != fd :: UpToDate(g)
      ensures fd in io && io == old(io)[fd := old(io[fd]).(idxplus1 := io[fd].idxplus1)]
    {
      if useChangelist {
        r := ChangelistAdd(fd, oldEvents, events, oom);
      } else {
        r := NochangelistAdd(fd, oldEvents, events);
      }
    }

    method BackendDel(fd: int, oldEvents: Mask, events: Mask, oom: bool) returns (r: int)
      requires Consistent() && fd in io && LeadsTo(fd, oldEvents) && events != NOTHING
      requires forall g | g != fd :: UpToDate(g)
      modifies this`io, this`changes, this`kernel
      ensures Consistent() && (r == 0 || r == -1)
      ensures r == 0 <== if useChangelist then !oom else fd in open
      ensures LeadsTo(fd, if r == 0 then Minus(oldEvents, events) else oldEvents)
      ensures forall g | g != fd :: UpToDate(g)
      ensures fd in io && io == old(io)[fd := old(io[fd]).(idxplus1 := io[fd].idxplus1)]
    {
      if useChangelist {
        r := ChangelistDel(fd, oldEvents, events, oom);
      } else {
        r := NochangelistDel(fd, oldEvents, events);
      }
    }

    /** Stores the new events of fd, whose conditions the backend already knows. */
    method SetEvents(fd: int, nread: nat, nwrite: nat, evs: seq<Event>)
      requires Consistent() && fd in io && fd >= 0 && (forall g | g != fd :: UpToDate(g))
      requires LeadsTo(fd, Mask(nread > 0, nwrite > 0))
      requires nread == CountRead(evs) <= 0xffff && nwrite == CountWrite(evs) <= 0xffff
      requires forall ev | ev in evs :: ev.fd == fd
      modifies this`io
      ensures Valid() && forall g :: Events(g) == if g == fd then evs else old(Events(g))
      ensures fd in io
    {
      CountsMeanWanted(evs);
      io := io[fd := io[fd].(nread := nread, nwrite := nwrite, events := evs)];
      forall g ensures EntryOk(g) && IndexOk(g) && UpToDate(g) {
        assert old(EntryOk(g)) && old(IndexOk(g)) && (g != fd ==> old(UpToDate(g)));
      }
      forall i ensures ChangeOk(i) {
        assert old(ChangeOk(i));
      }
    }

    /** Makes sure that fd has an entry. */
    method EnsureSlot(fd: int, oom: bool) returns (ok: bool)
      requires Valid() && fd >= 0
      modifies this`io
      ensures Valid() && (forall g :: Events(g) == old(Events(g)))
      ensures (ok ==> fd in io) && (!oom ==> ok)
      ensures forall g | g in old(io) :: g in io && io[g] == old(io[g])
    {
      if fd in io { return true; }
      if oom {
        var available: bool := *;
        if !available { return false; }
      }
      io := io[fd := Io([], 0, 0, 0)];
      forall g ensures EntryOk(g) && IndexOk(g) && UpToDate(g) {
        assert old(EntryOk(g)) && old(IndexOk(g)) && old(UpToDate(g));
      }
      forall i ensures ChangeOk(i) {
        assert old(ChangeOk(i));
      }
      return true;
    }

    method IoAdd(ev: Event, oom: bool) returns (r: int)
      requires Valid()
      modifies this`io, this`changes, this`kernel
      ensures Valid() && -1 <= r <= 1
      ensures forall g :: Events(g) == if r >= 0 && g == ev.fd && g >= 0 then old(Events(g)) + [ev] else old(Events(g))
      ensures r == 1 <==> r >= 0 && WantedOn(ev.fd) != old(WantedOn(ev.fd))
      ensures ev.fd < 0 ==> r == 0
      ensures !oom && (useChangelist || ev.fd in open) && old(|Events(ev.fd)|) < 0xffff ==> r >= 0
    {
      hide CountRead, CountWrite, Wanted;
      var fd := ev.fd;
      assert EntryOk(fd) && UpToDate(fd);
      if fd < 0 { return 0; }
      var ok := EnsureSlot(fd, oom);
      if !ok { return -1; }
      assert EntryOk(fd) && UpToDate(fd);
      var evs := io[fd].events;
      CountsOfOne(ev);
      CountsOfConcat(evs, [ev]);
      CountsMeanWanted(evs);
      CountsMeanWanted(evs + [ev]);
      CountsBounded(evs);
      var oldEvents := Mask(io[fd].nread > 0, io[fd].nwrite > 0);
      var nread := io[fd].nread + if ev.read then 1 else 0;
      var nwrite := io[fd].nwrite + if ev.write then 1 else 0;
      var res := Mask(ev.read && nread == 1, ev.write && nwrite == 1);
      if nread > 0xffff || nwrite > 0xffff { return -1; }
      if res != NOTHING {
        r := BackendAdd(fd, oldEvents, res, oom);
        if r == -1 { return -1; }
        r := 1;
      } else {
        r := 0;
      }
      SetEvents(fd, nread, nwrite, evs + [ev]);
    }

    method IoDel(ev: Event, oom: bool) returns (r: int)
      requires Valid() && (ev.fd in io ==> ev in io[ev.fd].events)
      modifies this`io, this`changes, this`kernel
      ensures Valid() && -1 <= r <= 1
      ensures forall g ::
        Events(g) == if r >= 0 && g == ev.fd && g >= 0 then Without(old(Events(g)), ev) else old(Events(g))
      ensures r == 1 <==> r >= 0 && WantedOn(ev.fd) != old(WantedOn(ev.fd))
      ensures ev.fd < 0 ==> r == 0
      ensures ev.fd >= 0 && ev.fd !in old(io) ==> r == -1
      ensures !oom && (useChangelist || ev.fd in open) && (ev.fd < 0 || ev.fd in old(io)) ==> r >= 0
    {
      hide CountRead, CountWrite, Wanted;
      var fd := ev.fd;
      assert EntryOk(fd) && UpToDate(fd);
      if fd < 0 { return 0; }
      if fd !in io { return -1; }
      var evs := io[fd].events;
      CountsWithout(evs, ev);
      CountsMeanWanted(evs);
      CountsMeanWanted(Without(evs, ev));
      var oldEvents := Mask(io[fd].nread > 0, io[fd].nwrite > 0);
      var nread := io[fd].nread - if ev.read then 1 else 0;
      var nwrite := io[fd].nwrite - if ev.write then 1 else 0;
      var res := Mask(ev.read && nread == 0, ev.write && nwrite == 0);
      if res != NOTHING {
        r := BackendDel(fd, oldEvents, res, oom);
        if r == -1 { return -1; }
        r := 1;
      } else {
        r := 0;
      }
      SetEvents(fd, nread, nwrite, Without(evs, ev));
    }

    /** Hands the i-th queued change to the kernel. */
    method ApplyQueued(i: nat) returns (r: int)
      requires Consistent() && useChangelist && i < |changes| && UpToDate(changes[i].fd)
      modifies this`kernel
      ensures Consistent() && forall g | g != changes[i].fd :: Watched(g) == old(Watched(g))
      ensures changes[i].fd in open ==> Watched(changes[i].fd) == WantedOn(changes[i].fd)
      ensures r == if Undone(changes[i]) then -1 else 0
    {
      hide Wanted;
      assert ChangeOk(i);
      ghost var calls;
      r, calls := ApplyOneChange(changes[i]);
    }

    /** The change is for a closed fd that would have to be watched. */
    ghost predicate Undone(ch: EventChange)
      reads this`open
    {
      !NoOp(ch) && ch.fd !in open && Want(ch) != NOTHING
    }

    method ApplyChanges() returns (r: int)
      requires Valid() && useChangelist
      modifies this`kernel
      ensures Consistent()
      ensures r == 0 <==> forall i | 0 <= i < |changes| :: !Undone(changes[i])
      ensures forall fd | fd in open :: Watched(fd) == WantedOn(fd)
    {
      hide Wanted, Want, NoOp, Undone;
      r := 0;
      for i := 0 to |changes|
        invariant Consistent() && (r == 0 || r == -1)
        invariant r == 0 <==> forall j | 0 <= j < i :: !Undone(changes[j])
        invariant forall j | 0 <= j < i && changes[j].fd in open :: Watched(changes[j].fd) == WantedOn(changes[j].fd)
        invariant forall fd | fd !in io || io[fd].idxplus1 == 0 || i < io[fd].idxplus1 ::
          Watched(fd) == old(Watched(fd))
      {
        assert ChangeOk(i) && old(UpToDate(changes[i].fd));
        var one := ApplyQueued(i);
        if one < 0 { r := -1; }
        forall j | 0 <= j < i ensures changes[j].fd != changes[i].fd {
          assert ChangeOk(j);
        }
      }
      forall fd | fd in open ensures Watched(fd) == WantedOn(fd) {
        assert IndexOk(fd) && old(UpToDate(fd));
      }
    }

    method RemoveAll()
      requires Consistent() && useChangelist
      modifies this`io, this`changes
      ensures Consistent() && changes == [] && forall g :: Events(g) == old(Events(g))
      ensures io.Keys == old(io.Keys) && forall g | g in io :: io[g] == old(io[g]).(idxplus1 := 0)
    {
      for i := 0 to |changes|
        invariant changes == old(changes) && io.Keys == old(io.Keys)
        invariant forall g | g in io ::
          io[g] == if old(io[g]).idxplus1 <= i then old(io[g]).(idxplus1 := 0) else old(io[g])
      {
        assert old(ChangeOk(i));
        var fd := changes[i].fd;
        forall g | g in io && old(io[g]).idxplus1 == i + 1 ensures g == fd {
          assert old(IndexOk(g));
        }
        io := io[fd := io[fd].(idxplus1 := 0)];
      }
      changes := [];
      forall g ensures EntryOk(g) && IndexOk(g) && (g in io ==> io[g] == old(io[g]).(idxplus1 := 0)) {
        assert old(EntryOk(g)) && old(IndexOk(g));
      }
    }

    lemma NothingQueued()
      requires Valid() && changes == []
      ensures forall fd :: Watched(fd) == WantedOn(fd)
    {
      forall fd ensures Watched(fd) == WantedOn(fd) {
        assert UpToDate(fd) && IndexOk(fd);
      }
    }

    /** Hands all queued changes to the kernel. */
    method Dispatch() returns (r: int)
      requires Valid()
      modifies this`io, this`changes, this`kernel
      ensures Consistent() && changes == []
      ensures forall g :: Events(g) == old(Events(g))
      ensures forall fd | fd in open :: Watched(fd) == WantedOn(fd)
      ensures (forall fd | WantedOn(fd) != NOTHING :: fd in open) ==> Valid() && r == 0
    {
      hide CountRead, CountWrite, Wanted;
      r := 0;
      if useChangelist {
        r := ApplyChanges();
        forall i | 0 <= i < |changes| ensures Want(changes[i]) == WantedOn(changes[i].fd) {
          assert old(ChangeOk(i)) && old(UpToDate(changes[i].fd));
        }
        RemoveAll();
      }
      forall fd ensures fd in open ==> Watched(fd) == WantedOn(fd) {
        assert old(UpToDate(fd)) && old(IndexOk(fd));
      }
    }
  }

  function Plus(a: Mask, b: Mask): Mask {
    Mask(a.read || b.read, a.write || b.write)
  }

  function Minus(a: Mask, b: Mask): Mask {
    Mask(a.read && !b.read, a.write && !b.write)
  }

  lemma {:induction false} CountsWithout(evs: seq<Event>, ev: Event)
    requires ev in evs
    ensures CountRead(Without(evs, ev)) + (if ev.read then 1 else 0) == CountRead(evs)
    ensures CountWrite(Without(evs, ev)) + (if ev.write then 1 else 0) == CountWrite(evs)
    ensures forall x | x in Without(evs, ev) :: x in evs
  {
    assert evs == [evs[0]] + evs[1..];
    CountsOfOne(evs[0]);
    CountsOfConcat([evs[0]], evs[1..]);
    if evs[0] != ev {
      CountsWithout(evs[1..], ev);
      CountsOfConcat([evs[0]], Without(evs[1..], ev));
    }
  }

  lemma {:induction false} CountsBounded(evs: seq<Event>)
    ensures CountRead(evs) <= |evs| && CountWrite(evs) <= |evs|
  {
    if evs != [] {
      CountsBounded(evs[..|evs| - 1]);
    }
  }

  datatype Op = OpAdd(ev: Event) | OpDel(ev: Event) | OpDispatch | OpClose(fd: int) | OpOpen(fd: int)

  /** The events of fd after a sequence of operations, starting with none. */
  function EventsAfter(ops: seq<Op>, fd: int): seq<Event> {
    if ops == [] then [] else
      var before := EventsAfter(ops[..|ops| - 1], fd);
      match ops[|ops| - 1]
      case OpAdd(ev) => if ev.fd == fd && fd >= 0 then before + [ev] else before
      case OpDel(ev) => if ev.fd == fd && fd >= 0 then Without(before, ev) else before
      case _ => before
  }

  /** The open descriptors after a sequence of operations. */
  function OpenAfter(ops: seq<Op>, open: set<int>): set<int> {
    if ops == [] then open else
      var before := OpenAfter(ops[..|ops| - 1], open);
      match ops[|ops| - 1]
      case OpClose(fd) => before - {fd}
      case OpOpen(fd) => before + {fd}
      case _ => before
  }

  /** The k-th operation adds to a list that is not full, deletes an event that was added, or closes a descriptor
      that has no events; all others are on open descriptors. */
  ghost predicate LegalAt(ops: seq<Op>, open: set<int>, k: nat)
    requires k < |ops|
  {
    match ops[k]
    case OpAdd(ev) => (ev.fd < 0 || ev.fd in OpenAfter(ops[..k], open)) && |EventsAfter(ops[..k], ev.fd)| < 0xffff
    case OpDel(ev) => ev.fd < 0 || (ev.fd in OpenAfter(ops[..k], open) && ev in EventsAfter(ops[..k], ev.fd))
    case OpClose(fd) => EventsAfter(ops[..k], fd) == []
    case _ => true
  }

  ghost predicate Legal(ops: seq<Op>, open: set<int>) {
    forall k | 0 <= k < |ops| :: LegalAt(ops, open, k)
  }

  lemma {:induction false} WantedAreOpen(ops: seq<Op>, open: set<int>, k: nat, fd: int)
    requires Legal(ops, open) && k <= |ops| && EventsAfter(ops[..k], fd) != []
    ensures fd in OpenAfter(ops[..k], open)
  {
    if k > 0 {
      assert ops[..k][..k - 1] == ops[..k - 1] && ops[..k][k - 1] == ops[k - 1];
      assert LegalAt(ops, open, k - 1);
      if EventsAfter(ops[..k - 1], fd) != [] { WantedAreOpen(ops, open, k - 1, fd); }
    }
  }

  /** Any legal run keeps the invariant and leaves each fd with its events. */
  method Run(base: Base, ops: seq<Op>)
    requires base.Valid() && (forall fd :: base.Events(fd) == []) && Legal(ops, base.open)
    modifies base
    ensures base.Valid() && base.open == OpenAfter(ops, old(base.open))
    ensures forall fd :: base.Events(fd) == EventsAfter(ops, fd)
  {
    hide Without, Base.Consistent, Base.LeadsTo, Base.Events;
    ghost var open := base.open;
    assert ops[..|ops|] == ops;
    for k := 0 to |ops|
      invariant base.Valid() && base.open == OpenAfter(ops[..k], open)
      invariant forall fd :: base.Events(fd) == EventsAfter(ops[..k], fd)
    {
      assert LegalAt(ops, open, k) && ops[..k + 1][..k] == ops[..k];
      match ops[k] {
        case OpAdd(ev) =>
          var r := base.IoAdd(ev, false);
        case OpDel(ev) =>
          base.EventsInIo(ev.fd);
          var r := base.IoDel(ev, false);
        case OpDispatch =>
          OpenWhereWanted(base, ops, k, open);
          var r := base.Dispatch();
        case OpClose(fd) =>
          base.Close(fd);
        case OpOpen(fd) =>
          base.Open(fd);
      }
    }
  }

  lemma OpenWhereWanted(base: Base, ops: seq<Op>, k: nat, open: set<int>)
    requires Legal(ops, open) && k <= |ops| && base.open == OpenAfter(ops[..k], open)
    requires forall fd :: base.Events(fd) == EventsAfter(ops[..k], fd)
    ensures forall fd | base.WantedOn(fd) != NOTHING :: fd in base.open
  {
    forall fd | base.WantedOn(fd) != NOTHING ensures fd in base.open {
      WantedAreOpen(ops, open, k, fd);
    }
  }

  /** Batching changes and applying each at once lead to the same interest list, the one the events want, even if
      descriptors are closed and opened again between. */
  method BothBackends(batched: Base, direct: Base, ops: seq<Op>)
    requires batched != direct && batched.useChangelist && !direct.useChangelist
    requires batched.Valid() && direct.Valid() && batched.open == direct.open && Legal(ops, batched.open)
    requires forall fd :: batched.Events(fd) == [] && direct.Events(fd) == []
    modifies batched, direct
    ensures batched.Valid() && direct.Valid() && batched.changes == [] == direct.changes
    ensures forall fd :: batched.Watched(fd) == direct.Watched(fd) == Wanted(EventsAfter(ops, fd))
  {
    ghost var open := batched.open;
    Run(batched, ops);
    Run(direct, ops);
    assert ops[..|ops|] == ops;
    OpenWhereWanted(batched, ops, |ops|, open);
    OpenWhereWanted(direct, ops, |ops|, open);
    var r := batched.Dispatch();
    r := direct.Dispatch();
    batched.NothingQueued();
    direct.NothingQueued();
  }
}
