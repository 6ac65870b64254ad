/** The core of the event loop: queues of events, timeouts that share a duration, and priorities. */
module EventLoops {
  import opened Basics
  import opened TokenBuckets

  const MAX_COMMON_TIMEOUTS: nat := 256

  /** An application's event, or the internal timer that stands for the common-timeout list k. */
  datatype EventId = User(id: nat) | Timer(k: nat)

  /** A time in microseconds; `list` is the common-timeout list named by the spare bits of tv_usec. */
  datatype Tv = Tv(time: int, list: Option<nat>)

  /** The three kinds of queue an event may be on at once. */
  datatype Queue = Inserted | Active | Timeout

  datatype Event = Event(
    priority: nat, internal: bool, persist: bool, watches: bool,
    inserted: bool, active: bool, timed: bool,
    timeout: Tv, interval: Tv, byTimeout: bool)

  function Has(r: Event, q: Queue): bool {
    match q case Inserted => r.inserted case Active => r.active case Timeout => r.timed
  }

  function With(r: Event, q: Queue, on: bool): Event {
    match q case Inserted => r.(inserted := on) case Active => r.(active := on) case Timeout => r.(timed := on)
  }

  function Elements(s: seq<EventId>): set<EventId> {
    set e | e in s
  }

  lemma ElementsNone(s: seq<EventId>)
    ensures Elements(s[..0]) == {}
  {
  }

  lemma ElementsNext(s: seq<EventId>, n: nat)
    requires n < |s| && Distinct(s)
    ensures Elements(s[..n + 1]) == Elements(s[..n]) + {s[n]} && s[n] !in Elements(s[..n])
  {
    assert s[..n + 1] == s[..n] + [s[n]];
  }

  lemma {:induction false} WithoutOne(s: seq<EventId>, e: EventId)
    requires Distinct(s)
    ensures Distinct(Without(s, e)) && (forall f :: f in Without(s, e) <==> f in s && f != e)
    ensures |Without(s, e)| == if e in s then |s| - 1 else |s|
  {
    if s != [] {
      assert Distinct(s[1..]) && s[0] !in s[1..];
      WithoutOne(s[1..], e);
      assert s == [s[0]] + s[1..];
    }
  }

  /** The non-internal events on queue q. */
  ghost function Counted(m: map<EventId, Event>, q: Queue): set<EventId> {
    set e | e in m && !m[e].internal && Has(m[e], q)
  }

  lemma CountedUpdate(m: map<EventId, Event>, e: EventId, r: Event, q: Queue)
    requires e in m && r.internal == m[e].internal
    ensures Counted(m[e := r], q) == if !r.internal && Has(r, q) then Counted(m, q) + {e} else Counted(m, q) - {e}
    ensures |Counted(m[e := r], q)| == |Counted(m, q)| + (if !r.internal && Has(r, q) then 1 else 0)
      - (if !r.internal && Has(m[e], q) then 1 else 0)
  {
  }

  /** On how many queues the non-internal events are, all together. */
  ghost function Marks(m: map<EventId, Event>): nat {
    |Counted(m, Inserted)| + |Counted(m, Active)| + |Counted(m, Timeout)|
  }

  function MarksOf(r: Event): nat {
    if r.internal then 0
    else (if r.inserted then 1 else 0) + (if r.active then 1 else 0) + (if r.timed then 1 else 0)
  }

  lemma MarksUpdate(m: map<EventId, Event>, e: EventId, r: Event)
    requires e in m && r.internal == m[e].internal
    ensures Marks(m[e := r]) == Marks(m) - MarksOf(m[e]) + MarksOf(r)
  {
    CountedUpdate(m, e, r, Inserted);
    CountedUpdate(m, e, r, Active);
    CountedUpdate(m, e, r, Timeout);
    hide Counted;
  }

  ghost function Lengths(qs: seq<seq<EventId>>): nat {
    if qs == [] then 0 else Lengths(qs[..|qs| - 1]) + |qs[|qs| - 1]|
  }

  lemma {:induction false} EmptyLengths(qs: seq<seq<EventId>>)
    requires forall p | 0 <= p < |qs| :: qs[p] == []
    ensures Lengths(qs) == 0
  {
    if qs != [] { EmptyLengths(qs[..|qs| - 1]); }
  }

  lemma {:induction false} LengthsUpdate(qs: seq<seq<EventId>>, p: nat, s: seq<EventId>)
    requires p < |qs|
    ensures Lengths(qs[p := s]) == Lengths(qs) - |qs[p]| + |s|
  {
    var n := |qs| - 1;
    if p < n {
      assert qs[p := s][..n] == qs[..n][p := s];
      LengthsUpdate(qs[..n], p, s);
    } else {
      assert qs[p := s][..n] == qs[..n];
    }
  }

  predicate Sorted(m: map<EventId, Event>, s: seq<EventId>) {
    forall i, j | 0 <= i < j < |s| && s[i] in m && s[j] in m :: m[s[i]].timeout.time <= m[s[j]].timeout.time
  }

  /** Everything the loop keeps in queues.  `count` and `countActive` are event_count and event_count_active. */
  datatype Base = Base(
    events: map<EventId, Event>, count: int, countActive: int,
    eventQueue: seq<EventId>, activeQueues: seq<seq<EventId>>, heap: set<EventId>, lists: seq<seq<EventId>>)

  /** The flags of an event say which queues it is on. */
  ghost predicate EventOk(b: Base, e: EventId) {
    e in b.events ==>
      var r := b.events[e];
      && (r.inserted <==> e in b.eventQueue)
      && r.priority < |b.activeQueues|
      && (r.active <==> e in b.activeQueues[r.priority])
      && (r.timed && r.timeout.list.None? <==> e in b.heap)
      && (r.timeout.list.Some? ==> r.timeout.list.value < |b.lists| && (r.timed ==> e in b.lists[r.timeout.list.value]))
      && (r.internal ==> r.priority == 0)
      && (r.persist ==> r.interval.list == r.timeout.list)
      && (e.Timer? ==> e.k < |b.lists| && r.internal && !r.persist && !r.watches && r.timeout.list.None?)
  }

  ghost predicate QueueOk(b: Base, p: nat) {
    p < |b.activeQueues| ==>
      && Distinct(b.activeQueues[p])
      && forall e <- b.activeQueues[p] :: e in b.events && b.events[e].active && b.events[e].priority == p
  }

  ghost predicate ListOk(b: Base, k: nat) {
    k < |b.lists| ==>
      && Timer(k) in b.events
      && Distinct(b.lists[k]) && Sorted(b.events, b.lists[k])
      && forall e <- b.lists[k] :: e in b.events && b.events[e].timed && b.events[e].timeout.list == Some(k)
  }

  ghost predicate CountsOk(b: Base) {
    && b.count == Marks(b.events)
    && b.countActive == Lengths(b.activeQueues)
  }

  ghost predicate Structure(b: Base) {
    && Distinct(b.eventQueue) && (forall e <- b.eventQueue :: e in b.events)
    && (forall e <- b.heap :: e in b.events)
    && (forall e :: EventOk(b, e))
    && (forall p :: QueueOk(b, p))
    && (forall k :: ListOk(b, k))
    && CountsOk(b)
  }

  function WithoutAt(qs: seq<seq<EventId>>, p: nat, e: EventId): seq<seq<EventId>> {
    if p < |qs| then qs[p := Without(qs[p], e)] else qs
  }

  /** The state after taking e off queue q. */
  function Removed(b: Base, e: EventId, q: Queue): Base
    requires e in b.events
  {
    var r := b.events[e];
    var c := b.(events := b.events[e := With(r, q, false)], count := if r.internal then b.count else b.count - 1);
    match q
    case Inserted => c.(eventQueue := Without(b.eventQueue, e))
    case Active => c.(countActive := b.countActive - 1, activeQueues := WithoutAt(b.activeQueues, r.priority, e))
    case Timeout =>
      if r.timeout.list.Some? then c.(lists := WithoutAt(b.lists, r.timeout.list.value, e))
        else c.(heap := b.heap - {e})
  }

  /** Where an event due at t belongs in a common-timeout list: behind those that are due no later. */
  function Position(m: map<EventId, Event>, s: seq<EventId>, t: int): (p: nat)
    ensures p <= |s|
  {
    if s == [] then 0
    else if s[|s| - 1] !in m || t >= m[s[|s| - 1]].timeout.time then |s|
    else Position(m, s[..|s| - 1], t)
  }

  lemma {:induction false} PositionSorted(m: map<EventId, Event>, s: seq<EventId>, t: int)
    requires Sorted(m, s) && forall e <- s :: e in m
    ensures forall i | 0 <= i < |s| :: m[s[i]].timeout.time <= t <==> i < Position(m, s, t)
  {
    if s != [] {
      PositionSorted(m, s[..|s| - 1], t);
    }
  }

  function InOrder(m: map<EventId, Event>, s: seq<EventId>, e: EventId): seq<EventId>
    requires e in m
  {
    var p := Position(m, s, m[e].timeout.time);
    s[..p] + [e] + s[p..]
  }

  /** The state after putting e on queue q. */
  function Queued(b: Base, e: EventId, q: Queue): Base
    requires e in b.events
  {
    var r := b.events[e];
    var c := b.(events := b.events[e := With(r, q, true)], count := if r.internal then b.count else b.count + 1);
    match q
    case Inserted => c.(eventQueue := b.eventQueue + [e])
    case Active =>
      c.(countActive := b.countActive + 1,
         activeQueues := if r.priority < |b.activeQueues|
           then b.activeQueues[r.priority := b.activeQueues[r.priority] + [e]]
                         else b.activeQueues)
    case Timeout =>
      if r.timeout.list.None? then c.(heap := b.heap + {e})
      else
        var k := r.timeout.list.value;
        c.(lists := if k < |b.lists| then b.lists[k := InOrder(b.events, b.lists[k], e)] else b.lists)
  }

  lemma CountsRemoved(b: Base, e: EventId, q: Queue)
    requires Structure(b) && e in b.events && Has(b.events[e], q)
    ensures CountsOk(Removed(b, e, q))
  {
    var r := With(b.events[e], q, false);
    assert EventOk(b, e) && QueueOk(b, r.priority);
    hide Structure, Marks, Lengths, Without;
    MarksUpdate(b.events, e, r);
    WithoutOne(b.activeQueues[r.priority], e);
    LengthsUpdate(b.activeQueues, r.priority, Without(b.activeQueues[r.priority], e));
  }

  lemma CountsQueued(b: Base, e: EventId, q: Queue)
    requires Structure(b) && e in b.events && !Has(b.events[e], q)
    ensures CountsOk(Queued(b, e, q))
  {
    var r := With(b.events[e], q, true);
    assert EventOk(b, e);
    hide Structure, Marks, Lengths, InOrder;
    MarksUpdate(b.events, e, r);
    LengthsUpdate(b.activeQueues, r.priority, b.activeQueues[r.priority] + [e]);
  }

  lemma RemovedEvent(b: Base, e: EventId, q: Queue, f: EventId)
    requires Structure(b) && e in b.events && Has(b.events[e], q)
    ensures EventOk(Removed(b, e, q), f)
  {
    hide CountsOk, Without, Sorted;
    var r := b.events[e];
    assert EventOk(b, e) && EventOk(b, f) && QueueOk(b, r.priority);
    WithoutOne(b.eventQueue, e);
    WithoutOne(b.activeQueues[r.priority], e);
    if q == Timeout && r.timeout.list.Some? {
      assert ListOk(b, r.timeout.list.value);
      WithoutOne(b.lists[r.timeout.list.value], e);
    }
    hide Structure;
  }

  lemma RemovedQueue(b: Base, e: EventId, q: Queue, p: nat)
    requires Structure(b) && e in b.events && Has(b.events[e], q)
    ensures QueueOk(Removed(b, e, q), p)
  {
    var r := b.events[e];
    assert EventOk(b, e) && QueueOk(b, p);
    hide CountsOk, Without, Structure;
    if p < |b.activeQueues| {
      WithoutOne(b.activeQueues[p], e);
    }
  }

  lemma RemovedList(b: Base, e: EventId, q: Queue, k: nat)
    requires Structure(b) && e in b.events && Has(b.events[e], q)
    ensures ListOk(Removed(b, e, q), k)
  {
    assert EventOk(b, e) && ListOk(b, k);
    hide CountsOk, Without, Structure, Sorted, Distinct, EventOk;
    if k < |b.lists| {
      var r := With(b.events[e], q, false);
      WithoutOne(b.lists[k], e);
      WithoutSorted(b.events, b.lists[k], e);
      SortedSame(b.events, e, r, b.lists[k]);
      SortedSame(b.events, e, r, Without(b.lists[k], e));
    }
  }

  lemma RemovedKeeps(b: Base, e: EventId, q: Queue)
    requires Structure(b) && e in b.events && Has(b.events[e], q)
    ensures Structure(Removed(b, e, q))
  {
    var c := Removed(b, e, q);
    CountsRemoved(b, e, q);
    WithoutOne(b.eventQueue, e);
    forall f ensures EventOk(c, f) { RemovedEvent(b, e, q, f); }
    forall p ensures QueueOk(c, p) { RemovedQueue(b, e, q, p); }
    forall k ensures ListOk(c, k) { RemovedList(b, e, q, k); }
    hide CountsOk, Without, EventOk, QueueOk, ListOk;
  }

  lemma {:induction false} WithoutSorted(m: map<EventId, Event>, s: seq<EventId>, e: EventId)
    requires Sorted(m, s) && Distinct(s) && forall f <- s :: f in m
    ensures Sorted(m, Without(s, e))
    ensures Without(s, e) == [] || s[0] == e || Without(s, e)[0] == s[0]
  {
    if s != [] && s[0] != e {
      assert Distinct(s[1..]);
      WithoutSorted(m, s[1..], e);
      WithoutOne(s[1..], e);
      var w := Without(s[1..], e);
      forall i | 0 <= i < |w| ensures m[s[0]].timeout.time <= m[w[i]].timeout.time {
        assert w[i] in s[1..];
      }
    }
  }

  predicate CanQueue(b: Base, e: EventId, q: Queue) {
    && e in b.events && !Has(b.events[e], q)
    && var list := b.events[e].timeout.list; (q == Timeout && list.Some? ==> list.value < |b.lists|)
  }

  lemma QueuedEvent(b: Base, e: EventId, q: Queue, f: EventId)
    requires Structure(b) && CanQueue(b, e, q)
    ensures EventOk(Queued(b, e, q), f)
  {
    hide CountsOk, InOrder, QueueOk, Position;
    assert EventOk(b, e) && EventOk(b, f);
    var list := b.events[e].timeout.list;
    if q == Timeout && list.Some? {
      assert ListOk(b, list.value);
      InOrderOk(b.events, b.lists[list.value], e);
    }
  }

  lemma QueuedQueue(b: Base, e: EventId, q: Queue, p: nat)
    requires Structure(b) && CanQueue(b, e, q)
    ensures QueueOk(Queued(b, e, q), p)
  {
    assert EventOk(b, e) && QueueOk(b, p);
    hide CountsOk, Position, Structure;
  }

  lemma QueuedList(b: Base, e: EventId, q: Queue, k: nat)
    requires Structure(b) && CanQueue(b, e, q)
    ensures ListOk(Queued(b, e, q), k)
  {
    var r := b.events[e];
    assert EventOk(b, e) && ListOk(b, k);
    hide CountsOk, InOrder, Sorted, Structure, EventOk;
    if k < |b.lists| {
      if q == Timeout && r.timeout.list == Some(k) {
        InOrderOk(b.events, b.lists[k], e);
        SortedSame(b.events, e, With(r, q, true), InOrder(b.events, b.lists[k], e));
      } else {
        SortedSame(b.events, e, With(r, q, true), b.lists[k]);
      }
    }
  }

  lemma InOrderOk(m: map<EventId, Event>, s: seq<EventId>, e: EventId)
    requires Sorted(m, s) && Distinct(s) && e in m && e !in s && forall f <- s :: f in m
    ensures Sorted(m, InOrder(m, s, e)) && Distinct(InOrder(m, s, e))
    ensures forall f :: f in InOrder(m, s, e) <==> f in s || f == e
  {
    PositionSorted(m, s, m[e].timeout.time);
    hide Position;
  }

  lemma SortedSame(m: map<EventId, Event>, e: EventId, r: Event, s: seq<EventId>)
    requires Sorted(m, s) && e in m && r.timeout == m[e].timeout
    ensures Sorted(m[e := r], s)
  {
  }

  lemma QueuedKeeps(b: Base, e: EventId, q: Queue)
    requires Structure(b) && CanQueue(b, e, q)
    ensures Structure(Queued(b, e, q))
  {
    var c := Queued(b, e, q);
    CountsQueued(b, e, q);
    assert EventOk(b, e);
    forall f ensures EventOk(c, f) { QueuedEvent(b, e, q, f); }
    forall p ensures QueueOk(c, p) { QueuedQueue(b, e, q, p); }
    forall k ensures ListOk(c, k) { QueuedList(b, e, q, k); }
    hide CountsOk, Position, EventOk, QueueOk, ListOk;
  }

  /** The events of common-timeout list k will not be forgotten: the list's timer is due no later than the first of
      them, or its callback is to run, or is running and will set the timer again. */
  ghost predicate Covered(b: Base, owed: Option<nat>, k: nat) {
    k < |b.lists| && b.lists[k] != [] && b.lists[k][0] in b.events && Timer(k) in b.events ==>
      var timer := b.events[Timer(k)];
      || timer.active
      || (timer.timed && timer.timeout.time <= b.events[b.lists[k][0]].timeout.time)
      || owed == Some(k)
  }

  lemma RemovedCovers(b: Base, e: EventId, q: Queue, owed: Option<nat>, k: nat)
    requires Structure(b) && e in b.events && Has(b.events[e], q)
    requires Covered(b, owed, k) && e != Timer(k)
    ensures Covered(Removed(b, e, q), owed, k)
  {
    assert EventOk(b, e) && ListOk(b, k);
    hide CountsOk, Without, Structure;
    if k < |b.lists| {
      WithoutOne(b.lists[k], e);
      WithoutHead(b.lists[k], e);
    }
  }

  lemma WithoutHead(s: seq<EventId>, e: EventId)
    ensures s == [] || Without(s, e) == (if s[0] == e then s[1..] else [s[0]] + Without(s[1..], e))
  {
  }

  lemma QueuedCovers(b: Base, e: EventId, q: Queue, owed: Option<nat>, k: nat)
    requires Structure(b) && CanQueue(b, e, q) && Covered(b, owed, k)
    ensures Covered(Queued(b, e, q), owed, k) ||
      (q == Timeout && b.events[e].timeout.list == Some(k) && Queued(b, e, q).lists[k][0] == e)
  {
    assert EventOk(b, e) && ListOk(b, k);
    hide CountsOk, Position, Structure;
  }

  /** The state after changing fields of e that do not say on which queues it is. */
  function Touched(b: Base, e: EventId, r: Event): Base {
    b.(events := b.events[e := r])
  }

  predicate CanTouch(b: Base, e: EventId, r: Event) {
    && e in b.events
    && var r0 := b.events[e];
    && r == r0.(priority := r.priority, timeout := r.timeout, interval := r.interval, byTimeout := r.byTimeout)
    && (r0.timed ==> r.timeout == r0.timeout)
    && (r0.active || r0.internal ==> r.priority == r0.priority)
    && r.priority < |b.activeQueues|
    && (r.timeout.list.Some? ==> r.timeout.list.value < |b.lists| && e.User?)
    && (r.persist ==> r.interval.list == r.timeout.list)
  }

  lemma CountsTouched(b: Base, e: EventId, r: Event)
    requires Structure(b) && CanTouch(b, e, r)
    ensures CountsOk(Touched(b, e, r))
  {
    assert CountsOk(b);
    hide Structure, Marks;
    MarksUpdate(b.events, e, r);
  }

  lemma TouchedKeeps(b: Base, e: EventId, r: Event)
    requires Structure(b) && CanTouch(b, e, r)
    ensures Structure(Touched(b, e, r))
  {
    var c := Touched(b, e, r);
    CountsTouched(b, e, r);
    hide CountsOk;
    assert EventOk(b, e) && QueueOk(b, r.priority);
    forall f ensures EventOk(c, f) { assert EventOk(b, f); }
    forall p ensures QueueOk(c, p) { assert QueueOk(b, p); }
    forall k ensures ListOk(c, k) { assert ListOk(b, k); }
  }

  lemma TouchedCovers(b: Base, e: EventId, r: Event, owed: Option<nat>, k: nat)
    requires Structure(b) && CanTouch(b, e, r) && Covered(b, owed, k)
    ensures Covered(Touched(b, e, r), owed, k)
  {
    assert ListOk(b, k);
    hide Structure;
  }

  /** The first two steps of giving e a new time: it leaves its place among the timeouts, and an expiry that nobody
      has handled yet is taken back. */
  function Untimed(b: Base, e: EventId): Base
    requires e in b.events
  {
    var c := if b.events[e].timed then Removed(b, e, Timeout) else b;
    if c.events[e].active && c.events[e].byTimeout then Removed(c, e, Active) else c
  }

  predicate TvOk(b: Base, e: EventId, tv: Tv) {
    (tv.list.Some? ==> tv.list.value < |b.lists| && e.User?)
  }

  predicate IntervalOk(b: Base, e: EventId, tv: Tv, interval: Tv)
    requires e in b.events
  {
    b.events[e].persist ==> interval.list == tv.list
  }

  /** The state after giving e a new time at which it is due, and after which interval it is due again. */
  function Timed(b: Base, e: EventId, tv: Tv, interval: Tv): Base
    requires e in b.events
  {
    var c := Untimed(b, e);
    Queued(Touched(c, e, c.events[e].(timeout := tv, interval := interval)), e, Timeout)
  }

  function TimedEvent(r: Event, tv: Tv, interval: Tv): Event {
    r.(timed := true, timeout := tv, interval := interval, active := r.active && !r.byTimeout)
  }

  lemma RemovedFacts(b: Base, e: EventId, q: Queue)
    requires e in b.events
    ensures Removed(b, e, q).events == b.events[e := With(b.events[e], q, false)]
    ensures |Removed(b, e, q).lists| == |b.lists| && |Removed(b, e, q).activeQueues| == |b.activeQueues|
  {
  }

  lemma QueuedFacts(b: Base, e: EventId, q: Queue)
    requires e in b.events
    ensures Queued(b, e, q).events == b.events[e := With(b.events[e], q, true)]
    ensures |Queued(b, e, q).lists| == |b.lists| && |Queued(b, e, q).activeQueues| == |b.activeQueues|
  {
  }

  lemma UntimedKeeps(b: Base, e: EventId)
    requires Structure(b) && e in b.events
    ensures Structure(Untimed(b, e))
    ensures Untimed(b, e).events
      == b.events[e := b.events[e].(timed := false, active := b.events[e].active && !b.events[e].byTimeout)]
    ensures |Untimed(b, e).lists| == |b.lists| && |Untimed(b, e).activeQueues| == |b.activeQueues|
  {
    hide Structure, Removed;
    RemovedFacts(b, e, Timeout);
    var c := if b.events[e].timed then Removed(b, e, Timeout) else b;
    if b.events[e].timed { RemovedKeeps(b, e, Timeout); }
    RemovedFacts(c, e, Active);
    if c.events[e].active && c.events[e].byTimeout { RemovedKeeps(c, e, Active); }
  }

  lemma UntimedCovers(b: Base, e: EventId, owed: Option<nat>, k: nat)
    requires Structure(b) && e in b.events && Covered(b, owed, k) && Timer(k) != e
    ensures Covered(Untimed(b, e), owed, k)
  {
    var c := if b.events[e].timed then Removed(b, e, Timeout) else b;
    if b.events[e].timed { RemovedKeeps(b, e, Timeout); RemovedCovers(b, e, Timeout, owed, k); }
    if c.events[e].active && c.events[e].byTimeout { RemovedCovers(c, e, Active, owed, k); }
    hide Structure, Covered;
  }

  lemma TimedFacts(b: Base, e: EventId, tv: Tv, interval: Tv)
    requires Structure(b) && e in b.events
    ensures |Timed(b, e, tv, interval).lists| == |b.lists|
    ensures Timed(b, e, tv, interval).events == b.events[e := TimedEvent(b.events[e], tv, interval)]
  {
    hide Structure, Untimed, Queued;
    var c := Untimed(b, e);
    UntimedKeeps(b, e);
    QueuedFacts(Touched(c, e, c.events[e].(timeout := tv, interval := interval)), e, Timeout);
  }

  lemma TimedKeeps(b: Base, e: EventId, tv: Tv, interval: Tv)
    requires Structure(b) && e in b.events && TvOk(b, e, tv) && IntervalOk(b, e, tv, interval)
    ensures Structure(Timed(b, e, tv, interval))
  {
    assert EventOk(b, e);
    hide Structure, Untimed, Queued;
    var c := Untimed(b, e);
    UntimedKeeps(b, e);
    var r := c.events[e].(timeout := tv, interval := interval);
    TouchedKeeps(c, e, r);
    QueuedKeeps(Touched(c, e, r), e, Timeout);
  }

  lemma TimedCovers(b: Base, e: EventId, tv: Tv, interval: Tv, owed: Option<nat>, k: nat)
    requires Structure(b) && e in b.events && TvOk(b, e, tv) && IntervalOk(b, e, tv, interval)
    requires Covered(b, owed, k) && Timer(k) != e
    ensures Covered(Timed(b, e, tv, interval), owed, k)
      || (tv.list == Some(k) && Timed(b, e, tv, interval).lists[k][0] == e)
  {
    assert EventOk(b, e);
    hide Structure, Untimed, Queued, Covered;
    var c := Untimed(b, e);
    UntimedKeeps(b, e);
    UntimedCovers(b, e, owed, k);
    var r := c.events[e].(timeout := tv, interval := interval);
    TouchedKeeps(c, e, r);
    TouchedCovers(c, e, r, owed, k);
    QueuedCovers(Touched(c, e, r), e, Timeout, owed, k);
  }

  /** The state after starting to watch the descriptor of e, which may fail. */
  function Started(b: Base, e: EventId, fails: bool): Base
    requires e in b.events
  {
    var r := b.events[e];
    if r.watches && !r.inserted && !r.active && !fails then Queued(b, e, Inserted) else b
  }

  predicate Refused(b: Base, e: EventId, fails: bool)
    requires e in b.events
  {
    var r := b.events[e];
    r.watches && !r.inserted && !r.active && fails
  }

  /** When an event that is added with tv is due. */
  function Due(tv: Tv, absolute: bool, now: int): Tv {
    if absolute then tv else Tv(now + tv.time, tv.list)
  }

  /** The timer of a common-timeout list is set to the time of the list's first event, if that is e. */
  function Scheduled(b: Base, e: EventId, k: nat): Base {
    if k < |b.lists| && b.lists[k] != [] && b.lists[k][0] == e && e in b.events && Timer(k) in b.events
    then Timed(b, Timer(k), Tv(b.events[e].timeout.time, None), b.events[Timer(k)].interval) else b
  }

  /** The state after adding e, with or without a timeout. */
  function Added(b: Base, e: EventId, tv: Option<Tv>, absolute: bool, now: int, fails: bool): Base
    requires e in b.events
  {
    if Refused(b, e, fails) then b else
    var c := Started(b, e, fails);
    if tv.None? then c else
    var r := c.events[e];
    var d := Timed(c, e, Due(tv.value, absolute, now), if r.persist && !absolute then tv.value else r.interval);
    if tv.value.list.Some? then Scheduled(d, e, tv.value.list.value) else d
  }

  lemma StartedKeeps(b: Base, e: EventId, fails: bool)
    requires Structure(b) && e in b.events
    ensures Structure(Started(b, e, fails))
    ensures var c := Started(b, e, fails); var r := b.events[e];
      && |c.lists| == |b.lists|
      && c.events == if c == b then b.events else b.events[e := r.(inserted := true)]
    ensures forall owed, k: nat | Covered(b, owed, k) :: Covered(Started(b, e, fails), owed, k)
  {
    hide Structure, Covered, Queued;
    if Started(b, e, fails) != b {
      QueuedKeeps(b, e, Inserted);
      QueuedFacts(b, e, Inserted);
      forall owed, k: nat | Covered(b, owed, k) ensures Covered(Started(b, e, fails), owed, k) {
        QueuedCovers(b, e, Inserted, owed, k);
      }
    }
  }

  lemma ScheduledKeeps(b: Base, e: EventId, k: nat)
    requires Structure(b)
    ensures Structure(Scheduled(b, e, k)) && |Scheduled(b, e, k).lists| == |b.lists|
    ensures Scheduled(b, e, k).events.Keys == b.events.Keys
    ensures Scheduled(b, e, k) == b ||
      Scheduled(b, e, k).events == b.events[Timer(k) :=
        TimedEvent(b.events[Timer(k)], Tv(b.events[e].timeout.time, None), b.events[Timer(k)].interval)]
  {
    if Scheduled(b, e, k) != b {
      assert EventOk(b, Timer(k));
      var tv, i := Tv(b.events[e].timeout.time, None), b.events[Timer(k)].interval;
      hide Structure;
      TimedKeeps(b, Timer(k), tv, i);
      TimedFacts(b, Timer(k), tv, i);
    }
  }

  lemma ScheduledCovers(b: Base, e: EventId, k: nat, owed: Option<nat>, j: nat)
    requires Structure(b)
      && (Covered(b, owed, j) || (j == k && j < |b.lists| && b.lists[j] != [] && b.lists[j][0] == e))
    ensures Covered(Scheduled(b, e, k), owed, j)
  {
    assert ListOk(b, j) && ListOk(b, k) && EventOk(b, e);
    if Scheduled(b, e, k) != b {
      var tv, i := Tv(b.events[e].timeout.time, None), b.events[Timer(k)].interval;
      assert EventOk(b, Timer(k));
      TimedFacts(b, Timer(k), tv, i);
      if j != k {
        hide Structure, Timed;
        TimedCovers(b, Timer(k), tv, i, owed, j);
      } else {
        TimerLists(b, Timer(k), tv, i);
        hide Structure, Timed;
      }
    }
  }

  lemma TimerLists(b: Base, e: EventId, tv: Tv, interval: Tv)
    requires Structure(b) && e in b.events && e.Timer? && tv.list.None?
    ensures Timed(b, e, tv, interval).lists == b.lists
  {
    assert EventOk(b, e);
  }

  predicate AddOk(b: Base, e: EventId, tv: Option<Tv>, absolute: bool) {
    && e in b.events
    && (tv.Some? ==> TvOk(b, e, tv.value) && (absolute ==> IntervalOk(b, e, tv.value, b.events[e].interval)))
  }

  lemma AddedKeeps(b: Base, e: EventId, tv: Option<Tv>, absolute: bool, now: int, fails: bool)
    requires Structure(b) && AddOk(b, e, tv, absolute)
    ensures var c := Added(b, e, tv, absolute, now, fails);
      && Structure(c) && |c.lists| == |b.lists| && c.events.Keys == b.events.Keys
      && forall f | f in b.events && f != e && f.User? :: c.events[f] == b.events[f]
  {
    hide Structure, Started, Timed, Scheduled;
    if !Refused(b, e, fails) {
      var c := Started(b, e, fails);
      StartedKeeps(b, e, fails);
      if tv.Some? {
        var r := c.events[e];
        var due := Due(tv.value, absolute, now);
        var i := if r.persist && !absolute then tv.value else r.interval;
        TimedKeeps(c, e, due, i);
        TimedFacts(c, e, due, i);
        if tv.value.list.Some? {
          ScheduledKeeps(Timed(c, e, due, i), e, tv.value.list.value);
        }
      }
    }
  }

  lemma AddedCovers(b: Base, e: EventId, tv: Option<Tv>, absolute: bool, now: int, fails: bool, owed: Option<nat>,
      k: nat)
    requires Structure(b) && AddOk(b, e, tv, absolute) && Covered(b, owed, k) && Timer(k) != e
    ensures Covered(Added(b, e, tv, absolute, now, fails), owed, k)
  {
    if !Refused(b, e, fails) {
      var c := Started(b, e, fails);
      StartedKeeps(b, e, fails);
      if tv.Some? {
        var r := c.events[e];
        var due := Due(tv.value, absolute, now);
        var i := if r.persist && !absolute then tv.value else r.interval;
        TimedKeeps(c, e, due, i);
        TimedCovers(c, e, due, i, owed, k);
        var d := Timed(c, e, due, i);
        HeadCovers(d, owed, k);
        if tv.value.list.Some? {
          ScheduledCovers(d, e, tv.value.list.value, owed, k);
        }
      }
    }
    hide Structure, Started, Timed, Scheduled, Covered;
  }

  lemma SafeStructure(b: Base)
    ensures (forall owed | SafeBase(b, owed) :: Structure(b))
  {
  }

  lemma HeadCovers(b: Base, owed: Option<nat>, k: nat)
    ensures !Covered(b, owed, k) ==> k < |b.lists| && b.lists[k] != []
  {
  }

  /** What has just been added with a timeout is due then, and no older expiry of it is left.  Its descriptor is watched
      unless its callback was to run and the descriptor was not watched at that moment. */
  lemma AddedIsDue(b: Base, e: EventId, tv: Tv, absolute: bool, now: int, fails: bool)
    requires Structure(b) && AddOk(b, e, Some(tv), absolute) && !Refused(b, e, fails) && e.User?
    ensures e in Added(b, e, Some(tv), absolute, now, fails).events
    ensures var r0 := b.events[e]; var r := Added(b, e, Some(tv), absolute, now, fails).events[e];
      r == r0.(timed := true, timeout := Due(tv, absolute, now),
               interval := if r0.persist && !absolute then tv else r0.interval,
               active := r0.active && !r0.byTimeout,
               inserted := r0.inserted || (r0.watches && !r0.active))
  {
    hide Structure, Timed, Scheduled, Queued;
    var c := Started(b, e, fails);
    StartedKeeps(b, e, fails);
    QueuedFacts(b, e, Inserted);
    var due := Due(tv, absolute, now);
    var i := if b.events[e].persist && !absolute then tv else b.events[e].interval;
    TimedKeeps(c, e, due, i);
    TimedFacts(c, e, due, i);
    if tv.list.Some? {
      ScheduledKeeps(Timed(c, e, due, i), e, tv.list.value);
    }
  }

  /** The state after taking e off every queue. */
  function Deleted(b: Base, e: EventId): Base
    requires e in b.events
  {
    var c := if b.events[e].timed then Removed(b, e, Timeout) else b;
    var d := if c.events[e].active then Removed(c, e, Active) else c;
    if d.events[e].inserted then Removed(d, e, Inserted) else d
  }

  function Idle(r: Event): Event {
    r.(inserted := false, active := false, timed := false)
  }

  lemma DeletedKeeps(b: Base, e: EventId)
    requires Structure(b) && e in b.events
    ensures Structure(Deleted(b, e))
    ensures Deleted(b, e).events == b.events[e := Idle(b.events[e])]
  {
    hide Structure, Removed;
    RemovedFacts(b, e, Timeout);
    var c := if b.events[e].timed then Removed(b, e, Timeout) else b;
    if b.events[e].timed { RemovedKeeps(b, e, Timeout); }
    RemovedFacts(c, e, Active);
    var d := if c.events[e].active then Removed(c, e, Active) else c;
    if c.events[e].active { RemovedKeeps(c, e, Active); }
    RemovedFacts(d, e, Inserted);
    if d.events[e].inserted { RemovedKeeps(d, e, Inserted); }
  }

  lemma DeletedCovers(b: Base, e: EventId, owed: Option<nat>, k: nat)
    requires Structure(b) && e in b.events && Covered(b, owed, k) && Timer(k) != e
    ensures Covered(Deleted(b, e), owed, k)
  {
    hide Structure, Covered, Removed;
    RemovedFacts(b, e, Timeout);
    var c := if b.events[e].timed then Removed(b, e, Timeout) else b;
    if b.events[e].timed { RemovedKeeps(b, e, Timeout); RemovedCovers(b, e, Timeout, owed, k); }
    RemovedFacts(c, e, Active);
    var d := if c.events[e].active then Removed(c, e, Active) else c;
    if c.events[e].active { RemovedKeeps(c, e, Active); RemovedCovers(c, e, Active, owed, k); }
    RemovedFacts(d, e, Inserted);
    if d.events[e].inserted { RemovedCovers(d, e, Inserted, owed, k); }
  }

  lemma DeletedQueues(b: Base, e: EventId)
    requires Structure(b) && e in b.events
    ensures var c := Deleted(b, e); var r := b.events[e];
      && c.heap == b.heap - {e}
      && |c.activeQueues| == |b.activeQueues|
      && c.lists == (if r.timed && r.timeout.list.Some? then WithoutAt(b.lists, r.timeout.list.value, e) else b.lists)
      && c.activeQueues == (if r.active then WithoutAt(b.activeQueues, r.priority, e) else b.activeQueues)
  {
    assert EventOk(b, e);
    hide Structure, Without;
  }

  /** The state after putting e among the events whose callbacks are to run. */
  function Activated(b: Base, e: EventId, byTimeout: bool): Base
    requires e in b.events
  {
    var r := b.events[e];
    if r.active then Touched(b, e, r.(byTimeout := r.byTimeout || byTimeout))
    else Queued(Touched(b, e, r.(byTimeout := byTimeout)), e, Active)
  }

  lemma ActivatedKeeps(b: Base, e: EventId, byTimeout: bool)
    requires Structure(b) && e in b.events
    ensures Structure(Activated(b, e, byTimeout))
  {
    var r := b.events[e];
    ActivatedTouch(b, e, byTimeout);
    ActivatedTouch(b, e, r.byTimeout || byTimeout);
    hide Structure, CanTouch, Queued;
    if r.active {
      TouchedKeeps(b, e, r.(byTimeout := r.byTimeout || byTimeout));
    } else {
      TouchedKeeps(b, e, r.(byTimeout := byTimeout));
      QueuedKeeps(Touched(b, e, r.(byTimeout := byTimeout)), e, Active);
    }
  }

  lemma ActivatedFacts(b: Base, e: EventId, byTimeout: bool)
    requires e in b.events
    ensures var c := Activated(b, e, byTimeout); var r := b.events[e];
      && c.lists == b.lists && c.heap == b.heap && |c.activeQueues| == |b.activeQueues|
      && c.events == b.events[e := r.(active := true, byTimeout := byTimeout || (r.active && r.byTimeout))]
  {
  }

  lemma ActivatedTouch(b: Base, e: EventId, byTimeout: bool)
    requires Structure(b) && e in b.events
    ensures CanTouch(b, e, b.events[e].(byTimeout := byTimeout))
  {
    assert EventOk(b, e);
  }

  lemma ActivatedCovers(b: Base, e: EventId, byTimeout: bool, owed: Option<nat>, k: nat)
    requires Structure(b) && e in b.events && (Covered(b, owed, k) || e == Timer(k))
    ensures Covered(Activated(b, e, byTimeout), owed, k)
  {
    ActivatedFacts(b, e, byTimeout);
    assert ListOk(b, k);
    hide Structure, Activated;
  }

  /** No step takes an event off the queue of another event's callback, so empty queues stay empty. */
  predicate Fewer(b: Base, c: Base) {
    |c.activeQueues| == |b.activeQueues| && forall j | 0 <= j < |b.activeQueues| && b.activeQueues[j] == [] ::
      c.activeQueues[j] == []
  }

  lemma FewerSame(b: Base)
    ensures Fewer(b, b)
  {
  }

  lemma AddedFewer(b: Base, e: EventId, tv: Option<Tv>, absolute: bool, now: int, fails: bool)
    requires Structure(b) && AddOk(b, e, tv, absolute)
    ensures Fewer(b, Added(b, e, tv, absolute, now, fails))
  {
    if !Refused(b, e, fails) && tv.Some? {
      var c := Started(b, e, fails);
      StartedKeeps(b, e, fails);
      var r := c.events[e];
      var due := Due(tv.value, absolute, now);
      var i := if r.persist && !absolute then tv.value else r.interval;
      TimedFewer(c, e, due, i);
      TimedKeeps(c, e, due, i);
      if tv.value.list.Some? {
        ScheduledFewer(Timed(c, e, due, i), e, tv.value.list.value);
      }
    }
    hide Structure, Timed, Scheduled;
  }

  lemma ScheduledFewer(b: Base, e: EventId, k: nat)
    requires Structure(b)
    ensures Fewer(b, Scheduled(b, e, k))
  {
    if Scheduled(b, e, k) != b {
      TimedFewer(b, Timer(k), Tv(b.events[e].timeout.time, None), b.events[Timer(k)].interval);
    }
    hide Structure, Timed;
  }

  lemma TimedFewer(b: Base, e: EventId, tv: Tv, interval: Tv)
    requires Structure(b) && e in b.events
    ensures Fewer(b, Timed(b, e, tv, interval))
  {
    hide Structure, Removed, Queued, Fewer;
    UntimedKeeps(b, e);
    UntimedFewer(b, e);
    var c := Untimed(b, e);
    QueuedFewer(c, Touched(c, e, c.events[e].(timeout := tv, interval := interval)), e);
    FewerTwice(b, c, Timed(b, e, tv, interval));
  }

  lemma UntimedFewer(b: Base, e: EventId)
    requires e in b.events
    ensures Fewer(b, Untimed(b, e))
  {
    hide Removed, Fewer;
    RemovedFacts(b, e, Timeout);
    RemovedFewer(b, e, Timeout);
    FewerSame(b);
    var c := if b.events[e].timed then Removed(b, e, Timeout) else b;
    RemovedFewer(c, e, Active);
    FewerTwice(b, c, Removed(c, e, Active));
  }

  lemma QueuedFewer(b: Base, c: Base, e: EventId)
    requires e in c.events && c.activeQueues == b.activeQueues
    ensures Fewer(b, Queued(c, e, Timeout))
  {
  }

  lemma FewerTwice(b: Base, c: Base, d: Base)
    ensures Fewer(b, c) && Fewer(c, d) ==> Fewer(b, d)
  {
  }

  /** Every structure is in order and no common timeout is forgotten. */
  ghost predicate SafeBase(b: Base, owed: Option<nat>) {
    Structure(b) && forall k: nat :: Covered(b, owed, k)
  }

  lemma HeapHasEvents(b: Base, owed: Option<nat>)
    requires SafeBase(b, owed)
    ensures forall e <- b.heap :: e in b.events
  {
  }

  lemma AddedSafe(b: Base, e: EventId, tv: Option<Tv>, absolute: bool, now: int, fails: bool, owed: Option<nat>)
    requires SafeBase(b, owed) && AddOk(b, e, tv, absolute) && e.User?
    ensures SafeBase(Added(b, e, tv, absolute, now, fails), owed)
  {
    hide Structure, Covered, Added;
    AddedKeeps(b, e, tv, absolute, now, fails);
    forall k: nat ensures Covered(Added(b, e, tv, absolute, now, fails), owed, k) {
      AddedCovers(b, e, tv, absolute, now, fails, owed, k);
    }
  }

  lemma DeletedSafe(b: Base, e: EventId, owed: Option<nat>)
    requires SafeBase(b, owed) && e in b.events && e.User?
    ensures SafeBase(Deleted(b, e), owed)
  {
    hide Structure, Covered, Deleted;
    DeletedKeeps(b, e);
    forall k: nat ensures Covered(Deleted(b, e), owed, k) { DeletedCovers(b, e, owed, k); }
  }

  lemma ActivatedSafe(b: Base, e: EventId, byTimeout: bool, owed: Option<nat>)
    requires SafeBase(b, owed) && e in b.events
    ensures SafeBase(Activated(b, e, byTimeout), owed)
  {
    hide Structure, Covered, Activated;
    ActivatedKeeps(b, e, byTimeout);
    forall k: nat ensures Covered(Activated(b, e, byTimeout), owed, k) { ActivatedCovers(b, e, byTimeout, owed, k); }
  }

  /** The state after the time of e has come. */
  function Expired(b: Base, e: EventId): Base
    requires e in b.events
  {
    Activated(Deleted(b, e), e, true)
  }

  function ExpiredEvent(r: Event): Event {
    r.(inserted := false, timed := false, active := true, byTimeout := true)
  }

  lemma ExpiredKeeps(b: Base, e: EventId, owed: Option<nat>)
    requires SafeBase(b, owed) && e in b.events
    ensures SafeBase(Expired(b, e), owed)
  {
    hide Structure, Covered, Deleted, Activated;
    DeletedKeeps(b, e);
    ActivatedKeeps(Deleted(b, e), e, true);
    forall k: nat ensures Covered(Expired(b, e), owed, k) {
      if e != Timer(k) { DeletedCovers(b, e, owed, k); }
      ActivatedCovers(Deleted(b, e), e, true, owed, k);
    }
  }

  lemma ExpiredFacts(b: Base, e: EventId)
    requires Structure(b) && e in b.events
    ensures Expired(b, e).events == b.events[e := ExpiredEvent(b.events[e])]
    ensures var c := Expired(b, e); var r := b.events[e];
      && c.heap == b.heap - {e}
      && |c.activeQueues| == |b.activeQueues|
      && c.lists == (if r.timed && r.timeout.list.Some? then WithoutAt(b.lists, r.timeout.list.value, e) else b.lists)
  {
    hide Structure, Deleted, Activated;
    DeletedKeeps(b, e);
    DeletedQueues(b, e);
    ActivatedFacts(Deleted(b, e), e, true);
  }

  /** The events of `some` that are due by `now`. */
  ghost function DueBy(m: map<EventId, Event>, some: set<EventId>, now: int): set<EventId> {
    set e | e in some && e in m && m[e].timeout.time <= now
  }

  /** The events after those in `some` have expired. */
  ghost function Moved(m: map<EventId, Event>, some: set<EventId>): map<EventId, Event> {
    map e | e in m :: if e in some then ExpiredEvent(m[e]) else m[e]
  }

  ghost predicate SameUsers(m: map<EventId, Event>, n: map<EventId, Event>) {
    m.Keys == n.Keys && forall e | e in m && e.User? :: m[e] == n[e]
  }

  lemma MovedNone(m: map<EventId, Event>)
    ensures Moved(m, {}) == m
  {
  }

  lemma MovedRest(m: map<EventId, Event>, some: set<EventId>)
    ensures Moved(m, some).Keys == m.Keys && forall e | e in m && e !in some :: Moved(m, some)[e] == m[e]
  {
  }

  /** The first event of a heap that is not due shows that what has been taken from it is all that was due. */
  lemma DueRest(m: map<EventId, Event>, was: set<EventId>, rest: set<EventId>, now: int)
    requires rest <= was && was - rest <= DueBy(m, was, now)
    requires forall e <- rest :: e in m && m[e].timeout.time > now
    ensures was - rest == DueBy(m, was, now) && rest == was - DueBy(m, was, now)
  {
  }

  lemma DueMore(m: map<EventId, Event>, was: set<EventId>, rest: set<EventId>, e: EventId, now: int)
    requires rest <= was && was - rest <= DueBy(m, was, now)
    requires e in rest && e in m && m[e].timeout.time <= now
    ensures was - (rest - {e}) == (was - rest) + {e} && was - (rest - {e}) <= DueBy(m, was, now)
    ensures e !in was - rest && rest - {e} <= was
  {
  }

  lemma MovedOne(m: map<EventId, Event>, some: set<EventId>, e: EventId)
    requires e in m && e !in some
    ensures Moved(m, some)[e] == m[e]
    ensures Moved(m, some)[e := ExpiredEvent(m[e])] == Moved(m, some + {e})
  {
  }

  /** In a sorted list, those that are due come first. */
  lemma DuePrefix(m: map<EventId, Event>, s: seq<EventId>, n: nat, now: int)
    requires Sorted(m, s) && Distinct(s) && n <= |s| && forall e <- s :: e in m
    requires forall i | 0 <= i < n :: m[s[i]].timeout.time <= now
    requires n < |s| ==> m[s[n]].timeout.time > now
    ensures Elements(s[..n]) == DueBy(m, Elements(s), now)
    ensures forall e <- s :: e in s[n..] <==> m[e].timeout.time > now
  {
    forall i | n <= i < |s| ensures m[s[i]].timeout.time > now { }
    assert forall e <- s :: e in s[..n] || e in s[n..];
  }

  /** The clock went back by `off`: so does every time at which something is due. */
  function Earlier(r: Event, off: int): Event {
    r.(timeout := r.timeout.(time := r.timeout.time - off))
  }

  function Shift(m: map<EventId, Event>, some: set<EventId>, off: int): map<EventId, Event> {
    map e | e in m :: if e in some then Earlier(m[e], off) else m[e]
  }

  ghost function Waiting(b: Base): set<EventId> {
    set e | e in b.events && b.events[e].timed
  }

  function Shifted(b: Base, some: set<EventId>, off: int): Base {
    b.(events := Shift(b.events, some, off))
  }

  lemma ShiftedKeeps(b: Base, off: int, owed: Option<nat>)
    requires SafeBase(b, owed)
    ensures SafeBase(Shifted(b, Waiting(b), off), owed)
  {
    var c := Shifted(b, Waiting(b), off);
    assert forall q :: Counted(c.events, q) == Counted(b.events, q);
    hide Counted;
    forall e ensures EventOk(c, e) { assert EventOk(b, e); }
    forall p ensures QueueOk(c, p) { assert QueueOk(b, p); }
    forall k ensures ListOk(c, k) { assert ListOk(b, k); }
    forall k: nat ensures Covered(c, owed, k) { assert ListOk(b, k) && Covered(b, owed, k); }
  }

  lemma ShiftedLeft(b: Base, off: int)
    ensures var c := Shifted(b, Waiting(b), off);
      && c.events.Keys == b.events.Keys
      && forall e <- b.events | b.events[e].timed :: c.events[e].timeout.time == b.events[e].timeout.time - off
  {
  }

  lemma ActivatedBelow(b: Base, e: EventId, byTimeout: bool)
    requires Structure(b) && e in b.events
    ensures var c := Activated(b, e, byTimeout); var r := b.events[e];
      |c.activeQueues| == |b.activeQueues| && r.priority < |b.activeQueues| &&
      forall j | 0 <= j < |b.activeQueues| && (j != r.priority || r.active) :: c.activeQueues[j] == b.activeQueues[j]
  {
    assert EventOk(b, e);
    hide Structure;
  }

  lemma DeletedFewer(b: Base, e: EventId)
    requires Structure(b) && e in b.events
    ensures Fewer(b, Deleted(b, e))
  {
    DeletedQueues(b, e);
    hide Deleted, Structure;
  }

  lemma RemovedFewer(b: Base, e: EventId, q: Queue)
    requires e in b.events
    ensures Fewer(b, Removed(b, e, q)) && |Removed(b, e, q).lists| == |b.lists|
  {
  }

  /** A new event, which is on no queue. */
  predicate Fresh(b: Base, e: EventId, r: Event) {
    && e !in b.events && !r.inserted && !r.active && !r.timed && r.timeout.list == None == r.interval.list
    && r.priority < |b.activeQueues| && (r.internal ==> r.priority == 0)
  }

  lemma AssignedSafe(b: Base, e: EventId, r: Event, owed: Option<nat>)
    requires SafeBase(b, owed) && Fresh(b, e, r) && e.User?
    ensures SafeBase(Touched(b, e, r), owed)
  {
    var c := Touched(b, e, r);
    assert forall q :: Counted(c.events, q) == Counted(b.events, q);
    hide Counted;
    assert QueueOk(b, r.priority);
    forall f ensures EventOk(c, f) { assert EventOk(b, f); }
    forall p ensures QueueOk(c, p) { assert QueueOk(b, p); }
    forall k ensures ListOk(c, k) { assert ListOk(b, k); }
    forall k: nat ensures Covered(c, owed, k) { assert ListOk(b, k) && Covered(b, owed, k); }
  }

  lemma ListAddedSafe(b: Base, r: Event, owed: Option<nat>)
    requires SafeBase(b, owed) && Fresh(b, Timer(|b.lists|), r) && r.internal && !r.persist && !r.watches
    ensures SafeBase(Touched(b, Timer(|b.lists|), r).(lists := b.lists + [[]]), owed)
  {
    var e := Timer(|b.lists|);
    var c := Touched(b, e, r).(lists := b.lists + [[]]);
    assert forall q :: Counted(c.events, q) == Counted(b.events, q);
    hide Counted;
    assert QueueOk(b, r.priority);
    forall f ensures EventOk(c, f) { assert EventOk(b, f); }
    forall p ensures QueueOk(c, p) { assert QueueOk(b, p); }
    forall k ensures ListOk(c, k) { assert ListOk(b, k); }
    forall k: nat ensures Covered(c, owed, k) { assert ListOk(b, k) && Covered(b, owed, k); }
  }

  lemma TouchedSafe(b: Base, e: EventId, r: Event, owed: Option<nat>)
    requires SafeBase(b, owed) && CanTouch(b, e, r)
    ensures SafeBase(Touched(b, e, r), owed)
  {
    hide Structure, Covered, CanTouch;
    TouchedKeeps(b, e, r);
    forall k: nat ensures Covered(Touched(b, e, r), owed, k) { TouchedCovers(b, e, r, owed, k); }
  }

  lemma RemovedSafe(b: Base, e: EventId, q: Queue, owed: Option<nat>)
    requires SafeBase(b, owed) && e in b.events && Has(b.events[e], q) && e.User?
    ensures SafeBase(Removed(b, e, q), owed)
  {
    hide Structure, Covered, Removed;
    RemovedKeeps(b, e, q);
    forall k: nat ensures Covered(Removed(b, e, q), owed, k) { RemovedCovers(b, e, q, owed, k); }
  }

  /** A timer whose callback begins owes its list a new time. */
  lemma TimerDeletedSafe(b: Base, k: nat)
    requires SafeBase(b, None) && Timer(k) in b.events
    ensures SafeBase(Deleted(b, Timer(k)), Some(k))
  {
    hide Structure, Deleted;
    DeletedKeeps(b, Timer(k));
    forall j: nat ensures Covered(Deleted(b, Timer(k)), Some(k), j) {
      if j != k { DeletedCovers(b, Timer(k), None, j); }
    }
  }

  predicate NoInterval(r: Event) {
    r.interval.time == 0 && r.interval.list.None?
  }

  /** When a persistent event is due again. */
  function NextRun(r: Event, now: int): (tv: Tv)
    ensures r.interval.time >= 0 ==> tv.time >= now
    ensures r.byTimeout && r.timeout.time + r.interval.time >= now ==> tv.time == r.timeout.time + r.interval.time
  {
    var runAt := (if r.byTimeout then r.timeout.time else now) + r.interval.time;
    Tv(if runAt < now then now + r.interval.time else runAt, if r.timeout.list.Some? then r.interval.list else None)
  }

  lemma PersistOk(b: Base, e: EventId, now: int)
    requires Structure(b) && e in b.events && e.User? && b.events[e].persist
    ensures AddOk(b, e, Some(NextRun(b.events[e], now)), true)
  {
    assert EventOk(b, e);
    hide Structure;
  }

  /** The state once e has been taken off its active queue in order to run: unless it is persistent, it is off all
      queues. */
  function Taken(b: Base, e: EventId): Base
    requires e in b.events
  {
    if b.events[e].persist then Removed(b, e, Active) else Deleted(b, e)
  }

  /** The state in which the callback of e starts, if the clock then says `now`. */
  function Begun(b: Base, e: EventId, now: int, fails: bool): Base
    requires e in b.events
  {
    var c := Taken(b, e);
    if e in c.events && c.events[e].persist && e.User? && !NoInterval(c.events[e])
    then Added(c, e, Some(NextRun(c.events[e], now)), true, now, fails) else c
  }

  /** A callback starts with its event inactive.  One that is not persistent is off all queues; one that is persistent
      stays as it was, and if it has an interval it is due again and watched. */
  lemma BegunIs(b: Base, e: EventId, now: int, fails: bool)
    requires Structure(b) && e in b.events && e.User? && b.events[e].active
    ensures e in Begun(b, e, now, fails).events
    ensures var r := b.events[e]; var s := Begun(b, e, now, fails).events[e];
      s == if !r.persist then Idle(r)
           else if NoInterval(r) || (r.watches && !r.inserted && fails) then r.(active := false)
           else r.(active := false, timed := true, timeout := NextRun(r, now), inserted := r.inserted || r.watches)
  {
    hide Structure, Removed, Deleted, Added, NextRun;
    RemovedFacts(b, e, Active);
    DeletedKeeps(b, e);
    var c := Taken(b, e);
    var r := c.events[e];
    if r.persist {
      RemovedKeeps(b, e, Active);
      NextRunSame(b.events[e], r, now);
      PersistOk(c, e, now);
      if !NoInterval(r) && !Refused(c, e, fails) { AddedIsDue(c, e, NextRun(r, now), true, now, fails); }
      AddedRefused(c, e, Some(NextRun(r, now)), true, now, fails);
    }
  }

  lemma NextRunSame(r: Event, s: Event, now: int)
    requires r.byTimeout == s.byTimeout && r.timeout == s.timeout && r.interval == s.interval
    ensures NextRun(r, now) == NextRun(s, now)
  {
  }

  lemma AddedRefused(b: Base, e: EventId, tv: Option<Tv>, absolute: bool, now: int, fails: bool)
    requires e in b.events
    ensures Refused(b, e, fails) ==> Added(b, e, tv, absolute, now, fails) == b
  {
  }

  /** A persistent event that is added at time t with a duration runs whenever another one of these has passed, as long
      as its callback starts before the next is over: first at t + d, then at t + 2d. */
  lemma Cadence(b: Base, e: EventId, tv: Tv, t: int, fails: bool, c: Base, now: int)
    requires Structure(b) && AddOk(b, e, Some(tv), false) && !Refused(b, e, fails) && e.User? && b.events[e].persist
    requires tv.time != 0 || tv.list.Some?
    requires Structure(c) && e in c.events && e in Added(b, e, Some(tv), false, t, fails).events
    requires c.events[e] == ExpiredEvent(Added(b, e, Some(tv), false, t, fails).events[e])
    requires now <= t + 2 * tv.time
    ensures Added(b, e, Some(tv), false, t, fails).events[e].timeout.time == t + tv.time
    ensures e in Begun(c, e, now, false).events
    ensures var s := Begun(c, e, now, false).events[e];
      s.timed && s.timeout.time == t + 2 * tv.time && s.interval == tv && (s.watches ==> s.inserted)
  {
    hide Structure, Added, Begun;
    AddedIsDue(b, e, tv, false, t, fails);
    BegunIs(c, e, now, false);
  }

  /** An event that is on no queue, with a middle priority unless it is internal. */
  function NewEvent(priorities: nat, internal: bool, persist: bool, watches: bool): (r: Event)
    ensures !r.inserted && !r.active && !r.timed && r.internal == internal
  {
    Event(if internal then 0 else priorities / 2, internal, persist, watches, false, false, false,
          Tv(0, None), Tv(0, None), false)
  }

  /** The state with one common-timeout list more. */
  function WithList(b: Base): Base {
    Touched(b, Timer(|b.lists|), NewEvent(|b.activeQueues|, true, false, false)).(lists := b.lists + [[]])
  }

  /** What an operation makes of the state; its own checks may refuse it. */
  ghost predicate Does(b: Base, op: Op, c: Base) {
    match op
    case Assign(id, internal, persist, watches) =>
      c == if User(id) in b.events then b
           else Touched(b, User(id), NewEvent(|b.activeQueues|, internal, persist, watches))
    case SetPriority(id, n) =>
      c == if User(id) in b.events && !b.events[User(id)].internal && !b.events[User(id)].active
              && 0 <= n < |b.activeQueues|
           then Touched(b, User(id), b.events[User(id)].(priority := n)) else b
    case Add(id, tv, now, fails) =>
      c == if AddOk(b, User(id), tv, false) then Added(b, User(id), tv, false, now, fails) else b
    case Del(id) => c == if User(id) in b.events then Deleted(b, User(id)) else b
    case Activate(id, byTimeout) => c == if User(id) in b.events then Activated(b, User(id), byTimeout) else b
    case InitCommonTimeout(_, _) => c == b || c == WithList(b)
    case Break => c == b
  }

  /** The operations lead from the first state of the path to the last. */
  ghost predicate Leads(path: seq<Base>, script: seq<Op>) {
    |path| == |script| + 1 && forall i | 0 <= i < |script| :: Does(path[i], script[i], path[i + 1])
  }

  /** The start of a callback: the event, its priority, the state in which it starts, the time on the clock, and whether
      watching its descriptor again would fail. */
  datatype Start = Start(event: EventId, internal: bool, priority: nat, base: Base, now: int, fails: bool)

  /** No callback of the application was started while a more important event was active. */
  ghost predicate LogOk(log: seq<Start>) {
    forall s <- log | !s.internal :: forall j | 0 <= j < s.priority && j < |s.base.activeQueues| ::
      s.base.activeQueues[j] == []
  }

  /** How many of the callbacks are the application's. */
  ghost function Users(log: seq<Start>): nat {
    if log == [] then 0 else Users(log[..|log| - 1]) + if log[|log| - 1].internal then 0 else 1
  }

  /** The first queue that is not empty, or the number of queues. */
  function Foremost(qs: seq<seq<EventId>>): (p: nat)
    ensures p <= |qs| && (p < |qs| ==> qs[p] != []) && forall j | 0 <= j < p :: qs[j] == []
  {
    if qs == [] || qs[0] != [] then 0 else Foremost(qs[1..]) + 1
  }

  /** Events are active if and only if the count says so. */
  lemma ActiveCounted(b: Base)
    requires Structure(b)
    ensures b.countActive > 0 <==> Foremost(b.activeQueues) < |b.activeQueues|
  {
    hide Structure, EventOk, QueueOk, ListOk;
    CountedLengths(b);
    if Foremost(b.activeQueues) == |b.activeQueues| {
      EmptyLengths(b.activeQueues);
    } else {
      LengthsUpdate(b.activeQueues, Foremost(b.activeQueues), []);
    }
  }

  lemma CountedLengths(b: Base)
    requires Structure(b)
    ensures b.countActive == Lengths(b.activeQueues)
  {
  }

  /** What other threads, or a callback, may do to the base while its lock is free. */
  datatype Op =
    | Assign(id: nat, internal: bool, persist: bool, watches: bool)
    | SetPriority(id: nat, priority: int)
    | Add(id: nat, tv: Option<Tv>, now: int, fails: bool)
    | Del(id: nat)
    | Activate(id: nat, byTimeout: bool)
    | InitCommonTimeout(duration: int, oom: bool)
    | Break

  class EventBase {
    var events: map<EventId, Event>
    var count: int
    var countActive: int
    var eventQueue: seq<EventId>
    var activeQueues: seq<seq<EventId>>
    var heap: set<EventId>
    var lists: seq<seq<EventId>>
    var durations: seq<int>
    var runningPriority: int
    var continueLoop: bool
    var stop: bool
    var eventTv: int
    // The common-timeout list whose timer's callback has begun but has not yet set the timer again.
    ghost var owed: Option<nat>
    // The callbacks started so far.
    ghost var log: seq<Start>

    function Value(): Base
      reads this
    {
      Base(events, count, countActive, eventQueue, activeQueues, heap, lists)
    }

    ghost predicate Safe()
      reads this
    {
      SafeBase(Value(), owed)
    }

    constructor (priorities: nat, now: int)
      requires priorities > 0
      ensures Ready() && owed == None && runningPriority == -1 && log == [] && events == map[]
        && |activeQueues| == priorities && !continueLoop && !stop && eventTv == now
    {
      events, count, countActive, eventQueue := map[], 0, 0, [];
      activeQueues, heap, lists, durations := seq(priorities, _ => []), {}, [], [];
      runningPriority, continueLoop, stop, eventTv := -1, false, false, now;
      owed, log := None, [];
      new;
      EmptyLengths(activeQueues);
    }

    method QueueRemove(e: EventId, q: Queue)
      requires Structure(Value()) && e in events && Has(events[e], q)
      modifies this`events, this`count, this`countActive, this`eventQueue, this`activeQueues, this`heap, this`lists
      ensures Value() == Removed(old(Value()), e, q)
    {
      assert EventOk(Value(), e);
      var r := events[e];
      if !r.internal { count := count - 1; }
      events := events[e := With(r, q, false)];
      match q
      case Inserted =>
        eventQueue := Without(eventQueue, e);
      case Active =>
        countActive := countActive - 1;
        activeQueues := activeQueues[r.priority := Without(activeQueues[r.priority], e)];
      case Timeout =>
        if r.timeout.list.Some? {
          var k := r.timeout.list.value;
          lists := lists[k := Without(lists[k], e)];
        } else {
          heap := heap - {e};
        }
    }

    /** Looks for the place of e from the end of its common-timeout list. */
    method InsertCommonTimeoutInorder(k: nat, e: EventId)
      requires k < |lists| && e in events && forall f <- lists[k] :: f in events
      modifies this`lists
      ensures lists == old(lists)[k := InOrder(events, old(lists[k]), e)]
    {
      var s := lists[k];
      var i := |s|;
      assert s[..i] == s;
      while i > 0 && events[e].timeout.time < events[s[i - 1]].timeout.time
        invariant 0 <= i <= |s|
        invariant Position(events, s, events[e].timeout.time) == Position(events, s[..i], events[e].timeout.time)
      {
        assert s[..i][..i - 1] == s[..i - 1];
        i := i - 1;
      }
      lists := lists[k := s[..i] + [e] + s[i..]];
    }

    method QueueInsert(e: EventId, q: Queue)
      requires Structure(Value()) && CanQueue(Value(), e, q)
      modifies this`events, this`count, this`countActive, this`eventQueue, this`activeQueues, this`heap, this`lists
      ensures Value() == Queued(old(Value()), e, q)
    {
      var r := events[e];
      assert EventOk(Value(), e);
      assert q == Timeout && r.timeout.list.Some? ==> ListOk(Value(), r.timeout.list.value);
      if !r.internal { count := count + 1; }
      match q {
        case Inserted =>
          eventQueue := eventQueue + [e];
        case Active =>
          countActive := countActive + 1;
          activeQueues := activeQueues[r.priority := activeQueues[r.priority] + [e]];
        case Timeout =>
          if r.timeout.list.Some? {
            InsertCommonTimeoutInorder(r.timeout.list.value, e);
          } else {
            heap := heap + {e};
          }
      }
      events := events[e := With(r, q, true)];
    }

    method ClearTimeout(e: EventId)
      requires Structure(Value()) && e in events
      modifies this`events, this`count, this`countActive, this`eventQueue, this`activeQueues, this`heap, this`lists
      ensures Value() == Untimed(old(Value()), e)
    {
      hide Structure, Removed;
      RemovedFacts(Value(), e, Timeout);
      if events[e].timed {
        RemovedKeeps(Value(), e, Timeout);
        QueueRemove(e, Timeout);
      }
      if events[e].active && events[e].byTimeout {
        QueueRemove(e, Active);
      }
    }

    method SetTimeout(e: EventId, tv: Tv, interval: Tv)
      requires Structure(Value()) && e in events && TvOk(Value(), e, tv) && IntervalOk(Value(), e, tv, interval)
      modifies this`events, this`count, this`countActive, this`eventQueue, this`activeQueues, this`heap, this`lists
      ensures Value() == Timed(old(Value()), e, tv, interval)
    {
      ghost var b := Value();
      assert EventOk(b, e);
      hide Structure, Untimed, Queued;
      UntimedKeeps(b, e);
      ClearTimeout(e);
      ghost var c := Value();
      ghost var r := c.events[e].(timeout := tv, interval := interval);
      TouchedKeeps(c, e, r);
      events := events[e := events[e].(timeout := tv, interval := interval)];
      assert Value() == Touched(c, e, r);
      QueueInsert(e, Timeout);
    }

    /** Adds e with or without a timeout; `fails` says that its descriptor cannot be watched. */
    method EventAdd(e: EventId, tv: Option<Tv>, absolute: bool, now: int, fails: bool) returns (ok: bool)
      requires Structure(Value()) && AddOk(Value(), e, tv, absolute)
      modifies this`events, this`count, this`countActive, this`eventQueue, this`activeQueues, this`heap, this`lists
      ensures Value() == Added(old(Value()), e, tv, absolute, now, fails)
      ensures ok == !Refused(old(Value()), e, fails)
      decreases if tv.Some? && tv.value.list.Some? then 2 else 0
    {
      hide Structure, Timed, Queued, Scheduled;
      ghost var b := Value();
      var r := events[e];
      StartedKeeps(b, e, fails);
      if r.watches && !(r.inserted || r.active) {
        if fails { return false; }
        QueueInsert(e, Inserted);
      }
      assert Value() == Started(b, e, fails);
      if tv.Some? {
        var due := if absolute then tv.value else Tv(now + tv.value.time, tv.value.list);
        var interval := if r.persist && !absolute then tv.value else r.interval;
        ghost var c := Value();
        TimedKeeps(c, e, due, interval);
        TimedFacts(c, e, due, interval);
        SetTimeout(e, due, interval);
        if tv.value.list.Some? {
          CommonTimeoutSchedule(tv.value.list.value, e, now);
        }
      }
      ok := true;
    }

    /** Sets the timer of list k to the time of its first event, if that is e. */
    method CommonTimeoutSchedule(k: nat, e: EventId, now: int)
      requires Structure(Value()) && k < |lists|
      modifies this`events, this`count, this`countActive, this`eventQueue, this`activeQueues, this`heap, this`lists
      ensures Value() == Scheduled(old(Value()), e, k)
      decreases 1
    {
      ghost var b := Value();
      assert ListOk(b, k) && EventOk(b, Timer(k));
      if lists[k] != [] && lists[k][0] == e {
        hide Structure, Timed;
        var ok := EventAdd(Timer(k), Some(Tv(events[e].timeout.time, None)), true, now, false);
      }
    }

    method EventDel(e: EventId)
      requires Structure(Value()) && e in events
      modifies this`events, this`count, this`countActive, this`eventQueue, this`activeQueues, this`heap, this`lists
      ensures Value() == Deleted(old(Value()), e)
    {
      hide Structure, Removed;
      ghost var b := Value();
      RemovedFacts(b, e, Timeout);
      if events[e].timed {
        RemovedKeeps(b, e, Timeout);
        QueueRemove(e, Timeout);
      }
      ghost var c := Value();
      RemovedFacts(c, e, Active);
      if events[e].active {
        RemovedKeeps(c, e, Active);
        QueueRemove(e, Active);
      }
      if events[e].inserted {
        QueueRemove(e, Inserted);
      }
    }

    /** Makes e active; a running callback of lower priority is then the last of its round. */
    method EventActive(e: EventId, byTimeout: bool)
      requires Structure(Value()) && e in events
      modifies this`events, this`count, this`countActive, this`eventQueue, this`activeQueues, this`heap, this`lists,
        this`continueLoop
      ensures Value() == Activated(old(Value()), e, byTimeout)
      ensures continueLoop
        == (old(continueLoop) || (!old(events[e].active) && old(events[e].priority) < runningPriority))
    {
      hide Structure, Queued;
      ghost var b := Value();
      var r := events[e];
      if r.active {
        events := events[e := r.(byTimeout := r.byTimeout || byTimeout)];
        return;
      }
      events := events[e := r.(byTimeout := byTimeout)];
      if r.priority < runningPriority {
        continueLoop := true;
      }
      assert Value() == Touched(b, e, events[e]);
      ActivatedTouch(b, e, byTimeout);
      TouchedKeeps(b, e, events[e]);
      QueueInsert(e, Active);
    }

    /** The top of the heap: an event that is due no later than any other. */
    method MinHeapTop() returns (top: EventId)
      requires heap != {} && forall e <- heap :: e in events
      ensures top in heap && forall e <- heap :: events[top].timeout.time <= events[e].timeout.time
    {
      top :| top in heap;
      var rest := heap - {top};
      while rest != {}
        invariant top in heap && rest <= heap
        invariant forall e | e in heap && e !in rest :: events[top].timeout.time <= events[e].timeout.time
      {
        var e :| e in rest;
        if events[e].timeout.time < events[top].timeout.time { top := e; }
        rest := rest - {e};
      }
    }

    method Expire(e: EventId)
      requires Safe() && e in events
      modifies this`events, this`count, this`countActive, this`eventQueue, this`activeQueues, this`heap, this`lists,
        this`continueLoop
      ensures Safe() && Value() == Expired(old(Value()), e)
      ensures runningPriority <= 0 ==> continueLoop == old(continueLoop)
    {
      hide Structure, Deleted, Activated, Covered;
      ExpiredKeeps(Value(), e, owed);
      DeletedKeeps(Value(), e);
      EventDel(e);
      EventActive(e, true);
    }

    method ExpireTop(top: EventId)
      requires Safe() && top in heap && top in events
      modifies this`events, this`count, this`countActive, this`eventQueue, this`activeQueues, this`heap, this`lists,
        this`continueLoop
      ensures Safe() && |activeQueues| == old(|activeQueues|) && lists == old(lists)
      ensures events == old(events)[top := ExpiredEvent(old(events[top]))] && heap == old(heap) - {top}
      ensures runningPriority <= 0 ==> continueLoop == old(continueLoop)
    {
      hide Structure, Covered, Expired;
      ExpiredFacts(Value(), top);
      HeapEvent(Value(), top);
      Expire(top);
    }

    /** Moves everything in the heap that is due to the active queues. */
    method TimeoutProcess(now: int)
      requires Safe()
      modifies this`events, this`count, this`countActive, this`eventQueue, this`activeQueues, this`heap, this`lists,
        this`continueLoop
      ensures Safe() && |activeQueues| == old(|activeQueues|) && lists == old(lists)
      ensures heap == old(heap) - DueBy(old(events), old(heap), now)
      ensures events == Moved(old(events), DueBy(old(events), old(heap), now))
      ensures runningPriority <= 0 ==> continueLoop == old(continueLoop)
    {
      hide Structure, Covered, Expired, Moved, ExpiredEvent, SafeBase, DueBy;
      HeapHasEvents(Value(), owed);
      ghost var m := events;
      MovedNone(m);
      assert old(heap) - heap == {};
      while heap != {}
        invariant Safe() && |activeQueues| == old(|activeQueues|) && lists == old(lists)
        invariant heap <= old(heap) && old(heap) - heap <= DueBy(m, old(heap), now)
        invariant events == Moved(m, old(heap) - heap)
        invariant runningPriority <= 0 ==> continueLoop == old(continueLoop)
        decreases |heap|
      {
        MovedRest(m, old(heap) - heap);
        var top := MinHeapTop();
        if events[top].timeout.time > now { break; }
        DueMore(m, old(heap), heap, top, now);
        MovedOne(m, old(heap) - heap, top);
        ExpireTop(top);
      }
      MovedRest(m, old(heap) - heap);
      DueRest(m, old(heap), heap, now);
    }

    /** Moves the first event of list k to the active queues. */
    method ExpireFirst(k: nat)
      requires Safe() && k < |lists| && lists[k] != [] && lists[k][0] in events
      modifies this`events, this`count, this`countActive, this`eventQueue, this`activeQueues, this`heap, this`lists,
        this`continueLoop
      ensures Safe() && |activeQueues| == old(|activeQueues|)
      ensures events == old(events)[old(lists[k][0]) := ExpiredEvent(old(events[lists[k][0]]))]
      ensures lists == old(lists)[k := old(lists[k][1..])]
      ensures runningPriority <= 0 ==> continueLoop == old(continueLoop)
    {
      hide Structure, Covered, Expired;
      ListUsers(Value(), k);
      ExpiredFacts(Value(), lists[k][0]);
      Expire(lists[k][0]);
    }

    /** Moves everything in list k that is due to the active queues. */
    method ExpireDue(k: nat, now: int) returns (ghost n: nat)
      requires Safe() && k < |lists| && forall e <- lists[k] :: e in events
      modifies this`events, this`count, this`countActive, this`eventQueue, this`activeQueues, this`heap, this`lists,
        this`continueLoop
      ensures Safe() && |activeQueues| == old(|activeQueues|)
      ensures n <= old(|lists[k]|) && lists == old(lists)[k := old(lists[k])[n..]]
      ensures events == Moved(old(events), Elements(old(lists[k])[..n]))
      ensures forall i | 0 <= i < n :: old(events[lists[k][i]].timeout.time) <= now
      ensures n < old(|lists[k]|) ==> old(events[lists[k][n]].timeout.time) > now
      ensures runningPriority <= 0 ==> continueLoop == old(continueLoop)
    {
      hide Structure, Covered, Sorted, Distinct, Elements, Moved, ExpiredEvent;
      ghost var s := lists[k];
      ghost var m := events;
      n := 0;
      ListUsers(Value(), k);
      MovedNone(m);
      ElementsNone(s);
      while lists[k] != []
        invariant n <= |s| && lists == old(lists)[k := s[n..]]
        invariant Safe() && |activeQueues| == old(|activeQueues|)
        invariant events == Moved(m, Elements(s[..n]))
        invariant forall i | 0 <= i < n :: m[s[i]].timeout.time <= now
        invariant runningPriority <= 0 ==> continueLoop == old(continueLoop)
        decreases |lists[k]|
      {
        assert lists[k][0] == s[n] && s[n] in s;
        ElementsNext(s, n);
        MovedRest(m, Elements(s[..n]));
        if events[lists[k][0]].timeout.time > now { break; }
        MovedOne(m, Elements(s[..n]), s[n]);
        ExpireFirst(k);
        n := n + 1;
      }
    }

    /** The callback of a common-timeout list's timer: moves everything in the list that is due to the active queues
        and sets the timer again. */
    method CommonTimeoutCallback(k: nat, now: int)
      requires Safe() && owed == Some(k) && k < |lists|
      modifies this`events, this`count, this`countActive, this`eventQueue, this`activeQueues, this`heap, this`lists,
        this`continueLoop, this`owed
      ensures Safe() && owed == None && |activeQueues| == old(|activeQueues|)
      ensures |lists| == old(|lists|) && forall j | 0 <= j < |lists| && j != k :: lists[j] == old(lists[j])
      ensures exists n: nat | n <= old(|lists[k]|) :: lists[k] == old(lists[k])[n..]
      ensures forall e <- old(lists[k]) :: e in lists[k] <==> e in old(events) && old(events)[e].timeout.time > now
      ensures SameUsers(events, Moved(old(events), DueBy(old(events), Elements(old(lists[k])), now)))
      ensures runningPriority <= 0 ==> continueLoop == old(continueLoop)
    {
      ghost var s := lists[k];
      ghost var m := events;
      ListUsers(Value(), k);
      hide Structure, Covered, Scheduled;
      ghost var n := ExpireDue(k, now);
      DuePrefix(m, s, n, now);
      Rescheduled(Value(), k);
      if lists[k] != [] {
        CommonTimeoutSchedule(k, lists[k][0], now);
      }
      owed := None;
    }

    method ShiftHeap(off: int)
      requires Structure(Value())
      modifies this`events
      ensures events == Shift(old(events), heap, off)
    {
      ghost var b := Value();
      var rest := heap;
      while rest != {}
        invariant rest <= heap && events == Shift(b.events, heap - rest, off)
        decreases |rest|
      {
        var e :| e in rest;
        HeapEvent(b, e);
        events := events[e := Earlier(events[e], off)];
        rest := rest - {e};
      }
    }

    method ShiftList(k: nat, off: int)
      requires k < |lists| && Distinct(lists[k]) && forall e <- lists[k] :: e in events
      modifies this`events
      ensures events == Shift(old(events), Elements(lists[k]), off)
    {
      var s := lists[k];
      for i := 0 to |s|
        invariant events == Shift(old(events), Elements(s[..i]), off)
      {
        assert s[..i + 1] == s[..i] + [s[i]];
        events := events[s[i] := Earlier(events[s[i]], off)];
      }
      assert s[..|s|] == s;
    }

    method ShiftAll(off: int)
      requires Structure(Value())
      modifies this`events
      ensures Value() == Shifted(old(Value()), Waiting(old(Value())), off)
    {
      hide Structure;
      ghost var b := Value();
      ShiftHeap(off);
      WaitingIn(b);
      for i := 0 to |lists|
        invariant events == Shift(b.events, WaitingBelow(b, i), off)
      {
        ListUsers(b, i);
        WaitingSplit(b, i);
        ShiftList(i, off);
        ShiftTwice(b.events, WaitingBelow(b, i), Elements(lists[i]), off);
      }
    }

    /** If the clock has gone back since it was last looked at, everything that is due becomes due earlier, so that the
        time left to it is what it was. */
    method TimeoutCorrect(now: int)
      requires Safe()
      modifies this`events, this`eventTv
      ensures Safe() && eventTv == now && events.Keys == old(events).Keys
      ensures forall e <- events | now < old(eventTv) && old(events)[e].timed ::
        events[e].timeout.time - eventTv == old(events)[e].timeout.time - old(eventTv)
      ensures Value() == if now < old(eventTv) then Shifted(old(Value()), Waiting(old(Value())), old(eventTv) - now)
        else old(Value())
    {
      hide Structure, Covered, Shifted;
      if now < eventTv {
        ShiftedKeeps(Value(), eventTv - now, owed);
        ghost var was := Value();
        var off := eventTv - now;
        ShiftAll(off);
        ShiftedLeft(was, off);
      }
      eventTv := now;
    }

    /** The lock is free: all is in order, and if a callback of some priority is running, either no event of more
        importance is active or that callback is known to be the last of its round. */
    ghost predicate Ready()
      reads this
    {
      && Safe()
      && |durations| == |lists| <= MAX_COMMON_TIMEOUTS && |activeQueues| > 0 && runningPriority < |activeQueues|
      && (continueLoop || Before(runningPriority))
    }

    ghost predicate Before(p: int)
      reads this
    {
      forall j | 0 <= j < p && j < |activeQueues| :: activeQueues[j] == []
    }

    method EventAssign(e: EventId, internal: bool, persist: bool, watches: bool)
      requires Ready() && e.User? && e !in events
      modifies this`events
      ensures Ready() && events == old(events)[e := NewEvent(|activeQueues|, internal, persist, watches)]
    {
      hide Structure, Covered;
      var r := Event(if internal then 0 else |activeQueues| / 2, internal, persist, watches, false, false, false,
                     Tv(0, None), Tv(0, None), false);
      AssignedSafe(Value(), e, r, owed);
      events := events[e := r];
    }

    /** Gives an event another priority; refused while the event is active, or if there is no such priority. */
    method EventPrioritySet(e: EventId, priority: int) returns (ok: bool)
      requires Ready() && e in events && !events[e].internal
      modifies this`events
      ensures Ready() && ok == (!old(events[e].active) && 0 <= priority < |activeQueues|)
      ensures events == if ok then old(events)[e := old(events[e]).(priority := priority)] else old(events)
    {
      if events[e].active { return false; }
      if priority < 0 || priority >= |activeQueues| { return false; }
      var r := events[e].(priority := priority);
      assert EventOk(Value(), e);
      hide Structure, Covered;
      TouchedSafe(Value(), e, r, owed);
      events := events[e := r];
      ok := true;
    }

    /** The list of the timeouts of a given duration, which is made if there is none, unless there are too many or
        memory is wanting. */
    method EventBaseInitCommonTimeout(duration: int, oom: bool) returns (k: Option<nat>)
      requires Ready()
      modifies this`events, this`lists, this`durations
      ensures Ready() && old(durations) <= durations
      ensures k == None ==> durations == old(durations) && duration !in durations
      ensures k == None ==> oom || |durations| == MAX_COMMON_TIMEOUTS
      ensures !oom && old(|durations|) < MAX_COMMON_TIMEOUTS ==> k.Some?
      ensures k.Some? ==> k.value < |durations| && durations[k.value] == duration
      ensures duration in old(durations) ==> durations == old(durations)
      ensures old(lists) <= lists && forall e <- old(events) :: e in events && events[e] == old(events)[e]
      ensures Value() == if durations == old(durations) then old(Value()) else WithList(old(Value()))
      ensures durations == old(durations) || durations == old(durations) + [duration]
    {
      for i := 0 to |durations|
        invariant duration !in durations[..i]
      {
        if durations[i] == duration { return Some(i); }
      }
      if |durations| == MAX_COMMON_TIMEOUTS { return None; }
      if oom {
        var available: bool := *;
        if !available { return None; }
      }
      var r := Event(0, true, false, false, false, false, false, Tv(0, None), Tv(0, None), false);
      assert EventOk(Value(), Timer(|lists|));
      hide Structure, Covered;
      ListAddedSafe(Value(), r, owed);
      k := Some(|lists|);
      events := events[Timer(|lists|) := r];
      lists := lists + [[]];
      durations := durations + [duration];
    }

    method AddUser(e: EventId, tv: Option<Tv>, absolute: bool, now: int, fails: bool)
      requires Ready() && e.User? && AddOk(Value(), e, tv, absolute)
      modifies this`events, this`count, this`countActive, this`eventQueue, this`activeQueues, this`heap, this`lists
      ensures Ready() && Fewer(old(Value()), Value()) && |lists| == old(|lists|)
      ensures Value() == Added(old(Value()), e, tv, absolute, now, fails)
    {
      hide Structure, Covered, Added;
      AddedSafe(Value(), e, tv, absolute, now, fails, owed);
      AddedFewer(Value(), e, tv, absolute, now, fails);
      AddedKeeps(Value(), e, tv, absolute, now, fails);
      var ok := EventAdd(e, tv, absolute, now, fails);
    }

    /** An event whose timeout has come is added again before its callback has run: its descriptor was taken off the
        queues when the timeout came, and is not watched again. */
    method AddExpired(e: EventId, tv: Tv, now: int, fails: bool)
      requires Safe() && e.User? && e in heap && e in events && TvOk(Value(), e, tv)
      requires events[e].watches && events[e].timeout.time <= now
      modifies this`events, this`count, this`countActive, this`eventQueue, this`activeQueues, this`heap, this`lists,
        this`continueLoop
      ensures Structure(Value()) && e in events && events[e].watches && events[e].timed
      ensures !events[e].inserted && !events[e].active
    {
      hide Structure, Covered, SafeBase, Added;
      SafeStructure(Value());
      TimeoutProcess(now);
      SafeStructure(Value());
      assert events[e].active && events[e].byTimeout && !events[e].inserted;
      AddedIsDue(Value(), e, tv, false, now, fails);
      AddedKeeps(Value(), e, Some(tv), false, now, fails);
      var ok := EventAdd(e, Some(tv), false, now, fails);
    }

    /** One operation of another thread or of a callback; one that its own checks refuse changes nothing. */
    method Exec(op: Op)
      requires Ready()
      modifies this`events, this`count, this`countActive, this`eventQueue, this`activeQueues, this`heap, this`lists,
        this`durations, this`continueLoop, this`stop
      ensures Ready() && |activeQueues| == old(|activeQueues|) && |lists| >= old(|lists|)
      ensures runningPriority <= 0 ==> continueLoop == old(continueLoop)
      ensures Does(old(Value()), op, Value()) && stop == (old(stop) || op.Break?)
    {
      hide Structure, Covered, Added, Deleted, Activated;
      ghost var b := Value();
      match op
      case Assign(id, internal, persist, watches) =>
        if User(id) !in events { EventAssign(User(id), internal, persist, watches); }
      case SetPriority(id, priority) =>
        if User(id) in events && !events[User(id)].internal { var ok := EventPrioritySet(User(id), priority); }
      case Add(id, tv, now, fails) =>
        if AddOk(Value(), User(id), tv, false) {
          AddUser(User(id), tv, false, now, fails);
        }
      case Del(id) =>
        if User(id) in events {
          DeletedSafe(b, User(id), owed);
          DeletedFewer(b, User(id));
          DeletedQueues(b, User(id));
          EventDel(User(id));
        }
      case Activate(id, byTimeout) =>
        if User(id) in events {
          ActivatedSafe(b, User(id), byTimeout, owed);
          ActivatedFacts(b, User(id), byTimeout);
          ActivatedBelow(b, User(id), byTimeout);
          EventActive(User(id), byTimeout);
        }
      case InitCommonTimeout(duration, oom) =>
        var k := EventBaseInitCommonTimeout(duration, oom);
      case Break =>
        stop := true;
    }

    /** What happens while the lock is free, in an order that nobody controls. */
    method Unlocked() returns (ghost script: seq<Op>, ghost path: seq<Base>)
      requires Ready()
      modifies this`events, this`count, this`countActive, this`eventQueue, this`activeQueues, this`heap, this`lists,
        this`durations, this`continueLoop, this`stop
      ensures Ready() && |activeQueues| == old(|activeQueues|) && |lists| >= old(|lists|)
      ensures runningPriority <= 0 ==> continueLoop == old(continueLoop)
      ensures Leads(path, script) && path[0] == old(Value()) && path[|script|] == Value()
      ensures stop == (old(stop) || exists op <- script :: op.Break?)
    {
      hide Safe, Does;
      var ops: seq<Op> := *;
      script, path := [], [Value()];
      for i := 0 to |ops|
        invariant Ready() && |activeQueues| == old(|activeQueues|) && |lists| >= old(|lists|)
        invariant runningPriority <= 0 ==> continueLoop == old(continueLoop)
        invariant script == ops[..i] && Leads(path, script) && path[0] == old(Value()) && path[i] == Value()
        invariant stop == (old(stop) || exists op <- script :: op.Break?)
      {
        Exec(ops[i]);
        script, path := script + [ops[i]], path + [Value()];
      }
    }

    /** A persistent event is due again one interval after the time it was due, or after now if that has passed. */
    method PersistClosure(e: EventId, now: int, fails: bool)
      requires Ready() && e.User? && e in events && events[e].persist
      modifies this`events, this`count, this`countActive, this`eventQueue, this`activeQueues, this`heap, this`lists
      ensures Ready() && Fewer(old(Value()), Value()) && |lists| == old(|lists|)
      ensures Value() == if NoInterval(old(events[e])) then old(Value())
        else Added(old(Value()), e, Some(NextRun(old(events[e]), now)), true, now, fails)
    {
      ghost var b := Value();
      var r := events[e];
      PersistOk(b, e, now);
      hide SafeBase, Structure, Added, NextRun, Fewer;
      assert Fewer(b, b) by { FewerSame(b); }
      if r.interval.time != 0 || r.interval.list.Some? {
        var tv := RunAt(r, now);
        AddUser(e, Some(tv), true, now, fails);
      }
    }

    method RunAt(r: Event, now: int) returns (tv: Tv)
      ensures tv == NextRun(r, now)
    {
      var relativeTo := if r.byTimeout then r.timeout.time else now;
      var runAt := relativeTo + r.interval.time;
      if runAt < now {
        runAt := now + r.interval.time;
      }
      tv := Tv(runAt, if r.timeout.list.Some? then r.interval.list else None);
    }

    /** Takes the first event off queue p. */
    method TakeFirst(p: nat) returns (e: EventId)
      requires Ready() && owed == None && runningPriority == p < |activeQueues| && activeQueues[p] != [] && Before(p)
      modifies this`events, this`count, this`countActive, this`eventQueue, this`activeQueues, this`heap, this`lists,
        this`owed
      ensures Ready() && |activeQueues| == old(|activeQueues|) && Before(p) && e == old(activeQueues[p][0])
      ensures e in old(events) && Value() == Taken(old(Value()), e)
      ensures e in events && e in old(events) && events[e].internal == old(events)[e].internal
      ensures owed == (if e.Timer? then Some(e.k) else None) && (e.Timer? ==> e.k < |lists|)
      ensures p > 0 ==> e.User? && !events[e].internal
    {
      e := activeQueues[p][0];
      ghost var b := Value();
      assert QueueOk(b, p) && EventOk(b, e);
      hide SafeBase, Structure, Removed, Deleted;
      if events[e].persist {
        RemovedFewer(b, e, Active);
        RemovedFacts(b, e, Active);
        RemovedSafe(b, e, Active, owed);
        QueueRemove(e, Active);
      } else {
        DeletedFewer(b, e);
        DeletedQueues(b, e);
        DeletedKeeps(b, e);
        if e.Timer? {
          TimerDeletedSafe(b, e.k);
          owed := Some(e.k);
        } else {
          DeletedSafe(b, e, owed);
        }
        EventDel(e);
      }
    }

    /** The callback of e, before, during and after which the lock is free for others. */
    method RunCallback(e: EventId)
      requires Ready() && owed == (if e.Timer? then Some(e.k) else None) && (e.Timer? ==> e.k < |lists|)
      requires e.Timer? ==> runningPriority == 0
      modifies this`events, this`count, this`countActive, this`eventQueue, this`activeQueues, this`heap, this`lists,
        this`durations, this`continueLoop, this`stop, this`owed
      ensures Ready() && owed == None && |activeQueues| == old(|activeQueues|)
      ensures runningPriority <= 0 ==> continueLoop == old(continueLoop)
    {
      hide SafeBase, Leads;
      ghost var script, path := Unlocked();
      if e.Timer? {
        var now: int := *;
        CommonTimeoutCallback(e.k, now);
        script, path := Unlocked();
      }
    }

    /** Takes the first event off queue p and runs its callback. */
    method RunFirst(p: nat) returns (internal: bool)
      requires Ready() && owed == None && runningPriority == p < |activeQueues| && activeQueues[p] != [] && Before(p)
      requires LogOk(log)
      modifies this
      ensures Ready() && owed == None && runningPriority == p < |activeQueues| == old(|activeQueues|) && LogOk(log)
      ensures old(activeQueues[p][0]) in old(events) && internal == old(events)[old(activeQueues[p][0])].internal
      ensures |log| == old(|log|) + 1 && log[..old(|log|)] == old(log)
        && log[old(|log|)].event == old(activeQueues[p][0])
      ensures log[old(|log|)].internal == internal && log[old(|log|)].priority == p
      ensures var l := log[old(|log|)]; l.base == Begun(old(Value()), l.event, l.now, l.fails)
      ensures p == 0 ==> continueLoop == old(continueLoop)
      ensures p > 0 ==> !internal
      ensures eventTv == old(eventTv)
    {
      hide SafeBase, Taken, Added;
      var e := TakeFirst(p);
      internal := events[e].internal;
      var now: int, fails: bool := *, *;
      if events[e].persist && e.User? {
        PersistClosure(e, now, fails);
      }
      log := log + [Start(e, internal, p, Value(), now, fails)];
      RunCallback(e);
    }

    /** Runs the callbacks of queue p, `rounds` of them at most, until the queue is empty, the loop is told to stop, or
        a more important event has become active.  Returns -1 if the loop is to stop or the rounds are used up, and
        otherwise the number of the application's callbacks. */
    method ProcessActiveSingleQueue(p: nat, rounds: nat) returns (n: int)
      requires Ready() && owed == None && runningPriority == p < |activeQueues| && activeQueues[p] != [] && Before(p)
      requires !continueLoop && LogOk(log)
      modifies this
      ensures Ready() && owed == None && runningPriority == p < |activeQueues| == old(|activeQueues|) && LogOk(log)
      ensures n == 0 ==> p == 0 && activeQueues[0] == [] && !continueLoop
      ensures old(|log|) <= |log| <= old(|log|) + rounds && log[..old(|log|)] == old(log)
      ensures rounds > 0 ==> |log| > old(|log|) && StartsWith(old(|log|), old(Value()), p)
      ensures forall i | old(|log|) <= i < |log| :: log[i].priority == p
      ensures n >= 0 ==> n == Users(log[old(|log|)..]) && !stop && (activeQueues[p] == [] || continueLoop)
      ensures n < 0 ==> n == -1 && (stop || |log| == old(|log|) + rounds)
      ensures rounds == 0 ==> n < 0
      ensures eventTv == old(eventTv)
    {
      n := 0;
      var left: nat := rounds;
      hide SafeBase, Begun;
      assert log[|log|..] == [];
      while activeQueues[p] != []
        invariant Ready() && owed == None && runningPriority == p < |activeQueues| == old(|activeQueues|) && LogOk(log)
        invariant n >= 0 && !continueLoop && (p > 0 && n == 0 ==> activeQueues[p] != [])
        invariant old(|log|) + rounds == |log| + left && left <= rounds && log[..old(|log|)] == old(log)
        invariant left == rounds ==> Value() == old(Value())
        invariant left < rounds ==> !stop && StartsWith(old(|log|), old(Value()), p)
        invariant forall i | old(|log|) <= i < |log| :: log[i].priority == p
        invariant n == Users(log[old(|log|)..]) && eventTv == old(eventTv)
        decreases left
      {
        if left == 0 { return -1; }
        left := left - 1;
        ghost var was := log;
        var internal := RunFirst(p);
        assert log[old(|log|)..][..|was| - old(|log|)] == was[old(|log|)..];
        if !internal { n := n + 1; }
        if stop { return -1; }
        if continueLoop { break; }
      }
    }

    /** The callback number i started from b, as the first of queue p. */
    ghost predicate StartsWith(i: nat, b: Base, p: nat)
      reads this`log
    {
      && i < |log| && p < |b.activeQueues| && b.activeQueues[p] != []
      && var l := log[i];
         && l.event == b.activeQueues[p][0] && l.event in b.events && l.priority == p
         && l.internal == b.events[l.event].internal && l.base == Begun(b, l.event, l.now, l.fails)
    }

    /** Runs the callbacks of the most important active events.  If any event is active, the first of the first queue
        that is not empty is run. */
    method ProcessActive(rounds: nat) returns (n: int)
      requires Ready() && owed == None && runningPriority == -1 && !continueLoop && LogOk(log)
      modifies this
      ensures Ready() && owed == None && runningPriority == -1 && LogOk(log)
      ensures |log| >= old(|log|) && log[..old(|log|)] == old(log)
      ensures rounds > 0 && Foremost(old(activeQueues)) < old(|activeQueues|) ==>
        StartsWith(old(|log|), old(Value()), Foremost(old(activeQueues)))
      ensures Foremost(old(activeQueues)) == old(|activeQueues|) ==> n == 0 && log == old(log)
      ensures n == 0 ==> forall j | 0 <= j < |activeQueues| :: activeQueues[j] == []
      ensures n > 0 ==>
        && |log| > old(|log|) && log[|log| - 1].priority < |activeQueues|
        && (activeQueues[log[|log| - 1].priority] == [] || continueLoop)
      ensures n < 0 ==> n == -1 && (stop || |log| >= old(|log|) + rounds)
      ensures eventTv == old(eventTv)
    {
      hide SafeBase, Begun;
      n := 0;
      for i := 0 to |activeQueues|
        invariant Ready() && owed == None && !continueLoop && LogOk(log) && |activeQueues| == old(|activeQueues|)
        invariant n == 0 && runningPriority < i && Before(i)
        invariant |log| >= old(|log|) && log[..old(|log|)] == old(log)
        invariant |log| == old(|log|) ==> Value() == old(Value()) && runningPriority == -1
        invariant |log| > old(|log|) ==> Foremost(old(activeQueues)) < old(|activeQueues|)
        invariant |log| > old(|log|) ==> StartsWith(old(|log|), old(Value()), Foremost(old(activeQueues)))
        invariant eventTv == old(eventTv)
      {
        if activeQueues[i] != [] {
          runningPriority := i;
          ghost var was := log;
          assert Value() == old(Value()) ==> Foremost(old(activeQueues)) == i;
          n := ProcessActiveSingleQueue(i, rounds);
          assert |was| > old(|log|) ==> log[old(|log|)] == log[..|was|][old(|log|)];
          if n < 0 {
            runningPriority := -1;
            return -1;
          }
          if n > 0 { break; }
        }
      }
      runningPriority := -1;
    }

    /** One turn of the event loop.  If it has not been told to stop, it corrects the timeouts, makes what is due
        active, and starts a callback if then anything is active. */
    method LoopOnce(before: int, now: int, rounds: nat)
      returns (ghost turn: Turn, ghost script: seq<Op>, ghost path: seq<Base>)
      requires Ready() && owed == None && runningPriority == -1 && LogOk(log)
      modifies this
      ensures Ready() && owed == None && runningPriority == -1 && LogOk(log)
      ensures |log| >= old(|log|) && log[..old(|log|)] == old(log)
      ensures turn.stopped == old(stop) && turn.start == old(Value()) && turn.tv == old(eventTv)
        && turn.from == old(|log|)
      ensures !turn.stopped ==> eventTv == before && turn.Corrects(before) && turn.Expires(now)
      ensures !turn.stopped ==> Leads(path, script) && path[0] == turn.corrected && path[|script|] == turn.polled
      ensures !turn.stopped && rounds > 0 && Foremost(turn.due.activeQueues) < |turn.due.activeQueues| ==>
        StartsWith(turn.from, turn.due, Foremost(turn.due.activeQueues))
      ensures turn.stopped || Foremost(turn.due.activeQueues) == |turn.due.activeQueues| ==> log == old(log)
    {
      hide SafeBase, Shifted, Begun, DueBy, Moved, Leads;
      turn, script, path := Turn(stop, Value(), eventTv, Value(), Value(), Value(), |log|), [], [];
      continueLoop := false;
      if stop { return; }
      TimeoutCorrect(before);
      turn := turn.(corrected := Value());
      script, path := Unlocked();
      turn := turn.(polled := Value());
      TimeoutProcess(now);
      turn := turn.(due := Value());
      SafeStructure(Value());
      ActiveCounted(Value());
      if countActive > 0 {
        var n := ProcessActive(rounds);
      }
    }

    /** Any number of turns of the loop, at any times, with anything happening in between. */
    method Dispatch(times: seq<(int, int, nat)>) returns (ghost turns: seq<Turn>)
      requires Ready() && owed == None && runningPriority == -1 && LogOk(log)
      modifies this
      ensures Ready() && owed == None && runningPriority == -1 && LogOk(log)
      ensures |turns| == |times| && forall i | 0 <= i < |times| :: TurnOk(turns[i], times[i])
      ensures times != [] ==> !turns[0].stopped && turns[0].start == old(Value()) && turns[0].tv == old(eventTv)
    {
      hide SafeBase, Turn.Corrects, Turn.Expires, Leads;
      turns := [];
      stop := false;
      for i := 0 to |times|
        invariant Ready() && owed == None && runningPriority == -1 && LogOk(log)
        invariant |turns| == i && forall j | 0 <= j < i :: TurnOk(turns[j], times[j])
        invariant i == 0 ==> !stop && Value() == old(Value()) && eventTv == old(eventTv)
        invariant i > 0 ==> !turns[0].stopped && turns[0].start == old(Value()) && turns[0].tv == old(eventTv)
      {
        ghost var was := log;
        ghost var turn, script, path := LoopOnce(times[i].0, times[i].1, times[i].2);
        assert forall j | 0 <= j < |was| :: log[..|was|][j] == log[j];
        turns := turns + [turn];
        script, path := Unlocked();
      }
    }

    /** A turn that was not told to stop has corrected the timeouts and made active what was due, and if then anything
        was active, its first callback is that of the first event of the first queue that was not empty. */
    ghost predicate TurnOk(turn: Turn, time: (int, int, nat))
      reads this`log
    {
      !turn.stopped ==>
        && turn.Corrects(time.0) && turn.Expires(time.1)
        && (time.2 > 0 && Foremost(turn.due.activeQueues) < |turn.due.activeQueues| ==>
              StartsWith(turn.from, turn.due, Foremost(turn.due.activeQueues)))
    }
  }

  /** The states that a turn of the loop goes through: at its start, when the last look at the clock was `tv`, with its
      timeouts corrected, after waiting, and with what is due active.  Its callbacks are those from number `from` on. */
  datatype Turn = Turn(stopped: bool, start: Base, tv: int, corrected: Base, polled: Base, due: Base, from: nat) {
    ghost predicate Corrects(before: int) {
      corrected == if before < tv then Shifted(start, Waiting(start), tv - before) else start
    }

    ghost predicate Expires(now: int) {
      && due.heap == polled.heap - DueBy(polled.events, polled.heap, now)
      && due.events == Moved(polled.events, DueBy(polled.events, polled.heap, now))
    }
  }

  predicate InHand(b: Base, timer: EventId, time: int) {
    || (timer in b.heap && timer in b.events && b.events[timer].timeout.time <= time)
    || (|b.activeQueues| > 0 && timer in b.activeQueues[0])
  }

  /** Whenever no timer's callback is running, every event that waits for a time is in the heap, or its list's timer is
      in the heap and due no later, or that timer is among the active events of the highest importance. */
  lemma NeverLost(b: Base, e: EventId)
    requires SafeBase(b, None) && e in b.events && b.events[e].timed
    ensures var k := b.events[e].timeout.list;
      if k.None? then e in b.heap
      else k.value < |b.lists| && e in b.lists[k.value] && InHand(b, Timer(k.value), b.events[e].timeout.time)
  {
    assert EventOk(b, e);
    if e !in b.heap {
      var k := b.events[e].timeout.list.value;
      ListUsers(b, k);
      assert EventOk(b, Timer(k)) && Covered(b, None, k);
      assert b.lists[k][0] in b.lists[k];
    }
  }

  /** Once the heap holds nothing that is due at `now`, the timer of every list with a due event is about to run. */
  lemma DueIsActive(b: Base, e: EventId, now: int)
    requires SafeBase(b, None) && e in b.events && b.events[e].timed && b.events[e].timeout.time <= now
    requires forall f <- b.heap :: f in b.events && b.events[f].timeout.time > now
    ensures var k := b.events[e].timeout.list; k.Some? && |b.activeQueues| > 0 && Timer(k.value) in b.activeQueues[0]
  {
    NeverLost(b, e);
  }

  /** The events in the heap and in the first i common-timeout lists. */
  ghost function WaitingBelow(b: Base, i: nat): set<EventId> {
    set e | e in b.events && b.events[e].timed
      && (b.events[e].timeout.list.Some? ==> b.events[e].timeout.list.value < i)
  }

  lemma WaitingIn(b: Base)
    requires Structure(b)
    ensures WaitingBelow(b, 0) == b.heap && WaitingBelow(b, |b.lists|) == Waiting(b)
  {
    forall e
      ensures (e in WaitingBelow(b, 0) <==> e in b.heap) && (e in WaitingBelow(b, |b.lists|) <==> e in Waiting(b))
    {
      assert EventOk(b, e);
    }
  }

  lemma WaitingSplit(b: Base, i: nat)
    requires Structure(b) && i < |b.lists|
    ensures WaitingBelow(b, i + 1) == WaitingBelow(b, i) + Elements(b.lists[i])
    ensures WaitingBelow(b, i) !! Elements(b.lists[i])
  {
    ListUsers(b, i);
    forall e ensures e in WaitingBelow(b, i + 1) <==> e in WaitingBelow(b, i) || e in b.lists[i] {
      assert EventOk(b, e);
    }
  }

  lemma ShiftTwice(m: map<EventId, Event>, some: set<EventId>, more: set<EventId>, off: int)
    requires some !! more
    ensures Shift(Shift(m, some, off), more, off) == Shift(m, some + more, off)
  {
  }

  lemma ListUsers(b: Base, k: nat)
    requires Structure(b) && k < |b.lists|
    ensures Timer(k) in b.events && Distinct(b.lists[k]) && Sorted(b.events, b.lists[k])
    ensures forall e <- b.lists[k] ::
      e.User? && e in b.events && b.events[e].timed && b.events[e].timeout.list == Some(k)
  {
    assert ListOk(b, k);
    forall e | e in b.lists[k] ensures e.User? { assert EventOk(b, e); }
    hide Structure;
  }

  /** What is left to do for a list whose timer's callback is running. */
  lemma Rescheduled(b: Base, k: nat)
    requires SafeBase(b, Some(k)) && k < |b.lists|
    ensures var c := if b.lists[k] == [] then b else Scheduled(b, b.lists[k][0], k);
      && SafeBase(c, None) && c.lists == b.lists && c.events.Keys == b.events.Keys
      && |c.activeQueues| == |b.activeQueues|
      && forall e | e in b.events && e.User? :: c.events[e] == b.events[e]
  {
    var c := if b.lists[k] == [] then b else Scheduled(b, b.lists[k][0], k);
    ListUsers(b, k);
    forall j: nat ensures Covered(c, None, j) {
      assert Covered(b, Some(k), j);
      if b.lists[k] != [] { ScheduledCovers(b, b.lists[k][0], k, None, j); }
    }
    if b.lists[k] != [] {
      var e := b.lists[k][0];
      var tv, i := Tv(b.events[e].timeout.time, None), b.events[Timer(k)].interval;
      ScheduledKeeps(b, e, k);
      hide Structure, Timed, Covered;
      TimerLists(b, Timer(k), tv, i);
      TimedFewer(b, Timer(k), tv, i);
    }
  }

  lemma HeapEvent(b: Base, e: EventId)
    requires Structure(b) && e in b.heap
    ensures e in b.events && b.events[e].timed && b.events[e].timeout.list.None?
  {
    assert EventOk(b, e);
  }
}
