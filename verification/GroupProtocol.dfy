/** The rate limit of a group of bufferevents that several threads use at once.

    The lock of the group nests inside the locks of its members, so a thread that works on the whole group only
    tries the members' locks and leaves what it could not lock for later.  A step is what one thread does while
    a lock keeps all others out. */
module GroupProtocol {
  import opened Basics
  import opened TokenBuckets
  import opened Bufferevents

  type Bev = nat
  type Thread = nat

  /** A recursive lock: the thread that has it and how many times. */
  datatype Hold = Hold(thread: Thread, depth: nat)

  /** What a thread is in the middle of. */
  datatype Activity =
    | Resting
    /** It has joined b to the group and let go of the group; `todo` is what it still has to suspend. */
    | Joining(bev: Bev, todo: seq<Dir>)
    /** It has taken b out of the group; `todo` is what it still has to resume. */
    | Leaving(bev: Bev, todo: seq<Dir>, free: bool)
    /** It holds the group's lock in order to find out how much b may transfer. */
    | Asking(bev: Bev, dir: Dir)
    /** It goes through the members in order, suspending each; `at` is the next one. */
    | Suspending(dir: Dir, at: nat)
    /** It goes through the members from `first` to the end and, once wrapped, from the start up to `first`.
        `seen` are the members it has visited, `again` whether the lock of one of them was taken. */
    | Unsuspending(dir: Dir, refill: bool, first: nat, wrapped: bool, at: nat, again: bool, seen: seq<Bev>)
    /** It runs the callback of the refill timer and is about to look at one direction. */
    | Refilling(dir: Dir)

  datatype State = State(
    cfg: Cfg,
    minShare: nat,
    levels: Levels,
    members: seq<Bev>,
    count: int,
    suspended: set<Dir>,
    pending: set<Dir>,
    owner: Option<Thread>,
    held: map<Bev, Hold>,
    /** The members' own flags: those with BEV_SUSPEND_BW_GROUP set. */
    blocked: set<(Bev, Dir)>,
    freed: set<Bev>,
    activities: map<Thread, Activity>)

  datatype Step =
    | Lock(thread: Thread, bev: Bev)
    | Unlock(thread: Thread, bev: Bev)
    | Join(thread: Thread, bev: Bev)
    | Leave(thread: Thread, bev: Bev, unsuspend: bool)
    | Ask(thread: Thread, bev: Bev, dir: Dir)
    /** Bytes went through a member, whose lock the thread has; `pick` is the random number. */
    | Spend(thread: Thread, bev: Bev, dir: Dir, bytes: int, pick: nat)
    /** The application takes bytes off the group's limit. */
    | SpendGroup(thread: Thread, dir: Dir, bytes: int, pick: nat)
    | Refill(thread: Thread, tick: nat)
    /** The next step of what the thread is in the middle of. */
    | Go(thread: Thread, pick: nat)

  function ActivityOf(s: State, t: Thread): Activity {
    if t in s.activities then s.activities[t] else Resting
  }

  function At(s: State, t: Thread, a: Activity): State {
    s.(activities := s.activities[t := a])
  }

  function Limit(s: State, d: Dir): int {
    LimitOf(s.levels, d)
  }

  function WithLimit(b: Levels, d: Dir, n: int): Levels {
    if d == Reading then b.(readLimit := n) else b.(writeLimit := n)
  }

  /** Whether a recursive lock would be granted. */
  predicate CanLock(s: State, t: Thread, b: Bev) {
    b in s.held ==> s.held[b].thread == t
  }

  predicate HeldBy(s: State, t: Thread, b: Bev) {
    b in s.held && s.held[b].thread == t && s.held[b].depth > 0
  }

  function Locked(s: State, t: Thread, b: Bev): map<Bev, Hold> {
    s.held[b := Hold(t, if b in s.held then s.held[b].depth + 1 else 1)]
  }

  function Unlocked(s: State, b: Bev): map<Bev, Hold> {
    if b in s.held && s.held[b].depth > 1 then s.held[b := s.held[b].(depth := s.held[b].depth - 1)] else s.held - {b}
  }

  /** The list without any occurrence of `b`. */
  function WithoutAll(ms: seq<Bev>, b: Bev): (r: seq<Bev>)
    ensures forall c :: c in r <==> c in ms && c != b
  {
    if ms == [] then [] else if ms[0] == b then WithoutAll(ms[1..], b) else [ms[0]] + WithoutAll(ms[1..], b)
  }

  predicate Enabled(s: State, step: Step) {
    var a := ActivityOf(s, step.thread);
    match step
    case Lock(t, b) => a == Resting && CanLock(s, t, b) && b !in s.freed
    case Unlock(t, b) => a == Resting && HeldBy(s, t, b)
    case Join(t, b) => a == Resting && CanLock(s, t, b) && b !in s.freed && s.owner == None && b !in s.members
    case Leave(t, b, _) => a == Resting && CanLock(s, t, b) && b !in s.freed && s.owner == None
    case Ask(t, b, _) => a == Resting && HeldBy(s, t, b) && b in s.members && s.owner == None
    case Spend(t, b, d, n, _) =>
      a == Resting && HeldBy(s, t, b) && b in s.members && s.owner == None
        && LevelsOk(WithLimit(s.levels, d, Limit(s, d) - n), s.cfg)
    case SpendGroup(t, d, n, _) => a == Resting && s.owner == None
      && LevelsOk(WithLimit(s.levels, d, Limit(s, d) - n), s.cfg)
    case Refill(t, tick) => a == Resting && s.owner == None && tick < TWO32
    case Go(t, _) => a != Resting
  }

  /** Starts to suspend the whole group. */
  function BeginSuspend(s: State, t: Thread, d: Dir): State {
    At(s.(suspended := s.suspended + {d}, pending := s.pending - {d}, owner := Some(t)), t, Suspending(d, 0))
  }

  /** Starts to resume the whole group, from a random member on. */
  function BeginUnsuspend(s: State, t: Thread, d: Dir, refill: bool, pick: nat): State {
    var first := if |s.members| == 0 then 0 else pick % |s.members|;
    At(s.(suspended := s.suspended - {d}, owner := Some(t)), t, Unsuspending(d, refill, first, false, first, false, []))
  }

  function Release(s: State, t: Thread): State {
    At(s.(owner := None), t, Resting)
  }

  /** What follows when the refill callback is done with d. */
  function RefillNext(s: State, t: Thread, d: Dir): State {
    if d == Reading then At(s, t, Refilling(Writing)) else Release(s, t)
  }

  /** One turn of the loop over all members, or what follows the loop. */
  function UnsuspendNext(s: State, t: Thread): State
    requires ActivityOf(s, t).Unsuspending?
  {
    var a := ActivityOf(s, t);
    if MoreToVisit(s, a) then
      var b := s.members[a.at];
      var next := a.(at := a.at + 1, seen := a.seen + [b]);
      if CanLock(s, t, b) then At(s.(blocked := s.blocked - {(b, a.dir)}), t, next) else At(s, t, next.(again := true))
    else if !a.wrapped then
      At(s, t, a.(wrapped := true, at := 0))
    else
      var done := s.(pending := if a.again then s.pending + {a.dir} else s.pending - {a.dir});
      if a.refill then RefillNext(done, t, a.dir) else Release(done, t)
  }

  function GoOn(s: State, t: Thread, pick: nat): State {
    match ActivityOf(s, t)
    case Resting => s
    case Joining(b, todo) =>
      if todo == [] then At(s.(held := Unlocked(s, b)), t, Resting)
      else At(s.(blocked := s.blocked + {(b, todo[0])}), t, Joining(b, todo[1..]))
    case Leaving(b, todo, free) =>
      if todo != [] then At(s.(blocked := s.blocked - {(b, todo[0])}), t, Leaving(b, todo[1..], free))
      else if free then At(s.(held := s.held - {b}, freed := s.freed + {b}), t, Resting)
      else At(s.(held := Unlocked(s, b)), t, Resting)
    case Asking(b, d) =>
      Release(if d in s.suspended then s.(blocked := s.blocked + {(b, d)}) else s, t)
    case Suspending(d, at) =>
      if at >= |s.members| then Release(s, t)
      else if CanLock(s, t, s.members[at]) then
        At(s.(blocked := s.blocked + {(s.members[at], d)}), t, Suspending(d, at + 1))
      else At(s, t, Suspending(d, at + 1))
    case Unsuspending(_, _, _, _, _, _, _) => UnsuspendNext(s, t)
    case Refilling(d) =>
      if d in s.pending || (d in s.suspended && Limit(s, d) >= s.minShare) then BeginUnsuspend(s, t, d, true, pick)
      else RefillNext(s, t, d)
  }

  function Next(s: State, step: Step): State {
    match step
    case Lock(t, b) => s.(held := Locked(s, t, b))
    case Unlock(t, b) => s.(held := Unlocked(s, b))
    case Join(t, b) =>
      var todo := (if Reading in s.suspended then [Reading] else [])
        + (if Writing in s.suspended then [Writing] else []);
      At(s.(held := Locked(s, t, b), members := s.members + [b], count := s.count + 1), t, Joining(b, todo))
    case Leave(t, b, unsuspend) =>
      var out := if b in s.members then s.(members := WithoutAll(s.members, b), count := s.count - 1) else s;
      At(out.(held := Locked(s, t, b)), t, Leaving(b, if unsuspend then [Reading, Writing] else [], !unsuspend))
    case Ask(t, b, d) => At(s.(owner := Some(t)), t, Asking(b, d))
    case Spend(t, b, d, n, pick) =>
      var paid := s.(levels := WithLimit(s.levels, d, Limit(s, d) - n));
      if Limit(paid, d) <= 0 then BeginSuspend(paid, t, d)
      else if d in s.suspended then BeginUnsuspend(paid, t, d, false, pick)
      else paid
    case SpendGroup(t, d, n, pick) =>
      var paid := s.(levels := WithLimit(s.levels, d, Limit(s, d) - n));
      if Limit(s, d) > 0 && Limit(paid, d) <= 0 then BeginSuspend(paid, t, d)
      else if Limit(s, d) <= 0 && Limit(paid, d) > 0 then BeginUnsuspend(paid, t, d, false, pick)
      else paid
    case Refill(t, tick) => At(s.(levels := Updated(s.levels, s.cfg, tick), owner := Some(t)), t, Refilling(Reading))
    case Go(t, pick) => GoOn(s, t, pick)
  }

  predicate InGroup(a: Activity) {
    a.Asking? || a.Suspending? || a.Unsuspending? || a.Refilling?
  }

  /** What the loop over all members has visited at each point. */
  predicate LoopOk(ms: seq<Bev>, a: Activity)
    requires a.Unsuspending?
  {
    && a.first <= |ms|
    && (a.first == |ms| ==> ms == [])
    && (if a.wrapped then a.at <= a.first && a.seen == ms[a.first..] + ms[..a.at]
        else a.first <= a.at <= |ms| && a.seen == ms[a.first..a.at])
  }

  predicate ThreadOk(s: State, t: Thread) {
    var a := ActivityOf(s, t);
    && (InGroup(a) <==> s.owner == Some(t))
    && (a.Joining? ==> a.bev in s.members && HeldBy(s, t, a.bev))
    && (a.Leaving? ==> a.bev !in s.members && a.bev !in s.freed && HeldBy(s, t, a.bev))
    && (a.Asking? ==> a.bev in s.members && HeldBy(s, t, a.bev))
    && (a.Suspending? ==> a.dir in s.suspended)
    && (a.Unsuspending? ==> a.dir !in s.suspended && LoopOk(s.members, a))
  }

  /** Thread t is about to block member b because the group was suspended when it joined. */
  predicate WillBlock(s: State, b: Bev, d: Dir) {
    b in s.held && var a := ActivityOf(s, s.held[b].thread); a.Joining? && a.bev == b && d in a.todo
  }

  /** Somebody is still going to resume b, or will free it. */
  predicate WillGo(s: State, b: Bev, d: Dir) {
    b in s.held && var a := ActivityOf(s, s.held[b].thread); a.Leaving? && a.bev == b && (a.free || d in a.todo)
  }

  /** The loop that resumes all members is under way. */
  predicate InLoop(s: State, d: Dir) {
    s.owner.Some? && var a := ActivityOf(s, s.owner.value); a.Unsuspending? && a.dir == d
  }

  /** Why a member may be blocked: its group is suspended, a resumption is still owed, or the loop that resumes the
      members has not come to it yet or is going to be repeated. */
  predicate Cause(s: State, b: Bev, d: Dir) {
    if InLoop(s, d) then var a := ActivityOf(s, s.owner.value); a.again || b !in a.seen
    else d in s.suspended || d in s.pending
  }

  predicate BevOk(s: State, b: Bev, d: Dir) {
    && (b in s.members && ((b, d) in s.blocked || WillBlock(s, b, d)) ==> Cause(s, b, d))
    && (b !in s.members && (b, d) in s.blocked ==> b in s.freed || WillGo(s, b, d))
  }

  /** An exhausted group is suspended, and a suspended one owes nothing. */
  predicate DirOk(s: State, d: Dir) {
    && (d in s.pending ==> d !in s.suspended)
    && (s.minShare > 0 && Limit(s, d) <= 0 ==> d in s.suspended)
  }

  ghost predicate Core(s: State) {
    && LevelsOk(s.levels, s.cfg)
    && Distinct(s.members) && s.count == |s.members|
    && (forall b <- s.freed :: b !in s.members && b !in s.held)
    && (forall b <- s.held :: s.held[b].depth > 0)
    && (forall t :: ThreadOk(s, t))
    && (forall b, d :: BevOk(s, b, d))
  }

  ghost predicate Inv(s: State) {
    Core(s) && forall d :: DirOk(s, d)
  }

  predicate Initial(s: State) {
    && CfgOk(s.cfg) && s.levels.readLimit == s.cfg.readRate && s.levels.writeLimit == s.cfg.writeRate
    && s.levels.lastUpdated < TWO32
    && s.members == [] && s.count == 0 && s.suspended == {} == s.pending && s.owner == None
    && s.held == map[] && s.blocked == {} && s.freed == {} && s.activities == map[]
  }

  lemma InitialInv(s: State)
    requires Initial(s)
    ensures Inv(s)
  {
  }

  lemma LockKeeps(s: State, t: Thread, b: Bev)
    requires Inv(s) && Enabled(s, Lock(t, b))
    ensures Inv(Next(s, Lock(t, b)))
  {
    var s' := Next(s, Lock(t, b));
    forall u ensures ThreadOk(s', u) { assert ThreadOk(s, u); }
    forall c, d ensures BevOk(s', c, d) { assert BevOk(s, c, d); }
    forall d ensures DirOk(s', d) { assert DirOk(s, d); }
  }

  lemma UnlockKeeps(s: State, t: Thread, b: Bev)
    requires Inv(s) && Enabled(s, Unlock(t, b))
    ensures Inv(Next(s, Unlock(t, b)))
  {
    var s' := Next(s, Unlock(t, b));
    forall u ensures ThreadOk(s', u) { assert ThreadOk(s, u); }
    forall c, d ensures BevOk(s', c, d) { assert BevOk(s, c, d); }
    forall d ensures DirOk(s', d) { assert DirOk(s, d); }
  }

  lemma JoinKeeps(s: State, t: Thread, b: Bev)
    requires Inv(s) && Enabled(s, Join(t, b))
    ensures Inv(Next(s, Join(t, b)))
  {
    var s' := Next(s, Join(t, b));
    forall u ensures ThreadOk(s', u) { assert ThreadOk(s, u); assert ThreadOk(s, t); }
    forall c, d ensures BevOk(s', c, d) { assert BevOk(s, c, d); assert ThreadOk(s, t); }
    forall d ensures DirOk(s', d) { assert DirOk(s, d); }
  }

  lemma LeaveKeeps(s: State, t: Thread, b: Bev, unsuspend: bool)
    requires Inv(s) && Enabled(s, Leave(t, b, unsuspend))
    ensures Inv(Next(s, Leave(t, b, unsuspend)))
  {
    var s' := Next(s, Leave(t, b, unsuspend));
    if b in s.members { WithoutOne(s.members, b); }
    forall u ensures ThreadOk(s', u) { assert ThreadOk(s, u); assert ThreadOk(s, t); }
    assert forall d :: d in [Reading, Writing] by {
      forall d ensures d in [Reading, Writing] { assert d == Reading || d == Writing; }
    }
    forall c, d ensures BevOk(s', c, d) { assert BevOk(s, c, d); assert ThreadOk(s, t); }
    forall d ensures DirOk(s', d) { assert DirOk(s, d); }
  }

  lemma {:induction false} WithoutOne(ms: seq<Bev>, b: Bev)
    requires Distinct(ms)
    ensures Distinct(WithoutAll(ms, b)) && |WithoutAll(ms, b)| == if b in ms then |ms| - 1 else |ms|
  {
    if ms != [] {
      assert Distinct(ms[1..]);
      WithoutOne(ms[1..], b);
      var r := WithoutAll(ms[1..], b);
      assert forall i | 0 <= i < |r| :: r[i] in ms[1..];
      assert ms[0] !in ms[1..];
    }
  }

  lemma BeginSuspendKeeps(s: State, t: Thread, d: Dir)
    requires Core(s) && DirOk(s, Other(d)) && s.owner == None && ActivityOf(s, t) == Resting
    ensures Inv(BeginSuspend(s, t, d))
  {
    var s' := BeginSuspend(s, t, d);
    forall u ensures ThreadOk(s', u) { assert ThreadOk(s, u); assert ThreadOk(s, t); }
    forall c, e ensures BevOk(s', c, e) { assert BevOk(s, c, e); }
    forall e ensures DirOk(s', e) { assert e == d || e == Other(d); }
  }

  lemma BeginUnsuspendKeeps(s: State, t: Thread, d: Dir, refill: bool, pick: nat)
    requires Core(s) && DirOk(s, Other(d)) && (s.minShare > 0 ==> Limit(s, d) > 0)
    requires (s.owner == None && ActivityOf(s, t) == Resting) || ActivityOf(s, t).Refilling?
    ensures Inv(BeginUnsuspend(s, t, d, refill, pick))
  {
    var s' := BeginUnsuspend(s, t, d, refill, pick);
    assert ThreadOk(s, t);
    forall u ensures ThreadOk(s', u) { assert ThreadOk(s, u); }
    forall c, e ensures BevOk(s', c, e) { assert BevOk(s, c, e); }
    forall e ensures DirOk(s', e) { assert e == d || e == Other(d); }
  }

  lemma SpendKeeps(s: State, step: Step)
    requires Inv(s) && Enabled(s, step) && (step.Spend? || step.SpendGroup?)
    ensures Inv(Next(s, step))
  {
    var t, d := step.thread, step.dir;
    var paid := s.(levels := WithLimit(s.levels, d, Limit(s, d) - step.bytes));
    hide LevelsOk, LoopOk, InGroup;
    forall u ensures ThreadOk(paid, u) { assert ThreadOk(s, u); }
    forall c, e ensures BevOk(paid, c, e) { assert BevOk(s, c, e); }
    assert DirOk(s, d) && DirOk(s, Other(d));
    assert DirOk(paid, Other(d));
    if Next(s, step) == BeginSuspend(paid, t, d) {
      BeginSuspendKeeps(paid, t, d);
    } else if Next(s, step) == BeginUnsuspend(paid, t, d, false, step.pick) {
      BeginUnsuspendKeeps(paid, t, d, false, step.pick);
    } else {
      forall e ensures DirOk(paid, e) { assert e == d || e == Other(d); }
    }
  }

  lemma RefillKeeps(s: State, t: Thread, tick: nat)
    requires Inv(s) && Enabled(s, Refill(t, tick))
    ensures Inv(Next(s, Refill(t, tick)))
  {
    var s' := Next(s, Refill(t, tick));
    forall u ensures ThreadOk(s', u) { assert ThreadOk(s, u); }
    forall c, e ensures BevOk(s', c, e) { assert BevOk(s, c, e); }
    forall e ensures DirOk(s', e) { assert DirOk(s, e); RefilledLevels(s.levels, s.cfg, tick, e); }
    RefilledLevels(s.levels, s.cfg, tick, Reading);
    RefilledLevels(s.levels, s.cfg, tick, Writing);
  }

  lemma AskKeeps(s: State, t: Thread, b: Bev, d: Dir)
    requires Inv(s) && Enabled(s, Ask(t, b, d))
    ensures Inv(Next(s, Ask(t, b, d)))
  {
    var s' := Next(s, Ask(t, b, d));
    forall u ensures ThreadOk(s', u) { assert ThreadOk(s, u); }
    forall c, e ensures BevOk(s', c, e) { assert BevOk(s, c, e); }
    forall e ensures DirOk(s', e) { assert DirOk(s, e); }
  }

  lemma JoiningKeeps(s: State, t: Thread, pick: nat)
    requires Inv(s) && ActivityOf(s, t).Joining?
    ensures Inv(GoOn(s, t, pick))
  {
    var s' := GoOn(s, t, pick);
    assert ThreadOk(s, t);
    forall u ensures ThreadOk(s', u) { assert ThreadOk(s, u); }
    forall c, e ensures BevOk(s', c, e) { assert BevOk(s, c, e); }
    forall e ensures DirOk(s', e) { assert DirOk(s, e); }
  }

  lemma LeavingKeeps(s: State, t: Thread, pick: nat)
    requires Inv(s) && ActivityOf(s, t).Leaving?
    ensures Inv(GoOn(s, t, pick))
  {
    var s' := GoOn(s, t, pick);
    assert ThreadOk(s, t);
    forall u ensures ThreadOk(s', u) { assert ThreadOk(s, u); }
    forall c, e ensures BevOk(s', c, e) { assert BevOk(s, c, e); }
    forall e ensures DirOk(s', e) { assert DirOk(s, e); }
  }

  lemma SuspendingKeeps(s: State, t: Thread, pick: nat)
    requires Inv(s) && (ActivityOf(s, t).Suspending? || ActivityOf(s, t).Asking?)
    ensures Inv(GoOn(s, t, pick))
  {
    var s' := GoOn(s, t, pick);
    assert ThreadOk(s, t);
    forall u ensures ThreadOk(s', u) { assert ThreadOk(s, u); }
    forall c, e ensures BevOk(s', c, e) { assert BevOk(s, c, e); }
    forall e ensures DirOk(s', e) { assert DirOk(s, e); }
  }

  lemma RefillingKeeps(s: State, t: Thread, pick: nat)
    requires Inv(s) && ActivityOf(s, t).Refilling?
    ensures Inv(GoOn(s, t, pick))
  {
    var d := ActivityOf(s, t).dir;
    assert DirOk(s, d) && DirOk(s, Other(d));
    if d in s.pending || (d in s.suspended && Limit(s, d) >= s.minShare) {
      BeginUnsuspendKeeps(s, t, d, true, pick);
    } else {
      RefillNextKeeps(s, t, d);
    }
  }

  lemma RefillNextKeeps(s: State, t: Thread, d: Dir)
    requires Inv(s) && ActivityOf(s, t).Refilling?
    ensures Inv(RefillNext(s, t, d))
  {
    var s' := RefillNext(s, t, d);
    assert ThreadOk(s, t);
    forall u ensures ThreadOk(s', u) { assert ThreadOk(s, u); }
    forall c, e ensures BevOk(s', c, e) { assert BevOk(s, c, e); }
    forall e ensures DirOk(s', e) { assert DirOk(s, e); }
  }

  predicate MoreToVisit(s: State, a: Activity)
    requires a.Unsuspending?
  {
    a.at < (if a.wrapped then a.first else |s.members|) && a.at < |s.members|
  }

  lemma VisitKeeps(s: State, t: Thread)
    requires Inv(s) && ActivityOf(s, t).Unsuspending? && MoreToVisit(s, ActivityOf(s, t))
    ensures Inv(UnsuspendNext(s, t))
  {
    var s' := UnsuspendNext(s, t);
    assert ThreadOk(s, t);
    LoopTurn(s.members, ActivityOf(s, t));
    forall u ensures ThreadOk(s', u) { assert ThreadOk(s, u); }
    forall c, e ensures BevOk(s', c, e) { assert BevOk(s, c, e); }
    forall e ensures DirOk(s', e) { assert DirOk(s, e); }
  }

  lemma WrapKeeps(s: State, t: Thread)
    requires Inv(s) && ActivityOf(s, t).Unsuspending? && !MoreToVisit(s, ActivityOf(s, t))
    requires !ActivityOf(s, t).wrapped
    ensures Inv(UnsuspendNext(s, t))
  {
    hide LevelsOk;
    var s' := UnsuspendNext(s, t);
    assert ThreadOk(s, t);
    LoopTurn(s.members, ActivityOf(s, t));
    forall u ensures ThreadOk(s', u) { assert ThreadOk(s, u); }
    forall c, e ensures BevOk(s', c, e) { assert BevOk(s, c, e); }
    forall e ensures DirOk(s', e) { assert DirOk(s, e); }
  }

  lemma DoneKeeps(s: State, t: Thread)
    requires Inv(s) && ActivityOf(s, t).Unsuspending? && !MoreToVisit(s, ActivityOf(s, t))
    requires ActivityOf(s, t).wrapped
    ensures Inv(UnsuspendNext(s, t))
  {
    hide LevelsOk;
    var s' := UnsuspendNext(s, t);
    assert ThreadOk(s, t);
    LoopTurn(s.members, ActivityOf(s, t));
    forall u ensures ThreadOk(s', u) { assert ThreadOk(s, u); }
    forall c, e ensures BevOk(s', c, e) { assert BevOk(s, c, e); }
    forall e ensures DirOk(s', e) { assert DirOk(s, e); }
  }

  /** The loop visits every member exactly once. */
  lemma LoopTurn(ms: seq<Bev>, a: Activity)
    requires a.Unsuspending? && LoopOk(ms, a)
    ensures !a.wrapped && a.at < |ms| ==> ms[a.first..a.at + 1] == a.seen + [ms[a.at]]
    ensures !a.wrapped && a.at == |ms| ==> ms[a.first..] + ms[..0] == a.seen
    ensures a.wrapped && a.at < a.first ==> ms[a.first..] + ms[..a.at + 1] == a.seen + [ms[a.at]]
    ensures a.wrapped && a.at == a.first ==> multiset(a.seen) == multiset(ms) && forall b <- ms :: b in a.seen
  {
    if a.wrapped && a.at == a.first {
      assert ms == ms[..a.first] + ms[a.first..];
    }
  }

  lemma RefilledLevels(b: Levels, cfg: Cfg, tick: nat, d: Dir)
    requires LevelsOk(b, cfg) && tick < TWO32
    ensures LevelsOk(Updated(b, cfg, tick), cfg)
    ensures LimitOf(b, d) <= LimitOf(Updated(b, cfg, tick), d)
  {
    var n := Elapsed(b.lastUpdated, tick);
    if n != 0 && n <= INT_MAX {
      MachineRefills(b.readLimit, cfg.readRate, cfg.readMaximum, n);
      MachineRefills(b.writeLimit, cfg.writeRate, cfg.writeMaximum, n);
    }
  }

  lemma StepKeeps(s: State, step: Step)
    requires Inv(s) && Enabled(s, step)
    ensures Inv(Next(s, step))
  {
    match step
    case Lock(t, b) => LockKeeps(s, t, b);
    case Unlock(t, b) => UnlockKeeps(s, t, b);
    case Join(t, b) => JoinKeeps(s, t, b);
    case Leave(t, b, unsuspend) => LeaveKeeps(s, t, b, unsuspend);
    case Ask(t, b, d) => AskKeeps(s, t, b, d);
    case Spend(_, _, _, _, _) => SpendKeeps(s, step);
    case SpendGroup(_, _, _, _) => SpendKeeps(s, step);
    case Refill(t, tick) => RefillKeeps(s, t, tick);
    case Go(t, pick) =>
      var a := ActivityOf(s, t);
      if a.Joining? { JoiningKeeps(s, t, pick); }
      else if a.Leaving? { LeavingKeeps(s, t, pick); }
      else if a.Refilling? { RefillingKeeps(s, t, pick); }
      else if a.Unsuspending? && MoreToVisit(s, a) { VisitKeeps(s, t); }
      else if a.Unsuspending? && a.wrapped { DoneKeeps(s, t); }
      else if a.Unsuspending? { WrapKeeps(s, t); }
      else { SuspendingKeeps(s, t, pick); }
  }

  /** Steps that the locks allow, in the order given. */
  predicate Legal(s: State, steps: seq<Step>)
    decreases |steps|
  {
    steps == [] || (Enabled(s, steps[0]) && Legal(Next(s, steps[0]), steps[1..]))
  }

  function Run(s: State, steps: seq<Step>): State
    decreases |steps|
  {
    if steps == [] then s else Run(Next(s, steps[0]), steps[1..])
  }

  lemma {:induction false} RunKeeps(s: State, steps: seq<Step>)
    requires Inv(s) && Legal(s, steps)
    ensures Inv(Run(s, steps))
    decreases |steps|
  {
    if steps != [] {
      StepKeeps(s, steps[0]);
      RunKeeps(Next(s, steps[0]), steps[1..]);
    }
  }

  /** The bytes that a step takes off the group's limit in one direction, whether they went through a member or the
      application took them. */
  function BytesOf(step: Step, d: Dir): int {
    if (step.Spend? || step.SpendGroup?) && step.dir == d then step.bytes else 0
  }

  function Spent(steps: seq<Step>, d: Dir): int
    decreases |steps|
  {
    if steps == [] then 0 else BytesOf(steps[0], d) + Spent(steps[1..], d)
  }

  /** The ticks that a step counts, if the last update was at tick `last`. */
  function TicksOf(last: nat, step: Step): nat {
    if !step.Refill? then 0
    else if Elapsed(last, step.tick) > INT_MAX then 0 else Elapsed(last, step.tick)
  }

  function LastAfter(last: nat, step: Step): nat {
    if step.Refill? && TicksOf(last, step) > 0 then step.tick else last
  }

  function Ticks(last: nat, steps: seq<Step>): nat
    decreases |steps|
  {
    if steps == [] then 0 else TicksOf(last, steps[0]) + Ticks(LastAfter(last, steps[0]), steps[1..])
  }

  /** The limit after the steps is the one before them, plus the rate for every tick, less what was spent. */
  predicate Balanced(s: State, steps: seq<Step>, d: Dir) {
    Limit(Run(s, steps), d) + Spent(steps, d) == Limit(s, d) + Ticks(s.levels.lastUpdated, steps) * Rate(s.cfg, d)
  }

  /** One step of the account: what a refill adds, unless that fills the bucket, less what is spent. */
  lemma StepBalance(s: State, step: Step, d: Dir)
    requires Inv(s) && Enabled(s, step)
    ensures var s' := Next(s, step); var last := s.levels.lastUpdated;
      var sum := Limit(s, d) + TicksOf(last, step) * Rate(s.cfg, d) - BytesOf(step, d);
      && s'.cfg == s.cfg && s'.levels.lastUpdated == LastAfter(last, step)
      && Limit(s', d) == if step.Refill? && sum > Maximum(s.cfg, d) then Maximum(s.cfg, d) else sum
  {
    hide Inv, Elapsed;
    LimitsBelow(s, d);
    if step.Go? { GoKeepsLevels(s, step.thread, step.pick); }
  }

  lemma LimitsBelow(s: State, d: Dir)
    requires Inv(s)
    ensures Limit(s, d) <= Maximum(s.cfg, d)
  {
  }

  lemma GoKeepsLevels(s: State, t: Thread, pick: nat)
    ensures GoOn(s, t, pick).levels == s.levels && GoOn(s, t, pick).cfg == s.cfg
  {
  }

  /** In every run the bytes that have been spent and those that are left are at most what there was at first and the
      rate for every tick.  Bytes are lost only while the bucket is full: since it was so for the last time, or since
      the start, the account is exact. */
  lemma {:induction false} GroupSpending(s: State, steps: seq<Step>, d: Dir) returns (k: nat)
    requires Inv(s) && Legal(s, steps)
    ensures Limit(Run(s, steps), d) + Spent(steps, d)
      <= Limit(s, d) + Ticks(s.levels.lastUpdated, steps) * Rate(s.cfg, d)
    ensures k <= |steps| && Balanced(Run(s, steps[..k]), steps[k..], d)
    ensures k == 0 || Limit(Run(s, steps[..k]), d) == Maximum(s.cfg, d)
    ensures (forall step <- steps :: !step.Refill?) ==> k == 0
    decreases |steps|
  {
    hide Inv, TicksOf, BytesOf, LastAfter, Next;
    k := 0;
    if steps != [] {
      var s' := Next(s, steps[0]);
      StepKeeps(s, steps[0]);
      StepBalance(s, steps[0], d);
      k := GroupSpending(s', steps[1..], d);
      var n := TicksOf(s.levels.lastUpdated, steps[0]);
      Distribute(n, Ticks(s'.levels.lastUpdated, steps[1..]), Rate(s.cfg, d));
      assert steps[0..] == steps && steps[..0] == [] && steps[1..][0..] == steps[1..] && steps[1..][..0] == [];
      if k > 0 || Limit(s', d) != Limit(s, d) + n * Rate(s.cfg, d) - BytesOf(steps[0], d) {
        assert steps[..k + 1][1..] == steps[1..][..k] && steps[k + 1..] == steps[1..][k..];
        k := k + 1;
      }
    }
  }

  lemma Distribute(m: nat, n: nat, rate: nat)
    ensures (m + n) * rate == m * rate + n * rate
  {
  }

  /** Whenever nobody is working on the group, a member is blocked only if the group is suspended or remembers that
      it owes a resumption, and a group without bytes is suspended. */
  lemma NeverForgotten(s0: State, steps: seq<Step>, b: Bev, d: Dir)
    requires Initial(s0) && Legal(s0, steps) && Run(s0, steps).owner == None
    ensures var s := Run(s0, steps);
      && s.count == |s.members|
      && (b in s.members && (b, d) in s.blocked ==> d in s.suspended || d in s.pending)
      && (s.minShare > 0 && Limit(s, d) <= 0 ==> d in s.suspended)
  {
    RunKeeps(s0, steps);
    assert BevOk(Run(s0, steps), b, d) && DirOk(Run(s0, steps), d);
  }

  /** A bufferevent that has left the group and is not being freed is not blocked. */
  lemma LeftBehind(s0: State, steps: seq<Step>, b: Bev, d: Dir)
    requires Initial(s0) && Legal(s0, steps)
    requires b !in Run(s0, steps).members && b !in Run(s0, steps).held && b !in Run(s0, steps).freed
    ensures (b, d) !in Run(s0, steps).blocked
  {
    RunKeeps(s0, steps);
    assert BevOk(Run(s0, steps), b, d);
  }

  /** The resuming loop, wherever it starts, has visited no member twice at any point and all of them at its end. */
  lemma VisitsOnce(s0: State, steps: seq<Step>, t: Thread)
    requires Initial(s0) && Legal(s0, steps) && ActivityOf(Run(s0, steps), t).Unsuspending?
    ensures var s := Run(s0, steps); var a := ActivityOf(s, t);
      && Distinct(a.seen)
      && (ActivityOf(GoOn(s, t, 0), t).Unsuspending? || multiset(a.seen) == multiset(s.members))
  {
    hide Inv, Run, Legal, GoOn, Distinct;
    InitialInv(s0);
    RunKeeps(s0, steps);
    SeenOnce(Run(s0, steps), t);
  }

  lemma SeenOnce(s: State, t: Thread)
    requires Inv(s) && ActivityOf(s, t).Unsuspending?
    ensures var a := ActivityOf(s, t);
      Distinct(a.seen) && (ActivityOf(GoOn(s, t, 0), t).Unsuspending? || multiset(a.seen) == multiset(s.members))
  {
    assert ThreadOk(s, t);
    LoopTurn(s.members, ActivityOf(s, t));
  }

  /** What a member may transfer once it has asked. */
  function Share(s: State, d: Dir): int
    requires s.count > 0
  {
    if d in s.suspended then 0
    else if Limit(s, d) / s.count < s.minShare then s.minShare else Limit(s, d) / s.count
  }

  /** A share above the minimum is the largest with which no more is promised to the members than there is, and the
      minimum is given only if one byte more for each would be too much. */
  lemma ShareFair(s: State, d: Dir)
    requires s.count > 0
    ensures Share(s, d) > s.minShare ==> Share(s, d) * s.count <= Limit(s, d)
    ensures d !in s.suspended ==> s.minShare <= Share(s, d) && Limit(s, d) < (Share(s, d) + 1) * s.count
    ensures d in s.suspended ==> Share(s, d) == 0
  {
  }

  /** A member that asks a group without bytes gets none and is blocked, even if the suspending loop missed it. */
  lemma AskFindsOut(s0: State, steps: seq<Step>, t: Thread, pick: nat)
    requires Initial(s0) && Legal(s0, steps) && ActivityOf(Run(s0, steps), t).Asking?
    ensures var s := Run(s0, steps); var a := ActivityOf(s, t); var s' := Next(s, Go(t, pick));
      && s.count > 0
      && (a.dir in s.suspended ==> Share(s, a.dir) == 0 && (a.bev, a.dir) in s'.blocked)
      && (s.minShare > 0 && Limit(s, a.dir) <= 0 ==> Share(s, a.dir) == 0 && (a.bev, a.dir) in s'.blocked)
      && (s.minShare > 0 && Limit(s, a.dir) > 0 && a.dir !in s.suspended ==> Share(s, a.dir) >= s.minShare)
  {
    RunKeeps(s0, steps);
    var s := Run(s0, steps);
    assert ThreadOk(s, t) && DirOk(s, ActivityOf(s, t).dir);
  }

  /** How many steps a thread needs at most to let go of the group. */
  function Work(s: State, t: Thread): nat {
    var n := |s.members|;
    match ActivityOf(s, t)
    case Suspending(_, at) => if at <= n then n - at + 1 else 1
    case Refilling(d) => if d == Reading then 2 * n + 7 else n + 3
    case Unsuspending(d, refill, first, wrapped, at, _, _) =>
      (if wrapped then if at <= first then first - at + 1 else 1 else if at <= n then n - at + first + 2 else first + 2)
      + (if refill && d == Reading then n + 4 else 0)
    case _ => 1
  }

  /** A thread that has the group is never blocked and lets go of it after finitely many steps. */
  lemma LetsGo(s: State, t: Thread, pick: nat)
    requires Inv(s) && InGroup(ActivityOf(s, t))
    ensures var s' := Next(s, Go(t, pick));
      && Enabled(s, Go(t, pick))
      && (s'.owner == None || (InGroup(ActivityOf(s', t)) && Work(s', t) < Work(s, t)))
  {
    assert ThreadOk(s, t);
  }

  /** The refill is going to resume direction d. */
  predicate Due(s: State, d: Dir) {
    d in s.pending || (d in s.suspended && Limit(s, d) >= s.minShare)
  }

  predicate SameFlags(s: State, s0: State, d: Dir) {
    (d in s.suspended <==> d in s0.suspended) && (d in s.pending <==> d in s0.pending)
  }

  /** One of the bufferevents has a lock that thread t could not get in s0. */
  ghost predicate Missed(s0: State, t: Thread, bs: seq<Bev>) {
    exists b <- bs :: !CanLock(s0, t, b)
  }

  /** Those whose locks thread t could get in s0 are not blocked. */
  ghost predicate Freed(s: State, s0: State, t: Thread, bs: seq<Bev>, d: Dir) {
    forall b <- bs | CanLock(s0, t, b) :: (b, d) !in s.blocked
  }

  lemma Visited(s: State, s': State, s0: State, t: Thread, bs: seq<Bev>, b: Bev, d: Dir)
    requires s'.blocked == if CanLock(s0, t, b) then s.blocked - {(b, d)} else s.blocked
    ensures Missed(s0, t, bs + [b]) <==> Missed(s0, t, bs) || !CanLock(s0, t, b)
    ensures Freed(s, s0, t, bs, d) ==> Freed(s', s0, t, bs + [b], d)
  {
  }

  lemma AllVisited(s: State, s0: State, t: Thread, seen: seq<Bev>, bs: seq<Bev>, d: Dir)
    requires multiset(seen) == multiset(bs)
    ensures Missed(s0, t, seen) <==> Missed(s0, t, bs)
    ensures Freed(s, s0, t, seen, d) <==> Freed(s, s0, t, bs, d)
  {
    assert forall b :: b in seen <==> b in multiset(seen);
    assert forall b :: b in bs <==> b in multiset(bs);
  }

  /** Direction d is as it was in s0. */
  ghost predicate SameIn(s: State, s0: State, d: Dir) {
    SameFlags(s, s0, d) && forall b :: (b, d) in s.blocked <==> (b, d) in s0.blocked
  }

  /** How far thread t has come with direction d, having started its callback in s0. */
  ghost predicate Stage(s: State, s0: State, t: Thread, d: Dir) {
    var a := ActivityOf(s, t);
    if a.Unsuspending? && a.dir == d then
      a.refill && Due(s0, d) && (a.again <==> Missed(s0, t, a.seen)) && Freed(s, s0, t, a.seen, d)
    else if a.Refilling? && (a.dir == Reading || d == Writing) then SameIn(s, s0, d)
    else if a.Unsuspending? && a.dir == Reading then SameIn(s, s0, d)
    else if Due(s0, d) then
      d !in s.suspended && (d in s.pending <==> Missed(s0, t, s.members)) && Freed(s, s0, t, s.members, d)
    else SameIn(s, s0, d)
  }

  ghost predicate Alone(s: State, s0: State, t: Thread) {
    && Inv(s)
    && s.members == s0.members && s.levels == s0.levels && s.minShare == s0.minShare && s.held == s0.held
    && (ActivityOf(s, t).Unsuspending? || ActivityOf(s, t).Refilling? || s.owner == None)
    && (forall d :: Stage(s, s0, t, d))
    && (ActivityOf(s, t).Unsuspending? ==> ActivityOf(s, t).refill)
  }

  lemma StageStep(s: State, s0: State, t: Thread, pick: nat, d: Dir)
    requires Alone(s, s0, t) && (ActivityOf(s, t).Unsuspending? || ActivityOf(s, t).Refilling?)
    ensures Stage(GoOn(s, t, pick), s0, t, d)
  {
    hide Alone, Stage;
    AloneFacts(s, s0, t, d);
    if ActivityOf(s, t).Unsuspending? {
      AloneLoop(s, s0, t);
      StageVisit(s, s0, t, pick, d);
    } else {
      StageRefill(s, s0, t, pick, d);
    }
  }

  lemma StageVisit(s: State, s0: State, t: Thread, pick: nat, d: Dir)
    requires Stage(s, s0, t, d) && Stage(s, s0, t, Other(d)) && s.held == s0.held && s.members == s0.members
    requires ActivityOf(s, t).Unsuspending? && ActivityOf(s, t).refill
    requires LoopOk(s.members, ActivityOf(s, t)) && ActivityOf(s, t).dir !in s.suspended
    ensures Stage(GoOn(s, t, pick), s0, t, d)
  {
    hide Missed, Freed;
    var a := ActivityOf(s, t);
    LoopTurn(s.members, a);
    if MoreToVisit(s, a) {
      Visited(s, GoOn(s, t, pick), s0, t, a.seen, s.members[a.at], a.dir);
    } else {
      if a.wrapped { AllVisited(GoOn(s, t, pick), s0, t, a.seen, s.members, a.dir); }
      FreedSame(s, GoOn(s, t, pick), s0, t, a.seen, a.dir);
    }
    FreedOther(s, GoOn(s, t, pick), s0, t, d, a.dir);
  }

  lemma StageRefill(s: State, s0: State, t: Thread, pick: nat, d: Dir)
    requires Stage(s, s0, t, d) && Stage(s, s0, t, Other(d)) && s.held == s0.held && s.members == s0.members
    requires s.levels == s0.levels && s.minShare == s0.minShare && ActivityOf(s, t).Refilling?
    ensures Stage(GoOn(s, t, pick), s0, t, d)
  {
    hide Missed, Freed;
    NoneVisited(GoOn(s, t, pick), s0, t, d);
    FreedSame(s, GoOn(s, t, pick), s0, t, s.members, d);
  }

  lemma AloneFacts(s: State, s0: State, t: Thread, d: Dir)
    requires Alone(s, s0, t)
    ensures Stage(s, s0, t, d) && Stage(s, s0, t, Other(d)) && s.held == s0.held && s.members == s0.members
    ensures s.levels == s0.levels && s.minShare == s0.minShare
  {
  }

  lemma AloneLoop(s: State, s0: State, t: Thread)
    requires Alone(s, s0, t) && ActivityOf(s, t).Unsuspending?
    ensures LoopOk(s.members, ActivityOf(s, t)) && ActivityOf(s, t).dir !in s.suspended && ActivityOf(s, t).refill
  {
    assert ThreadOk(s, t);
  }

  lemma NoneVisited(s: State, s0: State, t: Thread, d: Dir)
    ensures !Missed(s0, t, []) && Freed(s, s0, t, [], d)
  {
  }

  lemma FreedSame(s: State, s': State, s0: State, t: Thread, bs: seq<Bev>, d: Dir)
    requires s'.blocked == s.blocked
    ensures Freed(s', s0, t, bs, d) == Freed(s, s0, t, bs, d)
  {
  }

  lemma FreedOther(s: State, s': State, s0: State, t: Thread, d: Dir, e: Dir)
    requires d != e ==> forall b :: (b, d) in s'.blocked <==> (b, d) in s.blocked
    ensures d != e ==> Freed(s', s0, t, s.members, d) == Freed(s, s0, t, s.members, d)
  {
  }

  lemma AloneStep(s: State, s0: State, t: Thread, pick: nat)
    requires Alone(s, s0, t) && (ActivityOf(s, t).Unsuspending? || ActivityOf(s, t).Refilling?)
    ensures Alone(GoOn(s, t, pick), s0, t)
  {
    StepKeeps(s, Go(t, pick));
    forall d ensures Stage(GoOn(s, t, pick), s0, t, d) { StageStep(s, s0, t, pick, d); }
    hide Core, Stage;
  }

  lemma {:induction false} AloneRun(s: State, s0: State, t: Thread, steps: seq<Step>)
    requires Alone(s, s0, t) && Legal(s, steps) && (forall step <- steps :: step.Go? && step.thread == t)
    requires ActivityOf(s, t).Unsuspending? || ActivityOf(s, t).Refilling? || ActivityOf(s, t) == Resting
    ensures Alone(Run(s, steps), s0, t)
    decreases |steps|
  {
    if steps != [] {
      AloneStep(s, s0, t, steps[0].pick);
      assert steps[0] in steps;
      var s' := GoOn(s, t, steps[0].pick);
      assert ActivityOf(s', t).Unsuspending? || ActivityOf(s', t).Refilling? || ActivityOf(s', t) == Resting;
      AloneRun(s', s0, t, steps[1..]);
    }
  }

  /** A refill callback resumes every direction for which a resumption was owed or the group has bytes again: no member
      whose lock the thread could get stays blocked, and it remembers if there were others.  It leaves the other
      directions alone. */
  lemma RefillRepairs(s: State, t: Thread, tick: nat, steps: seq<Step>, d: Dir)
    requires Inv(s) && Enabled(s, Refill(t, tick))
    requires Legal(Next(s, Refill(t, tick)), steps) && (forall step <- steps :: step.Go? && step.thread == t)
    requires Run(Next(s, Refill(t, tick)), steps).owner == None
    ensures var s0 := Next(s, Refill(t, tick)); var s' := Run(s0, steps);
      && s'.levels == Updated(s.levels, s.cfg, tick) && s'.members == s.members && s'.held == s.held
      && (Due(s0, d) ==>
            && d !in s'.suspended && (d in s'.pending <==> exists b <- s.members :: !CanLock(s, t, b))
            && forall b <- s.members | CanLock(s, t, b) :: (b, d) !in s'.blocked)
      && (!Due(s0, d) ==> SameIn(s', s, d))
  {
    var s0 := Next(s, Refill(t, tick));
    StepKeeps(s, Refill(t, tick));
    AloneRun(s0, s0, t, steps);
    RefillEnds(Run(s0, steps), s0, t, d);
  }

  lemma RefillEnds(s: State, s0: State, t: Thread, d: Dir)
    requires Alone(s, s0, t) && s.owner == None
    ensures if Due(s0, d) then
        && d !in s.suspended && (d in s.pending <==> exists b <- s.members :: !CanLock(s0, t, b))
        && forall b <- s.members | CanLock(s0, t, b) :: (b, d) !in s.blocked
      else SameIn(s, s0, d)
  {
    assert ThreadOk(s, t);
    assert Stage(s, s0, t, d);
    hide Inv;
  }

  /** The limit of the group after a spending. */
  function Left(s: State, spend: Step): int
    requires spend.Spend? || spend.SpendGroup?
  {
    Limit(s, spend.dir) - spend.bytes
  }

  /** A spending that takes the last bytes, and one that finds bytes in a suspended group.  The application's own ones
      are told from the limit before. */
  predicate Exhausts(s: State, spend: Step)
    requires spend.Spend? || spend.SpendGroup?
  {
    Left(s, spend) <= 0 && (spend.Spend? || Limit(s, spend.dir) > 0)
  }

  predicate Restores(s: State, spend: Step)
    requires spend.Spend? || spend.SpendGroup?
  {
    Left(s, spend) > 0 && if spend.Spend? then spend.dir in s.suspended else Limit(s, spend.dir) <= 0
  }

  /** The loop over all members, started in s0, has so far reached every member whose lock it could get, or is over. */
  ghost predicate Settling(s: State, s0: State, t: Thread, d: Dir, resumes: bool) {
    && Inv(s) && s.held == s0.held && s.members == s0.members && s.levels == s0.levels
    && SameFlags(s, s0, Other(d)) && (forall b :: (b, Other(d)) in s.blocked <==> (b, Other(d)) in s0.blocked)
    && (forall b: Bev | !CanLock(s0, t, b) :: (b, d) in s.blocked <==> (b, d) in s0.blocked)
    && var a := ActivityOf(s, t);
       if resumes then
         if a.Unsuspending? then
           a.dir == d && !a.refill && (a.again <==> Missed(s0, t, a.seen)) && Freed(s, s0, t, a.seen, d)
         else
           && a == Resting && d !in s.suspended && (d in s.pending <==> Missed(s0, t, s.members))
           && Freed(s, s0, t, s.members, d)
       else
         && d in s.suspended && d !in s.pending
         && if a.Suspending? then
              a.dir == d && forall i | 0 <= i < a.at && i < |s.members| && CanLock(s0, t, s.members[i]) ::
                (s.members[i], d) in s.blocked
            else
              a == Resting && forall i | 0 <= i < |s.members| && CanLock(s0, t, s.members[i]) ::
                (s.members[i], d) in s.blocked
  }

  lemma SettlingStep(s: State, s0: State, t: Thread, d: Dir, resumes: bool, pick: nat)
    requires Settling(s, s0, t, d, resumes) && ActivityOf(s, t) != Resting
    ensures Settling(GoOn(s, t, pick), s0, t, d, resumes)
  {
    StepKeeps(s, Go(t, pick));
    if resumes { SettlingVisit(s, s0, t, d, pick); } else { SettlingSuspend(s, s0, t, d, pick); }
  }

  lemma SettlingVisit(s: State, s0: State, t: Thread, d: Dir, pick: nat)
    requires Settling(s, s0, t, d, true) && ActivityOf(s, t) != Resting && Inv(GoOn(s, t, pick))
    ensures Settling(GoOn(s, t, pick), s0, t, d, true)
  {
    hide Missed, Freed, Core, DirOk;
    var a := ActivityOf(s, t);
    ResumingLoop(s, t);
    LoopTurn(s.members, a);
    if MoreToVisit(s, a) {
      Visited(s, GoOn(s, t, pick), s0, t, a.seen, s.members[a.at], d);
    } else {
      if a.wrapped { AllVisited(GoOn(s, t, pick), s0, t, a.seen, s.members, d); }
      FreedSame(s, GoOn(s, t, pick), s0, t, a.seen, d);
    }
  }

  lemma SettlingSuspend(s: State, s0: State, t: Thread, d: Dir, pick: nat)
    requires Settling(s, s0, t, d, false) && ActivityOf(s, t) != Resting && Inv(GoOn(s, t, pick))
    ensures Settling(GoOn(s, t, pick), s0, t, d, false)
  {
    hide Missed, Freed, Core, DirOk;
  }

  lemma ResumingLoop(s: State, t: Thread)
    requires Inv(s) && ActivityOf(s, t).Unsuspending?
    ensures LoopOk(s.members, ActivityOf(s, t)) && ActivityOf(s, t).dir !in s.suspended
  {
    assert ThreadOk(s, t);
  }

  lemma {:induction false} SettlingRun(s: State, s0: State, t: Thread, d: Dir, resumes: bool, steps: seq<Step>)
    requires Settling(s, s0, t, d, resumes) && Legal(s, steps)
    requires forall step <- steps :: step.Go? && step.thread == t
    ensures Settling(Run(s, steps), s0, t, d, resumes)
    decreases |steps|
  {
    hide Settling;
    if steps != [] {
      assert steps[0] in steps;
      SettlingStep(s, s0, t, d, resumes, steps[0].pick);
      SettlingRun(Next(s, steps[0]), s0, t, d, resumes, steps[1..]);
    }
  }

  lemma GoFirst(steps: seq<Step>, t: Thread)
    requires forall step <- steps :: step.Go? && step.thread == t
    ensures steps != [] ==> steps[0].Go? && steps[0].thread == t
  {
    assert steps != [] ==> steps[0] in steps;
  }

  /** What a spending has come to once its thread lets go of the group: a group without bytes is suspended and all its
      members whose locks the thread could get are blocked; one that has bytes again is resumed and none of these is,
      and it remembers if there were others; and otherwise nothing changes but the limit.  The other direction and the
      other members are left alone. */
  lemma SpendSettles(s: State, spend: Step, steps: seq<Step>)
    requires Inv(s) && (spend.Spend? || spend.SpendGroup?) && Enabled(s, spend)
    requires Legal(Next(s, spend), steps) && (forall step <- steps :: step.Go? && step.thread == spend.thread)
    requires Run(Next(s, spend), steps).owner == None
    ensures var s' := Run(Next(s, spend), steps); var t, d := spend.thread, spend.dir;
      && Limit(s', d) == Left(s, spend) && Limit(s', Other(d)) == Limit(s, Other(d))
      && s'.members == s.members && s'.held == s.held
      && SameFlags(s', s, Other(d)) && (forall b :: (b, Other(d)) in s'.blocked <==> (b, Other(d)) in s.blocked)
      && (forall b: Bev | !CanLock(s, t, b) :: (b, d) in s'.blocked <==> (b, d) in s.blocked)
      && (Exhausts(s, spend) ==>
            && d in s'.suspended && d !in s'.pending
            && forall b <- s.members | CanLock(s, t, b) :: (b, d) in s'.blocked)
      && (Restores(s, spend) ==>
            && d !in s'.suspended && (d in s'.pending <==> exists b <- s.members :: !CanLock(s, t, b))
            && forall b <- s.members | CanLock(s, t, b) :: (b, d) !in s'.blocked)
      && (!Exhausts(s, spend) && !Restores(s, spend) ==> SameFlags(s', s, d) && s'.blocked == s.blocked)
  {
    var t, d := spend.thread, spend.dir;
    StepKeeps(s, spend);
    var s1 := Next(s, spend);
    if Exhausts(s, spend) || Restores(s, spend) {
      SettlingStarts(s, spend);
      SettlingRun(s1, s1, t, d, Restores(s, spend), steps);
      SettlingEnds(Run(s1, steps), s1, t, d, Restores(s, spend));
    } else {
      GoFirst(steps, t);
    }
  }

  lemma SettlingStarts(s: State, spend: Step)
    requires Inv(s) && (spend.Spend? || spend.SpendGroup?) && Enabled(s, spend)
    requires Exhausts(s, spend) || Restores(s, spend)
    ensures var s1 := Next(s, spend);
      && Settling(s1, s1, spend.thread, spend.dir, Restores(s, spend)) && ActivityOf(s1, spend.thread) != Resting
      && s1.members == s.members && s1.held == s.held && s1.blocked == s.blocked
      && SameFlags(s1, s, Other(spend.dir)) && s1.levels == WithLimit(s.levels, spend.dir, Left(s, spend))
  {
    StepKeeps(s, spend);
    hide Inv, LevelsOk;
  }

  lemma SettlingEnds(s: State, s1: State, t: Thread, d: Dir, resumes: bool)
    requires Settling(s, s1, t, d, resumes) && s.owner == None
    ensures s.members == s1.members && s.held == s1.held && s.levels == s1.levels
    ensures if resumes then
        && d !in s.suspended && (d in s.pending <==> exists b <- s.members :: !CanLock(s1, t, b))
        && forall b <- s.members | CanLock(s1, t, b) :: (b, d) !in s.blocked
      else
        && d in s.suspended && d !in s.pending
        && forall b <- s.members | CanLock(s1, t, b) :: (b, d) in s.blocked
  {
    assert ThreadOk(s, t);
    hide Inv;
  }

  /** Thread t is about to block b, which it has just added in s0, or to resume b, which it has just removed there. */
  ghost predicate Moving(s: State, s0: State, t: Thread, b: Bev, joins: bool, free: bool) {
    && Inv(s) && s.suspended == s0.suspended && s.pending == s0.pending && s.levels == s0.levels
    && s.members == s0.members && (forall c, d | c != b :: (c, d) in s.blocked <==> (c, d) in s0.blocked)
    && var a := ActivityOf(s, t);
       && (a.Joining? || a.Leaving? ==> a.bev == b && s.held == s0.held && s.freed == s0.freed && a.Joining? == joins)
       && (a.Joining? ==> forall d <- s.suspended :: d in a.todo || (b, d) in s.blocked)
       && (a.Leaving? ==> a.free == free && (free || forall d :: d in a.todo || (b, d) !in s.blocked))
       && (a.Joining? || a.Leaving? || a == Resting)
       && (a == Resting ==>
             if !joins && free then s.held == s0.held - {b} && s.freed == s0.freed + {b}
             else s.held == Unlocked(s0, b) && s.freed == s0.freed)
       && (a == Resting && joins ==> forall d <- s.suspended :: (b, d) in s.blocked)
       && (a == Resting && !joins && !free ==> forall d :: (b, d) !in s.blocked)
  }

  lemma MovingStep(s: State, s0: State, t: Thread, b: Bev, joins: bool, free: bool, pick: nat)
    requires Moving(s, s0, t, b, joins, free) && ActivityOf(s, t) != Resting
    ensures Moving(GoOn(s, t, pick), s0, t, b, joins, free)
  {
    StepKeeps(s, Go(t, pick));
    assert ThreadOk(s, t);
    hide Inv;
  }

  lemma {:induction false} MovingRun(
      s: State, s0: State, t: Thread, b: Bev, joins: bool, free: bool, steps: seq<Step>)
    requires Moving(s, s0, t, b, joins, free) && Legal(s, steps)
    requires forall step <- steps :: step.Go? && step.thread == t
    ensures Moving(Run(s, steps), s0, t, b, joins, free)
    decreases |steps|
  {
    hide Moving;
    if steps != [] {
      assert steps[0] in steps;
      MovingStep(s, s0, t, b, joins, free, steps[0].pick);
      MovingRun(Next(s, steps[0]), s0, t, b, joins, free, steps[1..]);
    }
  }

  lemma LockedUnlocked(s: State, t: Thread, b: Bev)
    requires Inv(s) && CanLock(s, t, b)
    ensures Unlocked(s.(held := Locked(s, t, b)), b) == s.held
  {
  }

  /** A member that has joined a suspended group is blocked once its thread is done with that, and all other members and
      all locks are as before. */
  lemma JoinSettles(s: State, t: Thread, b: Bev, steps: seq<Step>)
    requires Inv(s) && Enabled(s, Join(t, b)) && Legal(Next(s, Join(t, b)), steps)
    requires forall step <- steps :: step.Go? && step.thread == t
    requires ActivityOf(Run(Next(s, Join(t, b)), steps), t) == Resting
    ensures var s' := Run(Next(s, Join(t, b)), steps);
      && s'.members == s.members + [b] && s'.count == |s'.members|
      && s'.held == s.held && s'.freed == s.freed && s'.suspended == s.suspended && s'.levels == s.levels
      && (forall d <- s.suspended :: (b, d) in s'.blocked)
      && (forall c, d | c != b :: (c, d) in s'.blocked <==> (c, d) in s.blocked)
  {
    var s1 := Next(s, Join(t, b));
    StepKeeps(s, Join(t, b));
    forall d <- s.suspended ensures d in ActivityOf(s1, t).todo { assert d == Reading || d == Writing; }
    MovingRun(s1, s1, t, b, true, false, steps);
    LockedUnlocked(s, t, b);
    hide Inv;
  }

  /** A bufferevent that has left its group is not blocked any more, or has been freed. */
  lemma LeaveSettles(s: State, t: Thread, b: Bev, unsuspend: bool, steps: seq<Step>)
    requires Inv(s) && Enabled(s, Leave(t, b, unsuspend)) && Legal(Next(s, Leave(t, b, unsuspend)), steps)
    requires forall step <- steps :: step.Go? && step.thread == t
    requires ActivityOf(Run(Next(s, Leave(t, b, unsuspend)), steps), t) == Resting
    ensures var s' := Run(Next(s, Leave(t, b, unsuspend)), steps);
      && s'.members == WithoutAll(s.members, b) && s'.count == |s'.members|
      && s'.suspended == s.suspended && s'.levels == s.levels
      && (if unsuspend then s'.held == s.held && s'.freed == s.freed && forall d :: (b, d) !in s'.blocked
          else s'.held == s.held - {b} && s'.freed == s.freed + {b})
      && (forall c, d | c != b :: (c, d) in s'.blocked <==> (c, d) in s.blocked)
  {
    var s1 := Next(s, Leave(t, b, unsuspend));
    StepKeeps(s, Leave(t, b, unsuspend));
    forall d ensures d in [Reading, Writing] { assert d == Reading || d == Writing; }
    NotThere(s.members, b);
    MovingRun(s1, s1, t, b, false, !unsuspend, steps);
    LockedUnlocked(s, t, b);
    StepsKeep(s1, steps);
    MovingEnds(Run(s1, steps), s1, t, b, false, !unsuspend);
    hide Inv, Moving, Run, Legal;
  }

  lemma MovingEnds(s: State, s1: State, t: Thread, b: Bev, joins: bool, free: bool)
    requires Moving(s, s1, t, b, joins, free) && ActivityOf(s, t) == Resting
    ensures s.members == s1.members && s.suspended == s1.suspended && s.levels == s1.levels
    ensures forall c, d | c != b :: (c, d) in s.blocked <==> (c, d) in s1.blocked
    ensures if !joins && free then s.held == s1.held - {b} && s.freed == s1.freed + {b}
      else s.held == Unlocked(s1, b) && s.freed == s1.freed
    ensures joins ==> forall d <- s.suspended :: (b, d) in s.blocked
    ensures !joins && !free ==> forall d :: (b, d) !in s.blocked
  {
  }

  lemma {:induction false} NotThere(ms: seq<Bev>, b: Bev)
    ensures b !in ms ==> WithoutAll(ms, b) == ms
  {
    if ms != [] { NotThere(ms[1..], b); }
  }

  lemma StepsKeep(s: State, steps: seq<Step>)
    requires Inv(s) && Legal(s, steps)
    ensures Run(s, steps).count == |Run(s, steps).members|
  {
    RunKeeps(s, steps);
  }

  /** The steps of a refill callback on a group without members. */
  const FOUR: seq<Step> := [Go(0, 0), Go(0, 0), Go(0, 0), Go(0, 0)]

  lemma ResumedEmpty(s: State)
    requires ActivityOf(s, 0) == Refilling(Reading) && s.members == [] && s.suspended == {Reading} && s.pending == {}
    requires Limit(s, Reading) == 0 && s.minShare == 0
    ensures Legal(s, FOUR)
    ensures var t := Run(s, FOUR); t.owner == None && Limit(t, Reading) == 0 && Reading !in t.suspended
  {
    var s1 := GoOn(s, 0, 0);
    var s2 := GoOn(s1, 0, 0);
    var s3 := GoOn(s2, 0, 0);
    var s4 := GoOn(s3, 0, 0);
    assert ActivityOf(s3, 0) == Refilling(Writing) && s3.suspended == {};
    assert FOUR[1..] == [Go(0, 0), Go(0, 0), Go(0, 0)];
    assert FOUR[1..][1..] == [Go(0, 0), Go(0, 0)];
    assert FOUR[1..][1..][1..] == [Go(0, 0)];
    assert FOUR[1..][1..][1..][1..] == [];
    assert Run(s, FOUR) == s4;
  }

  /** With a minimal share of nothing, a group is resumed although it has no bytes: once twice its rate has been spent,
      the next tick brings it to a limit of zero, which is not below the share. */
  lemma ZeroShare(s: State)
    requires Initial(s) && s.minShare == 0
    ensures exists steps ::
      Legal(s, steps) && var s' := Run(s, steps);
        s'.owner == None && Limit(s', Reading) == 0 && Reading !in s'.suspended
  {
    hide Legal, Run;
    var rate, tick := s.cfg.readRate, (s.levels.lastUpdated + 1) % TWO32;
    var steps := [SpendGroup(0, Reading, 2 * rate, 0), Go(0, 0), Refill(0, tick)] + FOUR;
    NextElapsed(s.levels.lastUpdated);
    var s1 := Next(s, steps[0]);
    var s2 := Next(s1, Go(0, 0));
    var s3 := Next(s2, Refill(0, tick));
    assert Limit(s2, Reading) + rate == 0 && Elapsed(s2.levels.lastUpdated, tick) == 1;
    assert Limit(s3, Reading) == 0;
    ResumedEmpty(s3);
    assert steps[1..] == [Go(0, 0), Refill(0, tick)] + FOUR;
    assert steps[1..][1..] == [Refill(0, tick)] + FOUR;
    assert steps[1..][1..][1..] == FOUR;
    RunNext(s2, steps[1..][1..]);
    RunNext(s1, steps[1..]);
    RunNext(s, steps);
  }

  /** In all runs a group without bytes is suspended, whatever its rates, exactly if its minimal share is not zero. */
  lemma ExhaustedIsSuspended(s: State)
    requires Initial(s)
    ensures s.minShare > 0 <==>
      forall steps, d | Legal(s, steps) && Limit(Run(s, steps), d) <= 0 :: d in Run(s, steps).suspended
  {
    hide Legal, Run, Inv;
    if s.minShare == 0 {
      ZeroShare(s);
    } else {
      InitialInv(s);
      forall steps, d | Legal(s, steps) && Limit(Run(s, steps), d) <= 0 ensures d in Run(s, steps).suspended {
        RunKeeps(s, steps);
        ShareSame(s, steps);
        InvDir(Run(s, steps), d);
      }
    }
  }

  lemma InvDir(s: State, d: Dir)
    requires Inv(s)
    ensures DirOk(s, d)
  {
  }

  lemma {:induction false} ShareSame(s: State, steps: seq<Step>)
    requires Legal(s, steps)
    ensures Run(s, steps).minShare == s.minShare
    decreases |steps|
  {
    if steps != [] { ShareSame(Next(s, steps[0]), steps[1..]); }
  }

  lemma RunNext(s: State, steps: seq<Step>)
    requires steps != [] && Enabled(s, steps[0]) && Legal(Next(s, steps[0]), steps[1..])
    ensures Legal(s, steps) && Run(s, steps) == Run(Next(s, steps[0]), steps[1..])
  {
  }

  lemma RunAt(s: State, steps: seq<Step>, k: nat)
    requires k < |steps| && Enabled(s, steps[k]) && Legal(Next(s, steps[k]), steps[k + 1..])
    ensures Legal(s, steps[k..]) && Run(s, steps[k..]) == Run(Next(s, steps[k]), steps[k + 1..])
  {
    assert steps[k..][1..] == steps[k + 1..];
    RunNext(s, steps[k..]);
  }

  lemma {:induction false} RunConcat(s: State, a: seq<Step>, b: seq<Step>)
    requires Legal(s, a) && Legal(Run(s, a), b)
    ensures Legal(s, a + b) && Run(s, a + b) == Run(Run(s, a), b)
    decreases |a|
  {
    if a == [] {
      assert a + b == b;
    } else {
      assert (a + b)[1..] == a[1..] + b;
      RunConcat(Next(s, a[0]), a[1..], b);
    }
  }

  /** A bufferevent joins the group. */
  function Entering(b: Bev): seq<Step> {
    [Join(0, b), Go(0, 0)]
  }

  /** It asks for its share and is not blocked. */
  function Inquiring(b: Bev): seq<Step> {
    [Lock(0, b), Ask(0, b, Reading), Go(0, 0), Unlock(0, b)]
  }

  /** It spends all that may be read. */
  function Exhausting(b: Bev, rate: nat): seq<Step> {
    [Lock(0, b), Step.Spend(0, b, Reading, rate, 0), Go(0, 0), Go(0, 0), Unlock(0, b)]
  }

  /** The refill callback comes in another thread. */
  function Refilled(tick: nat): seq<Step> {
    [Refill(1, tick), Go(1, 0), Go(1, 0), Go(1, 0), Go(1, 0), Go(1, 0)]
  }

  function Departing(b: Bev): seq<Step> {
    [Leave(0, b, true), Go(0, 0), Go(0, 0), Go(0, 0)]
  }

  /** Nobody works on the group, whose only member is b, and nobody has its lock. */
  predicate Quiet(s: State, b: Bev) {
    && s.members == [b] && s.count == 1 && s.owner == None && s.held == map[] && s.freed == {} && s.pending == {}
    && ActivityOf(s, 0) == Resting && ActivityOf(s, 1) == Resting
  }

  lemma EndOfRun(s: State, steps: seq<Step>)
    ensures Legal(s, steps[|steps|..]) && Run(s, steps[|steps|..]) == s
  {
  }

  lemma EnteringRuns(s: State, b: Bev)
    requires Initial(s)
    ensures Legal(s, Entering(b))
    ensures var s' := Run(s, Entering(b));
      Quiet(s', b) && s' == s.(members := [b], count := 1, activities := s'.activities)
  {
    var steps := Entering(b);
    var s1 := Next(s, steps[0]);
    var s2 := Next(s1, steps[1]);
    assert Enabled(s1, steps[1]);
    assert s2 == s.(members := [b], count := 1, activities := s2.activities);
    hide Legal, Run, Next, Enabled;
    EndOfRun(s2, steps);
    RunAt(s1, steps, 1);
    RunAt(s, steps, 0);
    assert steps[0..] == steps;
  }

  lemma InquiringRuns(s: State, b: Bev)
    requires Quiet(s, b) && s.suspended == {}
    ensures Legal(s, Inquiring(b))
    ensures var s' := Run(s, Inquiring(b)); Quiet(s', b) && s' == s.(activities := s'.activities)
  {
    hide Legal, Run;
    var steps := Inquiring(b);
    var s1 := Next(s, steps[0]);
    assert s1 == s.(held := map[b := Hold(0, 1)]);
    var s2 := Next(s1, steps[1]);
    assert Enabled(s1, steps[1]) && ActivityOf(s2, 0) == Asking(b, Reading);
    var s3 := Next(s2, steps[2]);
    assert s3 == s1.(activities := s3.activities) && ActivityOf(s3, 0) == Resting;
    var s4 := Next(s3, steps[3]);
    assert Enabled(s3, steps[3]) && s4 == s.(activities := s4.activities);
    hide Next, Enabled;
    EndOfRun(s4, steps);
    RunAt(s3, steps, 3);
    RunAt(s2, steps, 2);
    RunAt(s1, steps, 1);
    RunAt(s, steps, 0);
    assert steps[0..] == steps;
  }

  /** The payment takes all bytes and starts to suspend the group. */
  lemma PayingRuns(s: State, b: Bev, steps: seq<Step>)
    requires Quiet(s, b) && s.suspended == {} && LevelsOk(s.levels, s.cfg) && Limit(s, Reading) > 0
    requires steps == [Lock(0, b), Step.Spend(0, b, Reading, Limit(s, Reading), 0)]
    ensures Legal(s, steps)
    ensures var s' := Run(s, steps);
      && ActivityOf(s', 0) == Suspending(Reading, 0) && ActivityOf(s', 1) == Resting
      && s' == s.(levels := WithLimit(s.levels, Reading, 0), suspended := {Reading}, owner := Some(0),
                  held := map[b := Hold(0, 1)], activities := s'.activities)
  {
    hide Legal, Run;
    var s1 := Next(s, steps[0]);
    var s2 := Next(s1, steps[1]);
    EndOfRun(s2, steps);
    RunAt(s1, steps, 1);
    RunAt(s, steps, 0);
    assert steps[0..] == steps;
  }

  /** The only member is blocked, and its lock given back. */
  lemma BlockingRuns(s: State, b: Bev, steps: seq<Step>)
    requires s.members == [b] && s.count == 1 && s.owner == Some(0) && s.held == map[b := Hold(0, 1)] && s.freed == {}
    requires s.pending == {} && s.blocked == {}
    requires ActivityOf(s, 0) == Suspending(Reading, 0) && ActivityOf(s, 1) == Resting
    requires steps == [Go(0, 0), Go(0, 0), Unlock(0, b)]
    ensures Legal(s, steps)
    ensures var s' := Run(s, steps);
      && Quiet(s', b)
      && s' == s.(blocked := {(b, Reading)}, owner := None, held := map[], activities := s'.activities)
  {
    hide Legal, Run;
    var s1 := Next(s, steps[0]);
    assert s1 == s.(blocked := {(b, Reading)}, activities := s1.activities);
    var s2 := Next(s1, steps[1]);
    var s3 := Next(s2, steps[2]);
    assert Enabled(s2, steps[2]) && Quiet(s3, b);
    hide Next, GoOn;
    EndOfRun(s3, steps);
    RunAt(s2, steps, 2);
    RunAt(s1, steps, 1);
    RunAt(s, steps, 0);
    assert steps[0..] == steps;
  }

  lemma ExhaustingRuns(s: State, b: Bev)
    requires Quiet(s, b) && s.suspended == {} && s.blocked == {} && LevelsOk(s.levels, s.cfg) && Limit(s, Reading) > 0
    ensures var steps, none := Exhausting(b, Limit(s, Reading)), WithLimit(s.levels, Reading, 0);
      && Legal(s, steps)
      && var s' := Run(s, steps);
         && Quiet(s', b)
         && s' == s.(levels := none, suspended := {Reading}, blocked := {(b, Reading)}, activities := s'.activities)
  {
    hide Legal, Run, LevelsOk, Next;
    var steps := Exhausting(b, Limit(s, Reading));
    PayingRuns(s, b, steps[..2]);
    BlockingRuns(Run(s, steps[..2]), b, steps[2..]);
    RunConcat(s, steps[..2], steps[2..]);
    assert steps[..2] + steps[2..] == steps;
  }

  /** The loop over all members visits the only one and wraps around. */
  lemma VisitingRuns(s: State, b: Bev, steps: seq<Step>)
    requires s.members == [b] && s.owner == Some(1) && s.held == map[] && ActivityOf(s, 1) == Refilling(Reading)
    requires s.blocked == {(b, Reading)} && s.suspended == {Reading} && Limit(s, Reading) >= s.minShare
    requires steps == [Go(1, 0), Go(1, 0), Go(1, 0)]
    ensures Legal(s, steps)
    ensures var s' := Run(s, steps);
      && s' == At(s.(blocked := {}, suspended := {}), 1, ActivityOf(s', 1))
      && ActivityOf(s', 1) == Unsuspending(Reading, true, 0, true, 0, false, [b])
  {
    hide Legal, Run;
    var s1 := Next(s, steps[0]);
    assert ActivityOf(s1, 1) == Unsuspending(Reading, true, 0, false, 0, false, []) && s1.suspended == {};
    var s2 := Next(s1, steps[1]);
    assert ActivityOf(s2, 1) == Unsuspending(Reading, true, 0, false, 1, false, [b]);
    assert s2 == s1.(blocked := {}, activities := s2.activities);
    var s3 := Next(s2, steps[2]);
    assert ActivityOf(s3, 1) == Unsuspending(Reading, true, 0, true, 0, false, [b]);
    hide Next, GoOn, UnsuspendNext;
    EndOfRun(s3, steps);
    RunAt(s2, steps, 2);
    RunAt(s1, steps, 1);
    RunAt(s, steps, 0);
    assert steps[0..] == steps;
  }

  /** The callback then finds nothing to do for the other direction. */
  lemma ResumingRuns(s: State, b: Bev, steps: seq<Step>)
    requires s.members == [b] && s.count == 1 && s.owner == Some(1) && s.held == map[] && s.freed == {}
      && s.pending == {}
    requires ActivityOf(s, 0) == Resting && ActivityOf(s, 1) == Refilling(Reading)
    requires s.blocked == {(b, Reading)} && s.suspended == {Reading} && Limit(s, Reading) >= s.minShare
    requires steps == [Go(1, 0), Go(1, 0), Go(1, 0), Go(1, 0), Go(1, 0)]
    ensures Legal(s, steps)
    ensures var s' := Run(s, steps); Quiet(s', b) && s'.blocked == {} && s'.suspended == {} && s'.levels == s.levels
  {
    hide Legal, Run;
    VisitingRuns(s, b, steps[..3]);
    var s3 := Run(s, steps[..3]);
    var rest := steps[3..];
    var s4 := Next(s3, rest[0]);
    assert ActivityOf(s4, 1) == Refilling(Writing) && s4 == s3.(pending := {}, activities := s4.activities);
    var s5 := Next(s4, rest[1]);
    assert Quiet(s5, b) && s5 == s4.(owner := None, activities := s5.activities);
    hide Next, GoOn, UnsuspendNext;
    EndOfRun(s5, rest);
    RunAt(s4, rest, 1);
    RunAt(s3, rest, 0);
    assert rest[0..] == rest;
    RunConcat(s, steps[..3], rest);
    assert steps[..3] + rest == steps;
  }

  lemma RefilledRuns(s: State, b: Bev, tick: nat)
    requires Quiet(s, b) && s.blocked == {(b, Reading)} && s.suspended == {Reading} && LevelsOk(s.levels, s.cfg)
    requires Limit(s, Reading) == 0 && 0 < s.minShare <= s.cfg.readRate
    requires tick < TWO32 && Elapsed(s.levels.lastUpdated, tick) == 1
    ensures Legal(s, Refilled(tick))
    ensures var s' := Run(s, Refilled(tick));
      Quiet(s', b) && s'.blocked == {} && s'.suspended == {} && Limit(s', Reading) == s.cfg.readRate
  {
    hide Legal, Run, Elapsed, GoOn;
    var steps := Refilled(tick);
    var s1 := Next(s, steps[0]);
    assert Limit(s1, Reading) == s.cfg.readRate && ActivityOf(s1, 1) == Refilling(Reading);
    ResumingRuns(s1, b, steps[1..]);
    RunNext(s, steps);
  }

  lemma DepartingRuns(s: State, b: Bev)
    requires Quiet(s, b)
    ensures Legal(s, Departing(b))
    ensures var s' := Run(s, Departing(b)); s'.members == [] && s'.count == 0 && s'.held == map[]
  {
    hide Legal, Run;
    var steps := Departing(b);
    var s1 := Next(s, steps[0]);
    assert WithoutAll([b], b) == WithoutAll([b][1..], b) == [];
    assert s1.members == [] && s1.held == map[b := Hold(0, 1)];
    var s2 := Next(s1, steps[1]);
    var s3 := Next(s2, steps[2]);
    assert ActivityOf(s3, 0) == Leaving(b, [], false);
    var s4 := Next(s3, steps[3]);
    assert s4.members == [] && s4.count == 0 && s4.held == map[];
    hide Next, Enabled;
    EndOfRun(s4, steps);
    RunAt(s3, steps, 3);
    RunAt(s2, steps, 2);
    RunAt(s1, steps, 1);
    RunAt(s, steps, 0);
    assert steps[0..] == steps;
  }

  /** One life of a bufferevent in a group, in steps that the locks allow: it joins, asks, spends all bytes and is
      blocked, the next tick resumes it, and it leaves. */
  lemma Lifetime(s: State, b: Bev)
    requires Initial(s) && 0 < s.minShare <= s.cfg.readRate
    ensures var rate, tick := s.cfg.readRate, (s.levels.lastUpdated + 1) % TWO32;
      var asked := Entering(b) + Inquiring(b);
      var spent := asked + Exhausting(b, rate);
      var filled := spent + Refilled(tick);
      && Legal(s, filled + Departing(b))
      && Run(s, asked).blocked == {}
      && Run(s, spent).blocked == {(b, Reading)} && Run(s, spent).suspended == {Reading}
      && Run(s, filled).blocked == {} && Run(s, filled).suspended == {} && Limit(Run(s, filled), Reading) == rate
      && Run(s, filled + Departing(b)).members == []
  {
    hide Legal, Run, Next, Entering, Inquiring, Exhausting, Refilled, Departing;
    var rate, tick := s.cfg.readRate, (s.levels.lastUpdated + 1) % TWO32;
    NextElapsed(s.levels.lastUpdated);
    EnteringRuns(s, b);
    InquiringRuns(Run(s, Entering(b)), b);
    RunConcat(s, Entering(b), Inquiring(b));
    var asked := Entering(b) + Inquiring(b);
    ExhaustingRuns(Run(s, asked), b);
    RunConcat(s, asked, Exhausting(b, rate));
    var spent := asked + Exhausting(b, rate);
    RefilledRuns(Run(s, spent), b, tick);
    RunConcat(s, spent, Refilled(tick));
    var filled := spent + Refilled(tick);
    DepartingRuns(Run(s, filled), b);
    RunConcat(s, filled, Departing(b));
  }
}
