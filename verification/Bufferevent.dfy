/** The rate limit of a single bufferevent: suspension for lack of bandwidth and the refill timer. */
module Bufferevents {
  import opened Basics
  import opened TokenBuckets

  datatype Dir = Reading | Writing

  /** Why reading or writing is suspended (the BEV_SUSPEND_ flags). */
  datatype Reason = Watermark | Bandwidth | BandwidthGroup | Lookup | FilterRead

  /** Whether the refill timer is off, waiting for its tick, or due with its callback still to run. */
  datatype Timer = Idle | Pending | Active

  class Bufferevent {
    var readSuspended: set<Reason>
    var writeSuspended: set<Reason>
    var enabledRead: bool
    var enabledWrite: bool
    // What the backend was last told to do.
    var backendRead: bool
    var backendWrite: bool
    var hasLimit: bool
    var cfg: Option<Cfg>
    const limit: Bucket
    var timer: Timer

    function Suspended(d: Dir): set<Reason>
      reads this
    {
      if d == Reading then readSuspended else writeSuspended
    }

    function Enabled(d: Dir): bool
      reads this
    {
      if d == Reading then enabledRead else enabledWrite
    }

    function Backend(d: Dir): bool
      reads this
    {
      if d == Reading then backendRead else backendWrite
    }

    function Limit(d: Dir): int
      reads limit
    {
      if d == Reading then limit.readLimit else limit.writeLimit
    }

    /** The backend works in direction d exactly when it is enabled and nothing suspends it. */
    ghost predicate BackendOk(d: Dir)
      reads this
    {
      Backend(d) == (Enabled(d) && Suspended(d) == {})
    }

    /** An exhausted bucket suspends its direction, and a suspended direction waits for a refill. */
    ghost predicate BandwidthOk(d: Dir)
      reads this, limit
    {
      && (cfg.Some? && Limit(d) <= 0 ==> Bandwidth in Suspended(d))
      && (Bandwidth in Suspended(d) ==> cfg.Some? && timer != Idle)
    }

    ghost predicate Valid()
      reads this, limit
    {
      && limit.lastUpdated < TWO32
      && (cfg.Some? ==> hasLimit && LevelsOk(limit.Value(), cfg.value))
      && BackendOk(Reading) && BackendOk(Writing)
      && BandwidthOk(Reading) && BandwidthOk(Writing)
    }

    constructor ()
      ensures Valid() && fresh(limit) && cfg == None && readSuspended == {} == writeSuspended && timer == Idle
      ensures !enabledRead && !enabledWrite && !hasLimit
    {
      readSuspended, writeSuspended := {}, {};
      enabledRead, enabledWrite, backendRead, backendWrite := false, false, false, false;
      hasLimit, cfg, timer := false, None, Idle;
      limit := new Bucket();
    }

    method TellBackend(d: Dir, on: bool)
      modifies this`backendRead, this`backendWrite
      ensures Backend(d) == on && Backend(Other(d)) == old(Backend(Other(d)))
    {
      if d == Reading { backendRead := on; } else { backendWrite := on; }
    }

    method SetSuspended(d: Dir, s: set<Reason>)
      modifies this`readSuspended, this`writeSuspended
      ensures Suspended(d) == s && Suspended(Other(d)) == old(Suspended(Other(d)))
    {
      if d == Reading { readSuspended := s; } else { writeSuspended := s; }
    }

    method Suspend(d: Dir, what: set<Reason>)
      requires BackendOk(d)
      modifies this`readSuspended, this`writeSuspended, this`backendRead, this`backendWrite
      ensures Suspended(d) == old(Suspended(d)) + what && (what != {} ==> BackendOk(d))
      ensures Suspended(Other(d)) == old(Suspended(Other(d))) && Backend(Other(d)) == old(Backend(Other(d)))
    {
      if Suspended(d) == {} {
        TellBackend(d, false);
      }
      SetSuspended(d, Suspended(d) + what);
    }

    method Unsuspend(d: Dir, what: set<Reason>)
      requires BackendOk(d)
      modifies this`readSuspended, this`writeSuspended, this`backendRead, this`backendWrite
      ensures Suspended(d) == old(Suspended(d)) - what && BackendOk(d)
      ensures Suspended(Other(d)) == old(Suspended(Other(d))) && Backend(Other(d)) == old(Backend(Other(d)))
    {
      SetSuspended(d, Suspended(d) - what);
      if Suspended(d) == {} && Enabled(d) {
        TellBackend(d, true);
      }
    }

    method Enable(read: bool, write: bool)
      requires Valid()
      modifies this`enabledRead, this`enabledWrite, this`backendRead, this`backendWrite
      ensures Valid() && enabledRead == (old(enabledRead) || read) && enabledWrite == (old(enabledWrite) || write)
    {
      hide LevelsOk;
      var implRead := read && readSuspended == {};
      var implWrite := write && writeSuspended == {};
      enabledRead, enabledWrite := enabledRead || read, enabledWrite || write;
      if implRead { TellBackend(Reading, true); }
      if implWrite { TellBackend(Writing, true); }
    }

    method Disable(read: bool, write: bool)
      requires Valid()
      modifies this`enabledRead, this`enabledWrite, this`backendRead, this`backendWrite
      ensures Valid() && enabledRead == (old(enabledRead) && !read) && enabledWrite == (old(enabledWrite) && !write)
    {
      hide LevelsOk;
      enabledRead, enabledWrite := enabledRead && !read, enabledWrite && !write;
      if read { TellBackend(Reading, false); }
      if write { TellBackend(Writing, false); }
    }

    /** Suspension for any reason but the own bandwidth, by a caller from outside. */
    method SuspendOther(d: Dir, what: Reason)
      requires Valid() && what != Bandwidth
      modifies this
      ensures Valid() && Suspended(d) == old(Suspended(d)) + {what} && cfg == old(cfg) && timer == old(timer)
      ensures Suspended(Other(d)) == old(Suspended(Other(d)))
    {
      Suspend(d, {what});
    }

    method UnsuspendOther(d: Dir, what: Reason)
      requires Valid() && what != Bandwidth
      modifies this
      ensures Valid() && Suspended(d) == old(Suspended(d)) - {what} && cfg == old(cfg) && timer == old(timer)
      ensures Suspended(Other(d)) == old(Suspended(Other(d)))
    {
      Unsuspend(d, {what});
    }

    method UpdateBuckets(tick: nat)
      requires Valid() && cfg.Some? && tick < TWO32
      modifies limit
      ensures Valid() && limit.Value() == Updated(old(limit.Value()), cfg.value, tick)
    {
      if tick != limit.lastUpdated {
        var r := limit.Update(cfg.value, tick);
      }
    }

    method SetLimit(d: Dir, n: int)
      modifies limit
      ensures Limit(d) == n && limit.lastUpdated == old(limit.lastUpdated)
      ensures Limit(Other(d)) == old(Limit(Other(d)))
    {
      if d == Reading { limit.readLimit := n; } else { limit.writeLimit := n; }
    }

    /** Accounts for bytes that were read or written. */
    method DecrementBuckets(d: Dir, bytes: int)
      requires Valid()
      requires cfg.Some? ==> InRange(Limit(d) - bytes) && Limit(d) - bytes <= Maximum(cfg.value, d)
      modifies this, limit
      ensures Valid() && cfg == old(cfg) && enabledRead == old(enabledRead) && enabledWrite == old(enabledWrite)
      ensures cfg.None? ==> Suspended(d) == old(Suspended(d)) && Limit(d) == old(Limit(d))
      ensures cfg.Some? ==> Limit(d) == old(Limit(d)) - bytes
      ensures cfg.Some? ==>
        Suspended(d) == if Limit(d) <= 0 then old(Suspended(d)) + {Bandwidth} else old(Suspended(d)) - {Bandwidth}
      ensures timer ==
        if cfg.None? then old(timer)
        else if Limit(d) <= 0 then Pending
        else if Bandwidth in old(Suspended(d)) && Bandwidth !in Suspended(Other(d)) then Idle
        else old(timer)
      ensures Suspended(Other(d)) == old(Suspended(Other(d))) && Limit(Other(d)) == old(Limit(Other(d)))
      ensures limit.lastUpdated == old(limit.lastUpdated)
    {
      if !hasLimit { return; }
      if cfg.Some? {
        SetLimit(d, Limit(d) - bytes);
        if Limit(d) <= 0 {
          Suspend(d, {Bandwidth});
          timer := Pending;
        } else if Bandwidth in Suspended(d) {
          if Bandwidth !in Suspended(Other(d)) {
            timer := Idle;
          }
          Unsuspend(d, {Bandwidth});
        }
      }
    }

    /** The application takes bytes off the limit. */
    method DecrementLimit(d: Dir, decr: int)
      requires Valid() && cfg.Some? && InRange(Limit(d) - decr) && Limit(d) - decr <= Maximum(cfg.value, d)
      modifies this, limit
      ensures Valid() && cfg == old(cfg) && enabledRead == old(enabledRead) && enabledWrite == old(enabledWrite)
      ensures Limit(d) == old(Limit(d)) - decr
      ensures Suspended(d) == if Limit(d) <= 0 then old(Suspended(d)) + {Bandwidth}
        else if old(Limit(d)) <= 0 then old(Suspended(d)) - {Bandwidth} else old(Suspended(d))
      ensures timer ==
        if old(Limit(d)) > 0 && Limit(d) <= 0 then Pending
        else if old(Limit(d)) <= 0 && Limit(d) > 0 && Bandwidth !in Suspended(Other(d)) then Idle
        else old(timer)
      ensures Suspended(Other(d)) == old(Suspended(Other(d))) && Limit(Other(d)) == old(Limit(Other(d)))
      ensures limit.lastUpdated == old(limit.lastUpdated)
    {
      var before := Limit(d);
      SetLimit(d, before - decr);
      var now := before - decr;
      if before > 0 && now <= 0 {
        Suspend(d, {Bandwidth});
        timer := Pending;
      } else if before <= 0 && now > 0 {
        if Bandwidth !in Suspended(Other(d)) {
          timer := Idle;
        }
        Unsuspend(d, {Bandwidth});
      }
    }

    /** The tick the timer waits for has come. */
    method TimerFires()
      requires Valid() && timer == Pending
      modifies this`timer
      ensures Valid() && timer == Active
    {
      timer := Active;
    }

    /** The callback of the refill timer: refills the bucket, resumes what has bytes again, and waits for
        another tick if something has not. */
    method RefillCallback(tick: nat)
      requires Valid() && timer == Active && tick < TWO32
      modifies this, limit
      ensures Valid() && cfg == old(cfg) && enabledRead == old(enabledRead) && enabledWrite == old(enabledWrite)
      ensures cfg.Some? ==> limit.Value() == Updated(old(limit.Value()), cfg.value, tick)
      ensures cfg.Some? ==> forall d ::
        Suspended(d) == if Limit(d) > 0 then old(Suspended(d)) - {Bandwidth} else old(Suspended(d))
      ensures cfg.Some? ==>
        timer == if Bandwidth in Suspended(Reading) || Bandwidth in Suspended(Writing) then Pending else Idle
    {
      hide LevelsOk, Updated, CfgOk;
      timer := Idle;
      if !hasLimit || cfg.None? { return; }
      var again := false;
      var r := limit.Update(cfg.value, tick);
      RatesOk(limit.Value(), cfg.value, Reading);
      if Bandwidth in readSuspended {
        if limit.readLimit > 0 { Unsuspend(Reading, {Bandwidth}); } else { again := true; }
      }
      if Bandwidth in writeSuspended {
        if limit.writeLimit > 0 { Unsuspend(Writing, {Bandwidth}); } else { again := true; }
      }
      if again {
        timer := Pending;
      }
    }

    /** Installs, replaces or removes the configuration; `same` says that it is the very one in use. */
    method SetRateLimit(newCfg: Option<Cfg>, same: bool, tick: nat)
      requires Valid() && (same ==> cfg == newCfg) && (newCfg.Some? ==> CfgOk(newCfg.value)) && tick < TWO32
      modifies this, limit
      ensures Valid() && cfg == newCfg && enabledRead == old(enabledRead) && enabledWrite == old(enabledWrite)
      ensures newCfg.None? ==> forall d :: Suspended(d) == old(Suspended(d)) - {Bandwidth}
      ensures newCfg.Some? && !same ==> forall d ::
        Suspended(d) == if Limit(d) > 0 then old(Suspended(d)) - {Bandwidth} else old(Suspended(d)) + {Bandwidth}
      ensures newCfg.Some? && !same ==> timer == if Limit(Reading) <= 0 || Limit(Writing) <= 0 then Pending else Idle
      ensures newCfg.Some? && old(cfg) == None ==>
        Limit(Reading) == newCfg.value.readRate && Limit(Writing) == newCfg.value.writeRate && limit.lastUpdated == tick
      ensures newCfg.None? || same ==> limit.Value() == old(limit.Value())
      ensures newCfg.Some? && old(cfg).Some? ==> limit.lastUpdated == old(limit.lastUpdated)
      ensures newCfg.Some? && old(cfg).Some? && !same ==> forall d ::
        Limit(d) == if old(Limit(d)) < Maximum(newCfg.value, d) then old(Limit(d)) else Maximum(newCfg.value, d)
    {
      hide LevelsOk, InRange;
      if cfg.Some? { RatesOk(limit.Value(), cfg.value, Reading); }
      if newCfg.None? {
        if hasLimit {
          cfg := None;
          Unsuspend(Reading, {Bandwidth});
          Unsuspend(Writing, {Bandwidth});
          timer := Idle;
        }
        return;
      }
      if hasLimit && same { return; }
      hasLimit := true;
      var reinit := cfg.Some?;
      cfg := newCfg;
      limit.Init(cfg.value, tick, reinit);
      SuspendByLimits();
    }

    /** Suspends the directions that have no bytes, and resumes the others. */
    method SuspendByLimits()
      requires cfg.Some? && hasLimit && LevelsOk(limit.Value(), cfg.value) && BackendOk(Reading) && BackendOk(Writing)
      modifies this`readSuspended, this`writeSuspended, this`backendRead, this`backendWrite, this`timer
      ensures Valid() && timer == if Limit(Reading) <= 0 || Limit(Writing) <= 0 then Pending else Idle
      ensures forall d ::
        Suspended(d) == if Limit(d) > 0 then old(Suspended(d)) - {Bandwidth} else old(Suspended(d)) + {Bandwidth}
    {
      hide LevelsOk;
      RatesOk(limit.Value(), cfg.value, Reading);
      timer := Idle;
      var suspended := false;
      if limit.readLimit > 0 {
        Unsuspend(Reading, {Bandwidth});
      } else {
        Suspend(Reading, {Bandwidth});
        suspended := true;
      }
      if limit.writeLimit > 0 {
        Unsuspend(Writing, {Bandwidth});
      } else {
        Suspend(Writing, {Bandwidth});
        suspended := true;
      }
      if suspended {
        timer := Pending;
      }
    }

    /** The callback of the refill timer at any tick.  A direction that waits for bandwidth resumes if and only if it
        has bytes, or the tick counts and its refill outweighs the debt. */
    method NextTick(d: Dir, tick: nat)
      requires Valid() && Bandwidth in Suspended(d) && tick < TWO32
      modifies this, limit
      ensures Valid() && cfg == old(cfg) && enabledRead == old(enabledRead) && enabledWrite == old(enabledWrite)
      ensures cfg.Some? && Rate(cfg.value, d) > 0
      ensures var n := old(Elapsed(limit.lastUpdated, tick));
        if old(Limit(d)) > 0 || (0 < n <= INT_MAX && old(Limit(d)) + n * Rate(cfg.value, d) > 0)
        then Suspended(d) == old(Suspended(d)) - {Bandwidth} && Backend(d) == (Enabled(d) && Suspended(d) == {})
        else
          && Suspended(d) == old(Suspended(d))
          && Limit(d) == old(Limit(d)) + (if 0 < n <= INT_MAX then n * Rate(cfg.value, d) else 0)
          && limit.lastUpdated == if 0 < n <= INT_MAX then tick else old(limit.lastUpdated)
    {
      hide LevelsOk, Updated;
      assert Limit(d) == LimitOf(limit.Value(), d);
      RefillReaches(limit.Value(), cfg.value, tick, d);
      if timer == Pending {
        TimerFires();
      }
      RefillCallback(tick);
      assert Limit(d) == LimitOf(limit.Value(), d) && limit.lastUpdated == limit.Value().lastUpdated;
    }

    /** Lets the refill timer fire at `tick` and at one tick after the other from there on, until direction d
        resumes. */
    method TicksUntilResumed(d: Dir, tick: nat) returns (n: nat)
      requires Valid() && Bandwidth in Suspended(d) && tick < TWO32
      modifies this, limit
      ensures Valid() && cfg == old(cfg) && cfg.Some? && Rate(cfg.value, d) > 0
      ensures Suspended(d) == old(Suspended(d)) - {Bandwidth} && Backend(d) == (old(Enabled(d)) && Suspended(d) == {})
      ensures n == CallbacksUntil(old(Limit(d)), Rate(cfg.value, d), old(limit.lastUpdated), tick)
    {
      hide LevelsOk, Elapsed, CallbacksUntil, StillWaits;
      ghost var l, last := Limit(d), limit.lastUpdated;
      RatesOk(limit.Value(), cfg.value, d);
      ghost var rate, total := Rate(cfg.value, d), CallbacksUntil(l, Rate(cfg.value, d), last, tick);
      n := 0;
      StartsWaiting(l, rate, last, tick);
      while Bandwidth in Suspended(d)
        invariant Valid() && cfg == old(cfg) && enabledRead == old(enabledRead) && enabledWrite == old(enabledWrite)
        invariant
          if Bandwidth in Suspended(d) then
            && n < total && Suspended(d) == old(Suspended(d))
            && StillWaits(l, rate, last, tick, n, Limit(d), limit.lastUpdated)
          else
            && n == total && Suspended(d) == old(Suspended(d)) - {Bandwidth}
            && Backend(d) == (old(Enabled(d)) && Suspended(d) == {})
        decreases total - n
      {
        ghost var x, from := Limit(d), limit.lastUpdated;
        NextTick(d, (tick + n) % TWO32);
        OneCallback(l, rate, last, tick, n, x, from);
        n := n + 1;
      }
    }

    /** With ticks of a millisecond the only byte allowed is read; then a configuration with ticks of a second
        comes instead.  Reading resumes only after more than 999000 of these. */
    static method LongWait() returns (bev: Bufferevent, n: nat)
      ensures bev.Valid() && n == 999001
    {
      bev := new Bufferevent();
      bev.SetRateLimit(Some(Cfg(1, 1, 1, 1)), false, TickOf(1_000_000, 1));
      bev.DecrementBuckets(Reading, 1);
      bev.SetRateLimit(Some(Cfg(1000, 1000, 1000, 1000)), false, TickOf(1_000_000, 1000));
      assert TickOf(1_000_000, 1) == 1_000_000 && TickOf(1_001_000, 1000) == 1001;
      assert Elapsed(1_000_000, 1001) == TWO32 - 998_999;
      assert bev.Limit(Reading) == 0 && bev.limit.lastUpdated == 1_000_000;
      n := bev.TicksUntilResumed(Reading, TickOf(1_001_000, 1000));
    }
  }

  /** The callbacks, one a tick from `tick` on, that do not count because time does not seem to have moved on. */
  function Dead(last: nat, tick: nat): nat {
    var n := Elapsed(last, tick);
    if n == 0 then 1 else if n > INT_MAX then TWO32 - n + 1 else 0
  }

  /** The ticks that the first callback which counts refills for. */
  function FirstCount(last: nat, tick: nat): nat {
    if Dead(last, tick) == 0 then Elapsed(last, tick) else 1
  }

  /** The callbacks, one a tick from `tick` on, until a limit of l is positive. */
  function CallbacksUntil(l: int, rate: nat, last: nat, tick: nat): nat
    requires rate > 0
  {
    var first := l + FirstCount(last, tick) * rate;
    if l > 0 then 1
    else if first > 0 then Dead(last, tick) + 1
    else Dead(last, tick) + 2 + -first / rate
  }

  /** After n callbacks, none of which was enough, the limit is x and `from` the last update. */
  ghost predicate StillWaits(l: int, rate: nat, last: nat, tick: nat, n: nat, x: int, from: nat) {
    var dead := Dead(last, tick);
    if n <= dead then x == l && from == last && (n > 0 ==> l <= 0)
    else x == l + (FirstCount(last, tick) + (n - 1 - dead)) * rate && x <= 0 && l <= 0 && from == (tick + n - 1) % TWO32
  }

  lemma StartsWaiting(l: int, rate: nat, last: nat, tick: nat)
    requires rate > 0
    ensures StillWaits(l, rate, last, tick, 0, l, last) && 0 < CallbacksUntil(l, rate, last, tick)
  {
  }

  /** Which callbacks count, and for how many ticks. */
  lemma CallbackCounts(last: nat, tick: nat, n: nat, from: nat)
    requires last < TWO32 && tick < TWO32
    requires from == if n <= Dead(last, tick) then last else (tick + n - 1) % TWO32
    ensures var e := Elapsed(from, (tick + n) % TWO32);
      if n < Dead(last, tick) then !(0 < e <= INT_MAX)
      else 0 < e <= INT_MAX && e == if n == Dead(last, tick) then FirstCount(last, tick) else 1
  {
    ElapsedRange(last, tick);
    ElapsedRange(from, (tick + n) % TWO32);
    if n > Dead(last, tick) { assert (tick + n) % TWO32 == (from + 1) % TWO32; }
  }

  /** One more callback: it is the last one, or direction d still waits. */
  lemma OneCallback(l: int, rate: nat, last: nat, tick: nat, n: nat, x: int, from: nat)
    requires rate > 0 && last < TWO32 && tick < TWO32
    requires StillWaits(l, rate, last, tick, n, x, from) && n < CallbacksUntil(l, rate, last, tick)
    ensures var t := (tick + n) % TWO32; var e := Elapsed(from, t); var counts := 0 < e <= INT_MAX;
      if x > 0 || (counts && x + e * rate > 0) then n + 1 == CallbacksUntil(l, rate, last, tick)
      else
        && n + 1 < CallbacksUntil(l, rate, last, tick)
        && StillWaits(l, rate, last, tick, n + 1, x + (if counts then e * rate else 0), if counts then t else from)
  {
    hide Elapsed, Dead, FirstCount;
    CallbackCounts(last, tick, n, from);
    var dead, first := Dead(last, tick), l + FirstCount(last, tick) * rate;
    if l <= 0 && n > dead && first <= 0 {
      var k := n - 1 - dead;
      assert (FirstCount(last, tick) + k) * rate == FirstCount(last, tick) * rate + k * rate;
      assert (FirstCount(last, tick) + (k + 1)) * rate == FirstCount(last, tick) * rate + k * rate + rate;
      assert (k + 1) * rate == k * rate + rate;
      if x + rate > 0 { TicksNeeded(first, rate, k); } else { MoreTicks(first, rate, k); }
    } else if l <= 0 && n > dead {
      MulMonotone(FirstCount(last, tick), FirstCount(last, tick) + (n - 1 - dead), rate);
    }
  }

  /** With n ticks a debt is not paid, with one more it is. */
  lemma TicksNeeded(l: int, rate: nat, n: nat)
    requires rate > 0 && l + n * rate <= 0 < l + (n + 1) * rate
    ensures n == -l / rate
  {
    var q, r := -l / rate, -l % rate;
    assert -l == q * rate + r;
    if n < q {
      MulMonotone(n + 1, q, rate);
    } else if n > q {
      MulMonotone(q + 1, n, rate);
    }
  }

  lemma MoreTicks(l: int, rate: nat, n: nat)
    requires rate > 0 && l + (n + 1) * rate <= 0
    ensures n < -l / rate
  {
    var q, r := -l / rate, -l % rate;
    assert -l == q * rate + r;
    if q <= n { MulMonotone(q + 1, n + 1, rate); }
  }

  function Other(d: Dir): Dir {
    if d == Reading then Writing else Reading
  }

  function Maximum(cfg: Cfg, d: Dir): nat {
    if d == Reading then cfg.readMaximum else cfg.writeMaximum
  }

  function Rate(cfg: Cfg, d: Dir): nat {
    if d == Reading then cfg.readRate else cfg.writeRate
  }

  function LimitOf(b: Levels, d: Dir): int {
    if d == Reading then b.readLimit else b.writeLimit
  }

  lemma NextElapsed(last: nat)
    requires last < TWO32
    ensures Elapsed(last, (last + 1) % TWO32) == 1
  {
    ElapsedRange(last, (last + 1) % TWO32);
  }

  lemma RatesOk(b: Levels, cfg: Cfg, d: Dir)
    requires LevelsOk(b, cfg)
    ensures Rate(cfg, d) > 0 && b.lastUpdated < TWO32 && InRange(b.readLimit) && InRange(b.writeLimit)
  {
  }

  lemma RefillReaches(b: Levels, cfg: Cfg, tick: nat, d: Dir)
    requires LevelsOk(b, cfg)
    ensures Rate(cfg, d) > 0 && b.lastUpdated < TWO32
    ensures var n := Elapsed(b.lastUpdated, tick); var l := LimitOf(b, d); var u := Updated(b, cfg, tick);
      if 0 < n <= INT_MAX then
        && u.lastUpdated == tick && (l > 0 ==> LimitOf(u, d) > 0)
        && (LimitOf(u, d) > 0 <==> l + n * Rate(cfg, d) > 0)
        && (LimitOf(u, d) <= 0 ==> LimitOf(u, d) == l + n * Rate(cfg, d))
      else u == b
  {
    if 0 < Elapsed(b.lastUpdated, tick) <= INT_MAX {
      MulMonotone(0, Elapsed(b.lastUpdated, tick), Rate(cfg, d));
    }
  }
}
