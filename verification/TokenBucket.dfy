/** Token buckets: how many bytes may be read or written, refilled at a fixed rate per tick. */
module TokenBuckets {
  import opened Basics

  const RATE_LIMIT_MAX: nat := SSIZE_MAX

  /** A rate per tick and the most that may be saved up, for each direction. */
  datatype Cfg = Cfg(readRate: nat, readMaximum: nat, writeRate: nat, writeMaximum: nat)

  predicate CfgOk(cfg: Cfg) {
    1 <= cfg.readRate <= cfg.readMaximum <= RATE_LIMIT_MAX && 1 <= cfg.writeRate <= cfg.writeMaximum <= RATE_LIMIT_MAX
  }

  function CfgNew(readRate: nat, readBurst: nat, writeRate: nat, writeBurst: nat): (r: Option<Cfg>)
    ensures r.Some? <==> CfgOk(Cfg(readRate, readBurst, writeRate, writeBurst))
    ensures r.Some? ==> r.value == Cfg(readRate, readBurst, writeRate, writeBurst)
  {
    if readRate > readBurst || writeRate > writeBurst || readRate < 1 || writeRate < 1 then None
    else if readRate > RATE_LIMIT_MAX || writeRate > RATE_LIMIT_MAX
      || readBurst > RATE_LIMIT_MAX || writeBurst > RATE_LIMIT_MAX then None
    else Some(Cfg(readRate, readBurst, writeRate, writeBurst))
  }

  /** A signed 64-bit number as an unsigned one. */
  function Unsigned(x: int): nat {
    x % TWO64
  }

  /** An unsigned 64-bit number as a signed one. */
  function Signed(x: int): int {
    var u := x % TWO64;
    if u <= SSIZE_MAX then u else u - TWO64
  }

  predicate InRange(limit: int) {
    -(SSIZE_MAX as int) - 1 <= limit <= SSIZE_MAX
  }

  /** The machine arithmetic of one refill: no intermediate result is trusted to fit. */
  function RefillMachine(limit: int, rate: nat, maximum: nat, nTicks: nat): int
    requires 0 < nTicks
  {
    if Unsigned(maximum - limit) / nTicks < rate then maximum
    else Signed(Unsigned(limit) + Unsigned(nTicks * rate))
  }

  /** The limit after nTicks ticks: the rate for each, but no more than the maximum. */
  function Refill(limit: int, rate: nat, maximum: nat, nTicks: nat): int {
    if limit + nTicks * rate > maximum then maximum else limit + nTicks * rate
  }

  lemma QuotientBelow(a: nat, n: nat, rate: nat)
    requires n > 0
    ensures a / n < rate <==> a < n * rate
  {
    var q := a / n;
    assert a == q * n + a % n && a % n < n;
    if q < rate {
      MulMonotone(q + 1, rate, n);
      assert (q + 1) * n == q * n + n;
    } else {
      MulMonotone(rate, q, n);
    }
  }

  lemma MachineRefills(limit: int, rate: nat, maximum: nat, nTicks: nat)
    requires InRange(limit) && limit <= maximum <= RATE_LIMIT_MAX && 0 < nTicks
    ensures RefillMachine(limit, rate, maximum, nTicks) == Refill(limit, rate, maximum, nTicks)
    ensures Unsigned(maximum - limit) == maximum - limit
    ensures limit <= Refill(limit, rate, maximum, nTicks) <= maximum
    ensures limit + nTicks * rate <= maximum ==> nTicks * rate < TWO64
  {
    hide Unsigned, Signed, InRange;
    InRangeFacts(limit);
    var p := nTicks * rate;
    UnsignedSame(maximum - limit);
    QuotientBelow(maximum - limit, nTicks, rate);
    if limit + p <= maximum {
      UnsignedSame(p);
      SignedSum(limit, p);
    }
  }

  lemma UnsignedSame(x: nat)
    requires x < TWO64
    ensures Unsigned(x) == x
  {
  }

  lemma InRangeFacts(limit: int)
    requires InRange(limit)
    ensures -(SSIZE_MAX as int) - 1 <= limit <= SSIZE_MAX
  {
  }

  lemma SignedSum(x: int, y: nat)
    requires InRange(x) && y < TWO64 && x + y <= SSIZE_MAX
    ensures Signed(Unsigned(x) + Unsigned(y)) == x + y
  {
    var u := Unsigned(x) + Unsigned(y);
    assert Unsigned(x) == if x < 0 then x + TWO64 else x;
    assert u == if x < 0 then x + y + TWO64 else x + y;
    assert u % TWO64 == if x + y < 0 then x + y + TWO64 else x + y;
  }

  lemma RefillTwice(limit: int, rate: nat, maximum: nat, m: nat, n: nat)
    requires limit <= maximum
    ensures Refill(Refill(limit, rate, maximum, m), rate, maximum, n) == Refill(limit, rate, maximum, m + n)
  {
    assert (m + n) * rate == m * rate + n * rate;
    MulMonotone(0, rate, n);
    MulMonotone(0, rate, m);
  }

  datatype Levels = Levels(readLimit: int, writeLimit: int, lastUpdated: nat)

  /** The ticks since the last update, as the wrapping subtraction of 32-bit tick numbers sees them. */
  function Elapsed(from: nat, to: nat): nat {
    (to - from) % TWO32
  }

  lemma ElapsedRange(from: nat, to: nat)
    requires from < TWO32 && to < TWO32
    ensures Elapsed(from, to) == if from <= to then to - from else to - from + TWO32
  {
  }

  /** The 32-bit number of the tick at a time in milliseconds. */
  function TickOf(msec: nat, msecPerTick: nat): nat
    requires msecPerTick > 0
  {
    (msec / msecPerTick) % TWO32
  }

  function Updated(b: Levels, cfg: Cfg, tick: nat): Levels {
    var n := Elapsed(b.lastUpdated, tick);
    if n == 0 || n > INT_MAX then b
    else Levels(Refill(b.readLimit, cfg.readRate, cfg.readMaximum, n),
                Refill(b.writeLimit, cfg.writeRate, cfg.writeMaximum, n), tick)
  }

  predicate LevelsOk(b: Levels, cfg: Cfg) {
    && CfgOk(cfg) && b.lastUpdated < TWO32
    && InRange(b.readLimit) && b.readLimit <= cfg.readMaximum
    && InRange(b.writeLimit) && b.writeLimit <= cfg.writeMaximum
  }

  class Bucket {
    var readLimit: int
    var writeLimit: int
    var lastUpdated: nat

    function Value(): Levels
      reads this
    {
      Levels(readLimit, writeLimit, lastUpdated)
    }

    constructor ()
      ensures Value() == Levels(0, 0, 0)
    {
      readLimit, writeLimit, lastUpdated := 0, 0, 0;
    }

    /** A fresh bucket starts with the bytes of one tick; a new configuration only clips what is there. */
    method Init(cfg: Cfg, tick: nat, reinitialize: bool)
      requires CfgOk(cfg) && tick < TWO32 && lastUpdated < TWO32
      requires reinitialize ==> InRange(readLimit) && InRange(writeLimit)
      modifies this
      ensures LevelsOk(Value(), cfg)
      ensures !reinitialize ==> Value() == Levels(cfg.readRate, cfg.writeRate, tick)
      ensures reinitialize ==> lastUpdated == old(lastUpdated)
      ensures reinitialize ==> readLimit == if old(readLimit) < cfg.readMaximum then old(readLimit) else cfg.readMaximum
      ensures reinitialize ==>
        writeLimit == if old(writeLimit) < cfg.writeMaximum then old(writeLimit) else cfg.writeMaximum
    {
      if reinitialize {
        if readLimit > cfg.readMaximum { readLimit := cfg.readMaximum; }
        if writeLimit > cfg.writeMaximum { writeLimit := cfg.writeMaximum; }
      } else {
        readLimit, writeLimit, lastUpdated := cfg.readRate, cfg.writeRate, tick;
      }
    }

    method Update(cfg: Cfg, tick: nat) returns (updated: bool)
      requires LevelsOk(Value(), cfg) && tick < TWO32
      modifies this
      ensures LevelsOk(Value(), cfg) && Value() == Updated(old(Value()), cfg, tick)
      ensures updated <==> 0 < Elapsed(old(lastUpdated), tick) <= INT_MAX
      ensures readLimit >= old(readLimit) && writeLimit >= old(writeLimit)
    {
      hide Refill, RefillMachine, Elapsed, Unsigned;
      var nTicks := Elapsed(lastUpdated, tick);
      ElapsedRange(lastUpdated, tick);
      if nTicks == 0 || nTicks > INT_MAX { return false; }
      MachineRefills(readLimit, cfg.readRate, cfg.readMaximum, nTicks);
      MachineRefills(writeLimit, cfg.writeRate, cfg.writeMaximum, nTicks);
      readLimit := RefillMachine(readLimit, cfg.readRate, cfg.readMaximum, nTicks);
      writeLimit := RefillMachine(writeLimit, cfg.writeRate, cfg.writeMaximum, nTicks);
      lastUpdated := tick;
      return true;
    }
  }

  lemma RefillBounds(limit: int, rate: nat, maximum: nat, n: nat)
    requires limit <= maximum
    ensures limit <= Refill(limit, rate, maximum, n) <= maximum
    ensures Refill(limit, rate, maximum, n) - limit <= n * rate
  {
    MulMonotone(0, rate, n);
  }

  /** An update in between changes nothing, as long as the whole span is one the code accepts. */
  lemma UpdateSplits(b: Levels, cfg: Cfg, t1: nat, t2: nat)
    requires LevelsOk(b, cfg) && t1 < TWO32 && t2 < TWO32
    requires Elapsed(b.lastUpdated, t1) + Elapsed(t1, t2) <= INT_MAX
    ensures Updated(Updated(b, cfg, t1), cfg, t2) == Updated(b, cfg, t2)
  {
    hide Refill, Elapsed;
    var m, n := Elapsed(b.lastUpdated, t1), Elapsed(t1, t2);
    ElapsedRange(b.lastUpdated, t1);
    ElapsedRange(t1, t2);
    ElapsedRange(b.lastUpdated, t2);
    MulMonotone(0, cfg.readRate, m);
    RefillBounds(b.readLimit, cfg.readRate, cfg.readMaximum, m);
    RefillBounds(b.writeLimit, cfg.writeRate, cfg.writeMaximum, m);
    if m == 0 || n == 0 { return; }
    RefillTwice(b.readLimit, cfg.readRate, cfg.readMaximum, m, n);
    RefillTwice(b.writeLimit, cfg.writeRate, cfg.writeMaximum, m, n);
  }

  /** What can happen to one direction of a bucket: the clock moves on and the bucket is updated, or bytes are spent. */
  datatype Action = Tick(ticks: nat) | Spend(bytes: nat)

  /** The limit and the last update, the true tick number of that update and of now, and the bytes spent so far. */
  datatype Account = Account(limit: int, lastUpdated: nat, lastTick: nat, now: nat, spent: nat)

  function Do(a: Account, rate: nat, maximum: nat, x: Action): Account {
    match x
    case Tick(d) =>
      var now := a.now + d;
      var n := Elapsed(a.lastUpdated, now % TWO32);
      if n == 0 || n > INT_MAX then a.(now := now)
      else a.(limit := Refill(a.limit, rate, maximum, n), lastUpdated := now % TWO32, lastTick := now, now := now)
    case Spend(b) => a.(limit := a.limit - b, spent := a.spent + b)
  }

  function DoAll(a: Account, rate: nat, maximum: nat, xs: seq<Action>): Account
    decreases |xs|
  {
    if xs == [] then a else DoAll(Do(a, rate, maximum, xs[0]), rate, maximum, xs[1..])
  }

  /** No action spends more than the limit allows at that moment. */
  ghost predicate WithinLimits(a: Account, rate: nat, maximum: nat, xs: seq<Action>)
    decreases |xs|
  {
    xs != [] ==>
      && (xs[0].Spend? ==> xs[0].bytes <= if a.limit > 0 then a.limit else 0)
      && WithinLimits(Do(a, rate, maximum, xs[0]), rate, maximum, xs[1..])
  }

  lemma WrapsToLess(from: nat, d: nat)
    ensures Elapsed(from % TWO32, (from + d) % TWO32) <= d
  {
    assert Elapsed(from % TWO32, (from + d) % TWO32) == d % TWO32;
  }

  /** The most that can still be spent when the clock is at `now`. */
  function Credit(a: Account, rate: nat, now: nat): int {
    (if a.limit > 0 then a.limit else 0) + rate * (now - a.lastTick)
  }

  lemma SplitSpan(rate: nat, now: int, from: int, mid: int)
    ensures rate * (now - from) == (mid - from) * rate + rate * (now - mid)
  {
  }

  lemma CreditNeverGrows(a: Account, rate: nat, maximum: nat, x: Action, now: nat)
    requires a.limit <= maximum && a.lastUpdated == a.lastTick % TWO32 && a.lastTick <= a.now
    requires x.Spend? ==> x.bytes <= if a.limit > 0 then a.limit else 0
    ensures var b := Do(a, rate, maximum, x);
      && b.limit <= maximum && b.lastUpdated == b.lastTick % TWO32 && b.lastTick <= b.now && a.now <= b.now
      && b.spent - a.spent + Credit(b, rate, now) <= Credit(a, rate, now)
  {
    hide Refill, Elapsed;
    var b := Do(a, rate, maximum, x);
    if x.Tick? {
      var d := b.now - a.lastTick;
      var n := Elapsed(a.lastUpdated, b.now % TWO32);
      WrapsToLess(a.lastTick, d);
      RefillBounds(a.limit, rate, maximum, n);
      MulMonotone(n, d, rate);
      SplitSpan(rate, now, a.lastTick, b.now);
    }
  }

  /** However the 32-bit tick numbers wrap, a run spends at most the saved-up bytes plus the rate for each tick. */
  lemma {:induction false} SpendingBounded(a: Account, rate: nat, maximum: nat, xs: seq<Action>)
    requires a.limit <= maximum && a.lastUpdated == a.lastTick % TWO32 && a.lastTick <= a.now
    requires WithinLimits(a, rate, maximum, xs)
    ensures var z := DoAll(a, rate, maximum, xs);
      a.now <= z.now && z.spent - a.spent <= maximum + rate * (z.now - a.lastTick)
  {
    var z := SpendingCredit(a, rate, maximum, xs);
    assert Credit(a, rate, z.now) <= maximum + rate * (z.now - a.lastTick);
  }

  lemma {:induction false} SpendingCredit(a: Account, rate: nat, maximum: nat, xs: seq<Action>) returns (z: Account)
    requires a.limit <= maximum && a.lastUpdated == a.lastTick % TWO32 && a.lastTick <= a.now
    requires WithinLimits(a, rate, maximum, xs)
    ensures z == DoAll(a, rate, maximum, xs) && a.now <= z.now && z.lastTick <= z.now
    ensures z.spent - a.spent <= Credit(a, rate, z.now)
    decreases |xs|
  {
    if xs == [] {
      z := a;
      assert rate * (z.now - a.lastTick) >= 0;
    } else {
      var b := Do(a, rate, maximum, xs[0]);
      CreditNeverGrows(a, rate, maximum, xs[0], a.now);
      z := SpendingCredit(b, rate, maximum, xs[1..]);
      CreditNeverGrows(a, rate, maximum, xs[0], z.now);
    }
  }
}
