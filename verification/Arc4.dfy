/** The arc4random generator: a permutation of the bytes that is stirred, read, and reduced without bias. */
module Arc4 {
  import opened Basics
  import opened Bytes

  const BYTES_BEFORE_RESEED: int := 1600000
  const DISCARDED: nat := 12 * 256

  /** Adding without carry out of eight bits. */
  function Add8(x: int, y: int): byte {
    (x + y) % 256
  }

  function Identity(): (s: seq<byte>)
    ensures |s| == 256
  {
    seq(256, k requires 0 <= k < 256 => k)
  }

  /** Every byte occurs exactly once. */
  ghost predicate Permutation(s: seq<byte>) {
    |s| == 256 && multiset(s) == multiset(Identity())
  }

  lemma {:induction false} IdentityOnce(n: nat, v: byte)
    requires n <= 256
    ensures multiset(Identity()[..n])[v] == if v < n then 1 else 0
  {
    if n > 0 {
      IdentityOnce(n - 1, v);
      assert Identity()[..n] == Identity()[..n - 1] + [Identity()[n - 1]];
    }
  }

  lemma PermutationOnce(s: seq<byte>, v: byte)
    requires Permutation(s)
    ensures multiset(s)[v] == 1
  {
    IdentityOnce(256, v);
    assert Identity()[..256] == Identity();
  }

  datatype Rc4 = Rc4(i: byte, j: byte, s: seq<byte>)

  function Swapped(s: seq<byte>, i: byte, j: byte): seq<byte>
    requires |s| == 256
  {
    s[i := s[j]][j := s[i]]
  }

  lemma SwappedTwice(s: seq<byte>, i: byte, j: byte)
    requires |s| == 256
    ensures Swapped(Swapped(s, i, j), i, j) == s
  {
  }

  lemma SwappedPermutation(s: seq<byte>, i: byte, j: byte)
    requires Permutation(s)
    ensures Permutation(Swapped(s, i, j))
  {
  }

  /** The state after mixing in one byte of a key; reading a byte mixes in nothing. */
  function Mixed(r: Rc4, d: byte): Rc4
    requires |r.s| == 256
  {
    var i := Add8(r.i, 1);
    var j := Add8(r.j, r.s[i] + d);
    Rc4(i, j, Swapped(r.s, i, j))
  }

  /** The state before mixing in a byte. */
  function Unmixed(r: Rc4, d: byte): Rc4
    requires |r.s| == 256
  {
    var s := Swapped(r.s, r.i, r.j);
    Rc4(Add8(r.i, -1), Add8(r.j, -s[r.i] - d), s)
  }

  /** Nothing is lost by mixing: whoever knows the byte can go back. */
  lemma MixedBack(r: Rc4, d: byte)
    requires |r.s| == 256
    ensures Unmixed(Mixed(r, d), d) == r
  {
    SwappedTwice(r.s, Mixed(r, d).i, Mixed(r, d).j);
  }

  /** The byte that is read from a state after a step. */
  function Output(r: Rc4): byte
    requires |r.s| == 256
  {
    r.s[Add8(r.s[r.i], r.s[r.j])]
  }

  /** The state after n bytes have been read. */
  function After(r: Rc4, n: nat): (k: Rc4)
    requires |r.s| == 256
    ensures |k.s| == 256
  {
    if n == 0 then r else Mixed(After(r, n - 1), 0)
  }

  /** Byte number n that is read from r on. */
  function Stream(r: Rc4, n: nat): byte
    requires |r.s| == 256
  {
    Output(After(r, n + 1))
  }

  /** The next four bytes, of which the first is the highest. */
  function NextWord(r: Rc4): nat
    requires |r.s| == 256
  {
    var b3: nat, b2: nat, b1: nat, b0: nat := Stream(r, 0), Stream(r, 1), Stream(r, 2), Stream(r, 3);
    ((b3 * 256 + b2) * 256 + b1) * 256 + b0
  }

  lemma AfterNext(r: Rc4, n: nat)
    requires |r.s| == 256
    ensures After(r, 0) == r && After(r, n + 1) == Mixed(After(r, n), 0)
  {
  }

  lemma {:induction false} AfterFirst(r: Rc4, n: nat)
    requires |r.s| == 256
    ensures After(Mixed(r, 0), n) == After(r, n + 1)
  {
    hide Mixed;
    if n > 0 { AfterFirst(r, n - 1); }
    AfterNext(r, n);
    AfterNext(r, 0);
  }

  /** The states while n bytes of the key are mixed in. */
  function Keyed(r: Rc4, dat: seq<byte>, n: nat): (k: Rc4)
    requires |r.s| == 256 && dat != []
    ensures |k.s| == 256
  {
    if n == 0 then r else Mixed(Keyed(r, dat, n - 1), dat[(n - 1) % |dat|])
  }

  /** The state after a key has been mixed in. */
  function Rekeyed(r: Rc4, dat: seq<byte>): (k: Rc4)
    requires |r.s| == 256 && dat != []
    ensures |k.s| == 256
  {
    var k := Keyed(r.(i := Add8(r.i, -1)), dat, 256);
    k.(j := k.i)
  }

  /** No key is empty. */
  predicate Keys(seeds: seq<seq<byte>>) {
    forall n | 0 <= n < |seeds| :: seeds[n] != []
  }

  /** The state after several keys have been mixed in, one after the other. */
  function Seeded(r: Rc4, seeds: seq<seq<byte>>): (k: Rc4)
    requires |r.s| == 256 && Keys(seeds)
    ensures |k.s| == 256
  {
    if seeds == [] then r
    else Rekeyed(Seeded(r, seeds[..|seeds| - 1]), seeds[|seeds| - 1])
  }

  /** What stirring makes of a state: the seeds are mixed in, and the first bytes are thrown away. */
  function Stirred(r: Rc4, seeds: seq<seq<byte>>): (k: Rc4)
    requires |r.s| == 256 && Keys(seeds)
    ensures |k.s| == 256
  {
    After(Seeded(r, seeds), DISCARDED)
  }

  /** Arithmetic of 32 bits: 2^32 less the bound, and less twice the bound. */
  function Negated(bound: nat): nat
    requires bound < TWO32
  {
    (1 + (TWO32 - 1 - bound)) % TWO32
  }

  function NegatedTwice(bound: nat): nat
    requires bound < TWO32
  {
    ((TWO32 - 1 - bound * 2 % TWO32) + 1) % TWO32
  }

  lemma NegatedIs(bound: nat)
    requires 0 < bound < TWO32
    ensures Negated(bound) == TWO32 - bound
    ensures bound <= 0x8000_0000 ==> NegatedTwice(bound) == TWO32 - bound * 2
  {
  }

  /** The least number that is accepted. */
  function LeastAccepted(bound: nat): nat
    requires 2 <= bound < TWO32
  {
    if bound > 0x8000_0000 then Negated(bound) else NegatedTwice(bound) % bound
  }

  /** It is what 2^32 leaves when divided by the bound, also where the arithmetic wraps around. */
  lemma LeastIsRemainder(bound: nat)
    requires 2 <= bound < TWO32
    ensures LeastAccepted(bound) == TWO32 % bound
  {
    hide Negated, NegatedTwice;
    NegatedIs(bound);
    if bound > 0x8000_0000 {
      RemainderOf(TWO32, bound, 1, TWO32 - bound);
    } else {
      var x := TWO32 - bound * 2;
      DivMod(x, bound);
      Distribute(x / bound, bound);
      RemainderOf(TWO32, bound, x / bound + 2, x % bound);
    }
  }

  lemma DivMod(x: nat, d: nat)
    requires d > 0
    ensures x == x / d * d + x % d && x % d < d
  {
  }

  lemma Distribute(q: nat, d: nat)
    ensures (q + 2) * d == q * d + 2 * d
  {
  }

  lemma RemainderOf(x: nat, d: nat, q: nat, r: nat)
    requires r < d && x == q * d + r
    ensures x % d == r && x / d == q
  {
    var q', r' := x / d, x % d;
    assert x == q' * d + r';
    assert (q - q') * d == r' - r;
    if q > q' { MulMonotone(1, q - q', d); } else if q < q' { MulMonotone(1, q' - q, d); }
  }

  /** The numbers from lo up to hi that are reduced to r. */
  ghost function Preimages(lo: nat, hi: nat, bound: nat, r: nat): set<nat>
    requires bound > 0
  {
    set x: nat | lo <= x < hi && x % bound == r
  }

  /** In q times as many consecutive numbers as the bound says, each remainder occurs q times. */
  lemma {:induction false} EvenlySpread(lo: nat, q: nat, bound: nat, r: nat)
    requires r < bound
    ensures |Preimages(lo, lo + q * bound, bound, r)| == q
  {
    if q == 0 {
      assert Preimages(lo, lo + q * bound, bound, r) == {};
    } else {
      var mid := lo + (q - 1) * bound;
      Product(q - 1, bound);
      assert q * bound == (q - 1) * bound + bound;
      EvenlySpread(lo, q - 1, bound, r);
      var x := OneOfThem(mid, bound, r);
      assert Preimages(lo, lo + q * bound, bound, r) == Preimages(lo, mid, bound, r) + {x};
    }
  }

  /** Of as many consecutive numbers as the bound says, exactly one leaves the remainder r. */
  lemma OneOfThem(lo: nat, bound: nat, r: nat) returns (x: nat)
    requires r < bound
    ensures lo <= x < lo + bound && x % bound == r
    ensures forall y: nat | lo <= y < lo + bound && y % bound == r :: y == x
  {
    var q, m := lo / bound, lo % bound;
    assert lo == q * bound + m;
    x := if m <= r then lo + (r - m) else lo + (r - m) + bound;
    if m <= r {
      RemainderOf(x, bound, q, r);
    } else {
      assert (q + 1) * bound == q * bound + bound;
      RemainderOf(x, bound, q + 1, r);
    }
    forall y: nat | lo <= y < lo + bound && y % bound == r ensures y == x {
      SameRemainder(x, y, bound);
    }
  }

  lemma SameRemainder(x: nat, y: nat, d: nat)
    requires d > 0 && x % d == y % d && x < y + d && y < x + d
    ensures x == y
  {
    var p, q := x / d, y / d;
    assert x == p * d + x % d && y == q * d + y % d;
    assert x - y == (p - q) * d;
    if p > q { MulMonotone(1, p - q, d); } else if p < q { MulMonotone(1, q - p, d); }
  }

  /** Every result is reached from the same number of accepted words: the reduction has no bias. */
  lemma Unbiased(bound: nat, r: nat)
    requires 2 <= bound < TWO32 && r < bound
    ensures |Preimages(LeastAccepted(bound), TWO32, bound, r)| == TWO32 / bound
  {
    LeastIsRemainder(bound);
    var q := TWO32 / bound;
    assert TWO32 == q * bound + LeastAccepted(bound);
    EvenlySpread(LeastAccepted(bound), q, bound, r);
  }

  class Generator {
    const s: array<byte>
    var i: byte
    var j: byte
    var initialized: bool
    var seededOk: bool
    var count: int
    var stirPid: int
    // The bytes handed out since the generator was last stirred.
    ghost var since: nat

    function Value(): Rc4
      reads this, s
    {
      Rc4(i, j, s[..])
    }

    /** The state from which stirring starts. */
    function Start(): (r: Rc4)
      requires s.Length == 256
      reads this, s
      ensures |r.s| == 256
    {
      if initialized then Value() else Rc4(0, 0, Identity())
    }

    /** The state is a permutation, and it does not get old. */
    ghost predicate Valid()
      reads this, s
    {
      && s.Length == 256
      && (initialized ==> Permutation(s[..]))
      && (seededOk ==> initialized && since + count <= BYTES_BEFORE_RESEED + 4)
    }

    constructor ()
      ensures Valid() && fresh(s) && !initialized && !seededOk && count == 0 && since == 0
    {
      s := new byte[256](_ => 0);
      i, j, initialized, seededOk, count, stirPid, since := 0, 0, false, false, 0, 0, 0;
    }

    method Init()
      requires s.Length == 256
      modifies this`i, this`j, s
      ensures Permutation(s[..]) && Value() == Rc4(0, 0, Identity())
    {
      for n := 0 to 256
        invariant forall k | 0 <= k < n :: s[k] == k
      {
        s[n] := n;
      }
      assert s[..] == Identity();
      i, j := 0, 0;
    }

    /** Exchanges two bytes of the state. */
    method Swap(x: byte, y: byte)
      requires s.Length == 256
      modifies s
      ensures s[..] == Swapped(old(s[..]), x, y)
    {
      var si := s[x];
      s[x] := s[y];
      s[y] := si;
    }

    /** Mixes a key into the state. */
    method AddRandom(dat: seq<byte>)
      requires s.Length == 256 && dat != []
      modifies this`i, this`j, s
      ensures Value() == Rekeyed(old(Value()), dat)
      ensures old(Permutation(s[..])) ==> Permutation(s[..])
    {
      hide Permutation, Mixed;
      ghost var r := Value().(i := Add8(i, -1));
      i := Add8(i, -1);
      for n := 0 to 256
        invariant Value() == Keyed(r, dat, n)
        invariant old(Permutation(s[..])) ==> Permutation(s[..])
      {
        Mix(dat[n % |dat|]);
      }
      j := i;
    }

    method Mix(d: byte)
      requires s.Length == 256
      modifies this`i, this`j, s
      ensures Value() == Mixed(old(Value()), d)
      ensures old(Permutation(s[..])) ==> Permutation(s[..])
    {
      hide Permutation, Swapped;
      i := Add8(i, 1);
      var si: int, x: int := s[i], d;
      j := Add8(j, si + x);
      if Permutation(s[..]) { SwappedPermutation(s[..], i, j); }
      Swap(i, j);
    }

    method GetByte() returns (b: byte)
      requires s.Length == 256
      modifies this`i, this`j, s
      ensures Value() == Mixed(old(Value()), 0) && b == Output(Value())
      ensures old(Permutation(s[..])) ==> Permutation(s[..])
    {
      hide Permutation;
      i := Add8(i, 1);
      var si := s[i];
      j := Add8(j, si);
      var sj := s[j];
      if Permutation(s[..]) { SwappedPermutation(s[..], i, j); }
      s[i] := sj;
      s[j] := si;
      assert s[..] == Swapped(old(s[..]), i, j);
      b := s[Add8(si, sj)];
    }

    /** Seeds the generator with whatever the system has to offer, and discards the first bytes. */
    method Stir(seeds: seq<seq<byte>>) returns (ok: bool)
      requires Valid() && Keys(seeds)
      modifies this, s
      ensures Valid() && initialized && ok == seededOk && seededOk == (old(seededOk) || seeds != [])
        && stirPid == old(stirPid)
      ensures ok ==> since == 0 && count == BYTES_BEFORE_RESEED && Value() == Stirred(old(Start()), seeds)
      ensures !ok ==> since == old(since) && count == old(count) && Value() == old(Start())
    {
      hide Permutation, Mixed, Output, Rekeyed, After, Seeded;
      if !initialized {
        Init();
        initialized := true;
      }
      ghost var r := Value();
      SeededNone(r, seeds);
      for n := 0 to |seeds|
        invariant s.Length == 256 && Permutation(s[..]) && initialized && since == old(since) && count == old(count)
        invariant seededOk == (old(seededOk) || n > 0) && stirPid == old(stirPid)
        invariant Keys(seeds[..n]) && Value() == Seeded(r, seeds[..n])
      {
        SeededNext(r, seeds, n);
        AddRandom(seeds[n]);
        seededOk := true;
      }
      assert seeds[..|seeds|] == seeds;
      if !seededOk { return false; }
      r := Value();
      AfterNext(r, 0);
      for n := 0 to 12 * 256
        invariant s.Length == 256 && Permutation(s[..]) && initialized && seededOk && stirPid == old(stirPid)
        invariant Value() == After(r, n)
      {
        AfterNext(r, n);
        var b := GetByte();
      }
      count := BYTES_BEFORE_RESEED;
      since := 0;
      ok := true;
    }

    method StirIfNeeded(pid: int, seeds: seq<seq<byte>>)
      requires Valid() && Keys(seeds)
      modifies this, s
      ensures Valid() && initialized
        && seededOk == (old(seededOk) || (Needed(old(count), old(initialized), old(stirPid), pid) && seeds != []))
      ensures seededOk ==> count > 0
      ensures Value() ==
        if !Needed(old(count), old(initialized), old(stirPid), pid) then old(Value())
        else if seededOk then Stirred(old(Start()), seeds) else old(Start())
      ensures !Needed(old(count), old(initialized), old(stirPid), pid) ==>
        since == old(since) && count == old(count) && stirPid == pid
      ensures seededOk && Needed(old(count), old(initialized), old(stirPid), pid) ==>
        since == 0 && count == BYTES_BEFORE_RESEED
    {
      if count <= 0 || !initialized || stirPid != pid {
        stirPid := pid;
        var ok := Stir(seeds);
      }
    }

    /** The next four bytes as a word. */
    method Word() returns (val: nat)
      requires s.Length == 256 && Permutation(s[..])
      modifies this`i, this`j, s, this`since
      ensures Permutation(s[..]) && val < TWO32 && since == old(since) + 4
      ensures val == NextWord(old(Value())) && Value() == After(old(Value()), 4)
    {
      hide Permutation, Mixed, Output;
      ghost var r := Value();
      AfterNext(r, 0);
      AfterNext(r, 1);
      AfterNext(r, 2);
      AfterNext(r, 3);
      var b3 := GetByte();
      var b2 := GetByte();
      var b1 := GetByte();
      var b0 := GetByte();
      val := Joined(b3, b2, b1, b0);
      since := since + 4;
    }

    method Random(pid: int, seeds: seq<seq<byte>>) returns (val: nat)
      requires Valid() && Keys(seeds)
      modifies this, s
      ensures Valid() && initialized && val < TWO32
      ensures seededOk ==> count > 0 && since <= BYTES_BEFORE_RESEED + 3
      ensures var r :=
        if !Needed(old(count) - 4, old(initialized), old(stirPid), pid) then old(Value())
        else if seededOk then Stirred(old(Start()), seeds) else old(Start());
        |r.s| == 256 && val == NextWord(r) && Value() == After(r, 4)
    {
      hide Permutation, Stirred, NextWord, After;
      count := count - 4;
      StirIfNeeded(pid, seeds);
      val := Word();
    }

    /** Fills a buffer from its end.  `before` are the states from which the bytes are read, in the order of reading:
        each follows the one before it, unless the generator is stirred between them because it has got old. */
    method Fill(buf: array<byte>, pid: int, seeds: seq<seq<byte>>) returns (ghost before: seq<Rc4>)
      requires Valid() && buf != s && Keys(seeds)
      modifies this, s, buf
      ensures Valid() && initialized
      ensures seededOk ==> count > 0 && since <= BYTES_BEFORE_RESEED + 3
      ensures |before| == buf.Length
      ensures forall k | 0 <= k < |before| ::
        |before[k].s| == 256 && buf[buf.Length - 1 - k] == Stream(before[k], 0)
      ensures !Needed(old(count), old(initialized), old(stirPid), pid) && buf.Length < old(count) ==>
        Value() == After(old(Value()), buf.Length) && since == old(since) + buf.Length
        && count == old(count) - buf.Length
        && forall k | 0 <= k < buf.Length :: buf[buf.Length - 1 - k] == Stream(old(Value()), k)
    {
      hide Permutation, Mixed, Output, Stirred, After, Seeded;
      StirIfNeeded(pid, seeds);
      var n := buf.Length;
      before := [];
      ghost var r, c := Value(), count;
      ghost var steady := !Needed(old(count), old(initialized), old(stirPid), pid) && buf.Length < old(count);
      AfterNext(r, 0);
      while n > 0
        invariant 0 <= n <= buf.Length && Valid() && initialized && (seededOk ==> count > 0)
        invariant |before| == buf.Length - n
        invariant forall k | 0 <= k < |before| ::
          |before[k].s| == 256 && buf[buf.Length - 1 - k] == Stream(before[k], 0)
        invariant steady ==> count == c - |before| && Value() == After(r, |before|) && since == old(since) + |before|
        invariant steady ==> forall k | 0 <= k < |before| :: buf[buf.Length - 1 - k] == Stream(r, k)
      {
        n := n - 1;
        count := count - 1;
        if count <= 0 { var ok := Stir(seeds); }
        AfterNext(Value(), 0);
        AfterNext(r, |before|);
        before := before + [Value()];
        var b := GetByte();
        buf[n] := b;
        since := since + 1;
      }
    }

    /** A number below the bound: the first word that is not too small, reduced.  Gives up after `tries` words. */
    method Uniform(bound: nat, tries: nat, pid: int, seeds: seq<seq<byte>>)
      returns (ok: bool, r: nat, ghost drawn: seq<nat>)
      requires Valid() && bound < TWO32 && Keys(seeds)
      modifies this, s
      ensures Valid()
      ensures bound < 2 ==> ok && r == 0
      ensures forall w <- drawn :: w < TWO32
      ensures bound >= 2 && ok ==>
        drawn != [] && TWO32 % bound <= drawn[|drawn| - 1] && r == drawn[|drawn| - 1] % bound && r < bound
      ensures bound >= 2 ==>
        forall k | 0 <= k < (if ok then |drawn| - 1 else |drawn|) :: drawn[k] < TWO32 % bound
      ensures !ok ==> |drawn| == tries
    {
      hide Stirred, NextWord, After, Permutation;
      ok, r, drawn := true, 0, [];
      if bound < 2 { return; }
      LeastIsRemainder(bound);
      ghost var least := TWO32 % bound;
      var min := if bound > 0x8000_0000 then Negated(bound) else NegatedTwice(bound) % bound;
      for n := 0 to tries
        invariant Valid() && |drawn| == n && forall k | 0 <= k < n :: drawn[k] < least
      {
        var word := Random(pid, seeds);
        drawn := drawn + [word];
        if word >= min {
          RemainderBelow(word, bound);
          return true, word % bound, drawn;
        }
      }
      ok := false;
    }
  }

  function Joined(b3: int, b2: int, b1: int, b0: int): int {
    b3 * 0x100_0000 + b2 * 0x1_0000 + b1 * 0x100 + b0
  }

  lemma RemainderBelow(x: nat, d: nat)
    requires d > 0
    ensures x % d < d
  {
  }

  lemma SeededNone(r: Rc4, seeds: seq<seq<byte>>)
    requires |r.s| == 256
    ensures seeds[..0] == [] && Seeded(r, []) == r
  {
  }

  lemma SeededNext(r: Rc4, seeds: seq<seq<byte>>, n: nat)
    requires |r.s| == 256 && n < |seeds| && Keys(seeds)
    ensures Keys(seeds[..n + 1])
    ensures seeds[n] != [] && Seeded(r, seeds[..n + 1]) == Rekeyed(Seeded(r, seeds[..n]), seeds[n])
  {
    hide Rekeyed;
    assert seeds[..n + 1][..n] == seeds[..n];
  }

  predicate Needed(count: int, initialized: bool, stirPid: int, pid: int) {
    count <= 0 || !initialized || stirPid != pid
  }
}
