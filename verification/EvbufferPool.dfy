/** Runs of buffer operations over any number of evbuffers. */
module EvbufferPool {
  import opened Bytes
  import opened Evbuffers

  /** The operations; buffers are named by their index. */
  datatype Op =
    | OpAdd(b: nat, data: seq<byte>)
    | OpPrepend(b: nat, data: seq<byte>)
    | OpDrain(b: nat, n: nat)
    | OpRemove(b: nat, n: nat)
    | OpPullup(b: nat, size: int)
    | OpAddBuffer(dst: nat, src: nat)
    | OpPrependBuffer(dst: nat, src: nat)
    | OpRemoveBuffer(src: nat, dst: nat, n: nat)

  /** Which ends of a buffer are frozen. */
  datatype Flags = Flags(start: bool, end: bool)

  type Bytestrings = seq<seq<byte>>

  predicate WellFormed(op: Op, n: nat) {
    match op
    case OpAdd(b, _) => b < n
    case OpPrepend(b, _) => b < n
    case OpDrain(b, _) => b < n
    case OpRemove(b, _) => b < n
    case OpPullup(b, _) => b < n
    case OpAddBuffer(dst, src) => dst < n && src < n
    case OpPrependBuffer(dst, src) => dst < n && src < n
    case OpRemoveBuffer(src, dst, _) => dst < n && src < n
  }

  function Min(a: nat, b: nat): nat {
    if a < b then a else b
  }

  /** What the operation means for the byte strings when nothing stands in its way. */
  function Exec(op: Op, s: Bytestrings): Bytestrings
    requires WellFormed(op, |s|)
  {
    match op
    case OpAdd(b, data) => s[b := s[b] + data]
    case OpPrepend(b, data) => s[b := data + s[b]]
    case OpDrain(b, n) => s[b := s[b][Min(n, |s[b]|)..]]
    case OpRemove(b, n) => s[b := s[b][Min(n, |s[b]|)..]]
    case OpPullup(_, _) => s
    case OpAddBuffer(dst, src) => if dst == src then s else s[dst := s[dst] + s[src]][src := []]
    case OpPrependBuffer(dst, src) => if dst == src then s else s[dst := s[src] + s[dst]][src := []]
    case OpRemoveBuffer(src, dst, n) =>
      if dst == src then s else
        var k := Min(n, |s[src]|);
        s[dst := s[dst] + s[src][..k]][src := s[src][k..]]
  }

  /** No end of a buffer that the operation works on is frozen. */
  predicate Allowed(op: Op, f: seq<Flags>)
    requires WellFormed(op, |f|)
  {
    match op
    case OpAdd(b, _) => !f[b].end
    case OpPrepend(b, _) => !f[b].start
    case OpDrain(b, _) => !f[b].start
    case OpRemove(b, _) => !f[b].start
    case OpPullup(_, _) => true
    case OpAddBuffer(dst, src) => !f[dst].end && !f[src].start
    case OpPrependBuffer(dst, src) => !f[dst].start && !f[src].start
    case OpRemoveBuffer(src, dst, _) => !f[dst].end && !f[src].start
  }

  /** The memory the operation may need: the sizes of one allocation and of the result. */
  predicate Fits(op: Op, s: Bytestrings)
    requires WellFormed(op, |s|)
  {
    match op
    case OpAdd(b, data) => |data| <= CHAIN_MAX - CHAIN_SIZE && |s[b]| + |data| <= SIZE_MAX
    case OpPrepend(b, data) => |data| <= CHAIN_MAX - CHAIN_SIZE && |s[b]| + |data| <= SIZE_MAX
    case OpRemoveBuffer(src, dst, _) => |s[src]| + |s[dst]| <= SIZE_MAX
    case _ => true
  }

  /** What a failing operation may leave behind: the buffers as they were, except that a failing prepend may
      have added a suffix of its data, and a failing remove_buffer may have lost bytes at the end of those moved. */
  ghost predicate Failed(op: Op, s: Bytestrings, t: Bytestrings)
    requires WellFormed(op, |s|)
  {
    match op
    case OpPrepend(b, data) => exists k | 0 <= k <= |data| :: t == s[b := data[k..] + s[b]]
    case OpRemoveBuffer(src, dst, n) =>
      t == s || (dst != src && exists kept | 0 <= kept <= Min(n, |s[src]|) ::
        t == s[dst := s[dst] + s[src][..kept]][src := s[src][Min(n, |s[src]|)..]])
    case _ => t == s
  }

  /** The operation takes the byte strings from s to t. */
  ghost predicate Step(op: Op, f: seq<Flags>, oom: bool, s: Bytestrings, t: Bytestrings)
    requires WellFormed(op, |s|) && |s| == |f|
  {
    && (t == Exec(op, s) || Failed(op, s, t))
    && (!oom && Allowed(op, f) && Fits(op, s) ==> t == Exec(op, s))
  }

  ghost function Memory(bufs: seq<Evbuffer>): set<object>
    reads bufs
  {
    set b, o | b in bufs && o in b.Repr :: o
  }

  /** The buffers are compact and share no memory; f are their flags. */
  ghost predicate Pool(bufs: seq<Evbuffer>, f: seq<Flags>)
    reads bufs, Memory(bufs)
  {
    && |bufs| == |f|
    && (forall i | 0 <= i < |bufs| :: bufs[i].Compact())
    && (forall i | 0 <= i < |bufs| :: f[i] == Flags(bufs[i].freezeStart, bufs[i].freezeEnd))
    && (forall i, j | 0 <= i < j < |bufs| :: bufs[i].Repr !! bufs[j].Repr)
  }

  ghost predicate Shows(bufs: seq<Evbuffer>, s: Bytestrings)
    reads bufs
  {
    |bufs| == |s| && forall i | 0 <= i < |bufs| :: bufs[i].Contents() == s[i]
  }

  /** Applies an operation on one buffer. */
  method ApplyOne(bufs: seq<Evbuffer>, b: nat, op: Op, oom: bool, ghost f: seq<Flags>, ghost s: Bytestrings)
      returns (ghost t: Bytestrings)
    requires Pool(bufs, f) && Shows(bufs, s) && WellFormed(op, |bufs|)
    requires match op case OpAdd(x, _) => x == b case OpPrepend(x, _) => x == b case OpDrain(x, _) => x == b
      case OpRemove(x, _) => x == b case OpPullup(x, _) => x == b case _ => false
    modifies bufs[b].Repr
    ensures bufs[b].Compact() && fresh(bufs[b].Repr - old(bufs[b].Repr))
    ensures Flags(bufs[b].freezeStart, bufs[b].freezeEnd) == f[b]
    ensures t == s[b := bufs[b].Contents()] && Step(op, f, oom, s, t)
  {
    hide Flatten, Evbuffer.Valid, Evbuffer.NoGaps, Evbuffer.AtTail;
    var buf := bufs[b];
    assert buf.Compact();
    buf.LengthOk();
    assert s[b] == buf.Contents() && s[b := s[b]] == s && s[b][|s[b]|..] == [];
    match op
    case OpAdd(_, data) =>
      var r := buf.Add(data, oom);
      t := s[b := buf.Contents()];
    case OpPrepend(_, data) =>
      var r, done := buf.Prepend(data, oom);
      t := s[b := buf.Contents()];
      assert data[0..] == data;
      assert t == s[b := data[|data| - done..] + s[b]];
    case OpDrain(_, n) =>
      var r := buf.Drain(n);
      t := s[b := buf.Contents()];
    case OpRemove(_, n) =>
      var r, data, taken := buf.Remove(n);
      t := s[b := buf.Contents()];
    case OpPullup(_, size) =>
      var r := buf.Pullup(size, oom);
      t := s[b := buf.Contents()];
  }

  /** Applies an operation on two buffers, which may be the same one. */
  method ApplyTwo(bufs: seq<Evbuffer>, dst: nat, src: nat, op: Op, oom: bool, ghost f: seq<Flags>, ghost s: Bytestrings)
      returns (ghost t: Bytestrings)
    requires Pool(bufs, f) && Shows(bufs, s) && WellFormed(op, |bufs|)
    requires match op case OpAddBuffer(x, y) => x == dst && y == src case OpPrependBuffer(x, y) => x == dst && y == src
      case OpRemoveBuffer(y, x, _) => x == dst && y == src case _ => false
    modifies bufs[dst].Repr, bufs[src].Repr
    ensures bufs[dst].Compact() && bufs[src].Compact() && (dst == src || bufs[dst].Repr !! bufs[src].Repr)
    ensures fresh(bufs[dst].Repr + bufs[src].Repr - old(bufs[dst].Repr + bufs[src].Repr))
    ensures Flags(bufs[dst].freezeStart, bufs[dst].freezeEnd) == f[dst]
    ensures Flags(bufs[src].freezeStart, bufs[src].freezeEnd) == f[src]
    ensures t == s[dst := bufs[dst].Contents()][src := bufs[src].Contents()] && Step(op, f, oom, s, t)
  {
    hide Flatten, Evbuffer.Valid, Evbuffer.NoGaps, Evbuffer.AtTail;
    var d, b := bufs[dst], bufs[src];
    assert d.Compact() && b.Compact() && (dst == src || d.Repr !! b.Repr);
    d.LengthOk();
    b.LengthOk();
    match op {
    case OpAddBuffer(_, _) =>
      var r := d.AddBuffer(b);
      t := s[dst := d.Contents()][src := b.Contents()];
    case OpPrependBuffer(_, _) =>
      var r := d.PrependBuffer(b);
      t := s[dst := d.Contents()][src := b.Contents()];
    case OpRemoveBuffer(_, _, n) =>
      var result, r, kept := b.RemoveBuffer(d, n, oom);
      t := s[dst := d.Contents()][src := b.Contents()];
      if r > 0 {
        assert t == s[dst := s[dst] + s[src][..kept]][src := s[src][r..]];
      } else if r == 0 {
        assert s[src][..0] == [] && s[dst] + [] == s[dst];
      }
    }
    assert d.Contents() == s[dst] && b.Contents() == s[src] ==> t == s;
  }

  /** The buffers that an operation works on. */
  function Touched(op: Op): (nat, nat) {
    match op
    case OpAdd(b, _) => (b, b)
    case OpPrepend(b, _) => (b, b)
    case OpDrain(b, _) => (b, b)
    case OpRemove(b, _) => (b, b)
    case OpPullup(b, _) => (b, b)
    case OpAddBuffer(dst, src) => (dst, src)
    case OpPrependBuffer(dst, src) => (dst, src)
    case OpRemoveBuffer(src, dst, _) => (dst, src)
  }

  datatype Change = Change(bufs: seq<Evbuffer>, i: nat, j: nat, f: seq<Flags>, s: Bytestrings, t: Bytestrings)

  /** When only buffers i and j were worked on, the pool is as good as before. */
  twostate lemma OthersKept(c: Change)
    requires old(Pool(c.bufs, c.f)) && old(Shows(c.bufs, c.s)) && c.i < |c.bufs| && c.j < |c.bufs|
    requires c.bufs[c.i].Compact() && c.bufs[c.j].Compact() && (c.i == c.j || c.bufs[c.i].Repr !! c.bufs[c.j].Repr)
    requires fresh(c.bufs[c.i].Repr + c.bufs[c.j].Repr - old(c.bufs[c.i].Repr + c.bufs[c.j].Repr))
    requires Flags(c.bufs[c.i].freezeStart, c.bufs[c.i].freezeEnd) == c.f[c.i]
    requires Flags(c.bufs[c.j].freezeStart, c.bufs[c.j].freezeEnd) == c.f[c.j]
    requires c.t == c.s[c.i := c.bufs[c.i].Contents()][c.j := c.bufs[c.j].Contents()]
    requires forall k | 0 <= k < |c.bufs| && k != c.i && k != c.j :: forall o | o in old(c.bufs[k].Repr) :: unchanged(o)
    ensures Pool(c.bufs, c.f) && Shows(c.bufs, c.t)
  {
    hide Flatten, Evbuffer.Valid, Evbuffer.NoGaps, Evbuffer.AtTail;
    forall k | 0 <= k < |c.bufs| && k != c.i && k != c.j
      ensures c.bufs[k].Compact() && c.bufs[k].Repr == old(c.bufs[k].Repr) && unchanged(c.bufs[k])
    {
      assert old(c.bufs[k].Compact());
      assert c.bufs[k] in old(c.bufs[k].Repr);
    }
  }

  /** Applies one operation. */
  method Apply(bufs: seq<Evbuffer>, op: Op, oom: bool, ghost f: seq<Flags>, ghost s: Bytestrings)
      returns (ghost t: Bytestrings)
    requires Pool(bufs, f) && Shows(bufs, s) && WellFormed(op, |bufs|)
    modifies bufs[Touched(op).0].Repr, bufs[Touched(op).1].Repr
    ensures Pool(bufs, f) && Shows(bufs, t) && Step(op, f, oom, s, t)
    ensures forall i | 0 <= i < |bufs| ::
      fresh(bufs[i].Repr - old(bufs[i].Repr + bufs[Touched(op).0].Repr + bufs[Touched(op).1].Repr))
  {
    hide Flatten, Evbuffer.Valid, Evbuffer.NoGaps, Evbuffer.AtTail, Step;
    var i, j := Touched(op).0, Touched(op).1;
    if op.OpAddBuffer? || op.OpPrependBuffer? || op.OpRemoveBuffer? {
      t := ApplyTwo(bufs, i, j, op, oom, f, s);
    } else {
      t := ApplyOne(bufs, i, op, oom, f, s);
    }
    OthersKept(Change(bufs, i, j, f, s, t));
  }

  lemma SameSize(bufs: seq<Evbuffer>, f: seq<Flags>, s: Bytestrings)
    requires Pool(bufs, f) && Shows(bufs, s)
    ensures |bufs| == |f| == |s|
  {
  }

  /** The byte strings after each operation of a run. */
  ghost predicate Trace(ops: seq<Op>, f: seq<Flags>, oom: bool, trace: seq<Bytestrings>) {
    && |trace| == |ops| + 1
    && (forall k | 0 <= k <= |ops| :: |trace[k]| == |f|)
    && (forall k | 0 <= k < |ops| :: WellFormed(ops[k], |f|) && Step(ops[k], f, oom, trace[k], trace[k + 1]))
  }

  /** Any run of operations over any pool of buffers. */
  method Run(bufs: seq<Evbuffer>, ops: seq<Op>, oom: bool, ghost f: seq<Flags>, ghost s: Bytestrings)
      returns (ghost trace: seq<Bytestrings>)
    requires Pool(bufs, f) && Shows(bufs, s) && forall k | 0 <= k < |ops| :: WellFormed(ops[k], |bufs|)
    modifies Memory(bufs)
    ensures Trace(ops, f, oom, trace) && trace[0] == s
    ensures Pool(bufs, f) && Shows(bufs, trace[|ops|])
  {
    hide Step, Exec, Pool, Shows, Memory, WellFormed;
    SameSize(bufs, f, s);
    trace := [s];
    for k := 0 to |ops|
      invariant Pool(bufs, f) && |trace| == k + 1 && trace[0] == s && Shows(bufs, trace[k])
      invariant forall i | 0 <= i <= k :: |trace[i]| == |bufs|
      invariant forall i | 0 <= i < k :: Step(ops[i], f, oom, trace[i], trace[i + 1])
      invariant forall o | o in Memory(bufs) && o !in old(Memory(bufs)) :: fresh(o)
    {
      var t := ApplyWithin(bufs, ops[k], oom, f, trace[k]);
      SameSize(bufs, f, t);
      trace := trace + [t];
    }
  }

  /** An operation touches the memory of the pool only. */
  method ApplyWithin(bufs: seq<Evbuffer>, op: Op, oom: bool, ghost f: seq<Flags>, ghost s: Bytestrings)
      returns (ghost t: Bytestrings)
    requires Pool(bufs, f) && Shows(bufs, s) && WellFormed(op, |bufs|)
    modifies Memory(bufs)
    ensures Pool(bufs, f) && Shows(bufs, t) && Step(op, f, oom, s, t)
    ensures forall o | o in Memory(bufs) && o !in old(Memory(bufs)) :: fresh(o)
  {
    hide Step, Exec, Pool, Shows;
    TouchedIn(op, |bufs|);
    t := Apply(bufs, op, oom, f, s);
    forall o | o in Memory(bufs) ensures o in old(Memory(bufs)) || fresh(o) {
      var b :| b in bufs && o in b.Repr;
      var i :| 0 <= i < |bufs| && bufs[i] == b;
      assert fresh(bufs[i].Repr - old(bufs[i].Repr + bufs[Touched(op).0].Repr + bufs[Touched(op).1].Repr));
    }
  }

  lemma TouchedIn(op: Op, n: nat)
    requires WellFormed(op, n)
    ensures Touched(op).0 < n && Touched(op).1 < n
  {
  }

  function ExecAll(ops: seq<Op>, s: Bytestrings): (t: Bytestrings)
    requires forall k | 0 <= k < |ops| :: WellFormed(ops[k], |s|)
    ensures |t| == |s|
  {
    if ops == [] then s else Exec(ops[|ops| - 1], ExecAll(ops[..|ops| - 1], s))
  }

  /** The bytes that an operation brings into the pool. */
  function Brings(op: Op): nat {
    match op
    case OpAdd(_, data) => |data|
    case OpPrepend(_, data) => |data|
    case _ => 0
  }

  function BringsAll(ops: seq<Op>): nat {
    if ops == [] then 0 else BringsAll(ops[..|ops| - 1]) + Brings(ops[|ops| - 1])
  }

  lemma BytesAfterUpdate(s: Bytestrings, b: nat, x: seq<byte>)
    requires b < |s|
    ensures |Flatten(s[b := x])| + |s[b]| == |Flatten(s)| + |x|
  {
    hide Flatten;
    FlattenAt(s, b);
    FlattenAt(s[b := x], b);
    assert s[b := x][..b] == s[..b] && s[b := x][b + 1..] == s[b + 1..];
  }

  lemma BytesAfterTwo(s: Bytestrings, b: nat, x: seq<byte>, c: nat, y: seq<byte>)
    requires b < |s| && c < |s| && b != c
    ensures |Flatten(s[b := x][c := y])| + |s[b]| + |s[c]| == |Flatten(s)| + |x| + |y|
  {
    hide Flatten;
    BytesAfterUpdate(s, b, x);
    BytesAfterUpdate(s[b := x], c, y);
  }

  /** Operations only move bytes, drop them, or bring in those of their own data. */
  lemma BytesConserved(op: Op, s: Bytestrings)
    requires WellFormed(op, |s|)
    ensures |Flatten(Exec(op, s))| + Dropped(op, s) == |Flatten(s)| + Brings(op)
  {
    hide Flatten;
    match op {
      case OpAdd(b, data) => BytesAfterUpdate(s, b, s[b] + data);
      case OpPrepend(b, data) => BytesAfterUpdate(s, b, data + s[b]);
      case OpDrain(b, n) => BytesAfterUpdate(s, b, s[b][Min(n, |s[b]|)..]);
      case OpRemove(b, n) => BytesAfterUpdate(s, b, s[b][Min(n, |s[b]|)..]);
      case OpPullup(_, _) =>
      case OpAddBuffer(dst, src) => if dst != src { BytesAfterTwo(s, dst, s[dst] + s[src], src, []); }
      case OpPrependBuffer(dst, src) => if dst != src { BytesAfterTwo(s, dst, s[src] + s[dst], src, []); }
      case OpRemoveBuffer(src, dst, n) =>
        var k := Min(n, |s[src]|);
        if dst != src { BytesAfterTwo(s, dst, s[dst] + s[src][..k], src, s[src][k..]); }
    }
  }

  /** The bytes that leave the pool. */
  function Dropped(op: Op, s: Bytestrings): nat
    requires WellFormed(op, |s|)
  {
    match op
    case OpDrain(b, n) => Min(n, |s[b]|)
    case OpRemove(b, n) => Min(n, |s[b]|)
    case _ => 0
  }

  lemma FitsBelow(op: Op, s: Bytestrings)
    requires WellFormed(op, |s|) && |Flatten(s)| + Brings(op) <= SIZE_MAX && Brings(op) <= CHAIN_MAX - CHAIN_SIZE
    requires op.OpRemoveBuffer? ==> op.src != op.dst
    ensures Fits(op, s)
  {
    hide Flatten;
    match op {
      case OpAdd(b, _) => BytesAfterUpdate(s, b, []);
      case OpPrepend(b, _) => BytesAfterUpdate(s, b, []);
      case OpRemoveBuffer(src, dst, _) => BytesAfterTwo(s, src, [], dst, []);
      case _ =>
    }
  }

  /** With memory, nothing frozen and no overflow of a size_t, a run does exactly what the operations mean. */
  lemma {:induction false} RunRefines(ops: seq<Op>, f: seq<Flags>, trace: seq<Bytestrings>)
    requires Trace(ops, f, false, trace)
    requires forall i | 0 <= i < |f| :: f[i] == Flags(false, false)
    requires forall k | 0 <= k < |ops| :: Brings(ops[k]) <= CHAIN_MAX - CHAIN_SIZE
    requires |Flatten(trace[0])| + BringsAll(ops) <= SIZE_MAX
    ensures trace[|ops|] == ExecAll(ops, trace[0])
    ensures |Flatten(trace[|ops|])| <= |Flatten(trace[0])| + BringsAll(ops)
  {
    hide Flatten, Exec, Failed, Fits, Dropped;
    if ops != [] {
      var n := |ops| - 1;
      RunRefines(ops[..n], f, trace[..|ops|]);
      var op := ops[n];
      assert Step(op, f, false, trace[n], trace[n + 1]);
      if op.OpRemoveBuffer? && op.src == op.dst {
        SameBuffer(op, trace[n], trace[n + 1]);
      } else {
        FitsBelow(op, trace[n]);
      }
      BytesConserved(op, trace[n]);
    }
  }

  lemma SameBuffer(op: Op, s: Bytestrings, t: Bytestrings)
    requires WellFormed(op, |s|) && op.OpRemoveBuffer? && op.src == op.dst && (t == Exec(op, s) || Failed(op, s, t))
    ensures t == Exec(op, s)
  {
  }
}
