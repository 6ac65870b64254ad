module Evbuffers {
  import opened Basics
  import opened Bytes

  const SIZE_MAX: nat := 0xFFFF_FFFF_FFFF_FFFF
  const CHAIN_MAX: nat := 0x7FFF_FFFF_FFFF_FFFF
  const CHAIN_SIZE: nat := 48
  const MIN_BUFFER_SIZE: nat := 1024
  const CHAIN_MAX_AUTO_SIZE: nat := 4096
  const MAX_TO_REALIGN_IN_EXPAND: nat := 2048

  /** One chunk of memory. The stored bytes are buffer[misalign..misalign + off]. */
  class Chain {
    const buffer: array<byte>
    var next: Chain?
    var misalign: nat
    var off: nat

    constructor (size: nat)
      requires 0 < size <= CHAIN_MAX - CHAIN_SIZE
      ensures fresh(buffer) && buffer.Length == size
      ensures next == null && misalign == 0 && off == 0
      ensures Holds([])
    {
      buffer := new byte[size];
      next, misalign, off := null, 0, 0;
    }

    /** The chunk is well formed and stores exactly the bytes `p`. */
    ghost predicate Holds(p: seq<byte>)
      reads this`misalign, this`off, buffer
    {
      && 0 < buffer.Length <= CHAIN_MAX - CHAIN_SIZE
      && off == |p|
      && misalign + off <= buffer.Length
      && buffer[misalign..misalign + off] == p
    }

    /** The first bytes of those that are stored. */
    lemma HoldsPrefix(p: seq<byte>, n: nat)
      requires Holds(p) && n <= |p|
      ensures misalign + n <= buffer.Length && buffer[misalign..misalign + n] == p[..n]
    {
      SliceOfSlice(buffer[..], misalign, misalign + off, 0, n);
      assert buffer[..][misalign..misalign + off] == p
        && buffer[..][misalign..misalign + n] == buffer[misalign..misalign + n];
    }

    function SpaceLen(): nat
      requires misalign + off <= buffer.Length
      reads this`misalign, this`off
    {
      buffer.Length - (misalign + off)
    }

    predicate ShouldRealign(datlen: nat)
      requires off <= buffer.Length
      reads this`off
    {
      && buffer.Length - off >= datlen
      && off < buffer.Length / 2
      && off <= MAX_TO_REALIGN_IN_EXPAND
    }

    /** Moves the stored bytes to the start of the memory. */
    method Align(ghost p: seq<byte>)
      requires Holds(p)
      modifies this`misalign, buffer
      ensures Holds(p) && misalign == 0
    {
      var stored := buffer[misalign..misalign + off];
      Memcpy(buffer, 0, stored);
      misalign := 0;
      assert buffer[..off] == buffer[0..0 + |stored|];
    }

    /** Writes `data` behind the stored bytes. */
    method Append(data: seq<byte>, ghost p: seq<byte>)
      requires Holds(p) && misalign + off + |data| <= buffer.Length
      modifies this`off, buffer
      ensures Holds(p + data) && off == old(off) + |data|
    {
      Extend(buffer, misalign, misalign + off, data);
      off := off + |data|;
    }

    /** Writes `data` before the stored bytes. */
    method Prepend(data: seq<byte>, ghost p: seq<byte>)
      requires Holds(p) && |data| <= misalign
      modifies this`misalign, this`off, buffer
      ensures Holds(data + p) && misalign == old(misalign) - |data| && off == old(off) + |data|
    {
      assert buffer[misalign..][..off] == p;
      Memcpy(buffer, misalign - |data|, data);
      off := off + |data|;
      misalign := misalign - |data|;
      assert buffer[misalign..misalign + off] == data + p;
    }

    /** The n bytes behind the stored ones become stored ones, too. */
    method Grow(n: nat, ghost p: seq<byte>)
      requires Holds(p) && misalign + off + n <= buffer.Length
      modifies this`off
      ensures off == old(off) + n && Holds(p + buffer[misalign + old(off)..misalign + off])
    {
      off := off + n;
    }

    /** The n bytes at `misalign` become the stored ones. */
    method Claim(n: nat, ghost p: seq<byte>)
      requires 0 < buffer.Length <= CHAIN_MAX - CHAIN_SIZE && misalign + n <= buffer.Length
      requires n == |p| && buffer[misalign..misalign + n] == p
      modifies this`off
      ensures Holds(p) && off == n
    {
      off := n;
    }

    /** Drops the first n stored bytes. */
    method Skip(n: nat, ghost p: seq<byte>)
      requires Holds(p) && n <= off
      modifies this`misalign, this`off
      ensures Holds(p[n..]) && misalign == old(misalign) + n && off == old(off) - n
    {
      misalign := misalign + n;
      off := off - n;
    }
  }

  lemma HoldsFrom(c: Chain, p: seq<byte>)
    requires 0 < c.buffer.Length <= CHAIN_MAX - CHAIN_SIZE && c.off == |p| && c.misalign + c.off <= c.buffer.Length
    requires c.buffer[c.misalign..c.misalign + c.off] == p
    ensures c.Holds(p)
  {
  }

  lemma HoldsNothing(c: Chain)
    requires 0 < c.buffer.Length <= CHAIN_MAX - CHAIN_SIZE && c.off == 0 && c.misalign <= c.buffer.Length
    ensures c.Holds([])
  {
  }

  ghost function Footprint(cs: seq<Chain>): set<object> {
    (set c | c in cs :: c as object) + (set c | c in cs :: c.buffer as object)
  }

  /** The element at index i, or null beyond the ends. */
  ghost function At(cs: seq<Chain>, i: int): Chain? {
    if 0 <= i < |cs| then cs[i] else null
  }

  ghost predicate Differ(cs: seq<Chain>, i: int, j: int) {
    0 <= i < j < |cs| ==> cs[i] != cs[j] && cs[i].buffer != cs[j].buffer
  }

  /** No chain and no memory occurs twice. */
  ghost predicate Separate(cs: seq<Chain>) {
    forall i, j :: Differ(cs, i, j)
  }

  /** The first of `alloc` and its doubles that is at least `need`. */
  function Doubled(alloc: nat, need: nat): (r: nat)
    requires 0 < alloc
    ensures alloc <= r && need <= r && (r == alloc || r < 2 * need)
    decreases need - alloc
  {
    if alloc >= need then alloc else Doubled(2 * alloc, need)
  }

  /** The size of the memory in a new chunk with room for `size` bytes. */
  function Capacity(size: nat): (r: nat)
    requires size <= CHAIN_MAX - CHAIN_SIZE
    ensures size <= r <= CHAIN_MAX - CHAIN_SIZE && r > 0
    ensures r + CHAIN_SIZE == MIN_BUFFER_SIZE || r < 2 * size + CHAIN_SIZE
  {
    if size + CHAIN_SIZE < CHAIN_MAX / 2 then Doubled(MIN_BUFFER_SIZE, size + CHAIN_SIZE) - CHAIN_SIZE else size
  }

  lemma SmallCapacity(size: nat)
    requires size <= 2000
    ensures Capacity(size) == if size <= 976 then 976 else 2000
  {
    assert Doubled(2 * MIN_BUFFER_SIZE, size + CHAIN_SIZE) == 2 * MIN_BUFFER_SIZE;
  }

  /** A chunk with room for `size` bytes, or null; memory is short only if `oom` holds. */
  method ChainNew(size: nat, oom: bool) returns (c: Chain?)
    ensures c != null ==> fresh(c) && fresh(c.buffer)
    ensures c != null ==> c.Holds([]) && c.next == null && c.misalign == 0 && c.off == 0
    ensures c != null ==> size <= CHAIN_MAX - CHAIN_SIZE && c.buffer.Length == Capacity(size)
    ensures !oom && size <= CHAIN_MAX - CHAIN_SIZE ==> c != null
  {
    if size > CHAIN_MAX - CHAIN_SIZE { return null; }
    var need := size + CHAIN_SIZE;
    var toAlloc: nat;
    if need < CHAIN_MAX / 2 {
      toAlloc := MIN_BUFFER_SIZE;
      while toAlloc < need
        invariant 0 < toAlloc && Doubled(toAlloc, need) == Doubled(MIN_BUFFER_SIZE, need)
      {
        toAlloc := 2 * toAlloc;
      }
    } else {
      toAlloc := need;
    }
    if oom {
      var available: bool := *;
      if !available { return null; }
    }
    c := new Chain(toAlloc - CHAIN_SIZE);
  }

  /** The index of the first empty piece from k on, or the number of pieces. */
  function FirstEmpty(ps: seq<seq<byte>>, k: nat): nat
    decreases if k < |ps| then |ps| - k else 0
  {
    if k < |ps| && ps[k] != [] then FirstEmpty(ps, k + 1) else k
  }

  lemma FirstEmptyStep(ps: seq<seq<byte>>, k: nat)
    ensures FirstEmpty(ps, k) == if k < |ps| && ps[k] != [] then FirstEmpty(ps, k + 1) else k
  {
  }

  lemma {:induction false} FirstEmptyIs(ps: seq<seq<byte>>, k: nat)
    requires k <= |ps|
    ensures k <= FirstEmpty(ps, k) <= |ps|
    ensures FirstEmpty(ps, k) < |ps| ==> ps[FirstEmpty(ps, k)] == []
    ensures forall i | k <= i < FirstEmpty(ps, k) :: ps[i] != []
    decreases |ps| - k
  {
    if k < |ps| && ps[k] != [] { FirstEmptyIs(ps, k + 1); }
  }

  /** When the last of some pieces, all empty behind piece k, is filled: is there still an empty piece before it? */
  lemma FilledFirstEmpty(ps: seq<seq<byte>>, k: nat, q: seq<byte>)
    requires k < |ps| && q != [] && forall i | k < i < |ps| :: ps[i] == []
    ensures var qs := ps[|ps| - 1 := q]; var f := FirstEmpty(qs, k);
      if k + 1 == |ps| || (k + 2 == |ps| && ps[k] != []) then f == |ps| else f < |ps| - 1
  {
    hide FirstEmpty;
    var qs := ps[|ps| - 1 := q];
    FirstEmptyIs(qs, k);
    assert qs[k] == if k + 1 == |ps| then q else ps[k];
    assert k + 1 < |ps| ==> qs[k + 1] == if k + 2 == |ps| then q else [];
  }

  lemma LastGrows(ps: seq<seq<byte>>, data: seq<byte>)
    requires ps != []
    ensures var qs := ps[|ps| - 1 := ps[|ps| - 1] + data];
      Flatten(qs) == Flatten(ps) + data && (data == [] ==> qs == ps) && (data != [] ==> qs[|ps| - 1] != [])
  {
    hide Flatten;
    var n, p := |ps| - 1, ps[|ps| - 1];
    assert ps == ps[..n] + [p] && ps[n := p + data] == ps[..n] + [p + data];
    FlattenSnoc(ps[..n], p);
    FlattenSnoc(ps[..n], p + data);
    assert data == [] ==> p + data == p;
  }

  /** The size of the pieces at the front that lie wholly within the first n bytes. */
  function WholePieces(ps: seq<seq<byte>>, n: nat): nat {
    if ps != [] && |ps[0]| <= n then |ps[0]| + WholePieces(ps[1..], n - |ps[0]|) else 0
  }

  lemma {:induction false} WholePiecesIs(ps: seq<seq<byte>>, i: nat, n: nat)
    requires i < |ps| && |Flatten(ps[..i])| <= n < |Flatten(ps[..i])| + |ps[i]|
    ensures WholePieces(ps, n) == |Flatten(ps[..i])|
    decreases i
  {
    hide Flatten;
    if i == 0 {
      assert ps[..0] == [];
      FlattenEmpty([]);
    } else {
      assert ps[..i] == [ps[0]] + ps[1..][..i - 1];
      FlattenCons(ps[0], ps[1..][..i - 1]);
      WholePiecesIs(ps[1..], i - 1, n - |ps[0]|);
    }
  }

  /** A size that is returned as a signed number of 32 bits. */
  function AsInt(x: int): int {
    var u := x % 0x1_0000_0000;
    if u < 0x8000_0000 then u else u - 0x1_0000_0000
  }

  /** The data cut into pieces for the regions, from front to back. */
  function Cut(vecs: seq<Vec>, data: seq<byte>): seq<seq<byte>> {
    if vecs == [] then [] else
      var n := |vecs| - 1;
      Cut(vecs[..n], data) + [data[Least(TotalLen(vecs[..n]), |data|)..Least(TotalLen(vecs), |data|)]]
  }

  lemma {:induction false} CutIs(vecs: seq<Vec>, data: seq<byte>)
    ensures |Cut(vecs, data)| == |vecs| && forall i | 0 <= i < |vecs| :: |Cut(vecs, data)[i]| <= vecs[i].len
    ensures Flatten(Cut(vecs, data)) == data[..Least(TotalLen(vecs), |data|)]
  {
    hide Flatten, TotalLen;
    if vecs == [] {
      TotalLenEmpty();
      FlattenEmpty([]);
    } else {
      var n := |vecs| - 1;
      CutIs(vecs[..n], data);
      TotalLenTake(vecs, n);
      assert vecs[..n + 1] == vecs;
      var lo, hi := Least(TotalLen(vecs[..n]), |data|), Least(TotalLen(vecs), |data|);
      FlattenSnoc(Cut(vecs[..n], data), data[lo..hi]);
      assert data[..hi] == data[..lo] + data[lo..hi];
    }
  }

  lemma CutWhole(vecs: seq<Vec>, data: seq<byte>)
    requires |data| <= TotalLen(vecs)
    ensures |Cut(vecs, data)| == |vecs| && forall i | 0 <= i < |vecs| :: |Cut(vecs, data)[i]| <= vecs[i].len
    ensures Flatten(Cut(vecs, data)) == data
  {
    hide Flatten, Cut, TotalLen;
    CutIs(vecs, data);
  }

  /** The program has stopped at a failed assertion. */
  const ABORTED: int := -2

  /** A free region of memory handed out for writing: base[start..start + len]. */
  datatype Vec = Vec(base: array<byte>, start: nat, len: nat) {
    /** The region goes on to the end of its memory. */
    predicate Whole() {
      start + len == base.Length
    }
  }

  function AllButLast<T>(s: seq<T>): seq<T> {
    if s == [] then [] else s[..|s| - 1]
  }

  lemma AllButLastSnoc<T>(s: seq<T>, x: T)
    ensures AllButLast(s + [x]) == s
  {
  }

  function TotalLen(vecs: seq<Vec>): nat {
    if vecs == [] then 0 else TotalLen(vecs[..|vecs| - 1]) + vecs[|vecs| - 1].len
  }

  lemma TotalLenEmpty()
    ensures TotalLen([]) == 0
  {
  }

  lemma TotalLenSnoc(vecs: seq<Vec>, v: Vec)
    ensures TotalLen(vecs + [v]) == TotalLen(vecs) + v.len
  {
    assert (vecs + [v])[..|vecs|] == vecs;
  }

  lemma NothingTaken(spaces: seq<nat>)
    ensures TotalLen([]) == 0 == Sum(spaces[..0]) && TotalLen(AllButLast([])) == 0 == Sum(AllButLast(spaces[..0]))
  {
  }

  lemma OneTaken(vecs: seq<Vec>, v: Vec, spaces: seq<nat>)
    requires |vecs| < |spaces|
    ensures TotalLen(vecs + [v]) == TotalLen(vecs) + v.len && TotalLen(AllButLast(vecs + [v])) == TotalLen(vecs)
    ensures Sum(spaces[..|vecs| + 1]) == Sum(spaces[..|vecs|]) + spaces[|vecs|]
    ensures Sum(AllButLast(spaces[..|vecs| + 1])) == Sum(spaces[..|vecs|])
  {
    hide Sum, TotalLen, AllButLast;
    var k := |vecs|;
    TotalLenSnoc(vecs, v);
    AllButLastSnoc(vecs, v);
    assert spaces[..k + 1] == spaces[..k] + [spaces[k]];
    SumSnoc(spaces[..k], spaces[k]);
    AllButLastSnoc(spaces[..k], spaces[k]);
  }

  lemma {:induction false} SumPrefix(s: seq<nat>, i: nat)
    requires i <= |s|
    ensures Sum(s[..i]) <= Sum(s)
    decreases |s|
  {
    if i < |s| {
      assert s[..|s| - 1][..i] == s[..i];
      SumPrefix(s[..|s| - 1], i);
    } else {
      assert s[..i] == s;
    }
  }

  /** If the last space was asked for, it was taken. */
  lemma AllTaken(vecs: seq<Vec>, spaces: seq<nat>, size: nat)
    requires |vecs| <= |spaces| && Sum(AllButLast(spaces)) < size <= TotalLen(vecs) == Sum(spaces[..|vecs|])
    ensures |vecs| == |spaces| && spaces[..|vecs|] == spaces
  {
    if |vecs| < |spaces| {
      assert spaces[..|spaces| - 1][..|vecs|] == spaces[..|vecs|];
      SumPrefix(spaces[..|spaces| - 1], |vecs|);
    }
  }

  lemma TotalLenTake(vecs: seq<Vec>, i: nat)
    requires i < |vecs|
    ensures TotalLen(vecs[..i + 1]) == TotalLen(vecs[..i]) + vecs[i].len
  {
    assert vecs[..i + 1][..i] == vecs[..i];
  }

  ghost predicate InBounds(vecs: seq<Vec>) {
    forall i | 0 <= i < |vecs| :: vecs[i].start + vecs[i].len <= vecs[i].base.Length
  }

  /** The bytes that now lie in the regions. */
  ghost function Written(vecs: seq<Vec>): seq<byte>
    requires InBounds(vecs)
    reads set v | v in vecs :: v.base
  {
    if vecs == [] then [] else
      var v := vecs[|vecs| - 1];
      Written(vecs[..|vecs| - 1]) + v.base[v.start..v.start + v.len]
  }

  lemma WrittenEmpty()
    ensures Written([]) == []
  {
  }

  lemma WrittenSnoc(vecs: seq<Vec>, v: Vec)
    requires InBounds(vecs) && v.start + v.len <= v.base.Length
    ensures InBounds(vecs + [v]) && Written(vecs + [v]) == Written(vecs) + v.base[v.start..v.start + v.len]
  {
    assert (vecs + [v])[..|vecs|] == vecs;
  }

  /** The first i chains of src have gone behind the first v of another buffer. */
  datatype Moved = Moved(src: Evbuffer, i: nat, v: nat)

  twostate lemma WrittenTake(vecs: seq<Vec>)
    requires InBounds(vecs)
    ensures forall i | 0 <= i < |vecs| ::
      old(Written(vecs[..i + 1]))
        == old(Written(vecs[..i]) + vecs[i].base[..][vecs[i].start..vecs[i].start + vecs[i].len])
  {
    assert forall i | 0 <= i < |vecs| :: vecs[..i + 1][..i] == vecs[..i];
  }

  class Evbuffer {
    var first: Chain?
    var last: Chain?
    // The `next` field that points at the last chain with data: `null` stands for the address of
    // `first`, a chain c stands for the address of c.next.
    var lastWithDatap: Chain?
    var totalLen: nat
    var freezeStart: bool
    var freezeEnd: bool

    ghost var chains: seq<Chain>
    ghost var parts: seq<seq<byte>>
    ghost var lwd: nat
    ghost var Repr: set<object>

    /** The chain at index i belongs to this buffer, stores its piece, and points at its successor. */
    ghost predicate Node(i: int)
      reads this`chains, this`parts, this`Repr
      reads Repr * (if 0 <= i < |chains| then {chains[i], chains[i].buffer} else {})
    {
      0 <= i < |chains| == |parts| ==>
        && chains[i] in Repr && chains[i].buffer in Repr
        && chains[i].Holds(parts[i])
        && chains[i].next == At(chains, i + 1)
    }

    /** Everything but the last-with-data pointer. */
    ghost predicate Structure()
      reads this, Repr
      ensures Structure() ==> this in Repr
    {
      && this in Repr
      && Separate(chains)
      && |parts| == |chains|
      && (forall i :: Node(i))
      && first == At(chains, 0)
      && last == At(chains, |chains| - 1)
      && totalLen == |Flatten(parts)|
    }

    /** `lastWithDatap` is the address of the pointer to chain `lwd`, and all chains after it are empty. */
    ghost predicate LastWithData()
      reads this
    {
      && |parts| == |chains|
      && (lwd == 0 || lwd < |chains|)
      && lastWithDatap == At(chains, lwd - 1)
      && (lwd > 0 ==> parts[lwd] != [])
      && (forall i | lwd < i < |parts| :: parts[i] == [])
    }

    ghost predicate Valid()
      reads this, Repr
      ensures Valid() ==> this in Repr
    {
      Structure() && LastWithData()
    }

    ghost function Contents(): seq<byte>
      reads this`parts
    {
      Flatten(parts)
    }

    /** No chain follows the last chain with data. */
    ghost predicate AtTail()
      reads this`chains, this`lwd
    {
      lwd + 1 >= |chains|
    }

    /** No empty chain comes before the last chain with data. */
    ghost predicate NoGaps()
      reads this`parts, this`lwd
    {
      forall i | 0 <= i < lwd && i < |parts| :: parts[i] != []
    }

    ghost predicate Compact()
      reads this, Repr
    {
      Valid() && NoGaps() && AtTail()
    }

    constructor ()
      ensures Valid() && chains == [] && parts == [] && Contents() == [] && Repr == {this}
      ensures !freezeStart && !freezeEnd
    {
      first, last, lastWithDatap, totalLen := null, null, null, 0;
      freezeStart, freezeEnd := false, false;
      chains, parts, lwd, Repr := [], [], 0, {this};
    }

    /** The chain that `p`, an address of a `next` field or of `first`, points at. */
    function Deref(p: Chain?): Chain?
      reads this, p
    {
      if p == null then first else p.next
    }

    /** `lastWithDatap` is the address of the pointer to chain `lwd`, whatever the chains hold. */
    ghost predicate Pointed()
      reads this
    {
      |parts| == |chains| && (lwd == 0 || lwd < |chains|) && lastWithDatap == At(chains, lwd - 1)
    }

    /** The first empty chain that is not before chain `lwd`, or the number of chains. */
    ghost function Victim(): nat
      reads this`parts, this`lwd
    {
      FirstEmpty(parts, lwd)
    }

    ghost predicate EmptyFrom(v: nat)
      reads this`parts
    {
      forall i | v <= i < |parts| :: parts[i] == []
    }

    lemma ValidVictim()
      requires Valid()
      ensures Pointed() && EmptyFrom(Victim())
      ensures Victim() == if chains == [] || parts[lwd] == [] then lwd else lwd + 1
    {
      hide Structure, Flatten;
      FirstEmptyIs(parts, lwd);
    }

    /** Finds the first empty chain that is not before the chain that `lastWithDatap` points at; `ch` is the address
        of the pointer to it, or of the null pointer that ends the list. */
    method FindVictim() returns (ch: Chain?, ghost v: int)
      requires Structure() && Pointed()
      ensures v == Victim() && v <= |chains|
      ensures Valid() ==> EmptyFrom(v) && v == (if chains == [] || parts[lwd] == [] then lwd else lwd + 1)
      ensures ch == At(chains, v - 1) && Deref(ch) == At(chains, v)
      ensures EmptyFrom(v) ==> Flatten(parts[..v]) == Contents()
    {
      hide Flatten, Valid;
      ch, v := lastWithDatap, lwd;
      assert Node(lwd - 1) && Node(lwd);
      FirstEmptyIs(parts, lwd);
      while Deref(ch) != null && Deref(ch).off != 0
        invariant lwd <= v <= |chains| && FirstEmpty(parts, v) == Victim()
        invariant ch == At(chains, v - 1) && Deref(ch) == At(chains, v)
        decreases |chains| - v
      {
        assert Node(v);
        ch, v := Deref(ch), v + 1;
      }
      assert Node(v);
      if Valid() { ValidVictim(); }
      if EmptyFrom(v) { FlattenUpTo(parts, v); }
    }

    /** Do the chains from `ch` on hold no data? */
    method ChainsAllEmpty(ch: Chain?, ghost v: nat) returns (b: bool)
      requires Structure() && v <= |chains| && ch == At(chains, v)
      ensures b == EmptyFrom(v)
    {
      hide Flatten, Separate;
      var c := ch;
      ghost var i := v;
      while c != null
        invariant v <= i <= |chains| && c == At(chains, i)
        invariant forall j | v <= j < i :: parts[j] == []
        decreases |chains| - i
      {
        assert Node(i);
        if c.off != 0 { return false; }
        c, i := c.next, i + 1;
      }
      b := true;
    }

    /** Stores `c` at the address `p`. */
    method SetPtr(p: Chain?, c: Chain?)
      modifies this`first, (if p == null then {} else {p})`next
      ensures Deref(p) == c
      ensures p != null ==> first == old(first)
    {
      if p == null {
        first := c;
      } else {
        p.next := c;
      }
    }

    /** Linking another chain behind the first v chains yields a valid list again. */
    twostate lemma TailReplaced(v: int)
      requires old(Structure()) && 0 <= v <= old(|chains|) && v < |parts| && last != null
      requires {last, last.buffer} !! old(Repr)
      requires last.Holds(parts[v]) && last.next == null
      requires forall i | 0 <= i < v :: old(chains[i]).Holds(old(parts[i]))
      requires forall i | 0 <= i < v - 1 :: old(chains[i]).next == old(chains[i].next)
      requires v > 0 ==> old(chains[v - 1]).next == last
      requires chains == old(chains)[..v] + [last] && parts == old(parts)[..v] + [parts[v]]
      requires Repr == old(Repr) + {last, last.buffer}
      ensures Separate(chains) && forall i :: Node(i)
    {
      hide Chain.Holds;
      forall i ensures Node(i) {
        assert old(Node(i));
      }
      forall i, j ensures Differ(chains, i, j) {
        assert old(Node(i)) && Differ(old(chains), i, j);
      }
    }

    /** Makes `chain` the last chain, at the address `ch` that follows the first v chains. */
    method LinkLast(ch: Chain?, chain: Chain, advance: bool, ghost v: int, ghost piece: seq<byte>)
      requires 0 <= v <= |chains| && v <= |parts|
      modifies this, (if ch == null then {} else {ch})`next
      ensures first == (if ch == null then chain else old(first)) && (ch != null ==> ch.next == chain)
      ensures last == chain && totalLen == old(totalLen) + chain.off
      ensures lastWithDatap == if advance then old(last) else old(lastWithDatap)
      ensures lwd == if advance then |old(chains)| else old(lwd)
      ensures chains == old(chains)[..v] + [chain] && parts == old(parts)[..v] + [piece]
      ensures Repr == old(Repr) + {chain, chain.buffer}
      ensures freezeStart == old(freezeStart) && freezeEnd == old(freezeEnd)
    {
      if advance {
        lastWithDatap := last;
        lwd := |chains|;
      }
      if ch == null {
        first := chain;
      } else {
        ch.next := chain;
      }
      last := chain;
      totalLen := totalLen + chain.off;
      chains, parts := chains[..v] + [chain], parts[..v] + [piece];
      Repr := Repr + {chain, chain.buffer};
    }

    /** `lastWithDatap` is right after a chain with this piece has been inserted. */
    ghost predicate InsertKeeps(piece: seq<byte>)
      reads this
    {
      if piece == [] then Victim() <= lwd + 1 && (Victim() == lwd ==> lwd == 0)
      else Victim() == |chains| || Victim() == lwd
    }

    lemma ValidInsertKeeps(piece: seq<byte>)
      requires Valid()
      ensures InsertKeeps(piece) <==> piece == [] || AtTail() || parts[lwd] == []
    {
      hide Structure, Flatten;
      ValidVictim();
    }

    twostate lemma InsertedPointer(piece: seq<byte>)
      requires var v := old(Victim());
        v <= |old(chains)| && |chains| == |parts| == v + 1 && chains[..v] == old(chains)[..v]
      requires old(Pointed()) && parts == old(parts)[..old(Victim())] + [piece]
      requires var v := old(Victim()); var advance := piece != [] && v > 0 && v == |old(chains)|;
        lwd == (if advance then v else old(lwd)) && lastWithDatap == if advance then old(last) else old(lastWithDatap)
      requires old(last) == At(old(chains), |old(chains)| - 1)
      ensures LastWithData() <==> old(InsertKeeps(piece))
      ensures LastWithData() && (piece != [] || old(chains) == []) ==> AtTail()
    {
      hide FirstEmpty;
      var v := old(Victim());
      FirstEmptyIs(old(parts), old(lwd));
      forall i | 0 <= i < v ensures parts[i] == old(parts)[i] && chains[i] == old(chains)[i] {
        assert chains[..v][i] == chains[i] && old(chains)[..v][i] == old(chains)[i];
      }
      assert parts[v] == piece;
      if lwd < v {
        assert lwd + 1 < v ==> parts[lwd + 1] != [];
        assert At(chains, lwd - 1) == At(old(chains), lwd - 1);
      }
    }

    /** Puts a chain in the place of the chains from index v on, all empty; `ch` is the address of the pointer to
        them. */
    method ReplaceVictims(ch: Chain?, chain: Chain, ghost v: int, ghost piece: seq<byte>)
      requires Structure() && Pointed() && 0 <= v == Victim() <= |chains| && EmptyFrom(v)
      requires ch == At(chains, v - 1) && Deref(ch) == At(chains, v)
      requires chain.next == null && {chain, chain.buffer} !! Repr
      requires chain.Holds(piece) && chain.off == |piece|
      modifies Repr
      ensures Structure() && (LastWithData() <==> old(InsertKeeps(piece)))
      ensures LastWithData() && (piece != [] || old(chains) == []) ==> AtTail()
      ensures Repr == old(Repr) + {chain, chain.buffer} && last == chain
      ensures chains == old(chains)[..v] + [chain] && Contents() == old(Contents()) + piece
      ensures old(NoGaps()) ==> NoGaps()
      ensures freezeStart == old(freezeStart) && freezeEnd == old(freezeEnd)
    {
      hide Flatten, Chain.Holds, FirstEmpty, InsertKeeps, LastWithData, AtTail;
      FirstEmptyIs(parts, lwd);
      FlattenUpTo(parts, v);
      assert Node(v - 1);
      FlattenSnoc(parts[..v], piece);
      LinkLast(ch, chain, chain.off != 0 && ch != null && Deref(ch) == null, v, piece);
      forall i | 0 <= i < v
        ensures old(chains[i]).Holds(old(parts[i]))
        ensures i < v - 1 ==> old(chains[i]).next == old(chains[i].next)
      {
        assert old(Node(i)) && (i < v - 1 ==> old(Separate(chains)) && Differ(old(chains), i, v - 1));
      }
      TailReplaced(v);
      InsertedPointer(piece);
    }

    /** Inserts a chain behind the last one with data, in place of all empty chains there.  The assertion that these are
        empty fails if `ok` is false. */
    method ChainInsert(chain: Chain, ghost piece: seq<byte>) returns (ok: bool)
      requires Structure() && Pointed()
      requires chain.next == null && {chain, chain.buffer} !! Repr
      requires chain.Holds(piece) && chain.off == |piece|
      modifies Repr
      ensures ok == old(EmptyFrom(Victim())) && Structure()
      ensures !ok ==> unchanged(this)
      ensures ok ==> Repr == old(Repr) + {chain, chain.buffer} && last == chain
      ensures ok ==> old(Victim() <= |chains|) && chains == old(chains)[..old(Victim())] + [chain]
      ensures ok ==> Contents() == old(Contents()) + piece
      ensures ok ==> (Valid() <==> old(InsertKeeps(piece)))
      ensures old(Valid()) ==> ok && (Valid() <==> piece == [] || old(AtTail() || parts[lwd] == []))
      ensures ok && Valid() && (piece != [] || old(chains) == []) ==> AtTail()
      ensures old(NoGaps()) ==> NoGaps()
      ensures freezeStart == old(freezeStart) && freezeEnd == old(freezeEnd)
    {
      hide Flatten, Chain.Holds, Victim, EmptyFrom, InsertKeeps, Structure, LastWithData, NoGaps;
      var ch, v := FindVictim();
      ok := ChainsAllEmpty(Deref(ch), v);
      if Valid() {
        ValidVictim();
        ValidInsertKeeps(piece);
      }
      if !ok { return; }
      ReplaceVictims(ch, chain, v, piece);
    }

    /** Writes `data` behind the bytes of the last chain, which has room for it. Since `lastWithDatap` stays
        as it is, it is right afterwards exactly when the last chain was not beyond the last one with data. */
    method AppendToLast(data: seq<byte>)
      requires Valid() && last != null
      requires last.misalign + last.off + |data| <= last.buffer.Length
      modifies this`totalLen, this`parts, last`off, last.buffer
      ensures Structure() && (Valid() <==> AtTail() || data == []) && last.off == old(last.off) + |data|
      ensures Contents() == old(Contents()) + data
      ensures old(NoGaps()) ==> NoGaps()
      ensures chains != [] && |parts| == |chains|
        && parts == old(parts)[|chains| - 1 := old(parts)[|chains| - 1] + data]
    {
      hide Chain.Holds, Flatten;
      ghost var n := |chains| - 1;
      ghost var p := parts[n];
      assert Node(n);
      last.Append(data, p);
      totalLen := totalLen + |data|;
      LastGrows(parts, data);
      parts := parts[n := p + data];
      forall i ensures Node(i) {
        assert old(Node(i)) && Differ(chains, i, n);
      }
    }

    /** Moves the bytes of the last chain to the start of its memory. */
    method AlignLast()
      requires Valid() && last != null
      modifies last`misalign, last.buffer
      ensures Valid() && last.misalign == 0
    {
      hide Chain.Holds, Flatten;
      assert Node(|chains| - 1);
      last.Align(parts[|chains| - 1]);
      forall i ensures Node(i) {
        assert old(Node(i)) && Differ(chains, i, |chains| - 1);
      }
    }

    lemma LastOk()
      requires Valid()
      ensures last == null <==> chains == []
      ensures last != null ==> last in Repr && last.buffer in Repr
      ensures last != null ==> last.misalign + last.off <= last.buffer.Length <= CHAIN_MAX - CHAIN_SIZE
    {
      assert Node(|chains| - 1);
    }

    /** The only chain stores `data` at the start of its memory. */
    ghost predicate Single(data: seq<byte>)
      reads this, first
    {
      && first != null && chains == [first] && parts == [data] && lwd == 0
      && first.misalign == 0 && first.off == |data| <= first.buffer.Length <= CHAIN_MAX - CHAIN_SIZE
    }

    /** Gives a buffer without chains a first one, with room for n bytes. */
    method EnsureChain(n: nat, oom: bool) returns (ok: bool)
      requires Valid()
      modifies Repr
      ensures Valid() && fresh(Repr - old(Repr))
      ensures ok ==> chains != []
      ensures !oom && n <= CHAIN_MAX - CHAIN_SIZE ==> ok
      ensures old(chains) != [] ==> ok && unchanged(this) && unchanged(last)
      ensures old(first) != null ==> first == old(first) && unchanged(first)
      ensures ok && old(first) == null ==> Single([])
      ensures ok && old(first) == null ==> n <= CHAIN_MAX - CHAIN_SIZE && first.buffer.Length == Capacity(n)
      ensures Contents() == old(Contents()) && totalLen == old(totalLen)
      ensures (old(NoGaps()) ==> NoGaps()) && (old(AtTail()) ==> AtTail())
      ensures freezeStart == old(freezeStart) && freezeEnd == old(freezeEnd)
    {
      hide Flatten, Chain.Holds, Differ, NoGaps;
      if first != null { return true; }
      var c := ChainNew(n, oom);
      if c == null { return false; }
      ValidVictim();
      ok := ChainInsert(c, []);
      assert Contents() + [] == Contents();
      NextOk(0);
      return true;
    }

    /** The last chain takes n more bytes, perhaps once it has been realigned. */
    ghost predicate LastTakes(n: nat)
      reads this, last
    {
      last != null && last.misalign + last.off <= last.buffer.Length && (last.SpaceLen() >= n || last.ShouldRealign(n))
    }

    /** The last chain has no room at all. */
    ghost predicate LastFull()
      reads this, last
    {
      last != null && last.misalign + last.off == last.buffer.Length
    }

    /** Adding n bytes leaves `lastWithDatap` right.  If chains follow the last one with data, all of them are empty,
        and the bytes go to the last of them or to a new chain in their place: right only if none of the buffer's chains
        has data and the last has no room, or if there is one such chain, which the bytes fill and exceed. */
    ghost predicate AddKeeps(n: nat)
      reads this, last
    {
      || AtTail() || n == 0
      || (!LastTakes(n) && lwd < |parts|
          && if LastFull() then parts[lwd] == [] else parts[lwd] != [] && lwd + 2 == |chains|)
    }

    /** Adding n bytes fills the last chain and then runs into the assertion that the chains to be replaced are
        empty. */
    ghost predicate AddAborts(n: nat)
      reads this, last
    {
      !AtTail() && !LastTakes(n) && !LastFull() && lwd < |parts| && (parts[lwd] == [] || lwd + 2 < |chains|)
    }

    /** Where insertion would take place once the last chain has been filled with d. */
    lemma FilledVictim(d: seq<byte>)
      requires Valid() && chains != [] && d != []
      ensures var qs := parts[|parts| - 1 := parts[|parts| - 1] + d]; var f := FirstEmpty(qs, lwd);
        if lwd + 1 == |parts| || (lwd + 2 == |parts| && parts[lwd] != []) then f == |parts|
        else f < |parts| - 1 && qs[|parts| - 1] != []
    {
      hide Structure, FirstEmpty, Flatten;
      FilledFirstEmpty(parts, lwd, parts[|parts| - 1] + d);
    }

    /** A new chain is twice as large as the last one, as long as that is small, and large enough for n bytes. */
    static predicate Grown(c: Chain, d: Chain, n: nat) {
      var size := if c.buffer.Length <= CHAIN_MAX_AUTO_SIZE / 2 then 2 * c.buffer.Length else c.buffer.Length;
      var most := if size < n then n else size;
      most <= CHAIN_MAX - CHAIN_SIZE && d.buffer.Length == Capacity(most)
    }

    /** Fills the room in the last chain and puts the rest of `data` into a new one. */
    method AddInNewChain(data: seq<byte>, remain: nat, oom: bool) returns (result: int)
      requires Valid() && last != null
      requires last.misalign + last.off + remain == last.buffer.Length && remain < |data| && !LastTakes(|data|)
      modifies Repr
      ensures Structure() && (old(NoGaps()) ==> NoGaps()) && fresh(Repr - old(Repr))
      ensures result == 0 || result == -1 || result == ABORTED
      ensures result == 0 ==> Contents() == old(Contents()) + data && (Valid() <==> old(AddKeeps(|data|)))
      ensures result == 0 && Valid() ==> AtTail()
      ensures result == -1 ==> Valid() && Contents() == old(Contents()) && lwd == old(lwd) && chains == old(chains)
      ensures result == ABORTED ==> old(AddAborts(|data|))
      ensures !oom && |data| <= CHAIN_MAX - CHAIN_SIZE ==> result == if old(AddAborts(|data|)) then ABORTED else 0
      ensures result == 0 ==> last != null && Grown(old(last), last, |data|)
      ensures freezeStart == old(freezeStart) && freezeEnd == old(freezeEnd)
    {
      hide Flatten, Chain.Holds, Valid, NoGaps, Structure, FirstEmpty;
      LastOk();
      ValidParts();
      ValidVictim();
      var toAlloc := last.buffer.Length;
      if toAlloc <= CHAIN_MAX_AUTO_SIZE / 2 { toAlloc := 2 * toAlloc; }
      if |data| > toAlloc { toAlloc := |data|; }
      var tmp := ChainNew(toAlloc, oom);
      if tmp == null { return -1; }
      var rest := data[remain..];
      assert [] + rest == rest;
      tmp.Append(rest, []);
      result := FillAndInsert(data, remain, tmp);
    }

    /** Fills the room in the last chain and inserts the chain that holds the rest of `data`. */
    method FillAndInsert(data: seq<byte>, remain: nat, tmp: Chain) returns (result: int)
      requires Valid() && last != null
      requires last.misalign + last.off + remain == last.buffer.Length && remain < |data| && !LastTakes(|data|)
      requires tmp.next == null && {tmp, tmp.buffer} !! Repr && tmp.off == |data| - remain && tmp.Holds(data[remain..])
      modifies Repr
      ensures Structure() && (old(NoGaps()) ==> NoGaps()) && Repr <= old(Repr) + {tmp, tmp.buffer}
      ensures result == if old(AddAborts(|data|)) then ABORTED else 0
      ensures result == 0 ==> Contents() == old(Contents()) + data && (Valid() <==> old(AddKeeps(|data|)))
      ensures result == 0 && Valid() ==> AtTail()
      ensures result == 0 ==> last == tmp
      ensures freezeStart == old(freezeStart) && freezeEnd == old(freezeEnd)
    {
      hide Flatten, Chain.Holds, Valid, NoGaps, Structure, FirstEmpty, Chain.ShouldRealign;
      LastOk();
      ValidParts();
      ValidVictim();
      if remain > 0 {
        FilledVictim(data[..remain]);
        AppendToLast(data[..remain]);
      }
      var ok := ChainInsert(tmp, data[remain..]);
      if !ok { return ABORTED; }
      Regrouped(old(Contents()), data, remain);
      return 0;
    }

    static lemma Regrouped(s: seq<byte>, data: seq<byte>, n: nat)
      requires n <= |data|
      ensures s + data[..n] + data[n..] == s + data && s + data[0..] == s + data
    {
    }

    /** Adds `data` at the end. */
    method Add(data: seq<byte>, oom: bool) returns (result: int)
      requires Valid()
      modifies Repr
      ensures Structure() && (old(NoGaps()) ==> NoGaps()) && fresh(Repr - old(Repr))
      ensures result == 0 || result == -1 || result == ABORTED
      ensures result == 0 ==> Contents() == old(Contents()) + data && (Valid() <==> old(AddKeeps(|data|)))
      ensures result == -1 ==> Valid() && Contents() == old(Contents())
      ensures result == 0 && old(chains) == [] ==> Single(data) && first.buffer.Length == Capacity(|data|)
      ensures result == 0 && old(last) != null ==> last != null && (last == old(last) || Grown(old(last), last, |data|))
      ensures old(AtTail()) ==> Valid() && AtTail() && result != ABORTED
      ensures freezeEnd || |data| > SIZE_MAX - old(totalLen) ==> result == -1
      ensures result == ABORTED ==> old(AddAborts(|data|))
      ensures !freezeEnd && |data| <= SIZE_MAX - old(totalLen) && old(LastTakes(|data|)) ==> result == 0
      ensures !oom && !freezeEnd && |data| <= SIZE_MAX - old(totalLen) && |data| <= CHAIN_MAX - CHAIN_SIZE ==>
        result == if old(AddAborts(|data|)) then ABORTED else 0
      ensures freezeStart == old(freezeStart) && freezeEnd == old(freezeEnd)
    {
      hide Flatten, Chain.Holds, Valid, NoGaps, Structure;
      ValidParts();
      if freezeEnd { return -1; }
      if |data| > SIZE_MAX - totalLen { return -1; }
      FirstOk();
      var ok := EnsureChain(|data|, oom);
      ValidParts();
      if !ok { return -1; }
      LastOk();
      assert [] + data == data;
      var remain := last.SpaceLen();
      if remain >= |data| {
        AppendToLast(data);
        result := 0;
      } else if last.ShouldRealign(|data|) {
        AlignLast();
        AppendToLast(data);
        result := 0;
      } else {
        result := AddInNewChain(data, remain, oom);
      }
    }

    lemma ValidParts()
      requires Valid()
      ensures Structure() && Pointed()
    {
    }

    /** Writes `data` before the bytes of the first chain, which has room for it. */
    method PrependToFirst(data: seq<byte>)
      requires Valid() && first != null && |data| <= first.misalign
      modifies this`totalLen, this`parts, first`misalign, first`off, first.buffer
      ensures Valid()
      ensures Contents() == data + old(Contents())
      ensures first.misalign == old(first.misalign) - |data| && first.off == old(first.off) + |data|
      ensures old(NoGaps()) ==> NoGaps()
    {
      hide Chain.Holds, Flatten;
      ghost var p := parts[0];
      assert Node(0);
      first.Prepend(data, p);
      totalLen := totalLen + |data|;
      assert parts == [p] + parts[1..];
      FlattenCons(p, parts[1..]);
      FlattenCons(data + p, parts[1..]);
      assert data + (p + Flatten(parts[1..])) == data + p + Flatten(parts[1..]);
      parts := [data + p] + parts[1..];
      forall i ensures Node(i) {
        assert old(Node(i)) && Differ(chains, 0, i);
      }
    }

    /** Makes `tmp` the first chain. */
    method LinkFirst(tmp: Chain, ghost piece: seq<byte>)
      requires tmp.off == |piece|
      modifies this, tmp`next
      ensures first == tmp && tmp.next == old(first) && last == old(last)
      ensures lastWithDatap == if old(lastWithDatap) == null then tmp else old(lastWithDatap)
      ensures totalLen == old(totalLen) + |piece| && lwd == old(lwd) + 1
      ensures chains == [tmp] + old(chains) && parts == [piece] + old(parts)
      ensures Repr == old(Repr) + {tmp, tmp.buffer}
      ensures freezeStart == old(freezeStart) && freezeEnd == old(freezeEnd)
    {
      var chain := first;
      first := tmp;
      if lastWithDatap == null {
        lastWithDatap := tmp;
      }
      tmp.next := chain;
      totalLen := totalLen + tmp.off;
      chains, parts, lwd, Repr := [tmp] + chains, [piece] + parts, lwd + 1, Repr + {tmp, tmp.buffer};
    }

    method ChainPush(tmp: Chain, ghost piece: seq<byte>)
      requires Valid() && chains != [] && parts[lwd] != []
      requires {tmp, tmp.buffer} !! Repr && tmp.Holds(piece) && tmp.off == |piece|
      requires piece != []
      modifies this, tmp`next
      ensures Valid() && Repr == old(Repr) + {tmp, tmp.buffer}
      ensures Contents() == piece + old(Contents())
      ensures old(NoGaps()) ==> NoGaps()
      ensures old(AtTail()) ==> AtTail()
      ensures freezeStart == old(freezeStart) && freezeEnd == old(freezeEnd)
    {
      hide Flatten, Chain.Holds;
      FlattenCons(piece, parts);
      LinkFirst(tmp, piece);
      forall i ensures Node(i) {
        assert old(Node(i - 1));
      }
      forall i, j ensures Differ(chains, i, j) {
        assert Differ(old(chains), i - 1, j - 1) && old(Node(j - 1));
      }
    }

    lemma NodeOff(i: nat)
      requires Structure() && i <= |chains|
      ensures i < |chains| ==> chains[i].off == |parts[i]|
    {
      assert Node(i);
    }

    lemma FirstOk()
      requires Valid()
      ensures first == At(chains, 0)
      ensures first != null ==> first in Repr && first.buffer in Repr
      ensures first != null ==>
        first.misalign + first.off <= first.buffer.Length && 0 < first.buffer.Length <= CHAIN_MAX - CHAIN_SIZE
      ensures first != null && first.off != 0 ==> parts[lwd] != []
      ensures first != null ==> first.off == |parts[0]| && parts == [parts[0]] + parts[1..]
    {
      assert Node(0);
    }

    /** An empty first chain is filled from the end of its memory. */
    method EmptyFromTheEnd()
      requires Valid() && first != null && first.off == 0
      modifies first`misalign
      ensures Valid() && first.misalign == first.buffer.Length
    {
      assert Node(0);
      first.misalign := first.buffer.Length;
      forall i ensures Node(i) {
        assert old(Node(i)) && Differ(chains, 0, i);
      }
    }

    /** Puts `data` into a new first chain. */
    method PrependInNewChain(data: seq<byte>, oom: bool) returns (ok: bool)
      requires Valid() && chains != [] && parts[lwd] != [] && data != []
      modifies this
      ensures Valid() && fresh(Repr - old(Repr))
      ensures Contents() == if ok then data + old(Contents()) else old(Contents())
      ensures !oom && |data| <= CHAIN_MAX - CHAIN_SIZE ==> ok
      ensures (old(NoGaps()) ==> NoGaps()) && (old(AtTail()) ==> AtTail())
      ensures freezeStart == old(freezeStart) && freezeEnd == old(freezeEnd)
    {
      hide Flatten, Chain.Holds, Valid, NoGaps;
      var tmp := ChainNew(|data|, oom);
      if tmp == null { return false; }
      tmp.misalign := tmp.buffer.Length;
      assert tmp.Holds([]) by { HoldsNothing(tmp); }
      tmp.Prepend(data, []);
      assert data + [] == data;
      ChainPush(tmp, data);
      return true;
    }

    /** On success `data` is prepended. On failure a suffix of it may have been: `done` is its length. */
    method Prepend(data: seq<byte>, oom: bool) returns (result: int, ghost done: nat)
      requires Valid()
      modifies Repr
      ensures Valid() && (old(NoGaps()) ==> NoGaps()) && (old(AtTail()) ==> AtTail())
      ensures fresh(Repr - old(Repr))
      ensures result == 0 || result == -1
      ensures done <= |data| && (result == 0 ==> done == |data|)
      ensures Contents() == data[|data| - done..] + old(Contents())
      ensures freezeStart || |data| > SIZE_MAX - old(totalLen) ==> result == -1 && done == 0
      ensures !oom && !freezeStart && |data| <= SIZE_MAX - old(totalLen) && |data| <= CHAIN_MAX - CHAIN_SIZE ==>
        result == 0
      ensures result == -1 && done > 0 ==>
        old(first) != null && done == old(if first.off == 0 then first.buffer.Length else first.misalign) < |data|
      ensures freezeStart == old(freezeStart) && freezeEnd == old(freezeEnd)
    {
      hide Flatten, Chain.Holds, NoGaps, Valid;
      if freezeStart { return -1, 0; }
      if |data| > SIZE_MAX - totalLen { return -1, 0; }
      var ok := EnsureChain(|data|, oom);
      if !ok { return -1, 0; }
      FirstOk();
      if first.off == 0 {
        EmptyFromTheEnd();
      }
      if first.misalign >= |data| {
        PrependToFirst(data);
        return 0, |data|;
      }
      done := first.misalign;
      ok := PrependSplit(data, oom);
      return if ok then 0 else -1, if ok then |data| else done;
    }

    /** Fills the room before the first chain with the end of `data` and puts the rest into a new chain. */
    method PrependSplit(data: seq<byte>, oom: bool) returns (ok: bool)
      requires Valid() && first != null && first.misalign < |data| && first.misalign + first.off > 0
      modifies Repr
      ensures Valid() && (old(NoGaps()) ==> NoGaps()) && (old(AtTail()) ==> AtTail())
      ensures fresh(Repr - old(Repr))
      ensures Contents() == (if ok then data else data[|data| - old(first.misalign)..]) + old(Contents())
      ensures !oom && |data| <= CHAIN_MAX - CHAIN_SIZE ==> ok
      ensures freezeStart == old(freezeStart) && freezeEnd == old(freezeEnd)
    {
      hide Flatten, Chain.Holds, NoGaps, Valid;
      FirstOk();
      var rest := |data| - first.misalign;
      if first.misalign > 0 {
        PrependToFirst(data[rest..]);
        FirstOk();
      }
      ok := PrependInNewChain(data[..rest], oom);
      Rejoined(data, rest, old(Contents()));
    }

    static lemma Rejoined(data: seq<byte>, n: nat, s: seq<byte>)
      requires n <= |data|
      ensures data[..n] + (data[n..] + s) == data + s
    {
    }

    /** Frees every chain. */
    method ZeroChain()
      requires Valid()
      modifies this
      ensures Valid() && chains == [] && Contents() == [] && Repr == old(Repr) && NoGaps() && AtTail()
      ensures freezeStart == old(freezeStart) && freezeEnd == old(freezeEnd)
    {
      first, last, lastWithDatap, totalLen := null, null, null, 0;
      chains, parts, lwd := [], [], 0;
    }

    /** Finds the chain at which draining `len` bytes stops: the first i chains go, and `remaining`
        bytes of the next one. */
    method DrainScan(len: nat) returns (chain: Chain, remaining: nat, ghost i: nat)
      requires Valid() && len < totalLen
      modifies this`lastWithDatap
      ensures i <= lwd && i < |chains| && chain == chains[i] && remaining < |parts[i]|
      ensures |Flatten(parts[..i])| + remaining == len
      ensures lastWithDatap == if i < lwd then old(lastWithDatap) else null
    {
      var c: Chain? := first;
      remaining, i := len, 0;
      assert parts[..0] == [];
      if chains != [] { FlattenUpTo(parts, lwd + 1); }
      while true
        invariant i <= lwd && i < |chains| && c == chains[i]
        invariant |Flatten(parts[..i])| + remaining == len
        invariant lastWithDatap == if i < lwd then old(lastWithDatap) else null
        decreases |chains| - i
      {
        FlattenTake(parts, i);
        assert Node(i) && Node(lwd - 1) && Differ(chains, i, lwd - 1) && Differ(chains, i, lwd);
        if remaining < c.off { break; }
        var next := c.next;
        remaining := remaining - c.off;
        // The last chain with data is never used up: `len` is less than what the buffer holds.
        if c == Deref(lastWithDatap) { assert false; }
        if c == lastWithDatap {
          lastWithDatap := null;
        }
        c, i := next, i + 1;
      }
      chain := c;
    }

    /** Makes chain i the first one and skips `remaining` of its bytes. */
    method DropFront(chain: Chain, remaining: nat, ghost i: nat)
      requires i < |chains| && |parts| == |chains| && chain == chains[i] && i <= lwd
      requires chain.Holds(parts[i]) && remaining < |parts[i]|
      modifies this, chain`misalign, chain`off
      ensures chain.Holds(old(parts[i])[remaining..])
      ensures first == chain && last == old(last) && lastWithDatap == old(lastWithDatap)
      ensures totalLen == old(totalLen) && Repr == old(Repr)
      ensures chains == old(chains)[i..] && lwd == old(lwd) - i
      ensures parts == [old(parts[i])[remaining..]] + old(parts)[i + 1..]
      ensures freezeStart == old(freezeStart) && freezeEnd == old(freezeEnd)
    {
      first := chain;
      chain.Skip(remaining, parts[i]);
      chains, parts, lwd := chains[i..], [parts[i][remaining..]] + parts[i + 1..], lwd - i;
    }

    /** The bytes without the first i pieces and the first n bytes of the next one. */
    static lemma DrainedBytes(ps: seq<seq<byte>>, i: nat, n: nat)
      requires i < |ps| && n <= |ps[i]|
      ensures var len, qs := |Flatten(ps[..i])| + n, [ps[i][n..]] + ps[i + 1..];
        && len <= |Flatten(ps)| && Flatten(qs) == Flatten(ps)[len..]
        && |qs| == |ps| - i && forall k | 0 < k < |qs| :: qs[k] == ps[i + k]
    {
      hide Flatten;
      FlattenAt(ps, i);
      FlattenCons(ps[i][n..], ps[i + 1..]);
      assert Flatten(ps)[|Flatten(ps[..i])| + n..] == ps[i][n..] + Flatten(ps[i + 1..]);
    }

    lemma NodesOk()
      requires Valid()
      ensures forall i | 0 <= i < |chains| :: chains[i] in Repr && chains[i].buffer in Repr && chains[i].Holds(parts[i])
    {
      forall i | 0 <= i < |chains|
        ensures chains[i] in Repr && chains[i].buffer in Repr && chains[i].Holds(parts[i])
      {
        assert Node(i);
      }
    }

    static lemma DifferOk(cs: seq<Chain>, i: nat, j: nat)
      requires Separate(cs) && i < j < |cs|
      ensures cs[i] != cs[j] && cs[i].buffer != cs[j].buffer
    {
      assert Differ(cs, i, j);
    }

    /** The first i chains are gone, and of the next one some bytes. */
    twostate lemma FrontDropped(i: nat)
      requires old(Structure()) && i < |old(chains)| && Repr == old(Repr) && |parts| == |chains|
      requires chains == old(chains)[i..] && chains[0].Holds(parts[0]) && chains[0].next == old(chains[i].next)
      requires forall k | 0 < k < |chains| :: parts[k] == old(parts)[i + k]
      requires forall k | 0 < k < |chains| :: unchanged(chains[k]) && unchanged(chains[k].buffer)
      ensures Separate(chains) && forall j :: Node(j)
    {
      hide Flatten, Chain.Holds;
      forall j ensures Node(j) {
        assert old(Node(i + j)) && Differ(old(chains), i, i + j);
      }
      forall j, k ensures Differ(chains, j, k) {
        assert Differ(old(chains), i + j, i + k);
      }
    }

    method DrainSome(len: nat)
      requires Valid() && len < totalLen
      modifies Repr
      ensures Valid() && Repr == old(Repr)
      ensures Contents() == old(Contents())[len..]
      ensures (old(NoGaps()) ==> NoGaps()) && (old(AtTail()) ==> AtTail())
      ensures freezeStart == old(freezeStart) && freezeEnd == old(freezeEnd)
    {
      hide Flatten, Chain.Holds, Node, Separate;
      NodesOk();
      var chain, remaining, i := DrainScan(len);
      totalLen := totalLen - len;
      DrainedBytes(parts, i, remaining);
      DropFront(chain, remaining, i);
      forall k | 0 < k < |chains|
        ensures chains[k] != chain && chains[k].buffer != chain.buffer
      {
        DifferOk(old(chains), i, i + k);
      }
      FrontDropped(i);
    }

    method Drain(len: nat) returns (result: int)
      requires Valid()
      modifies Repr
      ensures Valid() && Repr == old(Repr)
      ensures result == if old(totalLen) > 0 && freezeStart then -1 else 0
      ensures Contents() ==
        if result == -1 then old(Contents()) else if len < old(totalLen) then old(Contents())[len..] else []
      ensures (old(NoGaps()) ==> NoGaps()) && (old(AtTail()) ==> AtTail())
      ensures freezeStart == old(freezeStart) && freezeEnd == old(freezeEnd)
    {
      hide Flatten, Chain.Holds, Differ, NoGaps;
      if totalLen == 0 { return 0; }
      if freezeStart { return -1; }
      if len >= totalLen {
        ZeroChain();
      } else {
        DrainSome(len);
      }
      return 0;
    }

    /** Copies the first bytes out; the buffer does not change. */
    method Copyout(datlen: nat) returns (result: int, data: seq<byte>)
      requires Valid()
      ensures result == if datlen > 0 && totalLen > 0 && freezeStart then -1 else |data|
      ensures data == if result == -1 then [] else if datlen < totalLen then Contents()[..datlen] else Contents()
    {
      hide Flatten;
      var left: nat := if datlen >= totalLen then totalLen else datlen;
      data := [];
      assert Contents()[..totalLen] == Contents();
      if left == 0 { return 0, []; }
      if freezeStart { return -1, []; }
      var nread := left;
      var chain := first;
      ghost var i := 0;
      assert parts[..0] == [] && Flatten([]) == [] by { FlattenEmpty([]); }
      while left > 0
        invariant 0 <= i <= |chains| && chain == At(chains, i)
        invariant data == Flatten(parts[..i]) && |data| + left == nread <= totalLen
        decreases |chains| - i
      {
        assert Node(i) && parts[..|parts|] == parts;
        FlattenTake(parts, i);
        FlattenSplit(parts, i + 1);
        if left < chain.off { break; }
        data := data + chain.buffer[chain.misalign..chain.misalign + chain.off];
        left := left - chain.off;
        chain, i := chain.next, i + 1;
      }
      if left > 0 {
        assert Node(i);
        FlattenAt(parts, i);
        chain.HoldsPrefix(parts[i], left);
        data := data + chain.buffer[chain.misalign..chain.misalign + left];
      } else {
        FlattenSplit(parts, i);
      }
      assert data == Contents()[..nread];
      return nread, data;
    }

    /** Takes out the first bytes.  The result is their number, n, as a 32-bit integer. */
    method Remove(datlen: nat) returns (result: int, data: seq<byte>, ghost n: int)
      requires Valid()
      modifies Repr
      ensures Valid() && Repr == old(Repr)
      ensures result == AsInt(n)
      ensures n == if datlen > 0 && old(totalLen) > 0 && freezeStart then -1 else |data|
      ensures n != -1 ==> data + Contents() == old(Contents())
      ensures n != -1 ==> |data| == if datlen < old(totalLen) then datlen else old(totalLen)
      ensures n == -1 ==> Contents() == old(Contents())
      ensures (old(NoGaps()) ==> NoGaps()) && (old(AtTail()) ==> AtTail())
      ensures freezeStart == old(freezeStart) && freezeEnd == old(freezeEnd)
    {
      hide Flatten, Chain.Holds, Differ, NoGaps, AtTail;
      var copied;
      copied, data := Copyout(datlen);
      if copied > 0 {
        var r := Drain(copied);
        if r < 0 { copied := -1; }
      }
      return AsInt(copied), data, copied;
    }

    /** Takes over the list of `src`, whose chains then belong to both buffers. */
    method CopyChain(src: Evbuffer)
      requires this in Repr && src.Valid() && src !in Repr && this !in src.Repr
      modifies this
      ensures Valid() && Repr == old(Repr) + (src.Repr - {src}) && Contents() == src.Contents()
      ensures (src.NoGaps() ==> NoGaps()) && (src.AtTail() ==> AtTail())
      ensures freezeStart == old(freezeStart) && freezeEnd == old(freezeEnd)
    {
      hide Flatten, Chain.Holds;
      CopyFields(src);
      forall i ensures Node(i) {
        assert src.Node(i);
      }
    }

    method CopyFields(src: Evbuffer)
      modifies this
      ensures first == old(src.first) && last == old(src.last) && lastWithDatap == old(src.lastWithDatap)
      ensures totalLen == old(src.totalLen) && Repr == old(Repr) + (old(src.Repr) - {src})
      ensures chains == old(src.chains) && parts == old(src.parts) && lwd == old(src.lwd)
      ensures freezeStart == old(freezeStart) && freezeEnd == old(freezeEnd)
    {
      Repr := Repr + (src.Repr - {src});
      chains, parts, lwd := src.chains, src.parts, src.lwd;
      first := src.first;
      if src.lastWithDatap == null {
        lastWithDatap := null;
      } else {
        lastWithDatap := src.lastWithDatap;
      }
      last := src.last;
      totalLen := src.totalLen;
    }

    /** Links the list of `src` behind the last chain of this buffer. */
    method AppendFields(src: Evbuffer)
      requires last != null && src != this
      modifies this, last`next
      ensures first == old(first) && last == old(src.last)
      ensures old(last).next == old(src.first)
      ensures lastWithDatap == if old(src.lastWithDatap) == null then old(last) else old(src.lastWithDatap)
      ensures totalLen == old(totalLen + src.totalLen) && Repr == old(Repr) + (old(src.Repr) - {src})
      ensures chains == old(chains + src.chains) && parts == old(parts + src.parts)
      ensures lwd == old(|chains| + src.lwd)
      ensures freezeStart == old(freezeStart) && freezeEnd == old(freezeEnd)
    {
      last.next := src.first;
      if src.lastWithDatap == null {
        lastWithDatap := last;
      } else {
        lastWithDatap := src.lastWithDatap;
      }
      last := src.last;
      totalLen := totalLen + src.totalLen;
      lwd := |chains| + src.lwd;
      chains, parts := chains + src.chains, parts + src.parts;
      Repr := Repr + (src.Repr - {src});
    }

    method AppendChain(src: Evbuffer)
      requires Valid() && src.Valid() && Repr !! src.Repr
      requires totalLen > 0 && src.totalLen > 0
      modifies this, chains
      ensures Valid() && Repr == old(Repr) + (old(src.Repr) - {src}) && Contents() == old(Contents() + src.Contents())
      ensures old(NoGaps() && AtTail() && src.NoGaps()) ==> NoGaps()
      ensures old(src.AtTail()) ==> AtTail()
      ensures freezeStart == old(freezeStart) && freezeEnd == old(freezeEnd)
    {
      hide Flatten, Chain.Holds;
      SomeChain();
      src.SomeChain();
      assert Node(|chains| - 1) && src.Node(0) && src.Node(|src.chains| - 1);
      FlattenConcat(parts, src.parts);
      AppendFields(src);
      ghost var n := old(|chains|);
      forall i ensures Node(i) {
        assert old(Node(i)) && old(src.Node(i - n)) && Differ(old(chains), i, n - 1);
      }
      forall i, j ensures Differ(chains, i, j) {
        assert Differ(old(chains), i, j) && Differ(old(src.chains), i - n, j - n);
        assert old(Node(i)) && old(src.Node(j - n));
      }
    }

    lemma LengthOk()
      requires Valid()
      ensures totalLen == |Contents()|
    {
    }

    lemma ChainsOwned()
      requires Valid()
      ensures forall c | c in chains :: c in Repr
    {
      forall i | 0 <= i < |chains| ensures chains[i] in Repr {
        assert Node(i);
      }
    }

    lemma SomeChain()
      requires Valid() && totalLen > 0
      ensures chains != [] && parts[lwd] != []
    {
      if parts == [] || parts[lwd] == [] {
        FlattenEmpty(parts);
      }
    }

    /** Links the list of this buffer behind the last chain of `src`. */
    method PrependFields(src: Evbuffer)
      requires src.last != null && src != this && first != null
      modifies this, src.last`next
      ensures first == old(src.first) && last == old(last)
      ensures old(src.last).next == old(first)
      ensures lastWithDatap == if old(lastWithDatap) == null then old(src.last) else old(lastWithDatap)
      ensures totalLen == old(totalLen + src.totalLen) && Repr == old(Repr) + (old(src.Repr) - {src})
      ensures chains == old(src.chains + chains) && parts == old(src.parts + parts)
      ensures lwd == old(|src.chains| + lwd)
      ensures freezeStart == old(freezeStart) && freezeEnd == old(freezeEnd)
    {
      src.last.next := first;
      first := src.first;
      totalLen := totalLen + src.totalLen;
      if lastWithDatap == null {
        lastWithDatap := src.last;
      }
      lwd := |src.chains| + lwd;
      chains, parts := src.chains + chains, src.parts + parts;
      Repr := Repr + (src.Repr - {src});
    }

    method PrependChain(src: Evbuffer)
      requires Valid() && src.Valid() && Repr !! src.Repr
      requires totalLen > 0 && src.totalLen > 0
      modifies this, src.chains
      ensures Valid() && Repr == old(Repr) + (old(src.Repr) - {src}) && Contents() == old(src.Contents() + Contents())
      ensures old(NoGaps() && src.AtTail() && src.NoGaps()) ==> NoGaps()
      ensures old(AtTail()) ==> AtTail()
      ensures freezeStart == old(freezeStart) && freezeEnd == old(freezeEnd)
    {
      hide Flatten, Chain.Holds;
      SomeChain();
      src.SomeChain();
      assert Node(0) && Node(|chains| - 1) && src.Node(0) && src.Node(|src.chains| - 1);
      FlattenConcat(src.parts, parts);
      PrependFields(src);
      ghost var n := old(|src.chains|);
      forall i ensures Node(i) {
        assert old(src.Node(i)) && old(Node(i - n)) && Differ(old(src.chains), i, n - 1);
      }
      forall i, j ensures Differ(chains, i, j) {
        assert Differ(old(src.chains), i, j) && Differ(old(chains), i - n, j - n);
        assert old(src.Node(i)) && old(Node(j - n));
      }
    }

    /** Moves all bytes of `inbuf` to the end of this buffer. */
    method AddBuffer(inbuf: Evbuffer) returns (result: int)
      requires Valid() && inbuf.Valid() && (inbuf == this || Repr !! inbuf.Repr)
      modifies Repr, inbuf.Repr
      ensures Valid() && inbuf.Valid() && (inbuf == this || Repr !! inbuf.Repr)
      ensures Repr + inbuf.Repr == old(Repr + inbuf.Repr)
      ensures result == if old(inbuf.totalLen) > 0 && inbuf != this && (freezeEnd || inbuf.freezeStart) then -1 else 0
      ensures if result == 0 && inbuf != this
        then Contents() == old(Contents() + inbuf.Contents()) && inbuf.Contents() == []
        else Contents() == old(Contents()) && inbuf.Contents() == old(inbuf.Contents())
      ensures old(Compact() && inbuf.Compact()) ==> Compact() && inbuf.Compact()
      ensures freezeStart == old(freezeStart) && freezeEnd == old(freezeEnd)
      ensures inbuf.freezeStart == old(inbuf.freezeStart) && inbuf.freezeEnd == old(inbuf.freezeEnd)
    {
      hide Flatten, Chain.Holds, Differ, NoGaps, AtTail;
      if inbuf.totalLen == 0 || inbuf == this { return 0; }
      if freezeEnd || inbuf.freezeStart { return -1; }
      if totalLen == 0 {
        CopyChain(inbuf);
      } else {
        ChainsOwned();
        AppendChain(inbuf);
      }
      inbuf.Restore();
      return 0;
    }

    /** Moves all bytes of `inbuf` to the front of this buffer. */
    method PrependBuffer(inbuf: Evbuffer) returns (result: int)
      requires Valid() && inbuf.Valid() && (inbuf == this || Repr !! inbuf.Repr)
      modifies Repr, inbuf.Repr
      ensures Valid() && inbuf.Valid() && (inbuf == this || Repr !! inbuf.Repr)
      ensures Repr + inbuf.Repr == old(Repr + inbuf.Repr)
      ensures result == if old(inbuf.totalLen) > 0 && inbuf != this && (freezeStart || inbuf.freezeStart) then -1 else 0
      ensures if result == 0 && inbuf != this
        then Contents() == old(inbuf.Contents() + Contents()) && inbuf.Contents() == []
        else Contents() == old(Contents()) && inbuf.Contents() == old(inbuf.Contents())
      ensures old(Compact() && inbuf.Compact()) ==> Compact() && inbuf.Compact()
      ensures freezeStart == old(freezeStart) && freezeEnd == old(freezeEnd)
      ensures inbuf.freezeStart == old(inbuf.freezeStart) && inbuf.freezeEnd == old(inbuf.freezeEnd)
    {
      hide Flatten, Chain.Holds, Differ, NoGaps, AtTail;
      if inbuf.totalLen == 0 || inbuf == this { return 0; }
      if freezeStart || inbuf.freezeStart { return -1; }
      if totalLen == 0 {
        CopyChain(inbuf);
      } else {
        inbuf.ChainsOwned();
        PrependChain(inbuf);
      }
      inbuf.Restore();
      return 0;
    }

    /** Leaves this buffer empty, its former chains now belonging to another one. */
    method Restore()
      modifies this
      ensures Valid() && chains == [] && Contents() == [] && Repr == {this} && NoGaps() && AtTail()
      ensures freezeStart == old(freezeStart) && freezeEnd == old(freezeEnd)
    {
      first, last, lastWithDatap, totalLen := null, null, null, 0;
      chains, parts, lwd, Repr := [], [], 0, {this};
    }

    /** The chain that `lastWithDatap` points at, and the one behind it. */
    lemma Pointee()
      requires Structure() && Pointed()
      ensures Deref(lastWithDatap) == At(chains, lwd) && (lwd < |chains| <==> chains != [])
      ensures chains != [] ==> chains[lwd].next == At(chains, lwd + 1)
      ensures lwd + 1 < |chains| ==> chains[lwd + 1].off == |parts[lwd + 1]|
    {
      hide Flatten, Separate;
      assert Node(lwd - 1) && Node(lwd) && Node(lwd + 1);
    }

    /** Moves `lastWithDatap` on by one chain. */
    method AdvanceOne()
      requires Structure() && Pointed() && lwd + 1 < |chains|
      modifies this`lastWithDatap, this`lwd
      ensures Structure() && Pointed() && lwd == old(lwd) + 1
    {
      hide Flatten, Separate;
      Pointee();
      lastWithDatap := Deref(lastWithDatap);
      lwd := lwd + 1;
    }

    ghost method Repoint(k: nat)
      requires Structure() && lastWithDatap == At(chains, k - 1) && (k == 0 || k < |chains|)
      modifies this`lwd
      ensures Structure() && Pointed() && lwd == k
    {
      hide Flatten, Separate;
      lwd := k;
    }

    /** Moves `lastWithDatap` on from chain k, as far as the next chain has data. */
    method AdvanceLastWithData(ghost k: nat)
      requires Structure() && lastWithDatap == At(chains, k - 1) && (k == 0 || k < |chains|)
      modifies this`lastWithDatap, this`lwd
      ensures Structure() && Pointed()
      ensures lwd == if chains == [] then k else FirstEmpty(parts, k + 1) - 1
    {
      hide Structure, FirstEmpty;
      Repoint(k);
      Pointee();
      if Deref(lastWithDatap) != null {
        while Deref(lastWithDatap).next != null && Deref(lastWithDatap).next.off != 0
          invariant Structure() && Pointed() && chains != [] && Deref(lastWithDatap) == At(chains, lwd)
          invariant lwd < |chains| && FirstEmpty(parts, lwd + 1) == FirstEmpty(parts, k + 1)
          decreases |chains| - lwd
        {
          Pointee();
          FirstEmptyStep(parts, lwd + 1);
          AdvanceOne();
          Pointee();
        }
        Pointee();
        FirstEmptyStep(parts, lwd + 1);
      }
    }

    /** If no chain from k to m is empty and all after m are, that is the last chain with data. */
    lemma Advanced(k: nat, m: nat)
      requires Structure() && Pointed() && lwd == (if chains == [] then k else FirstEmpty(parts, k + 1) - 1)
      requires k <= m && (m < |chains| || m == k == 0) && (m > 0 ==> m < |chains| && parts[m] != [])
      requires forall j | k < j <= m :: j < |parts| && parts[j] != []
      requires forall j | m < j < |parts| :: parts[j] == []
      ensures Valid() && lwd == m
    {
      hide Flatten, FirstEmpty, Separate, Node;
      if chains != [] { FirstEmptyIs(parts, k + 1); }
    }

    /** It does not get past an empty chain. */
    lemma NotAdvanced(k: nat)
      requires Structure() && Pointed() && chains != [] && lwd == FirstEmpty(parts, k + 1) - 1
      requires k + 2 < |chains| && parts[k + 1] == [] && parts[|parts| - 1] != []
      ensures !Valid()
    {
    }

    /** Finds the chain at which moving `len` bytes stops. */
    method MoveScan(len: nat) returns (chain: Chain, previous: Chain, left: nat, nread: nat, ghost i: nat)
      requires Valid() && len < totalLen
      modifies this`lastWithDatap
      ensures i <= lwd && i < |chains| && chain == chains[i] && left < |parts[i]|
      ensures previous == chains[if i == 0 then 0 else i - 1]
      ensures |Flatten(parts[..i])| == nread && nread + left == len
      ensures lastWithDatap == if i < lwd then old(lastWithDatap) else null
      ensures NoGaps() ==> if nread > 0 then Scanned(i) else i == 0 && Valid()
    {
      SomeChain();
      var c: Chain? := first;
      previous := first;
      left, nread, i := len, 0, 0;
      assert parts[..0] == [];
      FlattenUpTo(parts, lwd + 1);
      while true
        invariant i <= lwd && c == chains[i]
        invariant previous == chains[if i == 0 then 0 else i - 1]
        invariant |Flatten(parts[..i])| == nread && nread + left == len
        invariant NoGaps() && i > 0 ==> nread > 0
        invariant lastWithDatap == if i < lwd then old(lastWithDatap) else null
        decreases |chains| - i
      {
        FlattenTake(parts, i);
        assert Node(i) && Differ(chains, i, lwd - 1);
        if c.off > left { break; }
        nread, left := nread + c.off, left - c.off;
        previous := c;
        if lastWithDatap == c {
          lastWithDatap := null;
        }
        c, i := c.next, i + 1;
      }
      chain := c;
    }

    /** Moves the first i chains of `src` behind the first v chains of this buffer, at address `ch`. */
    method TakePrefixFields(src: Evbuffer, ch: Chain?, chain: Chain, previous: Chain, nread: nat, ghost i: nat,
        ghost v: int)
      requires src != this && 0 <= v <= |chains| && v <= |parts| && i <= |src.chains| && i <= |src.parts|
      requires i <= src.lwd && nread <= src.totalLen
      modifies this, src, (if ch == null then {} else {ch})`next, previous`next
      ensures first == (if ch == null then old(src.first) else old(first)) && last == previous
      ensures previous.next == null
      ensures ch != null && ch != previous ==> ch.next == old(src.first)
      ensures lastWithDatap == old(lastWithDatap) && lwd == old(lwd) && totalLen == old(totalLen) + nread
      ensures chains == old(chains[..v] + src.chains[..i]) && parts == old(parts[..v] + src.parts[..i])
      ensures Repr == old(Repr + Footprint(src.chains[..i]))
      ensures freezeStart == old(freezeStart) && freezeEnd == old(freezeEnd)
      ensures src.first == chain && src.last == old(src.last) && src.lastWithDatap == old(src.lastWithDatap)
      ensures src.totalLen == old(src.totalLen) - nread
      ensures src.chains == old(src.chains[i..]) && src.parts == old(src.parts[i..]) && src.lwd == old(src.lwd) - i
      ensures src.Repr == old(src.Repr - Footprint(src.chains[..i]))
      ensures src.freezeStart == old(src.freezeStart) && src.freezeEnd == old(src.freezeEnd)
    {
      hide Footprint;
      SetPtr(ch, src.first);
      last, previous.next, src.first := previous, null, chain;
      totalLen, src.totalLen := totalLen + nread, src.totalLen - nread;
      Repr, src.Repr := Repr + Footprint(src.chains[..i]), src.Repr - Footprint(src.chains[..i]);
      chains, parts := chains[..v] + src.chains[..i], parts[..v] + src.parts[..i];
      src.chains, src.parts, src.lwd := src.chains[i..], src.parts[i..], src.lwd - i;
    }

    lemma NodeOwned(i: int)
      requires Structure() && i < |chains|
      ensures i >= 0 ==> chains[i] in Repr && chains[i].buffer in Repr
    {
      assert Node(i);
    }

    lemma FootprintOwned(i: nat)
      requires Structure() && i <= |chains|
      ensures Footprint(chains[..i]) <= Repr && this !in Footprint(chains[..i])
    {
      forall c: Chain | c in chains[..i] ensures c in Repr && c.buffer in Repr {
        var k :| 0 <= k < i && c == chains[k];
        assert Node(k);
      }
    }

    /** What a scan of `src` leaves behind when its first i > 0 chains, none of them empty, are to be moved. */
    ghost predicate Scanned(i: nat)
      reads this, Repr
    {
      && Structure() && NoGaps()
      && 0 < i <= lwd < |chains| && parts[lwd] != []
      && (forall j | lwd < j < |parts| :: parts[j] == [])
      && lastWithDatap == if i < lwd then chains[lwd - 1] else null
    }

    /** The same for two buffers that share no memory: nothing else changes in either. */
    method LinkPrefix(src: Evbuffer, ch: Chain?, chain: Chain, previous: Chain, nread: nat, ghost i: nat, ghost v: int)
      requires Valid() && src.Scanned(i) && Repr !! src.Repr && 0 <= v <= |chains| && ch == At(chains, v - 1)
      requires chain == src.chains[i] && previous == src.chains[i - 1] && nread == |Flatten(src.parts[..i])|
      modifies Repr, src.Repr
      ensures first == (if ch == null then old(src.first) else old(first)) && last == previous
      ensures previous.next == null
      ensures ch != null && ch != previous ==> ch.next == old(src.first)
      ensures lastWithDatap == old(lastWithDatap) && lwd == old(lwd) && totalLen == old(totalLen) + nread
      ensures chains == old(chains[..v] + src.chains[..i]) && parts == old(parts[..v] + src.parts[..i])
      ensures Repr == old(Repr + Footprint(src.chains[..i]))
      ensures freezeStart == old(freezeStart) && freezeEnd == old(freezeEnd)
      ensures src.first == chain && src.last == old(src.last) && src.lastWithDatap == old(src.lastWithDatap)
      ensures src.totalLen == old(src.totalLen) - nread
      ensures src.chains == old(src.chains[i..]) && src.parts == old(src.parts[i..]) && src.lwd == old(src.lwd) - i
      ensures src.Repr == old(src.Repr - Footprint(src.chains[..i]))
      ensures src.freezeStart == old(src.freezeStart) && src.freezeEnd == old(src.freezeEnd)
      ensures OnlyLinked(old(Repr + src.Repr), ch, previous) && OnlyLinked(old(src.Repr), ch, previous)
    {
      hide Flatten, Chain.Holds, Differ, Separate;
      assert Node(v - 1) && src.Node(i - 1);
      FlattenSplit(src.parts, i);
      TakePrefixFields(src, ch, chain, previous, nread, i, v);
    }

    method RelinkPrefix(src: Evbuffer, chain: Chain, previous: Chain, nread: nat, ghost i: nat) returns (ghost v: int)
      requires Valid() && src.Scanned(i) && Repr !! src.Repr
      requires chain == src.chains[i] && previous == src.chains[i - 1] && nread == |Flatten(src.parts[..i])|
      modifies Repr, src.Repr
      ensures lwd == old(lwd) <= v <= old(|chains|)
      ensures v == if old(chains == [] || parts[lwd] == []) then lwd else lwd + 1
      ensures chains == old(chains[..v] + src.chains[..i]) && parts == old(parts[..v] + src.parts[..i])
      ensures Structure() && lastWithDatap == old(lastWithDatap)
      ensures src.Structure() && src.lastWithDatap == old(src.lastWithDatap) && src.lwd == old(src.lwd) - i
      ensures src.chains == old(src.chains[i..]) && src.parts == old(src.parts[i..])
      ensures Repr !! src.Repr && Repr + src.Repr == old(Repr + src.Repr)
      ensures Contents() == old(Contents() + Flatten(src.parts[..i])) && src.Contents() == old(Flatten(src.parts[i..]))
      ensures freezeStart == old(freezeStart) && freezeEnd == old(freezeEnd)
      ensures src.freezeStart == old(src.freezeStart) && src.freezeEnd == old(src.freezeEnd)
    {
      hide Flatten, Chain.Holds, Differ, Separate, Node, Structure, LastWithData, Valid, Scanned;
      ValidParts();
      StructureParts();
      src.ScannedParts(i);
      src.StructureParts();
      var ch;
      ch, v := FindVictim();
      NodeOwned(v - 1);
      src.NodeOwned(i - 1);
      FlattenConcat(parts[..v], src.parts[..i]);
      FlattenSplit(src.parts, i);
      src.FootprintOwned(i);
      LinkPrefix(src, ch, chain, previous, nread, i, v);
      PrefixTaken(Moved(src, i, v));
      RestKept(Moved(src, i, v));
      MakeStructure();
      src.MakeStructure();
    }

    lemma StructureParts()
      requires Structure()
      ensures this in Repr && Separate(chains) && |parts| == |chains|
      ensures first == At(chains, 0) && last == At(chains, |chains| - 1) && totalLen == |Flatten(parts)|
    {
    }

    lemma MakeStructure()
      requires this in Repr && Separate(chains) && |parts| == |chains| && (forall i :: Node(i))
      requires first == At(chains, 0) && last == At(chains, |chains| - 1) && totalLen == |Flatten(parts)|
      ensures Structure()
    {
    }

    lemma ScannedParts(i: nat)
      requires Scanned(i)
      ensures Structure() && 0 < i <= lwd < |chains|
    {
    }

    /** Of the chains in `r`, only a and b may have a new successor; no stored byte changes. */
    static twostate predicate OnlyLinked(r: set<object>, a: Chain?, b: Chain?)
      reads r
    {
      forall c: Chain | c in r && c.buffer in r ::
        c.misalign == old(c.misalign) && c.off == old(c.off) && c.buffer[..] == old(c.buffer[..])
        && (c == a || c == b || c.next == old(c.next))
    }

    /** Moves the first i chains of `src` to the end of this buffer. */
    method MovePrefix(src: Evbuffer, chain: Chain, previous: Chain, nread: nat, ghost i: nat)
      requires Valid() && src.Scanned(i) && Repr !! src.Repr
      requires chain == src.chains[i] && previous == src.chains[i - 1] && nread == |Flatten(src.parts[..i])|
      modifies Repr, src.Repr
      ensures Valid() && src.Valid() && Repr !! src.Repr && Repr + src.Repr == old(Repr + src.Repr)
      ensures Contents() == old(Contents() + Flatten(src.parts[..i])) && src.Contents() == old(Flatten(src.parts[i..]))
      ensures AtTail() && (old(NoGaps()) ==> NoGaps())
      ensures src.chains == old(src.chains[i..]) && src.parts == old(src.parts[i..]) && src.NoGaps()
      ensures old(src.AtTail()) ==> src.AtTail()
      ensures freezeStart == old(freezeStart) && freezeEnd == old(freezeEnd)
      ensures src.freezeStart == old(src.freezeStart) && src.freezeEnd == old(src.freezeEnd)
    {
      hide Flatten, Chain.Holds, Differ, Node;
      var v := RelinkPrefix(src, chain, previous, nread, i);
      ghost var k := lwd;
      AdvanceLastWithData(k);
      Advanced(k, v + i - 1);
    }

    twostate lemma PrefixTaken(m: Moved)
      requires old(Structure() && m.src.Structure() && Repr !! m.src.Repr)
      requires 0 < m.i <= |old(m.src.chains)| && m.v <= |old(chains)|
      requires chains == old(chains[..m.v] + m.src.chains[..m.i]) && parts == old(parts[..m.v] + m.src.parts[..m.i])
      requires Repr == old(Repr + Footprint(m.src.chains[..m.i]))
      requires OnlyLinked(old(Repr + m.src.Repr), old(At(chains, m.v - 1)), old(m.src.chains[m.i - 1]))
      requires m.v > 0 ==> old(chains[m.v - 1]).next == old(m.src.chains[0])
      requires old(m.src.chains[m.i - 1]).next == null
      ensures Separate(chains) && forall j :: Node(j)
    {
      hide Flatten;
      forall j ensures Node(j) {
        assert old(Node(j)) && old(m.src.Node(j - m.v));
        assert old(Differ(chains, j, m.v - 1)) && old(Differ(m.src.chains, j - m.v, m.i - 1));
        assert old(Node(m.v - 1)) && old(m.src.Node(m.i - 1));
        assert m.v <= j < |chains| ==> chains[j] in old(m.src.chains[..m.i]);
      }
      PrefixSeparate(m);
    }

    twostate lemma PrefixSeparate(m: Moved)
      requires old(Structure() && m.src.Structure() && Repr !! m.src.Repr)
      requires m.i <= |old(m.src.chains)| && m.v <= |old(chains)|
      requires chains == old(chains[..m.v] + m.src.chains[..m.i])
      ensures Separate(chains)
    {
      hide Chain.Holds;
      forall j, k ensures Differ(chains, j, k) {
        assert Differ(old(chains), j, k) && Differ(old(m.src.chains), j - m.v, k - m.v);
        assert old(Node(j)) && old(m.src.Node(k - m.v));
      }
    }

    twostate lemma RestKept(m: Moved)
      requires old(m.src.Structure()) && m.v <= |old(chains)| && 0 < m.i <= |old(m.src.chains)|
      requires m.src.chains == old(m.src.chains[m.i..]) && m.src.parts == old(m.src.parts[m.i..])
      requires m.src.Repr == old(m.src.Repr - Footprint(m.src.chains[..m.i]))
      requires old(At(chains, m.v - 1)) !in old(m.src.Repr)
      requires OnlyLinked(old(m.src.Repr), old(At(chains, m.v - 1)), old(m.src.chains[m.i - 1]))
      ensures Separate(m.src.chains) && forall j :: m.src.Node(j)
    {
      forall j ensures m.src.Node(j) {
        assert old(m.src.Node(m.i + j)) && Differ(old(m.src.chains), m.i - 1, m.i + j);
        if 0 <= j < |m.src.chains| {
          var x := m.src.chains[j];
          forall c | c in old(m.src.chains[..m.i]) ensures c != x && c.buffer != x.buffer {
            var k :| 0 <= k < m.i && c == old(m.src.chains)[k];
            assert Differ(old(m.src.chains), k, m.i + j);
          }
        }
      }
      forall j, k ensures Differ(m.src.chains, j, k) {
        assert Differ(old(m.src.chains), m.i + j, m.i + k);
      }
    }

    /** Moves the chains that lie wholly within the first `len` bytes to the end of `dst`. */
    method MoveWholeChains(dst: Evbuffer, len: nat) returns (left: nat, nread: nat)
      requires Compact() && dst.Compact() && Repr !! dst.Repr && len < totalLen
      modifies Repr, dst.Repr
      ensures Compact() && dst.Compact() && Repr !! dst.Repr && Repr + dst.Repr == old(Repr + dst.Repr)
      ensures nread + left == len && Contents() == old(Contents())[nread..]
      ensures nread == WholePieces(old(parts), len)
      ensures dst.Contents() == old(dst.Contents()) + old(Contents())[..nread]
      ensures first != null && left < first.off
      ensures freezeStart == old(freezeStart) && freezeEnd == old(freezeEnd)
      ensures dst.freezeStart == old(dst.freezeStart) && dst.freezeEnd == old(dst.freezeEnd)
    {
      hide Flatten, Chain.Holds, Differ, NoGaps;
      var chain, previous;
      ghost var i;
      chain, previous, left, nread, i := MoveScan(len);
      WholePiecesIs(parts, i, len);
      FlattenSplit(parts, i);
      assert dst.Contents() + [] == dst.Contents();
      if nread > 0 {
        dst.MovePrefix(this, chain, previous, nread, i);
      }
      FirstOk();
    }

    /** Moves the first bytes of this buffer to the end of `dst`: whole chains as far as possible, the rest
        by copying. When copying fails, only the first `kept` of the n bytes arrive, which are those of the whole
        chains; the others are gone. */
    method RemoveBuffer(dst: Evbuffer, datlen: nat, oom: bool) returns (result: int, ghost n: int, ghost kept: nat)
      requires Compact() && dst.Compact() && (dst == this || Repr !! dst.Repr)
      modifies Repr, dst.Repr
      ensures Compact() && dst.Compact() && (dst == this || Repr !! dst.Repr)
      ensures fresh(Repr + dst.Repr - old(Repr + dst.Repr))
      ensures n == if datlen == 0 || dst == this then 0 else if dst.freezeEnd || freezeStart then -1
        else if datlen < old(totalLen) then datlen else old(totalLen)
      ensures n <= 0 ==> Contents() == old(Contents()) && dst.Contents() == old(dst.Contents())
      ensures n > 0 ==> Contents() == old(Contents())[n..]
      ensures result == AsInt(n)
      ensures n > 0 ==> kept <= n && dst.Contents() == old(dst.Contents()) + old(Contents())[..kept]
      ensures n > 0 ==> kept == n || (n == datlen && kept == WholePieces(old(parts), n))
      ensures n > 0 && !oom && old(totalLen + dst.totalLen) <= SIZE_MAX ==> kept == n
      ensures freezeStart == old(freezeStart) && freezeEnd == old(freezeEnd)
      ensures dst.freezeStart == old(dst.freezeStart) && dst.freezeEnd == old(dst.freezeEnd)
    {
      hide Flatten, Chain.Holds, Valid, NoGaps, AtTail, WholePieces;
      if datlen == 0 || dst == this { return 0, 0, 0; }
      if dst.freezeEnd || freezeStart { return -1, -1, 0; }
      if datlen >= totalLen {
        result, n, kept := AsInt(totalLen), totalLen, totalLen;
        LengthOk();
        var r := dst.AddBuffer(this);
        return;
      }
      ghost var bytes := Contents();
      LengthOk();
      dst.LengthOk();
      var left, nread := MoveWholeChains(dst, datlen);
      TwoSteps(bytes, dst.Contents(), nread, left);
      var copied := MoveRest(dst, left, oom);
      kept := if copied then datlen else nread;
      return AsInt(datlen), datlen, kept;
    }

    static lemma TwoSteps(s: seq<byte>, t: seq<byte>, m: nat, n: nat)
      requires m + n <= |s|
      ensures s[m + n..] == s[m..][n..] && s[..m + n] == s[..m] + s[m..][..n] && t + [] == t
    {
    }

    /** Copies the first `left` bytes, which the first chain holds, to the end of `dst`, and skips them in any case. */
    method MoveRest(dst: Evbuffer, left: nat, oom: bool) returns (copied: bool)
      requires Compact() && dst.Compact() && Repr !! dst.Repr && first != null && left < first.off
      requires !dst.freezeEnd
      modifies Repr, dst.Repr
      ensures Compact() && dst.Compact() && Repr !! dst.Repr
      ensures fresh(Repr + dst.Repr - old(Repr + dst.Repr))
      ensures left <= |old(Contents())| && Contents() == old(Contents())[left..]
      ensures dst.Contents() == old(dst.Contents()) + if copied then old(Contents())[..left] else []
      ensures !oom && |old(dst.Contents())| + left <= SIZE_MAX ==> copied
      ensures freezeStart == old(freezeStart) && freezeEnd == old(freezeEnd)
      ensures dst.freezeStart == old(dst.freezeStart) && dst.freezeEnd == old(dst.freezeEnd)
    {
      hide Flatten, Chain.Holds, Valid, NoGaps, AtTail, AddKeeps, AddAborts, Structure;
      FirstOk();
      LengthOk();
      dst.LengthOk();
      var data := PeekFirst(left);
      var r := dst.Add(data, oom);
      SkipFirst(left);
      copied := r == 0;
      assert dst.Contents() + [] == dst.Contents();
    }

    /** The first `left` bytes, which the first chain holds. */
    method PeekFirst(left: nat) returns (data: seq<byte>)
      requires Valid() && first != null && left < first.off
      ensures left <= |Contents()| && data == Contents()[..left] && |data| == left <= CHAIN_MAX - CHAIN_SIZE
    {
      hide Flatten;
      FirstOk();
      FlattenCons(parts[0], parts[1..]);
      assert Node(0);
      first.HoldsPrefix(parts[0], left);
      data := first.buffer[first.misalign..first.misalign + left];
    }

    /** Skips the first `left` bytes, which the first chain holds. */
    method SkipFirst(left: nat)
      requires Valid() && first != null && left < first.off && left <= |Contents()|
      modifies this`totalLen, this`parts, first`misalign, first`off
      ensures Valid() && Contents() == old(Contents())[left..]
      ensures old(NoGaps()) ==> NoGaps()
    {
      hide Chain.Holds, Flatten;
      assert Node(0);
      FirstOk();
      ghost var p := parts[0];
      first.Skip(left, p);
      totalLen := totalLen - left;
      FlattenCons(p, parts[1..]);
      FlattenCons(p[left..], parts[1..]);
      assert (p + Flatten(parts[1..]))[left..] == p[left..] + Flatten(parts[1..]);
      parts := [p[left..]] + parts[1..];
      forall i ensures Node(i) {
        assert old(Node(i)) && Differ(chains, 0, i);
      }
    }

    lemma PointsAtLwd(i: nat)
      requires Separate(chains) && LastWithData() && i < |chains| && Deref(lastWithDatap) == At(chains, lwd)
      ensures chains[i] == Deref(lastWithDatap) <==> i == lwd
      ensures chains[i] == lastWithDatap <==> i + 1 == lwd
    {
      assert Differ(chains, i, lwd) && Differ(chains, lwd, i) && Differ(chains, i, lwd - 1)
        && Differ(chains, lwd - 1, i);
    }

    /** Copies the bytes of the chains from i0 on to tmp.buffer[at..], as long as whole chains fit into
        `size` bytes; stops at chain i, with `left` bytes still to come. */
    method PullWhole(start: Chain?, tmp: Chain, at: nat, size: nat, ghost i0: nat)
        returns (chain: Chain?, left: nat, remData: bool, remPtr: bool, ghost i: nat)
      requires Valid() && i0 <= |chains| && start == At(chains, i0) && at + size <= tmp.buffer.Length
      requires forall j | i0 <= j < |chains| :: chains[j].buffer != tmp.buffer
      modifies tmp.buffer
      ensures i0 <= i <= |chains| && chain == At(chains, i) && left <= size
      ensures i < |chains| ==> left < |parts[i]|
      ensures |Flatten(parts[i0..][..i - i0])| + left == size
      ensures tmp.buffer[..at] == old(tmp.buffer[..at])
      ensures tmp.buffer[at..at + size - left] == Flatten(parts[i0..][..i - i0])
      ensures remData == (i0 <= lwd < i) && remPtr == (i0 < lwd <= i)
    {
      hide Flatten, Differ, Structure, Node, Chain.Holds;
      ghost var rest := parts[i0..];
      FlattenEmpty([]);
      assert rest[..0] == [];
      DerefOk();
      SeparateOk();
      chain, left, remData, remPtr, i := start, size, false, false, i0;
      while chain != null && left >= chain.off
        invariant i0 <= i <= |chains| && chain == At(chains, i) && left <= size
        invariant |Flatten(rest[..i - i0])| + left == size
        invariant tmp.buffer[..at] == old(tmp.buffer[..at])
        invariant tmp.buffer[at..at + size - left] == Flatten(rest[..i - i0])
        invariant remData == (i0 <= lwd < i) && remPtr == (i0 < lwd <= i)
        decreases |chains| - i
      {
        FlattenTake(rest, i - i0);
        ChainAsBefore(i);
        PointsAtLwd(i);
        Extend(tmp.buffer, at, at + size - left, chain.buffer[chain.misalign..chain.misalign + chain.off]);
        left := left - chain.off;
        if chain == Deref(lastWithDatap) { remData := true; }
        if chain == lastWithDatap { remPtr := true; }
        chain, i := chain.next, i + 1;
      }
      if i < |chains| { ChainAsBefore(i); }
    }

    twostate lemma ChainAsBefore(i: nat)
      requires old(Valid()) && unchanged(this) && i < |chains| && unchanged(chains[i])
      requires chains[i].buffer[..] == old(chains[i].buffer[..])
      ensures chains[i].off == |parts[i]| && chains[i].misalign + chains[i].off <= chains[i].buffer.Length
      ensures chains[i].buffer[chains[i].misalign..chains[i].misalign + chains[i].off] == parts[i]
      ensures chains[i].next == At(chains, i + 1)
    {
      hide Flatten, Separate;
      assert old(Node(i));
      var c := chains[i];
      assert c.buffer[c.misalign..c.misalign + c.off] == c.buffer[..][c.misalign..c.misalign + c.off];
    }

    /** Copies `size` bytes, starting with those of chain i0, to tmp.buffer[at..]. The first i chains are
        then used up, and `left` bytes of the next one. */
    method PullChains(start: Chain?, tmp: Chain, at: nat, size: nat, ghost i0: nat)
        returns (chain: Chain?, left: nat, remData: bool, remPtr: bool, ghost i: nat)
      requires Valid() && i0 <= |chains| && start == At(chains, i0) && at + size <= tmp.buffer.Length
      requires forall j | i0 <= j < |chains| :: chains[j].buffer != tmp.buffer
      requires size <= |Flatten(parts[i0..])|
      modifies tmp.buffer
      ensures i0 <= i <= |chains| && chain == At(chains, i)
      ensures if i < |chains| then left < |parts[i]| else left == 0
      ensures |Flatten(parts[i0..][..i - i0])| + left == size
      ensures tmp.buffer[..at] == old(tmp.buffer[..at])
      ensures tmp.buffer[at..at + size] == Flatten(parts[i0..])[..size]
      ensures remData == (i0 <= lwd < i) && remPtr == (i0 < lwd <= i)
    {
      hide Flatten, Differ, Separate;
      ghost var rest := parts[i0..];
      chain, left, remData, remPtr, i := PullWhole(start, tmp, at, size, i0);
      if chain != null {
        assert old(Node(i));
        FlattenAt(rest, i - i0);
        chain.HoldsPrefix(parts[i], left);
        Extend(tmp.buffer, at, at + size - left, chain.buffer[chain.misalign..chain.misalign + left]);
        assert Flatten(rest)[..size] == Flatten(rest[..i - i0]) + parts[i][..left];
      } else {
        assert rest[..i - i0] == rest;
      }
    }

    /** Makes `tmp`, which holds the bytes that were pulled up, the chain before chain i. */
    method LinkPulled(tmp: Chain, chain: Chain?, remData: bool, remPtr: bool, ghost i: nat, ghost ps: seq<seq<byte>>)
      requires i <= |chains| && (chain != null ==> chain.off > 0)
      modifies this, tmp`next
      ensures tmp.next == chain && first == tmp
      ensures last == if chain == null then tmp else old(last)
      ensures lastWithDatap ==
        if remData || (remPtr && chain == null) then null else if remPtr then tmp else old(lastWithDatap)
      ensures totalLen == old(totalLen) && Repr == old(Repr) + {tmp, tmp.buffer}
      ensures chains == [tmp] + old(chains[i..]) && parts == ps
      ensures lwd == if remData then 0 else if i <= old(lwd) then old(lwd) - i + 1 else old(lwd)
      ensures freezeStart == old(freezeStart) && freezeEnd == old(freezeEnd)
    {
      first := tmp;
      if chain == null {
        last := tmp;
      }
      tmp.next := chain;
      if remData {
        lastWithDatap := null;
      } else if remPtr {
        if first.next != null && first.next.off != 0 {
          lastWithDatap := first;
        } else {
          lastWithDatap := null;
        }
      }
      lwd := if remData then 0 else if i <= lwd then lwd - i + 1 else lwd;
      chains, parts := [tmp] + chains[i..], ps;
      Repr := Repr + {tmp, tmp.buffer};
    }

    /** Puts `tmp` in the place of the first i chains and of `left` bytes of the next one. */
    method PutFront(tmp: Chain, chain: Chain?, size: nat, left: nat, remData: bool, remPtr: bool, ghost i0: nat,
        ghost i: nat)
      requires Structure() && size <= totalLen
      requires 0 < i <= |chains| && chain == At(chains, i) && i0 < 2
      requires if i0 == 1 then tmp == chains[0] else {tmp, tmp.buffer} !! Repr
      requires if i < |chains| then left < |parts[i]| else left == 0
      requires |Flatten(parts[..i])| + left == size
      requires tmp.misalign + size <= tmp.buffer.Length <= CHAIN_MAX - CHAIN_SIZE && 0 < tmp.buffer.Length
      requires tmp.buffer[tmp.misalign..tmp.misalign + size] == Contents()[..size]
      modifies Repr, tmp
      ensures Structure() && Repr == old(Repr) + {tmp, tmp.buffer} && Contents() == old(Contents())
      ensures chains == [tmp] + old(chains[i..]) && parts == old(Pulled(parts, i, left, size))
      ensures tmp.off == size && tmp.misalign == old(tmp.misalign)
      ensures lastWithDatap ==
        if remData || (remPtr && chain == null) then null else if remPtr then tmp else old(lastWithDatap)
      ensures lwd == if remData then 0 else if i <= old(lwd) then old(lwd) - i + 1 else old(lwd)
      ensures freezeStart == old(freezeStart) && freezeEnd == old(freezeEnd)
    {
      hide Flatten, Chain.Holds;
      assert Node(0) && Node(i) && Differ(chains, 0, i);
      NodeOff(i);
      ghost var ps := Pulled(parts, i, left, size);
      PulledContents(parts, i, left, size);
      tmp.Claim(size, ps[0]);
      if chain != null {
        chain.Skip(left, parts[i]);
      }
      LinkPulled(tmp, chain, remData, remPtr, i, ps);
      forall j ensures Node(j) {
        assert old(Node(i + j - 1)) && Differ(old(chains), i, i + j - 1) && Differ(old(chains), 0, i + j - 1);
      }
      FrontSeparate(i);
    }

    /** Replaces the first i chains and `left` bytes of the next one by `tmp`, which holds the same bytes. */
    method ReplaceFront(tmp: Chain, chain: Chain?, size: nat, left: nat, remData: bool, remPtr: bool,
                        ghost i0: nat, ghost i: nat)
      requires Valid() && totalLen > 0 && size <= totalLen
      requires 0 < i <= |chains| && chain == At(chains, i) && i0 < 2
      requires if i0 == 1 then tmp == chains[0] else {tmp, tmp.buffer} !! Repr
      requires if i < |chains| then left < |parts[i]| else left == 0
      requires |Flatten(parts[..i])| + left == size > |parts[0]|
      requires tmp.misalign + size <= tmp.buffer.Length <= CHAIN_MAX - CHAIN_SIZE && 0 < tmp.buffer.Length
      requires tmp.buffer[tmp.misalign..tmp.misalign + size] == Contents()[..size]
      requires remData == (i0 <= lwd < i) && remPtr == (i0 < lwd <= i)
      modifies Repr, tmp
      ensures Valid() && Repr == old(Repr) + {tmp, tmp.buffer} && Contents() == old(Contents())
      ensures first == tmp && tmp.off == size && tmp.misalign == old(tmp.misalign)
      ensures (old(NoGaps()) ==> NoGaps()) && (old(AtTail()) ==> AtTail())
      ensures freezeStart == old(freezeStart) && freezeEnd == old(freezeEnd)
    {
      hide Flatten, Structure;
      FirstIs();
      assert lwd > 0 by { if lwd == 0 { FlattenUpTo(parts, 1); FlattenTake(parts, 0); FlattenEmpty(parts[..0]); } }
      PutFront(tmp, chain, size, left, remData, remPtr, i0, i);
      FirstIs();
    }

    lemma FirstIs()
      requires Structure()
      ensures first == At(chains, 0) && |parts| == |chains| && totalLen == |Contents()|
    {
    }

    twostate lemma FrontSeparate(i: nat)
      requires old(Structure()) && 0 < i <= old(|chains|) && |chains| > 0 && chains[1..] == old(chains[i..])
      requires chains[0] == old(chains[0]) || {chains[0], chains[0].buffer} !! old(Repr)
      ensures Separate(chains)
    {
      hide Chain.Holds;
      assert chains == [chains[0]] + old(chains[i..]);
      forall j, k ensures Differ(chains, j, k) {
        assert Differ(old(chains), i + j - 1, i + k - 1) && old(Node(i + k - 1)) && Differ(old(chains), 0, i + k - 1);
      }
    }

    /** The pieces after the first `size` bytes, which are those of the first i pieces and `left` more, became one. */
    static ghost function Pulled(ps: seq<seq<byte>>, i: nat, left: nat, size: nat): seq<seq<byte>>
      requires i <= |ps| && size <= |Flatten(ps)| && (i < |ps| ==> left <= |ps[i]|)
    {
      [Flatten(ps)[..size]] + if i == |ps| then [] else [ps[i][left..]] + ps[i + 1..]
    }

    static lemma PulledContents(ps: seq<seq<byte>>, i: nat, left: nat, size: nat)
      requires i <= |ps| && size <= |Flatten(ps)| && (if i < |ps| then left <= |ps[i]| else left == 0)
      requires |Flatten(ps[..i])| + left == size
      ensures Flatten(Pulled(ps, i, left, size)) == Flatten(ps)
    {
      hide Flatten;
      var s := Flatten(ps);
      if i == |ps| {
        assert ps[..i] == ps && s[..size] == s;
        FlattenCons(s, []);
        FlattenEmpty([]);
        assert [s] + [] == [s];
      } else {
        FlattenAt(ps, i);
        FlattenCons(s[..size], [ps[i][left..]] + ps[i + 1..]);
        FlattenCons(ps[i][left..], ps[i + 1..]);
        assert s[..size] == Flatten(ps[..i]) + ps[i][..left];
        assert ps[i] == ps[i][..left] + ps[i][left..];
      }
    }

    lemma FirstBytes()
      requires Valid() && first != null
      ensures first.misalign + first.off <= first.buffer.Length && first.off <= |Contents()|
      ensures first.buffer[first.misalign..first.misalign + first.off] == Contents()[..first.off]
    {
      hide Flatten;
      FirstOk();
      assert Node(0);
      FlattenCons(parts[0], parts[1..]);
    }

    /** Copies the bytes to pull up behind those of the first chain, which has room for them. */
    method PullBehind(tmp: Chain, n: nat)
        returns (chain: Chain?, left: nat, remData: bool, remPtr: bool, ghost i: nat)
      requires Valid() && chains != [] && tmp == chains[0]
      requires tmp.off < n <= totalLen && n <= tmp.buffer.Length - tmp.misalign
      modifies tmp.buffer
      ensures Valid() && 1 <= i <= |chains| && chain == At(chains, i)
      ensures if i < |chains| then left < |parts[i]| else left == 0
      ensures |Flatten(parts[..i])| + left == n
      ensures tmp.buffer[tmp.misalign..tmp.misalign + n] == Contents()[..n]
      ensures remData == (1 <= lwd < i) && remPtr == (1 < lwd <= i)
    {
      hide Flatten, Chain.Holds;
      FirstOk();
      FirstBytes();
      FlattenCons(parts[0], parts[1..]);
      assert Node(0);
      forall j | 1 <= j < |chains| ensures chains[j].buffer != tmp.buffer {
        assert Differ(chains, 0, j);
      }
      var at := tmp.misalign + tmp.off;
      chain, left, remData, remPtr, i := PullChains(tmp.next, tmp, at, n - tmp.off, 1);
      ghost var a, lo := tmp.buffer, tmp.misalign;
      assert a[lo..at] == a[..at][lo..] && old(a[lo..at]) == old(a[..at])[lo..];
      forall j ensures Node(j) {
        assert old(Node(j)) && Differ(chains, 0, j);
        if j == 0 { HoldsFrom(tmp, parts[0]); }
      }
      FrontPieces(parts, i, n);
      SlicesJoin(tmp.buffer, tmp.misalign, at, tmp.misalign + n);
    }

    static lemma FrontPieces(ps: seq<seq<byte>>, i: nat, n: nat)
      requires 0 < i <= |ps| && |ps[0]| <= n <= |Flatten(ps)|
      ensures |Flatten(ps[..i])| == |ps[0]| + |Flatten(ps[1..][..i - 1])|
      ensures |Flatten(ps)| == |ps[0]| + |Flatten(ps[1..])|
      ensures Flatten(ps)[..n] == ps[0] + Flatten(ps[1..])[..n - |ps[0]|]
    {
      hide Flatten;
      assert ps == [ps[0]] + ps[1..] && ps[..i] == [ps[0]] + ps[1..][..i - 1];
      FlattenCons(ps[0], ps[1..]);
      FlattenCons(ps[0], ps[1..][..i - 1]);
    }

    static lemma SlicesJoin(a: array<byte>, lo: nat, at: nat, hi: nat)
      requires lo <= at <= hi <= a.Length
      ensures a[lo..hi] == a[lo..at] + a[at..hi]
    {
    }

    /** Pulls the first n bytes up into the first chain. */
    method PullIntoFirst(n: nat)
      requires Valid() && chains != [] && first.off < n <= totalLen && n <= first.buffer.Length - first.misalign
      modifies Repr
      ensures Valid() && Repr == old(Repr) && Contents() == old(Contents())
      ensures first == old(first) && first.misalign == old(first.misalign) && n <= first.off
      ensures (old(NoGaps()) ==> NoGaps()) && (old(AtTail()) ==> AtTail())
      ensures freezeStart == old(freezeStart) && freezeEnd == old(freezeEnd)
    {
      hide Flatten, Chain.Holds, Differ, Node, NoGaps, AtTail;
      FirstOk();
      var tmp := first;
      var chain, left, remData, remPtr, i := PullBehind(tmp, n);
      ReplaceFront(tmp, chain, n, left, remData, remPtr, 1, i);
    }

    /** The memory of the first chain is enough for the first n bytes, from where its data start. */
    ghost predicate FirstTakes(n: nat)
      reads this, first
    {
      first != null && first.misalign + n <= first.buffer.Length
    }

    /** Pulls the first n bytes up into a new chain. */
    method PullIntoNew(n: nat, oom: bool) returns (ok: bool)
      requires Valid() && chains != [] && first.off < n <= totalLen
      modifies Repr
      ensures Valid() && fresh(Repr - old(Repr)) && Contents() == old(Contents())
      ensures ok ==> first != null && n <= first.off
      ensures !oom && n <= CHAIN_MAX - CHAIN_SIZE ==> ok
      ensures !ok ==> first == old(first) && unchanged(first)
      ensures (old(NoGaps()) ==> NoGaps()) && (old(AtTail()) ==> AtTail())
      ensures freezeStart == old(freezeStart) && freezeEnd == old(freezeEnd)
    {
      hide Flatten, Chain.Holds;
      FirstOk();
      var tmp := ChainNew(n, oom);
      if tmp == null { return false; }
      forall j | 0 <= j < |chains| ensures chains[j].buffer != tmp.buffer {
        assert Node(j);
      }
      assert parts[0..] == parts;
      var chain, left, remData, remPtr, i := PullChains(first, tmp, 0, n, 0);
      FlattenEmpty(parts[..0]);
      ReplaceFront(tmp, chain, n, left, remData, remPtr, 0, i);
      return true;
    }

    method Pullup(size: int, oom: bool) returns (ok: bool)
      requires Valid()
      modifies Repr
      ensures Valid() && fresh(Repr - old(Repr)) && Contents() == old(Contents())
      ensures var n := if size < 0 then old(totalLen) else size;
        && (ok ==> 0 < n <= totalLen && first != null && n <= first.off)
        && (!oom && 0 < n <= totalLen && n <= CHAIN_MAX - CHAIN_SIZE ==> ok)
        && (0 < n <= totalLen && old(FirstTakes(n)) ==>
              ok && first == old(first) && first.misalign == old(first.misalign))
        && (0 < n <= totalLen && FirstTakes(n) ==> ok)
      ensures ok ==> first.misalign + first.off <= first.buffer.Length && first.off <= |Contents()|
      ensures ok ==> first.buffer[first.misalign..first.misalign + first.off] == Contents()[..first.off]
      ensures (old(NoGaps()) ==> NoGaps()) && (old(AtTail()) ==> AtTail())
      ensures freezeStart == old(freezeStart) && freezeEnd == old(freezeEnd)
    {
      hide Flatten, Chain.Holds, NoGaps, AtTail;
      var n := if size < 0 then totalLen else size;
      if n == 0 || n > totalLen { return false; }
      SomeChain();
      FirstOk();
      if first.off >= n {
        FirstBytes();
        return true;
      }
      var chain := first;
      FlattenCons(parts[0], parts[1..]);
      if chain.buffer.Length - chain.misalign >= n {
        PullIntoFirst(n);
        ok := true;
      } else {
        ok := PullIntoNew(n, oom);
      }
      if ok {
        FirstBytes();
      }
    }

    /** Chain i has exactly s free bytes behind its data. */
    ghost predicate SpaceAt(i: int, s: nat)
      reads this`chains, this`Repr, Repr
    {
      0 <= i < |chains| && chains[i] in Repr
      && chains[i].misalign + chains[i].off + s == chains[i].buffer.Length
    }

    /** The chains from `fs` on have the free bytes `spaces`. */
    ghost predicate Spaces(fs: nat, spaces: seq<nat>)
      reads this`chains, this`Repr, Repr
    {
      forall j | 0 <= j < |spaces| :: SpaceAt(fs + j, spaces[j])
    }

    /** The first chain with room for more data: the last one with data unless that one is full. */
    ghost function FirstSpace(): nat
      reads this`chains, this`lwd, this`Repr, Repr
    {
      if SpaceAt(lwd, 0) then lwd + 1 else lwd
    }

    /** A new, empty chain for `more` bytes has come behind the chains `cs` with the pieces `ps`, or in the place of the
        last of them. */
    ghost predicate NewRoom(cs: seq<Chain>, ps: seq<seq<byte>>, more: int)
      reads this, last
    {
      && |ps| == |cs| && 0 < |chains| <= |cs| + 1 && last != null
      && chains == cs[..|chains| - 1] + [last] && parts == ps[..|chains| - 1] + [[]]
      && last.misalign == 0 && 0 < more <= CHAIN_MAX - CHAIN_SIZE && last.buffer.Length == Capacity(more)
    }

    /** The chains are as they were, or there is a new one for `more` bytes; it replaces others only if at least n were
        not before the last one with data. */
    twostate predicate Expanded(n: nat, more: int)
      reads this, last
      reads if lwd < |chains| then {chains[lwd]} else {}
    {
      && lwd == old(lwd) < |chains|
      && ((chains == old(chains) && parts == old(parts)) || NewRoom(old(chains), old(parts), more))
      && (|old(chains)| - lwd < n && chains != old(chains) ==> |chains| == |old(chains)| + 1)
      && (|parts| == |chains| && parts[lwd] != [] ==> chains[lwd].misalign == old(chains[lwd].misalign))
    }

    lemma NewRoomMore(cs: seq<Chain>, ps: seq<seq<byte>>, more: int)
      requires NewRoom(cs, ps, more)
      ensures more > 0
    {
    }

    /** Empty chains are filled from the start of their memory. */
    method ResetMisalign(chain: Chain, ghost k: nat)
      requires Valid() && k < |chains| && chain == chains[k] && parts[k] == []
      modifies chain`misalign
      ensures Valid() && chain.misalign == 0 && chain.off == 0
    {
      hide Flatten;
      assert Node(k);
      chain.misalign := 0;
      forall j ensures Node(j) {
        assert old(Node(j)) && Differ(chains, j, k) && Differ(chains, k, j);
      }
    }

    /** The free space of chain k, which is realigned when it is empty. */
    method ScanOne(chain: Chain, ghost k: nat, ghost fs: nat, ghost spaces: seq<nat>) returns (space: nat)
      requires Valid() && lwd <= k < |chains| && chain == chains[k]
      requires lwd <= fs && k == fs + |spaces| && Spaces(fs, spaces) && (lwd < k ==> FirstSpace() == fs)
      modifies chain`misalign
      ensures Valid() && SpaceAt(k, space) && Spaces(fs, spaces)
      ensures lwd < k || chain.off == 0 ==> space > 0
      ensures chain.buffer.Length == chain.misalign + chain.off + space
      ensures unchanged(this) && (lwd < k || chain.off != 0 ==> unchanged(chains[lwd]))
      ensures FirstSpace() == if lwd < k then fs else if space == 0 then lwd + 1 else lwd
    {
      hide Flatten;
      assert Node(k) && Node(lwd) && Differ(chains, lwd, k);
      if chain.off != 0 {
        space := chain.SpaceLen();
      } else {
        ResetMisalign(chain, k);
        space := chain.buffer.Length;
      }
      forall j | 0 <= j < |spaces| ensures SpaceAt(fs + j, spaces[j]) {
        assert old(SpaceAt(fs + j, spaces[j])) && Differ(chains, fs + j, k);
      }
    }

    lemma SpacesSnoc(fs: nat, spaces: seq<nat>, x: nat)
      requires Spaces(fs, spaces) && SpaceAt(fs + |spaces|, x)
      ensures Spaces(fs, spaces + [x]) && Sum(spaces + [x]) == Sum(spaces) + x
    {
      hide Sum;
      SumSnoc(spaces, x);
      forall j | 0 <= j < |spaces| + 1 ensures SpaceAt(fs + j, (spaces + [x])[j]) {
        assert j < |spaces| ==> SpaceAt(fs + j, spaces[j]);
      }
    }

    /** Adds up the free space of the chains from the last one with data on, until `datlen` bytes are found
        or n chains are used. */
    method ScanSpace(datlen: nat, n: nat) returns (avail: nat, used: nat, ghost spaces: seq<nat>)
      requires Valid() && chains != [] && n >= 2
      modifies Repr
      ensures Valid() && unchanged(this)
      ensures |spaces| == used <= n && avail == Sum(spaces) && Spaces(FirstSpace(), spaces)
      ensures FirstSpace() + used <= |chains| && (avail < datlen && used < n ==> FirstSpace() + used == |chains|)
      ensures parts[lwd] != [] ==> chains[lwd].misalign == old(chains[lwd].misalign)
      ensures chains[lwd].buffer.Length <= chains[lwd].misalign + chains[lwd].off + avail
    {
      hide Flatten, Node, Differ, Chain.Holds, Sum, SpaceAt, FirstSpace, Valid;
      avail, used, spaces := 0, 0, [];
      SumShort(0, 0);
      DerefOk();
      Bounds();
      var chain := Deref(lastWithDatap);
      ghost var k, fs := lwd, lwd;
      while chain != null
        invariant Valid() && unchanged(this)
        invariant lwd <= k <= |chains| && chain == At(chains, k) && lwd <= fs && k == fs + used
        invariant |spaces| == used < n && avail == Sum(spaces) && Spaces(fs, spaces)
        invariant lwd < k ==> FirstSpace() == fs && avail < datlen
        invariant lwd < |parts| && (parts[lwd] != [] ==> chains[lwd].misalign == old(chains[lwd].misalign))
        invariant lwd < k ==> chains[lwd].buffer.Length <= chains[lwd].misalign + chains[lwd].off + avail
        decreases |chains| - k
      {
        NextOk(k);
        var space := ScanOne(chain, k, fs, spaces);
        NextOk(k);
        if space > 0 {
          SpacesSnoc(fs, spaces, space);
          avail, used, spaces := avail + space, used + 1, spaces + [space];
        } else {
          fs := lwd + 1;
        }
        if avail >= datlen || used == n { return; }
        chain, k := chain.next, k + 1;
      }
    }

    lemma DerefOk()
      requires Valid()
      ensures Deref(lastWithDatap) == At(chains, lwd) && (chains == [] || lwd < |chains|)
      ensures lastWithDatap == At(chains, lwd - 1)
    {
      assert Node(lwd - 1);
    }

    lemma NextOk(k: nat)
      requires Valid() && k < |chains|
      ensures chains[k].next == At(chains, k + 1) && chains[k] in Repr && chains[k].off == |parts[k]|
      ensures chains[k].buffer in Repr
      ensures chains[k].misalign + chains[k].off <= chains[k].buffer.Length
    {
      assert Node(k);
    }

    /** Links `tmp` behind the first v chains, with no data in it. */
    method LinkEmpty(ch: Chain?, tmp: Chain, ghost v: int)
      requires 0 <= v <= |chains| == |parts|
      modifies this, (if ch == null then {} else {ch})`next
      ensures first == (if ch == null then tmp else old(first)) && (ch != null ==> ch.next == tmp)
      ensures last == tmp && totalLen == old(totalLen) && lastWithDatap == old(lastWithDatap) && lwd == old(lwd)
      ensures chains == old(chains)[..v] + [tmp] && parts == old(parts)[..v] + [[]]
      ensures Repr == old(Repr) + {tmp, tmp.buffer}
      ensures freezeStart == old(freezeStart) && freezeEnd == old(freezeEnd)
    {
      SetPtr(ch, tmp);
      last := tmp;
      chains, parts := chains[..v] + [tmp], parts[..v] + [[]];
      Repr := Repr + {tmp, tmp.buffer};
    }

    /** Replaces the chains from index v on, all empty, by the new empty chain `tmp`. */
    method ReplaceEmpty(ch: Chain?, tmp: Chain, ghost v: int)
      requires Valid() && lwd <= v <= |chains| && ch == At(chains, v - 1)
      requires {tmp, tmp.buffer} !! Repr && tmp.next == null && tmp.Holds([])
      requires forall j | v <= j < |parts| :: parts[j] == []
      modifies this, (if ch == null then {} else {ch})`next
      ensures Valid() && Repr == old(Repr) + {tmp, tmp.buffer} && Contents() == old(Contents())
      ensures chains == old(chains)[..v] + [tmp] && parts == old(parts)[..v] + [[]] && lwd == old(lwd)
      ensures old(NoGaps()) ==> NoGaps()
      ensures freezeStart == old(freezeStart) && freezeEnd == old(freezeEnd)
    {
      hide Flatten, Chain.Holds;
      assert Node(v - 1);
      FlattenUpTo(parts, v);
      FlattenSnoc(parts[..v], []);
      LinkEmpty(ch, tmp, v);
      forall i | 0 <= i < v
        ensures old(chains[i]).Holds(old(parts[i]))
        ensures i < v - 1 ==> old(chains[i]).next == old(chains[i].next)
      {
        assert old(Node(i)) && Differ(old(chains), i, v - 1);
      }
      TailReplaced(v);
    }

    lemma Bounds()
      requires Valid()
      ensures |parts| == |chains| && last == At(chains, |chains| - 1)
      ensures if chains == [] then lwd == 0 else lwd < |chains|
    {
    }

    /** A new chain behind the others leaves their space as it is. */
    twostate lemma SpacesKept(spaces: seq<nat>)
      requires old(Spaces(FirstSpace(), spaces)) && lwd == old(lwd) < |old(chains)| && old(Repr) <= Repr
      requires |chains| > |old(chains)| && forall i | 0 <= i < |old(chains)| :: chains[i] == old(chains)[i]
      requires forall c <- old(chains) :: c.misalign == old(c.misalign) && c.off == old(c.off) && c in old(Repr)
      ensures FirstSpace() == old(FirstSpace()) && Spaces(FirstSpace(), spaces)
    {
      assert SpaceAt(lwd, 0) <==> old(SpaceAt(lwd, 0)) by {
        assert old(chains)[lwd] in old(chains);
      }
      forall j | 0 <= j < |spaces| ensures SpaceAt(FirstSpace() + j, spaces[j]) {
        assert old(SpaceAt(FirstSpace() + j, spaces[j]));
        assert old(chains)[FirstSpace() + j] in old(chains);
      }
    }

    lemma EmptyBehind()
      requires Valid()
      ensures forall j | lwd < j < |parts| :: parts[j] == []
    {
    }

    /** Adds a chain with `more` bytes to the ones whose space is already used up. */
    method AddRoom(more: nat, oom: bool, ghost spaces: seq<nat>) returns (ok: bool, ghost all: seq<nat>)
      requires Valid() && chains != [] && Spaces(FirstSpace(), spaces) && FirstSpace() + |spaces| == |chains|
        && more > 0
      modifies Repr
      ensures Valid() && fresh(Repr - old(Repr)) && Contents() == old(Contents())
      ensures ok ==> Spaces(FirstSpace(), all) && FirstSpace() + |all| == |chains| && Sum(all) >= Sum(spaces) + more
      ensures ok ==> NewRoom(old(chains), old(parts), more) && |chains| == |old(chains)| + 1
      ensures ok ==> AllButLast(all) == spaces
      ensures ok ==> lwd == old(lwd) && chains[lwd].misalign == old(chains[lwd].misalign)
      ensures !oom && more <= CHAIN_MAX - CHAIN_SIZE ==> ok
      ensures old(NoGaps()) ==> NoGaps()
      ensures freezeStart == old(freezeStart) && freezeEnd == old(freezeEnd)
    {
      hide Flatten, Chain.Holds, Differ, Node, Valid, Structure, LastWithData, Spaces, FirstSpace, Sum;
      Bounds();
      ChainsOwned();
      all := spaces;
      var tmp := ChainNew(more, oom);
      if tmp == null { return false, all; }
      LastOk();
      ghost var n := |chains|;
      ReplaceEmpty(last, tmp, n);
      Bounds();
      SpacesKept(spaces);
      SpacesSnoc(FirstSpace(), spaces, tmp.buffer.Length);
      all := spaces + [tmp.buffer.Length];
      assert old(chains)[..n] == old(chains) && old(parts)[..n] == old(parts);
      return true, all;
    }

    /** Drops all chains from index v on, which are empty; `ch` is the address of the pointer to the first. */
    method FreeFrom(ch: Chain?, ghost v: int)
      requires Valid() && lwd <= v <= |chains| && ch == At(chains, v - 1)
      requires forall j | v <= j < |parts| :: parts[j] == []
      modifies this, (if ch == null then {} else {ch})`next
      ensures Valid() && Repr == old(Repr) && Contents() == old(Contents())
      ensures chains == old(chains)[..v] && parts == old(parts)[..v] && lwd == old(lwd)
      ensures old(NoGaps()) ==> NoGaps()
      ensures freezeStart == old(freezeStart) && freezeEnd == old(freezeEnd)
    {
      hide Flatten, Chain.Holds;
      assert Node(v - 1);
      FlattenUpTo(parts, v);
      SetPtr(ch, null);
      last := ch;
      chains, parts := chains[..v], parts[..v];
      forall i ensures Node(i) {
        assert old(Node(i)) && Differ(old(chains), i, v - 1);
      }
      forall i, j ensures Differ(chains, i, j) {
        assert Differ(old(chains), i, j);
      }
    }

    /** Replaces all empty chains by one that, with the space behind the data, has room for `datlen` bytes. */
    method ReplaceRoom(datlen: nat, oom: bool) returns (ok: bool, ghost spaces: seq<nat>)
      requires Valid() && chains != []
      requires chains[lwd].buffer.Length < chains[lwd].misalign + chains[lwd].off + datlen
      modifies Repr
      ensures Valid() && fresh(Repr - old(Repr)) && Contents() == old(Contents())
      ensures ok ==> 0 < |spaces| <= 2 && Spaces(FirstSpace(), spaces) && datlen <= Sum(spaces)
      ensures ok ==> NewRoom(old(chains), old(parts), datlen - Sum(AllButLast(spaces)))
      ensures ok ==> lwd == old(lwd) && FirstSpace() + |spaces| == |chains|
      ensures ok && old(parts[lwd]) != [] ==> chains[lwd].misalign == old(chains[lwd].misalign)
      ensures !oom && datlen <= CHAIN_MAX - CHAIN_SIZE ==> ok
      ensures old(NoGaps()) ==> NoGaps()
      ensures freezeStart == old(freezeStart) && freezeEnd == old(freezeEnd)
    {
      hide Flatten, Chain.Holds, Differ, Node, Separate, Structure, LastWithData, Valid, FirstSpace, Spaces, Sum,
        NoGaps;
      DerefOk();
      NextOk(lwd);
      Bounds();
      EmptyBehind();
      ValidParts();
      StructureParts();
      NodeOwned(lwd - 1);
      var chain := Deref(lastWithDatap);
      var ch, avail := lastWithDatap, 0;
      if chain.off != 0 {
        avail := chain.SpaceLen();
        ch := chain;
      }
      FreeFrom(ch, if parts[lwd] == [] then lwd else lwd + 1);
      ok, spaces := PutRoom(ch, avail, datlen - avail, oom);
    }

    /** Links a chain with `more` bytes behind the last one with data, which has `avail` free bytes, or makes it the
        only one. */
    method PutRoom(ch: Chain?, avail: nat, more: nat, oom: bool) returns (ok: bool, ghost spaces: seq<nat>)
      requires Valid() && ch == At(chains, |chains| - 1) && more > 0
      requires (|chains| == lwd && avail == 0) || (|chains| == lwd + 1 && SpaceAt(lwd, avail))
      modifies Repr
      ensures Valid() && fresh(Repr - old(Repr)) && Contents() == old(Contents()) && lwd == old(lwd)
      ensures ok ==> NewRoom(old(chains), old(parts), more) && |chains| == |old(chains)| + 1
      ensures ok ==> 0 < |spaces| <= 2 && Spaces(FirstSpace(), spaces) && more + avail <= Sum(spaces)
      ensures ok ==> Sum(AllButLast(spaces)) == avail && FirstSpace() + |spaces| == |chains|
      ensures ok && lwd < |old(chains)| ==> chains[lwd].misalign == old(chains[lwd].misalign)
      ensures !oom && more <= CHAIN_MAX - CHAIN_SIZE ==> ok
      ensures old(NoGaps()) ==> NoGaps()
      ensures freezeStart == old(freezeStart) && freezeEnd == old(freezeEnd)
    {
      hide Flatten, Chain.Holds, Differ, Node, Separate, Structure, LastWithData, Valid, FirstSpace, Spaces, Sum,
        NoGaps;
      Bounds();
      ValidParts();
      StructureParts();
      NodeOwned(|chains| - 1);
      var tmp := ChainNew(more, oom);
      spaces := [];
      if tmp == null { return false, spaces; }
      ReplaceEmpty(ch, tmp, |chains|);
      Bounds();
      assert SpaceAt(|chains| - 1, tmp.buffer.Length);
      assert |chains| == lwd + 1 || SpaceAt(lwd, avail);
      TwoSpaces(avail, tmp.buffer.Length);
      return true, if avail == 0 then [tmp.buffer.Length] else [avail, tmp.buffer.Length];
    }

    lemma TwoSpaces(avail: nat, more: nat)
      requires more > 0 && |chains| > 0 && SpaceAt(|chains| - 1, more)
      requires (|chains| == lwd + 1 && avail == 0) || (|chains| == lwd + 2 && SpaceAt(lwd, avail))
      ensures Spaces(FirstSpace(), if avail == 0 then [more] else [avail, more])
      ensures Sum(if avail == 0 then [more] else [avail, more]) == avail + more
      ensures Sum(AllButLast(if avail == 0 then [more] else [avail, more])) == avail
      ensures FirstSpace() + (if avail == 0 then 1 else 2) == |chains|
    {
      SumShort(more, 0);
      SumShort(avail, more);
      assert AllButLast([avail, more]) == [avail];
    }

    lemma WholeChainFree()
      requires Valid() && chains == [first] && first.off == first.misalign == 0
      ensures Spaces(FirstSpace(), [first.buffer.Length]) && Sum([first.buffer.Length]) == first.buffer.Length
      ensures FirstSpace() == 0
    {
      hide Flatten;
      FirstOk();
      TwoSpaces(0, first.buffer.Length);
    }

    /** Makes room for `datlen` bytes in at most n chains, without moving any data. */
    method ExpandFast(datlen: nat, n: nat, oom: bool) returns (ok: bool, ghost spaces: seq<nat>)
      requires Valid() && n >= 2
      modifies Repr
      ensures Valid() && fresh(Repr - old(Repr)) && Contents() == old(Contents())
      ensures ok ==> chains != [] && |spaces| <= n && Spaces(FirstSpace(), spaces) && datlen <= Sum(spaces)
      ensures ok && old(chains) == [] ==> Single([])
      ensures ok && old(chains) == [] ==> datlen <= CHAIN_MAX - CHAIN_SIZE && first.buffer.Length == Capacity(datlen)
      ensures ok && old(chains) != [] ==> Expanded(n, datlen - Sum(AllButLast(spaces)))
      ensures ok && chains != old(chains) ==> FirstSpace() + |spaces| == |chains|
      ensures !oom && datlen <= CHAIN_MAX - CHAIN_SIZE ==> ok
      ensures old(NoGaps()) ==> NoGaps()
      ensures freezeStart == old(freezeStart) && freezeEnd == old(freezeEnd)
    {
      hide Flatten, Chain.Holds, Differ, Node, NoGaps, Valid, FirstSpace, Spaces, Sum;
      LastOk();
      Bounds();
      FirstOk();
      spaces := [];
      assert Sum(spaces) == 0 by { SumShort(0, 0); }
      if last == null {
        ok := EnsureChain(datlen, oom);
        if ok {
          WholeChainFree();
          spaces := [first.buffer.Length];
        }
        return;
      }
      var avail, used;
      avail, used, spaces := ScanSpace(datlen, n);
      FirstSpaceBounds();
      if avail >= datlen { return true, spaces; }
      if used < n {
        ok, spaces := AddRoom(datlen - avail, oom, spaces);
      } else {
        ok, spaces := ReplaceRoom(datlen, oom);
      }
      Bounds();
    }

    /** `v` lies at the start of the free memory behind the data of chain i. */
    ghost predicate VecAt(v: Vec, i: int)
      reads this`chains, this`Repr, Repr
    {
      && 0 <= i < |chains| && chains[i] in Repr && chains[i].buffer in Repr
      && v.base == chains[i].buffer
      && v.start == chains[i].misalign + chains[i].off
      && v.start + v.len <= v.base.Length
    }

    ghost predicate VecsAt(vecs: seq<Vec>, fs: int)
      reads this`chains, this`Repr, Repr
    {
      forall j | 0 <= j < |vecs| :: VecAt(vecs[j], fs + j)
    }

    /** The address of the pointer to the first chain with room for more data. */
    method FirstSpacePtr() returns (p: Chain?)
      requires Valid() && chains != []
      ensures FirstSpace() <= |chains| && p == At(chains, FirstSpace() - 1) && Deref(p) == At(chains, FirstSpace())
      ensures p == lastWithDatap || p == At(chains, lwd)
    {
      hide Flatten, Differ, Node, Valid, Chain.Holds;
      DerefOk();
      NextOk(lwd);
      p := lastWithDatap;
      if Deref(p).SpaceLen() == 0 {
        p := Deref(p);
      }
    }

    /** Hands out the free regions of the first chains with room, until they add up to `howmuch` bytes. */
    method SetupVecs(howmuch: nat, n: nat, exact: bool, ghost spaces: seq<nat>) returns (vecs: seq<Vec>)
      requires Valid() && chains != []
      requires |spaces| <= n && Spaces(FirstSpace(), spaces) && howmuch <= Sum(spaces)
      ensures |vecs| <= n && VecsAt(vecs, FirstSpace())
      ensures howmuch <= TotalLen(vecs) && (exact ==> TotalLen(vecs) == howmuch)
      ensures |vecs| <= |spaces| && (exact || TotalLen(vecs) == Sum(spaces[..|vecs|]))
      ensures TotalLen(AllButLast(vecs)) == Sum(AllButLast(spaces[..|vecs|]))
      ensures vecs != [] ==> TotalLen(AllButLast(vecs)) < howmuch
      ensures !exact ==> forall i | 0 <= i < |vecs| :: vecs[i].Whole()
      ensures forall i, j | 0 <= i < j < |vecs| :: vecs[i].base != vecs[j].base
    {
      hide Flatten, Differ, Sum, TotalLen, Node, FirstSpace, AllButLast, Valid, Structure;
      Bounds();
      var p := FirstSpacePtr();
      var chain := Deref(p);
      var soFar := 0;
      vecs := [];
      NothingTaken(spaces);
      while |vecs| < n && soFar < howmuch
        invariant |vecs| <= n && |vecs| <= |spaces| && VecsAt(vecs, FirstSpace()) && soFar == TotalLen(vecs)
        invariant soFar < howmuch || !exact ==> soFar == Sum(spaces[..|vecs|])
        invariant exact ==> soFar <= howmuch
        invariant TotalLen(AllButLast(vecs)) == Sum(AllButLast(spaces[..|vecs|]))
        invariant vecs != [] ==> TotalLen(AllButLast(vecs)) < howmuch
        invariant !exact ==> forall i | 0 <= i < |vecs| :: vecs[i].Whole()
        invariant FirstSpace() + |vecs| <= |chains| && chain == At(chains, FirstSpace() + |vecs|)
        decreases n - |vecs|
      {
        ghost var k := |vecs|;
        assert spaces[..|spaces|] == spaces;
        assert k < |spaces| && SpaceAt(FirstSpace() + k, spaces[k]);
        NextOk(FirstSpace() + k);
        var avail := chain.SpaceLen();
        if avail > howmuch - soFar && exact {
          avail := howmuch - soFar;
        }
        var v := Vec(chain.buffer, chain.misalign + chain.off, avail);
        OneTaken(vecs, v, spaces);
        soFar := soFar + avail;
        chain := chain.next;
        assert VecAt(v, FirstSpace() + k);
        vecs := vecs + [v];
      }
      assert |vecs| == |spaces| ==> spaces[..|vecs|] == spaces;
      VecsDistinct(vecs, FirstSpace());
    }

    lemma VecsDistinct(vecs: seq<Vec>, fs: nat)
      requires Valid() && VecsAt(vecs, fs)
      ensures forall i, j | 0 <= i < j < |vecs| :: vecs[i].base != vecs[j].base
    {
      forall i, j | 0 <= i < j < |vecs| ensures vecs[i].base != vecs[j].base {
        assert VecAt(vecs[i], fs + i) && VecAt(vecs[j], fs + j) && Differ(chains, fs + i, fs + j);
      }
    }

    /** Counts the `len` bytes written behind the data of chain k, whose address is `p`, as data. */
    method CommitOne(p: Chain?, chain: Chain, len: nat, ghost k: nat)
      requires Valid() && lwd <= k < |chains| && chain == chains[k] && p == At(chains, k - 1)
      requires chain.misalign + chain.off + len <= chain.buffer.Length
      modifies this`totalLen, this`lastWithDatap, this`parts, this`lwd, chain`off
      ensures Valid() && chain.off == old(chain.off) + len
      ensures Contents() == old(Contents()) + chain.buffer[chain.misalign + old(chain.off)..chain.misalign + chain.off]
      ensures lwd == if len > 0 then k else old(lwd)
      ensures lastWithDatap == if len > 0 then p else old(lastWithDatap)
    {
      hide Flatten, Chain.Holds;
      NextOk(k);
      ghost var d := chain.buffer[chain.misalign + chain.off..chain.misalign + chain.off + len];
      assert Node(k);
      PartGrows(parts, k, d);
      ghost var part := parts[k];
      CountMore(p, len, k, part + d);
      chain.Grow(len, part);
      forall j ensures Node(j) {
        assert old(Node(j)) && Differ(chains, j, k) && Differ(chains, k, j);
      }
    }

    method CountMore(p: Chain?, len: nat, ghost k: nat, ghost part: seq<byte>)
      requires k < |parts|
      modifies this`totalLen, this`lastWithDatap, this`parts, this`lwd
      ensures totalLen == old(totalLen) + len && parts == old(parts)[k := part]
      ensures lwd == if len > 0 then k else old(lwd)
      ensures lastWithDatap == if len > 0 then p else old(lastWithDatap)
    {
      totalLen := totalLen + len;
      parts := parts[k := part];
      if len > 0 {
        lastWithDatap := p;
        lwd := k;
      }
    }

    static lemma PartGrows(ps: seq<seq<byte>>, k: nat, d: seq<byte>)
      requires k < |ps| && forall i | k < i < |ps| :: ps[i] == []
      ensures Flatten(ps[k := ps[k] + d]) == Flatten(ps) + d
    {
      hide Flatten;
      var qs := ps[k := ps[k] + d];
      FlattenUpTo(ps, k + 1);
      FlattenUpTo(qs, k + 1);
      FlattenTake(ps, k);
      FlattenTake(qs, k);
      assert qs[..k] == ps[..k];
    }

    /** First pass of a commit: do the regions, in order, start at the free memory of the chains from `p` on? */
    method CheckVecs(p: Chain?, vecs: seq<Vec>, ghost fs: nat) returns (ok: bool)
      requires Valid() && fs <= |chains| && Deref(p) == At(chains, fs)
      ensures ok == VecsAt(vecs, fs)
    {
      hide Flatten, Differ, Chain.Holds;
      var chain := Deref(p);
      for i := 0 to |vecs|
        invariant fs + i <= |chains| && chain == At(chains, fs + i)
        invariant forall j | 0 <= j < i :: VecAt(vecs[j], fs + j)
      {
        if chain == null {
          assert !VecAt(vecs[i], fs + i);
          return false;
        }
        NextOk(fs + i);
        if vecs[i].base != chain.buffer || vecs[i].start != chain.misalign + chain.off
          || vecs[i].len > chain.SpaceLen() {
          assert !VecAt(vecs[i], fs + i);
          return false;
        }
        chain := chain.next;
      }
      return true;
    }

    /** Second pass of a commit. */
    method CommitVecs(firstp: Chain?, vecs: seq<Vec>, ghost fs: nat)
      requires Valid() && lwd <= fs <= |chains| && firstp == At(chains, fs - 1) && Deref(firstp) == At(chains, fs)
      requires VecsAt(vecs, fs) && InBounds(vecs)
      modifies Repr
      ensures Valid() && Contents() == old(Contents() + Written(vecs)) && chains == old(chains)
      ensures freezeStart == old(freezeStart) && freezeEnd == old(freezeEnd) && Repr == old(Repr)
    {
      hide Flatten, Differ, Node, Chain.Holds, Written, Valid, SpaceAt;
      var p := firstp;
      assert vecs[..0] == [] && vecs[..|vecs|] == vecs;
      WrittenEmpty();
      ghost var total := Contents();
      for i := 0 to |vecs|
        invariant Valid() && chains == old(chains) && Repr == old(Repr)
        invariant freezeStart == old(freezeStart) && freezeEnd == old(freezeEnd)
        invariant lwd <= fs + i <= |chains| && p == At(chains, fs + i - 1) && Deref(p) == At(chains, fs + i)
        invariant forall j | i <= j < |vecs| :: VecAt(vecs[j], fs + j)
        invariant forall j | 0 <= j < |vecs| :: vecs[j].base[..] == old(vecs[j].base[..])
        invariant Contents() == old(Contents() + Written(vecs[..i]))
      {
        var chain := Deref(p);
        assert VecAt(vecs[i], fs + i);
        ghost var v := vecs[i];
        WrittenTake(vecs);
        assert v.base[v.start..v.start + v.len] == v.base[..][v.start..v.start + v.len];
        CommitStep(p, chain, vecs, i, fs);
        NextOk(fs + i);
        p := chain;
      }
    }

    /** Commits one region; the regions after it stay as they are. */
    method CommitStep(p: Chain?, chain: Chain, vecs: seq<Vec>, i: nat, ghost fs: nat)
      requires Valid() && i < |vecs| && lwd <= fs + i && chain == At(chains, fs + i) && p == At(chains, fs + i - 1)
      requires InBounds(vecs) && forall j | i <= j < |vecs| :: VecAt(vecs[j], fs + j)
      modifies this`totalLen, this`lastWithDatap, this`parts, this`lwd, chain`off
      ensures Valid() && lwd <= fs + i
      ensures forall j | i < j < |vecs| :: VecAt(vecs[j], fs + j)
      ensures Contents() == old(Contents()) + vecs[i].base[vecs[i].start..vecs[i].start + vecs[i].len]
    {
      hide Flatten, Node, Chain.Holds, Written, Valid;
      assert VecAt(vecs[i], fs + i);
      CommitOne(p, chain, vecs[i].len, fs + i);
      SeparateOk();
      forall j | i < j < |vecs| ensures VecAt(vecs[j], fs + j) {
        assert old(VecAt(vecs[j], fs + j)) && Differ(chains, fs + i, fs + j);
      }
    }

    lemma SeparateOk()
      requires Valid()
      ensures Separate(chains)
    {
    }

    /** The region starts at the free memory of the last chain. */
    predicate NamesLast(v: Vec)
      reads this, last
    {
      last != null && v.base == last.buffer && v.start == last.misalign + last.off
    }

    /** Commits the only region, which lies in the last chain. */
    method CommitLast(len: nat)
      requires Valid() && last != null && last.misalign + last.off + len <= last.buffer.Length
      modifies this`totalLen, this`lastWithDatap, this`parts, this`lwd, last`off
      ensures Structure() && last.off == old(last.off) + len
      ensures Valid() <==> |chains| <= old(lwd) + 2 || len == 0
      ensures last.misalign + last.off <= last.buffer.Length
      ensures Contents() == old(Contents()) + last.buffer[last.misalign + old(last.off)..last.misalign + last.off]
    {
      hide Chain.Holds, Flatten, Valid, Structure, FirstEmpty;
      GrowLast(len);
      if len > 0 {
        ghost var k := lwd;
        AdvanceLastWithData(k);
        if |chains| <= k + 2 { Advanced(k, |chains| - 1); } else { NotAdvanced(k); }
      }
    }

    /** Counts the `len` bytes behind those of the last chain as data. */
    method GrowLast(len: nat)
      requires Valid() && last != null && last.misalign + last.off + len <= last.buffer.Length
      modifies this`totalLen, this`parts, last`off
      ensures Structure() && Pointed() && chains != [] && last.off == old(last.off) + len
      ensures len == 0 ==> Valid()
      ensures forall i | lwd < i < |chains| - 1 :: parts[i] == []
      ensures len > 0 ==> parts[|chains| - 1] != []
      ensures len > 0 && lwd + 1 < |chains| ==> lwd == 0 || parts[lwd] != []
      ensures last.misalign + last.off <= last.buffer.Length
      ensures Contents() == old(Contents()) + last.buffer[last.misalign + old(last.off)..last.misalign + last.off]
    {
      hide Flatten, Chain.Holds;
      LastOk();
      ghost var k := |chains| - 1;
      NextOk(k);
      assert Node(k);
      ghost var d := last.buffer[last.misalign + last.off..last.misalign + last.off + len];
      PartGrows(parts, k, d);
      last.Grow(len, parts[k]);
      totalLen := totalLen + len;
      parts := parts[k := parts[k] + d];
      forall j ensures Node(j) {
        assert old(Node(j)) && Differ(chains, j, k) && Differ(chains, k, j);
      }
    }

    /** The regions are those that were handed out, shortened or not, or there is one in the last chain. */
    ghost predicate Commits(vecs: seq<Vec>)
      reads this`chains, this`lwd, this`Repr, this`freezeEnd, Repr
    {
      && !freezeEnd
      && (vecs == [] || VecsAt(vecs, FirstSpace()) || (|vecs| == 1 && VecAt(vecs[0], |chains| - 1)))
    }

    /** The only region lies in the last chain, behind an empty one, where `lastWithDatap` does not get to. */
    predicate CommitMisses(vecs: seq<Vec>)
      reads this, last
    {
      |vecs| == 1 && NamesLast(vecs[0]) && vecs[0].len > 0
    }

    /** Commits the only region, which lies in the last chain. */
    method CommitOnly(vecs: seq<Vec>)
      requires Valid() && |vecs| == 1 && NamesLast(vecs[0]) && vecs[0].start + vecs[0].len <= last.buffer.Length
      modifies this`totalLen, this`lastWithDatap, this`parts, this`lwd, last`off
      ensures Structure() && InBounds(vecs) && Contents() == old(Contents() + Written(vecs))
      ensures Valid() <==> |chains| <= old(lwd) + 2 || vecs[0].len == 0
    {
      hide Flatten, Chain.Holds, Written, Valid, Structure;
      LastOk();
      WrittenEmpty();
      WrittenTake(vecs);
      assert vecs[..1] == vecs && vecs[..0] == [];
      assert forall v: Vec | v in vecs :: v.base == last.buffer;
      CommitLast(vecs[0].len);
    }

    /** Counts the bytes in the regions as data. */
    method CommitSpace(vecs: seq<Vec>) returns (result: int)
      requires Valid()
      modifies Repr
      ensures Structure() && Repr == old(Repr) && chains == old(chains)
      ensures result == if old(Commits(vecs)) then 0 else -1
      ensures result == 0 ==> InBounds(vecs) && Contents() == old(Contents() + Written(vecs))
      ensures result == -1 ==> Contents() == old(Contents())
      ensures Valid() <==> !(result == 0 && |chains| > old(lwd) + 2 && old(CommitMisses(vecs)))
      ensures freezeStart == old(freezeStart) && freezeEnd == old(freezeEnd)
    {
      hide Flatten, Differ, Node, Chain.Holds, Written, SpaceAt, Structure;
      ValidParts();
      if freezeEnd { return -1; }
      if |vecs| == 0 {
        WrittenEmpty();
        assert Contents() + [] == Contents();
        return 0;
      }
      LastOk();
      LastNamed(vecs[0]);
      if |vecs| == 1 && NamesLast(vecs[0]) {
        if vecs[0].len > last.SpaceLen() {
          LastRejects(vecs[0]);
          return -1;
        }
        CommitOnly(vecs);
        return 0;
      }
      if Deref(lastWithDatap) == null { DerefOk(); NoVecs(vecs); return -1; }
      DerefOk();
      var p := FirstSpacePtr();
      ghost var fs := FirstSpace();
      var ok := CheckVecs(p, vecs, fs);
      if !ok { return -1; }
      VecsInBounds(vecs, fs);
      CommitVecs(p, vecs, fs);
      return 0;
    }

    lemma NoVecs(vecs: seq<Vec>)
      requires chains == [] && vecs != []
      ensures !VecsAt(vecs, FirstSpace())
    {
      assert !VecAt(vecs[0], FirstSpace() + 0);
    }

    lemma LastNamed(v: Vec)
      requires Valid()
      ensures VecAt(v, |chains| - 1) <==> NamesLast(v) && v.start + v.len <= last.buffer.Length
    {
      LastOk();
    }

    lemma LastRejects(v: Vec)
      requires Valid() && NamesLast(v) && v.len > last.buffer.Length - (last.misalign + last.off)
      ensures !VecsAt([v], FirstSpace())
    {
      assert [v][0] == v && !VecAt(v, FirstSpace() + 0);
    }

    lemma VecsInBounds(vecs: seq<Vec>, fs: int)
      requires VecsAt(vecs, fs)
      ensures InBounds(vecs)
    {
      forall i | 0 <= i < |vecs| ensures vecs[i].start + vecs[i].len <= vecs[i].base.Length {
        assert VecAt(vecs[i], fs + i);
      }
    }

    method ReserveSpace(size: nat, n: nat, oom: bool) returns (ok: bool, vecs: seq<Vec>)
      requires Valid() && n != 1
      modifies Repr
      ensures Valid() && fresh(Repr - old(Repr)) && Contents() == old(Contents())
      ensures ok ==> chains != [] && |vecs| <= n && size <= TotalLen(vecs) && VecsAt(vecs, FirstSpace())
      ensures ok ==> forall i, j | 0 <= i < j < |vecs| :: vecs[i].base != vecs[j].base
      ensures !ok ==> vecs == []
      ensures forall i | 0 <= i < |vecs| :: vecs[i].Whole()
      ensures vecs != [] ==> TotalLen(AllButLast(vecs)) < size
      ensures ok && old(chains) == [] ==> Single([])
      ensures ok && old(chains) == [] ==> size <= CHAIN_MAX - CHAIN_SIZE && first.buffer.Length == Capacity(size)
      ensures ok && old(chains) != [] ==> Expanded(n, size - TotalLen(AllButLast(vecs)))
      ensures ok && old(chains) != [] && chains != old(chains) ==> FirstSpace() + |vecs| == |chains|
      ensures !oom && !freezeEnd && n >= 2 && size <= CHAIN_MAX - CHAIN_SIZE ==> ok
      ensures ok ==> !freezeEnd && n >= 2
      ensures old(NoGaps()) ==> NoGaps()
      ensures freezeStart == old(freezeStart) && freezeEnd == old(freezeEnd)
    {
      hide Flatten, Differ, Node, Chain.Holds, SpaceAt, Valid, Sum, TotalLen, FirstSpace, Spaces, VecsAt, AllButLast,
        NewRoom;
      if freezeEnd || n < 1 { return false, []; }
      ghost var spaces;
      ok, spaces := ExpandFast(size, n, oom);
      if !ok { return false, []; }
      vecs := SetupVecs(size, n, false, spaces);
      if old(chains) != [] && NewRoom(old(chains), old(parts), size - Sum(AllButLast(spaces))) {
        NewRoomMore(old(chains), old(parts), size - Sum(AllButLast(spaces)));
        AllTaken(vecs, spaces, size);
      }
    }

    /** Writing into a free region changes neither the buffer nor the other free regions. */
    method Fill(v: Vec, data: seq<byte>, ghost i: nat)
      requires Valid() && VecAt(v, i) && |data| <= v.len
      modifies v.base
      ensures Valid() && v.base[v.start..v.start + |data|] == data
    {
      hide Flatten;
      Memcpy(v.base, v.start, data);
      forall j ensures Node(j) {
        assert old(Node(j)) && Differ(chains, i, j) && Differ(chains, j, i);
        if j == i {
          var a, n, lo := v.base, v.start, chains[i].misalign;
          assert a[lo..n] == a[..n][lo..] && old(a[lo..n]) == old(a[..n])[lo..];
        }
      }
    }

    /** Fills region u, which follows the regions `used`. */
    method FillNext(used: seq<Vec>, u: Vec, piece: seq<byte>, ghost fs: nat)
      requires Valid() && VecsAt(used, fs) && InBounds(used) && VecAt(u, fs + |used|) && u.len == |piece|
      modifies u.base
      ensures Valid() && VecsAt(used + [u], fs) && InBounds(used + [u])
      ensures Written(used + [u]) == old(Written(used)) + piece
    {
      hide Flatten, Node, Chain.Holds, Valid, Written;
      SeparateOk();
      forall x | x in used ensures x.base != u.base {
        var k :| 0 <= k < |used| && used[k] == x;
        assert VecAt(used[k], fs + k) && Differ(chains, fs + k, fs + |used|);
      }
      Fill(u, piece, fs + |used|);
      assert Written(used) == old(Written(used));
      WrittenSnoc(used, u);
      forall j | 0 <= j < |used| ensures VecAt(used[j], fs + j) {
        assert old(VecAt(used[j], fs + j));
      }
      assert VecAt(u, fs + |used|);
    }

    /** Stores each piece at the start of its region; `used` are the regions cut to what was stored. */
    method FillPieces(vecs: seq<Vec>, pieces: seq<seq<byte>>, ghost fs: nat) returns (used: seq<Vec>)
      requires Valid() && VecsAt(vecs, fs) && |pieces| <= |vecs|
      requires forall i | 0 <= i < |pieces| :: |pieces[i]| <= vecs[i].len
      modifies Repr
      ensures Valid() && unchanged(this) && (forall c | c in chains :: unchanged(c))
      ensures VecsAt(used, fs) && InBounds(used) && Written(used) == Flatten(pieces) && |used| == |pieces|
    {
      hide Flatten, Differ, Node, Chain.Holds, Valid, Written, InBounds;
      used := [];
      WrittenEmpty();
      FlattenEmpty([]);
      assert VecsAt([], fs) && InBounds([]) by { NoneAt(fs); }
      assert pieces[..0] == [] && pieces[..|pieces|] == pieces;
      for i := 0 to |pieces|
        invariant Valid() && unchanged(this) && (forall c | c in chains :: unchanged(c))
        invariant |used| == i && VecsAt(used, fs) && InBounds(used) && Written(used) == Flatten(pieces[..i])
      {
        var v := vecs[i];
        assert old(VecAt(v, fs + i)) && chains[fs + i] in chains;
        var u := Vec(v.base, v.start, |pieces[i]|);
        assert VecAt(u, fs + i);
        FillNext(used, u, pieces[i], fs);
        FlattenTake(pieces, i);
        used := used + [u];
      }
    }

    lemma NoneAt(fs: nat)
      ensures VecsAt([], fs) && InBounds([])
    {
    }

    /** Stores a piece in each of some regions that were handed out, and commits them. */
    method FillCommit(vecs: seq<Vec>, pieces: seq<seq<byte>>) returns (result: int)
      requires Valid() && chains != [] && VecsAt(vecs, FirstSpace()) && |pieces| <= |vecs|
      requires forall i | 0 <= i < |pieces| :: |pieces[i]| <= vecs[i].len
      modifies Repr
      ensures Valid() && Repr == old(Repr) && result == if freezeEnd then -1 else 0
      ensures Contents() == if result == 0 then old(Contents()) + Flatten(pieces) else old(Contents())
      ensures freezeStart == old(freezeStart) && freezeEnd == old(freezeEnd)
    {
      hide Flatten, Differ, Node, Chain.Holds, Valid, Written, InBounds;
      DerefOk();
      ghost var fs := FirstSpace();
      var used := FillPieces(vecs, pieces, fs);
      assert chains[lwd] in chains && FirstSpace() == fs;
      if |used| == 1 && NamesLast(used[0]) { OnlyVec(used[0]); }
      result := CommitSpace(used);
    }

    /** Reserves space for `size` bytes, lets a reader store `data` in it from front to back, and commits
        what was stored. */
    method ReserveFillCommit(size: nat, n: nat, data: seq<byte>, oom: bool) returns (ok: bool)
      requires Valid() && n >= 2 && |data| <= size
      modifies Repr
      ensures Valid() && fresh(Repr - old(Repr))
      ensures Contents() == if ok then old(Contents()) + data else old(Contents())
      ensures ok ==> !freezeEnd
      ensures !oom && !freezeEnd && size <= CHAIN_MAX - CHAIN_SIZE ==> ok
      ensures freezeStart == old(freezeStart) && freezeEnd == old(freezeEnd)
    {
      hide Flatten, TotalLen, Valid, Cut, FirstSpace, VecsAt;
      var vecs;
      ok, vecs := ReserveSpace(size, n, oom);
      if !ok { return; }
      CutWhole(vecs, data);
      var r := FillCommit(vecs, Cut(vecs, data));
    }

    /** Reserving `size` bytes hands out room behind the last chain with data, or leaves empty chains there. */
    ghost predicate BeyondTail(size: nat)
      reads this, Repr
    {
      !AtTail() || (lwd < |chains| && chains[lwd] in Repr
        && chains[lwd].buffer.Length < chains[lwd].misalign + chains[lwd].off + size)
    }

    /** Reserves space and then adds a byte instead.  Afterwards `lastWithDatap` is wrong if and only if the space did
        not lie behind the data in their last chain, or empty chains followed that. */
    method ReserveThenAdd(size: nat, n: nat, x: byte, oom: bool) returns (ok: bool, vecs: seq<Vec>, result: int)
      requires Valid() && Contents() != [] && totalLen < SIZE_MAX && n >= 2
      modifies Repr
      ensures Structure() && fresh(Repr - old(Repr)) && result != ABORTED
      ensures result == 0 ==> Contents() == old(Contents()) + [x]
      ensures ok && result == 0 ==> (Valid() <==> !old(BeyondTail(size)))
      ensures |vecs| >= 2 && result == 0 ==> !Valid()
      ensures !oom && !freezeEnd && size <= CHAIN_MAX - CHAIN_SIZE ==> ok && result == 0
      ensures freezeStart == old(freezeStart) && freezeEnd == old(freezeEnd)
    {
      hide Flatten, Valid, TotalLen, Chain.ShouldRealign, FirstSpace, VecsAt, AllButLast, Structure;
      LengthOk();
      HasData();
      NextOk(lwd);
      ok, vecs := ReserveSpace(size, n, oom);
      LengthOk();
      LastOk();
      HasData();
      NextOk(lwd);
      if ok {
        SecondBehind(vecs);
        if old(AtTail()) { ReservedBehind(vecs, size); }
      }
      result := Add([x], oom);
    }

    lemma HasData()
      requires Valid() && Contents() != []
      ensures |parts| == |chains| && lwd < |chains| && parts[lwd] != []
    {
      if chains == [] || parts[lwd] == [] { FlattenEmpty(parts); }
    }

    lemma SecondBehind(vecs: seq<Vec>)
      requires VecsAt(vecs, FirstSpace())
      ensures |vecs| >= 2 ==> !AtTail()
    {
      if |vecs| >= 2 { assert VecAt(vecs[1], FirstSpace() + 1); }
    }

    /** A chain follows the last one with data exactly if that one has too little room. */
    lemma ReservedBehind(vecs: seq<Vec>, size: nat)
      requires Valid() && lwd < |chains| <= lwd + 2 && |parts| == |chains| && parts[lwd] != []
      requires VecsAt(vecs, FirstSpace()) && size <= TotalLen(vecs) && forall i | 0 <= i < |vecs| :: vecs[i].Whole()
      requires vecs != [] ==> TotalLen(AllButLast(vecs)) < size
      requires |chains| == lwd + 2 ==> FirstSpace() + |vecs| == |chains|
      ensures chains[lwd] in Repr
      ensures AtTail() <==> size + chains[lwd].misalign + chains[lwd].off <= chains[lwd].buffer.Length
    {
      hide Flatten, TotalLen, Structure, Valid;
      NextOk(lwd);
      FewVecs(vecs);
      VecsBound(vecs, FirstSpace());
    }

    lemma VecsBound(vecs: seq<Vec>, fs: nat)
      requires VecsAt(vecs, fs)
      ensures vecs != [] ==> VecAt(vecs[0], fs) && VecAt(vecs[|vecs| - 1], fs + |vecs| - 1)
      ensures fs <= |chains| ==> fs + |vecs| <= |chains|
    {
      if vecs != [] { assert VecAt(vecs[0], fs + 0) && VecAt(vecs[|vecs| - 1], fs + (|vecs| - 1)); }
    }

    lemma FewVecs(vecs: seq<Vec>)
      ensures vecs == [] ==> TotalLen(vecs) == 0
      ensures |vecs| == 1 ==> TotalLen(AllButLast(vecs)) == 0 && TotalLen(vecs) == vecs[0].len
      ensures |vecs| == 2 ==> TotalLen(AllButLast(vecs)) == vecs[0].len && TotalLen(vecs) == vecs[0].len + vecs[1].len
    {
      TotalLenEmpty();
      if |vecs| == 1 {
        assert vecs == [] + [vecs[0]] && AllButLast(vecs) == [];
        TotalLenSnoc([], vecs[0]);
      }
      if |vecs| == 2 {
        assert vecs == [vecs[0]] + [vecs[1]] && AllButLast(vecs) == [vecs[0]] == [] + [vecs[0]];
        TotalLenSnoc([], vecs[0]);
        TotalLenSnoc([vecs[0]], vecs[1]);
      }
    }

    lemma FirstSpaceBounds()
      ensures lwd <= FirstSpace() <= lwd + 1
    {
    }

    /** At most one region in the first chain, and at most two in the first two. */
    lemma RoomBound(vecs: seq<Vec>)
      requires Valid() && chains != [] && lwd == 0 && VecsAt(vecs, FirstSpace())
      ensures |chains| == 1 ==> TotalLen(vecs) <= chains[0].buffer.Length
      ensures |chains| == 2 ==> TotalLen(vecs) <= chains[0].buffer.Length + chains[1].buffer.Length
      ensures |chains| == 2 ==> TotalLen(AllButLast(vecs)) <= chains[0].buffer.Length
    {
      hide Flatten, TotalLen, Structure, Valid;
      FirstSpaceBounds();
      FewVecs(vecs);
      VecsBound(vecs, FirstSpace());
      if |chains| >= 2 { NextOk(0); NextOk(1); } else { NextOk(0); }
    }

    /** A byte is added to a new buffer, space for 977 more is reserved, and another byte is added: `lastWithDatap` is
        wrong. */
    static method Misled() returns (buf: Evbuffer)
      ensures buf.Structure() && !buf.Valid() && buf.Contents() == [1, 2]
    {
      hide Flatten, Evbuffer.Valid;
      buf := new Evbuffer();
      buf.LengthOk();
      var r := buf.Add([1], false);
      SmallCapacity(1);
      buf.LengthOk();
      assert [] + [1] == [1] && [1] + [2] == [1, 2];
      var ok, vecs;
      buf.NextOk(0);
      ok, vecs, r := buf.ReserveThenAdd(977, 2, 2, false);
    }

    /** Space for 10 and then for 2000 bytes is reserved in a new buffer, and 2001 bytes are added: an assertion
        fails. */
    static method Aborted() returns (buf: Evbuffer, result: int)
      ensures buf.Structure() && result == ABORTED
    {
      hide Flatten, Evbuffer.Valid, Evbuffer.FirstSpace, Evbuffer.VecsAt, TotalLen, Capacity, AllButLast,
        Evbuffer.Structure;
      buf := new Evbuffer();
      var ok, vecs := buf.ReserveSpace(10, 2, false);
      SmallCapacity(10);
      ok, vecs := buf.ReserveSpace(2000, 2, false);
      buf.RoomBound(vecs);
      SmallCapacity(2000 - TotalLen(AllButLast(vecs)));
      buf.Bounds();
      buf.LengthOk();
      buf.NextOk(1);
      result := buf.Add(seq(2001, i => 7), false);
    }

    /** A byte is added to a new buffer, space for 2000 and then for 5000 bytes is reserved, and only the third region
        is committed: `lastWithDatap` is wrong. */
    static method Missed() returns (buf: Evbuffer, result: int)
      ensures buf.Structure() && !buf.Valid() && result == 0
    {
      hide Flatten, Evbuffer.Valid, Evbuffer.FirstSpace, Evbuffer.VecsAt, TotalLen, Capacity, AllButLast,
        Evbuffer.Structure;
      buf := new Evbuffer();
      buf.LengthOk();
      var r := buf.Add([1], false);
      SmallCapacity(1);
      var ok, vecs := buf.ReserveSpace(2000, 3, false);
      buf.RoomBound(vecs);
      SmallCapacity(2000 - TotalLen(AllButLast(vecs)));
      buf.NextOk(0);
      ok, vecs := buf.ReserveSpace(5000, 3, false);
      buf.RoomBound(vecs);
      buf.NextOk(0);
      buf.ThirdRegion(vecs);
      result := buf.CommitSpace([vecs[2]]);
    }

    lemma ThirdRegion(vecs: seq<Vec>)
      requires Valid() && |chains| == 3 && lwd == 0 && |parts| == 3 && parts[0] != []
      requires chains[0].misalign + chains[0].off < chains[0].buffer.Length
      requires VecsAt(vecs, FirstSpace()) && FirstSpace() + |vecs| == 3
      requires TotalLen(AllButLast(vecs)) < TotalLen(vecs)
      ensures |vecs| == 3 && VecAt(vecs[2], 2) && vecs[2].len > 0 && NamesLast(vecs[2])
    {
      hide Flatten, TotalLen, Structure;
      assert FirstSpace() == 0;
      VecsBound(vecs, 0);
      LastNamed(vecs[2]);
      TotalLenSnoc(AllButLast(vecs), vecs[2]);
      assert vecs == AllButLast(vecs) + [vecs[2]];
    }

    lemma OnlyVec(v: Vec)
      requires Valid() && VecAt(v, FirstSpace()) && NamesLast(v)
      ensures |chains| <= lwd + 2
    {
      LastOk();
      SeparateOk();
      assert Differ(chains, FirstSpace(), |chains| - 1);
    }
  }
}
