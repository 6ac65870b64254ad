/** Positions in an evbuffer and the search for a byte string that may cross any number of chains. */
module EvbufferSearch {
  import opened Basics
  import opened Bytes
  import opened Evbuffers

  /** A position in a buffer: its offset, and the chain and the offset in the chain that it falls into. */
  datatype Ptr = Ptr(pos: int, chain: Chain?, posInChain: nat)

  datatype How = Set | Add

  /** The number of bytes before chain i. */
  ghost function Before(buf: Evbuffer, i: nat): nat
    requires i <= |buf.parts|
    reads buf
  {
    |Flatten(buf.parts[..i])|
  }

  lemma BeforeNext(buf: Evbuffer, i: nat)
    requires buf.Valid() && i < |buf.parts|
    ensures Before(buf, i + 1) == Before(buf, i) + buf.chains[i].off
    ensures Before(buf, i + 1) <= buf.totalLen
    ensures buf.chains[i].next == At(buf.chains, i + 1)
  {
    hide Flatten, Differ;
    buf.NextOk(i);
    FlattenTake(buf.parts, i);
    FlattenSplit(buf.parts, i + 1);
  }

  lemma BeforeEnds(buf: Evbuffer)
    requires buf.Valid()
    ensures Before(buf, 0) == 0 && Before(buf, |buf.parts|) == buf.totalLen && buf.first == At(buf.chains, 0)
  {
    hide Flatten, Differ;
    FlattenEmpty(buf.parts[..0]);
    assert buf.parts[..|buf.parts|] == buf.parts;
  }

  /** `p` is position `p.pos` of the buffer, in chain i. */
  ghost predicate IsAt(buf: Evbuffer, p: Ptr, i: nat)
    reads buf, buf.Repr
  {
    && i < |buf.chains| == |buf.parts| && p.chain == buf.chains[i]
    && p.posInChain < |buf.parts[i]|
    && p.pos == Before(buf, i) + p.posInChain
  }

  /** The bytes of chain i as a part of the contents. */
  lemma ChainBytes(buf: Evbuffer, i: nat)
    requires buf.Valid() && i < |buf.chains|
    ensures Before(buf, i) + buf.chains[i].off <= |buf.Contents()|
    ensures buf.chains[i].misalign + buf.chains[i].off <= buf.chains[i].buffer.Length
    ensures buf.chains[i].buffer[buf.chains[i].misalign..buf.chains[i].misalign + buf.chains[i].off]
         == buf.Contents()[Before(buf, i)..Before(buf, i) + buf.chains[i].off]
    ensures buf.chains[i].off == |buf.parts[i]|
  {
    hide Flatten, Differ;
    assert buf.Node(i);
    FlattenAt(buf.parts, i);
  }

  /** A piece of the bytes of chain i as a part of the contents. */
  lemma ChainSlice(buf: Evbuffer, i: nat, from: nat, n: nat)
    requires buf.Valid() && i < |buf.chains| && from + n <= |buf.parts[i]|
    ensures Before(buf, i) + from + n <= |buf.Contents()|
    ensures buf.chains[i].misalign + from + n <= buf.chains[i].buffer.Length && buf.chains[i].off == |buf.parts[i]|
    ensures buf.chains[i].buffer[buf.chains[i].misalign + from..buf.chains[i].misalign + from + n]
         == buf.Contents()[Before(buf, i) + from..Before(buf, i) + from + n]
  {
    hide Flatten, Differ;
    ChainBytes(buf, i);
    var c, b, lo := buf.chains[i], Before(buf, i), buf.chains[i].misalign;
    SliceOfSlice(c.buffer[..], lo, lo + c.off, from, from + n);
    SliceOfSlice(buf.Contents(), b, b + c.off, from, from + n);
    assert c.buffer[..][lo..lo + c.off] == c.buffer[lo..lo + c.off];
    assert c.buffer[..][lo + from..lo + from + n] == c.buffer[lo + from..lo + from + n];
  }

  /** Moves `p` to a position (Set) or forward by a distance (Add). */
  method PtrSet(buf: Evbuffer, p: Ptr, position: nat, how: How, ghost at: nat) returns (r: int, q: Ptr)
    requires buf.Valid()
    requires how == Add && p.pos >= 0 ==> IsAt(buf, p, at)
    ensures how == Add && (p.pos < 0 || SIZE_MAX - position < p.pos) ==> r == -1 && q == p
    ensures !(how == Add && (p.pos < 0 || SIZE_MAX - position < p.pos)) ==>
      var target := if how == Add then p.pos + position else position;
      if target < buf.totalLen then r == 0 && q.pos == target && exists i :: IsAt(buf, q, i)
      else r == -1 && q.pos == -1 && q.chain == null
  {
    hide Flatten, Differ;
    var chain: Chain?, pos: nat, inChain: nat;
    ghost var i: nat;
    BeforeEnds(buf);
    if how == Set {
      chain, pos, inChain, i := buf.first, position, 0, 0;
    } else {
      if p.pos < 0 || SIZE_MAX - position < p.pos { return -1, p; }
      ChainBytes(buf, at);
      chain, pos, inChain, i := p.chain, p.pos + position, p.posInChain, at;
    }
    var left: nat := position;
    while chain != null && inChain + left >= chain.off
      invariant i <= |buf.chains| && chain == At(buf.chains, i)
      invariant i < |buf.chains| ==> inChain <= |buf.parts[i]|
      invariant i == |buf.chains| ==> inChain == 0
      invariant Before(buf, i) + inChain + left == pos
      decreases |buf.chains| - i
    {
      BeforeNext(buf, i);
      ChainBytes(buf, i);
      left := left - (chain.off - inChain);
      chain, inChain, i := chain.next, 0, i + 1;
    }
    if chain != null {
      ChainBytes(buf, i);
      q := Ptr(pos, chain, inChain + left);
      assert IsAt(buf, q, i);
      return 0, q;
    }
    return -1, Ptr(-1, null, p.posInChain);
  }

  ghost predicate Occurs(c: seq<byte>, what: seq<byte>, p: int) {
    0 <= p && p + |what| <= |c| && c[p..p + |what|] == what
  }

  /** The n bytes at p, if there are so many. */
  ghost function Window(c: seq<byte>, p: int, n: nat): seq<byte> {
    if 0 <= p && p + n <= |c| then c[p..p + n] else []
  }

  ghost predicate Agree(s: seq<byte>, t: seq<byte>, k: nat) {
    k <= |s| && k <= |t| && s[..k] == t[..k]
  }

  lemma AgreeNone(s: seq<byte>, t: seq<byte>)
    ensures Agree(s, t, 0)
  {
  }

  lemma AgreeAll(c: seq<byte>, p: nat, mem: seq<byte>)
    requires p + |mem| <= |c|
    ensures Agree(Window(c, p, |mem|), mem, |mem|) <==> Occurs(c, mem, p)
  {
    assert c[p..p + |mem|][..|mem|] == c[p..p + |mem|] && mem[..|mem|] == mem;
  }

  lemma Compared(c: seq<byte>, p: nat, mem: seq<byte>, done: nat, n: nat)
    requires p + |mem| <= |c| && done + n <= |mem| && Agree(Window(c, p, |mem|), mem, done)
    ensures c[p + done..p + done + n] == mem[done..done + n] <==> Agree(Window(c, p, |mem|), mem, done + n)
    ensures c[p + done..p + done + n] != mem[done..done + n] ==> !Occurs(c, mem, p)
  {
    var w := c[p..p + |mem|];
    SliceOfSlice(c, p, p + |mem|, done, done + n);
    assert w[..done + n] == w[..done] + w[done..done + n];
    assert mem[..done + n] == mem[..done] + mem[done..done + n];
  }

  /** Are the bytes at `p` the ones of `mem`? */
  method PtrMatches(buf: Evbuffer, p: Ptr, mem: seq<byte>, ghost at: nat) returns (eq: bool)
    requires buf.Valid() && IsAt(buf, p, at)
    ensures eq <==> p.pos + |mem| <= SIZE_MAX && Occurs(buf.Contents(), mem, p.pos)
  {
    hide Flatten, Differ, Separate, Evbuffer.Node, Chain.Holds, Before, Agree;
    ghost var there := Window(buf.Contents(), p.pos, |mem|);
    AgreeNone(there, mem);
    buf.LengthOk();
    if p.pos < 0 || SIZE_MAX - |mem| < p.pos || p.pos + |mem| > buf.totalLen { return false; }
    var chain: Chain?, position: nat, done: nat := p.chain, p.posInChain, 0;
    ghost var i: nat := at;
    ghost var c := buf.Contents();
    while done < |mem| && chain != null
      invariant i <= |buf.chains| && chain == At(buf.chains, i) && done <= |mem|
      invariant i < |buf.chains| ==> position <= |buf.parts[i]|
      invariant done < |mem| ==> Before(buf, i) + position == p.pos + done
      invariant Agree(there, mem, done)
      decreases |buf.chains| - i
    {
      BeforeNext(buf, i);
      ChainBytes(buf, i);
      var n := if |mem| - done + position > chain.off then chain.off - position else |mem| - done;
      var piece := chain.buffer[chain.misalign + position..chain.misalign + position + n];
      ChainSlice(buf, i, position, n);
      Compared(c, p.pos, mem, done, n);
      if piece != mem[done..done + n] {
        return false;
      }
      done, position, chain, i := done + n, 0, chain.next, i + 1;
    }
    BeforeEnds(buf);
    AgreeAll(c, p.pos, mem);
    return true;
  }

  /** The first index of `b` in a[lo..hi], or hi. */
  method Memchr(a: array<byte>, lo: nat, hi: nat, b: byte) returns (k: nat)
    requires lo <= hi <= a.Length
    ensures lo <= k <= hi && (k < hi ==> a[k] == b)
    ensures forall j | lo <= j < k :: a[j] != b
  {
    k := lo;
    while k < hi && a[k] != b
      invariant lo <= k <= hi && forall j | lo <= j < k :: a[j] != b
    {
      k := k + 1;
    }
  }

  /** No occurrence starts in from..to. */
  ghost predicate NoneIn(c: seq<byte>, what: seq<byte>, from: int, to: int) {
    forall p | from <= p < to :: !Occurs(c, what, p)
  }

  lemma NotAt(c: seq<byte>, what: seq<byte>, p: nat)
    requires what != [] && p < |c| && c[p] != what[0]
    ensures !Occurs(c, what, p)
  {
    assert p + |what| <= |c| ==> c[p..p + |what|][0] == c[p];
  }

  /** The next position in chain i, from offset `inChain` on, at which the first byte matches. */
  method Candidate(buf: Evbuffer, chain: Chain, inChain: nat, what: seq<byte>, ghost i: nat) returns (k: nat)
    requires buf.Valid() && i < |buf.chains| && chain == buf.chains[i] && inChain <= |buf.parts[i]| && what != []
    ensures inChain <= k <= |buf.parts[i]| == chain.off
    ensures NoneIn(buf.Contents(), what, Before(buf, i) + inChain, Before(buf, i) + k)
  {
    hide Flatten, Differ;
    ChainBytes(buf, i);
    var lo := chain.misalign + inChain;
    k := Memchr(chain.buffer, lo, chain.misalign + chain.off, what[0]);
    k := k - chain.misalign;
    ghost var c, b := buf.Contents(), Before(buf, i);
    forall p | b + inChain <= p < b + k ensures !Occurs(c, what, p) {
      var j := chain.misalign + (p - b);
      assert chain.buffer[j] != what[0];
      assert chain.buffer[chain.misalign..chain.misalign + chain.off][p - b] == chain.buffer[j];
      assert c[b..b + chain.off][p - b] == c[p];
      NotAt(c, what, p);
    }
  }

  function From(start: Option<Ptr>): int {
    if start.Some? then start.value.pos else 0
  }

  function To(buf: Evbuffer, end: Option<Ptr>): int
    reads buf
  {
    if end.Some? then end.value.pos else buf.totalLen
  }

  /** `q` is the least position from `from` on at which `what` occurs before `to`; -1 if there is none. */
  ghost predicate FirstOccurrence(c: seq<byte>, what: seq<byte>, from: int, to: int, q: int) {
    if q == -1 then NoneIn(c, what, from, to - |what| + 1)
    else from <= q <= to - |what| && Occurs(c, what, q) && NoneIn(c, what, from, q)
  }

  /** Finds the first occurrence of `what` at or after `start` that ends at or before `end`. */
  method SearchRange(buf: Evbuffer, what: seq<byte>, start: Option<Ptr>, end: Option<Ptr>, ghost at: nat,
      ghost endAt: nat)
      returns (q: Ptr)
    requires buf.Valid() && buf.totalLen <= SIZE_MAX
    requires start.Some? ==> IsAt(buf, start.value, at)
    requires end.Some? ==> IsAt(buf, end.value, endAt)
    ensures |what| == 0 || |what| > SSIZE_MAX ==> q.pos == From(start)
    ensures 0 < |what| <= SSIZE_MAX ==> FirstOccurrence(buf.Contents(), what, From(start), To(buf, end), q.pos)
    ensures 0 < |what| <= SSIZE_MAX ==> if q.pos == -1 then q.chain == null else exists i :: IsAt(buf, q, i)
  {
    hide Flatten, Evbuffer.Valid;
    buf.Bounds();
    BeforeEnds(buf);
    buf.LengthOk();
    var chain, pos: nat, inChain: nat;
    ghost var i: nat;
    if start.Some? {
      chain, pos, inChain, i := start.value.chain, start.value.pos, start.value.posInChain, at;
    } else {
      chain, pos, inChain, i := buf.first, 0, 0, 0;
    }
    var lastChain := if end.Some? then end.value.chain else null;
    if |what| == 0 || |what| > SSIZE_MAX { return Ptr(pos, chain, inChain); }
    ghost var from := pos;
    ghost var c := buf.Contents();
    while chain != null
      invariant i <= |buf.chains| && chain == At(buf.chains, i)
      invariant i < |buf.chains| ==> inChain <= |buf.parts[i]|
      invariant i == |buf.chains| ==> inChain == 0
      invariant Before(buf, i) + inChain == pos && from <= pos && NoneIn(c, what, from, pos)
      decreases |buf.chains| - i, |c| - pos
    {
      BeforeNext(buf, i);
      ChainBytes(buf, i);
      var k := Candidate(buf, chain, inChain, what, i);
      pos, inChain := pos + (k - inChain), k;
      if k < chain.off {
        var p := Ptr(pos, chain, inChain);
        assert IsAt(buf, p, i);
        var eq := PtrMatches(buf, p, what, i);
        if eq {
          if end.Some? && pos + |what| > end.value.pos { break; }
          assert IsAt(buf, p, i);
          return p;
        }
        pos, inChain := pos + 1, inChain + 1;
        if inChain == chain.off {
          chain, inChain, i := chain.next, 0, i + 1;
        }
      } else {
        if chain == lastChain {
          EndInChain(buf, i, endAt);
          break;
        }
        chain, inChain, i := chain.next, 0, i + 1;
      }
    }
    return Ptr(-1, null, inChain);
  }

  lemma EndInChain(buf: Evbuffer, i: nat, e: nat)
    requires buf.Valid() && i < |buf.chains| && e < |buf.chains| && buf.chains[i] == buf.chains[e]
    ensures i == e
  {
    buf.SeparateOk();
    assert Differ(buf.chains, i, e) && Differ(buf.chains, e, i);
  }
}
