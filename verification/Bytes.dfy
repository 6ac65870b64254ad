/** Byte strings, the concatenation of a list of pieces, and the memory primitives the C code relies on. */
module Bytes {

  type byte = x: int | 0 <= x < 256 witness 0

  /** The bytes of a list of pieces, read from left to right. */
  function Flatten(ps: seq<seq<byte>>): (r: seq<byte>) {
    if ps == [] then [] else ps[0] + Flatten(ps[1..])
  }

  lemma {:induction false} FlattenConcat(a: seq<seq<byte>>, b: seq<seq<byte>>)
    ensures Flatten(a + b) == Flatten(a) + Flatten(b)
  {
    if a == [] {
      assert a + b == b;
    } else {
      assert (a + b)[1..] == a[1..] + b;
      FlattenConcat(a[1..], b);
    }
  }

  lemma FlattenCons(p: seq<byte>, b: seq<seq<byte>>)
    ensures Flatten([p] + b) == p + Flatten(b)
  {
    assert ([p] + b)[1..] == b;
  }

  lemma FlattenSnoc(a: seq<seq<byte>>, p: seq<byte>)
    ensures Flatten(a + [p]) == Flatten(a) + p
  {
    FlattenConcat(a, [p]);
    FlattenCons(p, []);
    assert [p] + [] == [p];
  }

  lemma FlattenSplit(ps: seq<seq<byte>>, k: nat)
    requires k <= |ps|
    ensures Flatten(ps) == Flatten(ps[..k]) + Flatten(ps[k..])
  {
    assert ps == ps[..k] + ps[k..];
    FlattenConcat(ps[..k], ps[k..]);
  }

  /** Pieces that are all empty add nothing. */
  lemma {:induction false} FlattenEmpty(ps: seq<seq<byte>>)
    requires forall i | 0 <= i < |ps| :: ps[i] == []
    ensures Flatten(ps) == []
  {
    if ps != [] {
      FlattenEmpty(ps[1..]);
    }
  }

  lemma FlattenTake(ps: seq<seq<byte>>, k: nat)
    requires k < |ps|
    ensures Flatten(ps[..k + 1]) == Flatten(ps[..k]) + ps[k]
  {
    assert ps[..k + 1] == ps[..k] + [ps[k]];
    FlattenSnoc(ps[..k], ps[k]);
  }

  /** Empty pieces at the end add nothing. */
  lemma FlattenUpTo(ps: seq<seq<byte>>, k: nat)
    requires k <= |ps| && forall i | k <= i < |ps| :: ps[i] == []
    ensures Flatten(ps) == Flatten(ps[..k])
  {
    FlattenSplit(ps, k);
    FlattenEmpty(ps[k..]);
  }

  /** The bytes before piece k, piece k itself, and the bytes after it. */
  lemma FlattenAt(ps: seq<seq<byte>>, k: nat)
    requires k < |ps|
    ensures Flatten(ps) == Flatten(ps[..k]) + ps[k] + Flatten(ps[k + 1..])
  {
    hide Flatten;
    FlattenSplit(ps, k);
    assert ps[k..] == [ps[k]] + ps[k + 1..];
    FlattenCons(ps[k], ps[k + 1..]);
  }

  /** Copies `src` to `dst` starting at index `at`. */
  method Memcpy(dst: array<byte>, at: nat, src: seq<byte>)
    requires at + |src| <= dst.Length
    modifies dst
    ensures dst[..at] == old(dst[..at])
    ensures dst[at..at + |src|] == src
    ensures dst[at + |src|..] == old(dst[at + |src|..])
  {
    for i := 0 to |src|
      invariant dst[..at] == old(dst[..at])
      invariant dst[at..at + i] == src[..i]
      invariant dst[at + i..] == old(dst[at + i..])
    {
      dst[at + i] := src[i];
      assert dst[at + i + 1..] == old(dst[at + i + 1..]);
    }
  }

  /** Copies `src` behind dst[at..pos]. */
  method Extend(dst: array<byte>, at: nat, pos: nat, src: seq<byte>)
    requires at <= pos && pos + |src| <= dst.Length
    modifies dst
    ensures dst[..at] == old(dst[..at])
    ensures dst[at..pos + |src|] == old(dst[at..pos]) + src
  {
    Memcpy(dst, pos, src);
    assert dst[..at] == dst[..pos][..at];
    assert dst[at..pos] == dst[..pos][at..];
    assert old(dst[at..pos]) == old(dst[..pos])[at..];
    assert old(dst[..at]) == old(dst[..pos])[..at];
    assert dst[at..pos + |src|] == dst[at..pos] + dst[pos..pos + |src|];
  }

  lemma SliceOfSlice<T>(s: seq<T>, a: nat, b: nat, x: nat, y: nat)
    requires a <= b <= |s| && x <= y <= b - a
    ensures s[a..b][x..y] == s[a + x..a + y]
  {
    var t := s[a..b];
    assert forall i | 0 <= i < b - a :: t[i] == s[a + i];
    assert forall i | 0 <= i < y - x :: t[x..y][i] == t[x + i];
  }

  function Sum(s: seq<nat>): nat {
    if s == [] then 0 else Sum(s[..|s| - 1]) + s[|s| - 1]
  }

  lemma SumShort(x: nat, y: nat)
    ensures Sum([]) == 0 && Sum([x]) == x && Sum([x, y]) == x + y
  {
    assert [x, y][..1] == [x] && [x][..0] == [];
  }

  lemma SumSnoc(s: seq<nat>, x: nat)
    ensures Sum(s + [x]) == Sum(s) + x
  {
    assert (s + [x])[..|s|] == s;
  }

}
