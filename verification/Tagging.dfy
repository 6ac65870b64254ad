/** Tagged data: numbers in nibbles, tags in groups of seven bits, and records that carry their own length. */
module Tagging {
  import opened Basics
  import opened Bytes
  import opened Evbuffers

  /** The program has read through a null pointer, or one next to it. */
  const CRASHED: int := -3

  /** A number and how many bytes it was read from. */
  datatype Decoded = Decoded(number: nat, size: nat)

  type digit = x: int | 0 <= x < 16 witness 0

  /** The hexadecimal digits of a number, the least significant first. */
  function Nibbles(n: nat): seq<digit> {
    if n == 0 then [] else [n % 16] + Nibbles(n / 16)
  }

  function FromNibbles(ns: seq<digit>): nat {
    if ns == [] then 0 else ns[0] + 16 * FromNibbles(ns[1..])
  }

  lemma {:induction false} NibblesBack(n: nat)
    ensures FromNibbles(Nibbles(n)) == n
  {
    if n != 0 { NibblesBack(n / 16); }
  }

  function Power16(k: nat): nat {
    if k == 0 then 1 else 16 * Power16(k - 1)
  }

  lemma {:induction false} NibblesCount(n: nat, k: nat)
    requires n < Power16(k)
    ensures |Nibbles(n)| <= k
  {
    if n != 0 { NibblesCount(n / 16, k - 1); }
  }

  /** The k-th half-byte of an encoded number: how many digits follow less one, then the digits. */
  function SlotOf(n: nat, k: nat): (d: nat)
    requires |Nibbles(n)| <= 16
    ensures d < 16
  {
    var ns := Nibbles(n);
    if k == 0 then (if |ns| == 0 then 0 else |ns| - 1)
    else if k <= |ns| then ns[k - 1] else 0
  }

  /** The encoding of a number that has at most sixteen digits. */
  function EncodedInt(n: nat): (s: seq<byte>)
    requires |Nibbles(n)| <= 16
    ensures |s| == |Nibbles(n)| / 2 + 1
  {
    seq(|Nibbles(n)| / 2 + 1, i requires 0 <= i <= |Nibbles(n)| / 2 => SlotOf(n, 2 * i) * 16 + SlotOf(n, 2 * i + 1))
  }

  /** The k-th half-byte of some bytes. */
  function Slot(s: seq<byte>, k: nat): nat
    requires k / 2 < |s|
  {
    var b: nat := s[k / 2];
    if k % 2 == 1 then b % 16 else b / 16
  }

  /** The number whose digits are the half-bytes from the k-th up to the n-th, the most significant last. */
  function Value(s: seq<byte>, k: nat, n: nat): nat
    requires n / 2 < |s|
    decreases n + 1 - k
  {
    if k > n then 0 else Slot(s, k) + 16 * Value(s, k + 1, n)
  }

  /** The number at the start of s, unless it is cut off or has more than maxNibbles digits. */
  function DecodeInt(s: seq<byte>, maxNibbles: nat): Option<Decoded> {
    if s == [] then None
    else
      var nibbles := Slot(s, 0) + 1;
      if nibbles > maxNibbles || nibbles / 2 + 1 > |s| then None
      else Some(Decoded(Value(s, 1, nibbles), nibbles / 2 + 1))
  }

  lemma SlotEncoded(n: nat, rest: seq<byte>, k: nat)
    requires |Nibbles(n)| <= 16 && k / 2 < |EncodedInt(n)|
    ensures Slot(EncodedInt(n) + rest, k) == SlotOf(n, k)
  {
    hide Nibbles, SlotOf;
    var i := k / 2;
    assert (EncodedInt(n) + rest)[i] == EncodedInt(n)[i];
    HalfBytes(SlotOf(n, 2 * i), SlotOf(n, 2 * i + 1));
    assert k == 2 * i || k == 2 * i + 1;
  }

  lemma HalfBytes(x: nat, y: nat)
    requires x < 16 && y < 16
    ensures (x * 16 + y) / 16 == x && (x * 16 + y) % 16 == y
  {
  }

  lemma {:induction false} ValueOf(s: seq<byte>, k: nat, ns: seq<digit>, n: nat)
    requires n / 2 < |s| && n + 1 == k + |ns|
    requires forall i | 0 <= i < |ns| :: Slot(s, k + i) == ns[i]
    ensures Value(s, k, n) == FromNibbles(ns)
    decreases |ns|
  {
    if ns != [] {
      assert Slot(s, k + 0) == ns[0];
      forall i | 0 <= i < |ns| - 1 ensures Slot(s, k + 1 + i) == ns[1..][i] {
        assert Slot(s, k + (i + 1)) == ns[i + 1];
      }
      ValueOf(s, k + 1, ns[1..], n);
    }
  }

  /** Decoding an encoded number gives it back and stops at its end, whatever follows. */
  lemma IntRoundTrip(n: nat, maxNibbles: nat, rest: seq<byte>)
    requires n < Power16(maxNibbles) && 0 < maxNibbles <= 16
    ensures |Nibbles(n)| <= maxNibbles
    ensures DecodeInt(EncodedInt(n) + rest, maxNibbles) == Some(Decoded(n, |EncodedInt(n)|))
  {
    hide Power16, Nibbles, EncodedInt, Value, FromNibbles, Slot;
    NibblesCount(n, maxNibbles);
    var ns := Nibbles(n);
    var s := EncodedInt(n) + rest;
    SlotEncoded(n, rest, 0);
    NibblesBack(n);
    if ns == [] {
      SlotEncoded(n, rest, 1);
      ValueOne(s, ns);
    } else {
      forall i | 0 <= i < |ns| ensures Slot(s, 1 + i) == ns[i] { SlotEncoded(n, rest, 1 + i); }
      ValueOf(s, 1, ns, |ns|);
    }
  }

  lemma ValueOne(s: seq<byte>, ns: seq<digit>)
    requires s != [] && Slot(s, 1) == 0 && ns == []
    ensures Value(s, 1, 1) == FromNibbles(ns)
  {
    assert Value(s, 1, 1) == Slot(s, 1) + 16 * Value(s, 2, 1);
  }

  function EncodedTag(tag: nat): seq<byte> {
    if tag < 128 then [tag] else [tag % 128 + 128] + EncodedTag(tag / 128)
  }

  /** The tag that starts s, seven bits from each byte up to the first without its high bit. */
  function TagFrom(s: seq<byte>): Option<Decoded> {
    if s == [] then None
    else if s[0] < 128 then Some(Decoded(s[0], 1))
    else match TagFrom(s[1..])
      case None => None
      case Some(d) => Some(Decoded(s[0] - 128 + 128 * d.number, d.size + 1))
  }

  /** The tag at the start of s does not go on behind the five bytes that are made contiguous for it. */
  predicate TagEnds(s: seq<byte>) {
    |s| <= 5 || TagFrom(s[..5]).Some?
  }

  /** Tags are 32-bit numbers and take at most five bytes. */
  function DecodeTag(s: seq<byte>): Option<Decoded> {
    match TagFrom(s[..if |s| < 5 then |s| else 5])
    case None => None
    case Some(d) => Some(Decoded(d.number % TWO32, d.size))
  }

  function Power128(k: nat): nat {
    if k == 0 then 1 else 128 * Power128(k - 1)
  }

  lemma {:induction false} EncodedTagSize(tag: nat, k: nat)
    requires tag < Power128(k) && k > 0
    ensures 0 < |EncodedTag(tag)| <= k
  {
    assert k == 1 ==> Power128(k) == 128 * Power128(0);
    if tag >= 128 {
      EncodedTagSize(tag / 128, k - 1);
    }
  }

  lemma {:induction false} TagFromEncoded(tag: nat, rest: seq<byte>)
    ensures TagFrom(EncodedTag(tag) + rest) == Some(Decoded(tag, |EncodedTag(tag)|))
  {
    if tag >= 128 {
      TagFromEncoded(tag / 128, rest);
      assert (EncodedTag(tag) + rest)[1..] == EncodedTag(tag / 128) + rest;
    } else {
      assert (EncodedTag(tag) + rest)[0] == tag;
    }
  }

  lemma TagRoundTrip(tag: nat, rest: seq<byte>)
    requires tag < TWO32
    ensures DecodeTag(EncodedTag(tag) + rest) == Some(Decoded(tag, |EncodedTag(tag)|))
  {
    assert Power128(5) == 0x8_0000_0000;
    EncodedTagSize(tag, 5);
    var e := EncodedTag(tag);
    var s := e + rest;
    var n := if |s| < 5 then |s| else 5;
    assert s[..n] == e + rest[..n - |e|];
    TagFromEncoded(tag, rest[..n - |e|]);
  }

  /** Writes a number into `data`, which has room for all its digits, and returns how many bytes it takes. */
  method EncodeIntInternal(data: array<byte>, number: nat) returns (len: nat)
    requires (data.Length == 5 && number < TWO32) || (data.Length == 9 && number < TWO64)
    modifies data
    ensures |Nibbles(number)| < 2 * data.Length - 1 && |Nibbles(number)| <= 16
    ensures len <= data.Length && data[..len] == EncodedInt(number)
  {
    hide Nibbles, EncodedInt, Slot, WithSlot;
    FitsNibbles(number);
    var off := 1;
    var n := number;
    for i := 0 to data.Length
      invariant forall j | 0 <= j < i :: data[j] == 0
    {
      data[i] := 0;
    }
    ghost var ns := Nibbles(number);
    SlotsZero(data[..]);
    while n != 0
      invariant 1 <= off && off - 1 + |Nibbles(n)| == |ns|
      invariant Nibbles(n) == ns[off - 1..]
      invariant forall k | 0 <= k < 2 * data.Length :: Slot(data[..], k) == if 1 <= k < off then ns[k - 1] else 0
      decreases n
    {
      PutSlot(data, off, n % 16);
      NibblesStep(n);
      assert ns[off - 1] == Nibbles(n)[0] && ns[off..] == Nibbles(n)[1..];
      n := n / 16;
      off := off + 1;
    }
    var nibbles := 0;
    if off > 2 { nibbles := off - 2; }
    PutSlot(data, 0, nibbles);
    len := (off + 1) / 2;
    ghost var s := data[..];
    NibblesStep(n);
    forall i | 0 <= i < len ensures s[i] == EncodedInt(number)[i] {
      SlotPair(s, i);
      EncodedAt(number, i);
    }
    assert s[..len] == EncodedInt(number);
  }

  lemma NibblesStep(n: nat)
    ensures Nibbles(n) == if n == 0 then [] else [n % 16] + Nibbles(n / 16)
  {
  }

  lemma SlotsZero(s: seq<byte>)
    requires forall i | 0 <= i < |s| :: s[i] == 0
    ensures forall k | 0 <= k < 2 * |s| :: Slot(s, k) == 0
  {
  }

  lemma EncodedAt(n: nat, i: nat)
    requires |Nibbles(n)| <= 16 && i <= |Nibbles(n)| / 2
    ensures EncodedInt(n)[i] == SlotOf(n, 2 * i) * 16 + SlotOf(n, 2 * i + 1)
  {
  }

  method PutSlot(data: array<byte>, k: nat, d: digit)
    requires k / 2 < data.Length
    modifies data
    ensures forall j | 0 <= j < 2 * data.Length :: Slot(data[..], j) == if j == k then d else Slot(old(data[..]), j)
  {
    SlotUpdated(data[..], k, d);
    data[k / 2] := WithSlot(data[k / 2], k, d);
    assert data[..] == old(data[..])[k / 2 := data[k / 2]];
  }

  /** A byte with its low half, if k is odd, or else its high half replaced. */
  function WithSlot(b: byte, k: nat, d: digit): byte {
    if k % 2 == 1 then b / 16 * 16 + d else b % 16 + d * 16
  }

  lemma SlotUpdated(s: seq<byte>, k: nat, d: digit)
    requires k / 2 < |s|
    ensures forall j | 0 <= j < 2 * |s| ::
      Slot(s[k / 2 := WithSlot(s[k / 2], k, d)], j) == if j == k then d else Slot(s, j)
  {
    hide WithSlot;
    WithSlotHalves(s[k / 2], k, d);
    forall j | 0 <= j < 2 * |s|
      ensures Slot(s[k / 2 := WithSlot(s[k / 2], k, d)], j) == if j == k then d else Slot(s, j)
    {
      assert j / 2 == k / 2 && j % 2 == k % 2 ==> j == k;
    }
  }

  lemma WithSlotHalves(b: byte, k: nat, d: digit)
    ensures var w: nat, o: nat := WithSlot(b, k, d), b;
      if k % 2 == 1 then w % 16 == d && w / 16 == o / 16 else w / 16 == d && w % 16 == o % 16
  {
  }

  lemma SlotPair(s: seq<byte>, i: nat)
    requires i < |s|
    ensures s[i] == Slot(s, 2 * i) * 16 + Slot(s, 2 * i + 1)
  {
  }

  lemma FitsNibbles(n: nat)
    ensures n < TWO32 ==> |Nibbles(n)| <= 8
    ensures n < TWO64 ==> |Nibbles(n)| <= 16
  {
    assert Power16(8) == TWO32 && Power16(16) == TWO64;
    if n < TWO32 { NibblesCount(n, 8); }
    if n < TWO64 { NibblesCount(n, 16); }
  }

  /** Nothing but want of memory can keep n more bytes out of the buffer. */
  ghost predicate Fits(evbuf: Evbuffer, n: nat)
    reads evbuf
  {
    !evbuf.freezeEnd && n <= SIZE_MAX - evbuf.totalLen && n <= CHAIN_MAX - CHAIN_SIZE
  }

  method EvtagEncodeInt(evbuf: Evbuffer, number: nat, oom: bool)
    requires evbuf.Valid() && evbuf.AtTail() && number < TWO32
    modifies evbuf.Repr
    ensures evbuf.Valid() && evbuf.AtTail() && fresh(evbuf.Repr - old(evbuf.Repr))
    ensures evbuf.freezeStart == old(evbuf.freezeStart) && evbuf.freezeEnd == old(evbuf.freezeEnd)
    ensures |Nibbles(number)| <= 8
    ensures evbuf.Contents() == old(evbuf.Contents()) || evbuf.Contents() == old(evbuf.Contents()) + EncodedInt(number)
    ensures !oom && old(Fits(evbuf, 5)) ==> evbuf.Contents() == old(evbuf.Contents()) + EncodedInt(number)
  {
    hide Nibbles, EncodedInt;
    FitsNibbles(number);
    var data := new byte[5];
    var len := EncodeIntInternal(data, number);
    var r := evbuf.Add(data[..len], oom);
  }

  /** Appends a tag, and returns how many bytes it takes. */
  method EvtagEncodeTag(evbuf: Evbuffer, tag: nat, oom: bool) returns (bytes: nat)
    requires evbuf.Valid() && evbuf.AtTail() && tag < TWO32
    modifies evbuf.Repr
    ensures evbuf.Valid() && evbuf.AtTail() && fresh(evbuf.Repr - old(evbuf.Repr))
    ensures evbuf.freezeStart == old(evbuf.freezeStart) && evbuf.freezeEnd == old(evbuf.freezeEnd)
    ensures bytes == |EncodedTag(tag)| <= 5
    ensures evbuf.Contents() == old(evbuf.Contents()) || evbuf.Contents() == old(evbuf.Contents()) + EncodedTag(tag)
    ensures !oom && old(Fits(evbuf, 5)) ==> evbuf.Contents() == old(evbuf.Contents()) + EncodedTag(tag)
  {
    var data;
    data, bytes := TagBytes(tag);
    var r := evbuf.Add(data[..bytes], oom);
  }

  method TagBytes(tag: nat) returns (data: array<byte>, bytes: nat)
    requires tag < TWO32
    ensures fresh(data) && bytes <= data.Length == 5 && data[..bytes] == EncodedTag(tag)
  {
    hide EncodedTag;
    data := new byte[5];
    TagSize(tag);
    bytes := 0;
    var t := tag;
    var more := true;
    while more
      invariant bytes <= 5
      invariant more ==> data[..bytes] + EncodedTag(t) == EncodedTag(tag)
      invariant !more ==> data[..bytes] == EncodedTag(tag)
      decreases more, t
    {
      EncodedTagStep(t);
      TagGrows(data[..bytes], t);
      var lower: byte := t % 128;
      t := t / 128;
      if t != 0 { lower := lower + 128; }
      ghost var was := data[..bytes];
      data[bytes] := lower;
      assert data[..bytes + 1] == was + [lower];
      bytes := bytes + 1;
      more := t != 0;
    }
  }

  lemma TagGrows(s: seq<byte>, t: nat)
    ensures s + EncodedTag(t) == if t < 128 then s + [t] else s + [t % 128 + 128] + EncodedTag(t / 128)
    ensures |s| < |s + EncodedTag(t)|
  {
  }

  lemma EncodedTagStep(tag: nat)
    ensures EncodedTag(tag) == if tag < 128 then [tag] else [tag % 128 + 128] + EncodedTag(tag / 128)
  {
  }

  lemma TagSize(tag: nat)
    requires tag < TWO32
    ensures 0 < |EncodedTag(tag)| <= 5
  {
    assert Power128(5) == 0x8_0000_0000;
    EncodedTagSize(tag, 5);
  }

  datatype Record = Record(tag: nat, data: seq<byte>)

  predicate RecordOk(r: Record) {
    r.tag < TWO32 && |r.data| <= INT_MAX
  }

  function Marshalled(r: Record): seq<byte>
    requires RecordOk(r)
  {
    FitsNibbles(|r.data|);
    EncodedTag(r.tag) + EncodedInt(|r.data|) + r.data
  }

  function Stream(rs: seq<Record>): seq<byte>
    requires forall r <- rs :: RecordOk(r)
  {
    if rs == [] then [] else Marshalled(rs[0]) + Stream(rs[1..])
  }

  /** What is left after n bytes. */
  function Rest(s: seq<byte>, n: nat): seq<byte> {
    if n <= |s| then s[n..] else []
  }

  lemma RestTwice(s: seq<byte>, m: nat, n: nat)
    requires m <= |s|
    ensures Rest(Rest(s, m), n) == Rest(s, m + n) && |Rest(s, m)| == |s| - m
    ensures m + n <= |s| ==> |Rest(s, m + n)| == |s| - m - n
  {
  }

  /** The tag and length at the start of s, and how many bytes they take, if the data they announce are there. */
  datatype Header = Header(tag: nat, len: nat, size: nat)

  function HeaderOf(s: seq<byte>): (h: Option<Header>)
    ensures h.Some? ==> 0 < h.value.size && h.value.size + h.value.len <= |s|
  {
    match DecodeTag(s)
    case None => None
    case Some(t) =>
      if t.size > |s| then None
      else match DecodeInt(Rest(s, t.size), 8)
        case None => None
        case Some(l) =>
          if |s| - t.size - l.size < l.number then None else Some(Header(t.number, l.number, t.size + l.size))
  }

  /** The first record of s and how many bytes it takes. */
  function Unmarshalled(s: seq<byte>): (r: Option<(Record, nat)>)
    ensures r.Some? ==> 0 < r.value.1 <= |s|
  {
    match HeaderOf(s)
    case None => None
    case Some(h) =>
      if h.len > INT_MAX then None
      else Some((Record(h.tag, s[h.size..h.size + h.len]), h.size + h.len))
  }

  function Records(s: seq<byte>): Option<seq<Record>>
    decreases |s|
  {
    if s == [] then Some([])
    else match Unmarshalled(s)
      case None => None
      case Some(p) =>
        match Records(s[p.1..])
        case None => None
        case Some(rs) => Some([p.0] + rs)
  }

  /** A record can be read back, and it ends where it ends, whatever follows. */
  lemma RecordRoundTrip(r: Record, rest: seq<byte>)
    requires RecordOk(r)
    ensures Unmarshalled(Marshalled(r) + rest) == Some((r, |Marshalled(r)|))
  {
    hide EncodedTag, EncodedInt, DecodeTag, DecodeInt, Nibbles;
    var n := |r.data|;
    FitsNibbles(n);
    assert Power16(8) == TWO32;
    var t, l := EncodedTag(r.tag), EncodedInt(n);
    var s := Marshalled(r) + rest;
    assert s == t + (l + (r.data + rest));
    TagRoundTrip(r.tag, l + (r.data + rest));
    IntRoundTrip(n, 8, r.data + rest);
    assert s[|t|..] == l + (r.data + rest);
    TagSize(r.tag);
    assert s[|t| + |l|..|t| + |l| + n] == r.data;
  }

  /** A stream of records can be read back exactly. */
  lemma {:induction false} StreamRoundTrip(rs: seq<Record>)
    requires forall r <- rs :: RecordOk(r)
    ensures Records(Stream(rs)) == Some(rs)
  {
    hide Unmarshalled, Marshalled;
    if rs != [] {
      var rest := Stream(rs[1..]);
      RecordRoundTrip(rs[0], rest);
      assert (Marshalled(rs[0]) + rest)[|Marshalled(rs[0])|..] == rest;
      StreamRoundTrip(rs[1..]);
      assert [rs[0]] + rs[1..] == rs;
      UnmarshalledSize(Marshalled(rs[0]) + rest);
    }
  }

  lemma UnmarshalledSize(s: seq<byte>)
    ensures Unmarshalled(s).Some? ==> 0 < Unmarshalled(s).value.1 <= |s|
  {
  }

  /** The first n bytes of the buffer, made contiguous. */
  method Pulled(evbuf: Evbuffer, n: nat, oom: bool) returns (ok: bool, data: seq<byte>)
    requires evbuf.Valid() && evbuf.AtTail()
    modifies evbuf.Repr
    ensures evbuf.Valid() && evbuf.AtTail() && fresh(evbuf.Repr - old(evbuf.Repr))
      && evbuf.Contents() == old(evbuf.Contents())
    ensures evbuf.freezeStart == old(evbuf.freezeStart) && evbuf.freezeEnd == old(evbuf.freezeEnd)
    ensures ok ==> 0 < n <= |evbuf.Contents()| && data == evbuf.Contents()[..n]
    ensures !oom && 0 < n <= |evbuf.Contents()| && n <= CHAIN_MAX - CHAIN_SIZE ==> ok
    ensures 0 < n <= |evbuf.Contents()| && old(evbuf.FirstTakes(n)) ==>
      ok && evbuf.first == old(evbuf.first) && evbuf.first.misalign == old(evbuf.first.misalign)
    ensures 0 < n <= |evbuf.Contents()| && evbuf.FirstTakes(n) ==> ok
  {
    data := [];
    ok := evbuf.Pullup(n, oom);
    if ok {
      var first := evbuf.first;
      data := first.buffer[first.misalign..first.misalign + n];
      SliceOfSlice(first.buffer[..], first.misalign, first.misalign + first.off, 0, n);
      assert first.buffer[..][first.misalign..first.misalign + n] == data;
      assert evbuf.Contents()[..first.off][..n] == evbuf.Contents()[..n];
    }
  }

  /** Reads the tag at the start of a buffer, and takes it out if asked to. */
  method DecodeTagInternal(evbuf: Evbuffer, dodrain: bool, oom: bool) returns (r: int, tag: nat)
    requires evbuf.Valid() && evbuf.AtTail() && !evbuf.freezeStart && TagEnds(evbuf.Contents())
    modifies evbuf.Repr
    ensures evbuf.Valid() && evbuf.AtTail() && fresh(evbuf.Repr - old(evbuf.Repr))
    ensures evbuf.freezeStart == old(evbuf.freezeStart) && evbuf.freezeEnd == old(evbuf.freezeEnd)
    ensures r == -1
      || (0 < r <= 5 && r <= |old(evbuf.Contents())| && DecodeTag(old(evbuf.Contents())) == Some(Decoded(tag, r)))
    ensures evbuf.Contents() == if r > 0 && dodrain then Rest(old(evbuf.Contents()), r) else old(evbuf.Contents())
    ensures !oom && DecodeTag(old(evbuf.Contents())).Some? ==> r > 0
  {
    hide TagFrom;
    tag := 0;
    ghost var s := evbuf.Contents();
    TotalIs(evbuf);
    var len := evbuf.totalLen;
    var n := if len < 5 then len else 5;
    TagFromStep(s[..n]);
    var ok, data := Pulled(evbuf, n, oom);
    if !ok { return -1, 0; }
    var found: nat;
    found, tag := ReadTag(data);
    if found == 0 { return -1, 0; }
    if dodrain {
      var d := evbuf.Drain(found);
      if found == len { assert s[found..] == []; }
    }
    r := found;
  }

  /** Reads a tag; `count` is 0 if it does not end. */
  method ReadTag(data: seq<byte>) returns (count: nat, tag: nat)
    ensures count == 0 <==> TagFrom(data) == None
    ensures count > 0 ==> count <= |data| && TagFrom(data).Some? && TagFrom(data).value.size == count
    ensures count > 0 ==> tag == TagFrom(data).value.number % TWO32
  {
    hide TagFrom;
    count, tag := 0, 0;
    var i: nat, number: nat, scale: nat := 0, 0, 1;
    assert data[0..] == data;
    while i < |data|
      invariant i <= |data|
      invariant TagFrom(data) == Behind(TagFrom(data[i..]), number, scale, i)
      decreases |data| - i
    {
      var lower := data[i];
      TagFromStep(data[i..]);
      BehindStep(TagFrom(data[i + 1..]), lower, number, scale, i);
      assert data[i..][1..] == data[i + 1..];
      number := number + lower % 128 * scale;
      i := i + 1;
      if lower < 128 {
        return i, number % TWO32;
      }
      scale := scale * 128;
    }
    TagFromStep(data[i..]);
  }

  /** What the first i bytes of a tag say, put in front of what the later ones say. */
  function Behind(d: Option<Decoded>, number: nat, scale: nat, i: nat): Option<Decoded> {
    match d
    case None => None
    case Some(v) =>
      Product(v.number, scale);
      Some(Decoded(number + v.number * scale, i + v.size))
  }

  lemma BehindStep(d: Option<Decoded>, lower: byte, number: nat, scale: nat, i: nat)
    ensures lower < 128 ==>
      Behind(Some(Decoded(lower, 1)), number, scale, i) == Some(Decoded(number + lower % 128 * scale, i + 1))
    ensures lower >= 128 && d.Some? ==>
      Behind(Some(Decoded(lower - 128 + 128 * d.value.number, d.value.size + 1)), number, scale, i)
      == Behind(d, number + lower % 128 * scale, scale * 128, i + 1)
  {
    if lower >= 128 && d.Some? {
      var x: nat, y: nat := lower - 128, d.value.number;
      assert lower % 128 == x;
      assert (x + 128 * y) * scale == x * scale + y * (scale * 128);
    }
  }

  lemma TagFromStep(s: seq<byte>)
    ensures TagFrom(s) ==
      if s == [] then None
      else if s[0] < 128 then Some(Decoded(s[0], 1))
      else match TagFrom(s[1..])
        case None => None
        case Some(d) => Some(Decoded(s[0] - 128 + 128 * d.number, d.size + 1))
  {
  }

  lemma TotalIs(evbuf: Evbuffer)
    requires evbuf.Valid()
    ensures evbuf.totalLen == |evbuf.Contents()|
  {
  }

  /** Reads the number at the given place of a buffer, without taking it out. */
  method DecodeIntInternal(evbuf: Evbuffer, maxNibbles: nat, offset: nat, oom: bool) returns (r: int, number: nat)
    requires evbuf.Valid() && evbuf.AtTail() && offset <= |evbuf.Contents()| && offset <= 10 && maxNibbles <= 16
    modifies evbuf.Repr
    ensures evbuf.Valid() && evbuf.AtTail() && fresh(evbuf.Repr - old(evbuf.Repr))
      && evbuf.Contents() == old(evbuf.Contents())
    ensures evbuf.freezeStart == old(evbuf.freezeStart) && evbuf.freezeEnd == old(evbuf.freezeEnd)
    ensures var d := DecodeInt(evbuf.Contents()[offset..], maxNibbles);
      && (r == -1 || r == CRASHED || (0 < r <= |evbuf.Contents()| - offset && d == Some(Decoded(number, r))))
      && (!oom && d.Some? ==> r > 0)
      && (r == -1 && offset > 0 ==> d == None)
      && (r == CRASHED ==> oom && offset > 0 && offset < |evbuf.Contents()|)
      && (d.Some? && old(evbuf.FirstTakes(offset + d.value.size)) ==> r > 0)
  {
    hide Value, Slot;
    number := 0;
    TotalIs(evbuf);
    ghost var s := evbuf.Contents();
    var len := evbuf.totalLen - offset;
    if len <= 0 { return -1, 0; }
    // The code adds the offset to the pointer before it compares that with null.
    var ok, data := Pulled(evbuf, offset + 1, oom);
    if !ok { return if offset == 0 then -1 else CRASHED, 0; }
    SlotBelow(data[offset..], s[offset..], 0);
    var nibbles := Slot(data[offset..], 0) + 1;
    if nibbles > maxNibbles || nibbles / 2 + 1 > len { return -1, 0; }
    len := nibbles / 2 + 1;
    ok, data := Pulled(evbuf, offset + len, oom);
    if !ok { return if offset == 0 then -1 else CRASHED, 0; }
    assert data[offset..] == s[offset..][..len];
    number := ReadInt(data[offset..], nibbles);
    ValueBelow(data[offset..], s[offset..], 1, nibbles);
    r := len;
  }

  /** Reads the digits, the most significant first. */
  method ReadInt(data: seq<byte>, n: nat) returns (number: nat)
    requires n / 2 < |data|
    ensures number == Value(data, 1, n)
  {
    number := 0;
    var nibbles: nat := n;
    while nibbles > 0
      invariant nibbles <= n && number == Value(data, nibbles + 1, n)
    {
      number := number * 16 + Slot(data, nibbles);
      nibbles := nibbles - 1;
    }
  }

  lemma SlotBelow(p: seq<byte>, s: seq<byte>, k: nat)
    requires p <= s && k / 2 < |p|
    ensures Slot(p, k) == Slot(s, k)
  {
  }

  lemma {:induction false} ValueBelow(p: seq<byte>, s: seq<byte>, k: nat, n: nat)
    requires p <= s && n / 2 < |p|
    ensures Value(p, k, n) == Value(s, k, n)
    decreases n + 1 - k
  {
    if k <= n { ValueBelow(p, s, k + 1, n); }
  }

  method EvtagDecodeInt(evbuf: Evbuffer, oom: bool) returns (r: int, number: nat)
    requires evbuf.Valid() && evbuf.AtTail() && !evbuf.freezeStart
    modifies evbuf.Repr
    ensures evbuf.Valid() && evbuf.AtTail() && fresh(evbuf.Repr - old(evbuf.Repr))
    ensures evbuf.freezeStart == old(evbuf.freezeStart) && evbuf.freezeEnd == old(evbuf.freezeEnd)
    ensures var d := DecodeInt(old(evbuf.Contents()), 8);
      && (r == -1 || (r == 0 && d.Some? && d.value.number == number
           && evbuf.Contents() == Rest(old(evbuf.Contents()), d.value.size)))
      && (!oom && d.Some? ==> r == 0)
    ensures r == -1 ==> evbuf.Contents() == old(evbuf.Contents())
  {
    hide DecodeInt;
    ghost var s := evbuf.Contents();
    assert s[0..] == s;
    var size;
    size, number := DecodeIntInternal(evbuf, 8, 0, oom);
    if size == -1 { return -1, number; }
    var d := evbuf.Drain(size);
    TotalIs(evbuf);
    r := 0;
  }

  /** A 32-bit number as a signed one. */
  function Int(n: nat): int
    requires n < TWO32
  {
    if n <= INT_MAX then n else n - TWO32
  }

  lemma LengthFits(s: seq<byte>)
    ensures DecodeInt(s, 8).Some? ==> DecodeInt(s, 8).value.number < TWO32 && DecodeInt(s, 8).value.size <= |s|
  {
    if DecodeInt(s, 8).Some? {
      var n := Slot(s, 0) + 1;
      ValueBound(s, 1, n);
      assert Power16(8) == TWO32;
      PowerGrows(n, 8);
    }
  }

  lemma {:induction false} ValueBound(s: seq<byte>, k: nat, n: nat)
    requires n / 2 < |s| && k <= n + 1
    ensures Value(s, k, n) < Power16(n + 1 - k)
    decreases n + 1 - k
  {
    if k <= n { ValueBound(s, k + 1, n); }
  }

  lemma {:induction false} PowerGrows(a: nat, b: nat)
    requires a <= b
    ensures Power16(a) <= Power16(b)
    decreases b
  {
    if a < b { PowerGrows(a, b - 1); }
  }

  /** Takes the tag and the length of a record out of a buffer, and returns the length if its data are there. */
  method UnmarshalHeader(evbuf: Evbuffer, oom: bool) returns (r: int, tag: nat)
    requires evbuf.Valid() && evbuf.AtTail() && !evbuf.freezeStart && TagEnds(evbuf.Contents())
    modifies evbuf.Repr
    ensures evbuf.Valid() && evbuf.AtTail() && fresh(evbuf.Repr - old(evbuf.Repr))
    ensures evbuf.freezeStart == old(evbuf.freezeStart) && evbuf.freezeEnd == old(evbuf.freezeEnd)
    ensures r != -1 ==> var h := HeaderOf(old(evbuf.Contents()));
      h.Some? && h.value.tag == tag && h.value.len < TWO32 && r == Int(h.value.len)
        && evbuf.Contents() == Rest(old(evbuf.Contents()), h.value.size)
    ensures var h := HeaderOf(old(evbuf.Contents())); !oom && h.Some? && h.value.len <= INT_MAX ==> r == h.value.len
  {
    hide DecodeTag, DecodeInt, Rest;
    ghost var s := evbuf.Contents();
    var t;
    t, tag := DecodeTagInternal(evbuf, true, oom);
    if t == -1 { return -1, tag; }
    LengthFits(evbuf.Contents());
    RestTwice(s, t, (match DecodeInt(evbuf.Contents(), 8) case Some(d) => d.size case None => 0));
    var l, len := EvtagDecodeInt(evbuf, oom);
    if l == -1 { return -1, tag; }
    TotalIs(evbuf);
    if evbuf.totalLen < len { return -1, tag; }
    r := Int(len);
  }

  /** Appends a record. */
  method Marshal(evbuf: Evbuffer, rec: Record, oom: bool)
    requires evbuf.Valid() && evbuf.AtTail() && RecordOk(rec)
    modifies evbuf.Repr
    ensures evbuf.Valid() && evbuf.AtTail() && fresh(evbuf.Repr - old(evbuf.Repr))
    ensures evbuf.freezeStart == old(evbuf.freezeStart) && evbuf.freezeEnd == old(evbuf.freezeEnd)
    ensures !oom && old(Fits(evbuf, 10 + |rec.data|)) ==> evbuf.Contents() == old(evbuf.Contents()) + Marshalled(rec)
  {
    hide EncodedTag, EncodedInt, Nibbles, Marshalled;
    ghost var s := evbuf.Contents();
    MarshalledIs(s, rec);
    TotalIs(evbuf);
    var bytes := EvtagEncodeTag(evbuf, rec.tag, oom);
    TotalIs(evbuf);
    EvtagEncodeInt(evbuf, |rec.data|, oom);
    TotalIs(evbuf);
    var r := evbuf.Add(rec.data, oom);
  }

  lemma MarshalledIs(s: seq<byte>, rec: Record)
    requires RecordOk(rec)
    ensures |Nibbles(|rec.data|)| <= 8 && |EncodedTag(rec.tag)| <= 5 && |EncodedInt(|rec.data|)| <= 5
    ensures s + EncodedTag(rec.tag) + EncodedInt(|rec.data|) + rec.data == s + Marshalled(rec)
  {
    hide Nibbles, EncodedTag;
    FitsNibbles(|rec.data|);
    TagSize(rec.tag);
  }

  /** Moves the data of the first record of src to the end of dst, and returns their length. */
  method Unmarshal(src: Evbuffer, dst: Evbuffer, oom: bool) returns (r: int, tag: nat)
    requires src.Valid() && src.AtTail() && dst.Valid() && dst.AtTail() && src.Repr !! dst.Repr && !src.freezeStart
    requires TagEnds(src.Contents())
    modifies src.Repr, dst.Repr
    ensures src.Valid() && src.AtTail() && dst.Valid() && dst.AtTail() && src.Repr !! dst.Repr
    ensures fresh(src.Repr - old(src.Repr)) && fresh(dst.Repr - old(dst.Repr))
    ensures src.freezeStart == old(src.freezeStart) && src.freezeEnd == old(src.freezeEnd)
    ensures dst.freezeStart == old(dst.freezeStart) && dst.freezeEnd == old(dst.freezeEnd)
    ensures r >= 0 ==> var u := Unmarshalled(old(src.Contents()));
      u.Some? && u.value.0.tag == tag && r == |u.value.0.data|
      && src.Contents() == Rest(old(src.Contents()), u.value.1)
      && dst.Contents() == old(dst.Contents()) + u.value.0.data
    ensures r < 0 ==> r == CRASHED || (r == -1 && dst.Contents() == old(dst.Contents()))
    ensures r == CRASHED ==>
      var u := Unmarshalled(old(src.Contents()));
      && oom && u.Some? && u.value.0.data != [] && !src.FirstTakes(|u.value.0.data|)
      && !dst.freezeEnd && |u.value.0.data| <= SIZE_MAX - old(dst.totalLen)
    ensures var u := Unmarshalled(old(src.Contents()));
      !oom && u.Some? && old(Fits(dst, |u.value.0.data|)) ==> r >= 0
  {
    hide HeaderOf, Unmarshalled, Rest;
    ghost var s := src.Contents();
    UnmarshalledOf(s);
    var len;
    len, tag := UnmarshalHeader(src, oom);
    if len == -1 { return -1, tag; }
    // A length of 2^31 or more is passed on as a negative one, which no buffer can take.
    if len < 0 { return -1, tag; }
    ghost var pulled;
    r, pulled := MoveData(src, dst, len, oom);
  }

  /** Moves the first n bytes of src to the end of dst.  The null pointer of a failed pull-up is not tested: unless dst
      refuses the bytes, it is copied from. */
  method MoveData(src: Evbuffer, dst: Evbuffer, n: nat, oom: bool) returns (r: int, ghost pulled: bool)
    requires src.Valid() && src.AtTail() && dst.Valid() && dst.AtTail() && src.Repr !! dst.Repr && !src.freezeStart
    requires n <= |src.Contents()| && n <= INT_MAX
    modifies src.Repr, dst.Repr
    ensures src.Valid() && src.AtTail() && dst.Valid() && dst.AtTail() && src.Repr !! dst.Repr
    ensures fresh(src.Repr - old(src.Repr)) && fresh(dst.Repr - old(dst.Repr))
    ensures src.freezeStart == old(src.freezeStart) && src.freezeEnd == old(src.freezeEnd)
    ensures dst.freezeStart == old(dst.freezeStart) && dst.freezeEnd == old(dst.freezeEnd)
    ensures r == n || r == -1 || r == CRASHED
    ensures src.Contents() == if r >= 0 then Rest(old(src.Contents()), n) else old(src.Contents())
    ensures r >= 0 ==> dst.Contents() == old(dst.Contents()) + old(src.Contents())[..n]
    ensures r == -1 ==> dst.Contents() == old(dst.Contents())
    ensures !oom && old(Fits(dst, n)) ==> r == n
    ensures dst.freezeEnd || n > SIZE_MAX - old(dst.totalLen) ==> r == -1
    ensures !dst.freezeEnd && n <= SIZE_MAX - old(dst.totalLen) && old(dst.LastTakes(n)) ==>
      r == if n == 0 || pulled then n else CRASHED
    ensures n == 0 || old(src.FirstTakes(n)) || !oom ==> r != CRASHED
    ensures n > 0 && old(src.FirstTakes(n)) ==> pulled
    ensures r == CRASHED ==> !pulled && !src.FirstTakes(n)
  {
    hide Rest;
    ghost var s := src.Contents();
    dst.LastOk();
    var ok, data := Pulled(src, n, oom);
    src.FirstOk();
    pulled := ok;
    if n == 0 { data := []; }
    var added := dst.Add(if ok || n == 0 then data else seq(n, i => 0), oom);
    if added == -1 { return -1, pulled; }
    if !ok && n > 0 { return CRASHED, pulled; }
    assert data == s[..n];
    TotalIs(src);
    RestIs(s, n);
    var drained := src.Drain(n);
    r := n;
  }

  lemma UnmarshalledOf(s: seq<byte>)
    ensures Unmarshalled(s).Some? <==> HeaderOf(s).Some? && HeaderOf(s).value.len <= INT_MAX
    ensures Unmarshalled(s).Some? ==> var h := HeaderOf(s).value; var body := Rest(s, h.size);
      h.len <= |body| && Unmarshalled(s).value == (Record(h.tag, body[..h.len]), h.size + h.len)
        && Rest(body, h.len) == Rest(s, h.size + h.len)
  {
    hide HeaderOf;
    HeaderSize(s);
    if Unmarshalled(s).Some? {
      var h := HeaderOf(s).value;
      RestTwice(s, h.size, h.len);
      assert s[h.size..][..h.len] == s[h.size..h.size + h.len];
    }
  }

  lemma RestIs(s: seq<byte>, n: nat)
    ensures Rest(s, n) == (if n < |s| then s[n..] else []) && s[0..] == s
  {
  }

  lemma HeaderSize(s: seq<byte>)
    ensures HeaderOf(s).Some? ==> 0 < HeaderOf(s).value.size && HeaderOf(s).value.size + HeaderOf(s).value.len <= |s|
  {
  }

  function IntRecord(tag: nat, n: nat): Record
    requires n < TWO32
  {
    FitsNibbles(n);
    Record(tag, EncodedInt(n))
  }

  method MarshalInt(evbuf: Evbuffer, tag: nat, n: nat, oom: bool)
    requires evbuf.Valid() && evbuf.AtTail() && tag < TWO32 && n < TWO32
    modifies evbuf.Repr
    ensures evbuf.Valid() && evbuf.AtTail() && fresh(evbuf.Repr - old(evbuf.Repr))
    ensures evbuf.freezeStart == old(evbuf.freezeStart) && evbuf.freezeEnd == old(evbuf.freezeEnd)
    ensures RecordOk(IntRecord(tag, n))
    ensures !oom && old(Fits(evbuf, 15)) ==> evbuf.Contents() == old(evbuf.Contents()) + Marshalled(IntRecord(tag, n))
  {
    hide EncodedInt, Nibbles, Marshalled;
    FitsNibbles(n);
    var data := new byte[5];
    var len := EncodeIntInternal(data, n);
    Marshal(evbuf, Record(tag, data[..len]), oom);
  }

  /** The number in the first record, if that has the given tag, and what follows the record. */
  function UnmarshalledInt(s: seq<byte>, needTag: nat): Option<(Decoded, seq<byte>)> {
    match HeaderOf(s)
    case None => None
    case Some(h) =>
      var body := Rest(s, h.size);
      match DecodeInt(body, 8)
      case None => None
      case Some(d) => if h.tag != needTag || d.size > h.len then None else Some((d, Rest(body, h.len)))
  }

  /** Takes a record with the given tag out of the buffer, and returns how many bytes its number took. */
  method UnmarshalInt(evbuf: Evbuffer, needTag: nat, oom: bool) returns (r: int, number: nat)
    requires evbuf.Valid() && evbuf.AtTail() && !evbuf.freezeStart && TagEnds(evbuf.Contents())
    modifies evbuf.Repr
    ensures evbuf.Valid() && evbuf.AtTail() && fresh(evbuf.Repr - old(evbuf.Repr))
    ensures evbuf.freezeStart == old(evbuf.freezeStart) && evbuf.freezeEnd == old(evbuf.freezeEnd)
    ensures r == -1 || r > 0
    ensures r >= 0 ==> UnmarshalledInt(old(evbuf.Contents()), needTag) == Some((Decoded(number, r), evbuf.Contents()))
    ensures !oom && UnmarshalledInt(old(evbuf.Contents()), needTag).Some? ==> r >= 0
  {
    hide HeaderOf, DecodeInt, Rest;
    number := 0;
    var ok, len := IntHeader(evbuf, needTag, oom);
    if !ok { return -1, 0; }
    ghost var body := evbuf.Contents();
    RestIs(body, len);
    r, number := DecodeIntInternal(evbuf, 8, 0, oom);
    TotalIs(evbuf);
    var d := evbuf.Drain(len);
    if r < 0 || r > len { return -1, number; }
  }

  /** Takes the tag and the length of a record with the given tag out of the buffer. */
  method IntHeader(evbuf: Evbuffer, needTag: nat, oom: bool) returns (ok: bool, len: nat)
    requires evbuf.Valid() && evbuf.AtTail() && !evbuf.freezeStart && TagEnds(evbuf.Contents())
    modifies evbuf.Repr
    ensures evbuf.Valid() && evbuf.AtTail() && fresh(evbuf.Repr - old(evbuf.Repr))
    ensures evbuf.freezeStart == old(evbuf.freezeStart) && evbuf.freezeEnd == old(evbuf.freezeEnd)
    ensures var h := HeaderOf(old(evbuf.Contents()));
      && (ok ==> h.Some? && h.value.tag == needTag && h.value.len == len <= |evbuf.Contents()|
                 && evbuf.Contents() == Rest(old(evbuf.Contents()), h.value.size))
      && (!oom && h.Some? && h.value.tag == needTag ==> ok)
  {
    hide DecodeTag, DecodeInt, Rest;
    ok := false;
    ghost var s := evbuf.Contents();
    var t, tag := DecodeTagInternal(evbuf, true, oom);
    if t == -1 || needTag != tag { return false, 0; }
    LengthFits(evbuf.Contents());
    RestTwice(s, t, (match DecodeInt(evbuf.Contents(), 8) case Some(d) => d.size case None => 0));
    var l;
    l, len := EvtagDecodeInt(evbuf, oom);
    if l == -1 { return false, 0; }
    TotalIs(evbuf);
    ok := evbuf.totalLen >= len;
  }

  /** A marshalled number is read back, and the buffer stands where the next record starts. */
  lemma IntRecordRoundTrip(tag: nat, n: nat, rest: seq<byte>)
    requires tag < TWO32 && n < TWO32 && RecordOk(IntRecord(tag, n))
    ensures UnmarshalledInt(Marshalled(IntRecord(tag, n)) + rest, tag)
      == Some((Decoded(n, |IntRecord(tag, n).data|), rest))
  {
    hide EncodedTag, EncodedInt, DecodeTag, DecodeInt, Nibbles;
    FitsNibbles(n);
    assert Power16(8) == TWO32;
    var rec := IntRecord(tag, n);
    var s := Marshalled(rec) + rest;
    RecordRoundTrip(rec, rest);
    var h := HeaderOf(s).value;
    assert s == s[..h.size] + rec.data + s[h.size + h.len..];
    assert Marshalled(rec) + rest == s[..h.size + h.len] + rest;
    assert Rest(s, h.size) == EncodedInt(n) + rest;
    IntRoundTrip(n, 8, rest);
  }

  method MarshalAll(evbuf: Evbuffer, rs: seq<Record>, oom: bool)
    requires evbuf.Valid() && evbuf.AtTail() && forall r <- rs :: RecordOk(r)
    modifies evbuf.Repr
    ensures evbuf.Valid() && evbuf.AtTail() && fresh(evbuf.Repr - old(evbuf.Repr))
    ensures evbuf.freezeStart == old(evbuf.freezeStart) && evbuf.freezeEnd == old(evbuf.freezeEnd)
    ensures !oom && old(Fits(evbuf, 10 + |Stream(rs)|)) ==> evbuf.Contents() == old(evbuf.Contents()) + Stream(rs)
  {
    hide Marshalled, Stream;
    ghost var s := evbuf.Contents();
    TotalIs(evbuf);
    StreamStep(rs, 0);
    for i := 0 to |rs|
      invariant evbuf.Valid() && evbuf.AtTail() && fresh(evbuf.Repr - old(evbuf.Repr))
      invariant evbuf.freezeStart == old(evbuf.freezeStart) && evbuf.freezeEnd == old(evbuf.freezeEnd)
      invariant !oom && old(Fits(evbuf, 10 + |Stream(rs)|)) ==> evbuf.Contents() + Stream(rs[i..]) == s + Stream(rs)
    {
      StreamStep(rs, i);
      TotalIs(evbuf);
      Marshal(evbuf, rs[i], oom);
    }
    StreamStep(rs, |rs|);
  }

  lemma StreamStep(rs: seq<Record>, i: nat)
    requires i <= |rs| && forall r <- rs :: RecordOk(r)
    ensures i == |rs| ==> Stream(rs[i..]) == []
    ensures i < |rs| ==>
      Stream(rs[i..]) == Marshalled(rs[i]) + Stream(rs[i + 1..]) && |Marshalled(rs[i])| >= |rs[i].data|
    ensures rs[0..] == rs
  {
    if i < |rs| { assert rs[i..][1..] == rs[i + 1..]; }
  }

  /** Reads one record that is there. */
  method UnmarshalOne(evbuf: Evbuffer, oom: bool, ghost rec: Record, ghost rest: seq<byte>)
    returns (r: int, got: Record)
    requires evbuf.Valid() && evbuf.AtTail() && !evbuf.freezeStart && RecordOk(rec)
    requires evbuf.Contents() == Marshalled(rec) + rest
    modifies evbuf.Repr
    ensures evbuf.Valid() && evbuf.AtTail() && !evbuf.freezeStart && fresh(evbuf.Repr - old(evbuf.Repr))
    ensures r == -1 || r == CRASHED || (r == |rec.data| && got == rec && evbuf.Contents() == rest)
    ensures !oom ==> r >= 0
    ensures r == CRASHED ==> rec.data != [] && !evbuf.FirstTakes(|rec.data|)
  {
    hide Marshalled, Unmarshalled, TagEnds, Rest, Evbuffer.Valid;
    RecordRoundTrip(rec, rest);
    UnmarshalledTagEnds(evbuf.Contents());
    var dst := new Evbuffer();
    TotalIs(dst);
    assert dst.Contents() == [];
    var tag;
    r, tag := Unmarshal(evbuf, dst, oom);
    var size, copied := dst.Copyout(if r >= 0 then r else 0);
    TotalIs(dst);
    got := Record(tag, copied);
    RestAfter(Marshalled(rec), rest);
    assert [] + rec.data == rec.data;
  }

  lemma RestAfter(s: seq<byte>, t: seq<byte>)
    ensures Rest(s + t, |s|) == t
  {
  }

  lemma UnmarshalledTagEnds(s: seq<byte>)
    requires Unmarshalled(s).Some?
    ensures TagEnds(s)
  {
  }

  /** Reads as many records as were written, if nothing stops it. */
  method UnmarshalAll(evbuf: Evbuffer, n: nat, oom: bool, ghost rs: seq<Record>) returns (r: int, got: seq<Record>)
    requires evbuf.Valid() && evbuf.AtTail() && !evbuf.freezeStart && n == |rs| && forall r <- rs :: RecordOk(r)
    requires evbuf.Contents() == Stream(rs)
    modifies evbuf.Repr
    ensures evbuf.Valid() && evbuf.AtTail()
    ensures |got| <= n && got == rs[..|got|] && (!oom ==> r == 0)
    ensures r == 0 || r == -1 || r == CRASHED
    ensures if r == 0 then got == rs && evbuf.Contents() == [] else |got| < n
    ensures r == CRASHED ==> rs[|got|].data != [] && !evbuf.FirstTakes(|rs[|got|].data|)
  {
    hide Marshalled, Stream;
    r, got := 0, [];
    StreamStep(rs, 0);
    for i := 0 to n
      invariant evbuf.Valid() && evbuf.AtTail() && !evbuf.freezeStart && fresh(evbuf.Repr - old(evbuf.Repr))
      invariant r == 0 && got == rs[..i] && evbuf.Contents() == Stream(rs[i..])
    {
      StreamStep(rs, i);
      var one, rec := UnmarshalOne(evbuf, oom, rs[i], Stream(rs[i + 1..]));
      if one < 0 { return one, got; }
      got := got + [rec];
    }
    StreamStep(rs, n);
  }
}
