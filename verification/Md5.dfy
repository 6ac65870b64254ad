/** The MD5 message digest (RFC 1321), computed piece by piece. */
module Md5 {
  import opened Basics
  import opened Bytes

  type word = x: int | 0 <= x < 0x1_0000_0000 witness 0

  type slot = x: int | 0 <= x < 16 witness 0
  type amount = x: int | 0 < x < 32 witness 1

  datatype State = State(a: word, b: word, c: word, d: word)

  const INITIAL: State := State(0x67452301, 0xefcdab89, 0x98badcfe, 0x10325476)

  function F(x: bv32, y: bv32, z: bv32): bv32 {
    (x & y) | (!x & z)
  }

  function G(x: bv32, y: bv32, z: bv32): bv32 {
    (x & z) | (y & !z)
  }

  function H(x: bv32, y: bv32, z: bv32): bv32 {
    x ^ y ^ z
  }

  function I(x: bv32, y: bv32, z: bv32): bv32 {
    y ^ (x | !z)
  }

  /** The table of section 3.4 of RFC 1321, sixteen constants for each round. */
  function Constant(i: nat): word {
    if i < 16 then Constant1(i) else if i < 32 then Constant2(i - 16)
    else if i < 48 then Constant3(i - 32) else Constant4(i - 48)
  }

  function Constant1(i: nat): word {
    if i == 0 then 0xd76aa478 else if i == 1 then 0xe8c7b756 else if i == 2 then 0x242070db else
    if i == 3 then 0xc1bdceee else if i == 4 then 0xf57c0faf else if i == 5 then 0x4787c62a else
    if i == 6 then 0xa8304613 else if i == 7 then 0xfd469501 else if i == 8 then 0x698098d8 else
    if i == 9 then 0x8b44f7af else if i == 10 then 0xffff5bb1 else if i == 11 then 0x895cd7be else
    if i == 12 then 0x6b901122 else if i == 13 then 0xfd987193 else if i == 14 then 0xa679438e else 0x49b40821
  }

  function Constant2(i: nat): word {
    if i == 0 then 0xf61e2562 else if i == 1 then 0xc040b340 else if i == 2 then 0x265e5a51 else
    if i == 3 then 0xe9b6c7aa else if i == 4 then 0xd62f105d else if i == 5 then 0x02441453 else
    if i == 6 then 0xd8a1e681 else if i == 7 then 0xe7d3fbc8 else if i == 8 then 0x21e1cde6 else
    if i == 9 then 0xc33707d6 else if i == 10 then 0xf4d50d87 else if i == 11 then 0x455a14ed else
    if i == 12 then 0xa9e3e905 else if i == 13 then 0xfcefa3f8 else if i == 14 then 0x676f02d9 else 0x8d2a4c8a
  }

  function Constant3(i: nat): word {
    if i == 0 then 0xfffa3942 else if i == 1 then 0x8771f681 else if i == 2 then 0x6d9d6122 else
    if i == 3 then 0xfde5380c else if i == 4 then 0xa4beea44 else if i == 5 then 0x4bdecfa9 else
    if i == 6 then 0xf6bb4b60 else if i == 7 then 0xbebfbc70 else if i == 8 then 0x289b7ec6 else
    if i == 9 then 0xeaa127fa else if i == 10 then 0xd4ef3085 else if i == 11 then 0x04881d05 else
    if i == 12 then 0xd9d4d039 else if i == 13 then 0xe6db99e5 else if i == 14 then 0x1fa27cf8 else 0xc4ac5665
  }

  function Constant4(i: nat): word {
    if i == 0 then 0xf4292244 else if i == 1 then 0x432aff97 else if i == 2 then 0xab9423a7 else
    if i == 3 then 0xfc93a039 else if i == 4 then 0x655b59c3 else if i == 5 then 0x8f0ccc92 else
    if i == 6 then 0xffeff47d else if i == 7 then 0x85845dd1 else if i == 8 then 0x6fa87e4f else
    if i == 9 then 0xfe2ce6e0 else if i == 10 then 0xa3014314 else if i == 11 then 0x4e0811a1 else
    if i == 12 then 0xf7537e82 else if i == 13 then 0xbd3af235 else if i == 14 then 0x2ad7d2bb else 0xeb86d391
  }

  /** The amounts of the rotations: four in each round, which repeat. */
  function Amount(round: nat, k: nat): amount {
    if round == 0 then (if k == 0 then 7 else if k == 1 then 12 else if k == 2 then 17 else 22)
    else if round == 1 then (if k == 0 then 5 else if k == 1 then 9 else if k == 2 then 14 else 20)
    else if round == 2 then (if k == 0 then 4 else if k == 1 then 11 else if k == 2 then 16 else 23)
    else (if k == 0 then 6 else if k == 1 then 10 else if k == 2 then 15 else 21)
  }

  /** The word of the block that a step uses, in the order of section 3.4 of RFC 1321. */
  function WordOf(i: nat): slot {
    if i < 16 then i else if i < 32 then (5 * i + 1) % 16 else if i < 48 then (3 * i + 5) % 16 else 7 * i % 16
  }

  function Rotated(v: bv32, n: amount): bv32 {
    (v << n) | (v >> (32 - n))
  }

  function RotateLeft(x: word, n: amount): word {
    Rotated(x as bv32, n) as int
  }

  /** Adds the mixed bits f, a word and a constant to a, rotates, and adds b. */
  function Turn(f: bv32, a: word, b: word, x: word, s: amount, ac: word): word {
    var mixed: int := f as int;
    (RotateLeft((a + mixed + x + ac) % TWO32, s) + b) % TWO32
  }

  function FF(a: word, b: word, c: word, d: word, x: word, s: amount, ac: word): word {
    Turn(F(b as bv32, c as bv32, d as bv32), a, b, x, s, ac)
  }

  function GG(a: word, b: word, c: word, d: word, x: word, s: amount, ac: word): word {
    Turn(G(b as bv32, c as bv32, d as bv32), a, b, x, s, ac)
  }

  function HH(a: word, b: word, c: word, d: word, x: word, s: amount, ac: word): word {
    Turn(H(b as bv32, c as bv32, d as bv32), a, b, x, s, ac)
  }

  function II(a: word, b: word, c: word, d: word, x: word, s: amount, ac: word): word {
    Turn(I(b as bv32, c as bv32, d as bv32), a, b, x, s, ac)
  }

  /** The word that step i makes of a. */
  function Stepped(i: nat, a: word, b: word, c: word, d: word, x: seq<word>): word
    requires |x| == 16
  {
    var s, ac, w := Amount(i / 16, i % 4), Constant(i), x[WordOf(i)];
    if i < 16 then FF(a, b, c, d, w, s, ac)
    else if i < 32 then GG(a, b, c, d, w, s, ac)
    else if i < 48 then HH(a, b, c, d, w, s, ac)
    else II(a, b, c, d, w, s, ac)
  }

  /** Step i, after which the words change their roles. */
  function Step(s: State, x: seq<word>, i: nat): State
    requires |x| == 16
  {
    State(s.d, Stepped(i, s.a, s.b, s.c, s.d, x), s.b, s.c)
  }

  /** The state after the steps from 0 up to n. */
  function Rounds(s: State, x: seq<word>, n: nat): State
    requires |x| == 16 && n <= 64
  {
    if n == 0 then s else Step(Rounds(s, x, n - 1), x, n - 1)
  }

  /** After four steps every word has its role back. */
  lemma FourSteps(s: State, x: seq<word>, i: nat)
    requires |x| == 16 && i + 4 <= 64
    ensures var r := Rounds(s, x, i);
      var a := Stepped(i, r.a, r.b, r.c, r.d, x);
      var d := Stepped(i + 1, r.d, a, r.b, r.c, x);
      var c := Stepped(i + 2, r.c, d, a, r.b, x);
      var b := Stepped(i + 3, r.b, c, d, a, x);
      Rounds(s, x, i + 4) == State(a, b, c, d)
  {
    hide Stepped, Rounds;
    RoundsNext(s, x, i);
    RoundsNext(s, x, i + 1);
    RoundsNext(s, x, i + 2);
    RoundsNext(s, x, i + 3);
  }

  lemma RoundsNone(s: State, x: seq<word>)
    requires |x| == 16
    ensures Rounds(s, x, 0) == s
  {
  }

  lemma RoundsNext(s: State, x: seq<word>, i: nat)
    requires |x| == 16 && i < 64
    ensures Rounds(s, x, i + 1) == Step(Rounds(s, x, i), x, i)
  {
    hide Step;
  }

  method Round1(x: seq<word>, a0: word, b0: word, c0: word, d0: word, ghost s: State)
    returns (a: word, b: word, c: word, d: word)
    requires |x| == 16 && State(a0, b0, c0, d0) == Rounds(s, x, 0)
    ensures State(a, b, c, d) == Rounds(s, x, 16)
  {
    hide Rounds, FF, GG, HH, II;
    a, b, c, d := a0, b0, c0, d0;
    a := FF(a, b, c, d, x[0], 7, 0xd76aa478);
    d := FF(d, a, b, c, x[1], 12, 0xe8c7b756);
    c := FF(c, d, a, b, x[2], 17, 0x242070db);
    b := FF(b, c, d, a, x[3], 22, 0xc1bdceee);
    FourSteps(s, x, 0);
    a := FF(a, b, c, d, x[4], 7, 0xf57c0faf);
    d := FF(d, a, b, c, x[5], 12, 0x4787c62a);
    c := FF(c, d, a, b, x[6], 17, 0xa8304613);
    b := FF(b, c, d, a, x[7], 22, 0xfd469501);
    FourSteps(s, x, 4);
    a := FF(a, b, c, d, x[8], 7, 0x698098d8);
    d := FF(d, a, b, c, x[9], 12, 0x8b44f7af);
    c := FF(c, d, a, b, x[10], 17, 0xffff5bb1);
    b := FF(b, c, d, a, x[11], 22, 0x895cd7be);
    FourSteps(s, x, 8);
    a := FF(a, b, c, d, x[12], 7, 0x6b901122);
    d := FF(d, a, b, c, x[13], 12, 0xfd987193);
    c := FF(c, d, a, b, x[14], 17, 0xa679438e);
    b := FF(b, c, d, a, x[15], 22, 0x49b40821);
    FourSteps(s, x, 12);
  }

  method Round2(x: seq<word>, a0: word, b0: word, c0: word, d0: word, ghost s: State)
    returns (a: word, b: word, c: word, d: word)
    requires |x| == 16 && State(a0, b0, c0, d0) == Rounds(s, x, 16)
    ensures State(a, b, c, d) == Rounds(s, x, 32)
  {
    hide Rounds, FF, GG, HH, II;
    a, b, c, d := a0, b0, c0, d0;
    a := GG(a, b, c, d, x[1], 5, 0xf61e2562);
    d := GG(d, a, b, c, x[6], 9, 0xc040b340);
    c := GG(c, d, a, b, x[11], 14, 0x265e5a51);
    b := GG(b, c, d, a, x[0], 20, 0xe9b6c7aa);
    FourSteps(s, x, 16);
    a := GG(a, b, c, d, x[5], 5, 0xd62f105d);
    d := GG(d, a, b, c, x[10], 9, 0x02441453);
    c := GG(c, d, a, b, x[15], 14, 0xd8a1e681);
    b := GG(b, c, d, a, x[4], 20, 0xe7d3fbc8);
    FourSteps(s, x, 20);
    a := GG(a, b, c, d, x[9], 5, 0x21e1cde6);
    d := GG(d, a, b, c, x[14], 9, 0xc33707d6);
    c := GG(c, d, a, b, x[3], 14, 0xf4d50d87);
    b := GG(b, c, d, a, x[8], 20, 0x455a14ed);
    FourSteps(s, x, 24);
    a := GG(a, b, c, d, x[13], 5, 0xa9e3e905);
    d := GG(d, a, b, c, x[2], 9, 0xfcefa3f8);
    c := GG(c, d, a, b, x[7], 14, 0x676f02d9);
    b := GG(b, c, d, a, x[12], 20, 0x8d2a4c8a);
    FourSteps(s, x, 28);
  }

  method Round3(x: seq<word>, a0: word, b0: word, c0: word, d0: word, ghost s: State)
    returns (a: word, b: word, c: word, d: word)
    requires |x| == 16 && State(a0, b0, c0, d0) == Rounds(s, x, 32)
    ensures State(a, b, c, d) == Rounds(s, x, 48)
  {
    hide Rounds, FF, GG, HH, II;
    a, b, c, d := a0, b0, c0, d0;
    a := HH(a, b, c, d, x[5], 4, 0xfffa3942);
    d := HH(d, a, b, c, x[8], 11, 0x8771f681);
    c := HH(c, d, a, b, x[11], 16, 0x6d9d6122);
    b := HH(b, c, d, a, x[14], 23, 0xfde5380c);
    FourSteps(s, x, 32);
    a := HH(a, b, c, d, x[1], 4, 0xa4beea44);
    d := HH(d, a, b, c, x[4], 11, 0x4bdecfa9);
    c := HH(c, d, a, b, x[7], 16, 0xf6bb4b60);
    b := HH(b, c, d, a, x[10], 23, 0xbebfbc70);
    FourSteps(s, x, 36);
    a := HH(a, b, c, d, x[13], 4, 0x289b7ec6);
    d := HH(d, a, b, c, x[0], 11, 0xeaa127fa);
    c := HH(c, d, a, b, x[3], 16, 0xd4ef3085);
    b := HH(b, c, d, a, x[6], 23, 0x04881d05);
    FourSteps(s, x, 40);
    a := HH(a, b, c, d, x[9], 4, 0xd9d4d039);
    d := HH(d, a, b, c, x[12], 11, 0xe6db99e5);
    c := HH(c, d, a, b, x[15], 16, 0x1fa27cf8);
    b := HH(b, c, d, a, x[2], 23, 0xc4ac5665);
    FourSteps(s, x, 44);
  }

  method Round4(x: seq<word>, a0: word, b0: word, c0: word, d0: word, ghost s: State)
    returns (a: word, b: word, c: word, d: word)
    requires |x| == 16 && State(a0, b0, c0, d0) == Rounds(s, x, 48)
    ensures State(a, b, c, d) == Rounds(s, x, 64)
  {
    hide Rounds, FF, GG, HH, II;
    a, b, c, d := a0, b0, c0, d0;
    a := II(a, b, c, d, x[0], 6, 0xf4292244);
    d := II(d, a, b, c, x[7], 10, 0x432aff97);
    c := II(c, d, a, b, x[14], 15, 0xab9423a7);
    b := II(b, c, d, a, x[5], 21, 0xfc93a039);
    FourSteps(s, x, 48);
    a := II(a, b, c, d, x[12], 6, 0x655b59c3);
    d := II(d, a, b, c, x[3], 10, 0x8f0ccc92);
    c := II(c, d, a, b, x[10], 15, 0xffeff47d);
    b := II(b, c, d, a, x[1], 21, 0x85845dd1);
    FourSteps(s, x, 52);
    a := II(a, b, c, d, x[8], 6, 0x6fa87e4f);
    d := II(d, a, b, c, x[15], 10, 0xfe2ce6e0);
    c := II(c, d, a, b, x[6], 15, 0xa3014314);
    b := II(b, c, d, a, x[13], 21, 0x4e0811a1);
    FourSteps(s, x, 56);
    a := II(a, b, c, d, x[4], 6, 0xf7537e82);
    d := II(d, a, b, c, x[11], 10, 0xbd3af235);
    c := II(c, d, a, b, x[2], 15, 0x2ad7d2bb);
    b := II(b, c, d, a, x[9], 21, 0xeb86d391);
    FourSteps(s, x, 60);
  }

  /** Four bytes as a word, the low byte first. */
  function WordAt(s: seq<byte>, i: nat): word
    requires i + 4 <= |s|
  {
    var b0: int, b1: int, b2: int, b3: int := s[i], s[i + 1], s[i + 2], s[i + 3];
    b0 + b1 * 0x100 + b2 * 0x1_0000 + b3 * 0x100_0000
  }

  function Words(block: seq<byte>): (x: seq<word>)
    requires |block| == 64
    ensures |x| == 16
  {
    seq(16, i requires 0 <= i < 16 => WordAt(block, 4 * i))
  }

  function Plus(x: word, y: word): word {
    (x + y) % TWO32
  }

  /** What one block does to the state. */
  function Transformed(s: State, block: seq<byte>): State
    requires |block| == 64
  {
    var r := Rounds(s, Words(block), 64);
    State(Plus(s.a, r.a), Plus(s.b, r.b), Plus(s.c, r.c), Plus(s.d, r.d))
  }

  /** Where in its block a message of n bytes ends. */
  function Off(n: nat): (r: nat)
    ensures r < 64 && r <= n
  {
    n % 64
  }

  lemma OffSmall(n: nat)
    ensures n < 64 ==> Off(n) == n
    ensures n == 64 ==> Off(n) == 0
  {
  }

  lemma OffSum(m: nat, n: nat)
    ensures Off(m + n) == Off(Off(m) + n) && Off(m - Off(m)) == 0
  {
    var q := m / 64;
    assert m == 64 * q + m % 64;
    assert (m + n) % 64 == (m % 64 + n) % 64;
  }

  lemma OffBelow(n: nat)
    ensures n >= 64 ==> Off(n - 64) == Off(n)
    ensures n < 128 && n >= 64 ==> Off(n) == n - 64
  {
  }

  /** A whole number of blocks, one after the other. */
  function Fold(s: State, m: seq<byte>): State
    requires Off(|m|) == 0
    decreases |m|
  {
    OffBelow(|m|);
    OffSmall(|m|);
    if m == [] then s else Fold(Transformed(s, m[..64]), m[64..])
  }

  lemma {:induction false} FoldConcat(s: State, m: seq<byte>, n: seq<byte>)
    requires Off(|m|) == 0 && Off(|n|) == 0
    ensures Fold(s, m + n) == Fold(Fold(s, m), n)
    decreases |m|
  {
    hide Transformed;
    if m == [] {
      assert m + n == n;
    } else {
      assert (m + n)[..64] == m[..64] && (m + n)[64..] == m[64..] + n;
      FoldConcat(Transformed(s, m[..64]), m[64..], n);
    }
  }

  lemma FoldOne(s: State, block: seq<byte>)
    requires |block| == 64
    ensures Fold(s, block) == Transformed(s, block)
  {
    hide Transformed;
    assert block[..64] == block && block[64..] == [];
  }

  function Byte(n: nat, k: nat): byte {
    if k == 0 then n % 256 else if k == 1 then n / 0x100 % 256 else if k == 2 then n / 0x1_0000 % 256
      else n / 0x100_0000 % 256
  }

  function WordBytes(w: word): seq<byte> {
    [Byte(w, 0), Byte(w, 1), Byte(w, 2), Byte(w, 3)]
  }

  function StateBytes(s: State): (r: seq<byte>)
    ensures |r| == 16
  {
    WordBytes(s.a) + WordBytes(s.b) + WordBytes(s.c) + WordBytes(s.d)
  }

  /** Encoding a word and decoding it gives it back. */
  lemma WordRoundTrip(w: word)
    ensures WordAt(WordBytes(w), 0) == w
  {
    var q1 := w / 256;
    var q2 := q1 / 256;
    var q3 := q2 / 256;
    assert w / 0x1_0000 == q2 && w / 0x100_0000 == q3 && q3 < 256;
    assert w == w % 256 + 256 * q1 && q1 == q1 % 256 + 256 * q2 && q2 == q2 % 256 + 256 * q3;
  }

  function Zeros(n: nat): seq<byte> {
    seq(n, _ => 0)
  }

  /** The length in bits, modulo 2^64, as eight bytes, the low byte first. */
  function LengthBytes(n: nat): (r: seq<byte>)
    ensures |r| == 8
  {
    WordBytes(8 * n % TWO32) + WordBytes(8 * n / TWO32 % TWO32)
  }

  /** How many bytes bring a length to 56 modulo 64: at least one, and at most 64. */
  function PadLength(n: nat): nat {
    if Off(n) < 56 then 56 - Off(n) else 120 - Off(n)
  }

  /** The message padded as in sections 3.1 and 3.2 of RFC 1321: a one bit, zeros, and the length. */
  function Padded(m: seq<byte>): (r: seq<byte>)
    ensures Off(|r|) == 0
  {
    PadLengthFits(|m|);
    m + Pad(PadLength(|m|)) + LengthBytes(|m|)
  }

  function Pad(n: nat): (r: seq<byte>)
    ensures |r| == n
  {
    if n == 0 then [] else [0x80] + Zeros(n - 1)
  }

  lemma PadLengthFits(n: nat)
    ensures 1 <= PadLength(n) <= 64 && Off(n + PadLength(n)) == 56 && Off(n + PadLength(n) + 8) == 0
  {
    hide Off;
    OffSum(n, PadLength(n));
    OffSmall(56);
    OffBelow(120);
    OffSum(n + PadLength(n), 8);
    OffSmall(64);
  }

  /** The digest of a message (section 3 of RFC 1321). */
  function Md5Of(m: seq<byte>): seq<byte> {
    StateBytes(Fold(INITIAL, Padded(m)))
  }

  /** The part of a message that fills whole blocks, and the rest. */
  function Head(m: seq<byte>): (r: seq<byte>)
    ensures Off(|r|) == 0 && |r| == |m| - Off(|m|)
  {
    OffSum(|m|, 0);
    m[..|m| - Off(|m|)]
  }

  function Tail(m: seq<byte>): (r: seq<byte>)
    ensures |r| == Off(|m|)
  {
    m[|m| - Off(|m|)..]
  }

  /** The block buffer after `input` has gone through it. */
  function Buffered(buf: seq<byte>, index: nat, input: seq<byte>): seq<byte>
    requires |buf| == 64 && index < 64
  {
    if |input| < 64 - index then buf[..index] + input + buf[index + |input|..]
    else
      var left := Off(index + |input|);
      input[|input| - left..] + (buf[..index] + input[..64 - index])[left..]
  }

  /** What the object has become a digest of once its digest has been taken: padding a message that leaves less than
      nine bytes of its last block free writes over the end of the message in the buffer. */
  function Aftermath(m: seq<byte>): (r: seq<byte>)
    ensures |r| == |m|
  {
    if Off(|m|) < 56 then m else Head(m) + (Zeros(56) + LengthBytes(|m|))[..Off(|m|)]
  }

  lemma DivMod32(x: nat, q: nat, r: nat)
    requires r < TWO32 && x == r + TWO32 * q
    ensures x / TWO32 == q && x % TWO32 == r
  {
  }

  lemma DivMod64(x: nat, q: nat, r: nat)
    requires r < TWO64 && x == r + TWO64 * q
    ensures x / TWO64 == q && x % TWO64 == r
  {
  }

  /** The number of bits in two words after `len` more bytes, which may wrap each of them around. */
  lemma CountAdded(count0: nat, count1: nat, n: nat, len: nat)
    requires count0 < TWO32 && count1 < TWO32 && len < TWO32 && count0 + TWO32 * count1 == 8 * n % TWO64
    ensures var low := len * 8 % TWO32; var c0 := (count0 + low) % TWO32;
      var c1 := ((if c0 < low then (count1 + 1) % TWO32 else count1) + len / 0x2000_0000) % TWO32;
      c0 + TWO32 * c1 == 8 * (n + len) % TWO64
  {
    var low, high := len * 8 % TWO32, len / 0x2000_0000;
    assert len * 8 == low + TWO32 * high;
    var carry := if count0 + low >= TWO32 then 1 else 0;
    var c0 := count0 + low - TWO32 * carry;
    DivMod32(count0 + low, carry, c0);
    var sum := count1 + carry + high;
    CarriedIn(count1, carry, high);
    var p := 8 * n / TWO64;
    DivMod64(8 * (n + len), sum / TWO32 + p, c0 + TWO32 * (sum % TWO32));
  }

  lemma CarriedIn(count1: nat, carry: nat, high: nat)
    requires count1 < TWO32 && carry <= 1
    ensures ((if carry == 1 then (count1 + 1) % TWO32 else count1) + high) % TWO32 == (count1 + carry + high) % TWO32
  {
    if carry == 1 && count1 + 1 == TWO32 {
      var q, r := high / TWO32, high % TWO32;
      DivMod32(TWO32 + high, q + 1, r);
    }
  }

  lemma CountBytes(count0: nat, count1: nat, n: nat)
    requires count0 < TWO32 && count1 < TWO32 && count0 + TWO32 * count1 == 8 * n % TWO64
    ensures WordBytes(count0) + WordBytes(count1) == LengthBytes(n) && Off(count0 / 8) == Off(n)
  {
    hide WordBytes;
    var q := 8 * n / TWO64;
    DivMod32(8 * n, count1 + TWO32 * q, count0);
    DivMod32(count1 + TWO32 * q, q, count1);
    Index(count0, n, count1 + TWO32 * q);
  }

  lemma Index(count0: nat, n: nat, q: nat)
    requires 8 * n == count0 + TWO32 * q
    ensures Off(count0 / 8) == Off(n)
  {
    assert n == count0 / 8 + 0x2000_0000 * q;
    assert n == count0 / 8 + 64 * (0x80_0000 * q);
  }

  lemma Parts(m: seq<byte>)
    ensures m == Head(m) + Tail(m)
  {
  }

  lemma FoldFirst(m: seq<byte>, input: seq<byte>)
    requires |input| >= 64 - Off(|m|)
    ensures var part := 64 - Off(|m|);
      Off(|m| + part) == 0
        && Fold(INITIAL, m + input[..part]) == Transformed(Fold(INITIAL, Head(m)), Tail(m) + input[..part])
  {
    hide Fold, Transformed, Off, Head, Tail;
    var part := 64 - Off(|m|);
    Parts(m);
    OffSum(|m|, part);
    OffSmall(64);
    var first := input[..part];
    Regroup(Head(m), Tail(m), first);
    var block := Tail(m) + first;
    FoldConcat(INITIAL, Head(m), block);
    FoldOne(Fold(INITIAL, Head(m)), block);
  }

  lemma Regroup(x: seq<byte>, y: seq<byte>, z: seq<byte>)
    ensures x + y + z == x + (y + z)
  {
  }

  lemma FoldNext(m: seq<byte>, input: seq<byte>, i: nat)
    requires Off(|m| + i) == 0 && i + 64 <= |input|
    ensures Off(|m| + i + 64) == 0
    ensures Fold(INITIAL, m + input[..i + 64]) == Transformed(Fold(INITIAL, m + input[..i]), input[i..i + 64])
  {
    hide Fold, Transformed, Off;
    OffSum(|m| + i, 64);
    OffSmall(64);
    assert m + input[..i + 64] == m + input[..i] + input[i..i + 64];
    FoldConcat(INITIAL, m + input[..i], input[i..i + 64]);
    FoldOne(Fold(INITIAL, m + input[..i]), input[i..i + 64]);
  }

  lemma HeadTail(m: seq<byte>, input: seq<byte>)
    ensures Off(|m|) + |input| < 64 ==> Head(m + input) == Head(m) && Tail(m + input) == Tail(m) + input
    ensures Off(|m|) + |input| >= 64 ==> Off(Off(|m|) + |input|) <= |input|
    ensures Off(|m|) + |input| >= 64 ==> var i := |input| - Off(Off(|m|) + |input|);
      Head(m + input) == m + input[..i] && Tail(m + input) == input[i..]
  {
    hide Off;
    OffSum(|m|, |input|);
    OffSmall(Off(|m|) + |input|);
    OffBelow(Off(|m|) + |input|);
  }

  lemma BufferedCases(b: seq<byte>, index: nat, input: seq<byte>)
    requires |b| == 64 && index < 64
    ensures |input| < 64 - index ==> Buffered(b, index, input) == Spliced(b, index, input) && input[0..] == input
    ensures |input| >= 64 - index ==> Off(index + |input|) <= |input|
    ensures |input| >= 64 - index ==>
      var i := |input| - Off(index + |input|);
        Buffered(b, index, input) == Spliced(b[..index] + input[..64 - index], 0, input[i..])
  {
    hide Off;
    OffBelow(index + |input|);
  }

  /** b with s written over it at k. */
  function Spliced(b: seq<byte>, k: nat, s: seq<byte>): seq<byte>
    requires k + |s| <= |b|
  {
    b[..k] + s + b[k + |s|..]
  }

  method Splice(a: array<byte>, k: nat, s: seq<byte>)
    requires k + |s| <= a.Length
    modifies a
    ensures a[..] == Spliced(old(a[..]), k, s)
  {
    ghost var b := a[..];
    Memcpy(a, k, s);
    assert a[..] == a[..k] + a[k..k + |s|] + a[k + |s|..];
    assert b[..k] == old(a[..k]) && b[k + |s|..] == old(a[k + |s|..]);
  }

  lemma OffOf(m: seq<byte>, input: seq<byte>)
    ensures Off(|m|) + |input| < 64 ==> Off(|m + input|) == Off(|m|) + |input|
    ensures Off(|m + input|) == Off(Off(|m|) + |input|)
  {
    hide Off;
    OffSum(|m|, |input|);
    OffSmall(Off(|m|) + |input|);
  }

  class Hasher {
    var state: State
    // The number of bits so far, modulo 2^64, the low word first.
    var count0: nat
    var count1: nat
    const buffer: array<byte>
    const digest: array<byte>
    var finished: bool
    ghost var message: seq<byte>

    /** Between calls the digest is never taken for finished, since padding the message is an update like any other. */
    ghost predicate Valid()
      reads this, buffer
    {
      Coherent() && !finished
    }

    ghost predicate Coherent()
      reads this, buffer
    {
      && buffer.Length == 64 && digest.Length == 16 && buffer != digest
      && count0 < TWO32 && count1 < TWO32 && count0 + TWO32 * count1 == 8 * |message| % TWO64
      && state == Fold(INITIAL, Head(message))
      && buffer[..Off(|message|)] == Tail(message)
    }

    constructor ()
      ensures Valid() && fresh(this) && fresh(buffer) && fresh(digest) && message == []
    {
      buffer, digest := new byte[64], new byte[16];
      new;
      Reset();
    }

    method Reset()
      requires buffer.Length == 64 && digest.Length == 16 && buffer != digest
      modifies this
      ensures Valid() && message == []
    {
      finished := false;
      count0, count1 := 0, 0;
      state := INITIAL;
      message := [];
    }

    /** Works one block into the state. */
    method Transform(block: seq<byte>)
      requires |block| == 64
      modifies this`state
      ensures state == Transformed(old(state), block)
    {
      hide Words;
      var x := Words(block);
      RoundsNone(state, x);
      hide Rounds;
      var a, b, c, d := Round1(x, state.a, state.b, state.c, state.d, state);
      a, b, c, d := Round2(x, a, b, c, d, state);
      a, b, c, d := Round3(x, a, b, c, d, state);
      a, b, c, d := Round4(x, a, b, c, d, state);
      state := State(Plus(state.a, a), Plus(state.b, b), Plus(state.c, c), Plus(state.d, d));
    }

    /** Adds to the number of bits. */
    method Count(len: nat, ghost n: nat)
      requires count0 < TWO32 && count1 < TWO32 && count0 + TWO32 * count1 == 8 * n % TWO64 && len < TWO32
      modifies this`count0, this`count1
      ensures count0 < TWO32 && count1 < TWO32 && count0 + TWO32 * count1 == 8 * (n + len) % TWO64
    {
      CountAdded(count0, count1, n, len);
      var low := len * 8 % TWO32;
      count0 := (count0 + low) % TWO32;
      if count0 < low { count1 := (count1 + 1) % TWO32; }
      count1 := (count1 + len / 0x2000_0000) % TWO32;
    }

    /** Continues with more of the message. */
    method Update(input: seq<byte>)
      requires Coherent() && |input| <= TWO32 - 64
      modifies this, buffer
      ensures Valid() && message == old(message) + input
      ensures buffer[..] == Buffered(old(buffer[..]), Off(|old(message)|), input)
    {
      hide Fold, Transformed, Off, Head, Tail, Buffered, WordBytes, LengthBytes;
      ghost var b := buffer[..];
      finished := false;
      CountBytes(count0, count1, |message|);
      var index := Off(count0 / 8);
      Count(|input|, |message|);
      var partLen := 64 - index;
      var i: nat := 0;
      HeadTail(message, input);
      BufferedCases(b, index, input);
      if |input| >= partLen {
        i := Blocks(input, index);
        index := 0;
      }
      Splice(buffer, index, input[i..]);
      OffOf(message, input);
      message := message + input;
    }

    /** Fills the buffer and works it and all whole blocks behind it into the state. */
    method Blocks(input: seq<byte>, index: nat) returns (i: nat)
      requires buffer.Length == 64 && index == Off(|message|) && |input| >= 64 - index
      requires state == Fold(INITIAL, Head(message)) && buffer[..index] == Tail(message)
      modifies this`state, buffer
      ensures i == |input| - Off(index + |input|)
      ensures Off(|message| + i) == 0 && state == Fold(INITIAL, message + input[..i])
      ensures buffer[..] == old(buffer[..])[..index] + input[..64 - index]
    {
      hide Fold, Transformed, Off;
      ghost var b := buffer[..];
      var partLen := 64 - index;
      Memcpy(buffer, index, input[..partLen]);
      assert buffer[..] == b[..index] + input[..partLen];
      ghost var filled := buffer[..];
      FoldFirst(message, input);
      Transform(buffer[..]);
      i := partLen;
      while i + 63 < |input|
        invariant partLen <= i <= |input| && Off(|message| + i) == 0 && buffer[..] == filled
        invariant state == Fold(INITIAL, message + input[..i])
        decreases |input| - i
      {
        FoldNext(message, input, i);
        Transform(input[i..i + 64]);
        i := i + 64;
      }
      OffSum(|message|, |input|);
      OffSum(|message| + i, |input| - i);
      OffSmall(|input| - i);
    }

    /** Pads the message and appends its length. */
    method PadAndLength()
      requires Coherent()
      modifies this, buffer
      ensures Valid() && message == Padded(old(message))
      ensures buffer[..] ==
        Buffered(Buffered(old(buffer[..]), Off(|old(message)|), Pad(PadLength(|old(message)|))), 56,
          LengthBytes(|old(message)|))
    {
      hide Fold, Off, Head, Tail, Buffered, LengthBytes, Pad, WordBytes;
      var bits := WordBytes(count0) + WordBytes(count1);
      CountBytes(count0, count1, |message|);
      PadLengthFits(|message|);
      var index := Off(count0 / 8);
      var padLen := if index < 56 then 56 - index else 120 - index;
      Update(Pad(padLen));
      Update(bits);
    }

    /** Pads the message, appends its length, and writes the digest.  Continuing afterwards works from the state and the
        count as they were, but from what padding has left in the buffer. */
    method Final()
      requires Coherent()
      modifies this, buffer, digest
      ensures Valid() && message == Aftermath(old(message)) && digest[..] == Md5Of(old(message))
    {
      hide Fold, Off, Head, Tail, Aftermath, Buffered, LengthBytes, Pad, PadLength, Padded, StateBytes;
      ghost var m := message;
      var oldState, oldCount0, oldCount1 := state, count0, count1;
      ghost var b := buffer[..];
      PadAndLength();
      HeadWhole(Padded(m));
      BufferAfter(m, b, buffer[..]);
      WriteDigest(StateBytes(state));
      Restore(oldState, oldCount0, oldCount1);
      message := Aftermath(m);
    }

    method Restore(s: State, c0: nat, c1: nat)
      modifies this`state, this`count0, this`count1
      ensures state == s && count0 == c0 && count1 == c1
    {
      state, count0, count1 := s, c0, c1;
    }

    method WriteDigest(bytes: seq<byte>)
      requires |bytes| == digest.Length
      modifies digest
      ensures digest[..] == bytes
    {
      for i := 0 to |bytes|
        invariant digest[..i] == bytes[..i]
      {
        digest[i] := bytes[i];
      }
    }

    /** The digest of the message. */
    method GetDigest() returns (r: seq<byte>)
      requires Valid()
      modifies this, buffer, digest
      ensures Valid() && message == Aftermath(old(message)) && r == Md5Of(old(message))
    {
      if !finished {
        finished := true;
        Final();
      }
      r := digest[..];
    }
  }

  /** What two updates with the padding and the length leave in the buffer. */
  lemma BufferAfter(m: seq<byte>, b: seq<byte>, c: seq<byte>)
    requires |b| == 64 && b[..Off(|m|)] == Tail(m)
    requires c == Buffered(Buffered(b, Off(|m|), Pad(PadLength(|m|))), 56, LengthBytes(|m|))
    ensures Head(Aftermath(m)) == Head(m) && c[..Off(|m|)] == Tail(Aftermath(m))
  {
    hide Off, LengthBytes, Buffered, Aftermath, Head, Tail, Pad, Spliced;
    HeadOf(m);
    OffSmall(64);
    if Off(|m|) < 56 { BufferShort(m, b); } else { BufferLong(m, b); }
  }

  lemma BufferShort(m: seq<byte>, b: seq<byte>)
    requires |b| == 64 && Off(|m|) < 56
    ensures Buffered(Buffered(b, Off(|m|), Pad(PadLength(|m|))), 56, LengthBytes(|m|))[..Off(|m|)] == b[..Off(|m|)]
  {
    hide Off, LengthBytes, Buffered;
    var index, pad, bits := Off(|m|), Pad(PadLength(|m|)), LengthBytes(|m|);
    OffSmall(64);
    BufferedCases(b, index, pad);
    var d := Buffered(b, index, pad);
    BufferedCases(d, 56, bits);
    assert bits[8..] == [];
  }

  lemma BufferLong(m: seq<byte>, b: seq<byte>)
    requires |b| == 64 && Off(|m|) >= 56
    ensures Buffered(Buffered(b, Off(|m|), Pad(PadLength(|m|))), 56, LengthBytes(|m|)) == Zeros(56) + LengthBytes(|m|)
  {
    hide Off, LengthBytes, Buffered;
    var index, pad, bits := Off(|m|), Pad(PadLength(|m|)), LengthBytes(|m|);
    OffSmall(64);
    OffBelow(120);
    BufferedCases(b, index, pad);
    assert pad[|pad| - 56..] == Zeros(56);
    var d := Buffered(b, index, pad);
    assert d[..56] == Zeros(56);
    BufferedCases(d, 56, bits);
    assert bits[8..] == [] && bits[..8] == bits;
  }

  lemma HeadWhole(m: seq<byte>)
    requires Off(|m|) == 0
    ensures Head(m) == m
  {
    hide Off;
  }

  lemma HeadOf(m: seq<byte>)
    ensures Head(Aftermath(m)) == Head(m)
    ensures Tail(Aftermath(m)) == if Off(|m|) < 56 then Tail(m) else (Zeros(56) + LengthBytes(|m|))[..Off(|m|)]
  {
    hide Off, LengthBytes;
  }

  /** However a message is cut into pieces, the digest is that of the whole. */
  method HashAll(pieces: seq<seq<byte>>) returns (r: seq<byte>)
    requires forall p <- pieces :: |p| <= TWO32 - 64
    ensures r == Md5Of(Flatten(pieces))
  {
    hide Md5Of, Aftermath;
    var hasher := HasherOf(pieces);
    r := hasher.GetDigest();
  }

  /** An object that has been given the pieces one after the other. */
  method HasherOf(pieces: seq<seq<byte>>) returns (hasher: Hasher)
    requires forall p <- pieces :: |p| <= TWO32 - 64
    ensures fresh(hasher) && fresh(hasher.buffer) && fresh(hasher.digest)
    ensures hasher.Valid() && hasher.message == Flatten(pieces)
  {
    hasher := new Hasher();
    assert pieces[..0] == [];
    for i := 0 to |pieces|
      invariant hasher.Valid() && fresh(hasher) && fresh(hasher.buffer) && fresh(hasher.digest)
      invariant hasher.message == Flatten(pieces[..i])
    {
      FlattenTake(pieces, i);
      hasher.Update(pieces[i]);
    }
    assert pieces[..|pieces|] == pieces;
  }

  /** After its digest has been taken, an object goes on with the same message exactly if padding has not written over
      the end of it, or has written there what was there before. */
  lemma GoesOn(m: seq<byte>)
    ensures Aftermath(m) == m <==> Intact(m)
  {
    hide LengthBytes, Off;
    Parts(m);
    Parts(Aftermath(m));
    HeadOf(m);
  }

  /** The padding does not change the end of the message in the buffer. */
  predicate Intact(m: seq<byte>) {
    Off(|m|) < 56 || Tail(m) == (Zeros(56) + LengthBytes(|m|))[..Off(|m|)]
  }

  /** Takes the digest of a message twice.  The second is that of what the object has gone on with, and so the same if
      the end of the message is intact. */
  method TwoDigests(pieces: seq<seq<byte>>) returns (first: seq<byte>, second: seq<byte>)
    requires forall p <- pieces :: |p| <= TWO32 - 64
    ensures var m := Flatten(pieces);
      first == Md5Of(m) && second == Md5Of(Aftermath(m)) && (Intact(m) ==> first == second)
  {
    hide Md5Of, Aftermath, Intact;
    GoesOn(Flatten(pieces));
    var hasher := HasherOf(pieces);
    first := hasher.GetDigest();
    second := hasher.GetDigest();
  }

  /** Such a message: 56 bytes that are not zero. */
  lemma DigestChanges(m: seq<byte>)
    requires |m| == 56 && m[0] != 0
    ensures !Intact(m) && Aftermath(m) == Zeros(56)
  {
    hide LengthBytes;
    OffSmall(56);
    assert (Zeros(56) + LengthBytes(56))[..56] == Zeros(56);
    assert Head(m) == [];
    assert Zeros(56)[0] == 0;
  }
}
