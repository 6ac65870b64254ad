/** The base64 encoding of byte strings (section 4 of RFC 4648). */
module Base64 {
  import opened Basics
  import opened Bytes

  const BASE64: string := "ABCDEFGHIJKLMNOP" + "QRSTUVWXYZabcdef" + "ghijklmnopqrstuv" + "wxyz0123456789+/"

  type digit = x: int | 0 <= x < 64 witness 0

  /** The character for six bits, and the six bits for a character of the alphabet. */
  function CharOf(d: digit): char {
    if d < 26 then 'A' + d as char
    else if d < 52 then 'a' + (d - 26) as char
    else if d < 62 then '0' + (d - 52) as char
    else if d == 62 then '+' else '/'
  }

  function DigitOf(c: char): digit {
    if 'A' <= c <= 'Z' then (c - 'A') as int
    else if 'a' <= c <= 'z' then (c - 'a') as int + 26
    else if '0' <= c <= '9' then (c - '0') as int + 52
    else if c == '+' then 62 else 63
  }

  predicate InAlphabet(c: char) {
    'A' <= c <= 'Z' || 'a' <= c <= 'z' || '0' <= c <= '9' || c == '+' || c == '/'
  }

  lemma DigitRoundTrip(d: digit)
    ensures InAlphabet(CharOf(d)) && DigitOf(CharOf(d)) == d && CharOf(d) != '='
  {
  }

  lemma CharRoundTrip(c: char)
    requires InAlphabet(c)
    ensures CharOf(DigitOf(c)) == c
  {
  }

  /** The table of the encoder is the alphabet. */
  lemma Table(d: digit)
    ensures |BASE64| == 64 && BASE64[d] == CharOf(d)
  {
    var t1, t2, t3, t4 := "ABCDEFGHIJKLMNOP", "QRSTUVWXYZabcdef", "ghijklmnopqrstuv", "wxyz0123456789+/";
    assert BASE64 == t1 + t2 + t3 + t4;
    if d < 16 { Table1(d); assert BASE64[d] == t1[d]; }
    else if d < 32 { Table2(d - 16); assert BASE64[d] == t2[d - 16]; }
    else if d < 48 { Table3(d - 32); assert BASE64[d] == t3[d - 32]; }
    else { Table4(d - 48); assert BASE64[d] == t4[d - 48]; }
  }

  lemma Table1(i: nat)
    requires i < 16
    ensures "ABCDEFGHIJKLMNOP"[i] == CharOf(i)
  {
    if i < 8 {
      assert i == 0 || i == 1 || i == 2 || i == 3 || i == 4 || i == 5 || i == 6 || i == 7;
    } else {
      assert i == 8 || i == 9 || i == 10 || i == 11 || i == 12 || i == 13 || i == 14 || i == 15;
    }
  }

  lemma Table2(i: nat)
    requires i < 16
    ensures "QRSTUVWXYZabcdef"[i] == CharOf(16 + i)
  {
    if i < 8 {
      assert i == 0 || i == 1 || i == 2 || i == 3 || i == 4 || i == 5 || i == 6 || i == 7;
    } else {
      assert i == 8 || i == 9 || i == 10 || i == 11 || i == 12 || i == 13 || i == 14 || i == 15;
    }
  }

  lemma Table3(i: nat)
    requires i < 16
    ensures "ghijklmnopqrstuv"[i] == CharOf(32 + i)
  {
    if i < 8 {
      assert i == 0 || i == 1 || i == 2 || i == 3 || i == 4 || i == 5 || i == 6 || i == 7;
    } else {
      assert i == 8 || i == 9 || i == 10 || i == 11 || i == 12 || i == 13 || i == 14 || i == 15;
    }
  }

  lemma Table4(i: nat)
    requires i < 16
    ensures "wxyz0123456789+/"[i] == CharOf(48 + i)
  {
    if i < 8 {
      assert i == 0 || i == 1 || i == 2 || i == 3 || i == 4 || i == 5 || i == 6 || i == 7;
    } else {
      assert i == 8 || i == 9 || i == 10 || i == 11 || i == 12 || i == 13 || i == 14 || i == 15;
    }
  }

  /** Up to three bytes as one number, with zeros for those that are missing. */
  function Number(g: seq<byte>): nat
    requires 1 <= |g| <= 3
  {
    var b0: nat, b1: nat, b2: nat := g[0], if |g| > 1 then g[1] else 0, if |g| > 2 then g[2] else 0;
    b0 * 0x1_0000 + b1 * 0x100 + b2
  }

  /** The four groups of six bits of a number of 24. */
  function Sextet(c: nat, k: nat): digit
    requires c < 0x100_0000 && k < 4
  {
    if k == 0 then c / 0x4_0000 else if k == 1 then c / 0x1000 % 64 else if k == 2 then c / 64 % 64 else c % 64
  }

  lemma NumberBound(g: seq<byte>)
    requires 1 <= |g| <= 3
    ensures Number(g) < 0x100_0000
  {
  }

  /** The characters for up to three bytes, padded to four. */
  function Group(g: seq<byte>): (s: string)
    requires 1 <= |g| <= 3
    ensures |s| == 4
  {
    NumberBound(g);
    var c := Number(g);
    [CharOf(Sextet(c, 0)), CharOf(Sextet(c, 1)),
     if |g| > 1 then CharOf(Sextet(c, 2)) else '=', if |g| > 2 then CharOf(Sextet(c, 3)) else '=']
  }

  /** The first group of a string that is split into groups of n. */
  function First<T>(s: seq<T>, n: nat): (f: seq<T>)
    ensures |f| == if |s| < n then |s| else n
  {
    if |s| < n then s else s[..n]
  }

  function After<T>(s: seq<T>, n: nat): (r: seq<T>)
    ensures |r| == if |s| < n then 0 else |s| - n
  {
    if |s| < n then [] else s[n..]
  }

  function Encoded(x: seq<byte>): string
    decreases |x|
  {
    if x == [] then "" else Group(First(x, 3)) + Encoded(After(x, 3))
  }

  /** Up to four groups of six bits as one number of 24, with zeros for those that are missing. */
  function Joined(ds: seq<digit>): nat
    requires 1 <= |ds| <= 4
  {
    var d0: nat, d1: nat, d2: nat, d3: nat :=
      ds[0], if |ds| > 1 then ds[1] else 0, if |ds| > 2 then ds[2] else 0, if |ds| > 3 then ds[3] else 0;
    d0 * 0x4_0000 + d1 * 0x1000 + d2 * 64 + d3
  }

  /** The bytes the decoder stores for up to four characters: one for each, but at most three. */
  function Stored(ds: seq<digit>): (g: seq<byte>)
    requires 1 <= |ds| <= 4
    ensures |g| == if |ds| < 3 then |ds| else 3
  {
    var v := Joined(ds);
    First([v / 0x1_0000 % 256, v / 0x100 % 256, v % 256], |ds|)
  }

  /** All the bytes the decoder stores. */
  function Decoded(ds: seq<digit>): seq<byte>
    decreases |ds|
  {
    if ds == [] then [] else Stored(First(ds, 4)) + Decoded(After(ds, 4))
  }

  function Digits(s: string): (ds: seq<digit>)
    ensures |ds| == |s|
  {
    seq(|s|, i requires 0 <= i < |s| => DigitOf(s[i]))
  }

  lemma SextetsJoin(c: nat)
    requires c < 0x100_0000
    ensures c == Sextet(c, 0) * 0x4_0000 + Sextet(c, 1) * 0x1000 + Sextet(c, 2) * 64 + Sextet(c, 3)
  {
    var q1 := c / 64;
    var q2 := q1 / 64;
    assert c / 0x1000 == q2 && c / 0x4_0000 == q2 / 64;
  }

  /** A byte that is not there leaves its groups of six bits empty. */
  lemma SextetsShort(g: seq<byte>)
    requires 1 <= |g| <= 3
    ensures Number(g) < 0x100_0000
    ensures |g| == 1 ==> Sextet(Number(g), 2) == 0 && Sextet(Number(g), 3) == 0
    ensures |g| == 2 ==> Sextet(Number(g), 3) == 0
  {
    var b0: nat, b1: nat := g[0], if |g| > 1 then g[1] else 0;
    var c := Number(g);
    if |g| == 1 {
      assert c == 64 * (64 * (16 * b0)) && c / 64 == 64 * (16 * b0);
    } else if |g| == 2 {
      assert c == 64 * (1024 * b0 + 4 * b1);
    }
  }

  lemma ThreeBytes(b0: nat, b1: nat, b2: nat)
    requires b0 < 256 && b1 < 256 && b2 < 256
    ensures var c := b0 * 0x1_0000 + b1 * 0x100 + b2; c / 0x1_0000 % 256 == b0 && c / 0x100 % 256 == b1 && c % 256 == b2
  {
    var c := b0 * 0x1_0000 + b1 * 0x100 + b2;
    assert c == 256 * (b0 * 256 + b1) + b2;
    assert c / 0x100 == b0 * 256 + b1;
  }

  lemma NumberBytes(g: seq<byte>)
    requires 1 <= |g| <= 3
    ensures First([Number(g) / 0x1_0000 % 256, Number(g) / 0x100 % 256, Number(g) % 256], |g|) == g
    ensures |g| == 1 ==> Number(g) / 0x100 % 256 == 0
    ensures |g| == 2 ==> Number(g) % 256 == 0
  {
    ThreeBytes(g[0], if |g| > 1 then g[1] else 0, if |g| > 2 then g[2] else 0);
  }

  /** What the decoder stores for a group: its bytes, and one zero more if the group is padded. */
  lemma GroupRoundTrip(g: seq<byte>)
    requires 1 <= |g| <= 3
    ensures Stored(Digits(Group(g)[..|g| + 1])) == g + (if |g| < 3 then [0] else [])
  {
    NumberBound(g);
    var c := Number(g);
    var ds := Digits(Group(g)[..|g| + 1]);
    SextetsJoin(c);
    SextetsShort(g);
    NumberBytes(g);
    DigitRoundTrip(Sextet(c, 0));
    DigitRoundTrip(Sextet(c, 1));
    DigitRoundTrip(Sextet(c, 2));
    DigitRoundTrip(Sextet(c, 3));
    hide Sextet, CharOf, DigitOf, Number;
    assert Joined(ds) == c;
  }

  /** How many characters at the end of an encoding are padding. */
  function Padding(n: nat): nat {
    (3 - n % 3) % 3
  }

  lemma {:induction false} EncodedLength(x: seq<byte>)
    ensures |Encoded(x)| == (|x| + 2) / 3 * 4
    ensures x != [] ==> Padding(|x|) < 3 <= |Encoded(x)|
    decreases |x|
  {
    hide Group;
    if x != [] { EncodedLength(After(x, 3)); }
  }

  /** An encoding without its padding. */
  function Stripped(x: seq<byte>): string {
    EncodedLength(x);
    if x == [] then "" else Encoded(x)[..|Encoded(x)| - Padding(|x|)]
  }

  lemma FirstAfter<T>(s: seq<T>, n: nat)
    ensures s == First(s, n) + After(s, n)
    ensures |s| <= n ==> First(s, n) == s && After(s, n) == []
  {
  }

  lemma PaddingNext(n: nat)
    ensures n >= 3 ==> Padding(n - 3) == Padding(n)
    ensures Padding(n) < 3 && (0 < n <= 3 ==> Padding(n) == 3 - n)
  {
  }

  lemma StrippedNext(x: seq<byte>)
    requires x != []
    ensures Stripped(x) == if |x| <= 3 then Group(x)[..|x| + 1] else Group(First(x, 3)) + Stripped(After(x, 3))
  {
    hide Group, First, After, Padding;
    FirstAfter(x, 3);
    EncodedLength(x);
    EncodedLength(After(x, 3));
    PaddingNext(|x|);
    EncodedNone();
  }

  lemma DigitsConcat(s: string, t: string)
    ensures Digits(s + t) == Digits(s) + Digits(t)
  {
  }

  /** Decoding an encoding gives the bytes back, and one zero more if there is padding. */
  lemma {:induction false} RoundTrip(x: seq<byte>)
    ensures Decoded(Digits(Stripped(x))) == x + (if |x| % 3 == 0 then [] else [0])
    decreases |x|
  {
    hide Group, Stored, Stripped, Digits, Padding, Decoded, First, After;
    if x == [] {
      StrippedNone();
    } else {
      StrippedNext(x);
      if |x| <= 3 {
        GroupRoundTrip(x);
        DecodedShort(Digits(Group(x)[..|x| + 1]));
      } else {
        var g, rest := First(x, 3), After(x, 3);
        FirstAfter(x, 3);
        DigitsConcat(Group(g), Stripped(rest));
        GroupRoundTrip(g);
        assert Group(g)[..4] == Group(g);
        RoundTrip(rest);
        DecodedNext(Digits(Group(g)), Digits(Stripped(rest)));
      }
    }
  }

  lemma StrippedNone()
    ensures Stripped([]) == "" && Digits("") == [] && Decoded([]) == []
  {
  }

  lemma DecodedShort(ds: seq<digit>)
    requires 1 <= |ds| <= 4
    ensures Decoded(ds) == Stored(ds)
  {
    assert First(ds, 4) == ds && Decoded(After(ds, 4)) == [];
  }

  lemma DecodedNext(ds: seq<digit>, rest: seq<digit>)
    requires |ds| == 4
    ensures Decoded(ds + rest) == Stored(ds) + Decoded(rest)
  {
    assert First(ds + rest, 4) == ds && After(ds + rest, 4) == rest;
  }

  /** How many bytes the decoder stores for n characters. */
  function Written(n: nat): nat {
    n / 4 * 3 + (if n % 4 < 3 then n % 4 else 3)
  }

  lemma {:induction false} DecodedLength(ds: seq<digit>)
    ensures |Decoded(ds)| == Written(|ds|)
    decreases |ds|
  {
    if ds != [] { DecodedLength(After(ds, 4)); }
  }

  /** How many of the last three characters are padding. */
  function EqualCount(s: string): nat
    requires |s| >= 3
  {
    (if s[|s| - 1] == '=' then 1 else 0) + (if s[|s| - 2] == '=' then 1 else 0) + (if s[|s| - 3] == '=' then 1 else 0)
  }

  /** What the decoder allocates. */
  function Allocated(size: nat, equalCount: nat): int {
    size / 4 * 3 - equalCount + 1
  }

  predicate Room(size: nat, equalCount: nat) {
    size % 4 == 0 || (size % 4 == 1 && equalCount <= 1)
  }

  /** The decoder asks for a negative number of bytes, which as an unsigned number is more than there are. */
  predicate Refused(size: nat, equalCount: nat) {
    size == 3 && equalCount >= 2
  }

  /** The decoder's memory holds all it stores exactly if the string has a whole number of groups, or one character more
      and at most one of padding. */
  lemma AllocationFits(size: nat, equalCount: nat)
    requires equalCount <= 3 <= size
    ensures Written(size - equalCount) <= Allocated(size, equalCount) <==> Room(size, equalCount)
    ensures Room(size, equalCount) ==> Allocated(size, equalCount) > 0
    ensures Allocated(size, equalCount) < 0 <==> Refused(size, equalCount)
  {
    var q, r := size / 4, size % 4;
    assert size == 4 * q + r;
    var n := size - equalCount;
    assert n == if r >= equalCount then 4 * q + (r - equalCount) else 4 * (q - 1) + (4 + r - equalCount);
    if r >= equalCount {
      assert n / 4 == q && n % 4 == r - equalCount;
    } else {
      assert n / 4 == q - 1 && n % 4 == 4 + r - equalCount;
    }
  }

  lemma GroupPadding(g: seq<byte>)
    requires 1 <= |g| <= 3
    ensures EqualCount(Group(g)) == Padding(|g|)
  {
    hide CharOf, Sextet, Number;
    NumberBound(g);
    var c := Number(g);
    DigitRoundTrip(Sextet(c, 1));
    DigitRoundTrip(Sextet(c, 2));
    DigitRoundTrip(Sextet(c, 3));
  }

  lemma CountOfSuffix(s: string, t: string)
    requires |t| >= 3
    ensures EqualCount(s + t) == EqualCount(t)
  {
  }

  /** The padding of an encoding is what the decoder counts. */
  lemma {:induction false} PaddingCounted(x: seq<byte>)
    requires x != []
    ensures |Encoded(x)| >= 3 && EqualCount(Encoded(x)) == Padding(|x|)
    decreases |x|
  {
    hide Group, EqualCount, First, After, Padding;
    EncodedLength(x);
    EncodedNone();
    FirstAfter(x, 3);
    PaddingNext(|x|);
    if |x| <= 3 {
      assert Encoded(x) == Group(x);
      GroupPadding(x);
    } else {
      PaddingCounted(After(x, 3));
      CountOfSuffix(Group(First(x, 3)), Encoded(After(x, 3)));
    }
  }

  method FindPos(ch: char) returns (pos: digit)
    requires InAlphabet(ch)
    ensures pos == DigitOf(ch)
  {
    var n := 63;
    Table(63);
    while n > 0 && BASE64[n] != ch
      invariant 0 <= n < 64 && DigitOf(ch) <= n
    {
      Table(n);
      if DigitOf(ch) == n { CharRoundTrip(ch); }
      n := n - 1;
      Table(n);
    }
    Table(n);
    DigitRoundTrip(n);
    pos := n;
  }

  /** Writes the four characters for the bytes at i at str[p]. */
  method PutGroup(str: array<char>, p: nat, x: seq<byte>, at: nat)
    requires at < |x| && p + 4 <= str.Length
    modifies str
    ensures str[..p + 4] == old(str[..p]) + Group(First(x[at..], 3))
  {
    hide CharOf;
    ghost var g, was := First(x[at..], 3), str[..p];
    var i: nat, c: nat := at, x[at];
    i := i + 1;
    c := c * 256;
    if i < |x| { c := c + x[i]; }
    i := i + 1;
    c := c * 256;
    if i < |x| { c := c + x[i]; }
    i := i + 1;
    NumberBound(g);
    assert c == Number(g);
    hide Number;
    Table(Sextet(c, 0));
    Table(Sextet(c, 1));
    Table(Sextet(c, 2));
    Table(Sextet(c, 3));
    str[p] := BASE64[c / 0x4_0000];
    str[p + 1] := BASE64[c / 0x1000 % 64];
    str[p + 2] := BASE64[c / 64 % 64];
    str[p + 3] := BASE64[c % 64];
    if i > |x| { str[p + 3] := '='; }
    if i > |x| + 1 { str[p + 2] := '='; }
    assert str[..p + 4] == was + [str[p], str[p + 1], str[p + 2], str[p + 3]];
  }

  const ENCODE_MAX: nat := 0x1FFF_FFFF

  /** A number that has wrapped around to a signed one of 32 bits. */
  function Int32(x: int): (r: int)
    ensures -0x8000_0000 <= r <= INT_MAX && (r == x % 0x1_0000_0000 || r == x % 0x1_0000_0000 - 0x1_0000_0000)
  {
    var u := x % 0x1_0000_0000;
    if u <= INT_MAX then u else u - 0x1_0000_0000
  }

  /** Division that rounds towards zero. */
  function Divided(x: int, y: int): (q: int)
    requires y > 0
    ensures if x >= 0 then q * y <= x < (q + 1) * y else (q - 1) * y < x <= q * y
  {
    if x >= 0 then x / y else -(-x / y)
  }

  /** What the encoder asks for, in the arithmetic of the machine. */
  function EncoderAllocates(size: nat): int {
    Divided(Int32(size * 4), 3) + 4
  }

  /** How many bytes the encoder writes for so many bytes, with the zero behind them. */
  function EncoderWrites(size: nat): nat {
    (size + 2) / 3 * 4 + 1
  }

  /** The request has wrapped around to a negative number, which as an unsigned one is more than there is. */
  predicate EncoderRefused(size: nat) {
    0x2000_0000 <= size % 0x4000_0000 <= 0x3FFF_FFFC
  }

  /** The encoder's memory holds all it writes exactly up to 2^29 - 1 bytes; of the longer inputs some are refused. */
  lemma EncoderFits(size: nat)
    requires size <= INT_MAX
    ensures EncoderWrites(size) <= EncoderAllocates(size) <==> size <= ENCODE_MAX
    ensures EncoderAllocates(size) < 0 <==> EncoderRefused(size)
  {
    var k := size / 0x2000_0000;
    var rest := size % 0x2000_0000;
    assert size == k * 0x2000_0000 + rest && k < 4;
    assert Int32(size * 4) == if k % 2 == 0 then 4 * rest else 4 * rest - 0x8000_0000;
    assert size % 0x4000_0000 == if k % 2 == 0 then rest else 0x2000_0000 + rest;
  }

  /** For 2^30 bytes the encoder asks for four, and writes more than 2^30. */
  lemma EncoderOverflows()
    ensures EncoderAllocates(0x4000_0000) == 4 && EncoderWrites(0x4000_0000) > 0x4000_0000
  {
    assert 0x4000_0000 * 4 == 0x1_0000_0000;
    EncoderFits(0x4000_0000);
  }

  /** Encodes bytes into memory of its own, with a zero behind them; fails if there is no memory. */
  method Encode(x: seq<byte>, oom: bool) returns (r: int, str: array<char>)
    requires |x| <= ENCODE_MAX || (|x| <= INT_MAX && EncoderRefused(|x|))
    ensures oom || |x| > ENCODE_MAX <==> r == -1
    ensures r != -1 ==> r == |Encoded(x)| < str.Length && str[..r] == Encoded(x) && str[r] == '\0'
    ensures r != -1 ==> fresh(str) && str.Length == EncoderAllocates(|x|)
    ensures r == -1 ==> str.Length == 0
  {
    hide Encoded, Group, EncoderAllocates, EncoderRefused, EncoderWrites;
    EncoderFits(|x|);
    var len := EncoderAllocates(|x|);
    if oom || len < 0 {
      str := new char[0];
      return -1, str;
    }
    EncodedSize(x);
    str := new char[len](_ => '\0');
    var i: nat, p: nat := 0, 0;
    assert x[0..] == x;
    EncodedNone();
    while i < |x|
      invariant p + |Encoded(After(x, i))| == |Encoded(x)| && p <= str.Length
      invariant str[..p] + Encoded(After(x, i)) == Encoded(x)
      decreases |x| - i
    {
      EncodedTurn(x, i);
      ghost var was := str[..p];
      PutGroup(str, p, x, i);
      assert was + (Group(First(x[i..], 3)) + Encoded(After(x, i + 3))) == str[..p + 4] + Encoded(After(x, i + 3));
      i := i + 3;
      p := p + 4;
    }
    str[p] := '\0';
    r := p;
  }

  lemma EncodedSize(x: seq<byte>)
    ensures |Encoded(x)| + 1 == EncoderWrites(|x|)
  {
    hide Encoded;
    EncodedLength(x);
  }

  lemma EncodedNone()
    ensures Encoded([]) == ""
  {
  }

  lemma EncodedTurn(x: seq<byte>, i: nat)
    requires i < |x|
    ensures After(x, i) == x[i..] && Encoded(After(x, i)) == Group(First(x[i..], 3)) + Encoded(After(x, i + 3))
  {
    hide Group;
    assert After(x[i..], 3) == After(x, i + 3);
  }

  /** The first k of some groups of six bits as one number. */
  function Partial(ds: seq<digit>, k: nat): nat
    requires k <= |ds|
  {
    if k == 0 then 0 else Partial(ds, k - 1) * 64 + ds[k - 1]
  }

  function Shift(n: nat): nat
    requires n <= 4
  {
    if n == 4 then 1 else if n == 3 then 64 else if n == 2 then 0x1000 else if n == 1 then 0x4_0000 else 0x100_0000
  }

  lemma PartialJoined(ds: seq<digit>)
    requires 1 <= |ds| <= 4
    ensures Partial(ds, |ds|) * Shift(|ds|) == Joined(ds) < 0x100_0000
  {
    var d0: nat := ds[0];
    assert Partial(ds, 0) == 0 && Partial(ds, 1) == d0;
    if |ds| >= 2 {
      var d1: nat := ds[1];
      assert Partial(ds, 2) == d0 * 64 + d1;
      if |ds| >= 3 {
        var d2: nat := ds[2];
        assert Partial(ds, 3) == d0 * 0x1000 + d1 * 64 + d2;
      }
    }
  }

  /** Reads up to four characters. */
  method Gather(s: string, at: nat) returns (next: nat, prepare: nat)
    requires at < |s| && forall c <- s :: InAlphabet(c)
    ensures var g := First(Digits(s)[at..], 4); next == at + |g| && prepare == Joined(g)
  {
    hide DigitOf, Joined, Shift;
    ghost var g := First(Digits(s)[at..], 4);
    prepare := 0;
    var temp: nat, tmp: nat := 0, at;
    while temp < 4
      invariant temp <= |g| && tmp == at + temp && prepare == Partial(g, temp)
    {
      if tmp >= |s| { break; }
      assert s[tmp] in s && g[temp] == DigitOf(s[tmp]);
      var pos := FindPos(s[tmp]);
      prepare := prepare * 64 + pos;
      temp := temp + 1;
      tmp := tmp + 1;
    }
    PartialJoined(g);
    prepare := prepare * Shift(temp);
    next := tmp;
  }

  /** Stores up to three bytes at outbuf[f]. */
  method Store(outbuf: array<byte>, f: nat, prepare: nat, temp: nat, ghost g: seq<digit>) returns (end: nat)
    requires 1 <= |g| <= 4 && temp == |g| && prepare == Joined(g) && f + |Stored(g)| <= outbuf.Length
    modifies outbuf
    ensures end == f + |Stored(g)| && outbuf[..end] == old(outbuf[..f]) + Stored(g)
    ensures forall k | end <= k < outbuf.Length :: outbuf[k] == old(outbuf[k])
  {
    hide Joined;
    ghost var was := outbuf[..f];
    assert Stored(g)[..0] == [];
    end := f;
    for i := 0 to 3
      invariant i <= |Stored(g)| && end == f + i && outbuf[..end] == was + Stored(g)[..i]
      invariant forall k | end <= k < outbuf.Length :: outbuf[k] == old(outbuf[k])
    {
      if i == temp { break; }
      var b := if i == 0 then prepare / 0x1_0000 % 256 else if i == 1 then prepare / 0x100 % 256 else prepare % 256;
      assert Stored(g)[i] == b;
      outbuf[end] := b;
      end := end + 1;
      assert outbuf[..end] == was + Stored(g)[..i] + [b];
      assert Stored(g)[..i + 1] == Stored(g)[..i] + [b];
    }
    assert Stored(g)[..|Stored(g)|] == Stored(g);
  }

  lemma Regrouped(a: seq<byte>, b: seq<byte>, c: seq<byte>)
    ensures a + (b + c) == (a + b) + c
  {
  }

  lemma DecodedNone()
    ensures Decoded([]) == []
  {
  }

  lemma AfterNone(ds: seq<digit>)
    ensures After(ds, 0) == ds && After(ds, |ds|) == []
  {
  }

  lemma DecodedTurn(ds: seq<digit>, i: nat)
    requires i < |ds|
    ensures After(ds, i) == ds[i..] && Decoded(After(ds, i)) == Stored(First(ds[i..], 4)) + Decoded(After(ds, i + 4))
    ensures |ds[i..]| < 4 ==> After(ds, i + |ds[i..]|) == After(ds, i + 4)
  {
    hide Stored;
    assert After(ds[i..], 4) == After(ds, i + 4);
  }

  /** Decodes a string into memory of its own; fails if there is no memory. */
  method Decode(str: string, oom: bool) returns (r: int, outbuf: array<byte>)
    requires |str| >= 3 && (Room(|str|, EqualCount(str)) || Refused(|str|, EqualCount(str)))
    requires forall c <- str[..|str| - EqualCount(str)] :: InAlphabet(c)
    ensures oom || Refused(|str|, EqualCount(str)) <==> r == -1
    ensures r != -1 ==> r == Allocated(|str|, EqualCount(str)) - 1 && r + 1 == outbuf.Length
    ensures r != -1 ==> var d := Decoded(Digits(str[..|str| - EqualCount(str)]));
      |d| <= outbuf.Length && outbuf[..|d|] == d && forall k | |d| <= k < outbuf.Length :: outbuf[k] == 0
    ensures r == -1 ==> outbuf.Length == 0
  {
    hide Room, Refused, Decoded, InAlphabet, Digits, Written;
    var size := |str|;
    var equalCount := 0;
    if str[size - 1] == '=' { equalCount := equalCount + 1; }
    if str[size - 2] == '=' { equalCount := equalCount + 1; }
    if str[size - 3] == '=' { equalCount := equalCount + 1; }
    AllocationFits(size, equalCount);
    var len := size / 4 * 3 - equalCount + 1;
    if oom || len < 0 {
      outbuf := new byte[0];
      return -1, outbuf;
    }
    outbuf := new byte[len](_ => 0);
    DecodedLength(Digits(str[..size - equalCount]));
    DecodeInto(outbuf, str[..size - equalCount]);
    r := len - 1;
  }

  method DecodeInto(outbuf: array<byte>, s: string)
    requires |Decoded(Digits(s))| <= outbuf.Length && forall c <- s :: InAlphabet(c)
    modifies outbuf
    ensures var d := Decoded(Digits(s));
      outbuf[..|d|] == d && forall k | |d| <= k < outbuf.Length :: outbuf[k] == old(outbuf[k])
  {
    hide Decoded, Stored, InAlphabet, Joined, After, First;
    var tmp: nat, f: nat := 0, 0;
    ghost var ds := Digits(s);
    AfterNone(ds);
    while tmp < |s|
      invariant tmp <= |ds| && f <= outbuf.Length && forall k | f <= k < outbuf.Length :: outbuf[k] == old(outbuf[k])
      invariant outbuf[..f] + Decoded(After(ds, tmp)) == Decoded(ds)
      decreases |ds| - tmp
    {
      DecodedTurn(ds, tmp);
      ghost var was := outbuf[..f];
      var next, prepare := Gather(s, tmp);
      f := Store(outbuf, f, prepare, next - tmp, First(ds[tmp..], 4));
      Regrouped(was, Stored(First(ds[tmp..], 4)), Decoded(After(ds, tmp + 4)));
      tmp := next;
    }
    DecodedNone();
  }

  /** What has been encoded is decoded to exactly the same bytes. */
  method EncodeThenDecode(x: seq<byte>) returns (y: seq<byte>)
    requires x != [] && |x| <= ENCODE_MAX
    ensures y == x
  {
    hide Encoded, Decoded, Room, EncoderRefused;
    var n, str := Encode(x, false);
    EncodedLength(x);
    PaddingCounted(x);
    StrippedAlphabet(x);
    EncodedRoom(x);
    RoundTrip(x);
    var len, outbuf := Decode(str[..n], false);
    y := outbuf[..len];
    assert outbuf[..len] == Decoded(Digits(Stripped(x)))[..len];
  }

  lemma EncodedRoom(x: seq<byte>)
    requires x != []
    ensures Room(|Encoded(x)|, Padding(|x|)) && Allocated(|Encoded(x)|, Padding(|x|)) - 1 == |x|
  {
    hide Encoded;
    EncodedLength(x);
  }

  lemma {:induction false} StrippedAlphabet(x: seq<byte>)
    ensures forall c <- Stripped(x) :: InAlphabet(c)
    decreases |x|
  {
    hide Stripped, Group, InAlphabet, First, After;
    if x == [] {
      StrippedNone();
    } else {
      StrippedNext(x);
      if |x| <= 3 {
        GroupAlphabet(x);
      } else {
        GroupAlphabet(First(x, 3));
        assert Group(First(x, 3))[..4] == Group(First(x, 3));
        StrippedAlphabet(After(x, 3));
      }
    }
  }

  lemma GroupAlphabet(g: seq<byte>)
    requires 1 <= |g| <= 3
    ensures forall c <- Group(g)[..|g| + 1] :: InAlphabet(c)
  {
    hide Sextet, Number, CharOf;
    NumberBound(g);
    var c := Number(g);
    DigitRoundTrip(Sextet(c, 0));
    DigitRoundTrip(Sextet(c, 1));
    DigitRoundTrip(Sextet(c, 2));
    DigitRoundTrip(Sextet(c, 3));
  }
}
