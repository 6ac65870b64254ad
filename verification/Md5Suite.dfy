/** The digest that section A.5 of RFC 1321 gives for the message "abc", computed step by step. */
module Md5Suite {
  import opened Basics
  import opened Bytes
  import opened Md5

  /** F takes each bit from y or from z, as x says; G does the same with the words in other roles. */
  lemma BitsChosen(x: bv32, y: bv32, z: bv32)
    ensures F(x, y, z) & x == y & x && F(x, y, z) & !x == z & !x
    ensures G(x, y, z) == F(z, x, y)
  {
  }

  const ABC: seq<byte> := [0x61, 0x62, 0x63]

  /** The only block of the padded message. */
  const BLOCK: seq<word> := [0x80636261, 0, 0, 0, 0, 0, 0, 0, 0, 0, 0, 0, 0, 0, 24, 0]

  lemma BackAndForth(v: bv32)
    ensures (v as int) as bv32 == v
  {
  }

  /** One step with the mixed bits f, by way of the sum v and of the rotated sum w. */
  lemma TurnIs(f: bv32, a: word, b: word, x: word, s: amount, ac: word, v: bv32, w: bv32, e: word)
    requires (a + f as int + x + ac) % TWO32 == v as int && Rotated(v, s) == w && (w as int + b) % TWO32 == e
    ensures Turn(f, a, b, x, s, ac) == e
  {
    hide Rotated;
    BackAndForth(v);
  }

  lemma FIs(a: word, b: bv32, c: bv32, d: bv32, x: word, s: amount, ac: word, v: bv32, w: bv32, e: word)
    requires (a + F(b, c, d) as int + x + ac) % TWO32 == v as int
    requires Rotated(v, s) == w && (w as int + b as int) % TWO32 == e
    ensures FF(a, b as int, c as int, d as int, x, s, ac) == e
  {
    hide Rotated, F, Turn;
    BackAndForth(b);
    BackAndForth(c);
    BackAndForth(d);
    TurnIs(F(b, c, d), a, b as int, x, s, ac, v, w, e);
  }

  lemma GIs(a: word, b: bv32, c: bv32, d: bv32, x: word, s: amount, ac: word, v: bv32, w: bv32, e: word)
    requires (a + G(b, c, d) as int + x + ac) % TWO32 == v as int
    requires Rotated(v, s) == w && (w as int + b as int) % TWO32 == e
    ensures GG(a, b as int, c as int, d as int, x, s, ac) == e
  {
    hide Rotated, G, Turn;
    BackAndForth(b);
    BackAndForth(c);
    BackAndForth(d);
    TurnIs(G(b, c, d), a, b as int, x, s, ac, v, w, e);
  }

  lemma HIs(a: word, b: bv32, c: bv32, d: bv32, x: word, s: amount, ac: word, v: bv32, w: bv32, e: word)
    requires (a + H(b, c, d) as int + x + ac) % TWO32 == v as int
    requires Rotated(v, s) == w && (w as int + b as int) % TWO32 == e
    ensures HH(a, b as int, c as int, d as int, x, s, ac) == e
  {
    hide Rotated, H, Turn;
    BackAndForth(b);
    BackAndForth(c);
    BackAndForth(d);
    TurnIs(H(b, c, d), a, b as int, x, s, ac, v, w, e);
  }

  lemma IIs(a: word, b: bv32, c: bv32, d: bv32, x: word, s: amount, ac: word, v: bv32, w: bv32, e: word)
    requires (a + I(b, c, d) as int + x + ac) % TWO32 == v as int
    requires Rotated(v, s) == w && (w as int + b as int) % TWO32 == e
    ensures II(a, b as int, c as int, d as int, x, s, ac) == e
  {
    hide Rotated, I, Turn;
    BackAndForth(b);
    BackAndForth(c);
    BackAndForth(d);
    TurnIs(I(b, c, d), a, b as int, x, s, ac, v, w, e);
  }

  lemma Steps0To4()
    requires Rounds(INITIAL, BLOCK, 0) == State(0x67452301, 0xefcdab89, 0x98badcfe, 0x10325476)
    ensures Rounds(INITIAL, BLOCK, 4) == State(0xd6d117b4, 0x7ad956f2, 0x2f6fbd72, 0x344a8432)
  {
    hide Rounds, FF, GG, HH, II;
    FIs(0x67452301, 0xefcdab89, 0x98badcfe, 0x10325476, 0x80636261, 7, 0xd76aa478, 0x57ce06d8, 0xe7036c2b, 0xd6d117b4);
    FIs(0x10325476, 0xd6d117b4, 0xefcdab89, 0x98badcfe, 0, 12, 0xe8c7b756, 0xc7e5d796, 0x5d796c7e, 0x344a8432);
    FIs(0x98badcfe, 0x344a8432, 0xd6d117b4, 0xefcdab89, 0, 17, 0x242070db, 0x9ca07d92, 0xfb253940, 0x2f6fbd72);
    FIs(0xefcdab89, 0x2f6fbd72, 0x344a8432, 0xd6d117b4, 0, 22, 0xc1bdceee, 0xa666012d, 0x4b699980, 0x7ad956f2);
    FourSteps(INITIAL, BLOCK, 0);
  }

  lemma Steps4To8()
    requires Rounds(INITIAL, BLOCK, 4) == State(0xd6d117b4, 0x7ad956f2, 0x2f6fbd72, 0x344a8432)
    ensures Rounds(INITIAL, BLOCK, 8) == State(0xc73741ef, 0x928d99f6, 0x207dc67b, 0x8bac3051)
  {
    hide Rounds, FF, GG, HH, II;
    FIs(0xd6d117b4, 0x7ad956f2, 0x2f6fbd72, 0x344a8432, 0, 7, 0xf57c0faf, 0xfa98bbd5, 0x4c5deafd, 0xc73741ef);
    FIs(0x344a8432, 0xc73741ef, 0x7ad956f2, 0x2f6fbd72, 0, 12, 0x4787c62a, 0xe62c474e, 0xc474ee62, 0x8bac3051);
    FIs(0x2f6fbd72, 0x8bac3051, 0xc73741ef, 0x7ad956f2, 0, 17, 0xa8304613, 0xcb154a68, 0x94d1962a, 0x207dc67b);
    FIs(0x7ad956f2, 0x207dc67b, 0x8bac3051, 0xc73741ef, 0, 22, 0xfd469501, 0x3f4dedc8, 0x720fd37b, 0x928d99f6);
    FourSteps(INITIAL, BLOCK, 4);
  }

  lemma Steps8To12()
    requires Rounds(INITIAL, BLOCK, 8) == State(0xc73741ef, 0x928d99f6, 0x207dc67b, 0x8bac3051)
    ensures Rounds(INITIAL, BLOCK, 12) == State(0x854b3712, 0x5ed49596, 0x3020401c, 0x74e2f284)
  {
    hide Rounds, FF, GG, HH, II;
    FIs(0xc73741ef, 0x928d99f6, 0x207dc67b, 0x8bac3051, 0, 7, 0x698098d8, 0x39e57b3a, 0xf2bd9d1c, 0x854b3712);
    FIs(0x8bac3051, 0x854b3712, 0x928d99f6, 0x207dc67b, 0, 12, 0x8b44f7af, 0xb72ef97b, 0xef97bb72, 0x74e2f284);
    FIs(0x207dc67b, 0x74e2f284, 0x854b3712, 0x928d99f6, 0, 17, 0xffff5bb1, 0xa6cc5d9e, 0xbb3d4d98, 0x3020401c);
    FIs(0x928d99f6, 0x3020401c, 0x74e2f284, 0x854b3712, 0, 22, 0x895cd7be, 0xd155e8ba, 0x2eb4557a, 0x5ed49596);
    FourSteps(INITIAL, BLOCK, 8);
  }

  lemma Steps12To16()
    requires Rounds(INITIAL, BLOCK, 12) == State(0x854b3712, 0x5ed49596, 0x3020401c, 0x74e2f284)
    ensures Rounds(INITIAL, BLOCK, 16) == State(0xdda9b9a6, 0x72aff2e0, 0xe396856b, 0xa1051895)
  {
    hide Rounds, FF, GG, HH, II;
    FIs(0x854b3712, 0x5ed49596, 0x3020401c, 0x74e2f284, 0, 7, 0x6b901122, 0x20fdaa48, 0x7ed52410, 0xdda9b9a6);
    FIs(0x74e2f284, 0xdda9b9a6, 0x5ed49596, 0x3020401c, 0, 12, 0xfd987193, 0xeefc35b5, 0xc35b5eef, 0xa1051895);
    FIs(0x3020401c, 0xa1051895, 0xdda9b9a6, 0x5ed49596, 24, 17, 0xa679438e, 0xb66b2148, 0x42916cd6, 0xe396856b);
    FIs(0x5ed49596, 0xe396856b, 0xa1051895, 0xdda9b9a6, 0, 22, 0x49b40821, 0x65b5d63c, 0x8f196d75, 0x72aff2e0);
    FourSteps(INITIAL, BLOCK, 12);
  }

  lemma Steps16To20()
    requires Rounds(INITIAL, BLOCK, 16) == State(0xdda9b9a6, 0x72aff2e0, 0xe396856b, 0xa1051895)
    ensures Rounds(INITIAL, BLOCK, 20) == State(0x3e9e9126, 0xb5b204e4, 0xe25e1652, 0x4a1d804e)
  {
    hide Rounds, FF, GG, HH, II;
    GIs(0xdda9b9a6, 0x72aff2e0, 0xe396856b, 0xa1051895, 0, 5, 0xf61e2562, 0x365f74f2, 0xcbee9e46, 0x3e9e9126);
    GIs(0xa1051895, 0x3e9e9126, 0x72aff2e0, 0xe396856b, 0, 9, 0xc040b340, 0x9405bf77, 0x0b7eef28, 0x4a1d804e);
    GIs(0xe396856b, 0x4a1d804e, 0x3e9e9126, 0x72aff2e0, 0, 14, 0x265e5a51, 0x58126102, 0x98409604, 0xe25e1652);
    GIs(0x72aff2e0, 0xe25e1652, 0x4a1d804e, 0x3e9e9126, 0x80636261, 20, 0xe9b6c7aa, 0x3ee92d35, 0xd353ee92, 0xb5b204e4);
    FourSteps(INITIAL, BLOCK, 16);
  }

  lemma Steps20To24()
    requires Rounds(INITIAL, BLOCK, 20) == State(0x3e9e9126, 0xb5b204e4, 0xe25e1652, 0x4a1d804e)
    ensures Rounds(INITIAL, BLOCK, 24) == State(0x59a8ffda, 0x47092c07, 0xabfc7920, 0x6d002f1e)
  {
    hide Rounds, FF, GG, HH, II;
    GIs(0x3e9e9126, 0xb5b204e4, 0xe25e1652, 0x4a1d804e, 0, 5, 0xd62f105d, 0xb51fb7d7, 0xa3f6faf6, 0x59a8ffda);
    GIs(0x4a1d804e, 0x59a8ffda, 0xb5b204e4, 0xe25e1652, 0, 9, 0x02441453, 0xa209ab97, 0x13572f44, 0x6d002f1e);
    GIs(0xe25e1652, 0x6d002f1e, 0x59a8ffda, 0xb5b204e4, 0, 14, 0xd8a1e681, 0x2808fbf1, 0x3efc4a02, 0xabfc7920);
    GIs(0xb5b204e4, 0xabfc7920, 0x6d002f1e, 0x59a8ffda, 0, 20, 0xe7d3fbc8, 0xcb2e79b0, 0x9b0cb2e7, 0x47092c07);
    FourSteps(INITIAL, BLOCK, 20);
  }

  lemma Steps24To28()
    requires Rounds(INITIAL, BLOCK, 24) == State(0x59a8ffda, 0x47092c07, 0xabfc7920, 0x6d002f1e)
    ensures Rounds(INITIAL, BLOCK, 28) == State(0xb7f268cf, 0x786acb8f, 0xfe1623b1, 0x09388eff)
  {
    hide Rounds, FF, GG, HH, II;
    GIs(0x59a8ffda, 0x47092c07, 0xabfc7920, 0x6d002f1e, 0, 5, 0x21e1cde6, 0x438749e6, 0x70e93cc8, 0xb7f268cf);
    GIs(0x6d002f1e, 0xb7f268cf, 0x47092c07, 0xabfc7920, 24, 9, 0xc33707d6, 0x1828a313, 0x51462630, 0x09388eff);
    GIs(0xabfc7920, 0x09388eff, 0xb7f268cf, 0x47092c07, 0, 14, 0xf4d50d87, 0x52cbd376, 0xf4dd94b2, 0xfe1623b1);
    GIs(0x47092c07, 0xfe1623b1, 0x09388eff, 0xb7f268cf, 0, 20, 0x455a14ed, 0x4a7de7a5, 0x7a54a7de, 0x786acb8f);
    FourSteps(INITIAL, BLOCK, 24);
  }

  lemma Steps28To32()
    requires Rounds(INITIAL, BLOCK, 28) == State(0xb7f268cf, 0x786acb8f, 0xfe1623b1, 0x09388eff)
    ensures Rounds(INITIAL, BLOCK, 32) == State(0x790a77fb, 0x726342d3, 0xa62884aa, 0x9f47e4f8)
  {
    hide Rounds, FF, GG, HH, II;
    GIs(0xb7f268cf, 0x786acb8f, 0xfe1623b1, 0x09388eff, 0, 5, 0xa9e3e905, 0x6004fd63, 0x009fac6c, 0x790a77fb);
    GIs(0x09388eff, 0x790a77fb, 0x786acb8f, 0xfe1623b1, 0, 9, 0xfcefa3f8, 0x7e931eb6, 0x263d6cfd, 0x9f47e4f8);
    GIs(0xfe1623b1, 0x9f47e4f8, 0x790a77fb, 0x786acb8f, 0, 14, 0x676f02d9, 0x7ec81b82, 0x06e09fb2, 0xa62884aa);
    GIs(0x786acb8f, 0xa62884aa, 0x9f47e4f8, 0x790a77fb, 0, 20, 0x8d2a4c8a, 0xabe29cc3, 0xcc3abe29, 0x726342d3);
    FourSteps(INITIAL, BLOCK, 28);
  }

  lemma Steps32To36()
    requires Rounds(INITIAL, BLOCK, 32) == State(0x790a77fb, 0x726342d3, 0xa62884aa, 0x9f47e4f8)
    ensures Rounds(INITIAL, BLOCK, 36) == State(0xb3707ebf, 0x3b0875c7, 0x8d212ff5, 0x60127b2e)
  {
    hide Rounds, FF, GG, HH, II;
    HIs(0x790a77fb, 0x726342d3, 0xa62884aa, 0x9f47e4f8, 0, 4, 0xfffa3942, 0xc410d3be, 0x410d3bec, 0xb3707ebf);
    HIs(0x9f47e4f8, 0xb3707ebf, 0x726342d3, 0xa62884aa, 0, 11, 0x8771f681, 0x8df5943f, 0xaca1fc6f, 0x60127b2e);
    HIs(0xa62884aa, 0x60127b2e, 0xb3707ebf, 0x726342d3, 0, 16, 0x6d9d6122, 0xb4c72d0e, 0x2d0eb4c7, 0x8d212ff5);
    HIs(0x726342d3, 0x8d212ff5, 0x60127b2e, 0xb3707ebf, 24, 23, 0xfde5380c, 0xce8ba55b, 0xade745d2, 0x3b0875c7);
    FourSteps(INITIAL, BLOCK, 32);
  }

  lemma Steps36To40()
    requires Rounds(INITIAL, BLOCK, 36) == State(0xb3707ebf, 0x3b0875c7, 0x8d212ff5, 0x60127b2e)
    ensures Rounds(INITIAL, BLOCK, 40) == State(0x21b117b9, 0x5a2f5ea5, 0x3575227e, 0x6e7429d5)
  {
    hide Rounds, FF, GG, HH, II;
    HIs(0xb3707ebf, 0x3b0875c7, 0x8d212ff5, 0x60127b2e, 0, 4, 0xa4beea44, 0x2e6a8a1f, 0xe6a8a1f2, 0x21b117b9);
    HIs(0x60127b2e, 0x21b117b9, 0x3b0875c7, 0x8d212ff5, 0, 11, 0x4bdecfa9, 0x43899862, 0x4cc3121c, 0x6e7429d5);
    HIs(0x8d212ff5, 0x6e7429d5, 0x21b117b9, 0x3b0875c7, 0, 16, 0xf6bb4b60, 0xf8a9c700, 0xc700f8a9, 0x3575227e);
    HIs(0x3b0875c7, 0x3575227e, 0x6e7429d5, 0x21b117b9, 0, 23, 0xbebfbc70, 0x74784e49, 0x24ba3c27, 0x5a2f5ea5);
    FourSteps(INITIAL, BLOCK, 36);
  }

  lemma Steps40To44()
    requires Rounds(INITIAL, BLOCK, 40) == State(0x21b117b9, 0x5a2f5ea5, 0x3575227e, 0x6e7429d5)
    ensures Rounds(INITIAL, BLOCK, 44) == State(0x11de1779, 0x4c6124f4, 0x31c465ca, 0xfadcaa38)
  {
    hide Rounds, FF, GG, HH, II;
    HIs(0x21b117b9, 0x5a2f5ea5, 0x3575227e, 0x6e7429d5, 0, 4, 0x289b7ec6, 0x4b7aeb8d, 0xb7aeb8d4, 0x11de1779);
    HIs(0x6e7429d5, 0x11de1779, 0x5a2f5ea5, 0x3575227e, 0x80636261, 11, 0xeaa127fa, 0x57fd1fd2, 0xe8fe92bf, 0xfadcaa38);
    HIs(0x3575227e, 0xfadcaa38, 0x11de1779, 0x5a2f5ea5, 0, 16, 0xd4ef3085, 0xbb9236e7, 0x36e7bb92, 0x31c465ca);
    HIs(0x5a2f5ea5, 0x31c465ca, 0xfadcaa38, 0x11de1779, 0, 23, 0x04881d05, 0x397e5435, 0x1a9cbf2a, 0x4c6124f4);
    FourSteps(INITIAL, BLOCK, 40);
  }

  lemma Steps44To48()
    requires Rounds(INITIAL, BLOCK, 44) == State(0x11de1779, 0x4c6124f4, 0x31c465ca, 0xfadcaa38)
    ensures Rounds(INITIAL, BLOCK, 48) == State(0x7f2e507b, 0x7beb9700, 0x8fae6399, 0x99d9679d)
  {
    hide Rounds, FF, GG, HH, II;
    HIs(0x11de1779, 0x4c6124f4, 0x31c465ca, 0xfadcaa38, 0, 4, 0xd9d4d039, 0x732cd2b8, 0x32cd2b87, 0x7f2e507b);
    HIs(0xfadcaa38, 0x7f2e507b, 0x4c6124f4, 0x31c465ca, 0, 11, 0xe6db99e5, 0xe4435562, 0x1aab1722, 0x99d9679d);
    HIs(0x31c465ca, 0x99d9679d, 0x7f2e507b, 0x4c6124f4, 0, 16, 0x1fa27cf8, 0xfbfcf5d4, 0xf5d4fbfc, 0x8fae6399);
    HIs(0x4c6124f4, 0x8fae6399, 0x99d9679d, 0x7f2e507b, 0, 23, 0xc4ac5665, 0x7a66cfd8, 0xec3d3367, 0x7beb9700);
    FourSteps(INITIAL, BLOCK, 44);
  }

  lemma Steps48To52()
    requires Rounds(INITIAL, BLOCK, 48) == State(0x7f2e507b, 0x7beb9700, 0x8fae6399, 0x99d9679d)
    ensures Rounds(INITIAL, BLOCK, 52) == State(0x7b201df8, 0x8bf025c4, 0xb298cefd, 0xf4e8e96e)
  {
    hide Rounds, FF, GG, HH, II;
    IIs(0x7f2e507b, 0x7beb9700, 0x8fae6399, 0x99d9679d, 0x80636261, 6, 0xf4292244, 0xe3fcd21b, 0xff3486f8, 0x7b201df8);
    IIs(0x99d9679d, 0x7b201df8, 0x7beb9700, 0x8fae6399, 0, 10, 0x432aff97, 0xdd9e7232, 0x79c8cb76, 0xf4e8e96e);
    IIs(0x8fae6399, 0xf4e8e96e, 0x7b201df8, 0x7beb9700, 24, 15, 0xab9423a7, 0xcb1f7b5f, 0xbdafe58f, 0xb298cefd);
    IIs(0x7beb9700, 0xb298cefd, 0xf4e8e96e, 0x7b201df8, 0, 21, 0xfc93a039, 0xbab63eca, 0xd95756c7, 0x8bf025c4);
    FourSteps(INITIAL, BLOCK, 48);
  }

  lemma Steps52To56()
    requires Rounds(INITIAL, BLOCK, 52) == State(0x7b201df8, 0x8bf025c4, 0xb298cefd, 0xf4e8e96e)
    ensures Rounds(INITIAL, BLOCK, 56) == State(0x06cc5e8a, 0x3bfa2c27, 0x7d632dd0, 0x5b0d97aa)
  {
    hide Rounds, FF, GG, HH, II;
    IIs(0x7b201df8, 0x8bf025c4, 0xb298cefd, 0xf4e8e96e, 0, 6, 0x655b59c3, 0x19eb70e3, 0x7adc38c6, 0x06cc5e8a);
    IIs(0xf4e8e96e, 0x06cc5e8a, 0x8bf025c4, 0xb298cefd, 0, 10, 0x8f0ccc92, 0x4815104e, 0x54413920, 0x5b0d97aa);
    IIs(0xb298cefd, 0x5b0d97aa, 0x06cc5e8a, 0x8bf025c4, 0, 15, 0xffeff47d, 0x2c4c44ab, 0x22559626, 0x7d632dd0);
    IIs(0x8bf025c4, 0x7d632dd0, 0x5b0d97aa, 0x06cc5e8a, 0, 21, 0x85845dd1, 0xb7f2bdf4, 0xbe96fe57, 0x3bfa2c27);
    FourSteps(INITIAL, BLOCK, 52);
  }

  lemma Steps56To60()
    requires Rounds(INITIAL, BLOCK, 56) == State(0x06cc5e8a, 0x3bfa2c27, 0x7d632dd0, 0x5b0d97aa)
    ensures Rounds(INITIAL, BLOCK, 60) == State(0x7f81cc35, 0x7327d604, 0x4f9dbe3f, 0x094454ab)
  {
    hide Rounds, FF, GG, HH, II;
    IIs(0x06cc5e8a, 0x3bfa2c27, 0x7d632dd0, 0x5b0d97aa, 0, 6, 0x6fa87e4f, 0x390e1e80, 0x4387a00e, 0x7f81cc35);
    IIs(0x5b0d97aa, 0x7f81cc35, 0x3bfa2c27, 0x7d632dd0, 0, 10, 0xfe2ce6e0, 0x1da270a2, 0x89c28876, 0x094454ab);
    IIs(0x7d632dd0, 0x094454ab, 0x7f81cc35, 0x3bfa2c27, 0, 15, 0xa3014314, 0xd3288cb2, 0x46596994, 0x4f9dbe3f);
    IIs(0x3bfa2c27, 0x4f9dbe3f, 0x094454ab, 0x7f81cc35, 0, 21, 0x4e0811a1, 0x50be291c, 0x238a17c5, 0x7327d604);
    FourSteps(INITIAL, BLOCK, 56);
  }

  lemma Steps60To64()
    requires Rounds(INITIAL, BLOCK, 60) == State(0x7f81cc35, 0x7327d604, 0x4f9dbe3f, 0x094454ab)
    ensures Rounds(INITIAL, BLOCK, 64) == State(0x310ade8f, 0xc08226b3, 0xe484b9d8, 0x624d8cb2)
  {
    hide Rounds, FF, GG, HH, II;
    IIs(0x7f81cc35, 0x7327d604, 0x4f9dbe3f, 0x094454ab, 0, 6, 0xf7537e82, 0x2ef78c22, 0xbde3088b, 0x310ade8f);
    IIs(0x094454ab, 0x310ade8f, 0x7327d604, 0x4f9dbe3f, 0, 10, 0xbd3af235, 0x88cc50ab, 0x3142ae23, 0x624d8cb2);
    IIs(0x4f9dbe3f, 0x624d8cb2, 0x310ade8f, 0x7327d604, 0, 15, 0x2ad7d2bb, 0x5a4d046e, 0x82372d26, 0xe484b9d8);
    IIs(0x7327d604, 0xe484b9d8, 0x624d8cb2, 0x310ade8f, 0, 21, 0xeb86d391, 0xeb66dedf, 0xdbfd6cdb, 0xc08226b3);
    FourSteps(INITIAL, BLOCK, 60);
  }

  lemma AbcBlock()
    ensures |Padded(ABC)| == 64 && Words(Padded(ABC)) == BLOCK
  {
  }

  lemma AbcRounds()
    ensures Rounds(INITIAL, BLOCK, 64) == State(0x310ade8f, 0xc08226b3, 0xe484b9d8, 0x624d8cb2)
  {
    hide Rounds;
    RoundsNone(INITIAL, BLOCK);
    Steps0To4();
    Steps4To8();
    Steps8To12();
    Steps12To16();
    Steps16To20();
    Steps20To24();
    Steps24To28();
    Steps28To32();
    Steps32To36();
    Steps36To40();
    Steps40To44();
    Steps44To48();
    Steps48To52();
    Steps52To56();
    Steps56To60();
    Steps60To64();
  }

  lemma AbcState()
    ensures Fold(INITIAL, Padded(ABC)) == State(0x98500190, 0xb04fd23c, 0x7d3f96d6, 0x727fe128)
  {
    hide Rounds, Padded, Words;
    AbcBlock();
    AbcRounds();
    var block := Padded(ABC);
    assert block[..64] == block && block[64..] == [];
  }

  /** The digest of "abc" is 900150983cd24fb0d6963f7d28e17f72. */
  lemma DigestOfAbc()
    ensures Md5Of(ABC) == [
      0x90, 0x01, 0x50, 0x98, 0x3c, 0xd2, 0x4f, 0xb0, 0xd6, 0x96, 0x3f, 0x7d, 0x28, 0xe1, 0x7f, 0x72]
  {
    hide Fold, Padded;
    AbcState();
  }
}
