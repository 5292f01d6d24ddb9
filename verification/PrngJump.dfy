/** The published jump of the generator for the seed 42, eight draws at a time. */
module PrngJump {
  import opened Prng

  /** The state drawn on, and the sum of the selected states so far. */
  datatype Pair = Pair(at: State, sum: State)

  function Go(selected: bool, p: Pair): Pair {
    Pair(Step(p.at), if selected then Xor(p.sum, p.at) else p.sum)
  }

  /** The coefficients `bit`, …, `bit + n - 1` of a word, one after another. */
  function GoOn(word: Word, bit: nat, n: nat, p: Pair): Pair
    requires bit + n <= 32
    decreases n
  {
    if n == 0 then p else GoOn(word, bit + 1, n - 1, Go(BitOf(word, bit), p))
  }

  function After(bits: Polynomial, s: State, k: nat): Pair {
    Pair(Run(s, k), SumOfRuns(bits, s, k))
  }

  lemma GoIs(bits: Polynomial, s: State, k: nat, selected: bool)
    requires selected == bits(k)
    ensures Go(selected, After(bits, s, k)) == After(bits, s, k + 1)
  {
  }

  /** The word holds the coefficients from `k` on. */
  ghost predicate Holds(bits: Polynomial, k: nat, word: Word) {
    forall i :: 0 <= i < 32 ==> bits(k + i) == BitOf(word, i)
  }

  /** Going on draws and sums. */
  lemma {:induction false} GoOnIsSum(bits: Polynomial, s: State, word: Word, k: nat, bit: nat, n: nat)
    requires bit + n <= 32 && Holds(bits, k, word)
    ensures GoOn(word, bit, n, After(bits, s, k + bit)) == After(bits, s, k + bit + n)
    decreases n
  {
    if n > 0 {
      GoIs(bits, s, k + bit, BitOf(word, bit));
      GoOnIsSum(bits, s, word, k, bit + 1, n - 1);
    }
  }

  lemma CoefficientsOf(w: nat, k: nat, word: Word)
    requires w < 4 && k == 32 * w && word == JUMP[w]
    ensures Holds(JumpBit, k, word)
  {
    forall i | 0 <= i < 32
      ensures JumpBit(k + i) == BitOf(word, i)
    {
      JumpBitAt(w, i);
    }
  }

  lemma Ahead(bits: Polynomial, s: State, word: Word, k: nat, p: Pair, q: Pair, n: nat, m: nat)
    requires n <= 32 && m == k + n && Holds(bits, k, word) && p == After(bits, s, k) && q == GoOn(word, 0, n, p)
    ensures q == After(bits, s, m)
  {
    GoOnIsSum(bits, s, word, k, 0, n);
  }

  lemma WordIsSum(s: State, w: nat, k: nat, word: Word, p: Pair, q: Pair, n: nat, m: nat)
    requires w < 4 && n <= 32 && k == 32 * w && word == JUMP[w] && m == k + n
    requires p == After(JumpBit, s, k) && q == GoOn(word, 0, n, p)
    ensures q == After(JumpBit, s, m)
  {
    CoefficientsOf(w, k, word);
    Ahead(JumpBit, s, word, k, p, q, n, m);
  }

  lemma {:induction false} InTwo(word: Word, bit: nat, m: nat, n: nat, p: Pair)
    requires bit + m + n <= 32
    ensures GoOn(word, bit, m + n, p) == GoOn(word, bit + m, n, GoOn(word, bit, m, p))
    decreases m
  {
    if m > 0 {
      InTwo(word, bit + 1, m - 1, n, Go(BitOf(word, bit), p));
    }
  }

  lemma Quarters(word: Word, n: nat, p: Pair, a: Pair, b: Pair, c: Pair)
    requires n == 8 && a == GoOn(word, 0, n, p) && b == GoOn(word, n, n, a) && c == GoOn(word, 2 * n, n, b)
    ensures GoOn(word, 0, 4 * n, p) == GoOn(word, 3 * n, n, c)
  {
    InTwo(word, 0, n, 3 * n, p);
    InTwo(word, n, n, 2 * n, a);
    InTwo(word, 2 * n, n, n, b);
  }

  // ---------------------------------------------------------------- the table

  lemma Part0(word: Word, n: nat, p: Pair)
    requires word == 0x8764000b && n == 8
    requires p.at == State(0xfdb24acc, 0xb2096387, 0x894aec74, 0xa68ce1f4)
    requires p.sum == State(0x00000000, 0x00000000, 0x00000000, 0x00000000)
    ensures GoOn(word, 0, n, p).at == State(0x9d37ed50, 0xfe8a9076, 0x2b6247a0, 0x8fd62b22)
    ensures GoOn(word, 0, n, p).sum == State(0x4c456d38, 0x525688a3, 0x7368bfef, 0x214c0388)
  {
    assert BitOf(word, 0) && BitOf(word, 1) && !BitOf(word, 2) && BitOf(word, 3);
    assert !BitOf(word, 4) && !BitOf(word, 5) && !BitOf(word, 6) && !BitOf(word, 7);
    assert GoOn(word, 0, 8, p) == GoOn(word, 2, 6,
      Pair(State(0x03d59524, 0x49f9a538, 0x6c821e07, 0x12ecdf57),
           State(0x14858273, 0x74f8a6b8, 0xef7544cc, 0x8a9f7950)));
    assert GoOn(word, 0, 8, p) == GoOn(word, 4, 4,
      Pair(State(0xd5bdbb88, 0xe2733a73, 0x98812268, 0xeaa61c6b),
           State(0x4c456d38, 0x525688a3, 0x7368bfef, 0x214c0388)));
    assert GoOn(word, 0, 8, p) == GoOn(word, 6, 2,
      Pair(State(0xdb17fe45, 0xd96f41e3, 0xe967c470, 0xfb1ea833),
           State(0x4c456d38, 0x525688a3, 0x7368bfef, 0x214c0388)));
  }

  lemma Part1(word: Word, n: nat, p: Pair)
    requires word == 0x8764000b && n == 8
    requires p.at == State(0x9d37ed50, 0xfe8a9076, 0x2b6247a0, 0x8fd62b22)
    requires p.sum == State(0x4c456d38, 0x525688a3, 0x7368bfef, 0x214c0388)
    ensures GoOn(word, n, n, p).at == State(0xa3643a8b, 0x95d8de07, 0x00bb0b3b, 0x1b4d2d38)
    ensures GoOn(word, n, n, p).sum == State(0x4c456d38, 0x525688a3, 0x7368bfef, 0x214c0388)
  {
    assert !BitOf(word, 8) && !BitOf(word, 9) && !BitOf(word, 10) && !BitOf(word, 11);
    assert !BitOf(word, 12) && !BitOf(word, 13) && !BitOf(word, 14) && !BitOf(word, 15);
    assert GoOn(word, 8, 8, p) == GoOn(word, 10, 6,
      Pair(State(0x416ecf08, 0x07c12a72, 0xf16b1cf4, 0x2cc86568),
           State(0x4c456d38, 0x525688a3, 0x7368bfef, 0x214c0388)));
    assert GoOn(word, 8, 8, p) == GoOn(word, 12, 4,
      Pair(State(0x97dba8c4, 0xeff24e60, 0xd1c5abee, 0xe146b7ed),
           State(0x4c456d38, 0x525688a3, 0x7368bfef, 0x214c0388)));
    assert GoOn(word, 8, 8, p) == GoOn(word, 14, 2,
      Pair(State(0x974f7476, 0x9201df29, 0xe3770663, 0x0129f871),
           State(0x4c456d38, 0x525688a3, 0x7368bfef, 0x214c0388)));
  }

  lemma Part2(word: Word, n: nat, p: Pair)
    requires word == 0x8764000b && n == 8
    requires p.at == State(0xa3643a8b, 0x95d8de07, 0x00bb0b3b, 0x1b4d2d38)
    requires p.sum == State(0x4c456d38, 0x525688a3, 0x7368bfef, 0x214c0388)
    ensures GoOn(word, 2 * n, n, p).at == State(0xdf42c5c9, 0x0da122ee, 0x2f8813a6, 0x6fa458c7)
    ensures GoOn(word, 2 * n, n, p).sum == State(0x94e2abd0, 0xd8a27a7c, 0xa17e3afc, 0x8606587d)
  {
    assert !BitOf(word, 16) && !BitOf(word, 17) && BitOf(word, 18) && !BitOf(word, 19);
    assert !BitOf(word, 20) && BitOf(word, 21) && BitOf(word, 22) && !BitOf(word, 23);
    assert GoOn(word, 16, 8, p) == GoOn(word, 18, 6,
      Pair(State(0xb46fda77, 0x099519b3, 0x304d9804, 0xf09e1ccc),
           State(0x4c456d38, 0x525688a3, 0x7368bfef, 0x214c0388)));
    assert GoOn(word, 16, 8, p) == GoOn(word, 20, 4,
      Pair(State(0x98f87b00, 0x6ec2a0bb, 0x8dc27b7b, 0xe52046ac),
           State(0xf82ab74f, 0x5bc39110, 0x432527eb, 0xd1d21f44)));
    assert GoOn(word, 16, 8, p) == GoOn(word, 22, 2,
      Pair(State(0x7fd28188, 0xf8994bac, 0x72206b6c, 0x40e4fb66),
           State(0xeb302a58, 0x203b31d0, 0xd35e5190, 0xc6e2a31b)));
  }

  lemma Part3(word: Word, n: nat, p: Pair)
    requires word == 0x8764000b && n == 8
    requires p.at == State(0xdf42c5c9, 0x0da122ee, 0x2f8813a6, 0x6fa458c7)
    requires p.sum == State(0x94e2abd0, 0xd8a27a7c, 0xa17e3afc, 0x8606587d)
    ensures GoOn(word, 3 * n, n, p).at == State(0x23aed3fb, 0x17a03b9b, 0x9469fde8, 0x712cc13c)
    ensures GoOn(word, 3 * n, n, p).sum == State(0x993a27eb, 0x4b42cd6e, 0x66517931, 0xa188c0f4)
  {
    assert BitOf(word, 24) && BitOf(word, 25) && BitOf(word, 26) && !BitOf(word, 27);
    assert !BitOf(word, 28) && !BitOf(word, 29) && !BitOf(word, 30) && BitOf(word, 31);
    assert GoOn(word, 24, 8, p) == GoOn(word, 26, 6,
      Pair(State(0x6bfd0071, 0xf2a3410e, 0xd821b78f, 0xd5fc8eb5),
           State(0xf6e7d1f9, 0x2868ac13, 0x3c792335, 0xc2734baa)));
    assert GoOn(word, 24, 8, p) == GoOn(word, 28, 4,
      Pair(State(0xf3a0e000, 0xf88392c4, 0x46118434, 0x117e55f8),
           State(0x9d1ad188, 0xdacbed1d, 0xe45894ba, 0x178fc51f)));
    assert GoOn(word, 24, 8, p) == GoOn(word, 30, 2,
      Pair(State(0xb9563683, 0xe5fb3df8, 0xcd242b08, 0x588dfd18),
           State(0x9d1ad188, 0xdacbed1d, 0xe45894ba, 0x178fc51f)));
  }

  lemma Part4(word: Word, n: nat, p: Pair)
    requires word == 0xf542d2d3 && n == 8
    requires p.at == State(0x23aed3fb, 0x17a03b9b, 0x9469fde8, 0x712cc13c)
    requires p.sum == State(0x993a27eb, 0x4b42cd6e, 0x66517931, 0xa188c0f4)
    ensures GoOn(word, 0, n, p).at == State(0xde36a7be, 0x5f7ec5d1, 0xef69f50c, 0x18e2b817)
    ensures GoOn(word, 0, n, p).sum == State(0xc53b3210, 0x5d9c0845, 0xcb6316a4, 0x62c2f92a)
  {
    assert BitOf(word, 0) && BitOf(word, 1) && !BitOf(word, 2) && !BitOf(word, 3);
    assert BitOf(word, 4) && !BitOf(word, 5) && BitOf(word, 6) && BitOf(word, 7);
    assert GoOn(word, 0, 8, p) == GoOn(word, 2, 6,
      Pair(State(0x829007e0, 0x12f524c7, 0x7cb9214f, 0x9175e63d),
           State(0xffb6dd4c, 0xfc85e37d, 0x05889cca, 0xb7713afc)));
    assert GoOn(word, 0, 8, p) == GoOn(word, 4, 4,
      Pair(State(0xebdb136e, 0xf9ac6fdd, 0xad74bdb5, 0x5eb3a756),
           State(0xffb6dd4c, 0xfc85e37d, 0x05889cca, 0xb7713afc)));
    assert GoOn(word, 0, 8, p) == GoOn(word, 6, 2,
      Pair(State(0x0d8347db, 0xedb70e38, 0x5536c33e, 0x3ce1f20a),
           State(0x146dce22, 0x05298ca0, 0xa8fc217f, 0xe9c29daa)));
  }

  lemma Part5(word: Word, n: nat, p: Pair)
    requires word == 0xf542d2d3 && n == 8
    requires p.at == State(0xde36a7be, 0x5f7ec5d1, 0xef69f50c, 0x18e2b817)
    requires p.sum == State(0xc53b3210, 0x5d9c0845, 0xcb6316a4, 0x62c2f92a)
    ensures GoOn(word, n, n, p).at == State(0x3030bd23, 0x2a1c789b, 0x0b65ec6a, 0x8ecda3c2)
    ensures GoOn(word, n, n, p).sum == State(0x754bfa4a, 0x64683c92, 0x7672d539, 0xb091e471)
  {
    assert !BitOf(word, 8) && BitOf(word, 9) && !BitOf(word, 10) && !BitOf(word, 11);
    assert BitOf(word, 12) && !BitOf(word, 13) && BitOf(word, 14) && BitOf(word, 15);
    assert GoOn(word, 8, 8, p) == GoOn(word, 10, 6,
      Pair(State(0x14657f27, 0x3b5fbda9, 0x1650ecca, 0x7d2afc6e),
           State(0x5c91e868, 0x33bd9f26, 0x07b7e616, 0x812ccb16)));
    assert GoOn(word, 8, 8, p) == GoOn(word, 12, 4,
      Pair(State(0xc1742a97, 0xd634d149, 0x3b02770d, 0x20a3bc9b),
           State(0x5c91e868, 0x33bd9f26, 0x07b7e616, 0x812ccb16)));
    assert GoOn(word, 8, 8, p) == GoOn(word, 14, 2,
      Pair(State(0xa0cf5c22, 0x8875040c, 0x212e2edf, 0x60db3cb9),
           State(0x9de5c2ff, 0xe5894e6f, 0x3cb5911b, 0xa18f778d)));
  }

  lemma Part6(word: Word, n: nat, p: Pair)
    requires word == 0xf542d2d3 && n == 8
    requires p.at == State(0x3030bd23, 0x2a1c789b, 0x0b65ec6a, 0x8ecda3c2)
    requires p.sum == State(0x754bfa4a, 0x64683c92, 0x7672d539, 0xb091e471)
    ensures GoOn(word, 2 * n, n, p).at == State(0xfbb47b28, 0x941f3d34, 0x129fa6b9, 0x4d4dd562)
    ensures GoOn(word, 2 * n, n, p).sum == State(0xb0b2f7e7, 0xfd84b6e6, 0x2de8fb8c, 0xb00b33b4)
  {
    assert !BitOf(word, 16) && BitOf(word, 17) && !BitOf(word, 18) && !BitOf(word, 19);
    assert !BitOf(word, 20) && !BitOf(word, 21) && BitOf(word, 22) && !BitOf(word, 23);
    assert GoOn(word, 16, 8, p) == GoOn(word, 18, 6,
      Pair(State(0x0b72828e, 0x860c28e1, 0x0516a533, 0x9f27a4fc),
           State(0xe1aa9c30, 0x75211540, 0x75d6b270, 0x3e4b2957)));
    assert GoOn(word, 16, 8, p) == GoOn(word, 20, 4,
      Pair(State(0xc651e906, 0x8c04e472, 0xd472532e, 0x473caea0),
           State(0xe1aa9c30, 0x75211540, 0x75d6b270, 0x3e4b2957)));
    assert GoOn(word, 16, 8, p) == GoOn(word, 22, 2,
      Pair(State(0x51186bd7, 0x88a5a3a6, 0x583e49fc, 0x8e401ae3),
           State(0xe1aa9c30, 0x75211540, 0x75d6b270, 0x3e4b2957)));
  }

  lemma Part7(word: Word, n: nat, p: Pair)
    requires word == 0xf542d2d3 && n == 8
    requires p.at == State(0xfbb47b28, 0x941f3d34, 0x129fa6b9, 0x4d4dd562)
    requires p.sum == State(0xb0b2f7e7, 0xfd84b6e6, 0x2de8fb8c, 0xb00b33b4)
    ensures GoOn(word, 3 * n, n, p).at == State(0x93b691bf, 0xbfc1d153, 0x97e70935, 0xe3a26387)
    ensures GoOn(word, 3 * n, n, p).sum == State(0x9642d31d, 0x8d6cdec5, 0x74bb5408, 0x1b3a410a)
  {
    assert BitOf(word, 24) && !BitOf(word, 25) && BitOf(word, 26) && !BitOf(word, 27);
    assert BitOf(word, 28) && BitOf(word, 29) && BitOf(word, 30) && BitOf(word, 31);
    assert GoOn(word, 24, 8, p) == GoOn(word, 26, 6,
      Pair(State(0xc890c511, 0x8883c64a, 0x9c766cef, 0xb2b37f53),
           State(0x4b068ccf, 0x699b8bd2, 0x3f775d35, 0xfd46e6d6)));
    assert GoOn(word, 24, 8, p) == GoOn(word, 28, 4,
      Pair(State(0xab0dda6d, 0x7daf2e42, 0x6b1529f6, 0x6d332acd),
           State(0x839649de, 0xe1184d98, 0xa30131da, 0x4ff59985)));
    assert GoOn(word, 24, 8, p) == GoOn(word, 30, 2,
      Pair(State(0xe6027bbf, 0x986274a0, 0x4a6e1b79, 0x9d2aeaec),
           State(0x930a4d51, 0x2100be03, 0x56506fb7, 0xc2e2cbcc)));
  }

  lemma Part8(word: Word, n: nat, p: Pair)
    requires word == 0x6fa035c3 && n == 8
    requires p.at == State(0x93b691bf, 0xbfc1d153, 0x97e70935, 0xe3a26387)
    requires p.sum == State(0x9642d31d, 0x8d6cdec5, 0x74bb5408, 0x1b3a410a)
    ensures GoOn(word, 0, n, p).at == State(0x0e6f827c, 0x21b21d5d, 0x97b3a930, 0x58ed0d62)
    ensures GoOn(word, 0, n, p).sum == State(0xb3b57307, 0x2173aaa2, 0x981aeea4, 0x989f63ec)
  {
    assert BitOf(word, 0) && BitOf(word, 1) && !BitOf(word, 2) && !BitOf(word, 3);
    assert !BitOf(word, 4) && !BitOf(word, 5) && BitOf(word, 6) && BitOf(word, 7);
    assert GoOn(word, 0, 8, p) == GoOn(word, 2, 6,
      Pair(State(0x69d3c851, 0xf3b65438, 0x68b5afe1, 0x3759d530),
           State(0xca2161c9, 0x893d464f, 0x64af63b7, 0xe50e806e)));
    assert GoOn(word, 0, 8, p) == GoOn(word, 4, 4,
      Pair(State(0x23e43cf6, 0x32226d61, 0x60954ee9, 0xc3ad7c76),
           State(0xca2161c9, 0x893d464f, 0x64af63b7, 0xe50e806e)));
    assert GoOn(word, 0, 8, p) == GoOn(word, 6, 2,
      Pair(State(0xdbb08d13, 0xa4938280, 0x73fe61fe, 0xdd07904e),
           State(0xca2161c9, 0x893d464f, 0x64af63b7, 0xe50e806e)));
  }

  lemma Part9(word: Word, n: nat, p: Pair)
    requires word == 0x6fa035c3 && n == 8
    requires p.at == State(0x0e6f827c, 0x21b21d5d, 0x97b3a930, 0x58ed0d62)
    requires p.sum == State(0xb3b57307, 0x2173aaa2, 0x981aeea4, 0x989f63ec)
    ensures GoOn(word, n, n, p).at == State(0xb2d3f4e2, 0x6789971b, 0xbec78a61, 0x542d938b)
    ensures GoOn(word, n, n, p).sum == State(0x9fd16859, 0x7d445399, 0x71cc69f5, 0x34261b02)
  {
    assert BitOf(word, 8) && !BitOf(word, 9) && BitOf(word, 10) && !BitOf(word, 11);
    assert BitOf(word, 12) && BitOf(word, 13) && !BitOf(word, 14) && !BitOf(word, 15);
    assert GoOn(word, 8, 8, p) == GoOn(word, 10, 6,
      Pair(State(0x37df5f98, 0x32b8351e, 0x56ba210f, 0x7e6eda07),
           State(0xbddaf17b, 0x00c1b7ff, 0x0fa94794, 0xc0726e8e)));
    assert GoOn(word, 8, 8, p) == GoOn(word, 12, 4,
      Pair(State(0x9fac316e, 0x39dbb99f, 0xd091e016, 0x2c0f7f25),
           State(0x8a05aee3, 0x327982e1, 0x5913669b, 0xbe1cb489)));
    assert GoOn(word, 8, 8, p) == GoOn(word, 14, 2,
      Pair(State(0x5aab4f9d, 0x04d0704b, 0xbee7d6ac, 0x9dc24e86),
           State(0x9fd16859, 0x7d445399, 0x71cc69f5, 0x34261b02)));
  }

  lemma Part10(word: Word, n: nat, p: Pair)
    requires word == 0x6fa035c3 && n == 8
    requires p.at == State(0xb2d3f4e2, 0x6789971b, 0xbec78a61, 0x542d938b)
    requires p.sum == State(0x9fd16859, 0x7d445399, 0x71cc69f5, 0x34261b02)
    ensures GoOn(word, 2 * n, n, p).at == State(0xd5fc6e82, 0x020930e8, 0x46717421, 0x6fafc111)
    ensures GoOn(word, 2 * n, n, p).sum == State(0xeb2b489b, 0xe59519e7, 0xe529bc33, 0x9c193b42)
  {
    assert !BitOf(word, 16) && !BitOf(word, 17) && !BitOf(word, 18) && !BitOf(word, 19);
    assert !BitOf(word, 20) && BitOf(word, 21) && !BitOf(word, 22) && BitOf(word, 23);
    assert GoOn(word, 16, 8, p) == GoOn(word, 18, 6,
      Pair(State(0xcace9877, 0xf5d05169, 0xa59e88f1, 0xcb402a5d),
           State(0x9fd16859, 0x7d445399, 0x71cc69f5, 0x34261b02)));
    assert GoOn(word, 16, 8, p) == GoOn(word, 20, 4,
      Pair(State(0xed070358, 0xa12c602a, 0x3b2fffc5, 0xcf00d8ca),
           State(0x9fd16859, 0x7d445399, 0x71cc69f5, 0x34261b02)));
    assert GoOn(word, 16, 8, p) == GoOn(word, 22, 2,
      Pair(State(0x91e8247e, 0x7ac78f92, 0x04fa7d25, 0x1cfe3096),
           State(0x1cfad3e1, 0x0a40cf2e, 0xff24c168, 0x51e11873)));
  }

  lemma Part11(word: Word, n: nat, p: Pair)
    requires word == 0x6fa035c3 && n == 8
    requires p.at == State(0xd5fc6e82, 0x020930e8, 0x46717421, 0x6fafc111)
    requires p.sum == State(0xeb2b489b, 0xe59519e7, 0xe529bc33, 0x9c193b42)
    ensures GoOn(word, 3 * n, n, p).at == State(0xbff3d0da, 0x7dba708f, 0xe0258c47, 0x9cbf5462)
    ensures GoOn(word, 3 * n, n, p).sum == State(0x11b1e89c, 0x3599f039, 0x19e02a3e, 0x2903ecad)
  {
    assert BitOf(word, 24) && BitOf(word, 25) && BitOf(word, 26) && BitOf(word, 27);
    assert !BitOf(word, 28) && BitOf(word, 29) && BitOf(word, 30) && !BitOf(word, 31);
    assert GoOn(word, 24, 8, p) == GoOn(word, 26, 6,
      Pair(State(0x1e517e5d, 0xa8327f93, 0x31e2c3d8, 0x5f093530),
           State(0x868db962, 0x76180344, 0x22b402b1, 0xc439313e)));
    assert GoOn(word, 24, 8, p) == GoOn(word, 28, 4,
      Pair(State(0xb4bee951, 0x25a76d6d, 0xa1a2837b, 0xa6ed7aee),
           State(0x71b6f3c1, 0x59abbec1, 0x581a5aec, 0x41651bb7)));
    assert GoOn(word, 24, 8, p) == GoOn(word, 30, 2,
      Pair(State(0x57f3e58f, 0x5c8949bf, 0x1a3cc0f8, 0x38daeb00),
           State(0x46420d13, 0x6910b986, 0x03dceac6, 0x11d907ad)));
  }

  lemma Part12(word: Word, n: nat, p: Pair)
    requires word == 0x77f2db5b && n == 8
    requires p.at == State(0xbff3d0da, 0x7dba708f, 0xe0258c47, 0x9cbf5462)
    requires p.sum == State(0x11b1e89c, 0x3599f039, 0x19e02a3e, 0x2903ecad)
    ensures GoOn(word, 0, n, p).at == State(0x4a794c2a, 0x978b80c1, 0x3e134a0a, 0x4c32c289)
    ensures GoOn(word, 0, n, p).sum == State(0xbc4de84a, 0x19d4285f, 0xb3009c3a, 0x19433a2c)
  {
    assert BitOf(word, 0) && BitOf(word, 1) && !BitOf(word, 2) && BitOf(word, 3);
    assert BitOf(word, 4) && !BitOf(word, 5) && BitOf(word, 6) && !BitOf(word, 7);
    assert GoOn(word, 0, 8, p) == GoOn(word, 2, 6,
      Pair(State(0x55bdb72d, 0x57ad9ab8, 0xad9992aa, 0x5a18d05a),
           State(0xf0b4cc71, 0x6a4faca4, 0xd2f2e4e4, 0x9c9bd7c7)));
    assert GoOn(word, 0, 8, p) == GoOn(word, 4, 4,
      Pair(State(0x5dd6529d, 0x54901777, 0xe867d648, 0xf57a902e),
           State(0xa8bc31be, 0xc5c6139b, 0x71e3b163, 0x36ccc7aa)));
    assert GoOn(word, 0, 8, p) == GoOn(word, 6, 2,
      Pair(State(0x49278b69, 0x88822cb3, 0x2a84fb11, 0xdaf56da8),
           State(0xf56a6323, 0x915604ec, 0x9984672b, 0xc3b65784)));
  }

  lemma Part13(word: Word, n: nat, p: Pair)
    requires word == 0x77f2db5b && n == 8
    requires p.at == State(0x4a794c2a, 0x978b80c1, 0x3e134a0a, 0x4c32c289)
    requires p.sum == State(0xbc4de84a, 0x19d4285f, 0xb3009c3a, 0x19433a2c)
    ensures GoOn(word, n, n, p).at == State(0x565b66b6, 0xfbef57d0, 0x6ec7ce21, 0xd32162aa)
    ensures GoOn(word, n, n, p).sum == State(0x5beb9464, 0x4df9776a, 0x4739499b, 0xe33cfa0b)
  {
    assert BitOf(word, 8) && BitOf(word, 9) && !BitOf(word, 10) && BitOf(word, 11);
    assert BitOf(word, 12) && !BitOf(word, 13) && BitOf(word, 14) && BitOf(word, 15);
    assert GoOn(word, 8, 8, p) == GoOn(word, 10, 6,
      Pair(State(0xb833ce5e, 0x114a0ca3, 0x31a64842, 0x9e01e14f),
           State(0x67f4aa02, 0x6dbe2e7f, 0xee785210, 0x9f63be78)));
    assert GoOn(word, 8, 8, p) == GoOn(word, 12, 4,
      Pair(State(0xf0c8cd77, 0xb22b6911, 0x95e19dae, 0x87762e3d),
           State(0x508c89b0, 0xf561a4c0, 0xf3f4920c, 0xc00cda02)));
    assert GoOn(word, 8, 8, p) == GoOn(word, 14, 2,
      Pair(State(0xf8aed239, 0x216cc14a, 0xf21d6882, 0xdac311e9),
           State(0xa04444c7, 0x474acdd1, 0x66150fa2, 0x477af43f)));
  }

  lemma Part14(word: Word, n: nat, p: Pair)
    requires word == 0x77f2db5b && n == 8
    requires p.at == State(0x565b66b6, 0xfbef57d0, 0x6ec7ce21, 0xd32162aa)
    requires p.sum == State(0x5beb9464, 0x4df9776a, 0x4739499b, 0xe33cfa0b)
    ensures GoOn(word, 2 * n, n, p).at == State(0xf107edc5, 0x0d00c2e8, 0x0f09f6a2, 0xcc18cc55)
    ensures GoOn(word, 2 * n, n, p).sum == State(0x8baa0fdb, 0x593d309a, 0xa4ab03cc, 0x2743f227)
  {
    assert !BitOf(word, 16) && BitOf(word, 17) && !BitOf(word, 18) && !BitOf(word, 19);
    assert BitOf(word, 20) && BitOf(word, 21) && BitOf(word, 22) && BitOf(word, 23);
    assert GoOn(word, 16, 8, p) == GoOn(word, 18, 6,
      Pair(State(0xcc4d7dcd, 0x5bd5a41c, 0x7f58d55b, 0xc1700d96),
           State(0x257ec7a8, 0x8e8a882d, 0xa10a410c, 0x92972b4d)));
    assert GoOn(word, 16, 8, p) == GoOn(word, 20, 4,
      Pair(State(0x93648c18, 0xa675485b, 0xceac50d1, 0x62c2fe2c),
           State(0x257ec7a8, 0x8e8a882d, 0xa10a410c, 0x92972b4d)));
    assert GoOn(word, 16, 8, p) == GoOn(word, 22, 2,
      Pair(State(0x11dd10d8, 0x1b36c434, 0x9ba274a6, 0x7155ba30),
           State(0xe1c971df, 0xd34254e4, 0xd8fe7b14, 0x4de66b44)));
  }

  lemma Part15(word: Word, n: nat, p: Pair)
    requires word == 0x77f2db5b && n == 8
    requires p.at == State(0xf107edc5, 0x0d00c2e8, 0x0f09f6a2, 0xcc18cc55)
    requires p.sum == State(0x8baa0fdb, 0x593d309a, 0xa4ab03cc, 0x2743f227)
    ensures GoOn(word, 3 * n, n, p).at == State(0xc70ef0a4, 0x3f006eb3, 0x1688388c, 0x095331f4)
    ensures GoOn(word, 3 * n, n, p).sum == State(0xde34e7c3, 0x9695e2a5, 0x670fdf17, 0x3bfa5b46)
  {
    assert BitOf(word, 24) && BitOf(word, 25) && BitOf(word, 26) && !BitOf(word, 27);
    assert BitOf(word, 28) && BitOf(word, 29) && BitOf(word, 30) && !BitOf(word, 31);
    assert GoOn(word, 24, 8, p) == GoOn(word, 26, 6,
      Pair(State(0x0364d4ff, 0x3c9af190, 0xd227361f, 0xd9bc399b),
           State(0x4ab20166, 0xa7332bfd, 0x54293e09, 0x2b2ed07a)));
    assert GoOn(word, 24, 8, p) == GoOn(word, 28, 4,
      Pair(State(0x3ddb50ad, 0xef3bcd64, 0xb0c43e14, 0xca62cedc),
           State(0x49d6d599, 0x9ba9da6d, 0x860e0816, 0xf292e9e1)));
    assert GoOn(word, 24, 8, p) == GoOn(word, 30, 2,
      Pair(State(0xb2bb31e2, 0x80235671, 0xab404fac, 0xcb17bd51),
           State(0x6c8fd621, 0x16b6b4d4, 0xcc4f90bb, 0xf0ede617)));
  }

  lemma Word0(n: nat, p: Pair)
    requires n == 8
    requires p.at == State(0xfdb24acc, 0xb2096387, 0x894aec74, 0xa68ce1f4)
    requires p.sum == State(0x00000000, 0x00000000, 0x00000000, 0x00000000)
    ensures GoOn(JUMP[0], 0, 4 * n, p).at == State(0x23aed3fb, 0x17a03b9b, 0x9469fde8, 0x712cc13c)
    ensures GoOn(JUMP[0], 0, 4 * n, p).sum == State(0x993a27eb, 0x4b42cd6e, 0x66517931, 0xa188c0f4)
  {
    var word := JUMP[0];
    var a := GoOn(word, 0, n, p);
    var b := GoOn(word, n, n, a);
    var c := GoOn(word, 2 * n, n, b);
    Quarters(word, n, p, a, b, c);
    Part0(word, n, p);
    Part1(word, n, a);
    Part2(word, n, b);
    Part3(word, n, c);
  }

  lemma Word1(n: nat, p: Pair)
    requires n == 8
    requires p.at == State(0x23aed3fb, 0x17a03b9b, 0x9469fde8, 0x712cc13c)
    requires p.sum == State(0x993a27eb, 0x4b42cd6e, 0x66517931, 0xa188c0f4)
    ensures GoOn(JUMP[1], 0, 4 * n, p).at == State(0x93b691bf, 0xbfc1d153, 0x97e70935, 0xe3a26387)
    ensures GoOn(JUMP[1], 0, 4 * n, p).sum == State(0x9642d31d, 0x8d6cdec5, 0x74bb5408, 0x1b3a410a)
  {
    var word := JUMP[1];
    var a := GoOn(word, 0, n, p);
    var b := GoOn(word, n, n, a);
    var c := GoOn(word, 2 * n, n, b);
    Quarters(word, n, p, a, b, c);
    Part4(word, n, p);
    Part5(word, n, a);
    Part6(word, n, b);
    Part7(word, n, c);
  }

  lemma Word2(n: nat, p: Pair)
    requires n == 8
    requires p.at == State(0x93b691bf, 0xbfc1d153, 0x97e70935, 0xe3a26387)
    requires p.sum == State(0x9642d31d, 0x8d6cdec5, 0x74bb5408, 0x1b3a410a)
    ensures GoOn(JUMP[2], 0, 4 * n, p).at == State(0xbff3d0da, 0x7dba708f, 0xe0258c47, 0x9cbf5462)
    ensures GoOn(JUMP[2], 0, 4 * n, p).sum == State(0x11b1e89c, 0x3599f039, 0x19e02a3e, 0x2903ecad)
  {
    var word := JUMP[2];
    var a := GoOn(word, 0, n, p);
    var b := GoOn(word, n, n, a);
    var c := GoOn(word, 2 * n, n, b);
    Quarters(word, n, p, a, b, c);
    Part8(word, n, p);
    Part9(word, n, a);
    Part10(word, n, b);
    Part11(word, n, c);
  }

  lemma Word3(n: nat, p: Pair)
    requires n == 8
    requires p.at == State(0xbff3d0da, 0x7dba708f, 0xe0258c47, 0x9cbf5462)
    requires p.sum == State(0x11b1e89c, 0x3599f039, 0x19e02a3e, 0x2903ecad)
    ensures GoOn(JUMP[3], 0, 4 * n, p).at == State(0xc70ef0a4, 0x3f006eb3, 0x1688388c, 0x095331f4)
    ensures GoOn(JUMP[3], 0, 4 * n, p).sum == State(0xde34e7c3, 0x9695e2a5, 0x670fdf17, 0x3bfa5b46)
  {
    var word := JUMP[3];
    var a := GoOn(word, 0, n, p);
    var b := GoOn(word, n, n, a);
    var c := GoOn(word, 2 * n, n, b);
    Quarters(word, n, p, a, b, c);
    Part12(word, n, p);
    Part13(word, n, a);
    Part14(word, n, b);
    Part15(word, n, c);
  }

  /** The state the generator for the seed 42 is in after its jump. */
  lemma PublishedJump(seed42: State)
    requires seed42 == State(4256320204, 2986959751, 2303388788, 2794250740)
    ensures Jumped(seed42) == State(3728009155, 2526405285, 1729093399, 1006263110)
  {
    var p0 := Pair(seed42, State(0, 0, 0, 0));
    var p1 := Go0(seed42, p0);
    var p2 := Go1(seed42, p1);
    var p3 := Go2(seed42, p2);
    var p4 := Go3(seed42, p3);
  }

  lemma Go0(s: State, p: Pair) returns (q: Pair)
    requires p == Pair(s, State(0, 0, 0, 0))
    requires p.at == State(0xfdb24acc, 0xb2096387, 0x894aec74, 0xa68ce1f4)
    requires p.sum == State(0x00000000, 0x00000000, 0x00000000, 0x00000000)
    ensures q == After(JumpBit, s, 32)
    ensures q.at == State(0x23aed3fb, 0x17a03b9b, 0x9469fde8, 0x712cc13c)
    ensures q.sum == State(0x993a27eb, 0x4b42cd6e, 0x66517931, 0xa188c0f4)
  {
    q := GoOn(JUMP[0], 0, 32, p);
    Word0(8, p);
    WordIsSum(s, 0, 0, JUMP[0], p, q, 32, 32);
  }

  lemma Go1(s: State, p: Pair) returns (q: Pair)
    requires p == After(JumpBit, s, 32)
    requires p.at == State(0x23aed3fb, 0x17a03b9b, 0x9469fde8, 0x712cc13c)
    requires p.sum == State(0x993a27eb, 0x4b42cd6e, 0x66517931, 0xa188c0f4)
    ensures q == After(JumpBit, s, 64)
    ensures q.at == State(0x93b691bf, 0xbfc1d153, 0x97e70935, 0xe3a26387)
    ensures q.sum == State(0x9642d31d, 0x8d6cdec5, 0x74bb5408, 0x1b3a410a)
  {
    q := GoOn(JUMP[1], 0, 32, p);
    Word1(8, p);
    WordIsSum(s, 1, 32, JUMP[1], p, q, 32, 64);
  }

  lemma Go2(s: State, p: Pair) returns (q: Pair)
    requires p == After(JumpBit, s, 64)
    requires p.at == State(0x93b691bf, 0xbfc1d153, 0x97e70935, 0xe3a26387)
    requires p.sum == State(0x9642d31d, 0x8d6cdec5, 0x74bb5408, 0x1b3a410a)
    ensures q == After(JumpBit, s, 96)
    ensures q.at == State(0xbff3d0da, 0x7dba708f, 0xe0258c47, 0x9cbf5462)
    ensures q.sum == State(0x11b1e89c, 0x3599f039, 0x19e02a3e, 0x2903ecad)
  {
    q := GoOn(JUMP[2], 0, 32, p);
    Word2(8, p);
    WordIsSum(s, 2, 64, JUMP[2], p, q, 32, 96);
  }

  lemma Go3(s: State, p: Pair) returns (q: Pair)
    requires p == After(JumpBit, s, 96)
    requires p.at == State(0xbff3d0da, 0x7dba708f, 0xe0258c47, 0x9cbf5462)
    requires p.sum == State(0x11b1e89c, 0x3599f039, 0x19e02a3e, 0x2903ecad)
    ensures q.sum == Jumped(s)
    ensures q.at == State(0xc70ef0a4, 0x3f006eb3, 0x1688388c, 0x095331f4)
    ensures q.sum == State(0xde34e7c3, 0x9695e2a5, 0x670fdf17, 0x3bfa5b46)
  {
    q := GoOn(JUMP[3], 0, 32, p);
    Word3(8, p);
    WordIsSum(s, 3, 96, JUMP[3], p, q, 32, 128);
  }
}
