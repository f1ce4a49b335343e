/** A known answer of RFC 1321, appendix A.5, worked through operation by operation. */
module Rfc1321Answer {
  import opened Common
  import opened Rfc1321

  /** The sixteen words of the one block of the padded message "abc". */
  predicate AbcWords(x: seq<word>) {
    && |x| == 16 && x[0] == 0x80636261 && x[14] == 24 && x[15] == 0
    && forall i :: 1 <= i < 14 ==> x[i] == 0
  }

  /** Operation i on registers a to d: f is what the auxiliary function gives, f + w = u, u + t = v and
      a + v = m, which rotated is q, and b + q = n is the new register. */
  lemma Next(i: nat, x: seq<word>, a: word, b: word, c: word, d: word, w: word, t: word, s: bv6,
        f: word, u: word, v: word, m: word, q: word, n: word)
    requires i < 64 && |x| == 16 && Operations(i, INIT, x) == Regs(a, b, c, d)
    requires x[K(i)] == w && T(i) == t && Shift(i) == s && Aux(i, b, c, d) == f
    requires Plus(f, w) == u && Plus(u, t) == v && Plus(a, v) == m && Rotl(m, s) == q && Plus(b, q) == n
    ensures Operations(i + 1, INIT, x) == Regs(d, n, b, c)
  {
    hide T, Shift, Aux, K, Plus, Rotl;
  }

  lemma Rows0(x: seq<word>)
    requires AbcWords(x)
    ensures T(0) == 0xd76aa478 && Shift(0) == 7 && x[K(0)] == 0x80636261
    ensures T(1) == 0xe8c7b756 && Shift(1) == 12 && x[K(1)] == 0
    ensures T(2) == 0x242070db && Shift(2) == 17 && x[K(2)] == 0
    ensures T(3) == 0xc1bdceee && Shift(3) == 22 && x[K(3)] == 0
    ensures T(4) == 0xf57c0faf && Shift(4) == 7 && x[K(4)] == 0
    ensures T(5) == 0x4787c62a && Shift(5) == 12 && x[K(5)] == 0
    ensures T(6) == 0xa8304613 && Shift(6) == 17 && x[K(6)] == 0
    ensures T(7) == 0xfd469501 && Shift(7) == 22 && x[K(7)] == 0
  {}

  lemma Aux0()
    ensures Aux(0, 0xefcdab89, 0x98badcfe, 0x10325476) == 0x98badcfe
    ensures Aux(1, 0xd6d117b4, 0xefcdab89, 0x98badcfe) == 0xceebcbca
    ensures Aux(2, 0x344a8432, 0xd6d117b4, 0xefcdab89) == 0xdfc52fb9
    ensures Aux(3, 0x2f6fbd72, 0x344a8432, 0xd6d117b4) == 0xf4da86b6
    ensures Aux(4, 0x7ad956f2, 0x2f6fbd72, 0x344a8432) == 0x2e4b9472
    ensures Aux(5, 0xc73741ef, 0x7ad956f2, 0x2f6fbd72) == 0x6a59fcf2
    ensures Aux(6, 0x8bac3051, 0xc73741ef, 0x7ad956f2) == 0xf37546e3
    ensures Aux(7, 0x207dc67b, 0x8bac3051, 0xc73741ef) == 0xc72e01d5
  {}

  lemma Abc8(x: seq<word>)
    requires AbcWords(x)
    ensures Operations(8, INIT, x) == Regs(0xc73741ef, 0x928d99f6, 0x207dc67b, 0x8bac3051)
  {
    hide Operations, T, Shift, K, Aux;
    Rows0(x);
    Aux0();
    NoOperations(x);
    Next(0, x, 0x67452301, 0xefcdab89, 0x98badcfe, 0x10325476, 0x80636261, 0xd76aa478, 7,
         0x98badcfe, 0x191e3f5f, 0xf088e3d7, 0x57ce06d8, 0xe7036c2b, 0xd6d117b4);
    Next(1, x, 0x10325476, 0xd6d117b4, 0xefcdab89, 0x98badcfe, 0, 0xe8c7b756, 12,
         0xceebcbca, 0xceebcbca, 0xb7b38320, 0xc7e5d796, 0x5d796c7e, 0x344a8432);
    Next(2, x, 0x98badcfe, 0x344a8432, 0xd6d117b4, 0xefcdab89, 0, 0x242070db, 17,
         0xdfc52fb9, 0xdfc52fb9, 0x03e5a094, 0x9ca07d92, 0xfb253940, 0x2f6fbd72);
    Next(3, x, 0xefcdab89, 0x2f6fbd72, 0x344a8432, 0xd6d117b4, 0, 0xc1bdceee, 22,
         0xf4da86b6, 0xf4da86b6, 0xb69855a4, 0xa666012d, 0x4b699980, 0x7ad956f2);
    Next(4, x, 0xd6d117b4, 0x7ad956f2, 0x2f6fbd72, 0x344a8432, 0, 0xf57c0faf, 7,
         0x2e4b9472, 0x2e4b9472, 0x23c7a421, 0xfa98bbd5, 0x4c5deafd, 0xc73741ef);
    Next(5, x, 0x344a8432, 0xc73741ef, 0x7ad956f2, 0x2f6fbd72, 0, 0x4787c62a, 12,
         0x6a59fcf2, 0x6a59fcf2, 0xb1e1c31c, 0xe62c474e, 0xc474ee62, 0x8bac3051);
    Next(6, x, 0x2f6fbd72, 0x8bac3051, 0xc73741ef, 0x7ad956f2, 0, 0xa8304613, 17,
         0xf37546e3, 0xf37546e3, 0x9ba58cf6, 0xcb154a68, 0x94d1962a, 0x207dc67b);
    Next(7, x, 0x7ad956f2, 0x207dc67b, 0x8bac3051, 0xc73741ef, 0, 0xfd469501, 22,
         0xc72e01d5, 0xc72e01d5, 0xc47496d6, 0x3f4dedc8, 0x720fd37b, 0x928d99f6);
  }

  lemma Rows8(x: seq<word>)
    requires AbcWords(x)
    ensures T(8) == 0x698098d8 && Shift(8) == 7 && x[K(8)] == 0
    ensures T(9) == 0x8b44f7af && Shift(9) == 12 && x[K(9)] == 0
    ensures T(10) == 0xffff5bb1 && Shift(10) == 17 && x[K(10)] == 0
    ensures T(11) == 0x895cd7be && Shift(11) == 22 && x[K(11)] == 0
    ensures T(12) == 0x6b901122 && Shift(12) == 7 && x[K(12)] == 0
    ensures T(13) == 0xfd987193 && Shift(13) == 12 && x[K(13)] == 0
    ensures T(14) == 0xa679438e && Shift(14) == 17 && x[K(14)] == 24
    ensures T(15) == 0x49b40821 && Shift(15) == 22 && x[K(15)] == 0
  {}

  lemma Aux8()
    ensures Aux(8, 0x928d99f6, 0x207dc67b, 0x8bac3051) == 0x092da073
    ensures Aux(9, 0x854b3712, 0x928d99f6, 0x207dc67b) == 0xa03dd17b
    ensures Aux(10, 0x74e2f284, 0x854b3712, 0x928d99f6) == 0x864f3b72
    ensures Aux(11, 0x3020401c, 0x74e2f284, 0x854b3712) == 0xb56b7706
    ensures Aux(12, 0x5ed49596, 0x3020401c, 0x74e2f284) == 0x30226214
    ensures Aux(13, 0xdda9b9a6, 0x5ed49596, 0x3020401c) == 0x7c80d19e
    ensures Aux(14, 0xa1051895, 0xdda9b9a6, 0x5ed49596) == 0xdfd19d86
    ensures Aux(15, 0xe396856b, 0xa1051895, 0xdda9b9a6) == 0xbd2d3885
  {}

  lemma Abc16(x: seq<word>)
    requires AbcWords(x) && Operations(8, INIT, x) == Regs(0xc73741ef, 0x928d99f6, 0x207dc67b, 0x8bac3051)
    ensures Operations(16, INIT, x) == Regs(0xdda9b9a6, 0x72aff2e0, 0xe396856b, 0xa1051895)
  {
    hide Operations, T, Shift, K, Aux;
    Rows8(x);
    Aux8();
    Next(8, x, 0xc73741ef, 0x928d99f6, 0x207dc67b, 0x8bac3051, 0, 0x698098d8, 7,
         0x092da073, 0x092da073, 0x72ae394b, 0x39e57b3a, 0xf2bd9d1c, 0x854b3712);
    Next(9, x, 0x8bac3051, 0x854b3712, 0x928d99f6, 0x207dc67b, 0, 0x8b44f7af, 12,
         0xa03dd17b, 0xa03dd17b, 0x2b82c92a, 0xb72ef97b, 0xef97bb72, 0x74e2f284);
    Next(10, x, 0x207dc67b, 0x74e2f284, 0x854b3712, 0x928d99f6, 0, 0xffff5bb1, 17,
         0x864f3b72, 0x864f3b72, 0x864e9723, 0xa6cc5d9e, 0xbb3d4d98, 0x3020401c);
    Next(11, x, 0x928d99f6, 0x3020401c, 0x74e2f284, 0x854b3712, 0, 0x895cd7be, 22,
         0xb56b7706, 0xb56b7706, 0x3ec84ec4, 0xd155e8ba, 0x2eb4557a, 0x5ed49596);
    Next(12, x, 0x854b3712, 0x5ed49596, 0x3020401c, 0x74e2f284, 0, 0x6b901122, 7,
         0x30226214, 0x30226214, 0x9bb27336, 0x20fdaa48, 0x7ed52410, 0xdda9b9a6);
    Next(13, x, 0x74e2f284, 0xdda9b9a6, 0x5ed49596, 0x3020401c, 0, 0xfd987193, 12,
         0x7c80d19e, 0x7c80d19e, 0x7a194331, 0xeefc35b5, 0xc35b5eef, 0xa1051895);
    Next(14, x, 0x3020401c, 0xa1051895, 0xdda9b9a6, 0x5ed49596, 24, 0xa679438e, 17,
         0xdfd19d86, 0xdfd19d9e, 0x864ae12c, 0xb66b2148, 0x42916cd6, 0xe396856b);
    Next(15, x, 0x5ed49596, 0xe396856b, 0xa1051895, 0xdda9b9a6, 0, 0x49b40821, 22,
         0xbd2d3885, 0xbd2d3885, 0x06e140a6, 0x65b5d63c, 0x8f196d75, 0x72aff2e0);
  }

  lemma Rows16(x: seq<word>)
    requires AbcWords(x)
    ensures T(16) == 0xf61e2562 && Shift(16) == 5 && x[K(16)] == 0
    ensures T(17) == 0xc040b340 && Shift(17) == 9 && x[K(17)] == 0
    ensures T(18) == 0x265e5a51 && Shift(18) == 14 && x[K(18)] == 0
    ensures T(19) == 0xe9b6c7aa && Shift(19) == 20 && x[K(19)] == 0x80636261
    ensures T(20) == 0xd62f105d && Shift(20) == 5 && x[K(20)] == 0
    ensures T(21) == 0x02441453 && Shift(21) == 9 && x[K(21)] == 0
    ensures T(22) == 0xd8a1e681 && Shift(22) == 14 && x[K(22)] == 0
    ensures T(23) == 0xe7d3fbc8 && Shift(23) == 20 && x[K(23)] == 0
  {}

  lemma Aux16()
    ensures Aux(16, 0x72aff2e0, 0xe396856b, 0xa1051895) == 0x629795ea
    ensures Aux(17, 0x3e9e9126, 0x72aff2e0, 0xe396856b) == 0x32bff3a2
    ensures Aux(18, 0x4a1d804e, 0x3e9e9126, 0x72aff2e0) == 0x4e1d8146
    ensures Aux(19, 0xe25e1652, 0x4a1d804e, 0x3e9e9126) == 0x621f104a
    ensures Aux(20, 0xb5b204e4, 0xe25e1652, 0x4a1d804e) == 0xa0521654
    ensures Aux(21, 0x59a8ffda, 0xb5b204e4, 0xe25e1652) == 0x55a816f6
    ensures Aux(22, 0x6d002f1e, 0x59a8ffda, 0xb5b204e4) == 0x6d08ff1e
    ensures Aux(23, 0xabfc7920, 0x6d002f1e, 0x59a8ffda) == 0x2da87904
  {}

  lemma Abc24(x: seq<word>)
    requires AbcWords(x) && Operations(16, INIT, x) == Regs(0xdda9b9a6, 0x72aff2e0, 0xe396856b, 0xa1051895)
    ensures Operations(24, INIT, x) == Regs(0x59a8ffda, 0x47092c07, 0xabfc7920, 0x6d002f1e)
  {
    hide Operations, T, Shift, K, Aux;
    Rows16(x);
    Aux16();
    Next(16, x, 0xdda9b9a6, 0x72aff2e0, 0xe396856b, 0xa1051895, 0, 0xf61e2562, 5,
         0x629795ea, 0x629795ea, 0x58b5bb4c, 0x365f74f2, 0xcbee9e46, 0x3e9e9126);
    Next(17, x, 0xa1051895, 0x3e9e9126, 0x72aff2e0, 0xe396856b, 0, 0xc040b340, 9,
         0x32bff3a2, 0x32bff3a2, 0xf300a6e2, 0x9405bf77, 0x0b7eef28, 0x4a1d804e);
    Next(18, x, 0xe396856b, 0x4a1d804e, 0x3e9e9126, 0x72aff2e0, 0, 0x265e5a51, 14,
         0x4e1d8146, 0x4e1d8146, 0x747bdb97, 0x58126102, 0x98409604, 0xe25e1652);
    Next(19, x, 0x72aff2e0, 0xe25e1652, 0x4a1d804e, 0x3e9e9126, 0x80636261, 0xe9b6c7aa, 20,
         0x621f104a, 0xe28272ab, 0xcc393a55, 0x3ee92d35, 0xd353ee92, 0xb5b204e4);
    Next(20, x, 0x3e9e9126, 0xb5b204e4, 0xe25e1652, 0x4a1d804e, 0, 0xd62f105d, 5,
         0xa0521654, 0xa0521654, 0x768126b1, 0xb51fb7d7, 0xa3f6faf6, 0x59a8ffda);
    Next(21, x, 0x4a1d804e, 0x59a8ffda, 0xb5b204e4, 0xe25e1652, 0, 0x02441453, 9,
         0x55a816f6, 0x55a816f6, 0x57ec2b49, 0xa209ab97, 0x13572f44, 0x6d002f1e);
    Next(22, x, 0xe25e1652, 0x6d002f1e, 0x59a8ffda, 0xb5b204e4, 0, 0xd8a1e681, 14,
         0x6d08ff1e, 0x6d08ff1e, 0x45aae59f, 0x2808fbf1, 0x3efc4a02, 0xabfc7920);
    Next(23, x, 0xb5b204e4, 0xabfc7920, 0x6d002f1e, 0x59a8ffda, 0, 0xe7d3fbc8, 20,
         0x2da87904, 0x2da87904, 0x157c74cc, 0xcb2e79b0, 0x9b0cb2e7, 0x47092c07);
  }

  lemma Rows24(x: seq<word>)
    requires AbcWords(x)
    ensures T(24) == 0x21e1cde6 && Shift(24) == 5 && x[K(24)] == 0
    ensures T(25) == 0xc33707d6 && Shift(25) == 9 && x[K(25)] == 24
    ensures T(26) == 0xf4d50d87 && Shift(26) == 14 && x[K(26)] == 0
    ensures T(27) == 0x455a14ed && Shift(27) == 20 && x[K(27)] == 0
    ensures T(28) == 0xa9e3e905 && Shift(28) == 5 && x[K(28)] == 0
    ensures T(29) == 0xfcefa3f8 && Shift(29) == 9 && x[K(29)] == 0
    ensures T(30) == 0x676f02d9 && Shift(30) == 14 && x[K(30)] == 0
    ensures T(31) == 0x8d2a4c8a && Shift(31) == 20 && x[K(31)] == 0
  {}

  lemma Aux24()
    ensures Aux(24, 0x47092c07, 0xabfc7920, 0x6d002f1e) == 0xc7fc7c26
    ensures Aux(25, 0xb7f268cf, 0x47092c07, 0xabfc7920) == 0xe7f16c07
    ensures Aux(26, 0x09388eff, 0xb7f268cf, 0x47092c07) == 0xb1fa4ccf
    ensures Aux(27, 0xfe1623b1, 0x09388eff, 0xb7f268cf) == 0xbe1aa6b1
    ensures Aux(28, 0x786acb8f, 0xfe1623b1, 0x09388eff) == 0xfe2eab8f
    ensures Aux(29, 0x790a77fb, 0x786acb8f, 0xfe1623b1) == 0x786aebbf
    ensures Aux(30, 0x9f47e4f8, 0x790a77fb, 0x786acb8f) == 0x1942f4f8
    ensures Aux(31, 0xa62884aa, 0x9f47e4f8, 0x790a77fb) == 0xa64d84aa
  {}

  lemma Abc32(x: seq<word>)
    requires AbcWords(x) && Operations(24, INIT, x) == Regs(0x59a8ffda, 0x47092c07, 0xabfc7920, 0x6d002f1e)
    ensures Operations(32, INIT, x) == Regs(0x790a77fb, 0x726342d3, 0xa62884aa, 0x9f47e4f8)
  {
    hide Operations, T, Shift, K, Aux;
    Rows24(x);
    Aux24();
    Next(24, x, 0x59a8ffda, 0x47092c07, 0xabfc7920, 0x6d002f1e, 0, 0x21e1cde6, 5,
         0xc7fc7c26, 0xc7fc7c26, 0xe9de4a0c, 0x438749e6, 0x70e93cc8, 0xb7f268cf);
    Next(25, x, 0x6d002f1e, 0xb7f268cf, 0x47092c07, 0xabfc7920, 24, 0xc33707d6, 9,
         0xe7f16c07, 0xe7f16c1f, 0xab2873f5, 0x1828a313, 0x51462630, 0x09388eff);
    Next(26, x, 0xabfc7920, 0x09388eff, 0xb7f268cf, 0x47092c07, 0, 0xf4d50d87, 14,
         0xb1fa4ccf, 0xb1fa4ccf, 0xa6cf5a56, 0x52cbd376, 0xf4dd94b2, 0xfe1623b1);
    Next(27, x, 0x47092c07, 0xfe1623b1, 0x09388eff, 0xb7f268cf, 0, 0x455a14ed, 20,
         0xbe1aa6b1, 0xbe1aa6b1, 0x0374bb9e, 0x4a7de7a5, 0x7a54a7de, 0x786acb8f);
    Next(28, x, 0xb7f268cf, 0x786acb8f, 0xfe1623b1, 0x09388eff, 0, 0xa9e3e905, 5,
         0xfe2eab8f, 0xfe2eab8f, 0xa8129494, 0x6004fd63, 0x009fac6c, 0x790a77fb);
    Next(29, x, 0x09388eff, 0x790a77fb, 0x786acb8f, 0xfe1623b1, 0, 0xfcefa3f8, 9,
         0x786aebbf, 0x786aebbf, 0x755a8fb7, 0x7e931eb6, 0x263d6cfd, 0x9f47e4f8);
    Next(30, x, 0xfe1623b1, 0x9f47e4f8, 0x790a77fb, 0x786acb8f, 0, 0x676f02d9, 14,
         0x1942f4f8, 0x1942f4f8, 0x80b1f7d1, 0x7ec81b82, 0x06e09fb2, 0xa62884aa);
    Next(31, x, 0x786acb8f, 0xa62884aa, 0x9f47e4f8, 0x790a77fb, 0, 0x8d2a4c8a, 20,
         0xa64d84aa, 0xa64d84aa, 0x3377d134, 0xabe29cc3, 0xcc3abe29, 0x726342d3);
  }

  lemma Rows32(x: seq<word>)
    requires AbcWords(x)
    ensures T(32) == 0xfffa3942 && Shift(32) == 4 && x[K(32)] == 0
    ensures T(33) == 0x8771f681 && Shift(33) == 11 && x[K(33)] == 0
    ensures T(34) == 0x6d9d6122 && Shift(34) == 16 && x[K(34)] == 0
    ensures T(35) == 0xfde5380c && Shift(35) == 23 && x[K(35)] == 24
    ensures T(36) == 0xa4beea44 && Shift(36) == 4 && x[K(36)] == 0
    ensures T(37) == 0x4bdecfa9 && Shift(37) == 11 && x[K(37)] == 0
    ensures T(38) == 0xf6bb4b60 && Shift(38) == 16 && x[K(38)] == 0
    ensures T(39) == 0xbebfbc70 && Shift(39) == 23 && x[K(39)] == 0
  {}

  lemma Aux32()
    ensures Aux(32, 0x726342d3, 0xa62884aa, 0x9f47e4f8) == 0x4b0c2281
    ensures Aux(33, 0xb3707ebf, 0x726342d3, 0xa62884aa) == 0x673bb8c6
    ensures Aux(34, 0x60127b2e, 0xb3707ebf, 0x726342d3) == 0xa1014742
    ensures Aux(35, 0x8d212ff5, 0x60127b2e, 0xb3707ebf) == 0x5e432a64
    ensures Aux(36, 0x3b0875c7, 0x8d212ff5, 0x60127b2e) == 0xd63b211c
    ensures Aux(37, 0x21b117b9, 0x3b0875c7, 0x8d212ff5) == 0x97984d8b
    ensures Aux(38, 0x6e7429d5, 0x21b117b9, 0x3b0875c7) == 0x74cd4bab
    ensures Aux(39, 0x3575227e, 0x6e7429d5, 0x21b117b9) == 0x7ab01c12
  {}

  lemma Abc40(x: seq<word>)
    requires AbcWords(x) && Operations(32, INIT, x) == Regs(0x790a77fb, 0x726342d3, 0xa62884aa, 0x9f47e4f8)
    ensures Operations(40, INIT, x) == Regs(0x21b117b9, 0x5a2f5ea5, 0x3575227e, 0x6e7429d5)
  {
    hide Operations, T, Shift, K, Aux;
    Rows32(x);
    Aux32();
    Next(32, x, 0x790a77fb, 0x726342d3, 0xa62884aa, 0x9f47e4f8, 0, 0xfffa3942, 4,
         0x4b0c2281, 0x4b0c2281, 0x4b065bc3, 0xc410d3be, 0x410d3bec, 0xb3707ebf);
    Next(33, x, 0x9f47e4f8, 0xb3707ebf, 0x726342d3, 0xa62884aa, 0, 0x8771f681, 11,
         0x673bb8c6, 0x673bb8c6, 0xeeadaf47, 0x8df5943f, 0xaca1fc6f, 0x60127b2e);
    Next(34, x, 0xa62884aa, 0x60127b2e, 0xb3707ebf, 0x726342d3, 0, 0x6d9d6122, 16,
         0xa1014742, 0xa1014742, 0x0e9ea864, 0xb4c72d0e, 0x2d0eb4c7, 0x8d212ff5);
    Next(35, x, 0x726342d3, 0x8d212ff5, 0x60127b2e, 0xb3707ebf, 24, 0xfde5380c, 23,
         0x5e432a64, 0x5e432a7c, 0x5c286288, 0xce8ba55b, 0xade745d2, 0x3b0875c7);
    Next(36, x, 0xb3707ebf, 0x3b0875c7, 0x8d212ff5, 0x60127b2e, 0, 0xa4beea44, 4,
         0xd63b211c, 0xd63b211c, 0x7afa0b60, 0x2e6a8a1f, 0xe6a8a1f2, 0x21b117b9);
    Next(37, x, 0x60127b2e, 0x21b117b9, 0x3b0875c7, 0x8d212ff5, 0, 0x4bdecfa9, 11,
         0x97984d8b, 0x97984d8b, 0xe3771d34, 0x43899862, 0x4cc3121c, 0x6e7429d5);
    Next(38, x, 0x8d212ff5, 0x6e7429d5, 0x21b117b9, 0x3b0875c7, 0, 0xf6bb4b60, 16,
         0x74cd4bab, 0x74cd4bab, 0x6b88970b, 0xf8a9c700, 0xc700f8a9, 0x3575227e);
    Next(39, x, 0x3b0875c7, 0x3575227e, 0x6e7429d5, 0x21b117b9, 0, 0xbebfbc70, 23,
         0x7ab01c12, 0x7ab01c12, 0x396fd882, 0x74784e49, 0x24ba3c27, 0x5a2f5ea5);
  }

  lemma Rows40(x: seq<word>)
    requires AbcWords(x)
    ensures T(40) == 0x289b7ec6 && Shift(40) == 4 && x[K(40)] == 0
    ensures T(41) == 0xeaa127fa && Shift(41) == 11 && x[K(41)] == 0x80636261
    ensures T(42) == 0xd4ef3085 && Shift(42) == 16 && x[K(42)] == 0
    ensures T(43) == 0x04881d05 && Shift(43) == 23 && x[K(43)] == 0
    ensures T(44) == 0xd9d4d039 && Shift(44) == 4 && x[K(44)] == 0
    ensures T(45) == 0xe6db99e5 && Shift(45) == 11 && x[K(45)] == 0
    ensures T(46) == 0x1fa27cf8 && Shift(46) == 16 && x[K(46)] == 0
    ensures T(47) == 0xc4ac5665 && Shift(47) == 23 && x[K(47)] == 0
  {}

  lemma Aux40()
    ensures Aux(40, 0x5a2f5ea5, 0x3575227e, 0x6e7429d5) == 0x012e550e
    ensures Aux(41, 0x11de1779, 0x5a2f5ea5, 0x3575227e) == 0x7e846ba2
    ensures Aux(42, 0xfadcaa38, 0x11de1779, 0x5a2f5ea5) == 0xb12de3e4
    ensures Aux(43, 0x31c465ca, 0xfadcaa38, 0x11de1779) == 0xdac6d88b
    ensures Aux(44, 0x4c6124f4, 0x31c465ca, 0xfadcaa38) == 0x8779eb06
    ensures Aux(45, 0x7f2e507b, 0x4c6124f4, 0x31c465ca) == 0x028b1145
    ensures Aux(46, 0x99d9679d, 0x7f2e507b, 0x4c6124f4) == 0xaa961312
    ensures Aux(47, 0x8fae6399, 0x99d9679d, 0x7f2e507b) == 0x6959547f
  {}

  lemma Abc48(x: seq<word>)
    requires AbcWords(x) && Operations(40, INIT, x) == Regs(0x21b117b9, 0x5a2f5ea5, 0x3575227e, 0x6e7429d5)
    ensures Operations(48, INIT, x) == Regs(0x7f2e507b, 0x7beb9700, 0x8fae6399, 0x99d9679d)
  {
    hide Operations, T, Shift, K, Aux;
    Rows40(x);
    Aux40();
    Next(40, x, 0x21b117b9, 0x5a2f5ea5, 0x3575227e, 0x6e7429d5, 0, 0x289b7ec6, 4,
         0x012e550e, 0x012e550e, 0x29c9d3d4, 0x4b7aeb8d, 0xb7aeb8d4, 0x11de1779);
    Next(41, x, 0x6e7429d5, 0x11de1779, 0x5a2f5ea5, 0x3575227e, 0x80636261, 0xeaa127fa, 11,
         0x7e846ba2, 0xfee7ce03, 0xe988f5fd, 0x57fd1fd2, 0xe8fe92bf, 0xfadcaa38);
    Next(42, x, 0x3575227e, 0xfadcaa38, 0x11de1779, 0x5a2f5ea5, 0, 0xd4ef3085, 16,
         0xb12de3e4, 0xb12de3e4, 0x861d1469, 0xbb9236e7, 0x36e7bb92, 0x31c465ca);
    Next(43, x, 0x5a2f5ea5, 0x31c465ca, 0xfadcaa38, 0x11de1779, 0, 0x04881d05, 23,
         0xdac6d88b, 0xdac6d88b, 0xdf4ef590, 0x397e5435, 0x1a9cbf2a, 0x4c6124f4);
    Next(44, x, 0x11de1779, 0x4c6124f4, 0x31c465ca, 0xfadcaa38, 0, 0xd9d4d039, 4,
         0x8779eb06, 0x8779eb06, 0x614ebb3f, 0x732cd2b8, 0x32cd2b87, 0x7f2e507b);
    Next(45, x, 0xfadcaa38, 0x7f2e507b, 0x4c6124f4, 0x31c465ca, 0, 0xe6db99e5, 11,
         0x028b1145, 0x028b1145, 0xe966ab2a, 0xe4435562, 0x1aab1722, 0x99d9679d);
    Next(46, x, 0x31c465ca, 0x99d9679d, 0x7f2e507b, 0x4c6124f4, 0, 0x1fa27cf8, 16,
         0xaa961312, 0xaa961312, 0xca38900a, 0xfbfcf5d4, 0xf5d4fbfc, 0x8fae6399);
    Next(47, x, 0x4c6124f4, 0x8fae6399, 0x99d9679d, 0x7f2e507b, 0, 0xc4ac5665, 23,
         0x6959547f, 0x6959547f, 0x2e05aae4, 0x7a66cfd8, 0xec3d3367, 0x7beb9700);
  }

  lemma Rows48(x: seq<word>)
    requires AbcWords(x)
    ensures T(48) == 0xf4292244 && Shift(48) == 6 && x[K(48)] == 0x80636261
    ensures T(49) == 0x432aff97 && Shift(49) == 10 && x[K(49)] == 0
    ensures T(50) == 0xab9423a7 && Shift(50) == 15 && x[K(50)] == 24
    ensures T(51) == 0xfc93a039 && Shift(51) == 21 && x[K(51)] == 0
    ensures T(52) == 0x655b59c3 && Shift(52) == 6 && x[K(52)] == 0
    ensures T(53) == 0x8f0ccc92 && Shift(53) == 10 && x[K(53)] == 0
    ensures T(54) == 0xffeff47d && Shift(54) == 15 && x[K(54)] == 0
    ensures T(55) == 0x85845dd1 && Shift(55) == 21 && x[K(55)] == 0
  {}

  lemma Aux48()
    ensures Aux(48, 0x7beb9700, 0x8fae6399, 0x99d9679d) == 0xf041fcfb
    ensures Aux(49, 0x7b201df8, 0x7beb9700, 0x8fae6399) == 0x009a0afe
    ensures Aux(50, 0xf4e8e96e, 0x7b201df8, 0x7beb9700) == 0x8fdcf407
    ensures Aux(51, 0xb298cefd, 0xf4e8e96e, 0x7b201df8) == 0x42370791
    ensures Aux(52, 0x8bf025c4, 0xb298cefd, 0xf4e8e96e) == 0x396ff928
    ensures Aux(53, 0x06cc5e8a, 0x8bf025c4, 0xb298cefd) == 0xc41f5a4e
    ensures Aux(54, 0x5b0d97aa, 0x06cc5e8a, 0x8bf025c4) == 0x79c38131
    ensures Aux(55, 0x7d632dd0, 0x5b0d97aa, 0x06cc5e8a) == 0xa67e3a5f
  {}

  lemma Abc56(x: seq<word>)
    requires AbcWords(x) && Operations(48, INIT, x) == Regs(0x7f2e507b, 0x7beb9700, 0x8fae6399, 0x99d9679d)
    ensures Operations(56, INIT, x) == Regs(0x06cc5e8a, 0x3bfa2c27, 0x7d632dd0, 0x5b0d97aa)
  {
    hide Operations, T, Shift, K, Aux;
    Rows48(x);
    Aux48();
    Next(48, x, 0x7f2e507b, 0x7beb9700, 0x8fae6399, 0x99d9679d, 0x80636261, 0xf4292244, 6,
         0xf041fcfb, 0x70a55f5c, 0x64ce81a0, 0xe3fcd21b, 0xff3486f8, 0x7b201df8);
    Next(49, x, 0x99d9679d, 0x7b201df8, 0x7beb9700, 0x8fae6399, 0, 0x432aff97, 10,
         0x009a0afe, 0x009a0afe, 0x43c50a95, 0xdd9e7232, 0x79c8cb76, 0xf4e8e96e);
    Next(50, x, 0x8fae6399, 0xf4e8e96e, 0x7b201df8, 0x7beb9700, 24, 0xab9423a7, 15,
         0x8fdcf407, 0x8fdcf41f, 0x3b7117c6, 0xcb1f7b5f, 0xbdafe58f, 0xb298cefd);
    Next(51, x, 0x7beb9700, 0xb298cefd, 0xf4e8e96e, 0x7b201df8, 0, 0xfc93a039, 21,
         0x42370791, 0x42370791, 0x3ecaa7ca, 0xbab63eca, 0xd95756c7, 0x8bf025c4);
    Next(52, x, 0x7b201df8, 0x8bf025c4, 0xb298cefd, 0xf4e8e96e, 0, 0x655b59c3, 6,
         0x396ff928, 0x396ff928, 0x9ecb52eb, 0x19eb70e3, 0x7adc38c6, 0x06cc5e8a);
    Next(53, x, 0xf4e8e96e, 0x06cc5e8a, 0x8bf025c4, 0xb298cefd, 0, 0x8f0ccc92, 10,
         0xc41f5a4e, 0xc41f5a4e, 0x532c26e0, 0x4815104e, 0x54413920, 0x5b0d97aa);
    Next(54, x, 0xb298cefd, 0x5b0d97aa, 0x06cc5e8a, 0x8bf025c4, 0, 0xffeff47d, 15,
         0x79c38131, 0x79c38131, 0x79b375ae, 0x2c4c44ab, 0x22559626, 0x7d632dd0);
    Next(55, x, 0x8bf025c4, 0x7d632dd0, 0x5b0d97aa, 0x06cc5e8a, 0, 0x85845dd1, 21,
         0xa67e3a5f, 0xa67e3a5f, 0x2c029830, 0xb7f2bdf4, 0xbe96fe57, 0x3bfa2c27);
  }

  lemma Rows56(x: seq<word>)
    requires AbcWords(x)
    ensures T(56) == 0x6fa87e4f && Shift(56) == 6 && x[K(56)] == 0
    ensures T(57) == 0xfe2ce6e0 && Shift(57) == 10 && x[K(57)] == 0
    ensures T(58) == 0xa3014314 && Shift(58) == 15 && x[K(58)] == 0
    ensures T(59) == 0x4e0811a1 && Shift(59) == 21 && x[K(59)] == 0
    ensures T(60) == 0xf7537e82 && Shift(60) == 6 && x[K(60)] == 0
    ensures T(61) == 0xbd3af235 && Shift(61) == 10 && x[K(61)] == 0
    ensures T(62) == 0x2ad7d2bb && Shift(62) == 15 && x[K(62)] == 0
    ensures T(63) == 0xeb86d391 && Shift(63) == 21 && x[K(63)] == 0
  {}

  lemma Aux56()
    ensures Aux(56, 0x3bfa2c27, 0x7d632dd0, 0x5b0d97aa) == 0xc29941a7
    ensures Aux(57, 0x7f81cc35, 0x3bfa2c27, 0x7d632dd0) == 0xc467f218
    ensures Aux(58, 0x094454ab, 0x7f81cc35, 0x3bfa2c27) == 0xb2c41bce
    ensures Aux(59, 0x4f9dbe3f, 0x094454ab, 0x7f81cc35) == 0xc6bbeb54
    ensures Aux(60, 0x7327d604, 0x4f9dbe3f, 0x094454ab) == 0xb822416b
    ensures Aux(61, 0x310ade8f, 0x7327d604, 0x4f9dbe3f) == 0xc24d09cb
    ensures Aux(62, 0x624d8cb2, 0x310ade8f, 0x7327d604) == 0xdfd77374
    ensures Aux(63, 0xe484b9d8, 0x624d8cb2, 0x310ade8f) == 0x8cb8354a
  {}

  lemma Abc64(x: seq<word>)
    requires AbcWords(x) && Operations(56, INIT, x) == Regs(0x06cc5e8a, 0x3bfa2c27, 0x7d632dd0, 0x5b0d97aa)
    ensures Operations(64, INIT, x) == Regs(0x310ade8f, 0xc08226b3, 0xe484b9d8, 0x624d8cb2)
  {
    hide Operations, T, Shift, K, Aux;
    Rows56(x);
    Aux56();
    Next(56, x, 0x06cc5e8a, 0x3bfa2c27, 0x7d632dd0, 0x5b0d97aa, 0, 0x6fa87e4f, 6,
         0xc29941a7, 0xc29941a7, 0x3241bff6, 0x390e1e80, 0x4387a00e, 0x7f81cc35);
    Next(57, x, 0x5b0d97aa, 0x7f81cc35, 0x3bfa2c27, 0x7d632dd0, 0, 0xfe2ce6e0, 10,
         0xc467f218, 0xc467f218, 0xc294d8f8, 0x1da270a2, 0x89c28876, 0x094454ab);
    Next(58, x, 0x7d632dd0, 0x094454ab, 0x7f81cc35, 0x3bfa2c27, 0, 0xa3014314, 15,
         0xb2c41bce, 0xb2c41bce, 0x55c55ee2, 0xd3288cb2, 0x46596994, 0x4f9dbe3f);
    Next(59, x, 0x3bfa2c27, 0x4f9dbe3f, 0x094454ab, 0x7f81cc35, 0, 0x4e0811a1, 21,
         0xc6bbeb54, 0xc6bbeb54, 0x14c3fcf5, 0x50be291c, 0x238a17c5, 0x7327d604);
    Next(60, x, 0x7f81cc35, 0x7327d604, 0x4f9dbe3f, 0x094454ab, 0, 0xf7537e82, 6,
         0xb822416b, 0xb822416b, 0xaf75bfed, 0x2ef78c22, 0xbde3088b, 0x310ade8f);
    Next(61, x, 0x094454ab, 0x310ade8f, 0x7327d604, 0x4f9dbe3f, 0, 0xbd3af235, 10,
         0xc24d09cb, 0xc24d09cb, 0x7f87fc00, 0x88cc50ab, 0x3142ae23, 0x624d8cb2);
    Next(62, x, 0x4f9dbe3f, 0x624d8cb2, 0x310ade8f, 0x7327d604, 0, 0x2ad7d2bb, 15,
         0xdfd77374, 0xdfd77374, 0x0aaf462f, 0x5a4d046e, 0x82372d26, 0xe484b9d8);
    Next(63, x, 0x7327d604, 0xe484b9d8, 0x624d8cb2, 0x310ade8f, 0, 0xeb86d391, 21,
         0x8cb8354a, 0x8cb8354a, 0x783f08db, 0xeb66dedf, 0xdbfd6cdb, 0xc08226b3);
  }

  lemma NoOperations(x: seq<word>)
    requires |x| == 16
    ensures Operations(0, INIT, x) == INIT
  {}

  lemma AbcOperations(x: seq<word>)
    requires AbcWords(x)
    ensures Operations(64, INIT, x) == Regs(0x310ade8f, 0xc08226b3, 0xe484b9d8, 0x624d8cb2)
  {
    hide Operations, AbcWords;
    Abc8(x);
    Abc16(x);
    Abc24(x);
    Abc32(x);
    Abc40(x);
    Abc48(x);
    Abc56(x);
    Abc64(x);
  }

  const ABC: seq<octet> := [0x61, 0x62, 0x63]

  function AbcBlock(): (b: seq<octet>)
    ensures |b| == 64
  {
    ABC + [0x80] + Zeros(52) + [24, 0, 0, 0, 0, 0, 0, 0]
  }

  lemma AbcPadded()
    ensures Pad(ABC) == AbcBlock()
  {
    hide Zeros;
    AbcLength();
    assert ZeroCount(3) == 52;
  }

  lemma AbcLength()
    ensures LengthBytes(24) == [24, 0, 0, 0, 0, 0, 0, 0]
  {
    ByteOfSmall(24);
    ByteOfSmall(0);
  }

  lemma ByteOfSmall(n: nat)
    requires n == 0 || n == 24
    ensures n == 0 ==> ByteOf(n) == 0
    ensures n == 24 ==> ByteOf(n) == 24
  {}

  lemma PackZero()
    ensures Pack(0, 0, 0, 0) == 0 && Pack(24, 0, 0, 0) == 24 && Pack(0x61, 0x62, 0x63, 0x80) == 0x80636261
  {}

  lemma AbcBlockWords()
    ensures AbcWords(Words(AbcBlock()))
  {
    hide Pack;
    PackZero();
    var b := AbcBlock();
    assert b[0] == 0x61 && b[1] == 0x62 && b[2] == 0x63 && b[3] == 0x80;
    assert b[56] == 24 && forall i :: 4 <= i < 64 && i != 56 ==> b[i] == 0;
  }

  /** MD5 ("abc") = 900150983cd24fb0d6963f7d28e17f72. */
  lemma DigestOfAbc()
    ensures Digest([0x61, 0x62, 0x63]) == [0x90, 0x01, 0x50, 0x98, 0x3c, 0xd2, 0x4f, 0xb0,
                                           0xd6, 0x96, 0x3f, 0x7d, 0x28, 0xe1, 0x7f, 0x72]
  {
    hide Pad, Operations, WordBytes, Words, Compress, Plus;
    AbcPadded();
    AbcBlockWords();
    AbcOperations(Words(AbcBlock()));
    ProcessOne(INIT, AbcBlock());
    AbcCompressed();
    AbcBytes();
  }

  lemma AbcCompressed()
    requires Operations(64, INIT, Words(AbcBlock())) == Regs(0x310ade8f, 0xc08226b3, 0xe484b9d8, 0x624d8cb2)
    ensures Compress(INIT, AbcBlock()) == Regs(0x98500190, 0xb04fd23c, 0x7d3f96d6, 0x727fe128)
  {
    hide Operations, Words, AbcBlock;
  }

  lemma AbcBytes()
    ensures WordBytes(0x98500190) == [0x90, 0x01, 0x50, 0x98]
    ensures WordBytes(0xb04fd23c) == [0x3c, 0xd2, 0x4f, 0xb0]
    ensures WordBytes(0x7d3f96d6) == [0xd6, 0x96, 0x3f, 0x7d]
    ensures WordBytes(0x727fe128) == [0x28, 0xe1, 0x7f, 0x72]
  {}
}
