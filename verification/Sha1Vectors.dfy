/**
 SHA-1 on two messages whose digests are published: "abc", of one block, and the key and the GUID of
 section 1.3 of RFC 6455, of two. Every word of the schedule and every round is written out and
 checked against the definition, 16 at a time. The rounds are traced by the variable a alone: b to e
 are its earlier values, c to e rotated by 30.
 */
module Sha1Vectors {
  import opened Bytes
  import opened Sha1

  // Sixteen at a time ------------------------------------------------------------------------

  /** Sixteen words of the schedule. */
  predicate WordsAre(
    m: seq<Byte>, start: nat, t: nat, w0: bv32, w1: bv32, w2: bv32, w3: bv32, w4: bv32, w5: bv32, w6: bv32, w7: bv32,
      w8: bv32, w9: bv32, w10: bv32, w11: bv32, w12: bv32, w13: bv32, w14: bv32, w15: bv32)
    requires start + BLOCK_SIZE <= |m|
  {
    && W(m, start, t) == w0 && W(m, start, t + 1) == w1 && W(m, start, t + 2) == w2 && W(m, start, t + 3) == w3
    && W(m, start, t + 4) == w4 && W(m, start, t + 5) == w5 && W(m, start, t + 6) == w6 && W(m, start, t + 7) == w7
    && W(m, start, t + 8) == w8 && W(m, start, t + 9) == w9 && W(m, start, t + 10) == w10 && W(m, start, t + 11) == w11
    && W(m, start, t + 12) == w12 && W(m, start, t + 13) == w13
    && W(m, start, t + 14) == w14 && W(m, start, t + 15) == w15
  }

  lemma Scheduled(m: seq<Byte>, start: nat, t: nat)
    requires start + BLOCK_SIZE <= |m|
    ensures W(m, start, t + 16)
            == Mixed(W(m, start, t + 13), W(m, start, t + 8), W(m, start, t + 2), W(m, start, t))
  {
    hide Mixed, BlockWord;
  }

  lemma NextWords(
    m: seq<Byte>, start: nat, t: nat, w0: bv32, w1: bv32, w2: bv32, w3: bv32, w4: bv32, w5: bv32, w6: bv32, w7: bv32,
      w8: bv32, w9: bv32, w10: bv32, w11: bv32, w12: bv32, w13: bv32, w14: bv32, w15: bv32,
    x0: bv32, x1: bv32, x2: bv32, x3: bv32, x4: bv32, x5: bv32, x6: bv32, x7: bv32, x8: bv32, x9: bv32, x10: bv32,
      x11: bv32, x12: bv32, x13: bv32, x14: bv32, x15: bv32)
    requires start + BLOCK_SIZE <= |m| && WordsAre(m, start, t, w0, w1, w2, w3, w4, w5, w6, w7, w8, w9, w10, w11, w12,
      w13, w14, w15)
    requires x0 == Mixed(w13, w8, w2, w0) && x1 == Mixed(w14, w9, w3, w1)
    requires x2 == Mixed(w15, w10, w4, w2) && x3 == Mixed(x0, w11, w5, w3)
    requires x4 == Mixed(x1, w12, w6, w4) && x5 == Mixed(x2, w13, w7, w5)
    requires x6 == Mixed(x3, w14, w8, w6) && x7 == Mixed(x4, w15, w9, w7)
    requires x8 == Mixed(x5, x0, w10, w8) && x9 == Mixed(x6, x1, w11, w9)
    requires x10 == Mixed(x7, x2, w12, w10) && x11 == Mixed(x8, x3, w13, w11)
    requires x12 == Mixed(x9, x4, w14, w12) && x13 == Mixed(x10, x5, w15, w13)
    requires x14 == Mixed(x11, x6, x0, w14) && x15 == Mixed(x12, x7, x1, w15)
    ensures WordsAre(m, start, t + 16, x0, x1, x2, x3, x4, x5, x6, x7, x8, x9, x10, x11, x12, x13, x14, x15)
  {
    hide Mixed, W;
    Scheduled(m, start, t); Scheduled(m, start, t + 1); Scheduled(m, start, t + 2); Scheduled(m, start, t + 3);
    Scheduled(m, start, t + 4); Scheduled(m, start, t + 5); Scheduled(m, start, t + 6); Scheduled(m, start, t + 7);
    Scheduled(m, start, t + 8); Scheduled(m, start, t + 9); Scheduled(m, start, t + 10); Scheduled(m, start, t + 11);
    Scheduled(m, start, t + 12); Scheduled(m, start, t + 13); Scheduled(m, start, t + 14); Scheduled(m, start, t + 15);
  }

  /** The working variables, in terms of the last five values of a. */
  function Working(a: bv32, b: bv32, c: bv32, d: bv32, e: bv32): Words {
    Words(a, b, RotateLeft(c, 30), RotateLeft(d, 30), RotateLeft(e, 30))
  }

  /** The next value of a. */
  function Next(t: nat, a: bv32, b: bv32, c: bv32, d: bv32, e: bv32, w: bv32): bv32 {
    var c', d', e' := (c << 30) | (c >> 2), (d << 30) | (d >> 2), (e << 30) | (e >> 2);
    Total((a << 5) | (a >> 27), F(t, b, c', d'), e', K(t), w)
  }

  lemma WorkingIs(a: bv32, b: bv32, c: bv32, d: bv32, e: bv32, s: Words)
    requires s == Words(a, b, (c << 30) | (c >> 2), (d << 30) | (d >> 2), (e << 30) | (e >> 2))
    ensures Working(a, b, c, d, e) == s
  {
    hide RotateLeft;
    Rotations(c);
    Rotations(d);
    Rotations(e);
  }

  lemma Rotations(x: bv32)
    ensures RotateLeft(x, 5) == (x << 5) | (x >> 27) && RotateLeft(x, 30) == (x << 30) | (x >> 2)
  {}

  lemma NoRounds(h: Words, m: seq<Byte>, start: nat)
    requires start + BLOCK_SIZE <= |m|
    ensures Rounds(h, m, start, 0) == h
  {}

  lemma NextRound(t: nat, a: bv32, b: bv32, c: bv32, d: bv32, e: bv32, w: bv32)
    ensures Round(t, Working(a, b, c, d, e), w) == Working(Next(t, a, b, c, d, e, w), a, b, c, d)
  {
    hide F, K, Total, RotateLeft;
    Rotations(a);
    Rotations(c);
    Rotations(d);
    Rotations(e);
  }

  lemma NextRounds(
    h: Words, m: seq<Byte>, start: nat, t: nat, w0: bv32, w1: bv32, w2: bv32, w3: bv32, w4: bv32, w5: bv32, w6: bv32,
      w7: bv32, w8: bv32, w9: bv32, w10: bv32, w11: bv32, w12: bv32, w13: bv32, w14: bv32, w15: bv32,
    p0: bv32, p1: bv32, p2: bv32, p3: bv32, p4: bv32,
    y0: bv32, y1: bv32, y2: bv32, y3: bv32, y4: bv32, y5: bv32, y6: bv32, y7: bv32, y8: bv32, y9: bv32, y10: bv32,
      y11: bv32, y12: bv32, y13: bv32, y14: bv32, y15: bv32)
    requires start + BLOCK_SIZE <= |m| && WordsAre(m, start, t, w0, w1, w2, w3, w4, w5, w6, w7, w8, w9, w10, w11, w12,
      w13, w14, w15)
    requires Rounds(h, m, start, t) == Working(p4, p3, p2, p1, p0)
    requires y0 == Next(t, p4, p3, p2, p1, p0, w0) && y1 == Next(t + 1, y0, p4, p3, p2, p1, w1)
    requires y2 == Next(t + 2, y1, y0, p4, p3, p2, w2) && y3 == Next(t + 3, y2, y1, y0, p4, p3, w3)
    requires y4 == Next(t + 4, y3, y2, y1, y0, p4, w4) && y5 == Next(t + 5, y4, y3, y2, y1, y0, w5)
    requires y6 == Next(t + 6, y5, y4, y3, y2, y1, w6) && y7 == Next(t + 7, y6, y5, y4, y3, y2, w7)
    requires y8 == Next(t + 8, y7, y6, y5, y4, y3, w8) && y9 == Next(t + 9, y8, y7, y6, y5, y4, w9)
    requires y10 == Next(t + 10, y9, y8, y7, y6, y5, w10) && y11 == Next(t + 11, y10, y9, y8, y7, y6, w11)
    requires y12 == Next(t + 12, y11, y10, y9, y8, y7, w12) && y13 == Next(t + 13, y12, y11, y10, y9, y8, w13)
    requires y14 == Next(t + 14, y13, y12, y11, y10, y9, w14) && y15 == Next(t + 15, y14, y13, y12, y11, y10, w15)
    ensures Rounds(h, m, start, t + 16) == Working(y15, y14, y13, y12, y11)
  {
    hide Next, Working, Round, W;
    NextRound(t, p4, p3, p2, p1, p0, w0);
    assert Rounds(h, m, start, t + 1) == Working(y0, p4, p3, p2, p1);
    NextRound(t + 1, y0, p4, p3, p2, p1, w1);
    assert Rounds(h, m, start, t + 2) == Working(y1, y0, p4, p3, p2);
    NextRound(t + 2, y1, y0, p4, p3, p2, w2);
    assert Rounds(h, m, start, t + 3) == Working(y2, y1, y0, p4, p3);
    NextRound(t + 3, y2, y1, y0, p4, p3, w3);
    assert Rounds(h, m, start, t + 4) == Working(y3, y2, y1, y0, p4);
    NextRound(t + 4, y3, y2, y1, y0, p4, w4);
    assert Rounds(h, m, start, t + 5) == Working(y4, y3, y2, y1, y0);
    NextRound(t + 5, y4, y3, y2, y1, y0, w5);
    assert Rounds(h, m, start, t + 6) == Working(y5, y4, y3, y2, y1);
    NextRound(t + 6, y5, y4, y3, y2, y1, w6);
    assert Rounds(h, m, start, t + 7) == Working(y6, y5, y4, y3, y2);
    NextRound(t + 7, y6, y5, y4, y3, y2, w7);
    assert Rounds(h, m, start, t + 8) == Working(y7, y6, y5, y4, y3);
    NextRound(t + 8, y7, y6, y5, y4, y3, w8);
    assert Rounds(h, m, start, t + 9) == Working(y8, y7, y6, y5, y4);
    NextRound(t + 9, y8, y7, y6, y5, y4, w9);
    assert Rounds(h, m, start, t + 10) == Working(y9, y8, y7, y6, y5);
    NextRound(t + 10, y9, y8, y7, y6, y5, w10);
    assert Rounds(h, m, start, t + 11) == Working(y10, y9, y8, y7, y6);
    NextRound(t + 11, y10, y9, y8, y7, y6, w11);
    assert Rounds(h, m, start, t + 12) == Working(y11, y10, y9, y8, y7);
    NextRound(t + 12, y11, y10, y9, y8, y7, w12);
    assert Rounds(h, m, start, t + 13) == Working(y12, y11, y10, y9, y8);
    NextRound(t + 13, y12, y11, y10, y9, y8, w13);
    assert Rounds(h, m, start, t + 14) == Working(y13, y12, y11, y10, y9);
    NextRound(t + 14, y13, y12, y11, y10, y9, w14);
    assert Rounds(h, m, start, t + 15) == Working(y14, y13, y12, y11, y10);
    NextRound(t + 15, y14, y13, y12, y11, y10, w15);
  }

  // The blocks -------------------------------------------------------------------------------

  /** The block of "abc". */
  lemma AbcBlock(h: Words, m: seq<Byte>, start: nat)
    requires start + BLOCK_SIZE <= |m| && h == INITIAL
    requires WordsAre(m, start, 0, 0x61626380, 0x00000000, 0x00000000, 0x00000000, 0x00000000, 0x00000000, 0x00000000,
      0x00000000, 0x00000000, 0x00000000, 0x00000000, 0x00000000, 0x00000000, 0x00000000, 0x00000000, 0x00000018)
    ensures Sum(h, Rounds(h, m, start, 80)) == Words(0xa9993e36, 0x4706816a, 0xba3e2571, 0x7850c26c, 0x9cd0d89d)
  {
    hide WordsAre, W, Round, Rounds, Working;
    WorkingIs(0x67452301, 0xefcdab89, 0x62eb73fa, 0x40c951d8, 0x0f4b87c3, h);
    NoRounds(h, m, start);
    NextWords(m, start, 0, 0x61626380, 0x00000000, 0x00000000, 0x00000000, 0x00000000, 0x00000000, 0x00000000,
      0x00000000, 0x00000000, 0x00000000, 0x00000000, 0x00000000, 0x00000000, 0x00000000, 0x00000000, 0x00000018,
      0xc2c4c700, 0x00000000, 0x00000030, 0x85898e01, 0x00000000, 0x00000060, 0x0b131c03, 0x00000030, 0x85898ec1,
      0x16263806, 0x00000000, 0x00000180, 0x2c4c700c, 0x000000f0, 0x93afb507, 0x5898e048);
    NextRounds(h, m, start, 0, 0x61626380, 0x00000000, 0x00000000, 0x00000000, 0x00000000, 0x00000000, 0x00000000,
      0x00000000, 0x00000000, 0x00000000, 0x00000000, 0x00000000, 0x00000000, 0x00000000, 0x00000000, 0x00000018,
      0x0f4b87c3, 0x40c951d8, 0x62eb73fa, 0xefcdab89, 0x67452301, 0x0116fc33, 0x8990536d, 0xa1390f08, 0xcdd8e11b,
      0xcfd499de, 0x3fc7ca40, 0x993e30c1, 0x9e8c07d4, 0x4b6ae328, 0x8351f929, 0xfbda9e89, 0x63188fe4, 0x4607b664,
      0x9128f695, 0x196bee77, 0x20bdd62f);
    NextWords(m, start, 16, 0xc2c4c700, 0x00000000, 0x00000030, 0x85898e01, 0x00000000, 0x00000060, 0x0b131c03,
      0x00000030, 0x85898ec1, 0x16263806, 0x00000000, 0x00000180, 0x2c4c700c, 0x000000f0, 0x93afb507, 0x5898e048,
      0x8e9a9202, 0x00000600, 0xb131c0f0, 0x16263bc6, 0x4ebed41e, 0x626380a1, 0x16263806, 0x000018c0, 0xd2e138c4,
      0x00000f00, 0x3afb5079, 0x898e04e5, 0xe2ba3c2b, 0x000060c0, 0x053a37cd, 0x74458547);
    NextRounds(h, m, start, 16, 0xc2c4c700, 0x00000000, 0x00000030, 0x85898e01, 0x00000000, 0x00000060, 0x0b131c03,
      0x00000030, 0x85898ec1, 0x16263806, 0x00000000, 0x00000180, 0x2c4c700c, 0x000000f0, 0x93afb507, 0x5898e048,
      0x63188fe4, 0x4607b664, 0x9128f695, 0x196bee77, 0x20bdd62f, 0x4e925823, 0x82aa6728, 0xdc64901d, 0xfd9e1d7d,
      0x1a37b0ca, 0x33a23bfc, 0x21283486, 0xd541f12d, 0xc7567dc6, 0x48413ba4, 0xbe35fbd5, 0x4aa84d97, 0x8370b52e,
      0xc5fbaf5d, 0x1267b407, 0x3b845d33);
    NextWords(m, start, 32, 0x8e9a9202, 0x00000600, 0xb131c0f0, 0x16263bc6, 0x4ebed41e, 0x626380a1, 0x16263806,
      0x000018c0, 0xd2e138c4, 0x00000f00, 0x3afb5079, 0x898e04e5, 0xe2ba3c2b, 0x000060c0, 0x053a37cd, 0x74458547,
      0xda9415ed, 0x26380a16, 0x626383a1, 0x4ebf54de, 0x3835b44b, 0x0000f600, 0x1e84c7a3, 0x98e04d98, 0x651d16a0,
      0x62658ca1, 0x458544d6, 0x44584cb7, 0x7ba06619, 0x6380aea2, 0x0ae55269, 0x627b49a1);
    NextRounds(h, m, start, 32, 0x8e9a9202, 0x00000600, 0xb131c0f0, 0x16263bc6, 0x4ebed41e, 0x626380a1, 0x16263806,
      0x000018c0, 0xd2e138c4, 0x00000f00, 0x3afb5079, 0x898e04e5, 0xe2ba3c2b, 0x000060c0, 0x053a37cd, 0x74458547,
      0x4aa84d97, 0x8370b52e, 0xc5fbaf5d, 0x1267b407, 0x3b845d33, 0x046faa0a, 0x2c0ebc11, 0x21796ad4, 0xdcbbb0cb,
      0x0f511fd8, 0xdc63973f, 0x4c986405, 0x32de1cba, 0xfc87dedf, 0x970a0d5c, 0x7f193dc5, 0xee1b1aaf, 0x40f28e09,
      0x1c51e1f2, 0xa01b846c, 0xbead02ca);
    NextWords(m, start, 48, 0xda9415ed, 0x26380a16, 0x626383a1, 0x4ebf54de, 0x3835b44b, 0x0000f600, 0x1e84c7a3,
      0x98e04d98, 0x651d16a0, 0x62658ca1, 0x458544d6, 0x44584cb7, 0x7ba06619, 0x6380aea2, 0x0ae55269, 0x627b49a1,
      0x7cd45c9d, 0x000f0000, 0xfb50753a, 0xec6765e8, 0xba3c2be2, 0x0060c000, 0x3a37cd05, 0x458546f4, 0xb8599dd6,
      0x380a1a26, 0x01e02203, 0xe7cc3456, 0xe6e60b69, 0x00f60a00, 0x5795ef4f, 0x822e0879);
    NextRounds(h, m, start, 48, 0xda9415ed, 0x26380a16, 0x626383a1, 0x4ebf54de, 0x3835b44b, 0x0000f600, 0x1e84c7a3,
      0x98e04d98, 0x651d16a0, 0x62658ca1, 0x458544d6, 0x44584cb7, 0x7ba06619, 0x6380aea2, 0x0ae55269, 0x627b49a1,
      0xee1b1aaf, 0x40f28e09, 0x1c51e1f2, 0xa01b846c, 0xbead02ca, 0xbaf39337, 0x120731c5, 0x641db2ce, 0x3847ad66,
      0xe490436d, 0x27e9f1d8, 0x7b71f76d, 0x5e6456af, 0xc846093f, 0xd262ff50, 0x09d785fd, 0x3f52de5a, 0xd756c147,
      0x548c9cb2, 0xb66c020b, 0x6b61c9e1);
    NextRounds(h, m, start, 64, 0x7cd45c9d, 0x000f0000, 0xfb50753a, 0xec6765e8, 0xba3c2be2, 0x0060c000, 0x3a37cd05,
      0x458546f4, 0xb8599dd6, 0x380a1a26, 0x01e02203, 0xe7cc3456, 0xe6e60b69, 0x00f60a00, 0x5795ef4f, 0x822e0879,
      0x3f52de5a, 0xd756c147, 0x548c9cb2, 0xb66c020b, 0x6b61c9e1, 0x19dfa7ac, 0x101655f9, 0x0c3df2b4, 0x78dd4d2b,
      0x497093c0, 0x3f2588c2, 0xc199f8c7, 0x39859de7, 0xedb42de4, 0x11793f6f, 0x5ee76897, 0x63f7dab7, 0xa079b7d9,
      0x860d21cc, 0x5738d5e1, 0x42541b35);
    WorkingIs(0x42541b35, 0x5738d5e1, 0x860d21cc, 0xa079b7d9, 0x63f7dab7,
              Words(0x42541b35, 0x5738d5e1, 0x21834873, 0x681e6df6, 0xd8fdf6ad));
  }

  /** The first block of key and GUID. */
  lemma FirstBlock(h: Words, m: seq<Byte>, start: nat)
    requires start + BLOCK_SIZE <= |m| && h == INITIAL
    requires WordsAre(m, start, 0, 0x6447686c, 0x49484e68, 0x62584273, 0x5a534275, 0x6232356a, 0x5a513d3d, 0x32353845,
      0x41464135, 0x2d453931, 0x342d3437, 0x44412d39, 0x3543412d, 0x43354142, 0x30444338, 0x35423131, 0x80000000)
    ensures Sum(h, Rounds(h, m, start, 80)) == Words(0x5bcf7727, 0x7327416a, 0xbe7bfbf9, 0x5a781878, 0x5e46a4e2)
  {
    hide WordsAre, W, Round, Rounds, Working;
    WorkingIs(0x67452301, 0xefcdab89, 0x62eb73fa, 0x40c951d8, 0x0f4b87c3, h);
    NoRounds(h, m, start);
    NextWords(m, start, 0, 0x6447686c, 0x49484e68, 0x62584273, 0x5a534275, 0x6232356a, 0x5a513d3d, 0x32353845,
      0x41464135, 0x2d453931, 0x342d3437, 0x44412d39, 0x3543412d, 0x43354142, 0x30444338, 0x35423131, 0x80000000,
      0x363ca02c, 0x24e81236, 0x8856b441, 0x06fb3c92, 0x6fb4bcb6, 0x460b16e3, 0x599219ae, 0x35bf9369, 0x3267458e,
      0xf828fd04, 0x753a96a7, 0x6336f612, 0xc3d66383, 0x06eb86f9, 0x73b4fd42, 0xa503c5b8);
    NextRounds(h, m, start, 0, 0x6447686c, 0x49484e68, 0x62584273, 0x5a534275, 0x6232356a, 0x5a513d3d, 0x32353845,
      0x41464135, 0x2d453931, 0x342d3437, 0x44412d39, 0x3543412d, 0x43354142, 0x30444338, 0x35423131, 0x80000000,
      0x0f4b87c3, 0x40c951d8, 0x62eb73fa, 0xefcdab89, 0x67452301, 0x03fc011f, 0x2f793f55, 0xbe90ee8f, 0x53e039ac,
      0xdd8c7c12, 0x7320b969, 0x73553e84, 0x2e0ce601, 0x32beb05a, 0xfaad2675, 0x5ff4238c, 0x34ceb986, 0x61bdb2bf,
      0xae1a096e, 0xe922cc9d, 0xa004c468);
    NextWords(m, start, 16, 0x363ca02c, 0x24e81236, 0x8856b441, 0x06fb3c92, 0x6fb4bcb6, 0x460b16e3, 0x599219ae,
      0x35bf9369, 0x3267458e, 0xf828fd04, 0x753a96a7, 0x6336f612, 0xc3d66383, 0x06eb86f9, 0x73b4fd42, 0xa503c5b8,
      0x15cdae35, 0x531e5dc5, 0x6fb6b7d0, 0x6c16e4ac, 0x4ddd36bd, 0x35d36946, 0xe8ae8b9c, 0x4a933ad0, 0xce8628b4,
      0x415dba9e, 0x2792f049, 0x8e9b79e7, 0x79c425c5, 0x6353b49d, 0x00994218, 0x8a950ed1);
    NextRounds(h, m, start, 16, 0x363ca02c, 0x24e81236, 0x8856b441, 0x06fb3c92, 0x6fb4bcb6, 0x460b16e3, 0x599219ae,
      0x35bf9369, 0x3267458e, 0xf828fd04, 0x753a96a7, 0x6336f612, 0xc3d66383, 0x06eb86f9, 0x73b4fd42, 0xa503c5b8,
      0x34ceb986, 0x61bdb2bf, 0xae1a096e, 0xe922cc9d, 0xa004c468, 0xd7daf575, 0x7ebb296b, 0x8dc510b6, 0x091ab97c,
      0x518470a3, 0xd12f0b56, 0xbeafd554, 0x250e26ef, 0x23d1c91b, 0x748b39a0, 0xef012f20, 0x571f7d82, 0x1abb1c37,
      0x081b63e5, 0xb7dabc8b, 0xa6680a1f);
    NextWords(m, start, 32, 0x15cdae35, 0x531e5dc5, 0x6fb6b7d0, 0x6c16e4ac, 0x4ddd36bd, 0x35d36946, 0xe8ae8b9c,
      0x4a933ad0, 0xce8628b4, 0x415dba9e, 0x2792f049, 0x8e9b79e7, 0x79c425c5, 0x6353b49d, 0x00994218, 0x8a950ed1,
      0xaf5d0b99, 0xfd9883de, 0x1ed8ffeb, 0xf007ff28, 0x425e3674, 0x059631c0, 0xad6c3c31, 0x860b71d7, 0x87bfc548,
      0x3e64f92d, 0x8d0ab761, 0x34e1ee35, 0x0acf5108, 0xc2b479da, 0x6c93370a, 0xf7935ba1);
    NextRounds(h, m, start, 32, 0x15cdae35, 0x531e5dc5, 0x6fb6b7d0, 0x6c16e4ac, 0x4ddd36bd, 0x35d36946, 0xe8ae8b9c,
      0x4a933ad0, 0xce8628b4, 0x415dba9e, 0x2792f049, 0x8e9b79e7, 0x79c425c5, 0x6353b49d, 0x00994218, 0x8a950ed1,
      0x571f7d82, 0x1abb1c37, 0x081b63e5, 0xb7dabc8b, 0xa6680a1f, 0x1ae360a9, 0xeeaba35a, 0x149bb4d3, 0x9de793c8,
      0x4ccd2227, 0x68760824, 0xd0869081, 0x2ba2c83e, 0xcb8c52d0, 0x4f589a44, 0x868829b7, 0x6dc6a3d7, 0x5f5f3452,
      0x72ff334d, 0xdee4b7a8, 0xabe1748a);
    NextWords(m, start, 48, 0xaf5d0b99, 0xfd9883de, 0x1ed8ffeb, 0xf007ff28, 0x425e3674, 0x059631c0, 0xad6c3c31,
      0x860b71d7, 0x87bfc548, 0x3e64f92d, 0x8d0ab761, 0x34e1ee35, 0x0acf5108, 0xc2b479da, 0x6c93370a, 0xf7935ba1,
      0xe91c91c1, 0xbed165a2, 0x4c3e4abe, 0x50d96238, 0xb6587dde, 0x1a2ee6e6, 0x2d335896, 0xf3495d0b, 0xf30e0a1d,
      0x32ce5459, 0x7165e3b8, 0xab05ff94, 0xc5949f0b, 0xbcd84e4a, 0x07720392, 0xff3ff806);
    NextRounds(h, m, start, 48, 0xaf5d0b99, 0xfd9883de, 0x1ed8ffeb, 0xf007ff28, 0x425e3674, 0x059631c0, 0xad6c3c31,
      0x860b71d7, 0x87bfc548, 0x3e64f92d, 0x8d0ab761, 0x34e1ee35, 0x0acf5108, 0xc2b479da, 0x6c93370a, 0xf7935ba1,
      0x6dc6a3d7, 0x5f5f3452, 0x72ff334d, 0xdee4b7a8, 0xabe1748a, 0x7510d04f, 0x065f8486, 0x0e5d77c4, 0x10e7f671,
      0x26c69395, 0x4c608ac4, 0x50c9104c, 0x7e1242f2, 0x6ef6fef4, 0x0c247c2e, 0xd284f163, 0x4872d85a, 0xcd4200b8,
      0x90f00d8f, 0x840054d3, 0x685e2ff6);
    NextRounds(h, m, start, 64, 0xe91c91c1, 0xbed165a2, 0x4c3e4abe, 0x50d96238, 0xb6587dde, 0x1a2ee6e6, 0x2d335896,
      0xf3495d0b, 0xf30e0a1d, 0x32ce5459, 0x7165e3b8, 0xab05ff94, 0xc5949f0b, 0xbcd84e4a, 0x07720392, 0xff3ff806,
      0x4872d85a, 0xcd4200b8, 0x90f00d8f, 0x840054d3, 0x685e2ff6, 0xa4cee018, 0xc3c2e45b, 0x53131a40, 0xcf8658ec,
      0x966e049a, 0x07381b7e, 0x80d59773, 0x7e65e044, 0x628e7b47, 0x143a8388, 0xe20983f9, 0x69cf0bca, 0x29171009,
      0x97047bec, 0x835995e1, 0xf48a5426);
    WorkingIs(0xf48a5426, 0x835995e1, 0x97047bec, 0x29171009, 0x69cf0bca,
              Words(0xf48a5426, 0x835995e1, 0x25c11efb, 0x4a45c402, 0x9a73c2f2));
  }

  /** The second, which holds the length alone. */
  lemma SecondBlock(h: Words, m: seq<Byte>, start: nat)
    requires start + BLOCK_SIZE <= |m| && h == Words(0x5bcf7727, 0x7327416a, 0xbe7bfbf9, 0x5a781878, 0x5e46a4e2)
    requires WordsAre(m, start, 0, 0x00000000, 0x00000000, 0x00000000, 0x00000000, 0x00000000, 0x00000000, 0x00000000,
      0x00000000, 0x00000000, 0x00000000, 0x00000000, 0x00000000, 0x00000000, 0x00000000, 0x00000000, 0x000001e0)
    ensures Sum(h, Rounds(h, m, start, 80)) == Words(0xb37a4f2c, 0xc0624f16, 0x90f64606, 0xcf385945, 0xb2bec4ea)
  {
    hide WordsAre, W, Round, Rounds, Working;
    WorkingIs(0x5bcf7727, 0x7327416a, 0xf9efefe6, 0x69e061e1, 0x791a9389, h);
    NoRounds(h, m, start);
    NextWords(m, start, 0, 0x00000000, 0x00000000, 0x00000000, 0x00000000, 0x00000000, 0x00000000, 0x00000000,
      0x00000000, 0x00000000, 0x00000000, 0x00000000, 0x00000000, 0x00000000, 0x00000000, 0x00000000, 0x000001e0,
      0x00000000, 0x00000000, 0x000003c0, 0x00000000, 0x00000000, 0x00000780, 0x00000000, 0x000003c0, 0x00000f00,
      0x00000000, 0x00000000, 0x00001e00, 0x00000000, 0x00000cc0, 0x00003c00, 0x00000440);
    NextRounds(h, m, start, 0, 0x00000000, 0x00000000, 0x00000000, 0x00000000, 0x00000000, 0x00000000, 0x00000000,
      0x00000000, 0x00000000, 0x00000000, 0x00000000, 0x00000000, 0x00000000, 0x00000000, 0x00000000, 0x000001e0,
      0x791a9389, 0x69e061e1, 0xf9efefe6, 0x7327416a, 0x5bcf7727, 0x6d335cde, 0x186006b8, 0xf9fb295d, 0x15855523,
      0xe43dd2f2, 0x93a5efbb, 0xb3bbcafe, 0x25c018be, 0x80946593, 0x0b0814c3, 0x4ce92417, 0x250601ad, 0x6576d2dc,
      0xad43f39e, 0x990b7be7, 0x986df268);
    NextWords(m, start, 16, 0x00000000, 0x00000000, 0x000003c0, 0x00000000, 0x00000000, 0x00000780, 0x00000000,
      0x000003c0, 0x00000f00, 0x00000000, 0x00000000, 0x00001e00, 0x00000000, 0x00000cc0, 0x00003c00, 0x00000440,
      0x00000000, 0x00007800, 0x00000f00, 0x00003300, 0x0000f000, 0x00000f00, 0x00000000, 0x0001ef00, 0x00000000,
      0x0000cc00, 0x0003c000, 0x00004380, 0x00000000, 0x00078f00, 0x0000ff00, 0x00032680);
    NextRounds(h, m, start, 16, 0x00000000, 0x00000000, 0x000003c0, 0x00000000, 0x00000000, 0x00000780, 0x00000000,
      0x000003c0, 0x00000f00, 0x00000000, 0x00000000, 0x00001e00, 0x00000000, 0x00000cc0, 0x00003c00, 0x00000440,
      0x250601ad, 0x6576d2dc, 0xad43f39e, 0x990b7be7, 0x986df268, 0x3ad7440e, 0x72198f06, 0x2f193a09, 0x2a008b51,
      0x12315b2b, 0x40fbcf98, 0x3e5179e7, 0x53c73650, 0x1d24c44a, 0x646c677d, 0xd2e726da, 0x9327df6f, 0xf57cb53e,
      0x243ee057, 0xf4ddd7b7, 0x3cf6eb58);
    NextWords(m, start, 32, 0x00000000, 0x00007800, 0x00000f00, 0x00003300, 0x0000f000, 0x00000f00, 0x00000000,
      0x0001ef00, 0x00000000, 0x0000cc00, 0x0003c000, 0x00004380, 0x00000000, 0x00078f00, 0x0000ff00, 0x00032680,
      0x000f0000, 0x0000f000, 0x00003300, 0x001eff00, 0x00000000, 0x000cb800, 0x003c0000, 0x00040b00, 0x0000f000,
      0x0078ff00, 0x000ff000, 0x00338700, 0x00f00000, 0x000fc300, 0x0000f000, 0x01efbb00);
    NextRounds(h, m, start, 32, 0x00000000, 0x00007800, 0x00000f00, 0x00003300, 0x0000f000, 0x00000f00, 0x00000000,
      0x0001ef00, 0x00000000, 0x0000cc00, 0x0003c000, 0x00004380, 0x00000000, 0x00078f00, 0x0000ff00, 0x00032680,
      0x9327df6f, 0xf57cb53e, 0x243ee057, 0xf4ddd7b7, 0x3cf6eb58, 0x730e9170, 0x96d9e59e, 0x942ac4d3, 0x76922a14,
      0x7dbcf2ed, 0x796adef3, 0xc6ff0cd3, 0x6f698f1a, 0x78716769, 0xfc343a02, 0xedfcd85b, 0x1e934acf, 0xfc7bd35f,
      0x3bd9203b, 0xc8cda3da, 0xa3ef857e);
    NextWords(m, start, 48, 0x000f0000, 0x0000f000, 0x00003300, 0x001eff00, 0x00000000, 0x000cb800, 0x003c0000,
      0x00040b00, 0x0000f000, 0x0078ff00, 0x000ff000, 0x00338700, 0x00f00000, 0x000fc300, 0x0000f000, 0x01efbb00,
      0x00000000, 0x00cc0000, 0x03c0f000, 0x00438000, 0x00000000, 0x078f0000, 0x00ff0000, 0x03269e00, 0x0f000000,
      0x00f0f000, 0x00333c00, 0x1eff8800, 0x00000000, 0x0cb88800, 0x3c00f000, 0x040a4a00);
    NextRounds(h, m, start, 48, 0x000f0000, 0x0000f000, 0x00003300, 0x001eff00, 0x00000000, 0x000cb800, 0x003c0000,
      0x00040b00, 0x0000f000, 0x0078ff00, 0x000ff000, 0x00338700, 0x00f00000, 0x000fc300, 0x0000f000, 0x01efbb00,
      0x1e934acf, 0xfc7bd35f, 0x3bd9203b, 0xc8cda3da, 0xa3ef857e, 0xa39f2041, 0xa516f265, 0xa3abe4f5, 0x5fe2a3db,
      0x9e540637, 0x2c73bd78, 0x660dd0b1, 0xa1b68141, 0x05033fa3, 0x21289715, 0x085eb2fe, 0x56119f19, 0x77489e23,
      0x11132f8f, 0xd5ef1ed7, 0xa5937450);
    NextRounds(h, m, start, 64, 0x00000000, 0x00cc0000, 0x03c0f000, 0x00438000, 0x00000000, 0x078f0000, 0x00ff0000,
      0x03269e00, 0x0f000000, 0x00f0f000, 0x00333c00, 0x1eff8800, 0x00000000, 0x0cb88800, 0x3c00f000, 0x040a4a00,
      0x56119f19, 0x77489e23, 0x11132f8f, 0xd5ef1ed7, 0xa5937450, 0x9ecfa66c, 0x17a22ef7, 0xc97f1968, 0x097a511c,
      0x4e363db9, 0xbf3a7f95, 0xf6d1afee, 0xc90888ca, 0xc7652edb, 0x26f99990, 0xe22b36d1, 0x51e08021, 0xd3010335,
      0x49e92837, 0x4d3b0dac, 0x57aad805);
    WorkingIs(0x57aad805, 0x4d3b0dac, 0x49e92837, 0xd3010335, 0x51e08021,
              Words(0x57aad805, 0x4d3b0dac, 0xd27a4a0d, 0x74c040cd, 0x54782008));
  }

  // From messages to words --------------------------------------------------------------------

  lemma WordOf(m: seq<Byte>, start: nat, i: nat, b0: Byte, b1: Byte, b2: Byte, b3: Byte, v: bv32)
    requires start + BLOCK_SIZE <= |m| && i < 16
    requires m[start + 4 * i] == b0 && m[start + 4 * i + 1] == b1 && m[start + 4 * i + 2] == b2
    requires m[start + 4 * i + 3] == b3
    requires Join(Bits(b0), Bits(b1), Bits(b2), Bits(b3)) == v
    ensures W(m, start, i) == v
  {
    hide Join, Bits;
  }

  /** The key of section 1.3 of RFC 6455, and the GUID, as bytes. */
  lemma KeyBytes()
    ensures Text("dGhlIHNhbXBsZSBub25jZQ==") == [0x64, 0x47, 0x68, 0x6c, 0x49, 0x48, 0x4e, 0x68, 0x62, 0x58, 0x42,
      0x73, 0x5a, 0x53, 0x42, 0x75, 0x62, 0x32, 0x35, 0x6a, 0x5a, 0x51, 0x3d, 0x3d]
  {}

  lemma GuidBytes()
    ensures Text("258EAFA5-E914-47DA-95CA-C5AB0DC85B11") == [0x32, 0x35, 0x38, 0x45, 0x41, 0x46, 0x41, 0x35, 0x2d,
      0x45, 0x39, 0x31, 0x34, 0x2d, 0x34, 0x37, 0x44, 0x41, 0x2d, 0x39, 0x35, 0x43, 0x41, 0x2d, 0x43, 0x35, 0x41,
      0x42, 0x30, 0x44, 0x43, 0x38, 0x35, 0x42, 0x31, 0x31]
  {}

  lemma BitsOf()
    ensures Bits(0x00) == 0x00 && Bits(0x01) == 0x01 && Bits(0x18) == 0x18 && Bits(0x2d) == 0x2d && Bits(0x30) == 0x30
    ensures Bits(0x31) == 0x31 && Bits(0x32) == 0x32 && Bits(0x34) == 0x34 && Bits(0x35) == 0x35 && Bits(0x37) == 0x37
    ensures Bits(0x38) == 0x38 && Bits(0x39) == 0x39 && Bits(0x3d) == 0x3d && Bits(0x41) == 0x41 && Bits(0x42) == 0x42
    ensures Bits(0x43) == 0x43 && Bits(0x44) == 0x44 && Bits(0x45) == 0x45 && Bits(0x46) == 0x46 && Bits(0x47) == 0x47
    ensures Bits(0x48) == 0x48 && Bits(0x49) == 0x49 && Bits(0x4e) == 0x4e && Bits(0x51) == 0x51 && Bits(0x53) == 0x53
    ensures Bits(0x58) == 0x58 && Bits(0x5a) == 0x5a && Bits(0x61) == 0x61 && Bits(0x62) == 0x62 && Bits(0x63) == 0x63
    ensures Bits(0x64) == 0x64 && Bits(0x68) == 0x68 && Bits(0x6a) == 0x6a && Bits(0x6c) == 0x6c && Bits(0x73) == 0x73
    ensures Bits(0x75) == 0x75 && Bits(0x80) == 0x80 && Bits(0xe0) == 0xe0
  {}

  lemma KeyAt(m: seq<Byte>)
    requires |m| >= BLOCK_SIZE
    requires m[..24] == [0x64, 0x47, 0x68, 0x6c, 0x49, 0x48, 0x4e, 0x68, 0x62, 0x58, 0x42, 0x73, 0x5a, 0x53, 0x42,
      0x75, 0x62, 0x32, 0x35, 0x6a, 0x5a, 0x51, 0x3d, 0x3d]
    ensures m[0] == 0x64 && m[1] == 0x47 && m[2] == 0x68 && m[3] == 0x6c
    ensures m[4] == 0x49 && m[5] == 0x48 && m[6] == 0x4e && m[7] == 0x68
    ensures m[8] == 0x62 && m[9] == 0x58 && m[10] == 0x42 && m[11] == 0x73
    ensures m[12] == 0x5a && m[13] == 0x53 && m[14] == 0x42 && m[15] == 0x75
    ensures m[16] == 0x62 && m[17] == 0x32 && m[18] == 0x35 && m[19] == 0x6a
    ensures m[20] == 0x5a && m[21] == 0x51 && m[22] == 0x3d && m[23] == 0x3d
  {
    var s := m[..24];
    assert m[0] == s[0] && m[1] == s[1] && m[2] == s[2] && m[3] == s[3];
    assert m[4] == s[4] && m[5] == s[5] && m[6] == s[6] && m[7] == s[7];
    assert m[8] == s[8] && m[9] == s[9] && m[10] == s[10] && m[11] == s[11];
    assert m[12] == s[12] && m[13] == s[13] && m[14] == s[14] && m[15] == s[15];
    assert m[16] == s[16] && m[17] == s[17] && m[18] == s[18] && m[19] == s[19];
    assert m[20] == s[20] && m[21] == s[21] && m[22] == s[22] && m[23] == s[23];
  }

  lemma KeyWords(m: seq<Byte>)
    requires |m| >= BLOCK_SIZE
    requires m[0] == 0x64 && m[1] == 0x47 && m[2] == 0x68 && m[3] == 0x6c
    requires m[4] == 0x49 && m[5] == 0x48 && m[6] == 0x4e && m[7] == 0x68
    requires m[8] == 0x62 && m[9] == 0x58 && m[10] == 0x42 && m[11] == 0x73
    requires m[12] == 0x5a && m[13] == 0x53 && m[14] == 0x42 && m[15] == 0x75
    requires m[16] == 0x62 && m[17] == 0x32 && m[18] == 0x35 && m[19] == 0x6a
    requires m[20] == 0x5a && m[21] == 0x51 && m[22] == 0x3d && m[23] == 0x3d
    ensures W(m, 0, 0) == 0x6447686c
    ensures W(m, 0, 1) == 0x49484e68
    ensures W(m, 0, 2) == 0x62584273
    ensures W(m, 0, 3) == 0x5a534275
    ensures W(m, 0, 4) == 0x6232356a
    ensures W(m, 0, 5) == 0x5a513d3d
  {
    hide W, Bits;
    BitsOf();
    WordOf(m, 0, 0, 0x64, 0x47, 0x68, 0x6c, 0x6447686c);
    WordOf(m, 0, 1, 0x49, 0x48, 0x4e, 0x68, 0x49484e68);
    WordOf(m, 0, 2, 0x62, 0x58, 0x42, 0x73, 0x62584273);
    WordOf(m, 0, 3, 0x5a, 0x53, 0x42, 0x75, 0x5a534275);
    WordOf(m, 0, 4, 0x62, 0x32, 0x35, 0x6a, 0x6232356a);
    WordOf(m, 0, 5, 0x5a, 0x51, 0x3d, 0x3d, 0x5a513d3d);
  }

  lemma GuidAt24(m: seq<Byte>)
    requires |m| >= BLOCK_SIZE
    requires m[24..60] == [0x32, 0x35, 0x38, 0x45, 0x41, 0x46, 0x41, 0x35, 0x2d, 0x45, 0x39, 0x31, 0x34, 0x2d, 0x34,
      0x37, 0x44, 0x41, 0x2d, 0x39, 0x35, 0x43, 0x41, 0x2d, 0x43, 0x35, 0x41, 0x42, 0x30, 0x44, 0x43, 0x38, 0x35,
      0x42, 0x31, 0x31]
    ensures m[24] == 0x32 && m[25] == 0x35 && m[26] == 0x38 && m[27] == 0x45
    ensures m[28] == 0x41 && m[29] == 0x46 && m[30] == 0x41 && m[31] == 0x35
    ensures m[32] == 0x2d && m[33] == 0x45 && m[34] == 0x39 && m[35] == 0x31
  {
    var s := m[24..60];
    assert m[24] == s[0] && m[25] == s[1] && m[26] == s[2] && m[27] == s[3];
    assert m[28] == s[4] && m[29] == s[5] && m[30] == s[6] && m[31] == s[7];
    assert m[32] == s[8] && m[33] == s[9] && m[34] == s[10] && m[35] == s[11];
  }

  lemma GuidWords24(m: seq<Byte>)
    requires |m| >= BLOCK_SIZE
    requires m[24] == 0x32 && m[25] == 0x35 && m[26] == 0x38 && m[27] == 0x45
    requires m[28] == 0x41 && m[29] == 0x46 && m[30] == 0x41 && m[31] == 0x35
    requires m[32] == 0x2d && m[33] == 0x45 && m[34] == 0x39 && m[35] == 0x31
    ensures W(m, 0, 6) == 0x32353845
    ensures W(m, 0, 7) == 0x41464135
    ensures W(m, 0, 8) == 0x2d453931
  {
    hide W, Bits;
    BitsOf();
    WordOf(m, 0, 6, 0x32, 0x35, 0x38, 0x45, 0x32353845);
    WordOf(m, 0, 7, 0x41, 0x46, 0x41, 0x35, 0x41464135);
    WordOf(m, 0, 8, 0x2d, 0x45, 0x39, 0x31, 0x2d453931);
  }

  lemma GuidAt36(m: seq<Byte>)
    requires |m| >= BLOCK_SIZE
    requires m[24..60] == [0x32, 0x35, 0x38, 0x45, 0x41, 0x46, 0x41, 0x35, 0x2d, 0x45, 0x39, 0x31, 0x34, 0x2d, 0x34,
      0x37, 0x44, 0x41, 0x2d, 0x39, 0x35, 0x43, 0x41, 0x2d, 0x43, 0x35, 0x41, 0x42, 0x30, 0x44, 0x43, 0x38, 0x35,
      0x42, 0x31, 0x31]
    ensures m[36] == 0x34 && m[37] == 0x2d && m[38] == 0x34 && m[39] == 0x37
    ensures m[40] == 0x44 && m[41] == 0x41 && m[42] == 0x2d && m[43] == 0x39
    ensures m[44] == 0x35 && m[45] == 0x43 && m[46] == 0x41 && m[47] == 0x2d
  {
    var s := m[24..60];
    assert m[36] == s[12] && m[37] == s[13] && m[38] == s[14] && m[39] == s[15];
    assert m[40] == s[16] && m[41] == s[17] && m[42] == s[18] && m[43] == s[19];
    assert m[44] == s[20] && m[45] == s[21] && m[46] == s[22] && m[47] == s[23];
  }

  lemma GuidWords36(m: seq<Byte>)
    requires |m| >= BLOCK_SIZE
    requires m[36] == 0x34 && m[37] == 0x2d && m[38] == 0x34 && m[39] == 0x37
    requires m[40] == 0x44 && m[41] == 0x41 && m[42] == 0x2d && m[43] == 0x39
    requires m[44] == 0x35 && m[45] == 0x43 && m[46] == 0x41 && m[47] == 0x2d
    ensures W(m, 0, 9) == 0x342d3437
    ensures W(m, 0, 10) == 0x44412d39
    ensures W(m, 0, 11) == 0x3543412d
  {
    hide W, Bits;
    BitsOf();
    WordOf(m, 0, 9, 0x34, 0x2d, 0x34, 0x37, 0x342d3437);
    WordOf(m, 0, 10, 0x44, 0x41, 0x2d, 0x39, 0x44412d39);
    WordOf(m, 0, 11, 0x35, 0x43, 0x41, 0x2d, 0x3543412d);
  }

  lemma GuidAt48(m: seq<Byte>)
    requires |m| >= BLOCK_SIZE
    requires m[24..60] == [0x32, 0x35, 0x38, 0x45, 0x41, 0x46, 0x41, 0x35, 0x2d, 0x45, 0x39, 0x31, 0x34, 0x2d, 0x34,
      0x37, 0x44, 0x41, 0x2d, 0x39, 0x35, 0x43, 0x41, 0x2d, 0x43, 0x35, 0x41, 0x42, 0x30, 0x44, 0x43, 0x38, 0x35,
      0x42, 0x31, 0x31]
    ensures m[48] == 0x43 && m[49] == 0x35 && m[50] == 0x41 && m[51] == 0x42
    ensures m[52] == 0x30 && m[53] == 0x44 && m[54] == 0x43 && m[55] == 0x38
    ensures m[56] == 0x35 && m[57] == 0x42 && m[58] == 0x31 && m[59] == 0x31
  {
    var s := m[24..60];
    assert m[48] == s[24] && m[49] == s[25] && m[50] == s[26] && m[51] == s[27];
    assert m[52] == s[28] && m[53] == s[29] && m[54] == s[30] && m[55] == s[31];
    assert m[56] == s[32] && m[57] == s[33] && m[58] == s[34] && m[59] == s[35];
  }

  lemma GuidWords48(m: seq<Byte>)
    requires |m| >= BLOCK_SIZE
    requires m[48] == 0x43 && m[49] == 0x35 && m[50] == 0x41 && m[51] == 0x42
    requires m[52] == 0x30 && m[53] == 0x44 && m[54] == 0x43 && m[55] == 0x38
    requires m[56] == 0x35 && m[57] == 0x42 && m[58] == 0x31 && m[59] == 0x31
    ensures W(m, 0, 12) == 0x43354142
    ensures W(m, 0, 13) == 0x30444338
    ensures W(m, 0, 14) == 0x35423131
  {
    hide W, Bits;
    BitsOf();
    WordOf(m, 0, 12, 0x43, 0x35, 0x41, 0x42, 0x43354142);
    WordOf(m, 0, 13, 0x30, 0x44, 0x43, 0x38, 0x30444338);
    WordOf(m, 0, 14, 0x35, 0x42, 0x31, 0x31, 0x35423131);
  }

  lemma AbcWords(m: seq<Byte>)
    requires m == [0x61, 0x62, 0x63, 0x80] + Zeros(52) + [0, 0, 0, 0, 0, 0, 0, 24]
    ensures WordsAre(m, 0, 0, 0x61626380, 0x00000000, 0x00000000, 0x00000000, 0x00000000, 0x00000000, 0x00000000,
      0x00000000, 0x00000000, 0x00000000, 0x00000000, 0x00000000, 0x00000000, 0x00000000, 0x00000000, 0x00000018)
  {
    hide W, Bits;
    BitsOf();
    assert m[0..4] == [0x61, 0x62, 0x63, 0x80];
    WordOf(m, 0, 0, 0x61, 0x62, 0x63, 0x80, 0x61626380);
    forall i | 1 <= i < 15 ensures W(m, 0, i) == 0 {
      WordOf(m, 0, i, 0, 0, 0, 0, 0);
    }
    WordOf(m, 0, 15, 0, 0, 0, 24, 24);
  }

  lemma FirstWords(m: seq<Byte>)
    requires |m| == 128 && m[..60] == Text("dGhlIHNhbXBsZSBub25jZQ==") + Text("258EAFA5-E914-47DA-95CA-C5AB0DC85B11")
    requires m[60] == 0x80 && m[61] == m[62] == m[63] == 0
    ensures WordsAre(m, 0, 0, 0x6447686c, 0x49484e68, 0x62584273, 0x5a534275, 0x6232356a, 0x5a513d3d, 0x32353845,
      0x41464135, 0x2d453931, 0x342d3437, 0x44412d39, 0x3543412d, 0x43354142, 0x30444338, 0x35423131, 0x80000000)
  {
    hide W, Bits, Text;
    BitsOf();
    KeyBytes();
    GuidBytes();
    assert m[..24] == m[..60][..24] == Text("dGhlIHNhbXBsZSBub25jZQ==");
    assert m[24..60] == m[..60][24..60] == Text("258EAFA5-E914-47DA-95CA-C5AB0DC85B11");
    KeyAt(m);
    KeyWords(m);
    GuidAt24(m);
    GuidWords24(m);
    GuidAt36(m);
    GuidWords36(m);
    GuidAt48(m);
    GuidWords48(m);
    WordOf(m, 0, 15, 0x80, 0, 0, 0, 0x80000000);
  }

  lemma SecondWords(m: seq<Byte>)
    requires |m| == 128 && m[126] == 0x01 && m[127] == 0xe0 && forall i :: 64 <= i < 126 ==> m[i] == 0
    ensures WordsAre(m, 64, 0, 0x00000000, 0x00000000, 0x00000000, 0x00000000, 0x00000000, 0x00000000, 0x00000000,
      0x00000000, 0x00000000, 0x00000000, 0x00000000, 0x00000000, 0x00000000, 0x00000000, 0x00000000, 0x000001e0)
  {
    hide W, Bits;
    BitsOf();
    forall i | 0 <= i < 15 ensures W(m, 64, i) == 0 {
      WordOf(m, 64, i, 0, 0, 0, 0, 0);
    }
    WordOf(m, 64, 15, 0, 0, 0x01, 0xe0, 0x1e0);
  }

  // The digests -------------------------------------------------------------------------------

  lemma FirstHash(m: seq<Byte>)
    requires |m| >= BLOCK_SIZE
    ensures Hash(m, 1) == Sum(INITIAL, Rounds(INITIAL, m, 0, 80))
  {
    hide Rounds, Sum;
    assert Hash(m, 0) == INITIAL;
  }

  lemma AbcBytes()
    ensures HashBytes(Words(0xa9993e36, 0x4706816a, 0xba3e2571, 0x7850c26c, 0x9cd0d89d)) ==
            [0xa9, 0x99, 0x3e, 0x36, 0x47, 0x06, 0x81, 0x6a, 0xba, 0x3e, 0x25, 0x71, 0x78, 0x50, 0xc2, 0x6c, 0x9c,
              0xd0, 0xd8, 0x9d]
  {}

  lemma OpeningBytes()
    ensures HashBytes(Words(0xb37a4f2c, 0xc0624f16, 0x90f64606, 0xcf385945, 0xb2bec4ea)) ==
            [0xb3, 0x7a, 0x4f, 0x2c, 0xc0, 0x62, 0x4f, 0x16, 0x90, 0xf6, 0x46, 0x06, 0xcf, 0x38, 0x59, 0x45, 0xb2,
              0xbe, 0xc4, 0xea]
  {}

  /** The message of section A.1 of FIPS 180-2. */
  lemma AbcDigest()
    ensures Digest(Text("abc")) ==
            [0xa9, 0x99, 0x3e, 0x36, 0x47, 0x06, 0x81, 0x6a, 0xba, 0x3e, 0x25, 0x71, 0x78, 0x50, 0xc2, 0x6c, 0x9c,
              0xd0, 0xd8, 0x9d]
  {
    hide W, Round, Rounds, Sum, Hash, HashBytes, WordsAre, BlockWord;
    var m := Padded(Text("abc"));
    assert m == [0x61, 0x62, 0x63, 0x80] + Zeros(52) + [0, 0, 0, 0, 0, 0, 0, 24];
    AbcWords(m);
    AbcBlock(INITIAL, m, 0);
    FirstHash(m);
    AbcBytes();
  }

  lemma LengthBytes()
    ensures BigEndian(480, 8) == [0, 0, 0, 0, 0, 0, 0x01, 0xe0]
  {}

  lemma OpeningPadded() returns (m: seq<Byte>)
    ensures m == Padded(Text("dGhlIHNhbXBsZSBub25jZQ==") + Text("258EAFA5-E914-47DA-95CA-C5AB0DC85B11")) && |m| == 128
    ensures m[..60] == Text("dGhlIHNhbXBsZSBub25jZQ==") + Text("258EAFA5-E914-47DA-95CA-C5AB0DC85B11")
    ensures m[60] == 0x80 && (forall i :: 61 <= i < 126 ==> m[i] == 0) && m[126] == 0x01 && m[127] == 0xe0
  {
    hide Text, BigEndian, ZeroCount;
    var opening := Text("dGhlIHNhbXBsZSBub25jZQ==") + Text("258EAFA5-E914-47DA-95CA-C5AB0DC85B11");
    m := Padded(opening);
    LengthBytes();
    LeastZeros(60, 59);
    assert m == opening + [0x80] + Zeros(59) + BigEndian(480, 8);
  }

  /** The key of section 1.3 of RFC 6455 followed by the GUID. */
  lemma OpeningDigest()
    ensures Digest(Text("dGhlIHNhbXBsZSBub25jZQ==") + Text("258EAFA5-E914-47DA-95CA-C5AB0DC85B11")) ==
            [0xb3, 0x7a, 0x4f, 0x2c, 0xc0, 0x62, 0x4f, 0x16, 0x90, 0xf6, 0x46, 0x06, 0xcf, 0x38, 0x59, 0x45, 0xb2,
              0xbe, 0xc4, 0xea]
  {
    hide W, Round, Rounds, Sum, HashBytes, WordsAre, BlockWord, Text, Padded;
    var m := OpeningPadded();
    FirstWords(m);
    SecondWords(m);
    FirstHash(m);
    FirstBlock(INITIAL, m, 0);
    SecondBlock(Hash(m, 1), m, 64);
    OpeningBytes();
  }
}
