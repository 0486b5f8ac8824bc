/**
 SHA-1 (FIPS 180-4): the in-place loops against the recursive definition of section 6.1.2, and
 the padding of section 5.1.1.
 */
module Sha1 {
  import opened Bytes

  const BLOCK_SIZE: nat := 64

  // The definition ---------------------------------------------------------------------------

  /** ROTL of section 3.2. */
  function RotateLeft(value: bv32, bits: bv32): bv32
    requires bits <= 32
  {
    (value << bits) | (value >> (32 - bits))
  }

  function Ch(x: bv32, y: bv32, z: bv32): bv32 {
    (x & y) ^ (!x & z)
  }

  function Parity(x: bv32, y: bv32, z: bv32): bv32 {
    x ^ y ^ z
  }

  function Maj(x: bv32, y: bv32, z: bv32): bv32 {
    (x & y) ^ (x & z) ^ (y & z)
  }

  /** Ch and Maj as the source writes them. */
  function ChOr(b: bv32, c: bv32, d: bv32): bv32 {
    (b & c) | (!b & d)
  }

  function MajOr(b: bv32, c: bv32, d: bv32): bv32 {
    (b & c) | (b & d) | (c & d)
  }

  /** Addition modulo 2^32. */
  function Plus(x: bv32, y: bv32): bv32 {
    x + y
  }

  function Total(r: bv32, f: bv32, e: bv32, k: bv32, w: bv32): bv32 {
    r + f + e + k + w
  }

  /** Section 4.1.1. */
  function F(t: nat, x: bv32, y: bv32, z: bv32): bv32 {
    if t < 20 then Ch(x, y, z) else if t < 40 then Parity(x, y, z) else if t < 60 then Maj(x, y, z) else Parity(x, y, z)
  }

  /** Section 4.2.1. */
  function K(t: nat): bv32 {
    if t < 20 then 0x5A827999 else if t < 40 then 0x6ED9EBA1 else if t < 60 then 0x8F1BBCDC else 0xCA62C1D6
  }

  datatype Words = Words(a: bv32, b: bv32, c: bv32, d: bv32, e: bv32)

  /** Section 5.3.1. */
  const INITIAL := Words(0x67452301, 0xEFCDAB89, 0x98BADCFE, 0x10325476, 0xC3D2E1F0)

  function Bits(b: Byte): bv32 {
    b as bv32
  }

  /** Four bytes as one word, the most significant first. */
  function Join(b0: bv32, b1: bv32, b2: bv32, b3: bv32): bv32 {
    (b0 << 24) | (b1 << 16) | (b2 << 8) | b3
  }

  /** Word `i` of the block that starts at `start`. */
  function BlockWord(message: seq<Byte>, start: nat, i: nat): bv32
    requires start + 4 * i + 4 <= |message|
  {
    var offset := start + 4 * i;
    Join(Bits(message[offset]), Bits(message[offset + 1]), Bits(message[offset + 2]), Bits(message[offset + 3]))
  }

  function Mixed(x: bv32, y: bv32, z: bv32, u: bv32): bv32 {
    RotateLeft(x ^ y ^ z ^ u, 1)
  }

  /** The message schedule of the block. */
  function W(message: seq<Byte>, start: nat, t: nat): bv32
    requires start + BLOCK_SIZE <= |message|
  {
    if t < 16 then BlockWord(message, start, t)
    else Mixed(W(message, start, t - 3), W(message, start, t - 8), W(message, start, t - 14), W(message, start, t - 16))
  }

  function Round(t: nat, s: Words, w: bv32): Words {
    Words(Total(RotateLeft(s.a, 5), F(t, s.b, s.c, s.d), s.e, K(t), w), s.a, RotateLeft(s.b, 30), s.c, s.d)
  }

  /** The working variables after `t` rounds. */
  function Rounds(h: Words, message: seq<Byte>, start: nat, t: nat): Words
    requires start + BLOCK_SIZE <= |message|
  {
    if t == 0 then h else Round(t - 1, Rounds(h, message, start, t - 1), W(message, start, t - 1))
  }

  function Sum(h: Words, s: Words): Words {
    Words(Plus(h.a, s.a), Plus(h.b, s.b), Plus(h.c, s.c), Plus(h.d, s.d), Plus(h.e, s.e))
  }

  /** The hash value after the first `n` blocks. */
  function Hash(message: seq<Byte>, n: nat): Words
    requires n * BLOCK_SIZE <= |message|
  {
    if n == 0 then INITIAL
    else
      var h := Hash(message, n - 1);
      Sum(h, Rounds(h, message, (n - 1) * BLOCK_SIZE, 80))
  }

  /** Byte `k` of a word, the most significant first. */
  function WordByte(w: bv32, k: bv32): Byte
    requires k < 4
  {
    (((w >> (24 - 8 * k)) & 0xFF) as bv8) as Byte
  }

  function WordBytes(w: bv32): (b: seq<Byte>)
    ensures |b| == 4
  {
    [WordByte(w, 0), WordByte(w, 1), WordByte(w, 2), WordByte(w, 3)]
  }

  function HashBytes(h: Words): (b: seq<Byte>)
    ensures |b| == 20
  {
    WordBytes(h.a) + WordBytes(h.b) + WordBytes(h.c) + WordBytes(h.d) + WordBytes(h.e)
  }

  // Padding ----------------------------------------------------------------------------------

  /** The least number of zero bytes that leaves room for the length in the last block. */
  function ZeroCount(length: nat): (k: nat)
    ensures k < 64 && (length + 1 + k) % BLOCK_SIZE == 56
  {
    (119 - length % 64) % 64
  }

  function Zeros(n: nat): (s: seq<Byte>)
    ensures |s| == n
  {
    seq(n, i => 0)
  }

  function Padded(m: seq<Byte>): (p: seq<Byte>)
    ensures |p| % BLOCK_SIZE == 0
  {
    WholeBlocks(|m| + 1 + ZeroCount(|m|));
    m + [0x80] + Zeros(ZeroCount(|m|)) + BigEndian(8 * |m|, 8)
  }

  lemma WholeBlocks(n: nat)
    requires n % BLOCK_SIZE == 56
    ensures (n + 8) % BLOCK_SIZE == 0
  {}

  /** The digest of section 6.1.2. */
  function Digest(m: seq<Byte>): seq<Byte> {
    var p := Padded(m);
    HashBytes(Hash(p, |p| / BLOCK_SIZE))
  }

  // The loops --------------------------------------------------------------------------------

  /** FIPS 180-4 asks for the least number of zeros; the loop below stops at the first that fits. */
  lemma LeastZeros(length: nat, j: nat)
    requires (length + 1 + j) % BLOCK_SIZE == 56
    ensures ZeroCount(length) <= j
  {}

  method Pad(input: seq<Byte>) returns (message: seq<Byte>)
    ensures message == Padded(input)
  {
    var originalBitLength := 8 * |input| % 0x1_0000_0000_0000_0000;
    message := input + [0x80];
    ghost var zeros := 0;
    assert input + [0x80] + Zeros(0) == input + [0x80];
    while |message| % 64 != 56
      invariant zeros <= ZeroCount(|input|) && message == input + [0x80] + Zeros(zeros)
      decreases ZeroCount(|input|) - zeros
    {
      message := message + [0];
      zeros := zeros + 1;
    }
    LeastZeros(|input|, zeros);
    message := WriteU64(message, originalBitLength);
    TruncatedLength(8 * |input|);
  }

  lemma TruncatedLength(n: nat)
    ensures BigEndian(n % 0x1_0000_0000_0000_0000, 8) == BigEndian(n, 8)
  {
    ReadWritten(n, 8);
    Widths();
    WriteRead(BigEndian(n, 8));
  }

  method FillSchedule(message: seq<Byte>, start: nat, w: array<bv32>)
    requires start + BLOCK_SIZE <= |message| && w.Length == 80
    modifies w
    ensures forall t :: 0 <= t < 80 ==> w[t] == W(message, start, t)
  {
    hide BlockWord, Mixed;
    for i := 0 to 16
      invariant forall t :: 0 <= t < i ==> w[t] == W(message, start, t)
    {
      w[i] := BlockWord(message, start, i);
    }
    for i := 16 to 80
      invariant forall t :: 0 <= t < i ==> w[t] == W(message, start, t)
    {
      w[i] := Mixed(w[i - 3], w[i - 8], w[i - 14], w[i - 16]);
    }
  }

  /** The or-forms of the source are the xor-forms of the standard. */
  lemma OrForms(b: bv32, c: bv32, d: bv32)
    ensures ChOr(b, c, d) == Ch(b, c, d) && MajOr(b, c, d) == Maj(b, c, d)
  {
    ChBits(b, c, d);
    MajBits(b, c, d);
  }

  lemma ChBits(b: bv32, c: bv32, d: bv32)
    ensures (b & c) | (!b & d) == (b & c) ^ (!b & d)
  {}

  lemma MajBits(b: bv32, c: bv32, d: bv32)
    ensures (b & c) | (b & d) | (c & d) == (b & c) ^ (b & d) ^ (c & d)
  {}

  /** The function and the constant of round `i`. */
  method RoundFunction(i: nat, b: bv32, c: bv32, d: bv32) returns (f: bv32, k: bv32)
    ensures f == F(i, b, c, d) && k == K(i)
  {
    hide Ch, Maj, ChOr, MajOr, Parity;
    OrForms(b, c, d);
    if i < 20 {
      f := ChOr(b, c, d);
      k := 0x5A827999;
    } else if i < 40 {
      f := Parity(b, c, d);
      k := 0x6ED9EBA1;
    } else if i < 60 {
      f := MajOr(b, c, d);
      k := 0x8F1BBCDC;
    } else {
      f := Parity(b, c, d);
      k := 0xCA62C1D6;
    }
  }

  method ProcessBlock(message: seq<Byte>, start: nat, h: Words) returns (h': Words)
    requires start + BLOCK_SIZE <= |message|
    ensures h' == Sum(h, Rounds(h, message, start, 80))
  {
    hide F, K, RotateLeft, W, Plus, Total;
    var w := new bv32[80];
    FillSchedule(message, start, w);
    var a, b, c, d, e := h.a, h.b, h.c, h.d, h.e;
    for i := 0 to 80
      invariant forall t :: 0 <= t < 80 ==> w[t] == W(message, start, t)
      invariant Words(a, b, c, d, e) == Rounds(h, message, start, i)
    {
      ghost var s := Words(a, b, c, d, e);
      var f, k := RoundFunction(i, b, c, d);
      var temp := Total(RotateLeft(a, 5), f, e, k, w[i]);
      e := d;
      d := c;
      c := RotateLeft(b, 30);
      b := a;
      a := temp;
      assert Words(a, b, c, d, e) == Round(i, s, W(message, start, i));
    }
    h' := Words(Plus(h.a, a), Plus(h.b, b), Plus(h.c, c), Plus(h.d, d), Plus(h.e, e));
  }

  method Sha1(input: seq<Byte>) returns (digest: array<Byte>)
    ensures fresh(digest) && digest[..] == Digest(input)
  {
    hide Padded, Rounds, Sum;
    var message := Pad(input);
    var h := INITIAL;
    var chunkStart := 0;
    ghost var n := 0;
    while chunkStart < |message|
      invariant chunkStart == n * BLOCK_SIZE <= |message|
      invariant h == Hash(message, n)
    {
      BlockFits(|message|, n);
      h := ProcessBlock(message, chunkStart, h);
      n := n + 1;
      chunkStart := chunkStart + 64;
    }
    assert n == |message| / BLOCK_SIZE;
    digest := WriteDigest(h);
  }

  lemma BlockFits(length: nat, n: nat)
    requires length % BLOCK_SIZE == 0 && n * BLOCK_SIZE < length
    ensures n * BLOCK_SIZE + BLOCK_SIZE <= length
  {}

  lemma DigestWords(h: Words, i: nat, k: nat)
    requires i < 5 && k < 4
    ensures HashBytes(h)[4 * i + k] == WordBytes([h.a, h.b, h.c, h.d, h.e][i])[k]
  {
    hide WordByte;
  }

  method WriteDigest(h: Words) returns (digest: array<Byte>)
    ensures fresh(digest) && digest[..] == HashBytes(h)
  {
    hide WordByte, HashBytes;
    digest := new Byte[20](_ => 0);
    var values := [h.a, h.b, h.c, h.d, h.e];
    for i := 0 to 5
      invariant forall k :: 0 <= k < 4 * i ==> digest[k] == HashBytes(h)[k]
    {
      digest[i * 4 + 0] := WordByte(values[i], 0);
      digest[i * 4 + 1] := WordByte(values[i], 1);
      digest[i * 4 + 2] := WordByte(values[i], 2);
      digest[i * 4 + 3] := WordByte(values[i], 3);
      DigestWords(h, i, 0);
      DigestWords(h, i, 1);
      DigestWords(h, i, 2);
      DigestWords(h, i, 3);
    }
  }

  /** Different messages have different paddings, of any length. */
  lemma PaddingInjective(x: seq<Byte>, y: seq<Byte>)
    requires Padded(x) == Padded(y)
    ensures x == y
  {
    var n := |Padded(x)|;
    assert Padded(x)[n - 8..] == BigEndian(8 * |x|, 8);
    assert Padded(y)[n - 8..] == BigEndian(8 * |y|, 8);
    ReadWritten(8 * |x|, 8);
    ReadWritten(8 * |y|, 8);
    Widths();
    SameLength(|x|, |y|);
    assert x == Padded(x)[..|x|] && y == Padded(y)[..|x|];
  }

  lemma SameLength(l: nat, m: nat)
    requires 8 * l % 0x1_0000_0000_0000_0000 == 8 * m % 0x1_0000_0000_0000_0000
    requires l + ZeroCount(l) == m + ZeroCount(m)
    ensures l == m
  {
    var q, q' := 8 * l / 0x1_0000_0000_0000_0000, 8 * m / 0x1_0000_0000_0000_0000;
    assert 8 * l - 8 * m == 0x1_0000_0000_0000_0000 * (q - q');
    assert -64 < l - m < 64;
  }
}
