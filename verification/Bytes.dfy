/**
 Bytes and the big-endian reading and writing of unsigned integers that every wire format of
 the system shares. `value >> 8k & 0xFF` is written as division and remainder.
 */
module Bytes {

  type Byte = n: nat | n < 256

  type U64 = n: nat | n < 0x1_0000_0000_0000_0000

  /** The characters of a text as bytes. */
  function Text(s: string): (b: seq<Byte>)
    ensures |b| == |s|
  {
    seq(|s|, i requires 0 <= i < |s| => s[i] as int % 0x100)
  }

  function Pow256(k: nat): (p: nat)
    ensures p > 0
  {
    if k == 0 then 1 else 256 * Pow256(k - 1)
  }

  /** The low `k` bytes of `v`, most significant first. */
  function BigEndian(v: nat, k: nat): (s: seq<Byte>)
    ensures |s| == k
  {
    if k == 0 then [] else BigEndian(v / 256, k - 1) + [v % 256]
  }

  /** The unsigned integer whose big-endian bytes are `s`. */
  function FromBigEndian(s: seq<Byte>): nat {
    if s == [] then 0 else 256 * FromBigEndian(s[..|s| - 1]) + s[|s| - 1]
  }

  /** Reading back what was written gives the value truncated to the field's width. */
  lemma {:induction false} ReadWritten(v: nat, k: nat)
    ensures FromBigEndian(BigEndian(v, k)) == v % Pow256(k)
  {
    if k == 0 {
    } else {
      var s := BigEndian(v, k);
      assert s[..|s| - 1] == BigEndian(v / 256, k - 1);
      ReadWritten(v / 256, k - 1);
      ModByDigits(v, Pow256(k - 1));
    }
  }

  lemma ModByDigits(v: nat, m: nat)
    requires m > 0
    ensures v % (256 * m) == 256 * (v / 256 % m) + v % 256
  {
    var q, r := v / 256 / m, v / 256 % m;
    assert v / 256 == q * m + r;
    assert v == (256 * m) * q + (256 * r + v % 256);
    DivModUnique(v, 256 * m, q, 256 * r + v % 256);
  }

  lemma MulMonotone(d: nat, i: int, j: int)
    requires i <= j
    ensures d * i <= d * j
    decreases j - i
  {
    if i == j {
    } else {
      MulMonotone(d, i + 1, j);
    }
  }

  lemma DivModUnique(v: int, d: int, q: int, r: int)
    requires d > 0 && v == d * q + r && 0 <= r < d
    ensures v / d == q && v % d == r
  {
    var q', r' := v / d, v % d;
    assert v == d * q' + r';
    if q < q' {
      MulMonotone(d, q + 1, q');
    } else if q' < q {
      MulMonotone(d, q' + 1, q);
    }
  }

  lemma {:induction false} ReadBound(s: seq<Byte>)
    ensures FromBigEndian(s) < Pow256(|s|)
  {
    if s == [] {
    } else {
      ReadBound(s[..|s| - 1]);
    }
  }

  /** Writing back what was read gives the same bytes. */
  lemma {:induction false} WriteRead(s: seq<Byte>)
    ensures BigEndian(FromBigEndian(s), |s|) == s
  {
    if s == [] {
    } else {
      WriteRead(s[..|s| - 1]);
      assert s == s[..|s| - 1] + [s[|s| - 1]];
    }
  }

  lemma Widths()
    ensures Pow256(2) == 0x1_0000
    ensures Pow256(4) == 0x1_0000_0000
    ensures Pow256(8) == 0x1_0000_0000_0000_0000
  {
    assert Pow256(2) == 256 * 256 * Pow256(0);
    assert Pow256(4) == 256 * 256 * Pow256(2);
    assert Pow256(6) == 256 * 256 * Pow256(4);
    assert Pow256(8) == 256 * 256 * Pow256(6);
  }

  lemma ReadWritten16(v: nat)
    ensures FromBigEndian(BigEndian(v, 2)) == v % 0x1_0000
  {
    ReadWritten(v, 2);
    Widths();
  }

  lemma ReadWritten32(v: nat)
    ensures FromBigEndian(BigEndian(v, 4)) == v % 0x1_0000_0000
  {
    ReadWritten(v, 4);
    Widths();
  }

  lemma ReadWritten64(v: nat)
    requires v < 0x1_0000_0000_0000_0000
    ensures FromBigEndian(BigEndian(v, 8)) == v
  {
    ReadWritten(v, 8);
    Widths();
  }

  method WriteU16(buffer: seq<Byte>, value: nat) returns (out: seq<Byte>)
    ensures out == buffer + BigEndian(value, 2)
  {
    out := buffer + [value / 0x100 % 0x100];
    out := out + [value % 0x100];
    assert BigEndian(value, 2) == BigEndian(value / 0x100, 1) + [value % 0x100];
  }

  /** `v >> 8k`. */
  function Shifted(v: nat, k: nat): nat {
    if k == 0 then v else Shifted(v, k - 1) / 256
  }

  /** One more digit of a number of eight, from the top. */
  lemma DigitAppended(bits: nat, k: nat)
    requires k < 8
    ensures BigEndian(Shifted(bits, k), 8 - k) == BigEndian(Shifted(bits, k + 1), 7 - k) + [Shifted(bits, k) % 0x100]
  {
    assert Shifted(bits, k + 1) == Shifted(bits, k) / 256;
  }

  lemma FirstAndLast(bits: U64)
    ensures BigEndian(Shifted(bits, 8), 0) == [] && Shifted(bits, 0) == bits
  {}

  /** `writeF64BE` and the length fields of SHA-1 and WebSocket: the shift goes from 56 down to 0 in steps of 8. */
  method WriteU64(buffer: seq<Byte>, bits: U64) returns (out: seq<Byte>)
    ensures out == buffer + BigEndian(bits, 8)
  {
    hide BigEndian, Shifted;
    out := buffer;
    var bytesLeft := 8;
    FirstAndLast(bits);
    while bytesLeft > 0
      invariant 0 <= bytesLeft <= 8
      invariant out == buffer + BigEndian(Shifted(bits, bytesLeft), 8 - bytesLeft)
    {
      bytesLeft := bytesLeft - 1;
      DigitAppended(bits, bytesLeft);
      out := out + [Shifted(bits, bytesLeft) % 0x100];
    }
  }

  /** `readF64BE`: folds the bytes into the pattern. */
  method ReadU64(b: seq<Byte>) returns (bits: U64)
    requires |b| == 8
    ensures bits == FromBigEndian(b)
  {
    var folded: nat := 0;
    var i := 0;
    while i < 8
      invariant 0 <= i <= 8
      invariant folded == FromBigEndian(b[..i])
    {
      assert b[..i + 1][..i] == b[..i];
      folded := folded * 0x100 + b[i];
      i := i + 1;
    }
    assert b[..8] == b;
    ReadBound(b);
    Widths();
    bits := folded;
  }
}
