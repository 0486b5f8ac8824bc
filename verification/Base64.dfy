/** Base64 (RFC 4648 section 4): the encoding loop against a definition with a decoder as inverse. */
module Base64 {
  import opened Wrappers
  import opened Bytes

  const UPPER := "ABCDEFGHIJKLMNOPQRSTUVWXYZ"
  const LOWER := "abcdefghijklmnopqrstuvwxyz"
  const OTHERS := "0123456789+/"
  const ALPHABET := UPPER + LOWER + OTHERS

  function Digit(i: nat): char
    requires i < 64
  {
    ALPHABET[i]
  }

  /** The value of a character of the alphabet. */
  function Value(c: char): (v: Option<nat>)
    ensures v.Some? ==> v.value < 64
  {
    if 'A' <= c <= 'Z' then Some(c as nat - 'A' as nat)
    else if 'a' <= c <= 'z' then Some(c as nat - 'a' as nat + 26)
    else if '0' <= c <= '9' then Some(c as nat - '0' as nat + 52)
    else if c == '+' then Some(62)
    else if c == '/' then Some(63)
    else None
  }

  lemma UpperLetter(i: nat)
    requires i < 26
    ensures UPPER[i] as nat == 'A' as nat + i
  {}

  lemma LowerLetter(i: nat)
    requires i < 26
    ensures LOWER[i] as nat == 'a' as nat + i
  {}

  lemma OtherCharacter(i: nat)
    requires i < 12
    ensures Value(OTHERS[i]) == Some(52 + i)
  {}

  /** The table and the ranges of characters describe the same alphabet. */
  lemma ValueOfDigit(i: nat)
    requires i < 64
    ensures Value(Digit(i)) == Some(i)
  {
    if i < 26 {
      UpperLetter(i);
      assert ALPHABET[i] == UPPER[i];
    } else if i < 52 {
      LowerLetter(i - 26);
      assert ALPHABET[i] == LOWER[i - 26];
    } else {
      OtherCharacter(i - 52);
      assert ALPHABET[i] == OTHERS[i - 52];
    }
  }

  lemma ValuesDistinct(c: char, d: char)
    requires Value(c).Some? && Value(c) == Value(d)
    ensures c == d
  {}

  lemma DigitOfValue(c: char)
    requires Value(c).Some?
    ensures Digit(Value(c).value) == c
  {
    ValueOfDigit(Value(c).value);
    ValuesDistinct(c, Digit(Value(c).value));
  }

  /** Three bytes as one 24-bit number. */
  function Triple(a: Byte, b: Byte, c: Byte): (t: nat)
    ensures t < 0x100_0000
  {
    a as nat * 0x1_0000 + b as nat * 0x100 + c
  }

  /** Bits 23 to 18, 17 to 12, 11 to 6 and 5 to 0 of a 24-bit number. */
  function Sextet0(t: nat): (v: nat)
    ensures v < 64
  {
    t / 0x4_0000 % 64
  }

  function Sextet1(t: nat): (v: nat)
    ensures v < 64
  {
    t / 0x1000 % 64
  }

  function Sextet2(t: nat): (v: nat)
    ensures v < 64
  {
    t / 64 % 64
  }

  function Sextet3(t: nat): (v: nat)
    ensures v < 64
  {
    t % 64
  }

  /** The four digits of a 24-bit number. */
  function Quad(t: nat): (s: string)
    ensures |s| == 4
  {
    [Digit(Sextet0(t)), Digit(Sextet1(t)), Digit(Sextet2(t)), Digit(Sextet3(t))]
  }

  function Encoded(input: seq<Byte>): string {
    if |input| >= 3 then Quad(Triple(input[0], input[1], input[2])) + Encoded(input[3..])
    else if |input| == 2 then Quad(Triple(input[0], input[1], 0))[..3] + "="
    else if |input| == 1 then Quad(Triple(input[0], 0, 0))[..2] + "=="
    else ""
  }

  method Base64Encode(input: seq<Byte>) returns (out: string)
    ensures out == Encoded(input)
  {
    hide Digit, Sextet0, Sextet1, Sextet2, Sextet3, Triple, Quad;
    out := "";
    var i := 0;
    assert input[0..] == input;
    while i + 3 <= |input|
      invariant 0 <= i <= |input|
      invariant Encoded(input) == out + Encoded(input[i..])
    {
      var triple := Triple(input[i], input[i + 1], input[i + 2]);
      GroupFirst(input, i);
      ghost var before := out;
      out := out + [Digit(Sextet0(triple))];
      out := out + [Digit(Sextet1(triple))];
      out := out + [Digit(Sextet2(triple))];
      out := out + [Digit(Sextet3(triple))];
      QuadAppended(before, triple);
      Reassociate(before, Quad(triple), Encoded(input[i + 3..]));
      i := i + 3;
    }
    out := AppendTail(out, input, i);
  }

  /** The last one or two bytes, padded. */
  method AppendTail(before: string, input: seq<Byte>, i: nat) returns (out: string)
    requires i <= |input| < i + 3
    ensures out == before + Encoded(input[i..])
  {
    hide Digit, Sextet0, Sextet1, Sextet2, Sextet3, Triple, Encoded;
    LastGroups(input, i);
    out := before;
    var remaining := |input| - i;
    if remaining == 1 {
      var value := Triple(input[i], 0, 0);
      out := out + [Digit(Sextet0(value))];
      out := out + [Digit(Sextet1(value))];
      out := out + "=";
      out := out + "=";
    } else if remaining == 2 {
      var value := Triple(input[i], input[i + 1], 0);
      out := out + [Digit(Sextet0(value))];
      out := out + [Digit(Sextet1(value))];
      out := out + [Digit(Sextet2(value))];
      out := out + "=";
    }
  }

  lemma LastGroups(input: seq<Byte>, i: nat)
    requires i <= |input| < i + 3
    ensures |input| == i ==> Encoded(input[i..]) == ""
    ensures |input| == i + 1 ==> var t := Triple(input[i], 0, 0);
              Encoded(input[i..]) == [Digit(Sextet0(t)), Digit(Sextet1(t)), '=', '=']
    ensures |input| == i + 2 ==> var t := Triple(input[i], input[i + 1], 0);
              Encoded(input[i..]) == [Digit(Sextet0(t)), Digit(Sextet1(t)), Digit(Sextet2(t)), '=']
  {
    hide Digit, Sextet0, Sextet1, Sextet2, Sextet3, Triple;
  }

  lemma QuadAppended(s: string, t: nat)
    ensures s + [Digit(Sextet0(t))] + [Digit(Sextet1(t))] + [Digit(Sextet2(t))] + [Digit(Sextet3(t))] == s + Quad(t)
  {
    hide Digit, Sextet0, Sextet1, Sextet2, Sextet3;
  }

  lemma GroupFirst(input: seq<Byte>, i: nat)
    requires i + 3 <= |input|
    ensures Encoded(input[i..]) == Quad(Triple(input[i], input[i + 1], input[i + 2])) + Encoded(input[i + 3..])
  {
    assert input[i..][3..] == input[i + 3..];
  }

  lemma Reassociate(a: string, b: string, c: string)
    ensures a + (b + c) == a + b + c
  {}

  // The inverse ------------------------------------------------------------------------------

  /** A strict decoder: padding only at the end, unused bits zero. */
  function Decoded(s: string): Option<seq<Byte>> {
    if s == "" then Some([])
    else if |s| < 4 then None
    else if |s| == 4 && s[3] == '=' then LastGroup(s)
    else
      var v0, v1, v2, v3 := Value(s[0]), Value(s[1]), Value(s[2]), Value(s[3]);
      var rest := Decoded(s[4..]);
      if v0.None? || v1.None? || v2.None? || v3.None? || rest.None? then None
      else Some(Octets(Joined(v0.value, v1.value, v2.value, v3.value)) + rest.value)
  }

  function LastGroup(s: string): Option<seq<Byte>>
    requires |s| == 4
  {
    var v0, v1 := Value(s[0]), Value(s[1]);
    if v0.None? || v1.None? then None
    else if s[2] == '=' then
      var t := Joined(v0.value, v1.value, 0, 0);
      if t % 0x1_0000 == 0 then Some(Octets(t)[..1]) else None
    else
      var v2 := Value(s[2]);
      if v2.None? then None
      else
        var t := Joined(v0.value, v1.value, v2.value, 0);
        if t % 0x100 == 0 then Some(Octets(t)[..2]) else None
  }

  function Joined(v0: nat, v1: nat, v2: nat, v3: nat): (t: nat)
    requires v0 < 64 && v1 < 64 && v2 < 64 && v3 < 64
    ensures t < 0x100_0000
  {
    v0 * 0x4_0000 + v1 * 0x1000 + v2 * 64 + v3
  }

  function Octets(t: nat): (b: seq<Byte>)
    requires t < 0x100_0000
    ensures |b| == 3
  {
    [t / 0x1_0000, t / 0x100 % 0x100, t % 0x100]
  }

  lemma SplitAndJoin(t: nat)
    requires t < 0x100_0000
    ensures Joined(Sextet0(t), Sextet1(t), Sextet2(t), Sextet3(t)) == t
  {
    var a, b, c := t / 64, t / 0x1000, t / 0x4_0000;
    Shifts(t);
    JoinDigits(t, a, b, c, b % 64, a % 64, t % 64);
  }

  lemma Shifts(t: nat)
    ensures t / 64 / 64 == t / 0x1000 && t / 0x1000 / 64 == t / 0x4_0000
  {}

  lemma JoinDigits(t: nat, a: nat, b: nat, c: nat, d1: nat, d2: nat, d3: nat)
    requires t == 64 * a + d3 && a == 64 * b + d2 && b == 64 * c + d1
    requires d1 < 64 && d2 < 64 && d3 < 64 && t < 0x100_0000
    ensures c < 64 && Joined(c % 64, d1, d2, d3) == t
  {
    assert c < 64 && c % 64 == c;
  }

  lemma JoinAndSplit(v0: nat, v1: nat, v2: nat, v3: nat)
    requires v0 < 64 && v1 < 64 && v2 < 64 && v3 < 64
    ensures var t := Joined(v0, v1, v2, v3);
            Sextet0(t) == v0 && Sextet1(t) == v1 && Sextet2(t) == v2 && Sextet3(t) == v3
  {
    var t, a, b := Joined(v0, v1, v2, v3), v0 * 0x1000 + v1 * 64 + v2, v0 * 64 + v1;
    assert t / 64 == a && t % 64 == v3;
    assert a / 64 == b && a % 64 == v2;
    assert b / 64 == v0 && b % 64 == v1;
    assert t / 0x1000 == a / 64 && t / 0x4_0000 == t / 0x1000 / 64;
  }

  lemma QuadIs(t: nat, c0: char, c1: char, c2: char, c3: char)
    requires Value(c0).Some? && Value(c1).Some? && Value(c2).Some? && Value(c3).Some?
    requires t == Joined(Value(c0).value, Value(c1).value, Value(c2).value, Value(c3).value)
    ensures Quad(t) == [c0, c1, c2, c3]
  {
    hide Digit, Value, Joined, Sextet0, Sextet1, Sextet2, Sextet3;
    JoinAndSplit(Value(c0).value, Value(c1).value, Value(c2).value, Value(c3).value);
    DigitOfValue(c0);
    DigitOfValue(c1);
    DigitOfValue(c2);
    DigitOfValue(c3);
  }

  lemma EncodedWith(a: Byte, b: Byte, c: Byte, rest: seq<Byte>, quad: string, more: string)
    requires Quad(Triple(a, b, c)) == quad && Encoded(rest) == more
    ensures Encoded([a, b, c] + rest) == quad + more
  {
    hide Quad, Triple;
    assert ([a, b, c] + rest)[3..] == rest;
  }

  lemma OctetsOfTriple(a: Byte, b: Byte, c: Byte)
    ensures Octets(Triple(a, b, c)) == [a, b, c]
  {
    var t, u := Triple(a, b, c), a as nat * 0x100 + b;
    assert t / 0x100 == u && t % 0x100 == c;
    assert u / 0x100 == a && u % 0x100 == b;
    assert t / 0x1_0000 == u / 0x100;
  }

  lemma TripleOfOctets(t: nat)
    requires t < 0x100_0000
    ensures Triple(Octets(t)[0], Octets(t)[1], Octets(t)[2]) == t
  {
    var u := t / 0x100;
    assert u / 0x100 == t / 0x1_0000;
    assert t == 0x100 * u + t % 0x100 && u == 0x100 * (u / 0x100) + u % 0x100;
  }

  /** Padding bytes of zero make digits of zero, which the encoder leaves out. */
  lemma PaddedTriple(a: Byte, b: Byte)
    ensures var t := Triple(a, b, 0); Sextet3(t) == 0 && t % 0x100 == 0
    ensures var t := Triple(a, 0, 0); Sextet2(t) == 0 && Sextet3(t) == 0 && t % 0x1_0000 == 0
  {
    var x, y: nat := a, b;
    DivModUnique(Triple(a, b, 0), 64, 0x400 * x + 4 * y, 0);
    DivModUnique(Triple(a, b, 0), 0x100, 0x100 * x + y, 0);
    DivModUnique(Triple(a, 0, 0), 64, 0x400 * x, 0);
    DivModUnique(0x400 * x, 64, 0x10 * x, 0);
    DivModUnique(Triple(a, 0, 0), 0x1_0000, x, 0);
  }

  lemma PaddedOctets(t: nat)
    requires t < 0x100_0000
    ensures t % 0x100 == 0 ==> Octets(t)[2] == 0
    ensures t % 0x1_0000 == 0 ==> Octets(t)[1] == 0 && Octets(t)[2] == 0
  {}

  lemma QuadValues(t: nat)
    ensures var s := Quad(t);
            && Value(s[0]) == Some(Sextet0(t)) && Value(s[1]) == Some(Sextet1(t))
            && Value(s[2]) == Some(Sextet2(t)) && Value(s[3]) == Some(Sextet3(t))
            && forall i :: 0 <= i < 4 ==> s[i] != '='
  {
    ValueOfDigit(Sextet0(t));
    ValueOfDigit(Sextet1(t));
    ValueOfDigit(Sextet2(t));
    ValueOfDigit(Sextet3(t));
  }

  /** The decoder maps every encoding back to its input; so no two inputs have the same encoding. */
  lemma {:induction false} DecodedEncoded(input: seq<Byte>)
    ensures Decoded(Encoded(input)) == Some(input)
  {
    hide Digit, Value, Sextet0, Sextet1, Sextet2, Sextet3, Octets, Joined, Triple;
    var s := Encoded(input);
    if input == [] {
    } else if |input| < 3 {
      LastDecoded(input);
    } else {
      var t := Triple(input[0], input[1], input[2]);
      DecodedEncoded(input[3..]);
      QuadValues(t);
      SplitAndJoin(t);
      OctetsOfTriple(input[0], input[1], input[2]);
      assert s[4..] == Encoded(input[3..]) && s[..4] == Quad(t);
      assert input == [input[0], input[1], input[2]] + input[3..];
    }
  }

  lemma LastDecoded(input: seq<Byte>)
    requires 1 <= |input| <= 2
    ensures Decoded(Encoded(input)) == Some(input)
  {
    hide Digit, Value, Sextet0, Sextet1, Sextet2, Sextet3, Quad, Octets, Joined, Triple;
    var b: Byte := if |input| == 2 then input[1] else 0;
    var t := Triple(input[0], b, 0);
    QuadValues(t);
    SplitAndJoin(t);
    OctetsOfTriple(input[0], b, 0);
    PaddedTriple(input[0], b);
    assert Octets(t)[..|input|] == input;
  }

  lemma Injective(x: seq<Byte>, y: seq<Byte>)
    requires Encoded(x) == Encoded(y)
    ensures x == y
  {
    DecodedEncoded(x);
    DecodedEncoded(y);
  }

  /** And every string the decoder accepts is the encoding of what it decodes to. */
  lemma {:induction false} EncodedDecoded(s: string)
    requires Decoded(s).Some?
    ensures Encoded(Decoded(s).value) == s
  {
    hide Digit, Value, Sextet0, Sextet1, Sextet2, Sextet3, Quad, Octets, Joined, Triple;
    if |s| == 4 && s[3] == '=' {
      LastEncoded(s);
    } else if s != "" {
      EncodedDecoded(s[4..]);
      GroupEncoded(s);
      var t := Joined(Value(s[0]).value, Value(s[1]).value, Value(s[2]).value, Value(s[3]).value);
      var input := Decoded(s).value;
      assert input == Octets(t) + Decoded(s[4..]).value;
      assert input[3..] == Decoded(s[4..]).value;
      TripleOfOctets(t);
      assert Encoded(input) == Quad(t) + Encoded(input[3..]);
      assert s == s[..4] + s[4..];
    } else {
      assert Decoded(s).value == [];
    }
  }

  lemma GroupEncoded(s: string)
    requires |s| >= 4 && forall i :: 0 <= i < 4 ==> Value(s[i]).Some?
    ensures Quad(Joined(Value(s[0]).value, Value(s[1]).value, Value(s[2]).value, Value(s[3]).value)) == s[..4]
  {
    JoinAndSplit(Value(s[0]).value, Value(s[1]).value, Value(s[2]).value, Value(s[3]).value);
    DigitOfValue(s[0]);
    DigitOfValue(s[1]);
    DigitOfValue(s[2]);
    DigitOfValue(s[3]);
  }

  lemma LastEncoded(s: string)
    requires |s| == 4 && s[3] == '=' && Decoded(s).Some?
    ensures Encoded(Decoded(s).value) == s
  {
    hide Digit, Value, Sextet0, Sextet1, Sextet2, Sextet3, Octets, Joined, Triple;
    var v0, v1 := Value(s[0]).value, Value(s[1]).value;
    var v2 := if s[2] == '=' then 0 else Value(s[2]).value;
    var t := Joined(v0, v1, v2, 0);
    TripleOfOctets(t);
    PaddedOctets(t);
    JoinAndSplit(v0, v1, v2, 0);
    DigitOfValue(s[0]);
    DigitOfValue(s[1]);
    if s[2] != '=' {
      DigitOfValue(s[2]);
    }
  }

  /** Characters of the alphabet, then `padding` times `=`. */
  predicate Shaped(s: string, padding: nat) {
    && padding <= |s|
    && (forall i :: 0 <= i < |s| - padding ==> Value(s[i]).Some?)
    && forall i :: |s| - padding <= i < |s| ==> s[i] == '='
  }

  lemma ShapePrepended(quad: string, s: string, padding: nat)
    requires Shaped(quad, 0) && Shaped(s, padding)
    ensures Shaped(quad + s, padding)
  {}

  function Padding(n: nat): (k: nat)
    ensures k <= 2 && (n + k) % 3 == 0
  {
    (3 - n % 3) % 3
  }

  lemma GroupsOf(n: nat)
    requires n >= 3
    ensures (n + 2) / 3 == (n - 3 + 2) / 3 + 1 && Padding(n) == Padding(n - 3)
  {}

  /** Four characters for every three bytes begun, from the alphabet but for zero to two final `=`. */
  lemma {:induction false} EncodedShape(input: seq<Byte>)
    ensures |Encoded(input)| == 4 * ((|input| + 2) / 3)
    ensures Shaped(Encoded(input), Padding(|input|))
  {
    hide Digit, Value, Sextet0, Sextet1, Sextet2, Sextet3, Quad, Triple, Padding;
    if |input| >= 3 {
      var t := Triple(input[0], input[1], input[2]);
      EncodedShape(input[3..]);
      QuadValues(t);
      GroupsOf(|input|);
      ShapePrepended(Quad(t), Encoded(input[3..]), Padding(|input|));
    } else {
      LastShape(input);
    }
  }

  lemma LastShape(input: seq<Byte>)
    requires |input| <= 2
    ensures |Encoded(input)| == 4 * ((|input| + 2) / 3) && Shaped(Encoded(input), Padding(|input|))
  {
    hide Digit, Value, Sextet0, Sextet1, Sextet2, Sextet3, Triple;
    if input != [] {
      QuadValues(Triple(input[0], if |input| == 2 then input[1] else 0, 0));
    }
  }
}
