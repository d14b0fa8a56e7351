/**
 * Rendering of digest bytes as text, as `Chain::hex_to_string` does it:
 * every byte is written with the `{:x}` format, i.e. lower-case
 * hexadecimal WITHOUT zero padding, so a byte below 0x10 yields a single
 * character and the rendering of n bytes has between n and 2n characters.
 */
module HexFormat {

  type u8 = x: int | 0 <= x < 256

  /** The characters `{:x}` can produce. */
  predicate IsLowerHex(c: char) {
    '0' <= c <= '9' || 'a' <= c <= 'f'
  }

  predicate AllLowerHex(s: string) {
    forall i | 0 <= i < |s| :: IsLowerHex(s[i])
  }

  function Digit(v: int): (c: char)
    requires 0 <= v < 16
    ensures IsLowerHex(c)
    ensures c == '0' <==> v == 0
  {
    if v < 10 then ('0' as int + v) as char else ('a' as int + v - 10) as char
  }

  /** The value of one lower-case hexadecimal digit: the inverse of Digit. */
  function DigitValue(c: char): (v: int)
    requires IsLowerHex(c)
    ensures 0 <= v < 16 && Digit(v) == c
  {
    if c <= '9' then c as int - '0' as int else c as int - 'a' as int + 10
  }

  /** Every character is an ASCII '0'. */
  predicate AllZeroChars(s: string) {
    forall i | 0 <= i < |s| :: s[i] == '0'
  }

  /** The number a hexadecimal numeral denotes (most significant digit first). */
  function NumeralValue(s: string): nat
    requires AllLowerHex(s)
  {
    if s == [] then 0 else NumeralValue(s[..|s| - 1]) * 16 + DigitValue(s[|s| - 1])
  }

  /** `format!("{:x}", b)`: the shortest lower-case numeral for b. */
  function ByteHex(b: u8): (s: string)
    ensures |s| == (if b < 16 then 1 else 2)
  {
    if b < 16 then [Digit(b)] else [Digit(b / 16), Digit(b % 16)]
  }

  /** The rendering of a byte is a lower-case numeral that reads back as the
      byte. It starts with '0' only for the byte 0, so there is no padding. */
  lemma {:induction false} ByteHexDigits(b: u8)
    ensures AllLowerHex(ByteHex(b))
    ensures NumeralValue(ByteHex(b)) == b
    ensures ByteHex(b)[0] == '0' <==> b == 0
  {
    var s := ByteHex(b);
    if b < 16 {
      assert s[..0] == [] && DigitValue(s[0]) == b;
    } else {
      var hi, lo := b / 16, b % 16;
      assert s == [Digit(hi), Digit(lo)];
      assert s[..1] == [Digit(hi)] && [Digit(hi)][..0] == [];
      assert DigitValue(Digit(hi)) == hi && DigitValue(Digit(lo)) == lo;
      assert NumeralValue(s[..1]) == hi && s[1] == Digit(lo);
    }
  }

  /** The whole rendering: the byte renderings concatenated in input order. */
  function Hex(bs: seq<u8>): string {
    if bs == [] then "" else Hex(bs[..|bs| - 1]) + ByteHex(bs[|bs| - 1])
  }

  /** How many bytes render as a single character. */
  function CountBelow16(bs: seq<u8>): nat {
    if bs == [] then 0
    else CountBelow16(bs[..|bs| - 1]) + (if bs[|bs| - 1] < 16 then 1 else 0)
  }

  /** `hex_to_string`: append the rendering of every byte to a growing string. */
  method HexToString(bs: seq<u8>) returns (s: string)
    ensures s == Hex(bs)
  {
    s := "";
    for i := 0 to |bs|
      invariant s == Hex(bs[..i])
    {
      assert bs[..i + 1][..i] == bs[..i];
      s := s + ByteHex(bs[i]);
    }
    assert bs[..|bs|] == bs;
  }

  /** Length law: two characters per byte, minus one per byte below 0x10. */
  lemma {:induction false} HexLength(bs: seq<u8>)
    ensures |Hex(bs)| == 2 * |bs| - CountBelow16(bs)
    ensures CountBelow16(bs) <= |bs|
  {
    if bs != [] {
      HexLength(bs[..|bs| - 1]);
    }
  }

  lemma {:induction false} HexLengthBounds(bs: seq<u8>)
    ensures |bs| <= |Hex(bs)| <= 2 * |bs|
  {
    HexLength(bs);
  }

  /** Every character of a rendering is a lower-case hexadecimal digit. */
  lemma {:induction false} HexAlphabet(bs: seq<u8>)
    ensures AllLowerHex(Hex(bs))
  {
    if bs != [] {
      HexAlphabet(bs[..|bs| - 1]);
      ByteHexDigits(bs[|bs| - 1]);
      var p, q := Hex(bs[..|bs| - 1]), ByteHex(bs[|bs| - 1]);
      assert forall i | 0 <= i < |p + q| :: (p + q)[i] == if i < |p| then p[i] else q[i - |p|];
    }
  }

  /** Rendering distributes over concatenation of the byte sequence. */
  lemma {:induction false} HexConcat(a: seq<u8>, b: seq<u8>)
    ensures Hex(a + b) == Hex(a) + Hex(b)
  {
    if b == [] {
      assert a + b == a;
    } else {
      var b' := b[..|b| - 1];
      assert (a + b)[..|a + b| - 1] == a + b';
      assert (a + b)[|a + b| - 1] == b[|b| - 1];
      HexConcat(a, b');
    }
  }

  /** A rendering made only of '0' characters comes from zero bytes,
      one character each. */
  lemma {:induction false} AllZeroHex(bs: seq<u8>)
    requires AllZeroChars(Hex(bs))
    ensures |Hex(bs)| == |bs|
    ensures forall i | 0 <= i < |bs| :: bs[i] == 0
  {
    if bs != [] {
      var p, q := Hex(bs[..|bs| - 1]), ByteHex(bs[|bs| - 1]);
      ByteHexDigits(bs[|bs| - 1]);
      assert Hex(bs) == p + q;
      assert forall i | 0 <= i < |p| :: p[i] == Hex(bs)[i];
      assert q[0] == Hex(bs)[|p|];
      AllZeroHex(bs[..|bs| - 1]);
      forall i | 0 <= i < |bs|
        ensures bs[i] == 0
      {
        if i < |bs| - 1 {
          assert bs[i] == bs[..|bs| - 1][i];
        }
      }
    }
  }

  /** Without padding the rendering is ambiguous: two different byte
      sequences can render to the same text. */
  lemma {:induction false} HexNotInjective(a: seq<u8>, b: seq<u8>)
    requires a == [0x01, 0x23] && b == [0x12, 0x03]
    ensures a != b && Hex(a) == Hex(b) == "123"
  {
    assert a[..1] == [0x01] && a[..1][..0] == [] && Hex(a[..1]) == "1";
    assert b[..1] == [0x12] && b[..1][..0] == [] && Hex(b[..1]) == "12";
    assert ByteHex(0x23) == "23" && ByteHex(0x03) == "3";
  }
}
