/** UTF-8 read back by the byte ranges of section 4 of RFC 3629, independently of the encoder. */
module Utf8Decoder {
  import opened ByteOrder
  import opened Outcomes
  import Utf8

  predicate IsTail(b: Byte) {
    0x80 <= b <= 0xBF
  }

  function Bits(b: Byte, mark: int): int { b - mark }

  /** The first character of a text and the bytes after it; `None` when no well-formed one is there. */
  function DecodeChar(b: Bytes): Option<(char, Bytes)> {
    if b == [] then None
    else if b[0] <= 0x7F then Some((b[0] as char, b[1..]))
    else if 0xC2 <= b[0] <= 0xDF && |b| > 1 && IsTail(b[1]) then
      Some(((Bits(b[0], 0xC0) * 0x40 + Bits(b[1], 0x80)) as char, b[2..]))
    else if 0xE0 <= b[0] <= 0xEF && |b| > 2 && IsTail(b[1]) && IsTail(b[2])
            && (b[0] == 0xE0 ==> b[1] >= 0xA0) && (b[0] == 0xED ==> b[1] <= 0x9F) then
      Some(((Bits(b[0], 0xE0) * 0x1000 + Bits(b[1], 0x80) * 0x40 + Bits(b[2], 0x80)) as char, b[3..]))
    else if 0xF0 <= b[0] <= 0xF4 && |b| > 3 && IsTail(b[1]) && IsTail(b[2]) && IsTail(b[3])
            && (b[0] == 0xF0 ==> b[1] >= 0x90) && (b[0] == 0xF4 ==> b[1] <= 0x8F) then
      Some(((Bits(b[0], 0xF0) * 0x4_0000 + Bits(b[1], 0x80) * 0x1000 + Bits(b[2], 0x80) * 0x40 + Bits(b[3], 0x80))
            as char, b[4..]))
    else None
  }

  /** The text, when all of it is well-formed. */
  function Decode(b: Bytes): Option<string> {
    if b == [] then Some([]) else
      match DecodeChar(b)
      case None => None
      case Some((c, rest)) =>
        var tail := Decode(rest);
        if tail.None? then None else Some([c] + tail.value)
  }

  /** The bytes of a character, by the number of them. */
  lemma EncodedBytes(c: char)
    ensures var n, e := c as int, Utf8.EncodeChar(c);
            && (n < 0x80 ==> e == [n])
            && (0x80 <= n < 0x800 ==> e == [0xC0 + n / 0x40, 0x80 + n % 0x40])
            && (0x800 <= n < 0x1_0000 ==> e == [0xE0 + n / 0x40 / 0x40, 0x80 + n / 0x40 % 0x40, 0x80 + n % 0x40])
            && (0x1_0000 <= n ==> e == [0xF0 + n / 0x40 / 0x40 / 0x40, 0x80 + n / 0x40 / 0x40 % 0x40,
                                        0x80 + n / 0x40 % 0x40, 0x80 + n % 0x40])
  {
    var n := c as int;
    assert Utf8.Continuation(n, 0) == [];
    assert Utf8.Continuation(n / 64, 0) == [] && Utf8.Continuation(n / 64 / 64, 0) == [];
    assert Utf8.Continuation(n / 64 / 64 / 64, 0) == [];
    assert Utf8.Continuation(n, 1) == [0x80 + n % 64];
    assert Utf8.Continuation(n / 64, 1) == [0x80 + n / 64 % 64];
    assert Utf8.Continuation(n / 64 / 64, 1) == [0x80 + n / 64 / 64 % 64];
    assert Utf8.Continuation(n, 2) == [0x80 + n / 64 % 64, 0x80 + n % 64];
    assert Utf8.Continuation(n / 64, 2) == [0x80 + n / 64 / 64 % 64, 0x80 + n / 64 % 64];
    assert Utf8.Continuation(n, 3) == [0x80 + n / 64 / 64 % 64, 0x80 + n / 64 % 64, 0x80 + n % 64];
    assert Utf8.Payload(n, 3) == n / 64 / 64 / 64 && Utf8.Payload(n, 2) == n / 64 / 64 && Utf8.Payload(n, 1) == n / 64;
  }

  lemma EncodedIsDecoded(c: char, rest: Bytes)
    ensures DecodeChar(Utf8.EncodeChar(c) + rest) == Some((c, rest))
  {
    EncodedBytes(c);
  }

  lemma SixBits(high: nat, low: nat)
    requires low < 0x40
    ensures (high * 0x40 + low) / 0x40 == high && (high * 0x40 + low) % 0x40 == low
  {
  }

  /** Four six-bit groups put together and taken apart again. */
  lemma FourGroups(a: nat, b: nat, c: nat, d: nat)
    requires b < 0x40 && c < 0x40 && d < 0x40
    ensures var n := a * 0x4_0000 + b * 0x1000 + c * 0x40 + d;
            && n % 0x40 == d && n / 0x40 % 0x40 == c && n / 0x40 / 0x40 % 0x40 == b && n / 0x40 / 0x40 / 0x40 == a
  {
    var top := a * 0x40 + b;
    var middle := top * 0x40 + c;
    SixBits(a, b);
    SixBits(top, c);
    SixBits(middle, d);
    assert middle * 0x40 + d == a * 0x4_0000 + b * 0x1000 + c * 0x40 + d;
  }

  lemma TwoBytes(b: Bytes)
    requires DecodeChar(b).Some? && 0xC2 <= b[0] <= 0xDF
    ensures Utf8.EncodeChar(DecodeChar(b).value.0) == b[..2] && DecodeChar(b).value.1 == b[2..]
  {
    EncodedBytes(DecodeChar(b).value.0);
    FourGroups(0, 0, Bits(b[0], 0xC0), Bits(b[1], 0x80));
  }

  lemma ThreeBytes(b: Bytes)
    requires DecodeChar(b).Some? && 0xE0 <= b[0] <= 0xEF
    ensures Utf8.EncodeChar(DecodeChar(b).value.0) == b[..3] && DecodeChar(b).value.1 == b[3..]
  {
    EncodedBytes(DecodeChar(b).value.0);
    FourGroups(0, Bits(b[0], 0xE0), Bits(b[1], 0x80), Bits(b[2], 0x80));
  }

  lemma FourBytes(b: Bytes)
    requires DecodeChar(b).Some? && 0xF0 <= b[0]
    ensures Utf8.EncodeChar(DecodeChar(b).value.0) == b[..4] && DecodeChar(b).value.1 == b[4..]
  {
    EncodedBytes(DecodeChar(b).value.0);
    FourGroups(Bits(b[0], 0xF0), Bits(b[1], 0x80), Bits(b[2], 0x80), Bits(b[3], 0x80));
  }

  lemma DecodedIsEncoded(b: Bytes)
    requires DecodeChar(b).Some?
    ensures b == Utf8.EncodeChar(DecodeChar(b).value.0) + DecodeChar(b).value.1
  {
    if b[0] <= 0x7F {
      EncodedBytes(DecodeChar(b).value.0);
    } else if b[0] <= 0xDF {
      TwoBytes(b);
    } else if b[0] <= 0xEF {
      ThreeBytes(b);
    } else {
      FourBytes(b);
    }
  }

  /** The bytes that decode to a string are its encoding and no others. */
  lemma {:induction false} DecodeIff(b: Bytes, s: string)
    ensures Decode(b) == Some(s) <==> b == Utf8.Encode(s)
    decreases |s|
  {
    if s == [] {
      assert b != [] && Decode(b).Some? ==> Decode(b).value != [];
    } else {
      var c, tail := s[0], s[1..];
      EncodedIsDecoded(c, Utf8.Encode(tail));
      DecodeIff(Utf8.Encode(tail), tail);
      assert [c] + tail == s;
      if Decode(b) == Some(s) {
        var (first, rest) := DecodeChar(b).value;
        DecodedIsEncoded(b);
        assert ([first] + Decode(rest).value)[0] == c && ([first] + Decode(rest).value)[1..] == tail;
        DecodeIff(rest, tail);
      }
    }
  }
}
