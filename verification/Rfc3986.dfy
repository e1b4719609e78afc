// Percent-encoding of presigned URLs: src/modules/media/utils/r2-presign.util.ts:26-43, 90-109,
// and object keys: src/modules/media/providers/r2.service.ts:68-70, 178-180. Strings are UTF-16 code units.
module Rfc3986 {
  import opened Common

  type Unit = u: int | 0 <= u < 65536

  type Text = seq<Unit>

  const PERCENT: Unit := 37
  const AMPERSAND: Unit := 38
  const HYPHEN: Unit := 45
  const SLASH: Unit := 47
  const EQUALS: Unit := 61

  predicate Alphanumeric(u: Unit) {
    48 <= u <= 57 || 65 <= u <= 90 || 97 <= u <= 122
  }

  // Letters, digits, '-', '.', '_' and '~' (section 2.3 of RFC 3986).
  predicate Unreserved(u: Unit) {
    Alphanumeric(u) || u == HYPHEN || u == 46 || u == 95 || u == 126
  }

  predicate Kept(u: Unit, encodeSlash: bool) {
    Unreserved(u) || (u == SLASH && !encodeSlash)
  }

  // The characters that are kept as they are; a slash only between the parts of a path.
  lemma KeptCharacters(u: Unit, encodeSlash: bool)
    ensures Kept(u, encodeSlash) <==>
      || 'A' as int <= u <= 'Z' as int || 'a' as int <= u <= 'z' as int || '0' as int <= u <= '9' as int
      || u == '-' as int || u == '.' as int || u == '_' as int || u == '~' as int
      || (u == '/' as int && !encodeSlash)
    ensures Kept(u, encodeSlash) ==> EncodeUnit(u, encodeSlash) == [u]
    ensures !Kept(u, encodeSlash) ==> EncodeUnit(u, encodeSlash) != [] && EncodeUnit(u, encodeSlash)[0] == '%' as int
  {
  }

  function HexDigit(d: nat): Unit
    requires d < 16
  {
    if d < 10 then 48 + d else 55 + d
  }

  // toString(16) in upper case
  function HexDigits(n: nat): Text {
    if n < 16 then [HexDigit(n)] else HexDigits(n / 16) + [HexDigit(n % 16)]
  }

  function EncodeUnit(u: Unit, encodeSlash: bool): Text {
    if Kept(u, encodeSlash) then [u]
    else if u < 16 then [PERCENT, 48] + HexDigits(u)
    else [PERCENT] + HexDigits(u)
  }

  // rfc3986Encode
  function Encode(value: Text, encodeSlash: bool): Text {
    if value == [] then [] else EncodeUnit(value[0], encodeSlash) + Encode(value[1..], encodeSlash)
  }

  // ----- Percent-decoding (section 2.1 of RFC 3986) -----

  function HexValue(u: Unit): Option<nat> {
    if 48 <= u <= 57 then Some(u - 48)
    else if 65 <= u <= 70 then Some(u - 55)
    else if 97 <= u <= 102 then Some(u - 87)
    else None
  }

  function Prepend(u: Unit, rest: Option<Text>): Option<Text> {
    if rest.Some? then Some([u] + rest.value) else None
  }

  function Decode(s: Text): Option<Text> {
    if s == [] then Some([])
    else if s[0] != PERCENT then Prepend(s[0], Decode(s[1..]))
    else if |s| < 3 || HexValue(s[1]).None? || HexValue(s[2]).None? then None
    else Prepend(16 * HexValue(s[1]).value + HexValue(s[2]).value, Decode(s[3..]))
  }

  ghost predicate OneByte(value: Text) {
    forall i | 0 <= i < |value| :: value[i] < 256
  }

  lemma HexDigitHasItsValue(d: nat)
    requires d < 16
    ensures HexValue(HexDigit(d)) == Some(d) && HexDigit(d) != PERCENT
  {
  }

  lemma DecodePlain(u: Unit, rest: Text)
    requires u != PERCENT
    ensures Decode([u] + rest) == Prepend(u, Decode(rest))
  {
    assert ([u] + rest)[1..] == rest;
  }

  lemma DecodeTriplet(high: nat, low: nat, rest: Text)
    requires high < 16 && low < 16
    ensures Decode([PERCENT, HexDigit(high), HexDigit(low)] + rest) == Prepend(16 * high + low, Decode(rest))
  {
    HexDigitHasItsValue(high);
    HexDigitHasItsValue(low);
    assert ([PERCENT, HexDigit(high), HexDigit(low)] + rest)[3..] == rest;
  }

  lemma HexDigitsByLength(n: nat)
    requires n < 65536
    ensures n < 16 ==> HexDigits(n) == [HexDigit(n)]
    ensures 16 <= n < 256 ==> HexDigits(n) == [HexDigit(n / 16), HexDigit(n % 16)]
    ensures 256 <= n < 4096 ==> HexDigits(n) == [HexDigit(n / 256), HexDigit(n / 16 % 16), HexDigit(n % 16)]
    ensures 4096 <= n ==>
      HexDigits(n) == [HexDigit(n / 4096), HexDigit(n / 256 % 16), HexDigit(n / 16 % 16), HexDigit(n % 16)]
  {
    if n >= 256 {
      assert n / 16 / 16 == n / 256;
    }
    if n >= 4096 {
      assert n / 256 / 16 == n / 4096;
      assert HexDigits(n / 16) == HexDigits(n / 256) + [HexDigit(n / 16 % 16)];
      assert HexDigits(n / 256) == HexDigits(n / 4096) + [HexDigit(n / 256 % 16)];
    }
  }

  // One code unit, then anything: below 256 it comes back, above it leaves stray digits behind.
  lemma DecodeOneUnit(u: Unit, encodeSlash: bool, rest: Text)
    requires Decode(rest).Some?
    ensures var decoded := Decode(EncodeUnit(u, encodeSlash) + rest);
      && decoded.Some?
      && (u < 256 ==> decoded == Prepend(u, Decode(rest)))
      && (u >= 256 ==> |decoded.value| >= 2 + |Decode(rest).value|)
  {
    if Kept(u, encodeSlash) {
      DecodePlain(u, rest);
    } else if u < 256 {
      DecodeByte(u, encodeSlash, rest);
    } else {
      DecodeWide(u, encodeSlash, rest);
    }
  }

  lemma DecodeByte(u: Unit, encodeSlash: bool, rest: Text)
    requires !Kept(u, encodeSlash) && u < 256
    ensures Decode(EncodeUnit(u, encodeSlash) + rest) == Prepend(u, Decode(rest))
  {
    HexDigitsByLength(u);
    assert EncodeUnit(u, encodeSlash) == [PERCENT, HexDigit(u / 16), HexDigit(u % 16)];
    DecodeTriplet(u / 16, u % 16, rest);
  }

  lemma DecodeWide(u: Unit, encodeSlash: bool, rest: Text)
    requires u >= 256 && Decode(rest).Some?
    ensures var decoded := Decode(EncodeUnit(u, encodeSlash) + rest);
      decoded.Some? && |decoded.value| >= 2 + |Decode(rest).value|
  {
    HexDigitsByLength(u);
    if u < 4096 {
      DecodeThreeDigits(u / 256, u / 16 % 16, u % 16, rest);
      JoinThree(HexDigit(u / 256), HexDigit(u / 16 % 16), HexDigit(u % 16), rest);
    } else {
      HexDigitHasItsValue(u % 16);
      DecodePlain(HexDigit(u % 16), rest);
      DecodeThreeDigits(u / 4096, u / 256 % 16, u / 16 % 16, [HexDigit(u % 16)] + rest);
      JoinFour(HexDigit(u / 4096), HexDigit(u / 256 % 16), HexDigit(u / 16 % 16), HexDigit(u % 16), rest);
    }
  }

  lemma JoinThree(a: Unit, b: Unit, c: Unit, rest: Text)
    ensures [PERCENT] + [a, b, c] + rest == [PERCENT, a, b] + ([c] + rest)
  {
  }

  lemma JoinFour(a: Unit, b: Unit, c: Unit, d: Unit, rest: Text)
    ensures [PERCENT] + [a, b, c, d] + rest == [PERCENT, a, b] + ([c] + ([d] + rest))
  {
  }

  lemma DecodeThreeDigits(a: nat, b: nat, c: nat, rest: Text)
    requires a < 16 && b < 16 && c < 16 && Decode(rest).Some?
    ensures Decode([PERCENT, HexDigit(a), HexDigit(b)] + ([HexDigit(c)] + rest))
         == Prepend(16 * a + b, Prepend(HexDigit(c), Decode(rest)))
  {
    HexDigitHasItsValue(c);
    DecodePlain(HexDigit(c), rest);
    DecodeTriplet(a, b, [HexDigit(c)] + rest);
  }

  lemma {:induction false} DecodeAfterEncode(value: Text, encodeSlash: bool)
    ensures var decoded := Decode(Encode(value, encodeSlash));
      && decoded.Some?
      && |decoded.value| >= |value|
      && (if OneByte(value) then decoded == Some(value) else |decoded.value| > |value|)
  {
    if value == [] {
    } else {
      var u, tail := value[0], value[1..];
      DecodeAfterEncode(tail, encodeSlash);
      DecodeOneUnit(u, encodeSlash, Encode(tail, encodeSlash));
      OneByteTail(value);
      assert Encode(value, encodeSlash) == EncodeUnit(u, encodeSlash) + Encode(tail, encodeSlash);
      if u < 256 {
        assert value == [u] + tail;
      }
    }
  }

  lemma OneByteTail(value: Text)
    requires value != []
    ensures OneByte(value) <==> value[0] < 256 && OneByte(value[1..])
  {
    assert forall i | 0 < i < |value| :: value[i] == value[1..][i - 1];
  }

  // Decoding undoes the encoding, in both slash modes, exactly for strings of code units below 256.
  lemma RoundTripIff(value: Text, encodeSlash: bool)
    ensures Decode(Encode(value, encodeSlash)) == Some(value) <==> OneByte(value)
  {
    DecodeAfterEncode(value, encodeSlash);
  }

  // ----- Against the standard: percent-encoded UTF-8 -----

  function EncodeByte(b: nat): Text
    requires b < 256
  {
    [PERCENT, HexDigit(b / 16), HexDigit(b % 16)]
  }

  predicate HighSurrogate(u: Unit) { 0xD800 <= u < 0xDC00 }

  predicate LowSurrogate(u: Unit) { 0xDC00 <= u < 0xE000 }

  function SurrogatePair(high: int, low: int): int {
    0x10000 + (high - 0xD800) * 0x400 + (low - 0xDC00)
  }

  // What AWS Signature Version 4 asks for: every byte of the UTF-8 form outside the kept characters.
  function StandardEncode(value: Text, encodeSlash: bool): Text {
    if value == [] then []
    else
      var u := value[0];
      if Kept(u, encodeSlash) then [u] + StandardEncode(value[1..], encodeSlash)
      else if u < 0x80 then EncodeByte(u) + StandardEncode(value[1..], encodeSlash)
      else if u < 0x800 then
        EncodeByte(0xC0 + u / 64) + EncodeByte(0x80 + u % 64) + StandardEncode(value[1..], encodeSlash)
      else if HighSurrogate(u) && |value| >= 2 && LowSurrogate(value[1]) then
        var point := SurrogatePair(u, value[1]);
        EncodeByte(0xF0 + point / 0x40000) + EncodeByte(0x80 + point / 0x1000 % 64)
        + EncodeByte(0x80 + point / 64 % 64) + EncodeByte(0x80 + point % 64)
        + StandardEncode(value[2..], encodeSlash)
      else
        var point: int := if HighSurrogate(u) || LowSurrogate(u) then 0xFFFD else u;
        EncodeByte(0xE0 + point / 0x1000) + EncodeByte(0x80 + point / 64 % 64) + EncodeByte(0x80 + point % 64)
        + StandardEncode(value[1..], encodeSlash)
  }

  ghost predicate Ascii(value: Text) {
    forall i | 0 <= i < |value| :: value[i] < 128
  }

  lemma UnitLength(u: Unit, encodeSlash: bool)
    ensures |EncodeUnit(u, encodeSlash)|
            == if Kept(u, encodeSlash) then 1 else if u < 256 then 3 else if u < 4096 then 4 else 5
    ensures !Kept(u, encodeSlash) && u < 128 ==> EncodeUnit(u, encodeSlash) == EncodeByte(u)
  {
    HexDigitsByLength(u);
  }

  lemma {:induction false} StandardIsLonger(value: Text, encodeSlash: bool)
    ensures |StandardEncode(value, encodeSlash)| >= |Encode(value, encodeSlash)|
    ensures if Ascii(value) then StandardEncode(value, encodeSlash) == Encode(value, encodeSlash)
            else |StandardEncode(value, encodeSlash)| > |Encode(value, encodeSlash)|
  {
    if value == [] {
    } else {
      var u := value[0];
      UnitLength(u, encodeSlash);
      StandardIsLonger(value[1..], encodeSlash);
      assert forall i | 0 < i < |value| :: value[i] == value[1..][i - 1];
      if HighSurrogate(u) && |value| >= 2 && LowSurrogate(value[1]) {
        assert value[1..][0] == value[1] && value[1..][1..] == value[2..];
        UnitLength(value[1], encodeSlash);
        StandardIsLonger(value[2..], encodeSlash);
      }
    }
  }

  // The encoder agrees with the standard exactly on ASCII.
  lemma MatchesTheStandardIff(value: Text, encodeSlash: bool)
    ensures Encode(value, encodeSlash) == StandardEncode(value, encodeSlash) <==> Ascii(value)
  {
    StandardIsLonger(value, encodeSlash);
  }
}
