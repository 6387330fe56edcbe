/**
  Percent-decoding and hexadecimal printing of bytes, following the escape
  form of section 2.1 of RFC 3986.
  */
module PercentEncoding {
  import opened Common

  newtype Byte = b: int | 0 <= b < 256

  const PERCENT: Byte := 0x25

  function HexValue(b: Byte): (r: Option<Byte>)
    ensures r.Some? ==> r.value < 16
  {
    if 0x30 <= b <= 0x39 then Some(b - 0x30)
    else if 0x61 <= b <= 0x66 then Some(b - 0x61 + 10)
    else if 0x41 <= b <= 0x46 then Some(b - 0x41 + 10)
    else None
  }

  function LowerDigit(v: Byte): Byte
    requires v < 16
  {
    if v < 10 then 0x30 + v else 0x61 + (v - 10)
  }

  function UpperDigit(v: Byte): Byte
    requires v < 16
  {
    if v < 10 then 0x30 + v else 0x41 + (v - 10)
  }

  function Combine(hi: Byte, lo: Byte): Byte
    requires hi < 16 && lo < 16
  {
    hi * 16 + lo
  }

  /** Whether a complete escape starts at the front. */
  predicate StartsEscape(s: seq<Byte>) {
    |s| >= 3 && s[0] == PERCENT && HexValue(s[1]).Some? && HexValue(s[2]).Some?
  }

  /** Escapes become their byte; every other byte stands for itself. */
  function Decode(s: seq<Byte>): seq<Byte> {
    if s == [] then []
    else if StartsEscape(s) then [Combine(HexValue(s[1]).value, HexValue(s[2]).value)] + Decode(s[3..])
    else [s[0]] + Decode(s[1..])
  }

  lemma {:induction false} DecodeWithoutPercent(s: seq<Byte>)
    requires PERCENT !in s
    ensures Decode(s) == s
  {
    if s != [] {
      DecodeWithoutPercent(s[1..]);
      assert s == [s[0]] + s[1..];
    }
  }

  lemma DecodeEscape(bytes: seq<Byte>, i: nat)
    requires i + 2 < |bytes| && StartsEscape(bytes[i..])
    ensures Decode(bytes[i..]) ==
            [Combine(HexValue(bytes[i + 1]).value, HexValue(bytes[i + 2]).value)] + Decode(bytes[i + 3..])
  {
    assert bytes[i..][3..] == bytes[i + 3..];
  }

  lemma DecodeBare(bytes: seq<Byte>, i: nat)
    requires i < |bytes| && !StartsEscape(bytes[i..])
    ensures Decode(bytes[i..]) == [bytes[i]] + Decode(bytes[i + 1..])
  {
    assert bytes[i..][1..] == bytes[i + 1..];
  }

  lemma Shift(done: seq<Byte>, b: Byte, rest: seq<Byte>)
    ensures done + ([b] + rest) == (done + [b]) + rest
  {
  }

  /** The decoder: a fast path without escapes, else an index loop. */
  method PercentDecode(bytes: seq<Byte>) returns (out: seq<Byte>)
    ensures out == Decode(bytes)
  {
    if PERCENT !in bytes {
      DecodeWithoutPercent(bytes);
      return bytes;
    }
    out := [];
    var i := 0;
    while i < |bytes|
      invariant 0 <= i <= |bytes|
      invariant Decode(bytes) == out + Decode(bytes[i..])
      decreases |bytes| - i
    {
      if bytes[i] == PERCENT && i + 2 < |bytes| {
        var hi, lo := HexValue(bytes[i + 1]), HexValue(bytes[i + 2]);
        if hi.Some? && lo.Some? {
          DecodeEscape(bytes, i);
          Shift(out, Combine(hi.value, lo.value), Decode(bytes[i + 3..]));
          out := out + [Combine(hi.value, lo.value)];
          i := i + 3;
          continue;
        }
      }
      DecodeBare(bytes, i);
      Shift(out, bytes[i], Decode(bytes[i + 1..]));
      out := out + [bytes[i]];
      i := i + 1;
    }
  }

  // --------------------------------------------------------------- encoders

  /** How an encoder may write one byte. */
  datatype Style = Bare | Escaped(upperHigh: bool, upperLow: bool)

  function Digit(v: Byte, upper: bool): Byte
    requires v < 16
  {
    if upper then UpperDigit(v) else LowerDigit(v)
  }

  lemma DigitReads(v: Byte, upper: bool)
    requires v < 16
    ensures HexValue(Digit(v, upper)) == Some(v)
  {
  }

  function EncodeByte(b: Byte, style: Style): seq<Byte> {
    match style
    case Bare => [b]
    case Escaped(high, low) => [PERCENT, Digit(b / 16, high), Digit(b % 16, low)]
  }

  /** Any per-byte choice of style. */
  function Encode(bytes: seq<Byte>, styles: seq<Style>): seq<Byte>
    requires |styles| == |bytes|
  {
    if bytes == [] then [] else EncodeByte(bytes[0], styles[0]) + Encode(bytes[1..], styles[1..])
  }

  /** The encoder never writes the escape character itself bare. */
  predicate EscapesPercent(bytes: seq<Byte>, styles: seq<Style>)
    requires |styles| == |bytes|
  {
    forall i :: 0 <= i < |bytes| ==> bytes[i] == PERCENT ==> styles[i].Escaped?
  }

  lemma NibblesRebuild(b: Byte)
    ensures b / 16 < 16 && Combine(b / 16, b % 16) == b
  {
  }

  /** Decoding inverts every encoder that always escapes the percent sign. */
  lemma {:induction false} DecodeInvertsEncode(bytes: seq<Byte>, styles: seq<Style>)
    requires |styles| == |bytes| && EscapesPercent(bytes, styles)
    ensures Decode(Encode(bytes, styles)) == bytes
  {
    if bytes != [] {
      DecodeInvertsEncode(bytes[1..], styles[1..]);
      var s, rest := Encode(bytes, styles), Encode(bytes[1..], styles[1..]);
      assert bytes == [bytes[0]] + bytes[1..];
      match styles[0] {
        case Bare =>
          assert s[0] == bytes[0] && s[1..] == rest;
        case Escaped(high, low) =>
          NibblesRebuild(bytes[0]);
          DigitReads(bytes[0] / 16, high);
          DigitReads(bytes[0] % 16, low);
          assert s == [PERCENT, Digit(bytes[0] / 16, high), Digit(bytes[0] % 16, low)] + rest;
          assert s[3..] == rest;
      }
    }
  }

  /** Every percent sign starts a complete escape. */
  predicate WellFormed(s: seq<Byte>) {
    if s == [] then true
    else if s[0] == PERCENT then StartsEscape(s) && WellFormed(s[3..])
    else WellFormed(s[1..])
  }

  predicate IsUpper(b: Byte) {
    0x41 <= b <= 0x46
  }

  /** The way a well-formed text was written. */
  function StylesOf(s: seq<Byte>): (styles: seq<Style>)
    requires WellFormed(s)
    ensures |styles| == |Decode(s)|
  {
    if s == [] then []
    else if s[0] == PERCENT then [Escaped(IsUpper(s[1]), IsUpper(s[2]))] + StylesOf(s[3..])
    else [Bare] + StylesOf(s[1..])
  }

  lemma DigitRebuilds(b: Byte)
    requires HexValue(b).Some?
    ensures Digit(HexValue(b).value, IsUpper(b)) == b
  {
  }

  /** Conversely every well-formed text is such an encoding of what it decodes to. */
  lemma {:induction false} EncodeInvertsDecode(s: seq<Byte>)
    requires WellFormed(s)
    ensures EscapesPercent(Decode(s), StylesOf(s)) && Encode(Decode(s), StylesOf(s)) == s
  {
    if s != [] {
      var bytes, styles := Decode(s), StylesOf(s);
      if s[0] == PERCENT {
        EncodeInvertsDecode(s[3..]);
        DigitRebuilds(s[1]);
        DigitRebuilds(s[2]);
        assert bytes[1..] == Decode(s[3..]) && styles[1..] == StylesOf(s[3..]);
        SixteenSplits(HexValue(s[1]).value, HexValue(s[2]).value);
        assert s == [s[0], s[1], s[2]] + s[3..];
      } else {
        EncodeInvertsDecode(s[1..]);
        assert bytes[1..] == Decode(s[1..]) && styles[1..] == StylesOf(s[1..]);
        assert s == [s[0]] + s[1..];
      }
      EscapesTail(bytes, styles);
    }
  }

  lemma EscapesTail(bytes: seq<Byte>, styles: seq<Style>)
    requires |styles| == |bytes| && bytes != [] && EscapesPercent(bytes[1..], styles[1..])
    requires bytes[0] == PERCENT ==> styles[0].Escaped?
    ensures EscapesPercent(bytes, styles)
  {
    assert forall i :: 1 <= i < |bytes| ==> bytes[i] == bytes[1..][i - 1] && styles[i] == styles[1..][i - 1];
  }

  lemma SixteenSplits(hi: Byte, lo: Byte)
    requires hi < 16 && lo < 16
    ensures Combine(hi, lo) / 16 == hi && Combine(hi, lo) % 16 == lo
  {
  }

  // ---------------------------------------------------------- hexadecimal

  function HexOf(bytes: seq<Byte>): (r: seq<Byte>)
    ensures |r| == 2 * |bytes|
  {
    if bytes == [] then []
    else HexOf(bytes[..|bytes| - 1]) + [LowerDigit(bytes[|bytes| - 1] / 16), LowerDigit(bytes[|bytes| - 1] % 16)]
  }

  method HexEncodeLower(bytes: seq<Byte>) returns (s: seq<Byte>)
    ensures s == HexOf(bytes)
  {
    s := [];
    for i := 0 to |bytes|
      invariant s == HexOf(bytes[..i])
    {
      assert bytes[..i + 1][..i] == bytes[..i];
      s := s + [LowerDigit(bytes[i] / 16)];
      s := s + [LowerDigit(bytes[i] % 16)];
    }
    assert bytes[..|bytes|] == bytes;
  }

  /** Each printed pair reads back as its byte, and no upper-case digit appears. */
  lemma {:induction false} HexReadsBack(bytes: seq<Byte>, i: nat)
    requires i < |bytes|
    ensures var hex := HexOf(bytes);
            && HexValue(hex[2 * i]).Some? && HexValue(hex[2 * i + 1]).Some?
            && Combine(HexValue(hex[2 * i]).value, HexValue(hex[2 * i + 1]).value) == bytes[i]
            && !IsUpper(hex[2 * i]) && !IsUpper(hex[2 * i + 1])
  {
    var n := |bytes| - 1;
    if i < n {
      HexReadsBack(bytes[..n], i);
    } else {
      NibblesRebuild(bytes[n]);
      DigitReads(bytes[n] / 16, false);
      DigitReads(bytes[n] % 16, false);
    }
  }
}
