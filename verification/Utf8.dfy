/** Wide strings to UTF-8: code points packed into bytes, UTF-16 pairs joined first, and the decoders
    that show nothing is lost. */
module Utf8 {
  import opened Wrappers
  import opened Hex
  import opened Arithmetic
  import opened Bits

  type byte = x: int | 0 <= x < 256

  const MAX_CODE_POINT1 := 0x7F
  const MAX_CODE_POINT2 := 0x7FF
  const MAX_CODE_POINT3 := 0xFFFF
  const MAX_CODE_POINT4 := 0x1FFFFF

  /** The markers of the four forms, ORed onto the bits they leave free. */
  lemma {:induction false} MarkersAreAdded(x: nat)
    ensures x < 0x40 ==> Or(0x80, x) == 0x80 + x
    ensures x < 0x20 ==> Or(0xC0, x) == 0xC0 + x
    ensures x < 0x10 ==> Or(0xE0, x) == 0xE0 + x
    ensures x < 0x08 ==> Or(0xF0, x) == 0xF0 + x
  {
    SmallPowers();
    if x < 0x40 { OrIsPlus(0x80, 6, x); }
    if x < 0x20 { OrIsPlus(0xC0, 5, x); }
    if x < 0x10 { OrIsPlus(0xE0, 4, x); }
    if x < 0x08 { OrIsPlus(0xF0, 3, x); }
  }

  /** The bytes of a code point. */
  function Utf8Of(cp: nat): seq<byte>
    requires cp <= MAX_CODE_POINT4
  {
    if cp <= MAX_CODE_POINT1 then [cp]
    else if cp <= MAX_CODE_POINT2 then [0xC0 + cp / 64, 0x80 + cp % 64]
    else if cp <= MAX_CODE_POINT3 then [0xE0 + cp / 4096, 0x80 + cp / 64 % 64, 0x80 + cp % 64]
    else [0xF0 + cp / 262144, 0x80 + cp / 4096 % 64, 0x80 + cp / 64 % 64, 0x80 + cp % 64]
  }

  function Ascii(s: string): seq<byte>
    requires forall i :: 0 <= i < |s| ==> s[i] as int < 128
  {
    seq(|s|, i requires 0 <= i < |s| => s[i] as int)
  }

  /** What is printed for any 32-bit value but zero. */
  function Shown(cp: nat): seq<byte>
  {
    if cp <= MAX_CODE_POINT4 then Utf8Of(cp)
    else Ascii("(Invalid Unicode 0x") + Ascii(FormatHexInt(cp)) + Ascii(")")
  }

  function ShownAll(cps: seq<nat>): seq<byte>
  {
    if cps == [] then [] else ShownAll(Front(cps)) + Shown(Last(cps))
  }

  // ----- decoding

  predicate IsTail(b: byte) { 0x80 <= b <= 0xBF }

  /** The length a first byte announces. */
  function LengthOf(b: byte): nat
  {
    if b < 0x80 then 1 else if 0xC0 <= b < 0xE0 then 2 else if 0xE0 <= b < 0xF0 then 3 else if 0xF0 <= b < 0xF8 then 4 else 0
  }

  /** The payload bits put together. */
  function Value2(a: int, b: int): nat
    requires 0xC0 <= a && 0x80 <= b
  {
    (a - 0xC0) * 64 + (b - 0x80)
  }

  function Value3(a: int, b: int, c: int): nat
    requires 0xE0 <= a && 0x80 <= b && 0x80 <= c
  {
    (a - 0xE0) * 4096 + (b - 0x80) * 64 + (c - 0x80)
  }

  function Value4(a: int, b: int, c: int, d: int): nat
    requires 0xF0 <= a && 0x80 <= b && 0x80 <= c && 0x80 <= d
  {
    (a - 0xF0) * 262144 + (b - 0x80) * 4096 + (c - 0x80) * 64 + (d - 0x80)
  }

  /** The code point whose bytes begin `bs`, and their number. */
  function DecodeFirst(bs: seq<byte>): (r: Option<(nat, nat)>)
    ensures r.Some? ==> 1 <= r.value.1 <= |bs| && r.value.0 <= MAX_CODE_POINT4
  {
    if bs == [] then None
    else
      var n := LengthOf(bs[0]);
      if n == 0 || n > |bs| then None
      else if n == 1 then Some((bs[0], 1))
      else if !IsTail(bs[1]) || (n > 2 && !IsTail(bs[2])) || (n > 3 && !IsTail(bs[3])) then None
      else if n == 2 then Some((Value2(bs[0], bs[1]), 2))
      else if n == 3 then Some((Value3(bs[0], bs[1], bs[2]), 3))
      else Some((Value4(bs[0], bs[1], bs[2], bs[3]), 4))
  }

  function Decode(bs: seq<byte>): Option<seq<nat>>
  {
    if bs == [] then Some([])
    else
      match DecodeFirst(bs)
      case None => None
      case Some((cp, n)) =>
        match Decode(bs[n..])
        case None => None
        case Some(rest) => Some([cp] + rest)
  }

  /** The six-bit digits of a number add up to it. */
  lemma {:induction false} SixBitDigits(cp: nat)
    ensures cp == cp / 64 * 64 + cp % 64
    ensures cp == cp / 4096 * 4096 + cp / 64 % 64 * 64 + cp % 64
    ensures cp == cp / 262144 * 262144 + cp / 4096 % 64 * 4096 + cp / 64 % 64 * 64 + cp % 64
  {
    var q := cp / 64;
    var p := q / 64;
    assert p == cp / 4096 && p / 64 == cp / 262144;
  }

  lemma {:induction false} DecodesWhatWasShown(cp: nat, rest: seq<byte>)
    requires cp <= MAX_CODE_POINT4
    ensures DecodeFirst(Utf8Of(cp) + rest) == Some((cp, |Utf8Of(cp)|))
  {
    SixBitDigits(cp);
    var u, bs := Utf8Of(cp), Utf8Of(cp) + rest;
    assert bs[0] == u[0];
    if cp <= MAX_CODE_POINT1 {
    } else if cp <= MAX_CODE_POINT2 {
      assert bs[1] == u[1];
    } else if cp <= MAX_CODE_POINT3 {
      assert bs[1] == u[1] && bs[2] == u[2];
    } else {
      assert bs[1] == u[1] && bs[2] == u[2] && bs[3] == u[3];
    }
  }

  function FlatUtf8(cps: seq<nat>): seq<byte>
    requires forall i :: 0 <= i < |cps| ==> cps[i] <= MAX_CODE_POINT4
  {
    if cps == [] then [] else Utf8Of(cps[0]) + FlatUtf8(cps[1..])
  }

  lemma {:induction false} ShownIsFlat(cps: seq<nat>, more: seq<nat>)
    requires forall i :: 0 <= i < |cps| ==> cps[i] <= MAX_CODE_POINT4
    requires forall i :: 0 <= i < |more| ==> more[i] <= MAX_CODE_POINT4
    ensures ShownAll(cps) + FlatUtf8(more) == FlatUtf8(cps + more)
    decreases |cps|
  {
    hide Utf8Of;
    if cps == [] {
      assert cps + more == more;
    } else {
      var x := Last(cps);
      assert ([x] + more)[1..] == more;
      ShownIsFlat(Front(cps), [x] + more);
      assert Front(cps) + ([x] + more) == cps + more;
      assert ShownAll(cps) + FlatUtf8(more) == ShownAll(Front(cps)) + (Utf8Of(x) + FlatUtf8(more));
    }
  }

  lemma {:induction false} DecodeFlat(cps: seq<nat>)
    requires forall i :: 0 <= i < |cps| ==> cps[i] <= MAX_CODE_POINT4
    ensures Decode(FlatUtf8(cps)) == Some(cps)
  {
    hide Utf8Of, DecodeFirst;
    if cps != [] {
      DecodeFlat(cps[1..]);
      NeverEmpty(cps[0]);
      DecodesWhatWasShown(cps[0], FlatUtf8(cps[1..]));
      var bs := FlatUtf8(cps);
      assert bs[|Utf8Of(cps[0])|..] == FlatUtf8(cps[1..]);
      assert [cps[0]] + cps[1..] == cps;
    }
  }

  lemma {:induction false} NeverEmpty(cp: nat)
    requires cp <= MAX_CODE_POINT4
    ensures Utf8Of(cp) != []
  {
  }

  lemma {:induction false} DecodedIsSmall(bs: seq<byte>)
    requires Decode(bs).Some?
    ensures forall i :: 0 <= i < |Decode(bs).value| ==> Decode(bs).value[i] <= MAX_CODE_POINT4
    decreases |bs|
  {
    if bs != [] {
      DecodedIsSmall(bs[DecodeFirst(bs).value.1..]);
    }
  }

  /** Showing code points loses nothing exactly when none is beyond 21 bits. */
  lemma {:induction false} DecodeIffInRange(cps: seq<nat>)
    ensures Decode(ShownAll(cps)) == Some(cps) <==> forall i :: 0 <= i < |cps| ==> cps[i] <= 0x1FFFFF
  {
    hide Shown, DecodeFirst, Decode, ShownAll;
    if forall i :: 0 <= i < |cps| ==> cps[i] <= MAX_CODE_POINT4 {
      ShownIsFlat(cps, []);
      assert cps + [] == cps && FlatUtf8([]) == [];
      assert ShownAll(cps) + [] == ShownAll(cps);
      DecodeFlat(cps);
    } else if Decode(ShownAll(cps)) == Some(cps) {
      DecodedIsSmall(ShownAll(cps));
    }
  }

  // ----- the standard's own form

  predicate InRange(b: byte, lo: byte, hi: byte) { lo <= b <= hi }

  /** The octet sequences allowed by section 4 of RFC 3629. */
  predicate Rfc3629Octets(bs: seq<byte>)
  {
    || (|bs| == 1 && bs[0] <= 0x7F)
    || (|bs| == 2 && InRange(bs[0], 0xC2, 0xDF) && IsTail(bs[1]))
    || (|bs| == 3 && IsTail(bs[2]) &&
        (|| (bs[0] == 0xE0 && InRange(bs[1], 0xA0, 0xBF))
         || (InRange(bs[0], 0xE1, 0xEC) && IsTail(bs[1]))
         || (bs[0] == 0xED && InRange(bs[1], 0x80, 0x9F))
         || (InRange(bs[0], 0xEE, 0xEF) && IsTail(bs[1]))))
    || (|bs| == 4 && IsTail(bs[2]) && IsTail(bs[3]) &&
        (|| (bs[0] == 0xF0 && InRange(bs[1], 0x90, 0xBF))
         || (InRange(bs[0], 0xF1, 0xF3) && IsTail(bs[1]))
         || (bs[0] == 0xF4 && InRange(bs[1], 0x80, 0x8F))))
  }

  /** A Unicode scalar value: no surrogate, at most 0x10FFFF. */
  predicate IsScalar(cp: nat) { cp <= 0x10FFFF && !(0xD800 <= cp <= 0xDFFF) }

  lemma {:induction false} Values2ReadBack(a: byte, b: byte)
    requires 0xC0 <= a < 0xE0 && IsTail(b)
    ensures var cp := Value2(a, b); a == 0xC0 + cp / 64 && b == 0x80 + cp % 64
  {
  }

  lemma {:induction false} Values3ReadBack(a: byte, b: byte, c: byte)
    requires 0xE0 <= a < 0xF0 && IsTail(b) && IsTail(c)
    ensures var cp := Value3(a, b, c); a == 0xE0 + cp / 4096 && b == 0x80 + cp / 64 % 64 && c == 0x80 + cp % 64
  {
    var cp := Value3(a, b, c);
    var q := (a - 0xE0 as int) * 64 + (b - 0x80);
    assert cp == q * 64 + (c - 0x80) && cp / 64 == q;
  }

  lemma {:induction false} Values4ReadBack(a: byte, b: byte, c: byte, d: byte)
    requires 0xF0 <= a < 0xF8 && IsTail(b) && IsTail(c) && IsTail(d)
    ensures var cp := Value4(a, b, c, d);
            && a == 0xF0 + cp / 262144 && b == 0x80 + cp / 4096 % 64
            && c == 0x80 + cp / 64 % 64 && d == 0x80 + cp % 64
  {
    var cp := Value4(a, b, c, d);
    var q1 := (a - 0xF0 as int) * 4096 + (b - 0x80 as int) * 64 + (c - 0x80);
    var q2 := (a - 0xF0 as int) * 64 + (b - 0x80);
    assert cp == q1 * 64 + (d - 0x80) && q1 == q2 * 64 + (c - 0x80);
    assert cp / 64 == q1 && cp / 4096 == q2;
  }

  /** The bytes of a scalar value have the standard's form. */
  lemma {:induction false} ScalarHasRfcForm(cp: nat)
    requires IsScalar(cp)
    ensures Rfc3629Octets(Utf8Of(cp))
  {
    SixBitDigits(cp);
    if cp <= MAX_CODE_POINT2 {
    } else if cp <= MAX_CODE_POINT3 {
      ThreeOctets(cp);
    } else {
      FourOctets(cp);
    }
  }

  lemma {:induction false} ThreeOctets(cp: nat)
    requires 0x7FF < cp <= 0xFFFF && IsScalar(cp)
    ensures Rfc3629Octets(Utf8Of(cp))
  {
    SixBitDigits(cp);
  }

  lemma {:induction false} FourOctets(cp: nat)
    requires 0xFFFF < cp && IsScalar(cp)
    ensures Rfc3629Octets(Utf8Of(cp))
  {
    SixBitDigits(cp);
  }

  /** Octets of the standard's form are as many as their value needs. */
  lemma {:induction false} RfcFormIsShortest(bs: seq<byte>)
    requires Rfc3629Octets(bs)
    ensures DecodeFirst(bs).Some? && DecodeFirst(bs).value.1 == |bs|
    ensures var cp := DecodeFirst(bs).value.0;
            |bs| == (if cp <= MAX_CODE_POINT1 then 1 else if cp <= MAX_CODE_POINT2 then 2 else if cp <= MAX_CODE_POINT3 then 3 else 4)
    ensures |bs| == LengthOf(bs[0]) && forall i :: 1 <= i < |bs| ==> IsTail(bs[i])
  {
  }

  /** For scalar values the bytes are the one sequence of the standard that decodes to them. */
  lemma {:induction false} MatchesRfc3629(cp: nat, bs: seq<byte>)
    requires IsScalar(cp)
    ensures bs == Utf8Of(cp) <==> Rfc3629Octets(bs) && DecodeFirst(bs) == Some((cp, |bs|))
  {
    if bs == Utf8Of(cp) {
      DecodesWhatWasShown(cp, []);
      assert bs + [] == bs;
      ScalarHasRfcForm(cp);
    } else if Rfc3629Octets(bs) && DecodeFirst(bs) == Some((cp, |bs|)) {
      RfcFormDetermined(cp, bs);
      assert false;
    }
  }

  lemma {:induction false} RfcFormDetermined(cp: nat, bs: seq<byte>)
    requires IsScalar(cp) && Rfc3629Octets(bs) && DecodeFirst(bs) == Some((cp, |bs|))
    ensures bs == Utf8Of(cp)
  {
    hide Rfc3629Octets;
    RfcFormIsShortest(bs);
    if |bs| == 1 {
      assert bs == [bs[0]];
    } else if |bs| == 2 {
      assert bs == [bs[0], bs[1]] && cp == Value2(bs[0], bs[1]);
      hide DecodeFirst, Value2;
      Values2ReadBack(bs[0], bs[1]);
    } else if |bs| == 3 {
      assert bs == [bs[0], bs[1], bs[2]] && cp == Value3(bs[0], bs[1], bs[2]);
      hide DecodeFirst, Value3;
      Values3ReadBack(bs[0], bs[1], bs[2]);
    } else {
      assert bs == [bs[0], bs[1], bs[2], bs[3]] && cp == Value4(bs[0], bs[1], bs[2], bs[3]);
      hide DecodeFirst, Value4;
      Values4ReadBack(bs[0], bs[1], bs[2], bs[3]);
    }
  }

  // ----- UTF-16 units

  predicate IsSurrogatePair(first: nat, second: nat) { first / 1024 == 0x36 && second / 1024 == 0x37 }

  function FromSurrogatePair(first: nat, second: nat): nat { first % 1024 * 1024 + second % 1024 + 0x10000 }

  /** The code points of units[i..]; with 16-bit units pairs of surrogates are joined. */
  function CodePointsFrom(units: seq<nat>, i: nat, wide16: bool): seq<nat>
    requires i <= |units|
    decreases |units| - i
  {
    if i == |units| then []
    else if wide16 && i + 1 < |units| && IsSurrogatePair(units[i], units[i + 1]) then
      [FromSurrogatePair(units[i], units[i + 1])] + CodePointsFrom(units, i + 2, wide16)
    else [units[i]] + CodePointsFrom(units, i + 1, wide16)
  }

  /** Code points back to 16-bit units. */
  function UnitsOf(cps: seq<nat>): seq<nat>
  {
    if cps == [] then []
    else (if cps[0] < 0x10000 then [cps[0]] else [0xD800 + (cps[0] - 0x10000) / 1024, 0xDC00 + (cps[0] - 0x10000) % 1024])
         + UnitsOf(cps[1..])
  }

  lemma {:induction false} PairReadsBack(first: nat, second: nat)
    requires IsSurrogatePair(first, second)
    ensures var cp := FromSurrogatePair(first, second);
            && 0x10000 <= cp <= 0x10FFFF
            && 0xD800 + (cp - 0x10000) / 1024 == first
            && 0xDC00 + (cp - 0x10000) % 1024 == second
  {
  }

  lemma {:induction false} UnitsReadBack(units: seq<nat>, i: nat)
    requires i <= |units| && forall k :: 0 <= k < |units| ==> units[k] < 0x10000
    ensures UnitsOf(CodePointsFrom(units, i, true)) == units[i..]
    ensures forall k :: 0 <= k < |CodePointsFrom(units, i, true)| ==> CodePointsFrom(units, i, true)[k] <= 0x10FFFF
    decreases |units| - i
  {
    hide IsSurrogatePair, FromSurrogatePair;
    if i < |units| {
      var cps := CodePointsFrom(units, i, true);
      if i + 1 < |units| && IsSurrogatePair(units[i], units[i + 1]) {
        PairReadsBack(units[i], units[i + 1]);
        UnitsReadBack(units, i + 2);
        assert cps[1..] == CodePointsFrom(units, i + 2, true);
        assert units[i..] == [units[i], units[i + 1]] + units[i + 2..];
      } else {
        UnitsReadBack(units, i + 1);
        assert cps[1..] == CodePointsFrom(units, i + 1, true);
        assert units[i..] == [units[i]] + units[i + 1..];
      }
    }
  }

  lemma {:induction false} WideUnitsAreCodePoints(units: seq<nat>, i: nat)
    requires i <= |units|
    ensures CodePointsFrom(units, i, false) == units[i..]
    decreases |units| - i
  {
    if i < |units| {
      WideUnitsAreCodePoints(units, i + 1);
      assert units[i..] == [units[i]] + units[i + 1..];
    }
  }

  // ----- whole strings

  /** The units before the first NUL. */
  function BeforeNul(units: seq<nat>): seq<nat>
  {
    if units == [] || units[0] == 0 then [] else [units[0]] + BeforeNul(units[1..])
  }

  /** The units converted: all before the first NUL, or those among the first `numChars`. */
  function Visible(str: seq<nat>, numChars: int): seq<nat>
  {
    if numChars == -1 then BeforeNul(str)
    else if numChars < 0 then []
    else BeforeNul(if numChars <= |str| then str[..numChars] else str)
  }

  function Converted(str: seq<nat>, numChars: int, wide16: bool): seq<byte>
  {
    ShownAll(CodePointsFrom(Visible(str, numChars), 0, wide16))
  }

  /** 16-bit units come back exactly, unpaired surrogates included. */
  lemma {:induction false} Utf16RoundTrip(str: seq<nat>, numChars: int)
    requires forall k :: 0 <= k < |str| ==> str[k] < 0x10000
    ensures Decode(Converted(str, numChars, true)).Some?
    ensures UnitsOf(Decode(Converted(str, numChars, true)).value) == Visible(str, numChars)
  {
    var units := Visible(str, numChars);
    BeforeNulIsPrefix(str);
    if 0 <= numChars <= |str| { BeforeNulIsPrefix(str[..numChars]); }
    UnitsReadBack(units, 0);
    DecodeIffInRange(CodePointsFrom(units, 0, true));
    assert units[0..] == units;
  }

  /** 32-bit units come back exactly if and only if none exceeds 21 bits. */
  lemma {:induction false} Utf32RoundTripIff(str: seq<nat>, numChars: int)
    ensures Decode(Converted(str, numChars, false)) == Some(Visible(str, numChars)) <==>
            forall k :: 0 <= k < |Visible(str, numChars)| ==> Visible(str, numChars)[k] <= 0x1FFFFF
  {
    var units := Visible(str, numChars);
    WideUnitsAreCodePoints(units, 0);
    assert units[0..] == units;
    DecodeIffInRange(units);
  }

  /** Scalar values written in UTF-16 with a NUL behind them, surrogate pairs included, come out as their UTF-8. */
  lemma {:induction false} WellFormedConverted(cps: seq<nat>)
    requires forall i :: 0 <= i < |cps| ==> 0 < cps[i] <= MAX_CODE_POINT4 && IsScalar(cps[i])
    ensures Converted(UnitsOf(cps) + [0], -1, true) == FlatUtf8(cps)
  {
    hide UnitsOf, CodePointsFrom, ShownAll, FlatUtf8;
    var units := UnitsOf(cps);
    UnitsNotZero(cps);
    BeforeNulStops(units, [0]);
    PairsJoined(units, 0, cps);
    ShownIsFlat(cps, []);
    NoneShown();
    assert units[0..] == units && cps + [] == cps;
  }

  lemma {:induction false} NoneShown()
    ensures ShownAll([]) == [] && FlatUtf8([]) == []
  {
  }

  lemma {:induction false} PairsJoined(units: seq<nat>, i: nat, cps: seq<nat>)
    requires forall k :: 0 <= k < |cps| ==> IsScalar(cps[k])
    requires i <= |units| && units[i..] == UnitsOf(cps)
    ensures CodePointsFrom(units, i, true) == cps
    decreases |cps|
  {
    if cps == [] {
      assert i == |units|;
    } else {
      var rest, cp := units[i..], cps[0];
      assert cps == [cp] + cps[1..];
      if cp < 0x10000 {
        assert units[i] == rest[0] == cp && units[i + 1..] == rest[1..] == UnitsOf(cps[1..]);
        PairsJoined(units, i + 1, cps[1..]);
      } else {
        var c := cp - 0x10000;
        assert units[i] == rest[0] == 0xD800 + c / 1024 && units[i + 1] == rest[1] == 0xDC00 + c % 1024;
        assert units[i + 2..] == rest[2..] == UnitsOf(cps[1..]);
        PairOfScalar(cp);
        PairsJoined(units, i + 2, cps[1..]);
      }
    }
  }

  lemma {:induction false} PairOfScalar(cp: nat)
    requires 0x10000 <= cp <= 0x10FFFF
    ensures var c := cp - 0x10000; IsSurrogatePair(0xD800 + c / 1024, 0xDC00 + c % 1024) && FromSurrogatePair(0xD800 + c / 1024, 0xDC00 + c % 1024) == cp
  {
  }

  lemma {:induction false} UnitsNotZero(cps: seq<nat>)
    requires forall i :: 0 <= i < |cps| ==> cps[i] != 0
    ensures forall k :: 0 <= k < |UnitsOf(cps)| ==> UnitsOf(cps)[k] != 0
  {
    if cps != [] { UnitsNotZero(cps[1..]); }
  }

  lemma {:induction false} BeforeNulStops(units: seq<nat>, rest: seq<nat>)
    requires forall k :: 0 <= k < |units| ==> units[k] != 0
    requires rest != [] && rest[0] == 0
    ensures BeforeNul(units + rest) == units
  {
    if units == [] {
      assert units + rest == rest;
    } else {
      assert (units + rest)[1..] == units[1..] + rest;
      BeforeNulStops(units[1..], rest);
    }
  }

  /** What is shown for a value beyond 21 bits names it in upper-case hexadecimal without leading zeros. */
  lemma {:induction false} TooLargeIsNamed(cp: nat)
    requires cp > MAX_CODE_POINT4
    ensures exists digits: string ::
              && (forall i :: 0 <= i < |digits| ==> '0' <= digits[i] <= '9' || 'A' <= digits[i] <= 'F')
              && digits != "" && digits[0] != '0' && HexValue(digits) == cp
              && Shown(cp) == Ascii("(Invalid Unicode 0x") + Ascii(digits) + Ascii(")")
  {
    hide HexValue;
    HexReadsBack(cp);
    UpperWithoutZeros(cp);
    hide FormatHexInt, Ascii;
    var digits := FormatHexInt(cp);
    assert Shown(cp) == Ascii("(Invalid Unicode 0x") + Ascii(digits) + Ascii(")");
  }

  lemma {:induction false} BeforeNulIsPrefix(units: seq<nat>)
    ensures BeforeNul(units) <= units
    ensures |BeforeNul(units)| < |units| ==> units[|BeforeNul(units)|] == 0
    ensures forall k :: 0 <= k < |BeforeNul(units)| ==> units[k] != 0
  {
    if units != [] && units[0] != 0 {
      BeforeNulIsPrefix(units[1..]);
      assert units == [units[0]] + units[1..];
    }
  }

  // ----- the methods

  /** Takes the lowest bits off by mask and shift: the remainder and the quotient. */
  method ChopLowBits(bits: nat, n: nat) returns (low: nat, rest: nat)
    requires n < 32
    ensures low < Pow2(n) && bits == rest * Pow2(n) + low
    ensures low == bits % Pow2(n) && rest == bits / Pow2(n)
  {
    hide And, ShiftRight, Pow2;
    MaskAndShift(bits, n);
    DivMod(bits, Pow2(n), bits / Pow2(n), bits % Pow2(n));
    low := And(bits, Pow2(n) - 1);
    rest := ShiftRight(bits, n);
  }

  lemma {:induction false} ChoppingTwice(cp: nat)
    ensures cp / 64 / 64 == cp / 4096 && cp / 64 / 64 / 64 == cp / 262144
  {
  }

  /** Fills a buffer from the back. */
  method FillBuffer(codePoint: nat, str: array<byte>) returns (n: nat)
    requires codePoint <= MAX_CODE_POINT4 && str.Length == 5
    modifies str
    ensures n == |Utf8Of(codePoint)| < 5 && str[..n] == Utf8Of(codePoint) && str[n] == 0
  {
    hide And, ShiftRight, Pow2, Or;
    ChoppingTwice(codePoint);
    SmallPowers();
    var cp := codePoint;
    var low;
    if cp <= MAX_CODE_POINT1 {
      n := 1;
      str[1] := 0;
      str[0] := cp;
    } else if cp <= MAX_CODE_POINT2 {
      n := 2;
      str[2] := 0;
      low, cp := ChopLowBits(cp, 6);
      MarkersAreAdded(low);
      str[1] := Or(0x80, low);
      MarkersAreAdded(cp);
      str[0] := Or(0xC0, cp);
    } else if cp <= MAX_CODE_POINT3 {
      n := 3;
      str[3] := 0;
      low, cp := ChopLowBits(cp, 6);
      MarkersAreAdded(low);
      str[2] := Or(0x80, low);
      low, cp := ChopLowBits(cp, 6);
      MarkersAreAdded(low);
      str[1] := Or(0x80, low);
      MarkersAreAdded(cp);
      str[0] := Or(0xE0, cp);
    } else {
      n := 4;
      str[4] := 0;
      low, cp := ChopLowBits(cp, 6);
      MarkersAreAdded(low);
      str[3] := Or(0x80, low);
      low, cp := ChopLowBits(cp, 6);
      MarkersAreAdded(low);
      str[2] := Or(0x80, low);
      low, cp := ChopLowBits(cp, 6);
      MarkersAreAdded(low);
      str[1] := Or(0x80, low);
      MarkersAreAdded(cp);
      str[0] := Or(0xF0, cp);
    }
  }

  lemma {:induction false} NoZeroBytes(cp: nat)
    requires 0 < cp <= MAX_CODE_POINT4
    ensures forall i :: 0 <= i < |Utf8Of(cp)| ==> Utf8Of(cp)[i] != 0
  {
  }

  /** The buffer is returned as a C string, so that zero gives nothing. */
  method CodePointToUtf8(codePoint: nat) returns (bytes: seq<byte>)
    requires codePoint < 0x1_0000_0000
    ensures bytes == if codePoint == 0 then [] else Shown(codePoint)
  {
    if codePoint > MAX_CODE_POINT4 {
      return Ascii("(Invalid Unicode 0x") + Ascii(FormatHexInt(codePoint)) + Ascii(")");
    }
    var str := new byte[5](_ => 0);
    var n := FillBuffer(codePoint, str);
    hide Utf8Of;
    if codePoint != 0 { NoZeroBytes(codePoint); } else { ZeroIsOneByte(); }
    ghost var filled := str[..n];
    assert forall k :: 0 <= k < n ==> str[k] == filled[k];
    bytes := [];
    var i := 0;
    while str[i] != 0
      invariant 0 <= i <= n && bytes == str[..i] && str[..n] == filled && str[n] == 0
      invariant codePoint == 0 ==> i == 0
      decreases n - i
    {
      assert str[i] == filled[i];
      bytes := bytes + [str[i]];
      i := i + 1;
    }
    assert i < n ==> str[i] == filled[i];
  }

  lemma {:induction false} ZeroIsOneByte()
    ensures Utf8Of(0) == [0]
  {
  }

  /** `wcslen`. */
  method WcsLen(str: seq<nat>) returns (n: nat)
    requires 0 in str
    ensures n == |BeforeNul(str)|
  {
    BeforeNulIsPrefix(str);
    n := 0;
    while str[n] != 0
      invariant 0 <= n <= |BeforeNul(str)| < |str|
      decreases |str| - n
    {
      n := n + 1;
    }
  }

  /** The next code point of the string, and where it ends. */
  method NextCodePoint(str: seq<nat>, i: nat, limit: nat, ghost units: seq<nat>, wide16: bool) returns (cp: nat, next: nat)
    requires i < |units| <= limit && units <= str
    requires |units| < |str| && |units| < limit ==> str[|units|] == 0
    requires |units| < limit ==> |units| < |str|
    requires forall k :: 0 <= k < |units| ==> 0 < units[k] < 0x1_0000_0000
    ensures i < next <= |units| && 0 < cp < 0x1_0000_0000
    ensures CodePointsFrom(units, i, wide16) == [cp] + CodePointsFrom(units, next, wide16)
  {
    if i + 1 < limit && wide16 && IsSurrogatePair(str[i], str[i + 1]) {
      cp := FromSurrogatePair(str[i], str[i + 1]);
      next := i + 2;
    } else {
      cp := str[i];
      next := i + 1;
    }
  }

  method WideStringToUtf8(str: seq<nat>, numChars: int, wide16: bool) returns (bytes: seq<byte>)
    requires forall k :: 0 <= k < |str| ==> str[k] < 0x1_0000_0000
    requires numChars == -1 || numChars > |str| ==> 0 in str
    ensures bytes == Converted(str, numChars, wide16)
  {
    hide Shown, ShownAll, BeforeNul, CodePointsFrom, IsSurrogatePair, FromSurrogatePair;
    NothingShown();
    ghost var units := Visible(str, numChars);
    VisibleIsPrefix(str, numChars);
    var limit := numChars;
    if numChars == -1 {
      limit := WcsLen(str);
    }
    bytes := [];
    var i := 0;
    ghost var done := [];
    while i < limit
      invariant 0 <= i <= |units|
      invariant done + CodePointsFrom(units, i, wide16) == CodePointsFrom(units, 0, wide16)
      invariant bytes == ShownAll(done)
      decreases limit - i
    {
      if str[i] == 0 {
        break;
      }
      ghost var i0 := i;
      var cp;
      cp, i := NextCodePoint(str, i, limit, units, wide16);
      ShownSnoc(done, cp);
      assert done + ([cp] + CodePointsFrom(units, i, wide16)) == done + [cp] + CodePointsFrom(units, i, wide16);
      done := done + [cp];
      var shown := CodePointToUtf8(cp);
      bytes := bytes + shown;
    }
    NoMoreCodePoints(units, wide16);
    assert done + [] == done;
  }

  lemma {:induction false} ShownSnoc(done: seq<nat>, cp: nat)
    ensures ShownAll(done + [cp]) == ShownAll(done) + Shown(cp)
  {
    FrontLast(done, cp);
  }

  lemma {:induction false} NothingShown()
    ensures ShownAll([]) == []
  {
  }

  lemma {:induction false} NoMoreCodePoints(units: seq<nat>, wide16: bool)
    ensures CodePointsFrom(units, |units|, wide16) == []
  {
  }

  lemma {:induction false} VisibleIsPrefix(str: seq<nat>, numChars: int)
    ensures Visible(str, numChars) <= str
    ensures 0 <= numChars ==> |Visible(str, numChars)| <= numChars
    ensures |Visible(str, numChars)| < |str| && (numChars == -1 || |Visible(str, numChars)| < numChars) ==> str[|Visible(str, numChars)|] == 0
    ensures forall k :: 0 <= k < |Visible(str, numChars)| ==> str[k] != 0
  {
    BeforeNulIsPrefix(str);
    if 0 <= numChars <= |str| { BeforeNulIsPrefix(str[..numChars]); }
  }
}
