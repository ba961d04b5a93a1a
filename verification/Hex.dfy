/** Hexadecimal numbers as the formatting helpers print them. */
module Hex {
  import opened Wrappers

  function HexDigit(d: nat): char
    requires d < 16
  {
    "0123456789ABCDEF"[d]
  }

  predicate IsXDigit(c: char)
  {
    ('0' <= c <= '9') || ('A' <= c <= 'F') || ('a' <= c <= 'f')
  }

  function DigitValue(c: char): nat
    requires IsXDigit(c)
  {
    if '0' <= c <= '9' then c as int - '0' as int
    else if 'A' <= c <= 'F' then c as int - 'A' as int + 10
    else c as int - 'a' as int + 10
  }

  /** Upper case, no leading zeros. */
  function FormatHexInt(n: nat): (s: string)
    ensures s != "" && forall i :: 0 <= i < |s| ==> IsXDigit(s[i])
  {
    if n < 16 then [HexDigit(n)] else FormatHexInt(n / 16) + [HexDigit(n % 16)]
  }

  /** Two digits for a byte. */
  function FormatByte(b: nat): (s: string)
    requires b < 256
    ensures |s| == 2
  {
    [HexDigit(b / 16), HexDigit(b % 16)]
  }

  function HexValue(s: string): nat
    requires forall i :: 0 <= i < |s| ==> IsXDigit(s[i])
  {
    if s == "" then 0 else 16 * HexValue(Front(s)) + DigitValue(Last(s))
  }

  lemma {:induction false} DigitReadsBack(d: nat)
    requires d < 16
    ensures IsXDigit(HexDigit(d)) && DigitValue(HexDigit(d)) == d
  {
  }

  lemma {:induction false} HexReadsBack(n: nat)
    ensures HexValue(FormatHexInt(n)) == n
  {
    if n < 16 {
      DigitReadsBack(n);
      assert Front(FormatHexInt(n)) == "";
    } else {
      HexReadsBack(n / 16);
      DigitReadsBack(n % 16);
      FrontLast(FormatHexInt(n / 16), HexDigit(n % 16));
    }
  }

  lemma {:induction false} UpperWithoutZeros(n: nat)
    ensures n > 0 ==> FormatHexInt(n)[0] != '0'
    ensures forall i :: 0 <= i < |FormatHexInt(n)| ==> '0' <= FormatHexInt(n)[i] <= '9' || 'A' <= FormatHexInt(n)[i] <= 'F'
  {
    if n >= 16 { UpperWithoutZeros(n / 16); }
  }
}
