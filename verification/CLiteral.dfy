/** Character arrays printed as C string literals, and the readers that take them back. */
module CLiteral {
  import opened Wrappers
  import opened Hex

  /** A character of the array: a byte, or a wide character. */
  type Unit = nat

  datatype CharFormat = AsIs | HexEscape | SpecialEscape

  function EscapeOf(c: Unit): Option<char>
  {
    match c
    case 0 => Some('0')
    case 34 => Some('"')
    case 92 => Some('\\')
    case 7 => Some('a')
    case 8 => Some('b')
    case 12 => Some('f')
    case 10 => Some('n')
    case 13 => Some('r')
    case 9 => Some('t')
    case 11 => Some('v')
    case _ => None
  }

  predicate IsPrintableAscii(c: Unit) { 0x20 <= c <= 0x7E }

  /** How a character appears inside a string literal. */
  function FormatOf(c: Unit): CharFormat
  {
    if EscapeOf(c).Some? then SpecialEscape else if IsPrintableAscii(c) then AsIs else HexEscape
  }

  function Token(c: Unit): string
  {
    match FormatOf(c)
    case SpecialEscape => ['\\', EscapeOf(c).value]
    case AsIs => [c as char]
    case HexEscape => "\\x" + FormatHexInt(c)
  }

  predicate IsHexUnit(c: Unit) { c < 256 && IsXDigit(c as char) }

  function QuoteBegin(wide: bool): string { if wide then "L\"" else "\"" }

  /** Closes a literal and opens the next. */
  function Break(wide: bool): string { "\" " + QuoteBegin(wide) }

  function Body(s: seq<Unit>, afterHex: bool, wide: bool): string
  {
    if s == [] then ""
    else
      (if afterHex && IsHexUnit(s[0]) then Break(wide) else "")
      + Token(s[0]) + Body(s[1..], FormatOf(s[0]) == HexEscape, wide)
  }

  function Printed(s: seq<Unit>, wide: bool): string
  {
    QuoteBegin(wide) + Body(s, false, wide) + "\""
  }

  const NO_NUL := " (no terminating NUL)"

  function PrintedArray(s: seq<Unit>, wide: bool): string
  {
    if s != [] && Last(s) == 0 then Printed(Front(s), wide) else Printed(s, wide) + NO_NUL
  }

  // ----- reading literals

  predicate IsOctal(c: char) { '0' <= c <= '7' }

  function HexRun(t: string): (n: nat)
    ensures n <= |t| && (forall i :: 0 <= i < n ==> IsXDigit(t[i])) && (n < |t| ==> !IsXDigit(t[n]))
  {
    if t == "" || !IsXDigit(t[0]) then 0 else 1 + HexRun(t[1..])
  }

  /** How many octal digits begin `t`, at most `limit`. */
  function OctalRun(t: string, limit: nat): (n: nat)
    ensures n <= |t| && n <= limit && (forall i :: 0 <= i < n ==> IsOctal(t[i]))
    ensures n < |t| && n < limit ==> !IsOctal(t[n])
  {
    if limit == 0 || t == "" || !IsOctal(t[0]) then 0 else 1 + OctalRun(t[1..], limit - 1)
  }

  function OctalValue(s: string): nat
    requires forall i :: 0 <= i < |s| ==> IsOctal(s[i])
  {
    if s == "" then 0
    else
      assert IsOctal(s[|s| - 1]);
      8 * OctalValue(Front(s)) + (Last(s) as int - '0' as int)
  }

  /** The character an escape letter stands for. */
  function Unescape(c: char): Option<Unit>
  {
    match c
    case '"' => Some(34) case '\\' => Some(92) case 'a' => Some(7) case 'b' => Some(8) case 'f' => Some(12)
    case 'n' => Some(10) case 'r' => Some(13) case 't' => Some(9) case 'v' => Some(11) case '\'' => Some(39)
    case _ => None
  }

  /** One character of a literal and the text it takes. With `octal`, as in C, up to three octal digits
      make one escape; without, "\0" is complete. Hexadecimal escapes take all digits that follow. */
  function LexOne(t: string, octal: bool): (r: Option<(Unit, nat)>)
    requires t != ""
    ensures r.Some? ==> 1 <= r.value.1 <= |t|
  {
    if t[0] != '\\' then Some((t[0] as int, 1))
    else if |t| == 1 then None
    else if t[1] == 'x' then
      var n := HexRun(t[2..]);
      if n == 0 then None else Some((HexValue(t[2..2 + n]), 2 + n))
    else if octal && IsOctal(t[1]) then
      var n := OctalRun(t[1..], 3);
      Some((OctalValue(t[1..1 + n]), 1 + n))
    else if t[1] == '0' then Some((0, 2))
    else match Unescape(t[1]) case None => None case Some(c) => Some((c, 2))
  }

  predicate StartsWith(t: string, p: string) { p <= t }

  /** Reads on from inside a literal, through literals joined to it, to the last closing quote; gives the
      characters and the text after the quote. */
  function Lex(t: string, wide: bool, octal: bool): Option<(seq<Unit>, string)>
    decreases |t|
  {
    if t == "" then None
    else if StartsWith(t, Break(wide)) then Lex(t[|Break(wide)|..], wide, octal)
    else if t[0] == '"' then Some(([], t[1..]))
    else
      match LexOne(t, octal)
      case None => None
      case Some((c, n)) =>
        match Lex(t[n..], wide, octal)
        case None => None
        case Some((cs, rest)) => Some(([c] + cs, rest))
  }

  function ReadArray(text: string, wide: bool, octal: bool): Option<seq<Unit>>
  {
    if !StartsWith(text, QuoteBegin(wide)) then None
    else
      match Lex(text[|QuoteBegin(wide)|..], wide, octal)
      case None => None
      case Some((cs, rest)) =>
        if rest == "" then Some(cs + [0]) else if rest == NO_NUL then Some(cs) else None
  }

  // ----- printing and reading back

  lemma {:induction false} TokenStarts(c: Unit)
    ensures Token(c) != "" && Token(c)[0] != '"'
    ensures !IsHexUnit(c) ==> !IsXDigit(Token(c)[0])
  {
  }

  lemma {:induction false} LexHexDigits(h: string, t: string, octal: bool)
    requires h != "" && (forall i :: 0 <= i < |h| ==> IsXDigit(h[i])) && HexRun(h + t) == |h|
    ensures LexOne("\\x" + h + t, octal) == Some((HexValue(h), 2 + |h|))
  {
    hide HexRun, HexValue, IsXDigit;
    var all := "\\x" + h + t;
    assert all[2..] == h + t;
    assert all[2..2 + |h|] == h;
  }

  lemma {:induction false} LexOneHex(c: Unit, t: string, octal: bool)
    requires FormatOf(c) == HexEscape && (t == "" || !IsXDigit(t[0]))
    ensures LexOne(Token(c) + t, octal) == Some((c, |Token(c)|))
  {
    hide HexRun, HexValue, LexOne, FormatOf;
    var h := FormatHexInt(c);
    HexRunStops(h, t);
    HexReadsBack(c);
    LexHexDigits(h, t, octal);
  }

  lemma {:induction false} HexRunStops(h: string, t: string)
    requires forall i :: 0 <= i < |h| ==> IsXDigit(h[i])
    requires t == "" || !IsXDigit(t[0])
    ensures HexRun(h + t) == |h|
  {
    if h == "" {
      assert h + t == t;
    } else {
      assert (h + t)[1..] == h[1..] + t;
      HexRunStops(h[1..], t);
    }
  }

  lemma {:induction false} EscapeReadsBack(c: Unit)
    requires EscapeOf(c).Some? && c != 0
    ensures Unescape(EscapeOf(c).value) == Some(c)
    ensures EscapeOf(c).value != 'x' && !IsOctal(EscapeOf(c).value)
  {
  }

  /** Every token reads back, with what follows it, but for a NUL under C's octal rule. */
  lemma {:induction false} LexOneToken(c: Unit, t: string, octal: bool)
    requires FormatOf(c) == HexEscape ==> t == "" || !IsXDigit(t[0])
    requires !(octal && c == 0)
    ensures LexOne(Token(c) + t, octal) == Some((c, |Token(c)|))
  {
    var all := Token(c) + t;
    match FormatOf(c) {
      case HexEscape => LexOneHex(c, t, octal);
      case AsIs => assert all[0] == c as char;
      case SpecialEscape =>
        assert all[0] == '\\' && all[1] == EscapeOf(c).value;
        if c != 0 { EscapeReadsBack(c); }
    }
  }

  /** The text after a body: its closing quote and what follows. */
  function Closed(s: seq<Unit>, afterHex: bool, wide: bool, end: string): string
  {
    Body(s, afterHex, wide) + "\"" + end
  }

  lemma {:induction false} BodyCons(s: seq<Unit>, afterHex: bool, wide: bool)
    requires s != []
    ensures Body(s, afterHex, wide) ==
            (if afterHex && IsHexUnit(s[0]) then Break(wide) else "") + Token(s[0]) + Body(s[1..], FormatOf(s[0]) == HexEscape, wide)
  {
  }

  lemma {:induction false} ClosedCons(s: seq<Unit>, afterHex: bool, wide: bool, end: string)
    requires s != [] && !(afterHex && IsHexUnit(s[0]))
    ensures Closed(s, afterHex, wide, end) == Token(s[0]) + Closed(s[1..], FormatOf(s[0]) == HexEscape, wide, end)
  {
    hide Token, Body, Break, FormatOf, IsHexUnit;
    BodyCons(s, afterHex, wide);
    var rest := Body(s[1..], FormatOf(s[0]) == HexEscape, wide);
    assert "" + Token(s[0]) + rest == Token(s[0]) + rest;
    assert Token(s[0]) + rest + "\"" + end == Token(s[0]) + (rest + "\"" + end);
  }

  lemma {:induction false} ClosedBreak(s: seq<Unit>, wide: bool, end: string)
    requires s != [] && IsHexUnit(s[0])
    ensures Closed(s, true, wide, end) == Break(wide) + Closed(s, false, wide, end)
  {
    hide Token, Body, Break, FormatOf, IsHexUnit;
    BodyCons(s, true, wide);
    BodyCons(s, false, wide);
    var rest := Body(s[1..], FormatOf(s[0]) == HexEscape, wide);
    assert "" + Token(s[0]) + rest == Token(s[0]) + rest;
    assert Break(wide) + Token(s[0]) + rest + "\"" + end == Break(wide) + (Token(s[0]) + rest + "\"" + end);
  }

  lemma {:induction false} ClosedNil(afterHex: bool, wide: bool, end: string)
    ensures Closed([], afterHex, wide, end) == "\"" + end && Closed([], afterHex, wide, end)[0] == '"'
  {
  }

  lemma {:induction false} BreakStarts(wide: bool)
    ensures Break(wide) != "" && Break(wide)[0] == '"'
  {
  }

  /** After a hexadecimal escape no further digit follows directly. */
  lemma {:induction false} NoDigitAfterHex(s: seq<Unit>, wide: bool, end: string)
    ensures Closed(s, true, wide, end) != "" && !IsXDigit(Closed(s, true, wide, end)[0])
  {
    hide Closed, Token, Break, FormatOf, IsHexUnit;
    ClosedNil(true, wide, end);
    BreakStarts(wide);
    if s == [] {
      assert Closed(s, true, wide, end)[0] == '"';
    } else if IsHexUnit(s[0]) {
      ClosedBreak(s, wide, end);
    } else {
      ClosedCons(s, true, wide, end);
      TokenStarts(s[0]);
    }
  }

  /** Reading over one token. */
  lemma {:induction false} LexToken(c: Unit, n: nat, v: Unit, t: string, wide: bool, octal: bool)
    requires n <= |t| && LexOne(Token(c) + t, octal) == Some((v, |Token(c)| + n))
    ensures Lex(Token(c) + t, wide, octal) ==
            match Lex(t[n..], wide, octal) case None => None case Some((cs, rest)) => Some(([v] + cs, rest))
  {
    hide Token, LexOne, Break;
    TokenStarts(c);
    BreakStarts(wide);
    var all := Token(c) + t;
    assert all[0] == Token(c)[0];
    assert !StartsWith(all, Break(wide));
    assert all[|Token(c)| + n..] == t[n..];
  }

  /** Bytes that print as octal digits. */
  predicate IsOctalUnit(c: Unit) { 48 <= c <= 55 }

  lemma {:induction false} OctalTokens(c: Unit)
    ensures IsOctalUnit(c) ==> Token(c) == [c as char] && IsOctal(c as char) && FormatOf(c) == AsIs
    ensures !IsOctalUnit(c) ==> !IsOctal(Token(c)[0])
  {
  }

  /** The octal digits that follow a NUL are printed characters of the array. */
  lemma {:induction false} OctalPrefix(s: seq<Unit>, wide: bool, end: string, limit: nat)
    ensures var t := Closed(s, false, wide, end);
            var n := OctalRun(t, limit);
            && n <= |s| && t[n..] == Closed(s[n..], false, wide, end)
            && (n == 0 && limit > 0 ==> s == [] || !IsOctalUnit(s[0]))
            && (n > 0 ==> IsOctalUnit(s[0]))
    decreases limit
  {
    hide Token, Closed, FormatOf, IsOctalUnit;
    var t := Closed(s, false, wide, end);
    if s == [] {
      ClosedNil(false, wide, end);
      assert t[0..] == t;
    } else {
      ClosedCons(s, false, wide, end);
      OctalTokens(s[0]);
      TokenStarts(s[0]);
      assert t[0] == Token(s[0])[0];
      if limit > 0 && IsOctalUnit(s[0]) {
        OctalPrefix(s[1..], wide, end, limit - 1);
        var t1 := Closed(s[1..], false, wide, end);
        assert t == [s[0] as char] + t1 && t[1..] == t1;
        var n := OctalRun(t1, limit - 1);
        assert t[1 + n..] == t1[n..] && s[1..][n..] == s[1 + n..];
      } else {
        assert t[0..] == t && s[0..] == s;
      }
    }
  }

  lemma {:induction false} LexOneNul(t: string) returns (v: Unit)
    ensures var n := OctalRun(t, 2);
            LexOne("\\0" + t, true) == Some((v, 2 + n)) && (n == 0 ==> v == 0)
  {
    var all := "\\0" + t;
    assert all[1..] == "0" + t && ("0" + t)[1..] == t;
    var n := OctalRun(t, 2);
    assert OctalRun(all[1..], 3) == 1 + n;
    if n == 0 {
      assert all[1..2] == "0" && Front("0") == "";
    }
    v := LexOne(all, true).value.0;
  }

  /** No NUL is followed by an octal digit. */
  ghost predicate NoNulBeforeOctal(s: seq<Unit>)
  {
    forall i, j :: 0 <= i < |s| && j == i + 1 < |s| && s[i] == 0 ==> !IsOctalUnit(s[j])
  }

  lemma {:induction false} NoNulTail(s: seq<Unit>)
    requires s != []
    ensures NoNulBeforeOctal(s) <==> NoNulBeforeOctal(s[1..]) && !(s[0] == 0 && |s| > 1 && IsOctalUnit(s[1]))
  {
    if NoNulBeforeOctal(s[1..]) && !(s[0] == 0 && |s| > 1 && IsOctalUnit(s[1])) {
      forall i, j | 0 <= i < |s| && j == i + 1 < |s| && s[i] == 0 ensures !IsOctalUnit(s[j]) {
        if i > 0 { assert s[i] == s[1..][i - 1] && s[j] == s[1..][j - 1]; }
      }
    }
    if NoNulBeforeOctal(s) {
      forall i, j | 0 <= i < |s[1..]| && j == i + 1 < |s[1..]| && s[1..][i] == 0 ensures !IsOctalUnit(s[1..][j]) {
        assert s[1..][i] == s[i + 1] && s[1..][j] == s[j + 1];
      }
    }
  }

  /** Reading a printed body gives at most as many characters as were printed, and exactly those unless a
      NUL runs into octal digits under C's rule. */
  lemma {:induction false} LexBody(s: seq<Unit>, afterHex: bool, wide: bool, octal: bool, end: string)
    requires !StartsWith("\"" + end, Break(wide))
    ensures var r := Lex(Closed(s, afterHex, wide, end), wide, octal);
            && r.Some? && r.value.1 == end && |r.value.0| <= |s|
            && (r.value.0 == s <==> (octal ==> NoNulBeforeOctal(s)))
    decreases |s|, afterHex
  {
    hide Token, LexOne, Body, HexRun, FormatHexInt, NoNulBeforeOctal, IsHexUnit, IsOctalUnit;
    var t := Closed(s, afterHex, wide, end);
    if s == [] {
      EmptyBody(afterHex, wide);
      assert t == "\"" + end;
      assert t[1..] == end;
      NoNulInNothing();
    } else if afterHex && IsHexUnit(s[0]) {
      ClosedBreak(s, wide, end);
      LexBreak(Closed(s, false, wide, end), wide, octal);
      LexBody(s, false, wide, octal, end);
    } else {
      LexBodyCons(s, afterHex, wide, octal, end);
    }
  }

  lemma {:induction false} EmptyBody(afterHex: bool, wide: bool)
    ensures Body([], afterHex, wide) == ""
  {
  }

  lemma {:induction false} NoNulInNothing()
    ensures NoNulBeforeOctal([])
  {
  }

  lemma {:induction false} LexBreak(t: string, wide: bool, octal: bool)
    ensures Lex(Break(wide) + t, wide, octal) == Lex(t, wide, octal)
  {
    assert (Break(wide) + t)[|Break(wide)|..] == t;
  }

  lemma {:induction false} LexBodyCons(s: seq<Unit>, afterHex: bool, wide: bool, octal: bool, end: string)
    requires s != [] && !(afterHex && IsHexUnit(s[0])) && !StartsWith("\"" + end, Break(wide))
    ensures var r := Lex(Closed(s, afterHex, wide, end), wide, octal);
            && r.Some? && r.value.1 == end && |r.value.0| <= |s|
            && (r.value.0 == s <==> (octal ==> NoNulBeforeOctal(s)))
    decreases |s|, afterHex, 0
  {
    hide Token, LexOne, Body, HexRun, FormatHexInt, NoNulBeforeOctal, IsHexUnit, Lex, OctalRun, Closed, StartsWith;
    var c := s[0];
    var hex := FormatOf(c) == HexEscape;
    var t1 := Closed(s[1..], hex, wide, end);
    ClosedCons(s, afterHex, wide, end);
    NoNulTail(s);
    assert s == [c] + s[1..];
    if octal && c == 0 {
      NulToken();
      OctalPrefix(s[1..], wide, end, 2);
      var n := OctalRun(t1, 2);
      var v := LexOneNul(t1);
      LexToken(c, n, v, t1, wide, octal);
      LexBody(s[1..][n..], false, wide, octal, end);
    } else {
      if hex { NoDigitAfterHex(s[1..], wide, end); }
      LexOneToken(c, t1, octal);
      LexToken(c, 0, c, t1, wide, octal);
      LexBody(s[1..], hex, wide, octal, end);
      assert t1[0..] == t1;
    }
  }

  lemma {:induction false} NulToken()
    ensures Token(0) == "\\0" && FormatOf(0) == SpecialEscape
  {
  }

  // ----- arrays

  /** The characters printed: a final NUL is implied. */
  function Visible(s: seq<Unit>): seq<Unit> { if s != [] && Last(s) == 0 then Front(s) else s }

  /** A printed array reads back exactly when, under the rule chosen, no NUL runs into octal digits; where
      "\0" is complete by itself, it always does. */
  lemma {:induction false} ReadBackIff(s: seq<Unit>, wide: bool, octal: bool)
    ensures ReadArray(PrintedArray(s, wide), wide, octal) == Some(s) <==> (octal ==> NoNulBeforeOctal(Visible(s)))
  {
    hide Body, Lex, NoNulBeforeOctal, Break, QuoteBegin, Closed, PrintedArray, StartsWith;
    var v := Visible(s);
    var end := if s != [] && Last(s) == 0 then "" else NO_NUL;
    PrintedIsClosed(s, wide);
    BehindStart(QuoteBegin(wide), Closed(v, false, wide, end));
    NoBreakAtEnd(wide);
    LexBody(v, false, wide, octal, end);
    if s != [] && Last(s) == 0 {
      NulAtEnd(Lex(Closed(v, false, wide, end), wide, octal).value.0, s);
    }
  }

  lemma {:induction false} BehindStart(a: string, b: string)
    ensures StartsWith(a + b, a) && (a + b)[|a|..] == b
  {
  }

  lemma {:induction false} NulAtEnd(cs: seq<Unit>, s: seq<Unit>)
    requires s != [] && Last(s) == 0
    ensures cs + [0] == s <==> cs == Front(s)
  {
    assert s == Front(s) + [0];
    if cs + [0] == s { FrontLast(cs, 0); }
  }

  lemma {:induction false} PrintedIsClosed(s: seq<Unit>, wide: bool)
    ensures PrintedArray(s, wide) == QuoteBegin(wide) + Closed(Visible(s), false, wide, if s != [] && Last(s) == 0 then "" else NO_NUL)
  {
    hide Body, QuoteBegin;
    var b := Body(Visible(s), false, wide);
    assert QuoteBegin(wide) + b + "\"" + NO_NUL == QuoteBegin(wide) + (b + "\"" + NO_NUL);
    assert QuoteBegin(wide) + b + "\"" == QuoteBegin(wide) + (b + "\"" + "");
  }

  lemma {:induction false} NoBreakAtEnd(wide: bool)
    ensures !StartsWith("\"" + "", Break(wide)) && !StartsWith("\"" + NO_NUL, Break(wide))
  {
    assert |Break(wide)| > 2 && ("\"" + NO_NUL)[2] == '(' && Break(wide)[2] != '(';
  }

  /** Different arrays print differently. */
  lemma {:induction false} PrintedArrayInjective(s: seq<Unit>, t: seq<Unit>, wide: bool)
    requires PrintedArray(s, wide) == PrintedArray(t, wide)
    ensures s == t
  {
    hide PrintedArray, ReadArray;
    ReadBackIff(s, wide, false);
    ReadBackIff(t, wide, false);
  }

  // ----- what the print looks like

  /** The text of units that are characters. */
  function AsText(s: seq<Unit>): string
    requires forall i :: 0 <= i < |s| ==> s[i] < 0x80
  {
    if s == [] then "" else [s[0] as char] + AsText(s[1..])
  }

  /** Printable ASCII without double quotes and backslashes is printed as it is. */
  lemma {:induction false} PlainTextPrinted(s: seq<Unit>, wide: bool)
    requires forall i :: 0 <= i < |s| ==> 0x20 <= s[i] <= 0x7E && s[i] != 34 && s[i] != 92
    ensures PrintedArray(s + [0], wide) == (if wide then "L\"" else "\"") + AsText(s) + "\""
    ensures PrintedArray(s, wide) == (if wide then "L\"" else "\"") + AsText(s) + "\"" + " (no terminating NUL)"
  {
    hide Body;
    PlainBody(s, wide);
    FrontLast(s, 0);
  }

  lemma {:induction false} PlainBody(s: seq<Unit>, wide: bool)
    requires forall i :: 0 <= i < |s| ==> 0x20 <= s[i] <= 0x7E && s[i] != 34 && s[i] != 92
    ensures Body(s, false, wide) == AsText(s)
  {
    if s != [] { PlainBody(s[1..], wide); }
  }

  /** The escapes, each as it stands in the literal. */
  lemma {:induction false} EscapesPrinted()
    ensures PrintedArray([0, 0], false) == "\"\\0\"" && PrintedArray([34, 0], false) == "\"\\\"\"" && PrintedArray([92, 0], false) == "\"\\\\\""
    ensures PrintedArray([7, 0], false) == "\"\\a\"" && PrintedArray([8, 0], false) == "\"\\b\"" && PrintedArray([9, 0], false) == "\"\\t\""
    ensures PrintedArray([10, 0], false) == "\"\\n\"" && PrintedArray([11, 0], false) == "\"\\v\"" && PrintedArray([12, 0], false) == "\"\\f\""
    ensures PrintedArray([13, 0], false) == "\"\\r\""
  {
    hide Body, Token;
    OnePrinted(0);
    OnePrinted(34);
    OnePrinted(92);
    OnePrinted(7);
    OnePrinted(8);
    OnePrinted(9);
    OnePrinted(10);
    OnePrinted(11);
    OnePrinted(12);
    OnePrinted(13);
    SpecialTokens();
  }

  lemma {:induction false} OnePrinted(c: Unit)
    ensures PrintedArray([c, 0], false) == "\"" + Token(c) + "\""
  {
    hide Token, FormatOf;
    assert [c, 0][..1] == [c] && [c][1..] == [];
    assert Body([c], false, false) == "" + Token(c) + "";
  }

  lemma {:induction false} SpecialTokens()
    ensures Token(0) == "\\0" && Token(34) == "\\\"" && Token(92) == "\\\\" && Token(7) == "\\a" && Token(8) == "\\b"
    ensures Token(9) == "\\t" && Token(10) == "\\n" && Token(11) == "\\v" && Token(12) == "\\f" && Token(13) == "\\r"
  {
  }

  /** A character that is neither printable ASCII nor one with an escape of its own. */
  predicate OnlyByNumber(c: Unit) { !(0x20 <= c <= 0x7E) && c != 0 && !(7 <= c <= 13) }

  /** All other characters are printed by their number, in upper case without leading zeros. */
  lemma {:induction false} OthersPrintedByNumber(c: Unit)
    requires OnlyByNumber(c)
    ensures PrintedArray([c, 0], false) == "\"\\x" + FormatHexInt(c) + "\""
    ensures HexValue(FormatHexInt(c)) == c && FormatHexInt(c)[0] != '0'
    ensures forall i :: 0 <= i < |FormatHexInt(c)| ==> '0' <= FormatHexInt(c)[i] <= '9' || 'A' <= FormatHexInt(c)[i] <= 'F'
  {
    hide FormatHexInt, HexValue, PrintedArray;
    OnePrinted(c);
    HexReadsBack(c);
    UpperWithoutZeros(c);
  }

  /** What is printed of two arrays one behind the other: the prints joined, with the literal broken between them exactly
      where a number is followed by a hex digit. */
  lemma {:induction false} PrintsJoin(a: seq<Unit>, b: seq<Unit>, wide: bool)
    requires a != []
    ensures Body(a + b, false, wide) == Body(a, false, wide) + Body(b, OnlyByNumber(Last(a)), wide)
    ensures b != [] ==> Body(b, true, wide) == (if IsXUnit(b[0]) then (if wide then "\" L\"" else "\" \"") else "") + Body(b, false, wide)
  {
    hide Body, Piece, HexBefore;
    BodyInPieces(a + b, |a|, wide);
    BodyInPieces(a, |a|, wide);
    assert (a + b)[|a|..] == b && a[|a|..] == [];
    UptoOfPrefix(a, b, |a|, wide);
    EmptyBody(HexBefore(a, |a|), wide);
    LastByNumber(a, b);
    if b != [] { BreakBefore(b, wide); }
  }

  predicate IsXUnit(c: Unit) { 48 <= c <= 57 || 65 <= c <= 70 || 97 <= c <= 102 }

  lemma {:induction false} BreakBefore(b: seq<Unit>, wide: bool)
    requires b != []
    ensures Body(b, true, wide) == (if IsXUnit(b[0]) then (if wide then "\" L\"" else "\" \"") else "") + Body(b, false, wide)
  {
    hide Token, FormatOf;
    assert IsHexUnit(b[0]) <==> IsXUnit(b[0]);
    assert Break(wide) == if wide then "\" L\"" else "\" \"";
    assert "" + Token(b[0]) + Body(b[1..], FormatOf(b[0]) == HexEscape, wide) == Token(b[0]) + Body(b[1..], FormatOf(b[0]) == HexEscape, wide);
  }

  lemma {:induction false} LastByNumber(a: seq<Unit>, b: seq<Unit>)
    requires a != []
    ensures HexBefore(a + b, |a|) == OnlyByNumber(Last(a))
  {
    assert (a + b)[|a| - 1] == Last(a);
  }

  lemma {:induction false} UptoOfPrefix(a: seq<Unit>, b: seq<Unit>, n: nat, wide: bool)
    requires n <= |a|
    ensures BodyUpto(a + b, n, wide) == BodyUpto(a, n, wide)
  {
    hide Piece, FormatOf;
    if n > 0 { UptoOfPrefix(a, b, n - 1, wide); }
  }

  // ----- the methods

  method PrintAsCharLiteralTo(c: Unit, os: string) returns (os': string, format: CharFormat)
    ensures c != 34 && c != 39 ==> os' == os + Token(c) && format == FormatOf(c)
    ensures c == 39 ==> os' == os + "\\'" && format == SpecialEscape
    ensures c == 34 ==> os' == os + "\"" && format == AsIs
  {
    match c {
      case 0 => os' := os + "\\0";
      case 39 => os' := os + "\\'";
      case 92 => os' := os + "\\\\";
      case 7 => os' := os + "\\a";
      case 8 => os' := os + "\\b";
      case 12 => os' := os + "\\f";
      case 10 => os' := os + "\\n";
      case 13 => os' := os + "\\r";
      case 9 => os' := os + "\\t";
      case 11 => os' := os + "\\v";
      case _ =>
        if IsPrintableAscii(c) {
          return os + [c as char], AsIs;
        } else {
          return os + "\\x" + FormatHexInt(c), HexEscape;
        }
    }
    format := SpecialEscape;
  }

  /** In a string a single quote needs no escape and a double quote does. */
  method PrintAsStringLiteralTo(c: Unit, os: string) returns (os': string, format: CharFormat)
    ensures os' == os + Token(c) && format == FormatOf(c)
  {
    if c == 39 {
      return os + "'", AsIs;
    } else if c == 34 {
      return os + "\\\"", SpecialEscape;
    }
    os', format := PrintAsCharLiteralTo(c, os);
  }

  /** What has been printed after `n` characters. */
  function BodyUpto(s: seq<Unit>, n: nat, wide: bool): string
    requires n <= |s|
  {
    if n == 0 then ""
    else BodyUpto(s, n - 1, wide) + Piece(s[n - 1], HexBefore(s, n - 1), wide)
  }

  predicate HexBefore(s: seq<Unit>, n: nat)
    requires n <= |s|
  {
    n > 0 && FormatOf(s[n - 1]) == HexEscape
  }

  function Piece(c: Unit, afterHex: bool, wide: bool): string
  {
    (if afterHex && IsHexUnit(c) then Break(wide) else "") + Token(c)
  }

  lemma {:induction false} BodyInPieces(s: seq<Unit>, n: nat, wide: bool)
    requires n <= |s|
    ensures BodyUpto(s, n, wide) + Body(s[n..], HexBefore(s, n), wide) == Body(s, false, wide)
    decreases n
  {
    hide Body, Piece, FormatOf;
    if n == 0 {
      assert s[0..] == s;
    } else {
      BodyInPieces(s, n - 1, wide);
      var tail := s[n - 1..];
      assert tail[0] == s[n - 1] && tail[1..] == s[n..];
      BodyByPiece(tail, HexBefore(s, n - 1), wide);
    }
  }

  lemma {:induction false} BodyByPiece(s: seq<Unit>, afterHex: bool, wide: bool)
    requires s != []
    ensures Body(s, afterHex, wide) == Piece(s[0], afterHex, wide) + Body(s[1..], FormatOf(s[0]) == HexEscape, wide)
  {
  }

  /** The body of the printing loop. */
  method PrintNextCharTo(cur: Unit, isPreviousHex: bool, wide: bool, os: string) returns (os': string, format: CharFormat)
    ensures os' == os + Piece(cur, isPreviousHex, wide) && format == FormatOf(cur)
  {
    hide Token, FormatOf, QuoteBegin;
    os' := os;
    if isPreviousHex && IsHexUnit(cur) {
      // The character could be read as another digit of the escape before it.
      os' := os' + ("\" " + QuoteBegin(wide));
    }
    os', format := PrintAsStringLiteralTo(cur, os');
  }

  method PrintCharsAsStringTo(s: seq<Unit>, wide: bool, os: string) returns (os': string)
    ensures os' == os + Printed(s, wide)
  {
    hide Token, Body, FormatOf, QuoteBegin, Piece;
    os' := os + QuoteBegin(wide);
    var isPreviousHex := false;
    for i := 0 to |s|
      invariant os' == os + QuoteBegin(wide) + BodyUpto(s, i, wide)
      invariant isPreviousHex == HexBefore(s, i)
    {
      var format;
      os', format := PrintNextCharTo(s[i], isPreviousHex, wide, os');
      isPreviousHex := format == HexEscape;
    }
    BodyInPieces(s, |s|, wide);
    EmptyBody(isPreviousHex, wide);
    assert s[|s|..] == [] && BodyUpto(s, |s|, wide) + "" == BodyUpto(s, |s|, wide);
    os' := os' + "\"";
  }

  method UniversalPrintCharArray(s: seq<Unit>, wide: bool, os: string) returns (os': string)
    ensures os' == os + PrintedArray(s, wide)
  {
    hide Printed;
    if |s| > 0 && s[|s| - 1] == 0 {
      os' := PrintCharsAsStringTo(s[..|s| - 1], wide, os);
      return;
    }
    os' := PrintCharsAsStringTo(s, wide, os);
    os' := os' + " (no terminating NUL)";
  }
}
