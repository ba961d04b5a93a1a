/** Text put into XML reports: CDATA sections and escaped values, with readers that follow the XML 1.0
    rules. Characters are 7-bit. */
module Xml {
  import opened Wrappers
  import opened Hex

  predicate IsNormalizableWhitespace(c: char) { c as int == 0x9 || c as int == 0xA || c as int == 0xD }
  predicate IsValidXmlCharacter(c: char) { IsNormalizableWhitespace(c) || c as int >= 0x20 }

  // ----- CDATA sections

  const OPEN := "<![CDATA["
  const CLOSE := "]]>"
  const ESCAPED_CLOSE := "]]>]]&gt;<![CDATA["

  /** "]]>" stands at place k. */
  predicate CloseAt(s: string, k: nat)
  {
    k + 3 <= |s| && s[k] == ']' && s[k + 1] == ']' && s[k + 2] == '>'
  }

  /** The place of the first "]]>" at or after i, if any. */
  function FindClose(s: string, i: nat): (r: Option<nat>)
    requires i <= |s|
    ensures r.Some? ==> i <= r.value && CloseAt(s, r.value) && forall k :: i <= k < r.value ==> !CloseAt(s, k)
    ensures r.None? ==> forall k :: i <= k ==> !CloseAt(s, k)
    decreases |s| - i
  {
    if i + 3 > |s| then None
    else if CloseAt(s, i) then Some(i)
    else FindClose(s, i + 1)
  }

  /** The section's content from place i on. */
  function Segments(s: string, i: nat): string
    requires i <= |s|
    decreases |s| - i
  {
    match FindClose(s, i)
    case None => s[i..]
    case Some(k) => s[i..k] + ESCAPED_CLOSE + Segments(s, k + 3)
  }

  function CDataSection(s: string): string { OPEN + Segments(s, 0) + CLOSE }

  /** Reads character data and CDATA sections (section 2.7 of XML 1.0): inside a section everything up to
      the first "]]>" is text; outside, '<' begins only sections, '&' only the references used here, and
      "]]>" may not occur. */
  function ReadContent(t: string, inside: bool): Option<string>
    decreases |t|
  {
    if inside then
      if CloseAt(t, 0) then ReadContent(t[3..], false)
      else if t == "" then None
      else PrependChar(t[0], ReadContent(t[1..], true))
    else
      if t == "" then Some("")
      else if OPEN <= t then ReadContent(t[9..], true)
      else if "&gt;" <= t then PrependChar('>', ReadContent(t[4..], false))
      else if "&lt;" <= t then PrependChar('<', ReadContent(t[4..], false))
      else if "&amp;" <= t then PrependChar('&', ReadContent(t[5..], false))
      else if t[0] == '<' || t[0] == '&' || CloseAt(t, 0) then None
      else PrependChar(t[0], ReadContent(t[1..], false))
  }

  function PrependChar(c: char, rest: Option<string>): Option<string>
  {
    if rest.None? then None else Some([c] + rest.value)
  }

  function PrependAll(s: string, rest: Option<string>): Option<string>
  {
    if rest.None? then None else Some(s + rest.value)
  }

  lemma {:induction false} ReadInside(t: string)
    requires t != ""
    ensures ReadContent(t, true) ==
            if CloseAt(t, 0) then ReadContent(t[3..], false) else PrependChar(t[0], ReadContent(t[1..], true))
  {
  }

  /** Text without "]]>" is read to the end of the section, even if it ends in brackets. */
  lemma {:induction false} ReadPlain(s: string, i: nat, k: nat, t: string)
    requires i <= k <= |s| && CloseAt(t, 0)
    requires forall m :: i <= m < k ==> !CloseAt(s, m)
    requires k == |s| || CloseAt(s, k)
    ensures ReadContent(s[i..k] + t, true) == PrependAll(s[i..k], ReadContent(t[3..], false))
    decreases k - i
  {
    hide ReadContent;
    var all := s[i..k] + t;
    ReadInside(all);
    if i == k {
      assert all == t;
      var r := ReadContent(t[3..], false);
      assert r.Some? ==> "" + r.value == r.value;
    } else {
      NoEarlyClose(s, i, k, t);
      assert all[1..] == s[i + 1..k] + t && all[0] == s[i];
      ReadPlain(s, i + 1, k, t);
      var r := ReadContent(t[3..], false);
      assert r.Some? ==> [s[i]] + (s[i + 1..k] + r.value) == s[i..k] + r.value;
    }
  }

  /** Text followed by "]]>" does not close the section early. */
  lemma {:induction false} NoEarlyClose(s: string, i: nat, k: nat, t: string)
    requires i < k <= |s| && CloseAt(t, 0) && !CloseAt(s, i)
    ensures !CloseAt(s[i..k] + t, 0)
  {
    var all := s[i..k] + t;
    assert all[0] == s[i];
    assert all[1] == (if k - i >= 2 then s[i + 1] else t[0]);
    assert all[2] == (if k - i >= 3 then s[i + 2] else if k - i == 2 then t[0] else t[1]);
  }

  lemma {:induction false} BracketOutside(t: string)
    requires t != "" && t[0] == ']' && !CloseAt(t, 0)
    ensures ReadContent(t, false) == PrependChar(']', ReadContent(t[1..], false))
  {
  }

  lemma {:induction false} GreaterOutside(t: string)
    ensures ReadContent("&gt;" + t, false) == PrependChar('>', ReadContent(t, false))
  {
    var a := "&gt;" + t;
    assert a[0] == '&' && OPEN[0] == '<';
    assert "&gt;" <= a && a[4..] == t;
  }

  lemma {:induction false} OpenReads(t: string)
    ensures ReadContent(OPEN + t, false) == ReadContent(t, true)
  {
    assert (OPEN + t)[9..] == t;
  }

  /** Between the two sections stands an escaped "]]>". */
  lemma {:induction false} ReadReopened(t: string)
    ensures ReadContent("]]&gt;<![CDATA[" + t, false) == PrependAll(CLOSE, ReadContent(t, true))
  {
    hide ReadContent;
    var c := "&gt;" + (OPEN + t);
    var a := "]]" + c;
    assert "]]&gt;<![CDATA[" + t == a;
    assert a[0] == ']' && a[1] == ']' && a[2] == '&' && a[1..] == "]" + c && a[1..][1..] == c;
    BracketOutside(a);
    BracketOutside(a[1..]);
    GreaterOutside(OPEN + t);
    OpenReads(t);
    var r := ReadContent(t, true);
    assert r.Some? ==> [']'] + ([']'] + (['>'] + r.value)) == CLOSE + r.value;
  }

  lemma {:induction false} NextSegment(s: string, i: nat, k: nat)
    requires i <= |s| && FindClose(s, i) == Some(k)
    ensures Segments(s, i) == s[i..k] + ESCAPED_CLOSE + Segments(s, k + 3)
  {
  }

  lemma {:induction false} LastSegment(s: string, i: nat)
    requires i <= |s| && FindClose(s, i) == None
    ensures Segments(s, i) == s[i..]
  {
  }

  /** The rest of a text at a "]]>". */
  lemma {:induction false} SplitAtClose(s: string, i: nat, k: nat, r: string)
    requires i <= k && CloseAt(s, k) && r == s[k + 3..]
    ensures s[i..k] + (CLOSE + r) == s[i..]
  {
  }

  lemma {:induction false} SegmentsReadBack(s: string, i: nat)
    requires i <= |s|
    ensures ReadContent(Segments(s, i) + CLOSE, true) == Some(s[i..])
    decreases |s| - i
  {
    hide ReadContent, Segments, FindClose;
    match FindClose(s, i) {
      case None =>
        LastSegment(s, i);
        ReadPlain(s, i, |s|, CLOSE);
        NothingReads();
        assert CLOSE[3..] == "" && s[i..|s|] == s[i..] && s[i..] + "" == s[i..];
      case Some(k) =>
        NextSegment(s, i, k);
        var rest := Segments(s, k + 3) + CLOSE;
        var t := ESCAPED_CLOSE + rest;
        assert Segments(s, i) + CLOSE == s[i..k] + t;
        assert t[0] == ']' && t[1] == ']' && t[2] == '>' && t[3..] == "]]&gt;<![CDATA[" + rest;
        ReadPlain(s, i, k, t);
        ReadReopened(rest);
        SegmentsReadBack(s, k + 3);
        SplitAtClose(s, i, k, s[k + 3..]);
    }
  }

  lemma {:induction false} NothingReads()
    ensures ReadContent("", false) == Some("")
  {
  }

  /** Every text comes back from its CDATA section, "]]>" inside and brackets at the end included. */
  lemma {:induction false} CDataRoundTrip(s: string)
    ensures ReadContent(CDataSection(s), false) == Some(s)
  {
    hide ReadContent, Segments;
    var body := Segments(s, 0) + CLOSE;
    assert CDataSection(s) == OPEN + body;
    OpenReads(body);
    SegmentsReadBack(s, 0);
    assert s[0..] == s;
  }

  /** Data without "]]>" stands in one section as it is; otherwise the first "]]>" is put between two sections, with its
      last character escaped. */
  lemma {:induction false} CDataLooks(a: string, b: string)
    requires forall k :: !CloseAt(a + "]]", k)
    ensures CDataSection(a) == "<![CDATA[" + a + "]]>"
    ensures CDataSection(a + "]]>" + b) == "<![CDATA[" + a + "]]>]]&gt;" + CDataSection(b)
  {
    hide CloseAt, Segments;
    UncutSection(a);
    FirstClose(a, b);
    CutSection(a, b);
  }

  lemma {:induction false} UncutSection(a: string)
    requires forall k :: !CloseAt(a + "]]", k)
    ensures CDataSection(a) == "<![CDATA[" + a + "]]>"
  {
    forall k: nat ensures !CloseAt(a, k) { SameClose(a, "]]", k); }
    hide CloseAt, Segments;
    LastSegment(a, 0);
    assert a[0..] == a;
  }

  lemma {:induction false} CutSection(a: string, b: string)
    requires FindClose(a + "]]>" + b, 0) == Some(|a|)
    ensures CDataSection(a + "]]>" + b) == "<![CDATA[" + a + "]]>]]&gt;" + CDataSection(b)
  {
    hide FindClose, Segments;
    var s := a + "]]>" + b;
    assert s[0..|a|] == a && s[|a| + 3..] == b;
    SegmentsFrom(s, |a| + 3, b);
    NextSegment(s, 0, |a|);
    var rest := Segments(b, 0);
    assert OPEN + (a + ESCAPED_CLOSE + rest) + CLOSE == "<![CDATA[" + a + "]]>]]&gt;" + (OPEN + rest + CLOSE);
  }

  lemma {:induction false} FirstClose(a: string, b: string)
    requires forall k :: !CloseAt(a + "]]", k)
    ensures FindClose(a + "]]>" + b, 0) == Some(|a|)
  {
    var s := a + "]]>" + b;
    assert CloseAt(s, |a|);
    assert s == a + "]]" + (">" + b);
    forall k: nat | k < |a| ensures !CloseAt(s, k) { SameClose(a + "]]", ">" + b, k); }
  }

  lemma {:induction false} SameClose(a: string, b: string, k: nat)
    ensures k + 3 <= |a| ==> (CloseAt(a + b, k) <==> CloseAt(a, k))
  {
    if k + 3 <= |a| { assert (a + b)[k] == a[k] && (a + b)[k + 1] == a[k + 1] && (a + b)[k + 2] == a[k + 2]; }
  }

  /** Segments depend only on the rest of the text. */
  lemma {:induction false} SegmentsFrom(s: string, i: nat, rest: string)
    requires i <= |s| && rest == s[i..]
    ensures Segments(s, i) == Segments(rest, 0)
  {
    SegmentsShift(s, i, rest, 0);
  }

  lemma {:induction false} SegmentsShift(s: string, i: nat, rest: string, j: nat)
    requires i <= |s| && rest == s[i..] && j <= |rest|
    ensures Segments(s, i + j) == Segments(rest, j)
    decreases |rest| - j
  {
    hide FindClose, Segments;
    FindShift(s, i, rest, j);
    match FindClose(rest, j)
    case None =>
      LastSegment(s, i + j);
      LastSegment(rest, j);
      assert s[i + j..] == rest[j..];
    case Some(k) =>
      NextSegment(s, i + j, i + k);
      NextSegment(rest, j, k);
      SegmentsShift(s, i, rest, k + 3);
      assert s[i + j..i + k] == rest[j..k];
  }

  lemma {:induction false} FindShift(s: string, i: nat, rest: string, j: nat)
    requires i <= |s| && rest == s[i..] && j <= |rest|
    ensures FindClose(s, i + j) == (match FindClose(rest, j) case None => None case Some(k) => Some(i + k))
    decreases |rest| - j
  {
    if j + 3 <= |rest| {
      assert CloseAt(s, i + j) <==> CloseAt(rest, j) by {
        assert s[i + j] == rest[j] && s[i + j + 1] == rest[j + 1] && s[i + j + 2] == rest[j + 2];
      }
      if !CloseAt(rest, j) { FindShift(s, i, rest, j + 1); }
    }
  }

  /** `strstr` over the rest of the data. */
  method StrStrClose(data: string, from: nat) returns (r: Option<nat>)
    requires from <= |data|
    ensures r == FindClose(data, from)
  {
    var i := from;
    while i + 3 <= |data|
      invariant from <= i <= |data|
      invariant FindClose(data, from) == FindClose(data, i)
      decreases |data| - i
    {
      if CloseAt(data, i) { return Some(i); }
      i := i + 1;
    }
    return None;
  }

  method OutputXmlCDataSection(stream: string, data: string) returns (out: string)
    ensures out == stream + CDataSection(data)
  {
    hide Segments;
    out := stream + "<![CDATA[";
    ghost var start := out;
    var segment := 0;
    while true
      invariant 0 <= segment <= |data|
      invariant out + Segments(data, segment) == start + Segments(data, 0)
      decreases |data| - segment
    {
      var next := StrStrClose(data, segment);
      if next.None? { break; }
      ghost var rest := Segments(data, next.value + 3);
      NextSegment(data, segment, next.value);
      Regroup(out, data[segment..next.value], ESCAPED_CLOSE, rest);
      out := out + data[segment..next.value] + "]]>]]&gt;<![CDATA[";
      segment := next.value + 3;
    }
    LastSegment(data, segment);
    out := out + data[segment..];
    Regroup(stream, OPEN, Segments(data, 0), CLOSE);
    out := out + "]]>";
  }

  lemma {:induction false} Regroup(a: string, b: string, c: string, d: string)
    ensures a + (b + c + d) == a + b + c + d
  {
  }

  // ----- escaped values

  function EscapeChar(c: char, isAttribute: bool): string
  {
    if c == '<' then "&lt;"
    else if c == '>' then "&gt;"
    else if c == '&' then "&amp;"
    else if c == '\'' then (if isAttribute then "&apos;" else "'")
    else if c == '"' then (if isAttribute then "&quot;" else "\"")
    else if !IsValidXmlCharacter(c) then ""
    else if isAttribute && IsNormalizableWhitespace(c) then "&#x" + FormatByte(c as int) + ";"
    else [c]
  }

  function Escaped(s: string, isAttribute: bool): string
  {
    if s == "" then "" else EscapeChar(s[0], isAttribute) + Escaped(s[1..], isAttribute)
  }

  /** The text without the characters XML does not allow. */
  function WithoutInvalid(s: string): string
  {
    if s == "" then "" else (if IsValidXmlCharacter(s[0]) then [s[0]] else "") + WithoutInvalid(s[1..])
  }

  /** The character a reference at the head of `t` stands for, and the length of the reference. */
  function ReadReference(t: string): (r: Option<(char, nat)>)
    ensures r.Some? ==> 1 <= r.value.1 <= |t|
  {
    if "&lt;" <= t then Some(('<', 4))
    else if "&gt;" <= t then Some(('>', 4))
    else if "&amp;" <= t then Some(('&', 5))
    else if "&apos;" <= t then Some(('\'', 6))
    else if "&quot;" <= t then Some(('"', 6))
    else if "&#x" <= t && |t| >= 6 && IsXDigit(t[3]) && IsXDigit(t[4]) && t[5] == ';' then
      Some(((16 * DigitValue(t[3]) + DigitValue(t[4])) as char, 6))
    else None
  }

  /** Reads a value as an XML processor does. In an attribute, white space written literally becomes a
      space (section 3.3.3), and neither '<' nor a quote may be written literally; what references stand
      for is taken as it is. */
  function ReadValue(t: string, isAttribute: bool): Option<string>
    decreases |t|
  {
    if t == "" then Some("")
    else if t[0] == '&' then
      match ReadReference(t)
      case None => None
      case Some((c, n)) => PrependChar(c, ReadValue(t[n..], isAttribute))
    else if t[0] == '<' || !IsValidXmlCharacter(t[0]) then None
    else if isAttribute && (t[0] == '"' || t[0] == '\'') then None
    else PrependChar(if isAttribute && IsNormalizableWhitespace(t[0]) then ' ' else t[0], ReadValue(t[1..], isAttribute))
  }

  lemma {:induction false} ReferenceReads(c: char, ref: string, t: string, isAttribute: bool)
    requires ref != "" && ref[0] == '&' && ReadReference(ref + t) == Some((c, |ref|))
    ensures ReadValue(ref + t, isAttribute) == PrependChar(c, ReadValue(t, isAttribute))
  {
    assert (ref + t)[|ref|..] == t;
  }

  lemma {:induction false} WhitespaceReference(c: char, t: string)
    requires IsNormalizableWhitespace(c)
    ensures ReadReference("&#x" + FormatByte(c as int) + ";" + t) == Some((c, 6))
  {
    var all := "&#x" + FormatByte(c as int) + ";" + t;
    assert all[0] == '&' && all[1] == '#' && all[2] == 'x';
    assert all[3] == HexDigit(c as int / 16) && all[4] == HexDigit(c as int % 16) && all[5] == ';';
    DigitReadsBack(c as int / 16);
    DigitReadsBack(c as int % 16);
    assert all[..3] == "&#x";
  }

  lemma {:induction false} NamedReferences(t: string)
    ensures ReadReference("&lt;" + t) == Some(('<', 4))
    ensures ReadReference("&gt;" + t) == Some(('>', 4))
    ensures ReadReference("&amp;" + t) == Some(('&', 5))
    ensures ReadReference("&apos;" + t) == Some(('\'', 6))
    ensures ReadReference("&quot;" + t) == Some(('"', 6))
  {
    assert ("&gt;" + t)[1] == 'g' && ("&amp;" + t)[1] == 'a' && ("&amp;" + t)[2] == 'm';
    assert ("&apos;" + t)[1] == 'a' && ("&apos;" + t)[2] == 'p' && ("&quot;" + t)[1] == 'q';
  }

  lemma {:induction false} EscapedCharReads(c: char, t: string, isAttribute: bool)
    ensures ReadValue(EscapeChar(c, isAttribute) + t, isAttribute) ==
            if IsValidXmlCharacter(c) then PrependChar(c, ReadValue(t, isAttribute)) else ReadValue(t, isAttribute)
  {
    hide ReadReference, FormatByte;
    var e := EscapeChar(c, isAttribute);
    NamedReferences(t);
    if IsNormalizableWhitespace(c) { WhitespaceReference(c, t); }
    if e == "" {
      assert e + t == t;
    } else if e[0] == '&' {
      ReferenceReads(c, e, t, isAttribute);
    } else {
      assert e == [c] && (e + t)[1..] == t;
    }
  }

  lemma {:induction false} NothingToRead(isAttribute: bool)
    ensures ReadValue("", isAttribute) == Some("")
  {
  }

  /** A value read back is the text less the invalid characters, in attributes even after white space has
      been normalised. */
  lemma {:induction false} EscapedReadsBack(s: string, isAttribute: bool)
    ensures ReadValue(Escaped(s, isAttribute), isAttribute) == Some(WithoutInvalid(s))
  {
    hide EscapeChar, IsValidXmlCharacter, ReadReference, IsNormalizableWhitespace;
    NothingToRead(isAttribute);
    if s != "" {
      hide ReadValue;
      assert "" + WithoutInvalid(s[1..]) == WithoutInvalid(s[1..]);
      EscapedReadsBack(s[1..], isAttribute);
      EscapedCharReads(s[0], Escaped(s[1..], isAttribute), isAttribute);
    }
  }

  // ----- what escaped text looks like

  /** Text is escaped character by character. */
  lemma {:induction false} EscapedJoins(a: string, b: string, isAttribute: bool)
    ensures Escaped(a + b, isAttribute) == Escaped(a, isAttribute) + Escaped(b, isAttribute)
  {
    hide EscapeChar;
    if a == "" {
      assert a + b == b;
    } else {
      assert (a + b)[1..] == a[1..] + b;
      EscapedJoins(a[1..], b, isAttribute);
      var e := EscapeChar(a[0], isAttribute);
      assert Escaped(a, isAttribute) == e + Escaped(a[1..], isAttribute);
      assert e + (Escaped(a[1..], isAttribute) + Escaped(b, isAttribute)) == e + Escaped(a[1..], isAttribute) + Escaped(b, isAttribute);
    }
  }

  /** Invalid characters are dropped character by character. */
  lemma {:induction false} RemovalJoins(a: string, b: string)
    ensures WithoutInvalid(a + b) == WithoutInvalid(a) + WithoutInvalid(b)
  {
    hide IsValidXmlCharacter;
    if a == "" {
      assert a + b == b;
    } else {
      assert (a + b)[1..] == a[1..] + b;
      RemovalJoins(a[1..], b);
      var head, tail, more := if IsValidXmlCharacter(a[0]) then [a[0]] else "", WithoutInvalid(a[1..]), WithoutInvalid(b);
      hide WithoutInvalid;
      assert head + (tail + more) == head + tail + more;
    }
  }

  /** What becomes of one character: the five marks, white space in attributes, and control characters, which are
      dropped; any other character stays. */
  lemma {:induction false} OneEscaped(c: char, isAttribute: bool)
    ensures Escaped("<", isAttribute) == "&lt;" && Escaped(">", isAttribute) == "&gt;" && Escaped("&", isAttribute) == "&amp;"
    ensures Escaped("'", isAttribute) == (if isAttribute then "&apos;" else "'")
    ensures Escaped("\"", isAttribute) == (if isAttribute then "&quot;" else "\"")
    ensures Escaped("\t", isAttribute) == (if isAttribute then "&#x09;" else "\t")
    ensures Escaped("\n", isAttribute) == (if isAttribute then "&#x0A;" else "\n")
    ensures Escaped("\r", isAttribute) == (if isAttribute then "&#x0D;" else "\r")
    ensures c < ' ' && c != '\t' && c != '\n' && c != '\r' ==> Escaped([c], isAttribute) == ""
    ensures c >= ' ' && c != '<' && c != '>' && c != '&' && c != '\'' && c != '"' ==> Escaped([c], isAttribute) == [c]
    ensures WithoutInvalid([c]) == if c >= ' ' || c == '\t' || c == '\n' || c == '\r' then [c] else ""
  {
    hide EscapeChar;
    JustOne('<', isAttribute);
    JustOne('>', isAttribute);
    JustOne('&', isAttribute);
    JustOne('\'', isAttribute);
    JustOne('"', isAttribute);
    JustOne('\t', isAttribute);
    JustOne('\n', isAttribute);
    JustOne('\r', isAttribute);
    JustOne(c, isAttribute);
    WhiteEscapes();
    PlainEscapes(c, isAttribute);
  }

  lemma {:induction false} JustOne(c: char, isAttribute: bool)
    ensures Escaped([c], isAttribute) == EscapeChar(c, isAttribute)
    ensures WithoutInvalid([c]) == if IsValidXmlCharacter(c) then [c] else ""
  {
    hide EscapeChar;
    assert [c][1..] == "";
    assert EscapeChar(c, isAttribute) + "" == EscapeChar(c, isAttribute);
    assert (if IsValidXmlCharacter(c) then [c] else "") + "" == if IsValidXmlCharacter(c) then [c] else "";
  }

  lemma {:induction false} WhiteEscapes()
    ensures EscapeChar('\t', true) == "&#x09;" && EscapeChar('\n', true) == "&#x0A;" && EscapeChar('\r', true) == "&#x0D;"
    ensures EscapeChar('\t', false) == "\t" && EscapeChar('\n', false) == "\n" && EscapeChar('\r', false) == "\r"
  {
    assert FormatByte(9) == "09" && FormatByte(10) == "0A" && FormatByte(13) == "0D";
  }

  lemma {:induction false} PlainEscapes(c: char, isAttribute: bool)
    ensures EscapeChar('<', isAttribute) == "&lt;" && EscapeChar('>', isAttribute) == "&gt;" && EscapeChar('&', isAttribute) == "&amp;"
    ensures EscapeChar('\'', isAttribute) == (if isAttribute then "&apos;" else "'")
    ensures EscapeChar('"', isAttribute) == (if isAttribute then "&quot;" else "\"")
    ensures c < ' ' && c != '\t' && c != '\n' && c != '\r' ==> EscapeChar(c, isAttribute) == ""
    ensures c >= ' ' && c != '<' && c != '>' && c != '&' && c != '\'' && c != '"' ==> EscapeChar(c, isAttribute) == [c]
  {
    hide FormatByte;
  }

  /** The body of the escaping loop. */
  method EscapeCharTo(ch: char, isAttribute: bool, m: string) returns (m': string)
    ensures m' == m + EscapeChar(ch, isAttribute)
  {
    match ch {
      case '<' => m' := m + "&lt;";
      case '>' => m' := m + "&gt;";
      case '&' => m' := m + "&amp;";
      case '\'' => m' := m + (if isAttribute then "&apos;" else "'");
      case '"' => m' := m + (if isAttribute then "&quot;" else "\"");
      case _ =>
        m' := m;
        if IsValidXmlCharacter(ch) {
          if isAttribute && IsNormalizableWhitespace(ch) {
            m' := m + ("&#x" + FormatByte(ch as int) + ";");
          } else {
            m' := m + [ch];
          }
        }
    }
  }

  lemma {:induction false} EscapedFrom(s: string, i: nat, isAttribute: bool)
    requires i < |s|
    ensures Escaped(s[i..], isAttribute) == EscapeChar(s[i], isAttribute) + Escaped(s[i + 1..], isAttribute)
  {
    assert s[i..][1..] == s[i + 1..];
  }

  method EscapeXml(str: string, isAttribute: bool) returns (m: string)
    ensures m == Escaped(str, isAttribute)
  {
    hide EscapeChar, Escaped;
    m := "";
    assert str[0..] == str;
    for i := 0 to |str|
      invariant m + Escaped(str[i..], isAttribute) == Escaped(str, isAttribute)
    {
      EscapedFrom(str, i, isAttribute);
      ghost var e, rest := EscapeChar(str[i], isAttribute), Escaped(str[i + 1..], isAttribute);
      assert m + (e + rest) == m + e + rest;
      m := EscapeCharTo(str[i], isAttribute, m);
    }
    NothingEscaped(isAttribute);
    assert str[|str|..] == "" && m + "" == m;
  }

  lemma {:induction false} NothingEscaped(isAttribute: bool)
    ensures Escaped("", isAttribute) == ""
  {
  }

  method RemoveInvalidXmlCharacters(str: string) returns (output: string)
    ensures output == WithoutInvalid(str)
  {
    output := "";
    for i := 0 to |str|
      invariant output + WithoutInvalid(str[i..]) == WithoutInvalid(str)
    {
      assert str[i..][1..] == str[i + 1..];
      if IsValidXmlCharacter(str[i]) {
        output := output + [str[i]];
      }
    }
  }
}
