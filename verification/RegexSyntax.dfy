/** The grammar of the simple regular expressions, and the validator that decides it. */
module RegexSyntax {
  import opened Wrappers
  import opened CStrings

  // ----- character classes

  predicate IsInSet(ch: char, chars: string) { ch != '\0' && ch in chars }
  predicate IsAsciiDigit(ch: char) { '0' <= ch <= '9' }
  predicate IsAsciiPunct(ch: char) { IsInSet(ch, "^-!\"#$%&'()*+,./:;<=>?@[\\]_`{|}~") }
  predicate IsRepeat(ch: char) { IsInSet(ch, "?*+") }
  predicate IsAsciiWhiteSpace(ch: char) { IsInSet(ch, " \U{0C}\n\r\t\U{0B}") }
  predicate IsAsciiWordChar(ch: char)
  {
    ('a' <= ch <= 'z') || ('A' <= ch <= 'Z') || ('0' <= ch <= '9') || ch == '_'
  }
  predicate IsValidEscape(c: char) { IsAsciiPunct(c) || IsInSet(c, "dDfnrsStvwW") }

  predicate AtomMatchesChar(escaped: bool, patternChar: char, ch: char)
  {
    if escaped then
      match patternChar
      case 'd' => IsAsciiDigit(ch)
      case 'D' => !IsAsciiDigit(ch)
      case 'f' => ch == '\U{0C}'
      case 'n' => ch == '\n'
      case 'r' => ch == '\r'
      case 's' => IsAsciiWhiteSpace(ch)
      case 'S' => !IsAsciiWhiteSpace(ch)
      case 't' => ch == '\t'
      case 'v' => ch == '\U{0B}'
      case 'w' => IsAsciiWordChar(ch)
      case 'W' => !IsAsciiWordChar(ch)
      case _ => IsAsciiPunct(patternChar) && patternChar == ch
    else (patternChar == '.' && ch != '\n') || patternChar == ch
  }

  // ----- the grammar: ['^'] (atom [repeat])* ['$']

  datatype Repeat = Once | Optional | Star | Plus
  datatype Item = Item(escaped: bool, c: char, repeat: Repeat)
  datatype Tail = Tail(items: seq<Item>, atEnd: bool)
  datatype Regex = Regex(atStart: bool, tail: Tail)

  /** A character that stands for itself, or is the dot. */
  predicate IsPlain(c: char) { c != '\0' && !(c in "\\^$?*+()[]{}|") }

  predicate WellFormedItem(item: Item) { if item.escaped then IsValidEscape(item.c) else IsPlain(item.c) }

  predicate WellFormed(t: Tail) { forall i :: 0 <= i < |t.items| ==> WellFormedItem(t.items[i]) }

  function ShowRepeat(r: Repeat): string
  {
    match r case Once => "" case Optional => "?" case Star => "*" case Plus => "+"
  }

  function ShowItem(item: Item): string
  {
    (if item.escaped then "\\" else "") + [item.c] + ShowRepeat(item.repeat)
  }

  function ShowItems(items: seq<Item>): string
  {
    if items == [] then "" else ShowItem(items[0]) + ShowItems(items[1..])
  }

  function ShowTail(t: Tail): string { ShowItems(t.items) + (if t.atEnd then "$" else "") }

  function Show(r: Regex): string { (if r.atStart then "^" else "") + ShowTail(r.tail) }

  ghost predicate InGrammar(s: string)
  {
    exists r: Regex :: WellFormed(r.tail) && Show(r) == s
  }

  // ----- a parser for it, by positions

  function RepeatOf(ch: char): Repeat
  {
    if ch == '?' then Optional else if ch == '*' then Star else if ch == '+' then Plus else Once
  }

  /** The first atom of s[i..] with its repetition, and the place after it. */
  function ParseItem(s: CString, i: nat): (r: Option<(Item, nat)>)
    requires i < |s|
    ensures r.Some? ==> i < r.value.1 <= |s|
  {
    var escaped := s[i] == '\\';
    var k := if escaped then i + 1 else i;
    if k == |s| || (if escaped then !IsValidEscape(s[k]) else !IsPlain(s[k])) then None
    else
      var repeat := RepeatOf(At(s, k + 1));
      Some((Item(escaped, s[k], repeat), if repeat == Once then k + 1 else k + 2))
  }

  function ParseTail(s: CString, i: nat): Option<Tail>
    requires i <= |s|
    decreases |s| - i
  {
    if i == |s| then Some(Tail([], false))
    else if s[i] == '$' then (if i + 1 == |s| then Some(Tail([], true)) else None)
    else
      match ParseItem(s, i)
      case None => None
      case Some((item, next)) =>
        match ParseTail(s, next)
        case None => None
        case Some(t) => Some(Tail([item] + t.items, t.atEnd))
  }

  function Parse(s: CString): Option<Regex>
  {
    var atStart := At(s, 0) == '^';
    match ParseTail(s, if atStart then 1 else 0)
    case None => None
    case Some(t) => Some(Regex(atStart, t))
  }

  // ----- the parser is exact for the grammar

  lemma {:induction false} ParsedItemShows(s: CString, i: nat)
    requires i < |s| && ParseItem(s, i).Some?
    ensures var (item, next) := ParseItem(s, i).value;
            WellFormedItem(item) && ShowItem(item) == s[i..next]
  {
    hide IsPlain, IsValidEscape;
    var (item, next) := ParseItem(s, i).value;
    assert |ShowItem(item)| == next - i;
  }

  lemma {:induction false} ParsedTailShows(s: CString, i: nat)
    requires i <= |s| && ParseTail(s, i).Some?
    ensures WellFormed(ParseTail(s, i).value) && ShowTail(ParseTail(s, i).value) == s[i..]
    decreases |s| - i
  {
    hide ParseItem, ShowItem, IsPlain, IsValidEscape;
    if i < |s| && s[i] != '$' {
      ParsedItemShows(s, i);
      var (item, next) := ParseItem(s, i).value;
      ParsedTailShows(s, next);
      var t, rest := ParseTail(s, i).value, ParseTail(s, next).value;
      assert t.items[0] == item && t.items[1..] == rest.items;
      assert s[i..] == s[i..next] + s[next..];
    }
  }

  /** What ShowItems puts first. */
  lemma {:induction false} ShownTailHead(t: Tail)
    requires WellFormed(t)
    ensures ShowTail(t) == "" || !IsRepeat(ShowTail(t)[0])
    ensures ShowTail(t) != "" && ShowTail(t)[0] == '$' ==> t == Tail([], true)
    ensures t.items != [] ==> ShowTail(t) == ShowItem(t.items[0]) + ShowTail(Tail(t.items[1..], t.atEnd)) && ShowTail(t)[0] != '^'
  {
    if t.items != [] {
      assert WellFormedItem(t.items[0]);
      assert ShowItem(t.items[0])[0] == (if t.items[0].escaped then '\\' else t.items[0].c);
    }
  }

  lemma {:induction false} PlainIsOrdinary(c: char)
    requires IsPlain(c)
    ensures c != '\\' && c != '$' && c != '^' && !IsRepeat(c)
  {
  }

  lemma {:induction false} RepeatReadsBack(r: Repeat, next: char)
    requires !IsRepeat(next)
    ensures RepeatOf(if r == Once then next else ShowRepeat(r)[0]) == r
  {
  }

  /** The characters of a printed item, one by one. */
  lemma {:induction false} ShownItemChars(s: string, i: nat, item: Item, rest: string)
    requires i <= |s| && s[i..] == ShowItem(item) + rest
    ensures var k := if item.escaped then i + 1 else i;
            && k < |s| && s[k] == item.c && (item.escaped ==> s[i] == '\\')
            && |ShowItem(item)| == k + 1 - i + |ShowRepeat(item.repeat)|
            && i + |ShowItem(item)| <= |s|
            && At(s, k + 1) == (if item.repeat == Once then At(rest, 0) else ShowRepeat(item.repeat)[0])
            && s[i + |ShowItem(item)|..] == rest
  {
    hide ShowRepeat;
    var k := if item.escaped then i + 1 else i;
    var shown := ShowItem(item) + rest;
    assert item.repeat == Once <==> ShowRepeat(item.repeat) == "" by { OnlyOnceIsSilent(item.repeat); }
    assert s[i] == s[i..][0] == shown[0];
    assert s[k] == s[i..][k - i] == shown[k - i];
    if k + 1 < |s| { assert s[k + 1] == s[i..][k + 1 - i] == shown[k + 1 - i]; }
    assert s[i + |ShowItem(item)|..] == s[i..][|ShowItem(item)|..] == rest;
  }

  lemma {:induction false} OnlyOnceIsSilent(r: Repeat)
    ensures r == Once <==> ShowRepeat(r) == ""
    ensures |ShowRepeat(r)| <= 1
  {
  }

  lemma {:induction false} ShownItemParses(s: CString, i: nat, item: Item, rest: string)
    requires i <= |s| && s[i..] == ShowItem(item) + rest && WellFormedItem(item)
    requires !IsRepeat(At(rest, 0))
    ensures i < |s| && s[i] != '$'
    ensures ParseItem(s, i) == Some((item, i + |ShowItem(item)|))
    ensures s[i + |ShowItem(item)|..] == rest
  {
    hide IsPlain, IsValidEscape, ShowItem, ShowRepeat, IsRepeat, RepeatOf;
    ShownItemChars(s, i, item, rest);
    OnlyOnceIsSilent(item.repeat);
    RepeatReadsBack(item.repeat, At(rest, 0));
    if !item.escaped { PlainIsOrdinary(item.c); }
  }

  lemma {:induction false} ShownTailParses(s: CString, i: nat, t: Tail)
    requires i <= |s| && WellFormed(t) && s[i..] == ShowTail(t)
    ensures ParseTail(s, i) == Some(t)
    decreases |t.items|
  {
    hide ParseItem, ShowItem, IsRepeat, IsPlain, IsValidEscape;
    if t.items == [] {
      if t.atEnd { assert s[i] == s[i..][0]; }
    } else {
      var rest := Tail(t.items[1..], t.atEnd);
      assert WellFormed(rest) && WellFormedItem(t.items[0]);
      ShownTailHead(t);
      ShownTailHead(rest);
      NulIsNoRepeat();
      ShownItemParses(s, i, t.items[0], ShowTail(rest));
      ShownTailParses(s, i + |ShowItem(t.items[0])|, rest);
      assert t.items == [t.items[0]] + t.items[1..];
    }
  }

  lemma {:induction false} NulIsNoRepeat()
    ensures !IsRepeat('\0')
  {
  }

  /** Parsing inverts printing on well-formed expressions. */
  lemma {:induction false} ParseAfterShow(r: Regex, s: CString)
    requires WellFormed(r.tail) && Show(r) == s
    ensures Parse(s) == Some(r)
  {
    ShownTailHead(r.tail);
    if r.atStart {
      assert s[1..] == ShowTail(r.tail);
      ShownTailParses(s, 1, r.tail);
    } else {
      assert s[0..] == ShowTail(r.tail);
      ShownTailParses(s, 0, r.tail);
    }
  }

  lemma {:induction false} ShowAfterParse(s: CString)
    requires Parse(s).Some?
    ensures WellFormed(Parse(s).value.tail) && Show(Parse(s).value) == s
  {
    hide ParseTail, ShowTail, WellFormed;
    var i := if At(s, 0) == '^' then 1 else 0;
    ParsedTailShows(s, i);
    assert s == s[..i] + s[i..];
  }

  lemma {:induction false} ParsesIffInGrammar(s: CString)
    ensures Parse(s).Some? <==> InGrammar(s)
  {
    if Parse(s).Some? {
      ShowAfterParse(s);
    }
    if InGrammar(s) {
      var r: Regex :| WellFormed(r.tail) && Show(r) == s;
      ParseAfterShow(r, s);
    }
  }

  // ----- the validator

  /** The checks the validator makes from position i on. */
  ghost predicate ValidFrom(s: CString, i: nat, prevRepeatable: bool)
    requires i <= |s|
    decreases |s| - i
  {
    if i == |s| then true
    else if s[i] == '\\' then i + 1 < |s| && IsValidEscape(s[i + 1]) && ValidFrom(s, i + 2, true)
    else
      && !(s[i] == '^' && i > 0)
      && !(s[i] == '$' && i + 1 < |s|)
      && !IsInSet(s[i], "()[]{}|")
      && !(IsRepeat(s[i]) && !prevRepeatable)
      && ValidFrom(s, i + 1, !IsInSet(s[i], "^$?*+"))
  }

  lemma {:induction false} ValidIffParses(s: CString, i: nat)
    requires i <= |s| && (i > 0 || At(s, 0) != '^')
    ensures ValidFrom(s, i, false) <==> ParseTail(s, i).Some?
    decreases |s| - i
  {
    if i < |s| && s[i] != '$' && ParseItem(s, i).Some? {
      var (item, next) := ParseItem(s, i).value;
      ValidIffParses(s, next);
      AtomThenRepeat(s, i);
    }
  }

  /** Over one atom and its repetition the validator agrees with the parser. */
  lemma {:induction false} AtomThenRepeat(s: CString, i: nat)
    requires i < |s| && s[i] != '$' && ParseItem(s, i).Some?
    ensures ValidFrom(s, i, false) == ValidFrom(s, ParseItem(s, i).value.1, false)
  {
    var k := if s[i] == '\\' then i + 1 else i;
    assert ValidFrom(s, i, false) == ValidFrom(s, k + 1, true);
    if k + 1 < |s| {
      if IsRepeat(s[k + 1]) {
        assert ValidFrom(s, k + 1, true) == ValidFrom(s, k + 2, false);
      } else {
        assert ValidFrom(s, k + 1, true) == ValidFrom(s, k + 1, false);
      }
    }
  }

  lemma {:induction false} ValidatedIffInGrammar(s: CString)
    ensures ValidFrom(s, 0, false) <==> InGrammar(s)
  {
    ParsesIffInGrammar(s);
    if At(s, 0) == '^' {
      ValidIffParses(s, 1);
    } else {
      ValidIffParses(s, 0);
    }
  }

  /** A null pointer is no valid expression. The reports of what is wrong are left out. */
  method ValidateRegex(regex: Option<CString>) returns (valid: bool)
    ensures valid <==> regex.Some? && InGrammar(regex.value)
  {
    if regex == None {
      return false;
    }
    var s := regex.value;
    ValidatedIffInGrammar(s);
    var isValid := true;
    var prevRepeatable := false;
    var i := 0;
    while At(s, i) != '\0'
      invariant 0 <= i <= |s|
      invariant ValidFrom(s, 0, false) == (isValid && ValidFrom(s, i, prevRepeatable))
      decreases |s| - i
    {
      if s[i] == '\\' {
        i := i + 1;
        if At(s, i) == '\0' {
          return false;
        }
        if !IsValidEscape(s[i]) {
          isValid := false;
        }
        prevRepeatable := true;
      } else {
        var ch := s[i];
        if ch == '^' && i > 0 {
          isValid := false;
        } else if ch == '$' && At(s, i + 1) != '\0' {
          isValid := false;
        } else if IsInSet(ch, "()[]{}|") {
          isValid := false;
        } else if IsRepeat(ch) && !prevRepeatable {
          isValid := false;
        }
        prevRepeatable := !IsInSet(ch, "^$?*+");
      }
      i := i + 1;
    }
    return isValid;
  }
}
