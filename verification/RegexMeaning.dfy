/** What expressions match, character by character and piece by piece, said of the expressions as they are written. */
module RegexMeaning {
  import opened Wrappers
  import opened CStrings
  import opened RegexSyntax
  import opened RegexMatch
  import opened RegexFullMatch

  // ----- one atom

  lemma {:induction false} OneItemLanguage(item: Item, w: string)
    ensures InLanguage([item], w) <==> ItemMatches(item, w)
  {
    hide ItemMatches;
    assert [item][1..] == [];
    if InLanguage([item], w) {
      var k :| 0 <= k <= |w| && ItemMatches([item][0], w[..k]) && InLanguage([item][1..], w[k..]);
      assert w[..k] == w;
    }
    if ItemMatches(item, w) {
      assert w[..|w|] == w && w[|w|..] == "";
      assert InLanguage([], w[|w|..]);
    }
  }

  lemma {:induction false} ItemsShow(item: Item, rest: seq<Item>)
    ensures ShowItems([item] + rest) == ShowItem(item) + ShowItems(rest)
    ensures [item] + [] == [item]
  {
    assert ([item] + rest)[1..] == rest;
  }

  lemma {:induction false} ItemParses(item: Item, regex: CString)
    requires WellFormedItem(item) && regex == ShowItem(item)
    ensures Parse(regex) == Some(Regex(false, Tail([item], false)))
  {
    hide ShowItem, WellFormedItem;
    var r := Regex(false, Tail([item], false));
    ItemsShow(item, []);
    NoItemsShowNothing();
    assert "" + (ShowItem(item) + "" + "") == ShowItem(item);
    ParseAfterShow(r, regex);
  }

  /** A single atom with its repetition. */
  lemma {:induction false} ItemFull(item: Item, regex: CString, s: string)
    requires WellFormedItem(item) && regex == ShowItem(item) && item != Item(true, '$', Once)
    ensures Parse(regex).Some? && (FullMatches(regex, s) <==> ItemMatches(item, s))
  {
    hide ShowItem, WellFormedItem, ItemMatches, FullMatches;
    ItemParses(item, regex);
    FullMatchMeaning(regex, s);
    OneItemLanguage(item, s);
  }

  // ----- the classes

  lemma {:induction false} DotMeans(s: string)
    ensures Parse(".*").Some? && (FullMatches(".*", s) <==> '\n' !in s)
  {
    hide FullMatches, Parse;
    assert ShowItem(Item(false, '.', Star)) == ".*";
    ItemFull(Item(false, '.', Star), ".*", s);
    assert forall k :: 0 <= k < |s| ==> s[k] in s;
  }

  lemma {:induction false} DigitsMean(s: string)
    ensures Parse("\\d*").Some? && (FullMatches("\\d*", s) <==> forall k :: 0 <= k < |s| ==> s[k] in "0123456789")
  {
    hide FullMatches, Parse;
    assert ShowItem(Item(true, 'd', Star)) == "\\d*";
    ItemFull(Item(true, 'd', Star), "\\d*", s);
    forall c: char ensures IsAsciiDigit(c) <==> c in "0123456789" { DigitListed(c); }
  }

  lemma {:induction false} DigitListed(c: char)
    ensures IsAsciiDigit(c) <==> c in "0123456789"
  {
    var all := "0123456789";
    if IsAsciiDigit(c) { assert all[c as int - '0' as int] == c; }
  }

  lemma {:induction false} WordCharsMean(s: string)
    ensures Parse("\\w*").Some?
    ensures FullMatches("\\w*", s) <==>
              forall k :: 0 <= k < |s| ==> 'a' <= s[k] <= 'z' || 'A' <= s[k] <= 'Z' || '0' <= s[k] <= '9' || s[k] == '_'
  {
    hide FullMatches, Parse;
    assert ShowItem(Item(true, 'w', Star)) == "\\w*";
    ItemFull(Item(true, 'w', Star), "\\w*", s);
  }

  lemma {:induction false} SpacesMean(s: string)
    ensures Parse("\\s*").Some? && (FullMatches("\\s*", s) <==> forall k :: 0 <= k < |s| ==> s[k] in [' ', '\t', '\n', '\r', '\U{0B}', '\U{0C}'])
  {
    hide FullMatches, Parse;
    assert ShowItem(Item(true, 's', Star)) == "\\s*";
    ItemFull(Item(true, 's', Star), "\\s*", s);
  }

  /** The other classes: \D, \W and \S stand for one character, namely for those their small letters do not. */
  lemma {:induction false} ComplementsMean(s: string)
    ensures Parse("\\d").Some? && Parse("\\D").Some? && (FullMatches("\\D", s) <==> |s| == 1 && !FullMatches("\\d", s))
    ensures Parse("\\w").Some? && Parse("\\W").Some? && (FullMatches("\\W", s) <==> |s| == 1 && !FullMatches("\\w", s))
    ensures Parse("\\s").Some? && Parse("\\S").Some? && (FullMatches("\\S", s) <==> |s| == 1 && !FullMatches("\\s", s))
  {
    hide FullMatches, Parse;
    ComplementMeans('d', 'D', "\\d", "\\D", s);
    ComplementMeans('w', 'W', "\\w", "\\W", s);
    ComplementMeans('s', 'S', "\\s", "\\S", s);
  }

  lemma {:induction false} ComplementMeans(small: char, capital: char, a: CString, b: CString, s: string)
    requires a == "\\" + [small] && b == "\\" + [capital]
    requires (small == 'd' && capital == 'D') || (small == 'w' && capital == 'W') || (small == 's' && capital == 'S')
    ensures Parse(a).Some? && Parse(b).Some? && (FullMatches(b, s) <==> |s| == 1 && !FullMatches(a, s))
  {
    hide FullMatches, Parse, AtomMatchesChar;
    AtomFull(true, small, a, s);
    AtomFull(true, capital, b, s);
    if |s| == 1 { CapitalIsComplement(small, capital, s[0]); }
  }

  lemma {:induction false} CapitalIsComplement(small: char, capital: char, ch: char)
    requires (small == 'd' && capital == 'D') || (small == 'w' && capital == 'W') || (small == 's' && capital == 'S')
    ensures AtomMatchesChar(true, capital, ch) <==> !AtomMatchesChar(true, small, ch)
  {
  }

  lemma {:induction false} AtomFull(escaped: bool, c: char, regex: CString, s: string)
    requires WellFormedItem(Item(escaped, c, Once)) && regex == (if escaped then "\\" else "") + [c] && !(escaped && c == '$')
    ensures Parse(regex).Some? && (FullMatches(regex, s) <==> |s| == 1 && AtomMatchesChar(escaped, c, s[0]))
  {
    hide FullMatches, Parse, AtomMatchesChar, WellFormedItem;
    assert regex + "" == regex;
    ItemFull(Item(escaped, c, Once), regex, s);
  }

  /** A character that has no meaning of its own stands for itself. */
  lemma {:induction false} PlainMeans(c: char, s: string)
    requires c != '\0' && !(c in "\\^$?*+()[]{}|.")
    ensures Parse([c]).Some? && (FullMatches([c], s) <==> s == [c])
  {
    hide FullMatches, Parse;
    assert !(c in "\\^$?*+()[]{}|") by { if c in "\\^$?*+()[]{}|" { Prefix("\\^$?*+()[]{}|", ".", c); } }
    assert c != '.' by { assert "\\^$?*+()[]{}|."[13] == '.'; }
    assert "" + [c] == [c];
    AtomFull(false, c, [c], s);
  }

  lemma {:induction false} Prefix(a: string, b: string, c: char)
    requires c in a
    ensures c in a + b
  {
  }

  // ----- escapes

  /** The printable ASCII characters that are no letters, digits or blanks. */
  predicate Punctuation(c: char) { '!' <= c <= '/' || ':' <= c <= '@' || '[' <= c <= '`' || '{' <= c <= '~' }

  lemma {:induction false} PunctuationListed(c: char)
    ensures IsAsciiPunct(c) <==> Punctuation(c)
  {
    if '!' <= c <= '/' { FirstBlock(c); } else if c <= '`' { MiddleBlocks(c); } else { LastBlock(c); }
    if IsAsciiPunct(c) { OnlyBlocks(c); }
  }

  const PUNCTUATION := "^-!\"#$%&'()*+,./:;<=>?@[\\]_`{|}~"

  lemma {:induction false} FirstBlock(c: char)
    requires '!' <= c <= '/'
    ensures c in PUNCTUATION
  {
    var all := PUNCTUATION;
    assert all[2] == '!' && all[3] == '"' && all[4] == '#' && all[5] == '$' && all[6] == '%' && all[7] == '&' && all[8] == '\'';
    assert all[9] == '(' && all[10] == ')' && all[11] == '*' && all[12] == '+' && all[13] == ',' && all[1] == '-' && all[14] == '.' && all[15] == '/';
  }

  lemma {:induction false} MiddleBlocks(c: char)
    ensures ':' <= c <= '@' || '[' <= c <= '`' ==> c in PUNCTUATION
  {
    var all := PUNCTUATION;
    assert all[16] == ':' && all[17] == ';' && all[18] == '<' && all[19] == '=' && all[20] == '>' && all[21] == '?' && all[22] == '@';
    assert all[23] == '[' && all[24] == '\\' && all[25] == ']' && all[0] == '^' && all[26] == '_' && all[27] == '`';
  }

  lemma {:induction false} LastBlock(c: char)
    ensures '{' <= c <= '~' ==> c in PUNCTUATION
  {
    var all := PUNCTUATION;
    assert all[28] == '{' && all[29] == '|' && all[30] == '}' && all[31] == '~';
  }

  lemma {:induction false} OnlyBlocks(c: char)
    requires c in PUNCTUATION
    ensures Punctuation(c)
  {
  }

  /** Escaped punctuation stands for itself. */
  lemma {:induction false} EscapedPunctuationMeans(c: char, s: string)
    requires Punctuation(c) && c != '$'
    ensures Parse(['\\', c]).Some? && (FullMatches(['\\', c], s) <==> s == [c])
  {
    hide FullMatches, Parse;
    PunctuationListed(c);
    assert "\\" + [c] == ['\\', c];
    AtomFull(true, c, ['\\', c], s);
  }

  /** The escapes for blanks and controls. */
  lemma {:induction false} ControlsMean(s: string)
    ensures Parse("\\f").Some? && (FullMatches("\\f", s) <==> s == "\U{0C}")
    ensures Parse("\\n").Some? && (FullMatches("\\n", s) <==> s == "\n")
    ensures Parse("\\r").Some? && (FullMatches("\\r", s) <==> s == "\r")
    ensures Parse("\\t").Some? && (FullMatches("\\t", s) <==> s == "\t")
    ensures Parse("\\v").Some? && (FullMatches("\\v", s) <==> s == "\U{0B}")
  {
    hide FullMatches, Parse;
    ControlMeans('f', "\\f", s);
    ControlMeans('n', "\\n", s);
    ControlMeans('r', "\\r", s);
    ControlMeans('t', "\\t", s);
    ControlMeans('v', "\\v", s);
  }

  function ControlOf(c: char): char
  {
    match c case 'f' => '\U{0C}' case 'n' => '\n' case 'r' => '\r' case 't' => '\t' case _ => '\U{0B}'
  }

  lemma {:induction false} ControlMeans(c: char, a: CString, s: string)
    requires a == "\\" + [c] && (c == 'f' || c == 'n' || c == 'r' || c == 't' || c == 'v')
    ensures Parse(a).Some? && (FullMatches(a, s) <==> s == [ControlOf(c)])
  {
    hide FullMatches, Parse, AtomMatchesChar;
    AtomFull(true, c, a, s);
    if |s| == 1 { ControlIs(c, s[0]); }
  }

  lemma {:induction false} ControlIs(c: char, ch: char)
    requires c == 'f' || c == 'n' || c == 'r' || c == 't' || c == 'v'
    ensures AtomMatchesChar(true, c, ch) <==> ch == ControlOf(c)
  {
  }

  // ----- what is an expression at all

  /** The characters that are expressions by themselves, anchors included, and those that may be escaped. */
  lemma {:induction false} SinglesAllowed(c: char)
    requires c != '\0'
    ensures InGrammar([c]) <==> !(c in "\\?*+()[]{}|")
    ensures InGrammar(['\\', c]) <==> Punctuation(c) || c in "dDfnrsStvwW"
  {
    ParsesIffInGrammar([c]);
    ParsesIffInGrammar(['\\', c]);
    SingleParses(c);
    EscapeParses(c);
    PunctuationListed(c);
  }

  lemma {:induction false} EscapeParses(c: char)
    requires c != '\0'
    ensures Parse(['\\', c]).Some? <==> IsValidEscape(c)
    ensures IsValidEscape(c) <==> IsAsciiPunct(c) || c in "dDfnrsStvwW"
  {
    hide IsAsciiPunct;
    var s: CString := ['\\', c];
    assert ParseTail(s, 2) == Some(Tail([], false));
  }

  lemma {:induction false} SingleParses(c: char)
    requires c != '\0'
    ensures Parse([c]).Some? <==> !(c in "\\?*+()[]{}|")
  {
    var s: CString := [c];
    assert ParseTail(s, 1) == Some(Tail([], false));
    if c == '^' || c == '$' || c == '\\' {
    } else {
      assert Parse(s).Some? <==> IsPlain(c);
      SpecialsListed(c);
    }
  }

  lemma {:induction false} SpecialsListed(c: char)
    requires c != '^' && c != '$'
    ensures c in "\\^$?*+()[]{}|" <==> c in "\\?*+()[]{}|"
  {
  }

  // ----- repetitions

  /** An atom as written. */
  ghost predicate IsAtom(a: string)
  {
    (|a| == 1 && IsPlain(a[0])) || (|a| == 2 && a[0] == '\\' && IsValidEscape(a[1]) && a[1] != '$')
  }

  /** A repetition repeats the single characters that the atom matches. */
  lemma {:induction false} RepeatsMean(a: CString, s: string)
    requires IsAtom(a)
    ensures Parse(a).Some? && Parse(a + "?").Some? && Parse(a + "*").Some? && Parse(a + "+").Some?
    ensures FullMatches(a, s) ==> |s| == 1
    ensures FullMatches(a + "?", s) <==> s == "" || FullMatches(a, s)
    ensures FullMatches(a + "*", s) <==> forall k :: 0 <= k < |s| ==> FullMatches(a, [s[k]])
    ensures FullMatches(a + "+", s) <==> s != "" && FullMatches(a + "*", s)
  {
    hide FullMatches, Parse, AtomMatchesChar, WellFormedItem;
    var escaped, c := |a| == 2, Last(a);
    AtomWritten(a);
    AtomFull(escaped, c, a, s);
    ItemFull(Item(escaped, c, Optional), a + "?", s);
    ItemFull(Item(escaped, c, Star), a + "*", s);
    ItemFull(Item(escaped, c, Plus), a + "+", s);
    forall k | 0 <= k < |s| ensures FullMatches(a, [s[k]]) <==> AtomMatchesChar(escaped, c, s[k]) {
      AtomFull(escaped, c, a, [s[k]]);
    }
  }

  lemma {:induction false} AtomWritten(a: string)
    requires IsAtom(a)
    ensures var e, c := |a| == 2, Last(a);
            && WellFormedItem(Item(e, c, Once)) && WellFormedItem(Item(e, c, Optional))
            && WellFormedItem(Item(e, c, Star)) && WellFormedItem(Item(e, c, Plus))
    ensures a == (if |a| == 2 then "\\" else "") + [Last(a)] && !(|a| == 2 && Last(a) == '$')
  {
    hide IsPlain, IsValidEscape;
  }

  // ----- pieces and anchors

  lemma {:induction false} LanguageJoined(a: seq<Item>, b: seq<Item>, w: string)
    ensures InLanguage(a + b, w) <==> exists k :: 0 <= k <= |w| && InLanguage(a, w[..k]) && InLanguage(b, w[k..])
    decreases |a|, 1
  {
    hide ItemMatches;
    if a == [] {
      assert a + b == b && w[0..] == w && w[..0] == "";
      if k :| 0 <= k <= |w| && InLanguage(a, w[..k]) && InLanguage(b, w[k..]) { assert w[k..] == w; }
    } else {
      assert (a + b)[0] == a[0] && (a + b)[1..] == a[1..] + b;
      if InLanguage(a + b, w) {
        var n :| 0 <= n <= |w| && ItemMatches(a[0], w[..n]) && InLanguage(a[1..] + b, w[n..]);
        LanguageJoined(a[1..], b, w[n..]);
        var k :| 0 <= k <= |w[n..]| && InLanguage(a[1..], w[n..][..k]) && InLanguage(b, w[n..][k..]);
        assert w[..n + k][..n] == w[..n] && w[..n + k][n..] == w[n..][..k] && w[n + k..] == w[n..][k..];
      }
      if k :| 0 <= k <= |w| && InLanguage(a, w[..k]) && InLanguage(b, w[k..]) {
        JoinedOnce(a, b, w, k);
      }
    }
  }

  lemma {:induction false} JoinedOnce(a: seq<Item>, b: seq<Item>, w: string, k: nat)
    requires a != [] && k <= |w| && InLanguage(a, w[..k]) && InLanguage(b, w[k..])
    ensures InLanguage(a + b, w)
    decreases |a|, 0
  {
    hide ItemMatches;
    assert (a + b)[0] == a[0] && (a + b)[1..] == a[1..] + b;
    var n :| 0 <= n <= k && ItemMatches(a[0], w[..k][..n]) && InLanguage(a[1..], w[..k][n..]);
    assert w[..k][..n] == w[..n] && w[..k][n..] == w[n..][..k - n] && w[k..] == w[n..][k - n..];
    LanguageJoined(a[1..], b, w[n..]);
  }

  /** An expression without anchors at its ends, and without an escaped dollar at its end. */
  ghost predicate Unanchored(regex: CString)
  {
    Parse(regex).Some? && At(regex, 0) != '^' && (regex == "" || Last(regex) != '$')
  }

  lemma {:induction false} UnanchoredMeans(regex: CString)
    requires Unanchored(regex)
    ensures var r := Parse(regex).value; !r.atStart && !r.tail.atEnd && !EndsInEscapedDollar(r) && WellFormed(r.tail) && Show(r) == regex
    ensures var r := Parse(regex).value; ShowItems(r.tail.items) == regex
  {
    hide Parse, WellFormed, ShowItems;
    ShowAfterParse(regex);
    BeginsWithCaret(Parse(regex).value);
    EndsInDollar(Parse(regex).value);
  }

  lemma {:induction false} UnanchoredFull(regex: CString, s: string)
    requires Unanchored(regex)
    ensures FullMatches(regex, s) <==> InLanguage(Parse(regex).value.tail.items, s)
  {
    hide Parse, FullMatches, InLanguage;
    UnanchoredMeans(regex);
    FullMatchMeaning(regex, s);
  }

  lemma {:induction false} ItemsJoined(a: seq<Item>, b: seq<Item>)
    ensures ShowItems(a + b) == ShowItems(a) + ShowItems(b)
  {
    hide ShowItem;
    if a == [] {
      assert a + b == b;
    } else {
      assert (a + b)[1..] == a[1..] + b;
      ItemsJoined(a[1..], b);
    }
  }

  /** Two expressions one behind the other match what can be cut into a match of each. */
  lemma {:induction false} JoinedMeans(a: CString, b: CString, s: string)
    requires Unanchored(a) && Unanchored(b)
    ensures Unanchored(a + b)
    ensures FullMatches(a + b, s) <==> exists k :: 0 <= k <= |s| && FullMatches(a, s[..k]) && FullMatches(b, s[k..])
  {
    hide Parse, FullMatches, InLanguage, ShowItems, WellFormedItem;
    var ta, tb := Parse(a).value.tail.items, Parse(b).value.tail.items;
    UnanchoredMeans(a);
    UnanchoredMeans(b);
    ItemsJoined(ta, tb);
    var r := Regex(false, Tail(ta + tb, false));
    assert "" + (ShowItems(ta + tb) + "") == a + b;
    ParseAfterShow(r, a + b);
    UnanchoredFull(a + b, s);
    forall k | 0 <= k <= |s|
      ensures FullMatches(a, s[..k]) <==> InLanguage(ta, s[..k])
      ensures FullMatches(b, s[k..]) <==> InLanguage(tb, s[k..])
    {
      UnanchoredFull(a, s[..k]);
      UnanchoredFull(b, s[k..]);
    }
    LanguageJoined(ta, tb, s);
  }

  /** What a partial match decides. */
  ghost predicate PartialMatches(regex: CString, s: string)
    requires Parse(regex).Some?
  {
    MatchesSomewhere(Parse(regex).value, s)
  }

  lemma {:induction false} AnchoredParses(regex: CString, atStart: bool, atEnd: bool)
    requires Unanchored(regex)
    ensures var written: CString := (if atStart then "^" else "") + regex + (if atEnd then "$" else "");
            Parse(written) == Some(Regex(atStart, Tail(Parse(regex).value.tail.items, atEnd)))
  {
    hide Parse, ShowItems, WellFormedItem;
    UnanchoredMeans(regex);
    var items := Parse(regex).value.tail.items;
    var r := Regex(atStart, Tail(items, atEnd));
    var written: CString := (if atStart then "^" else "") + regex + (if atEnd then "$" else "");
    assert (if atStart then "^" else "") + (regex + (if atEnd then "$" else "")) == written;
    ParseAfterShow(r, written);
  }

  /** A partial match is a full match of some stretch, which an anchor ties to the start or the end. */
  lemma {:induction false} PartialMeans(regex: CString, s: string)
    requires Unanchored(regex)
    ensures PartialMatches(regex, s) <==> exists i, k :: 0 <= i <= k <= |s| && FullMatches(regex, s[i..k])
    ensures Parse("^" + regex).Some? && (PartialMatches("^" + regex, s) <==> exists k :: 0 <= k <= |s| && FullMatches(regex, s[..k]))
    ensures Parse(regex + "$").Some? && (PartialMatches(regex + "$", s) <==> exists i :: 0 <= i <= |s| && FullMatches(regex, s[i..]))
    ensures Parse("^" + regex + "$").Some? && (PartialMatches("^" + regex + "$", s) <==> FullMatches(regex, s))
  {
    hide Parse, FullMatches, InLanguage;
    AnchoredParses(regex, false, false);
    AnchoredParses(regex, true, false);
    AnchoredParses(regex, false, true);
    AnchoredParses(regex, true, true);
    assert "" + regex + "" == regex && "^" + regex + "" == "^" + regex && "" + regex + "$" == regex + "$";
    var items := Parse(regex).value.tail.items;
    UnanchoredMeans(regex);
    forall i | 0 <= i <= |s|
      ensures MatchesAt(Tail(items, false), s, i) <==> exists k :: i <= k <= |s| && FullMatches(regex, s[i..k])
      ensures MatchesAt(Tail(items, true), s, i) <==> FullMatches(regex, s[i..])
    {
      MatchesFrom(regex, s, i);
    }
    hide MatchesAt;
    assert forall k :: 0 <= k <= |s| ==> s[0..k] == s[..k];
    assert s[0..] == s;
    if PartialMatches(regex, s) {
      var i :| 0 <= i <= |s| && MatchesAt(Tail(items, false), s, i);
      var k :| i <= k <= |s| && FullMatches(regex, s[i..k]);
    }
    if i, k :| 0 <= i <= k <= |s| && FullMatches(regex, s[i..k]) {
      assert MatchesAt(Tail(items, false), s, i);
    }
  }

  lemma {:induction false} MatchesFrom(regex: CString, s: string, i: nat)
    requires Unanchored(regex) && i <= |s|
    ensures MatchesAt(Tail(Parse(regex).value.tail.items, false), s, i) <==> exists k :: i <= k <= |s| && FullMatches(regex, s[i..k])
    ensures MatchesAt(Tail(Parse(regex).value.tail.items, true), s, i) <==> FullMatches(regex, s[i..])
  {
    hide Parse, FullMatches, InLanguage;
    var items := Parse(regex).value.tail.items;
    UnanchoredMeans(regex);
    forall k | i <= k <= |s| ensures FullMatches(regex, s[i..k]) <==> InLanguage(items, s[i..k]) {
      UnanchoredFull(regex, s[i..k]);
    }
    UnanchoredFull(regex, s[i..]);
    assert s[i..|s|] == s[i..];
  }
}
