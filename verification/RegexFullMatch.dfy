/** The RE object: the pattern built for full matches, and exactly when it means a full match. */
module RegexFullMatch {
  import opened Wrappers
  import opened CStrings
  import opened RegexSyntax
  import opened RegexMatch

  /** The regex wrapped so that it begins with '^' and ends with '$'. */
  function FullPattern(regex: CString): (full: CString)
  {
    (if At(regex, 0) == '^' then "" else "^") + regex + (if regex == "" || Last(regex) != '$' then "$" else "")
  }

  /** The last character is a '$' that stands for itself. */
  predicate EndsInEscapedDollar(r: Regex)
  {
    !r.tail.atEnd && r.tail.items != [] && Last(r.tail.items) == Item(true, '$', Once)
  }

  lemma {:induction false} ShowItemsSnoc(items: seq<Item>)
    requires items != []
    ensures ShowItems(items) == ShowItems(Front(items)) + ShowItem(Last(items))
  {
    hide ShowItem;
    if |items| == 1 {
      assert items[1..] == [] && Front(items) == [];
    } else {
      ShowItemsSnoc(items[1..]);
      assert Front(items)[1..] == Front(items[1..]);
    }
  }

  lemma {:induction false} ShownItemEnds(item: Item)
    requires WellFormedItem(item)
    ensures Last(ShowItem(item)) == '$' <==> item == Item(true, '$', Once)
  {
    if !item.escaped { PlainIsOrdinary(item.c); }
    hide IsPlain, IsValidEscape;
  }

  /** A valid regex ends in '$' when it is anchored there or ends in an escaped '$'. */
  lemma {:induction false} EndsInDollar(r: Regex)
    requires WellFormed(r.tail)
    ensures Show(r) != "" && Last(Show(r)) == '$' <==> r.tail.atEnd || EndsInEscapedDollar(r)
  {
    hide ShowItem, ShowItems;
    if !r.tail.atEnd {
      if r.tail.items == [] {
        NoItemsShowNothing();
      } else {
        ShowItemsSnoc(r.tail.items);
        assert WellFormedItem(r.tail.items[|r.tail.items| - 1]);
        ShownItemEnds(Last(r.tail.items));
        ItemShowsSomething(Last(r.tail.items));
      }
    }
  }

  lemma {:induction false} NoItemsShowNothing()
    ensures ShowItems([]) == ""
  {
  }

  lemma {:induction false} ItemShowsSomething(item: Item)
    ensures ShowItem(item) != ""
  {
  }

  lemma {:induction false} BeginsWithCaret(r: Regex)
    requires WellFormed(r.tail)
    ensures At(Show(r), 0) == '^' <==> r.atStart
  {
    hide ShowItem, ShowItems;
    ShownTailHead(r.tail);
    if r.tail.items == [] { NoItemsShowNothing(); }
  }

  lemma {:induction false} Sandwich(pre: string, a: string, x: string, d: string, post: string, front: string, back: string)
    requires pre + a == front && d + post == back
    ensures pre + (a + (x + d)) + post == front + (x + back)
  {
    calc {
      pre + (a + (x + d)) + post;
      (pre + a) + (x + d) + post;
      front + (x + (d + post));
    }
  }

  /** The wrapper adds just the anchors that are missing. */
  lemma {:induction false} FullPatternShows(r: Regex, regex: CString)
    requires WellFormed(r.tail) && regex == Show(r)
    ensures FullPattern(regex) == Show(Regex(true, Tail(r.tail.items, !EndsInEscapedDollar(r))))
  {
    hide ShowItem, ShowItems, EndsInEscapedDollar, IsPlain, IsValidEscape, WellFormed;
    BeginsWithCaret(r);
    EndsInDollar(r);
    AnchoredIsNotEscaped(r);
    var pre := if r.atStart then "" else "^";
    var post := if r.tail.atEnd || EndsInEscapedDollar(r) then "" else "$";
    Sandwich(pre, if r.atStart then "^" else "", ShowItems(r.tail.items), if r.tail.atEnd then "$" else "", post,
             "^", if EndsInEscapedDollar(r) then "" else "$");
  }

  lemma {:induction false} AnchoredIsNotEscaped(r: Regex)
    ensures r.tail.atEnd ==> !EndsInEscapedDollar(r)
  {
  }

  /** The wrapped pattern is anchored at both ends, unless the regex ends in an escaped '$': then its
      end stays open. */
  lemma {:induction false} FullPatternParses(regex: CString)
    requires Parse(regex).Some?
    ensures var r := Parse(regex).value;
            Parse(FullPattern(regex)) == Some(Regex(true, Tail(r.tail.items, !EndsInEscapedDollar(r))))
  {
    hide Parse, Show, FullPattern, EndsInEscapedDollar;
    ShowAfterParse(regex);
    var r := Parse(regex).value;
    FullPatternShows(r, regex);
    ParseAfterShow(Regex(true, Tail(r.tail.items, !EndsInEscapedDollar(r))), FullPattern(regex));
  }

  /** What a full match decides. */
  ghost predicate FullMatches(regex: CString, str: string)
    requires Parse(regex).Some?
  {
    FullPatternParses(regex);
    MatchesSomewhere(Parse(FullPattern(regex)).value, str)
  }

  /** Without an escaped '$' at the end a full match means that the whole string is in the language;
      with one, that some prefix is. */
  lemma {:induction false} FullMatchMeaning(regex: CString, str: string)
    requires Parse(regex).Some?
    ensures var r := Parse(regex).value;
            FullMatches(regex, str) <==>
            if EndsInEscapedDollar(r) then exists k :: 0 <= k <= |str| && InLanguage(r.tail.items, str[..k])
            else InLanguage(r.tail.items, str)
  {
    hide Parse, InLanguage;
    FullPatternParses(regex);
    var r := Parse(regex).value;
    assert str[0..|str|] == str;
    assert forall k :: 0 <= k <= |str| ==> str[0..k] == str[..k];
  }

  // ----- no full match in the other case

  /** A character the atom matches. */
  function AtomWitness(item: Item): char
  {
    if item.escaped then
      match item.c
      case 'd' => '0' case 'D' => 'a' case 'f' => '\U{0C}' case 'n' => '\n' case 'r' => '\r'
      case 's' => ' ' case 'S' => 'a' case 't' => '\t' case 'v' => '\U{0B}' case 'w' => 'a' case 'W' => ' '
      case c => c
    else item.c
  }

  lemma {:induction false} WitnessMatches(item: Item)
    requires WellFormedItem(item)
    ensures AtomMatchesChar(item.escaped, item.c, AtomWitness(item)) && AtomWitness(item) != '\0'
  {
  }

  function WitnessWord(items: seq<Item>): string
  {
    if items == [] then "" else [AtomWitness(items[0])] + WitnessWord(items[1..])
  }

  lemma {:induction false} WitnessWordInLanguage(items: seq<Item>)
    requires forall i :: 0 <= i < |items| ==> WellFormedItem(items[i])
    ensures InLanguage(items, WitnessWord(items)) && '\0' !in WitnessWord(items)
  {
    hide WellFormedItem, AtomWitness;
    if items != [] {
      WitnessMatches(items[0]);
      WitnessWordInLanguage(items[1..]);
      var w := WitnessWord(items);
      assert w[..1] == [AtomWitness(items[0])] && w[1..] == WitnessWord(items[1..]);
      hide AtomMatchesChar;
      assert ItemMatches(items[0], w[..1]);
    }
  }

  /** Every word ends with a character of the last item, if that item stands for just one. */
  lemma {:induction false} WordEndsWithLastItem(items: seq<Item>, w: string)
    requires items != [] && Last(items).repeat == Once && InLanguage(items, w)
    ensures w != "" && AtomMatchesChar(Last(items).escaped, Last(items).c, Last(w))
  {
    hide AtomMatchesChar;
    var k :| 0 <= k <= |w| && ItemMatches(items[0], w[..k]) && InLanguage(items[1..], w[k..]);
    if |items| == 1 {
      assert w == w[..k];
    } else {
      WordEndsWithLastItem(items[1..], w[k..]);
      assert Last(items[1..]) == Last(items) && Last(w[k..]) == Last(w);
    }
  }

  /** A full match means membership of the whole string, for all strings, exactly for the regexes that
      do not end in an escaped '$'. */
  lemma {:induction false} FullMatchExactIff(regex: CString)
    requires Parse(regex).Some?
    ensures (forall str: CString :: FullMatches(regex, str) <==> InLanguage(Parse(regex).value.tail.items, str))
            <==> !EndsInEscapedDollar(Parse(regex).value)
  {
    hide Parse, InLanguage, FullMatches, WellFormedItem, AtomMatchesChar;
    var r := Parse(regex).value;
    var items := r.tail.items;
    if EndsInEscapedDollar(r) {
      ShowAfterParse(regex);
      WitnessWordInLanguage(items);
      var w := WitnessWord(items);
      var str: CString := w + "x";
      assert str[..|w|] == w;
      FullMatchMeaning(regex, str);
      if InLanguage(items, str) {
        WordEndsWithLastItem(items, str);
        EscapedDollarMatches('x');
        assert false;
      }
      assert FullMatches(regex, str) && !InLanguage(items, str);
    } else {
      forall str: CString ensures FullMatches(regex, str) <==> InLanguage(items, str) {
        FullMatchMeaning(regex, str);
      }
    }
  }

  lemma {:induction false} EscapedDollarMatches(ch: char)
    ensures AtomMatchesChar(true, '$', ch) ==> ch == '$'
  {
  }

  // ----- the object

  class RE {
    var pattern: Option<CString>
    var fullPattern: Option<CString>
    var isValid: bool

    ghost predicate Valid()
      reads this
    {
      && (isValid <==> pattern.Some? && InGrammar(pattern.value))
      && (isValid ==> fullPattern == Some(FullPattern(pattern.value)))
    }

    constructor (regex: Option<CString>)
      ensures Valid() && pattern == regex
    {
      pattern, fullPattern, isValid := None, None, false;
      new;
      Init(regex);
    }

    method Init(regex: Option<CString>)
      modifies this
      ensures Valid() && pattern == regex
    {
      pattern, fullPattern := None, None;
      if regex != None {
        pattern := regex;
      }
      isValid := ValidateRegex(regex);
      if !isValid {
        return;
      }
      var full := WrapForFullMatch(regex.value);
      fullPattern := Some(full);
    }

    /** A null string matches nothing. */
    method FullMatch(str: Option<CString>) returns (b: bool)
      requires Valid() && (str.Some? ==> |str.value| < SIZE_MAX)
      ensures b <==> str.Some? && isValid && (ParsesIffInGrammar(pattern.value); FullMatches(pattern.value, str.value))
    {
      if !isValid { return false; }
      ParsesIffInGrammar(pattern.value);
      FullPatternParses(pattern.value);
      b := MatchRegexAnywhere(fullPattern, str);
    }

    method PartialMatch(str: Option<CString>) returns (b: bool)
      requires Valid() && (str.Some? ==> |str.value| < SIZE_MAX)
      ensures b <==> str.Some? && isValid && (ParsesIffInGrammar(pattern.value); MatchesSomewhere(Parse(pattern.value).value, str.value))
    {
      if !isValid { return false; }
      ParsesIffInGrammar(pattern.value);
      b := MatchRegexAnywhere(pattern, str);
    }
  }

  /** Writes the wrapped pattern and its terminator into a buffer. */
  method WrapForFullMatch(regex: CString) returns (full: CString)
    ensures full == FullPattern(regex)
  {
    var len := |regex|;
    var buffer := new char[len + 3](_ => '\0');
    var pos := 0;
    if At(regex, 0) != '^' {
      buffer[pos] := '^';
      pos := pos + 1;
    }
    ghost var start := buffer[..pos];
    forall i | 0 <= i < len {
      buffer[pos + i] := regex[i];
    }
    pos := pos + len;
    assert buffer[..pos] == start + regex;
    if len == 0 || regex[len - 1] != '$' {
      buffer[pos] := '$';
      pos := pos + 1;
    }
    buffer[pos] := '\0';
    full := buffer[..pos];
  }
}
