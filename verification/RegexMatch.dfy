/** The language of a simple regular expression, the matcher, and the wrapper for full matches. */
module RegexMatch {
  import opened Wrappers
  import opened CStrings
  import opened RegexSyntax

  // ----- the language

  predicate RepeatAllows(r: Repeat, n: nat)
  {
    match r case Once => n == 1 case Optional => n <= 1 case Star => true case Plus => n >= 1
  }

  /** `w` is a number of characters the repetition allows, each matched by the atom. */
  ghost predicate ItemMatches(item: Item, w: string)
  {
    RepeatAllows(item.repeat, |w|) && forall k :: 0 <= k < |w| ==> AtomMatchesChar(item.escaped, item.c, w[k])
  }

  /** `w` is a concatenation of words, one for each item. */
  ghost predicate InLanguage(items: seq<Item>, w: string)
  {
    if items == [] then w == ""
    else exists k | 0 <= k <= |w| :: ItemMatches(items[0], w[..k]) && InLanguage(items[1..], w[k..])
  }

  /** Some stretch of `str` beginning at `j` is in the language; at the end of `str` if the expression
      asks for it. */
  ghost predicate MatchesAt(t: Tail, str: string, j: nat)
  {
    exists k :: j <= k <= |str| && InLanguage(t.items, str[j..k]) && (t.atEnd ==> k == |str|)
  }

  ghost predicate MatchesSomewhere(r: Regex, str: string)
  {
    if r.atStart then MatchesAt(r.tail, str, 0)
    else exists j :: 0 <= j <= |str| && MatchesAt(r.tail, str, j)
  }

  /** `n` characters from `j` on are matched by the atom. */
  ghost predicate AtomRun(escaped: bool, c: char, str: string, j: nat, n: nat)
  {
    j + n <= |str| && forall p :: j <= p < j + n ==> AtomMatchesChar(escaped, c, str[p])
  }

  /** A run the item allows, followed by a match of the rest. */
  ghost predicate RunThenMatch(item: Item, t: Tail, str: string, j: nat, n: nat)
  {
    && RepeatAllows(item.repeat, n)
    && AtomRun(item.escaped, item.c, str, j, n)
    && MatchesAt(t, str, j + n)
  }

  lemma {:induction false} LanguageCons(item: Item, rest: seq<Item>, w: string)
    ensures InLanguage([item] + rest, w) <==>
            exists k | 0 <= k <= |w| :: ItemMatches(item, w[..k]) && InLanguage(rest, w[k..])
  {
    assert ([item] + rest)[1..] == rest;
  }

  lemma {:induction false} RunIsWord(item: Item, str: string, j: nat, n: nat)
    requires j + n <= |str|
    ensures ItemMatches(item, str[j..j + n]) <==> RepeatAllows(item.repeat, n) && AtomRun(item.escaped, item.c, str, j, n)
  {
    if AtomRun(item.escaped, item.c, str, j, n) {
      assert forall p :: j <= p < j + n ==> str[j..j + n][p - j] == str[p];
    }
    if ItemMatches(item, str[j..j + n]) {
      assert forall p :: j <= p < j + n ==> str[p] == str[j..j + n][p - j];
    }
  }

  lemma {:induction false} SplitMatch(item: Item, t: Tail, str: string, j: nat) returns (n: nat)
    requires j <= |str| && MatchesAt(Tail([item] + t.items, t.atEnd), str, j)
    ensures RunThenMatch(item, t, str, j, n)
  {
    hide InLanguage, ItemMatches, AtomRun, RepeatAllows;
    var k :| j <= k <= |str| && InLanguage([item] + t.items, str[j..k]) && (t.atEnd ==> k == |str|);
    var w := str[j..k];
    LanguageCons(item, t.items, w);
    n :| 0 <= n <= |w| && ItemMatches(item, w[..n]) && InLanguage(t.items, w[n..]);
    assert w[..n] == str[j..j + n] && w[n..] == str[j + n..k];
    RunIsWord(item, str, j, n);
  }

  lemma {:induction false} JoinMatch(item: Item, t: Tail, str: string, j: nat, n: nat)
    requires j <= |str| && RunThenMatch(item, t, str, j, n)
    ensures MatchesAt(Tail([item] + t.items, t.atEnd), str, j)
  {
    hide InLanguage, ItemMatches, RepeatAllows;
    var k :| j + n <= k <= |str| && InLanguage(t.items, str[j + n..k]) && (t.atEnd ==> k == |str|);
    var w := str[j..k];
    assert w[..n] == str[j..j + n] && w[n..] == str[j + n..k];
    RunIsWord(item, str, j, n);
    LanguageCons(item, t.items, w);
  }

  /** A match begins with a run of the first item and goes on with a match of the rest. */
  lemma {:induction false} MatchSplits(item: Item, t: Tail, str: string, j: nat)
    requires j <= |str|
    ensures MatchesAt(Tail([item] + t.items, t.atEnd), str, j) <==> exists n: nat :: RunThenMatch(item, t, str, j, n)
  {
    hide MatchesAt, RunThenMatch;
    if MatchesAt(Tail([item] + t.items, t.atEnd), str, j) {
      var n := SplitMatch(item, t, str, j);
    }
    if n: nat :| RunThenMatch(item, t, str, j, n) {
      JoinMatch(item, t, str, j, n);
    }
  }

  lemma {:induction false} EmptyTailMatches(t: Tail, str: string, j: nat)
    requires t.items == [] && j <= |str|
    ensures MatchesAt(t, str, j) <==> t.atEnd ==> j == |str|
  {
    if t.atEnd ==> j == |str| {
      assert str[j..j] == "";
      assert InLanguage(t.items, str[j..j]);
    }
  }

  // ----- the matcher

  const SIZE_MAX: nat := 0xFFFF_FFFF_FFFF_FFFF

  /** The expression from place `ri` on, as parsed. */
  ghost predicate Reads(regex: CString, ri: nat, t: Tail)
  {
    ri <= |regex| && ParseTail(regex, ri) == Some(t)
  }

  method MatchRegexAtHead(regex: CString, ri: nat, str: CString, j: nat, ghost t: Tail) returns (b: bool)
    requires Reads(regex, ri, t) && j <= |str| < SIZE_MAX
    ensures b <==> MatchesAt(t, str, j)
    decreases |regex| - ri, 1
  {
    hide IsPlain, IsValidEscape, InLanguage;
    TerminatorIsEnd(regex, ri);
    TerminatorIsEnd(str, j);
    if At(regex, ri) == '\0' {
      EmptyTailMatches(t, str, j);
      return true;
    }
    if regex[ri] == '$' {
      EmptyTailMatches(t, str, j);
      return At(str, j) == '\0';
    }
    var escaped := regex[ri] == '\\';
    var r := if escaped then ri + 1 else ri;
    ghost var (item, next) := ParseItem(regex, ri).value;
    ghost var rest := ParseTail(regex, next).value;
    RepeatIsRepeat(At(regex, r + 1));
    if IsRepeat(At(regex, r + 1)) {
      b := MatchRepetitionAndRegexAtHead(escaped, At(regex, r), At(regex, r + 1), regex, r + 2, str, j, rest);
    } else {
      MatchSplits(item, rest, str, j);
      OneCharacter(item, str, j);
      assert RunThenMatch(item, rest, str, j, 1) <==> exists n: nat :: RunThenMatch(item, rest, str, j, n);
      if At(str, j) != '\0' && AtomMatchesChar(escaped, At(regex, r), At(str, j)) {
        b := MatchRegexAtHead(regex, r + 1, str, j + 1, rest);
      } else {
        b := false;
      }
    }
  }

  lemma {:induction false} RepeatIsRepeat(ch: char)
    ensures IsRepeat(ch) <==> RepeatOf(ch) != Once
  {
  }

  lemma {:induction false} OneCharacter(item: Item, str: CString, j: nat)
    requires j <= |str|
    ensures AtomRun(item.escaped, item.c, str, j, 1) <==>
            At(str, j) != '\0' && AtomMatchesChar(item.escaped, item.c, At(str, j))
  {
    if j < |str| { assert str[j] in str; }
  }

  /** Tries ever longer runs of the atom. */
  method MatchRepetitionAndRegexAtHead(escaped: bool, c: char, repeat: char, regex: CString, ri: nat, str: CString, j: nat, ghost t: Tail)
    returns (b: bool)
    requires IsRepeat(repeat) && Reads(regex, ri, t) && j <= |str| < SIZE_MAX
    ensures b <==> MatchesAt(Tail([Item(escaped, c, RepeatOf(repeat))] + t.items, t.atEnd), str, j)
    decreases |regex| - ri, 2
  {
    hide Reads, InLanguage, MatchesAt, AtomMatchesChar;
    var minCount := if repeat == '+' then 1 else 0;
    var maxCount := if repeat == '?' then 1 else SIZE_MAX - 1;
    ghost var item := Item(escaped, c, RepeatOf(repeat));
    RepeatBounds(repeat);
    MatchSplits(item, t, str, j);
    var i := 0;
    while i <= maxCount
      invariant AtomRun(escaped, c, str, j, i)
      invariant forall n: nat :: n < i ==> !RunThenMatch(item, t, str, j, n)
      decreases |str| - j - i
    {
      if i >= minCount {
        var found := MatchRegexAtHead(regex, ri, str, j + i, t);
        if found {
          assert RunThenMatch(item, t, str, j, i);
          return true;
        }
      }
      if At(str, j + i) == '\0' || !AtomMatchesChar(escaped, c, At(str, j + i)) {
        RunEnds(escaped, c, str, j, i);
        return false;
      }
      i := i + 1;
    }
    return false;
  }

  lemma {:induction false} RepeatBounds(repeat: char)
    requires IsRepeat(repeat)
    ensures forall n: nat :: RepeatAllows(RepeatOf(repeat), n) <==> (repeat == '+' ==> 1 <= n) && (repeat == '?' ==> n <= 1)
  {
  }

  lemma {:induction false} RunEnds(escaped: bool, c: char, str: CString, j: nat, i: nat)
    requires j + i <= |str| && (At(str, j + i) == '\0' || !AtomMatchesChar(escaped, c, At(str, j + i)))
    ensures forall n: nat :: n > i ==> !AtomRun(escaped, c, str, j, n)
  {
    if j + i < |str| { assert str[j + i] in str; }
  }

  /** Either pointer may be null. */
  method MatchRegexAnywhere(regex: Option<CString>, str: Option<CString>) returns (b: bool)
    requires regex.Some? ==> Parse(regex.value).Some?
    requires str.Some? ==> |str.value| < SIZE_MAX
    ensures b <==> regex.Some? && str.Some? && MatchesSomewhere(Parse(regex.value).value, str.value)
  {
    hide MatchesAt, ParseTail;
    if regex == None || str == None {
      return false;
    }
    var re, s := regex.value, str.value;
    ghost var t := Parse(re).value.tail;
    if At(re, 0) == '^' {
      b := MatchRegexAtHead(re, 1, s, 0, t);
      return;
    }
    var j := 0;
    while true
      invariant 0 <= j <= |s|
      invariant forall k :: 0 <= k < j ==> !MatchesAt(t, s, k)
      decreases |s| - j
    {
      var found := MatchRegexAtHead(re, 0, s, j, t);
      if found { return true; }
      if At(s, j) == '\0' { break; }
      j := j + 1;
    }
    TerminatorIsEnd(s, j);
    return false;
  }
}
