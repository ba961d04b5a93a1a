/** Which tests run: glob patterns, colon-separated filters, and the flag with its negative part. */
module TestFilter {
  import opened Wrappers
  import opened CStrings

  // ----- globs

  /** What one character of a glob may stand for. */
  predicate PartFits(c: char, w: string)
  {
    if c == '?' then |w| == 1 else if c == '*' then true else w == [c]
  }

  function Flatten(parts: seq<string>): string
  {
    if parts == [] then "" else parts[0] + Flatten(parts[1..])
  }

  ghost predicate Fits(glob: string, parts: seq<string>)
  {
    |parts| == |glob| && forall i :: 0 <= i < |glob| ==> PartFits(glob[i], parts[i])
  }

  /** The string is cut into parts, one for each character of the glob. */
  ghost predicate GlobMatches(glob: string, str: string)
  {
    exists parts :: Fits(glob, parts) && Flatten(parts) == str
  }

  lemma {:induction false} GlobNil(str: string)
    ensures GlobMatches("", str) <==> str == ""
  {
    if str == "" { assert Fits("", []) && Flatten([]) == str; }
  }

  ghost predicate HeadFits(c: char, glob: string, str: string, k: nat)
  {
    k <= |str| && PartFits(c, str[..k]) && GlobMatches(glob, str[k..])
  }

  lemma {:induction false} GlobCons(c: char, glob: string, str: string)
    ensures GlobMatches([c] + glob, str) <==> exists k: nat :: HeadFits(c, glob, str, k)
  {
    if GlobMatches([c] + glob, str) {
      var parts :| Fits([c] + glob, parts) && Flatten(parts) == str;
      var k := |parts[0]|;
      assert str[..k] == parts[0] && str[k..] == Flatten(parts[1..]);
      assert Fits(glob, parts[1..]) by {
        forall i | 0 <= i < |glob| ensures PartFits(glob[i], parts[1..][i]) {
          assert PartFits(([c] + glob)[i + 1], parts[i + 1]);
        }
      }
      assert PartFits(([c] + glob)[0], parts[0]);
      assert HeadFits(c, glob, str, k);
    }
    if k: nat :| HeadFits(c, glob, str, k) {
      var parts :| Fits(glob, parts) && Flatten(parts) == str[k..];
      var all := [str[..k]] + parts;
      assert all[1..] == parts;
      assert Fits([c] + glob, all);
      assert Flatten(all) == str;
    }
  }

  lemma {:induction false} GlobOne(c: char, glob: string, str: string)
    requires c != '*'
    ensures GlobMatches([c] + glob, str) <==> str != "" && (c == '?' || c == str[0]) && GlobMatches(glob, str[1..])
  {
    GlobCons(c, glob, str);
    if str != "" && (c == '?' || c == str[0]) && GlobMatches(glob, str[1..]) {
      assert str[..1] == [str[0]];
      assert HeadFits(c, glob, str, 1);
    }
  }

  lemma {:induction false} GlobStar(glob: string, str: string)
    ensures GlobMatches(['*'] + glob, str) <==>
            GlobMatches(glob, str) || (str != "" && GlobMatches(['*'] + glob, str[1..]))
  {
    GlobCons('*', glob, str);
    assert str[0..] == str;
    if str != "" { GlobCons('*', glob, str[1..]); }
    if GlobMatches(glob, str) { assert HeadFits('*', glob, str, 0); }
    if k: nat :| str != "" && HeadFits('*', glob, str[1..], k) {
      assert str[1..][k..] == str[k + 1..];
      assert HeadFits('*', glob, str, k + 1);
    }
    if k: nat :| HeadFits('*', glob, str, k) {
      if k > 0 {
        assert str[1..][k - 1..] == str[k..];
        assert HeadFits('*', glob, str[1..], k - 1);
      }
    }
  }

  /** The first ':' at or after i, or the end. */
  function PatternEnd(p: string, i: nat): (e: nat)
    requires i <= |p|
    ensures i <= e <= |p| && (forall k :: i <= k < e ==> p[k] != ':') && (e < |p| ==> p[e] == ':')
    decreases |p| - i
  {
    if i == |p| || p[i] == ':' then i else PatternEnd(p, i + 1)
  }

  /** The recursive matcher. */
  predicate PatternMatchesString(pattern: CString, pi: nat, str: CString, si: nat)
    requires pi <= |pattern| && si <= |str|
    decreases |pattern| - pi + |str| - si
  {
    match At(pattern, pi)
    case '\0' => At(str, si) == '\0'
    case ':' => At(str, si) == '\0'
    case '?' => At(str, si) != '\0' && pi < |pattern| && si < |str| && PatternMatchesString(pattern, pi + 1, str, si + 1)
    case '*' =>
      || (At(str, si) != '\0' && si < |str| && PatternMatchesString(pattern, pi, str, si + 1))
      || (pi < |pattern| && PatternMatchesString(pattern, pi + 1, str, si))
    case c => c == At(str, si) && pi < |pattern| && si < |str| && PatternMatchesString(pattern, pi + 1, str, si + 1)
  }

  /** The matcher decides the glob that ends at the next colon, on the rest of the string. */
  lemma {:induction false} PatternMatchesIffGlob(pattern: CString, pi: nat, str: CString, si: nat)
    requires pi <= |pattern| && si <= |str|
    ensures PatternMatchesString(pattern, pi, str, si) <==> GlobMatches(pattern[pi..PatternEnd(pattern, pi)], str[si..])
    decreases |pattern| - pi + |str| - si
  {
    hide GlobMatches;
    TerminatorIsEnd(pattern, pi);
    TerminatorIsEnd(str, si);
    var e := PatternEnd(pattern, pi);
    var glob, rest := pattern[pi..e], str[si..];
    if pi == e {
      assert glob == "";
      GlobNil(rest);
    } else {
      var c, glob1 := pattern[pi], pattern[pi + 1..e];
      assert glob == [c] + glob1 && e == PatternEnd(pattern, pi + 1);
      if si < |str| { assert rest[1..] == str[si + 1..] && rest[0] == str[si]; }
      if c == '*' {
        GlobStar(glob1, rest);
        PatternMatchesIffGlob(pattern, pi + 1, str, si);
        if si < |str| { PatternMatchesIffGlob(pattern, pi, str, si + 1); }
      } else {
        GlobOne(c, glob1, rest);
        if si < |str| { PatternMatchesIffGlob(pattern, pi + 1, str, si + 1); }
      }
    }
  }

  // ----- filters

  /** The globs of a filter from place i on. */
  function Globs(filter: string, i: nat): seq<string>
    requires i <= |filter|
    decreases |filter| - i
  {
    var e := PatternEnd(filter, i);
    [filter[i..e]] + (if e == |filter| then [] else Globs(filter, e + 1))
  }

  /** Some glob of the filter matches the whole name. */
  ghost predicate AnyGlobMatches(name: string, filter: string)
  {
    exists g :: g in Globs(filter, 0) && GlobMatches(g, name)
  }

  /** The same, glob by glob from place i on. */
  ghost predicate AnyFrom(name: string, filter: string, i: nat)
    requires i <= |filter|
    decreases |filter| - i
  {
    var e := PatternEnd(filter, i);
    GlobMatches(filter[i..e], name) || (e < |filter| && AnyFrom(name, filter, e + 1))
  }

  lemma {:induction false} GlobsUnfold(filter: string, i: nat)
    requires i <= |filter|
    ensures var e := PatternEnd(filter, i);
            Globs(filter, i) == [filter[i..e]] + (if e == |filter| then [] else Globs(filter, e + 1))
  {
  }

  lemma {:induction false} AnyFromIsAny(name: string, filter: string, i: nat)
    requires i <= |filter|
    ensures AnyFrom(name, filter, i) <==> exists g :: g in Globs(filter, i) && GlobMatches(g, name)
    decreases |filter| - i
  {
    hide GlobMatches, Globs;
    GlobsUnfold(filter, i);
    var e := PatternEnd(filter, i);
    var g0 := filter[i..e];
    var rest := if e == |filter| then [] else Globs(filter, e + 1);
    if e < |filter| { AnyFromIsAny(name, filter, e + 1); }
    if AnyFrom(name, filter, i) {
      if GlobMatches(g0, name) {
        assert g0 in [g0] + rest;
      } else {
        var g :| g in rest && GlobMatches(g, name);
        assert g in [g0] + rest;
      }
    }
    if g :| g in [g0] + rest && GlobMatches(g, name) {
      assert g == g0 || g in rest;
    }
  }

  method MatchesFilter(name: CString, filter: CString) returns (b: bool)
    ensures b <==> AnyGlobMatches(name, filter)
  {
    hide GlobMatches, PatternMatchesString, Globs;
    AnyFromIsAny(name, filter, 0);
    assert name[0..] == name;
    var cur := 0;
    while true
      invariant 0 <= cur <= |filter|
      invariant AnyGlobMatches(name, filter) <==> AnyFrom(name, filter, cur)
      decreases |filter| - cur
    {
      PatternMatchesIffGlob(filter, cur, name, 0);
      var matched := PatternMatchesString(filter, cur, name, 0);
      if matched { return true; }
      var colon := StrChr(filter, cur, ':');
      if colon == None { return false; }
      assert colon.value == PatternEnd(filter, cur);
      cur := colon.value + 1;
    }
  }

  method StrChr(s: CString, from: nat, c: char) returns (r: Option<nat>)
    requires from <= |s|
    ensures r.Some? ==> from <= r.value < |s| && s[r.value] == c && forall k :: from <= k < r.value ==> s[k] != c
    ensures r.None? ==> forall k :: from <= k < |s| ==> s[k] != c
  {
    for i := from to |s|
      invariant forall k :: from <= k < i ==> s[k] != c
    {
      if s[i] == c { return Some(i); }
    }
    return None;
  }

  /** The place of the first dash, or the end. */
  function Dash(flag: string): (d: nat)
    ensures d <= |flag| && (forall k :: 0 <= k < d ==> flag[k] != '-') && (d < |flag| ==> flag[d] == '-')
  {
    if flag == "" || flag[0] == '-' then 0 else 1 + Dash(flag[1..])
  }

  /** What the filter flag asks for: a match with what precedes the first dash, if there is anything, and
      none with what follows it. */
  ghost predicate SelectedBy(flag: string, fullName: string)
  {
    var d := Dash(flag);
    if d == |flag| then AnyGlobMatches(fullName, flag)
    else (d == 0 || AnyGlobMatches(fullName, flag[..d])) && !AnyGlobMatches(fullName, flag[d + 1..])
  }

  lemma {:induction false} StarMatchesAll(name: string)
    ensures AnyGlobMatches(name, "*")
  {
    GlobCons('*', "", name);
    GlobNil("");
    assert name[|name|..] == "" && HeadFits('*', "", name, |name|);
    assert ['*'] + "" == "*";
    assert Globs("*", 0)[0] == "*";
  }

  /** Without a dash the negative part is empty, and an empty filter matches no name with a dot in it. */
  lemma {:induction false} EmptyFilterMatchesNothing(name: string)
    requires name != ""
    ensures !AnyGlobMatches(name, "")
  {
    GlobNil(name);
    assert Globs("", 0) == [""];
  }

  method FilterMatchesTest(testCaseName: CString, testName: CString, flag: CString) returns (b: bool)
    ensures b <==> SelectedBy(flag, testCaseName + "." + testName)
  {
    hide AnyGlobMatches;
    var fullName: CString := testCaseName + "." + testName;
    var dash := StrChr(flag, 0, '-');
    var positive: CString, negative: CString;
    assert dash == None <==> Dash(flag) == |flag|;
    if dash == None {
      positive := flag;
      negative := "";
      EmptyFilterMatchesNothing(fullName);
    } else {
      assert dash.value == Dash(flag);
      positive := flag[..dash.value];
      negative := flag[dash.value + 1..];
      if positive == "" {
        // Only exclusions are given.
        positive := "*";
        StarMatchesAll(fullName);
      }
    }
    var p := MatchesFilter(fullName, positive);
    var n := MatchesFilter(fullName, negative);
    return p && !n;
  }
}
