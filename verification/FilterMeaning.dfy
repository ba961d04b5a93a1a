/** What globs and filters select, said of the globs and filters as they are written. */
module FilterMeaning {
  import opened Wrappers
  import opened CStrings
  import opened TestFilter

  // ----- globs

  /** A glob of ordinary characters matches only itself. */
  lemma {:induction false} ExactGlob(w: string, s: string)
    requires !('?' in w) && !('*' in w)
    ensures GlobMatches(w, s) <==> s == w
  {
    hide GlobMatches;
    if w == "" {
      GlobNil(s);
    } else {
      assert [w[0]] + w[1..] == w;
      GlobOne(w[0], w[1..], s);
      if s != "" { ExactGlob(w[1..], s[1..]); }
      assert s != "" ==> s == [s[0]] + s[1..];
    }
  }

  lemma {:induction false} QuestionMeans(s: string)
    ensures GlobMatches("?", s) <==> |s| == 1
  {
    hide GlobMatches;
    assert ['?'] + "" == "?";
    GlobOne('?', "", s);
    if s != "" { GlobNil(s[1..]); }
  }

  lemma {:induction false} StarMeans(s: string)
    ensures GlobMatches("*", s)
  {
    hide GlobMatches;
    assert ['*'] + "" == "*" && s[|s|..] == "";
    GlobCons('*', "", s);
    GlobNil("");
    assert HeadFits('*', "", s, |s|);
  }

  /** One glob behind another matches what can be cut into a match of each. */
  lemma {:induction false} GlobsJoined(a: string, b: string, s: string)
    ensures GlobMatches(a + b, s) <==> exists k :: 0 <= k <= |s| && GlobMatches(a, s[..k]) && GlobMatches(b, s[k..])
    decreases |a|, 1
  {
    hide GlobMatches, PartFits;
    if a == "" {
      assert a + b == b && s[..0] == "" && s[0..] == s;
      GlobNil("");
      forall k | 0 <= k <= |s| ensures GlobMatches(a, s[..k]) <==> s[..k] == "" { GlobNil(s[..k]); }
    } else {
      var c, rest := a[0], a[1..];
      assert [c] + rest == a && [c] + (rest + b) == a + b;
      GlobCons(c, rest + b, s);
      if GlobMatches(a + b, s) {
        var n: nat :| HeadFits(c, rest + b, s, n);
        GlobsJoined(rest, b, s[n..]);
        var k :| 0 <= k <= |s[n..]| && GlobMatches(rest, s[n..][..k]) && GlobMatches(b, s[n..][k..]);
        assert s[..n + k][..n] == s[..n] && s[..n + k][n..] == s[n..][..k] && s[n + k..] == s[n..][k..];
        assert HeadFits(c, rest, s[..n + k], n);
        GlobCons(c, rest, s[..n + k]);
      }
      if k :| 0 <= k <= |s| && GlobMatches(a, s[..k]) && GlobMatches(b, s[k..]) { GlobsMeet(a, b, s, k); }
    }
  }

  lemma {:induction false} GlobsMeet(a: string, b: string, s: string, k: nat)
    requires a != "" && k <= |s| && GlobMatches(a, s[..k]) && GlobMatches(b, s[k..])
    ensures GlobMatches(a + b, s)
    decreases |a|, 0
  {
    hide GlobMatches, PartFits;
    var c, rest := a[0], a[1..];
    assert [c] + rest == a && [c] + (rest + b) == a + b;
    GlobCons(c, rest, s[..k]);
    var n: nat :| HeadFits(c, rest, s[..k], n);
    assert s[..k][..n] == s[..n] && s[..k][n..] == s[n..][..k - n] && s[k..] == s[n..][k - n..];
    GlobsJoined(rest, b, s[n..]);
    assert HeadFits(c, rest + b, s, n);
    GlobCons(c, rest + b, s);
  }

  lemma {:induction false} PrefixGlob(w: string, s: string)
    requires !('?' in w) && !('*' in w)
    ensures GlobMatches(w + "*", s) <==> w <= s
  {
    hide GlobMatches;
    GlobsJoined(w, "*", s);
    forall k | 0 <= k <= |s|
      ensures GlobMatches(w, s[..k]) <==> s[..k] == w
      ensures GlobMatches("*", s[k..])
    {
      ExactGlob(w, s[..k]);
      StarMeans(s[k..]);
    }
    if w <= s { assert s[..|w|] == w; }
  }

  lemma {:induction false} SuffixGlob(w: string, s: string)
    requires !('?' in w) && !('*' in w)
    ensures GlobMatches("*" + w, s) <==> |w| <= |s| && s[|s| - |w|..] == w
  {
    hide GlobMatches;
    GlobsJoined("*", w, s);
    forall k | 0 <= k <= |s|
      ensures GlobMatches("*", s[..k])
      ensures GlobMatches(w, s[k..]) <==> s[k..] == w
    {
      StarMeans(s[..k]);
      ExactGlob(w, s[k..]);
    }
    if k :| 0 <= k <= |s| && GlobMatches(w, s[k..]) { assert k == |s| - |w|; }
  }

  /** `w` stands somewhere in `s`. */
  ghost predicate Contains(s: string, w: string)
  {
    exists k :: 0 <= k <= |s| && w <= s[k..]
  }

  lemma {:induction false} InnerGlob(w: string, s: string)
    requires !('?' in w) && !('*' in w)
    ensures GlobMatches("*" + w + "*", s) <==> Contains(s, w)
  {
    hide GlobMatches;
    assert "*" + w + "*" == "*" + (w + "*");
    GlobsJoined("*", w + "*", s);
    forall k | 0 <= k <= |s|
      ensures GlobMatches("*", s[..k])
      ensures GlobMatches(w + "*", s[k..]) <==> w <= s[k..]
    {
      StarMeans(s[..k]);
      PrefixGlob(w, s[k..]);
    }
  }

  // ----- filters

  /** A filter without a colon is one glob; a colon separates alternatives. */
  lemma {:induction false} FiltersJoined(name: string, a: string, b: string)
    ensures !(':' in a) ==> (AnyGlobMatches(name, a) <==> GlobMatches(a, name))
    ensures AnyGlobMatches(name, a + ":" + b) <==> AnyGlobMatches(name, a) || AnyGlobMatches(name, b)
  {
    hide GlobMatches, Globs;
    if !(':' in a) {
      assert PatternEnd(a, 0) == |a| && a[0..|a|] == a;
      GlobsUnfold(a, 0);
    }
    GlobsOfJoined(a, b, 0);
    var l, r := Globs(a, 0), Globs(b, 0);
    assert forall g :: g in l + r <==> g in l || g in r;
  }

  lemma {:induction false} PatternEndIs(p: string, i: nat, e: nat)
    requires i <= e <= |p| && (forall k :: i <= k < e ==> p[k] != ':') && (e < |p| ==> p[e] == ':')
    ensures PatternEnd(p, i) == e
  {
  }

  lemma {:induction false} GlobsOfJoined(a: string, b: string, i: nat)
    requires i <= |a|
    ensures Globs(a + ":" + b, i) == Globs(a, i) + Globs(b, 0)
    decreases |a| - i
  {
    hide Globs, PatternEnd;
    var all := a + ":" + b;
    var e := PatternEnd(a, i);
    assert forall k :: 0 <= k < |a| ==> all[k] == a[k];
    assert all[|a|] == ':';
    PatternEndIs(all, i, e);
    GlobsUnfold(a, i);
    GlobsUnfold(all, i);
    assert all[i..e] == a[i..e] by { assert all[..|a|] == a && all[i..e] == all[..|a|][i..e]; }
    if e == |a| {
      assert all[|a| + 1..] == b;
      GlobsFrom(all, |a| + 1, b, 0);
    } else {
      GlobsOfJoined(a, b, e + 1);
      assert [a[i..e]] + (Globs(a, e + 1) + Globs(b, 0)) == [a[i..e]] + Globs(a, e + 1) + Globs(b, 0);
    }
  }

  /** Globs depend only on the rest of the filter. */
  lemma {:induction false} GlobsFrom(s: string, i: nat, rest: string, j: nat)
    requires i <= |s| && rest == s[i..] && j <= |rest|
    ensures Globs(s, i + j) == Globs(rest, j)
    decreases |rest| - j
  {
    hide Globs, PatternEnd;
    var e := PatternEnd(rest, j);
    assert forall k :: j <= k < |rest| ==> s[i + k] == rest[k];
    PatternEndIs(s, i + j, i + e);
    GlobsUnfold(s, i + j);
    GlobsUnfold(rest, j);
    assert s[i + j..i + e] == rest[j..e];
    if e < |rest| { GlobsFrom(s, i, rest, e + 1); }
  }

  /** The flag without a dash, with one behind what is asked for, and with nothing before it. */
  lemma {:induction false} FlagMeans(p: string, n: string, name: string)
    requires !('-' in p)
    ensures SelectedBy(p, name) <==> AnyGlobMatches(name, p)
    ensures p != "" ==> (SelectedBy(p + "-" + n, name) <==> AnyGlobMatches(name, p) && !AnyGlobMatches(name, n))
    ensures SelectedBy("-" + n, name) <==> !AnyGlobMatches(name, n)
  {
    hide AnyGlobMatches;
    assert Dash(p) == |p|;
    var flag := p + "-" + n;
    assert flag[|p|] == '-' && forall k :: 0 <= k < |p| ==> flag[k] == p[k];
    assert Dash(flag) == |p| && flag[..|p|] == p && flag[|p| + 1..] == n;
    assert ("-" + n)[0] == '-' && ("-" + n)[1..] == n;
    assert Dash("-" + n) == 0;
  }
}
