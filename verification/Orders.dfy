/** Orders of registered things, as sequences of indices, and what is joined together in a given order. */
module Orders {
  import opened Wrappers
  import opened Shuffling

  /** The order 0, 1, .., n - 1. */
  function InOrder(n: nat): (s: seq<nat>)
    ensures |s| == n && forall i :: 0 <= i < n ==> s[i] == i
  {
    seq(n, i => i)
  }

  lemma {:induction false} InOrderSnoc(n: nat)
    ensures InOrder(n + 1) == InOrder(n) + [n]
  {
  }

  /** A reordering of 0, 1, .., n - 1. */
  predicate IsOrder(s: seq<nat>, n: nat)
  {
    |s| == n && multiset(s) == multiset(InOrder(n))
  }

  lemma {:induction false} OrderStaysInRange(s: seq<nat>, n: nat, i: nat)
    requires IsOrder(s, n) && i < n
    ensures s[i] < n
  {
    assert s[i] in multiset(s);
  }

  lemma {:induction false} OrderGrows(s: seq<nat>, n: nat)
    requires IsOrder(s, n)
    ensures IsOrder(s + [n], n + 1)
  {
    InOrderSnoc(n);
  }

  lemma {:induction false} ShuffledOrderIsOrder(s: seq<nat>, n: nat, state: nat)
    requires IsOrder(s, n)
    ensures IsOrder(ShuffledRange(s, 0, n, state), n)
  {
    RangeOnly(s, 0, n, state);
    var t := ShuffledRange(s, 0, n, state);
    assert t[0..n] == t && s[0..n] == s;
  }

  // ----- parts joined in a given order

  predicate InRange(order: seq<nat>, n: nat)
  {
    forall k :: 0 <= k < |order| ==> order[k] < n
  }

  function Joined<T>(parts: seq<seq<T>>, order: seq<nat>): seq<T>
    requires InRange(order, |parts|)
  {
    if order == [] then [] else Joined(parts, Front(order)) + parts[Last(order)]
  }

  function Without<T>(s: seq<T>, p: nat): seq<T>
    requires p < |s|
  {
    s[..p] + s[p + 1..]
  }

  lemma {:induction false} WithoutElement<T>(s: seq<T>, p: nat)
    requires p < |s|
    ensures multiset(s) == multiset(Without(s, p)) + multiset{s[p]}
  {
    assert s == s[..p] + [s[p]] + s[p + 1..];
  }

  lemma {:induction false} JoinedWithout<T>(parts: seq<seq<T>>, order: seq<nat>, p: nat)
    requires InRange(order, |parts|) && p < |order|
    ensures InRange(Without(order, p), |parts|)
    ensures multiset(Joined(parts, order)) == multiset(Joined(parts, Without(order, p))) + multiset(parts[order[p]])
  {
    hide Joined;
    var front, rest := Front(order), Without(order, p);
    JoinedSnoc(parts, front, Last(order));
    assert order == front + [Last(order)];
    if p == |order| - 1 {
      assert rest == front;
    } else {
      JoinedWithout(parts, front, p);
      JoinedSnoc(parts, Without(front, p), Last(order));
      assert rest == Without(front, p) + [Last(order)];
    }
  }

  lemma {:induction false} NothingJoined<T>(parts: seq<seq<T>>)
    ensures Joined(parts, []) == []
  {
  }

  lemma {:induction false} JoinedSnoc<T>(parts: seq<seq<T>>, order: seq<nat>, x: nat)
    requires InRange(order, |parts|) && x < |parts|
    ensures InRange(order + [x], |parts|) && Joined(parts, order + [x]) == Joined(parts, order) + parts[x]
  {
    FrontLast(order, x);
  }

  /** The order of the parts does not change which elements are joined. */
  lemma {:induction false} JoinedRearranged<T>(parts: seq<seq<T>>, a: seq<nat>, b: seq<nat>)
    requires InRange(a, |parts|) && InRange(b, |parts|) && multiset(a) == multiset(b)
    ensures multiset(Joined(parts, a)) == multiset(Joined(parts, b))
  {
    if a == [] {
      assert |multiset(b)| == 0;
    } else {
      LastIsIn(b, a);
      var p: nat :| p < |b| && b[p] == Last(a);
      FrontAndLast(a);
      WithoutElement(b, p);
      SumCancels(multiset(Front(a)), multiset(Without(b, p)), b[p]);
      JoinedWithout(parts, b, p);
      JoinedRearranged(parts, Front(a), Without(b, p));
    }
  }

  lemma {:induction false} JoinedSplits<T>(parts: seq<seq<T>>, a: seq<nat>, b: seq<nat>)
    requires InRange(a, |parts|) && InRange(b, |parts|)
    ensures InRange(a + b, |parts|) && Joined(parts, a + b) == Joined(parts, a) + Joined(parts, b)
  {
    hide Joined;
    if b == [] {
      NothingJoined(parts);
      assert a + b == a;
    } else {
      JoinedSplits(parts, a, Front(b));
      JoinedSnoc(parts, Front(b), Last(b));
      JoinedSnoc(parts, a + Front(b), Last(b));
      assert Front(b) + [Last(b)] == b && a + Front(b) + [Last(b)] == a + b;
    }
  }

  // ----- orders that keep the first `d` cases first

  ghost predicate Ordered(s: seq<nat>, d: nat, n: nat)
  {
    d <= n == |s| && multiset(s[..d]) == multiset(InOrder(n)[..d]) && multiset(s[d..]) == multiset(InOrder(n)[d..])
  }

  lemma {:induction false} OrderedIsOrder(s: seq<nat>, d: nat, n: nat)
    requires Ordered(s, d, n)
    ensures IsOrder(s, n) && InRange(s, n)
  {
    assert s == s[..d] + s[d..] && InOrder(n) == InOrder(n)[..d] + InOrder(n)[d..];
    OrderInRange(s, n);
  }

  lemma {:induction false} OrderInRange(s: seq<nat>, n: nat)
    requires IsOrder(s, n)
    ensures |s| == n && InRange(s, n)
  {
    forall i | 0 <= i < n ensures s[i] < n { OrderStaysInRange(s, n, i); }
  }

  /** Positions before `d` hold indices below `d`, the others the rest. */
  lemma {:induction false} OrderedSplits(s: seq<nat>, d: nat, n: nat, i: nat)
    requires Ordered(s, d, n) && i < n
    ensures s[i] < n && (s[i] < d <==> i < d)
  {
    OrderedIsOrder(s, d, n);
    if i < d {
      assert s[..d][i] in multiset(s[..d]);
    } else {
      assert s[d..][i - d] in multiset(s[d..]);
    }
  }

  function ShuffledCases(s: seq<nat>, d: nat, state: nat): seq<nat>
    requires d <= |s|
  {
    RangeOnly(s, 0, d, state);
    ShuffledRange(ShuffledRange(s, 0, d, state), d, |s|, StateAfter(state, d))
  }

  lemma {:induction false} ShuffledCasesOrdered(s: seq<nat>, d: nat, n: nat, state: nat)
    requires Ordered(s, d, n)
    ensures Ordered(ShuffledCases(s, d, state), d, n)
  {
    hide ShuffledRange;
    FirstRangeOrdered(s, d, n, state);
    OtherRangeOrdered(ShuffledRange(s, 0, d, state), d, n, StateAfter(state, d));
  }

  lemma {:induction false} FirstRangeOrdered(s: seq<nat>, d: nat, n: nat, state: nat)
    requires Ordered(s, d, n)
    ensures Ordered(ShuffledRange(s, 0, d, state), d, n)
  {
    hide ShuffledRange, InOrder;
    RangeOnly(s, 0, d, state);
    var t := ShuffledRange(s, 0, d, state);
    assert t[0..d] == t[..d] && s[0..d] == s[..d];
  }

  lemma {:induction false} OtherRangeOrdered(s: seq<nat>, d: nat, n: nat, state: nat)
    requires Ordered(s, d, n)
    ensures Ordered(ShuffledRange(s, d, n, state), d, n)
  {
    hide ShuffledRange, InOrder;
    RangeOnly(s, d, n, state);
    var t := ShuffledRange(s, d, n, state);
    assert t[d..n] == t[d..] && s[d..n] == s[d..];
  }

  lemma {:induction false} InOrderIsOrdered(d: nat, n: nat)
    requires d <= n
    ensures Ordered(InOrder(n), d, n)
  {
  }
}
