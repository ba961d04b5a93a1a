/** The generator behind shuffled test orders, and the in-place Fisher-Yates shuffle. */
module Shuffling {
  import opened Wrappers
  import opened Arithmetic

  const MAX_RANGE: nat := 0x8000_0000

  /** One step of the generator, in 32-bit unsigned arithmetic. */
  function NextState(state: nat): (s: nat)
    ensures s < MAX_RANGE
  {
    (1103515245 * state + 12345) % 0x1_0000_0000 % MAX_RANGE
  }

  /** The numbers of the generator: from 0 comes 12345, and from the next state a number larger by 1103515245, modulo 2^31. */
  lemma {:induction false} StatesInSteps(state: nat)
    ensures NextState(0) == 12345
    ensures NextState(state + 1) == (NextState(state) + 1103515245) % 0x8000_0000
  {
    var x := 1103515245 * state + 12345;
    ModOfMod(x);
    ModOfMod(x + 1103515245);
    AddThenMod(x, 1103515245);
  }

  lemma {:induction false} AddThenMod(x: nat, y: nat)
    requires y < 0x8000_0000
    ensures (x + y) % 0x8000_0000 == (x % 0x8000_0000 + y) % 0x8000_0000
  {
    var m := 0x8000_0000;
    var q, r := x / m, x % m;
    var t := r + y;
    if t < m {
      QuotientIs(x + y, m, q, t);
      QuotientIs(t, m, 0, t);
    } else {
      QuotientIs(x + y, m, q + 1, t - m);
      QuotientIs(t, m, 1, t - m);
    }
  }

  lemma {:induction false} ModOfMod(x: nat)
    ensures x % 0x1_0000_0000 % MAX_RANGE == x % MAX_RANGE
  {
    var q, r := x / 0x1_0000_0000, x % 0x1_0000_0000;
    if r < MAX_RANGE { QuotientIs(x, MAX_RANGE, 2 * q, r); } else { QuotientIs(x, MAX_RANGE, 2 * q + 1, r - MAX_RANGE); }
  }

  /** The state before: the generator's step can be undone. */
  function PreviousState(state: nat): nat { 1857678181 * (state + MAX_RANGE - 12345) % MAX_RANGE }

  /** Every state below 2^31 comes from exactly one such state. */
  lemma {:induction false} StepIsOneToOne(state: nat)
    requires state < MAX_RANGE
    ensures PreviousState(state) < MAX_RANGE && NextState(PreviousState(state)) == state
    ensures NextState(state) < MAX_RANGE && PreviousState(NextState(state)) == state
  {
    var y := 1857678181 * (state + MAX_RANGE - 12345);
    var p := PreviousState(state);
    assert y == (y / MAX_RANGE) * MAX_RANGE + p;
    var x := 1103515245 * p + 12345;
    ModOfMod(x);
    assert 1103515245 * y == 954594553 * MAX_RANGE * (state + MAX_RANGE - 12345) + (state + MAX_RANGE - 12345);
    QuotientIs(x, MAX_RANGE, 954594553 * (state + MAX_RANGE - 12345) + 1 - 1103515245 * (y / MAX_RANGE), state);
    var z := 1103515245 * state + 12345;
    ModOfMod(z);
    var n := NextState(state);
    assert z == (z / MAX_RANGE) * MAX_RANGE + n;
    assert 1857678181 * (n + MAX_RANGE - 12345) == 1857678181 * (1103515245 * state) + 1857678181 * MAX_RANGE - 1857678181 * ((z / MAX_RANGE) * MAX_RANGE);
    QuotientIs(1857678181 * (n + MAX_RANGE - 12345), MAX_RANGE, 954594553 * state + 1857678181 - 1857678181 * (z / MAX_RANGE), state);
  }

  class Random {
    var state: nat

    constructor (seed: nat)
      ensures state == seed
    {
      state := seed;
    }

    method Reseed(seed: nat)
      modifies this
      ensures state == seed
    {
      state := seed;
    }

    /** A number below `range`. */
    method Generate(range: nat) returns (r: nat)
      requires 0 < range <= MAX_RANGE
      modifies this
      ensures state == NextState(old(state)) && r == state % range && r < range
    {
      state := (1103515245 * state + 12345) % 0x1_0000_0000 % MAX_RANGE;
      r := state % range;
    }
  }

  // ----- the shuffle as a function of the choices made

  function Swap<T>(s: seq<T>, i: nat, j: nat): (r: seq<T>)
    requires i < |s| && j < |s|
    ensures |r| == |s| && r[i] == s[j] && r[j] == s[i] && forall k :: 0 <= k < |s| && k != i && k != j ==> r[k] == s[k]
  {
    s[i := s[j]][j := s[i]]
  }

  /** One choice for each width from `width` down to 2, each below its width. */
  predicate ValidChoices(choices: seq<nat>, width: nat)
  {
    if width < 2 then choices == [] else choices != [] && choices[0] < width && ValidChoices(choices[1..], width - 1)
  }

  /** The chosen element goes to the end of the range, and the range shrinks. */
  function Shuffled<T>(s: seq<T>, choices: seq<nat>): seq<T>
    requires ValidChoices(choices, |s|)
    decreases |s|
  {
    if |s| < 2 then s
    else
      var r := Swap(s, choices[0], |s| - 1);
      Shuffled(Front(r), choices[1..]) + [Last(r)]
  }

  lemma {:induction false} SwapKeepsElements<T>(s: seq<T>, i: nat, j: nat)
    requires i < |s| && j < |s|
    ensures multiset(Swap(s, i, j)) == multiset(s)
  {
  }

  lemma {:induction false} FrontAndLast<T>(s: seq<T>)
    requires s != []
    ensures s == Front(s) + [Last(s)] && multiset(s) == multiset(Front(s)) + multiset{Last(s)}
  {
    assert s == Front(s) + [Last(s)];
  }

  /** A shuffle rearranges. */
  lemma {:induction false} ShuffledKeepsElements<T>(s: seq<T>, choices: seq<nat>)
    requires ValidChoices(choices, |s|)
    ensures |Shuffled(s, choices)| == |s| && multiset(Shuffled(s, choices)) == multiset(s)
    decreases |s|
  {
    if |s| >= 2 {
      var r := Swap(s, choices[0], |s| - 1);
      SwapKeepsElements(s, choices[0], |s| - 1);
      FrontAndLast(r);
      ShuffledKeepsElements(Front(r), choices[1..]);
    }
  }

  ghost predicate Distinct<T>(s: seq<T>)
  {
    forall i, j :: 0 <= i < j < |s| ==> s[i] != s[j]
  }

  /** Choices that turn `s` into a given rearrangement of it. */
  ghost function ChoicesFor<T>(s: seq<T>, t: seq<T>): (choices: seq<nat>)
    requires multiset(s) == multiset(t)
    ensures ValidChoices(choices, |s|)
    decreases |s|
  {
    if |s| < 2 then []
    else
      LastIsIn(s, t);
      var c: nat :| c < |s| && s[c] == Last(t);
      var r := Swap(s, c, |s| - 1);
      SameFronts(s, t, c);
      [c] + ChoicesFor(Front(r), Front(t))
  }

  lemma {:induction false} LastIsIn<T>(s: seq<T>, t: seq<T>)
    requires multiset(s) == multiset(t) && s != []
    ensures |s| == |t| && Last(t) in s
  {
    assert |multiset(s)| == |s| && |multiset(t)| == |t|;
    assert Last(t) in multiset(t);
  }

  lemma {:induction false} SameFronts<T>(s: seq<T>, t: seq<T>, c: nat)
    requires multiset(s) == multiset(t) && s != [] && t != [] && c < |s| && s[c] == Last(t)
    ensures multiset(Front(Swap(s, c, |s| - 1))) == multiset(Front(t))
  {
    var r := Swap(s, c, |s| - 1);
    SwapKeepsElements(s, c, |s| - 1);
    FrontAndLast(r);
    FrontAndLast(t);
    SumCancels(multiset(Front(r)), multiset(Front(t)), Last(t));
  }

  lemma {:induction false} SumCancels<T>(a: multiset<T>, b: multiset<T>, x: T)
    requires a + multiset{x} == b + multiset{x}
    ensures a == b
  {
    assert a == a + multiset{x} - multiset{x};
    assert b == b + multiset{x} - multiset{x};
  }

  lemma {:induction false} ChoicesForWork<T>(s: seq<T>, t: seq<T>)
    requires multiset(s) == multiset(t)
    ensures Shuffled(s, ChoicesFor(s, t)) == t
    decreases |s|
  {
    var choices := ChoicesFor(s, t);
    if s == [] {
      assert |multiset(t)| == 0;
    } else {
      LastIsIn(s, t);
      FrontAndLast(t);
      if |s| == 1 {
        assert s == t;
      } else {
        var c := choices[0];
        var r := Swap(s, c, |s| - 1);
        SameFronts(s, t, c);
        assert choices[1..] == ChoicesFor(Front(r), Front(t));
        ChoicesForWork(Front(r), Front(t));
      }
    }
  }

  /** Different choices give different orders of distinct elements. */
  lemma {:induction false} ChoicesAreUnique<T>(s: seq<T>, a: seq<nat>, b: seq<nat>)
    requires Distinct(s) && ValidChoices(a, |s|) && ValidChoices(b, |s|)
    requires Shuffled(s, a) == Shuffled(s, b)
    ensures a == b
    decreases |s|
  {
    if |s| >= 2 {
      var ra, rb := Swap(s, a[0], |s| - 1), Swap(s, b[0], |s| - 1);
      assert Last(Shuffled(s, a)) == s[a[0]] && Last(Shuffled(s, b)) == s[b[0]];
      assert ra == rb;
      assert Front(Shuffled(s, a)) == Shuffled(Front(ra), a[1..]);
      assert Front(Shuffled(s, b)) == Shuffled(Front(rb), b[1..]);
      SwapKeepsDistinct(s, a[0], |s| - 1);
      ChoicesAreUnique(Front(ra), a[1..], b[1..]);
      assert a == [a[0]] + a[1..] && b == [b[0]] + b[1..];
    }
  }

  lemma {:induction false} SwapKeepsDistinct<T>(s: seq<T>, i: nat, j: nat)
    requires Distinct(s) && i < |s| && j < |s|
    ensures Distinct(Swap(s, i, j))
  {
  }

  /** Every order of distinct elements, and nothing else, comes from exactly one sequence of choices. */
  lemma {:induction false} ExactlyOneChoice<T>(s: seq<T>, t: seq<T>)
    requires Distinct(s)
    ensures (exists c :: ValidChoices(c, |s|) && Shuffled(s, c) == t) <==> multiset(t) == multiset(s)
    ensures forall a, b :: ValidChoices(a, |s|) && ValidChoices(b, |s|) && Shuffled(s, a) == t && Shuffled(s, b) == t ==> a == b
  {
    if multiset(t) == multiset(s) {
      ChoicesForWork(s, t);
      var c := ChoicesFor(s, t);
      assert ValidChoices(c, |s|) && Shuffled(s, c) == t;
    }
    if c :| ValidChoices(c, |s|) && Shuffled(s, c) == t {
      ShuffledKeepsElements(s, c);
    }
    forall a, b | ValidChoices(a, |s|) && ValidChoices(b, |s|) && Shuffled(s, a) == t && Shuffled(s, b) == t ensures a == b {
      ChoicesAreUnique(s, a, b);
    }
  }

  // ----- the shuffle in place

  /** The choices the generator makes for a range of this width. */
  function Choices(state: nat, width: nat): (c: seq<nat>)
    ensures ValidChoices(c, width)
    decreases width
  {
    if width < 2 then [] else
      var s := NextState(state);
      assert ([s % width] + Choices(s, width - 1))[1..] == Choices(s, width - 1);
      [s % width] + Choices(s, width - 1)
  }

  function StateAfter(state: nat, width: nat): nat
    decreases width
  {
    if width < 2 then state else StateAfter(NextState(state), width - 1)
  }

  /** A range of the sequence shuffled, the rest in place. */
  function ShuffledRange<T>(s: seq<T>, begin: nat, end: nat, state: nat): seq<T>
    requires begin <= end <= |s|
  {
    s[..begin] + Shuffled(s[begin..end], Choices(state, end - begin)) + s[end..]
  }

  /** Nothing outside the range moves, and the range is rearranged. */
  lemma {:induction false} RangeOnly<T>(s: seq<T>, begin: nat, end: nat, state: nat)
    requires begin <= end <= |s|
    ensures var t := ShuffledRange(s, begin, end, state);
            && |t| == |s| && t[..begin] == s[..begin] && t[end..] == s[end..]
            && multiset(t[begin..end]) == multiset(s[begin..end])
  {
    var mid := Shuffled(s[begin..end], Choices(state, end - begin));
    ShuffledKeepsElements(s[begin..end], Choices(state, end - begin));
    var t := ShuffledRange(s, begin, end, state);
    assert t[begin..end] == mid;
  }

  /** One round: swap, then shuffle a range narrower by one. */
  lemma {:induction false} OneRound<T>(s: seq<T>, begin: nat, end: nat, state: nat)
    requires begin + 2 <= end <= |s|
    ensures var n := NextState(state);
            ShuffledRange(s, begin, end, state) == ShuffledRange(Swap(s, begin + n % (end - begin), end - 1), begin, end - 1, n)
  {
    var n := NextState(state);
    var w := end - begin;
    var mid := s[begin..end];
    var c := Choices(state, w);
    var s1 := Swap(s, begin + n % w, end - 1);
    var r := Swap(mid, n % w, w - 1);
    assert c[1..] == Choices(n, w - 1);
    assert Front(r) == s1[begin..end - 1];
    assert s1[..begin] == s[..begin];
    assert s1[end - 1..] == [Last(r)] + s[end..];
  }

  /** The first number drawn decides what comes to the end of the range. */
  lemma {:induction false} FirstDrawIsLast<T>(s: seq<T>, begin: nat, end: nat, state: nat)
    requires begin + 2 <= end <= |s|
    ensures |ShuffledRange(s, begin, end, state)| == |s|
    ensures ShuffledRange(s, begin, end, state)[end - 1] == s[begin + NextState(state) % (end - begin)]
  {
    hide NextState;
    var n := NextState(state);
    OneRound(s, begin, end, state);
    RangeOnly(Swap(s, begin + n % (end - begin), end - 1), begin, end - 1, n);
    var t := ShuffledRange(s, begin, end, state);
    var s1 := Swap(s, begin + n % (end - begin), end - 1);
    assert t[end - 1..][0] == s1[end - 1..][0];
  }

  lemma {:induction false} NoRound<T>(s: seq<T>, begin: nat, end: nat, state: nat)
    requires begin <= end <= |s| && end < begin + 2
    ensures ShuffledRange(s, begin, end, state) == s
  {
    assert s == s[..begin] + s[begin..end] + s[end..];
  }

  class Vector<T> {
    var items: seq<T>

    constructor ()
      ensures items == []
    {
      items := [];
    }

    method PushBack(x: T)
      modifies this
      ensures items == old(items) + [x]
    {
      items := items + [x];
    }

    method ShuffleRange(random: Random, begin: nat, end: nat)
      requires begin <= end <= |items| < MAX_RANGE
      modifies this, random
      ensures items == ShuffledRange(old(items), begin, end, old(random.state))
      ensures random.state == StateAfter(old(random.state), end - begin) && |items| == |old(items)|
    {
      hide ShuffledRange;
      var rangeWidth := end - begin;
      while rangeWidth >= 2
        invariant 0 <= rangeWidth <= end - begin && |items| == |old(items)|
        invariant ShuffledRange(items, begin, begin + rangeWidth, random.state) == ShuffledRange(old(items), begin, end, old(random.state))
        invariant StateAfter(random.state, rangeWidth) == StateAfter(old(random.state), end - begin)
      {
        OneRound(items, begin, begin + rangeWidth, random.state);
        var lastInRange := begin + rangeWidth - 1;
        var g := random.Generate(rangeWidth);
        var selected := begin + g;
        items := items[selected := items[lastInRange]][lastInRange := items[selected]];
        rangeWidth := rangeWidth - 1;
      }
      NoRound(items, begin, begin + rangeWidth, random.state);
    }

    method Shuffle(random: Random)
      requires |items| < MAX_RANGE
      modifies this, random
      ensures items == ShuffledRange(old(items), 0, |old(items)|, old(random.state))
      ensures random.state == StateAfter(old(random.state), |old(items)|)
    {
      ShuffleRange(random, 0, |items|);
    }
  }
}
