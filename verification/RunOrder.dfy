/** What one iteration runs, and in what order, as a function of the plan and the seed. */
module RunOrder {
  import opened Wrappers
  import opened Shuffling
  import opened Orders

  /** For each case, for each of its tests in order of registration, what it contributes to a run: the test itself if
      it is selected, otherwise nothing. */
  type Plan<T> = seq<seq<seq<T>>>

  // ----- orders within the cases

  function SizesOf<T>(plan: Plan<T>): (sizes: seq<nat>)
    ensures |sizes| == |plan| && forall i :: 0 <= i < |plan| ==> sizes[i] == |plan[i]|
  {
    seq(|plan|, i requires 0 <= i < |plan| => |plan[i]|)
  }

  /** One order for each case, given the numbers of tests in the cases. */
  predicate InnerOrders(sizes: seq<nat>, orders: seq<seq<nat>>)
  {
    |orders| == |sizes| && forall i :: 0 <= i < |sizes| ==> IsOrder(orders[i], sizes[i])
  }

  lemma {:induction false} InnerOrderInRange(sizes: seq<nat>, orders: seq<seq<nat>>, i: nat)
    requires InnerOrders(sizes, orders) && i < |sizes|
    ensures |orders| == |sizes| && |orders[i]| == sizes[i] && InRange(orders[i], sizes[i])
  {
    OrderInRange(orders[i], sizes[i]);
  }

  /** The orders of registration. */
  function NaturalOrders(sizes: seq<nat>): (orders: seq<seq<nat>>)
    ensures |orders| == |sizes| && forall i :: 0 <= i < |sizes| ==> orders[i] == InOrder(sizes[i])
  {
    seq(|sizes|, i requires 0 <= i < |sizes| => InOrder(sizes[i]))
  }

  /** The generator's state when the i-th case is about to be shuffled. */
  function StateAtCase(orders: seq<seq<nat>>, state: nat, i: nat): nat
    requires i <= |orders|
  {
    if i == 0 then state else StateAfter(StateAtCase(orders, state, i - 1), |orders[i - 1]|)
  }

  /** Each order shuffled, one after the other. */
  function ShuffledOrders(orders: seq<seq<nat>>, state: nat): (r: seq<seq<nat>>)
    ensures |r| == |orders|
    ensures forall i :: 0 <= i < |orders| ==> r[i] == ShuffledRange(orders[i], 0, |orders[i]|, StateAtCase(orders, state, i))
  {
    seq(|orders|, i requires 0 <= i < |orders| => ShuffledRange(orders[i], 0, |orders[i]|, StateAtCase(orders, state, i)))
  }

  lemma {:induction false} ShuffledOrdersFit(sizes: seq<nat>, orders: seq<seq<nat>>, state: nat)
    requires InnerOrders(sizes, orders)
    ensures InnerOrders(sizes, ShuffledOrders(orders, state))
  {
    hide IsOrder, ShuffledRange, StateAtCase;
    forall i | 0 <= i < |sizes| ensures IsOrder(ShuffledOrders(orders, state)[i], sizes[i]) {
      InnerOrderInRange(sizes, orders, i);
      ShuffledOrderIsOrder(orders[i], sizes[i], StateAtCase(orders, state, i));
    }
  }

  // ----- what runs

  /** What each of the first `n` cases runs. */
  function CaseLogs<T>(plan: Plan<T>, orders: seq<seq<nat>>, n: nat): (logs: seq<seq<T>>)
    requires InnerOrders(SizesOf(plan), orders) && n <= |plan|
    ensures |logs| == n
  {
    if n == 0 then [] else
      InnerOrderInRange(SizesOf(plan), orders, n - 1);
      CaseLogs(plan, orders, n - 1) + [Joined(plan[n - 1], orders[n - 1])]
  }

  lemma {:induction false} CaseLogsAt<T>(plan: Plan<T>, orders: seq<seq<nat>>, n: nat, i: nat)
    requires InnerOrders(SizesOf(plan), orders) && i < n <= |plan|
    ensures InRange(orders[i], |plan[i]|) && CaseLogs(plan, orders, n)[i] == Joined(plan[i], orders[i])
  {
    hide Joined;
    InnerOrderInRange(SizesOf(plan), orders, i);
    if i < n - 1 { CaseLogsAt(plan, orders, n - 1, i); }
  }

  /** What runs, in order, when the cases come in this order and the tests within them in those. */
  function LogOf<T>(plan: Plan<T>, orders: seq<seq<nat>>, order: seq<nat>): seq<T>
    requires InnerOrders(SizesOf(plan), orders) && InRange(order, |plan|)
  {
    Joined(CaseLogs(plan, orders, |plan|), order)
  }

  /** The selected tests of the cases from `a` up to `b`, in order of registration. */
  function Selected<T>(plan: Plan<T>, a: nat, b: nat): seq<T>
    requires a <= b <= |plan|
  {
    if a == b then [] else Selected(plan, a, b - 1) + Joined(plan[b - 1], InOrder(|plan[b - 1]|))
  }

  lemma {:induction false} SelectedUnfold<T>(plan: Plan<T>, a: nat, b: nat)
    requires a < b <= |plan|
    ensures Selected(plan, a, b) == Selected(plan, a, b - 1) + Joined(plan[b - 1], InOrder(|plan[b - 1]|))
  {
  }

  lemma {:induction false} NaturalRunsSelected<T>(plan: Plan<T>, orders: seq<seq<nat>>, a: nat, b: nat)
    requires a <= b <= |plan| && InnerOrders(SizesOf(plan), orders)
    ensures InRange(InOrder(b)[a..], |plan|)
    ensures multiset(Joined(CaseLogs(plan, orders, |plan|), InOrder(b)[a..])) == multiset(Selected(plan, a, b))
  {
    hide CaseLogs, InnerOrders, Joined;
    var logs := CaseLogs(plan, orders, |plan|);
    if a == b {
      NothingJoined(logs);
      assert InOrder(b)[a..] == [];
    } else {
      NaturalRunsSelected(plan, orders, a, b - 1);
      InnerOrderInRange(SizesOf(plan), orders, b - 1);
      CaseLogsAt(plan, orders, |plan|, b - 1);
      InnerOrderIsOrder(plan, orders, b - 1);
      JoinedRearranged(plan[b - 1], orders[b - 1], InOrder(|plan[b - 1]|));
      JoinedSnoc(logs, InOrder(b - 1)[a..], b - 1);
      assert InOrder(b)[a..] == InOrder(b - 1)[a..] + [b - 1];
      SelectedUnfold(plan, a, b);
    }
  }

  lemma {:induction false} InnerOrderIsOrder<T>(plan: Plan<T>, orders: seq<seq<nat>>, i: nat)
    requires InnerOrders(SizesOf(plan), orders) && i < |plan|
    ensures multiset(orders[i]) == multiset(InOrder(|plan[i]|))
  {
  }

  lemma {:induction false} StretchRunsSelected<T>(plan: Plan<T>, orders: seq<seq<nat>>, order: seq<nat>, a: nat, b: nat)
    requires a <= b <= |plan| && InnerOrders(SizesOf(plan), orders) && InRange(order, |plan|)
    requires multiset(order) == multiset(InOrder(b)[a..])
    ensures multiset(Joined(CaseLogs(plan, orders, |plan|), order)) == multiset(Selected(plan, a, b))
  {
    hide CaseLogs, Selected, Joined, InnerOrders, InOrder;
    NaturalRunsSelected(plan, orders, a, b);
    JoinedRearranged(CaseLogs(plan, orders, |plan|), order, InOrder(b)[a..]);
  }

  /** First the selected tests of the first `d` cases, each once, in some order; then those of the others. */
  ghost predicate RunsSelected<T>(log: seq<T>, plan: Plan<T>, d: nat)
    requires d <= |plan|
  {
    exists k :: 0 <= k <= |log| && multiset(log[..k]) == multiset(Selected(plan, 0, d))
                && multiset(log[k..]) == multiset(Selected(plan, d, |plan|))
  }

  lemma {:induction false} OrderedRunsSelected<T>(plan: Plan<T>, orders: seq<seq<nat>>, order: seq<nat>, d: nat)
    requires InnerOrders(SizesOf(plan), orders) && Ordered(order, d, |plan|)
    ensures InRange(order, |plan|) && RunsSelected(LogOf(plan, orders, order), plan, d)
  {
    hide CaseLogs, Selected, Joined, InnerOrders, InOrder;
    var n := |plan|;
    var logs := CaseLogs(plan, orders, n);
    OrderedIsOrder(order, d, n);
    assert InOrder(d)[0..] == InOrder(n)[..d];
    StretchRunsSelected(plan, orders, order[..d], 0, d);
    StretchRunsSelected(plan, orders, order[d..], d, n);
    JoinedSplits(logs, order[..d], order[d..]);
    assert order[..d] + order[d..] == order;
    var log := Joined(logs, order);
    var k := |Joined(logs, order[..d])|;
    assert log[..k] == Joined(logs, order[..d]) && log[k..] == Joined(logs, order[d..]);
  }

  // ----- one iteration; without a seed nothing is shuffled

  function CaseOrder(n: nat, d: nat, seed: Option<nat>): seq<nat>
    requires d <= n
  {
    if seed.None? then InOrder(n) else ShuffledCases(InOrder(n), d, seed.value)
  }

  /** The state after the order of the cases has been shuffled. */
  function StateAfterCases(n: nat, d: nat, state: nat): nat
    requires d <= n
  {
    StateAfter(StateAfter(state, d), n - d)
  }

  function TestOrders<T>(plan: Plan<T>, d: nat, seed: Option<nat>): seq<seq<nat>>
    requires d <= |plan|
  {
    if seed.None? then NaturalOrders(SizesOf(plan))
    else ShuffledOrders(NaturalOrders(SizesOf(plan)), StateAfterCases(|plan|, d, seed.value))
  }

  lemma {:induction false} CaseOrderIsOrdered(n: nat, d: nat, seed: Option<nat>)
    requires d <= n
    ensures Ordered(CaseOrder(n, d, seed), d, n) && InRange(CaseOrder(n, d, seed), n)
  {
    InOrderIsOrdered(d, n);
    if seed.Some? { ShuffledCasesOrdered(InOrder(n), d, n, seed.value); }
    OrderedIsOrder(CaseOrder(n, d, seed), d, n);
  }

  lemma {:induction false} TestOrdersFit<T>(plan: Plan<T>, d: nat, seed: Option<nat>)
    requires d <= |plan|
    ensures InnerOrders(SizesOf(plan), TestOrders(plan, d, seed))
  {
    assert InnerOrders(SizesOf(plan), NaturalOrders(SizesOf(plan)));
    if seed.Some? { ShuffledOrdersFit(SizesOf(plan), NaturalOrders(SizesOf(plan)), StateAfterCases(|plan|, d, seed.value)); }
  }

  /** What an iteration runs, in order; it depends on the plan and the seed alone. */
  function IterationLog<T>(plan: Plan<T>, d: nat, seed: Option<nat>): seq<T>
    requires d <= |plan|
  {
    TestOrdersFit(plan, d, seed);
    CaseOrderIsOrdered(|plan|, d, seed);
    LogOf(plan, TestOrders(plan, d, seed), CaseOrder(|plan|, d, seed))
  }

  /** Whatever the seed, an iteration runs the selected tests of the first `d` cases, each once, and then the selected
      tests of the other cases, each once. */
  lemma {:induction false} IterationLogIsComplete<T>(plan: Plan<T>, d: nat, seed: Option<nat>)
    requires d <= |plan|
    ensures RunsSelected(IterationLog(plan, d, seed), plan, d)
  {
    hide LogOf, RunsSelected, TestOrders, CaseOrder;
    TestOrdersFit(plan, d, seed);
    CaseOrderIsOrdered(|plan|, d, seed);
    OrderedRunsSelected(plan, TestOrders(plan, d, seed), CaseOrder(|plan|, d, seed), d);
  }

  // ----- which order it is

  /** Without a seed the selected tests run in order of registration. */
  lemma {:induction false} NaturalLog<T>(plan: Plan<T>, d: nat)
    requires d <= |plan|
    ensures IterationLog(plan, d, None) == Selected(plan, 0, |plan|)
  {
    hide CaseLogs, LogOf, InnerOrders, InOrder;
    TestOrdersFit(plan, d, None);
    CaseOrderIsOrdered(|plan|, d, None);
    NaturalPrefix(plan, |plan|);
    assert InOrder(|plan|)[..|plan|] == InOrder(|plan|);
    LogUnfolds(plan, TestOrders(plan, d, None), CaseOrder(|plan|, d, None));
  }

  lemma {:induction false} LogUnfolds<T>(plan: Plan<T>, orders: seq<seq<nat>>, order: seq<nat>)
    requires InnerOrders(SizesOf(plan), orders) && InRange(order, |plan|)
    ensures LogOf(plan, orders, order) == Joined(CaseLogs(plan, orders, |plan|), order)
  {
  }

  lemma {:induction false} NaturalPrefix<T>(plan: Plan<T>, n: nat)
    requires n <= |plan|
    ensures InnerOrders(SizesOf(plan), NaturalOrders(SizesOf(plan))) && InRange(InOrder(|plan|)[..n], |plan|)
    ensures Joined(CaseLogs(plan, NaturalOrders(SizesOf(plan)), |plan|), InOrder(|plan|)[..n]) == Selected(plan, 0, n)
  {
    var orders := NaturalOrders(SizesOf(plan));
    NaturalFits(plan);
    hide CaseLogs, InnerOrders, Joined, Selected;
    var logs := CaseLogs(plan, orders, |plan|);
    if n == 0 {
      NothingJoined(logs);
      SelectedNothing(plan);
      assert InOrder(|plan|)[..0] == [];
    } else {
      NaturalPrefix(plan, n - 1);
      CaseLogsAt(plan, orders, |plan|, n - 1);
      JoinedSnoc(logs, InOrder(|plan|)[..n - 1], n - 1);
      assert InOrder(|plan|)[..n] == InOrder(|plan|)[..n - 1] + [n - 1];
      SelectedUnfold(plan, 0, n);
    }
  }

  lemma {:induction false} NaturalFits<T>(plan: Plan<T>)
    ensures InnerOrders(SizesOf(plan), NaturalOrders(SizesOf(plan)))
  {
  }

  lemma {:induction false} SelectedNothing<T>(plan: Plan<T>)
    ensures Selected(plan, 0, 0) == []
  {
  }

  /** With a seed the generator's numbers decide: the first drawn for the death test cases, if there are two at least, says
      which of them comes last; the first drawn for the others likewise; and so for the tests of each case. */
  lemma {:induction false} SeedDecidesOrder<T>(plan: Plan<T>, d: nat, seed: nat, i: nat)
    requires d <= |plan| && i < |plan|
    ensures var order := CaseOrder(|plan|, d, Some(seed));
            && |order| == |plan|
            && (2 <= d ==> order[d - 1] == NextState(seed) % d)
            && (2 <= |plan| - d ==> order[|plan| - 1] == d + NextState(StateAfter(seed, d)) % (|plan| - d))
    ensures var sizes, orders := SizesOf(plan), TestOrders(plan, d, Some(seed));
            var state := StateAtCase(NaturalOrders(sizes), StateAfterCases(|plan|, d, seed), i);
            |orders| == |plan| && |orders[i]| == |plan[i]| && (2 <= |plan[i]| ==> orders[i][|plan[i]| - 1] == NextState(state) % |plan[i]|)
  {
    hide ShuffledRange, NextState, StateAtCase;
    var n, natural := |plan|, InOrder(|plan|);
    RangeOnly(natural, 0, d, seed);
    var first := ShuffledRange(natural, 0, d, seed);
    RangeOnly(first, d, n, StateAfter(seed, d));
    var order := CaseOrder(n, d, Some(seed));
    if 2 <= d {
      FirstDrawIsLast(natural, 0, d, seed);
      assert order[..d][d - 1] == first[..d][d - 1];
    }
    if 2 <= n - d {
      FirstDrawIsLast(first, d, n, StateAfter(seed, d));
      var k := d + NextState(StateAfter(seed, d)) % (n - d);
      assert first[d..][k - d] == natural[d..][k - d];
    }
    TestsDrawn(plan, d, seed, i);
  }

  lemma {:induction false} TestsDrawn<T>(plan: Plan<T>, d: nat, seed: nat, i: nat)
    requires d <= |plan| && i < |plan|
    ensures var sizes, orders := SizesOf(plan), TestOrders(plan, d, Some(seed));
            var state := StateAtCase(NaturalOrders(sizes), StateAfterCases(|plan|, d, seed), i);
            |orders| == |plan| && |orders[i]| == |plan[i]| && (2 <= |plan[i]| ==> orders[i][|plan[i]| - 1] == NextState(state) % |plan[i]|)
  {
    hide ShuffledRange, NextState, StateAtCase;
    var natural := NaturalOrders(SizesOf(plan));
    var state := StateAtCase(natural, StateAfterCases(|plan|, d, seed), i);
    RangeOnly(natural[i], 0, |plan[i]|, state);
    if 2 <= |plan[i]| { FirstDrawIsLast(natural[i], 0, |plan[i]|, state); }
  }
}
