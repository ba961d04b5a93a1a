/** Test cases and the tests registered in them, with the indirection that lets a case be shuffled and restored. */
module TestCases {
  import opened Wrappers
  import opened CStrings
  import opened Orders
  import opened Shuffling

  class TestInfo {
    const name: CString
    var isDisabled: bool
    var matchesFilter: bool
    var shouldRun: bool

    constructor (n: CString)
      ensures name == n
    {
      name := n;
    }
  }

  /** What each test of a case contributes to a run: itself, if it and its case are marked to run. */
  ghost function CasePlan(c: TestCase): (plan: seq<seq<TestInfo>>)
    reads c, c.tests
    ensures |plan| == |c.tests|
    ensures forall i :: 0 <= i < |plan| ==> plan[i] == if c.shouldRun && c.tests[i].shouldRun then [c.tests[i]] else []
  {
    seq(|c.tests|, i requires 0 <= i < |c.tests| reads c, c.tests =>
      if c.shouldRun && c.tests[i].shouldRun then [c.tests[i]] else [])
  }

  lemma {:induction false} LogGrows(plan: seq<seq<TestInfo>>, order: seq<nat>, i: nat)
    requires InRange(order, |plan|) && i < |order|
    ensures Joined(plan, order[..i + 1]) == Joined(plan, order[..i]) + plan[order[i]]
  {
    hide Joined;
    JoinedSnoc(plan, order[..i], order[i]);
    assert order[..i + 1] == order[..i] + [order[i]];
  }

  lemma {:induction false} EmptyLog(plan: seq<seq<TestInfo>>, order: seq<nat>)
    requires InRange(order, |plan|) && forall i :: 0 <= i < |plan| ==> plan[i] == []
    ensures Joined(plan, order) == []
  {
    if order != [] { EmptyLog(plan, Front(order)); }
  }

  class TestCase {
    const name: CString
    const testIndices: Vector<nat>
    var tests: seq<TestInfo>
    var shouldRun: bool

    ghost predicate Valid()
      reads this, testIndices
    {
      IsOrder(testIndices.items, |tests|) && |tests| < MAX_RANGE
    }

    constructor (n: CString)
      ensures name == n && tests == [] && Valid() && fresh(testIndices)
      ensures testIndices.items == InOrder(0)
    {
      name := n;
      tests := [];
      testIndices := new Vector<nat>();
    }

    method AddTestInfo(t: TestInfo)
      requires Valid() && |tests| + 1 < MAX_RANGE
      modifies `tests, testIndices
      ensures Valid() && tests == old(tests) + [t]
      ensures testIndices.items == old(testIndices.items) + [|old(tests)|]
    {
      OrderGrows(testIndices.items, |tests|);
      tests := tests + [t];
      testIndices.PushBack(|testIndices.items|);
    }

    /** The i-th test in the current order. */
    method GetMutableTestInfo(i: nat) returns (t: TestInfo)
      requires Valid() && i < |tests|
      ensures testIndices.items[i] < |tests| && t == tests[testIndices.items[i]]
    {
      OrderStaysInRange(testIndices.items, |tests|, i);
      t := tests[testIndices.items[i]];
    }

    /** Runs the tests in the current order; the result lists those that did run. */
    method Run() returns (log: seq<TestInfo>)
      requires Valid()
      ensures InRange(testIndices.items, |tests|) && log == Joined(CasePlan(this), testIndices.items)
    {
      hide Joined, IsOrder;
      log := [];
      ghost var plan, order := CasePlan(this), testIndices.items;
      OrderInRange(order, |tests|);
      if !shouldRun {
        EmptyLog(plan, order);
        return;
      }
      NothingJoined(plan);
      for i := 0 to |tests|
        invariant log == Joined(plan, order[..i])
      {
        LogGrows(plan, order, i);
        var info := GetMutableTestInfo(i);
        if info.shouldRun { log := log + [info]; }
      }
      assert order[..|tests|] == order;
    }

    method ShuffleTests(random: Random)
      requires Valid()
      modifies testIndices, random
      ensures Valid()
      ensures testIndices.items == ShuffledRange(old(testIndices.items), 0, |tests|, old(random.state))
      ensures random.state == StateAfter(old(random.state), |tests|)
    {
      ShuffledOrderIsOrder(testIndices.items, |tests|, random.state);
      testIndices.Shuffle(random);
    }

    method UnshuffleTests()
      requires Valid()
      modifies testIndices
      ensures Valid() && testIndices.items == InOrder(|tests|)
    {
      for i := 0 to |testIndices.items|
        invariant |testIndices.items| == |tests|
        invariant forall k :: 0 <= k < i ==> testIndices.items[k] == k
      {
        testIndices.items := testIndices.items[i := i];
      }
      assert testIndices.items == InOrder(|tests|);
    }
  }

  ghost function AllTests(cases: seq<TestCase>): set<TestInfo>
    reads cases`tests
  {
    set i, j | 0 <= i < |cases| && 0 <= j < |cases[i].tests| :: cases[i].tests[j]
  }
}
