/** Selecting the tests to run: disabled tests, the filter flag, and the split into shards. */
module Sharding {
  import opened Arithmetic
  import opened Wrappers
  import opened CStrings
  import opened Shuffling
  import opened TestCases
  import opened TestFilter
  import opened FilterMeaning

  const DISABLE_FILTER: CString := "DISABLED_*:*/DISABLED_*"

  /** The flags and variables that stay fixed while tests are filtered. */
  datatype Settings = Settings(filter: CString, alsoDisabled: bool)

  ghost predicate Disabled(caseName: string, testName: string)
  {
    AnyGlobMatches(caseName, DISABLE_FILTER) || AnyGlobMatches(testName, DISABLE_FILTER)
  }

  ghost predicate NameDisabled(name: string) { "DISABLED_" <= name || Contains(name, "/DISABLED_") }

  /** A test is disabled if its name or that of its case begins with DISABLED_, or has it right behind a slash. */
  lemma {:induction false} DisabledMeans(caseName: string, testName: string)
    ensures Disabled(caseName, testName) <==> NameDisabled(caseName) || NameDisabled(testName)
  {
    DisabledGlobs(caseName);
    DisabledGlobs(testName);
  }

  lemma {:induction false} DisabledGlobs(name: string)
    ensures AnyGlobMatches(name, DISABLE_FILTER) <==> NameDisabled(name)
  {
    hide GlobMatches, AnyGlobMatches, Contains;
    assert "DISABLED_*" + ":" + "*/DISABLED_*" == DISABLE_FILTER;
    FiltersJoined(name, "DISABLED_*", "*/DISABLED_*");
    FiltersJoined(name, "*/DISABLED_*", "");
    assert "DISABLED_" + "*" == "DISABLED_*" && "*" + "/DISABLED_" + "*" == "*/DISABLED_*";
    PrefixGlob("DISABLED_", name);
    InnerGlob("/DISABLED_", name);
  }

  /** A test that runs on some shard. */
  ghost predicate Runnable(st: Settings, caseName: string, testName: string)
  {
    (st.alsoDisabled || !Disabled(caseName, testName)) && SelectedBy(st.filter, caseName + "." + testName)
  }

  /** Which of the first `n` tests of a case are runnable. */
  ghost function Row(st: Settings, caseName: string, tests: seq<TestInfo>, n: nat): (r: seq<bool>)
    requires n <= |tests|
    ensures |r| == n
  {
    if n == 0 then [] else Row(st, caseName, tests, n - 1) + [Runnable(st, caseName, tests[n - 1].name)]
  }

  lemma {:induction false} RowAt(st: Settings, caseName: string, tests: seq<TestInfo>, n: nat, j: nat)
    requires j < n <= |tests|
    ensures Row(st, caseName, tests, n)[j] == Runnable(st, caseName, tests[j].name)
  {
    hide Runnable;
    if j < n - 1 { RowAt(st, caseName, tests, n - 1, j); }
  }

  /** Which tests of which cases are runnable, in order of registration. */
  ghost function Table(st: Settings, cases: seq<TestCase>): (t: seq<seq<bool>>)
    reads cases`tests
    ensures |t| == |cases|
  {
    if cases == [] then [] else
      var c := Last(cases);
      Table(st, Front(cases)) + [Row(st, c.name, c.tests, |c.tests|)]
  }

  lemma {:induction false} TableAt(st: Settings, cases: seq<TestCase>, i: nat)
    requires i < |cases|
    ensures Table(st, cases)[i] == Row(st, cases[i].name, cases[i].tests, |cases[i].tests|)
  {
    hide Row;
    if i < |cases| - 1 { TableAt(st, Front(cases), i); }
  }

  // ----- ranks and shards

  /** The number of runnable tests before the j-th of the i-th case. */
  ghost function Rank(t: seq<seq<bool>>, i: nat, j: nat): nat
    requires i <= |t| && (if i < |t| then j <= |t[i]| else j == 0)
    decreases i, j
  {
    if j > 0 then Rank(t, i, j - 1) + (if t[i][j - 1] then 1 else 0)
    else if i > 0 then Rank(t, i - 1, |t[i - 1]|)
    else 0
  }

  /** How the run is split; without sharding everything runs here. */
  datatype Shard = All | Part(total: nat, index: nat)

  ghost predicate ValidShard(s: Shard) { s.Part? ==> s.index < s.total }

  ghost predicate OnShard(s: Shard, rank: nat)
    requires ValidShard(s)
  {
    s.Part? ==> rank % s.total == s.index
  }

  ghost predicate IsSelected(t: seq<seq<bool>>, s: Shard, i: nat, j: nat)
    requires ValidShard(s) && i < |t| && j < |t[i]|
  {
    t[i][j] && OnShard(s, Rank(t, i, j))
  }

  /** The number of selected tests before the j-th of the i-th case. */
  ghost function CountSelected(t: seq<seq<bool>>, s: Shard, i: nat, j: nat): nat
    requires ValidShard(s) && i <= |t| && (if i < |t| then j <= |t[i]| else j == 0)
    decreases i, j
  {
    if j > 0 then CountSelected(t, s, i, j - 1) + (if IsSelected(t, s, i, j - 1) then 1 else 0)
    else if i > 0 then CountSelected(t, s, i - 1, |t[i - 1]|)
    else 0
  }

  /** Every runnable test is selected on exactly one shard, and no other test on any. */
  lemma {:induction false} ShardsPartition(t: seq<seq<bool>>, total: nat, i: nat, j: nat)
    requires 0 < total && i < |t| && j < |t[i]|
    ensures t[i][j] ==> IsSelected(t, Part(total, Rank(t, i, j) % total), i, j)
    ensures forall k: nat :: k < total && IsSelected(t, Part(total, k), i, j) ==> t[i][j] && k == Rank(t, i, j) % total
  {
  }

  lemma {:induction false} NextQuotient(n: nat, total: nat, index: nat)
    requires index < total
    ensures (n + total - index) / total == (n + total - 1 - index) / total + (if n % total == index then 1 else 0)
  {
    var q, r := n / total, n % total;
    assert n == q * total + r;
    if r == index {
      QuotientIs(n + total - index, total, q + 1, 0);
      QuotientIs(n + total - 1 - index, total, q, total - 1);
    } else if r < index {
      QuotientIs(n + total - index, total, q, r + total - index);
      QuotientIs(n + total - 1 - index, total, q, r + total - 1 - index);
    } else {
      QuotientIs(n + total - index, total, q + 1, r - index);
      QuotientIs(n + total - 1 - index, total, q + 1, r - 1 - index);
    }
  }

  lemma {:induction false} QuotientsClose(x: nat, y: nat, b: nat)
    requires y <= x < y + b
    ensures y / b <= x / b <= y / b + 1
  {
    var d := x / b - y / b;
    assert x == (x / b) * b + x % b && y == (y / b) * b + y % b;
    assert d * b == x - y - x % b + y % b;
    assert (d - 1) * b == d * b - b;
    MultipleIsFar(d, b);
    MultipleIsFar(d - 1, b);
  }

  /** The size of a shard: the runnable tests so far, dealt out in turn. */
  lemma {:induction false} ShardSize(t: seq<seq<bool>>, total: nat, index: nat, i: nat, j: nat)
    requires index < total && i <= |t| && (if i < |t| then j <= |t[i]| else j == 0)
    ensures CountSelected(t, Part(total, index), i, j) == (Rank(t, i, j) + total - 1 - index) / total
    decreases i, j
  {
    if j > 0 {
      ShardSize(t, total, index, i, j - 1);
      NextQuotient(Rank(t, i, j - 1), total, index);
    } else if i > 0 {
      ShardSize(t, total, index, i - 1, |t[i - 1]|);
    } else {
      QuotientIs(total - 1 - index, total, 0, total - 1 - index);
    }
  }

  /** Shards differ in size by at most one. */
  lemma {:induction false} ShardsBalanced(t: seq<seq<bool>>, total: nat, a: nat, b: nat)
    requires a <= b < total
    ensures var na, nb := CountSelected(t, Part(total, a), |t|, 0), CountSelected(t, Part(total, b), |t|, 0);
            nb <= na <= nb + 1
  {
    hide CountSelected, Rank;
    ShardSize(t, total, a, |t|, 0);
    ShardSize(t, total, b, |t|, 0);
    var n := Rank(t, |t|, 0);
    QuotientsClose(n + total - 1 - a, n + total - 1 - b, total);
  }

  /** Together the shards run every runnable test once. */
  lemma {:induction false} ShardSizesAddUp(t: seq<seq<bool>>, total: nat, i: nat, j: nat)
    requires 0 < total && i <= |t| && (if i < |t| then j <= |t[i]| else j == 0)
    ensures SumOfSizes(t, total, total, i, j) == Rank(t, i, j)
    decreases i, j
  {
    if j > 0 {
      ShardSizesAddUp(t, total, i, j - 1);
      OneShardGrows(t, total, total, i, j);
    } else if i > 0 {
      ShardSizesAddUp(t, total, i - 1, |t[i - 1]|);
      SameSizes(t, total, total, i);
    } else {
      NoSizes(t, total, total);
    }
  }

  ghost function SumOfSizes(t: seq<seq<bool>>, total: nat, upto: nat, i: nat, j: nat): nat
    requires upto <= total && i <= |t| && (if i < |t| then j <= |t[i]| else j == 0)
  {
    if upto == 0 then 0
    else SumOfSizes(t, total, upto - 1, i, j) + CountSelected(t, Part(total, upto - 1), i, j)
  }

  lemma {:induction false} OneShardGrows(t: seq<seq<bool>>, total: nat, upto: nat, i: nat, j: nat)
    requires 0 < total && upto <= total && i < |t| && 0 < j <= |t[i]|
    ensures SumOfSizes(t, total, upto, i, j) == SumOfSizes(t, total, upto, i, j - 1)
            + (if t[i][j - 1] && Rank(t, i, j - 1) % total < upto then 1 else 0)
  {
    if upto > 0 { OneShardGrows(t, total, upto - 1, i, j); }
  }

  lemma {:induction false} SameSizes(t: seq<seq<bool>>, total: nat, upto: nat, i: nat)
    requires upto <= total && 0 < i <= |t|
    ensures SumOfSizes(t, total, upto, i, 0) == SumOfSizes(t, total, upto, i - 1, |t[i - 1]|)
  {
    if upto > 0 { SameSizes(t, total, upto - 1, i); }
  }

  lemma {:induction false} NoSizes(t: seq<seq<bool>>, total: nat, upto: nat)
    requires upto <= total
    ensures SumOfSizes(t, total, upto, 0, 0) == 0
  {
    if upto > 0 { NoSizes(t, total, upto - 1); }
  }

  // ----- the variables of the environment

  /** How the run is split, given the two variables, -1 when unset; `None` where the program stops. Both are unset, or
      the index is one of 0 to total - 1, and then it picks the tests whose rank leaves that remainder; the process of
      a death test is not split whatever they say. */
  function ShouldShard(totalShards: int, shardIndex: int, inSubprocessForDeathTest: bool): (s: Option<Shard>)
    ensures s.Some? <==> inSubprocessForDeathTest || (totalShards == -1 && shardIndex == -1) || 0 <= shardIndex < totalShards
    ensures inSubprocessForDeathTest || (totalShards == -1 && shardIndex == -1) ==> s == Some(All)
    ensures s.Some? ==> ValidShard(s.value)
    ensures s.Some? && !inSubprocessForDeathTest && shardIndex != -1 ==>
              forall rank: nat :: OnShard(s.value, rank) <==> rank % totalShards == shardIndex
  {
    if inSubprocessForDeathTest then Some(All)
    else if totalShards == -1 && shardIndex == -1 then Some(All)
    else if totalShards == -1 && shardIndex != -1 then None
    else if totalShards != -1 && shardIndex == -1 then None
    else if shardIndex < 0 || shardIndex >= totalShards then None
    else if totalShards > 1 then Some(Part(totalShards, shardIndex))
    else Some(All)
  }

  // ----- the method

  function ShouldRunTestOnShard(total: nat, index: nat, testId: nat): (b: bool)
    requires 0 < total
  {
    testId % total == index
  }

  method IsDisabled(testCaseName: CString, testName: CString) returns (b: bool)
    ensures b <==> Disabled(testCaseName, testName)
  {
    b := MatchesFilter(testCaseName, DISABLE_FILTER);
    if !b { b := MatchesFilter(testName, DISABLE_FILTER); }
  }

  /** The cases are different objects, and so are the tests. */
  ghost predicate AllDistinct(cases: seq<TestCase>)
    reads cases`tests
  {
    && Distinct(cases)
    && (forall i :: 0 <= i < |cases| ==> Distinct(cases[i].tests))
    && (forall i, k :: 0 <= i < k < |cases| ==> Apart(cases[i].tests, cases[k].tests))
  }

  ghost predicate Apart(a: seq<TestInfo>, b: seq<TestInfo>)
  {
    forall t :: t in a ==> t !in b
  }

  ghost predicate Marked(st: Settings, caseName: string, info: TestInfo, selected: bool)
    reads info
  {
    && info.shouldRun == selected
    && info.isDisabled == Disabled(caseName, info.name)
    && info.matchesFilter == SelectedBy(st.filter, caseName + "." + info.name)
  }

  /** The first `n` tests of the i-th case are marked, and the case is to run iff one of them is. */
  ghost predicate CaseMarked(st: Settings, shard: Shard, t: seq<seq<bool>>, i: nat, c: TestCase, n: nat)
    requires ValidShard(shard) && i < |t| && n <= |c.tests| == |t[i]|
    reads c`tests, c`shouldRun, c.tests
  {
    && (forall j :: 0 <= j < n ==> Marked(st, c.name, c.tests[j], IsSelected(t, shard, i, j)))
    && (c.shouldRun <==> exists j :: 0 <= j < n && c.tests[j].shouldRun)
  }

  /** Marks every test and every case, and returns how many tests run here. */
  method FilterTests(cases: seq<TestCase>, st: Settings, shard: Shard) returns (numSelected: nat)
    requires AllDistinct(cases) && ValidShard(shard)
    modifies cases`shouldRun, AllTests(cases)
    ensures numSelected == CountSelected(Table(st, cases), shard, |cases|, 0)
    ensures forall i :: 0 <= i < |cases| ==>
              |Table(st, cases)[i]| == |cases[i].tests| && CaseMarked(st, shard, Table(st, cases), i, cases[i], |cases[i].tests|)
  {
    hide AllDistinct, Rank, CountSelected, Row, Table, CaseMarked;
    ghost var t := Table(st, cases);
    NothingYet(t, shard);
    var numRunnable := 0;
    numSelected := 0;
    for i := 0 to |cases|
      invariant numRunnable == Rank(t, i, 0) && numSelected == CountSelected(t, shard, i, 0)
      invariant forall k :: 0 <= k < i ==> |t[k]| == |cases[k].tests| && CaseMarked(st, shard, t, k, cases[k], |cases[k].tests|)
    {
      numRunnable, numSelected := FilterNext(cases, st, shard, t, i, cases[i], numRunnable, numSelected);
    }
  }

  /** One round of the outer loop. */
  method FilterNext(ghost cases: seq<TestCase>, st: Settings, shard: Shard, ghost t: seq<seq<bool>>, ghost i: nat, c: TestCase,
                    numRunnable0: nat, numSelected0: nat) returns (numRunnable: nat, numSelected: nat)
    requires AllDistinct(cases) && ValidShard(shard) && i < |cases| && c == cases[i] && t == Table(st, cases)
    requires numRunnable0 == Rank(t, i, 0) && numSelected0 == CountSelected(t, shard, i, 0)
    requires forall k :: 0 <= k < i ==> |t[k]| == |cases[k].tests| && CaseMarked(st, shard, t, k, cases[k], |cases[k].tests|)
    modifies c`shouldRun, c.tests
    ensures numRunnable == Rank(t, i + 1, 0) && numSelected == CountSelected(t, shard, i + 1, 0)
    ensures forall k :: 0 <= k <= i ==> |t[k]| == |cases[k].tests| && CaseMarked(st, shard, t, k, cases[k], |cases[k].tests|)
  {
    hide AllDistinct, Rank, CountSelected, Row, Table, Marked, IsSelected;
    CasesApart(cases, i);
    TableAt(st, cases, i);
    numRunnable, numSelected := FilterCase(c, st, shard, t, i, numRunnable0, numSelected0);
    forall k | 0 <= k < i ensures CaseMarked(st, shard, t, k, cases[k], |cases[k].tests|) {
      var d := cases[k];
      forall j | 0 <= j < |d.tests|
        ensures d.tests[j].shouldRun == old(d.tests[j].shouldRun)
        ensures Marked(st, d.name, d.tests[j], IsSelected(t, shard, k, j))
      {
        assert d.tests[j] in d.tests;
        assert old(Marked(st, d.name, d.tests[j], IsSelected(t, shard, k, j)));
      }
    }
  }

  lemma {:induction false} CasesApart(cases: seq<TestCase>, i: nat)
    requires AllDistinct(cases) && i < |cases|
    ensures Distinct(cases[i].tests)
    ensures forall k :: 0 <= k < i ==> cases[k] != cases[i] && Apart(cases[k].tests, cases[i].tests)
  {
  }

  lemma {:induction false} NothingYet(t: seq<seq<bool>>, s: Shard)
    requires ValidShard(s)
    ensures |t| > 0 ==> Rank(t, 0, 0) == 0 && CountSelected(t, s, 0, 0) == 0
    ensures |t| == 0 ==> Rank(t, 0, 0) == 0 && CountSelected(t, s, 0, 0) == 0
  {
  }

  lemma {:induction false} CountOneMore(t: seq<seq<bool>>, s: Shard, i: nat, j: nat)
    requires ValidShard(s) && i < |t| && j < |t[i]|
    ensures Rank(t, i, j + 1) == Rank(t, i, j) + (if t[i][j] then 1 else 0)
    ensures CountSelected(t, s, i, j + 1) == CountSelected(t, s, i, j) + (if IsSelected(t, s, i, j) then 1 else 0)
  {
  }

  lemma {:induction false} NextCase(t: seq<seq<bool>>, s: Shard, i: nat)
    requires ValidShard(s) && i < |t|
    ensures Rank(t, i + 1, 0) == Rank(t, i, |t[i]|)
    ensures CountSelected(t, s, i + 1, 0) == CountSelected(t, s, i, |t[i]|)
  {
  }

  /** The inner loop: the tests of one case. */
  method FilterCase(c: TestCase, st: Settings, shard: Shard, ghost t: seq<seq<bool>>, ghost i: nat,
                    numRunnable0: nat, numSelected0: nat) returns (numRunnable: nat, numSelected: nat)
    requires Distinct(c.tests) && ValidShard(shard) && i < |t| && t[i] == Row(st, c.name, c.tests, |c.tests|)
    requires numRunnable0 == Rank(t, i, 0) && numSelected0 == CountSelected(t, shard, i, 0)
    modifies c`shouldRun, c.tests
    ensures numRunnable == Rank(t, i + 1, 0) && numSelected == CountSelected(t, shard, i + 1, 0)
    ensures CaseMarked(st, shard, t, i, c, |c.tests|)
  {
    hide Runnable, Row, Rank, CountSelected, Marked;
    numRunnable, numSelected := numRunnable0, numSelected0;
    c.shouldRun := false;
    for j := 0 to |c.tests|
      invariant numRunnable == Rank(t, i, j) && numSelected == CountSelected(t, shard, i, j)
      invariant CaseMarked(st, shard, t, i, c, j)
    {
      RowAt(st, c.name, c.tests, |c.tests|, j);
      CountOneMore(t, shard, i, j);
      var runnable, selected := FilterTest(c, st, shard, t, i, j, numRunnable);
      numRunnable := numRunnable + (if runnable then 1 else 0);
      numSelected := numSelected + (if selected then 1 else 0);
    }
    NextCase(t, shard, i);
  }

  /** One test: decides whether it runs here and records the outcome. */
  method FilterTest(c: TestCase, st: Settings, shard: Shard, ghost t: seq<seq<bool>>, ghost i: nat, j: nat, numRunnable: nat)
    returns (runnable: bool, selected: bool)
    requires Distinct(c.tests) && ValidShard(shard) && i < |t| && j < |c.tests| == |t[i]|
    requires t[i][j] == Runnable(st, c.name, c.tests[j].name) && numRunnable == Rank(t, i, j)
    requires CaseMarked(st, shard, t, i, c, j)
    modifies c`shouldRun, c.tests[j]
    ensures runnable == t[i][j] && selected == IsSelected(t, shard, i, j)
    ensures CaseMarked(st, shard, t, i, c, j + 1)
  {
    hide Disabled, SelectedBy, Rank, CaseMarked;
    var info := c.tests[j];
    var disabled := IsDisabled(c.name, info.name);
    var matches := FilterMatchesTest(c.name, info.name, st.filter);
    runnable := (st.alsoDisabled || !disabled) && matches;
    selected := runnable && (shard.All? || ShouldRunTestOnShard(shard.total, shard.index, numRunnable));
    Record(c, st, shard, t, i, j, info, disabled, matches, selected);
  }

  method Record(c: TestCase, st: Settings, shard: Shard, ghost t: seq<seq<bool>>, ghost i: nat, ghost j: nat, info: TestInfo,
                disabled: bool, matches: bool, selected: bool)
    requires Distinct(c.tests) && ValidShard(shard) && i < |t| && j < |c.tests| == |t[i]| && info == c.tests[j]
    requires disabled == Disabled(c.name, info.name)
    requires matches == SelectedBy(st.filter, c.name + "." + info.name)
    requires selected == IsSelected(t, shard, i, j)
    requires CaseMarked(st, shard, t, i, c, j)
    modifies c`shouldRun, info
    ensures CaseMarked(st, shard, t, i, c, j + 1)
  {
    hide Disabled, SelectedBy, Rank, IsSelected, Marked;
    info.isDisabled := disabled;
    info.matchesFilter := matches;
    info.shouldRun := selected;
    c.shouldRun := c.shouldRun || selected;
    forall k | 0 <= k < j
      ensures c.tests[k].shouldRun == old(c.tests[k].shouldRun)
      ensures Marked(st, c.name, c.tests[k], IsSelected(t, shard, i, k))
    {
      assert c.tests[k] != info;
      assert old(Marked(st, c.name, c.tests[k], IsSelected(t, shard, i, k)));
    }
    NowMarked(st, c.name, info, selected);
  }

  lemma {:induction false} NowMarked(st: Settings, caseName: string, info: TestInfo, selected: bool)
    requires info.shouldRun == selected && info.isDisabled == Disabled(caseName, info.name)
    requires info.matchesFilter == SelectedBy(st.filter, caseName + "." + info.name)
    ensures Marked(st, caseName, info, selected)
  {
  }
}
