/** What the shards of a run do together: filtering, splitting and running, composed. */
module ShardedRuns {
  import opened Wrappers
  import opened Orders
  import opened RunOrder
  import opened Sharding

  ghost predicate SameShape<T>(tests: seq<seq<T>>, t: seq<seq<bool>>)
  {
    |tests| == |t| && forall i :: 0 <= i < |t| ==> |tests[i]| == |t[i]|
  }

  /** What the tests contribute on a shard. */
  ghost function ShardPlan<T>(tests: seq<seq<T>>, t: seq<seq<bool>>, s: Shard): (plan: Plan<T>)
    requires SameShape(tests, t) && ValidShard(s)
    ensures |plan| == |t| && forall i :: 0 <= i < |t| ==> plan[i] == ShardCase(tests, t, s, i)
  {
    seq(|t|, i requires 0 <= i < |t| => ShardCase(tests, t, s, i))
  }

  ghost function ShardCase<T>(tests: seq<seq<T>>, t: seq<seq<bool>>, s: Shard, i: nat): (c: seq<seq<T>>)
    requires SameShape(tests, t) && ValidShard(s) && i < |t|
    ensures |c| == |t[i]| && forall j :: 0 <= j < |t[i]| ==> c[j] == if IsSelected(t, s, i, j) then [tests[i][j]] else []
  {
    seq(|t[i]|, j requires 0 <= j < |t[i]| => if IsSelected(t, s, i, j) then [tests[i][j]] else [])
  }

  /** What an iteration runs on a shard; a shard without tests runs nothing. */
  ghost function ShardLog<T>(tests: seq<seq<T>>, t: seq<seq<bool>>, s: Shard, d: nat, seed: Option<nat>): seq<T>
    requires SameShape(tests, t) && ValidShard(s) && d <= |t|
  {
    if CountSelected(t, s, |t|, 0) > 0 then IterationLog(ShardPlan(tests, t, s), d, seed) else []
  }

  /** The selected tests before the j-th of the i-th case; without sharding these are the runnable ones. */
  ghost function Picked<T>(tests: seq<seq<T>>, t: seq<seq<bool>>, s: Shard, i: nat, j: nat): multiset<T>
    requires SameShape(tests, t) && ValidShard(s) && i <= |t| && (if i < |t| then j <= |t[i]| else j == 0)
    decreases i, j
  {
    if j > 0 then Picked(tests, t, s, i, j - 1) + multiset(if IsSelected(t, s, i, j - 1) then [tests[i][j - 1]] else [])
    else if i > 0 then Picked(tests, t, s, i - 1, |t[i - 1]|)
    else multiset{}
  }

  lemma {:induction false} PickedCount<T>(tests: seq<seq<T>>, t: seq<seq<bool>>, s: Shard, i: nat, j: nat)
    requires SameShape(tests, t) && ValidShard(s) && i <= |t| && (if i < |t| then j <= |t[i]| else j == 0)
    ensures |Picked(tests, t, s, i, j)| == CountSelected(t, s, i, j)
    decreases i, j
  {
    if j > 0 { PickedCount(tests, t, s, i, j - 1); } else if i > 0 { PickedCount(tests, t, s, i - 1, |t[i - 1]|); }
  }

  // ----- one shard

  lemma {:induction false} CasePicked<T>(tests: seq<seq<T>>, t: seq<seq<bool>>, s: Shard, i: nat, j: nat)
    requires SameShape(tests, t) && ValidShard(s) && i < |t| && j <= |t[i]|
    ensures Picked(tests, t, s, i, j) == Picked(tests, t, s, i, 0) + multiset(Joined(ShardCase(tests, t, s, i), InOrder(j)))
  {
    hide Joined, IsSelected;
    var c := ShardCase(tests, t, s, i);
    if j == 0 {
      NothingJoined(c);
      assert InOrder(0) == [];
    } else {
      CasePicked(tests, t, s, i, j - 1);
      InOrderSnoc(j - 1);
      JoinedSnoc(c, InOrder(j - 1), j - 1);
    }
  }

  lemma {:induction false} SelectedIsPicked<T>(tests: seq<seq<T>>, t: seq<seq<bool>>, s: Shard, i: nat)
    requires SameShape(tests, t) && ValidShard(s) && i <= |t|
    ensures multiset(Selected(ShardPlan(tests, t, s), 0, i)) == Picked(tests, t, s, i, 0)
  {
    hide Joined, InOrder;
    if i > 0 {
      SelectedIsPicked(tests, t, s, i - 1);
      CasePicked(tests, t, s, i - 1, |t[i - 1]|);
    }
  }

  lemma {:induction false} SelectedSplits<T>(plan: Plan<T>, a: nat, b: nat)
    requires a <= b <= |plan|
    ensures Selected(plan, 0, b) == Selected(plan, 0, a) + Selected(plan, a, b)
  {
    if a < b { SelectedSplits(plan, a, b - 1); }
  }

  lemma {:induction false} IterationRunsSelected<T>(plan: Plan<T>, d: nat, seed: Option<nat>)
    requires d <= |plan|
    ensures multiset(IterationLog(plan, d, seed)) == multiset(Selected(plan, 0, |plan|))
  {
    hide IterationLog, Selected;
    var log := IterationLog(plan, d, seed);
    IterationLogIsComplete(plan, d, seed);
    var k :| 0 <= k <= |log| && multiset(log[..k]) == multiset(Selected(plan, 0, d))
              && multiset(log[k..]) == multiset(Selected(plan, d, |plan|));
    assert log == log[..k] + log[k..];
    SelectedSplits(plan, d, |plan|);
  }

  /** Whatever the seed, a shard runs the tests selected there, each once. */
  lemma {:induction false} ShardLogIsPicked<T>(tests: seq<seq<T>>, t: seq<seq<bool>>, s: Shard, d: nat, seed: Option<nat>)
    requires SameShape(tests, t) && ValidShard(s) && d <= |t|
    ensures multiset(ShardLog(tests, t, s, d, seed)) == Picked(tests, t, s, |t|, 0)
  {
    hide IterationLog, Selected, Picked, CountSelected, ShardPlan, IsSelected;
    PickedCount(tests, t, s, |t|, 0);
    if CountSelected(t, s, |t|, 0) > 0 {
      IterationRunsSelected(ShardPlan(tests, t, s), d, seed);
      SelectedIsPicked(tests, t, s, |t|);
    }
  }

  // ----- all shards

  /** What the first `n` of `total` shards select. */
  ghost function PickedByAll<T>(tests: seq<seq<T>>, t: seq<seq<bool>>, total: nat, n: nat, i: nat, j: nat): multiset<T>
    requires SameShape(tests, t) && n <= total && i <= |t| && (if i < |t| then j <= |t[i]| else j == 0)
  {
    if n == 0 then multiset{}
    else PickedByAll(tests, t, total, n - 1, i, j) + Picked(tests, t, Part(total, n - 1), i, j)
  }

  lemma {:induction false} OneShardPicks<T>(tests: seq<seq<T>>, t: seq<seq<bool>>, total: nat, n: nat, i: nat, j: nat)
    requires SameShape(tests, t) && 0 < total && n <= total && i < |t| && 0 < j <= |t[i]|
    ensures PickedByAll(tests, t, total, n, i, j) == PickedByAll(tests, t, total, n, i, j - 1)
            + multiset(if t[i][j - 1] && Rank(t, i, j - 1) % total < n then [tests[i][j - 1]] else [])
  {
    hide Rank, Picked;
    if n > 0 {
      OneShardPicks(tests, t, total, n - 1, i, j);
      PickedGrows(tests, t, total, n - 1, i, j);
    }
  }

  lemma {:induction false} PickedGrows<T>(tests: seq<seq<T>>, t: seq<seq<bool>>, total: nat, k: nat, i: nat, j: nat)
    requires SameShape(tests, t) && k < total && i < |t| && 0 < j <= |t[i]|
    ensures Picked(tests, t, Part(total, k), i, j) == Picked(tests, t, Part(total, k), i, j - 1)
            + multiset(if t[i][j - 1] && Rank(t, i, j - 1) % total == k then [tests[i][j - 1]] else [])
  {
  }

  lemma {:induction false} SamePicks<T>(tests: seq<seq<T>>, t: seq<seq<bool>>, total: nat, n: nat, i: nat)
    requires SameShape(tests, t) && n <= total && 0 < i <= |t|
    ensures PickedByAll(tests, t, total, n, i, 0) == PickedByAll(tests, t, total, n, i - 1, |t[i - 1]|)
  {
    if n > 0 { SamePicks(tests, t, total, n - 1, i); }
  }

  lemma {:induction false} NoPicks<T>(tests: seq<seq<T>>, t: seq<seq<bool>>, total: nat, n: nat)
    requires SameShape(tests, t) && n <= total
    ensures PickedByAll(tests, t, total, n, 0, 0) == multiset{}
  {
    if n > 0 { NoPicks(tests, t, total, n - 1); }
  }

  lemma {:induction false} PicksAddUp<T>(tests: seq<seq<T>>, t: seq<seq<bool>>, total: nat, i: nat, j: nat)
    requires SameShape(tests, t) && 0 < total && i <= |t| && (if i < |t| then j <= |t[i]| else j == 0)
    ensures PickedByAll(tests, t, total, total, i, j) == Picked(tests, t, All, i, j)
    decreases i, j
  {
    if j > 0 {
      PicksAddUp(tests, t, total, i, j - 1);
      OneShardPicks(tests, t, total, total, i, j);
    } else if i > 0 {
      PicksAddUp(tests, t, total, i - 1, |t[i - 1]|);
      SamePicks(tests, t, total, total, i);
    } else {
      NoPicks(tests, t, total, total);
    }
  }

  /** What the first `n` shards run together in one iteration, each with a seed of its own. */
  ghost function AllLogs<T>(tests: seq<seq<T>>, t: seq<seq<bool>>, d: nat, seeds: seq<Option<nat>>, n: nat): multiset<T>
    requires SameShape(tests, t) && d <= |t| && n <= |seeds|
  {
    if n == 0 then multiset{}
    else AllLogs(tests, t, d, seeds, n - 1) + multiset(ShardLog(tests, t, Part(|seeds|, n - 1), d, seeds[n - 1]))
  }

  lemma {:induction false} LogsArePicks<T>(tests: seq<seq<T>>, t: seq<seq<bool>>, d: nat, seeds: seq<Option<nat>>, n: nat)
    requires SameShape(tests, t) && d <= |t| && n <= |seeds|
    ensures AllLogs(tests, t, d, seeds, n) == PickedByAll(tests, t, |seeds|, n, |t|, 0)
  {
    hide ShardLog, Picked;
    if n > 0 {
      LogsArePicks(tests, t, d, seeds, n - 1);
      ShardLogIsPicked(tests, t, Part(|seeds|, n - 1), d, seeds[n - 1]);
    }
  }

  /** Whatever the seeds, one iteration of all shards runs every runnable test exactly once, and nothing else: the
      same as a run that is not sharded. */
  lemma {:induction false} ShardsRunEverythingOnce<T>(tests: seq<seq<T>>, t: seq<seq<bool>>, d: nat, seeds: seq<Option<nat>>, seed: Option<nat>)
    requires SameShape(tests, t) && d <= |t| && seeds != []
    ensures AllLogs(tests, t, d, seeds, |seeds|) == Picked(tests, t, All, |t|, 0) == multiset(ShardLog(tests, t, All, d, seed))
  {
    LogsArePicks(tests, t, d, seeds, |seeds|);
    PicksAddUp(tests, t, |seeds|, |t|, 0);
    ShardLogIsPicked(tests, t, All, d, seed);
  }

  // ----- test by test

  /** No test stands in two places. */
  ghost predicate AllDifferent<T>(tests: seq<seq<T>>)
  {
    forall i, j, a, b :: 0 <= i < |tests| && 0 <= j < |tests[i]| && 0 <= a < |tests| && 0 <= b < |tests[a]|
      ==> tests[i][j] != tests[a][b] || (i == a && j == b)
  }

  lemma {:induction false} SamePlace<T>(tests: seq<seq<T>>, i: nat, j: nat, a: nat, b: nat)
    requires AllDifferent(tests) && i < |tests| && j < |tests[i]| && a < |tests| && b < |tests[a]|
    ensures tests[i][j] == tests[a][b] <==> i == a && j == b
  {
  }

  lemma {:induction false} PickedTimes<T>(tests: seq<seq<T>>, t: seq<seq<bool>>, s: Shard, i: nat, j: nat, a: nat, b: nat)
    requires SameShape(tests, t) && AllDifferent(tests) && ValidShard(s) && a < |t| && b < |t[a]|
    requires i <= |t| && (if i < |t| then j <= |t[i]| else j == 0)
    ensures Picked(tests, t, s, i, j)[tests[a][b]] == if (a < i || (a == i && b < j)) && IsSelected(t, s, a, b) then 1 else 0
    decreases i, j
  {
    hide IsSelected, AllDifferent;
    if j > 0 {
      PickedTimes(tests, t, s, i, j - 1, a, b);
      SamePlace(tests, i, j - 1, a, b);
    } else if i > 0 {
      PickedTimes(tests, t, s, i - 1, |t[i - 1]|, a, b);
    }
  }

  /** Together the shards run a test once if it is runnable, and otherwise not at all. */
  lemma {:induction false} EachTestOnce<T>(tests: seq<seq<T>>, t: seq<seq<bool>>, d: nat, seeds: seq<Option<nat>>, i: nat, j: nat)
    requires SameShape(tests, t) && AllDifferent(tests) && d <= |t| && seeds != [] && i < |t| && j < |t[i]|
    ensures AllLogs(tests, t, d, seeds, |seeds|)[tests[i][j]] == if t[i][j] then 1 else 0
  {
    hide AllDifferent, Picked, AllLogs;
    ShardsRunEverythingOnce(tests, t, d, seeds, None);
    PickedTimes(tests, t, All, |t|, 0, i, j);
  }
}
