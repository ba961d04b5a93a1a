/** What became of messages, and sequences of their numbers. */
module History {
  datatype Fate = Evicted | Popped

  function Repeat(f: Fate, n: nat): (r: seq<Fate>)
    ensures |r| == n && forall i :: 0 <= i < n ==> r[i] == f
  {
    seq(n, _ => f)
  }

  ghost predicate Increasing(ks: seq<nat>)
  {
    forall i, j :: 0 <= i < j < |ks| ==> ks[i] < ks[j]
  }

  ghost predicate AllBelow(ks: seq<nat>, bound: nat)
  {
    forall i :: 0 <= i < |ks| ==> ks[i] < bound
  }
}
