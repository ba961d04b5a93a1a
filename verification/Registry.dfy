/** The registry of test cases: registration, shuffling, running and restoring the order. */
module Registry {
  import opened Wrappers
  import opened CStrings
  import opened TestFilter
  import opened FilterMeaning
  import opened Shuffling
  import opened Orders
  import opened TestCases
  import opened RunOrder
  import opened Sharding
  import opened ShardedRuns

  const DEATH_TEST_CASE_FILTER: CString := "*DeathTest:*DeathTest/*"

  ghost predicate IsDeath(name: string) { AnyGlobMatches(name, DEATH_TEST_CASE_FILTER) }

  /** Death test cases are those whose name ends in DeathTest, or has it right before a slash. */
  lemma {:induction false} DeathMeans(name: string)
    ensures IsDeath(name) <==> (|name| >= 9 && name[|name| - 9..] == "DeathTest") || Contains(name, "DeathTest/")
  {
    hide GlobMatches, AnyGlobMatches, Contains;
    assert "*DeathTest" + ":" + "*DeathTest/*" == DEATH_TEST_CASE_FILTER;
    FiltersJoined(name, "*DeathTest", "*DeathTest/*");
    FiltersJoined(name, "*DeathTest/*", "");
    assert "*" + "DeathTest" == "*DeathTest" && "*" + "DeathTest/" + "*" == "*DeathTest/*";
    SuffixGlob("DeathTest", name);
    InnerGlob("DeathTest/", name);
  }

  // ----- registration, on names

  /** The names of the registered cases, the first `deaths` of which are death test cases. */
  datatype Registered = Registered(names: seq<string>, deaths: nat)
  {
    ghost predicate Ok()
    {
      && deaths <= |names|
      && Distinct(names)
      && forall i :: 0 <= i < |names| ==> (IsDeath(names[i]) <==> i < deaths)
    }
  }

  /** A new death test case goes after the last one, another new case to the end. */
  ghost function Add(r: Registered, name: string): (a: Registered)
    requires r.deaths <= |r.names|
    ensures a.deaths <= |a.names|
  {
    if name in r.names then r
    else if IsDeath(name) then Registered(r.names[..r.deaths] + [name] + r.names[r.deaths..], r.deaths + 1)
    else Registered(r.names + [name], r.deaths)
  }

  ghost function AfterAll(calls: seq<string>): (r: Registered)
    ensures r.deaths <= |r.names|
  {
    if calls == [] then Registered([], 0) else Add(AfterAll(Front(calls)), Last(calls))
  }

  /** The different names of one kind among the calls, in order of first appearance. */
  ghost function Firsts(calls: seq<string>, death: bool): seq<string>
  {
    if calls == [] then [] else
      var before, name := Firsts(Front(calls), death), Last(calls);
      if IsDeath(name) == death && name !in before then before + [name] else before
  }

  lemma {:induction false} FirstsOfKind(calls: seq<string>, death: bool, name: string)
    ensures name in Firsts(calls, death) <==> name in calls && IsDeath(name) == death
  {
    hide IsDeath;
    if calls != [] {
      FirstsOfKind(Front(calls), death, name);
      assert calls == Front(calls) + [Last(calls)];
    }
  }

  /** After any registrations the cases are those of the death tests, in order of first registration, followed by the
      others in order of first registration. */
  lemma {:induction false} RegistrationOrder(calls: seq<string>)
    ensures AfterAll(calls) == Registered(Firsts(calls, true) + Firsts(calls, false), |Firsts(calls, true)|)
  {
    hide IsDeath;
    if calls != [] {
      var before, name := Front(calls), Last(calls);
      RegistrationOrder(before);
      FirstsOfKind(before, true, name);
      FirstsOfKind(before, false, name);
      var d, o := Firsts(before, true), Firsts(before, false);
      assert (d + o)[..|d|] == d && (d + o)[|d|..] == o;
      assert name in d + o <==> name in d || name in o;
      assert d + o + [name] == d + (o + [name]);
    }
  }

  lemma {:induction false} AddKeepsOk(r: Registered, name: string)
    requires r.Ok()
    ensures Add(r, name).Ok()
  {
    hide IsDeath;
  }

  // ----- the seeds of the iterations

  const MAX_RANDOM_SEED := 99999

  function GetNextRandomSeed(seed: nat): (n: nat)
    requires 1 <= seed <= MAX_RANDOM_SEED
    ensures 1 <= n <= MAX_RANDOM_SEED
  {
    if seed + 1 > MAX_RANDOM_SEED then 1 else seed + 1
  }

  /** The seed of the i-th iteration. */
  function SeedOf(seed: nat, i: nat): (s: nat)
    requires 1 <= seed <= MAX_RANDOM_SEED
    ensures 1 <= s <= MAX_RANDOM_SEED
  {
    if i == 0 then seed else GetNextRandomSeed(SeedOf(seed, i - 1))
  }

  /** Valid seeds come round in a cycle. */
  lemma {:induction false} SeedsCycle(seed: nat, i: nat)
    requires 1 <= seed <= MAX_RANDOM_SEED
    ensures SeedOf(seed, i) == (seed - 1 + i) % 99999 + 1
  {
    if i > 0 { SeedsCycle(seed, i - 1); }
  }

  // ----- the cases, and the order of the tests in each

  ghost function NamesOf(cases: seq<TestCase>): (names: seq<string>)
    ensures |names| == |cases| && forall i :: 0 <= i < |cases| ==> names[i] == cases[i].name
  {
    seq(|cases|, i requires 0 <= i < |cases| => cases[i].name)
  }

  ghost function Sizes(cases: seq<TestCase>): (sizes: seq<nat>)
    reads cases`tests
    ensures |sizes| == |cases| && forall i :: 0 <= i < |cases| ==> sizes[i] == |cases[i].tests|
  {
    if cases == [] then [] else Sizes(Front(cases)) + [|Last(cases).tests|]
  }

  ghost predicate InVectors(cases: seq<TestCase>, vectors: set<Vector<nat>>)
  {
    forall i :: 0 <= i < |cases| ==> cases[i].testIndices in vectors
  }

  /** Every case has a vector of its own, none of them `other`. */
  ghost predicate OwnVectors(cases: seq<TestCase>, vectors: set<Vector<nat>>, other: Vector<nat>)
  {
    && other !in vectors && InVectors(cases, vectors)
    && (forall i, j :: 0 <= i < j < |cases| ==> cases[i].testIndices != cases[j].testIndices)
  }

  /** The current orders of the tests within the cases. */
  ghost function CurrentOrders(cases: seq<TestCase>, vectors: set<Vector<nat>>): (orders: seq<seq<nat>>)
    requires InVectors(cases, vectors)
    reads vectors
    ensures |orders| == |cases| && forall i :: 0 <= i < |cases| ==> orders[i] == cases[i].testIndices.items
  {
    seq(|cases|, i requires 0 <= i < |cases| reads vectors => cases[i].testIndices.items)
  }

  lemma {:induction false} TheseOrders(cases: seq<TestCase>, vectors: set<Vector<nat>>, orders: seq<seq<nat>>)
    requires InVectors(cases, vectors)
    requires |orders| == |cases| && forall i :: 0 <= i < |cases| ==> cases[i].testIndices.items == orders[i]
    ensures CurrentOrders(cases, vectors) == orders
  {
  }

  ghost predicate Small(sizes: seq<nat>)
  {
    forall i :: 0 <= i < |sizes| ==> sizes[i] < MAX_RANGE
  }

  lemma {:induction false} CaseIsValid(cases: seq<TestCase>, orders: seq<seq<nat>>, i: nat)
    requires i < |cases| && InnerOrders(Sizes(cases), orders) && Small(Sizes(cases)) && cases[i].testIndices.items == orders[i]
    ensures cases[i].Valid()
  {
    hide IsOrder;
  }

  method ShuffleInnerTests(cases: seq<TestCase>, ghost vectors: set<Vector<nat>>, ghost other: Vector<nat>, random: Random)
    requires OwnVectors(cases, vectors, other)
    requires InnerOrders(Sizes(cases), CurrentOrders(cases, vectors)) && Small(Sizes(cases))
    modifies random, vectors
    ensures CurrentOrders(cases, vectors) == ShuffledOrders(old(CurrentOrders(cases, vectors)), old(random.state))
  {
    hide InnerOrders, ShuffledRange, ShuffledOrders, StateAtCase, Sizes, Small;
    ghost var orders, state := CurrentOrders(cases, vectors), random.state;
    ghost var shuffled := ShuffledOrders(orders, state);
    StateAtFirst(orders, state);
    for i := 0 to |cases|
      invariant random.state == StateAtCase(orders, state, i)
      invariant forall k :: 0 <= k < i ==> cases[k].testIndices.items == shuffled[k]
      invariant forall k :: i <= k < |cases| ==> cases[k].testIndices.items == orders[k]
    {
      CaseIsValid(cases, orders, i);
      ShuffleNext(cases[i], random, orders, state, i);
    }
    TheseOrders(cases, vectors, shuffled);
  }

  lemma {:induction false} StateAtFirst(orders: seq<seq<nat>>, state: nat)
    ensures StateAtCase(orders, state, 0) == state
  {
  }

  method ShuffleNext(c: TestCase, random: Random, ghost orders: seq<seq<nat>>, ghost state: nat, ghost i: nat)
    requires i < |orders| && c.Valid() && c.testIndices.items == orders[i] && random.state == StateAtCase(orders, state, i)
    modifies c.testIndices, random
    ensures c.testIndices.items == ShuffledOrders(orders, state)[i] && random.state == StateAtCase(orders, state, i + 1)
  {
    hide ShuffledRange;
    c.ShuffleTests(random);
  }

  // ----- what the cases contribute to a run

  ghost function PlanOf(cases: seq<TestCase>): (plan: Plan<TestInfo>)
    reads cases, AllTests(cases)
    ensures |plan| == |cases|
  {
    if cases == [] then [] else
      assert forall t :: t in Last(cases).tests ==> t in AllTests(cases);
      assert AllTests(Front(cases)) <= AllTests(cases);
      PlanOf(Front(cases)) + [CasePlan(Last(cases))]
  }

  lemma {:induction false} PlanOfAt(cases: seq<TestCase>, i: nat)
    requires i < |cases|
    ensures PlanOf(cases)[i] == CasePlan(cases[i])
  {
    hide CasePlan;
    if i < |cases| - 1 { PlanOfAt(Front(cases), i); }
  }

  lemma {:induction false} PlanIs(cases: seq<TestCase>, plan: Plan<TestInfo>)
    requires |plan| == |cases|
    ensures plan == PlanOf(cases) <==> forall i :: 0 <= i < |cases| ==> plan[i] == CasePlan(cases[i])
  {
    hide PlanOf, CasePlan;
    forall i | 0 <= i < |cases| ensures PlanOf(cases)[i] == CasePlan(cases[i]) { PlanOfAt(cases, i); }
  }

  // ----- putting a new case in its place

  function Placed<T>(s: seq<T>, at: nat, x: T): (r: seq<T>)
    requires at <= |s|
    ensures |r| == |s| + 1 && forall i :: 0 <= i < |r| ==> r[i] == if i < at then s[i] else if i == at then x else s[i - 1]
  {
    s[..at] + [x] + s[at..]
  }

  lemma {:induction false} PlacedIs<T>(s: seq<T>, at: nat, x: T)
    requires at <= |s|
    ensures Placed(s, at, x) == s[..at] + [x] + s[at..]
    ensures at == |s| ==> Placed(s, at, x) == s + [x]
    ensures forall y :: y in Placed(s, at, x) <==> y in s || y == x
  {
    assert s == s[..at] + s[at..];
  }

  /** Where a new case with this name goes. */
  ghost function PlaceOf(r: Registered, name: string): nat
  {
    if IsDeath(name) then r.deaths else |r.names|
  }

  lemma {:induction false} AddPlaces(r: Registered, name: string)
    requires r.deaths <= |r.names| && name !in r.names
    ensures Add(r, name) == Registered(Placed(r.names, PlaceOf(r, name), name), r.deaths + (if IsDeath(name) then 1 else 0))
  {
    hide IsDeath;
    assert r.names[|r.names|..] == [] && r.names[..|r.names|] == r.names;
  }

  lemma {:induction false} AddAgain(r: Registered, name: string)
    requires r.deaths <= |r.names| && name in r.names
    ensures Add(r, name) == r
  {
  }

  /** Putting a case in its place is registering its name. */
  lemma {:induction false} RegisteredPlaced(cases: seq<TestCase>, deaths: nat, c: TestCase)
    requires Registered(NamesOf(cases), deaths).Ok() && c.name !in NamesOf(cases)
    ensures var r := Registered(NamesOf(cases), deaths);
            var a := Registered(NamesOf(Placed(cases, PlaceOf(r, c.name), c)), deaths + (if IsDeath(c.name) then 1 else 0));
            a == Add(r, c.name) && a.Ok()
  {
    hide IsDeath;
    var r := Registered(NamesOf(cases), deaths);
    AddPlaces(r, c.name);
    AddKeepsOk(r, c.name);
    assert NamesOf(Placed(cases, PlaceOf(r, c.name), c)) == Placed(NamesOf(cases), PlaceOf(r, c.name), c.name);
  }

  lemma {:induction false} PlacedOwnVectors(cases: seq<TestCase>, vectors: set<Vector<nat>>, other: Vector<nat>, at: nat, c: TestCase)
    requires at <= |cases| && OwnVectors(cases, vectors, other) && c.testIndices != other && c.testIndices !in vectors
    ensures OwnVectors(Placed(cases, at, c), vectors + {c.testIndices}, other)
    ensures InVectors(Placed(cases, at, c), vectors + {c.testIndices})
    ensures other !in vectors
  {
  }

  lemma {:induction false} PlacedOrders(sizes: seq<nat>, at: nat, n: nat)
    requires at <= |sizes|
    ensures NaturalOrders(Placed(sizes, at, n)) == Placed(NaturalOrders(sizes), at, InOrder(n))
    ensures Small(sizes) && n < MAX_RANGE ==> Small(Placed(sizes, at, n))
  {
  }

  lemma {:induction false} TheseSizes(cases: seq<TestCase>, sizes: seq<nat>)
    requires |sizes| == |cases| && forall i :: 0 <= i < |cases| ==> |cases[i].tests| == sizes[i]
    ensures Sizes(cases) == sizes
  {
  }

  lemma {:induction false} NaturalOrdersFit(sizes: seq<nat>)
    ensures InnerOrders(sizes, NaturalOrders(sizes))
  {
  }

  /** A new case, its tests in order, leaves all tests in order. */
  lemma {:induction false} PlacedNatural(cases: seq<TestCase>, vectors: set<Vector<nat>>, at: nat, c: TestCase)
    requires at <= |cases| && InVectors(cases, vectors) && CurrentOrders(cases, vectors) == NaturalOrders(Sizes(cases))
    requires Small(Sizes(cases)) && |c.tests| < MAX_RANGE && c.testIndices.items == InOrder(|c.tests|)
    ensures var placed, more := Placed(cases, at, c), vectors + {c.testIndices};
            && |placed| == |cases| + 1 && InVectors(placed, more)
            && CurrentOrders(placed, more) == NaturalOrders(Sizes(placed)) && Small(Sizes(placed))
  {
    hide InOrder, Sizes, CurrentOrders, NaturalOrders;
    var placed, more := Placed(cases, at, c), vectors + {c.testIndices};
    var sizes := Placed(Sizes(cases), at, |c.tests|);
    TheseSizes(placed, sizes);
    PlacedOrders(Sizes(cases), at, |c.tests|);
    TheseOrders(placed, more, Placed(CurrentOrders(cases, vectors), at, c.testIndices.items));
  }

  // ----- the class

  /** What registration keeps, whatever the current order. */
  ghost predicate Sound(cases: seq<TestCase>, deaths: nat, vectors: set<Vector<nat>>, other: Vector<nat>)
  {
    && deaths <= |cases| < MAX_RANGE
    && Registered(NamesOf(cases), deaths).Ok()
    && OwnVectors(cases, vectors, other)
  }

  lemma {:induction false} SoundMeans(cases: seq<TestCase>, deaths: nat, vectors: set<Vector<nat>>, other: Vector<nat>)
    requires Sound(cases, deaths, vectors, other)
    ensures deaths <= |cases| < MAX_RANGE && OwnVectors(cases, vectors, other)
  {
  }

  /** A new case in its place leaves everything sound. */
  lemma {:induction false} PlacedSound(cases: seq<TestCase>, deaths: nat, vectors: set<Vector<nat>>, other: Vector<nat>, at: nat, c: TestCase)
    requires Sound(cases, deaths, vectors, other) && |cases| + 1 < MAX_RANGE && c.name !in NamesOf(cases)
    requires c.testIndices != other && c.testIndices !in vectors
    requires at == PlaceOf(Registered(NamesOf(cases), deaths), c.name)
    ensures at <= |cases|
    ensures var r := Registered(NamesOf(cases), deaths);
            var more := deaths + (if IsDeath(c.name) then 1 else 0);
            && Sound(Placed(cases, at, c), more, vectors + {c.testIndices}, other)
            && Registered(NamesOf(Placed(cases, at, c)), more) == Add(r, c.name)
  {
    hide IsDeath, Registered.Ok, Add, NamesOf;
    RegisteredPlaced(cases, deaths, c);
    PlacedOwnVectors(cases, vectors, other, at, c);
  }

  class UnitTestImpl {
    const random: Random
    const testCaseIndices: Vector<nat>
    var testCases: seq<TestCase>
    var lastDeathTestCase: int
    /** The vectors of the cases. */
    ghost var vectors: set<Vector<nat>>

    ghost function Abs(): Registered
      requires lastDeathTestCase >= -1
      reads this
    {
      Registered(NamesOf(testCases), lastDeathTestCase + 1)
    }

    ghost predicate Valid()
      reads this, testCaseIndices, testCases, vectors
    {
      && lastDeathTestCase >= -1
      && Sound(testCases, lastDeathTestCase + 1, vectors, testCaseIndices)
      && Ordered(testCaseIndices.items, lastDeathTestCase + 1, |testCases|) && |testCaseIndices.items| == |testCases|
      && InnerOrders(Sizes(testCases), CurrentOrders(testCases, vectors)) && Small(Sizes(testCases))
    }

    /** Cases and tests are in order of registration. */
    ghost predicate Unshuffled()
      reads this, testCaseIndices, testCases, vectors
    {
      && testCaseIndices.items == InOrder(|testCases|)
      && InVectors(testCases, vectors)
      && CurrentOrders(testCases, vectors) == NaturalOrders(Sizes(testCases))
    }

    constructor ()
      ensures Valid() && Unshuffled() && testCases == [] && Abs() == AfterAll([])
      ensures fresh(testCaseIndices) && fresh(random) && vectors == {}
    {
      random := new Random(0);
      testCaseIndices := new Vector<nat>();
      testCases := [];
      lastDeathTestCase := -1;
      vectors := {};
      new;
      assert Ordered(testCaseIndices.items, 0, 0);
      TheseSizes([], []);
      TheseOrders([], {}, []);
    }

    method FindTestCase(name: CString) returns (r: Option<TestCase>)
      ensures r.Some? ==> r.value in testCases && r.value.name == name
      ensures r.None? ==> name !in NamesOf(testCases)
    {
      for i := 0 to |testCases|
        invariant forall k :: 0 <= k < i ==> testCases[k].name != name
      {
        if testCases[i].name == name { return Some(testCases[i]); }
      }
      return None;
    }

    /** The case with this name, created and put in its place if there is none. */
    method GetTestCase(name: CString) returns (c: TestCase)
      requires Valid() && Unshuffled() && |testCases| + 1 < MAX_RANGE
      modifies this, testCaseIndices
      ensures Valid() && Unshuffled()
      ensures Abs() == Add(old(Abs()), name)
      ensures c in testCases && c.name == name
      ensures if name in old(Abs().names) then c in old(testCases) && testCases == old(testCases)
              else fresh(c) && fresh(c.testIndices) && c.tests == [] && testCases == Placed(old(testCases), old(PlaceOf(Abs(), name)), c)
    {
      hide AnyGlobMatches, Registered.Ok, Add, Ordered, InnerOrders, OwnVectors, CurrentOrders, Sizes, Small;
      ghost var orders := CurrentOrders(testCases, vectors);
      var found := FindTestCase(name);
      if found.Some? {
        AddAgain(Abs(), name);
        TheseOrders(testCases, vectors, orders);
        return found.value;
      }
      c := new TestCase(name);
      var death := MatchesFilter(name, DEATH_TEST_CASE_FILTER);
      TheseOrders(testCases, vectors, orders);
      PlaceTestCase(c, death);
      PlacedIs(old(testCases), old(PlaceOf(Abs(), name)), c);
    }

    method PlaceTestCase(c: TestCase, death: bool)
      requires Valid() && Unshuffled() && |testCases| + 1 < MAX_RANGE
      requires death == IsDeath(c.name) && c.name !in Abs().names
      requires c.Valid() && c.testIndices.items == InOrder(|c.tests|) && c.testIndices != testCaseIndices && c.testIndices !in vectors
      modifies this, testCaseIndices
      ensures Valid() && Unshuffled()
      ensures Abs() == Add(old(Abs()), c.name)
      ensures testCases == Placed(old(testCases), old(PlaceOf(Abs(), c.name)), c)
    {
      hide IsDeath, Sound, Add, IsOrder, NamesOf, InOrder, InnerOrders, NaturalOrders, Small, Ordered, CurrentOrders, Placed, Sizes;
      ghost var cases, deaths, vs, at := testCases, lastDeathTestCase + 1, vectors, PlaceOf(Abs(), c.name);
      SoundMeans(cases, deaths, vs, testCaseIndices);
      PlacedSound(cases, deaths, vs, testCaseIndices, at, c);
      InsertTestCase(c, death, at);
      PlacedNatural(cases, vs, at, c);
      InOrderSnoc(|cases|);
      InOrderIsOrdered(lastDeathTestCase + 1, |testCases|);
      NaturalOrdersFit(Sizes(testCases));
    }

    method InsertTestCase(c: TestCase, death: bool, ghost at: nat)
      requires 0 <= lastDeathTestCase + 1 <= |testCases| && at == if death then lastDeathTestCase + 1 else |testCases|
      modifies this, testCaseIndices
      ensures testCases == Placed(old(testCases), at, c)
      ensures lastDeathTestCase == old(lastDeathTestCase) + (if death then 1 else 0)
      ensures vectors == old(vectors) + {c.testIndices}
      ensures testCaseIndices.items == old(testCaseIndices.items) + [|old(testCaseIndices.items)|]
    {
      PlacedIs(testCases, at, c);
      if death {
        lastDeathTestCase := lastDeathTestCase + 1;
        testCases := testCases[..lastDeathTestCase] + [c] + testCases[lastDeathTestCase..];
      } else {
        testCases := testCases + [c];
      }
      vectors := vectors + {c.testIndices};
      testCaseIndices.PushBack(|testCaseIndices.items|);
    }

    /** Registers a test in the case with this name. */
    method AddTestInfo(testCaseName: CString, info: TestInfo)
      requires Valid() && Unshuffled() && |testCases| + 1 < MAX_RANGE
      requires forall c :: c in testCases ==> |c.tests| + 1 < MAX_RANGE
      modifies this, testCaseIndices, vectors, testCases`tests
      ensures Valid() && Unshuffled()
      ensures Abs() == Add(old(Abs()), testCaseName)
      ensures forall c :: c in old(testCases) ==> c in testCases
      ensures forall c :: c in old(testCases) ==> c.tests == old(c.tests) + (if c.name == testCaseName then [info] else [])
      ensures testCaseName !in old(Abs().names) ==> forall c :: c in testCases && c.name == testCaseName ==> c.tests == [info]
    {
      hide Sound, Add, NamesOf, Ordered, InnerOrders, Sizes, Small, CurrentOrders, IsDeath, Placed;
      ghost var cases, vs, at := testCases, vectors, PlaceOf(Abs(), testCaseName);
      SoundMeans(cases, lastDeathTestCase + 1, vs, testCaseIndices);
      var c := GetTestCase(testCaseName);
      NamesDiffer(testCases, lastDeathTestCase + 1, vectors, testCaseIndices, c);
      PlacedIs(cases, at, c);
      assert c.testIndices in vs || fresh(c.testIndices);
      assert forall b :: b in cases ==> b in testCases && (b.name == testCaseName <==> b == c);
      AppendTest(c, info, FindCase(testCases, c));
    }

    method AppendTest(c: TestCase, info: TestInfo, ghost i: nat)
      requires Valid() && Unshuffled() && i < |testCases| && c == testCases[i] && |c.tests| + 1 < MAX_RANGE
      modifies c`tests, c.testIndices
      ensures Valid() && Unshuffled()
      ensures c.tests == old(c.tests) + [info]
    {
      hide Sound, NamesOf, Ordered, InnerOrders, Sizes, Small, CurrentOrders, IsOrder, InOrder;
      ghost var cases, d, vs := testCases, lastDeathTestCase + 1, vectors;
      SoundMeans(cases, d, vs, testCaseIndices);
      ghost var sizes, orders := Sizes(cases), CurrentOrders(cases, vs);
      CaseIsValid(cases, orders, i);
      InOrderSnoc(|c.tests|);
      c.AddTestInfo(info);
      TheseSizes(cases, sizes[i := sizes[i] + 1]);
      TheseOrders(cases, vs, orders[i := InOrder(sizes[i] + 1)]);
      GrownOrders(sizes, i);
    }

    // ----- running

    /** The i-th case in the current order; the death test cases come first. */
    method GetMutableTestCase(i: nat) returns (c: TestCase)
      requires Valid() && i < |testCases|
      ensures testCaseIndices.items[i] < |testCases| && c == testCases[testCaseIndices.items[i]]
      ensures IsDeath(c.name) <==> i <= lastDeathTestCase
    {
      OrderedSplits(testCaseIndices.items, lastDeathTestCase + 1, |testCases|, i);
      c := testCases[testCaseIndices.items[i]];
    }

    /** Shuffles the death test cases, the other cases, and the tests of each case. */
    method ShuffleTests()
      requires Valid()
      modifies testCaseIndices, random, vectors
      ensures Valid()
      ensures testCaseIndices.items == ShuffledCases(old(testCaseIndices.items), lastDeathTestCase + 1, old(random.state))
      ensures CurrentOrders(testCases, vectors) == ShuffledOrders(old(CurrentOrders(testCases, vectors)),
                StateAfterCases(|testCases|, lastDeathTestCase + 1, old(random.state)))
    {
      hide Sound, InnerOrders, Ordered, ShuffledCases, ShuffledOrders, StateAfterCases, StateAtCase, Sizes, Small, NamesOf, StateAfter, InOrder;
      ghost var cases, d, vs := testCases, lastDeathTestCase + 1, vectors;
      SoundMeans(cases, d, vs, testCaseIndices);
      ghost var sizes, orders, state := Sizes(cases), CurrentOrders(cases, vs), StateAfterCases(|cases|, d, random.state);
      ShuffleCaseOrder();
      ShuffledOrdersFit(sizes, orders, state);
      ShuffleInnerTests(testCases, vs, testCaseIndices, random);
      assert testCases == cases && vectors == vs && lastDeathTestCase + 1 == d;
      assert Sound(testCases, lastDeathTestCase + 1, vectors, testCaseIndices);
    }

    method ShuffleCaseOrder()
      requires 0 <= lastDeathTestCase + 1 <= |testCases| < MAX_RANGE
      requires Ordered(testCaseIndices.items, lastDeathTestCase + 1, |testCases|)
      modifies testCaseIndices, random
      ensures Ordered(testCaseIndices.items, lastDeathTestCase + 1, |testCases|) && |testCaseIndices.items| == |testCases|
      ensures testCaseIndices.items == ShuffledCases(old(testCaseIndices.items), lastDeathTestCase + 1, old(random.state))
      ensures random.state == StateAfterCases(|testCases|, lastDeathTestCase + 1, old(random.state))
    {
      hide ShuffledRange;
      ShuffledCasesOrdered(testCaseIndices.items, lastDeathTestCase + 1, |testCases|, random.state);
      testCaseIndices.ShuffleRange(random, 0, lastDeathTestCase + 1);
      testCaseIndices.ShuffleRange(random, lastDeathTestCase + 1, |testCases|);
    }

    /** Restores the order of registration. */
    method UnshuffleTests()
      requires Valid()
      modifies testCaseIndices, vectors
      ensures Valid() && Unshuffled()
    {
      hide Sound, InnerOrders, NaturalOrders, Small, Sizes, CurrentOrders, NamesOf, InOrder, IsOrder, Ordered;
      ghost var cases, d, vs := testCases, lastDeathTestCase + 1, vectors;
      SoundMeans(cases, d, vs, testCaseIndices);
      ghost var sizes := Sizes(cases);
      RestoreOrders();
      assert testCases == cases && vectors == vs && lastDeathTestCase + 1 == d;
      assert Sound(testCases, lastDeathTestCase + 1, vectors, testCaseIndices);
      InOrderIsOrdered(d, |cases|);
      TheseSizes(cases, sizes);
      TheseOrders(cases, vs, NaturalOrders(sizes));
      NaturalOrdersFit(sizes);
    }

    method RestoreOrders()
      requires OwnVectors(testCases, vectors, testCaseIndices) && |testCaseIndices.items| == |testCases|
      requires InnerOrders(Sizes(testCases), CurrentOrders(testCases, vectors)) && Small(Sizes(testCases))
      modifies testCaseIndices, vectors
      ensures testCaseIndices.items == InOrder(|testCases|)
      ensures forall i :: 0 <= i < |testCases| ==> testCases[i].testIndices.items == NaturalOrders(Sizes(testCases))[i]
    {
      hide InnerOrders, Small, Sizes, CurrentOrders;
      ghost var cases, vs, n, sizes, orders := testCases, vectors, |testCases|, Sizes(testCases), CurrentOrders(testCases, vectors);
      for i := 0 to |testCases|
        invariant testCases == cases && vectors == vs && |testCaseIndices.items| == n
        invariant forall k :: 0 <= k < i ==> testCaseIndices.items[k] == k
        invariant forall k :: 0 <= k < i ==> cases[k].testIndices.items == InOrder(sizes[k])
        invariant forall k :: i <= k < n ==> cases[k].testIndices.items == orders[k]
      {
        CaseIsValid(cases, orders, i);
        testCases[i].UnshuffleTests();
        testCaseIndices.items := testCaseIndices.items[i := i];
      }
      TheseSizes(cases, sizes);
    }

    /** Runs every case once, in the current order. */
    method RunTestCases() returns (log: seq<TestInfo>)
      requires Valid()
      ensures Valid() && PlanOf(testCases) == old(PlanOf(testCases))
      ensures InnerOrders(SizesOf(PlanOf(testCases)), CurrentOrders(testCases, vectors)) && InRange(testCaseIndices.items, |testCases|)
      ensures log == LogOf(PlanOf(testCases), CurrentOrders(testCases, vectors), testCaseIndices.items)
    {
      hide Sound, IsDeath, Joined, PlanOf, CasePlan, NamesOf, IsOrder, InnerOrders, CurrentOrders, Ordered, CaseLogs, Sizes, Small;
      ghost var cases, d, vs := testCases, lastDeathTestCase + 1, vectors;
      SoundMeans(cases, d, vs, testCaseIndices);
      ghost var plan, orders, order := PlanOf(cases), CurrentOrders(cases, vs), testCaseIndices.items;
      PlanIs(cases, plan);
      PlanSizes(cases, plan);
      OrderedIsOrder(order, d, |cases|);
      ghost var logs := CaseLogs(plan, orders, |cases|);
      NothingJoined(logs);
      log := [];
      for i := 0 to |testCases|
        invariant Valid() && testCases == cases && vectors == vs && CurrentOrders(cases, vs) == orders && testCaseIndices.items == order
        invariant log == Joined(logs, order[..i])
        invariant forall k :: 0 <= k < |cases| ==> plan[k] == CasePlan(cases[k])
      {
        assert order[..i + 1] == order[..i] + [order[i]];
        JoinedSnoc(logs, order[..i], order[i]);
        CaseLogsAt(plan, orders, |cases|, order[i]);
        var c := GetMutableTestCase(i);
        CaseIsValid(cases, orders, order[i]);
        var ran := c.Run();
        log := log + ran;
        TheseOrders(cases, vs, orders);
        TheseSizes(cases, SizesOf(plan));
      }
      assert order[..|testCases|] == order;
      PlanIs(cases, plan);
    }

    /** Shuffles with the seed, if there is one. */
    method ShuffleWith(seed: Option<nat>)
      requires Valid() && Unshuffled()
      modifies testCaseIndices, random, vectors
      ensures Valid() && PlanOf(testCases) == old(PlanOf(testCases))
      ensures testCaseIndices.items == CaseOrder(|testCases|, lastDeathTestCase + 1, seed)
      ensures CurrentOrders(testCases, vectors) == TestOrders(PlanOf(testCases), lastDeathTestCase + 1, seed)
    {
      hide Sound, PlanOf, CasePlan, NamesOf, Ordered, InnerOrders, Sizes, Small, StateAtCase, ShuffledOrders, ShuffledCases, CurrentOrders;
      ghost var cases, d, vs := testCases, lastDeathTestCase + 1, vectors;
      SoundMeans(cases, d, vs, testCaseIndices);
      ghost var plan := PlanOf(cases);
      PlanIs(cases, plan);
      PlanSizes(cases, plan);
      if seed.Some? {
        random.Reseed(seed.value);
        TheseOrders(cases, vs, NaturalOrders(SizesOf(plan)));
        TheseSizes(cases, SizesOf(plan));
        ShuffleTests();
      }
      PlanIs(cases, plan);
    }

    /** One iteration: shuffles with the seed if there is one, runs the tests if there are any, and restores the order. */
    method RunIteration(seed: Option<nat>, hasTestsToRun: bool) returns (log: seq<TestInfo>)
      requires Valid() && Unshuffled()
      modifies testCaseIndices, random, vectors
      ensures Valid() && Unshuffled() && PlanOf(testCases) == old(PlanOf(testCases))
      ensures log == if hasTestsToRun then IterationLog(PlanOf(testCases), lastDeathTestCase + 1, seed) else []
    {
      hide Sound, PlanOf, CasePlan, NamesOf, Ordered, LogOf, InnerOrders, Sizes, Small, TestOrders, CaseOrder, CurrentOrders, NaturalOrders,
           InOrder, SizesOf;
      ghost var cases, d := testCases, lastDeathTestCase + 1;
      SoundMeans(cases, d, vectors, testCaseIndices);
      ghost var plan := PlanOf(cases);
      TestOrdersFit(plan, d, seed);
      CaseOrderIsOrdered(|plan|, d, seed);
      log := [];
      if hasTestsToRun {
        ShuffleWith(seed);
        log := RunTestCases();
      }
      PlanIs(cases, plan);
      UnshuffleTests();
      PlanIs(cases, plan);
    }

    /** Runs the iterations one after the other; with shuffling each has the seed after that of the one before. */
    method RunIterations(repeat: nat, shuffle: bool, firstSeed: nat, hasTestsToRun: bool) returns (logs: seq<seq<TestInfo>>)
      requires Valid() && Unshuffled() && 1 <= firstSeed <= MAX_RANDOM_SEED
      modifies testCaseIndices, random, vectors
      ensures Valid() && Unshuffled() && PlanOf(testCases) == old(PlanOf(testCases))
      ensures |logs| == repeat
      ensures forall i :: 0 <= i < repeat ==>
                logs[i] == if hasTestsToRun then IterationLog(PlanOf(testCases), lastDeathTestCase + 1, SeedIf(shuffle, firstSeed, i)) else []
    {
      hide Sound, PlanOf, NamesOf, Ordered, IterationLog, InnerOrders, Sizes, Small, CurrentOrders;
      ghost var cases, d, vs, plan := testCases, lastDeathTestCase + 1, vectors, PlanOf(testCases);
      SoundMeans(cases, d, vs, testCaseIndices);
      logs := [];
      var randomSeed := if shuffle then firstSeed else 0;
      for i := 0 to repeat
        invariant testCases == cases && lastDeathTestCase + 1 == d && vectors == vs
        invariant Valid() && Unshuffled() && PlanOf(testCases) == plan
        invariant |logs| == i && (shuffle ==> randomSeed == SeedOf(firstSeed, i))
        invariant forall k :: 0 <= k < i ==> logs[k] == if hasTestsToRun then IterationLog(plan, d, SeedIf(shuffle, firstSeed, k)) else []
      {
        var log := RunIteration(if shuffle then Some(randomSeed) else None, hasTestsToRun);
        logs := logs + [log];
        if shuffle { randomSeed := GetNextRandomSeed(randomSeed); }
      }
    }

    /** Marks what runs here, and leaves everything else as it is. */
    method FilterOwnTests(st: Settings, shard: Shard) returns (numSelected: nat)
      requires Valid() && Unshuffled() && AllDistinct(testCases) && ValidShard(shard)
      modifies testCases`shouldRun, AllTests(testCases)
      ensures Valid() && Unshuffled() && TestsOf(testCases) == old(TestsOf(testCases))
      ensures SameShape(TestsOf(testCases), Table(st, testCases))
      ensures numSelected == CountSelected(Table(st, testCases), shard, |testCases|, 0)
      ensures PlanOf(testCases) == ShardPlan(TestsOf(testCases), Table(st, testCases), shard)
    {
      hide Sound, PlanOf, NamesOf, Ordered, InnerOrders, Sizes, Small, CurrentOrders, CountSelected, CaseMarked, Table, AllDistinct, ShardPlan,
           TestsOf, SameShape, NaturalOrders, InOrder;
      SoundMeans(testCases, lastDeathTestCase + 1, vectors, testCaseIndices);
      numSelected := FilterTests(testCases, st, shard);
      FilteredPlanIs(st, shard, testCases);
    }

    /** Filters the tests, and runs the iterations if any test is selected. */
    method RunAllTests(repeat: nat, shuffle: bool, firstSeed: nat, st: Settings, shard: Shard) returns (logs: seq<seq<TestInfo>>)
      requires Valid() && Unshuffled() && AllDistinct(testCases) && ValidShard(shard) && 1 <= firstSeed <= MAX_RANDOM_SEED
      modifies testCaseIndices, random, vectors, testCases`shouldRun, AllTests(testCases)
      ensures Valid() && Unshuffled() && TestsOf(testCases) == old(TestsOf(testCases))
      ensures SameShape(TestsOf(testCases), Table(st, testCases)) && |logs| == repeat
      ensures forall i :: 0 <= i < repeat ==>
                logs[i] == ShardLog(TestsOf(testCases), Table(st, testCases), shard, lastDeathTestCase + 1, SeedIf(shuffle, firstSeed, i))
    {
      hide Sound, PlanOf, NamesOf, Ordered, IterationLog, InnerOrders, Sizes, Small, CurrentOrders, CountSelected, Table, TestsOf,
           AllDistinct, SameShape, AllTests, InVectors, NaturalOrders;
      ghost var cases, d := testCases, lastDeathTestCase + 1;
      SoundMeans(cases, d, vectors, testCaseIndices);
      var numSelected := FilterOwnTests(st, shard);
      logs := RunIterations(repeat, shuffle, firstSeed, numSelected > 0);
    }
  }

  /** The seed of the i-th iteration, if the tests are shuffled. */
  function SeedIf(shuffle: bool, firstSeed: nat, i: nat): Option<nat>
    requires 1 <= firstSeed <= MAX_RANDOM_SEED
  {
    if shuffle then Some(SeedOf(firstSeed, i)) else None
  }

  lemma {:induction false} NamesDiffer(cases: seq<TestCase>, deaths: nat, vectors: set<Vector<nat>>, other: Vector<nat>, c: TestCase)
    requires Sound(cases, deaths, vectors, other) && c in cases
    ensures forall b :: b in cases && b.name == c.name ==> b == c
  {
    hide IsDeath;
    var names := NamesOf(cases);
    forall b | b in cases && b.name == c.name ensures b == c {
      var i, j := FindCase(cases, b), FindCase(cases, c);
      assert names[i] == names[j];
    }
  }

  lemma {:induction false} GrownOrders(sizes: seq<nat>, i: nat)
    requires i < |sizes| && Small(sizes) && sizes[i] + 1 < MAX_RANGE
    ensures var grown := sizes[i := sizes[i] + 1];
            && NaturalOrders(grown) == NaturalOrders(sizes)[i := InOrder(sizes[i] + 1)]
            && Small(grown) && InnerOrders(grown, NaturalOrders(grown))
  {
    NaturalOrdersFit(sizes[i := sizes[i] + 1]);
  }

  ghost function FindCase(cases: seq<TestCase>, c: TestCase): (i: nat)
    requires c in cases
    ensures i < |cases| && cases[i] == c
  {
    var i: nat :| i < |cases| && cases[i] == c;
    i
  }

  lemma {:induction false} PlanSizes(cases: seq<TestCase>, plan: Plan<TestInfo>)
    requires |plan| == |cases| && forall i :: 0 <= i < |cases| ==> plan[i] == CasePlan(cases[i])
    ensures SizesOf(plan) == Sizes(cases)
  {
    hide CasePlan, Sizes;
    assert forall i :: 0 <= i < |cases| ==> |plan[i]| == |CasePlan(cases[i])|;
  }

  /** After filtering, a test contributes to a run exactly if it is selected on this shard. */
  lemma {:induction false} FilteredPlan(st: Settings, shard: Shard, cases: seq<TestCase>, i: nat, j: nat)
    requires ValidShard(shard) && i < |cases| && j < |cases[i].tests| == |Table(st, cases)[i]|
    requires CaseMarked(st, shard, Table(st, cases), i, cases[i], |cases[i].tests|)
    ensures |PlanOf(cases)[i]| == |cases[i].tests|
    ensures PlanOf(cases)[i][j] == if IsSelected(Table(st, cases), shard, i, j) then [cases[i].tests[j]] else []
  {
    hide PlanOf, Table, IsSelected, Disabled, SelectedBy;
    PlanOfAt(cases, i);
    assert Marked(st, cases[i].name, cases[i].tests[j], IsSelected(Table(st, cases), shard, i, j));
  }

  /** The tests of each case, in order of registration. */
  ghost function TestsOf(cases: seq<TestCase>): (tests: seq<seq<TestInfo>>)
    reads cases`tests
    ensures |tests| == |cases| && forall i :: 0 <= i < |cases| ==> tests[i] == cases[i].tests
  {
    if cases == [] then [] else TestsOf(Front(cases)) + [Last(cases).tests]
  }

  lemma {:induction false} DistinctTests(cases: seq<TestCase>)
    requires AllDistinct(cases)
    ensures AllDifferent(TestsOf(cases))
  {
    hide TestsOf;
    var tests := TestsOf(cases);
    forall i, j, a, b | 0 <= i < |tests| && 0 <= j < |tests[i]| && 0 <= a < |tests| && 0 <= b < |tests[a]| && (i != a || j != b)
      ensures tests[i][j] != tests[a][b]
    {
      if i == a {
        assert Distinct(cases[i].tests);
      } else if i < a {
        assert Apart(cases[i].tests, cases[a].tests) && cases[i].tests[j] in cases[i].tests;
      } else {
        assert Apart(cases[a].tests, cases[i].tests) && cases[a].tests[b] in cases[a].tests;
      }
    }
  }

  lemma {:induction false} TestsFit(st: Settings, cases: seq<TestCase>)
    ensures SameShape(TestsOf(cases), Table(st, cases))
  {
    hide Row, Table;
    forall i | 0 <= i < |cases| ensures |cases[i].tests| == |Table(st, cases)[i]| { TableAt(st, cases, i); }
  }

  lemma {:induction false} RunnableIs(st: Settings, caseName: string, testName: string)
    ensures Runnable(st, caseName, testName) <==>
            (st.alsoDisabled || !Disabled(caseName, testName)) && SelectedBy(st.filter, caseName + "." + testName)
  {
  }

  /** Whatever the seeds, one iteration of all shards runs each registered test once if the filter selects its full name
      and it is not disabled by its name or that of its case, or disabled tests run as well; otherwise not at all. */
  lemma {:induction false} EachRunnableTestOnce(st: Settings, cases: seq<TestCase>, d: nat, seeds: seq<Option<nat>>, i: nat, j: nat)
    requires AllDistinct(cases) && d <= |cases| && seeds != [] && i < |cases| && j < |cases[i].tests|
    ensures SameShape(TestsOf(cases), Table(st, cases)) && |Table(st, cases)[i]| == |cases[i].tests|
    ensures AllLogs(TestsOf(cases), Table(st, cases), d, seeds, |seeds|)[cases[i].tests[j]]
         == if (st.alsoDisabled || !(NameDisabled(cases[i].name) || NameDisabled(cases[i].tests[j].name)))
               && SelectedBy(st.filter, cases[i].name + "." + cases[i].tests[j].name) then 1 else 0
  {
    DisabledMeans(cases[i].name, cases[i].tests[j].name);
    hide SelectedBy, Disabled, NameDisabled;
    RunnableIs(st, cases[i].name, cases[i].tests[j].name);
    hide AllDistinct, Table, Row, Runnable, AllLogs, AllDifferent, TestsOf;
    TestsFit(st, cases);
    DistinctTests(cases);
    TableAt(st, cases, i);
    RowAt(st, cases[i].name, cases[i].tests, |cases[i].tests|, j);
    EachTestOnce(TestsOf(cases), Table(st, cases), d, seeds, i, j);
  }

  /** After filtering, what the cases contribute to a run is what is selected on this shard. */
  lemma {:induction false} FilteredPlanIs(st: Settings, shard: Shard, cases: seq<TestCase>)
    requires ValidShard(shard)
    requires forall i :: 0 <= i < |cases| ==>
               |Table(st, cases)[i]| == |cases[i].tests| && CaseMarked(st, shard, Table(st, cases), i, cases[i], |cases[i].tests|)
    ensures SameShape(TestsOf(cases), Table(st, cases))
    ensures PlanOf(cases) == ShardPlan(TestsOf(cases), Table(st, cases), shard)
  {
    hide PlanOf, Table, IsSelected, CaseMarked;
    var t, plan := Table(st, cases), PlanOf(cases);
    forall i | 0 <= i < |cases| ensures plan[i] == ShardCase(TestsOf(cases), t, shard, i) {
      PlanOfAt(cases, i);
      forall j | 0 <= j < |t[i]| ensures plan[i][j] == if IsSelected(t, shard, i, j) then [cases[i].tests[j]] else [] {
        FilteredPlan(st, shard, cases, i, j);
      }
    }
  }
}
