/** How UnitTestImpl registers test cases, shuffles them and goes through them: death test cases
    come first, every test case once a round, and in order of registration after it. */
module Registration {
  import opened Shuffle
  import opened Arrangement
  import opened TestObjects
  import opened Rounds
  import opened Filters

  /** The names that are, or are not, those of death test cases, in their order. */
  ghost function Select(names: seq<string>, death: bool): seq<string> {
    if names == [] then []
    else
      var rest, last := names[..|names| - 1], names[|names| - 1];
      Select(rest, death) + if IsDeath(last) == death then [last] else []
  }

  lemma {:induction false} SelectedAre(names: seq<string>, death: bool)
    ensures forall k :: 0 <= k < |Select(names, death)| ==> IsDeath(Select(names, death)[k]) == death
  {
    if names != [] {
      SelectedAre(names[..|names| - 1], death);
    }
  }

  lemma {:induction false} SelectedAll(names: seq<string>, name: string)
    ensures name in names <==> name in Select(names, true) + Select(names, false)
  {
    if names != [] {
      var rest := names[..|names| - 1];
      SelectedAll(rest, name);
      assert names == rest + [names[|names| - 1]];
    }
  }

  lemma SelectAppend(names: seq<string>, name: string, death: bool)
    ensures Select(names + [name], death) == Select(names, death) + if IsDeath(name) == death then [name] else []
  {
    assert (names + [name])[..|names|] == names;
  }

  function Names(cases: seq<TestCase>): (names: seq<string>)
    ensures |names| == |cases|
  {
    seq(|cases|, k requires 0 <= k < |cases| => cases[k].name)
  }

  ghost predicate DistinctNames(cases: seq<TestCase>) {
    forall i, j :: 0 <= i < j < |cases| ==> cases[i].name != cases[j].name
  }

  /** The test cases are the d death test cases and then the others, each in the order in which
      they were registered. */
  ghost predicate Lined(cases: seq<TestCase>, registered: seq<string>, d: int) {
    && d == |Select(registered, true)|
    && Names(cases) == Select(registered, true) + Select(registered, false)
    && DistinctNames(cases)
  }

  lemma LinedLength(cases: seq<TestCase>, registered: seq<string>, d: int)
    requires Lined(cases, registered, d)
    ensures 0 <= d <= |cases|
  {
    assert |Names(cases)| == |cases|;
  }

  class UnitTestImpl {
    var testCases: seq<TestCase>
    var testCaseIndices: seq<nat>
    var lastDeathTestCase: int
    const random: Random
    /** The names of the test cases in the order in which they were first asked for. */
    ghost var registered: seq<string>

    constructor ()
      ensures Valid() && InOrder() && registered == [] && testCases == [] && lastDeathTestCase == -1
      ensures fresh(random)
    {
      testCases, testCaseIndices, lastDeathTestCase, registered := [], [], -1, [];
      random := new Random(0);
      new;
      IdentityArranges(0, 0, 0);
    }

    ghost predicate Valid()
      reads this
    {
      && |testCaseIndices| == |testCases| < MAX_RANGE
      && Lined(testCases, registered, lastDeathTestCase + 1)
      && Arranges(testCaseIndices, 0, lastDeathTestCase + 1)
      && Arranges(testCaseIndices, lastDeathTestCase + 1, |testCases|)
    }

    ghost predicate InOrder()
      reads this
    {
      testCaseIndices == Identity(|testCases|)
    }

    /** Death test cases are at the positions up to lastDeathTestCase and nowhere else. */
    lemma DeathCasesFirst(k: nat)
      requires Valid() && k < |testCases|
      ensures IsDeath(testCases[k].name) <==> k <= lastDeathTestCase
    {
      SelectedAre(registered, true);
      SelectedAre(registered, false);
      assert testCases[k].name == Names(testCases)[k];
    }

    method FindTestCase(testCaseName: string) returns (found: TestCase?)
      ensures found == null ==> forall k :: 0 <= k < |testCases| ==> testCases[k].name != testCaseName
      ensures found != null ==> found in testCases && found.name == testCaseName
    {
      for i := 0 to |testCases|
        invariant forall k :: 0 <= k < i ==> testCases[k].name != testCaseName
      {
        if testCases[i].name == testCaseName {
          return testCases[i];
        }
      }
      return null;
    }

    /** Finds the test case of this name, or makes it: a death test case goes behind the other
        death test cases, any other to the end. */
    method GetTestCase(testCaseName: string) returns (testCase: TestCase)
      requires Valid() && InOrder() && |testCases| + 1 < MAX_RANGE
      modifies this
      ensures Valid() && InOrder()
      ensures testCase.name == testCaseName && testCase in testCases
      ensures (exists c :: c in old(testCases) && c.name == testCaseName) ==>
        testCases == old(testCases) && registered == old(registered)
      ensures (forall c :: c in old(testCases) ==> c.name != testCaseName) ==>
        fresh(testCase) && testCase.testInfoList == [] && testCase.Valid() && testCase.InOrder() &&
        registered == old(registered) + [testCaseName]
      ensures forall c :: c in testCases <==> c in old(testCases) || c == testCase
      ensures |testCases| <= |old(testCases)| + 1
    {
      var found := FindTestCase(testCaseName);
      if found != null {
        return found;
      }
      testCase := new TestCase(testCaseName);
      IdentityArranges(0, 0, 0);
      var death := MatchesFilter(testCaseName, DEATH_TEST_CASE_FILTER);
      Insert(testCase, death);
    }

    /** The names registered are those of the test cases. */
    lemma RegisteredNames(name: string)
      requires Valid()
      ensures name in registered <==> exists c :: c in testCases && c.name == name
    {
      SelectedAll(registered, name);
      var names := Names(testCases);
      assert forall k :: 0 <= k < |testCases| ==> names[k] == testCases[k].name && testCases[k] in testCases;
      if name in names {
        var k :| 0 <= k < |names| && names[k] == name;
      }
    }

    lemma OneOfEachName()
      requires Valid()
      ensures forall c, d :: c in testCases && d in testCases && c.name == d.name ==> c == d
    {
    }

    /** Registers a test: it goes to the end of its test case, which is made if it is new. */
    method AddTestInfo(testCaseName: string, testInfo: TestInfo)
      requires Valid() && AllValid() && InOrder() && AllInOrder() && |testCases| + 1 < MAX_RANGE
      requires forall c :: c in testCases ==> |c.testInfoList| + 1 < MAX_RANGE
      modifies this, testCases`testInfoList, testCases`testIndices
      ensures Valid() && AllValid() && InOrder() && AllInOrder()
      ensures forall c :: c in old(testCases) ==>
        (c in testCases && c.testInfoList == old(c.testInfoList) + if c.name == testCaseName then [testInfo] else [])
      ensures forall c :: c in testCases && c !in old(testCases) ==>
        c.name == testCaseName && c.testInfoList == [testInfo] && fresh(c)
      ensures exists c :: c in testCases && c.name == testCaseName
      ensures |testCases| <= |old(testCases)| + 1
      ensures registered == if testCaseName in old(registered) then old(registered)
                            else old(registered) + [testCaseName]
    {
      hide Valid, InOrder, TestCase.Valid, TestCase.InOrder;
      RegisteredNames(testCaseName);
      OneOfEachName();
      var testCase := GetTestCase(testCaseName);
      OneOfEachName();
      forall k | 0 <= k < |testCases| ensures testCases[k].Valid() && testCases[k].InOrder() {
        var c := testCases[k];
        assert c in testCases;
        assert c in old(testCases) || fresh(c);
      }
      testCase.AddTestInfo(testInfo);
    }

    /** Puts a new test case in its place and appends an index. */
    method Insert(testCase: TestCase, death: bool)
      requires Valid() && InOrder() && |testCases| + 1 < MAX_RANGE
      requires forall k :: 0 <= k < |testCases| ==> testCases[k].name != testCase.name
      requires death == IsDeath(testCase.name)
      modifies this
      ensures Valid() && InOrder()
      ensures registered == old(registered) + [testCase.name] && |testCases| == |old(testCases)| + 1
      ensures forall c :: c in testCases <==> c in old(testCases) || c == testCase
    {
      hide Lined, Arranges;
      Place(testCase, death);
      LinedLength(testCases, registered, lastDeathTestCase + 1);
      IndexPushed(testCaseIndices, lastDeathTestCase + 1);
      testCaseIndices := testCaseIndices + [|testCaseIndices|];
    }

    method Place(testCase: TestCase, death: bool)
      requires Lined(testCases, registered, lastDeathTestCase + 1)
      requires forall k :: 0 <= k < |testCases| ==> testCases[k].name != testCase.name
      requires death == IsDeath(testCase.name)
      modifies this`testCases, this`lastDeathTestCase, this`registered
      ensures Lined(testCases, registered, lastDeathTestCase + 1) && |testCases| == |old(testCases)| + 1
      ensures registered == old(registered) + [testCase.name]
      ensures forall c :: c in testCases <==> c in old(testCases) || c == testCase
    {
      LinedLength(testCases, registered, lastDeathTestCase + 1);
      ghost var before, names, d := testCases, registered, lastDeathTestCase + 1;
      if death {
        lastDeathTestCase := lastDeathTestCase + 1;
        testCases := VectorInsert(testCases, lastDeathTestCase, testCase);
      } else {
        testCases := PushBack(testCases, testCase);
      }
      registered := registered + [testCase.name];
      LinedAfter(before, names, d, testCase, testCases);
    }

    // ---------- Rounds ----------

    /** The tests of every test case are in some order. */
    ghost predicate AllValid()
      reads this`testCases, testCases`testInfoList, testCases`testIndices
    {
      forall k {:trigger testCases[k].Valid()} :: 0 <= k < |testCases| ==> testCases[k].Valid()
    }

    ghost predicate AllInOrder()
      reads this`testCases, testCases`testInfoList, testCases`testIndices
    {
      forall k {:trigger testCases[k].InOrder()} :: 0 <= k < |testCases| ==> testCases[k].InOrder()
    }

    /** Shuffles the death test cases among themselves, and then the others. */
    method ShuffleCases()
      requires Valid()
      modifies this`testCaseIndices, random
      ensures Valid()
      ensures testCaseIndices == CaseOrder(old(testCaseIndices), lastDeathTestCase + 1, old(random.state))
      ensures random.state == StateAfterCases(|testCases|, lastDeathTestCase + 1, old(random.state))
    {
      LinedLength(testCases, registered, lastDeathTestCase + 1);
      CaseOrderArranges(testCaseIndices, lastDeathTestCase + 1, random.state);
      testCaseIndices := ShuffleRanges(random, lastDeathTestCase + 1, testCaseIndices);
    }

    /** Shuffles the tests inside each test case. */
    method ShuffleEach(ghost before: seq<seq<nat>>)
      requires AllValid() && DistinctNames(testCases) && Have(testCases, before)
      modifies random, testCases`testIndices
      ensures AllValid() && Have(testCases, TestOrders(before, |before|, old(random.state)))
      ensures random.state == StateAt(before, |before|, old(random.state))
    {
      ghost var state := random.state;
      for i := 0 to |testCases|
        invariant AllValid() && Have(testCases, TestOrders(before, i, state))
        invariant random.state == StateAt(before, i, state)
      {
        ShuffleNext(i, before, state);
      }
    }

    /** Goes on from i test cases shuffled to i + 1. */
    method ShuffleNext(i: nat, ghost before: seq<seq<nat>>, ghost state: nat)
      requires AllValid() && DistinctNames(testCases) && i < |testCases| == |before|
      requires random.state == StateAt(before, i, state) && Have(testCases, TestOrders(before, i, state))
      modifies random, testCases`testIndices
      ensures AllValid()
      ensures random.state == StateAt(before, i + 1, state) && Have(testCases, TestOrders(before, i + 1, state))
    {
      NotYetShuffled(before, i, state, i);
      testCases[i].ShuffleTests(random);
    }

    method ShuffleTests(ghost before: seq<seq<nat>>)
      requires Valid() && AllValid() && Have(testCases, before)
      modifies this`testCaseIndices, random, testCases`testIndices
      ensures Valid() && AllValid()
      ensures testCaseIndices == CaseOrder(old(testCaseIndices), lastDeathTestCase + 1, old(random.state))
      ensures var state := StateAfterCases(|testCases|, lastDeathTestCase + 1, old(random.state));
        Have(testCases, TestOrders(before, |before|, state)) && random.state == StateAt(before, |before|, state)
    {
      ShuffleCases();
      ShuffleEach(before);
    }

    /** The tests of the first i test cases are back in order. */
    ghost predicate InOrderUpTo(i: nat)
      reads this`testCases, testCases`testInfoList, testCases`testIndices
    {
      i <= |testCases| && forall k {:trigger testCases[k].InOrder()} :: 0 <= k < i ==> testCases[k].InOrder()
    }

    method UnshuffleOne(i: nat)
      requires AllValid() && DistinctNames(testCases) && i < |testCases| && InOrderUpTo(i)
      modifies testCases`testIndices
      ensures AllValid() && InOrderUpTo(i + 1)
    {
      testCases[i].UnshuffleTests();
    }

    method UnshuffleTests()
      requires Valid() && AllValid()
      modifies this`testCaseIndices, testCases`testIndices
      ensures Valid() && AllValid() && InOrder() && AllInOrder()
    {
      hide Arranges, AllValid, Select, Names, TestCase.Valid, TestCase.InOrder;
      LinedLength(testCases, registered, lastDeathTestCase + 1);
      for i := 0 to |testCases|
        invariant AllValid() && InOrderUpTo(i) && |testCaseIndices| == |testCases|
        invariant forall k :: 0 <= k < i ==> testCaseIndices[k] == k
      {
        UnshuffleOne(i);
        testCaseIndices := testCaseIndices[i := i];
      }
      IndicesReset(testCaseIndices, lastDeathTestCase + 1);
    }

    /** The i-th test case in the current order. */
    function GetMutableTestCase(i: int): (c: TestCase?)
      requires Valid()
      reads this
      ensures c != null <==> 0 <= i < |testCases|
      ensures c != null ==> testCaseIndices[i] < |testCases| && c == testCases[testCaseIndices[i]]
    {
      var index := GetElementOr(testCaseIndices, i, -1);
      if index < 0 then null
      else (IndexInRange(i); testCases[index])
    }

    lemma IndexInRange(i: nat)
      requires Valid() && i < |testCases|
      ensures testCaseIndices[i] < |testCases|
      ensures testCaseIndices[i] <= lastDeathTestCase <==> i <= lastDeathTestCase
    {
      if i < lastDeathTestCase + 1 {
        ArrangedWithin(testCaseIndices, 0, lastDeathTestCase + 1, i);
      } else {
        ArrangedWithin(testCaseIndices, lastDeathTestCase + 1, |testCases|, i);
      }
    }

    /** The k-th visit of a round went to the k-th test case and the tests to run of it, in the
        current order. */
    ghost predicate VisitAt(round: Round, p: Plan, k: nat)
      requires Valid() && p.Shaped() && p.cases == testCases
      reads this, testCases`testIndices
    {
      && k < |round.cases| == |round.started| && k < |testCases|
      && (IndexInRange(k);
          var j := testCaseIndices[k];
          && round.cases[k] == testCases[j]
          && round.started[k] == if p.on[j] then Picked(p.lists[j], testCases[j].testIndices, p.marks[j]) else [])
    }

    /** Runs the test cases in the current order, and with each the tests to run of it. */
    method RunTestCases(ghost p: Plan) returns (round: Round)
      requires Valid() && AllValid() && p.cases == testCases && Follows(p)
      ensures |round.cases| == |round.started| == |testCases|
      ensures forall k {:trigger VisitAt(round, p, k)} :: 0 <= k < |testCases| ==> VisitAt(round, p, k)
    {
      round := Round([], []);
      for i := 0 to |testCases|
        invariant |round.cases| == |round.started| == i
        invariant forall k {:trigger VisitAt(round, p, k)} :: 0 <= k < i ==> VisitAt(round, p, k)
      {
        ghost var before := round;
        round := RunNext(round, p, i);
        forall k | 0 <= k < i ensures VisitAt(round, p, k) {
          assert VisitAt(before, p, k);
        }
      }
    }

    method RunNext(round: Round, ghost p: Plan, i: nat) returns (more: Round)
      requires Valid() && AllValid() && p.cases == testCases && Follows(p)
      requires |round.cases| == |round.started| == i < |testCases|
      ensures |more.cases| == |more.started| == i + 1
      ensures more.cases[..i] == round.cases && more.started[..i] == round.started
      ensures VisitAt(more, p, i)
    {
      IndexInRange(i);
      ghost var j := testCaseIndices[i];
      assert testCases[j].Valid() && p.lists[j] == p.lists[j];
      var testCase: TestCase := GetMutableTestCase(i);
      var started := testCase.Run(p.marks[j]);
      more := Round(round.cases + [testCase], round.started + [started]);
    }

    lemma HaveIdentities(lists: seq<seq<TestInfo>>)
      requires AllInOrder() && |lists| == |testCases|
      requires forall k {:trigger lists[k]} :: 0 <= k < |testCases| ==> testCases[k].testInfoList == lists[k]
      ensures Have(testCases, Identities(lists))
    {
      forall k | 0 <= k < |testCases| ensures testCases[k].testIndices == Identities(lists)[k] {
        assert testCases[k].InOrder() && testCases[k].testInfoList == lists[k];
      }
    }

    lemma HaveListed(p: Plan)
      requires p.cases == testCases && Follows(p) && AllInOrder()
      ensures Have(testCases, Identities(p.lists))
    {
      forall k | 0 <= k < |testCases| ensures testCases[k].testInfoList == p.lists[k] {
        assert FollowsCase(p, k);
      }
      HaveIdentities(p.lists);
    }

    method Reshuffle(seed: nat, ghost p: Plan)
      requires Valid() && AllValid() && InOrder() && AllInOrder() && p.cases == testCases && Follows(p)
      modifies this`testCaseIndices, random, testCases`testIndices
      ensures Valid() && AllValid() && 0 <= lastDeathTestCase + 1 <= |testCases|
      ensures testCaseIndices == RoundOrder(|testCases|, lastDeathTestCase + 1, true, seed)
      ensures Have(testCases, RoundOrders(p.lists, lastDeathTestCase + 1, true, seed))
    {
      LinedLength(testCases, registered, lastDeathTestCase + 1);
      random.Reseed(seed);
      HaveListed(p);
      ShuffleTests(Identities(p.lists));
    }

    /** One round: shuffles from its own seed if asked to, runs all the test cases if there are
        tests to run, and puts everything back in order. */
    method RunRound(shuffle: bool, hasTestsToRun: bool, seed: nat, ghost p: Plan) returns (round: Round)
      requires Valid() && AllValid() && InOrder() && AllInOrder() && p.cases == testCases && Follows(p)
      modifies this`testCaseIndices, random, testCases`testIndices
      ensures Valid() && AllValid() && InOrder() && AllInOrder()
      ensures IsRoundOrEmpty(round, p, lastDeathTestCase + 1, shuffle, hasTestsToRun, seed)
    {
      hide AllValid, AllInOrder, Follows, Have, VisitAt, IsRound, Lined, Arranges;
      round := Round([], []);
      LinedLength(testCases, registered, lastDeathTestCase + 1);
      if hasTestsToRun && shuffle {
        Reshuffle(seed, p);
      } else {
        HaveListed(p);
      }
      if hasTestsToRun {
        round := RunTestCases(p);
        RunIsRound(round, p, shuffle, seed);
      }
      UnshuffleTests();
    }

    lemma RunIsRound(round: Round, p: Plan, shuffle: bool, seed: nat)
      requires Valid() && p.cases == testCases && Follows(p) && 0 <= lastDeathTestCase + 1 <= |testCases|
      requires testCaseIndices == RoundOrder(|testCases|, lastDeathTestCase + 1, shuffle, seed)
      requires Have(testCases, RoundOrders(p.lists, lastDeathTestCase + 1, shuffle, seed))
      requires |round.cases| == |round.started| == |testCases|
      requires forall k {:trigger VisitAt(round, p, k)} :: 0 <= k < |testCases| ==> VisitAt(round, p, k)
      ensures IsRound(round, p, lastDeathTestCase + 1, shuffle, seed)
    {
      hide Lined, Arranges, IsDeath, VisitAt, Visited, FollowsCase, Have;
      var order, orders := testCaseIndices, RoundOrders(p.lists, lastDeathTestCase + 1, shuffle, seed);
      forall k | 0 <= k < |testCases|
        ensures order[k] < |testCases| && round.cases[k] == testCases[order[k]]
        ensures Visited(round, p, orders, k, order[k])
        ensures IsDeath(round.cases[k].name) <==> k <= lastDeathTestCase
      {
        VisitedAt(round, p, orders, k);
      }
      ArrangedJoin(order, lastDeathTestCase + 1);
      VisitedEachOnce(testCases, order, round.cases);
    }

    lemma VisitedAt(round: Round, p: Plan, orders: seq<seq<nat>>, k: nat)
      requires Valid() && p.cases == testCases && Follows(p) && Have(testCases, orders) && k < |testCases|
      requires |round.cases| == |round.started| == |testCases| && VisitAt(round, p, k)
      ensures Visited(round, p, orders, k, testCaseIndices[k])
      ensures round.cases[k] == testCases[testCaseIndices[k]] && testCaseIndices[k] < |testCases|
      ensures IsDeath(round.cases[k].name) <==> k <= lastDeathTestCase
    {
      hide Lined, Arranges, IsDeath;
      IndexInRange(k);
      DeathCasesFirst(testCaseIndices[k]);
      assert orders[testCaseIndices[k]] == testCases[testCaseIndices[k]].testIndices;
    }

    /** The rounds of RUN_ALL_TESTS, each with the next seed. */
    method RunAllTests(repeat: nat, shuffle: bool, hasTestsToRun: bool, randomSeedFlag: int, timeInMillis: int,
                       ghost p: Plan)
      returns (rounds: seq<Round>)
      requires Valid() && AllValid() && InOrder() && AllInOrder() && p.cases == testCases && Follows(p)
      modifies this`testCaseIndices, random, testCases`testIndices
      ensures Valid() && AllValid() && InOrder() && AllInOrder() && |rounds| == repeat
      ensures var first := if shuffle then GetRandomSeedFromFlag(randomSeedFlag, timeInMillis) else 0;
        EveryRound(rounds, p, lastDeathTestCase + 1, shuffle, hasTestsToRun, first)
    {
      hide Valid, AllValid, InOrder, AllInOrder, Follows, IsRoundOrEmpty;
      var randomSeed := if shuffle then GetRandomSeedFromFlag(randomSeedFlag, timeInMillis) else 0;
      rounds := [];
      var seed := randomSeed;
      ghost var d := lastDeathTestCase + 1;
      for i := 0 to repeat
        invariant Valid() && AllValid() && InOrder() && AllInOrder() && |rounds| == i
        invariant seed == SeedOfRound(shuffle, randomSeed, i)
        invariant EveryRound(rounds, p, d, shuffle, hasTestsToRun, randomSeed)
      {
        rounds := AddRound(rounds, shuffle, hasTestsToRun, seed, randomSeed, p);
        if shuffle {
          seed := GetNextRandomSeed(seed);
        }
      }
    }

    method AddRound(rounds: seq<Round>, shuffle: bool, hasTestsToRun: bool, seed: nat, ghost first: nat, ghost p: Plan)
      returns (more: seq<Round>)
      requires Valid() && AllValid() && InOrder() && AllInOrder() && p.cases == testCases && Follows(p)
      requires (shuffle ==> 1 <= first <= MAX_RANDOM_SEED) && seed == SeedOfRound(shuffle, first, |rounds|)
      requires EveryRound(rounds, p, lastDeathTestCase + 1, shuffle, hasTestsToRun, first)
      modifies this`testCaseIndices, random, testCases`testIndices
      ensures Valid() && AllValid() && InOrder() && AllInOrder() && |more| == |rounds| + 1
      ensures EveryRound(more, p, lastDeathTestCase + 1, shuffle, hasTestsToRun, first)
    {
      hide *;
      var round := RunRound(shuffle, hasTestsToRun, seed, p);
      more := rounds + [round];
      OneMoreRound(rounds, round, more, p, lastDeathTestCase + 1, shuffle, hasTestsToRun, first);
    }
  }

  lemma IndexPushed(v: seq<nat>, d: nat)
    requires v == Identity(|v|) && d <= |v| + 1
    ensures v + [|v|] == Identity(|v| + 1)
    ensures Arranges(v + [|v|], 0, d) && Arranges(v + [|v|], d, |v| + 1)
  {
    assert v + [|v|] == Identity(|v| + 1);
    IdentityArranges(|v| + 1, 0, d);
    IdentityArranges(|v| + 1, d, |v| + 1);
  }

  lemma IndicesReset(v: seq<nat>, d: nat)
    requires d <= |v| && forall k :: 0 <= k < |v| ==> v[k] == k
    ensures v == Identity(|v|) && Arranges(v, 0, d) && Arranges(v, d, |v|)
  {
    assert v == Identity(|v|);
    IdentityArranges(|v|, 0, d);
    IdentityArranges(|v|, d, |v|);
  }

  /** An element put in at some position. */
  ghost predicate PutIn<T>(v: seq<T>, w: seq<T>, at: nat, x: T) {
    && at <= |v| && |w| == |v| + 1
    && w[at] == x
    && (forall k :: 0 <= k < at ==> w[k] == v[k])
    && (forall k :: at < k < |w| ==> w[k] == v[k - 1])
  }

  method VectorInsert<T>(v: seq<T>, at: nat, x: T) returns (w: seq<T>)
    requires at <= |v|
    ensures PutIn(v, w, at, x) && forall c :: c in w <==> c in v || c == x
  {
    w := v[..at] + [x] + v[at..];
    assert v == v[..at] + v[at..];
  }

  method PushBack<T>(v: seq<T>, x: T) returns (w: seq<T>)
    ensures PutIn(v, w, |v|, x) && forall c :: c in w <==> c in v || c == x
  {
    w := v + [x];
  }

  lemma PutInNames(cases: seq<TestCase>, now: seq<TestCase>, at: nat, testCase: TestCase)
    requires PutIn(cases, now, at, testCase)
    ensures PutIn(Names(cases), Names(now), at, testCase.name)
  {
  }

  lemma PutInDistinct(cases: seq<TestCase>, now: seq<TestCase>, at: nat, testCase: TestCase)
    requires PutIn(cases, now, at, testCase) && DistinctNames(cases)
    requires forall k :: 0 <= k < |cases| ==> cases[k].name != testCase.name
    ensures DistinctNames(now)
  {
    forall i, j | 0 <= i < j < |now| ensures now[i].name != now[j].name {
      var a, b := if i < at then i else i - 1, if j < at then j else j - 1;
      assert i != at && j != at ==> cases[a].name != cases[b].name;
    }
  }

  lemma PutInSelected(a: seq<string>, b: seq<string>, w: seq<string>, at: nat, x: string)
    requires PutIn(a + b, w, at, x)
    ensures at == |a| ==> w == (a + [x]) + b
    ensures at == |a + b| ==> w == a + (b + [x])
  {
  }

  lemma LinedAfter(cases: seq<TestCase>, registered: seq<string>, d: nat, testCase: TestCase, now: seq<TestCase>)
    requires Lined(cases, registered, d)
    requires PutIn(cases, now, if IsDeath(testCase.name) then d else |cases|, testCase)
    requires forall k :: 0 <= k < |cases| ==> cases[k].name != testCase.name
    ensures Lined(now, registered + [testCase.name], if IsDeath(testCase.name) then d + 1 else d)
  {
    var at := if IsDeath(testCase.name) then d else |cases|;
    var deaths, others := Select(registered, true), Select(registered, false);
    SelectAppend(registered, testCase.name, true);
    SelectAppend(registered, testCase.name, false);
    PutInNames(cases, now, at, testCase);
    PutInDistinct(cases, now, at, testCase);
    PutInSelected(deaths, others, Names(now), at, testCase.name);
    assert deaths + [] == deaths && others + [] == others;
  }
}
