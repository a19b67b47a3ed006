/** A test program: its tests are registered, and then the rounds of a run start them. */
module Program {
  import opened Shuffle
  import opened TestObjects
  import opened Rounds
  import opened Registration
  import opened Sharding
  import opened Execution

  /** One registration: a test and the name of its test case. */
  datatype Entry = Entry(caseName: string, test: TestInfo)

  /** No test is registered twice. */
  ghost predicate DistinctTests(entries: seq<Entry>) {
    forall p, q :: 0 <= p < q < |entries| ==> entries[p].test != entries[q].test
  }

  /** The names of the test cases, each when it first comes up. */
  ghost function CaseNames(entries: seq<Entry>): seq<string> {
    if entries == [] then []
    else
      var before, last := CaseNames(entries[..|entries| - 1]), entries[|entries| - 1].caseName;
      if last in before then before else before + [last]
  }

  /** The tests of one test case, in the order in which they were registered. */
  ghost function TestsNamed(entries: seq<Entry>, name: string): (tests: seq<TestInfo>)
    ensures |tests| <= |entries|
  {
    if entries == [] then []
    else
      var before, last := TestsNamed(entries[..|entries| - 1], name), entries[|entries| - 1];
      before + if last.caseName == name then [last.test] else []
  }

  ghost function ListsOf(cases: seq<TestCase>, entries: seq<Entry>): (lists: seq<seq<TestInfo>>)
    ensures |lists| == |cases|
    ensures forall i {:trigger lists[i]} :: 0 <= i < |cases| ==> lists[i] == TestsNamed(entries, cases[i].name)
  {
    seq(|cases|, i requires 0 <= i < |cases| => TestsNamed(entries, cases[i].name))
  }

  // ---------- Registration ----------

  /** The test cases hold just these tests. */
  ghost predicate Holds(impl: UnitTestImpl, entries: seq<Entry>)
    reads impl`testCases, impl`registered, impl.testCases`testInfoList
  {
    && impl.registered == CaseNames(entries) && |impl.testCases| <= |entries|
    && forall c :: c in impl.testCases ==> c.testInfoList == TestsNamed(entries, c.name)
  }

  lemma {:induction false} CaseNamesAre(entries: seq<Entry>, name: string)
    ensures name in CaseNames(entries) <==> exists q :: 0 <= q < |entries| && entries[q].caseName == name
  {
    if entries != [] {
      var n := |entries| - 1;
      CaseNamesAre(entries[..n], name);
      assert forall q :: 0 <= q < n ==> entries[..n][q] == entries[q];
    }
  }

  lemma {:induction false} NoneNamed(entries: seq<Entry>, name: string)
    requires name !in CaseNames(entries)
    ensures TestsNamed(entries, name) == []
  {
    if entries != [] {
      NoneNamed(entries[..|entries| - 1], name);
    }
  }

  lemma OneMoreEntry(entries: seq<Entry>, i: nat, name: string)
    requires i < |entries|
    ensures TestsNamed(entries[..i + 1], name)
            == TestsNamed(entries[..i], name) + if entries[i].caseName == name then [entries[i].test] else []
    ensures CaseNames(entries[..i + 1])
            == if entries[i].caseName in CaseNames(entries[..i]) then CaseNames(entries[..i])
               else CaseNames(entries[..i]) + [entries[i].caseName]
  {
    assert entries[..i + 1][..i] == entries[..i];
  }

  /** The i-th registration, when those before it have been made. */
  method RegisterNext(impl: UnitTestImpl, entries: seq<Entry>, i: nat)
    requires impl.Valid() && impl.AllValid() && impl.InOrder() && impl.AllInOrder()
    requires i < |entries| && |entries| + 1 < MAX_RANGE && Holds(impl, entries[..i])
    modifies impl, impl.testCases`testInfoList, impl.testCases`testIndices
    ensures impl.Valid() && impl.AllValid() && impl.InOrder() && impl.AllInOrder()
    ensures Holds(impl, entries[..i + 1])
    ensures forall c :: c in impl.testCases ==> c in old(impl.testCases) || fresh(c)
  {
    hide UnitTestImpl.Valid, UnitTestImpl.AllValid, UnitTestImpl.InOrder, UnitTestImpl.AllInOrder;
    hide CaseNames, TestsNamed;
    var name := entries[i].caseName;
    impl.RegisteredNames(name);
    if name !in CaseNames(entries[..i]) {
      NoneNamed(entries[..i], name);
    }
    impl.AddTestInfo(name, entries[i].test);
    impl.OneOfEachName();
    OneMoreEntry(entries, i, name);
    forall c | c in impl.testCases ensures c.testInfoList == TestsNamed(entries[..i + 1], c.name) {
      OneMoreEntry(entries, i, c.name);
    }
  }

  /** Registers all the tests of a program, one after the other. */
  method RegisterAll(entries: seq<Entry>) returns (impl: UnitTestImpl)
    requires |entries| + 1 < MAX_RANGE
    ensures fresh(impl) && fresh(impl.random) && forall c :: c in impl.testCases ==> fresh(c)
    ensures impl.Valid() && impl.AllValid() && impl.InOrder() && impl.AllInOrder()
    ensures Holds(impl, entries)
  {
    impl := new UnitTestImpl();
    assert impl.AllValid() && impl.AllInOrder();
    hide UnitTestImpl.Valid, UnitTestImpl.AllValid, UnitTestImpl.InOrder, UnitTestImpl.AllInOrder;
    for i := 0 to |entries|
      invariant fresh(impl) && fresh(impl.random) && forall c :: c in impl.testCases ==> fresh(c)
      invariant impl.Valid() && impl.AllValid() && impl.InOrder() && impl.AllInOrder()
      invariant Holds(impl, entries[..i])
    {
      assert forall k :: 0 <= k < |impl.testCases| ==> impl.testCases[k] in impl.testCases;
      RegisterNext(impl, entries, i);
    }
    assert entries[..|entries|] == entries;
  }

  // ---------- What is registered is owned ----------

  lemma {:induction false} NamedIff(entries: seq<Entry>, name: string, t: TestInfo)
    ensures t in TestsNamed(entries, name)
            <==> exists q :: 0 <= q < |entries| && entries[q].test == t && entries[q].caseName == name
  {
    if entries != [] {
      var n := |entries| - 1;
      NamedIff(entries[..n], name, t);
      assert forall q :: 0 <= q < n ==> entries[..n][q] == entries[q];
    }
  }

  lemma {:induction false} NamedOnce(entries: seq<Entry>, name: string)
    requires DistinctTests(entries)
    ensures NoRepeats(TestsNamed(entries, name))
  {
    if entries != [] {
      var n := |entries| - 1;
      NamedOnce(entries[..n], name);
      NamedIff(entries[..n], name, entries[n].test);
    }
  }

  lemma {:induction false} CaseBefore(cases: seq<TestCase>, i: nat, c: TestCase)
    requires i <= |cases|
    ensures c in CasesOf(cases, i) ==> exists k :: 0 <= k < i && cases[k] == c
  {
    if i > 0 {
      CaseBefore(cases, i - 1, c);
    }
  }

  /** Each test case has its own tests, so the registered tests can be filtered and run. */
  lemma RegisteredOwned(impl: UnitTestImpl, entries: seq<Entry>)
    requires impl.Valid() && Holds(impl, entries) && DistinctTests(entries)
    ensures Owned(impl.testCases, ListsOf(impl.testCases, entries))
  {
    var cases, lists := impl.testCases, ListsOf(impl.testCases, entries);
    assert DistinctNames(cases);
    forall i | 0 <= i < |cases| ensures OwnTests(cases, lists, i) {
      OwnedAt(cases, lists, entries, i);
      assert cases[i] in cases;
    }
  }

  lemma OwnedAt(cases: seq<TestCase>, lists: seq<seq<TestInfo>>, entries: seq<Entry>, i: nat)
    requires DistinctNames(cases) && lists == ListsOf(cases, entries) && DistinctTests(entries) && i < |cases|
    ensures NoRepeats(lists[i]) && cases[i] !in CasesOf(cases, i)
    ensures forall t :: t in TestsOf(lists, i) ==> t !in lists[i]
  {
    NamedOnce(entries, cases[i].name);
    CaseBefore(cases, i, cases[i]);
    OfFirst(cases, lists, i);
    forall t | t in TestsOf(lists, i) ensures t !in lists[i] {
      var k :| 0 <= k < i && t in lists[k];
      NamedIff(entries, cases[k].name, t);
      NamedIff(entries, cases[i].name, t);
    }
  }

  /** All the tests of the test cases are among those registered. */
  lemma OnlyRegistered(cases: seq<TestCase>, entries: seq<Entry>, t: TestInfo)
    requires t in TestsOf(ListsOf(cases, entries), |cases|)
    ensures exists q :: 0 <= q < |entries| && entries[q].test == t
  {
    hide TestsNamed, TestsOf;
    var lists := ListsOf(cases, entries);
    OfFirst(cases, lists, |cases|);
    var k :| 0 <= k < |cases| && t in lists[k];
    NamedIff(entries, cases[k].name, t);
  }

  // ---------- From registration to the rounds ----------

  /** The process has the registered test cases, in their order, with their tests. */
  ghost predicate HasRegistered(p: Process, entries: seq<Entry>) {
    && Names(p.cases) == Select(CaseNames(entries), true) + Select(CaseNames(entries), false)
    && p.lists == ListsOf(p.cases, entries)
  }

  /** A test program in one process: registers its tests, filters them for the shard and runs
      the rounds. */
  method RunProgram(entries: seq<Entry>, filter: string, alsoRunDisabled: bool, r: Reaction, repeat: nat,
                    shuffle: bool, randomSeedFlag: int, timeInMillis: int)
    returns (rounds: seq<Round>, ghost p: Process)
    requires |entries| + 1 < MAX_RANGE && DistinctTests(entries) && Usable(r)
    modifies (set e | e in entries :: e.test)
    ensures |rounds| == repeat && p.rounds == rounds
    ensures HasRegistered(p, entries) && Ran(p, filter, alsoRunDisabled, r, repeat)
  {
    var impl := RegisterAll(entries);
    ghost var lists := ListsOf(impl.testCases, entries);
    RegisteredOwned(impl, entries);
    forall t | t in TestsOf(lists, |lists|) ensures t in (set e | e in entries :: e.test) {
      OnlyRegistered(impl.testCases, entries, t);
    }
    assert forall k :: 0 <= k < |impl.testCases| ==> impl.testCases[k] in impl.testCases;
    ghost var rows;
    rounds, rows := RunFiltered(impl, filter, alsoRunDisabled, r, repeat, shuffle, randomSeedFlag, timeInMillis, lists);
    p := Process(impl.testCases, lists, rows, rounds);
  }

  // ---------- The same program in many processes ----------

  ghost predicate SameEntries(a: seq<Entry>, b: seq<Entry>) {
    |a| == |b| && forall q {:trigger a[q]} {:trigger b[q]} :: 0 <= q < |a| ==>
      a[q].caseName == b[q].caseName && a[q].test.name == b[q].test.name
  }

  lemma {:induction false} SameCaseNames(a: seq<Entry>, b: seq<Entry>)
    requires SameEntries(a, b)
    ensures CaseNames(a) == CaseNames(b)
  {
    if a != [] {
      var n := |a| - 1;
      SameCaseNames(a[..n], b[..n]);
      assert a[n].caseName == b[n].caseName;
    }
  }

  lemma {:induction false} SameNamed(a: seq<Entry>, b: seq<Entry>, name: string)
    requires SameEntries(a, b)
    ensures SameTestNames(TestsNamed(a, name), TestsNamed(b, name))
  {
    if a != [] {
      var n := |a| - 1;
      SameNamed(a[..n], b[..n], name);
      assert a[n].caseName == b[n].caseName;
    }
  }

  /** Where a program registers the same names, it has tests of the same names at the same places. */
  lemma SamePlaces(p: Process, q: Process, a: seq<Entry>, b: seq<Entry>)
    requires HasRegistered(p, a) && HasRegistered(q, b) && SameEntries(a, b)
    ensures SameNames(p, q)
  {
    SameCaseNames(a, b);
    var names := Names(p.cases);
    forall i | 0 <= i < |p.cases|
      ensures p.cases[i].name == q.cases[i].name && SameTestNames(p.lists[i], q.lists[i])
    {
      assert names[i] == p.cases[i].name && names[i] == q.cases[i].name;
      SameNamed(a, b, names[i]);
    }
  }

  /** The place of a test among those of its test case: behind those registered before. */
  lemma {:induction false} PlaceOf(entries: seq<Entry>, q: nat)
    requires q < |entries|
    ensures var name := entries[q].caseName;
            var j := |TestsNamed(entries[..q], name)|;
            j < |TestsNamed(entries, name)| && TestsNamed(entries, name)[j] == entries[q].test
    decreases |entries|
  {
    var n := |entries| - 1;
    if q < n {
      PlaceOf(entries[..n], q);
      assert entries[..n][..q] == entries[..q];
    }
  }

  /** Every registration has a test case. */
  lemma CaseOf(p: Process, entries: seq<Entry>, q: nat) returns (i: nat)
    requires HasRegistered(p, entries) && q < |entries|
    ensures i < |p.cases| && p.cases[i].name == entries[q].caseName
  {
    var name := entries[q].caseName;
    CaseNamesAre(entries, name);
    SelectedAll(CaseNames(entries), name);
    i :| 0 <= i < |Names(p.cases)| && Names(p.cases)[i] == name;
  }

  /** A test is at the same place in two processes. */
  lemma SamePlace(p: Process, r: Process, a: seq<Entry>, b: seq<Entry>, q: nat, i: nat)
    requires HasRegistered(p, a) && HasRegistered(r, b) && SameEntries(a, b) && q < |a|
    requires i < |p.cases| && p.cases[i].name == a[q].caseName
    ensures var j := |TestsNamed(a[..q], a[q].caseName)|;
            i < |r.lists| && j < |r.lists[i]| && r.lists[i][j] == b[q].test
  {
    hide TestsNamed, CaseNames;
    SamePlaces(p, r, a, b);
    assert SameTestNames(p.lists[i], r.lists[i]) && b[q].caseName == a[q].caseName;
    SameNamed(a[..q], b[..q], a[q].caseName);
    PlaceOf(b, q);
  }

  /** The processes of all the shards have run the same program n rounds or more. */
  ghost predicate AllRanProgram(ps: seq<Process>, programs: seq<seq<Entry>>, filter: string, alsoRunDisabled: bool,
                                n: nat)
  {
    && |ps| == |programs| > 0
    && forall k {:trigger ps[k]} {:trigger programs[k]} :: 0 <= k < |ps| ==>
         && HasRegistered(ps[k], programs[k]) && SameEntries(programs[0], programs[k])
         && Ran(ps[k], filter, alsoRunDisabled, Honor(|ps|, k), n)
  }

  /** Every registered test that is runnable is started exactly once a round by one of the
      processes, and a test that is not runnable by none. */
  lemma EveryRegisteredTestOnce(ps: seq<Process>, programs: seq<seq<Entry>>, filter: string, alsoRunDisabled: bool,
                                tests: seq<TestInfo>, n: nat, q: nat)
    requires AllRanProgram(ps, programs, filter, alsoRunDisabled, n + 1) && q < |programs[0]|
    requires |tests| == |ps|
    requires forall k {:trigger tests[k]} :: 0 <= k < |ps| ==> q < |programs[k]| && tests[k] == programs[k][q].test
    ensures forall k :: 0 <= k < |ps| ==> n < |ps[k].rounds|
    ensures TimesStarted(ps, tests, |ps|, n)
            == if Runnable(filter, alsoRunDisabled, programs[0][q].caseName, tests[0].name) then 1 else 0
  {
    hide TestsNamed, CaseNames, SameNames, StartsSelected, AreRows, HasRegistered;
    var name := programs[0][q].caseName;
    var i := CaseOf(ps[0], programs[0], q);
    var j := |TestsNamed(programs[0][..q], name)|;
    forall k | 0 <= k < |ps|
      ensures SameNames(ps[0], ps[k])
      ensures i < |ps[k].lists| && j < |ps[k].lists[i]| && tests[k] == ps[k].lists[i][j]
    {
      SamePlaces(ps[0], ps[k], programs[0], programs[k]);
      SamePlace(ps[0], ps[k], programs[0], programs[k], q, i);
      assert tests[k] == programs[k][q].test;
    }
    EveryTestOnce(ps, filter, alsoRunDisabled, tests, n, i, j);
  }
}
