/** Which tests a run of a test program starts, from the filter and the shard to the rounds. */
module Execution {
  import opened Shuffle
  import opened Arrangement
  import opened TestObjects
  import opened Rounds
  import opened Registration
  import opened Sharding

  /** All the tests started in some visits, each as often as it was started. */
  ghost function AllStarted(started: seq<seq<TestInfo>>): multiset<TestInfo> {
    if started == [] then multiset{}
    else AllStarted(started[..|started| - 1]) + multiset(started[|started| - 1])
  }

  /** No test is in two places. */
  ghost predicate Apart(lists: seq<seq<TestInfo>>) {
    && (forall i {:trigger NoRepeats(lists[i])} :: 0 <= i < |lists| ==> NoRepeats(lists[i]))
    && (forall i, k, t {:trigger t in lists[i], t in lists[k]} ::
          0 <= i < k < |lists| && t in lists[i] ==> t !in lists[k])
  }

  // ---------- One test case ----------

  lemma PickedOther<T>(list: seq<T>, order: seq<nat>, marks: seq<bool>, t: T)
    requires t !in list
    ensures multiset(Picked(list, order, marks))[t] == 0
  {
    if order != [] {
      PickedOther(list, order[..|order| - 1], marks, t);
    }
  }

  lemma {:induction false} PickedCount(list: seq<TestInfo>, order: seq<nat>, marks: seq<bool>, j: nat)
    requires NoRepeats(list) && |marks| == |list| && j < |list|
    ensures multiset(Picked(list, order, marks))[list[j]] == if marks[j] then Count<nat>(order, 0, |order|, j) else 0
  {
    if order != [] {
      var n := |order| - 1;
      var before: seq<nat>, last: nat := order[..n], order[n];
      PickedCount(list, before, marks, j);
      SameCount<nat>(before, order, 0, n, j);
      assert Picked(list, order, marks) ==
        Picked(list, before, marks) + if last < |list| && marks[last] then [list[last]] else [];
      assert last < |list| && last != j ==> list[last] != list[j];
    }
  }

  // ---------- The orders ----------

  lemma {:induction false} TestOrdersAt(indices: seq<seq<nat>>, k: nat, state: nat, j: nat)
    requires j < k <= |indices|
    ensures TestOrders(indices, k, state)[j] == TestOrder(indices[j], StateAt(indices, j, state))
    decreases k
  {
    if j < k - 1 {
      TestOrdersAt(indices, k - 1, state, j);
    }
  }

  /** In a round the tests of a test case are in an order that has each of them once. */
  lemma RoundOrdersArrange(lists: seq<seq<TestInfo>>, d: nat, shuffle: bool, seed: nat, j: nat)
    requires d <= |lists| && j < |lists|
    ensures var order := RoundOrders(lists, d, shuffle, seed)[j];
      |order| == |lists[j]| && Arranges(order, 0, |lists[j]|)
  {
    var before, n := Identities(lists), |lists[j]|;
    IdentityArranges(n, 0, n);
    if shuffle {
      var state := StateAfterCases(|lists|, d, seed);
      TestOrdersAt(before, |before|, state, j);
      var own := StateAt(before, j, state);
      DrawsAreDrawable(own, n);
      ShuffleKeepsArranged(before[j], 0, n, Draws(own, n), 0, n);
    }
  }

  lemma RoundOrderArranges(n: nat, d: nat, shuffle: bool, seed: nat)
    requires d <= n
    ensures Arranges(RoundOrder(n, d, shuffle, seed), 0, n)
  {
    IdentityArranges(n, 0, d);
    IdentityArranges(n, d, n);
    if shuffle {
      CaseOrderArranges(Identity(n), d, seed);
    }
    ArrangedJoin(RoundOrder(n, d, shuffle, seed), d);
  }

  // ---------- One round ----------

  /** What one visit starts of a test: it is started once where its test case is visited. */
  lemma VisitStarts(round: Round, p: Plan, d: nat, shuffle: bool, seed: nat, k: nat, c: nat, i: nat, j: nat)
    requires p.Shaped() && Apart(p.lists) && d <= |p.lists| && c < |p.cases|
    requires Visited(round, p, RoundOrders(p.lists, d, shuffle, seed), k, c)
    requires i < |p.cases| && j < |p.lists[i]|
    ensures multiset(round.started[k])[p.lists[i][j]] == if c == i && p.on[i] && p.marks[i][j] then 1 else 0
  {
    var order := RoundOrders(p.lists, d, shuffle, seed)[c];
    assert p.lists[i][j] in p.lists[i] && NoRepeats(p.lists[i]);
    assert |p.marks[i]| == |p.lists[i]|;
    if c == i {
      PickedCount(p.lists[i], order, p.marks[i], j);
      RoundOrdersArrange(p.lists, d, shuffle, seed, i);
    } else {
      PickedOther(p.lists[c], order, p.marks[c], p.lists[i][j]);
    }
  }

  lemma {:induction false} VisitsStart(round: Round, p: Plan, d: int, shuffle: bool, seed: nat, m: nat, i: nat, j: nat)
    requires IsRound(round, p, d, shuffle, seed) && Apart(p.lists)
    requires m <= |p.cases| && i < |p.cases| && j < |p.lists[i]|
    ensures AllStarted(round.started[..m])[p.lists[i][j]] ==
      if p.on[i] && p.marks[i][j] then Count<nat>(RoundOrder(|p.cases|, d, shuffle, seed), 0, m, i) else 0
    decreases m
  {
    var order: seq<nat> := RoundOrder(|p.cases|, d, shuffle, seed);
    if m > 0 {
      VisitsStart(round, p, d, shuffle, seed, m - 1, i, j);
      assert round.started[..m][..m - 1] == round.started[..m - 1];
      assert Visited(round, p, RoundOrders(p.lists, d, shuffle, seed), m - 1, order[m - 1]);
      VisitStarts(round, p, d, shuffle, seed, m - 1, order[m - 1], i, j);
    }
  }

  /** A round starts a test once if it and its test case are to run, and else never. */
  lemma RoundStarts(round: Round, p: Plan, d: int, shuffle: bool, seed: nat, i: nat, j: nat)
    requires IsRound(round, p, d, shuffle, seed) && Apart(p.lists)
    requires i < |p.cases| && j < |p.lists[i]|
    ensures AllStarted(round.started)[p.lists[i][j]] == if p.on[i] && p.marks[i][j] then 1 else 0
  {
    var n := |p.cases|;
    VisitsStart(round, p, d, shuffle, seed, n, i, j);
    RoundOrderArranges(n, d, shuffle, seed);
    assert round.started[..n] == round.started;
  }

  /** A round starts nothing but the tests of its plan. */
  lemma RoundStartsNoOther(round: Round, p: Plan, d: int, shuffle: bool, seed: nat, m: nat, t: TestInfo)
    requires IsRound(round, p, d, shuffle, seed) && m <= |p.cases|
    requires forall i :: 0 <= i < |p.lists| ==> t !in p.lists[i]
    ensures AllStarted(round.started[..m])[t] == 0
  {
    var order, orders := RoundOrder(|p.cases|, d, shuffle, seed), RoundOrders(p.lists, d, shuffle, seed);
    if m > 0 {
      RoundStartsNoOther(round, p, d, shuffle, seed, m - 1, t);
      assert round.started[..m][..m - 1] == round.started[..m - 1];
      var j := order[m - 1];
      assert Visited(round, p, orders, m - 1, j);
      PickedOther(p.lists[j], orders[j], p.marks[j], t);
    }
  }

  // ---------- From the filter to the rounds ----------

  /** The plan that FilterTests leaves. */
  ghost function PlanOf(cases: seq<TestCase>, lists: seq<seq<TestInfo>>, rows: seq<seq<bool>>, r: Reaction): (p: Plan)
    requires Usable(r)
    ensures p.cases == cases && p.lists == lists && |p.on| == |p.marks| == |rows|
    ensures forall i {:trigger p.marks[i]} {:trigger p.on[i]} :: 0 <= i < |rows| ==>
      p.marks[i] == SelectedRow(rows[i], Base(rows, i), r) && p.on[i] == (CountTrue(p.marks[i]) > 0)
  {
    var marks := seq(|rows|, i requires 0 <= i < |rows| => SelectedRow(rows[i], Base(rows, i), r));
    Plan(cases, lists, seq(|rows|, i requires 0 <= i < |rows| => CountTrue(marks[i]) > 0), marks)
  }

  /** In that plan a test is to run when it is runnable and its number falls to the shard. */
  lemma PlanMeans(cases: seq<TestCase>, lists: seq<seq<TestInfo>>, rows: seq<seq<bool>>, r: Reaction, i: nat, j: nat)
    requires Usable(r) && i < |rows| && j < |rows[i]|
    ensures var p := PlanOf(cases, lists, rows, r);
      |p.marks[i]| == |rows[i]| && (p.on[i] && p.marks[i][j] <==> rows[i][j] && Picks(r, TestId(rows, i, j)))
  {
    hide SelectedRow, CountTrue, Picks, Base, PlanOf;
    var p, row := PlanOf(cases, lists, rows, r), SelectedRow(rows[i], Base(rows, i), r);
    SelectedAt(rows[i], Base(rows, i), r, j);
    CountPositive(row);
    assert p.marks[i] == row && p.on[i] == (CountTrue(row) > 0);
  }

  lemma OwnedApart(cases: seq<TestCase>, lists: seq<seq<TestInfo>>)
    requires Owned(cases, lists)
    ensures Apart(lists)
  {
    forall k | 0 <= k < |lists| ensures NoRepeats(lists[k]) {
      assert OwnTests(cases, lists, k);
    }
    forall i, k, t | 0 <= i < k < |lists| && t in lists[i] ensures t !in lists[k] {
      assert OwnTests(cases, lists, k);
      TestsOfGrows(lists, i + 1, k);
      assert t in Elements(lists[i]);
    }
  }

  /** FilterTests leaves the heap as its plan says. */
  lemma MarkedFollows(cases: seq<TestCase>, lists: seq<seq<TestInfo>>, filter: string, alsoRunDisabled: bool,
                      rows: seq<seq<bool>>, r: Reaction)
    requires Usable(r) && Owned(cases, lists) && AreRows(rows, filter, alsoRunDisabled, cases, lists)
    requires CasesMarked(cases, lists, filter, rows, r, |cases|)
    ensures Follows(PlanOf(cases, lists, rows, r)) && PlanOf(cases, lists, rows, r).Shaped() && |lists| == |rows|
  {
    var p := PlanOf(cases, lists, rows, r);
    forall j | 0 <= j < |lists| ensures |p.marks[j]| == |lists[j]| {
      assert IsRow(rows[j], filter, alsoRunDisabled, cases[j].name, lists[j]);
    }
    forall j | 0 <= j < |cases| ensures FollowsCase(p, j) {
      assert OwnTests(cases, lists, j);
      CasesMarkedAt(cases, lists, filter, rows, r, |cases|, j);
      forall i | 0 <= i < |lists[j]| ensures lists[j][i].shouldRun == p.marks[j][i] {
        assert MarkedTest(lists[j][i], cases[j].name, filter, p.marks[j][i]);
      }
    }
  }

  lemma {:induction false} NoneSelected(rows: seq<seq<bool>>, r: Reaction, n: nat, i: nat)
    requires Usable(r) && i < n <= |rows| && SelectedBefore(rows, n, r) == 0
    ensures CountTrue(SelectedRow(rows[i], Base(rows, i), r)) == 0
    decreases n
  {
    if i < n - 1 {
      NoneSelected(rows, r, n - 1, i);
    }
  }

  /** How often a round of one shard starts a test: once if it is runnable and its number falls
      to the shard, and else never. */
  lemma RoundStartsSelected(round: Round, cases: seq<TestCase>, lists: seq<seq<TestInfo>>, rows: seq<seq<bool>>,
                            r: Reaction, d: int, shuffle: bool, seed: nat, i: nat, j: nat)
    requires Usable(r) && Apart(lists) && PlanOf(cases, lists, rows, r).Shaped()
    requires IsRoundOrEmpty(round, PlanOf(cases, lists, rows, r), d, shuffle, SelectedBefore(rows, |rows|, r) > 0, seed)
    requires i < |lists| && j < |lists[i]| == |rows[i]|
    ensures AllStarted(round.started)[lists[i][j]] == if rows[i][j] && Picks(r, TestId(rows, i, j)) then 1 else 0
  {
    var p := PlanOf(cases, lists, rows, r);
    PlanMeans(cases, lists, rows, r, i, j);
    if SelectedBefore(rows, |rows|, r) > 0 {
      RoundStarts(round, p, d, shuffle, seed, i, j);
    } else {
      NoneSelected(rows, r, |rows|, i);
      CountPositive(p.marks[i]);
    }
  }

  /** What a whole run of one process starts, round by round. */
  ghost predicate StartsSelected(rounds: seq<Round>, lists: seq<seq<TestInfo>>, rows: seq<seq<bool>>, r: Reaction)
    requires Usable(r)
  {
    |lists| == |rows| &&
    forall n, i, j {:trigger AllStarted(rounds[n].started)[lists[i][j]]} ::
      0 <= n < |rounds| && 0 <= i < |lists| && 0 <= j < |lists[i]| == |rows[i]| ==>
        AllStarted(rounds[n].started)[lists[i][j]] == if rows[i][j] && Picks(r, TestId(rows, i, j)) then 1 else 0
  }

  lemma RoundsStart(rounds: seq<Round>, cases: seq<TestCase>, lists: seq<seq<TestInfo>>, rows: seq<seq<bool>>,
                    r: Reaction, d: int, shuffle: bool, seed: nat)
    requires Usable(r) && Apart(lists) && PlanOf(cases, lists, rows, r).Shaped() && |lists| == |rows|
    requires shuffle ==> 1 <= seed <= MAX_RANDOM_SEED
    requires EveryRound(rounds, PlanOf(cases, lists, rows, r), d, shuffle, SelectedBefore(rows, |rows|, r) > 0, seed)
    ensures StartsSelected(rounds, lists, rows, r)
  {
    forall n, i, j | 0 <= n < |rounds| && 0 <= i < |lists| && 0 <= j < |lists[i]| == |rows[i]|
      ensures AllStarted(rounds[n].started)[lists[i][j]] == if rows[i][j] && Picks(r, TestId(rows, i, j)) then 1 else 0
    {
      var has := SelectedBefore(rows, |rows|, r) > 0;
      EveryRoundAt(rounds, PlanOf(cases, lists, rows, r), d, shuffle, has, seed, n);
      RoundStartsSelected(rounds[n], cases, lists, rows, r, d, shuffle, SeedOfRound(shuffle, seed, n), i, j);
    }
  }

  /** RUN_ALL_TESTS: filters the tests, and in each round starts exactly the runnable ones of the
      shard, each once. */
  method RunFiltered(impl: UnitTestImpl, filter: string, alsoRunDisabled: bool, r: Reaction, repeat: nat, shuffle: bool,
                     randomSeedFlag: int, timeInMillis: int, ghost lists: seq<seq<TestInfo>>)
    returns (rounds: seq<Round>, ghost rows: seq<seq<bool>>)
    requires impl.Valid() && impl.AllValid() && impl.InOrder() && impl.AllInOrder()
    requires Usable(r) && Owned(impl.testCases, lists)
    modifies impl`testCaseIndices, impl.random, impl.testCases`testIndices, impl.testCases`shouldRun
    modifies TestsOf(lists, |lists|)`isDisabled, TestsOf(lists, |lists|)`matchesFilter
    modifies TestsOf(lists, |lists|)`shouldRun
    ensures impl.Valid() && impl.AllValid() && impl.InOrder() && impl.AllInOrder() && |rounds| == repeat
    ensures AreRows(rows, filter, alsoRunDisabled, impl.testCases, lists)
    ensures var first := if shuffle then GetRandomSeedFromFlag(randomSeedFlag, timeInMillis) else 0;
      EveryRound(rounds, PlanOf(impl.testCases, lists, rows, r), impl.lastDeathTestCase + 1, shuffle,
                 SelectedBefore(rows, |rows|, r) > 0, first)
    ensures StartsSelected(rounds, lists, rows, r)
  {
    hide *;
    var numSelected;
    numSelected, rows := FilterTests(impl.testCases, filter, alsoRunDisabled, r, lists);
    OwnedApart(impl.testCases, lists);
    MarkedFollows(impl.testCases, lists, filter, alsoRunDisabled, rows, r);
    ghost var p, d := PlanOf(impl.testCases, lists, rows, r), impl.lastDeathTestCase + 1;
    rounds := impl.RunAllTests(repeat, shuffle, numSelected > 0, randomSeedFlag, timeInMillis, p);
    RoundsStart(rounds, impl.testCases, lists, rows, r, d, shuffle,
                if shuffle then GetRandomSeedFromFlag(randomSeedFlag, timeInMillis) else 0);
  }

  // ---------- All the shards ----------

  /** A process: its test cases with their tests, which of those are runnable, and its rounds. */
  datatype Process =
    Process(cases: seq<TestCase>, lists: seq<seq<TestInfo>>, rows: seq<seq<bool>>, rounds: seq<Round>)

  /** The process has filtered its tests for its shard and run n rounds or more. */
  ghost predicate Ran(p: Process, filter: string, alsoRunDisabled: bool, r: Reaction, n: nat)
    requires Usable(r)
  {
    && AreRows(p.rows, filter, alsoRunDisabled, p.cases, p.lists)
    && StartsSelected(p.rounds, p.lists, p.rows, r)
    && n <= |p.rounds|
  }

  /** Each process has its own objects, but for tests of the same names at the same places. */
  ghost predicate SameNames(p: Process, q: Process) {
    && |p.cases| == |p.lists| == |q.cases| == |q.lists|
    && forall i {:trigger SameTestNames(p.lists[i], q.lists[i])} :: 0 <= i < |p.cases| ==>
         p.cases[i].name == q.cases[i].name && SameTestNames(p.lists[i], q.lists[i])
  }

  ghost predicate SameTestNames(a: seq<TestInfo>, b: seq<TestInfo>) {
    |a| == |b| && forall j {:trigger a[j]} {:trigger b[j]} :: 0 <= j < |a| ==> a[j].name == b[j].name
  }

  /** Which tests are runnable is a matter of the names alone, so all processes number them alike. */
  lemma SameRows(p: Process, q: Process, filter: string, alsoRunDisabled: bool)
    requires AreRows(p.rows, filter, alsoRunDisabled, p.cases, p.lists)
    requires AreRows(q.rows, filter, alsoRunDisabled, q.cases, q.lists)
    requires SameNames(p, q)
    ensures p.rows == q.rows
  {
    forall i | 0 <= i < |p.rows| ensures p.rows[i] == q.rows[i] {
      assert SameTestNames(p.lists[i], q.lists[i]);
      assert IsRow(p.rows[i], filter, alsoRunDisabled, p.cases[i].name, p.lists[i]);
      assert IsRow(q.rows[i], filter, alsoRunDisabled, q.cases[i].name, q.lists[i]);
      forall j | 0 <= j < |p.rows[i]| ensures p.rows[i][j] == q.rows[i][j] {
        assert p.rows[i][j] == Runnable(filter, alsoRunDisabled, p.cases[i].name, p.lists[i][j].name);
        assert q.rows[i][j] == Runnable(filter, alsoRunDisabled, q.cases[i].name, q.lists[i][j].name);
      }
    }
  }

  /** How often the first m processes start a test in their n-th round; tests[k] is the test in
      the k-th process. */
  ghost function TimesStarted(ps: seq<Process>, tests: seq<TestInfo>, m: nat, n: nat): nat
    requires m <= |ps| == |tests| && forall k :: 0 <= k < |ps| ==> n < |ps[k].rounds|
  {
    if m == 0 then 0
    else TimesStarted(ps, tests, m - 1, n) + AllStarted(ps[m - 1].rounds[n].started)[tests[m - 1]]
  }

  /** The processes of all the shards have run with the same tests, flag and filter. */
  ghost predicate AllRan(ps: seq<Process>, filter: string, alsoRunDisabled: bool, n: nat) {
    && ps != []
    && forall k {:trigger ps[k]} :: 0 <= k < |ps| ==>
         Ran(ps[k], filter, alsoRunDisabled, Honor(|ps|, k), n) && SameNames(ps[0], ps[k])
  }

  /** The test at place j of the test case at place i, in every process. */
  ghost predicate TestsAt(tests: seq<TestInfo>, ps: seq<Process>, i: nat, j: nat) {
    && |tests| == |ps|
    && forall k {:trigger tests[k]} {:trigger ps[k]} :: 0 <= k < |ps| ==>
         i < |ps[k].lists| && j < |ps[k].lists[i]| && tests[k] == ps[k].lists[i][j]
  }

  /** The processes of the first m shards. */
  lemma {:induction false} StartedByFirst(ps: seq<Process>, filter: string, alsoRunDisabled: bool,
                                          tests: seq<TestInfo>, m: nat, n: nat, i: nat, j: nat)
    requires AllRan(ps, filter, alsoRunDisabled, n + 1) && m <= |ps| && TestsAt(tests, ps, i, j)
    ensures var rows := ps[0].rows;
      && i < |rows| && j < |rows[i]|
      && TimesStarted(ps, tests, m, n) == if rows[i][j] && m > 0 && ShardOf(rows, i, j, |ps|) < m then 1 else 0
    decreases m
  {
    var rows := ps[0].rows;
    assert tests[0] == ps[0].lists[i][j] && SameNames(ps[0], ps[0]);
    assert IsRow(rows[i], filter, alsoRunDisabled, ps[0].cases[i].name, ps[0].lists[i]);
    if m > 0 {
      StartedByFirst(ps, filter, alsoRunDisabled, tests, m - 1, n, i, j);
      var p := ps[m - 1];
      SameRows(ps[0], p, filter, alsoRunDisabled);
      assert tests[m - 1] == p.lists[i][j];
      assert IsRow(p.rows[i], filter, alsoRunDisabled, p.cases[i].name, p.lists[i]);
    }
  }

  /** All the shards together start every runnable test exactly once a round, and no other test. */
  lemma EveryTestOnce(ps: seq<Process>, filter: string, alsoRunDisabled: bool, tests: seq<TestInfo>,
                      n: nat, i: nat, j: nat)
    requires AllRan(ps, filter, alsoRunDisabled, n + 1) && TestsAt(tests, ps, i, j)
    ensures i < |ps[0].cases| && TimesStarted(ps, tests, |ps|, n)
      == if Runnable(filter, alsoRunDisabled, ps[0].cases[i].name, tests[0].name) then 1 else 0
  {
    StartedByFirst(ps, filter, alsoRunDisabled, tests, |ps|, n, i, j);
    var p := ps[0];
    assert tests[0] == p.lists[i][j] && SameNames(p, p);
    assert IsRow(p.rows[i], filter, alsoRunDisabled, p.cases[i].name, p.lists[i]);
  }
}
