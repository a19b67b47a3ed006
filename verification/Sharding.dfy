/** FilterTests of gtest.cc: which tests are marked to run when the work is split over shards. */
module Sharding {
  import opened Basics
  import opened Filters
  import opened TestObjects

  /** Whether the sharding protocol is honoured, and the two numbers it goes by. */
  datatype Reaction = Ignore | Honor(totalShards: int, shardIndex: int)

  datatype Decision = Exit | Go(shard: bool)

  /** Whether to shard, from the two environment variables, -1 when unset; inconsistent values
      end the program. */
  function ShouldShard(totalShards: int, shardIndex: int, inSubprocessForDeathTest: bool): Decision {
    if inSubprocessForDeathTest then Go(false)
    else if totalShards == -1 && shardIndex == -1 then Go(false)
    else if totalShards == -1 || shardIndex == -1 then Exit
    else if shardIndex < 0 || shardIndex >= totalShards then Exit
    else Go(totalShards > 1)
  }

  predicate ShouldRunTestOnShard(totalShards: int, shardIndex: int, testId: nat)
    requires totalShards > 0
  {
    testId % totalShards == shardIndex
  }

  predicate Usable(r: Reaction) {
    r.Honor? ==> 0 <= r.shardIndex < r.totalShards
  }

  /** FilterTests is told to shard only with numbers it can use. */
  lemma ShardsAreUsable(totalShards: int, shardIndex: int, inSubprocess: bool)
    ensures ShouldShard(totalShards, shardIndex, inSubprocess) == Go(true) <==>
      !inSubprocess && totalShards > 1 && Usable(Honor(totalShards, shardIndex))
  {
  }

  /** Otherwise the program ends, unless neither number is set or there is one shard. */
  lemma WhenToExit(totalShards: int, shardIndex: int, inSubprocess: bool)
    ensures ShouldShard(totalShards, shardIndex, inSubprocess) == Exit <==>
      !inSubprocess && !(totalShards == -1 && shardIndex == -1) && !(0 <= shardIndex < totalShards)
  {
  }

  /** A shard takes every totalShards-th test, from the one with its own number on. */
  lemma ShardTakes(totalShards: int, shardIndex: int, testId: nat)
    requires 0 <= shardIndex < totalShards
    ensures ShouldRunTestOnShard(totalShards, shardIndex, testId) <==>
      exists q: nat :: testId == totalShards * q + shardIndex
  {
    if ShouldRunTestOnShard(totalShards, shardIndex, testId) {
      assert testId == totalShards * (testId / totalShards) + shardIndex;
    }
    if q: nat :| testId == totalShards * q + shardIndex {
      Quotient(testId, totalShards, q, shardIndex);
    }
  }

  predicate Picks(r: Reaction, testId: nat)
    requires Usable(r)
  {
    r.Ignore? || ShouldRunTestOnShard(r.totalShards, r.shardIndex, testId)
  }

  ghost predicate Disabled(testCaseName: string, testName: string) {
    IsDisabledName(testCaseName) || IsDisabledName(testName)
  }

  ghost predicate Runnable(filter: string, alsoRunDisabled: bool, testCaseName: string, testName: string) {
    (alsoRunDisabled || !Disabled(testCaseName, testName)) && Wanted(filter, testCaseName, testName)
  }

  // ---------- Rows: one truth value for each test of a test case ----------

  function CountTrue(row: seq<bool>): (n: nat)
    ensures n <= |row|
  {
    if row == [] then 0 else CountTrue(row[..|row| - 1]) + if row[|row| - 1] then 1 else 0
  }

  /** Which tests of a test case are selected when `base` runnable tests came before them. */
  function SelectedRow(row: seq<bool>, base: nat, r: Reaction): (s: seq<bool>)
    requires Usable(r)
    ensures |s| == |row|
  {
    if row == [] then []
    else
      var before := row[..|row| - 1];
      SelectedRow(before, base, r) + [row[|row| - 1] && Picks(r, base + CountTrue(before))]
  }

  /** The runnable tests in the first i test cases. */
  function Base(rows: seq<seq<bool>>, i: nat): nat
    requires i <= |rows|
  {
    if i == 0 then 0 else Base(rows, i - 1) + CountTrue(rows[i - 1])
  }

  /** The number of a test: how many runnable tests came before it. */
  function TestId(rows: seq<seq<bool>>, i: nat, j: nat): nat
    requires i < |rows| && j <= |rows[i]|
  {
    Base(rows, i) + CountTrue(rows[i][..j])
  }

  ghost predicate IsRunnable(rows: seq<seq<bool>>, i: nat, j: nat) {
    i < |rows| && j < |rows[i]| && rows[i][j]
  }

  lemma {:induction false} SelectedAt(row: seq<bool>, base: nat, r: Reaction, j: nat)
    requires Usable(r) && j < |row|
    ensures SelectedRow(row, base, r)[j] == (row[j] && Picks(r, base + CountTrue(row[..j])))
  {
    if j < |row| - 1 {
      SelectedAt(row[..|row| - 1], base, r, j);
      assert row[..|row| - 1][..j] == row[..j];
    }
  }

  // ---------- FilterTests ----------

  ghost predicate IsRow(row: seq<bool>, filter: string, alsoRunDisabled: bool, name: string, list: seq<TestInfo>) {
    |row| == |list| && forall j {:trigger Runnable(filter, alsoRunDisabled, name, list[j].name)} ::
      0 <= j < |list| ==> row[j] == Runnable(filter, alsoRunDisabled, name, list[j].name)
  }

  /** A test case is marked: its tests are, and it is itself when one of them runs. */
  ghost predicate Marked(c: TestCase, list: seq<TestInfo>, filter: string, selected: seq<bool>)
    reads c`shouldRun, list
  {
    && (c.shouldRun <==> CountTrue(selected) > 0)
    && MarkedUpTo(list, c.name, filter, selected, |list|)
  }

  ghost predicate MarkedTest(t: TestInfo, caseName: string, filter: string, selected: bool)
    reads t
  {
    t.shouldRun == selected && t.isDisabled == Disabled(caseName, t.name) &&
    t.matchesFilter == Wanted(filter, caseName, t.name)
  }

  ghost predicate NoRepeats(list: seq<TestInfo>) {
    forall i, j :: 0 <= i < j < |list| ==> list[i] != list[j]
  }

  method MarkTest(t: TestInfo, caseName: string, filter: string, alsoRunDisabled: bool, r: Reaction, numRunnable: nat)
    returns (isRunnable: bool, isSelected: bool)
    requires Usable(r)
    modifies t`isDisabled, t`matchesFilter, t`shouldRun
    ensures isRunnable == Runnable(filter, alsoRunDisabled, caseName, t.name)
    ensures isSelected == (isRunnable && Picks(r, numRunnable)) && MarkedTest(t, caseName, filter, isSelected)
  {
    var caseDisabled := MatchesFilter(caseName, DISABLE_TEST_FILTER);
    var testDisabled := MatchesFilter(t.name, DISABLE_TEST_FILTER);
    DisabledFilterMeans(caseName);
    DisabledFilterMeans(t.name);
    t.isDisabled := caseDisabled || testDisabled;
    t.matchesFilter := FilterMatchesTest(filter, caseName, t.name);
    isRunnable := (alsoRunDisabled || !t.isDisabled) && t.matchesFilter;
    isSelected := isRunnable && Picks(r, numRunnable);
    t.shouldRun := isSelected;
  }

  /** Goes through the tests of one test case. */
  method FilterTestCase(c: TestCase, filter: string, alsoRunDisabled: bool, r: Reaction, base: nat,
                        ghost row: seq<bool>)
    returns (numRunnable: nat, numSelected: nat)
    requires Usable(r) && NoRepeats(c.testInfoList)
    requires IsRow(row, filter, alsoRunDisabled, c.name, c.testInfoList)
    modifies c`shouldRun, c.testInfoList`isDisabled, c.testInfoList`matchesFilter, c.testInfoList`shouldRun
    ensures numRunnable == base + CountTrue(row) && numSelected == CountTrue(SelectedRow(row, base, r))
    ensures Marked(c, c.testInfoList, filter, SelectedRow(row, base, r))
  {
    hide SelectedRow, CountTrue, IsRow, Picks, MarkedTest;
    RowStarts(row, base, r, filter, alsoRunDisabled, c.name, c.testInfoList);
    numRunnable, numSelected := base, 0;
    c.shouldRun := false;
    ghost var selected: seq<bool> := [];
    for j := 0 to |c.testInfoList|
      invariant numRunnable == base + CountTrue(row[..j])
      invariant selected == SelectedRow(row[..j], base, r) && numSelected == CountTrue(selected)
      invariant c.shouldRun <==> numSelected > 0
      invariant MarkedUpTo(c.testInfoList, c.name, filter, selected, j)
    {
      var isRunnable, isSelected := MarkNext(c.testInfoList, j, c.name, filter, alsoRunDisabled, r, numRunnable,
                                             selected, row);
      RowStep(row, base, r, j, isSelected);
      CountAppend(selected, isSelected);
      selected := selected + [isSelected];
      numRunnable := numRunnable + if isRunnable then 1 else 0;
      numSelected := numSelected + if isSelected then 1 else 0;
      c.shouldRun := c.shouldRun || isSelected;
    }
    assert row[..|row|] == row;
  }

  /** The first j tests of a list are marked. */
  ghost predicate MarkedUpTo(list: seq<TestInfo>, caseName: string, filter: string, selected: seq<bool>, j: nat)
    reads list
  {
    j <= |list| && j == |selected| &&
    forall k {:trigger MarkedTest(list[k], caseName, filter, selected[k])} ::
      0 <= k < j ==> MarkedTest(list[k], caseName, filter, selected[k])
  }

  method MarkNext(list: seq<TestInfo>, j: nat, caseName: string, filter: string, alsoRunDisabled: bool, r: Reaction,
                  numRunnable: nat, ghost selected: seq<bool>, ghost row: seq<bool>)
    returns (isRunnable: bool, isSelected: bool)
    requires Usable(r) && NoRepeats(list) && j < |list| && IsRow(row, filter, alsoRunDisabled, caseName, list)
    requires MarkedUpTo(list, caseName, filter, selected, j)
    modifies {list[j]}`isDisabled, {list[j]}`matchesFilter, {list[j]}`shouldRun
    ensures isRunnable == row[j] && isSelected == (row[j] && Picks(r, numRunnable))
    ensures MarkedUpTo(list, caseName, filter, selected + [isSelected], j + 1)
  {
    isRunnable, isSelected := MarkTest(list[j], caseName, filter, alsoRunDisabled, r, numRunnable);
  }

  lemma RowStarts(row: seq<bool>, base: nat, r: Reaction, filter: string, alsoRunDisabled: bool, caseName: string,
                  list: seq<TestInfo>)
    requires Usable(r) && IsRow(row, filter, alsoRunDisabled, caseName, list)
    ensures |row| == |list| && row[..0] == [] && SelectedRow([], base, r) == [] && CountTrue([]) == 0
  {
  }

  lemma RowStep(row: seq<bool>, base: nat, r: Reaction, j: nat, picked: bool)
    requires Usable(r) && j < |row| && picked == (row[j] && Picks(r, base + CountTrue(row[..j])))
    ensures SelectedRow(row[..j + 1], base, r) == SelectedRow(row[..j], base, r) + [picked]
    ensures CountTrue(row[..j + 1]) == CountTrue(row[..j]) + (if row[j] then 1 else 0)
  {
    assert row[..j + 1][..j] == row[..j];
  }

  lemma CountAppend(row: seq<bool>, b: bool)
    ensures CountTrue(row + [b]) == CountTrue(row) + (if b then 1 else 0)
  {
    assert (row + [b])[..|row|] == row;
  }

  ghost predicate AreRows(rows: seq<seq<bool>>, filter: string, alsoRunDisabled: bool, cases: seq<TestCase>,
                          lists: seq<seq<TestInfo>>)
  {
    |rows| == |cases| == |lists| &&
    forall i {:trigger IsRow(rows[i], filter, alsoRunDisabled, cases[i].name, lists[i])} ::
      0 <= i < |cases| ==> IsRow(rows[i], filter, alsoRunDisabled, cases[i].name, lists[i])
  }

  lemma {:induction false} RowsExist(filter: string, alsoRunDisabled: bool, cases: seq<TestCase>,
                                     lists: seq<seq<TestInfo>>)
    returns (rows: seq<seq<bool>>)
    requires |cases| == |lists|
    ensures AreRows(rows, filter, alsoRunDisabled, cases, lists)
  {
    rows := seq(|cases|, i requires 0 <= i < |cases| =>
      seq(|lists[i]|, j requires 0 <= j < |lists[i]| =>
        Runnable(filter, alsoRunDisabled, cases[i].name, lists[i][j].name)));
  }

  /** The tests selected in the first i test cases. */
  function SelectedBefore(rows: seq<seq<bool>>, i: nat, r: Reaction): nat
    requires i <= |rows| && Usable(r)
  {
    if i == 0 then 0
    else SelectedBefore(rows, i - 1, r) + CountTrue(SelectedRow(rows[i - 1], Base(rows, i - 1), r))
  }

  ghost function Elements(list: seq<TestInfo>): set<TestInfo> {
    set t | t in list
  }

  /** The tests of the first i test cases. */
  ghost function TestsOf(lists: seq<seq<TestInfo>>, i: nat): set<TestInfo>
    requires i <= |lists|
  {
    if i == 0 then {} else TestsOf(lists, i - 1) + Elements(lists[i - 1])
  }

  lemma {:induction false} TestsOfGrows(lists: seq<seq<TestInfo>>, i: nat, n: nat)
    requires i <= n <= |lists|
    ensures TestsOf(lists, i) <= TestsOf(lists, n)
    decreases n
  {
    if i < n {
      TestsOfGrows(lists, i, n - 1);
    }
  }

  ghost function CasesOf(cases: seq<TestCase>, i: nat): set<TestCase>
    requires i <= |cases|
  {
    if i == 0 then {} else CasesOf(cases, i - 1) + {cases[i - 1]}
  }

  lemma {:induction false} OfFirst(cases: seq<TestCase>, lists: seq<seq<TestInfo>>, i: nat)
    requires i <= |cases| == |lists|
    ensures forall c :: c in CasesOf(cases, i) ==> c in cases
    ensures forall t :: t in TestsOf(lists, i) ==> exists k :: 0 <= k < i && t in lists[k]
  {
    if i > 0 {
      OfFirst(cases, lists, i - 1);
      var last := lists[i - 1];
      assert forall t :: t in Elements(last) ==> t in last;
    }
  }

  /** The i-th test case and its tests are not met before, and no test is there twice. */
  ghost predicate OwnTests(cases: seq<TestCase>, lists: seq<seq<TestInfo>>, i: nat)
    requires i < |cases| == |lists|
    reads cases`testInfoList
  {
    && cases[i].testInfoList == lists[i] && NoRepeats(lists[i])
    && cases[i] !in CasesOf(cases, i)
    && (forall t :: t in TestsOf(lists, i) ==> t !in lists[i])
  }

  /** Every test case has its own tests, each of them once. */
  ghost predicate Owned(cases: seq<TestCase>, lists: seq<seq<TestInfo>>)
    reads cases`testInfoList
  {
    && |cases| == |lists|
    && (forall i {:trigger OwnTests(cases, lists, i)} :: 0 <= i < |cases| ==> OwnTests(cases, lists, i))
  }

  /** The first i test cases are marked. */
  ghost predicate CasesMarked(cases: seq<TestCase>, lists: seq<seq<TestInfo>>, filter: string, rows: seq<seq<bool>>,
                              r: Reaction, i: nat)
    requires Usable(r) && i <= |cases| == |lists| == |rows|
    reads CasesOf(cases, i)`shouldRun, TestsOf(lists, i)
  {
    i == 0 || (
      TestsOfGrows(lists, i - 1, i);
      && CasesMarked(cases, lists, filter, rows, r, i - 1)
      && Marked(cases[i - 1], lists[i - 1], filter, SelectedRow(rows[i - 1], Base(rows, i - 1), r)))
  }

  /** Marks the tests to run and the test cases that hold one, and counts the tests marked. */
  method FilterTests(testCases: seq<TestCase>, filter: string, alsoRunDisabled: bool, r: Reaction,
                     ghost lists: seq<seq<TestInfo>>)
    returns (numSelected: nat, ghost rows: seq<seq<bool>>)
    requires Usable(r) && Owned(testCases, lists)
    modifies testCases`shouldRun
    modifies TestsOf(lists, |lists|)`isDisabled, TestsOf(lists, |lists|)`matchesFilter
    modifies TestsOf(lists, |lists|)`shouldRun
    ensures AreRows(rows, filter, alsoRunDisabled, testCases, lists)
    ensures CasesMarked(testCases, lists, filter, rows, r, |testCases|)
    ensures numSelected == SelectedBefore(rows, |rows|, r)
  {
    rows := RowsExist(filter, alsoRunDisabled, testCases, lists);
    var numRunnable := 0;
    numSelected := 0;
    for i := 0 to |testCases|
      invariant numRunnable == Base(rows, i) && numSelected == SelectedBefore(rows, i, r)
      invariant CasesMarked(testCases, lists, filter, rows, r, i)
    {
      var runnable, selected := FilterNext(testCases, i, filter, alsoRunDisabled, r, numRunnable, lists, rows);
      numRunnable := runnable;
      numSelected := numSelected + selected;
    }
  }

  /** Goes on from i test cases marked to i + 1. */
  method FilterNext(testCases: seq<TestCase>, i: nat, filter: string, alsoRunDisabled: bool, r: Reaction,
                    numRunnable: nat, ghost lists: seq<seq<TestInfo>>, ghost rows: seq<seq<bool>>)
    returns (runnable: nat, selected: nat)
    requires Usable(r) && Owned(testCases, lists) && AreRows(rows, filter, alsoRunDisabled, testCases, lists)
    requires i < |testCases| && CasesMarked(testCases, lists, filter, rows, r, i) && numRunnable == Base(rows, i)
    modifies testCases`shouldRun
    modifies TestsOf(lists, |lists|)`isDisabled, TestsOf(lists, |lists|)`matchesFilter
    modifies TestsOf(lists, |lists|)`shouldRun
    ensures runnable == Base(rows, i + 1) && selected == CountTrue(SelectedRow(rows[i], Base(rows, i), r))
    ensures CasesMarked(testCases, lists, filter, rows, r, i + 1)
  {
    assert OwnTests(testCases, lists, i);
    assert IsRow(rows[i], filter, alsoRunDisabled, testCases[i].name, lists[i]);
    OfFirst(testCases, lists, i);
    TestsOfGrows(lists, i + 1, |lists|);
    runnable, selected := FilterTestCase(testCases[i], filter, alsoRunDisabled, r, numRunnable, rows[i]);
    assert CasesMarked(testCases, lists, filter, rows, r, i);
  }

  // ---------- The shards ----------

  /** The numbers below n that fall to a shard. */
  function Share(n: nat, totalShards: nat, shardIndex: nat): nat
    requires totalShards > 0
  {
    if n == 0 then 0
    else Share(n - 1, totalShards, shardIndex) +
         if ShouldRunTestOnShard(totalShards, shardIndex, n - 1) then 1 else 0
  }

  function Shares(n: nat, r: Reaction): nat
    requires Usable(r)
  {
    if r.Ignore? then n else Share(n, r.totalShards, r.shardIndex)
  }

  lemma SharesStep(n: nat, r: Reaction)
    requires Usable(r)
    ensures Shares(n + 1, r) == Shares(n, r) + if Picks(r, n) then 1 else 0
  {
  }

  lemma {:induction false} RowShare(row: seq<bool>, base: nat, r: Reaction)
    requires Usable(r)
    ensures CountTrue(SelectedRow(row, base, r)) == Shares(base + CountTrue(row), r) - Shares(base, r)
  {
    if row != [] {
      var before, last := row[..|row| - 1], row[|row| - 1];
      var n := base + CountTrue(before);
      RowShare(before, base, r);
      SharesStep(n, r);
      CountAppend(SelectedRow(before, base, r), last && Picks(r, n));
      assert SelectedRow(row, base, r) == SelectedRow(before, base, r) + [last && Picks(r, n)];
      assert base + CountTrue(row) == n + if last then 1 else 0;
    }
  }

  lemma RowsShare(rows: seq<seq<bool>>, i: nat, r: Reaction)
    requires 0 < i <= |rows| && Usable(r)
    requires SelectedBefore(rows, i - 1, r) == Shares(Base(rows, i - 1), r)
    ensures SelectedBefore(rows, i, r) == Shares(Base(rows, i), r)
  {
    RowShare(rows[i - 1], Base(rows, i - 1), r);
  }

  /** The number of tests selected depends only on how many are runnable. */
  lemma {:induction false} SelectedIsShare(rows: seq<seq<bool>>, i: nat, r: Reaction)
    requires i <= |rows| && Usable(r)
    ensures SelectedBefore(rows, i, r) == Shares(Base(rows, i), r)
    decreases i
  {
    if i > 0 {
      SelectedIsShare(rows, i - 1, r);
      RowsShare(rows, i, r);
    }
  }

  lemma {:induction false} CasesMarkedAt(cases: seq<TestCase>, lists: seq<seq<TestInfo>>, filter: string,
                                         rows: seq<seq<bool>>, r: Reaction, n: nat, i: nat)
    requires Usable(r) && i < n <= |cases| == |lists| == |rows| && CasesMarked(cases, lists, filter, rows, r, n)
    ensures Marked(cases[i], lists[i], filter, SelectedRow(rows[i], Base(rows, i), r))
    decreases n
  {
    if i < n - 1 {
      CasesMarkedAt(cases, lists, filter, rows, r, n - 1, i);
    }
  }

  lemma {:induction false} CountPositive(row: seq<bool>)
    ensures CountTrue(row) > 0 <==> exists j :: 0 <= j < |row| && row[j]
  {
    if row != [] {
      var before := row[..|row| - 1];
      CountPositive(before);
      assert forall j :: 0 <= j < |before| ==> before[j] == row[j];
    }
  }

  /** What the marks mean: a test runs when it is runnable and its number falls to the shard,
      and a test case runs when one of its tests does. */
  lemma MarksMean(cases: seq<TestCase>, lists: seq<seq<TestInfo>>, filter: string, rows: seq<seq<bool>>,
                  r: Reaction, i: nat)
    requires Usable(r) && i < |cases| == |lists| == |rows| && |rows[i]| == |lists[i]|
    requires CasesMarked(cases, lists, filter, rows, r, |cases|)
    ensures forall j :: 0 <= j < |lists[i]| ==>
      (lists[i][j].shouldRun <==> rows[i][j] && Picks(r, TestId(rows, i, j)))
    ensures cases[i].shouldRun <==> exists j :: 0 <= j < |lists[i]| && lists[i][j].shouldRun
  {
    CasesMarkedAt(cases, lists, filter, rows, r, |cases|, i);
    var row := SelectedRow(rows[i], Base(rows, i), r);
    CountPositive(row);
    forall j | 0 <= j < |lists[i]|
      ensures lists[i][j].shouldRun == row[j] && row[j] == (rows[i][j] && Picks(r, TestId(rows, i, j)))
    {
      assert MarkedTest(lists[i][j], cases[i].name, filter, row[j]);
      SelectedAt(rows[i], Base(rows, i), r, j);
    }
  }

  // ---------- Test numbers ----------

  lemma {:induction false} CountGrows(row: seq<bool>, j: nat, k: nat)
    requires j <= k <= |row|
    ensures CountTrue(row[..j]) <= CountTrue(row[..k])
    ensures j < k && row[j] ==> CountTrue(row[..j]) < CountTrue(row[..k])
    decreases k
  {
    if j < k {
      CountGrows(row, j, k - 1);
      assert row[..k][..k - 1] == row[..k - 1];
    }
  }

  lemma {:induction false} BaseGrows(rows: seq<seq<bool>>, i: nat, k: nat)
    requires i <= k <= |rows|
    ensures Base(rows, i) <= Base(rows, k)
    decreases k
  {
    if i < k {
      BaseGrows(rows, i, k - 1);
    }
  }

  /** A runnable test has a smaller number than any test after it. */
  lemma IdsGrow(rows: seq<seq<bool>>, i: nat, j: nat, k: nat, l: nat)
    requires IsRunnable(rows, i, j) && k < |rows| && l <= |rows[k]| && (i < k || (i == k && j < l))
    ensures TestId(rows, i, j) < TestId(rows, k, l)
  {
    if i == k {
      CountGrows(rows[i], j, l);
    } else {
      CountGrows(rows[i], j, |rows[i]|);
      assert rows[i][..|rows[i]|] == rows[i];
      BaseGrows(rows, i + 1, k);
    }
  }

  lemma IdIsBelowTotal(rows: seq<seq<bool>>, i: nat, j: nat)
    requires IsRunnable(rows, i, j)
    ensures TestId(rows, i, j) < Base(rows, |rows|)
  {
    CountGrows(rows[i], j, |rows[i]|);
    assert rows[i][..|rows[i]|] == rows[i];
    BaseGrows(rows, i + 1, |rows|);
  }

  /** The runnable tests have different numbers below their total. */
  lemma IdsAreDistinct(rows: seq<seq<bool>>, i: nat, j: nat, k: nat, l: nat)
    requires IsRunnable(rows, i, j) && IsRunnable(rows, k, l)
    ensures TestId(rows, i, j) == TestId(rows, k, l) <==> i == k && j == l
    ensures TestId(rows, i, j) < Base(rows, |rows|)
  {
    IdIsBelowTotal(rows, i, j);
    if i < k || (i == k && j < l) {
      IdsGrow(rows, i, j, k, l);
    } else if i != k || j != l {
      IdsGrow(rows, k, l, i, j);
    }
  }

  lemma {:induction false} FindInRow(row: seq<bool>, n: nat) returns (j: nat)
    requires n < CountTrue(row)
    ensures j < |row| && row[j] && CountTrue(row[..j]) == n
  {
    var before := row[..|row| - 1];
    if n < CountTrue(before) {
      j := FindInRow(before, n);
      assert before[..j] == row[..j];
    } else {
      j := |row| - 1;
    }
  }

  /** Every number below the total is the number of a runnable test. */
  lemma {:induction false} EveryIdIsUsed(rows: seq<seq<bool>>, m: nat, n: nat) returns (i: nat, j: nat)
    requires m <= |rows| && n < Base(rows, m)
    ensures IsRunnable(rows, i, j) && TestId(rows, i, j) == n
    decreases m
  {
    if n < Base(rows, m - 1) {
      i, j := EveryIdIsUsed(rows, m - 1, n);
    } else {
      i := m - 1;
      j := FindInRow(rows[i], n - Base(rows, i));
    }
  }

  // ---------- The partition ----------

  /** The shard that a test falls to. */
  function ShardOf(rows: seq<seq<bool>>, i: nat, j: nat, totalShards: nat): (k: nat)
    requires i < |rows| && j <= |rows[i]| && totalShards > 0
    ensures k < totalShards
  {
    TestId(rows, i, j) % totalShards
  }

  /** Over all the shards, a runnable test is selected on exactly one, and another test on none. */
  lemma SelectedOnOneShard(rows: seq<seq<bool>>, totalShards: nat, i: nat, j: nat)
    requires totalShards > 0 && i < |rows| && j < |rows[i]|
    ensures forall k :: 0 <= k < totalShards ==>
      (SelectedRow(rows[i], Base(rows, i), Honor(totalShards, k))[j] <==>
        rows[i][j] && k == ShardOf(rows, i, j, totalShards))
  {
    forall k | 0 <= k < totalShards
      ensures SelectedRow(rows[i], Base(rows, i), Honor(totalShards, k))[j] <==>
        rows[i][j] && k == ShardOf(rows, i, j, totalShards)
    {
      SelectedAt(rows[i], Base(rows, i), Honor(totalShards, k), j);
    }
  }

  /** So in the process of each shard, the test of that shard is marked and no other one. */
  lemma MarkedOnOneShard(cases: seq<TestCase>, lists: seq<seq<TestInfo>>, filter: string, rows: seq<seq<bool>>,
                         totalShards: nat, k: nat, i: nat, j: nat)
    requires k < totalShards && i < |cases| == |lists| == |rows| && j < |rows[i]| == |lists[i]|
    requires CasesMarked(cases, lists, filter, rows, Honor(totalShards, k), |cases|)
    ensures lists[i][j].shouldRun <==> rows[i][j] && k == ShardOf(rows, i, j, totalShards)
  {
    MarksMean(cases, lists, filter, rows, Honor(totalShards, k), i);
  }

  /** The shares are equal but for the remainder, which goes to the first shards. */
  lemma {:induction false} ShareIs(n: nat, totalShards: nat, shardIndex: nat)
    requires shardIndex < totalShards
    ensures Share(n, totalShards, shardIndex) ==
      n / totalShards + if shardIndex < n % totalShards then 1 else 0
  {
    if n > 0 {
      ShareIs(n - 1, totalShards, shardIndex);
      NextQuotient(n - 1, totalShards);
    } else {
      Quotient(0, totalShards, 0, 0);
    }
  }

  /** Two shards differ by at most one test. */
  lemma SharesAreEven(n: nat, totalShards: nat, a: nat, b: nat)
    requires a < totalShards && b < totalShards
    ensures -1 <= Share(n, totalShards, a) - Share(n, totalShards, b) <= 1
  {
    ShareIs(n, totalShards, a);
    ShareIs(n, totalShards, b);
  }

  /** The shares of the first shards, added up. */
  function SumOfShares(n: nat, totalShards: nat, k: nat): nat
    requires totalShards > 0
  {
    if k == 0 then 0 else SumOfShares(n, totalShards, k - 1) + Share(n, totalShards, k - 1)
  }

  lemma {:induction false} SumStep(n: nat, totalShards: nat, k: nat)
    requires n > 0 && totalShards > 0 && k <= totalShards
    ensures SumOfShares(n, totalShards, k) ==
      SumOfShares(n - 1, totalShards, k) + if (n - 1) % totalShards < k then 1 else 0
    decreases k
  {
    if k > 0 {
      SumStep(n, totalShards, k - 1);
    }
  }

  /** All the shards together run all the tests. */
  lemma {:induction false} SharesAddUp(n: nat, totalShards: nat)
    requires totalShards > 0
    ensures SumOfShares(n, totalShards, totalShards) == n
  {
    if n == 0 {
      NoShares(totalShards, totalShards);
    } else {
      SharesAddUp(n - 1, totalShards);
      SumStep(n, totalShards, totalShards);
    }
  }

  lemma {:induction false} NoShares(totalShards: nat, k: nat)
    requires totalShards > 0
    ensures SumOfShares(0, totalShards, k) == 0
  {
    if k > 0 {
      NoShares(totalShards, k - 1);
    }
  }
}
