/** TestInfo and TestCase of gtest: a test case keeps its tests in order of registration and
    an index vector that says in which order they run. */
module TestObjects {
  import opened Shuffle
  import opened Arrangement

  class TestInfo {
    const name: string
    var isDisabled: bool
    var matchesFilter: bool
    var shouldRun: bool

    constructor (name: string)
      ensures this.name == name && !isDisabled && !matchesFilter && !shouldRun
    {
      this.name := name;
      isDisabled, matchesFilter, shouldRun := false, false, false;
    }

    /** Starts the test, unless it is not to run. */
    method Run() returns (started: bool)
      ensures started == shouldRun
    {
      if !shouldRun {
        return false;
      }
      return true;
    }
  }

  /** Which tests of a list are to run. */
  ghost predicate HaveMarks(list: seq<TestInfo>, marks: seq<bool>)
    reads list`shouldRun
  {
    |marks| == |list| && forall j {:trigger marks[j]} :: 0 <= j < |list| ==> list[j].shouldRun == marks[j]
  }

  /** The marked elements of a list, in the order of an index vector. */
  function Picked<T>(list: seq<T>, order: seq<nat>, marks: seq<bool>): seq<T> {
    if order == [] then []
    else
      var before, i := order[..|order| - 1], order[|order| - 1];
      Picked(list, before, marks) + if i < |list| && i < |marks| && marks[i] then [list[i]] else []
  }

  /** The element at i, or the default outside the vector. */
  function GetElementOr(v: seq<nat>, i: int, defaultValue: int): int {
    if i < 0 || i >= |v| then defaultValue else v[i]
  }

  class TestCase {
    const name: string
    var testInfoList: seq<TestInfo>
    var testIndices: seq<nat>
    var shouldRun: bool

    constructor (name: string)
      ensures this.name == name && testInfoList == [] && testIndices == [] && !shouldRun
    {
      this.name := name;
      testInfoList, testIndices, shouldRun := [], [], false;
    }

    /** The index vector holds every test once, and int can count the tests. */
    ghost predicate Valid()
      reads this`testInfoList, this`testIndices
    {
      && |testIndices| == |testInfoList| < MAX_RANGE
      && Arranges(testIndices, 0, |testIndices|)
    }

    ghost predicate InOrder()
      reads this`testInfoList, this`testIndices
    {
      testIndices == Identity(|testInfoList|)
    }

    method AddTestInfo(testInfo: TestInfo)
      requires Valid() && InOrder() && |testInfoList| + 1 < MAX_RANGE
      modifies this`testInfoList, this`testIndices
      ensures Valid() && InOrder() && testInfoList == old(testInfoList) + [testInfo]
    {
      testInfoList := testInfoList + [testInfo];
      testIndices := testIndices + [|testIndices|];
      assert testIndices == Identity(|testInfoList|);
      IdentityArranges(|testInfoList|, 0, |testInfoList|);
    }

    method ShuffleTests(random: Random)
      requires Valid()
      modifies this`testIndices, random
      ensures Valid() && Drawable(Draws(old(random.state), |testInfoList|))
      ensures testIndices == Shuffled(old(testIndices), 0, Draws(old(random.state), |testInfoList|))
      ensures random.state == StateAfter(old(random.state), |testInfoList|)
    {
      ghost var v, draws := testIndices, Draws(random.state, |testInfoList|);
      testIndices := ShuffleRange(random, 0, |testIndices|, testIndices);
      ShuffleKeepsArranged(v, 0, |v|, draws, 0, |v|);
    }

    method UnshuffleTests()
      requires Valid()
      modifies this`testIndices
      ensures Valid() && InOrder()
    {
      for i := 0 to |testIndices|
        invariant |testIndices| == |testInfoList|
        invariant forall k :: 0 <= k < i ==> testIndices[k] == k
      {
        testIndices := testIndices[i := i];
      }
      assert testIndices == Identity(|testInfoList|);
      IdentityArranges(|testInfoList|, 0, |testInfoList|);
    }

    /** The i-th test in the current order. */
    function GetMutableTestInfo(i: int): (t: TestInfo?)
      requires Valid()
      reads this`testInfoList, this`testIndices
      ensures t != null <==> 0 <= i < |testInfoList|
      ensures t != null ==> testIndices[i] < |testInfoList| && t == testInfoList[testIndices[i]]
    {
      var index := GetElementOr(testIndices, i, -1);
      if index < 0 then null
      else (ArrangedWithin(testIndices, 0, |testIndices|, i); testInfoList[index])
    }

    /** Starts the tests that are to run, in the current order, or none if the test case is not
        to run. */
    method Run(ghost marks: seq<bool>) returns (started: seq<TestInfo>)
      requires Valid() && HaveMarks(testInfoList, marks)
      ensures started == if shouldRun then Picked(testInfoList, testIndices, marks) else []
    {
      started := [];
      if !shouldRun {
        return;
      }
      for i := 0 to |testInfoList|
        invariant started == Picked(testInfoList, testIndices[..i], marks)
      {
        var testInfo := GetMutableTestInfo(i);
        var ran := testInfo.Run();
        assert marks[testIndices[i]] == ran;
        assert testIndices[..i + 1][..i] == testIndices[..i];
        if ran {
          started := started + [testInfo];
        }
      }
      assert testIndices[..|testInfoList|] == testIndices;
    }
  }

  lemma VisitedEachOnce<T>(list: seq<T>, indices: seq<nat>, visited: seq<T>)
    requires |visited| == |list| == |indices| && Arranges(indices, 0, |indices|)
    requires forall k :: 0 <= k < |visited| ==> indices[k] < |list| && visited[k] == list[indices[k]]
    ensures multiset(visited) == multiset(list)
  {
    var n := |list|;
    assert visited[0..n] == visited && list[0..n] == list;
    forall x | x in multiset(visited) + multiset(list) ensures multiset(visited)[x] == multiset(list)[x] {
      EachOnce(list, indices, visited, n, x);
      CountIsMultiset(visited, 0, n, x);
      CountIsMultiset(list, 0, n, x);
    }
  }
}
