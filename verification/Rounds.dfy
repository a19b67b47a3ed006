/** What the rounds of a run are: the orders that shuffling gives, and which tests are started. */
module Rounds {
  import opened Basics
  import opened Shuffle
  import opened Arrangement
  import opened TestObjects
  import opened Filters

  ghost predicate IsDeath(name: string) {
    FilterMatches(name, DEATH_TEST_CASE_FILTER)
  }

  /** A round: the test cases in the order visited, and the tests started in each. */
  datatype Round = Round(cases: seq<TestCase>, started: seq<seq<TestInfo>>)

  /** What there is to run: the test cases, the tests of each, and which of both are to run. */
  datatype Plan = Plan(cases: seq<TestCase>, lists: seq<seq<TestInfo>>, on: seq<bool>, marks: seq<seq<bool>>) {
    ghost predicate Shaped() {
      && |cases| == |lists| == |on| == |marks|
      && forall j {:trigger marks[j]} :: 0 <= j < |lists| ==> |marks[j]| == |lists[j]|
    }
  }

  /** The heap is as the plan says. */
  ghost predicate Follows(p: Plan)
    reads p.cases`testInfoList, p.cases`shouldRun, (set list, t | list in p.lists && t in list :: t)`shouldRun
  {
    && p.Shaped()
    && forall j {:trigger p.lists[j]} :: 0 <= j < |p.cases| ==> FollowsCase(p, j)
  }

  ghost predicate FollowsCase(p: Plan, j: nat)
    requires p.Shaped() && j < |p.cases|
    reads p.cases`testInfoList, p.cases`shouldRun, (set list, t | list in p.lists && t in list :: t)`shouldRun
  {
    && p.cases[j].testInfoList == p.lists[j] && p.cases[j].shouldRun == p.on[j]
    && forall i {:trigger p.marks[j][i]} :: 0 <= i < |p.lists[j]| ==>
      (assert p.lists[j] in p.lists && p.lists[j][i] in p.lists[j];
       p.lists[j][i].shouldRun == p.marks[j][i])
  }

  /** The order of n test cases after a shuffle in which d of them are death test cases. */
  function CaseOrder(indices: seq<nat>, d: nat, state: nat): (order: seq<nat>)
    requires d <= |indices|
    ensures |order| == |indices|
  {
    DrawsAreDrawable(state, d);
    DrawsAreDrawable(StateAfter(state, d), |indices| - d);
    Shuffled(Shuffled(indices, 0, Draws(state, d)), d, Draws(StateAfter(state, d), |indices| - d))
  }

  method ShuffleRanges(random: Random, d: nat, indices: seq<nat>) returns (order: seq<nat>)
    requires d <= |indices| < MAX_RANGE
    modifies random
    ensures order == CaseOrder(indices, d, old(random.state))
    ensures random.state == StateAfterCases(|indices|, d, old(random.state))
  {
    order := ShuffleRange(random, 0, d, indices);
    order := ShuffleRange(random, d, |indices|, order);
  }

  function StateAfterCases(n: nat, d: nat, state: nat): nat
    requires d <= n
  {
    StateAfter(StateAfter(state, d), n - d)
  }

  lemma CaseOrderArranges(indices: seq<nat>, d: nat, state: nat)
    requires Arranges(indices, 0, d) && Arranges(indices, d, |indices|)
    ensures Arranges(CaseOrder(indices, d, state), 0, d)
    ensures Arranges(CaseOrder(indices, d, state), d, |indices|)
  {
    var n := |indices|;
    var first, second := Draws(state, d), Draws(StateAfter(state, d), n - d);
    DrawsAreDrawable(state, d);
    DrawsAreDrawable(StateAfter(state, d), n - d);
    ShuffleKeepsArranged(indices, 0, d, first, 0, d);
    ShuffleKeepsArranged(indices, 0, d, first, d, n);
    var between := Shuffled(indices, 0, first);
    ShuffleKeepsArranged(between, d, n, second, 0, d);
    ShuffleKeepsArranged(between, d, n, second, d, n);
  }

  /** These are the index vectors of the test cases. */
  ghost predicate Have(cases: seq<TestCase>, orders: seq<seq<nat>>)
    reads cases
  {
    |orders| == |cases| && forall k {:trigger orders[k]} :: 0 <= k < |cases| ==> cases[k].testIndices == orders[k]
  }

  /** The order of the tests of one test case after a shuffle. */
  function TestOrder(indices: seq<nat>, state: nat): seq<nat> {
    DrawsAreDrawable(state, |indices|);
    Shuffled(indices, 0, Draws(state, |indices|))
  }

  /** The state of the generator when the tests of the k-th test case are shuffled. */
  ghost function StateAt(indices: seq<seq<nat>>, k: nat, state: nat): nat
    requires k <= |indices|
  {
    if k == 0 then state else StateAfter(StateAt(indices, k - 1, state), |indices[k - 1]|)
  }

  /** The index vectors when the first k test cases have been shuffled. */
  ghost function TestOrders(indices: seq<seq<nat>>, k: nat, state: nat): (orders: seq<seq<nat>>)
    requires k <= |indices|
    ensures |orders| == |indices|
  {
    if k == 0 then indices
    else TestOrders(indices, k - 1, state)[k - 1 := TestOrder(indices[k - 1], StateAt(indices, k - 1, state))]
  }

  lemma {:induction false} NotYetShuffled(indices: seq<seq<nat>>, k: nat, state: nat, j: nat)
    requires k <= j < |indices|
    ensures TestOrders(indices, k, state)[j] == indices[j]
  {
    if k > 0 {
      NotYetShuffled(indices, k - 1, state, j);
    }
  }

  const MAX_RANDOM_SEED := 99999

  /** The first seed, from the flag or else the clock, brought into range in unsigned arithmetic. */
  function GetRandomSeedFromFlag(randomSeedFlag: int, timeInMillis: int): (seed: nat)
    ensures 1 <= seed <= MAX_RANDOM_SEED
    ensures 1 <= randomSeedFlag <= MAX_RANDOM_SEED ==> seed == randomSeedFlag
  {
    var rawSeed := (if randomSeedFlag == 0 then timeInMillis else randomSeedFlag) % 0x1_0000_0000;
    ((rawSeed - 1) % 0x1_0000_0000) % MAX_RANDOM_SEED + 1
  }

  /** The seed of the next round; a seed out of range is a crash. */
  function GetNextRandomSeed(seed: nat): (next: nat)
    requires 1 <= seed <= MAX_RANDOM_SEED
    ensures 1 <= next <= MAX_RANDOM_SEED
  {
    if seed + 1 > MAX_RANDOM_SEED then 1 else seed + 1
  }

  /** The seed of the i-th round. */
  function SeedOfRound(shuffle: bool, seed: nat, i: nat): (s: nat)
    requires shuffle ==> 1 <= seed <= MAX_RANDOM_SEED
    ensures shuffle ==> 1 <= s <= MAX_RANDOM_SEED
  {
    if i == 0 || !shuffle then seed else GetNextRandomSeed(SeedOfRound(shuffle, seed, i - 1))
  }

  lemma Normalized(raw: nat)
    requires raw < 0x1_0000_0000
    ensures var seed := ((raw - 1) % 0x1_0000_0000) % 99999 + 1;
            if raw == 0 then seed == 10246 else seed % 99999 == raw % 99999
  {
    if raw == 0 {
      assert (raw - 1) % 0x1_0000_0000 == 0xFFFF_FFFF;
    } else {
      assert (raw - 1) % 0x1_0000_0000 == raw - 1;
      NextQuotient(raw - 1, 99999);
    }
  }

  lemma InUnsigned(n: int)
    requires -0x8000_0000 <= n < 0x8000_0000
    ensures n % 0x1_0000_0000 == if n >= 0 then n else n + 0x1_0000_0000
  {
  }

  /** A number that is not 0 in 32 bits keeps its remainder; 0 turns into 10246. */
  lemma SeedIs(flag: int, clock: int)
    requires -0x8000_0000 <= flag < 0x8000_0000
    ensures var raw := if flag > 0 then flag else if flag < 0 then flag + 0x1_0000_0000 else clock % 0x1_0000_0000;
            var seed := GetRandomSeedFromFlag(flag, clock);
            if raw == 0 then seed == 10246 else 1 <= seed <= 99999 && seed % 99999 == raw % 99999
  {
    InUnsigned(flag);
    Normalized((if flag == 0 then clock else flag) % 0x1_0000_0000);
  }

  /** The seeds count up and start again at 1 after 99999. */
  lemma {:induction false} SeedsCount(seed: nat, i: nat)
    requires 1 <= seed <= 99999
    ensures SeedOfRound(true, seed, i) == (seed - 1 + i) % 99999 + 1
    ensures SeedOfRound(false, seed, i) == seed
  {
    if i > 0 {
      SeedsCount(seed, i - 1);
      NextQuotient(seed - 2 + i, 99999);
    }
  }

  /** The order in which a round goes through n test cases, d of them death test cases. */
  function RoundOrder(n: nat, d: nat, shuffle: bool, seed: nat): (order: seq<nat>)
    requires d <= n
    ensures |order| == n
  {
    if shuffle then CaseOrder(Identity(n), d, seed) else Identity(n)
  }

  ghost function Identities(lists: seq<seq<TestInfo>>): (v: seq<seq<nat>>)
    ensures |v| == |lists| && forall k :: 0 <= k < |lists| ==> v[k] == Identity(|lists[k]|)
  {
    seq(|lists|, k requires 0 <= k < |lists| => Identity(|lists[k]|))
  }

  /** The orders in which a round goes through the tests of each test case. */
  ghost function RoundOrders(lists: seq<seq<TestInfo>>, d: nat, shuffle: bool, seed: nat): (orders: seq<seq<nat>>)
    requires d <= |lists|
    ensures |orders| == |lists|
  {
    var before := Identities(lists);
    if shuffle then TestOrders(before, |before|, StateAfterCases(|lists|, d, seed)) else before
  }

  /** What a round is: the test cases in the order that the seed gives, which is every test case
      once with the d death test cases first, and from each that is to run the tests that are to
      run, in the order that the seed gives. */
  ghost predicate IsRound(round: Round, p: Plan, d: int, shuffle: bool, seed: nat) {
    && p.Shaped() && |round.cases| == |round.started| == |p.cases| && 0 <= d <= |p.cases|
    && multiset(round.cases) == multiset(p.cases)
    && (forall k :: 0 <= k < |p.cases| ==> (IsDeath(round.cases[k].name) <==> k < d))
    && (var order, orders := RoundOrder(|p.cases|, d, shuffle, seed), RoundOrders(p.lists, d, shuffle, seed);
        forall k {:trigger Visited(round, p, orders, k, order[k])} ::
          0 <= k < |p.cases| ==> Visited(round, p, orders, k, order[k]))
  }

  /** The k-th visit of a round went to the j-th test case. */
  ghost predicate Visited(round: Round, p: Plan, orders: seq<seq<nat>>, k: nat, j: nat)
    requires p.Shaped()
  {
    && k < |round.cases| == |round.started| && j < |p.cases| == |orders|
    && round.cases[k] == p.cases[j]
    && round.started[k] == if p.on[j] then Picked(p.lists[j], orders[j], p.marks[j]) else []
  }

  /** What a round leaves when there may be no tests to run. */
  ghost predicate IsRoundOrEmpty(round: Round, p: Plan, d: int, shuffle: bool, hasTestsToRun: bool, seed: nat) {
    if hasTestsToRun then IsRound(round, p, d, shuffle, seed) else round == Round([], [])
  }

  /** Each of the rounds is one with the seed of its number. */
  ghost predicate EveryRound(rounds: seq<Round>, p: Plan, d: int, shuffle: bool, hasTestsToRun: bool, seed: nat)
    requires shuffle ==> 1 <= seed <= MAX_RANDOM_SEED
  {
    rounds == [] || (
      var last := |rounds| - 1;
      && EveryRound(rounds[..last], p, d, shuffle, hasTestsToRun, seed)
      && IsRoundOrEmpty(rounds[last], p, d, shuffle, hasTestsToRun, SeedOfRound(shuffle, seed, last)))
  }

  lemma {:induction false} EveryRoundAt(rounds: seq<Round>, p: Plan, d: int, shuffle: bool, hasTestsToRun: bool,
                                        seed: nat, r: nat)
    requires shuffle ==> 1 <= seed <= MAX_RANDOM_SEED
    requires EveryRound(rounds, p, d, shuffle, hasTestsToRun, seed) && r < |rounds|
    ensures IsRoundOrEmpty(rounds[r], p, d, shuffle, hasTestsToRun, SeedOfRound(shuffle, seed, r))
  {
    if r < |rounds| - 1 {
      EveryRoundAt(rounds[..|rounds| - 1], p, d, shuffle, hasTestsToRun, seed, r);
    }
  }

  lemma OneMoreRound(rounds: seq<Round>, round: Round, more: seq<Round>, p: Plan, d: int,
                     shuffle: bool, hasTestsToRun: bool, seed: nat)
    requires more == rounds + [round]
    requires shuffle ==> 1 <= seed <= MAX_RANDOM_SEED
    requires EveryRound(rounds, p, d, shuffle, hasTestsToRun, seed)
    requires IsRoundOrEmpty(round, p, d, shuffle, hasTestsToRun, SeedOfRound(shuffle, seed, |rounds|))
    ensures EveryRound(more, p, d, shuffle, hasTestsToRun, seed)
  {
    assert more[..|rounds|] == rounds;
  }
}
