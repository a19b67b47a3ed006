/** The random numbers of gtest and its in-place shuffle: which orders come out, and that every
    order comes out of exactly one series of draws. */
module Shuffle {

  const MAX_RANGE: nat := 0x8000_0000

  /** The next state of the generator; UInt32 arithmetic wraps around. */
  function NextState(state: nat): nat {
    ((1103515245 * state + 12345) % 0x1_0000_0000) % MAX_RANGE
  }

  class Random {
    var state: nat

    constructor (seed: nat)
      ensures state == seed
    {
      state := seed;
    }

    method Reseed(seed: nat)
      modifies this
      ensures state == seed
    {
      state := seed;
    }

    /** A number below the range; a range that is 0 or too great is a crash. */
    method Generate(range: nat) returns (r: nat)
      requires 0 < range <= MAX_RANGE
      modifies this
      ensures state == NextState(old(state)) && r == state % range && r < range
    {
      state := NextState(state);
      r := state % range;
    }
  }

  /** The numbers drawn to shuffle a range of this width: ranges width, width - 1, ..., 2. */
  function Draws(state: nat, width: nat): (d: seq<nat>)
    ensures |d| == if width < 2 then 0 else width - 1
    decreases width
  {
    if width < 2 then [] else [NextState(state) % width] + Draws(NextState(state), width - 1)
  }

  function StateAfter(state: nat, width: nat): nat
    decreases width
  {
    if width < 2 then state else StateAfter(NextState(state), width - 1)
  }

  /** Numbers that can be drawn: the first of n draws is at most n, and so on. */
  ghost predicate Drawable(draws: seq<nat>) {
    draws == [] || (draws[0] <= |draws| && Drawable(draws[1..]))
  }

  lemma {:induction false} DrawsAreDrawable(state: nat, width: nat)
    ensures Drawable(Draws(state, width))
    decreases width
  {
    if width >= 2 {
      DrawsAreDrawable(NextState(state), width - 1);
      assert Draws(state, width)[1..] == Draws(NextState(state), width - 1);
    }
  }

  function Swap<T>(v: seq<T>, i: nat, j: nat): (w: seq<T>)
    requires i < |v| && j < |v|
    ensures |w| == |v|
  {
    v[i := v[j]][j := v[i]]
  }

  /** The Fisher-Yates shuffle of |draws| + 1 elements from begin on. */
  function Shuffled<T>(v: seq<T>, begin: nat, draws: seq<nat>): (w: seq<T>)
    requires Drawable(draws) && (draws == [] || begin + |draws| < |v|)
    ensures |w| == |v|
    decreases |draws|
  {
    if draws == [] then v
    else Shuffled(Swap(v, begin + draws[0], begin + |draws|), begin, draws[1..])
  }

  method ShuffleRange<T>(random: Random, begin: nat, end: nat, v: seq<T>) returns (w: seq<T>)
    requires begin <= end <= |v| && |v| < MAX_RANGE
    modifies random
    ensures Drawable(Draws(old(random.state), end - begin))
    ensures w == Shuffled(v, begin, Draws(old(random.state), end - begin))
    ensures random.state == StateAfter(old(random.state), end - begin)
  {
    hide Draws, StateAfter, Drawable, Shuffled;
    DrawsAreDrawable(random.state, end - begin);
    w := v;
    var rangeWidth := end - begin;
    while rangeWidth >= 2
      invariant 0 <= rangeWidth <= end - begin && |w| == |v|
      invariant Drawable(Draws(random.state, rangeWidth))
      invariant Shuffled(w, begin, Draws(random.state, rangeWidth)) ==
                Shuffled(v, begin, Draws(old(random.state), end - begin))
      invariant StateAfter(random.state, rangeWidth) == StateAfter(old(random.state), end - begin)
    {
      DrawOne(random.state, rangeWidth);
      ShuffleOne(w, begin, Draws(random.state, rangeWidth));
      var lastInRange := begin + rangeWidth - 1;
      var selected := random.Generate(rangeWidth);
      selected := begin + selected;
      w := Swap(w, selected, lastInRange);
      rangeWidth := rangeWidth - 1;
    }
    ShuffleNone(w, begin, random.state, rangeWidth);
  }

  lemma DrawOne(state: nat, width: nat)
    requires width >= 2
    ensures Draws(state, width) == [NextState(state) % width] + Draws(NextState(state), width - 1)
    ensures Draws(state, width)[1..] == Draws(NextState(state), width - 1)
    ensures StateAfter(state, width) == StateAfter(NextState(state), width - 1)
  {
  }

  lemma ShuffleOne<T>(v: seq<T>, begin: nat, draws: seq<nat>)
    requires Drawable(draws) && draws != [] && begin + |draws| < |v|
    ensures Drawable(draws[1..]) && draws[0] <= |draws|
    ensures Shuffled(v, begin, draws)
            == Shuffled(Swap(v, begin + draws[0], begin + |draws|), begin, draws[1..])
  {
  }

  lemma ShuffleNone<T>(v: seq<T>, begin: nat, state: nat, width: nat)
    requires width < 2
    ensures Drawable(Draws(state, width)) && Shuffled(v, begin, Draws(state, width)) == v
    ensures StateAfter(state, width) == state
  {
  }

  /** The first numbers from seed 1, and what they do to three elements. */
  lemma FirstDraws()
    ensures NextState(0) == 12345 && NextState(1) == 1103527590 && NextState(1103527590) == 377401575
    ensures Draws(1, 3) == [0, 1]
  {
    assert Draws(1103527590, 2) == [1];
  }

  lemma ShuffledThree<T>(a: T, b: T, c: T)
    ensures Shuffled([a, b, c], 0, [0, 1]) == [c, b, a]
  {
    var draws: seq<nat> := [0, 1];
    assert draws[1..] == [1] && Drawable([1]);
    assert Shuffled([c, b, a], 0, [1]) == [c, b, a];
  }

  // ---------- What a shuffle does ----------

  /** How often x stands in [begin, end). */
  ghost function Count<T>(v: seq<T>, begin: nat, end: nat, x: T): nat
    requires begin <= end <= |v|
    decreases end
  {
    if begin == end then 0 else Count(v, begin, end - 1, x) + if v[end - 1] == x then 1 else 0
  }

  lemma {:induction false} CountIsMultiset<T>(v: seq<T>, begin: nat, end: nat, x: T)
    requires begin <= end <= |v|
    ensures Count(v, begin, end, x) == multiset(v[begin..end])[x]
    decreases end
  {
    if begin < end {
      CountIsMultiset(v, begin, end - 1, x);
      assert v[begin..end] == v[begin..end - 1] + [v[end - 1]];
    }
  }

  lemma {:induction false} FindCounted<T>(v: seq<T>, begin: nat, end: nat, x: T) returns (d: nat)
    requires begin <= end <= |v| && Count(v, begin, end, x) > 0
    ensures begin + d < end && v[begin + d] == x
    decreases end
  {
    if v[end - 1] == x {
      d := end - 1 - begin;
    } else {
      d := FindCounted(v, begin, end - 1, x);
    }
  }

  lemma {:induction false} CountUpdate<T>(v: seq<T>, begin: nat, end: nat, i: nat, y: T, x: T)
    requires begin <= end <= |v| && i < |v|
    ensures Count(v[i := y], begin, end, x) == Count(v, begin, end, x) +
      if begin <= i < end then (if y == x then 1 else 0) - (if v[i] == x then 1 else 0) else 0
    decreases end
  {
    if begin < end {
      CountUpdate(v, begin, end - 1, i, y, x);
    }
  }

  /** Same elements within [begin, end), each as often, and nothing else moved. */
  ghost predicate Rearranged<T(!new)>(v: seq<T>, w: seq<T>, begin: nat, end: nat)
    requires begin <= end <= |v|
  {
    && |w| == |v|
    && (forall k :: 0 <= k < |v| && !(begin <= k < end) ==> w[k] == v[k])
    && (forall x :: Count(w, begin, end, x) == Count(v, begin, end, x))
  }

  lemma SwapRearranges<T(!new)>(v: seq<T>, i: nat, j: nat, begin: nat, end: nat)
    requires begin <= i < end <= |v| && begin <= j < end
    ensures Rearranged(v, Swap(v, i, j), begin, end)
  {
    forall x ensures Count(Swap(v, i, j), begin, end, x) == Count(v, begin, end, x) {
      CountUpdate(v, begin, end, i, v[j], x);
      CountUpdate(v[i := v[j]], begin, end, j, v[i], x);
    }
  }

  /** A shuffle rearranges its range. */
  lemma {:induction false} ShuffledRearranges<T(!new)>(v: seq<T>, begin: nat, end: nat, draws: seq<nat>)
    requires Drawable(draws) && begin <= end <= |v|
    requires draws == [] || begin + |draws| < end
    ensures Rearranged(v, Shuffled(v, begin, draws), begin, end)
    decreases |draws|
  {
    if draws != [] {
      SwapRearranges(v, begin + draws[0], begin + |draws|, begin, end);
      ShuffledRearranges(Swap(v, begin + draws[0], begin + |draws|), begin, end, draws[1..]);
    }
  }

  ghost predicate Distinct<T(!new)>(v: seq<T>) {
    forall i, j :: 0 <= i < j < |v| ==> v[i] != v[j]
  }

  lemma SwapStaysDistinct<T(!new)>(v: seq<T>, i: nat, j: nat)
    requires i < |v| && j < |v| && Distinct(v)
    ensures Distinct(Swap(v, i, j))
  {
  }

  /** The last place of the range is settled by the first draw. */
  lemma LastIsFirstDraw<T(!new)>(v: seq<T>, begin: nat, draws: seq<nat>)
    requires Drawable(draws) && draws != [] && begin + |draws| < |v|
    ensures Shuffled(v, begin, draws)[begin + |draws|] == v[begin + draws[0]]
  {
    ShuffledRearranges(Swap(v, begin + draws[0], begin + |draws|), begin, begin + |draws|, draws[1..]);
  }

  /** No two series of draws give the same order. */
  lemma {:induction false} NoTwoDrawsAgree<T(!new)>(v: seq<T>, begin: nat, a: seq<nat>, b: seq<nat>)
    requires Drawable(a) && Drawable(b) && |a| == |b| && Distinct(v)
    requires a == [] || begin + |a| < |v|
    requires Shuffled(v, begin, a) == Shuffled(v, begin, b)
    ensures a == b
    decreases |a|
  {
    if a != [] {
      LastIsFirstDraw(v, begin, a);
      LastIsFirstDraw(v, begin, b);
      assert a[0] == b[0];
      SwapStaysDistinct(v, begin + a[0], begin + |a|);
      NoTwoDrawsAgree(Swap(v, begin + a[0], begin + |a|), begin, a[1..], b[1..]);
      assert a == [a[0]] + a[1..] && b == [b[0]] + b[1..];
    }
  }

  lemma LastSettled<T(!new)>(u: seq<T>, w: seq<T>, begin: nat, end: nat)
    requires begin < end <= |u| && Rearranged(u, w, begin, end) && u[end - 1] == w[end - 1]
    ensures Rearranged(u, w, begin, end - 1)
  {
    var last := end - 1;
    forall x ensures Count(w, begin, last, x) == Count(u, begin, last, x) {
      assert Count(w, begin, end, x) == Count(u, begin, end, x);
    }
  }

  lemma OneLeft<T(!new)>(v: seq<T>, w: seq<T>, begin: nat)
    requires begin < |v| && Rearranged(v, w, begin, begin + 1)
    ensures v == w
  {
    assert Count(w, begin, begin + 1, v[begin]) == Count(v, begin, begin + 1, v[begin]) == 1;
    var d := FindCounted(w, begin, begin + 1, v[begin]);
    assert forall k :: 0 <= k < |v| ==> v[k] == w[k];
  }

  /** Every rearrangement of the range comes out of some draws. */
  lemma {:induction false} EveryOrderIsDrawn<T(!new)>(v: seq<T>, w: seq<T>, begin: nat, n: nat)
    returns (draws: seq<nat>)
    requires begin + n < |v| && Rearranged(v, w, begin, begin + n + 1)
    ensures |draws| == n && Drawable(draws) && Shuffled(v, begin, draws) == w
    decreases n
  {
    var end := begin + n + 1;
    if n == 0 {
      draws := [];
      OneLeft(v, w, begin);
    } else {
      assert Count(v, begin, end, w[end - 1]) == Count(w, begin, end, w[end - 1]) > 0;
      var d := FindCounted(v, begin, end, w[end - 1]);
      var u := Swap(v, begin + d, end - 1);
      SwapRearranges(v, begin + d, end - 1, begin, end);
      LastSettled(u, w, begin, end);
      var rest := EveryOrderIsDrawn(u, w, begin, n - 1);
      draws := [d] + rest;
      assert draws[1..] == rest;
    }
  }
}
