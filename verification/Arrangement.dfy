/** Index vectors that send a range to itself, each index once: what the vectors of test cases and
    tests hold when they are in order of registration, what every shuffle of a range or of two
    ranges next to each other keeps of them, and how often the elements of a sequence come up when
    one goes through it by such a vector, whether one takes all of them or only some selected. */
module Arrangement {
  import opened Shuffle

  function Identity(n: nat): (v: seq<nat>)
    ensures |v| == n && forall k :: 0 <= k < n ==> v[k] == k
  {
    seq(n, k => k)
  }

  /** The range [begin, end) of the vector holds the numbers begin to end - 1, each once. */
  ghost predicate Arranges(v: seq<nat>, begin: nat, end: nat) {
    begin <= end <= |v| && forall x: nat :: Count(v, begin, end, x) == if begin <= x < end then 1 else 0
  }

  lemma {:induction false} IdentityCounts(n: nat, begin: nat, end: nat, x: nat)
    requires begin <= end <= n
    ensures Count(Identity(n), begin, end, x) == if begin <= x < end then 1 else 0
    decreases end
  {
    if begin < end {
      IdentityCounts(n, begin, end - 1, x);
    }
  }

  lemma IdentityArranges(n: nat, begin: nat, end: nat)
    requires begin <= end <= n
    ensures Arranges(Identity(n), begin, end)
  {
    forall x: nat ensures Count(Identity(n), begin, end, x) == if begin <= x < end then 1 else 0 {
      IdentityCounts(n, begin, end, x);
    }
  }

  lemma {:induction false} SameCount<T>(v: seq<T>, w: seq<T>, begin: nat, end: nat, x: T)
    requires begin <= end <= |v| && end <= |w| && forall k :: begin <= k < end ==> v[k] == w[k]
    ensures Count(v, begin, end, x) == Count(w, begin, end, x)
    decreases end
  {
    if begin < end {
      SameCount(v, w, begin, end - 1, x);
    }
  }

  lemma StaysArranged(v: seq<nat>, w: seq<nat>, begin: nat, end: nat)
    requires Arranges(v, begin, end) && end <= |w| && forall k :: begin <= k < end ==> v[k] == w[k]
    ensures Arranges(w, begin, end)
  {
    forall x: nat ensures Count(w, begin, end, x) == if begin <= x < end then 1 else 0 {
      SameCount(v, w, begin, end, x);
    }
  }

  /** Shuffling a range keeps its arrangement and every arrangement beside it. */
  lemma ShuffleKeepsArranged(v: seq<nat>, begin: nat, end: nat, draws: seq<nat>, b: nat, e: nat)
    requires Drawable(draws) && begin <= end <= |v| && (draws == [] || begin + |draws| < end)
    requires Arranges(v, b, e) && ((b == begin && e == end) || e <= begin || end <= b)
    ensures Arranges(Shuffled(v, begin, draws), b, e)
  {
    ShuffledRearranges(v, begin, end, draws);
    if !(b == begin && e == end) {
      StaysArranged(v, Shuffled(v, begin, draws), b, e);
    }
  }

  lemma {:induction false} CountedAt<T>(v: seq<T>, begin: nat, end: nat, k: nat)
    requires begin <= k < end <= |v|
    ensures Count(v, begin, end, v[k]) > 0
    decreases end
  {
    if k < end - 1 {
      CountedAt(v, begin, end - 1, k);
    }
  }

  /** The entries of an arranged range lie in the range. */
  lemma ArrangedWithin(v: seq<nat>, begin: nat, end: nat, k: nat)
    requires Arranges(v, begin, end) && begin <= k < end
    ensures begin <= v[k] < end
  {
    CountedAt(v, begin, end, k);
  }

  lemma ArrangedJoin(v: seq<nat>, m: nat)
    requires Arranges(v, 0, m) && Arranges(v, m, |v|)
    ensures Arranges(v, 0, |v|)
  {
    forall x: nat ensures Count(v, 0, |v|, x) == if x < |v| then 1 else 0 {
      CountSplit(v, 0, m, |v|, x);
    }
  }

  lemma {:induction false} CountSplit<T>(v: seq<T>, begin: nat, m: nat, end: nat, x: T)
    requires begin <= m <= end <= |v|
    ensures Count(v, begin, end, x) == Count(v, begin, m, x) + Count(v, m, end, x)
    decreases end
  {
    if m < end {
      CountSplit(v, begin, m, end - 1, x);
    }
  }

  /** Going through a vector by an arrangement meets every element as often as it is there. */
  lemma {:induction false} EachOnce<T>(v: seq<T>, order: seq<nat>, w: seq<T>, n: nat, x: T)
    requires n <= |v| && n <= |order| && n <= |w| && Arranges(order, 0, n)
    requires forall k :: 0 <= k < n ==> order[k] < n && w[k] == v[order[k]]
    ensures Count(w, 0, n, x) == Count(v, 0, n, x)
    decreases n
  {
    if n > 0 {
      var last: nat := n - 1;
      assert Count(order, 0, n, last) == 1;
      var d := FindCounted(order, 0, n, last);
      var o: seq<nat>, u := Swap<nat>(order, d, last), Swap(w, d, last);
      SwapRearranges<nat>(order, d, last, 0, n);
      CountUpdate(w, 0, n, d, w[last], x);
      CountUpdate(w[d := w[last]], 0, n, last, w[d], x);
      forall y: nat ensures Count(o, 0, last, y) == if y < last then 1 else 0 {
        assert Count<nat>(o, 0, n, y) == Count<nat>(order, 0, n, y);
      }
      assert Arranges(o, 0, last);
      forall k | 0 <= k < last ensures o[k] < last && u[k] == v[o[k]] {
        ArrangedWithin(o, 0, last, k);
      }
      EachOnce(v, o, u, last, x);
      assert Count(u, 0, n, x) == Count(w, 0, n, x);
    }
  }
}
