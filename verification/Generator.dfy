/** The random number generator of gtest: no state comes back before all 2^31 have been drawn.  The
    states are written in closed form, with powers of the multiplier and the sums of these powers;
    how often 2 divides such a sum is then a matter of how often 2 divides the number of draws.  At
    the end, which of the numbers drawn each shuffle of a round uses. */
module Generator {
  import opened Basics
  import opened Shuffle
  import opened Rounds

  const MULTIPLIER: nat := 1103515245
  const INCREMENT: nat := 12345
  const STATES: nat := 0x8000_0000

  /** The state after n draws. */
  function StateAfterDraws(state: nat, n: nat): nat {
    if n == 0 then state else NextState(StateAfterDraws(state, n - 1))
  }

  /** Wrapping at 32 bits on the way changes nothing. */
  lemma NextStateIs(state: nat)
    ensures NextState(state) == (MULTIPLIER * state + INCREMENT) % STATES
  {
    WrapsAway(MULTIPLIER * state + INCREMENT);
  }

  lemma WrapsAway(n: nat)
    ensures (n % 0x1_0000_0000) % 0x8000_0000 == n % 0x8000_0000
  {
  }

  // ---------- Products ----------

  function Times(x: nat, y: nat): nat {
    x * y
  }

  lemma TimesSum(x: nat, y: nat, z: nat)
    ensures Times(x, 4 * y + z) == 4 * Times(x, y) + Times(x, z)
    ensures Times(x, 2 * y + z) == 2 * Times(x, y) + Times(x, z)
    ensures Times(x, y + z) == Times(x, y) + Times(x, z)
    ensures Times(x, 1) == x
  {
  }

  lemma TimesSwap(x: nat, y: nat, z: nat)
    ensures Times(x, y) == Times(y, x)
    ensures Times(x, Times(y, z)) == Times(y, Times(x, z))
  {
    assert x * (y * z) == y * (x * z);
  }

  // ---------- Powers and their sums, for a multiplier of 4b + 1 ----------

  function Power(b: nat, n: nat): nat {
    if n == 0 then 1 else 4 * Times(b, Power(b, n - 1)) + Power(b, n - 1)
  }

  /** The sum of the first n powers. */
  function Sum(b: nat, n: nat): nat {
    if n == 0 then 0 else 4 * Times(b, Sum(b, n - 1)) + (Sum(b, n - 1) + 1)
  }

  lemma {:induction false} PowerIsSum(b: nat, n: nat)
    ensures Power(b, n) == 4 * Times(b, Sum(b, n)) + 1
  {
    if n == 0 {
      assert Times(b, 0) == 0;
    } else {
      hide Times;
      PowerIsSum(b, n - 1);
      var s := Sum(b, n - 1);
      TimesSum(b, Times(b, s), 1);
      TimesSum(b, Times(b, s), s + 1);
      TimesSum(b, s, 1);
    }
  }

  lemma {:induction false} Parities(b: nat, n: nat)
    ensures Power(b, n) % 4 == 1 && Sum(b, n) % 2 == n % 2
  {
    hide Times;
    if n > 0 {
      Parities(b, n - 1);
      PlusFour(Times(b, Power(b, n - 1)), Power(b, n - 1));
      PlusFour(Times(b, Sum(b, n - 1)), Sum(b, n - 1) + 1);
    }
  }

  lemma PlusFour(x: nat, y: nat)
    ensures (4 * x + y) % 4 == y % 4 && (4 * x + y) % 2 == y % 2
  {
    WholeTimes(4, x, y);
    WholeTimes(2, 2 * x, y);
  }

  /** Whole multiples leave the remainder as it is. */
  lemma WholeTimes(p: nat, x: nat, y: nat)
    requires p > 0
    ensures (p * x + y) % p == y % p
  {
    var q, r := y / p, y % p;
    assert y == p * q + r;
    assert p * x + y == p * (x + q) + r;
    Quotient(p * x + y, p, x + q, r);
  }

  lemma {:induction false} SumOfMore(b: nat, m: nat, n: nat)
    ensures Sum(b, m + n) == Times(Power(b, n), Sum(b, m)) + Sum(b, n)
    decreases m
  {
    hide Times, Power;
    if m == 0 {
      assert Times(Power(b, n), 0) == 0 by { TimesNone(Power(b, n)); }
    } else {
      SumOfMore(b, m - 1, n);
      PowerIsSum(b, n);
      OneMore(b, Power(b, n), Sum(b, m - 1), Sum(b, n));
    }
  }

  lemma TimesNone(x: nat)
    ensures Times(x, 0) == 0
  {
  }

  lemma OneMore(b: nat, p: nat, s: nat, r: nat)
    requires p == 4 * Times(b, r) + 1
    ensures 4 * Times(b, Times(p, s) + r) + (Times(p, s) + r + 1) == Times(p, 4 * Times(b, s) + (s + 1)) + r
  {
    hide Times;
    TimesSum(b, Times(p, s), r);
    TimesSwap(b, p, s);
    TimesSum(p, Times(b, s), s + 1);
    TimesSum(p, s, 1);
  }

  // ---------- Division by powers of two ----------

  /** 2^k divides n. */
  predicate Halves(k: nat, n: nat) {
    k == 0 || (n % 2 == 0 && Halves(k - 1, n / 2))
  }

  function TwoTo(k: nat): (p: nat)
    ensures p > 0
  {
    if k == 0 then 1 else 2 * TwoTo(k - 1)
  }

  lemma HalfDivides(p: nat, n: nat)
    requires p > 0
    ensures n % (2 * p) == 0 <==> n % 2 == 0 && (n / 2) % p == 0
  {
    var q, r := n / (2 * p), n % (2 * p);
    assert n == 2 * (p * q) + r by {
      assert n == (2 * p) * q + r;
    }
    assert n / 2 == p * q + r / 2;
    RemainderIs(n / 2, p, q, r / 2);
  }

  lemma RemainderIs(m: nat, p: nat, q: nat, r: nat)
    requires p > 0 && r < p && m == p * q + r
    ensures m % p == r
  {
    Quotient(m, p, q, r);
  }

  lemma {:induction false} HalvesIsRemainder(k: nat, n: nat)
    ensures Halves(k, n) <==> n % TwoTo(k) == 0
  {
    if k > 0 {
      HalfDivides(TwoTo(k - 1), n);
      HalvesIsRemainder(k - 1, n / 2);
    }
  }

  /** An odd factor does not matter. */
  lemma {:induction false} OddFactor(k: nat, n: nat, q: nat)
    ensures Halves(k, Times(n, 2 * q + 1)) <==> Halves(k, n)
  {
    if k > 0 {
      assert Times(n, 2 * q + 1) == 2 * (n * q) + n;
      if n % 2 == 0 {
        var m := n / 2;
        assert Times(n, 2 * q + 1) == 2 * Times(m, 2 * q + 1);
        OddFactor(k - 1, m, q);
      }
    }
  }

  /** The sum of n powers has the same powers of two as n. */
  lemma {:induction false} SumHalves(b: nat, k: nat, n: nat)
    ensures Halves(k, Sum(b, n)) <==> Halves(k, n)
  {
    hide Times;
    Parities(b, n);
    if k > 0 && n % 2 == 0 {
      var m := n / 2;
      var s, q := Sum(b, m), Power(b, m) / 4;
      SumDoubles(b, m);
      SumHalves(b, k - 1, m);
      OddFactor(k - 1, s, q);
    }
  }

  lemma SumDoubles(b: nat, m: nat)
    ensures Sum(b, 2 * m) == 2 * Times(Sum(b, m), 2 * (Power(b, m) / 4) + 1)
  {
    hide Times;
    Parities(b, m);
    SumOfMore(b, m, m);
    var p, s := Power(b, m), Sum(b, m);
    var q := p / 4;
    TimesSwap(p, s, 0);
    TimesSum(s, q, 1);
  }

  // ---------- The period ----------

  /** The multiplier is 4b + 1 for this b. */
  const QUARTER: nat := 275878811

  lemma {:induction false} ClosedForm(state: nat, n: nat)
    requires state < STATES
    ensures StateAfterDraws(state, n) == (Times(state, Power(QUARTER, n)) + INCREMENT * Sum(QUARTER, n)) % STATES
  {
    if n == 0 {
      assert Times(state, 1) == state;
    } else {
      ClosedForm(state, n - 1);
      var p, s := Power(QUARTER, n - 1), Sum(QUARTER, n - 1);
      var before := Times(state, p) + INCREMENT * s;
      NextStateIs(before % STATES);
      Carried(before);
      NextForm(state, p, s);
    }
  }

  lemma NextForm(state: nat, p: nat, s: nat)
    ensures MULTIPLIER * (Times(state, p) + INCREMENT * s) + INCREMENT
         == Times(state, 4 * Times(QUARTER, p) + p) + INCREMENT * (4 * Times(QUARTER, s) + (s + 1))
  {
    TimesSum(state, Times(QUARTER, p), p);
    TimesSwap(state, QUARTER, p);
    assert Times(QUARTER, Times(state, p)) == QUARTER * Times(state, p);
  }

  lemma Carried(n: nat)
    ensures (MULTIPLIER * (n % STATES) + INCREMENT) % STATES == (MULTIPLIER * n + INCREMENT) % STATES
  {
    var q, r := n / STATES, n % STATES;
    assert n == STATES * q + r;
    WholeTimes(STATES, MULTIPLIER * q, MULTIPLIER * r + INCREMENT);
  }

  /** How far the state is from the first one after n draws: an odd multiple of the sum. */
  lemma Moved(state: nat, n: nat, q: nat)
    requires q == 2 * Times(QUARTER, state) + 6172
    ensures Times(state, Power(QUARTER, n)) + INCREMENT * Sum(QUARTER, n)
         == state + Times(Sum(QUARTER, n), 2 * q + 1)
  {
    hide Times;
    PowerIsSum(QUARTER, n);
    var s := Sum(QUARTER, n);
    TimesSum(state, Times(QUARTER, s), 1);
    TimesSwap(state, QUARTER, s);
    TimesSwap(QUARTER, s, state);
    TimesSwap(state, s, 0);
    TimesSum(s, q, 1);
    TimesSum(s, Times(QUARTER, state), 6172);
    assert Times(s, 6172) == 6172 * s by { TimesNumber(s); }
  }

  lemma TimesNumber(s: nat)
    ensures Times(s, 6172) == 6172 * s
  {
  }

  /** A state comes back after n draws exactly if n is a multiple of 2^31. */
  lemma ComesBackIff(state: nat, n: nat)
    requires state < STATES
    ensures StateAfterDraws(state, n) == state <==> n % STATES == 0
  {
    hide Times, Sum, Power, StateAfterDraws, Halves;
    ClosedForm(state, n);
    var s, q := Sum(QUARTER, n), 2 * Times(QUARTER, state) + 6172;
    Moved(state, n, q);
    OddFactor(31, s, q);
    SumHalves(QUARTER, 31, n);
    DividesIff(Times(s, 2 * q + 1));
    DividesIff(n);
  }

  lemma FiveMore(k: nat)
    ensures TwoTo(k + 5) == 32 * TwoTo(k)
  {
    assert TwoTo(k + 2) == 4 * TwoTo(k);
    assert TwoTo(k + 4) == 4 * TwoTo(k + 2);
  }

  lemma HowMany()
    ensures TwoTo(31) == STATES
  {
    hide TwoTo;
    assert TwoTo(1) == 2 by { OneTwo(); }
    FiveMore(1);
    FiveMore(6);
    FiveMore(11);
    FiveMore(16);
    FiveMore(21);
    FiveMore(26);
  }

  lemma OneTwo()
    ensures TwoTo(1) == 2
  {
  }

  lemma DividesIff(n: nat)
    ensures Halves(31, n) <==> n % STATES == 0
  {
    hide TwoTo, Halves;
    HalvesIsRemainder(31, n);
    HowMany();
  }

  lemma {:induction false} DrawsFromThere(state: nat, m: nat, n: nat)
    ensures StateAfterDraws(state, m + n) == StateAfterDraws(StateAfterDraws(state, m), n)
    decreases n
  {
    if n > 0 {
      DrawsFromThere(state, m, n - 1);
    }
  }

  /** Two of the states drawn are equal exactly if a multiple of 2^31 draws lies between them. */
  lemma FullPeriod(state: nat, m: nat, n: nat)
    requires state < STATES && m <= n
    ensures StateAfterDraws(state, m) == StateAfterDraws(state, n) <==> (n - m) % STATES == 0
  {
    DrawsFromThere(state, m, n - m);
    ComesBackIff(StateAfterDraws(state, m), n - m);
  }

  // ---------- The draws of a round ----------

  /** A shuffle of n elements draws n - 1 numbers in a row, the first one below n, the next below
      n - 1, and so on. */
  lemma {:induction false} DrawsAre(state: nat, width: nat, i: nat)
    requires i + 1 < width
    ensures Draws(state, width)[i] == StateAfterDraws(state, i + 1) % (width - i)
    decreases i
  {
    assert StateAfterDraws(state, 1) == NextState(StateAfterDraws(state, 0));
    if i > 0 {
      DrawsAre(NextState(state), width - 1, i - 1);
      DrawsFromThere(state, 1, i);
    }
  }

  function DrawsFor(width: nat): nat {
    if width < 2 then 0 else width - 1
  }

  lemma {:induction false} StateAfterIs(state: nat, width: nat)
    ensures StateAfter(state, width) == StateAfterDraws(state, DrawsFor(width))
    decreases width
  {
    if width >= 2 {
      StateAfterIs(NextState(state), width - 1);
      assert StateAfterDraws(state, 1) == NextState(StateAfterDraws(state, 0));
      DrawsFromThere(state, 1, width - 2);
    }
  }

  /** The numbers drawn for the first k test cases. */
  ghost function DrawnBefore(indices: seq<seq<nat>>, k: nat): nat
    requires k <= |indices|
  {
    if k == 0 then 0 else DrawnBefore(indices, k - 1) + DrawsFor(|indices[k - 1]|)
  }

  /** In a round the generator is never set back: each test case goes on where the last one
      stopped. */
  lemma {:induction false} StateAtIs(indices: seq<seq<nat>>, k: nat, state: nat)
    requires k <= |indices|
    ensures StateAt(indices, k, state) == StateAfterDraws(state, DrawnBefore(indices, k))
    decreases k
  {
    if k > 0 {
      StateAtIs(indices, k - 1, state);
      StateAfterIs(StateAt(indices, k - 1, state), |indices[k - 1]|);
      DrawsFromThere(state, DrawnBefore(indices, k - 1), DrawsFor(|indices[k - 1]|));
    }
  }

  /** The same for the two shuffles of the test cases before that. */
  lemma StateAfterCasesIs(n: nat, d: nat, state: nat)
    requires d <= n
    ensures StateAfterCases(n, d, state) == StateAfterDraws(state, DrawsFor(d) + DrawsFor(n - d))
  {
    StateAfterIs(state, d);
    StateAfterIs(StateAfter(state, d), n - d);
    DrawsFromThere(state, DrawsFor(d), DrawsFor(n - d));
  }
}
