/** Small things that many modules need: an option type for what may be missing, regrouping of
    what is appended, C strings, which end at the first terminator of the memory they stand in, and
    the few facts about quotients and remainders that sharding and floating-point numbers use.  The
    solver does not find the latter by itself because they are about products of two variables. */
module Basics {

  datatype Option<+T> = None | Some(value: T)

  /** One element more at the front, if there is a sequence. */
  function Prepend<T>(x: T, rest: Option<seq<T>>): Option<seq<T>> {
    match rest {
      case None => None
      case Some(xs) => Some([x] + xs)
    }
  }

  lemma Assoc<T>(a: seq<T>, b: seq<T>, c: seq<T>)
    ensures (a + b) + c == a + (b + c)
  {
  }

  predicate IsDigit(c: char) {
    '0' <= c <= '9'
  }

  // ---------- C strings ----------

  /** The C string that starts a buffer: what is before the first terminator. */
  function CText<T(==)>(b: seq<T>, nul: T): (s: seq<T>)
    ensures |s| <= |b| && s == b[..|s|] && nul !in s
  {
    if b == [] || b[0] == nul then [] else [b[0]] + CText(b[1..], nul)
  }

  lemma {:induction false} CTextIs<T>(b: seq<T>, s: seq<T>, nul: T)
    requires s <= b && nul !in s && (|s| < |b| ==> b[|s|] == nul)
    ensures CText(b, nul) == s
    decreases |s|
  {
    if s != [] {
      assert b[0] == s[0] && s[0] in s;
      assert s[1..] <= b[1..];
      CTextIs(b[1..], s[1..], nul);
    }
  }

  // ---------- Division ----------

  lemma MultipleStep(n: nat, e: nat, q: nat)
    requires e < q
    ensures n * q >= n * e + n
  {
    assert n * q == n * e + n * (q - e);
    assert n * (q - e) == n + n * (q - e - 1);
  }

  /** A number has one quotient and one remainder. */
  lemma Quotient(m: nat, n: nat, q: nat, r: nat)
    requires n > 0 && r < n && m == n * q + r
    ensures m / n == q && m % n == r
  {
    var e, s := m / n, m % n;
    assert m == n * e + s;
    if e < q {
      MultipleStep(n, e, q);
    } else if q < e {
      MultipleStep(n, q, e);
    }
  }

  /** The quotient and the remainder of the next number. */
  lemma NextQuotient(m: nat, n: nat)
    requires n > 0
    ensures if m % n == n - 1 then (m + 1) / n == m / n + 1 && (m + 1) % n == 0
            else (m + 1) / n == m / n && (m + 1) % n == m % n + 1
  {
    var q, r := m / n, m % n;
    assert m == n * q + r;
    if r == n - 1 {
      assert m + 1 == n * (q + 1);
      Quotient(m + 1, n, q + 1, 0);
    } else {
      Quotient(m + 1, n, q, r + 1);
    }
  }
}
