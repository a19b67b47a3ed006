/** What a simple regular expression means: the language of its items, and which strings it
    matches somewhere. */
module RegexSemantics {
  import opened RegexSyntax

  predicate Admits(r: Repeat, n: nat) {
    match r
    case Once => n == 1
    case Optional => n <= 1
    case Star => true
    case Plus => n >= 1
  }

  predicate AllMatch(a: Atom, w: string) {
    forall i :: 0 <= i < |w| ==> AtomMatchesChar(a.escaped, a.c, w[i])
  }

  /** The language of a sequence of items: a word of the first, then a word of the rest. */
  ghost predicate In(items: Items, w: string)
    decreases items
  {
    match items
    case Nil => w == ""
    case Cons(a, r, rest) =>
      exists k :: 0 <= k <= |w| && Admits(r, k) && AllMatch(a, w[..k]) && In(rest, w[k..])
  }

  /** Some substring is in the language, where the anchors demand it. */
  ghost predicate Matches(r: Regex, s: string) {
    exists i, j :: 0 <= i <= j <= |s| && (r.start ==> i == 0) && (r.end ==> j == |s|) && In(r.items, s[i..j])
  }

  /** Some prefix is in the language, the whole string if there is an end anchor. */
  ghost predicate HeadMatches(items: Items, end: bool, s: string) {
    exists j :: 0 <= j <= |s| && (end ==> j == |s|) && In(items, s[..j])
  }

  /** A prefix match after k characters of the first item. */
  ghost predicate HeadAfter(items: Items, end: bool, s: string, k: nat)
    requires items.Cons?
  {
    k <= |s| && Admits(items.repeat, k) && AllMatch(items.atom, s[..k]) && HeadMatches(items.rest, end, s[k..])
  }

  /** A prefix match takes some number of characters for the first item. */
  lemma HeadSplits(items: Items, end: bool, s: string)
    requires items.Cons?
    ensures HeadMatches(items, end, s) <==> exists k: nat :: HeadAfter(items, end, s, k)
  {
    if HeadMatches(items, end, s) {
      var j :| 0 <= j <= |s| && (end ==> j == |s|) && In(items, s[..j]);
      var k :| && 0 <= k <= j && Admits(items.repeat, k)
               && AllMatch(items.atom, s[..j][..k]) && In(items.rest, s[..j][k..]);
      assert s[..j][..k] == s[..k];
      assert s[..j][k..] == s[k..][..j - k];
      assert HeadMatches(items.rest, end, s[k..]);
      assert HeadAfter(items, end, s, k);
    }
    if exists k: nat :: HeadAfter(items, end, s, k) {
      var k: nat :| HeadAfter(items, end, s, k);
      var m :| 0 <= m <= |s| - k && (end ==> m == |s| - k) && In(items.rest, s[k..][..m]);
      var j := k + m;
      assert s[..j][..k] == s[..k];
      assert s[..j][k..] == s[k..][..m];
      assert In(items, s[..j]);
    }
  }

  lemma HeadNil(end: bool, s: string)
    ensures HeadMatches(Nil, end, s) <==> (end ==> s == "")
  {
    if end ==> s == "" {
      assert In(Nil, s[..0]);
    }
  }

  /** A match somewhere is a prefix match of some suffix. */
  lemma MatchesIsHead(r: Regex, s: string)
    ensures Matches(r, s) <==> exists i :: 0 <= i <= |s| && (r.start ==> i == 0) && HeadMatches(r.items, r.end, s[i..])
  {
    if Matches(r, s) {
      var i, j :| 0 <= i <= j <= |s| && (r.start ==> i == 0) && (r.end ==> j == |s|) && In(r.items, s[i..j]);
      assert s[i..][..j - i] == s[i..j];
      assert HeadMatches(r.items, r.end, s[i..]);
    }
    if exists i :: 0 <= i <= |s| && (r.start ==> i == 0) && HeadMatches(r.items, r.end, s[i..]) {
      var i :| 0 <= i <= |s| && (r.start ==> i == 0) && HeadMatches(r.items, r.end, s[i..]);
      var m :| 0 <= m <= |s| - i && (r.end ==> m == |s| - i) && In(r.items, s[i..][..m]);
      assert s[i..][..m] == s[i..i + m];
    }
  }
}
