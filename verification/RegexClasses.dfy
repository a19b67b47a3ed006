/** What the atoms, repetitions and anchors of a simple regex match, character by character.  The
    class of every atom is given by its characters or their codes, a repetition by how many it
    takes, and a sequence of items by cutting a word in two; so the language of a pattern can be
    worked out from its text without looking at the matcher. */
module RegexClasses {
  import opened RegexSyntax
  import opened RegexSemantics

  const DIGITS := "0123456789"
  const PUNCTUATION :=
    {'^', '-', '!', '\"', '#', '$', '%', '&', '\'', '(', ')', '*', '+', ',', '.', '/', ':', ';',
     '<', '=', '>', '?', '@', '[', '\\', ']', '_', '`', '{', '|', '}', '~'}
  const CLASS_LETTERS := {'d', 'D', 'f', 'n', 'r', 's', 'S', 't', 'v', 'w', 'W'}

  predicate IsBlankCode(n: int) {
    n == 32 || 9 <= n <= 13
  }

  predicate IsLetterCode(n: int) {
    65 <= n <= 90 || 97 <= n <= 122
  }

  /** A plain atom matches itself, and the dot all but the newline. */
  lemma PlainAtoms(p: char, c: char)
    ensures AtomMatchesChar(false, p, c) <==> if p == '.' then c as int != 10 else c == p
  {
  }

  /** The classes of characters. */
  lemma ClassAtoms(c: char)
    ensures AtomMatchesChar(true, 'd', c) <==> c in DIGITS
    ensures AtomMatchesChar(true, 'D', c) <==> c !in DIGITS
    ensures AtomMatchesChar(true, 's', c) <==> IsBlankCode(c as int)
    ensures AtomMatchesChar(true, 'S', c) <==> !IsBlankCode(c as int)
  {
    InDigits(c);
  }

  lemma WordAtoms(c: char)
    ensures AtomMatchesChar(true, 'w', c) <==> IsLetterCode(c as int) || c in DIGITS || c == '_'
    ensures AtomMatchesChar(true, 'W', c) <==> !(IsLetterCode(c as int) || c in DIGITS || c == '_')
  {
    InDigits(c);
  }

  lemma InDigits(c: char)
    ensures c in DIGITS <==> '0' <= c <= '9'
  {
    if '0' <= c <= '9' {
      assert DIGITS[c as int - 48] == c;
    }
  }

  /** The escapes of single codes. */
  lemma CodeAtoms(c: char)
    ensures AtomMatchesChar(true, 't', c) <==> c as int == 9
    ensures AtomMatchesChar(true, 'n', c) <==> c as int == 10
    ensures AtomMatchesChar(true, 'v', c) <==> c as int == 11
    ensures AtomMatchesChar(true, 'f', c) <==> c as int == 12
    ensures AtomMatchesChar(true, 'r', c) <==> c as int == 13
  {
  }

  /** Any other escaped character is a punctuation mark and matches itself. */
  lemma EscapedAtoms(p: char, c: char)
    requires p !in CLASS_LETTERS
    ensures AtomMatchesChar(true, p, c) <==> p in PUNCTUATION && c == p
  {
    InPunctuation(p);
  }

  lemma InPunctuation(p: char)
    ensures p in PUNCTUATION <==> IsAsciiPunct(p)
  {
  }

  /** Which atoms a valid pattern may have. */
  lemma ValidAtoms(c: char)
    ensures GoodAtom(Atom(false, c)) <==> c != 0 as char && c !in "\\^$()[]{}|?*+"
    ensures GoodAtom(Atom(true, c)) <==> c in PUNCTUATION || c in CLASS_LETTERS
  {
    InPunctuation(c);
  }

  /** One repeated atom matches a number of characters, each in the class of the atom. */
  lemma RepeatedAtom(a: Atom, r: Repeat, w: string)
    ensures In(Cons(a, r, Nil), w) <==>
      && (forall i :: 0 <= i < |w| ==> AtomMatchesChar(a.escaped, a.c, w[i]))
      && match r
         case Once => |w| == 1
         case Optional => |w| == 0 || |w| == 1
         case Star => true
         case Plus => |w| > 0
  {
    assert w[..|w|] == w && w[|w|..] == "";
    assert forall k :: 0 <= k <= |w| && w[k..] == "" ==> k == |w|;
  }

  function Appended(x: Items, y: Items): Items {
    match x
    case Nil => y
    case Cons(a, r, rest) => Cons(a, r, Appended(rest, y))
  }

  /** Items in a row match a word of the first and then a word of the others. */
  lemma ItemsInARow(x: Items, y: Items, w: string)
    ensures In(Appended(x, y), w) <==> exists k :: 0 <= k <= |w| && In(x, w[..k]) && In(y, w[k..])
  {
    if In(Appended(x, y), w) {
      var k := Cut(x, y, w);
    }
    if k :| 0 <= k <= |w| && In(x, w[..k]) && In(y, w[k..]) {
      InARow(x, y, w, k);
    }
  }

  lemma {:induction false} Cut(x: Items, y: Items, w: string) returns (k: nat)
    requires In(Appended(x, y), w)
    ensures k <= |w| && In(x, w[..k]) && In(y, w[k..])
  {
    hide AllMatch, Admits;
    match x
    case Nil =>
      k := 0;
      assert w[..0] == "" && w[0..] == w;
    case Cons(a, r, rest) =>
      var n :| 0 <= n <= |w| && Admits(r, n) && AllMatch(a, w[..n]) && In(Appended(rest, y), w[n..]);
      var m := Cut(rest, y, w[n..]);
      k := n + m;
      Split(w, n, m);
  }

  lemma {:induction false} InARow(x: Items, y: Items, w: string, k: nat)
    requires k <= |w| && In(x, w[..k]) && In(y, w[k..])
    ensures In(Appended(x, y), w)
  {
    hide AllMatch, Admits;
    match x
    case Nil =>
      assert w[0..] == w;
    case Cons(a, r, rest) =>
      var n :| 0 <= n <= k && Admits(r, n) && AllMatch(a, w[..k][..n]) && In(rest, w[..k][n..]);
      Split(w, n, k - n);
      InARow(rest, y, w[n..], k - n);
  }

  lemma Split(w: string, n: nat, m: nat)
    requires n + m <= |w|
    ensures w[..n + m][..n] == w[..n] && w[..n + m][n..] == w[n..][..m] && w[n..][m..] == w[n + m..]
  {
  }

  /** A match is a part of the string that is in the language: all of it, its beginning, its end
      or any part, as the anchors say. */
  lemma AnchorsMean(items: Items, s: string)
    ensures Matches(Regex(true, items, true), s) <==> In(items, s)
    ensures Matches(Regex(true, items, false), s) <==> exists w, b :: In(items, w) && s == w + b
    ensures Matches(Regex(false, items, true), s) <==> exists a, w :: In(items, w) && s == a + w
    ensures Matches(Regex(false, items, false), s) <==> exists a, w, b :: In(items, w) && s == a + w + b
  {
    assert s[0..|s|] == s;
    Prefixes(items, s);
    Suffixes(items, s);
    Parts(items, s);
  }

  lemma Prefixes(items: Items, s: string)
    ensures Matches(Regex(true, items, false), s) <==> exists w, b :: In(items, w) && s == w + b
  {
    if w, b :| In(items, w) && s == w + b {
      assert s[0..|w|] == w;
    }
    if j :| 0 <= j <= |s| && In(items, s[0..j]) {
      assert s == s[0..j] + s[j..];
    }
  }

  lemma Suffixes(items: Items, s: string)
    ensures Matches(Regex(false, items, true), s) <==> exists a, w :: In(items, w) && s == a + w
  {
    if a, w :| In(items, w) && s == a + w {
      assert s[|a|..|s|] == w;
    }
    if i :| 0 <= i <= |s| && In(items, s[i..|s|]) {
      assert s == s[..i] + s[i..|s|];
    }
  }

  lemma Parts(items: Items, s: string)
    ensures Matches(Regex(false, items, false), s) <==> exists a, w, b :: In(items, w) && s == a + w + b
  {
    hide Matches, In;
    if a, w, b :| In(items, w) && s == a + w + b {
      PartMatches(items, s, a, w, b);
    }
    if Matches(Regex(false, items, false), s) {
      var a, w, b := MatchedPart(items, s);
      assert In(items, w) && s == a + w + b;
    }
  }

  lemma PartMatches(items: Items, s: string, a: string, w: string, b: string)
    requires In(items, w) && s == a + w + b
    ensures Matches(Regex(false, items, false), s)
  {
    hide In;
    assert s[|a|..|a| + |w|] == w;
  }

  lemma MatchedPart(items: Items, s: string) returns (a: string, w: string, b: string)
    requires Matches(Regex(false, items, false), s)
    ensures In(items, w) && s == a + w + b
  {
    hide In;
    var i, j :| 0 <= i <= j <= |s| && In(items, s[i..j]);
    a, w, b := s[..i], s[i..j], s[j..];
  }

  function MarkOf(r: Repeat): string {
    if r.Once? then "" else if r.Optional? then "?" else if r.Star? then "*" else "+"
  }

  /** How the items and the anchors are written. */
  lemma Written(a: Atom, r: Repeat, rest: Items, start: bool, end: bool)
    ensures TailText(Cons(a, r, rest), end)
         == (if a.escaped then ['\\', a.c] else [a.c]) + (MarkOf(r) + TailText(rest, end))
    ensures Text(Regex(start, Cons(a, r, rest), end))
         == if start then ['^'] + TailText(Cons(a, r, rest), end) else TailText(Cons(a, r, rest), end)
    ensures Text(Regex(start, Nil, end)) == (if start then "^" else "") + (if end then "$" else "")
  {
  }

  /** A pattern of one atom is found exactly in the strings with a character of its class. */
  lemma OneAtomFound(a: Atom, s: string)
    ensures Matches(Regex(false, Cons(a, Once, Nil), false), s) <==>
      exists i :: 0 <= i < |s| && AtomMatchesChar(a.escaped, a.c, s[i])
  {
    hide AtomMatchesChar;
    if i, j :| 0 <= i <= j <= |s| && In(Cons(a, Once, Nil), s[i..j]) {
      RepeatedAtom(a, Once, s[i..j]);
      assert s[i..j][0] == s[i];
    }
    if i :| 0 <= i < |s| && AtomMatchesChar(a.escaped, a.c, s[i]) {
      RepeatedAtom(a, Once, s[i..i + 1]);
      assert In(Cons(a, Once, Nil), s[i..i + 1]);
    }
  }
}
