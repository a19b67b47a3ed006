/** The backtracking matcher of gtest-port.cc, proved to decide the language of the regex. */
module RegexMatcher {
  import opened RegexSyntax
  import opened RegexSemantics

  /** One less than the largest size_t: a C string is never longer. */
  const MAX_LENGTH: nat := 0xFFFF_FFFF_FFFF_FFFF - 1

  /** The tail of a valid regex after the start anchor. */
  ghost predicate IsTail(regex: string, items: Items, end: bool) {
    GoodItems(items) && regex == TailText(items, end)
  }

  /** What the first characters of a tail say about its items. */
  lemma TailShape(items: Items, end: bool)
    requires GoodItems(items)
    ensures items.Nil? ==> TailText(items, end) == if end then "$" else ""
    ensures items.Cons? ==>
        var t, n := TailText(items, end), if items.atom.escaped then 1 else 0;
        && |t| > n
        && (t[0] == '\\' <==> items.atom.escaped)
        && t[0] != '$'
        && t[n] == items.atom.c
        && (IsRepeat(CharAt(t, n + 1)) <==> items.repeat != Once)
        && (items.repeat == Once ==> t[n + 1..] == TailText(items.rest, end))
        && (items.repeat != Once ==> t[n + 1] == RepeatText(items.repeat)[0] && t[n + 2..] == TailText(items.rest, end))
  {
    if items.Cons? {
      var a, r, u := AtomText(items.atom), RepeatText(items.repeat), TailText(items.rest, end);
      TailStarts(items.rest, end);
      Drop(a, r + u);
      if items.repeat == Once {
        assert r + u == u;
      } else {
        Drop(r, u);
        assert (r + u)[0] == r[0] && TailText(items, end)[|a| + 1..] == (r + u)[1..];
      }
    }
  }

  lemma Drop(a: string, b: string)
    ensures (a + b)[|a|..] == b
  {
  }

  lemma TailStarts(items: Items, end: bool)
    requires GoodItems(items)
    ensures !IsRepeat(CharAt(TailText(items, end), 0))
  {
  }

  /** A tail has one reading. */
  lemma {:induction false} TailUnique(a: Items, e: bool, b: Items, f: bool)
    requires GoodItems(a) && GoodItems(b) && TailText(a, e) == TailText(b, f)
    ensures a == b && e == f
  {
    TailShape(a, e);
    TailShape(b, f);
    if a.Cons? && b.Cons? {
      assert a.atom == b.atom;
      TailUnique(a.rest, e, b.rest, f);
    }
  }

  /** The grammar is unambiguous. */
  lemma TextUnique(r: Regex, q: Regex)
    requires GoodRegex(r) && GoodRegex(q) && Text(r) == Text(q)
    ensures r == q
  {
    TailScans(r.items, r.end);
    TailScans(q.items, q.end);
    var s, t := TailText(r.items, r.end), TailText(q.items, q.end);
    assert r.start ==> Text(r)[0] == '^' && Text(r)[1..] == s;
    assert q.start ==> Text(q)[0] == '^' && Text(q)[1..] == t;
    assert !r.start ==> Text(r) == s;
    assert !q.start ==> Text(q) == t;
    TailUnique(r.items, r.end, q.items, q.end);
  }

  /** Tries the repetitions of an atom, fewest first, with the rest of the regex after them. */
  method MatchRepetitionAndRegexAtHead(
      escaped: bool, c: char, repeat: char, regex: string, str: string, ghost items: Items, ghost end: bool)
    returns (r: bool)
    requires IsCString(str) && |str| <= MAX_LENGTH
    requires items.Cons? && items.repeat != Once && items.atom == Atom(escaped, c)
    requires repeat == RepeatText(items.repeat)[0] && IsTail(regex, items.rest, end)
    ensures r <==> HeadMatches(items, end, str)
    decreases items, 0
  {
    HeadSplits(items, end, str);
    var minCount := if repeat == '+' then 1 else 0;
    var maxCount := if repeat == '?' then 1 else MAX_LENGTH;
    var i := 0;
    while i <= maxCount
      invariant 0 <= i <= maxCount + 1
      invariant i <= maxCount ==> i <= |str| && AllMatch(items.atom, str[..i])
      invariant i > maxCount ==> repeat == '?' || i > |str|
      invariant forall k: nat :: k < i ==> !HeadAfter(items, end, str, k)
    {
      if i >= minCount {
        var tail := MatchRegexAtHead(regex, str[i..], items.rest, end);
        if tail {
          assert HeadAfter(items, end, str, i);
          return true;
        }
      }
      assert !HeadAfter(items, end, str, i);
      if CharAt(str, i) == '\0' || !AtomMatchesChar(escaped, c, str[i]) {
        StuckAt(items, end, str, i);
        return false;
      }
      assert str[..i + 1] == str[..i] + [str[i]];
      i := i + 1;
    }
    return false;
  }

  /** No repetition goes past a character the atom does not match. */
  lemma StuckAt(items: Items, end: bool, s: string, i: nat)
    requires items.Cons? && i <= |s|
    requires i < |s| ==> !AtomMatchesChar(items.atom.escaped, items.atom.c, s[i])
    ensures forall k: nat :: k > i ==> !HeadAfter(items, end, s, k)
  {
    forall k: nat | k > i && k <= |s|
      ensures !AllMatch(items.atom, s[..k])
    {
      assert s[..k][i] == s[i];
    }
  }

  /** Whether the regex, which has no start anchor, matches a prefix of the string. */
  method MatchRegexAtHead(regex: string, str: string, ghost items: Items, ghost end: bool) returns (r: bool)
    requires IsCString(str) && |str| <= MAX_LENGTH
    requires IsTail(regex, items, end)
    ensures r <==> HeadMatches(items, end, str)
    decreases items, 1
  {
    TailShape(items, end);
    HeadNil(end, str);
    if CharAt(regex, 0) == '\0' {
      assert items.Nil?;
      return true;
    }
    if regex[0] == '$' {
      return CharAt(str, 0) == '\0';
    }
    var escaped := regex[0] == '\\';
    var n := if escaped then 1 else 0;
    if IsRepeat(CharAt(regex, n + 1)) {
      r := MatchRepetitionAndRegexAtHead(escaped, regex[n], regex[n + 1], regex[n + 2..], str, items, end);
    } else {
      OneStep(items, end, str);
      if CharAt(str, 0) != '\0' && AtomMatchesChar(escaped, regex[n], str[0]) {
        r := MatchRegexAtHead(regex[n + 1..], str[1..], items.rest, end);
      } else {
        r := false;
      }
    }
  }

  /** An atom without a repetition takes one character. */
  lemma OneStep(items: Items, end: bool, s: string)
    requires items.Cons? && items.repeat == Once
    ensures HeadMatches(items, end, s)
            <==> s != "" && AtomMatchesChar(items.atom.escaped, items.atom.c, s[0])
                 && HeadMatches(items.rest, end, s[1..])
  {
    HeadSplits(items, end, s);
    if s != "" {
      assert s[..1][0] == s[0];
      assert HeadAfter(items, end, s, 1)
        <==> AtomMatchesChar(items.atom.escaped, items.atom.c, s[0]) && HeadMatches(items.rest, end, s[1..]);
    }
  }

  lemma RegexStarts(r: Regex)
    requires GoodRegex(r)
    ensures CharAt(Text(r), 0) == '^' <==> r.start
    ensures r.start ==> Text(r) != "" && IsTail(Text(r)[1..], r.items, r.end)
    ensures !r.start ==> IsTail(Text(r), r.items, r.end)
  {
    TailScans(r.items, r.end);
  }

  /** Whether the regex matches any substring of the string. */
  method MatchRegexAnywhere(regex: CString, str: CString, ghost r: Regex) returns (found: bool)
    requires str.Str? ==> IsCString(str.text) && |str.text| <= MAX_LENGTH
    requires regex.Str? ==> GoodRegex(r) && regex.text == Text(r)
    ensures found <==> regex.Str? && str.Str? && Matches(r, str.text)
  {
    hide Matches, HeadMatches, Text, GoodRegex, IsTail;
    if regex.Null? || str.Null? {
      return false;
    }
    var s := str.text;
    MatchesIsHead(r, s);
    RegexStarts(r);
    if CharAt(regex.text, 0) == '^' {
      found := MatchRegexAtHead(regex.text[1..], s, r.items, r.end);
      assert s[0..] == s;
    } else {
      var i := 0;
      var more := true;
      while more
        invariant 0 <= i <= |s| + 1 && (more <==> i <= |s|)
        invariant forall k :: 0 <= k < i ==> !HeadMatches(r.items, r.end, s[k..])
        decreases |s| + 1 - i
      {
        found := MatchRegexAtHead(regex.text, s[i..], r.items, r.end);
        if found {
          return true;
        }
        more := CharAt(s, i) != '\0';
        i := i + 1;
      }
      return false;
    }
  }
}
