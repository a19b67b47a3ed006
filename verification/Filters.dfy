/** The glob filters of gtest.cc: what a pattern matches is said by cutting a name into one piece for
    each character of the pattern, what a filter matches by its patterns between colons and its
    parts before and after the first dash, and what the built-in filters for death tests and
    disabled tests match in words about the name. */
module Filters {
  import opened Splitting

  const UNIVERSAL_FILTER := "*"
  const DEATH_TEST_CASE_FILTER := "*DeathTest:*DeathTest/*"
  const DISABLE_TEST_FILTER := "DISABLED_*:*/DISABLED_*"

  // ---------- What a pattern means ----------

  /** Whether one pattern character stands for this piece of text. */
  predicate StandsFor(p: char, piece: string) {
    if p == '?' then |piece| == 1
    else if p == '*' then true
    else piece == [p]
  }

  /** The pieces laid end to end. */
  function LaidOut(pieces: seq<string>): string {
    if pieces == [] then "" else pieces[0] + LaidOut(pieces[1..])
  }

  ghost predicate Fit(pattern: string, pieces: seq<string>) {
    |pieces| == |pattern| && forall i :: 0 <= i < |pattern| ==> StandsFor(pattern[i], pieces[i])
  }

  /** A text matches when it can be cut into one piece for each pattern character. */
  ghost predicate Wild(pattern: string, text: string) {
    exists pieces :: Fit(pattern, pieces) && LaidOut(pieces) == text
  }

  /** The parts of a filter between its colons. */
  function Patterns(filter: string): seq<string> {
    Fields(filter, ':')
  }

  /** A filter matches when one of its patterns does. */
  ghost predicate FilterMatches(name: string, filter: string) {
    exists i :: 0 <= i < |Patterns(filter)| && Wild(Patterns(filter)[i], name)
  }

  // ---------- PatternMatchesString ----------

  predicate PatternMatchesString(pattern: string, str: string)
    decreases |pattern|, |str|
  {
    if pattern == "" || pattern[0] == ':' then str == ""
    else if pattern[0] == '?' then str != "" && PatternMatchesString(pattern[1..], str[1..])
    else if pattern[0] == '*' then
      (str != "" && PatternMatchesString(pattern, str[1..])) || PatternMatchesString(pattern[1..], str)
    else str != "" && pattern[0] == str[0] && PatternMatchesString(pattern[1..], str[1..])
  }

  lemma WildEmpty(text: string)
    ensures Wild("", text) <==> text == ""
  {
    if text == "" {
      assert Fit("", []) && LaidOut([]) == text;
    }
  }

  /** A pattern matches when its first character stands for some text at the front and the rest
      matches the rest. */
  lemma WildCons(c: char, pattern: string, text: string)
    ensures Wild([c] + pattern, text) <==>
      exists k :: 0 <= k <= |text| && StandsFor(c, text[..k]) && Wild(pattern, text[k..])
  {
    var all := [c] + pattern;
    if Wild(all, text) {
      var pieces :| Fit(all, pieces) && LaidOut(pieces) == text;
      forall i | 0 <= i < |pattern| ensures StandsFor(pattern[i], pieces[1..][i]) {
        assert StandsFor(all[i + 1], pieces[i + 1]);
      }
      assert Fit(pattern, pieces[1..]);
      var k := |pieces[0]|;
      assert text[..k] == pieces[0] && text[k..] == LaidOut(pieces[1..]);
      assert StandsFor(all[0], pieces[0]);
    }
    if k :| 0 <= k <= |text| && StandsFor(c, text[..k]) && Wild(pattern, text[k..]) {
      var rest :| Fit(pattern, rest) && LaidOut(rest) == text[k..];
      var pieces := [text[..k]] + rest;
      assert pieces[1..] == rest;
      assert Fit(all, pieces) && LaidOut(pieces) == text[..k] + text[k..];
    }
  }

  /** The recursion computes wildcard matching, up to the first colon of the pattern. */
  lemma {:induction false} PatternMatchesIsWild(pattern: string, str: string)
    ensures PatternMatchesString(pattern, str) <==> Wild(Before(pattern, ':'), str)
    decreases |pattern|, |str|
  {
    if pattern == "" || pattern[0] == ':' {
      WildEmpty(str);
    } else {
      var c, rest := pattern[0], Before(pattern[1..], ':');
      WildCons(c, rest, str);
      PatternMatchesIsWild(pattern[1..], str);
      if str != "" {
        PatternMatchesIsWild(pattern[1..], str[1..]);
        PatternMatchesIsWild(pattern, str[1..]);
        WildCons(c, rest, str[1..]);
      }
      assert str[0..] == str;
      if c == '*' {
        StarStep(rest, str);
      } else {
        assert forall k :: 0 <= k <= |str| && StandsFor(c, str[..k]) ==> k == 1;
        assert str != "" ==> str[..1] == [str[0]];
      }
    }
  }

  /** A star takes either nothing, or one character and then what a star takes of the rest. */
  lemma StarStep(rest: string, str: string)
    ensures (exists k :: 0 <= k <= |str| && StandsFor('*', str[..k]) && Wild(rest, str[k..])) <==>
      Wild(rest, str) ||
      (str != "" && exists k :: 0 <= k <= |str[1..]| && StandsFor('*', str[1..][..k]) && Wild(rest, str[1..][k..]))
  {
    assert str[0..] == str;
    if k :| 0 < k <= |str| && Wild(rest, str[k..]) {
      assert str[1..][k - 1..] == str[k..];
      assert StandsFor('*', str[1..][..k - 1]);
    }
    if str != "" {
      if k :| 0 <= k <= |str[1..]| && Wild(rest, str[1..][k..]) {
        assert str[1..][k..] == str[k + 1..];
        assert StandsFor('*', str[..k + 1]);
      }
    }
    assert StandsFor('*', str[..0]);
  }

  // ---------- MatchesFilter ----------

  /** A filter goes on after its first colon. */
  lemma FilterStep(name: string, filter: string)
    ensures var n := |Before(filter, ':')|;
      FilterMatches(name, filter) <==>
        Wild(Before(filter, ':'), name) || (n < |filter| && FilterMatches(name, filter[n + 1..]))
  {
    var n := |Before(filter, ':')|;
    var patterns := Patterns(filter);
    assert patterns[0] == Before(filter, ':');
    if n < |filter| {
      var later := Patterns(filter[n + 1..]);
      assert forall i :: 0 <= i < |later| ==> patterns[i + 1] == later[i];
      assert forall i :: 1 <= i < |patterns| ==> patterns[i] == later[i - 1];
    }
  }

  method MatchesFilter(name: string, filter: string) returns (matches: bool)
    ensures matches <==> FilterMatches(name, filter)
  {
    var curPattern := filter;
    while true
      invariant FilterMatches(name, filter) <==> FilterMatches(name, curPattern)
      decreases |curPattern|
    {
      PatternMatchesIsWild(curPattern, name);
      FilterStep(name, curPattern);
      if PatternMatchesString(curPattern, name) {
        return true;
      }
      var colon := |Before(curPattern, ':')|;
      if colon == |curPattern| {
        return false;
      }
      curPattern := curPattern[colon + 1..];
    }
  }

  // ---------- FilterMatchesTest ----------

  lemma {:induction false} WildStar(text: string)
    ensures Wild("*", text)
  {
    assert LaidOut([text][1..]) == "";
    assert Fit("*", [text]) && LaidOut([text]) == text;
  }

  lemma SinglePattern(name: string, pattern: string)
    requires ':' !in pattern
    ensures FilterMatches(name, pattern) <==> Wild(pattern, name)
  {
    FilterStep(name, pattern);
    assert Before(pattern, ':') == pattern;
  }

  /** The empty filter matches the empty name only, and the universal one every name. */
  lemma EmptyAndUniversal(name: string)
    ensures FilterMatches(name, "") <==> name == ""
    ensures FilterMatches(name, UNIVERSAL_FILTER)
  {
    SinglePattern(name, "");
    WildEmpty(name);
    SinglePattern(name, UNIVERSAL_FILTER);
    WildStar(name);
  }

  /** Whether a test is wanted: its full name matches the positive part of the filter, which is
      before the first dash and taken as universal when empty there, and not the negative part. */
  ghost predicate Wanted(filter: string, testCaseName: string, testName: string) {
    var fullName := testCaseName + "." + testName;
    var positive := Before(filter, '-');
    if |positive| == |filter| then FilterMatches(fullName, filter)
    else (positive == "" || FilterMatches(fullName, positive)) &&
         !FilterMatches(fullName, filter[|positive| + 1..])
  }

  method FilterMatchesTest(filter: string, testCaseName: string, testName: string) returns (matches: bool)
    ensures matches <==> Wanted(filter, testCaseName, testName)
  {
    var fullName := testCaseName + "." + testName;
    EmptyAndUniversal(fullName);
    var dash := |Before(filter, '-')|;
    var positive, negative;
    if dash == |filter| {
      positive := filter;
      negative := "";
    } else {
      positive := filter[..dash];
      negative := filter[dash + 1..];
      if positive == "" {
        positive := UNIVERSAL_FILTER;
      }
    }
    var wanted := MatchesFilter(fullName, positive);
    var unwanted := MatchesFilter(fullName, negative);
    return wanted && !unwanted;
  }

  // ---------- Which test cases are death test cases ----------

  predicate Plain(s: string) {
    '*' !in s && '?' !in s
  }

  /** A pattern without wildcards matches itself only. */
  lemma {:induction false} WildPlain(pattern: string, text: string)
    requires Plain(pattern)
    ensures Wild(pattern, text) <==> text == pattern
  {
    if pattern == "" {
      WildEmpty(text);
    } else {
      var c, rest := pattern[0], pattern[1..];
      assert pattern == [c] + rest;
      WildCons(c, rest, text);
      if text != "" {
        WildPlain(rest, text[1..]);
        assert text == [text[0]] + text[1..];
        assert text[..1] == [text[0]];
      }
      assert forall k :: 0 <= k <= |text| && StandsFor(c, text[..k]) ==> k == 1;
    }
  }

  /** A pattern that starts with a star matches when some end of the text matches the rest. */
  lemma WildStarThen(pattern: string, text: string)
    ensures Wild("*" + pattern, text) <==> exists k :: 0 <= k <= |text| && Wild(pattern, text[k..])
  {
    WildCons('*', pattern, text);
    assert forall k :: 0 <= k <= |text| ==> StandsFor('*', text[..k]);
  }

  /** A plain pattern with a star after it matches what starts with the plain part. */
  lemma {:induction false} WildPlainStar(plain: string, text: string)
    requires Plain(plain)
    ensures Wild(plain + "*", text) <==> plain <= text
  {
    if plain == "" {
      assert plain + "*" == "*";
      WildStar(text);
    } else {
      var c, rest := plain[0], plain[1..] + "*";
      assert plain + "*" == [c] + rest;
      WildCons(c, rest, text);
      assert forall k :: 0 <= k <= |text| && StandsFor(c, text[..k]) ==> k == 1;
      if text != "" {
        WildPlainStar(plain[1..], text[1..]);
        assert text[..1] == [text[0]];
        assert plain <= text <==> text[0] == c && plain[1..] <= text[1..];
      }
    }
  }

  ghost predicate EndsWith(name: string, end: string) {
    exists k :: 0 <= k <= |name| && name[k..] == end
  }

  ghost predicate Holds(name: string, part: string) {
    exists k :: 0 <= k <= |name| && part <= name[k..]
  }

  lemma StarPlain(plain: string, name: string)
    requires Plain(plain)
    ensures Wild("*" + plain, name) <==> EndsWith(name, plain)
  {
    WildStarThen(plain, name);
    forall k | 0 <= k <= |name| ensures Wild(plain, name[k..]) <==> name[k..] == plain {
      WildPlain(plain, name[k..]);
    }
  }

  lemma StarPlainStar(plain: string, name: string)
    requires Plain(plain)
    ensures Wild("*" + (plain + "*"), name) <==> Holds(name, plain)
  {
    WildStarThen(plain + "*", name);
    forall k | 0 <= k <= |name| ensures Wild(plain + "*", name[k..]) <==> plain <= name[k..] {
      WildPlainStar(plain, name[k..]);
    }
  }

  lemma TwoPatterns(a: string, b: string, name: string)
    requires ':' !in a && ':' !in b
    ensures FilterMatches(name, a + [':'] + b) <==> Wild(a, name) || Wild(b, name)
  {
    assert a + [':'] + b == a + ([':'] + b);
    BeforeIs(a, ':', b);
    FilterStep(name, a + [':'] + b);
    assert (a + [':'] + b)[|a| + 1..] == b;
    SinglePattern(name, b);
  }

  /** A death test case is one whose name ends in DeathTest or has DeathTest before a slash. */
  ghost predicate IsDeathTestCase(name: string) {
    EndsWith(name, "DeathTest") || Holds(name, "DeathTest/")
  }

  lemma EndOrHold(x: string, y: string, name: string)
    requires Plain(x) && Plain(y) && ':' !in x && ':' !in y
    ensures FilterMatches(name, ("*" + x) + [':'] + ("*" + (y + "*"))) <==> EndsWith(name, x) || Holds(name, y)
  {
    TwoPatterns("*" + x, "*" + (y + "*"), name);
    StarPlain(x, name);
    StarPlainStar(y, name);
  }

  lemma StartOrHold(x: string, y: string, name: string)
    requires Plain(x) && Plain(y) && ':' !in x && ':' !in y
    ensures FilterMatches(name, (x + "*") + [':'] + ("*" + (y + "*"))) <==> x <= name || Holds(name, y)
  {
    TwoPatterns(x + "*", "*" + (y + "*"), name);
    WildPlainStar(x, name);
    StarPlainStar(y, name);
  }

  lemma DeathFilterMeans(name: string)
    ensures FilterMatches(name, DEATH_TEST_CASE_FILTER) <==> IsDeathTestCase(name)
  {
    assert DEATH_TEST_CASE_FILTER == ("*" + "DeathTest") + [':'] + ("*" + ("DeathTest/" + "*"));
    EndOrHold("DeathTest", "DeathTest/", name);
  }

  /** A name is disabled when it starts with DISABLED_ or has DISABLED_ after a slash. */
  ghost predicate IsDisabledName(name: string) {
    "DISABLED_" <= name || Holds(name, "/DISABLED_")
  }

  lemma DisabledFilterMeans(name: string)
    ensures FilterMatches(name, DISABLE_TEST_FILTER) <==> IsDisabledName(name)
  {
    assert DISABLE_TEST_FILTER == ("DISABLED_" + "*") + [':'] + ("*" + ("/DISABLED_" + "*"));
    StartOrHold("DISABLED_", "/DISABLED_", name);
  }
}
