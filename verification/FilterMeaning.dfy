/** What filters select, said about the characters of patterns and names. */
module FilterMeaning {
  import opened Splitting
  import opened Filters
  import opened TestObjects
  import opened Rounds
  import opened Sharding

  // ---------- Patterns ----------

  /** A question mark stands for one character, a star for any number, and others for themselves. */
  lemma WildMeans(c: char, pattern: string, text: string)
    ensures Wild("", text) <==> text == ""
    ensures Wild(['?'] + pattern, text) <==> text != "" && Wild(pattern, text[1..])
    ensures Wild(['*'] + pattern, text) <==> exists a, b :: text == a + b && Wild(pattern, b)
    ensures c != '?' && c != '*' ==>
              (Wild([c] + pattern, text) <==> text != "" && text[0] == c && Wild(pattern, text[1..]))
  {
    hide Wild;
    WildEmpty(text);
    OneCharacter('?', pattern, text);
    AnyNumber(pattern, text);
    if c != '?' && c != '*' {
      OneCharacter(c, pattern, text);
    }
  }

  lemma OneCharacter(c: char, pattern: string, text: string)
    requires c != '*'
    ensures Wild([c] + pattern, text) <==> text != "" && (c == '?' || text[0] == c) && Wild(pattern, text[1..])
  {
    hide Wild;
    WildCons(c, pattern, text);
    if text != "" && (c == '?' || text[0] == c) && Wild(pattern, text[1..]) {
      assert text[..1] == [text[0]];
      assert StandsFor(c, text[..1]);
    }
  }

  lemma AnyNumber(pattern: string, text: string)
    ensures Wild(['*'] + pattern, text) <==> exists a, b :: text == a + b && Wild(pattern, b)
  {
    hide Wild;
    WildStarThen(pattern, text);
    if k :| 0 <= k <= |text| && Wild(pattern, text[k..]) {
      assert text == text[..k] + text[k..];
    }
    if a, b :| text == a + b && Wild(pattern, b) {
      assert text[|a|..] == b;
    }
  }

  // ---------- Filters ----------

  /** Patterns with colons between them match what one of them matches. */
  lemma PatternsMean(ps: seq<string>, name: string)
    requires ps != [] && forall i :: 0 <= i < |ps| ==> ':' !in ps[i]
    ensures FilterMatches(name, Joined(ps, ':')) <==> exists i :: 0 <= i < |ps| && Wild(ps[i], name)
  {
    hide Wild, Joined, Fields;
    JoinedFields(ps, ':');
    assert Patterns(Joined(ps, ':')) == ps;
  }

  /** A test is wanted if its test case, a dot and its name match what is before the first dash,
      or nothing is there, and do not match what is after it. */
  lemma WantedMeans(positive: string, negative: string, testCaseName: string, testName: string)
    requires '-' !in positive
    ensures Wanted(positive, testCaseName, testName) <==> FilterMatches(testCaseName + "." + testName, positive)
    ensures Wanted(positive + (['-'] + negative), testCaseName, testName) <==>
              && (positive == "" || FilterMatches(testCaseName + "." + testName, positive))
              && !FilterMatches(testCaseName + "." + testName, negative)
  {
    hide FilterMatches;
    var filter := positive + (['-'] + negative);
    BeforeAll(positive, '-');
    BeforeIs(positive, '-', negative);
    assert filter[|positive| + 1..] == negative;
  }

  // ---------- Names ----------

  lemma HoldsMeans(name: string, part: string)
    ensures Holds(name, part) <==> exists a, b :: name == a + (part + b)
  {
    if k :| 0 <= k <= |name| && part <= name[k..] {
      assert name == name[..k] + (part + name[k..][|part|..]);
    }
    if a, b :| name == a + (part + b) {
      assert name[|a|..] == part + b;
      assert part <= part + b;
    }
  }

  lemma EndsWithMeans(name: string, part: string)
    ensures EndsWith(name, part) <==> exists a :: name == a + part
  {
    if k :| 0 <= k <= |name| && name[k..] == part {
      assert name == name[..k] + part;
    }
    if a :| name == a + part {
      assert name[|a|..] == part;
    }
  }

  /** The names of death test cases. */
  lemma DeathMeans(name: string)
    ensures IsDeath(name) <==> (exists a :: name == a + "DeathTest") || (exists a, b :: name == a + ("DeathTest/" + b))
  {
    hide FilterMatches, Holds, EndsWith;
    DeathFilterMeans(name);
    EndsWithMeans(name, "DeathTest");
    HoldsMeans(name, "DeathTest/");
  }

  ghost predicate SaysDisabled(name: string) {
    (exists b :: name == "DISABLED_" + b) || (exists a, b :: name == a + ("/DISABLED_" + b))
  }

  lemma DisabledMeans(name: string)
    ensures IsDisabledName(name) <==> SaysDisabled(name)
  {
    hide Holds;
    HoldsMeans(name, "/DISABLED_");
    if "DISABLED_" <= name {
      assert name == "DISABLED_" + name[|"DISABLED_"|..];
    }
    if b :| name == "DISABLED_" + b {
      assert "DISABLED_" <= "DISABLED_" + b;
    }
  }

  /** A test may run if it is wanted, and neither name says that it is disabled unless disabled
      tests run too. */
  lemma RunnableMeans(filter: string, alsoRunDisabled: bool, testCaseName: string, testName: string)
    ensures Runnable(filter, alsoRunDisabled, testCaseName, testName) <==>
      && Wanted(filter, testCaseName, testName)
      && (SaysDisabled(testCaseName) || SaysDisabled(testName) ==> alsoRunDisabled)
  {
    hide Wanted, IsDisabledName, SaysDisabled;
    DisabledMeans(testCaseName);
    DisabledMeans(testName);
  }

  /** What a test says of itself when it has been filtered. */
  lemma MarkedMeans(t: TestInfo, testCaseName: string, filter: string, selected: bool)
    requires MarkedTest(t, testCaseName, filter, selected)
    ensures t.isDisabled <==> SaysDisabled(testCaseName) || SaysDisabled(t.name)
    ensures t.matchesFilter <==> Wanted(filter, testCaseName, t.name)
    ensures t.shouldRun <==> selected
  {
    hide Wanted, IsDisabledName, SaysDisabled;
    DisabledMeans(testCaseName);
    DisabledMeans(t.name);
  }
}
