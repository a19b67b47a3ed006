/** The class RE: the full-match pattern that Init builds, and exactly when it means a match of
    the whole string. */
module RegexFull {
  import opened Basics
  import opened RegexSyntax
  import opened RegexSemantics
  import opened RegexMatcher

  function StartMark(s: string): string {
    if CharAt(s, 0) != '^' then "^" else ""
  }

  function EndMark(s: string): string {
    if s == "" || s[|s| - 1] != '$' then "$" else ""
  }

  /** The pattern with an anchor at both ends, as far as the text shows that one is missing. */
  function FullPattern(s: string): string {
    StartMark(s) + s + EndMark(s)
  }

  /** What the rewritten pattern is as a regex: a dollar sign at the end, even an escaped one,
      is taken for an end anchor. */
  function FullRegex(r: Regex): Regex {
    Regex(true, r.items, r.end || !EndsInDollar(r))
  }

  predicate EndsInDollar(r: Regex) {
    var s := Text(r);
    s != "" && s[|s| - 1] == '$'
  }

  /** The text ends in a dollar sign that is no anchor. */
  predicate EndsInEscapedDollar(r: Regex) {
    EndsInDollar(r) && !r.end
  }

  lemma {:induction false} EndAnchorIsDollar(items: Items)
    ensures var t := TailText(items, true); t != "" && t[|t| - 1] == '$'
  {
    if items.Cons? {
      EndAnchorIsDollar(items.rest);
    }
  }

  lemma {:induction false} EndAnchorAppends(items: Items)
    ensures TailText(items, true) == TailText(items, false) + "$"
  {
    if items.Cons? {
      EndAnchorAppends(items.rest);
      var u := TailText(items.rest, false);
      assert RepeatText(items.repeat) + (u + "$") == (RepeatText(items.repeat) + u) + "$";
      assert AtomText(items.atom) + ((RepeatText(items.repeat) + u) + "$") == TailText(items, false) + "$";
    } else {
      assert TailText(items, false) + "$" == "$";
    }
  }

  lemma Fronted(r: Regex)
    requires GoodRegex(r)
    ensures StartMark(Text(r)) + Text(r) == "^" + TailText(r.items, r.end)
  {
    TailScans(r.items, r.end);
    if r.start {
      assert Text(r)[0] == '^';
      assert "" + Text(r) == Text(r);
    } else {
      assert Text(r) == TailText(r.items, r.end);
    }
  }

  lemma EndsAsTail(r: Regex)
    requires GoodRegex(r)
    ensures var t := TailText(r.items, r.end); EndsInDollar(r) <==> t != "" && t[|t| - 1] == '$'
  {
    var t := TailText(r.items, r.end);
    if t == "" {
      assert Text(r) == "^" || Text(r) == "";
    } else {
      assert Text(r)[|Text(r)| - 1] == t[|t| - 1];
    }
  }

  lemma EndMarked(r: Regex)
    requires GoodRegex(r)
    ensures TailText(r.items, r.end) + EndMark(Text(r)) == TailText(r.items, FullRegex(r).end)
  {
    var t := TailText(r.items, r.end);
    EndsAsTail(r);
    if EndsInDollar(r) {
      assert t + "" == t;
    } else {
      EndAnchorIsDollar(r.items);
      EndAnchorAppends(r.items);
    }
  }

  /** The rewritten text is the text of the rewritten regex, and it is valid again. */
  lemma FullPatternIsRegex(r: Regex)
    requires GoodRegex(r)
    ensures FullPattern(Text(r)) == Text(FullRegex(r)) && GoodRegex(FullRegex(r))
    ensures Scan(FullPattern(Text(r)), true, false)
  {
    Fronted(r);
    EndMarked(r);
    TextScans(FullRegex(r));
    Assoc("^", TailText(r.items, r.end), EndMark(Text(r)));
  }

  // ---------- What a full match means ----------

  /** With both anchors, a match is a word of the language. */
  lemma BothAnchors(items: Items, s: string)
    ensures Matches(Regex(true, items, true), s) <==> In(items, s)
  {
    assert s[0..|s|] == s;
  }

  /** Without the end anchor, a prefix is enough. */
  lemma StartAnchor(items: Items, s: string)
    ensures Matches(Regex(true, items, false), s) <==> exists j :: 0 <= j <= |s| && In(items, s[..j])
  {
    if exists j :: 0 <= j <= |s| && In(items, s[..j]) {
      var j :| 0 <= j <= |s| && In(items, s[..j]);
      assert s[0..j] == s[..j];
    }
    if Matches(Regex(true, items, false), s) {
      var i, j :| 0 <= i <= j <= |s| && i == 0 && In(items, s[i..j]);
      assert s[i..j] == s[..j];
    }
  }

  /** A character that the atom matches. */
  function Sample(a: Atom): char {
    if !a.escaped then a.c
    else
      match a.c
      case 'd' => '0'
      case 'D' | 'S' | 'w' => 'a'
      case 'f' => 12 as char
      case 'n' => '\n'
      case 'r' => '\r'
      case 's' | 'W' => ' '
      case 't' => '\t'
      case 'v' => 11 as char
      case _ => a.c
  }

  lemma SampleMatches(a: Atom)
    requires GoodAtom(a)
    ensures AtomMatchesChar(a.escaped, a.c, Sample(a))
  {
  }

  /** A word of the language: each atom once. */
  function SampleWord(items: Items): string {
    match items
    case Nil => ""
    case Cons(a, _, rest) => [Sample(a)] + SampleWord(rest)
  }

  lemma {:induction false} SampleIsWord(items: Items)
    requires GoodItems(items)
    ensures In(items, SampleWord(items))
  {
    if items.Cons? {
      var w := SampleWord(items);
      SampleMatches(items.atom);
      SampleIsWord(items.rest);
      assert w[1..] == SampleWord(items.rest) && w[..1] == [Sample(items.atom)];
    }
  }

  lemma LastOf(a: string, b: string)
    requires b != ""
    ensures a + b != "" && (a + b)[|a + b| - 1] == b[|b| - 1]
  {
  }

  /** A last atom whose text ends in a dollar sign is an escaped dollar sign, once. */
  lemma LastAtomIsDollar(a: Atom, r: Repeat)
    requires GoodAtom(a)
    requires var t := AtomText(a) + RepeatText(r); t[|t| - 1] == '$'
    ensures a == Atom(true, '$') && r == Once
  {
    if r != Once {
      LastOf(AtomText(a), RepeatText(r));
    } else {
      assert AtomText(a) + RepeatText(r) == AtomText(a);
    }
  }

  /** If the text ends in a dollar sign that is no anchor, so does every word. */
  lemma {:induction false} EscapedDollarIsLast(items: Items, w: string)
    requires GoodItems(items) && In(items, w)
    requires TailText(items, false) != "" && TailText(items, false)[|TailText(items, false)| - 1] == '$'
    ensures w != "" && w[|w| - 1] == '$'
  {
    var a, r, rest := items.atom, items.repeat, items.rest;
    var k :| 0 <= k <= |w| && Admits(r, k) && AllMatch(a, w[..k]) && In(rest, w[k..]);
    var u := TailText(rest, false);
    if u != "" {
      LastOf(RepeatText(r), u);
      LastOf(AtomText(a), RepeatText(r) + u);
      EscapedDollarIsLast(rest, w[k..]);
    } else {
      EmptyTail(rest);
      assert RepeatText(r) + u == RepeatText(r);
      LastAtomIsDollar(a, r);
      assert w[..k][0] == '$' && w[k..] == "";
    }
  }

  lemma EmptyTail(items: Items)
    requires TailText(items, false) == ""
    ensures items.Nil?
  {
  }

  /** The rewriting preserves meaning exactly for the regexes that do not end in an escaped
      dollar sign: for those a match of the rewritten regex is a match of the whole string, and
      for every other one some string tells the two apart. */
  lemma FullMatchIsWholeMatch(r: Regex)
    requires GoodRegex(r)
    ensures (forall s: string :: Matches(FullRegex(r), s) <==> In(r.items, s)) <==> !EndsInEscapedDollar(r)
  {
    if !EndsInEscapedDollar(r) {
      forall s: string
        ensures Matches(FullRegex(r), s) <==> In(r.items, s)
      {
        BothAnchors(r.items, s);
      }
    } else {
      var w := SampleWord(r.items);
      SampleIsWord(r.items);
      var s := w + "x";
      StartAnchor(r.items, s);
      assert s[..|w|] == w;
      assert Matches(FullRegex(r), s);
      var t := TailText(r.items, false);
      TailEndsAsText(r);
      if In(r.items, s) {
        EscapedDollarIsLast(r.items, s);
      }
    }
  }

  lemma TailEndsAsText(r: Regex)
    requires EndsInEscapedDollar(r)
    ensures var t := TailText(r.items, false); t != "" && t[|t| - 1] == '$'
  {
  }

  /** What a full match does mean in that case: some prefix is a word. */
  lemma EscapedDollarFullMatch(r: Regex, s: string)
    requires GoodRegex(r) && EndsInEscapedDollar(r)
    ensures Matches(FullRegex(r), s) <==> exists j :: 0 <= j <= |s| && In(r.items, s[..j])
  {
    StartAnchor(r.items, s);
  }

  // ---------- The class ----------

  /** Copies the pattern into a new buffer with the missing anchors and a terminator. */
  method BuildFullPattern(regex: string) returns (buffer: array<char>)
    requires IsCString(regex)
    ensures fresh(buffer) && CText(buffer[..], '\0') == FullPattern(regex)
  {
    var len := |regex|;
    buffer := new char[len + 3];
    var at := 0;
    if CharAt(regex, 0) != '^' {
      buffer[at] := '^';
      at := at + 1;
    }
    ghost var head := buffer[..at];
    forall i | 0 <= i < len {
      buffer[at + i] := regex[i];
    }
    assert buffer[..at + len] == head + regex;
    at := at + len;
    if len == 0 || regex[len - 1] != '$' {
      buffer[at] := '$';
      at := at + 1;
    }
    buffer[at] := '\0';
    assert buffer[..at] == FullPattern(regex);
    CTextIs(buffer[..], FullPattern(regex), '\0');
  }

  class RE {
    var pattern: CString
    var fullPattern: CString
    var isValid: bool

    ghost predicate Valid()
      reads this
    {
      && (pattern.Str? ==> IsCString(pattern.text))
      && (isValid <==> pattern.Str? && Scan(pattern.text, true, false))
      && fullPattern == (if isValid then Str(FullPattern(pattern.text)) else Null)
    }

    constructor (regex: CString)
      requires regex.Str? ==> IsCString(regex.text)
      ensures Valid() && pattern == regex
    {
      pattern := regex;
      fullPattern := Null;
      var ok := ValidateRegex(regex);
      isValid := ok;
      if ok {
        var buffer := BuildFullPattern(regex.text);
        fullPattern := Str(CText(buffer[..], '\0'));
      }
    }

    /** A valid pattern is the text of a regex. */
    lemma ReadsAs() returns (r: Regex)
      requires Valid() && isValid
      ensures GoodRegex(r) && Text(r) == pattern.text
    {
      ValidIffGrammar(pattern.text);
      r :| GoodRegex(r) && Text(r) == pattern.text;
    }

    /** Whether the whole string matches; FullMatchIsWholeMatch says for which patterns. */
    static method FullMatch(str: CString, re: RE) returns (b: bool)
      requires re.Valid() && (str.Str? ==> IsCString(str.text) && |str.text| <= MAX_LENGTH)
      ensures b ==> re.isValid && str.Str?
      ensures re.isValid && str.Str? ==>
          forall r: Regex :: GoodRegex(r) && Text(r) == re.pattern.text ==> (b <==> Matches(FullRegex(r), str.text))
    {
      if !re.isValid {
        return false;
      }
      ghost var r := re.ReadsAs();
      FullPatternIsRegex(r);
      b := MatchRegexAnywhere(re.fullPattern, str, FullRegex(r));
      forall q: Regex | GoodRegex(q) && Text(q) == re.pattern.text
        ensures q == r
      {
        TextUnique(q, r);
      }
    }

    /** Whether some substring matches. */
    static method PartialMatch(str: CString, re: RE) returns (b: bool)
      requires re.Valid() && (str.Str? ==> IsCString(str.text) && |str.text| <= MAX_LENGTH)
      ensures b ==> re.isValid && str.Str?
      ensures re.isValid && str.Str? ==>
          forall r: Regex :: GoodRegex(r) && Text(r) == re.pattern.text ==> (b <==> Matches(r, str.text))
    {
      if !re.isValid {
        return false;
      }
      ghost var r := re.ReadsAs();
      b := MatchRegexAnywhere(re.pattern, str, r);
      forall q: Regex | GoodRegex(q) && Text(q) == re.pattern.text
        ensures q == r
      {
        TextUnique(q, r);
      }
    }
  }
}
