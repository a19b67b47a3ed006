/** The simple regular expressions of gtest-port.cc: their grammar, the validator's scan, and
    the proof that the scan accepts exactly the texts of the grammar. */
module RegexSyntax {
  import opened Basics

  /** The 32 punctuation marks, which are four ranges of codes. */
  predicate IsAsciiPunct(c: char) {
    '!' <= c <= '/' || ':' <= c <= '@' || '[' <= c <= '`' || '{' <= c <= '~'
  }

  predicate IsRepeat(c: char) {
    c == '?' || c == '*' || c == '+'
  }

  predicate IsAsciiWhiteSpace(c: char) {
    c == ' ' || c == 12 as char || c == '\n' || c == '\r' || c == '\t' || c == 11 as char
  }

  predicate IsAsciiWordChar(c: char) {
    'a' <= c <= 'z' || 'A' <= c <= 'Z' || '0' <= c <= '9' || c == '_'
  }

  predicate IsClassLetter(c: char) {
    match c
    case 'd' | 'D' | 'f' | 'n' | 'r' | 's' | 'S' | 't' | 'v' | 'w' | 'W' => true
    case _ => false
  }

  predicate IsValidEscape(c: char) {
    IsAsciiPunct(c) || IsClassLetter(c)
  }

  predicate IsUnsupported(c: char) {
    c == '(' || c == ')' || c == '[' || c == ']' || c == '{' || c == '}' || c == '|'
  }

  /** Whether an atom matches a character. */
  predicate AtomMatchesChar(escaped: bool, p: char, c: char) {
    if escaped then
      match p
      case 'd' => IsDigit(c)
      case 'D' => !IsDigit(c)
      case 'f' => c == 12 as char
      case 'n' => c == '\n'
      case 'r' => c == '\r'
      case 's' => IsAsciiWhiteSpace(c)
      case 'S' => !IsAsciiWhiteSpace(c)
      case 't' => c == '\t'
      case 'v' => c == 11 as char
      case 'w' => IsAsciiWordChar(c)
      case 'W' => !IsAsciiWordChar(c)
      case _ => IsAsciiPunct(p) && p == c
    else
      (p == '.' && c != '\n') || p == c
  }

  // ---------- The grammar ----------

  datatype Atom = Atom(escaped: bool, c: char)

  datatype Repeat = Once | Optional | Star | Plus

  datatype Items = Nil | Cons(atom: Atom, repeat: Repeat, rest: Items)

  /** A regex: an anchor at the start, repeated atoms, an anchor at the end. */
  datatype Regex = Regex(start: bool, items: Items, end: bool)

  /** A plain atom is any character but the ones with a meaning of their own. */
  predicate GoodAtom(a: Atom) {
    a.c != '\0'
    && if a.escaped then IsValidEscape(a.c)
       else a.c != '\\' && a.c != '^' && a.c != '$' && !IsUnsupported(a.c) && !IsRepeat(a.c)
  }

  predicate GoodItems(items: Items) {
    items.Cons? ==> GoodAtom(items.atom) && GoodItems(items.rest)
  }

  predicate GoodRegex(r: Regex) {
    GoodItems(r.items)
  }

  function AtomText(a: Atom): string {
    if a.escaped then ['\\', a.c] else [a.c]
  }

  function RepeatText(r: Repeat): string {
    match r
    case Once => ""
    case Optional => "?"
    case Star => "*"
    case Plus => "+"
  }

  function TailText(items: Items, end: bool): string {
    match items
    case Nil => if end then "$" else ""
    case Cons(a, r, rest) => AtomText(a) + (RepeatText(r) + TailText(rest, end))
  }

  function Text(r: Regex): string {
    (if r.start then "^" else "") + TailText(r.items, r.end)
  }

  // ---------- The validator ----------

  /** The scan of the validator from some position: whether that is the first one, and whether
      a repetition may follow. */
  predicate Scan(t: string, first: bool, repeatable: bool)
    decreases |t|
  {
    if t == "" then true
    else if t[0] == '\\' then |t| >= 2 && IsValidEscape(t[1]) && Scan(t[2..], false, true)
    else
      && (t[0] == '^' ==> first)
      && (t[0] == '$' ==> |t| == 1)
      && !IsUnsupported(t[0])
      && (IsRepeat(t[0]) ==> repeatable)
      && Scan(t[1..], false, t[0] != '^' && t[0] != '$' && !IsRepeat(t[0]))
  }

  /** The character at i, or the terminator. */
  function CharAt(s: string, i: nat): char {
    if i < |s| then s[i] else '\0'
  }

  /** A C string has no terminator inside. */
  predicate IsCString(s: string) {
    '\0' !in s
  }

  datatype CString = Null | Str(text: string)

  method ValidateRegex(regex: CString) returns (isValid: bool)
    requires regex.Str? ==> IsCString(regex.text)
    ensures isValid <==> regex.Str? && Scan(regex.text, true, false)
  {
    if regex.Null? {
      return false;
    }
    var s := regex.text;
    assert forall k :: 0 <= k < |s| ==> s[k] != '\0';
    isValid := true;
    var prevRepeatable := false;
    var i := 0;
    while CharAt(s, i) != '\0'
      invariant i <= |s|
      invariant Scan(s, true, false) <==> isValid && Scan(s[i..], i == 0, prevRepeatable)
      decreases |s| - i
    {
      assert i < |s| && s[i..] != "" && s[i..][1..] == s[i + 1..];
      assert i + 1 < |s| ==> s[i..][1] == s[i + 1] && s[i..][2..] == s[i + 2..];
      if s[i] == '\\' {
        i := i + 1;
        if CharAt(s, i) == '\0' {
          return false;
        }
        if !IsValidEscape(s[i]) {
          isValid := false;
        }
        prevRepeatable := true;
      } else {
        var ch := s[i];
        if ch == '^' && i > 0 {
          isValid := false;
        } else if ch == '$' && CharAt(s, i + 1) != '\0' {
          isValid := false;
        } else if IsUnsupported(ch) {
          isValid := false;
        } else if IsRepeat(ch) && !prevRepeatable {
          isValid := false;
        }
        prevRepeatable := ch != '^' && ch != '$' && !IsRepeat(ch);
      }
      i := i + 1;
    }
  }

  // ---------- The validator against the grammar ----------

  /** Where a repetition may follow, one character of it may come first. */
  lemma ScanAfterAtom(r: Repeat, u: string)
    requires Scan(u, false, false)
    ensures Scan(RepeatText(r) + u, false, true)
  {
    match r
    case Once =>
      assert RepeatText(r) + u == u;
      assert u != "" ==> !IsRepeat(u[0]);
    case _ =>
      assert (RepeatText(r) + u)[1..] == u;
  }

  lemma {:induction false} TailScans(items: Items, end: bool)
    requires GoodItems(items)
    ensures Scan(TailText(items, end), false, false)
    ensures TailText(items, end) != "" ==> TailText(items, end)[0] != '^'
  {
    match items
    case Nil =>
    case Cons(a, r, rest) =>
      var u := TailText(rest, end);
      TailScans(rest, end);
      ScanAfterAtom(r, u);
      if a.escaped {
        assert TailText(items, end)[2..] == RepeatText(r) + u;
      } else {
        assert TailText(items, end)[1..] == RepeatText(r) + u;
      }
  }

  function RepeatOf(c: char): Repeat
    requires IsRepeat(c)
  {
    if c == '?' then Optional else if c == '*' then Star else Plus
  }

  /** The repetition after an atom, and what follows it. */
  lemma SplitRepeat(u: string) returns (r: Repeat, v: string)
    requires Scan(u, false, true)
    ensures Scan(v, false, false) && u == RepeatText(r) + v && |v| <= |u|
  {
    if u != "" && IsRepeat(u[0]) {
      r, v := RepeatOf(u[0]), u[1..];
      assert u == [u[0]] + v;
    } else {
      r, v := Once, u;
      assert RepeatText(Once) + u == u;
    }
  }

  lemma {:induction false} ScannedTail(t: string) returns (items: Items, end: bool)
    requires IsCString(t) && Scan(t, false, false)
    ensures GoodItems(items) && TailText(items, end) == t
    decreases |t|
  {
    if t == "" {
      return Nil, false;
    }
    if t[0] == '$' {
      assert t == "$";
      return Nil, true;
    }
    var escaped := t[0] == '\\';
    var a := if escaped then Atom(true, t[1]) else Atom(false, t[0]);
    assert a.c in t;
    var u := if escaped then t[2..] else t[1..];
    assert t == AtomText(a) + u;
    var r, v := SplitRepeat(u);
    assert IsCString(v) by {
      assert forall c :: c in v ==> c in u;
      assert forall c :: c in u ==> c in t;
    }
    var rest;
    rest, end := ScannedTail(v);
    items := Cons(a, r, rest);
  }

  /** The validator accepts exactly the grammar. */
  lemma ValidIffGrammar(s: string)
    requires IsCString(s)
    ensures Scan(s, true, false) <==> exists r: Regex :: GoodRegex(r) && Text(r) == s
  {
    if Scan(s, true, false) {
      if s != "" && s[0] == '^' {
        assert forall c :: c in s[1..] ==> c in s;
        var items, end := ScannedTail(s[1..]);
        assert Text(Regex(true, items, end)) == s;
      } else {
        var items, end := ScannedTail(s);
        assert Text(Regex(false, items, end)) == s;
      }
    }
    if exists r: Regex :: GoodRegex(r) && Text(r) == s {
      var r: Regex :| GoodRegex(r) && Text(r) == s;
      TextScans(r);
    }
  }

  lemma TextScans(r: Regex)
    requires GoodRegex(r)
    ensures Scan(Text(r), true, false)
  {
    var t := TailText(r.items, r.end);
    TailScans(r.items, r.end);
    if r.start {
      AnchorScans(t);
      assert Text(r) == "^" + t;
    } else {
      assert Text(r) == t;
      AnywhereScans(t);
    }
  }

  lemma AnchorScans(t: string)
    requires Scan(t, false, false)
    ensures Scan("^" + t, true, false)
  {
    var s := "^" + t;
    assert s[0] == '^' && s[1..] == t;
  }

  lemma AnywhereScans(t: string)
    requires Scan(t, false, false)
    ensures Scan(t, true, false)
  {
  }
}
