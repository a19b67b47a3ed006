/** Texts cut at a delimiter and joined again: the fields of a text, none of which has the
    delimiter, are the only texts without it that give the text when they are joined.  The filters
    use this for their patterns, which stand between colons, and the internal flag of a death test
    for its fields, which stand between bars. */
module Splitting {

  /** The part of a text before the first c. */
  function Before(s: string, c: char): (r: string)
    ensures |r| <= |s| && r == s[..|r|] && c !in r
    ensures |r| < |s| ==> s[|r|] == c
  {
    if s == "" || s[0] == c then "" else [s[0]] + Before(s[1..], c)
  }

  /** The parts of a text between its delimiters. */
  function Fields(s: string, c: char): (fields: seq<string>)
    ensures fields != []
    decreases |s|
  {
    var first := Before(s, c);
    if |first| == |s| then [first] else [first] + Fields(s[|first| + 1..], c)
  }

  function Joined(fields: seq<string>, c: char): string
    requires fields != []
  {
    if |fields| == 1 then fields[0] else fields[0] + ([c] + Joined(fields[1..], c))
  }

  ghost predicate Free(fields: seq<string>, c: char) {
    forall i :: 0 <= i < |fields| ==> c !in fields[i]
  }

  lemma {:induction false} BeforeIs(a: string, c: char, b: string)
    requires c !in a
    ensures Before(a + ([c] + b), c) == a
  {
    var s := a + ([c] + b);
    if a != "" {
      assert s[1..] == a[1..] + ([c] + b);
      BeforeIs(a[1..], c, b);
    }
  }

  lemma {:induction false} BeforeAll(a: string, c: char)
    requires c !in a
    ensures Before(a, c) == a
  {
    if a != "" {
      BeforeAll(a[1..], c);
    }
  }

  lemma FieldsCons(a: string, rest: string, c: char)
    requires c !in a
    ensures Fields(a + ([c] + rest), c) == [a] + Fields(rest, c)
  {
    BeforeIs(a, c, rest);
    assert (a + ([c] + rest))[|a| + 1..] == rest;
  }

  lemma FieldsOne(a: string, c: char)
    requires c !in a
    ensures Fields(a, c) == [a]
  {
    BeforeAll(a, c);
  }

  lemma LastField(s: string, c: char)
    requires |Before(s, c)| == |s|
    ensures Fields(s, c) == [s]
  {
    assert s[..|s|] == s;
  }

  lemma JoinedCons(a: string, rest: seq<string>, c: char)
    requires rest != []
    ensures Joined([a] + rest, c) == a + ([c] + Joined(rest, c))
  {
    assert ([a] + rest)[1..] == rest;
  }

  /** Joining the fields of a text gives the text back, and no field has a delimiter. */
  lemma {:induction false} FieldsJoin(s: string, c: char)
    ensures Joined(Fields(s, c), c) == s && Free(Fields(s, c), c)
    decreases |s|
  {
    var first := Before(s, c);
    if |first| < |s| {
      var rest := s[|first| + 1..];
      FieldsJoin(rest, c);
      JoinedCons(first, Fields(rest, c), c);
      assert s == first + ([c] + rest);
    }
  }

  /** Splitting what was joined gives the fields back. */
  lemma {:induction false} JoinedFields(fields: seq<string>, c: char)
    requires fields != [] && Free(fields, c)
    ensures Fields(Joined(fields, c), c) == fields
    decreases |fields|
  {
    hide Fields, Before;
    assert c !in fields[0];
    if |fields| == 1 {
      FieldsOne(fields[0], c);
    } else {
      JoinedFields(fields[1..], c);
      FieldsCons(fields[0], Joined(fields[1..], c), c);
      assert fields == [fields[0]] + fields[1..];
    }
  }
}
