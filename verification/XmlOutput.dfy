/** How the XML report of gtest escapes attribute values and splits CDATA sections, and readers
    after XML 1.0 that get the data back. A char above 127 is a negative plain char. */
module XmlOutput {
  import opened Basics
  import opened Digits

  predicate IsNormalizableWhitespace(c: char) {
    c == 9 as char || c == 10 as char || c == 13 as char
  }

  predicate IsValidXmlCharacter(c: char) {
    IsNormalizableWhitespace(c) || 0x20 as char <= c < 0x80 as char
  }

  /** Two uppercase hexadecimal digits. */
  function FormatByte(c: char): string
    requires (c as int) < 0x100
  {
    [HexDigit(c as int / 16), HexDigit(c as int % 16)]
  }

  /** What one character turns into. */
  function EscapedChar(ch: char, isAttribute: bool): string {
    if ch == '<' then "&lt;"
    else if ch == '>' then "&gt;"
    else if ch == '&' then "&amp;"
    else if ch == '\'' then if isAttribute then "&apos;" else "'"
    else if ch == '\"' then if isAttribute then "&quot;" else "\""
    else if !IsValidXmlCharacter(ch) then ""
    else if isAttribute && IsNormalizableWhitespace(ch) then "&#x" + FormatByte(ch) + ";"
    else [ch]
  }

  function Escaped(str: string, isAttribute: bool): string {
    if str == "" then ""
    else Escaped(str[..|str| - 1], isAttribute) + EscapedChar(str[|str| - 1], isAttribute)
  }

  /** The characters with codes 9, 10, 13 and 32 to 127 are valid. */
  lemma ValidCodes(c: char)
    ensures IsValidXmlCharacter(c) <==> c as int in [9, 10, 13] || 32 <= c as int <= 127
  {
  }

  /** The five special characters and the white space that a reader would change. */
  const ENTITIES := map[60 := "&lt;", 62 := "&gt;", 38 := "&amp;"]
  const IN_ATTRIBUTES :=
    map[39 := "&apos;", 34 := "&quot;", 9 := "&#x09;", 10 := "&#x0A;", 13 := "&#x0D;"]

  /** What each code turns into. */
  lemma EscapedCodes(ch: char, isAttribute: bool)
    ensures EscapedChar(ch, isAttribute) ==
      var n := ch as int;
      if n in ENTITIES then ENTITIES[n]
      else if isAttribute && n in IN_ATTRIBUTES then IN_ATTRIBUTES[n]
      else if n in [9, 10, 13] || 32 <= n <= 127 then [ch]
      else ""
  {
  }

  /** Text is escaped piece by piece. */
  lemma {:induction false} EscapedInTwo(a: string, b: string, isAttribute: bool)
    ensures Escaped(a + b, isAttribute) == Escaped(a, isAttribute) + Escaped(b, isAttribute)
    decreases |b|
  {
    if b == "" {
      assert a + b == a;
      assert Escaped(a, isAttribute) + "" == Escaped(a, isAttribute);
    } else {
      var n := |b| - 1;
      assert (a + b)[..|a| + n] == a + b[..n];
      EscapedInTwo(a, b[..n], isAttribute);
      Assoc(Escaped(a, isAttribute), Escaped(b[..n], isAttribute), EscapedChar(b[n], isAttribute));
    }
  }

  method EscapeXml(str: string, isAttribute: bool) returns (m: string)
    ensures m == Escaped(str, isAttribute)
  {
    m := "";
    for i := 0 to |str|
      invariant m == Escaped(str[..i], isAttribute)
    {
      assert str[..i + 1][..i] == str[..i];
      m := m + EscapedChar(str[i], isAttribute);
    }
    assert str[..|str|] == str;
  }

  function ValidPart(str: string): string {
    if str == "" then ""
    else ValidPart(str[..|str| - 1]) + if IsValidXmlCharacter(str[|str| - 1]) then [str[|str| - 1]] else ""
  }

  method RemoveInvalidXmlCharacters(str: string) returns (output: string)
    ensures output == ValidPart(str)
  {
    output := "";
    for i := 0 to |str|
      invariant output == ValidPart(str[..i])
    {
      assert str[..i + 1][..i] == str[..i];
      if IsValidXmlCharacter(str[i]) {
        output := output + [str[i]];
      }
    }
    assert str[..|str|] == str;
  }

  // ---------- Reading: sections 3.3.3, 4.1 and 4.6 of XML 1.0 ----------

  /** The reference at the front, after its ampersand: its character and its length. */
  function Reference(s: string): Option<(char, nat)> {
    if "lt;" <= s then Some(('<', 3))
    else if "gt;" <= s then Some(('>', 3))
    else if "amp;" <= s then Some(('&', 4))
    else if "apos;" <= s then Some(('\'', 5))
    else if "quot;" <= s then Some(('\"', 5))
    else if |s| >= 5 && s[0] == '#' && s[1] == 'x' && IsHexDigit(s[2]) && IsHexDigit(s[3]) && s[4] == ';' then
      Some(((16 * HexValue(s[2]) + HexValue(s[3])) as char, 5))
    else None
  }

  /** The value of an attribute with this text between its quotes: references are replaced, and
      white space that stands there itself turns into spaces. */
  function AttributeValue(s: string): Option<string> {
    if s == "" then Some("")
    else if s[0] == '<' || s[0] == '\"' then None
    else if s[0] == '&' then
      match Reference(s[1..]) {
        case None => None
        case Some(r) => if r.1 < |s| then Prepend(r.0, AttributeValue(s[1 + r.1..])) else None
      }
    else Prepend(if IsNormalizableWhitespace(s[0]) then ' ' else s[0], AttributeValue(s[1..]))
  }

  function Follow(s: string, rest: Option<string>): Option<string> {
    match rest {
      case None => None
      case Some(t) => Some(s + t)
    }
  }

  lemma ReferenceBack(name: string, ch: char, u: string)
    requires name != "" && Reference(name + u) == Some((ch, |name|))
    ensures AttributeValue(("&" + name) + u) == Prepend(ch, AttributeValue(u))
  {
    var s := ("&" + name) + u;
    assert s[1..] == name + u;
    assert s[1 + |name|..] == u;
  }

  /** White space that stands there itself is lost, which is why it is written as references. */
  lemma BareWhitespaceIsLost(c: char)
    requires c as int in [9, 10, 13]
    ensures AttributeValue([c]) == Some(" ")
  {
    assert [c][1..] == "" && AttributeValue("") == Some("") && [' '] + "" == " ";
  }

  lemma WhitespaceBack(ch: char, u: string)
    requires IsNormalizableWhitespace(ch)
    ensures AttributeValue(EscapedChar(ch, true) + u) == Prepend(ch, AttributeValue(u))
  {
    HexDigitValue(ch as int / 16);
    HexDigitValue(ch as int % 16);
    var name := "#x" + FormatByte(ch) + ";";
    assert EscapedChar(ch, true) == "&" + name;
    var s := name + u;
    assert s[0] == '#' && s[1] == 'x' && s[2] == name[2] && s[3] == name[3] && s[4] == ';';
    ReferenceBack(name, ch, u);
  }

  lemma SpecialBack(ch: char, u: string)
    requires ch == '<' || ch == '>' || ch == '&' || ch == '\'' || ch == '\"'
    ensures AttributeValue(EscapedChar(ch, true) + u) == Prepend(ch, AttributeValue(u))
  {
    var name :=
      if ch == '<' then "lt;" else if ch == '>' then "gt;" else if ch == '&' then "amp;"
      else if ch == '\'' then "apos;" else "quot;";
    assert EscapedChar(ch, true) == "&" + name;
    assert name <= name + u && (name + u)[0] == name[0] && (name + u)[1] == name[1];
    ReferenceBack(name, ch, u);
  }

  /** An escaped character reads back, or to nothing if it is invalid. */
  lemma CharBack(ch: char, u: string)
    ensures AttributeValue(EscapedChar(ch, true) + u) ==
      if IsValidXmlCharacter(ch) then Prepend(ch, AttributeValue(u)) else AttributeValue(u)
  {
    if IsNormalizableWhitespace(ch) {
      WhitespaceBack(ch, u);
    } else if ch == '<' || ch == '>' || ch == '&' || ch == '\'' || ch == '\"' {
      SpecialBack(ch, u);
    } else if !IsValidXmlCharacter(ch) {
      assert "" + u == u;
    } else {
      assert ([ch] + u)[1..] == u;
    }
  }

  lemma {:induction false} AttributeBackBefore(str: string, u: string)
    ensures AttributeValue(Escaped(str, true) + u) == Follow(ValidPart(str), AttributeValue(u))
    decreases |str|
  {
    if str == "" {
      assert "" + u == u;
      assert AttributeValue(u).Some? ==> "" + AttributeValue(u).value == AttributeValue(u).value;
    } else {
      var before, ch := str[..|str| - 1], str[|str| - 1];
      var t := EscapedChar(ch, true);
      Assoc(Escaped(before, true), t, u);
      AttributeBackBefore(before, t + u);
      CharBack(ch, u);
      if AttributeValue(u).Some? {
        var v := AttributeValue(u).value;
        Assoc(ValidPart(before), [ch], v);
        assert ValidPart(before) + "" == ValidPart(before);
      }
    }
  }

  /** Escaped text has no line ends of its own. */
  lemma {:induction false} EscapedHasNoReturn(str: string)
    ensures '\r' !in Escaped(str, true)
  {
    if str != "" {
      EscapedHasNoReturn(str[..|str| - 1]);
      NoReturnIn(str[|str| - 1]);
    }
  }

  lemma NoReturnIn(ch: char)
    ensures '\r' !in EscapedChar(ch, true)
  {
    if IsNormalizableWhitespace(ch) {
      HexDigitValue(ch as int / 16);
      HexDigitValue(ch as int % 16);
    }
  }

  /** The value of an escaped attribute is the string without its invalid characters, also for a
      reader that normalizes line ends first. */
  lemma AttributeBack(str: string)
    ensures AttributeValue(Escaped(str, true)) == Some(ValidPart(str))
    ensures AttributeValue(LineEnds(Escaped(str, true))) == Some(ValidPart(str))
  {
    AttributeBackBefore(str, "");
    assert Escaped(str, true) + "" == Escaped(str, true);
    assert ValidPart(str) + "" == ValidPart(str);
    EscapedHasNoReturn(str);
    LineEndsIff(Escaped(str, true));
  }

  /** Valid characters are all that is kept, in their order and as often. */
  lemma {:induction false} ValidPartIsAll(str: string)
    ensures ValidPart(str) == str <==> forall i :: 0 <= i < |str| ==> IsValidXmlCharacter(str[i])
    ensures |ValidPart(str)| <= |str|
  {
    if str != "" {
      var before := str[..|str| - 1];
      ValidPartIsAll(before);
      assert str == before + [str[|str| - 1]];
      assert forall i :: 0 <= i < |before| ==> before[i] == str[i];
    }
  }

  // ---------- CDATA sections ----------

  const CDATA_BEGIN := "<![CDATA["
  const BETWEEN := "]]>]]&gt;<![CDATA["

  predicate Closes(s: string) {
    |s| >= 3 && s[0] == ']' && s[1] == ']' && s[2] == '>'
  }

  /** Where the first closing mark is, or the end: strstr. */
  function FindClose(s: string): (n: nat)
    ensures n <= |s|
    ensures n < |s| ==> Closes(s[n..])
  {
    if s == "" || Closes(s) then 0 else 1 + FindClose(s[1..])
  }

  /** Data cut at its closing marks, with something else between the parts and at the end. */
  function Cut(data: string, between: string, end: string): string
    decreases |data|
  {
    var n := FindClose(data);
    if n == |data| then data + end else data[..n] + (between + Cut(data[n + 3..], between, end))
  }

  /** What is written after the first CDATA_BEGIN for this much data. */
  function Sections(data: string): string {
    Cut(data, BETWEEN, "]]>")
  }

  lemma CutIs(segment: string, later: string, between: string, end: string)
    requires FindClose(segment) == |segment|
    ensures Cut(segment, between, end) == segment + end
    ensures Cut(segment + ("]]>" + later), between, end) == segment + (between + Cut(later, between, end))
  {
    hide FindClose;
    SegmentEnds(segment, "]]>" + later);
    Slices(segment, "]]>", later);
  }

  /** Up to its first closing mark, data is written as it is; then the section is closed, the
      mark is written with a reference, and another section begins. */
  lemma SectionsAre(segment: string, later: string)
    requires FindClose(segment) == |segment|
    ensures Sections(segment) == segment + "]]>"
    ensures Sections(segment + ("]]>" + later)) == segment + ("]]>]]&gt;<![CDATA[" + Sections(later))
  {
    hide FindClose, Cut;
    CutIs(segment, later, BETWEEN, "]]>");
  }

  /** A segment without a closing mark has nowhere three such characters in a row. */
  lemma {:induction false} NoCloseMeans(s: string)
    ensures FindClose(s) == |s| <==>
      forall i :: 0 <= i < |s| - 2 ==> !(s[i] == ']' && s[i + 1] == ']' && s[i + 2] == '>')
  {
    if s != "" {
      NoCloseMeans(s[1..]);
      assert forall i :: 0 < i < |s| ==> s[i] == s[1..][i - 1];
    }
  }

  method OutputXmlCDataSection(data: string) returns (stream: string)
    ensures stream == CDATA_BEGIN + Sections(data)
  {
    stream := WriteSections(CDATA_BEGIN, data, BETWEEN, "]]>");
  }

  /** The loop over the segments of the data, for any strings to write between and after them. */
  method WriteSections(start: string, data: string, between: string, end: string) returns (stream: string)
    ensures stream == start + Cut(data, between, end)
  {
    var segment := data;
    stream := start;
    while true
      invariant stream + Cut(segment, between, end) == start + Cut(data, between, end)
      decreases |segment|
    {
      var next := FindClose(segment);
      if next == |segment| {
        Assoc(stream, segment, end);
        stream := stream + segment;
        break;
      }
      Assoc(stream, segment[..next], between + Cut(segment[next + 3..], between, end));
      Assoc(stream + segment[..next], between, Cut(segment[next + 3..], between, end));
      stream := stream + segment[..next];
      stream := stream + between;
      segment := segment[next + 3..];
    }
    stream := stream + end;
  }

  predicate IsBegin(begin: string) {
    begin != "" && begin[0] == '<'
  }

  /** The character data of some content (sections 2.4 and 2.7): CDATA sections up to their first
      closing mark, references, and other characters but no closing mark outside of a section. */
  function Content(begin: string, s: string): Option<string>
    requires IsBegin(begin)
    decreases |s|
  {
    if s == "" then Some("")
    else if begin <= s then InSection(begin, s[|begin|..])
    else if s[0] == '<' || Closes(s) then None
    else if s[0] == '&' then
      match Reference(s[1..]) {
        case None => None
        case Some(r) => if r.1 < |s| then Prepend(r.0, Content(begin, s[1 + r.1..])) else None
      }
    else Prepend(s[0], Content(begin, s[1..]))
  }

  /** The rest of the content from inside a CDATA section. */
  function InSection(begin: string, t: string): Option<string>
    requires IsBegin(begin)
    decreases |t|
  {
    var n := FindClose(t);
    if n == |t| then None else Follow(t[..n], Content(begin, t[n + 3..]))
  }

  /** A closing mark after a segment does not make one that starts earlier. */
  lemma NotClosedYet(segment: string, t: string)
    requires segment != "" && !Closes(segment) && Closes(t)
    ensures !Closes(segment + t)
  {
    var s := segment + t;
    assert s[0] == segment[0];
    if |segment| == 1 {
      assert s[1] == t[0] && s[2] == t[1];
    } else if |segment| == 2 {
      assert s[1] == segment[1] && s[2] == t[0];
    } else {
      assert s[1] == segment[1] && s[2] == segment[2];
    }
  }

  /** A segment without a closing mark ends at the first one written after it. */
  lemma {:induction false} SegmentEnds(segment: string, t: string)
    requires FindClose(segment) == |segment| && Closes(t)
    ensures FindClose(segment + t) == |segment|
  {
    if segment == "" {
      assert segment + t == t;
    } else {
      NotClosedYet(segment, t);
      SegmentEnds(segment[1..], t);
      assert (segment + t)[1..] == segment[1..] + t;
    }
  }

  lemma ContentOfSection(begin: string, t: string)
    requires IsBegin(begin)
    ensures Content(begin, begin + t) == InSection(begin, t)
  {
    assert (begin + t)[|begin|..] == t;
  }

  lemma Slices(a: string, mark: string, b: string)
    ensures (a + (mark + b))[..|a|] == a && (a + (mark + b))[|a| + |mark|..] == b
  {
  }

  lemma SectionRead(begin: string, segment: string, rest: string)
    requires IsBegin(begin) && FindClose(segment) == |segment|
    ensures Content(begin, begin + (segment + ("]]>" + rest))) == Follow(segment, Content(begin, rest))
  {
    SegmentEnds(segment, "]]>" + rest);
    Slices(segment, "]]>", rest);
    ContentOfSection(begin, segment + ("]]>" + rest));
  }

  lemma {:induction false} NoCloseBefore(s: string)
    ensures FindClose(s[..FindClose(s)]) == FindClose(s)
  {
    if s != "" && !Closes(s) {
      var n := FindClose(s[1..]);
      var t := s[..1 + n];
      NoCloseBefore(s[1..]);
      assert t[1..] == s[1..][..n];
      assert !Closes(t);
    } else {
      assert s[..0] == "";
    }
  }

  lemma PlainRead(begin: string, c: char, u: string)
    requires IsBegin(begin) && c != '<' && c != '&' && !Closes([c] + u)
    ensures Content(begin, [c] + u) == Prepend(c, Content(begin, u))
  {
    assert ([c] + u)[0] == c && ([c] + u)[1..] == u;
  }

  lemma GreaterRead(begin: string, t: string)
    requires IsBegin(begin)
    ensures Content(begin, "&gt;" + t) == Prepend('>', Content(begin, t))
  {
    var s := "&gt;" + t;
    assert s[1..] == "gt;" + t && s[4..] == t;
    assert "gt;" <= "gt;" + t && ("gt;" + t)[0] == 'g';
    assert s[0] == '&';
  }

  lemma TwoBracketsRead(begin: string, u: string)
    requires IsBegin(begin) && u != "" && u[0] == '&'
    ensures Content(begin, [']'] + ([']'] + u)) == Prepend(']', Prepend(']', Content(begin, u)))
  {
    PlainRead(begin, ']', u);
    assert ([']'] + ([']'] + u))[2] == '&';
    PlainRead(begin, ']', [']'] + u);
  }

  /** Between two sections stands the closing mark, its last character as a reference. */
  lemma BetweenRead(begin: string, t: string)
    requires IsBegin(begin)
    ensures Content(begin, "]]&gt;" + t) == Prepend(']', Prepend(']', Prepend('>', Content(begin, t))))
  {
    GreaterRead(begin, t);
    TwoBracketsRead(begin, "&gt;" + t);
    assert "]]&gt;" + t == [']'] + ([']'] + ("&gt;" + t));
  }

  lemma CutAt(s: string, n: nat, a: char, b: char, c: char)
    requires n + 2 < |s| && s[n] == a && s[n + 1] == b && s[n + 2] == c
    ensures s == s[..n] + ([a, b, c] + s[n + 3..])
  {
  }

  lemma Three(a: char, b: char, c: char, t: string)
    ensures Prepend(a, Prepend(b, Prepend(c, Some(t)))) == Some([a, b, c] + t)
  {
    assert [a] + ([b] + ([c] + t)) == [a, b, c] + t;
  }

  /** The first segment, the closing mark and what came later make up the data. */
  lemma FirstRead(data: string, later: string)
    requires FindClose(data) < |data| && later == data[FindClose(data) + 3..]
    ensures Follow(data[..FindClose(data)], Prepend(']', Prepend(']', Prepend('>', Some(later))))) == Some(data)
  {
    var n := FindClose(data);
    assert data[n..][0] == ']' && data[n..][1] == ']' && data[n..][2] == '>';
    CutAt(data, n, ']', ']', '>');
    Three(']', ']', '>', later);
  }

  /** What is written between two segments. */
  function Between(begin: string): string {
    "]]>" + ("]]&gt;" + begin)
  }

  lemma FirstWritten(begin: string, segment: string, t: string)
    ensures segment + (Between(begin) + t) == segment + ("]]>" + ("]]&gt;" + (begin + t)))
  {
    Assoc("]]&gt;", begin, t);
    Assoc("]]>", "]]&gt;" + begin, t);
  }

  lemma CutStep(begin: string, data: string, later: string)
    requires IsBegin(begin) && FindClose(data) < |data| && later == data[FindClose(data) + 3..]
    requires Content(begin, begin + Cut(later, Between(begin), "]]>")) == Some(later)
    ensures Content(begin, begin + Cut(data, Between(begin), "]]>")) == Some(data)
  {
    var segment, t := data[..FindClose(data)], Cut(later, Between(begin), "]]>");
    NoCloseBefore(data);
    FirstWritten(begin, segment, t);
    SectionRead(begin, segment, "]]&gt;" + (begin + t));
    BetweenRead(begin, begin + t);
    FirstRead(data, later);
  }

  lemma {:induction false} CutBack(begin: string, data: string)
    requires IsBegin(begin)
    ensures Content(begin, begin + Cut(data, Between(begin), "]]>")) == Some(data)
    decreases |data|
  {
    var n := FindClose(data);
    if n == |data| {
      assert "]]>" + "" == "]]>";
      SectionRead(begin, data, "");
      assert data + "" == data;
    } else {
      CutBack(begin, data[n + 3..]);
      CutStep(begin, data, data[n + 3..]);
    }
  }

  // ---------- Line ends: section 2.11 of XML 1.0 ----------

  /** What a reader makes of a text before anything else: a carriage return and the newline after
      it are one newline, and so is a carriage return alone. */
  function LineEnds(s: string): (t: string)
    ensures |t| <= |s| && '\r' !in t
  {
    if s == "" then ""
    else if s[0] == '\r' && |s| > 1 && s[1] == '\n' then LineEnds(s[1..])
    else [if s[0] == '\r' then '\n' else s[0]] + LineEnds(s[1..])
  }

  lemma {:induction false} LineEndsIff(s: string)
    ensures LineEnds(s) == s <==> '\r' !in s
  {
    if s != "" && '\r' !in s {
      assert s == [s[0]] + s[1..];
      LineEndsIff(s[1..]);
    }
  }

  lemma {:induction false} LineEndsJoin(a: string, b: string)
    requires (a != "" ==> a[|a| - 1] != '\r') || b == "" || b[0] != '\n'
    ensures LineEnds(a + b) == LineEnds(a) + LineEnds(b)
  {
    if a == "" {
      assert a + b == b;
    } else {
      assert (a + b)[0] == a[0] && (a + b)[1..] == a[1..] + b;
      assert |a| > 1 ==> (a + b)[1] == a[1];
      LineEndsJoin(a[1..], b);
    }
  }

  lemma FirstKept(s: string)
    requires s != ""
    ensures LineEnds(s) != "" && LineEnds(s)[0] == if s[0] == '\r' then '\n' else s[0]
    ensures s[0] != '\r' ==> LineEnds(s)[1..] == LineEnds(s[1..])
  {
    if s[0] == '\r' && |s| > 1 && s[1] == '\n' {
      assert s[1..][0] == '\n';
    }
  }

  lemma ClosesKept(s: string)
    ensures Closes(LineEnds(s)) <==> Closes(s)
  {
    hide LineEnds;
    if s != "" {
      FirstKept(s);
      if |s| > 1 {
        FirstKept(s[1..]);
        if |s| > 2 {
          FirstKept(s[1..][1..]);
        }
      }
    }
  }

  lemma {:induction false} NoCloseKept(s: string)
    requires FindClose(s) == |s|
    ensures FindClose(LineEnds(s)) == |LineEnds(s)|
  {
    if s != "" {
      ClosesKept(s);
      NoCloseKept(s[1..]);
      if LineEnds(s) != LineEnds(s[1..]) {
        assert LineEnds(s)[1..] == LineEnds(s[1..]);
      }
    }
  }

  /** A mark without carriage returns stays where it is. */
  lemma MarkKept(a: string, mark: string, b: string)
    requires mark != "" && '\r' !in mark && mark[0] != '\n'
    ensures LineEnds(a + (mark + b)) == LineEnds(a) + (mark + LineEnds(b))
  {
    assert mark[|mark| - 1] in mark;
    LineEndsJoin(a, mark + b);
    LineEndsJoin(mark, b);
    LineEndsIff(mark);
  }

  lemma CutWith(segment: string, later: string, between: string, end: string)
    requires FindClose(segment) == |segment|
    ensures Cut(segment + ("]]>" + later), between, end) == segment + (between + Cut(later, between, end))
  {
    SegmentEnds(segment, "]]>" + later);
    Slices(segment, "]]>", later);
  }

  /** Line ends are the same whether they are taken before or after the data is cut. */
  lemma {:induction false} LineEndsOfCut(data: string, between: string, end: string)
    requires between != "" && '\r' !in between && between[0] != '\n'
    requires end != "" && '\r' !in end && end[0] != '\n'
    ensures LineEnds(Cut(data, between, end)) == Cut(LineEnds(data), between, end)
    decreases |data|
  {
    hide LineEnds;
    var n := FindClose(data);
    if n == |data| {
      NoCloseKept(data);
      LineEndsJoin(data, end);
      LineEndsIff(end);
    } else {
      var segment, later := data[..n], data[n + 3..];
      assert data[n..][0] == ']' && data[n..][1] == ']' && data[n..][2] == '>';
      CutAt(data, n, ']', ']', '>');
      NoCloseBefore(data);
      NoCloseKept(segment);
      MarkKept(segment, "]]>", later);
      MarkKept(segment, between, Cut(later, between, end));
      CutWith(LineEnds(segment), LineEnds(later), between, end);
      LineEndsOfCut(later, between, end);
    }
  }

  lemma Marks()
    ensures BETWEEN == Between(CDATA_BEGIN) && BETWEEN[0] != '\n'
    ensures '\r' !in CDATA_BEGIN && '\r' !in BETWEEN
  {
  }

  lemma CutBackNormalized(begin: string, data: string)
    requires IsBegin(begin) && '\r' !in begin
    requires Between(begin) != "" && '\r' !in Between(begin) && Between(begin)[0] != '\n'
    ensures Content(begin, LineEnds(begin + Cut(data, Between(begin), "]]>"))) == Some(LineEnds(data))
  {
    hide Content, LineEnds, Cut, Between;
    CutBack(begin, LineEnds(data));
    LineEndsOfCut(data, Between(begin), "]]>");
    assert begin[|begin| - 1] in begin;
    LineEndsJoin(begin, Cut(data, Between(begin), "]]>"));
    LineEndsIff(begin);
  }

  /** Data written as CDATA sections reads back, but for its line ends: exactly the data without
      a carriage return comes back from a reader that normalizes them. */
  lemma SectionsBack(data: string)
    ensures Content(CDATA_BEGIN, CDATA_BEGIN + Sections(data)) == Some(data)
    ensures Content(CDATA_BEGIN, LineEnds(CDATA_BEGIN + Sections(data))) == Some(LineEnds(data))
    ensures Content(CDATA_BEGIN, LineEnds(CDATA_BEGIN + Sections(data))) == Some(data) <==> '\r' !in data
  {
    hide Content, LineEnds, Cut, Between;
    Marks();
    CutBack(CDATA_BEGIN, data);
    CutBackNormalized(CDATA_BEGIN, data);
    LineEndsIff(data);
  }
}
