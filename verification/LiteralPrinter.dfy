/** How gtest-printers.cc prints strings as C++ string literals, and a C++ lexer that reads the
    literals back.  The lexer takes octal and hexadecimal escapes as far as they go and joins
    literals that stand next to each other, which is what the printer has to reckon with where a
    digit follows an escape. */
module LiteralPrinter {
  import opened Basics
  import opened Digits

  /** The code of a character: unsigned char for narrow strings, wchar_t for wide ones. */
  type Code = nat

  datatype CharFormat = AsIs | HexEscape | SpecialEscape

  datatype Width = Narrow | Wide

  function QuoteBegin(w: Width): string {
    if w.Narrow? then "\"" else "L\""
  }

  /** The codes a character of this width has. */
  predicate Fits(w: Width, c: Code) {
    c < if w.Narrow? then 0x100 else 0x1_0000_0000
  }

  predicate FitsAll(w: Width, s: seq<Code>) {
    forall i :: 0 <= i < |s| ==> Fits(w, s[i])
  }

  predicate IsXDigit(c: Code) {
    '0' as int <= c <= '9' as int || 'a' as int <= c <= 'f' as int || 'A' as int <= c <= 'F' as int
  }

  predicate IsPrintableAscii(c: Code) {
    0x20 <= c <= 0x7E
  }

  /** A character as part of a character literal, and how it was formatted. */
  function CharLiteral(c: Code): (string, CharFormat) {
    if c == 0 then ("\\0", SpecialEscape)
    else if c == 39 then ("\\'", SpecialEscape)
    else if c == 92 then ("\\\\", SpecialEscape)
    else if c == 7 then ("\\a", SpecialEscape)
    else if c == 8 then ("\\b", SpecialEscape)
    else if c == 12 then ("\\f", SpecialEscape)
    else if c == 10 then ("\\n", SpecialEscape)
    else if c == 13 then ("\\r", SpecialEscape)
    else if c == 9 then ("\\t", SpecialEscape)
    else if c == 11 then ("\\v", SpecialEscape)
    else if IsPrintableAscii(c) then ([c as char], AsIs)
    else ("\\x" + HexText(c), HexEscape)
  }

  /** A character as part of a string literal, and how it was formatted. */
  function StringChar(c: Code): (string, CharFormat) {
    if c == 39 then ("'", AsIs)
    else if c == 34 then ("\\\"", SpecialEscape)
    else CharLiteral(c)
  }

  /** The text of each code: the controls from 7 to 13 have letters, the backslash and the double
      quote are escaped, other printable characters stand for themselves and the rest is
      hexadecimal. */
  lemma StringCharIs(c: Code)
    ensures StringChar(c).0 ==
      if c == 0 then "\\0"
      else if 7 <= c <= 13 then ['\\', "abtnvfr"[c - 7]]
      else if c == 34 || c == 92 then ['\\', c as char]
      else if 32 <= c <= 126 then [c as char]
      else "\\x" + HexText(c)
    ensures CharLiteral(c).0 == if c == 34 then "\"" else if c == 39 then "\\'" else StringChar(c).0
    ensures StringChar(c).1 == HexEscape <==> (c < 32 && c != 0 && !(7 <= c <= 13)) || c > 126
  {
  }

  /** What separates a character from the one before. */
  function Break(w: Width, c: Code, isPreviousHex: bool): string {
    if isPreviousHex && IsXDigit(c) then "\" " + QuoteBegin(w) else ""
  }

  /** A hexadecimal digit after a hexadecimal escape starts a literal of its own. */
  lemma BreakIs(w: Width, c: Code, isPreviousHex: bool)
    ensures Break(w, c, isPreviousHex) ==
      if !(isPreviousHex && (48 <= c <= 57 || 65 <= c <= 70 || 97 <= c <= 102)) then ""
      else if w == Narrow then "\" \"" else "\" L\""
  {
  }

  /** The printed characters from some index on. */
  function Printed(w: Width, s: seq<Code>, isPreviousHex: bool): string {
    if s == [] then ""
    else Break(w, s[0], isPreviousHex) + (StringChar(s[0]).0 + Printed(w, s[1..], StringChar(s[0]).1 == HexEscape))
  }

  lemma PrintedStep(w: Width, before: string, s: seq<Code>, index: nat, isPreviousHex: bool)
    requires index < |s|
    ensures before + Printed(w, s[index..], isPreviousHex) ==
      ((before + Break(w, s[index], isPreviousHex)) + StringChar(s[index]).0) +
      Printed(w, s[index + 1..], StringChar(s[index]).1 == HexEscape)
  {
    assert s[index..][1..] == s[index + 1..];
    var text, later := StringChar(s[index]).0, Printed(w, s[index + 1..], StringChar(s[index]).1 == HexEscape);
    Assoc(before, Break(w, s[index], isPreviousHex), text + later);
    Assoc(before + Break(w, s[index], isPreviousHex), text, later);
  }

  method PrintCharsAsStringTo(w: Width, begin: seq<Code>) returns (os: string)
    ensures os == QuoteBegin(w) + Printed(w, begin, false) + "\""
  {
    os := QuoteBegin(w);
    var isPreviousHex := false;
    ghost var all := QuoteBegin(w) + Printed(w, begin, false);
    assert begin[0..] == begin;
    for index := 0 to |begin|
      invariant os + Printed(w, begin[index..], isPreviousHex) == all
    {
      PrintedStep(w, os, begin, index, isPreviousHex);
      var cur := begin[index];
      if isPreviousHex && IsXDigit(cur) {
        os := os + ("\" " + QuoteBegin(w));
      } else {
        assert os + "" == os;
      }
      var text, format := StringChar(cur).0, StringChar(cur).1;
      os := os + text;
      isPreviousHex := format == HexEscape;
    }
    assert os + "" == os;
    os := os + "\"";
  }

  // ---------- Reading literals back: sections 2.13.2 and 2.13.4 of ISO/IEC 14882:2003 ----------

  predicate IsOctal(c: char) {
    '0' <= c <= '7'
  }

  function OctalValue(c: char): (d: nat)
    requires IsOctal(c)
  {
    c as int - '0' as int
  }

  /** The longest run of hexadecimal digits at the front. */
  function HexRun(s: string): (n: nat)
    ensures n <= |s|
  {
    if s != "" && IsHexDigit(s[0]) then 1 + HexRun(s[1..]) else 0
  }

  lemma {:induction false} HexRunIsHex(s: string)
    ensures AllHex(s[..HexRun(s)])
  {
    if HexRun(s) > 0 {
      HexRunIsHex(s[1..]);
      assert forall i :: 0 < i < HexRun(s) ==> s[i] == s[1..][..HexRun(s[1..])][i - 1];
    }
  }

  /** The code of a simple escape sequence. */
  function SimpleEscape(c: char): Option<Code> {
    match c
    case '\'' => Some(39)
    case '\"' => Some(34)
    case '?' => Some(63)
    case '\\' => Some(92)
    case 'a' => Some(7)
    case 'b' => Some(8)
    case 'f' => Some(12)
    case 'n' => Some(10)
    case 'r' => Some(13)
    case 't' => Some(9)
    case 'v' => Some(11)
    case _ => None
  }

  /** One character of a literal: its code and how many characters spell it. Octal escapes take
      up to three digits, hexadecimal ones as many as there are. */
  function ReadChar(w: Width, s: string): (r: Option<(Code, nat)>)
    requires s != ""
    ensures r.Some? ==> 1 <= r.value.1 <= |s|
  {
    if s[0] == '\n' then None
    else if s[0] != '\\' then Some((s[0] as int, 1))
    else if |s| == 1 then None
    else if s[1] == 'x' then
      var n := HexRun(s[2..]);
      HexRunIsHex(s[2..]);
      var c := HexNumber(s[2..][..n]);
      if n > 0 && Fits(w, c) then Some((c, 2 + n)) else None
    else if IsOctal(s[1]) then
      if |s| == 2 || !IsOctal(s[2]) then Some((OctalValue(s[1]), 2))
      else
        var c := 8 * OctalValue(s[1]) + OctalValue(s[2]);
        if |s| == 3 || !IsOctal(s[3]) then Some((c, 3))
        else if Fits(w, 8 * c + OctalValue(s[3])) then Some((8 * c + OctalValue(s[3]), 4))
        else None
    else
      match SimpleEscape(s[1]) {
        case None => None
        case Some(c) => Some((c, 2))
      }
  }

  /** The characters of adjacent literals, joined; s starts inside one of them. */
  function ReadBody(w: Width, s: string): Option<seq<Code>>
    decreases |s|, 0
  {
    if s == "" then None
    else if s[0] == '\"' then ReadLiterals(w, s[1..])
    else match ReadChar(w, s) {
      case None => None
      case Some(r) => Prepend(r.0, ReadBody(w, s[r.1..]))
    }
  }

  /** The characters of any number of literals with blanks between them. */
  function ReadLiterals(w: Width, s: string): Option<seq<Code>>
    decreases |s|, 1
  {
    if s == "" then Some([])
    else if s[0] == ' ' then ReadLiterals(w, s[1..])
    else if QuoteBegin(w) <= s then ReadBody(w, s[|QuoteBegin(w)|..])
    else None
  }

  // ---------- What a reader gets ----------

  predicate IsOctalCode(c: Code) {
    '0' as int <= c <= '7' as int
  }

  /** How many characters of a string run together at its front: a NUL takes in up to two octal
      digits after it. */
  function RunTogether(s: seq<Code>): (n: nat)
    requires s != []
    ensures 1 <= n <= |s|
  {
    if s[0] != 0 || |s| == 1 || !IsOctalCode(s[1]) then 1
    else if |s| == 2 || !IsOctalCode(s[2]) then 2
    else 3
  }

  function FirstSeen(s: seq<Code>): Code
    requires s != []
  {
    match RunTogether(s)
    case 1 => s[0]
    case 2 => s[1] - 48
    case _ => 8 * (s[1] - 48) + (s[2] - 48)
  }

  /** The string a reader sees. */
  function Seen(s: seq<Code>): (t: seq<Code>) {
    if s == [] then [] else [FirstSeen(s)] + Seen(s[RunTogether(s)..])
  }

  predicate HasNulBeforeOctal(s: seq<Code>) {
    exists i :: 0 <= i < |s| - 1 && s[i] == 0 && IsOctalCode(s[i + 1])
  }

  lemma {:induction false} SeenLength(s: seq<Code>)
    ensures |Seen(s)| <= |s|
    ensures HasNulBeforeOctal(s) ==> |Seen(s)| < |s|
  {
    if s != [] {
      SeenLength(s[RunTogether(s)..]);
      if HasNulBeforeOctal(s) && RunTogether(s) == 1 {
        var i :| 0 <= i < |s| - 1 && s[i] == 0 && IsOctalCode(s[i + 1]);
        assert s[1..][i - 1] == 0 && IsOctalCode(s[1..][i - 1 + 1]);
      }
    }
  }

  lemma {:induction false} SeenIsSame(s: seq<Code>)
    requires !HasNulBeforeOctal(s)
    ensures Seen(s) == s
  {
    if s != [] {
      forall i | 0 <= i < |s[1..]| - 1 ensures !(s[1..][i] == 0 && IsOctalCode(s[1..][i + 1])) {
        assert s[i + 1] == s[1..][i] && s[i + 2] == s[1..][i + 1];
      }
      SeenIsSame(s[1..]);
      assert 0 < |s| - 1 ==> !(s[0] == 0 && IsOctalCode(s[0 + 1]));
    }
  }

  // ---------- The round trip ----------

  /** What follows a character of a string: the rest as printed, and the closing quote. */
  function Tail(w: Width, s: seq<Code>, isPreviousHex: bool): (t: string)
    ensures t != ""
  {
    Printed(w, s, isPreviousHex) + "\""
  }

  /** The first character of what follows is a digit only if the string goes on with one, and
      after a hexadecimal escape it is none. */
  lemma TailStart(w: Width, s: seq<Code>, isPreviousHex: bool)
    ensures IsHexDigit(Tail(w, s, isPreviousHex)[0]) ==>
      !isPreviousHex && s != [] && IsXDigit(s[0]) && Tail(w, s, isPreviousHex)[0] == s[0] as char
  {
    if s != [] {
      var text := StringChar(s[0]).0;
      assert text != "";
      if isPreviousHex && IsXDigit(s[0]) {
        assert Printed(w, s, isPreviousHex)[0] == '\"';
      } else {
        assert Printed(w, s, isPreviousHex)[0] == text[0];
      }
    }
  }

  lemma {:induction false} HexRunStops(s: string, u: string)
    requires AllHex(s) && (u == "" || !IsHexDigit(u[0]))
    ensures HexRun(s + u) == |s|
  {
    if s == "" {
      assert s + u == u;
    } else {
      assert (s + u)[1..] == s[1..] + u;
      assert forall i :: 0 <= i < |s| - 1 ==> s[1..][i] == s[i + 1];
      HexRunStops(s[1..], u);
    }
  }

  lemma HexCharBack(w: Width, c: Code, u: string)
    requires Fits(w, c) && u != "" && !IsHexDigit(u[0])
    ensures var text := "\\x" + HexText(c);
      ReadChar(w, text + u) == Some((c, |text|)) && (text + u)[0] == '\\'
  {
    HexReadsBack(c);
    ReadHex(w, HexText(c), u);
  }

  lemma ReadHex(w: Width, h: string, u: string)
    requires AllHex(h) && h != "" && Fits(w, HexNumber(h)) && (u == "" || !IsHexDigit(u[0]))
    ensures var text := "\\x" + h;
      ReadChar(w, text + u) == Some((HexNumber(h), |text|)) && (text + u)[0] == '\\'
  {
    hide HexNumber, IsOctal, SimpleEscape, Fits;
    HexRunStops(h, u);
    var s := ("\\x" + h) + u;
    assert s[2..] == h + u;
    assert (h + u)[..|h|] == h;
  }

  /** A printed character other than NUL is read back, whatever follows it in the string. */
  lemma CharBack(w: Width, c: Code, u: string)
    requires c != 0 && Fits(w, c) && u != ""
    requires StringChar(c).1 == HexEscape ==> !IsHexDigit(u[0])
    ensures var text := StringChar(c).0;
      text != "" && ReadChar(w, text + u) == Some((c, |text|)) && (text + u)[0] != '\"'
  {
    if StringChar(c).1 == HexEscape {
      HexCharBack(w, c, u);
    }
  }

  /** An octal digit is printed as it is, unless a break comes first. */
  lemma OctalTail(w: Width, s: seq<Code>)
    ensures s != [] && IsOctalCode(s[0]) ==>
      Tail(w, s, false) == [s[0] as char] + Tail(w, s[1..], false) && IsOctal(s[0] as char)
    ensures IsOctal(Tail(w, s, false)[0]) ==> s != [] && IsOctalCode(s[0])
  {
    TailStart(w, s, false);
    if s != [] && IsOctalCode(s[0]) {
      assert StringChar(s[0]) == ([s[0] as char], AsIs);
      TailStep(w, s, false);
    }
  }

  lemma TailStep(w: Width, s: seq<Code>, isPreviousHex: bool)
    requires s != [] && !(isPreviousHex && IsXDigit(s[0]))
    ensures Tail(w, s, isPreviousHex) == StringChar(s[0]).0 + Tail(w, s[1..], StringChar(s[0]).1 == HexEscape)
  {
    var text, later := StringChar(s[0]).0, Printed(w, s[1..], StringChar(s[0]).1 == HexEscape);
    assert "" + (text + later) == text + later;
    Assoc(text, later, "\"");
  }

  lemma ReadBodyStep(w: Width, text: string, u: string, c: Code)
    requires text != "" && (text + u)[0] != '\"' && ReadChar(w, text + u) == Some((c, |text|))
    ensures ReadBody(w, text + u) == Prepend(c, ReadBody(w, u))
  {
    assert (text + u)[|text|..] == u;
  }

  lemma BreakTail(w: Width, s: seq<Code>)
    requires s != [] && IsXDigit(s[0])
    ensures Tail(w, s, true) == ("\" " + QuoteBegin(w)) + Tail(w, s, false)
  {
    var rest := StringChar(s[0]).0 + Printed(w, s[1..], StringChar(s[0]).1 == HexEscape);
    assert "" + rest == rest;
    Assoc("\" " + QuoteBegin(w), rest, "\"");
  }

  lemma ReadBreak(w: Width, t: string)
    ensures ReadBody(w, ("\" " + QuoteBegin(w)) + t) == ReadBody(w, t)
  {
    var q := QuoteBegin(w);
    assert (("\" " + q) + t)[1..] == " " + (q + t);
    assert (" " + (q + t))[1..] == q + t;
    ReadBegin(w, t);
  }

  lemma ReadBegin(w: Width, t: string)
    ensures ReadLiterals(w, QuoteBegin(w) + t) == ReadBody(w, t)
  {
    assert (QuoteBegin(w) + t)[|QuoteBegin(w)|..] == t;
  }

  lemma ReadNul(w: Width, u: string)
    requires u != "" && !IsOctal(u[0])
    ensures ReadBody(w, "\\0" + u) == Prepend(0, ReadBody(w, u))
  {
    ReadBodyStep(w, "\\0", u, 0);
  }

  lemma ReadNulAndDigit(w: Width, d: char, u: string)
    requires IsOctal(d) && u != "" && !IsOctal(u[0])
    ensures ReadBody(w, "\\0" + ([d] + u)) == Prepend(OctalValue(d), ReadBody(w, u))
  {
    Assoc("\\0", [d], u);
    ReadBodyStep(w, "\\0" + [d], u, OctalValue(d));
  }

  lemma ReadNulAndDigits(w: Width, d: char, e: char, u: string)
    requires IsOctal(d) && IsOctal(e)
    ensures ReadBody(w, "\\0" + ([d] + ([e] + u))) == Prepend(8 * OctalValue(d) + OctalValue(e), ReadBody(w, u))
  {
    Assoc("\\0", [d], [e] + u);
    Assoc("\\0" + [d], [e], u);
    ReadBodyStep(w, "\\0" + [d] + [e], u, 8 * OctalValue(d) + OctalValue(e));
  }

  /** A NUL as printed, with the digits that run together with it. */
  lemma NulTail(w: Width, s: seq<Code>)
    requires s != [] && s[0] == 0
    ensures var n, t, u := RunTogether(s), Tail(w, s, false), Tail(w, s[RunTogether(s)..], false);
      && (n < 3 ==> !IsOctal(u[0]))
      && (n == 1 ==> t == "\\0" + u)
      && (n == 2 ==> IsOctal(s[1] as char) && t == "\\0" + ([s[1] as char] + u))
      && (n == 3 ==> IsOctal(s[1] as char) && IsOctal(s[2] as char) &&
                     t == "\\0" + ([s[1] as char] + ([s[2] as char] + u)))
  {
    TailStep(w, s, false);
    OctalTail(w, s[1..]);
    if RunTogether(s) > 1 {
      assert s[1..][1..] == s[2..];
      OctalTail(w, s[2..]);
      if RunTogether(s) == 3 {
        assert s[2..][1..] == s[3..];
      }
    }
  }

  lemma NulBack(w: Width, s: seq<Code>)
    requires s != [] && s[0] == 0
    ensures var u := Tail(w, s[RunTogether(s)..], false);
      ReadBody(w, Tail(w, s, false)) == Prepend(FirstSeen(s), ReadBody(w, u))
  {
    hide ReadBody, Tail;
    NulTail(w, s);
    var u := Tail(w, s[RunTogether(s)..], false);
    match RunTogether(s)
    case 1 => ReadNul(w, u);
    case 2 => ReadNulAndDigit(w, s[1] as char, u);
    case _ => ReadNulAndDigits(w, s[1] as char, s[2] as char, u);
  }

  /** What a reader sees of any string that was printed. */
  lemma {:induction false} BodyReadBack(w: Width, s: seq<Code>, isPreviousHex: bool)
    requires FitsAll(w, s)
    ensures ReadBody(w, Tail(w, s, isPreviousHex)) == Some(Seen(s))
    decreases |s|, isPreviousHex
  {
    if s == [] {
      assert Tail(w, s, isPreviousHex) == "\"";
    } else if isPreviousHex && IsXDigit(s[0]) {
      BreakTail(w, s);
      ReadBreak(w, Tail(w, s, false));
      BodyReadBack(w, s, false);
    } else if s[0] == 0 {
      assert Tail(w, s, isPreviousHex) == Tail(w, s, false);
      NulBack(w, s);
      BodyReadBack(w, s[RunTogether(s)..], false);
    } else {
      var (text, format) := StringChar(s[0]);
      var u := Tail(w, s[1..], format == HexEscape);
      TailStart(w, s[1..], format == HexEscape);
      TailStep(w, s, isPreviousHex);
      CharBack(w, s[0], u);
      ReadBodyStep(w, text, u, s[0]);
      BodyReadBack(w, s[1..], format == HexEscape);
    }
  }

  /** A printed string reads back as itself exactly when no NUL has an octal digit after it. */
  lemma ReadsBackIff(w: Width, s: seq<Code>)
    requires FitsAll(w, s)
    ensures var read := ReadLiterals(w, QuoteBegin(w) + Printed(w, s, false) + "\"");
      read == Some(Seen(s)) && (read == Some(s) <==> !HasNulBeforeOctal(s))
  {
    var q, t := QuoteBegin(w), Tail(w, s, false);
    Assoc(q, Printed(w, s, false), "\"");
    ReadBegin(w, t);
    BodyReadBack(w, s, false);
    SeenLength(s);
    if !HasNulBeforeOctal(s) {
      SeenIsSame(s);
    }
  }
}
