/** CodePointToUtf8 and WideStringToUtf8 of gtest.cc with 16-bit wide characters, and a reader
    that gets the wide string back: nothing is lost, lone surrogates included.  The reader goes by
    RFC 3629 but for surrogates and for code points of up to 21 bits, which the encoder writes too;
    forms longer than needed are refused, so there is one text for each string. */
module WideToUtf8 {
  import opened Basics
  import opened Digits

  /** Bit operations are written as arithmetic: a mask of n bits is % 2^n, a shift by n is
      / 2^n, and setting bits above a small number adds them.  Utf8Bits has the bits. */
  newtype Byte = b: int | 0 <= b < 0x100
  newtype WideChar = w: int | 0 <= w < 0x1_0000
  newtype CodePoint = c: int | 0 <= c < 0x1_0000_0000

  const MAX_CODE_POINT_1: CodePoint := 0x7F
  const MAX_CODE_POINT_2: CodePoint := 0x7FF
  const MAX_CODE_POINT_3: CodePoint := 0xFFFF
  const MAX_CODE_POINT_4: CodePoint := 0x1F_FFFF

  /** A code point of at most 21 bits. */
  type Cp21 = c: CodePoint | c <= 0x1F_FFFF

  function Low6(c: CodePoint): Byte {
    0x80 + (c % 0x40) as Byte
  }

  /** The bytes for a code point of at most 21 bits. */
  function Encode(c: Cp21): (e: seq<Byte>)
    ensures 1 <= |e| <= 4
  {
    if c <= MAX_CODE_POINT_1 then [c as Byte]
    else if c <= MAX_CODE_POINT_2 then [0xC0 + (c / 0x40) as Byte, Low6(c)]
    else if c <= MAX_CODE_POINT_3 then [0xE0 + (c / 0x40 / 0x40) as Byte, Low6(c / 0x40), Low6(c)]
    else [0xF0 + (c / 0x40 / 0x40 / 0x40) as Byte, Low6(c / 0x40 / 0x40), Low6(c / 0x40), Low6(c)]
  }

  /** The bytes in numbers: one below 128, two below 2048, three below 65536, and else four. */
  lemma EncodedIs(c: Cp21)
    ensures Encode(c) ==
      var n := c as nat;
      if n < 128 then [n as Byte]
      else if n < 2048 then [(192 + n / 64) as Byte, (128 + n % 64) as Byte]
      else if n < 65536 then [(224 + n / 4096) as Byte, (128 + n / 64 % 64) as Byte, (128 + n % 64) as Byte]
      else [(240 + n / 262144) as Byte, (128 + n / 4096 % 64) as Byte, (128 + n / 64 % 64) as Byte,
            (128 + n % 64) as Byte]
  {
  }

  /** Chops off the lowest six bits. */
  method ChopLowBits6(bits: CodePoint) returns (low: Byte, rest: CodePoint)
    ensures low == (bits % 0x40) as Byte && rest == bits / 0x40
  {
    low := (bits % 0x40) as Byte;
    rest := bits / 0x40;
  }

  /** Text in ASCII, as bytes. */
  function Ascii(s: string): seq<Byte>
    requires forall i :: 0 <= i < |s| ==> s[i] as int < 128
  {
    seq(|s|, i requires 0 <= i < |s| => s[i] as int as Byte)
  }

  lemma HexIsAscii(n: nat)
    ensures forall i :: 0 <= i < |HexText(n)| ==> HexText(n)[i] as int < 128
  {
    HexReadsBack(n);
    assert forall i :: 0 <= i < |HexText(n)| ==> IsHexDigit(HexText(n)[i]);
  }

  /** What a code point of more than 21 bits turns into. */
  function InvalidText(c: CodePoint): seq<Byte> {
    HexIsAscii(c as nat);
    Ascii("(Invalid Unicode 0x") + Ascii(HexText(c as nat)) + Ascii(")")
  }

  /** The message: its text up to the number, the number in hexadecimal, and a parenthesis. */
  lemma InvalidTextIs(c: CodePoint)
    ensures |InvalidText(c)| == 20 + |HexText(c as nat)| && InvalidText(c)[..19] ==
      [40, 73, 110, 118, 97, 108, 105, 100, 32, 85, 110, 105, 99, 111, 100, 101, 32, 48, 120]
    ensures forall i {:trigger HexText(c as nat)[i]} :: 0 <= i < |HexText(c as nat)| ==>
              InvalidText(c)[19 + i] as int == HexText(c as nat)[i] as int
    ensures InvalidText(c)[|InvalidText(c)| - 1] == 41
  {
  }

  method CodePointToUtf8(codePoint: CodePoint) returns (text: seq<Byte>)
    ensures text == if codePoint > 0x1F_FFFF then InvalidText(codePoint)
                    else if codePoint == 0 then []
                    else Encode(codePoint)
  {
    if codePoint > MAX_CODE_POINT_4 {
      return InvalidText(codePoint);
    }
    var str := new Byte[5];
    var c := codePoint;
    var low;
    if c <= MAX_CODE_POINT_1 {
      str[1] := 0;
      str[0] := c as Byte;
    } else if c <= MAX_CODE_POINT_2 {
      str[2] := 0;
      low, c := ChopLowBits6(c);
      str[1] := 0x80 + low;
      str[0] := 0xC0 + c as Byte;
    } else if c <= MAX_CODE_POINT_3 {
      str[3] := 0;
      low, c := ChopLowBits6(c);
      str[2] := 0x80 + low;
      low, c := ChopLowBits6(c);
      str[1] := 0x80 + low;
      str[0] := 0xE0 + c as Byte;
    } else {
      str[4] := 0;
      low, c := ChopLowBits6(c);
      str[3] := 0x80 + low;
      low, c := ChopLowBits6(c);
      str[2] := 0x80 + low;
      low, c := ChopLowBits6(c);
      str[1] := 0x80 + low;
      str[0] := 0xF0 + c as Byte;
    }
    if codePoint != 0 {
      CTextIs(str[..], Encode(codePoint), 0);
    }
    return CText(str[..], 0);
  }

  // ---------- Wide strings ----------

  /** A high surrogate followed by a low one. */
  predicate IsUtf16SurrogatePair(first: WideChar, second: WideChar) {
    0xD800 <= first < 0xDC00 && 0xDC00 <= second < 0xE000
  }

  function CreateCodePointFromUtf16SurrogatePair(first: WideChar, second: WideChar): (c: Cp21)
    ensures 0x1_0000 <= c <= 0x10_FFFF
  {
    (first % 0x400) as CodePoint * 0x400 + (second % 0x400) as CodePoint + 0x1_0000
  }

  /** The first of a pair has the ten high bits above 65536, the second the ten low ones. */
  lemma PairIs(first: WideChar, second: WideChar)
    ensures IsUtf16SurrogatePair(first, second) <==> 55296 <= first <= 56319 && 56320 <= second <= 57343
    ensures IsUtf16SurrogatePair(first, second) ==>
              CreateCodePointFromUtf16SurrogatePair(first, second) as int
              == 65536 + 1024 * (first as int - 55296) + (second as int - 56320)
  {
  }

  predicate StartsWithPair(ws: seq<WideChar>) {
    |ws| >= 2 && IsUtf16SurrogatePair(ws[0], ws[1])
  }

  /** The code points of a wide string: pairs of surrogates are one, all else is itself. */
  function CodePoints(ws: seq<WideChar>): (cs: seq<Cp21>) {
    if ws == [] then []
    else if StartsWithPair(ws) then [CreateCodePointFromUtf16SurrogatePair(ws[0], ws[1])] + CodePoints(ws[2..])
    else [ws[0] as Cp21] + CodePoints(ws[1..])
  }

  function EncodeAll(cs: seq<Cp21>): seq<Byte> {
    if cs == [] then [] else Encode(cs[0]) + EncodeAll(cs[1..])
  }

  function Utf8(ws: seq<WideChar>): seq<Byte> {
    EncodeAll(CodePoints(ws))
  }

  /** The characters before the first NUL. */
  function UpToNul(ws: seq<WideChar>): seq<WideChar> {
    CText(ws, 0)
  }

  /** The characters that are converted: at most numChars, -1 for all, and none from a NUL on. */
  function Converted(str: seq<WideChar>, numChars: int): seq<WideChar> {
    if numChars < -1 then []
    else if numChars == -1 || numChars > |str| then UpToNul(str)
    else UpToNul(str[..numChars])
  }

  /** A limit of -1 is none, a lower one is 0; within it everything up to the first NUL counts. */
  lemma ConvertedIs(str: seq<WideChar>, numChars: int)
    ensures var limit := if numChars == -1 || numChars > |str| then |str| else if numChars < 0 then 0 else numChars;
            var r := Converted(str, numChars);
            |r| <= limit && r == str[..|r|] && 0 !in r && (|r| < limit ==> str[|r|] == 0)
  {
    var n := if numChars == -1 || numChars > |str| then |str| else if numChars < 0 then 0 else numChars;
    assert str[..|str|] == str;
    NulAfter(str[..n]);
  }

  lemma {:induction false} NulAfter(ws: seq<WideChar>)
    ensures |UpToNul(ws)| < |ws| ==> ws[|UpToNul(ws)|] == 0
  {
    if ws != [] && ws[0] != 0 {
      NulAfter(ws[1..]);
    }
  }

  method WcsLen(str: seq<WideChar>) returns (n: nat)
    requires 0 in str
    ensures n < |str| && str[n] == 0 && 0 !in str[..n]
  {
    n := 0;
    while str[n] != 0
      invariant n < |str| && 0 !in str[..n] && 0 in str[n..]
      decreases |str| - n
    {
      assert str[..n + 1] == str[..n] + [str[n]];
      assert str[n..] == [str[n]] + str[n + 1..];
      n := n + 1;
    }
  }

  /** The bytes still to come when the first i characters of at most m are done. */
  function Remaining(str: seq<WideChar>, i: nat, m: nat): seq<Byte>
    requires i <= m <= |str|
  {
    Utf8(UpToNul(str[i..m]))
  }

  lemma RemainingAtPair(str: seq<WideChar>, i: nat, m: nat)
    requires i + 1 < m <= |str| && IsUtf16SurrogatePair(str[i], str[i + 1])
    ensures Remaining(str, i, m) ==
      Encode(CreateCodePointFromUtf16SurrogatePair(str[i], str[i + 1])) + Remaining(str, i + 2, m)
  {
    var r, c := str[i..m], CreateCodePointFromUtf16SurrogatePair(str[i], str[i + 1]);
    assert r[1..] == str[i + 1..m] && r[1..][1..] == str[i + 2..m];
    var u := UpToNul(str[i + 2..m]);
    assert UpToNul(r[1..]) == [str[i + 1]] + u;
    assert UpToNul(r) == [str[i]] + ([str[i + 1]] + u);
    assert UpToNul(r)[2..] == u;
    assert CodePoints(UpToNul(r)) == [c] + CodePoints(u);
    assert ([c] + CodePoints(u))[1..] == CodePoints(u);
  }

  lemma RemainingAtOther(str: seq<WideChar>, i: nat, m: nat)
    requires i < m <= |str| && str[i] != 0
    requires !(i + 1 < m && IsUtf16SurrogatePair(str[i], str[i + 1]))
    ensures Remaining(str, i, m) == Encode(str[i] as Cp21) + Remaining(str, i + 1, m)
  {
    var r := str[i..m];
    assert r[1..] == str[i + 1..m];
    var u, c := UpToNul(str[i + 1..m]), str[i] as Cp21;
    assert UpToNul(r) == [str[i]] + u;
    assert !StartsWithPair(UpToNul(r));
    assert UpToNul(r)[1..] == u;
    assert ([c] + CodePoints(u))[1..] == CodePoints(u);
  }

  /** The code point at i, and where the next one starts. In the memory at str, NULs lie where
      the loop must stop if numChars reaches beyond. */
  method NextCodePoint(str: seq<WideChar>, i: nat, n: nat) returns (codePoint: CodePoint, next: nat)
    requires i < |str| && i < n && str[i] != 0
    requires n > |str| ==> 0 in str[i..]
    ensures var m := if n > |str| then |str| else n;
      i < next <= m && 0 < codePoint <= MAX_CODE_POINT_4 &&
      Remaining(str, i, m) == Encode(codePoint) + Remaining(str, next, m)
    ensures n > |str| ==> 0 in str[next..]
  {
    ghost var m := if n > |str| then |str| else n;
    if n > |str| {
      assert str[i..] == [str[i]] + str[i + 1..];
    }
    if i + 1 < n && IsUtf16SurrogatePair(str[i], str[i + 1]) {
      if n > |str| {
        assert str[i + 1..] == [str[i + 1]] + str[i + 2..];
      }
      RemainingAtPair(str, i, m);
      codePoint := CreateCodePointFromUtf16SurrogatePair(str[i], str[i + 1]);
      next := i + 2;
    } else {
      RemainingAtOther(str, i, m);
      codePoint := str[i] as CodePoint;
      next := i + 1;
    }
  }

  /** Converts the characters of a wide string; the memory at str holds a NUL unless numChars
      stays inside it. */
  method WideStringToUtf8(str: seq<WideChar>, numChars: int) returns (stream: seq<Byte>)
    requires numChars == -1 || numChars > |str| ==> 0 in str
    ensures stream == Utf8(Converted(str, numChars))
  {
    var n := numChars;
    if n == -1 {
      n := WcsLen(str);
      UpToNulIs(str, n);
    }
    ghost var m := if n < 0 then 0 else if n > |str| then |str| else n;
    ghost var goal := Utf8(Converted(str, numChars));
    assert Remaining(str, 0, m) == goal by {
      assert str[0..|str|] == str;
      assert str[0..0] == [];
      assert str[0..m] == str[..m];
    }
    stream := [];
    var i := 0;
    while i < n
      invariant 0 <= i <= m
      invariant n > |str| ==> 0 in str[i..]
      invariant stream + Remaining(str, i, m) == goal
    {
      if str[i] == 0 {
        break;
      }
      var codePoint, next := NextCodePoint(str, i, n);
      var text := CodePointToUtf8(codePoint);
      Assoc(stream, text, Remaining(str, next, m));
      stream := stream + text;
      i := next;
    }
    RemainingAtEnd(stream, str, i, m);
  }

  lemma RemainingAtEnd(stream: seq<Byte>, str: seq<WideChar>, i: nat, m: nat)
    requires i <= m <= |str| && (i < m ==> str[i] == 0)
    ensures stream + Remaining(str, i, m) == stream
  {
  }

  lemma UpToNulIs(str: seq<WideChar>, n: nat)
    requires n < |str| && str[n] == 0 && 0 !in str[..n]
    ensures UpToNul(str) == UpToNul(str[..n]) == str[..n]
  {
    CTextIs(str, str[..n], 0);
    CTextIs(str[..n], str[..n], 0);
  }

  // ---------- Reading back ----------

  predicate IsTail(b: Byte) {
    0x80 <= b < 0xC0
  }

  /** Appends the six low bits of a tail byte. */
  function Append6(high: CodePoint, b: Byte): (c: CodePoint)
    requires high < 0x8000 && IsTail(b)
    ensures c / 0x40 == high && Low6(c) == b && c < 0x40 * high + 0x40
  {
    high * 0x40 + (b as CodePoint - 0x80)
  }

  lemma Append6Low6(c: Cp21)
    ensures Append6(c / 0x40, Low6(c)) == c
  {
  }

  /** One code point off the front: RFC 3629 section 3, but up to 21 bits and with surrogates.
      A form longer than the code point needs is refused. */
  function ReadOne(b: seq<Byte>): (c: Option<Cp21>)
    ensures c.Some? ==> 1 <= |Encode(c.value)| <= |b|
  {
    if |b| >= 1 && b[0] < 0x80 then Some(b[0] as Cp21)
    else if |b| >= 2 && 0xC0 <= b[0] < 0xE0 && IsTail(b[1]) then
      var c := Append6(b[0] as CodePoint - 0xC0, b[1]);
      if c > 0x7F then Some(c) else None
    else if |b| >= 3 && 0xE0 <= b[0] < 0xF0 && IsTail(b[1]) && IsTail(b[2]) then
      var c := Append6(Append6(b[0] as CodePoint - 0xE0, b[1]), b[2]);
      if c > 0x7FF then Some(c) else None
    else if |b| >= 4 && 0xF0 <= b[0] < 0xF8 && IsTail(b[1]) && IsTail(b[2]) && IsTail(b[3]) then
      var c := Append6(Append6(Append6(b[0] as CodePoint - 0xF0, b[1]), b[2]), b[3]);
      if c > 0xFFFF then Some(c) else None
    else None
  }

  /** All the code points of a byte string. */
  function ReadAll(b: seq<Byte>): Option<seq<Cp21>>
    decreases |b|
  {
    if b == [] then Some([])
    else match ReadOne(b) {
      case None => None
      case Some(c) =>
        match ReadAll(b[|Encode(c)|..]) {
          case None => None
          case Some(cs) => Some([c] + cs)
        }
    }
  }

  lemma ReadOneIsEncoded(b: seq<Byte>, c: Cp21)
    requires ReadOne(b) == Some(c)
    ensures Encode(c) <= b
  {
    var n := |Encode(c)|;
    assert |b| >= n && Encode(c) == b[..n];
  }

  lemma EncodedReadsBack(b: seq<Byte>, c: Cp21)
    requires Encode(c) <= b
    ensures ReadOne(b) == Some(c)
  {
    assert forall i :: 0 <= i < |Encode(c)| ==> b[i] == Encode(c)[i];
    hide Encode;
    if c <= 0x7FF {
      ShortReadsBack(b, c);
    } else if c <= 0xFFFF {
      ThreeReadBack(b, c);
    } else {
      FourReadBack(b, c);
    }
  }

  lemma ShortReadsBack(b: seq<Byte>, c: Cp21)
    requires c <= 0x7FF && |Encode(c)| <= |b| && forall i :: 0 <= i < |Encode(c)| ==> b[i] == Encode(c)[i]
    ensures ReadOne(b) == Some(c)
  {
    hide Append6;
    Append6Low6(c);
  }

  lemma ThreeReadBack(b: seq<Byte>, c: Cp21)
    requires 0x7FF < c <= 0xFFFF && |Encode(c)| <= |b| && forall i :: 0 <= i < |Encode(c)| ==> b[i] == Encode(c)[i]
    ensures ReadOne(b) == Some(c)
  {
    hide Append6;
    Append6Low6(c);
    Append6Low6(c / 0x40);
  }

  lemma FourReadBack(b: seq<Byte>, c: Cp21)
    requires 0xFFFF < c && |Encode(c)| <= |b| && forall i :: 0 <= i < |Encode(c)| ==> b[i] == Encode(c)[i]
    ensures ReadOne(b) == Some(c)
  {
    hide Append6;
    Append6Low6(c);
    Append6Low6(c / 0x40);
    Append6Low6(c / 0x40 / 0x40);
  }

  /** A prefix of a byte string is read as c exactly when it is the encoding of c. */
  lemma ReadOneIffEncoded(b: seq<Byte>, c: Cp21)
    ensures ReadOne(b) == Some(c) <==> Encode(c) <= b
  {
    if ReadOne(b) == Some(c) {
      ReadOneIsEncoded(b, c);
    } else if Encode(c) <= b {
      EncodedReadsBack(b, c);
    }
  }

  /** No encoding starts another, so a text of encodings splits in one way only. */
  lemma EncodingsArePrefixFree(c: Cp21, d: Cp21, r: seq<Byte>, s: seq<Byte>)
    requires Encode(c) + r == Encode(d) + s
    ensures c == d && r == s
  {
    ReadOneIffEncoded(Encode(c) + r, c);
    ReadOneIffEncoded(Encode(c) + r, d);
    assert (Encode(c) + r)[|Encode(c)|..] == r;
    assert (Encode(d) + s)[|Encode(d)|..] == s;
  }

  lemma {:induction false} EncodedAllReadsBack(cs: seq<Cp21>)
    ensures ReadAll(EncodeAll(cs)) == Some(cs)
  {
    if cs != [] {
      var c, rest := cs[0], EncodeAll(cs[1..]);
      EncodedAllReadsBack(cs[1..]);
      ReadOneIffEncoded(Encode(c) + rest, c);
      assert (Encode(c) + rest)[|Encode(c)|..] == rest;
      assert [c] + cs[1..] == cs;
    }
  }

  lemma {:induction false} ReadAllIsEncoded(b: seq<Byte>)
    requires ReadAll(b).Some?
    ensures EncodeAll(ReadAll(b).value) == b
    decreases |b|
  {
    hide Encode, ReadOne;
    if b != [] {
      var c := ReadOne(b).value;
      var rest := b[|Encode(c)|..];
      ReadOneIffEncoded(b, c);
      ReadAllIsEncoded(rest);
      assert ([c] + ReadAll(rest).value)[1..] == ReadAll(rest).value;
      assert b == Encode(c) + rest;
    }
  }

  /** The reader accepts exactly the encodings, and undoes them. */
  lemma ReadAllIffEncoded(b: seq<Byte>, cs: seq<Cp21>)
    ensures ReadAll(b) == Some(cs) <==> b == EncodeAll(cs)
  {
    EncodedAllReadsBack(cs);
    if ReadAll(b).Some? {
      ReadAllIsEncoded(b);
    }
  }

  /** A code point in UTF-16 (RFC 2781 section 2.1); beyond 0x10FFFF there is no such form. */
  function Utf16(c: Cp21): seq<WideChar> {
    if c < 0x1_0000 then [c as WideChar]
    else if c <= 0x10_FFFF then
      [0xD800 + ((c - 0x1_0000) / 0x400) as WideChar, 0xDC00 + ((c - 0x1_0000) % 0x400) as WideChar]
    else [0xFFFD]
  }

  function Utf16All(cs: seq<Cp21>): seq<WideChar> {
    if cs == [] then [] else Utf16(cs[0]) + Utf16All(cs[1..])
  }

  function ReadWide(b: seq<Byte>): Option<seq<WideChar>> {
    match ReadAll(b) {
      case None => None
      case Some(cs) => Some(Utf16All(cs))
    }
  }

  lemma PairBack(first: WideChar, second: WideChar)
    requires IsUtf16SurrogatePair(first, second)
    ensures Utf16(CreateCodePointFromUtf16SurrogatePair(first, second)) == [first, second]
  {
  }

  lemma OtherBack(w: WideChar)
    ensures Utf16(w as Cp21) == [w]
  {
  }

  lemma Utf16AllStep(c: Cp21, cs: seq<Cp21>)
    ensures Utf16All([c] + cs) == Utf16(c) + Utf16All(cs)
  {
    assert ([c] + cs)[1..] == cs;
  }

  lemma {:induction false} CodePointsBack(ws: seq<WideChar>)
    ensures Utf16All(CodePoints(ws)) == ws
  {
    hide Utf16, Utf16All, IsUtf16SurrogatePair, CreateCodePointFromUtf16SurrogatePair;
    if StartsWithPair(ws) {
      CodePointsBack(ws[2..]);
      PairBack(ws[0], ws[1]);
      Utf16AllStep(CreateCodePointFromUtf16SurrogatePair(ws[0], ws[1]), CodePoints(ws[2..]));
    } else if ws != [] {
      CodePointsBack(ws[1..]);
      OtherBack(ws[0]);
      Utf16AllStep(ws[0] as Cp21, CodePoints(ws[1..]));
    } else {
      Utf16AllNone();
    }
  }

  lemma Utf16AllNone()
    ensures Utf16All([]) == []
  {
  }

  /** The wide string can be read back from the bytes. */
  lemma NothingLost(ws: seq<WideChar>)
    ensures ReadWide(Utf8(ws)) == Some(ws)
  {
    ReadAllIffEncoded(Utf8(ws), CodePoints(ws));
    CodePointsBack(ws);
  }

  /** So two buffers give the same bytes only when their converted characters are the same. */
  lemma SameBytesSameCharacters(s: seq<WideChar>, n: int, t: seq<WideChar>, m: int)
    ensures Utf8(Converted(s, n)) == Utf8(Converted(t, m)) <==> Converted(s, n) == Converted(t, m)
  {
    NothingLost(Converted(s, n));
    NothingLost(Converted(t, m));
  }
}
