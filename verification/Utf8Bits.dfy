/** The bit operations of CodePointToUtf8 and of the surrogate pairs in gtest.cc, on bit vectors in
    the widths of the source, and the proof that they compute what WideToUtf8 says in numbers: masks
    and shifts are remainders and quotients, and setting bits above a small number adds them.  Each
    fact about bits is about one small vector at a time. */
module Utf8Bits {
  import opened Basics
  import opened BitNumbers
  import opened WideToUtf8

  /** The code point that 32 bits stand for. */
  function CodeOf(c: bv32): CodePoint {
    Number32(c) as CodePoint
  }

  function WideOf(w: bv16): WideChar {
    Number16(w) as WideChar
  }

  // ---------- Six bits at a time ----------

  /** What ChopLowBits returns for six bits, and what it leaves. */
  function LowBits(bits: bv32): bv32 {
    bits & 0x3F
  }

  function HighBits(bits: bv32): bv32 {
    bits >> 6
  }

  lemma SixOfSixteen(w: bv16)
    ensures Number16(w) == 0x40 * Number16(w >> 6) + Number16(w & 0x3F) && w >> 6 < 0x400
  {
  }

  lemma SixAreFew(w: bv16)
    ensures Number16(w & 0x3F) < 0x40
  {
  }

  lemma TenAbove(w: bv16, z: bv16)
    requires z < 0x400
    ensures Number16((w << 10) | z) == 0x400 * Number16(w & 0x3F) + Number16(z)
  {
  }

  lemma ChoppedParts(c: bv32)
    ensures High32(HighBits(c)) == High32(c) >> 6
    ensures Low32(HighBits(c)) == (High32(c) << 10) | (Low32(c) >> 6)
    ensures High32(LowBits(c)) == 0 && Low32(LowBits(c)) == Low32(c) & 0x3F
  {
  }

  /** Chopping off six bits divides by 64. */
  lemma ChopBits(c: bv32)
    ensures Number32(HighBits(c)) == Number32(c) / 0x40 && Number32(LowBits(c)) == Number32(c) % 0x40
  {
    hide High32, Low32, Number16, HighBits, LowBits;
    var high, low := High32(c), Low32(c);
    ChoppedParts(c);
    SixOfSixteen(high);
    SixOfSixteen(low);
    SixAreFew(low);
    TenAbove(high, low >> 6);
    Bits16(0);
    Quotient(Number32(c), 0x40, Number32(HighBits(c)), Number32(LowBits(c)));
  }

  // ---------- The bytes of a code point ----------

  /** The cast to char. */
  function Char(x: bv32): bv8 {
    (x & 0xFF) as bv8
  }

  /** A byte after the first, and the first of two, three and four. */
  function Tail(x: bv32): bv8 { Char(0x80 | x) }
  function Lead2(x: bv32): bv8 { Char(0xC0 | x) }
  function Lead3(x: bv32): bv8 { Char(0xE0 | x) }
  function Lead4(x: bv32): bv8 { Char(0xF0 | x) }

  /** The bytes that the code puts together from bits. */
  function EncodeBits(c: bv32): seq<bv8> {
    var c1 := HighBits(c);
    var c2 := HighBits(c1);
    var c3 := HighBits(c2);
    if !Less32(0x7F, c) then [Char(c)]
    else if !Less32(0x7FF, c) then [Lead2(c1), Tail(LowBits(c))]
    else if !Less32(0xFFFF, c) then [Lead3(c2), Tail(LowBits(c1)), Tail(LowBits(c))]
    else [Lead4(c3), Tail(LowBits(c2)), Tail(LowBits(c1)), Tail(LowBits(c))]
  }

  lemma Limits()
    ensures Number32(0x7F) == 0x7F && Number32(0x7FF) == 0x7FF && Number32(0xFFFF) == 0xFFFF
  {
  }

  /** A mark above the bits of a byte adds to them. */
  lemma MarkAdds(y: bv8)
    ensures Number8(y) < 0x40 ==> Number8(0x80 | y) == 0x80 + Number8(y)
    ensures Number8(y) < 0x20 ==> Number8(0xC0 | y) == 0xC0 + Number8(y)
    ensures Number8(y) < 0x10 ==> Number8(0xE0 | y) == 0xE0 + Number8(y)
    ensures Number8(y) < 0x08 ==> Number8(0xF0 | y) == 0xF0 + Number8(y)
  {
  }

  lemma CharParts(x: bv32, y: bv8)
    requires y == Low16(Low32(x))
    ensures Char(x) == y && Tail(x) == 0x80 | y
    ensures Lead2(x) == 0xC0 | y && Lead3(x) == 0xE0 | y && Lead4(x) == 0xF0 | y
  {
  }

  /** The same for a byte cast from 32 bits. */
  lemma MarkedChar(x: bv32)
    requires Number32(x) < 0x80
    ensures var n := Number32(x);
            && Number8(Char(x)) == n
            && (n < 0x40 ==> Number8(Tail(x)) == 0x80 + n)
            && (n < 0x20 ==> Number8(Lead2(x)) == 0xC0 + n)
            && (n < 0x10 ==> Number8(Lead3(x)) == 0xE0 + n)
            && (n < 0x08 ==> Number8(Lead4(x)) == 0xF0 + n)
  {
    hide High32, Low32, High16, Low16, Number8, Char, Tail, Lead2, Lead3, Lead4;
    CharParts(x, Low16(Low32(x)));
    MarkAdds(Low16(Low32(x)));
  }

  predicate SameBytes(b: seq<bv8>, e: seq<Byte>) {
    |b| == |e| && forall i :: 0 <= i < |b| ==> Number8(b[i]) == e[i] as int
  }

  lemma TailByte(c: bv32)
    ensures Number8(Tail(LowBits(c))) == 0x80 + Number32(c) % 0x40
  {
    hide LowBits, HighBits, Tail, Number8, Number32;
    ChopBits(c);
    MarkedChar(LowBits(c));
  }

  lemma OneByte(c: bv32)
    requires Number32(c) <= 0x7F
    ensures SameBytes([Char(c)], Encode(CodeOf(c)))
  {
    hide Char, Number8, Number32;
    MarkedChar(c);
  }

  lemma TwoBytes(c: bv32)
    requires 0x7F < Number32(c) <= 0x7FF
    ensures SameBytes([Lead2(HighBits(c)), Tail(LowBits(c))], Encode(CodeOf(c)))
  {
    hide LowBits, HighBits, Tail, Lead2, Number8, Number32;
    TailByte(c);
    ChopBits(c);
    MarkedChar(HighBits(c));
  }

  lemma ThreeBytes(c: bv32, c1: bv32)
    requires 0x7FF < Number32(c) <= 0xFFFF && c1 == HighBits(c)
    ensures SameBytes([Lead3(HighBits(c1)), Tail(LowBits(c1)), Tail(LowBits(c))], Encode(CodeOf(c)))
  {
    hide LowBits, HighBits, Tail, Lead3, Number8, Number32;
    TailByte(c);
    TailByte(c1);
    ChopBits(c);
    ChopBits(c1);
    MarkedChar(HighBits(c1));
  }

  lemma FourBytes(c: bv32, c1: bv32, c2: bv32)
    requires 0xFFFF < Number32(c) <= 0x1F_FFFF && c1 == HighBits(c) && c2 == HighBits(c1)
    ensures SameBytes([Lead4(HighBits(c2)), Tail(LowBits(c2)), Tail(LowBits(c1)), Tail(LowBits(c))], Encode(CodeOf(c)))
  {
    hide LowBits, HighBits, Tail, Lead4, Number8, Number32;
    TailByte(c);
    TailByte(c1);
    TailByte(c2);
    ChopBits(c);
    ChopBits(c1);
    ChopBits(c2);
    MarkedChar(HighBits(c2));
  }

  /** The bits put together are the encoding. */
  lemma EncodedBits(c: bv32)
    requires CodeOf(c) <= 0x1F_FFFF
    ensures SameBytes(EncodeBits(c), Encode(CodeOf(c)))
  {
    hide LowBits, HighBits, Char, Tail, Lead2, Lead3, Lead4, Less32, Number32, SameBytes, Encode;
    Limits();
    Order32(0x7F, c);
    Order32(0x7FF, c);
    Order32(0xFFFF, c);
    if CodeOf(c) <= 0x7F {
      OneByte(c);
    } else if CodeOf(c) <= 0x7FF {
      TwoBytes(c);
    } else if CodeOf(c) <= 0xFFFF {
      ThreeBytes(c, HighBits(c));
    } else {
      FourBytes(c, HighBits(c), HighBits(HighBits(c)));
    }
  }

  // ---------- Surrogates ----------

  predicate IsPairOfBits(first: bv16, second: bv16) {
    first & 0xFC00 == 0xD800 && second & 0xFC00 == 0xDC00
  }

  lemma SurrogateBits(w: bv16)
    ensures w & 0xFC00 == 0xD800 <==> 0xD800 <= Number16(w) < 0xDC00
    ensures w & 0xFC00 == 0xDC00 <==> 0xDC00 <= Number16(w) < 0xE000
  {
  }

  /** The masks find the pairs of surrogates. */
  lemma PairBits(first: bv16, second: bv16)
    ensures IsPairOfBits(first, second) <==> IsUtf16SurrogatePair(WideOf(first), WideOf(second))
  {
    hide Number16;
    SurrogateBits(first);
    SurrogateBits(second);
  }

  function JoinBits(first: bv16, second: bv16): bv32 {
    (((first & 0x3FF) as bv32 << 10) | (second & 0x3FF) as bv32) + 0x1_0000
  }

  lemma TenBits(w: bv16)
    ensures Number16(w & 0x3FF) == Number16(w) % 0x400
  {
    hide Number16;
    TenOfSixteen(w);
    TenAreFew(w);
    Quotient(Number16(w), 0x400, Number16(w >> 10), Number16(w & 0x3FF));
  }

  lemma TenOfSixteen(w: bv16)
    ensures Number16(w) == 0x400 * Number16(w >> 10) + Number16(w & 0x3FF)
  {
  }

  lemma TenAreFew(w: bv16)
    ensures w & 0x3FF < 0x400 && Number16(w & 0x3FF) < 0x400
  {
  }

  lemma JoinedParts(first: bv16, second: bv16)
    ensures High32(JoinBits(first, second)) == ((first & 0x3FF) >> 6) + 1
    ensures Low32(JoinBits(first, second)) == ((first & 0x3FF) << 10) | (second & 0x3FF)
  {
  }

  /** The shift and the or make the code point of a pair of surrogates. */
  lemma JoinedBits(first: bv16, second: bv16)
    ensures CodeOf(JoinBits(first, second))
            == CreateCodePointFromUtf16SurrogatePair(WideOf(first), WideOf(second))
  {
    hide High32, Low32, Number16, JoinBits;
    var x, y := first & 0x3FF, second & 0x3FF;
    JoinedParts(first, second);
    TenBits(first);
    TenBits(second);
    TenAreFew(second);
    SixOfSixteen(x);
    TenAbove(x, y);
    Bits16(x >> 6);
  }
}
