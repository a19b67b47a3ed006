/** Bit patterns and the numbers that they stand for, in 8, 16, 32 and 64 bits: complement, sign
    bit, increment, order, sums and differences.  Numbers and bits meet only in single bytes;
    each width is proved from the one of half the size by facts about bits alone and by arithmetic,
    and sums and differences by counting up and down, because the solver would otherwise look at
    all the bits of two words and of the numbers at once. */
module BitNumbers {

  // ---------- The number that a pattern stands for ----------

  function Number8(b: bv8): (n: nat)
    ensures n < 0x100
  {
    b as nat
  }

  lemma Bits8(b: bv8)
    ensures Number8(!b) == 0xFF - Number8(b)
    ensures 0x80 & b != 0 <==> Number8(b) >= 0x80
    ensures 0x80 & b == 0 ==>
      Number8(0x80 | b) == 0x80 + Number8(b)
    ensures Number8(b) < 0xFF ==> Number8(b + 1) == Number8(b) + 1
    ensures (b == 0xFF <==> Number8(b) == 0xFF) && (b == 0 <==> Number8(b) == 0)
  {
  }

  function High16(b: bv16): bv8 {
    (b >> 8) as bv8
  }

  function Low16(b: bv16): bv8 {
    (b & 0xFF) as bv8
  }

  function Number16(b: bv16): (n: nat)
    ensures n < 0x1_0000
  {
    0x100 * Number8(High16(b)) + Number8(Low16(b))
  }

  lemma ComplementParts16(b: bv16)
    ensures High16(!b) == !High16(b) && Low16(!b) == !Low16(b)
  {
  }

  lemma SignParts16(b: bv16)
    ensures High16(0x8000 | b) == 0x80 | High16(b) && Low16(0x8000 | b) == Low16(b)
    ensures 0x8000 & b != 0 <==> 0x80 & High16(b) != 0
  {
  }

  lemma CarryParts16(b: bv16)
    ensures Low16(b) != 0xFF ==> High16(b + 1) == High16(b) && Low16(b + 1) == Low16(b) + 1
    ensures Low16(b) == 0xFF ==> High16(b + 1) == High16(b) + 1 && Low16(b + 1) == 0
  {
  }

  lemma EndParts16(b: bv16)
    ensures b == 0xFFFF <==> High16(b) == 0xFF && Low16(b) == 0xFF
    ensures b == 0 <==> High16(b) == 0 && Low16(b) == 0
  {
  }

  lemma Bits16(b: bv16)
    ensures Number16(!b) == 0xFFFF - Number16(b)
    ensures 0x8000 & b != 0 <==> Number16(b) >= 0x8000
    ensures 0x8000 & b == 0 ==>
      Number16(0x8000 | b) == 0x8000 + Number16(b)
    ensures Number16(b) < 0xFFFF ==> Number16(b + 1) == Number16(b) + 1
    ensures (b == 0xFFFF <==> Number16(b) == 0xFFFF) && (b == 0 <==> Number16(b) == 0)
  {
    hide High16, Low16, Number8;
    ComplementParts16(b);
    SignParts16(b);
    CarryParts16(b);
    EndParts16(b);
    Bits8(High16(b));
    Bits8(Low16(b));
    Bits8(0);
  }

  function High32(b: bv32): bv16 {
    (b >> 16) as bv16
  }

  function Low32(b: bv32): bv16 {
    (b & 0xFFFF) as bv16
  }

  function Number32(b: bv32): (n: nat)
    ensures n < 0x1_0000_0000
  {
    0x1_0000 * Number16(High32(b)) + Number16(Low32(b))
  }

  lemma ComplementParts32(b: bv32)
    ensures High32(!b) == !High32(b) && Low32(!b) == !Low32(b)
  {
  }

  lemma SignParts32(b: bv32)
    ensures High32(0x8000_0000 | b) == 0x8000 | High32(b) && Low32(0x8000_0000 | b) == Low32(b)
    ensures 0x8000_0000 & b != 0 <==> 0x8000 & High32(b) != 0
  {
  }

  lemma CarryParts32(b: bv32)
    ensures Low32(b) != 0xFFFF ==> High32(b + 1) == High32(b) && Low32(b + 1) == Low32(b) + 1
    ensures Low32(b) == 0xFFFF ==> High32(b + 1) == High32(b) + 1 && Low32(b + 1) == 0
  {
  }

  lemma EndParts32(b: bv32)
    ensures b == 0xFFFF_FFFF <==> High32(b) == 0xFFFF && Low32(b) == 0xFFFF
    ensures b == 0 <==> High32(b) == 0 && Low32(b) == 0
  {
  }

  lemma Bits32(b: bv32)
    ensures Number32(!b) == 0xFFFF_FFFF - Number32(b)
    ensures 0x8000_0000 & b != 0 <==> Number32(b) >= 0x8000_0000
    ensures 0x8000_0000 & b == 0 ==>
      Number32(0x8000_0000 | b) == 0x8000_0000 + Number32(b)
    ensures Number32(b) < 0xFFFF_FFFF ==> Number32(b + 1) == Number32(b) + 1
    ensures (b == 0xFFFF_FFFF <==> Number32(b) == 0xFFFF_FFFF) && (b == 0 <==> Number32(b) == 0)
  {
    hide High32, Low32, Number16;
    ComplementParts32(b);
    SignParts32(b);
    CarryParts32(b);
    EndParts32(b);
    Bits16(High32(b));
    Bits16(Low32(b));
    Bits16(0);
  }

  function High64(b: bv64): bv32 {
    (b >> 32) as bv32
  }

  function Low64(b: bv64): bv32 {
    (b & 0xFFFF_FFFF) as bv32
  }

  function Number64(b: bv64): (n: nat)
    ensures n < 0x1_0000_0000_0000_0000
  {
    0x1_0000_0000 * Number32(High64(b)) + Number32(Low64(b))
  }

  lemma ComplementParts64(b: bv64)
    ensures High64(!b) == !High64(b) && Low64(!b) == !Low64(b)
  {
  }

  lemma SignParts64(b: bv64)
    ensures High64(0x8000_0000_0000_0000 | b) == 0x8000_0000 | High64(b) && Low64(0x8000_0000_0000_0000 | b) == Low64(b)
    ensures 0x8000_0000_0000_0000 & b != 0 <==> 0x8000_0000 & High64(b) != 0
  {
  }

  lemma CarryParts64(b: bv64)
    ensures Low64(b) != 0xFFFF_FFFF ==> High64(b + 1) == High64(b) && Low64(b + 1) == Low64(b) + 1
    ensures Low64(b) == 0xFFFF_FFFF ==> High64(b + 1) == High64(b) + 1 && Low64(b + 1) == 0
  {
  }

  lemma EndParts64(b: bv64)
    ensures b == 0xFFFF_FFFF_FFFF_FFFF <==> High64(b) == 0xFFFF_FFFF && Low64(b) == 0xFFFF_FFFF
    ensures b == 0 <==> High64(b) == 0 && Low64(b) == 0
  {
  }

  lemma Bits64(b: bv64)
    ensures Number64(!b) == 0xFFFF_FFFF_FFFF_FFFF - Number64(b)
    ensures 0x8000_0000_0000_0000 & b != 0 <==> Number64(b) >= 0x8000_0000_0000_0000
    ensures 0x8000_0000_0000_0000 & b == 0 ==>
      Number64(0x8000_0000_0000_0000 | b) == 0x8000_0000_0000_0000 + Number64(b)
    ensures Number64(b) < 0xFFFF_FFFF_FFFF_FFFF ==> Number64(b + 1) == Number64(b) + 1
    ensures (b == 0xFFFF_FFFF_FFFF_FFFF <==> Number64(b) == 0xFFFF_FFFF_FFFF_FFFF) && (b == 0 <==> Number64(b) == 0)
  {
    hide High64, Low64, Number32;
    ComplementParts64(b);
    SignParts64(b);
    CarryParts64(b);
    EndParts64(b);
    Bits32(High64(b));
    Bits32(Low64(b));
    Bits32(0);
  }

  // ---------- Order and differences ----------

  // Comparisons, sums and differences have names here, so that proofs can use what is known of
  // them without their bits.

  lemma Order8(a: bv8, b: bv8)
    ensures a < b <==> Number8(a) < Number8(b)
    ensures b < a <==> Number8(b) < Number8(a)
    ensures a == b <==> Number8(a) == Number8(b)
  {
  }

  predicate Less16(a: bv16, b: bv16) {
    a < b
  }

  predicate Less32(a: bv32, b: bv32) {
    a < b
  }

  predicate Less64(a: bv64, b: bv64) {
    a < b
  }

  lemma HighLess16(a: bv16, b: bv16)
    requires High16(a) < High16(b)
    ensures Less16(a, b) && !Less16(b, a)
  {
  }

  lemma LowLess16(a: bv16, b: bv16)
    requires High16(a) == High16(b) && Low16(a) < Low16(b)
    ensures Less16(a, b) && !Less16(b, a)
  {
  }

  lemma BothSame16(a: bv16, b: bv16)
    requires High16(a) == High16(b) && Low16(a) == Low16(b)
    ensures a == b && !Less16(a, b)
  {
  }

  /** Patterns are ordered as their numbers are. */
  lemma Order16(a: bv16, b: bv16)
    ensures Less16(a, b) <==> Number16(a) < Number16(b)
    ensures Less16(b, a) <==> Number16(b) < Number16(a)
    ensures a == b <==> Number16(a) == Number16(b)
  {
    hide High16, Low16, Number8, Less16;
    Order8(High16(a), High16(b));
    Order8(Low16(a), Low16(b));
    if Number8(High16(a)) < Number8(High16(b)) {
      HighLess16(a, b);
    } else if Number8(High16(b)) < Number8(High16(a)) {
      HighLess16(b, a);
    } else if Number8(Low16(a)) < Number8(Low16(b)) {
      LowLess16(a, b);
    } else if Number8(Low16(b)) < Number8(Low16(a)) {
      LowLess16(b, a);
    } else {
      BothSame16(a, b);
    }
  }

  lemma HighLess32(a: bv32, b: bv32)
    requires Less16(High32(a), High32(b))
    ensures Less32(a, b) && !Less32(b, a)
  {
  }

  lemma LowLess32(a: bv32, b: bv32)
    requires High32(a) == High32(b) && Less16(Low32(a), Low32(b))
    ensures Less32(a, b) && !Less32(b, a)
  {
  }

  lemma BothSame32(a: bv32, b: bv32)
    requires High32(a) == High32(b) && Low32(a) == Low32(b)
    ensures a == b && !Less32(a, b)
  {
  }

  /** Patterns are ordered as their numbers are. */
  lemma Order32(a: bv32, b: bv32)
    ensures Less32(a, b) <==> Number32(a) < Number32(b)
    ensures Less32(b, a) <==> Number32(b) < Number32(a)
    ensures a == b <==> Number32(a) == Number32(b)
  {
    hide High32, Low32, Number16, Less16, Less32;
    Order16(High32(a), High32(b));
    Order16(Low32(a), Low32(b));
    if Number16(High32(a)) < Number16(High32(b)) {
      HighLess32(a, b);
    } else if Number16(High32(b)) < Number16(High32(a)) {
      HighLess32(b, a);
    } else if Number16(Low32(a)) < Number16(Low32(b)) {
      LowLess32(a, b);
    } else if Number16(Low32(b)) < Number16(Low32(a)) {
      LowLess32(b, a);
    } else {
      BothSame32(a, b);
    }
  }

  lemma HighLess64(a: bv64, b: bv64)
    requires Less32(High64(a), High64(b))
    ensures Less64(a, b) && !Less64(b, a)
  {
  }

  lemma LowLess64(a: bv64, b: bv64)
    requires High64(a) == High64(b) && Less32(Low64(a), Low64(b))
    ensures Less64(a, b) && !Less64(b, a)
  {
  }

  lemma BothSame64(a: bv64, b: bv64)
    requires High64(a) == High64(b) && Low64(a) == Low64(b)
    ensures a == b && !Less64(a, b)
  {
  }

  /** Patterns are ordered as their numbers are. */
  lemma Order64(a: bv64, b: bv64)
    ensures Less64(a, b) <==> Number64(a) < Number64(b)
    ensures Less64(b, a) <==> Number64(b) < Number64(a)
    ensures a == b <==> Number64(a) == Number64(b)
  {
    hide High64, Low64, Number32, Less32, Less64;
    Order32(High64(a), High64(b));
    Order32(Low64(a), Low64(b));
    if Number32(High64(a)) < Number32(High64(b)) {
      HighLess64(a, b);
    } else if Number32(High64(b)) < Number32(High64(a)) {
      HighLess64(b, a);
    } else if Number32(Low64(a)) < Number32(Low64(b)) {
      LowLess64(a, b);
    } else if Number32(Low64(b)) < Number32(Low64(a)) {
      LowLess64(b, a);
    } else {
      BothSame64(a, b);
    }
  }

  function Plus32(a: bv32, b: bv32): bv32 {
    a + b
  }

  function Minus32(a: bv32, b: bv32): bv32 {
    a - b
  }

  function After32(b: bv32): bv32 {
    b + 1
  }

  function Before32(b: bv32): bv32 {
    b - 1
  }

  lemma PlusOne32(a: bv32, b: bv32)
    ensures Plus32(a, b) + 1 == Plus32(a, b + 1)
  {
  }

  lemma PlusAfter32(a: bv32, b: bv32)
    ensures After32(Plus32(a, b)) == Plus32(a, After32(b))
  {
    hide Plus32;
    PlusOne32(a, b);
  }

  lemma PlusNone32(a: bv32)
    ensures Plus32(a, 0) == a
  {
  }

  lemma BackAndOn32(b: bv32)
    ensures After32(Before32(b)) == b
  {
  }

  lemma NextNumber32(b: bv32)
    ensures Number32(b) < 0xFFFF_FFFF ==> Number32(After32(b)) == Number32(b) + 1
    ensures Number32(b) == 0xFFFF_FFFF ==> After32(b) == 0
    ensures b == 0 <==> Number32(b) == 0
  {
    hide Number32;
    Bits32(b);
  }

  lemma Cancel32(a: bv32, b: bv32)
    ensures Minus32(a + b, a) == b
  {
  }

  lemma OneBefore32(b: bv32)
    requires b != 0
    ensures Number32(Before32(b)) == Number32(b) - 1
  {
    hide Number32, Before32, After32;
    BackAndOn32(b);
    NextNumber32(Before32(b));
  }

  lemma {:induction false} Sum32(a: bv32, b: bv32)
    requires Number32(a) + Number32(b) < 0x1_0000_0000
    ensures Number32(Plus32(a, b)) == Number32(a) + Number32(b)
    decreases Number32(b)
  {
    hide Number32, Plus32, Before32, After32;
    NextNumber32(b);
    if b == 0 {
      PlusNone32(a);
    } else {
      BackAndOn32(b);
      OneBefore32(b);
      PlusAfter32(a, Before32(b));
      Sum32(a, Before32(b));
      NextNumber32(Plus32(a, Before32(b)));
    }
  }

  lemma {:induction false} Between32(a: bv32, b: bv32) returns (d: bv32)
    requires Number32(a) >= Number32(b)
    ensures Number32(d) == Number32(a) - Number32(b)
    decreases Number32(b)
  {
    hide Number32, Before32;
    NextNumber32(a);
    NextNumber32(b);
    if b == 0 {
      return a;
    }
    OneBefore32(a);
    OneBefore32(b);
    d := Between32(Before32(a), Before32(b));
  }

  /** A difference that is not negative. */
  lemma Difference32(a: bv32, b: bv32)
    requires Number32(a) >= Number32(b)
    ensures Number32(Minus32(a, b)) == Number32(a) - Number32(b)
  {
    hide Number32, Minus32, Less32;
    var d := Between32(a, b);
    Sum32(b, d);
    assert Plus32(b, d) == b + d;
    Order32(a, b + d);
    Cancel32(b, d);
  }

  function Plus64(a: bv64, b: bv64): bv64 {
    a + b
  }

  function Minus64(a: bv64, b: bv64): bv64 {
    a - b
  }

  function After64(b: bv64): bv64 {
    b + 1
  }

  function Before64(b: bv64): bv64 {
    b - 1
  }

  lemma PlusOne64(a: bv64, b: bv64)
    ensures Plus64(a, b) + 1 == Plus64(a, b + 1)
  {
  }

  lemma PlusAfter64(a: bv64, b: bv64)
    ensures After64(Plus64(a, b)) == Plus64(a, After64(b))
  {
    hide Plus64;
    PlusOne64(a, b);
  }

  lemma PlusNone64(a: bv64)
    ensures Plus64(a, 0) == a
  {
  }

  lemma BackAndOn64(b: bv64)
    ensures After64(Before64(b)) == b
  {
  }

  lemma NextNumber64(b: bv64)
    ensures Number64(b) < 0xFFFF_FFFF_FFFF_FFFF ==> Number64(After64(b)) == Number64(b) + 1
    ensures Number64(b) == 0xFFFF_FFFF_FFFF_FFFF ==> After64(b) == 0
    ensures b == 0 <==> Number64(b) == 0
  {
    hide Number64;
    Bits64(b);
  }

  lemma Cancel64(a: bv64, b: bv64)
    ensures Minus64(a + b, a) == b
  {
  }

  lemma OneBefore64(b: bv64)
    requires b != 0
    ensures Number64(Before64(b)) == Number64(b) - 1
  {
    hide Number64, Before64, After64;
    BackAndOn64(b);
    NextNumber64(Before64(b));
  }

  lemma {:induction false} Sum64(a: bv64, b: bv64)
    requires Number64(a) + Number64(b) < 0x1_0000_0000_0000_0000
    ensures Number64(Plus64(a, b)) == Number64(a) + Number64(b)
    decreases Number64(b)
  {
    hide Number64, Plus64, Before64, After64;
    NextNumber64(b);
    if b == 0 {
      PlusNone64(a);
    } else {
      BackAndOn64(b);
      OneBefore64(b);
      PlusAfter64(a, Before64(b));
      Sum64(a, Before64(b));
      NextNumber64(Plus64(a, Before64(b)));
    }
  }

  lemma {:induction false} Between64(a: bv64, b: bv64) returns (d: bv64)
    requires Number64(a) >= Number64(b)
    ensures Number64(d) == Number64(a) - Number64(b)
    decreases Number64(b)
  {
    hide Number64, Before64;
    NextNumber64(a);
    NextNumber64(b);
    if b == 0 {
      return a;
    }
    OneBefore64(a);
    OneBefore64(b);
    d := Between64(Before64(a), Before64(b));
  }

  /** A difference that is not negative. */
  lemma Difference64(a: bv64, b: bv64)
    requires Number64(a) >= Number64(b)
    ensures Number64(Minus64(a, b)) == Number64(a) - Number64(b)
  {
    hide Number64, Minus64, Less64;
    var d := Between64(a, b);
    Sum64(b, d);
    assert Plus64(b, d) == b + d;
    Order64(a, b + d);
    Cancel64(b, d);
  }
}
