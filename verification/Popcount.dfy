/** The software popcount: SWAR steps that keep in every field the count of that field's
    own bits, and a multiplication that sums the bytes into the top one. */
module Popcount {
  // The masks are (T)~(T)0 / 3, / 15 * 3, / 255 * 15 and / 255.

  function Pairs(v: bv64): bv64 {
    v - ((v >> 1) & 0x5555_5555_5555_5555)
  }

  function Nibbles(v: bv64): bv64 {
    (v & 0x3333_3333_3333_3333) + ((v >> 2) & 0x3333_3333_3333_3333)
  }

  function Bytes(v: bv64): bv64 {
    (v + (v >> 4)) & 0x0f0f_0f0f_0f0f_0f0f
  }

  function Top(v: bv64): bv64 {
    (v * 0x0101_0101_0101_0101) >> 56
  }

  function Popcnt64(v: bv64): nat {
    Val(Top(Bytes(Nibbles(Pairs(v)))))
  }

  function Bytes32(v: bv32): bv32 {
    var v1 := v - ((v >> 1) & 0x5555_5555);
    var v2 := (v1 & 0x3333_3333) + ((v1 >> 2) & 0x3333_3333);
    (v2 + (v2 >> 4)) & 0x0f0f_0f0f
  }

  function Top32(v: bv32): bv32 {
    (v * 0x0101_0101) >> 24
  }

  function Popcnt32(v: bv32): nat {
    Top32(Bytes32(v)) as nat
  }

  function Val(v: bv64): nat {
    v as nat
  }

  // --- fields, addressed by the position of their lowest bit ---

  function Bit(v: bv64, i: bv64): bv64
    requires i < 64
  {
    (v >> i) & 1
  }

  function Pair(v: bv64, i: bv64): bv64
    requires i < 64
  {
    (v >> i) & 3
  }

  function Nibble(v: bv64, i: bv64): bv64
    requires i < 64
  {
    (v >> i) & 15
  }

  function Byte(v: bv64, i: bv64): bv64
    requires i < 64
  {
    (v >> i) & 255
  }

  /** The number of set bits below position n. */
  function Count(v: bv64, n: bv64): nat
    requires n <= 64
    decreases n
  {
    if n == 0 then 0 else Val(Bit(v, n - 1)) + Count(v, n - 1)
  }

  /** The sum of the bytes below position n. */
  function ByteSum(v: bv64, n: bv64): nat
    requires n <= 64 && n & 7 == 0
    decreases n
  {
    if n == 0 then 0 else Val(Byte(v, n - 8)) + ByteSum(v, n - 8)
  }

  // --- small sums do not wrap ---

  lemma Zero()
    ensures Val(0) == 0
  {
  }

  lemma Successor(a: bv64)
    requires a <= 255
    ensures Val(a + 1) == Val(a) + 1
  {
  }

  lemma SmallStep(a: bv64, c: bv64)
    requires a <= 63 && c <= 62 && Val(a + c) == Val(a) + Val(c)
    ensures Val(a + (c + 1)) == Val(a) + Val(c + 1)
  {
    hide Val;
    Successor(a + c);
    Successor(c);
    assert a + (c + 1) == (a + c) + 1;
  }

  lemma Previous(n: bv64)
    requires 0 < n <= 255
    ensures Val(n - 1) < Val(n)
  {
    Successor(n - 1);
    assert (n - 1) + 1 == n;
  }

  lemma {:induction false} SmallSum(a: bv64, b: bv64)
    requires a <= 63 && b <= 63
    ensures Val(a + b) == Val(a) + Val(b)
    decreases Val(b)
  {
    hide Val;
    if b == 0 {
      Zero();
      assert a + 0 == a;
    } else {
      var c := b - 1;
      assert c <= 62 && b == c + 1;
      Previous(b);
      SmallSum(a, c);
      SmallStep(a, c);
    }
  }

  // --- after each step every field holds the sum of its halves ---

  /** The sum the subtraction computes. */
  function PairsAdded(v: bv64): bv64 {
    (v & 0x5555_5555_5555_5555) + ((v >> 1) & 0x5555_5555_5555_5555)
  }

  lemma PairsAdd(v: bv64)
    ensures Pairs(v) == PairsAdded(v)
  {
  }

  lemma PairAdded(v: bv64, i: bv64)
    requires i < 64 && i & 1 == 0
    ensures Pair(PairsAdded(v), i) == Bit(v, i) + Bit(v, i + 1)
  {
  }

  lemma PairField(v: bv64, i: bv64)
    requires i < 64 && i & 1 == 0
    ensures Pair(Pairs(v), i) == Bit(v, i) + Bit(v, i + 1)
  {
    hide Pairs, PairsAdded, Pair, Bit;
    PairsAdd(v);
    PairAdded(v, i);
  }

  lemma BitBound(v: bv64, i: bv64)
    requires i < 64
    ensures Bit(v, i) <= 1
  {
  }

  lemma NibbleField(v: bv64, i: bv64)
    requires i < 64 && i & 3 == 0
    ensures Nibble(Nibbles(v), i) == Pair(v, i) + Pair(v, i + 2)
    ensures Pair(v, i) <= 3 && Pair(v, i + 2) <= 3
    ensures Nibbles(v) & 0x8888_8888_8888_8888 == 0
  {
  }

  lemma ByteField(v: bv64, i: bv64)
    requires i < 64 && i & 7 == 0 && v & 0x8888_8888_8888_8888 == 0
    ensures Byte(Bytes(v), i) == Nibble(v, i) + Nibble(v, i + 4)
    ensures Nibble(v, i) <= 7 && Nibble(v, i + 4) <= 7
    ensures Bytes(v) & 0xf0f0_f0f0_f0f0_f0f0 == 0
  {
  }

  lemma Below(n: bv64)
    requires 0 < n <= 64 && n & 7 == 0
    ensures n - 8 < n && (n - 8) & 7 == 0 && (n - 8) + 8 == n && n - 8 < 64
    ensures Val(n - 8) < Val(n)
  {
  }

  lemma PairFieldVal(v: bv64, i: bv64)
    requires i < 64 && i & 1 == 0
    ensures Val(Pair(Pairs(v), i)) == Val(Bit(v, i)) + Val(Bit(v, i + 1))
  {
    hide Pairs, Pair, Bit, Val;
    PairField(v, i);
    BitBound(v, i);
    BitBound(v, i + 1);
    SmallSum(Bit(v, i), Bit(v, i + 1));
  }

  /** After step one a pair holds the count of its own bits of the word. */
  lemma PairCounts(v: bv64, i: bv64)
    requires i < 64 && i & 1 == 0
    ensures i + 2 <= 64 && Val(Pair(Pairs(v), i)) + Count(v, i) == Count(v, i + 2)
  {
    hide Pairs, Pair, Bit, Val;
    PairFieldVal(v, i);
    assert Count(v, i + 2) == Val(Bit(v, i + 1)) + Count(v, i + 1);
  }

  lemma NibbleFieldVal(v: bv64, i: bv64)
    requires i < 64 && i & 3 == 0
    ensures Val(Nibble(Nibbles(v), i)) == Val(Pair(v, i)) + Val(Pair(v, i + 2))
  {
    hide Nibbles, Nibble, Pair, Val;
    NibbleField(v, i);
    SmallSum(Pair(v, i), Pair(v, i + 2));
  }

  lemma Twice(i: bv64, h: bv64)
    requires i < 64 && h in {2, 4} && i & (2 * h - 1) == 0
    ensures i & (h - 1) == 0 && (i + h) & (h - 1) == 0 && i + h < 64 && i + 2 * h <= 64
  {
  }

  /** After step two a nibble holds the count of its own bits of the word. */
  lemma NibbleCounts(v: bv64, i: bv64)
    requires i < 64 && i & 3 == 0
    ensures i + 4 <= 64 && Val(Nibble(Nibbles(Pairs(v)), i)) + Count(v, i) == Count(v, i + 4)
  {
    hide Pairs, Nibbles, Nibble, Pair, Val, Count;
    Twice(i, 2);
    NibbleFieldVal(Pairs(v), i);
    PairCounts(v, i);
    PairCounts(v, i + 2);
  }

  lemma ByteFieldVal(v: bv64, i: bv64)
    requires i < 64 && i & 7 == 0 && v & 0x8888_8888_8888_8888 == 0
    ensures Val(Byte(Bytes(v), i)) == Val(Nibble(v, i)) + Val(Nibble(v, i + 4))
  {
    hide Bytes, Byte, Nibble, Val;
    ByteField(v, i);
    SmallSum(Nibble(v, i), Nibble(v, i + 4));
  }

  /** After step three a byte holds the count of its own bits of the word. */
  lemma ByteCounts(v: bv64, i: bv64)
    requires i < 64 && i & 7 == 0
    ensures i + 8 <= 64 && Val(Byte(Bytes(Nibbles(Pairs(v))), i)) + Count(v, i) == Count(v, i + 8)
  {
    hide Pairs, Nibbles, Bytes, Byte, Nibble, Val, Count;
    Twice(i, 4);
    NibbleField(Pairs(v), 0);
    ByteFieldVal(Nibbles(Pairs(v)), i);
    NibbleCounts(v, i);
    NibbleCounts(v, i + 4);
  }

  lemma {:induction false} BytesCount(v: bv64, n: bv64, k: nat)
    requires n <= 64 && n & 7 == 0 && k == Val(n)
    ensures ByteSum(Bytes(Nibbles(Pairs(v))), n) == Count(v, n)
    decreases k
  {
    hide Pairs, Nibbles, Bytes, Byte, Val, Count;
    if n != 0 {
      var i := n - 8;
      Below(n);
      BytesCount(v, i, Val(i));
      ByteCounts(v, i);
    } else {
      CountEmpty(v);
    }
  }

  lemma CountEmpty(v: bv64)
    ensures Count(v, 0) == 0
  {
  }

  // --- the multiplication sums the bytes ---

  function Mul8(v: bv64): bv64 { v * 0x101 }

  function Mul16(v: bv64): bv64 { v * 0x1_0001 }

  function Mul32(v: bv64): bv64 { v * 0x1_0000_0001 }

  /** 0x0101...01 is 0x101 * 0x10001 * 0x100000001. */
  lemma Factors(v: bv64)
    ensures Top(v) == Mul32(Mul16(Mul8(v))) >> 56
  {
    Factor16(v);
    Factor32(v);
    hide Mul8, Mul16, Mul32;
  }

  lemma Factor16(v: bv64)
    ensures Mul16(Mul8(v)) == v * 0x0101_0101
  {
    assert Mul16(v * 0x101) == v * 0x0101_0101;
  }

  lemma Factor32(v: bv64)
    ensures Mul32(v * 0x0101_0101) == v * 0x0101_0101_0101_0101
  {
  }

  lemma Folds8(v: bv64)
    ensures Mul8(v) == v + (v << 8)
  {
  }

  lemma Folds16(v: bv64)
    ensures Mul16(v) == v + (v << 16)
  {
  }

  lemma Folds32(v: bv64)
    ensures Mul32(v) == v + (v << 32)
  {
  }

  lemma Fold8(v: bv64, i: bv64)
    requires 8 <= i < 64 && i & 7 == 0 && v & 0xf0f0_f0f0_f0f0_f0f0 == 0
    ensures Byte(v + (v << 8), i) == Byte(v, i) + Byte(v, i - 8)
    ensures Byte(v, i) <= 15 && Byte(v, i - 8) <= 15
    ensures (v + (v << 8)) & 0xe0e0_e0e0_e0e0_e0e0 == 0
  {
  }

  lemma Fold16(v: bv64, i: bv64)
    requires 16 <= i < 64 && i & 7 == 0 && v & 0xe0e0_e0e0_e0e0_e0e0 == 0
    ensures Byte(v + (v << 16), i) == Byte(v, i) + Byte(v, i - 16)
    ensures Byte(v, i) <= 31 && Byte(v, i - 16) <= 31
    ensures (v + (v << 16)) & 0xc0c0_c0c0_c0c0_c0c0 == 0
  {
  }

  lemma Fold32(v: bv64)
    requires v & 0xc0c0_c0c0_c0c0_c0c0 == 0
    ensures (v + (v << 32)) >> 56 == Byte(v, 56) + Byte(v, 24)
    ensures Byte(v, 56) <= 63 && Byte(v, 24) <= 63
  {
  }

  lemma Step8(v: bv64, i: bv64)
    requires 8 <= i < 64 && i & 7 == 0 && v & 0xf0f0_f0f0_f0f0_f0f0 == 0
    ensures Val(Byte(Mul8(v), i)) == Val(Byte(v, i)) + Val(Byte(v, i - 8))
    ensures Mul8(v) & 0xe0e0_e0e0_e0e0_e0e0 == 0
  {
    hide Byte, Val, Mul8;
    Folds8(v);
    Fold8(v, i);
    SmallSum(Byte(v, i), Byte(v, i - 8));
  }

  lemma Step16(v: bv64, i: bv64)
    requires 16 <= i < 64 && i & 7 == 0 && v & 0xe0e0_e0e0_e0e0_e0e0 == 0
    ensures Val(Byte(Mul16(v), i)) == Val(Byte(v, i)) + Val(Byte(v, i - 16))
    ensures Mul16(v) & 0xc0c0_c0c0_c0c0_c0c0 == 0
  {
    hide Byte, Val, Mul16;
    Folds16(v);
    Fold16(v, i);
    SmallSum(Byte(v, i), Byte(v, i - 16));
  }

  lemma Step32(v: bv64)
    requires v & 0xc0c0_c0c0_c0c0_c0c0 == 0
    ensures Val(Mul32(v) >> 56) == Val(Byte(v, 56)) + Val(Byte(v, 24))
  {
    hide Byte, Val, Mul32;
    Folds32(v);
    Fold32(v);
    SmallSum(Byte(v, 56), Byte(v, 24));
  }

  /** No byte overflows on the way to the top one. */
  lemma TopSums(v: bv64)
    requires v & 0xf0f0_f0f0_f0f0_f0f0 == 0
    ensures Val(Top(v)) == ByteSum(v, 64)
  {
    hide Byte, Val, Top, Mul8, Mul16, Mul32;
    var a, b := Mul8(v), Mul16(Mul8(v));
    Step8(v, 56);
    Step8(v, 40);
    Step8(v, 24);
    Step8(v, 8);
    Step16(a, 56);
    Step16(a, 24);
    Step32(b);
    Factors(v);
    EightBytes(v);
  }

  lemma EightBytes(v: bv64)
    ensures ByteSum(v, 64) == Val(Byte(v, 56)) + Val(Byte(v, 48)) + Val(Byte(v, 40)) + Val(Byte(v, 32))
                           + Val(Byte(v, 24)) + Val(Byte(v, 16)) + Val(Byte(v, 8)) + Val(Byte(v, 0))
  {
    hide Byte, Val;
    assert ByteSum(v, 16) == Val(Byte(v, 8)) + Val(Byte(v, 0)) + ByteSum(v, 0);
    assert ByteSum(v, 32) == Val(Byte(v, 24)) + Val(Byte(v, 16)) + ByteSum(v, 16);
    assert ByteSum(v, 48) == Val(Byte(v, 40)) + Val(Byte(v, 32)) + ByteSum(v, 32);
  }

  // --- main results ---

  /** The SWAR result is the number of set bits, for every 64-bit word. */
  lemma Popcnt64Counts(v: bv64)
    ensures Popcnt64(v) == Count(v, 64)
  {
    hide Pairs, Nibbles, Bytes, Top, Val;
    var q := Nibbles(Pairs(v));
    NibbleField(Pairs(v), 0);
    ByteField(q, 0);
    TopSums(Bytes(q));
    BytesCount(v, 64, Val(64));
  }

  /** The 32-bit steps leave in the bytes what the 64-bit steps leave on the widened word. */
  lemma Widen(v: bv32)
    ensures Bytes32(v) as bv64 == Bytes(Nibbles(Pairs(v as bv64)))
    ensures Bytes32(v) & 0xf0f0_f0f0 == 0
  {
  }

  lemma WidenTop(v: bv32)
    requires v & 0xf0f0_f0f0 == 0
    ensures Top32(v) as bv64 == Top(v as bv64)
  {
  }

  lemma WidenVal(v: bv32)
    ensures v as nat == Val(v as bv64)
  {
  }

  /** The SWAR result is the number of set bits, for every 32-bit word. */
  lemma Popcnt32Counts(v: bv32)
    ensures Popcnt32(v) == Count(v as bv64, 64)
  {
    hide Bytes32, Top32, Pairs, Nibbles, Bytes, Top, Val, Count;
    Widen(v);
    WidenTop(Bytes32(v));
    WidenVal(Top32(Bytes32(v)));
    Popcnt64Counts(v as bv64);
  }
}
