/** The branch-free bit count (src/Util.h:38-44) against counting one bit at a time. */
module PopCounting {

  /** Bit j of a word, found by shifting it down to the bottom. */
  predicate BitAt(v: bv32, j: nat) {
    if j == 0 then v & 1 == 1 else BitAt(v >> 1, j - 1)
  }

  /** How many of the bits 0 .. n - 1 are set. */
  function BitsBelow(v: bv32, n: nat): nat {
    if n == 0 then 0 else BitsBelow(v, n - 1) + if BitAt(v, n - 1) then 1 else 0
  }

  /** Counts in pairs, nibbles and bytes at once. */
  function ByteCounts(v: bv32): bv32 {
    var pairs := v - ((v >> 1) & 0x55555555);
    var nibbles := (pairs & 0x33333333) + ((pairs >> 2) & 0x33333333);
    (nibbles + (nibbles >> 4)) & 0x0F0F0F0F
  }

  /** The multiplication adds the four byte counts into the top byte. */
  function TopByteOfProduct(w: bv32): bv32 { (w * 0x01010101) >> 24 }

  function PopCount(v: bv32): nat { TopByteOfProduct(ByteCounts(v)) as nat }

  // ----- what the stages compute

  /** The lowest eight bits added up one by one. */
  function EightBits(b: bv32): bv32 {
    (b & 1) + ((b >> 1) & 1) + ((b >> 2) & 1) + ((b >> 3) & 1)
    + ((b >> 4) & 1) + ((b >> 5) & 1) + ((b >> 6) & 1) + ((b >> 7) & 1)
  }

  // No byte carries into its neighbour.

  lemma LowByteCounted(v: bv32)
    ensures ByteCounts(v) & 0xFF == EightBits(v)
  {
  }

  lemma SecondByteCounted(v: bv32, v1: bv32)
    requires v1 == v >> 8
    ensures (ByteCounts(v) >> 8) & 0xFF == EightBits(v1)
  {
  }

  lemma ThirdByteCounted(v: bv32, v1: bv32, v2: bv32)
    requires v1 == v >> 8 && v2 == v1 >> 8
    ensures (ByteCounts(v) >> 16) & 0xFF == EightBits(v2)
  {
  }

  lemma HighByteCounted(v: bv32, v1: bv32, v2: bv32, v3: bv32)
    requires v1 == v >> 8 && v2 == v1 >> 8 && v3 == v2 >> 8
    ensures ByteCounts(v) >> 24 == EightBits(v3)
  {
  }

  lemma EightBitsSmall(b: bv32)
    ensures EightBits(b) <= 8
  {
  }

  lemma ProductAddsBytes(w: bv32, b0: bv32, b1: bv32, b2: bv32, b3: bv32)
    requires w & 0xFF == b0 <= 8 && (w >> 8) & 0xFF == b1 <= 8
    requires (w >> 16) & 0xFF == b2 <= 8 && w >> 24 == b3 <= 8
    ensures TopByteOfProduct(w) == b0 + b1 + b2 + b3
  {
  }

  lemma AddSmall(a: bv32, b: bv32)
    requires a <= 24 && b <= 24
    ensures (a + b) as nat == a as nat + b as nat
  {
  }

  // ----- the same bits one at a time

  lemma FourthBits(v: bv32)
    ensures BitAt(v, 0) == (v & 1 == 1) && BitAt(v, 1) == ((v >> 1) & 1 == 1)
    ensures BitAt(v, 2) == ((v >> 2) & 1 == 1) && BitAt(v, 3) == ((v >> 3) & 1 == 1)
  {
    assert BitAt(v, 3) == BitAt(v >> 1, 2) == BitAt((v >> 1) >> 1, 1) == BitAt(((v >> 1) >> 1) >> 1, 0);
  }

  lemma BitShifted4(v: bv32, j: nat)
    ensures BitAt(v, j + 4) == BitAt(v >> 4, j)
  {
    assert BitAt(v, j + 4) == BitAt(v >> 1, j + 3) == BitAt((v >> 1) >> 1, j + 2);
    assert BitAt((v >> 1) >> 1, j + 2) == BitAt(((v >> 1) >> 1) >> 1, j + 1);
    assert (((v >> 1) >> 1) >> 1) >> 1 == v >> 4;
  }

  lemma {:induction false} BitsSplit4(v: bv32, n: nat)
    ensures BitsBelow(v, n + 4) == BitsBelow(v, 4) + BitsBelow(v >> 4, n)
  {
    if n == 0 {
    } else {
      BitsSplit4(v, n - 1);
      BitShifted4(v, n - 1);
    }
  }

  lemma BitsSplit8(v: bv32, n: nat)
    ensures BitsBelow(v, n + 8) == BitsBelow(v, 8) + BitsBelow(v >> 8, n)
  {
    BitsSplit4(v, n + 4);
    BitsSplit4(v >> 4, n);
    BitsSplit4(v, 4);
    assert (v >> 4) >> 4 == v >> 8;
  }

  function FourBits(b: bv32): bv32 { (b & 1) + ((b >> 1) & 1) + ((b >> 2) & 1) + ((b >> 3) & 1) }

  /** The last bit as a number. */
  lemma OneBit(x: bv32)
    ensures x & 1 <= 1 && (x & 1) as nat == if x & 1 == 1 then 1 else 0
  {
  }

  lemma AddBits(a: bv32, b: bv32, c: bv32, d: bv32)
    requires a <= 1 && b <= 1 && c <= 1 && d <= 1
    ensures a + b + c + d <= 4 && (a + b + c + d) as nat == a as nat + b as nat + c as nat + d as nat
  {
    AddSmall(a, b);
    AddSmall(a + b, c);
    AddSmall(a + b + c, d);
  }

  lemma FirstFour(b: bv32)
    ensures BitsBelow(b, 4) == (if BitAt(b, 0) then 1 else 0) + (if BitAt(b, 1) then 1 else 0)
                               + (if BitAt(b, 2) then 1 else 0) + (if BitAt(b, 3) then 1 else 0)
  {
    hide BitAt;
    assert BitsBelow(b, 2) == BitsBelow(b, 0) + (if BitAt(b, 0) then 1 else 0) + if BitAt(b, 1) then 1 else 0;
  }

  lemma FourBitsCounted(b: bv32)
    ensures FourBits(b) <= 4 && FourBits(b) as nat == BitsBelow(b, 4)
  {
    hide BitAt, BitsBelow;
    FourthBits(b);
    FirstFour(b);
    OneBit(b);
    OneBit(b >> 1);
    OneBit(b >> 2);
    OneBit(b >> 3);
    AddBits(b & 1, (b >> 1) & 1, (b >> 2) & 1, (b >> 3) & 1);
  }

  lemma EightIsFourAndFour(b: bv32)
    ensures EightBits(b) == FourBits(b) + FourBits(b >> 4)
  {
  }

  lemma EightBitsCounted(b: bv32)
    ensures EightBits(b) as nat == BitsBelow(b, 8)
  {
    hide EightBits, FourBits, BitsBelow;
    EightIsFourAndFour(b);
    FourBitsCounted(b);
    FourBitsCounted(b >> 4);
    BitsSplit4(b, 4);
    AddSmall(FourBits(b), FourBits(b >> 4));
  }

  lemma BytesSplit(v: bv32, v1: bv32, v2: bv32, v3: bv32)
    requires v1 == v >> 8 && v2 == v1 >> 8 && v3 == v2 >> 8
    ensures BitsBelow(v, 32) == BitsBelow(v, 8) + BitsBelow(v1, 8) + BitsBelow(v2, 8) + BitsBelow(v3, 8)
  {
    hide BitsBelow;
    BitsSplit8(v, 24);
    BitsSplit8(v1, 16);
    BitsSplit8(v2, 8);
  }

  lemma FourSmall(a: bv32, b: bv32, c: bv32, d: bv32)
    requires a <= 8 && b <= 8 && c <= 8 && d <= 8
    ensures (a + b + c + d) as nat == a as nat + b as nat + c as nat + d as nat
  {
    AddSmall(a + b, c + d);
    AddSmall(a, b);
    AddSmall(c, d);
    assert a + b + c + d == (a + b) + (c + d);
  }

  lemma BytesAdded(w: bv32, b0: bv32, b1: bv32, b2: bv32, b3: bv32)
    requires w & 0xFF == b0 <= 8 && (w >> 8) & 0xFF == b1 <= 8
    requires (w >> 16) & 0xFF == b2 <= 8 && w >> 24 == b3 <= 8
    ensures TopByteOfProduct(w) as nat == b0 as nat + b1 as nat + b2 as nat + b3 as nat
  {
    hide *;
    ProductAddsBytes(w, b0, b1, b2, b3);
    FourSmall(b0, b1, b2, b3);
  }

  lemma ByteCountsAdded(v: bv32, v1: bv32, v2: bv32, v3: bv32)
    requires v1 == v >> 8 && v2 == v1 >> 8 && v3 == v2 >> 8
    ensures PopCount(v) == EightBits(v) as nat + EightBits(v1) as nat + EightBits(v2) as nat + EightBits(v3) as nat
  {
    hide ByteCounts, EightBits, TopByteOfProduct;
    LowByteCounted(v);
    SecondByteCounted(v, v1);
    ThirdByteCounted(v, v1, v2);
    HighByteCounted(v, v1, v2, v3);
    EightBitsSmall(v); EightBitsSmall(v1); EightBitsSmall(v2); EightBitsSmall(v3);
    BytesAdded(ByteCounts(v), EightBits(v), EightBits(v1), EightBits(v2), EightBits(v3));
  }

  lemma BytesCounted(v: bv32, v1: bv32, v2: bv32, v3: bv32)
    requires v1 == v >> 8 && v2 == v1 >> 8 && v3 == v2 >> 8
    ensures PopCount(v) == BitsBelow(v, 8) + BitsBelow(v1, 8) + BitsBelow(v2, 8) + BitsBelow(v3, 8)
  {
    hide *;
    ByteCountsAdded(v, v1, v2, v3);
    EightBitsCounted(v); EightBitsCounted(v1); EightBitsCounted(v2); EightBitsCounted(v3);
  }

  /** For every word the word-parallel count is the number of set bits. */
  lemma PopCountExact(v: bv32)
    ensures PopCount(v) == BitsBelow(v, 32)
  {
    var v1 := v >> 8;
    var v2 := v1 >> 8;
    var v3 := v2 >> 8;
    BytesCounted(v, v1, v2, v3);
    BytesSplit(v, v1, v2, v3);
  }

  // ----- bits of shifted and combined words

  lemma BitStep(v: bv32, half: bv32, j: nat)
    requires half == v >> 1
    ensures BitAt(v, j + 1) == BitAt(half, j)
  {
  }

  lemma ShiftOfOr(v: bv32, w: bv32, both: bv32, v1: bv32, w1: bv32, both1: bv32)
    requires both == v | w && v1 == v >> 1 && w1 == w >> 1 && both1 == both >> 1
    ensures both1 == v1 | w1
  {
  }

  lemma LowBitOfOr(v: bv32, w: bv32, both: bv32)
    requires both == v | w
    ensures BitAt(both, 0) <==> BitAt(v, 0) || BitAt(w, 0)
  {
  }

  lemma {:induction false} BitOfOr(v: bv32, w: bv32, both: bv32, j: nat)
    requires both == v | w
    ensures BitAt(both, j) <==> BitAt(v, j) || BitAt(w, j)
  {
    hide BitAt;
    if j == 0 {
      LowBitOfOr(v, w, both);
    } else {
      var v1, w1, both1 := v >> 1, w >> 1, both >> 1;
      ShiftOfOr(v, w, both, v1, w1, both1);
      BitOfOr(v1, w1, both1, j - 1);
      BitStep(v, v1, j - 1);
      BitStep(w, w1, j - 1);
      BitStep(both, both1, j - 1);
    }
  }

  lemma {:induction false} BitOfZero(j: nat)
    ensures !BitAt(0, j)
  {
    if j == 0 {
    } else {
      BitOfZero(j - 1);
      assert 0 as bv32 >> 1 == 0;
    }
  }

  lemma BitShifted16(v: bv32, half: bv32, j: nat)
    requires half == v >> 16
    ensures BitAt(v, j + 16) == BitAt(half, j)
  {
    hide BitAt;
    var a := v >> 4;
    var b := a >> 4;
    var c := b >> 4;
    var d := c >> 4;
    BitShifted4(v, j + 12);
    BitShifted4(a, j + 8);
    BitShifted4(b, j + 4);
    BitShifted4(c, j);
    assert d == half;
  }

  lemma NoBit32(v: bv32)
    ensures !BitAt(v, 32)
  {
    hide BitAt;
    var high := v >> 16;
    var gone := high >> 16;
    BitShifted16(v, high, 16);
    BitShifted16(high, gone, 0);
    assert gone == 0;
    BitOfZero(0);
  }

  predicate OnlyBit(v: bv32, n: int) {
    || (v == 0x40000000 && n == 30) || (v == 0x4000000 && n == 26) || (v == 0x400000 && n == 22)
    || (v == 0x40000 && n == 18) || (v == 0x4000 && n == 14) || (v == 0x400 && n == 10)
    || (v == 0x40 && n == 6) || (v == 0x4 && n == 2) || (v == 0 && n < 0)
  }

  lemma NextNibble(v: bv32, half: bv32, n: int)
    requires OnlyBit(v, n) && half == v >> 4
    ensures OnlyBit(half, n - 4)
  {
  }

  lemma LowNibble(v: bv32, n: int, j: nat)
    requires OnlyBit(v, n) && j < 4
    ensures BitAt(v, j) <==> j == n
  {
    FourthBits(v);
    hide BitAt;
  }

  lemma {:induction false} OnlyBitAt(v: bv32, n: int, j: nat)
    requires OnlyBit(v, n)
    ensures BitAt(v, j) <==> j == n
    decreases j
  {
    hide *;
    if j < 4 {
      LowNibble(v, n, j);
    } else {
      var half := v >> 4;
      NextNibble(v, half, n);
      BitShifted4(v, j - 4);
      OnlyBitAt(half, n - 4, j - 4);
    }
  }

  /** The frame history's update: every bit moves down one place and bit 30 may be set. */
  lemma BitOfShifted(v: bv32, half: bv32, next: bv32, top: bool, j: nat)
    requires half == v >> 1 && next == if top then half | 0x40000000 else half
    ensures BitAt(next, j) <==> BitAt(v, j + 1) || (top && j == 30)
  {
    hide BitAt;
    BitStep(v, half, j);
    if top {
      OnlyBitAt(0x40000000, 30, j);
      BitOfOr(half, 0x40000000, next, j);
    }
  }
}
