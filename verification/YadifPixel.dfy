/** One pixel of the Yadif deinterlacer (src/Deinterlace_Yadif.cpp:41-292): the nested-if form and
    one lane of the branch-free SIMD form, against one specification. */
module YadifPixel {
  import opened Words
  import opened Planes
  import opened Blend

  /** What one pixel reads: seven pixels of the lines above and below in the current frame, and single
      pixels of the two fields in time: (a)bove, (b)elow, the line itself, and two lines away. */
  datatype Window = Window(above: seq<Byte>, below: seq<Byte>, prevAbove: Byte, prevBelow: Byte, nextAbove: Byte,
                           nextBelow: Byte, prev2: Byte, next2: Byte, prev2Above2: Byte, next2Above2: Byte,
                           prev2Below2: Byte, next2Below2: Byte)

  predicate Full(w: Window) { |w.above| == 7 && |w.below| == 7 }

  function Above(w: Window, j: int): int
    requires Full(w) && -3 <= j <= 3
  {
    w.above[j + 3]
  }

  function Below(w: Window, j: int): int
    requires Full(w) && -3 <= j <= 3
  {
    w.below[j + 3]
  }

  function Max(x: int, y: int): int { if x < y then y else x }

  function Min(x: int, y: int): int { if x > y then y else x }

  function Max3(x: int, y: int, z: int): int { Max(Max(x, y), z) }

  function Min3(x: int, y: int, z: int): int { Min(Min(x, y), z) }

  // ----- specification

  /** How badly the lines above and below match along direction j. */
  function Score(w: Window, j: int): int
    requires Full(w) && -2 <= j <= 2
  {
    Abs(Above(w, j - 1) - Below(w, 0 - j - 1))
    + Abs(Above(w, j) - Below(w, 0 - j))
    + Abs(Above(w, j + 1) - Below(w, 1 - j))
  }

  /** The straight direction has an advantage of one. */
  function Rank(w: Window, j: int): int
    requires Full(w) && -2 <= j <= 2
  {
    if j == 0 then Score(w, 0) - 1 else Score(w, j)
  }

  /** A side is tried outwards, and only as long as it improves. */
  function Improved(w: Window, best: int, side: int): int
    requires Full(w) && -2 <= best <= 2 && (side == 1 || side == -1)
  {
    if Score(w, side) < Rank(w, best) then (if Score(w, 2 * side) < Score(w, side) then 2 * side else side) else best
  }

  function Direction(w: Window): (j: int)
    requires Full(w)
    ensures -2 <= j <= 2
  {
    Improved(w, Improved(w, 0, -1), 1)
  }

  function Spatial(w: Window, j: int): int
    requires Full(w) && -2 <= j <= 2
  {
    (Above(w, j) + Below(w, 0 - j)) / 2
  }

  function Temporal(w: Window): int { (w.prev2 as int + w.next2) / 2 }

  /** How much the lines around the pixel, and the two fields, differ between frames. */
  function Change(w: Window): int
    requires Full(w)
  {
    var c, e := Above(w, 0), Below(w, 0);
    Max3(Abs(w.prev2 as int - w.next2) / 2,
         (Abs(w.prevAbove as int - c) + Abs(w.prevBelow as int - e)) / 2,
         (Abs(w.nextAbove as int - c) + Abs(w.nextBelow as int - e)) / 2)
  }

  /** The change, or more where the pixel's line sticks out of its vertical neighbourhood. */
  function Bound(change: int, bc: int, fe: int, dc: int, de: int): int {
    Max3(change, Min3(de, dc, Max(bc, fe)), 0 - Max3(de, dc, Min(bc, fe)))
  }

  function TwoAbove(w: Window): int { (w.prev2Above2 as int + w.next2Above2) / 2 }

  function TwoBelow(w: Window): int { (w.prev2Below2 as int + w.next2Below2) / 2 }

  /** How far the result may stray from the temporal prediction. */
  function Tolerance(w: Window): int
    requires Full(w)
  {
    var c, d, e := Above(w, 0), Temporal(w), Below(w, 0);
    Bound(Change(w), TwoAbove(w) - c, TwoBelow(w) - e, d - c, d - e)
  }

  function Clamped(p: int, d: int, t: int): int {
    if p > d + t then d + t else if p < d - t then d - t else p
  }

  /** The spatial prediction, brought within the tolerance of the temporal one. */
  function Deinterlaced(w: Window): int
    requires Full(w)
  {
    Clamped(Spatial(w, Direction(w)), Temporal(w), Tolerance(w))
  }

  /** The chosen direction ranks no worse than straight and both first neighbours. */
  lemma DirectionImproves(w: Window)
    requires Full(w)
    ensures Rank(w, Direction(w)) <= Rank(w, 0)
    ensures Rank(w, Direction(w)) <= Score(w, -1) && Rank(w, Direction(w)) <= Score(w, 1)
    ensures Direction(w) == 2 ==> Score(w, 2) < Score(w, 1)
    ensures Direction(w) == -2 ==> Score(w, -2) < Score(w, -1)
  {
  }

  /** The result lies between the temporal and the spatial prediction, so it is a byte and neither the
      byte store nor the unsigned pack ever changes it. */
  lemma StaysBetween(w: Window)
    requires Full(w)
    ensures Tolerance(w) >= 0
    ensures var p, d := Spatial(w, Direction(w)), Temporal(w);
            Min(p, d) <= Deinterlaced(w) <= Max(p, d)
    ensures 0 <= Deinterlaced(w) <= 255
  {
    hide Direction, Min3;
    assert Tolerance(w) >= Change(w) >= 0;
    assert 0 <= Spatial(w, Direction(w)) <= 255 && 0 <= Temporal(w) <= 255;
  }

  // ----- the nested-if form

  method ScalarPixel(w: Window) returns (value: int)
    requires Full(w)
    ensures value == Deinterlaced(w)
  {
    hide Score, Direction, Max, Min;
    var c, d, e := Above(w, 0), (w.prev2 as int + w.next2) / 2, Below(w, 0);
    var temporalDiff0 := Abs(w.prev2 as int - w.next2);
    var temporalDiff1 := (Abs(w.prevAbove as int - c) + Abs(w.prevBelow as int - e)) / 2;
    var temporalDiff2 := (Abs(w.nextAbove as int - c) + Abs(w.nextBelow as int - e)) / 2;
    var diff := Max3(temporalDiff0 / 2, temporalDiff1, temporalDiff2);
    var spatialPred := SearchDirection(w);
    var b, f := (w.prev2Above2 as int + w.next2Above2) / 2, (w.prev2Below2 as int + w.next2Below2) / 2;
    var max := Max3(d - e, d - c, Min(b - c, f - e));
    var min := Min3(d - e, d - c, Max(b - c, f - e));
    diff := Max3(diff, min, 0 - max);
    if spatialPred > d + diff {
      spatialPred := d + diff;
    } else if spatialPred < d - diff {
      spatialPred := d - diff;
    }
    value := spatialPred;
  }

  method SearchDirection(w: Window) returns (spatialPred: int)
    requires Full(w)
    ensures spatialPred == Spatial(w, Direction(w))
  {
    hide Score;
    spatialPred := (Above(w, 0) + Below(w, 0)) / 2;
    var spatialScore := Score(w, 0) - 1;
    var score := Score(w, -1);
    if score < spatialScore {
      spatialScore := score;
      spatialPred := Spatial(w, -1);
      score := Score(w, -2);
      if score < spatialScore {
        spatialScore := score;
        spatialPred := Spatial(w, -2);
      }
    }
    score := Score(w, 1);
    if score < spatialScore {
      spatialScore := score;
      spatialPred := Spatial(w, 1);
      score := Score(w, 2);
      if score < spatialScore {
        spatialScore := score;
        spatialPred := Spatial(w, 2);
      }
    }
  }

  // ----- operations on lanes of sixteen and eight bits

  function Wrap16(x: int): int { (x + 0x8000) % 0x10000 - 0x8000 }

  function Add16(a: int, b: int): int { Wrap16(a + b) }

  function Sub16(a: int, b: int): int { Wrap16(a - b) }

  function AddSaturated16(a: int, b: int): int { Max(-0x8000, Min(0x7FFF, a + b)) }

  /** Logical shift to the right of the two's complement pattern. */
  function ShiftRight16(x: int): int { Wrap16(x % 0x10000 / 2) }

  /** Arithmetic shift to the right. */
  function ShiftRightSigned16(x: int): int { x / 2 }

  function ShiftLeft16(x: int, n: nat): int { Wrap16(x * PowerOfTwo(n)) }

  /** All ones or all zeros. */
  function Greater16(a: int, b: int): int { if a > b then -1 else 0 }

  /** Bitwise and, for a mask of all ones or all zeros. */
  function Masked(mask: int, x: int): int
    requires mask == 0 || mask == -1
  {
    if mask == 0 then 0 else x
  }

  function AndNot(mask: int, x: int): int
    requires mask == 0 || mask == -1
  {
    if mask == 0 then x else 0
  }

  /** Bitwise or, where one operand is zero. */
  function Or16(a: int, b: int): int
    requires a == 0 || b == 0
  {
    a + b
  }

  function SubSaturated8(a: Byte, b: Byte): Byte { Max(0, a as int - b as int) }

  function AverageUp8(a: Byte, b: Byte): Byte { (a as int + b as int + 1) / 2 }

  /** The rounding-up average less the lowest bit of the exclusive or: the floor average. */
  function AverageDown8(a: Byte, b: Byte): Byte {
    LowestBit(a, b);
    SubSaturated8(AverageUp8(a, b), And(Xor(a, b), 1))
  }

  lemma LowestBit(a: nat, b: nat)
    ensures And(Xor(a, b), 1) == if a % 2 != b % 2 then 1 else 0
  {
    hide And, Xor;
    XorHalves(a, b);
    var x := Xor(a, b);
    AndHalves(x, 1);
    AddByDigits(x / 2, 0);
    NoneInCommon(x / 2);
  }

  lemma NoneInCommon(x: nat)
    ensures And(x, 0) == 0
  {
  }

  lemma AverageDownIsFloor(a: Byte, b: Byte)
    ensures AverageDown8(a, b) as int == (a as int + b as int) / 2
  {
    hide And, Xor;
    LowestBit(a, b);
  }

  function AbsDiff8(a: Byte, b: Byte): Byte { Max(SubSaturated8(a, b), SubSaturated8(b, a)) }

  /** Both forms of the absolute value: the larger of x and 0 - x. */
  function Abs16(x: int): int { Max(x, Sub16(0, x)) }

  function PackUnsigned(x: int): Byte { if x < 0 then 0 else if x > 255 then 255 else x }

  lemma SmallExact(x: int)
    requires -0x8000 <= x < 0x8000
    ensures Wrap16(x) == x
    ensures x >= 0 ==> ShiftRight16(x) == x / 2
  {
  }

  lemma AbsDiffExact(a: Byte, b: Byte)
    ensures AbsDiff8(a, b) as int == Abs(a as int - b as int)
  {
  }

  // ----- one lane of the branch-free form

  /** Absolute value of a difference of two bytes held in sixteen bits. */
  lemma AbsOfDifference(a: int, b: int)
    requires 0 <= a <= 510 && 0 <= b <= 510
    ensures Abs16(Sub16(a, b)) == Abs(a - b)
  {
  }

  /** The temporal prediction and the change, in registers. */
  method TemporalLane(w: Window) returns (tmp1: int, tmp3: int)
    requires Full(w)
    ensures tmp1 == Temporal(w) && tmp3 == Change(w)
  {
    hide Max, Wrap16, Abs;
    var xmm0, xmm1, xmm2: int, xmm3: int := Above(w, 0), Below(w, 0), w.prev2, w.next2;
    var xmm4 := xmm3;
    SmallExact(xmm3 + xmm2);
    xmm3 := Add16(xmm3, xmm2);
    xmm3 := ShiftRightSigned16(xmm3);
    tmp1 := xmm3;
    AbsOfDifference(xmm2, xmm4);
    xmm2 := Abs16(Sub16(xmm2, xmm4));
    xmm3, xmm4 := w.prevAbove, w.prevBelow;
    xmm3 := TwoDifferences(xmm3, xmm4, xmm0, xmm1);
    AbsSmall(w.prev2, w.next2);
    SmallExact(xmm2);
    xmm2 := ShiftRight16(xmm2);
    xmm2 := Max(xmm2, xmm3);
    xmm3, xmm4 := w.nextAbove, w.nextBelow;
    xmm3 := TwoDifferences(xmm3, xmm4, xmm0, xmm1);
    xmm2 := Max(xmm2, xmm3);
    tmp3 := xmm2;
  }

  lemma AbsSmall(a: Byte, b: Byte)
    ensures 0 <= Abs(a as int - b as int) <= 255
  {
  }

  /** Half the sum of the differences of two pairs of pixels. */
  method TwoDifferences(xmm3: int, xmm4: int, xmm0: int, xmm1: int) returns (r: int)
    requires 0 <= xmm0 <= 255 && 0 <= xmm1 <= 255 && 0 <= xmm3 <= 255 && 0 <= xmm4 <= 255
    ensures r == (Abs(xmm3 - xmm0) + Abs(xmm4 - xmm1)) / 2
  {
    hide Max, Wrap16, Abs;
    AbsOfDifference(xmm3, xmm0);
    AbsOfDifference(xmm4, xmm1);
    AbsSmall(xmm3, xmm0);
    AbsSmall(xmm4, xmm1);
    SmallExact(Abs(xmm3 - xmm0) + Abs(xmm4 - xmm1));
    r := Add16(Abs16(Sub16(xmm3, xmm0)), Abs16(Sub16(xmm4, xmm1)));
    r := ShiftRight16(r);
  }

  /** The CHECK macro: the score and the prediction of direction pj + 1, from bytes. */
  method CheckLane(w: Window, pj: int, mj: int) returns (xmm2: int, xmm5: int)
    requires Full(w) && -3 <= pj <= 1 && mj == 0 - 2 - pj
    ensures xmm2 == Score(w, pj + 1) && 0 <= xmm2 <= 765 && xmm5 == Spatial(w, pj + 1)
  {
    hide AbsDiff8, Abs, AverageDown8, Wrap16;
    var u0: Byte, u1: Byte, u2: Byte := Above(w, pj), Above(w, pj + 1), Above(w, pj + 2);
    var v0: Byte, v1: Byte, v2: Byte := Below(w, mj), Below(w, mj + 1), Below(w, mj + 2);
    AverageDownIsFloor(u1, v1);
    xmm5 := AverageDown8(u1, v1);
    AbsDiffExact(u0, v0);
    AbsDiffExact(u1, v1);
    AbsDiffExact(u2, v2);
    xmm2 := AbsDiff8(u0, v0);
    var xmm3: int, xmm4: int := AbsDiff8(u1, v1), AbsDiff8(u2, v2);
    SmallExact(xmm2 + xmm3);
    SmallExact(xmm2 + xmm3 + xmm4);
    xmm2 := Add16(xmm2, xmm3);
    xmm2 := Add16(xmm2, xmm4);
  }

  /** The score and prediction of the straight direction. */
  method StraightLane(w: Window) returns (xmm0: int, xmm1: int)
    requires Full(w)
    ensures xmm0 == Rank(w, 0) && -1 <= xmm0 <= 764 && xmm1 == Spatial(w, 0)
  {
    hide AbsDiff8, Abs, Wrap16, Max;
    xmm0, xmm1 := Above(w, 0), Below(w, 0);
    SmallExact(xmm1 + xmm0);
    SmallExact(xmm0 + xmm0);
    AbsOfDifference(xmm0 + xmm0, xmm1 + xmm0);
    AbsSmall(Above(w, 0), Below(w, 0));
    xmm1 := Add16(xmm1, xmm0);
    xmm0 := Add16(xmm0, xmm0);
    xmm0 := Sub16(xmm0, xmm1);
    xmm1 := ShiftRight16(xmm1);
    xmm0 := Abs16(xmm0);
    AbsDiffExact(Above(w, -1), Below(w, -1));
    AbsDiffExact(Above(w, 1), Below(w, 1));
    var xmm2: int, xmm3: int := AbsDiff8(Above(w, -1), Below(w, -1)), AbsDiff8(Above(w, 1), Below(w, 1));
    SmallExact(xmm0 + xmm2);
    SmallExact(xmm0 + xmm2 + xmm3);
    SmallExact(xmm0 + xmm2 + xmm3 - 1);
    xmm0 := Add16(xmm0, xmm2);
    xmm0 := Add16(xmm0, xmm3);
    xmm0 := Sub16(xmm0, 1);
  }

  /** CHECK1: take the direction if it scores lower; xmm6 remembers whether it did. */
  method Check1(score: int, pred: int, best: int, prediction: int) returns (xmm0: int, xmm1: int, xmm6: int)
    ensures xmm0 == Min(best, score) && xmm1 == (if best > score then pred else prediction)
    ensures xmm6 == if best > score then -1 else 0
  {
    var xmm3 := Greater16(best, score);
    xmm0 := Min(best, score);
    xmm6 := xmm3;
    xmm1 := Or16(AndNot(xmm3, prediction), Masked(xmm3, pred));
  }

  /** The score, pushed out of reach where the mask is clear. */
  method PushedScore(score: int, mask: int) returns (xmm2: int)
    requires (mask == 0 || mask == -1) && 0 <= score <= 765
    ensures xmm2 == if mask == -1 then score else score + 0x4000
  {
    var xmm6 := Add16(mask, 1);
    xmm6 := ShiftLeft16(xmm6, 14);
    assert PowerOfTwo(7) == 128 && PowerOfTwo(14) == 0x4000;
    xmm2 := AddSaturated16(score, xmm6);
  }

  /** CHECK2: where CHECK1 did not take its direction the score is pushed out of reach instead of branching. */
  method Check2(score: int, pred: int, best: int, prediction: int, mask: int) returns (xmm0: int, xmm1: int)
    requires (mask == 0 || mask == -1) && 0 <= score <= 765 && -1 <= best <= 765
    ensures xmm0 == (if mask == -1 then Min(best, score) else best)
    ensures xmm1 == (if mask == -1 && best > score then pred else prediction)
  {
    var xmm2 := PushedScore(score, mask);
    var xmm3 := Greater16(best, xmm2);
    xmm0 := Min(best, xmm2);
    xmm1 := Or16(AndNot(xmm3, prediction), Masked(xmm3, pred));
  }

  method SearchDirectionLane(w: Window) returns (xmm1: int)
    requires Full(w)
    ensures xmm1 == Spatial(w, Direction(w))
  {
    hide Score, Spatial;
    var xmm0, xmm6: int;
    xmm0, xmm1 := StraightLane(w);
    var xmm2, xmm5 := CheckLane(w, -2, 0);
    xmm0, xmm1, xmm6 := Check1(xmm2, xmm5, xmm0, xmm1);
    xmm2, xmm5 := CheckLane(w, -3, 1);
    xmm0, xmm1 := Check2(xmm2, xmm5, xmm0, xmm1, xmm6);
    xmm2, xmm5 := CheckLane(w, 0, -2);
    xmm0, xmm1, xmm6 := Check1(xmm2, xmm5, xmm0, xmm1);
    xmm2, xmm5 := CheckLane(w, 1, -3);
    xmm0, xmm1 := Check2(xmm2, xmm5, xmm0, xmm1, xmm6);
  }

  /** The mean of the pixels two lines away. */
  method TwoLinesLane(a: Byte, b: Byte) returns (r: int)
    ensures r == (a as int + b as int) / 2 && 0 <= r <= 255
  {
    hide Wrap16;
    SmallExact(a as int + b as int);
    r := Add16(a, b);
    r := ShiftRight16(r);
  }

  method ToleranceRegister(w: Window, tmp1: int, tmp3: int) returns (xmm6: int)
    requires Full(w) && tmp1 == Temporal(w) && tmp3 == Change(w)
    ensures xmm6 == Tolerance(w) && 0 <= xmm6 <= 255
  {
    hide Wrap16, Change, Temporal, Bound;
    ChangeSmall(w);
    var tmp0, tmp2 := Above(w, 0), Below(w, 0);
    var xmm2 := TwoLinesLane(w.prev2Above2, w.next2Above2);
    var xmm3 := TwoLinesLane(w.prev2Below2, w.next2Below2);
    SmallExact(xmm2 - tmp0);
    SmallExact(xmm3 - tmp2);
    SmallExact(tmp1 - tmp0);
    SmallExact(tmp1 - tmp2);
    xmm2 := Sub16(xmm2, tmp0);
    xmm3 := Sub16(xmm3, tmp2);
    var xmm5 := Sub16(tmp1, tmp0);
    var xmm0 := Sub16(tmp1, tmp2);
    xmm6 := ToleranceLane(xmm2, xmm3, xmm5, xmm0, tmp3);
  }

  /** The lane's value before the pack: maximum and minimum instead of the two comparisons. */
  method ClampLane(tmp1: int, xmm6: int, prediction: int) returns (xmm1: int)
    requires 0 <= tmp1 <= 255 && 0 <= xmm6 <= 255
    ensures xmm1 == Clamped(prediction, tmp1, xmm6)
  {
    hide Wrap16;
    SmallExact(tmp1 - xmm6);
    SmallExact(tmp1 + xmm6);
    var xmm2 := Sub16(tmp1, xmm6);
    var xmm3 := Add16(tmp1, xmm6);
    xmm1 := Max(prediction, xmm2);
    xmm1 := Min(xmm1, xmm3);
  }

  lemma ChangeSmall(w: Window)
    requires Full(w)
    ensures 0 <= Change(w) <= 255 && 0 <= Temporal(w) <= 255 && 0 <= TwoAbove(w) <= 255 && 0 <= TwoBelow(w) <= 255
  {
  }

  /** The tolerance, with maxima and minima in the order of the registers. */
  method ToleranceLane(bc: int, fe: int, dc: int, de: int, change: int) returns (xmm6: int)
    requires -255 <= bc <= 255 && -255 <= fe <= 255 && -255 <= dc <= 255 && -255 <= de <= 255 && 0 <= change <= 255
    ensures xmm6 == Bound(change, bc, fe, dc, de) && 0 <= xmm6 <= 255
  {
    hide Wrap16;
    var xmm2, xmm3 := bc, fe;
    var xmm4 := xmm2;
    xmm2 := Min(xmm2, xmm3);
    xmm3 := Max(xmm3, xmm4);
    xmm2 := Max(xmm2, dc);
    xmm3 := Min(xmm3, dc);
    xmm2 := Max(xmm2, de);
    xmm3 := Min(xmm3, de);
    xmm6 := Max(change, xmm3);
    SmallExact(0 - xmm2);
    xmm4 := Sub16(0, xmm2);
    xmm6 := Max(xmm6, xmm4);
  }

  /** One lane of FILTER_FUNC. The pack at its end saturates nothing. */
  method SimdPixel(w: Window) returns (value: Byte)
    requires Full(w)
    ensures value as int == Deinterlaced(w)
  {
    hide Temporal, Change, Direction, Tolerance;
    var tmp1, tmp3 := TemporalLane(w);
    var xmm1 := SearchDirectionLane(w);
    ChangeSmall(w);
    var xmm6 := ToleranceRegister(w, tmp1, tmp3);
    xmm1 := ClampLane(tmp1, xmm6, xmm1);
    StaysBetween(w);
    value := PackUnsigned(xmm1);
  }
}
