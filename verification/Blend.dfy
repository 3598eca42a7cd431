/** Averaging rows of bytes (src/Blend.h:29-67, 71-227) four at a time in one word, and sixteen
    at a time with the rounding-up average. Words are little-endian. */
module Blend {

  import opened Words
  import opened Planes

  // ----- bitwise operations on binary digits

  function And(a: nat, b: nat): nat {
    if a == 0 || b == 0 then 0 else 2 * And(a / 2, b / 2) + if a % 2 == 1 && b % 2 == 1 then 1 else 0
  }

  function Xor(a: nat, b: nat): nat {
    if a == 0 && b == 0 then 0 else 2 * Xor(a / 2, b / 2) + if a % 2 != b % 2 then 1 else 0
  }

  /** Addition is the carries twice plus the sum without carries. */
  lemma {:induction false} AddByDigits(a: nat, b: nat)
    ensures a + b == 2 * And(a, b) + Xor(a, b)
  {
    if a == 0 && b == 0 {
    } else {
      AddByDigits(a / 2, b / 2);
      XorHalves(a, b);
      AndHalves(a, b);
    }
  }

  lemma AndHalves(a: nat, b: nat)
    ensures And(a, b) == 2 * And(a / 2, b / 2) + if a % 2 == 1 && b % 2 == 1 then 1 else 0
  {
  }

  lemma XorHalves(a: nat, b: nat)
    ensures Xor(a, b) == 2 * Xor(a / 2, b / 2) + if a % 2 != b % 2 then 1 else 0
  {
  }

  // ----- four bytes in a word

  function Word(s: seq<Byte>): nat {
    if s == [] then 0 else s[0] + 256 * Word(s[1..])
  }

  // A word's bytes are combined separately.

  lemma And2(h: nat, l: nat, h': nat, l': nat)
    requires l < 2 && l' < 2
    ensures And(2 * h + l, 2 * h' + l') == 2 * And(h, h') + And(l, l')
  {
    AndHalves(2 * h + l, 2 * h' + l');
    AndHalves(l, l');
  }

  lemma And4(h: nat, l: nat, h': nat, l': nat)
    requires l < 4 && l' < 4
    ensures And(4 * h + l, 4 * h' + l') == 4 * And(h, h') + And(l, l')
  {
    hide And;
    var m, i, m', i' := l / 2, l % 2, l' / 2, l' % 2;
    And2(2 * h + m, i, 2 * h' + m', i');
    And2(h, m, h', m');
    And2(m, i, m', i');
    assert 4 * h + l == 2 * (2 * h + m) + i && 4 * h' + l' == 2 * (2 * h' + m') + i';
  }

  lemma And16(h: nat, l: nat, h': nat, l': nat)
    requires l < 16 && l' < 16
    ensures And(16 * h + l, 16 * h' + l') == 16 * And(h, h') + And(l, l')
  {
    hide And;
    var m, i, m', i' := l / 4, l % 4, l' / 4, l' % 4;
    And4(4 * h + m, i, 4 * h' + m', i');
    And4(h, m, h', m');
    And4(m, i, m', i');
    assert 16 * h + l == 4 * (4 * h + m) + i && 16 * h' + l' == 4 * (4 * h' + m') + i';
  }

  lemma And256(h: nat, l: nat, h': nat, l': nat)
    requires l < 256 && l' < 256
    ensures And(256 * h + l, 256 * h' + l') == 256 * And(h, h') + And(l, l')
  {
    hide And;
    var m, i, m', i' := l / 16, l % 16, l' / 16, l' % 16;
    And16(16 * h + m, i, 16 * h' + m', i');
    And16(h, m, h', m');
    And16(m, i, m', i');
    assert 256 * h + l == 16 * (16 * h + m) + i && 256 * h' + l' == 16 * (16 * h' + m') + i';
  }

  lemma Xor2(h: nat, l: nat, h': nat, l': nat)
    requires l < 2 && l' < 2
    ensures Xor(2 * h + l, 2 * h' + l') == 2 * Xor(h, h') + Xor(l, l')
  {
    XorHalves(2 * h + l, 2 * h' + l');
    XorHalves(l, l');
  }

  lemma Xor4(h: nat, l: nat, h': nat, l': nat)
    requires l < 4 && l' < 4
    ensures Xor(4 * h + l, 4 * h' + l') == 4 * Xor(h, h') + Xor(l, l')
  {
    hide Xor;
    var m, i, m', i' := l / 2, l % 2, l' / 2, l' % 2;
    Xor2(2 * h + m, i, 2 * h' + m', i');
    Xor2(h, m, h', m');
    Xor2(m, i, m', i');
    assert 4 * h + l == 2 * (2 * h + m) + i && 4 * h' + l' == 2 * (2 * h' + m') + i';
  }

  lemma Xor16(h: nat, l: nat, h': nat, l': nat)
    requires l < 16 && l' < 16
    ensures Xor(16 * h + l, 16 * h' + l') == 16 * Xor(h, h') + Xor(l, l')
  {
    hide Xor;
    var m, i, m', i' := l / 4, l % 4, l' / 4, l' % 4;
    Xor4(4 * h + m, i, 4 * h' + m', i');
    Xor4(h, m, h', m');
    Xor4(m, i, m', i');
    assert 16 * h + l == 4 * (4 * h + m) + i && 16 * h' + l' == 4 * (4 * h' + m') + i';
  }

  lemma Xor256(h: nat, l: nat, h': nat, l': nat)
    requires l < 256 && l' < 256
    ensures Xor(256 * h + l, 256 * h' + l') == 256 * Xor(h, h') + Xor(l, l')
  {
    hide Xor;
    var m, i, m', i' := l / 16, l % 16, l' / 16, l' % 16;
    Xor16(16 * h + m, i, 16 * h' + m', i');
    Xor16(h, m, h', m');
    Xor16(m, i, m', i');
    assert 256 * h + l == 16 * (16 * h + m) + i && 256 * h' + l' == 16 * (16 * h' + m') + i';
  }

  // ----- the packed average

  /** (a & b) + (((a ^ b) & mask) >> 1), where mask clears the lowest bit of every byte. */
  function PackedAverage(a: nat, b: nat, mask: nat): nat {
    And(a, b) + And(Xor(a, b), mask) / 2
  }

  lemma {:induction false} XorBelow(a: nat, b: nat, n: nat)
    requires a < PowerOfTwo(n) && b < PowerOfTwo(n)
    ensures Xor(a, b) < PowerOfTwo(n)
  {
    if n == 0 {
    } else {
      XorBelow(a / 2, b / 2, n - 1);
    }
  }

  lemma {:induction false} AndOnes(x: nat, n: nat)
    requires x < PowerOfTwo(n)
    ensures And(x, PowerOfTwo(n) - 1) == x
  {
    if n == 0 {
    } else {
      AndOnes(x / 2, n - 1);
    }
  }

  /** One byte: no rounding up, no overflow. */
  lemma ByteAverage(a: Byte, b: Byte)
    ensures PackedAverage(a, b, 0xFE) == (a + b) / 2
  {
    hide And, Xor;
    AddByDigits(a, b);
    var x := Xor(a, b);
    assert PowerOfTwo(4) == 16 && PowerOfTwo(8) == 256;
    XorBelow(a, b, 8);
    AndHalves(x, 0xFE);
    assert PowerOfTwo(3) == 8 && PowerOfTwo(7) == 128;
    AndOnes(x / 2, 7);
  }

  lemma EvenMask(x: nat, m: nat)
    requires m % 2 == 0
    ensures And(x, m) % 2 == 0
  {
    AndHalves(x, m);
    hide And;
  }

  /** The lowest byte is averaged apart from the others: nothing is carried into or out of it. */
  lemma BytePeels(a: Byte, highA: nat, b: Byte, highB: nat, highMask: nat)
    requires highMask % 2 == 0
    ensures PackedAverage(256 * highA + a, 256 * highB + b, 256 * highMask + 0xFE)
            == 256 * PackedAverage(highA, highB, highMask) + PackedAverage(a, b, 0xFE)
  {
    hide And, Xor;
    And256(highA, a, highB, b);
    Xor256(highA, a, highB, b);
    assert PowerOfTwo(4) == 16 && PowerOfTwo(8) == 256;
    XorBelow(a, b, 8);
    And256(Xor(highA, highB), Xor(a, b), highMask, 0xFE);
    EvenMask(Xor(highA, highB), highMask);
    EvenMask(Xor(a, b), 0xFE);
  }

  /** 0xfe in each of n bytes. */
  function Mask(n: nat): nat { if n == 0 then 0 else 256 * Mask(n - 1) + 0xFE }

  /** Half averages a and b; Quarter weighs a, b and c by 1, 2 and 1. */
  datatype Kernel = Half | Quarter

  function Weighed(k: Kernel, a: Byte, b: Byte, c: Byte, up: nat): Byte
    requires up <= 1
  {
    match k
    case Half => (a as int + b as int + up) / 2
    case Quarter => (a as int + 2 * b as int + c as int + 3 * up) / 4
  }

  /** A row of weighed bytes, rounded down (up = 0) or up (up = 1). */
  ghost function Filtered(k: Kernel, a: seq<Byte>, b: seq<Byte>, c: seq<Byte>, up: nat): seq<Byte>
    requires |a| == |b| == |c| && up <= 1
  {
    seq(|a|, i requires 0 <= i < |a| => Weighed(k, a[i], b[i], c[i], up))
  }

  lemma FilteredFirst(k: Kernel, a: seq<Byte>, b: seq<Byte>, c: seq<Byte>, up: nat)
    requires |a| == |b| == |c| > 0 && up <= 1
    ensures |Filtered(k, a, b, c, up)| == |a|
    ensures Filtered(k, a, b, c, up)[0] == Weighed(k, a[0], b[0], c[0], up)
    ensures Filtered(k, a, b, c, up)[1..] == Filtered(k, a[1..], b[1..], c[1..], up)
  {
    hide Weighed;
  }

  lemma WordFirst(s: seq<Byte>)
    requires |s| > 0
    ensures Word(s) == 256 * Word(s[1..]) + s[0]
  {
  }

  lemma MaskFirst(n: nat)
    requires n > 0
    ensures Mask(n) == 256 * Mask(n - 1) + 0xFE && Mask(n - 1) % 2 == 0
  {
  }

  lemma AverageOfZeros()
    ensures PackedAverage(0, 0, 0) == 0
  {
  }

  lemma {:induction false} NoBytes(a: seq<Byte>, b: seq<Byte>)
    requires |a| == |b| == 0
    ensures PackedAverage(Word(a), Word(b), Mask(|a|)) == 0 == Word(Filtered(Half, a, b, b, 0))
  {
    hide PackedAverage, Weighed;
    AverageOfZeros();
  }

  lemma {:induction false} WordAverage(a: seq<Byte>, b: seq<Byte>)
    requires |a| == |b|
    ensures PackedAverage(Word(a), Word(b), Mask(|a|)) == Word(Filtered(Half, a, b, b, 0))
  {
    hide *;
    if |a| == 0 {
      NoBytes(a, b);
    } else {
      WordAverage(a[1..], b[1..]);
      FilteredFirst(Half, a, b, b, 0);
      WordFirst(a);
      WordFirst(b);
      WordFirst(Filtered(Half, a, b, b, 0));
      MaskFirst(|a|);
      BytePeels(a[0], Word(a[1..]), b[0], Word(b[1..]), Mask(|a| - 1));
      ByteAverage(a[0], b[0]);
      HalfIsAverage(a[0], b[0]);
    }
  }

  lemma HalfIsAverage(a: Byte, b: Byte)
    ensures Weighed(Half, a, b, b, 0) == (a + b) / 2
  {
  }

  // ----- loads and stores

  function Bytes(w: nat, n: nat): seq<Byte> {
    if n == 0 then [] else [w % 256] + Bytes(w / 256, n - 1)
  }

  lemma {:induction false} BytesOfWord(s: seq<Byte>)
    ensures Bytes(Word(s), |s|) == s
  {
    if s == [] {
    } else {
      BytesOfWord(s[1..]);
    }
  }

  lemma WordOfFour(s: seq<Byte>)
    requires |s| == 4
    ensures Word(s) == s[0] as int + s[1] as int * 0x100 + s[2] as int * 0x10000 + s[3] as int * 0x1000000
    ensures Word(s) < 0x1_0000_0000
  {
    assert Word(s[3..]) == s[3];
    assert s[1..][1..] == s[2..] && s[2..][1..] == s[3..];
  }

  lemma WordOfSlice(s: seq<Byte>, i: nat)
    requires i + 4 <= |s|
    ensures Word(s[i..i + 4])
            == s[i] as int + s[i + 1] as int * 0x100 + s[i + 2] as int * 0x10000 + s[i + 3] as int * 0x1000000
    ensures Word(s[i..i + 4]) < 0x1_0000_0000
  {
    hide Word;
    var t := s[i..i + 4];
    WordOfFour(t);
    assert t[0] == s[i] && t[1] == s[i + 1] && t[2] == s[i + 2] && t[3] == s[i + 3];
  }

  function Load32(s: seq<Byte>, i: nat): (w: nat)
    requires i + 4 <= |s|
    ensures w == Word(s[i..i + 4]) && w < 0x1_0000_0000
  {
    WordOfSlice(s, i);
    s[i] as int + s[i + 1] as int * 0x100 + s[i + 2] as int * 0x10000 + s[i + 3] as int * 0x1000000
  }

  lemma BytesOfFour(w: nat)
    ensures Bytes(w, 4) == [w % 256, w / 0x100 % 256, w / 0x10000 % 256, w / 0x1000000 % 256]
  {
    assert w / 256 / 256 == w / 0x10000 && w / 256 / 256 / 256 == w / 0x1000000;
    assert Bytes(w / 0x1000000, 1) == [w / 0x1000000 % 256];
    assert Bytes(w / 0x10000, 2) == [w / 0x10000 % 256] + Bytes(w / 0x1000000, 1);
    assert Bytes(w / 0x100, 3) == [w / 0x100 % 256] + Bytes(w / 0x10000, 2);
  }

  method Store32(a: array<Byte>, i: nat, w: nat)
    requires i + 4 <= a.Length
    modifies a
    ensures OnlyChanged(old(a[..]), a[..], i, 4) && a[..][i..i + 4] == Bytes(w, 4)
  {
    BytesOfFour(w);
    hide Bytes;
    a[i], a[i + 1], a[i + 2], a[i + 3] := w % 256, w / 0x100 % 256, w / 0x10000 % 256, w / 0x1000000 % 256;
  }

  /** (a & b) + (((a ^ b) & 0xfefefefe) >> 1) in 32 bits. */
  function Average32(a: nat, b: nat): nat {
    PackedAverage(a, b, 0xfefefefe) % 0x1_0000_0000
  }

  lemma Average32Exact(a: seq<Byte>, b: seq<Byte>)
    requires |a| == |b| == 4
    ensures |Filtered(Half, a, b, b, 0)| == 4
    ensures Average32(Word(a), Word(b)) == Word(Filtered(Half, a, b, b, 0))
  {
    hide PackedAverage, Word, Weighed;
    WordAverage(a, b);
    assert Mask(2) == 0xfefe && Mask(4) == 0xfefefefe;
    WordOfFour(Filtered(Half, a, b, b, 0));
  }

  /** The average of the outer rows averaged with the middle row. */
  lemma QuarterByHalves(a: seq<Byte>, b: seq<Byte>, c: seq<Byte>, up: nat)
    requires |a| == |b| == |c| && up <= 1
    ensures var ac := Filtered(Half, a, c, c, up);
            |ac| == |a| && Filtered(Half, ac, b, b, up) == Filtered(Quarter, a, b, c, up)
  {
    forall i | 0 <= i < |a|
      ensures Weighed(Half, Weighed(Half, a[i], c[i], c[i], up), b[i], b[i], up)
              == Weighed(Quarter, a[i], b[i], c[i], up)
    {
      HalvesAgain(a[i], b[i], c[i], up);
    }
    hide Weighed;
  }

  lemma HalvesAgain(a: Byte, b: Byte, c: Byte, up: nat)
    requires up <= 1
    ensures Weighed(Half, Weighed(Half, a, c, c, up), b, b, up) == Weighed(Quarter, a, b, c, up)
  {
  }

  // ----- the part of a row done so far

  ghost predicate RowDone(k: Kernel, up: nat, dst: seq<Byte>, d: nat, src: seq<Byte>, p1: nat, p2: nat, p3: nat,
                          n: nat) {
    && up <= 1 && d + n <= |dst| && p1 + n <= |src| && p2 + n <= |src| && p3 + n <= |src|
    && dst[d..d + n] == Filtered(k, src[p1..p1 + n], src[p2..p2 + n], src[p3..p3 + n], up)
  }

  lemma FilteredJoin(k: Kernel, a: seq<Byte>, b: seq<Byte>, c: seq<Byte>,
                     a': seq<Byte>, b': seq<Byte>, c': seq<Byte>, up: nat)
    requires |a| == |b| == |c| && |a'| == |b'| == |c'| && up <= 1
    ensures Filtered(k, a + a', b + b', c + c', up) == Filtered(k, a, b, c, up) + Filtered(k, a', b', c', up)
  {
    hide Weighed;
  }

  /** The next n bytes, written without touching what was done. */
  lemma MoreDone(k: Kernel, up: nat, before: seq<Byte>, dst: seq<Byte>, d: nat, src: seq<Byte>,
                 p1: nat, p2: nat, p3: nat, i: nat, n: nat)
    requires RowDone(k, up, before, d, src, p1, p2, p3, i)
    requires OnlyChanged(before, dst, d + i, n)
    requires RowDone(k, up, dst, d + i, src, p1 + i, p2 + i, p3 + i, n)
    ensures RowDone(k, up, dst, d, src, p1, p2, p3, i + n)
  {
    FilteredJoin(k, src[p1..p1 + i], src[p2..p2 + i], src[p3..p3 + i],
                 src[p1 + i..p1 + i + n], src[p2 + i..p2 + i + n], src[p3 + i..p3 + i + n], up);
    hide Filtered;
    SliceJoin(src, p1, i, n);
    SliceJoin(src, p2, i, n);
    SliceJoin(src, p3, i, n);
    SliceJoin(dst, d, i, n);
    assert dst[d..d + i] == before[d..d + i];
  }

  /** A row to be written: its n bytes go to d, from three places of the source. */
  datatype Job = Job(k: Kernel, up: nat, first: seq<Byte>, d: nat, src: seq<Byte>, p1: nat, p2: nat, p3: nat, n: nat)

  ghost predicate Possible(j: Job) {
    && j.up <= 1 && j.d + j.n <= |j.first|
    && j.p1 + j.n <= |j.src| && j.p2 + j.n <= |j.src| && j.p3 + j.n <= |j.src|
  }

  /** The first i bytes are done and nothing outside the row has changed. */
  ghost predicate Progress(j: Job, now: seq<Byte>, i: nat) {
    && Possible(j) && i <= j.n && OnlyChanged(j.first, now, j.d, j.n)
    && RowDone(j.k, j.up, now, j.d, j.src, j.p1, j.p2, j.p3, i)
  }

  lemma Started(j: Job)
    requires Possible(j)
    ensures Progress(j, j.first, 0)
  {
  }

  /** There is room for m more bytes. */
  lemma Room(j: Job, now: seq<Byte>, i: nat, m: nat)
    requires Progress(j, now, i) && i + m <= j.n
    ensures j.d + i + m <= |now|
    ensures j.p1 + i + m <= |j.src| && j.p2 + i + m <= |j.src| && j.p3 + i + m <= |j.src|
  {
  }

  lemma Advanced(j: Job, before: seq<Byte>, now: seq<Byte>, i: nat, m: nat)
    requires Progress(j, before, i) && i + m <= j.n
    requires OnlyChanged(before, now, j.d + i, m)
    requires RowDone(j.k, j.up, now, j.d + i, j.src, j.p1 + i, j.p2 + i, j.p3 + i, m)
    ensures Progress(j, now, i + m)
  {
    hide RowDone;
    ChangesWithin(j.first, before, now, j.d, j.n, j.d + i, m);
    MoreDone(j.k, j.up, before, now, j.d, j.src, j.p1, j.p2, j.p3, i, m);
  }

  lemma Finished(j: Job, now: seq<Byte>)
    requires Progress(j, now, j.n)
    ensures OnlyChanged(j.first, now, j.d, j.n) && RowDone(j.k, j.up, now, j.d, j.src, j.p1, j.p2, j.p3, j.n)
  {
  }

  // ----- rows of four bytes at a time

  lemma SpanOfWords(width: nat)
    ensures Span(width, 4) == 4 * ((width + 3) / 4)
  {
  }

  /** Storing the average of two words averages their bytes. */
  lemma WordDone(now: seq<Byte>, d: nat, src: seq<Byte>, p1: nat, p2: nat)
    requires d + 4 <= |now| && p1 + 4 <= |src| && p2 + 4 <= |src|
    requires now[d..d + 4] == Bytes(Average32(Word(src[p1..p1 + 4]), Word(src[p2..p2 + 4])), 4)
    ensures RowDone(Half, 0, now, d, src, p1, p2, p2, 4)
  {
    hide Average32, Bytes, Word, Filtered;
    Average32Exact(src[p1..p1 + 4], src[p2..p2 + 4]);
    BytesOfWord(Filtered(Half, src[p1..p1 + 4], src[p2..p2 + 4], src[p2..p2 + 4], 0));
  }

  lemma WordAdvanced(j: Job, before: seq<Byte>, now: seq<Byte>, i: nat, d: nat, p1: nat, p2: nat)
    requires Progress(j, before, i) && i + 4 <= j.n && OnlyChanged(before, now, d, 4) && d + 4 <= |now|
    requires j.k == Half && j.up == 0 && j.p3 == j.p2 && d == j.d + i && p1 == j.p1 + i && p2 == j.p2 + i
    requires p1 + 4 <= |j.src| && p2 + 4 <= |j.src|
    requires now[d..d + 4] == Bytes(Average32(Word(j.src[p1..p1 + 4]), Word(j.src[p2..p2 + 4])), 4)
    ensures Progress(j, now, i + 4)
  {
    hide *;
    WordDone(now, d, j.src, p1, p2);
    Advanced(j, before, now, i, 4);
  }

  /** Averages the next word of the two rows. */
  method AverageWord(dst: array<Byte>, src: seq<Byte>, d: nat, p1: nat, p2: nat)
    requires d + 4 <= dst.Length && p1 + 4 <= |src| && p2 + 4 <= |src|
    modifies dst
    ensures OnlyChanged(old(dst[..]), dst[..], d, 4)
    ensures dst[d..d + 4] == Bytes(Average32(Word(src[p1..p1 + 4]), Word(src[p2..p2 + 4])), 4)
  {
    hide *;
    var a := Load32(src, p1);
    var b := Load32(src, p2);
    Store32(dst, d, Average32(a, b));
  }

  method BlendRow2(dst: array<Byte>, d: nat, src: seq<Byte>, p1: nat, p2: nat, width: nat)
    requires width > 0 && d + Span(width, 4) <= dst.Length
    requires p1 + Span(width, 4) <= |src| && p2 + Span(width, 4) <= |src|
    modifies dst
    ensures OnlyChanged(old(dst[..]), dst[..], d, Span(width, 4))
    ensures RowDone(Half, 0, dst[..], d, src, p1, p2, p2, Span(width, 4))
  {
    hide Progress, RowDone, OnlyChanged, Span, Bytes, Word, Average32, Filtered;
    ghost var j := Job(Half, 0, dst[..], d, src, p1, p2, p2, Span(width, 4));
    Started(j);
    var w4 := (width + 3) / 4;
    var i := 0;
    SpanOfWords(width);
    while w4 > 0
      invariant 0 <= i && 0 <= w4 && i + 4 * w4 == j.n
      invariant Progress(j, dst[..], i)
    {
      ghost var before: seq<Byte> := dst[..];
      AverageWord(dst, src, d + i, p1 + i, p2 + i);
      WordAdvanced(j, before, dst[..], i, d + i, p1 + i, p2 + i);
      i := i + 4;
      w4 := w4 - 1;
    }
    Finished(j, dst[..]);
  }

  lemma TwoAverages(a: seq<Byte>, b: seq<Byte>, c: seq<Byte>)
    requires |a| == |b| == |c| == 4
    ensures |Filtered(Quarter, a, b, c, 0)| == 4
    ensures Average32(Average32(Word(a), Word(c)), Word(b)) == Word(Filtered(Quarter, a, b, c, 0))
  {
    hide Average32, Word, Weighed;
    Average32Exact(a, c);
    Average32Exact(Filtered(Half, a, c, c, 0), b);
    QuarterByHalves(a, b, c, 0);
  }

  lemma QuarterAdvanced(j: Job, before: seq<Byte>, now: seq<Byte>, i: nat, d: nat, p1: nat, p2: nat, p3: nat)
    requires Progress(j, before, i) && i + 4 <= j.n && OnlyChanged(before, now, d, 4) && d + 4 <= |now|
    requires j.k == Quarter && j.up == 0 && d == j.d + i && p1 == j.p1 + i && p2 == j.p2 + i && p3 == j.p3 + i
    requires p1 + 4 <= |j.src| && p2 + 4 <= |j.src| && p3 + 4 <= |j.src|
    requires now[d..d + 4] == Bytes(Average32(Average32(Word(j.src[p1..p1 + 4]), Word(j.src[p3..p3 + 4])),
                                              Word(j.src[p2..p2 + 4])), 4)
    ensures Progress(j, now, i + 4)
  {
    hide Average32, Word, Filtered, Progress, Bytes;
    TwoAverages(j.src[p1..p1 + 4], j.src[p2..p2 + 4], j.src[p3..p3 + 4]);
    BytesOfWord(Filtered(Quarter, j.src[p1..p1 + 4], j.src[p2..p2 + 4], j.src[p3..p3 + 4], 0));
    ProgressUp(j, before, i);
    Advanced(j, before, now, i, 4);
  }

  lemma ProgressUp(j: Job, now: seq<Byte>, i: nat)
    requires Progress(j, now, i)
    ensures Possible(j)
  {
  }

  method QuarterWord(dst: array<Byte>, src: seq<Byte>, d: nat, p1: nat, p2: nat, p3: nat)
    requires d + 4 <= dst.Length && p1 + 4 <= |src| && p2 + 4 <= |src| && p3 + 4 <= |src|
    modifies dst
    ensures OnlyChanged(old(dst[..]), dst[..], d, 4)
    ensures dst[d..d + 4] == Bytes(Average32(Average32(Word(src[p1..p1 + 4]), Word(src[p3..p3 + 4])),
                                             Word(src[p2..p2 + 4])), 4)
  {
    hide *;
    var a := Load32(src, p1);
    var b := Load32(src, p2);
    var c := Load32(src, p3);
    var r := Average32(a, c);
    r := Average32(r, b);
    Store32(dst, d, r);
  }

  method BlendRow3(dst: array<Byte>, d: nat, src: seq<Byte>, p1: nat, p2: nat, p3: nat, width: nat)
    requires width > 0 && d + Span(width, 4) <= dst.Length
    requires p1 + Span(width, 4) <= |src| && p2 + Span(width, 4) <= |src| && p3 + Span(width, 4) <= |src|
    modifies dst
    ensures OnlyChanged(old(dst[..]), dst[..], d, Span(width, 4))
    ensures RowDone(Quarter, 0, dst[..], d, src, p1, p2, p3, Span(width, 4))
  {
    hide Progress, RowDone, OnlyChanged, Span, Bytes, Word, Average32, Filtered;
    ghost var j := Job(Quarter, 0, dst[..], d, src, p1, p2, p3, Span(width, 4));
    Started(j);
    var w4 := (width + 3) / 4;
    var i := 0;
    SpanOfWords(width);
    while w4 > 0
      invariant 0 <= i && 0 <= w4 && i + 4 * w4 == j.n
      invariant Progress(j, dst[..], i)
    {
      ghost var before: seq<Byte> := dst[..];
      QuarterWord(dst, src, d + i, p1 + i, p2 + i, p3 + i);
      QuarterAdvanced(j, before, dst[..], i, d + i, p1 + i, p2 + i, p3 + i);
      i := i + 4;
      w4 := w4 - 1;
    }
    Finished(j, dst[..]);
  }

  // ----- rows of sixteen bytes at a time

  /** Sixteen lanes of the instruction that averages bytes, rounding up. */
  function AverageEpu8(a: seq<Byte>, b: seq<Byte>): seq<Byte>
    requires |a| == |b| == 16
  {
    seq(16, i requires 0 <= i < 16 => (a[i] as int + b[i] as int + 1) / 2)
  }

  lemma AverageEpu8Rounds(a: seq<Byte>, b: seq<Byte>)
    requires |a| == |b| == 16
    ensures AverageEpu8(a, b) == Filtered(Half, a, b, b, 1)
  {
  }

  /** What a row operation stores for one block of sixteen bytes. */
  function Block(k: Kernel, a: seq<Byte>, b: seq<Byte>, c: seq<Byte>): (r: seq<Byte>)
    requires |a| == |b| == |c| == 16
    ensures |r| == 16
  {
    match k
    case Half => AverageEpu8(a, b)
    case Quarter => AverageEpu8(AverageEpu8(a, c), b)
  }

  lemma BlockFiltered(k: Kernel, a: seq<Byte>, b: seq<Byte>, c: seq<Byte>)
    requires |a| == |b| == |c| == 16
    ensures Block(k, a, b, c) == Filtered(k, a, b, if k == Half then b else c, 1)
  {
    AverageEpu8Rounds(a, b);
    AverageEpu8Rounds(a, c);
    AverageEpu8Rounds(AverageEpu8(a, c), b);
    QuarterByHalves(a, b, c, 1);
    hide AverageEpu8, Filtered;
  }

  method AverageBlock(k: Kernel, dst: array<Byte>, src: seq<Byte>, d: nat, p1: nat, p2: nat, p3: nat, ghost j: Job,
                      ghost i: nat)
    requires Progress(j, dst[..], i) && i + 16 <= j.n && j.src == src && j.k == k && j.up == 1
    requires k == Half ==> p3 == p2
    requires d == j.d + i && p1 == j.p1 + i && p2 == j.p2 + i && p3 == j.p3 + i
    modifies dst
    ensures Progress(j, dst[..], i + 16)
  {
    hide Progress, OnlyChanged, Block, Filtered;
    Room(j, dst[..], i, 16);
    ghost var before: seq<Byte> := dst[..];
    StoreRow(dst, d, Block(k, src[p1..p1 + 16], src[p2..p2 + 16], src[p3..p3 + 16]));
    BlockFiltered(k, src[p1..p1 + 16], src[p2..p2 + 16], src[p3..p3 + 16]);
    Advanced(j, before, dst[..], i, 16);
  }

  lemma SpanOfBlocks(width: nat)
    ensures Span(width, 16) == 16 * ((width + 15) / 16)
  {
  }

  /** BlendRow2_SSE2 (Half, with the second source row given twice) and BlendRow3_SSE2 (Quarter):
      four blocks at a time, then one at a time. */
  method BlendRowSSE2(k: Kernel, dst: array<Byte>, d: nat, src: seq<Byte>, p1: nat, p2: nat, p3: nat, width: nat)
    requires d + Span(width, 16) <= dst.Length && (k == Half ==> p3 == p2)
    requires p1 + Span(width, 16) <= |src| && p2 + Span(width, 16) <= |src| && p3 + Span(width, 16) <= |src|
    modifies dst
    ensures OnlyChanged(old(dst[..]), dst[..], d, Span(width, 16))
    ensures RowDone(k, 1, dst[..], d, src, p1, p2, p3, Span(width, 16))
  {
    hide Progress, RowDone, OnlyChanged, Span;
    ghost var j := Job(k, 1, dst[..], d, src, p1, p2, p3, Span(width, 16));
    Started(j);
    SpanOfBlocks(width);
    var w16 := (width + 15) / 16;
    var w64 := w16 / 4;
    var i := 0;
    while w64 > 0
      invariant 0 <= i && 0 <= w64 && i + 64 * w64 + 16 * (w16 % 4) == j.n
      invariant Progress(j, dst[..], i)
    {
      AverageBlock(k, dst, src, d + i, p1 + i, p2 + i, p3 + i, j, i);
      AverageBlock(k, dst, src, d + i + 16, p1 + i + 16, p2 + i + 16, p3 + i + 16, j, i + 16);
      AverageBlock(k, dst, src, d + i + 32, p1 + i + 32, p2 + i + 32, p3 + i + 32, j, i + 32);
      AverageBlock(k, dst, src, d + i + 48, p1 + i + 48, p2 + i + 48, p3 + i + 48, j, i + 48);
      i := i + 64;
      w64 := w64 - 1;
    }
    w16 := w16 % 4;
    while w16 > 0
      invariant 0 <= i && 0 <= w16 && i + 16 * w16 == j.n
      invariant Progress(j, dst[..], i)
    {
      AverageBlock(k, dst, src, d + i, p1 + i, p2 + i, p3 + i, j, i);
      i := i + 16;
      w16 := w16 - 1;
    }
    Finished(j, dst[..]);
  }

  // ----- planes

  /** Rows of one length. */
  ghost predicate OneLength(rows: seq<seq<Byte>>) {
    forall y, y' :: 0 <= y < |rows| && 0 <= y' < |rows| ==> |rows[y]| == |rows[y']|
  }

  /** Row y blended vertically: edge rows with their neighbour, inner rows with both. */
  ghost function BlendedLine(rows: seq<seq<Byte>>, up: nat, y: nat): seq<Byte>
    requires |rows| >= 2 && up <= 1 && OneLength(rows) && y < |rows|
  {
    var h := |rows|;
    if y == 0 then Filtered(Half, rows[0], rows[1], rows[1], up)
    else if y == h - 1 then Filtered(Half, rows[h - 2], rows[h - 1], rows[h - 1], up)
    else Filtered(Quarter, rows[y - 1], rows[y], rows[y + 1], up)
  }

  ghost function Blended(rows: seq<seq<Byte>>, up: nat): seq<seq<Byte>>
    requires |rows| >= 2 && up <= 1 && OneLength(rows)
  {
    seq(|rows|, y requires 0 <= y < |rows| => BlendedLine(rows, up, y))
  }

  lemma RowsAlike(s: seq<Byte>, pitch: nat, width: nat, height: nat)
    requires Reaches(|s|, pitch, width, height)
    ensures forall y :: 0 <= y < height ==> |Picture(s, pitch, width, height)[y]| == width
  {
    forall y | 0 <= y < height
      ensures |Row(s, pitch, width, y)| == width
    {
      RowIsSlice(s, pitch, width, height, y);
    }
  }

  ghost function BlendedPicture(s: seq<Byte>, pitch: nat, width: nat, height: nat, up: nat): (r: seq<seq<Byte>>)
    requires Reaches(|s|, pitch, width, height) && height >= 2 && up <= 1
    ensures |r| == height
  {
    RowsAlike(s, pitch, width, height);
    Blended(Picture(s, pitch, width, height), up)
  }

  /** Writes one row of the plane on the chosen path. */
  method BlendOneRow(k: Kernel, sse2: bool, dst: array<Byte>, d: nat, src: seq<Byte>, p1: nat, p2: nat, p3: nat,
                     width: nat)
    requires width > 0 && (k == Half ==> p3 == p2)
    requires var n := Span(width, if sse2 then 16 else 4);
             d + n <= dst.Length && p1 + n <= |src| && p2 + n <= |src| && p3 + n <= |src|
    modifies dst
    ensures var n := Span(width, if sse2 then 16 else 4);
            && OnlyChanged(old(dst[..]), dst[..], d, n)
            && RowDone(k, if sse2 then 1 else 0, dst[..], d, src, p1, p2, p3, n)
  {
    hide RowDone, OnlyChanged, Span;
    if sse2 {
      BlendRowSSE2(k, dst, d, src, p1, p2, p3, width);
    } else if k == Half {
      BlendRow2(dst, d, src, p1, p2, width);
    } else {
      BlendRow3(dst, d, src, p1, p2, p3, width);
    }
  }

  /** The kernel and source rows of row y. */
  function KernelOf(y: nat, height: nat): (r: (Kernel, nat, nat, nat))
    requires y < height && height >= 2
    ensures r.1 < height && r.2 < height && r.3 < height
  {
    if y == 0 then (Half, 0, 1, 1)
    else if y == height - 1 then (Half, height - 2, height - 1, height - 1)
    else (Quarter, y - 1, y, y + 1)
  }

  lemma BlendedAt(rows: seq<seq<Byte>>, up: nat, y: nat)
    requires y < |rows| && |rows| >= 2 && up <= 1
    requires OneLength(rows)
    ensures var (k, y1, y2, y3) := KernelOf(y, |rows|);
            Blended(rows, up)[y] == Filtered(k, rows[y1], rows[y2], rows[y3], up)
  {
    hide Filtered;
  }

  lemma BlendedRow(s: seq<Byte>, pitch: nat, width: nat, height: nat, up: nat, y: nat)
    requires Reaches(|s|, pitch, width, height) && y < height && height >= 2 && up <= 1
    ensures var (k, y1, y2, y3) := KernelOf(y, height);
            && |Row(s, pitch, width, y1)| == |Row(s, pitch, width, y2)| == |Row(s, pitch, width, y3)| == width
            && BlendedPicture(s, pitch, width, height, up)[y]
               == Filtered(k, Row(s, pitch, width, y1), Row(s, pitch, width, y2), Row(s, pitch, width, y3), up)
  {
    hide Row, Filtered, Reaches, Picture, Offset, Blended;
    RowsAlike(s, pitch, width, height);
    BlendedAt(Picture(s, pitch, width, height), up, y);
    var (k, y1, y2, y3) := KernelOf(y, height);
    PictureRow(s, pitch, width, height, y1);
    PictureRow(s, pitch, width, height, y2);
    PictureRow(s, pitch, width, height, y3);
  }

  lemma FilteredPrefix(k: Kernel, a: seq<Byte>, b: seq<Byte>, c: seq<Byte>, up: nat, n: nat)
    requires |a| == |b| == |c| && n <= |a| && up <= 1
    ensures |Filtered(k, a, b, c, up)| == |a|
    ensures Filtered(k, a, b, c, up)[..n] == Filtered(k, a[..n], b[..n], c[..n], up)
  {
    hide Weighed;
  }

  /** Of a row that is done its first bytes are. */
  lemma RowDonePrefix(k: Kernel, up: nat, now: seq<Byte>, d: nat, src: seq<Byte>, p1: nat, p2: nat, p3: nat,
                      n: nat, width: nat)
    requires RowDone(k, up, now, d, src, p1, p2, p3, n) && width <= n
    ensures RowDone(k, up, now, d, src, p1, p2, p3, width)
  {
    FilteredPrefix(k, src[p1..p1 + n], src[p2..p2 + n], src[p3..p3 + n], up, width);
    SlicePrefix(src, p1, n, width);
    SlicePrefix(src, p2, n, width);
    SlicePrefix(src, p3, n, width);
    SlicePrefix(now, d, n, width);
    hide Filtered;
  }

  /** Where a plane is blended: rows of n bytes are read and written, of which `width` count. */
  ghost predicate PlanesReach(dstLength: nat, dp: nat, srcLength: nat, sp: nat, width: nat, n: nat, height: nat) {
    && width <= dp && width <= n && height >= 2
    && Reaches(dstLength, dp, n, height) && Reaches(srcLength, sp, n, height)
  }

  lemma PlanesReachWidth(dstLength: nat, dp: nat, srcLength: nat, sp: nat, width: nat, n: nat, height: nat)
    requires PlanesReach(dstLength, dp, srcLength, sp, width, n, height)
    ensures Reaches(dstLength, dp, width, height) && Reaches(srcLength, sp, width, height)
  {
  }

  /** A row written from the right source rows is the picture's next row. */
  lemma NextRowBlended(first: seq<Byte>, before: seq<Byte>, now: seq<Byte>, dp: nat, src: seq<Byte>, sp: nat,
                       width: nat, n: nat, height: nat, up: nat, y: nat)
    requires PlanesReach(|now|, dp, |src|, sp, width, n, height) && y < height && up <= 1
    requires Reaches(|src|, sp, width, height)
    requires Painted(first, before, dp, width, n, y, BlendedPicture(src, sp, width, height, up))
    requires OnlyChanged(before, now, Offset(y, dp, 0), n)
    requires var (k, y1, y2, y3) := KernelOf(y, height);
             && Offset(y, dp, 0) >= 0 && Offset(y1, sp, 0) >= 0 && Offset(y2, sp, 0) >= 0 && Offset(y3, sp, 0) >= 0
             && RowDone(k, up, now, Offset(y, dp, 0), src, Offset(y1, sp, 0), Offset(y2, sp, 0), Offset(y3, sp, 0), n)
    ensures Painted(first, now, dp, width, n, y + 1, BlendedPicture(src, sp, width, height, up))
  {
    hide Painted, OnlyChanged, BlendedPicture, Filtered, Offset, Row, KernelOf, Reaches;
    PlanesReachWidth(|now|, dp, |src|, sp, width, n, height);
    var (k, y1, y2, y3) := KernelOf(y, height);
    RowDonePrefix(k, up, now, Offset(y, dp, 0), src, Offset(y1, sp, 0), Offset(y2, sp, 0), Offset(y3, sp, 0), n, width);
    RowIsSlice(now, dp, width, height, y);
    RowIsSlice(src, sp, width, height, y1);
    RowIsSlice(src, sp, width, height, y2);
    RowIsSlice(src, sp, width, height, y3);
    BlendedRow(src, sp, width, height, up, y);
    OneMoreRow(first, before, now, dp, width, n, y, y, BlendedPicture(src, sp, width, height, up));
  }

  /** On either path the plane becomes the blended picture, and outside its rows nothing is written.
      The rows may spill over the pitch, as long as the last one stays in the buffer. */
  method BlendPlane(dst: array<Byte>, dstPitch: nat, src: seq<Byte>, srcPitch: nat, width: nat, height: nat, sse2: bool)
    requires 0 < width <= dstPitch && height >= 2
    requires Reaches(dst.Length, dstPitch, Span(width, if sse2 then 16 else 4), height)
    requires Reaches(|src|, srcPitch, Span(width, if sse2 then 16 else 4), height)
    modifies dst
    ensures var n, up := Span(width, if sse2 then 16 else 4), if sse2 then 1 else 0;
            && Reaches(|src|, srcPitch, width, height)
            && Picture(dst[..], dstPitch, width, height) == BlendedPicture(src, srcPitch, width, height, up)
            && OthersKept(old(dst[..]), dst[..], dstPitch, n, height)
  {
    hide Painted, OnlyChanged, OthersKept, RowDone, BlendedPicture, Picture, Span, Offset, Row, KernelOf, Reaches;
    ghost var n, up := Span(width, if sse2 then 16 else 4), if sse2 then 1 else 0;
    SpanCoversWidth(width, if sse2 then 16 else 4);
    PlanesReachWidth(dst.Length, dstPitch, |src|, srcPitch, width, n, height);
    ghost var first: seq<Byte>, picture := dst[..], BlendedPicture(src, srcPitch, width, height, up);
    NothingPainted(first, dstPitch, width, n, picture);
    FirstRow(dstPitch);
    FirstRow(srcPitch);
    var q, p := 0, 0;
    RowPlaces(dst.Length, dstPitch, |src|, srcPitch, n, height, 0);
    BlendOneRow(Half, sse2, dst, q, src, p, p + srcPitch, p + srcPitch, width);
    NextRowBlended(first, first, dst[..], dstPitch, src, srcPitch, width, n, height, up, 0);
    ghost var y := 0;
    for h := height - 2 downto 0
      invariant y == height - 2 - h && q == Offset(y, dstPitch, 0) && p == Offset(y, srcPitch, 0)
      invariant Painted(first, dst[..], dstPitch, width, n, y + 1, picture)
    {
      y := y + 1;
      RowPlaces(dst.Length, dstPitch, |src|, srcPitch, n, height, y);
      q := q + dstPitch;
      p := p + srcPitch;
      ghost var before: seq<Byte> := dst[..];
      BlendOneRow(Quarter, sse2, dst, q, src, p - srcPitch, p, p + srcPitch, width);
      NextRowBlended(first, before, dst[..], dstPitch, src, srcPitch, width, n, height, up, y);
    }
    ghost var before: seq<Byte> := dst[..];
    RowPlaces(dst.Length, dstPitch, |src|, srcPitch, n, height, height - 1);
    BlendOneRow(Half, sse2, dst, q + dstPitch, src, p, p + srcPitch, p + srcPitch, width);
    NextRowBlended(first, before, dst[..], dstPitch, src, srcPitch, width, n, height, up, height - 1);
    AllPainted(first, dst[..], dstPitch, width, n, picture);
  }

  /** Where row y and its source rows lie. */
  lemma RowPlaces(dstLength: nat, dp: nat, srcLength: nat, sp: nat, n: nat, height: nat, y: nat)
    requires Reaches(dstLength, dp, n, height) && Reaches(srcLength, sp, n, height) && y < height && height >= 2
    ensures 0 <= Offset(y, dp, 0) && Offset(y, dp, 0) + n <= dstLength
    ensures y > 0 ==> Offset(y, dp, 0) == Offset(y - 1, dp, 0) + dp && Offset(y, sp, 0) == Offset(y - 1, sp, 0) + sp
    ensures var (k, y1, y2, y3) := KernelOf(y, height);
            && 0 <= Offset(y1, sp, 0) && Offset(y1, sp, 0) + n <= srcLength
            && 0 <= Offset(y2, sp, 0) && Offset(y2, sp, 0) + n <= srcLength
            && 0 <= Offset(y3, sp, 0) && Offset(y3, sp, 0) + n <= srcLength
            && k == (if y == 0 || y == height - 1 then Half else Quarter) && (k == Half ==> y3 == y2)
            && Offset(y2, sp, 0) == Offset(y1, sp, 0) + sp
            && (k == Quarter ==> Offset(y3, sp, 0) == Offset(y2, sp, 0) + sp)
            && (y == 0 ==> y1 == 0) && (y > 0 ==> y1 == y - 1)
  {
    hide Offset, Reaches;
    var (k, y1, y2, y3) := KernelOf(y, height);
    RowFits(dstLength, dp, n, height, y);
    RowFits(srcLength, sp, n, height, y1);
    RowFits(srcLength, sp, n, height, y2);
    RowFits(srcLength, sp, n, height, y3);
    NextOffset(y1, sp);
    NextOffset(y2, sp);
    if y > 0 {
      NextOffset(y - 1, dp);
      NextOffset(y - 1, sp);
    }
  }

  lemma NextOffset(y: int, pitch: nat)
    ensures Offset(y + 1, pitch, 0) == Offset(y, pitch, 0) + pitch
  {
    OffsetStep(y, pitch, 0, 1, 0);
  }

  /** A line that BlendPlane reads or writes: the first two, the turns of its loop, whose counter
      wraps below zero, and the last two. */
  ghost predicate LineTouched(height: DWord, l: int) {
    var turns := (height as int - 2) % TWO_TO_THE_32;
    l == 0 || l == 1 || (exists k :: 1 <= k <= turns && NextTo(l, k)) || l == turns || l == turns + 1
  }

  predicate NextTo(l: int, k: int) { k - 1 <= l <= k + 1 }

  /** Only lines of the plane are touched exactly when it has two or more: with none or one the
      counter starts near 2^32. */
  lemma BlendedLinesInside(height: DWord)
    ensures (forall l :: LineTouched(height, l) ==> 0 <= l < height) <==> height >= 2
  {
    if height < 2 {
      assert LineTouched(height, 1);
    }
  }

  /** Every pixel, for every width: (above + 2 self + below) / 4 inside, the mean of the two outermost
      rows at the edges, rounded down on the scalar path and up on the SSE2 path. */
  lemma BlendedPixel(s: seq<Byte>, pitch: nat, width: nat, height: nat, up: nat, y: nat, x: nat)
    requires Reaches(|s|, pitch, width, height) && y < height && x < width && height >= 2 && up <= 1
    ensures |BlendedPicture(s, pitch, width, height, up)[y]| == width
    ensures forall j :: 0 <= j < height ==> |Picture(s, pitch, width, height)[j]| == width
    ensures var rows := Picture(s, pitch, width, height);
            BlendedPicture(s, pitch, width, height, up)[y][x] as int
            == if y == 0 then (rows[0][x] as int + rows[1][x] as int + up) / 2
               else if y == height - 1 then (rows[height - 2][x] as int + rows[height - 1][x] as int + up) / 2
               else (rows[y - 1][x] as int + 2 * rows[y][x] as int + rows[y + 1][x] as int + 3 * up) / 4
  {
    hide Row, Reaches, Offset, Picture, BlendedPicture;
    RowsAlike(s, pitch, width, height);
    BlendedRow(s, pitch, width, height, up, y);
    var (k, y1, y2, y3) := KernelOf(y, height);
    PictureRow(s, pitch, width, height, y1);
    PictureRow(s, pitch, width, height, y2);
    PictureRow(s, pitch, width, height, y3);
  }

  /** The two paths never differ by more than one, and the SSE2 path is never the smaller. */
  lemma PathsDifferByOne(s: seq<Byte>, pitch: nat, width: nat, height: nat, y: nat, x: nat)
    requires Reaches(|s|, pitch, width, height) && y < height && x < width && height >= 2
    ensures |BlendedPicture(s, pitch, width, height, 0)[y]| == width == |BlendedPicture(s, pitch, width, height, 1)[y]|
    ensures 0 <= BlendedPicture(s, pitch, width, height, 1)[y][x] as int
                 - BlendedPicture(s, pitch, width, height, 0)[y][x] as int <= 1
  {
    hide Picture, BlendedPicture, Reaches;
    BlendedPixel(s, pitch, width, height, 0, y, x);
    BlendedPixel(s, pitch, width, height, 1, y, x);
  }
}
