/** Planar and interleaved 4:2:0 pictures (src/PixelFormatConvert.cpp:26-260), on the scalar and
    the SSE2 path. Every plane is a buffer of its own, as the restrict pointers promise. */
module PixelCopy {
  import opened Words
  import opened Planes

  // ----- what the conversions do to rows and pictures

  ghost function InterleavedRow(u: seq<Byte>, v: seq<Byte>): (uv: seq<Byte>)
    requires |u| == |v|
    ensures |uv| == 2 * |u|
  {
    var n := |u| - 1;
    if u == [] then [] else InterleavedRow(u[..n], v[..n]) + [u[n], v[n]]
  }

  /** The bytes at the even (first = 0) or odd (first = 1) places. */
  ghost function EveryOther(uv: seq<Byte>, first: nat): (r: seq<Byte>)
    requires first < 2 && |uv| % 2 == 0
    ensures |r| == |uv| / 2
  {
    var n := |uv| - 2;
    if uv == [] then [] else EveryOther(uv[..n], first) + [uv[n + first]]
  }

  lemma {:induction false} EveryOtherOfPair(uv: seq<Byte>, a: Byte, b: Byte, first: nat)
    requires first < 2 && |uv| % 2 == 0
    ensures EveryOther(uv + [a, b], first) == EveryOther(uv, first) + [if first == 0 then a else b]
  {
    assert (uv + [a, b])[..|uv|] == uv;
  }

  lemma {:induction false} InterleavedOfLast(u: seq<Byte>, v: seq<Byte>, a: Byte, b: Byte)
    requires |u| == |v|
    ensures InterleavedRow(u + [a], v + [b]) == InterleavedRow(u, v) + [a, b]
  {
    assert (u + [a])[..|u|] == u && (v + [b])[..|v|] == v;
  }

  lemma {:induction false} RowRoundTrip(u: seq<Byte>, v: seq<Byte>, first: nat)
    requires |u| == |v| && first < 2
    ensures EveryOther(InterleavedRow(u, v), first) == if first == 0 then u else v
  {
    hide EveryOther, InterleavedRow;
    if u != [] {
      var n := |u| - 1;
      RowRoundTrip(u[..n], v[..n], first);
      assert u == u[..n] + [u[n]] && v == v[..n] + [v[n]];
      InterleavedOfLast(u[..n], v[..n], u[n], v[n]);
      EveryOtherOfPair(InterleavedRow(u[..n], v[..n]), u[n], v[n], first);
    }
  }

  lemma NothingInterleaved()
    ensures InterleavedRow([], []) == []
  {
  }

  lemma NothingSplit()
    ensures EveryOther([], 0) == [] == EveryOther([], 1)
  {
  }

  ghost function InterleavedPicture(u: seq<seq<Byte>>, v: seq<seq<Byte>>): seq<seq<Byte>>
    requires |u| == |v| && forall y :: 0 <= y < |u| ==> |u[y]| == |v[y]|
  {
    seq(|u|, y requires 0 <= y < |u| => InterleavedRow(u[y], v[y]))
  }

  ghost function SplitPicture(uv: seq<seq<Byte>>, first: nat): seq<seq<Byte>>
    requires first < 2 && forall y :: 0 <= y < |uv| ==> |uv[y]| % 2 == 0
  {
    seq(|uv|, y requires 0 <= y < |uv| => EveryOther(uv[y], first))
  }

  // ----- copying a plane

  /** The bytes of a row that CopyPlane copies: on the SSE2 path whole registers. sse2 says that SSE2
      is enabled and both pointers are aligned; the pitches are tested as the code does. */
  predicate OnSse2(sse2: bool, dstPitch: nat, srcPitch: nat) {
    sse2 && srcPitch % 16 == 0 && dstPitch % 16 == 0
  }

  function CopySpan(width: nat, sse2: bool, dstPitch: nat, srcPitch: nat): (n: nat)
    ensures width <= n
  {
    if OnSse2(sse2, dstPitch, srcPitch) then SpanCoversWidth(width, 16); Span(width, 16) else width
  }

  lemma SpanOfRegisters(size: nat)
    ensures Span(size, 16) == 16 * ((size + 15) / 16)
  {
  }

  method CopyRegister(dst: array<Byte>, d: nat, src: seq<Byte>, s: nat, i: nat,
                      ghost first: seq<Byte>, ghost n: nat)
    requires i + 16 <= n && d + n <= dst.Length && s + n <= |src|
    requires OnlyChanged(first, dst[..], d, n) && dst[d..d + i] == src[s..s + i]
    modifies dst
    ensures OnlyChanged(first, dst[..], d, n) && dst[d..d + (i + 16)] == src[s..s + (i + 16)]
  {
    hide OnlyChanged;
    ghost var before: seq<Byte> := dst[..];
    StoreRow(dst, d + i, src[s + i..s + i + 16]);
    SameLength(first, before, d, n);
    ChangesWithin(first, before, dst[..], d, n, d + i, 16);
    SliceJoin(dst[..], d, i, 16);
    SliceJoin(src, s, i, 16);
  }

  lemma SameLength(before: seq<Byte>, now: seq<Byte>, d: int, width: nat)
    requires OnlyChanged(before, now, d, width)
    ensures |now| == |before|
  {
  }

  method CopyBlock(dst: array<Byte>, d: nat, src: seq<Byte>, s: nat, i: nat, ghost first: seq<Byte>, ghost n: nat)
    requires i + 64 <= n && d + n <= dst.Length && s + n <= |src|
    requires OnlyChanged(first, dst[..], d, n) && dst[d..d + i] == src[s..s + i]
    modifies dst
    ensures OnlyChanged(first, dst[..], d, n) && dst[d..d + (i + 64)] == src[s..s + (i + 64)]
  {
    hide OnlyChanged;
    CopyRegister(dst, d, src, s, i, first, n);
    CopyRegister(dst, d, src, s, i + 16, first, n);
    CopyRegister(dst, d, src, s, i + 32, first, n);
    CopyRegister(dst, d, src, s, i + 48, first, n);
  }

  /** Copies `count` blocks of 64 bytes. */
  method CopyBlocks(dst: array<Byte>, d: nat, src: seq<Byte>, s: nat, count: nat,
                    ghost first: seq<Byte>, ghost n: nat)
    requires 64 * count <= n && d + n <= dst.Length && s + n <= |src| && OnlyChanged(first, dst[..], d, n)
    modifies dst
    ensures OnlyChanged(first, dst[..], d, n) && dst[d..d + 64 * count] == src[s..s + 64 * count]
  {
    hide OnlyChanged;
    for k := 0 to count
      invariant OnlyChanged(first, dst[..], d, n) && dst[d..d + 64 * k] == src[s..s + 64 * k]
    {
      CopyBlock(dst, d, src, s, 64 * k, first, n);
      assert 64 * k + 64 == 64 * (k + 1);
    }
  }

  /** Copies `count` registers from i on. */
  method CopyRegisters(dst: array<Byte>, d: nat, src: seq<Byte>, s: nat, i: nat, count: nat,
                       ghost first: seq<Byte>, ghost n: nat)
    requires i + 16 * count <= n && d + n <= dst.Length && s + n <= |src|
    requires OnlyChanged(first, dst[..], d, n) && dst[d..d + i] == src[s..s + i]
    modifies dst
    ensures OnlyChanged(first, dst[..], d, n) && dst[d..d + (i + 16 * count)] == src[s..s + (i + 16 * count)]
  {
    hide OnlyChanged;
    for k := 0 to count
      invariant OnlyChanged(first, dst[..], d, n) && dst[d..d + (i + 16 * k)] == src[s..s + (i + 16 * k)]
    {
      CopyRegister(dst, d, src, s, i + 16 * k, first, n);
    }
  }

  /** Copy_SSE2: four registers at a time, then what is left of them. */
  method CopySse2(dst: array<Byte>, d: nat, src: seq<Byte>, s: nat, size: nat)
    requires d + Span(size, 16) <= dst.Length && s + Span(size, 16) <= |src|
    modifies dst
    ensures OnlyChanged(old(dst[..]), dst[..], d, Span(size, 16))
    ensures dst[d..d + Span(size, 16)] == src[s..s + Span(size, 16)]
  {
    hide OnlyChanged, Span;
    ghost var first: seq<Byte>, n := dst[..], Span(size, 16);
    SpanOfRegisters(size);
    NothingChanged(first, d, n);
    var count := (size + 15) / 16;
    assert n == 64 * (count / 4) + 16 * (count % 4);
    CopyBlocks(dst, d, src, s, count / 4, first, n);
    CopyRegisters(dst, d, src, s, 64 * (count / 4), count % 4, first, n);
  }

  /** Row by row, n bytes of each. */
  method CopyRows(width: nat, n: nat, height: nat, dst: array<Byte>, dstPitch: nat, src: seq<Byte>, srcPitch: nat,
                  sse2: bool)
    requires width <= dstPitch && n == if sse2 then Span(width, 16) else width
    requires Reaches(dst.Length, dstPitch, n, height) && Reaches(|src|, srcPitch, n, height)
    modifies dst
    ensures Picture(dst[..], dstPitch, width, height) == Picture(src, srcPitch, width, height)
    ensures OthersKept(old(dst[..]), dst[..], dstPitch, n, height)
  {
    hide Offset, Painted, OnlyChanged, OthersKept, Row, Span, Reaches, Picture;
    ghost var first, picture := dst[..], Picture(src, srcPitch, width, height);
    NothingPainted(first, dstPitch, width, n, picture);
    SpanCoversWidth(width, 16);
    FirstRow(dstPitch);
    FirstRow(srcPitch);
    var d, s := 0, 0;
    for y := 0 to height
      invariant d == Offset(y, dstPitch, 0) && s == Offset(y, srcPitch, 0)
      invariant Painted(first, dst[..], dstPitch, width, n, y, picture)
    {
      RowFits(dst.Length, dstPitch, n, height, y);
      RowFits(|src|, srcPitch, n, height, y);
      ghost var before: seq<Byte> := dst[..];
      if sse2 {
        CopySse2(dst, d, src, s, width);
      } else {
        StoreRow(dst, d, src[s..s + width]);
      }
      RowCopied(first, before, dst[..], dstPitch, src, srcPitch, width, n, height, y);
      d := d + dstPitch;
      s := s + srcPitch;
    }
    AllPainted(first, dst[..], dstPitch, width, n, picture);
  }

  lemma RowCopied(first: seq<Byte>, before: seq<Byte>, now: seq<Byte>, dp: nat, src: seq<Byte>, sp: nat,
                  width: nat, n: nat, height: nat, y: nat)
    requires width <= dp && width <= n && y < height
    requires Reaches(|now|, dp, n, height) && Reaches(|src|, sp, n, height)
    requires Painted(first, before, dp, width, n, y, Picture(src, sp, width, height))
    requires OnlyChanged(before, now, Offset(y, dp, 0), n)
    requires var d, s := Offset(y, dp, 0), Offset(y, sp, 0);
             0 <= d && d + n <= |now| && 0 <= s && s + n <= |src| && now[d..d + n] == src[s..s + n]
    ensures Painted(first, now, dp, width, n, y + 1, Picture(src, sp, width, height))
    ensures Offset(y + 1, dp, 0) == Offset(y, dp, 0) + dp && Offset(y + 1, sp, 0) == Offset(y, sp, 0) + sp
  {
    assert Reaches(|now|, dp, width, height) && Reaches(|src|, sp, width, height);
    hide Offset, Painted, OnlyChanged, Row, Reaches, Picture;
    RowIsSlice(now, dp, width, height, y);
    RowIsSlice(src, sp, width, height, y);
    SlicePrefix(now, Offset(y, dp, 0), n, width);
    SlicePrefix(src, Offset(y, sp, 0), n, width);
    PictureRow(src, sp, width, height, y);
    OneMoreRow(first, before, now, dp, width, n, y, y, Picture(src, sp, width, height));
  }

  lemma {:induction false} AllCovered(i: int, pitch: nat, height: nat)
    requires 0 <= i < Offset(height, pitch, 0)
    ensures Covered(i, pitch, pitch, height)
  {
    if height > 0 {
      OffsetStep(height - 1, pitch, 0, 1, 0);
      hide Offset;
      if i < Offset(height - 1, pitch, 0) {
        AllCovered(i, pitch, height - 1);
      }
    } else {
      FirstRow(pitch);
    }
  }

  /** Planes of one pitch that are equal as a whole show the same picture. */
  lemma WholeCopied(first: seq<Byte>, now: seq<Byte>, src: seq<Byte>, pitch: nat, width: nat, height: nat)
    requires width <= pitch && Offset(height, pitch, 0) >= 0
    requires Offset(height, pitch, 0) <= |now| && Offset(height, pitch, 0) <= |src|
    requires now[0..Offset(height, pitch, 0)] == src[0..Offset(height, pitch, 0)]
    requires OnlyChanged(first, now, 0, Offset(height, pitch, 0))
    ensures Picture(now, pitch, width, height) == Picture(src, pitch, width, height)
    ensures OthersKept(first, now, pitch, pitch, height)
  {
    hide Offset;
    forall y | 0 <= y < height
      ensures Row(now, pitch, width, y) == Row(src, pitch, width, y)
    {
      RowsApart(y, height, pitch, width);
      SliceOfSlice(now, src, Offset(height, pitch, 0), Offset(y, pitch, 0), width);
    }
    forall i | 0 <= i < |now| && !Covered(i, pitch, pitch, height)
      ensures now[i] == first[i]
    {
      if i < Offset(height, pitch, 0) {
        AllCovered(i, pitch, height);
      }
    }
  }

  lemma SliceOfSlice(now: seq<Byte>, src: seq<Byte>, n: nat, o: int, width: nat)
    requires n <= |now| && n <= |src| && now[0..n] == src[0..n] && o + width <= n
    ensures 0 <= o ==> now[o..o + width] == src[o..o + width]
  {
    if 0 <= o {
      assert now[0..n][o..o + width] == now[o..o + width];
      assert src[0..n][o..o + width] == src[o..o + width];
    }
  }

  /** On every path the picture is copied, and nothing outside the copied rows is written. */
  method CopyPlane(width: nat, height: nat, dst: array<Byte>, dstPitch: nat, src: seq<Byte>, srcPitch: nat,
                   sse2: bool)
    requires width <= dstPitch
    requires Reaches(dst.Length, dstPitch, CopySpan(width, sse2, dstPitch, srcPitch), height)
    requires Reaches(|src|, srcPitch, CopySpan(width, sse2, dstPitch, srcPitch), height)
    modifies dst
    ensures Picture(dst[..], dstPitch, width, height) == Picture(src, srcPitch, width, height)
    ensures OthersKept(old(dst[..]), dst[..], dstPitch, CopySpan(width, sse2, dstPitch, srcPitch), height)
  {
    hide OthersKept, Picture, Span, OnlyChanged, Reaches, Offset;
    if OnSse2(sse2, dstPitch, srcPitch) {
      if dstPitch == srcPitch && dstPitch == Span(width, 16) {
        WholeSize(dst.Length, dstPitch, height);
        WholeSize(|src|, dstPitch, height);
        CopySse2(dst, 0, src, 0, Offset(height, dstPitch, 0));
        WholeCopied(old(dst[..]), dst[..], src, dstPitch, width, height);
      } else {
        CopyRows(width, Span(width, 16), height, dst, dstPitch, src, srcPitch, true);
      }
    } else {
      CopyRows(width, width, height, dst, dstPitch, src, srcPitch, false);
    }
  }

  /** A whole plane of full rows of registers is a whole number of registers. */
  lemma WholeSize(length: nat, pitch: nat, height: nat)
    requires Reaches(length, pitch, pitch, height) && pitch % 16 == 0
    ensures 0 <= Offset(height, pitch, 0) <= length
    ensures Span(Offset(height, pitch, 0), 16) == Offset(height, pitch, 0)
  {
    FirstRow(pitch);
    OffsetMonotonic(0, height, pitch);
    OffsetStep(height - 1, pitch, 0, 1, 0);
    var q := height * (pitch / 16);
    assert height * pitch == 16 * q by {
      assert pitch == 16 * (pitch / 16);
      assert height * (16 * (pitch / 16)) == 16 * (height * (pitch / 16));
    }
    WholeRegisters(q);
  }

  lemma WholeRegisters(q: nat)
    ensures Span(16 * q, 16) == 16 * q
  {
    assert (16 * q + 15) / 16 == q;
  }

  // ----- interleaving and splitting a row

  lemma {:induction false} InterleavedAt(u: seq<Byte>, v: seq<Byte>, k: nat)
    requires |u| == |v| && k < |u|
    ensures InterleavedRow(u, v)[2 * k] == u[k] && InterleavedRow(u, v)[2 * k + 1] == v[k]
  {
    var n := |u| - 1;
    assert InterleavedRow(u, v) == InterleavedRow(u[..n], v[..n]) + [u[n], v[n]];
    if k < n {
      InterleavedAt(u[..n], v[..n], k);
    }
  }

  lemma {:induction false} EveryOtherAt(uv: seq<Byte>, first: nat, k: nat)
    requires first < 2 && |uv| % 2 == 0 && 2 * k < |uv|
    ensures EveryOther(uv, first)[k] == uv[2 * k + first]
  {
    var n := |uv| - 2;
    assert EveryOther(uv, first) == EveryOther(uv[..n], first) + [uv[n + first]];
    if 2 * k < n {
      EveryOtherAt(uv[..n], first, k);
    }
  }

  lemma {:induction false} InterleavedJoin(u: seq<Byte>, v: seq<Byte>, u': seq<Byte>, v': seq<Byte>)
    requires |u| == |v| && |u'| == |v'|
    ensures InterleavedRow(u + u', v + v') == InterleavedRow(u, v) + InterleavedRow(u', v')
  {
    hide InterleavedRow;
    if |u'| == 0 {
      NothingInterleaved();
      assert u + u' == u && v + v' == v && u' == [] && v' == [];
    } else {
      var n := |u'| - 1;
      var a, b := u'[..n], v'[..n];
      InterleavedJoin(u, v, a, b);
      InterleavedOfLast(u + a, v + b, u'[n], v'[n]);
      InterleavedOfLast(a, b, u'[n], v'[n]);
      assert u' == a + [u'[n]] && v' == b + [v'[n]];
      assert u + u' == (u + a) + [u'[n]] && v + v' == (v + b) + [v'[n]];
    }
  }

  lemma {:induction false} EveryOtherJoin(a: seq<Byte>, b: seq<Byte>, first: nat)
    requires first < 2 && |a| % 2 == 0 && |b| % 2 == 0
    ensures EveryOther(a + b, first) == EveryOther(a, first) + EveryOther(b, first)
  {
    hide EveryOther;
    if |b| == 0 {
      NothingSplit();
      assert a + b == a && b == [];
    } else {
      var n := |b| - 2;
      EveryOtherJoin(a, b[..n], first);
      EveryOtherOfPair(b[..n], b[n], b[n + 1], first);
      EveryOtherOfPair(a + b[..n], b[n], b[n + 1], first);
      assert b == b[..n] + [b[n], b[n + 1]];
      assert a + b == (a + b[..n]) + [b[n], b[n + 1]];
    }
  }

  /** A register of the bytes from `half` on (0 or 8) of two registers, taken in turn. */
  function Unpacked(u: seq<Byte>, v: seq<Byte>, half: nat): (r: seq<Byte>)
    requires |u| == |v| == 16 && half <= 8
    ensures |r| == 16
  {
    seq(16, i requires 0 <= i < 16 => if i % 2 == 0 then u[half + i / 2] else v[half + i / 2])
  }

  lemma UnpackedPair(u: seq<Byte>, v: seq<Byte>, half: nat, k: nat)
    requires |u| == |v| == 16 && half <= 8 && k < 8
    ensures Unpacked(u, v, half)[2 * k] == u[half + k] && Unpacked(u, v, half)[2 * k + 1] == v[half + k]
  {
    assert (2 * k) / 2 == k && (2 * k + 1) / 2 == k;
  }

  lemma {:induction false} UnpackedAt(u: seq<Byte>, v: seq<Byte>, half: nat, k: nat, i: nat)
    requires |u| == |v| == 16 && half <= 8 && k < 8 && 2 * k <= i <= 2 * k + 1
    ensures Unpacked(u, v, half)[i] == InterleavedRow(u, v)[2 * half + i]
  {
    hide InterleavedRow, Unpacked;
    InterleavedAt(u, v, half + k);
    UnpackedPair(u, v, half, k);
  }

  /** The low and the high halves of sixteen bytes each, unpacked, are the interleaved sixteen pairs. */
  lemma {:induction false} UnpackedPairs(u: seq<Byte>, v: seq<Byte>)
    requires |u| == |v| == 16
    ensures Unpacked(u, v, 0) + Unpacked(u, v, 8) == InterleavedRow(u, v)
  {
    hide InterleavedRow, Unpacked;
    var r := Unpacked(u, v, 0) + Unpacked(u, v, 8);
    forall i | 0 <= i < 32
      ensures r[i] == InterleavedRow(u, v)[i]
    {
      if i < 16 {
        UnpackedAt(u, v, 0, i / 2, i);
      } else {
        UnpackedAt(u, v, 8, i / 2 - 8, i - 16);
      }
    }
  }

  /** Lane k of a register, two bytes, the low one first. */
  function Lane(s: seq<Byte>, k: nat): int
    requires |s| == 16 && k < 8
  {
    s[2 * k] as int + 256 * s[2 * k + 1] as int
  }

  /** The lane and 0x00ff. */
  function LowByte(lane: int): int { lane % 256 }

  /** The register shifted down by one byte. */
  function ShiftedByte(s: seq<Byte>): (r: seq<Byte>)
    requires |s| == 16
    ensures |r| == 16
  {
    s[1..] + [0]
  }

  function Saturated(x: int): Byte { if x < 0 then 0 else if x > 255 then 255 else x }

  /** Lane k of two registers' masked lanes, packed with unsigned saturation. */
  function PackedLane(a: seq<Byte>, b: seq<Byte>, k: nat): Byte
    requires |a| == |b| == 16 && k < 16
  {
    Saturated(LowByte(if k < 8 then Lane(a, k) else Lane(b, k - 8)))
  }

  function PackedRegister(a: seq<Byte>, b: seq<Byte>): (r: seq<Byte>)
    requires |a| == |b| == 16
    ensures |r| == 16
  {
    seq(16, k requires 0 <= k < 16 => PackedLane(a, b, k))
  }

  lemma LowByteOf(x: Byte, y: Byte)
    ensures Saturated(LowByte(x as int + 256 * y as int)) == x
  {
  }

  lemma PackedLaneIs(a: seq<Byte>, b: seq<Byte>, k: nat)
    requires |a| == |b| == 16 && k < 16
    ensures PackedLane(a, b, k) == (a + b)[2 * k]
    ensures PackedLane(ShiftedByte(a), ShiftedByte(b), k) == (a + b)[2 * k + 1]
  {
    hide LowByte, Saturated;
    var a', b' := ShiftedByte(a), ShiftedByte(b);
    if k < 8 {
      LowByteOf(a[2 * k], a[2 * k + 1]);
      LowByteOf(a'[2 * k], a'[2 * k + 1]);
    } else {
      LowByteOf(b[2 * (k - 8)], b[2 * (k - 8) + 1]);
      LowByteOf(b'[2 * (k - 8)], b'[2 * (k - 8) + 1]);
    }
  }

  /** Masked and packed, two registers give their even bytes; shifted first, their odd ones. Nothing saturates. */
  lemma {:induction false} PackedHalves(a: seq<Byte>, b: seq<Byte>)
    requires |a| == |b| == 16
    ensures PackedRegister(a, b) == EveryOther(a + b, 0)
    ensures PackedRegister(ShiftedByte(a), ShiftedByte(b)) == EveryOther(a + b, 1)
  {
    hide EveryOther, PackedLane, ShiftedByte;
    forall k | 0 <= k < 16
      ensures PackedRegister(a, b)[k] == EveryOther(a + b, 0)[k]
      ensures PackedRegister(ShiftedByte(a), ShiftedByte(b))[k] == EveryOther(a + b, 1)[k]
    {
      PackedLaneIs(a, b, k);
      EveryOtherAt(a + b, 0, k);
      EveryOtherAt(a + b, 1, k);
    }
  }

  /** x pairs of a row are interleaved and nothing else has changed. */
  ghost predicate Interleaved(first: seq<Byte>, now: seq<Byte>, d: nat, u: seq<Byte>, v: seq<Byte>, s: nat,
                              n: nat, x: nat) {
    && x <= n && d + 2 * n <= |now| && s + n <= |u| && s + n <= |v|
    && OnlyChanged(first, now, d, 2 * n)
    && now[d..d + 2 * x] == InterleavedRow(u[s..s + x], v[s..s + x])
  }

  lemma {:induction false} NoPairs(first: seq<Byte>, d: nat, u: seq<Byte>, v: seq<Byte>, s: nat, n: nat)
    requires d + 2 * n <= |first| && s + n <= |u| && s + n <= |v|
    ensures Interleaved(first, first, d, u, v, s, n, 0)
  {
  }

  lemma {:induction false} MorePairs(first: seq<Byte>, before: seq<Byte>, now: seq<Byte>, d: nat,
                                     u: seq<Byte>, v: seq<Byte>, s: nat, n: nat, x: nat, m: nat)
    requires Interleaved(first, before, d, u, v, s, n, x) && x + m <= n
    requires OnlyChanged(before, now, d + 2 * x, 2 * m)
    requires now[d + 2 * x..d + 2 * x + 2 * m] == InterleavedRow(u[s + x..s + x + m], v[s + x..s + x + m])
    ensures Interleaved(first, now, d, u, v, s, n, x + m)
  {
    hide InterleavedRow, OnlyChanged;
    SameLength(first, before, d, 2 * n);
    ChangesWithin(first, before, now, d, 2 * n, d + 2 * x, 2 * m);
    InterleavedJoin(u[s..s + x], v[s..s + x], u[s + x..s + x + m], v[s + x..s + x + m]);
    SliceJoin(u, s, x, m);
    SliceJoin(v, s, x, m);
    SliceJoin(now, d, 2 * x, 2 * m);
    assert 2 * (x + m) == 2 * x + 2 * m;
  }

  lemma {:induction false} OnePair(a: Byte, b: Byte)
    ensures InterleavedRow([a], [b]) == [a, b]
  {
    assert InterleavedRow([], []) == [];
    assert [a][..0] == [] == [b][..0];
  }

  /** One pair at a time, from x on. */
  method InterleavePairs(dst: array<Byte>, d: nat, u: seq<Byte>, v: seq<Byte>, s: nat, n: nat, from: nat,
                         ghost first: seq<Byte>)
    requires Interleaved(first, dst[..], d, u, v, s, n, from)
    modifies dst
    ensures Interleaved(first, dst[..], d, u, v, s, n, n)
  {
    var x := from;
    while x < n
      invariant x <= n && Interleaved(first, dst[..], d, u, v, s, n, x)
    {
      InterleavePair(dst, d, u, v, s, n, x, first);
      x := x + 1;
    }
  }

  method InterleavePair(dst: array<Byte>, d: nat, u: seq<Byte>, v: seq<Byte>, s: nat, n: nat, x: nat,
                        ghost first: seq<Byte>)
    requires x < n && Interleaved(first, dst[..], d, u, v, s, n, x)
    modifies dst
    ensures Interleaved(first, dst[..], d, u, v, s, n, x + 1)
  {
    hide InterleavedRow, OnlyChanged;
    ghost var before: seq<Byte> := dst[..];
    SameLength(first, before, d, 2 * n);
    StoreRow(dst, d + 2 * x, [u[s + x], v[s + x]]);
    OnePair(u[s + x], v[s + x]);
    assert u[s + x..s + x + 1] == [u[s + x]] && v[s + x..s + x + 1] == [v[s + x]];
    MorePairs(first, before, dst[..], d, u, v, s, n, x, 1);
  }

  /** Sixteen pairs: two registers loaded, unpacked and stored. */
  method InterleaveRegister(dst: array<Byte>, d: nat, u: seq<Byte>, v: seq<Byte>, s: nat, n: nat, x: nat,
                            ghost first: seq<Byte>)
    requires x + 16 <= n && Interleaved(first, dst[..], d, u, v, s, n, x)
    modifies dst
    ensures Interleaved(first, dst[..], d, u, v, s, n, x + 16)
  {
    hide InterleavedRow, OnlyChanged, Unpacked;
    ghost var before: seq<Byte> := dst[..];
    SameLength(first, before, d, 2 * n);
    var u0, v0 := u[s + x..s + x + 16], v[s + x..s + x + 16];
    UnpackedPairs(u0, v0);
    StoreTwo(dst, d + 2 * x, Unpacked(u0, v0, 0), Unpacked(u0, v0, 8));
    MorePairs(first, before, dst[..], d, u, v, s, n, x, 16);
  }

  method StoreTwo(dst: array<Byte>, d: nat, a: seq<Byte>, b: seq<Byte>)
    requires |a| == |b| == 16 && d + 32 <= dst.Length
    modifies dst
    ensures OnlyChanged(old(dst[..]), dst[..], d, 32) && dst[d..d + 32] == a + b
  {
    StoreRow(dst, d, a);
    StoreRow(dst, d + 16, b);
    SliceJoin(dst[..], d, 16, 16);
  }

  /** 64 pairs at a time, from x on. */
  method InterleaveBy64(dst: array<Byte>, d: nat, u: seq<Byte>, v: seq<Byte>, s: nat, n: nat, from: nat,
                        ghost first: seq<Byte>)
    returns (x: nat)
    requires Interleaved(first, dst[..], d, u, v, s, n, from)
    modifies dst
    ensures Interleaved(first, dst[..], d, u, v, s, n, x)
  {
    x := from;
    NoMoreThan(first, dst[..], d, u, v, s, n, x);
    hide Interleaved;
    while n - x >= 64
      invariant x <= n && Interleaved(first, dst[..], d, u, v, s, n, x)
    {
      InterleaveRegister(dst, d, u, v, s, n, x, first);
      InterleaveRegister(dst, d, u, v, s, n, x + 16, first);
      InterleaveRegister(dst, d, u, v, s, n, x + 32, first);
      InterleaveRegister(dst, d, u, v, s, n, x + 48, first);
      x := x + 64;
    }
  }

  lemma NoMoreThan(first: seq<Byte>, now: seq<Byte>, d: nat, u: seq<Byte>, v: seq<Byte>, s: nat, n: nat, x: nat)
    requires Interleaved(first, now, d, u, v, s, n, x)
    ensures x <= n
  {
  }

  /** 32 pairs at a time, from x on. */
  method InterleaveBy32(dst: array<Byte>, d: nat, u: seq<Byte>, v: seq<Byte>, s: nat, n: nat, from: nat,
                        ghost first: seq<Byte>)
    returns (x: nat)
    requires Interleaved(first, dst[..], d, u, v, s, n, from)
    modifies dst
    ensures Interleaved(first, dst[..], d, u, v, s, n, x)
  {
    x := from;
    NoMoreThan(first, dst[..], d, u, v, s, n, x);
    hide Interleaved;
    while n - x >= 32
      invariant x <= n && Interleaved(first, dst[..], d, u, v, s, n, x)
    {
      InterleaveRegister(dst, d, u, v, s, n, x, first);
      InterleaveRegister(dst, d, u, v, s, n, x + 16, first);
      x := x + 32;
    }
  }

  /** A row: on the SSE2 path by 64 (wide: in 64-bit code) and by 32 pairs, and what is left one by one. */
  method InterleaveRow(dst: array<Byte>, d: nat, u: seq<Byte>, v: seq<Byte>, s: nat, n: nat, sse2: bool, wide: bool)
    requires d + 2 * n <= dst.Length && s + n <= |u| && s + n <= |v|
    modifies dst
    ensures OnlyChanged(old(dst[..]), dst[..], d, 2 * n)
    ensures d + 2 * n <= dst.Length && dst[d..d + 2 * n] == InterleavedRow(u[s..s + n], v[s..s + n])
  {
    hide InterleavedRow, OnlyChanged;
    ghost var first: seq<Byte> := dst[..];
    NoPairs(first, d, u, v, s, n);
    var x: nat := 0;
    if sse2 {
      if wide {
        x := InterleaveBy64(dst, d, u, v, s, n, x, first);
      }
      x := InterleaveBy32(dst, d, u, v, s, n, x, first);
    }
    InterleavePairs(dst, d, u, v, s, n, x, first);
  }

  /** x pairs of a row are split and nothing else of either plane has changed. */
  ghost predicate Split(first: seq<Byte>, now: seq<Byte>, d: nat, uv: seq<Byte>, s: nat, n: nat, which: nat, x: nat) {
    && which < 2 && x <= n && d + n <= |now| && s + 2 * n <= |uv|
    && OnlyChanged(first, now, d, n)
    && now[d..d + x] == EveryOther(uv[s..s + 2 * x], which)
  }

  lemma {:induction false} NothingSplitYet(first: seq<Byte>, d: nat, uv: seq<Byte>, s: nat, n: nat, which: nat)
    requires which < 2 && d + n <= |first| && s + 2 * n <= |uv|
    ensures Split(first, first, d, uv, s, n, which, 0)
  {
  }

  lemma {:induction false} MoreSplit(first: seq<Byte>, before: seq<Byte>, now: seq<Byte>, d: nat,
                                     uv: seq<Byte>, s: nat, n: nat, which: nat, x: nat, m: nat)
    requires Split(first, before, d, uv, s, n, which, x) && x + m <= n
    requires OnlyChanged(before, now, d + x, m)
    requires now[d + x..d + x + m] == EveryOther(uv[s + 2 * x..s + 2 * x + 2 * m], which)
    ensures Split(first, now, d, uv, s, n, which, x + m)
  {
    hide EveryOther, OnlyChanged;
    SameLength(first, before, d, n);
    ChangesWithin(first, before, now, d, n, d + x, m);
    EveryOtherJoin(uv[s..s + 2 * x], uv[s + 2 * x..s + 2 * x + 2 * m], which);
    SliceJoin(uv, s, 2 * x, 2 * m);
    SliceJoin(now, d, x, m);
    assert 2 * (x + m) == 2 * x + 2 * m;
  }

  /** Stores the next m bytes of one plane. */
  method StoreSplit(dst: array<Byte>, d: nat, uv: seq<Byte>, s: nat, n: nat, which: nat, x: nat, bytes: seq<Byte>,
                    ghost first: seq<Byte>)
    requires Split(first, dst[..], d, uv, s, n, which, x) && x + |bytes| <= n
    requires s + 2 * n <= |uv| && which < 2
    requires bytes == EveryOther(uv[s + 2 * x..s + 2 * x + 2 * |bytes|], which)
    modifies dst
    ensures Split(first, dst[..], d, uv, s, n, which, x + |bytes|)
  {
    hide EveryOther, OnlyChanged;
    ghost var before: seq<Byte> := dst[..];
    StoreRow(dst, d + x, bytes);
    SameLength(before, dst[..], d + x, |bytes|);
    assert d + x + |bytes| == d + (x + |bytes|);
    MoreSplit(first, before, dst[..], d, uv, s, n, which, x, |bytes|);
  }

  lemma {:induction false} SplitOfPair(a: Byte, b: Byte, which: nat)
    requires which < 2
    ensures EveryOther([a, b], which) == [if which == 0 then a else b]
  {
    EveryOtherOfPair([], a, b, which);
    assert [] + [a, b] == [a, b];
  }

  /** A row: on the SSE2 path sixteen pairs at a time, and what is left one by one. */
  method SplitRow(dstU: array<Byte>, dstV: array<Byte>, d: nat, uv: seq<Byte>, s: nat, n: nat, sse2: bool)
    requires dstU != dstV && s + 2 * n <= |uv| && d + n <= dstU.Length && d + n <= dstV.Length
    modifies dstU, dstV
    ensures OnlyChanged(old(dstU[..]), dstU[..], d, n) && OnlyChanged(old(dstV[..]), dstV[..], d, n)
    ensures d + n <= dstU.Length && dstU[d..d + n] == EveryOther(uv[s..s + 2 * n], 0)
    ensures d + n <= dstV.Length && dstV[d..d + n] == EveryOther(uv[s..s + 2 * n], 1)
  {
    hide EveryOther, OnlyChanged;
    ghost var firstU: seq<Byte>, firstV: seq<Byte> := dstU[..], dstV[..];
    NothingSplitYet(firstU, d, uv, s, n, 0);
    NothingSplitYet(firstV, d, uv, s, n, 1);
    var x: nat := 0;
    if sse2 {
      x := SplitRegisters(dstU, dstV, d, uv, s, n, firstU, firstV);
    }
    SplitPairs(dstU, dstV, d, uv, s, n, x, firstU, firstV);
  }

  method SplitRegisters(dstU: array<Byte>, dstV: array<Byte>, d: nat, uv: seq<Byte>, s: nat, n: nat,
                        ghost firstU: seq<Byte>, ghost firstV: seq<Byte>)
    returns (x: nat)
    requires dstU != dstV && s + 2 * n <= |uv|
    requires Split(firstU, dstU[..], d, uv, s, n, 0, 0) && Split(firstV, dstV[..], d, uv, s, n, 1, 0)
    modifies dstU, dstV
    ensures x <= n
    ensures Split(firstU, dstU[..], d, uv, s, n, 0, x) && Split(firstV, dstV[..], d, uv, s, n, 1, x)
  {
    hide Split, PackedRegister, ShiftedByte, EveryOther;
    x := 0;
    while n - x >= 16
      invariant x <= n
      invariant Split(firstU, dstU[..], d, uv, s, n, 0, x) && Split(firstV, dstV[..], d, uv, s, n, 1, x)
    {
      var a, b := uv[s + 2 * x..s + 2 * x + 16], uv[s + 2 * x + 16..s + 2 * x + 16 + 16];
      PackedHalves(a, b);
      SliceJoin(uv, s + 2 * x, 16, 16);
      StoreSplit(dstU, d, uv, s, n, 0, x, PackedRegister(a, b), firstU);
      StoreSplit(dstV, d, uv, s, n, 1, x, PackedRegister(ShiftedByte(a), ShiftedByte(b)), firstV);
      x := x + 16;
    }
  }

  method SplitPairs(dstU: array<Byte>, dstV: array<Byte>, d: nat, uv: seq<Byte>, s: nat, n: nat, from: nat,
                    ghost firstU: seq<Byte>, ghost firstV: seq<Byte>)
    requires dstU != dstV && s + 2 * n <= |uv| && from <= n
    requires Split(firstU, dstU[..], d, uv, s, n, 0, from) && Split(firstV, dstV[..], d, uv, s, n, 1, from)
    modifies dstU, dstV
    ensures Split(firstU, dstU[..], d, uv, s, n, 0, n) && Split(firstV, dstV[..], d, uv, s, n, 1, n)
  {
    hide Split, EveryOther;
    for x := from to n
      invariant Split(firstU, dstU[..], d, uv, s, n, 0, x) && Split(firstV, dstV[..], d, uv, s, n, 1, x)
    {
      var a, b := uv[s + 2 * x], uv[s + 2 * x + 1];
      SplitOfPair(a, b, 0);
      SplitOfPair(a, b, 1);
      assert uv[s + 2 * x..s + 2 * x + 2] == [a, b];
      StoreSplit(dstU, d, uv, s, n, 0, x, [a], firstU);
      StoreSplit(dstV, d, uv, s, n, 1, x, [b], firstV);
    }
  }

  // ----- interleaving and splitting planes

  lemma RowLength(s: seq<Byte>, pitch: nat, width: nat, height: nat)
    requires Reaches(|s|, pitch, width, height)
    ensures forall y :: 0 <= y < height ==> |Row(s, pitch, width, y)| == width
  {
    forall y | 0 <= y < height
      ensures |Row(s, pitch, width, y)| == width
    {
      RowIsSlice(s, pitch, width, height, y);
    }
  }

  /** The chroma rows of an interleaved picture. */
  ghost function Interleaving(u: seq<Byte>, v: seq<Byte>, pitch: nat, width: nat, height: nat): (r: seq<seq<Byte>>)
    requires Reaches(|u|, pitch, width, height) && Reaches(|v|, pitch, width, height)
    ensures |r| == height
  {
    RowLength(u, pitch, width, height);
    RowLength(v, pitch, width, height);
    InterleavedPicture(Picture(u, pitch, width, height), Picture(v, pitch, width, height))
  }

  lemma InterleavingRow(u: seq<Byte>, v: seq<Byte>, pitch: nat, width: nat, height: nat, y: nat)
    requires Reaches(|u|, pitch, width, height) && Reaches(|v|, pitch, width, height) && y < height
    ensures var s := Offset(y, pitch, 0);
            && 0 <= s && s + width <= |u| && s + width <= |v|
            && Interleaving(u, v, pitch, width, height)[y] == InterleavedRow(u[s..s + width], v[s..s + width])
  {
    hide Reaches, Offset, Row, InterleavedRow;
    RowIsSlice(u, pitch, width, height, y);
    RowIsSlice(v, pitch, width, height, y);
  }

  lemma NextRow(y: nat, pitch: nat)
    ensures Offset(y + 1, pitch, 0) == Offset(y, pitch, 0) + pitch
  {
  }

  /** The next row stored whole. */
  lemma RowStored(first: seq<Byte>, before: seq<Byte>, now: seq<Byte>, pitch: nat, width: nat, height: nat, y: nat,
                  picture: seq<seq<Byte>>)
    requires width <= pitch && Reaches(|now|, pitch, width, height) && y < height == |picture|
    requires Painted(first, before, pitch, width, width, y, picture)
    requires OnlyChanged(before, now, Offset(y, pitch, 0), width)
    requires var d := Offset(y, pitch, 0); 0 <= d && d + width <= |now| && now[d..d + width] == picture[y]
    ensures Painted(first, now, pitch, width, width, y + 1, picture)
    ensures Offset(y + 1, pitch, 0) == Offset(y, pitch, 0) + pitch
  {
    hide Offset, Painted, OnlyChanged, Row, Reaches;
    RowIsSlice(now, pitch, width, height, y);
    OneMoreRow(first, before, now, pitch, width, width, y, y, picture);
  }

  method InterleavePlanes(width: nat, height: nat, dst: array<Byte>, dstPitch: nat,
                          srcU: seq<Byte>, srcV: seq<Byte>, srcPitch: nat, sse2: bool, wide: bool)
    requires Fits(dst.Length, dstPitch, 2 * width, height)
    requires Reaches(|srcU|, srcPitch, width, height) && Reaches(|srcV|, srcPitch, width, height)
    modifies dst
    ensures Picture(dst[..], dstPitch, 2 * width, height) == Interleaving(srcU, srcV, srcPitch, width, height)
    ensures OthersKept(old(dst[..]), dst[..], dstPitch, 2 * width, height)
  {
    assert 2 * width <= dstPitch && Reaches(dst.Length, dstPitch, 2 * width, height);
    hide Offset, Painted, OnlyChanged, OthersKept, Row, Reaches, Interleaving, InterleavedRow, Fits, Picture;
    ghost var first, picture := dst[..], Interleaving(srcU, srcV, srcPitch, width, height);
    NothingPainted(first, dstPitch, 2 * width, 2 * width, picture);
    FirstRow(dstPitch);
    FirstRow(srcPitch);
    var d, s := 0, 0;
    for y := 0 to height
      invariant d == Offset(y, dstPitch, 0) && s == Offset(y, srcPitch, 0)
      invariant Painted(first, dst[..], dstPitch, 2 * width, 2 * width, y, picture)
    {
      RowFits(dst.Length, dstPitch, 2 * width, height, y);
      NextRow(y, srcPitch);
      InterleavingRow(srcU, srcV, srcPitch, width, height, y);
      ghost var before: seq<Byte> := dst[..];
      InterleaveRow(dst, d, srcU, srcV, s, width, OnSse2(sse2, dstPitch, srcPitch), wide);
      RowStored(first, before, dst[..], dstPitch, 2 * width, height, y, picture);
      d := d + dstPitch;
      s := s + srcPitch;
    }
    AllPainted(first, dst[..], dstPitch, 2 * width, 2 * width, picture);
  }

  /** One chroma plane of an interleaved picture. */
  ghost function Splitting(uv: seq<Byte>, pitch: nat, width: nat, height: nat, which: nat): (r: seq<seq<Byte>>)
    requires Reaches(|uv|, pitch, 2 * width, height) && which < 2
    ensures |r| == height
  {
    RowLength(uv, pitch, 2 * width, height);
    SplitPicture(Picture(uv, pitch, 2 * width, height), which)
  }

  lemma SplittingRow(uv: seq<Byte>, pitch: nat, width: nat, height: nat, which: nat, y: nat)
    requires Reaches(|uv|, pitch, 2 * width, height) && which < 2 && y < height
    ensures var s := Offset(y, pitch, 0);
            && 0 <= s && s + 2 * width <= |uv|
            && Splitting(uv, pitch, width, height, which)[y] == EveryOther(uv[s..s + 2 * width], which)
  {
    hide Reaches, Offset, Row, EveryOther;
    RowIsSlice(uv, pitch, 2 * width, height, y);
  }

  /** Row y of both planes. */
  method SplitNextRow(width: nat, height: nat, dstU: array<Byte>, dstV: array<Byte>, dstPitch: nat,
                      src: seq<Byte>, srcPitch: nat, sse2: bool, y: nat, d: nat, s: nat,
                      ghost firstU: seq<Byte>, ghost firstV: seq<Byte>)
    requires dstU != dstV && Reaches(|src|, srcPitch, 2 * width, height) && y < height && width <= dstPitch
    requires Reaches(dstU.Length, dstPitch, width, height) && Reaches(dstV.Length, dstPitch, width, height)
    requires d == Offset(y, dstPitch, 0) && s == Offset(y, srcPitch, 0)
    requires Painted(firstU, dstU[..], dstPitch, width, width, y, Splitting(src, srcPitch, width, height, 0))
    requires Painted(firstV, dstV[..], dstPitch, width, width, y, Splitting(src, srcPitch, width, height, 1))
    modifies dstU, dstV
    ensures Painted(firstU, dstU[..], dstPitch, width, width, y + 1, Splitting(src, srcPitch, width, height, 0))
    ensures Painted(firstV, dstV[..], dstPitch, width, width, y + 1, Splitting(src, srcPitch, width, height, 1))
  {
    hide Offset, Painted, OnlyChanged, Reaches, Splitting, EveryOther;
    RowFits(dstU.Length, dstPitch, width, height, y);
    RowFits(dstV.Length, dstPitch, width, height, y);
    SplittingRow(src, srcPitch, width, height, 0, y);
    SplittingRow(src, srcPitch, width, height, 1, y);
    ghost var beforeU: seq<Byte>, beforeV: seq<Byte> := dstU[..], dstV[..];
    SplitRow(dstU, dstV, d, src, s, width, sse2);
    RowStored(firstU, beforeU, dstU[..], dstPitch, width, height, y, Splitting(src, srcPitch, width, height, 0));
    RowStored(firstV, beforeV, dstV[..], dstPitch, width, height, y, Splitting(src, srcPitch, width, height, 1));
  }

  method SplitPlanes(width: nat, height: nat, dstU: array<Byte>, dstV: array<Byte>, dstPitch: nat,
                     src: seq<Byte>, srcPitch: nat, sse2: bool)
    requires dstU != dstV && Reaches(|src|, srcPitch, 2 * width, height)
    requires Fits(dstU.Length, dstPitch, width, height) && Fits(dstV.Length, dstPitch, width, height)
    modifies dstU, dstV
    ensures Picture(dstU[..], dstPitch, width, height) == Splitting(src, srcPitch, width, height, 0)
    ensures Picture(dstV[..], dstPitch, width, height) == Splitting(src, srcPitch, width, height, 1)
    ensures OthersKept(old(dstU[..]), dstU[..], dstPitch, width, height)
    ensures OthersKept(old(dstV[..]), dstV[..], dstPitch, width, height)
  {
    assert width <= dstPitch;
    assert Reaches(dstU.Length, dstPitch, width, height) && Reaches(dstV.Length, dstPitch, width, height);
    hide Offset, Painted, OthersKept, Reaches, Splitting, Fits, Picture;
    ghost var firstU, pictureU := dstU[..], Splitting(src, srcPitch, width, height, 0);
    ghost var firstV, pictureV := dstV[..], Splitting(src, srcPitch, width, height, 1);
    NothingPainted(firstU, dstPitch, width, width, pictureU);
    NothingPainted(firstV, dstPitch, width, width, pictureV);
    FirstRow(dstPitch);
    FirstRow(srcPitch);
    var d, s := 0, 0;
    for y := 0 to height
      invariant 0 <= d == Offset(y, dstPitch, 0) && 0 <= s == Offset(y, srcPitch, 0)
      invariant Painted(firstU, dstU[..], dstPitch, width, width, y, pictureU)
      invariant Painted(firstV, dstV[..], dstPitch, width, width, y, pictureV)
    {
      SplitNextRow(width, height, dstU, dstV, dstPitch, src, srcPitch, OnSse2(sse2, dstPitch, srcPitch), y, d, s,
                   firstU, firstV);
      NextRow(y, dstPitch);
      NextRow(y, srcPitch);
      d := d + dstPitch;
      s := s + srcPitch;
    }
    AllPainted(firstU, dstU[..], dstPitch, width, width, pictureU);
    AllPainted(firstV, dstV[..], dstPitch, width, width, pictureV);
  }

  // ----- the conversions

  /** Even and positive in both directions. */
  predicate GoodSize(width: int, height: int) {
    width > 0 && height > 0 && width % 2 == 0 && height % 2 == 0
  }

  /** The planes reach as far as the luma copy goes, and the rows written do not overlap. */
  ghost predicate LumaFits(dst: array?<Byte>, dstPitch: nat, src: array?<Byte>, srcPitch: nat,
                           width: int, height: int, sse2: bool) {
    dst != null && src != null && GoodSize(width, height) ==>
      && width <= dstPitch
      && Reaches(dst.Length, dstPitch, CopySpan(width, sse2, dstPitch, srcPitch), height)
      && Reaches(src.Length, srcPitch, CopySpan(width, sse2, dstPitch, srcPitch), height)
  }

  ghost predicate ChromaReaches(a: array?<Byte>, pitch: nat, width: int, height: int) {
    a != null && GoodSize(width, height) ==> Reaches(a.Length, pitch, width / 2, height / 2)
  }

  ghost predicate ChromaFits(a: array?<Byte>, pitch: nat, width: int, height: int) {
    a != null && GoodSize(width, height) ==> Fits(a.Length, pitch, width / 2, height / 2)
  }

  ghost predicate PairedChromaReaches(a: array?<Byte>, pitch: nat, width: int, height: int) {
    a != null && GoodSize(width, height) ==> Reaches(a.Length, pitch, 2 * (width / 2), height / 2)
  }

  ghost predicate PairedChromaFits(a: array?<Byte>, pitch: nat, width: int, height: int) {
    a != null && GoodSize(width, height) ==> Fits(a.Length, pitch, 2 * (width / 2), height / 2)
  }

  /** A null plane or a bad size is refused and nothing is written. sse2Y and sse2C say that SSE2 is enabled
      and the luma or chroma pointers are aligned. */
  method PixelCopyI420ToNV12(width: int, height: int, dstY: array?<Byte>, dstUV: array?<Byte>, dstPitch: nat,
                             srcY: array?<Byte>, srcU: array?<Byte>, srcV: array?<Byte>,
                             srcPitchY: nat, srcPitchC: nat, sse2Y: bool, sse2C: bool, wide: bool)
    returns (ok: bool)
    requires LumaFits(dstY, dstPitch, srcY, srcPitchY, width, height, sse2Y)
    requires PairedChromaFits(dstUV, dstPitch, width, height)
    requires ChromaReaches(srcU, srcPitchC, width, height) && ChromaReaches(srcV, srcPitchC, width, height)
    requires dstY != null && dstUV != null ==> dstY != dstUV && {dstY, dstUV} !! {srcY, srcU, srcV}
    modifies dstY, dstUV
    ensures ok <==>
              && width > 0 && height > 0 && width % 2 == 0 && height % 2 == 0
              && dstY != null && dstUV != null && srcY != null && srcU != null && srcV != null
    ensures !ok && dstY != null ==> dstY[..] == old(dstY[..])
    ensures !ok && dstUV != null ==> dstUV[..] == old(dstUV[..])
    ensures ok ==> Picture(dstY[..], dstPitch, width, height) == Picture(srcY[..], srcPitchY, width, height)
    ensures ok ==> Picture(dstUV[..], dstPitch, 2 * (width / 2), height / 2)
                   == Interleaving(srcU[..], srcV[..], srcPitchC, width / 2, height / 2)
    ensures ok ==> OthersKept(old(dstY[..]), dstY[..], dstPitch, CopySpan(width, sse2Y, dstPitch, srcPitchY), height)
    ensures ok ==> OthersKept(old(dstUV[..]), dstUV[..], dstPitch, 2 * (width / 2), height / 2)
  {
    if !GoodSize(width, height) || dstY == null || dstUV == null || srcY == null || srcU == null || srcV == null {
      return false;
    }
    hide Picture, Interleaving, Reaches, Fits, OthersKept, CopySpan;
    CopyPlane(width, height, dstY, dstPitch, srcY[..], srcPitchY, sse2Y);
    InterleavePlanes(width / 2, height / 2, dstUV, dstPitch, srcU[..], srcV[..], srcPitchC, sse2C, wide);
    ok := true;
  }

  method PixelCopyNV12ToI420(width: int, height: int, dstY: array?<Byte>, dstU: array?<Byte>, dstV: array?<Byte>,
                             dstPitchY: nat, dstPitchC: nat, srcY: array?<Byte>, srcUV: array?<Byte>,
                             srcPitch: nat, sse2Y: bool, sse2C: bool)
    returns (ok: bool)
    requires LumaFits(dstY, dstPitchY, srcY, srcPitch, width, height, sse2Y)
    requires ChromaFits(dstU, dstPitchC, width, height) && ChromaFits(dstV, dstPitchC, width, height)
    requires PairedChromaReaches(srcUV, srcPitch, width, height)
    requires null !in {dstY, dstU, dstV} ==>
               dstY != dstU && dstY != dstV && dstU != dstV && {dstY, dstU, dstV} !! {srcY, srcUV}
    modifies dstY, dstU, dstV
    ensures ok <==>
              && width > 0 && height > 0 && width % 2 == 0 && height % 2 == 0
              && dstY != null && dstU != null && dstV != null && srcY != null && srcUV != null
    ensures !ok && dstY != null ==> dstY[..] == old(dstY[..])
    ensures !ok && dstU != null ==> dstU[..] == old(dstU[..])
    ensures !ok && dstV != null ==> dstV[..] == old(dstV[..])
    ensures ok ==> Picture(dstY[..], dstPitchY, width, height) == Picture(srcY[..], srcPitch, width, height)
    ensures ok ==> Picture(dstU[..], dstPitchC, width / 2, height / 2)
                   == Splitting(srcUV[..], srcPitch, width / 2, height / 2, 0)
    ensures ok ==> Picture(dstV[..], dstPitchC, width / 2, height / 2)
                   == Splitting(srcUV[..], srcPitch, width / 2, height / 2, 1)
    ensures ok ==> OthersKept(old(dstY[..]), dstY[..], dstPitchY, CopySpan(width, sse2Y, dstPitchY, srcPitch), height)
    ensures ok ==> OthersKept(old(dstU[..]), dstU[..], dstPitchC, width / 2, height / 2)
    ensures ok ==> OthersKept(old(dstV[..]), dstV[..], dstPitchC, width / 2, height / 2)
  {
    if !GoodSize(width, height) || dstY == null || dstU == null || dstV == null || srcY == null || srcUV == null {
      return false;
    }
    hide Picture, Splitting, Reaches, Fits, OthersKept, CopySpan;
    CopyPlane(width, height, dstY, dstPitchY, srcY[..], srcPitch, sse2Y);
    SplitPlanes(width / 2, height / 2, dstU, dstV, dstPitchC, srcUV[..], srcPitch, sse2C);
    ok := true;
  }

  /** Splitting an interleaved chroma plane gives back both planes, whatever the three pitches are. */
  lemma ChromaRoundTrip(u: seq<Byte>, v: seq<Byte>, uv: seq<Byte>, pitchC: nat, pitch: nat, width: nat, height: nat)
    requires Reaches(|u|, pitchC, width, height) && Reaches(|v|, pitchC, width, height)
    requires Reaches(|uv|, pitch, 2 * width, height)
    requires Picture(uv, pitch, 2 * width, height) == Interleaving(u, v, pitchC, width, height)
    ensures Splitting(uv, pitch, width, height, 0) == Picture(u, pitchC, width, height)
    ensures Splitting(uv, pitch, width, height, 1) == Picture(v, pitchC, width, height)
  {
    hide Row, InterleavedRow, EveryOther, Reaches;
    RowLength(u, pitchC, width, height);
    RowLength(v, pitchC, width, height);
    RowLength(uv, pitch, 2 * width, height);
    forall y | 0 <= y < height
      ensures Row(uv, pitch, 2 * width, y) == InterleavedRow(Row(u, pitchC, width, y), Row(v, pitchC, width, y))
    {
      assert Picture(uv, pitch, 2 * width, height)[y] == Interleaving(u, v, pitchC, width, height)[y];
    }
    forall y | 0 <= y < height
      ensures EveryOther(Row(uv, pitch, 2 * width, y), 0) == Row(u, pitchC, width, y)
      ensures EveryOther(Row(uv, pitch, 2 * width, y), 1) == Row(v, pitchC, width, y)
    {
      RowRoundTrip(Row(u, pitchC, width, y), Row(v, pitchC, width, y), 0);
      RowRoundTrip(Row(u, pitchC, width, y), Row(v, pitchC, width, y), 1);
    }
  }

  /** I420 to NV12 and back is the identity on all three planes, on whichever path each copy runs. */
  method ThereAndBack(width: int, height: int, srcY: array<Byte>, srcU: array<Byte>, srcV: array<Byte>,
                      srcPitchY: nat, srcPitchC: nat, midY: array<Byte>, midUV: array<Byte>, midPitch: nat,
                      dstY: array<Byte>, dstU: array<Byte>, dstV: array<Byte>, dstPitchY: nat, dstPitchC: nat,
                      thereY: bool, thereC: bool, wide: bool, backY: bool, backC: bool)
    requires GoodSize(width, height)
    requires LumaFits(midY, midPitch, srcY, srcPitchY, width, height, thereY)
    requires LumaFits(dstY, dstPitchY, midY, midPitch, width, height, backY)
    requires ChromaReaches(srcU, srcPitchC, width, height) && ChromaReaches(srcV, srcPitchC, width, height)
    requires PairedChromaFits(midUV, midPitch, width, height)
    requires ChromaFits(dstU, dstPitchC, width, height) && ChromaFits(dstV, dstPitchC, width, height)
    requires midY != midUV && {midY, midUV} !! {srcY, srcU, srcV}
    requires dstY != dstU && dstY != dstV && dstU != dstV && {dstY, dstU, dstV} !! {midY, midUV, srcY, srcU, srcV}
    modifies midY, midUV, dstY, dstU, dstV
    ensures Picture(dstY[..], dstPitchY, width, height) == Picture(srcY[..], srcPitchY, width, height)
    ensures Picture(dstU[..], dstPitchC, width / 2, height / 2) == Picture(srcU[..], srcPitchC, width / 2, height / 2)
    ensures Picture(dstV[..], dstPitchC, width / 2, height / 2) == Picture(srcV[..], srcPitchC, width / 2, height / 2)
  {
    assert PairedChromaReaches(midUV, midPitch, width, height);
    hide Picture, Interleaving, Splitting, Reaches, Fits, OthersKept, CopySpan;
    var there := PixelCopyI420ToNV12(width, height, midY, midUV, midPitch, srcY, srcU, srcV, srcPitchY, srcPitchC,
                                     thereY, thereC, wide);
    ChromaRoundTrip(srcU[..], srcV[..], midUV[..], srcPitchC, midPitch, width / 2, height / 2);
    var back := PixelCopyNV12ToI420(width, height, dstY, dstU, dstV, dstPitchY, dstPitchC, midY, midUV, midPitch,
                                    backY, backC);
  }
}
