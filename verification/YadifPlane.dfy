/** Rows and planes of the Yadif deinterlacer (src/Deinterlace_Yadif.cpp:41-106, 161-284, 301-352).
    The three source planes are read-only; they have one stride. */
module YadifPlane {
  import opened Words
  import opened Planes
  import opened Blend
  import opened YadifPixel

  /** Three frames' planes. */
  datatype Frames = Frames(prev: seq<Byte>, cur: seq<Byte>, next: seq<Byte>, stride: nat)

  ghost predicate SameSize(f: Frames) {
    |f.prev| == |f.cur| == |f.next|
  }

  /** Two lines above and below position o lie inside the planes, and so do three pixels to either
      side one line away. */
  predicate InReach(f: Frames, o: int) {
    f.stride >= 3 && 2 * f.stride <= o && o + 2 * f.stride < |f.cur|
  }

  /** What the row functions read for the pixel at o. */
  function WindowAt(f: Frames, o: int, parity: bool): (w: Window)
    requires SameSize(f) && InReach(f, o)
    ensures Full(w)
  {
    var s := f.stride;
    var prev2, next2 := if parity then f.prev else f.cur, if parity then f.cur else f.next;
    Window(f.cur[o - s - 3..o - s + 4], f.cur[o + s - 3..o + s + 4], f.prev[o - s], f.prev[o + s], f.next[o - s],
           f.next[o + s], prev2[o], next2[o], prev2[o - 2 * s], next2[o - 2 * s], prev2[o + 2 * s], next2[o + 2 * s])
  }

  function DeinterlacedByte(w: Window): Byte
    requires Full(w)
  {
    StaysBetween(w);
    Deinterlaced(w)
  }

  ghost predicate RowInReach(f: Frames, o: int, n: nat) {
    SameSize(f) && f.stride >= 3 && 2 * f.stride <= o && o + 2 * f.stride + n <= |f.cur|
  }

  /** n pixels of a line made up from its neighbours in space and time. */
  ghost function DeinterlacedRow(f: Frames, o: int, parity: bool, n: nat): (r: seq<Byte>)
    requires RowInReach(f, o, n)
    ensures |r| == n
  {
    if n == 0 then [] else DeinterlacedRow(f, o, parity, n - 1) + [DeinterlacedByte(WindowAt(f, o + n - 1, parity))]
  }

  lemma OneMorePixel(f: Frames, o: int, parity: bool, i: nat, before: seq<Byte>, now: seq<Byte>, d: nat)
    requires RowInReach(f, o, i + 1) && d + i < |before| && |now| == |before|
    requires before[d..d + i] == DeinterlacedRow(f, o, parity, i)
    requires now == before[d + i := DeinterlacedByte(WindowAt(f, o + i, parity))]
    ensures now[d..d + (i + 1)] == DeinterlacedRow(f, o, parity, i + 1)
  {
    hide DeinterlacedByte, WindowAt;
    assert now[d..d + (i + 1)] == before[d..d + i] + [now[d + i]];
  }

  /** Yadif_Row: one pixel after the other. */
  method YadifRow(dst: array<Byte>, d: nat, f: Frames, o: int, width: nat, parity: bool)
    requires RowInReach(f, o, width) && d + width <= dst.Length
    modifies dst
    ensures OnlyChanged(old(dst[..]), dst[..], d, width)
    ensures dst[d..d + width] == DeinterlacedRow(f, o, parity, width)
  {
    hide DeinterlacedRow, WindowAt, Deinterlaced;
    NoPixels(f, o, parity);
    for x := 0 to width
      invariant OnlyChanged(old(dst[..]), dst[..], d, width)
      invariant dst[d..d + x] == DeinterlacedRow(f, o, parity, x)
    {
      ghost var before: seq<Byte> := dst[..];
      var value := ScalarPixel(WindowAt(f, o + x, parity));
      StaysBetween(WindowAt(f, o + x, parity));
      dst[d + x] := value;
      OneMorePixel(f, o, parity, x, before, dst[..], d);
    }
  }

  lemma NoPixels(f: Frames, o: int, parity: bool)
    requires RowInReach(f, o, 0)
    ensures DeinterlacedRow(f, o, parity, 0) == []
  {
  }

  /** The SIMD row: eight lanes computed from eight windows, then stored together. */
  method YadifRowSimd(dst: array<Byte>, d: nat, f: Frames, o: int, width: nat, parity: bool)
    requires RowInReach(f, o, Span(width, 8)) && d + Span(width, 8) <= dst.Length
    modifies dst
    ensures OnlyChanged(old(dst[..]), dst[..], d, Span(width, 8))
    ensures dst[d..d + Span(width, 8)] == DeinterlacedRow(f, o, parity, Span(width, 8))
  {
    hide DeinterlacedRow, WindowAt, Deinterlaced, OnlyChanged, Span;
    ghost var n, first: seq<Byte> := Span(width, 8), dst[..];
    NoPixels(f, o, parity);
    NothingChanged(first, d, n);
    SpanCovers(width);
    for x8 := 0 to (width + 7) / 8
      invariant OnlyChanged(first, dst[..], d, n)
      invariant dst[d..d + 8 * x8] == DeinterlacedRow(f, o, parity, 8 * x8)
    {
      ghost var before: seq<Byte> := dst[..];
      var lanes := EightLanes(f, o + 8 * x8, parity);
      StoreRow(dst, d + 8 * x8, lanes);
      ChangesWithin(first, before, dst[..], d, n, d + 8 * x8, 8);
      EightMorePixels(f, o, parity, 8 * x8, lanes);
      SliceJoin(dst[..], d, 8 * x8, 8);
    }
  }

  lemma SpanCovers(width: nat)
    ensures Span(width, 8) == 8 * ((width + 7) / 8)
  {
  }

  lemma EightMorePixels(f: Frames, o: int, parity: bool, i: nat, lanes: seq<Byte>)
    requires RowInReach(f, o, i + 8)
    requires lanes == DeinterlacedRow(f, o + i, parity, 8)
    ensures DeinterlacedRow(f, o, parity, i + 8) == DeinterlacedRow(f, o, parity, i) + lanes
  {
    hide DeinterlacedRow;
    RowsJoin(f, o, parity, i, 8);
  }

  lemma {:induction false} RowsJoin(f: Frames, o: int, parity: bool, i: nat, n: nat)
    requires RowInReach(f, o, i + n)
    ensures DeinterlacedRow(f, o, parity, i + n)
            == DeinterlacedRow(f, o, parity, i) + DeinterlacedRow(f, o + i, parity, n)
  {
    hide DeinterlacedByte, WindowAt;
    if n == 0 {
    } else {
      RowsJoin(f, o, parity, i, n - 1);
      var last := DeinterlacedByte(WindowAt(f, o + i + n - 1, parity));
      assert DeinterlacedRow(f, o, parity, i + n) == DeinterlacedRow(f, o, parity, i + n - 1) + [last];
      assert DeinterlacedRow(f, o + i, parity, n) == DeinterlacedRow(f, o + i, parity, n - 1) + [last];
    }
  }

  lemma RowPrefix(f: Frames, o: int, parity: bool, n: nat, k: nat)
    requires RowInReach(f, o, n) && k <= n
    ensures DeinterlacedRow(f, o, parity, n)[..k] == DeinterlacedRow(f, o, parity, k)
  {
    hide DeinterlacedRow;
    RowsJoin(f, o, parity, k, n - k);
    var a, b := DeinterlacedRow(f, o, parity, k), DeinterlacedRow(f, o + k, parity, n - k);
    assert (a + b)[..k] == a;
  }

  method EightLanes(f: Frames, o: int, parity: bool) returns (lanes: seq<Byte>)
    requires RowInReach(f, o, 8)
    ensures lanes == DeinterlacedRow(f, o, parity, 8)
  {
    hide WindowAt, Deinterlaced;
    lanes := [];
    for k := 0 to 8
      invariant lanes == DeinterlacedRow(f, o, parity, k)
    {
      var value := SimdPixel(WindowAt(f, o + k, parity));
      lanes := lanes + [value];
    }
  }

  // ----- planes

  /** Lines of the kept field stay; parity is true when those are the odd lines. */
  predicate KeptLine(y: int, parity: bool) { (y % 2 == 1) == parity }

  /** A line of the frames that Yadif_Plane reads in one of its five steps. */
  ghost predicate LineRead(height: nat, parity: bool, l: int) {
    || l == (if KeptLine(0, parity) then 0 else 1)
    || (if KeptLine(1, parity) then l == 1 else l == 0 || l == 2)
    || (exists y :: 2 <= y < height - 2 && if KeptLine(y, parity) then l == y else y - 2 <= l <= y + 2)
    || (if KeptLine(height - 2, parity) then l == height - 2 else l == height - 3 || l == height - 1)
    || l == (if KeptLine(height - 1, parity) then height - 1 else height - 2)
  }

  /** Only lines of the plane are read exactly when it has three or more. */
  lemma LinesInside(height: nat, parity: bool)
    requires height > 0
    ensures (forall l :: LineRead(height, parity, l) ==> 0 <= l < height) <==> height >= 3
  {
    if height == 1 {
      assert LineRead(height, parity, if parity then 1 else 2);
    } else if height == 2 {
      assert LineRead(height, parity, if parity then -1 else 2);
    }
  }

  /** Rows of n bytes can be read from the three planes; with inner lines the stride holds a window. */
  ghost predicate Readable(f: Frames, n: nat, height: nat) {
    SameSize(f) && Reaches(|f.cur|, f.stride, n, height) && (height >= 5 ==> f.stride >= 3)
  }

  /** Line y of the result. `up` is 1 where the SSE2 form of the blended rows rounds up. */
  ghost function ResultLine(f: Frames, width: nat, height: nat, parity: bool, tff: bool, up: nat, y: nat): seq<Byte>
    requires Readable(f, width, height) && height >= 3 && y < height && up <= 1
  {
    LineInReach(f, width, height, y);
    if KeptLine(y, parity) then Row(f.cur, f.stride, width, y)
    else if y == 0 then Row(f.cur, f.stride, width, 1)
    else if y == height - 1 then Row(f.cur, f.stride, width, height - 2)
    else if y == 1 || y == height - 2 then
      Filtered(Half, Row(f.cur, f.stride, width, y - 1), Row(f.cur, f.stride, width, y + 1),
               Row(f.cur, f.stride, width, y + 1), up)
    else DeinterlacedRow(f, Offset(y, f.stride, 0), parity != tff, width)
  }

  lemma LineInReach(f: Frames, width: nat, height: nat, y: nat)
    requires Readable(f, width, height) && y < height
    ensures 2 <= y < height - 2 ==> RowInReach(f, Offset(y, f.stride, 0), width)
    ensures 0 < y < height - 1 ==> |Row(f.cur, f.stride, width, y - 1)| == |Row(f.cur, f.stride, width, y + 1)| == width
  {
    if 0 < y < height - 1 {
      RowIsSlice(f.cur, f.stride, width, height, y - 1);
      RowIsSlice(f.cur, f.stride, width, height, y + 1);
    }
    if 2 <= y < height - 2 {
      RowFits(|f.cur|, f.stride, width, height, y + 2);
      OffsetStep(y, f.stride, 0, 2, 0);
      OffsetMonotonic(2, y, f.stride);
    }
  }

  ghost function Result(f: Frames, width: nat, height: nat, parity: bool, tff: bool, up: nat): (r: seq<seq<Byte>>)
    requires Readable(f, width, height) && height >= 3 && up <= 1
    ensures |r| == height
  {
    seq(height, y requires 0 <= y < height => ResultLine(f, width, height, parity, tff, up, y))
  }

  /** What a plane operation is given: buffers with room for whole units in the last row. */
  ghost predicate Room(dstLength: nat, dstStride: nat, f: Frames, width: nat, height: nat, n: nat) {
    && 0 < width <= n && width <= dstStride && height >= 3
    && Reaches(dstLength, dstStride, n, height) && Readable(f, n, height)
  }

  /** One line written right: its first `width` bytes are the result's, and at most n bytes changed. */
  lemma LinePainted(first: seq<Byte>, before: seq<Byte>, now: seq<Byte>, dstStride: nat, width: nat, m: nat, n: nat,
                    k: nat, y: nat, picture: seq<seq<Byte>>)
    requires width <= m <= n && width <= dstStride && k - 1 <= y <= k && y < |picture|
    requires 0 <= Offset(y, dstStride, 0) && Offset(y, dstStride, 0) + m <= |now|
    requires Painted(first, before, dstStride, width, n, k, picture)
    requires OnlyChanged(before, now, Offset(y, dstStride, 0), m)
    requires now[Offset(y, dstStride, 0)..Offset(y, dstStride, 0) + m][..width] == picture[y]
    ensures Painted(first, now, dstStride, width, n, if y == k then k + 1 else k, picture)
  {
    hide Offset, Painted;
    assert OnlyChanged(before, now, Offset(y, dstStride, 0), n);
    hide OnlyChanged;
    var d := Offset(y, dstStride, 0);
    assert now[d..d + m][..width] == now[d..d + width];
    OneMoreRow(first, before, now, dstStride, width, n, k, y, picture);
  }

  lemma ResultAt(f: Frames, width: nat, height: nat, parity: bool, tff: bool, up: nat, y: nat)
    requires Readable(f, width, height) && height >= 3 && y < height && up <= 1
    ensures Result(f, width, height, parity, tff, up)[y] == ResultLine(f, width, height, parity, tff, up, y)
  {
    hide ResultLine;
  }

  /** The three ways a line is made, as what is stored. */
  lemma CopiedLine(f: Frames, width: nat, height: nat, parity: bool, tff: bool, up: nat, y: nat, s: nat)
    requires Readable(f, width, height) && height >= 3 && y < height && up <= 1 && s < height
    requires s == if KeptLine(y, parity) then y else if y == 0 then 1 else height - 2
    requires KeptLine(y, parity) || y == 0 || y == height - 1
    ensures 0 <= Offset(s, f.stride, 0) && Offset(s, f.stride, 0) + width <= |f.cur|
    ensures f.cur[Offset(s, f.stride, 0)..Offset(s, f.stride, 0) + width]
            == Result(f, width, height, parity, tff, up)[y]
  {
    hide Result, Row;
    RowIsSlice(f.cur, f.stride, width, height, s);
    ResultAt(f, width, height, parity, tff, up, y);
  }

  lemma MixedLine(f: Frames, width: nat, height: nat, parity: bool, tff: bool, up: nat, y: nat, n: nat,
                  stored: seq<Byte>)
    requires Readable(f, n, height) && width <= n && height >= 3 && up <= 1
    requires !KeptLine(y, parity) && 0 < y < height - 1 && (y == 1 || y == height - 2)
    requires var o, p := Offset(y - 1, f.stride, 0), Offset(y + 1, f.stride, 0);
             && 0 <= o && o + n <= |f.cur| && 0 <= p && p + n <= |f.cur|
             && stored == Filtered(Half, f.cur[o..o + n], f.cur[p..p + n], f.cur[p..p + n], up)
    ensures Readable(f, width, height) && |stored| == n
    ensures stored[..width] == Result(f, width, height, parity, tff, up)[y]
  {
    hide Result, Row, Filtered, Offset;
    RowIsSlice(f.cur, f.stride, width, height, y - 1);
    RowIsSlice(f.cur, f.stride, width, height, y + 1);
    ResultAt(f, width, height, parity, tff, up, y);
    var o, p := Offset(y - 1, f.stride, 0), Offset(y + 1, f.stride, 0);
    FilteredPrefix(Half, f.cur[o..o + n], f.cur[p..p + n], f.cur[p..p + n], up, width);
    assert f.cur[o..o + n][..width] == f.cur[o..o + width] && f.cur[p..p + n][..width] == f.cur[p..p + width];
  }

  lemma InnerLine(f: Frames, width: nat, height: nat, parity: bool, tff: bool, up: nat, y: nat, n: nat,
                  stored: seq<Byte>)
    requires Readable(f, n, height) && width <= n && height >= 3 && up <= 1
    requires !KeptLine(y, parity) && 2 <= y < height - 2 && RowInReach(f, Offset(y, f.stride, 0), n)
    requires stored == DeinterlacedRow(f, Offset(y, f.stride, 0), parity != tff, n)
    ensures Readable(f, width, height)
    ensures stored[..width] == Result(f, width, height, parity, tff, up)[y]
  {
    hide Result, Row, DeinterlacedRow, Offset;
    RowPrefix(f, Offset(y, f.stride, 0), parity != tff, n, width);
    ResultAt(f, width, height, parity, tff, up, y);
  }

  /** A plane to be deinterlaced: what it was, and what is asked for. */
  datatype Plan = Plan(first: seq<Byte>, dstStride: nat, f: Frames, width: nat, height: nat, parity: bool, tff: bool,
                       up: nat, n: nat)

  ghost predicate Proper(t: Plan) {
    t.up <= 1 && Room(|t.first|, t.dstStride, t.f, t.width, t.height, t.n)
  }

  ghost function Target(t: Plan): seq<seq<Byte>>
    requires Proper(t)
  {
    Result(t.f, t.width, t.height, t.parity, t.tff, t.up)
  }

  /** The first k lines are done. */
  ghost predicate Done(t: Plan, now: seq<Byte>, k: nat) {
    Proper(t) && |now| == |t.first| && Painted(t.first, now, t.dstStride, t.width, t.n, k, Target(t))
  }

  lemma LineDone(t: Plan, before: seq<Byte>, now: seq<Byte>, m: nat, k: nat, y: nat)
    requires Done(t, before, k) && k - 1 <= y <= k && y < t.height && t.width <= m <= t.n && |now| == |before|
    requires 0 <= Offset(y, t.dstStride, 0) && Offset(y, t.dstStride, 0) + m <= |now|
    requires OnlyChanged(before, now, Offset(y, t.dstStride, 0), m)
    requires now[Offset(y, t.dstStride, 0)..Offset(y, t.dstStride, 0) + m][..t.width] == Target(t)[y]
    ensures Done(t, now, if y == k then k + 1 else k)
  {
    hide Painted, OnlyChanged, Offset, Result;
    LinePainted(t.first, before, now, t.dstStride, t.width, m, t.n, k, y, Target(t));
  }

  lemma LineFits(t: Plan, y: nat)
    requires Proper(t) && y < t.height
    ensures 0 <= Offset(y, t.dstStride, 0) && Offset(y, t.dstStride, 0) + t.n <= |t.first|
    ensures 0 <= Offset(y, t.f.stride, 0) && Offset(y, t.f.stride, 0) + t.n <= |t.f.cur|
  {
    RowFits(|t.first|, t.dstStride, t.n, t.height, y);
    RowFits(|t.f.cur|, t.f.stride, t.n, t.height, y);
  }

  /** memcpy of line s to line y. */
  method CopyLine(dst: array<Byte>, f: Frames, dstStride: nat, width: nat, y: nat, s: nat, ghost t: Plan, ghost k: nat)
    requires Done(t, dst[..], k) && k - 1 <= y <= k && y < t.height && s < t.height
    requires f == t.f && dstStride == t.dstStride && width == t.width
    requires s == if KeptLine(y, t.parity) then y else if y == 0 then 1 else t.height - 2
    requires KeptLine(y, t.parity) || y == 0 || y == t.height - 1
    modifies dst
    ensures Done(t, dst[..], if y == k then k + 1 else k)
  {
    hide Painted, OnlyChanged, Offset, Result, Row;
    LineFits(t, y);
    LineFits(t, s);
    CopiedLine(f, width, t.height, t.parity, t.tff, t.up, y, s);
    ghost var before: seq<Byte> := dst[..];
    var o := Offset(s, f.stride, 0);
    StoreRow(dst, Offset(y, dstStride, 0), f.cur[o..o + width]);
    LineDone(t, before, dst[..], width, k, y);
  }

  /** The average of the lines above and below. */
  method MixLine(dst: array<Byte>, f: Frames, dstStride: nat, width: nat, y: nat, sse2: bool, ghost t: Plan,
                 ghost k: nat)
    requires Done(t, dst[..], k) && k - 1 <= y <= k && 0 < y < t.height - 1 && (y == 1 || y == t.height - 2)
    requires f == t.f && dstStride == t.dstStride && width == t.width && !KeptLine(y, t.parity)
    requires t.n == Span(width, if sse2 then 16 else 4) && t.up == if sse2 then 1 else 0
    modifies dst
    ensures Done(t, dst[..], if y == k then k + 1 else k)
  {
    hide Painted, OnlyChanged, Offset, Result, Row, Span, Filtered;
    LineFits(t, y);
    LineFits(t, y - 1);
    LineFits(t, y + 1);
    ghost var before: seq<Byte> := dst[..];
    var o, p := Offset(y - 1, f.stride, 0), Offset(y + 1, f.stride, 0);
    BlendOneRow(Half, sse2, dst, Offset(y, dstStride, 0), f.cur, o, p, p, width);
    MixedLine(f, width, t.height, t.parity, t.tff, t.up, y, t.n,
              Filtered(Half, f.cur[o..o + t.n], f.cur[p..p + t.n], f.cur[p..p + t.n], t.up));
    LineDone(t, before, dst[..], t.n, k, y);
  }

  lemma InnerReach(t: Plan, y: nat)
    requires Proper(t) && 2 <= y < t.height - 2
    ensures RowInReach(t.f, Offset(y, t.f.stride, 0), t.n)
  {
    LineInReach(t.f, t.n, t.height, y);
  }

  /** The row function of the chosen path on an inner line. */
  method DeinterlaceLine(dst: array<Byte>, f: Frames, dstStride: nat, width: nat, y: nat, parity: bool, sse2: bool,
                         ghost t: Plan)
    requires Done(t, dst[..], y) && 2 <= y < t.height - 2
    requires f == t.f && dstStride == t.dstStride && width == t.width && !KeptLine(y, t.parity)
    requires parity == (t.parity != t.tff) && t.n == Span(width, if sse2 then 16 else 4)
    modifies dst
    ensures Done(t, dst[..], y + 1)
  {
    hide Painted, OnlyChanged, Offset, Result, Row, Span, DeinterlacedRow;
    LineFits(t, y);
    InnerReach(t, y);
    SpansNest(width);
    ghost var before: seq<Byte> := dst[..];
    ghost var m := if sse2 then Span(width, 8) else width;
    var o := Offset(y, f.stride, 0);
    if sse2 {
      YadifRowSimd(dst, Offset(y, dstStride, 0), f, o, width, parity);
    } else {
      YadifRow(dst, Offset(y, dstStride, 0), f, o, width, parity);
    }
    InnerLine(f, width, t.height, t.parity, t.tff, t.up, y, t.n, DeinterlacedRow(f, o, parity, t.n));
    RowPrefix(f, o, parity, t.n, width);
    RowPrefix(f, o, parity, m, width);
    LineDone(t, before, dst[..], m, y, y);
  }

  lemma SpansNest(width: nat)
    ensures width <= Span(width, 4) && width <= Span(width, 8) <= Span(width, 16)
  {
    var a, b, c := (width + 3) / 4, (width + 7) / 8, (width + 15) / 16;
    assert Span(width, 4) == 4 * a && Span(width, 8) == 8 * b && Span(width, 16) == 16 * c;
    hide Span;
    assert width <= 4 * a && width <= 8 * b && b <= 2 * c;
  }

  /** Kept lines come through unchanged, whatever the other fields and the path. */
  lemma KeptLinesUnchanged(f: Frames, width: nat, height: nat, parity: bool, tff: bool, up: nat, y: nat)
    requires Readable(f, width, height) && height >= 3 && y < height && up <= 1
    requires KeptLine(y, parity)
    ensures Result(f, width, height, parity, tff, up)[y] == Row(f.cur, f.stride, width, y)
  {
    hide Row;
    ResultAt(f, width, height, parity, tff, up, y);
  }

  lemma MixedDiffer(a: seq<Byte>, b: seq<Byte>, x: nat)
    requires |a| == |b| && x < |a|
    ensures |Filtered(Half, a, b, b, 0)| == |a| == |Filtered(Half, a, b, b, 1)|
    ensures 0 <= Filtered(Half, a, b, b, 1)[x] as int - Filtered(Half, a, b, b, 0)[x] as int <= 1
  {
  }

  /** The scalar and the SIMD path give the same plane, except that in the second and the last but one
      line, where those are made up, the SIMD path may be larger by one. */
  lemma PathsAgree(f: Frames, width: nat, height: nat, parity: bool, tff: bool, y: nat)
    requires Readable(f, width, height) && height >= 3 && y < height
    ensures var scalar := Result(f, width, height, parity, tff, 0)[y];
            var simd := Result(f, width, height, parity, tff, 1)[y];
            && |scalar| == width == |simd|
            && (KeptLine(y, parity) || (y != 1 && y != height - 2) ==> scalar == simd)
            && forall x :: 0 <= x < width ==> 0 <= simd[x] as int - scalar[x] as int <= 1
  {
    hide Row, Filtered, DeinterlacedRow;
    ResultAt(f, width, height, parity, tff, 0, y);
    ResultAt(f, width, height, parity, tff, 1, y);
    LineInReach(f, width, height, y);
    if KeptLine(y, parity) {
      RowIsSlice(f.cur, f.stride, width, height, y);
    } else if y == 0 {
      RowIsSlice(f.cur, f.stride, width, height, 1);
    } else if y == height - 1 {
      RowIsSlice(f.cur, f.stride, width, height, height - 2);
    } else if y == 1 || y == height - 2 {
      MixedLength(Row(f.cur, f.stride, width, y - 1), Row(f.cur, f.stride, width, y + 1));
      forall x | 0 <= x < width
        ensures 0 <= Result(f, width, height, parity, tff, 1)[y][x] as int
                     - Result(f, width, height, parity, tff, 0)[y][x] as int <= 1
      {
        MixedDiffer(Row(f.cur, f.stride, width, y - 1), Row(f.cur, f.stride, width, y + 1), x);
      }
    }
  }

  lemma MixedLength(a: seq<Byte>, b: seq<Byte>)
    requires |a| == |b|
    ensures |Filtered(Half, a, b, b, 0)| == |a| == |Filtered(Half, a, b, b, 1)|
  {
  }

  /** Yadif_Plane on either path, for every plane of at least three lines. */
  method YadifPlane(dst: array<Byte>, dstStride: nat, f: Frames, width: nat, height: nat, parity: bool, tff: bool,
                    sse2: bool)
    requires Room(dst.Length, dstStride, f, width, height, Span(width, if sse2 then 16 else 4))
    modifies dst
    ensures var n, up := Span(width, if sse2 then 16 else 4), if sse2 then 1 else 0;
            && Readable(f, width, height)
            && Picture(dst[..], dstStride, width, height) == Result(f, width, height, parity, tff, up)
            && OthersKept(old(dst[..]), dst[..], dstStride, n, height)
    ensures forall y :: 0 <= y < height && KeptLine(y, parity) ==>
              Row(dst[..], dstStride, width, y) == Row(f.cur, f.stride, width, y)
  {
    hide Painted, OnlyChanged, Offset, Result, Row, Span, Picture, OthersKept;
    ghost var t := Plan(dst[..], dstStride, f, width, height, parity, tff, if sse2 then 1 else 0,
                        Span(width, if sse2 then 16 else 4));
    NothingPainted(dst[..], dstStride, width, t.n, Target(t));
    var y := 0;
    CopyLine(dst, f, dstStride, width, y, if KeptLine(y, parity) then 0 else 1, t, 0);
    y := 1;
    if !KeptLine(y, parity) {
      MixLine(dst, f, dstStride, width, y, sse2, t, 1);
    } else {
      CopyLine(dst, f, dstStride, width, y, 1, t, 1);
    }
    y := 2;
    while y < height - 2
      invariant 2 <= y && (height > 3 ==> y <= height - 2) && (height == 3 ==> y == 2)
      invariant Done(t, dst[..], y)
    {
      if !KeptLine(y, parity) {
        DeinterlaceLine(dst, f, dstStride, width, y, parity != tff, sse2, t);
      } else {
        CopyLine(dst, f, dstStride, width, y, y, t, y);
      }
      y := y + 1;
    }
    ghost var k := y;
    y := height - 2;
    if !KeptLine(y, parity) {
      MixLine(dst, f, dstStride, width, y, sse2, t, k);
    } else {
      CopyLine(dst, f, dstStride, width, y, y, t, k);
    }
    y := height - 1;
    CopyLine(dst, f, dstStride, width, y, if KeptLine(y, parity) then y else height - 2, t, height - 1);
    AllPainted(t.first, dst[..], dstStride, width, t.n, Target(t));
    forall l | 0 <= l < height && KeptLine(l, parity)
      ensures Row(dst[..], dstStride, width, l) == Row(f.cur, f.stride, width, l)
    {
      PictureRow(dst[..], dstStride, width, height, l);
      KeptLinesUnchanged(f, width, height, parity, tff, t.up, l);
    }
  }
}
