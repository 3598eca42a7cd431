/** What Yadif_Plane makes of three frames (src/Deinterlace_Yadif.cpp:41-106, 301-352), pixel by pixel and
    in the bytes of the planes: line y, column x of a plane of the given stride. */
module YadifLaws {
  import opened Words
  import opened Planes
  import Blend
  import opened YadifPixel
  import opened YadifPlane

  function Px(s: seq<Byte>, stride: nat, y: int, x: int): int {
    var o := Offset(y, stride, x);
    if 0 <= o < |s| then s[o] else 0
  }

  // ----- the lines that are not searched for directions

  /** A destination that shows the result. */
  ghost predicate Shows(dst: seq<Byte>, dstStride: nat, f: Frames, width: nat, height: nat, parity: bool, tff: bool,
                        up: nat) {
    && Readable(f, width, height) && height >= 3 && up <= 1 && Reaches(|dst|, dstStride, width, height)
    && Picture(dst, dstStride, width, height) == Result(f, width, height, parity, tff, up)
  }

  lemma RowByte(s: seq<Byte>, stride: nat, width: nat, height: nat, y: nat, x: nat)
    requires Reaches(|s|, stride, width, height) && y < height && x < width
    ensures |Row(s, stride, width, y)| == width && Row(s, stride, width, y)[x] == Px(s, stride, y, x)
  {
    RowIsSlice(s, stride, width, height, y);
    OffsetStep(y, stride, 0, 0, x);
  }

  lemma ShownByte(dst: seq<Byte>, dstStride: nat, f: Frames, width: nat, height: nat, parity: bool, tff: bool,
                  up: nat, y: nat, x: nat)
    requires Shows(dst, dstStride, f, width, height, parity, tff, up) && y < height && x < width
    ensures |ResultLine(f, width, height, parity, tff, up, y)| == width
    ensures Px(dst, dstStride, y, x) == ResultLine(f, width, height, parity, tff, up, y)[x]
  {
    hide ResultLine, Row, Px, Offset, Reaches;
    RowByte(dst, dstStride, width, height, y, x);
    PictureRow(dst, dstStride, width, height, y);
    ResultAt(f, width, height, parity, tff, up, y);
  }

  /** Lines of the kept parity, odd ones for a true parity, are the source's; of the others the outermost are
      copies of their neighbours, and the next ones the means of theirs. */
  lemma OuterLines(dst: seq<Byte>, dstStride: nat, f: Frames, width: nat, height: nat, parity: bool, tff: bool,
                   up: nat, y: nat, x: nat)
    requires Shows(dst, dstStride, f, width, height, parity, tff, up) && y < height && x < width
    ensures y % 2 == (if parity then 1 else 0) ==> Px(dst, dstStride, y, x) == Px(f.cur, f.stride, y, x)
    ensures y % 2 != (if parity then 1 else 0) ==>
              && (y == 0 ==> Px(dst, dstStride, y, x) == Px(f.cur, f.stride, 1, x))
              && (y == height - 1 ==> Px(dst, dstStride, y, x) == Px(f.cur, f.stride, height - 2, x))
              && (y == 1 || y == height - 2 ==>
                    Px(dst, dstStride, y, x)
                    == (Px(f.cur, f.stride, y - 1, x) + Px(f.cur, f.stride, y + 1, x) + up) / 2)
  {
    hide Px, Row, Reaches, DeinterlacedRow, Shows, Offset;
    ShownByte(dst, dstStride, f, width, height, parity, tff, up, y, x);
    ShownReaches(dst, dstStride, f, width, height, parity, tff, up);
    RowByte(f.cur, f.stride, width, height, y, x);
    LineInReach(f, width, height, y);
    if y == 0 || y == height - 1 {
      RowByte(f.cur, f.stride, width, height, 1, x);
      RowByte(f.cur, f.stride, width, height, height - 2, x);
    } else {
      RowByte(f.cur, f.stride, width, height, y - 1, x);
      RowByte(f.cur, f.stride, width, height, y + 1, x);
    }
  }

  lemma ShownReaches(dst: seq<Byte>, dstStride: nat, f: Frames, width: nat, height: nat, parity: bool, tff: bool,
                     up: nat)
    requires Shows(dst, dstStride, f, width, height, parity, tff, up)
    ensures Readable(f, width, height) && Reaches(|f.cur|, f.stride, width, height) && height >= 3 && up <= 1
  {
  }

  // ----- the inner lines

  /** A made line with two lines on either side. */
  predicate Inner(height: nat, parity: bool, y: nat) {
    2 <= y < height - 2 && y % 2 != if parity then 1 else 0
  }

  lemma OffsetsAround(y: int, stride: nat, x: int)
    ensures Offset(y, stride, x) == Offset(y, stride, 0) + x
    ensures Offset(y - 1, stride, x) == Offset(y, stride, 0) + x - stride
    ensures Offset(y + 1, stride, x) == Offset(y, stride, 0) + x + stride
    ensures Offset(y - 2, stride, x) == Offset(y, stride, 0) + x - 2 * stride
    ensures Offset(y + 2, stride, x) == Offset(y, stride, 0) + x + 2 * stride
  {
    assert (y - 2) * stride == y * stride - 2 * stride && (y + 2) * stride == y * stride + 2 * stride;
    assert (y - 1) * stride == y * stride - stride && (y + 1) * stride == y * stride + stride;
  }

  lemma PxIs(s: seq<Byte>, stride: nat, y: int, x: int)
    ensures var o := Offset(y, stride, x); 0 <= o < |s| ==> Px(s, stride, y, x) == s[o]
  {
  }

  lemma LineBytes(f: Frames, o: int, p: bool, k: int)
    requires SameSize(f) && InReach(f, o) && -3 <= k <= 3
    ensures Above(WindowAt(f, o, p), k) == f.cur[o - f.stride + k]
    ensures Below(WindowAt(f, o, p), k) == f.cur[o + f.stride + k]
  {
  }

  lemma FieldBytes(f: Frames, o: int, y: int, x: int, p: bool)
    requires SameSize(f) && InReach(f, o) && Offset(y, f.stride, x) == o
    requires Offset(y - 1, f.stride, x) == o - f.stride && Offset(y + 1, f.stride, x) == o + f.stride
    requires Offset(y - 2, f.stride, x) == o - 2 * f.stride && Offset(y + 2, f.stride, x) == o + 2 * f.stride
    ensures var w, (a, b) := WindowAt(f, o, p), if p then (f.prev, f.cur) else (f.cur, f.next);
            && w.prevAbove == Px(f.prev, f.stride, y - 1, x) && w.prevBelow == Px(f.prev, f.stride, y + 1, x)
            && w.nextAbove == Px(f.next, f.stride, y - 1, x) && w.nextBelow == Px(f.next, f.stride, y + 1, x)
            && w.prev2 == Px(a, f.stride, y, x) && w.next2 == Px(b, f.stride, y, x)
            && w.prev2Above2 == Px(a, f.stride, y - 2, x) && w.next2Above2 == Px(b, f.stride, y - 2, x)
            && w.prev2Below2 == Px(a, f.stride, y + 2, x) && w.next2Below2 == Px(b, f.stride, y + 2, x)
  {
    hide Offset;
  }

  /** What the row functions are given, line by line and column by column. */
  lemma WindowBytes(f: Frames, width: nat, height: nat, y: nat, x: nat, p: bool)
    requires Readable(f, width, height) && 2 <= y < height - 2 && x < width
    ensures SameSize(f) && InReach(f, Offset(y, f.stride, 0) + x)
    ensures var w := WindowAt(f, Offset(y, f.stride, 0) + x, p);
            && (forall k :: -3 <= k <= 3 ==> Above(w, k) == Px(f.cur, f.stride, y - 1, x + k))
            && (forall k :: -3 <= k <= 3 ==> Below(w, k) == Px(f.cur, f.stride, y + 1, x + k))
            && w.prevAbove == Px(f.prev, f.stride, y - 1, x) && w.prevBelow == Px(f.prev, f.stride, y + 1, x)
            && w.nextAbove == Px(f.next, f.stride, y - 1, x) && w.nextBelow == Px(f.next, f.stride, y + 1, x)
            && var (a, b) := if p then (f.prev, f.cur) else (f.cur, f.next);
               && w.prev2 == Px(a, f.stride, y, x) && w.next2 == Px(b, f.stride, y, x)
               && w.prev2Above2 == Px(a, f.stride, y - 2, x) && w.next2Above2 == Px(b, f.stride, y - 2, x)
               && w.prev2Below2 == Px(a, f.stride, y + 2, x) && w.next2Below2 == Px(b, f.stride, y + 2, x)
  {
    LineInReach(f, width, height, y);
    hide Offset, WindowAt, Px;
    var o := Offset(y, f.stride, 0) + x;
    forall k | -3 <= k <= 3
      ensures var w := WindowAt(f, o, p);
              Above(w, k) == Px(f.cur, f.stride, y - 1, x + k) && Below(w, k) == Px(f.cur, f.stride, y + 1, x + k)
    {
      OffsetsAround(y, f.stride, x + k);
      LineBytes(f, o, p, k);
      PxIs(f.cur, f.stride, y - 1, x + k);
      PxIs(f.cur, f.stride, y + 1, x + k);
    }
    OffsetsAround(y, f.stride, x);
    FieldBytes(f, o, y, x, p);
  }

  lemma {:induction false} RowPixel(f: Frames, o: int, parity: bool, n: nat, x: nat)
    requires RowInReach(f, o, n) && x < n
    ensures InReach(f, o + x)
    ensures DeinterlacedRow(f, o, parity, n)[x] as int == Deinterlaced(WindowAt(f, o + x, parity))
  {
    hide WindowAt, Deinterlaced;
    if x < n - 1 {
      RowPixel(f, o, parity, n - 1, x);
    }
  }

  lemma InnerPixel(dst: seq<Byte>, dstStride: nat, f: Frames, width: nat, height: nat, parity: bool, tff: bool,
                   up: nat, y: nat, x: nat)
    requires Shows(dst, dstStride, f, width, height, parity, tff, up) && Inner(height, parity, y) && x < width
    ensures Readable(f, width, height) && SameSize(f) && InReach(f, Offset(y, f.stride, 0) + x)
    ensures Px(dst, dstStride, y, x) == Deinterlaced(WindowAt(f, Offset(y, f.stride, 0) + x, parity != tff))
  {
    hide Px, Row, Reaches, DeinterlacedRow, Shows, Offset, WindowAt, Deinterlaced, InReach;
    ShownByte(dst, dstStride, f, width, height, parity, tff, up, y, x);
    ShownReaches(dst, dstStride, f, width, height, parity, tff, up);
    LineInReach(f, width, height, y);
    RowPixel(f, Offset(y, f.stride, 0), parity != tff, width, x);
  }

  // ----- which fields count

  /** The two planes agree on the lines that are kept. */
  ghost predicate SameKeptLines(s: seq<Byte>, t: seq<Byte>, stride: nat, width: nat, height: nat, parity: bool) {
    && |s| == |t|
    && forall l, x :: 0 <= l < height && 0 <= x < width && l % 2 == (if parity then 1 else 0) ==>
         Px(s, stride, l, x) == Px(t, stride, l, x)
  }

  /** In a made line only one neighbour's field of the same parity counts: for differing parity and tff the
      previous frame's, and otherwise the next frame's. Of the other frame only the kept lines are read. */
  lemma OtherFieldUnused(dst: seq<Byte>, dst': seq<Byte>, dstStride: nat, f: Frames, g: Frames, width: nat,
                         height: nat, parity: bool, tff: bool, up: nat, y: nat, x: nat)
    requires Shows(dst, dstStride, f, width, height, parity, tff, up)
    requires Shows(dst', dstStride, g, width, height, parity, tff, up)
    requires f.cur == g.cur && f.stride == g.stride && Inner(height, parity, y) && x < width
    requires if parity != tff then f.prev == g.prev && SameKeptLines(f.next, g.next, f.stride, width, height, parity)
             else f.next == g.next && SameKeptLines(f.prev, g.prev, f.stride, width, height, parity)
    ensures Px(dst, dstStride, y, x) == Px(dst', dstStride, y, x)
  {
    hide Shows, Px, Deinterlaced, WindowAt, Offset, InReach, Readable;
    InnerPixel(dst, dstStride, f, width, height, parity, tff, up, y, x);
    InnerPixel(dst', dstStride, g, width, height, parity, tff, up, y, x);
    WindowBytes(f, width, height, y, x, parity != tff);
    WindowBytes(g, width, height, y, x, parity != tff);
    SameWindow(WindowAt(f, Offset(y, f.stride, 0) + x, parity != tff),
               WindowAt(g, Offset(y, f.stride, 0) + x, parity != tff));
  }

  lemma SameWindow(v: Window, w: Window)
    requires Full(v) && Full(w)
    requires forall k :: -3 <= k <= 3 ==> Above(v, k) == Above(w, k) && Below(v, k) == Below(w, k)
    requires v.(above := w.above, below := w.below) == w
    ensures v == w
  {
    assert forall i :: 0 <= i < 7 ==> v.above[i] == Above(v, i - 3) && w.above[i] == Above(w, i - 3);
    assert forall i :: 0 <= i < 7 ==> v.below[i] == Below(v, i - 3) && w.below[i] == Below(w, i - 3);
  }

  // ----- what comes out

  function Distance(x: int, y: int): int { if x < y then y - x else x - y }

  function Least(x: int, y: int): int { if x <= y then x else y }

  function Most(x: int, y: int): int { if x >= y then x else y }

  /** How far three pixels of the line above lie from three of the line below, along a direction that goes j
      columns to the right going up and as many to the left going down. */
  function Mismatch(s: seq<Byte>, stride: nat, y: int, x: int, j: int): int {
    Distance(Px(s, stride, y - 1, x + j - 1), Px(s, stride, y + 1, x - j - 1))
    + Distance(Px(s, stride, y - 1, x + j), Px(s, stride, y + 1, x - j))
    + Distance(Px(s, stride, y - 1, x + j + 1), Px(s, stride, y + 1, x - j + 1))
  }

  /** The search takes direction j, of five mismatches: the straight one has one point of advantage, the left
      side is tried first, and on either side the second step only where the first improved. */
  predicate Taken(l2: int, l1: int, straight: int, r1: int, r2: int, j: int) {
    var left := if l1 >= straight - 1 then straight - 1 else Least(l1, l2);
    if r1 < left then j == (if r2 < r1 then 2 else 1)
    else if l1 < straight - 1 then j == (if l2 < l1 then -2 else -1)
    else j == 0
  }

  predicate Leads(s: seq<Byte>, stride: nat, y: int, x: int, j: int) {
    Taken(Mismatch(s, stride, y, x, -2), Mismatch(s, stride, y, x, -1), Mismatch(s, stride, y, x, 0),
          Mismatch(s, stride, y, x, 1), Mismatch(s, stride, y, x, 2), j)
  }

  lemma SomeTaken(l2: int, l1: int, straight: int, r1: int, r2: int) returns (j: int)
    ensures -2 <= j <= 2 && Taken(l2, l1, straight, r1, r2, j)
  {
    var left := if l1 >= straight - 1 then straight - 1 else Least(l1, l2);
    j := if r1 < left then (if r2 < r1 then 2 else 1)
         else if l1 < straight - 1 then (if l2 < l1 then -2 else -1) else 0;
  }

  lemma OneTaken(l2: int, l1: int, straight: int, r1: int, r2: int, j: int, k: int)
    requires Taken(l2, l1, straight, r1, r2, j) && Taken(l2, l1, straight, r1, r2, k)
    ensures j == k
  {
  }

  lemma ExactlyOneLeads(s: seq<Byte>, stride: nat, y: int, x: int)
    ensures exists j :: -2 <= j <= 2 && Leads(s, stride, y, x, j)
    ensures forall j, k :: Leads(s, stride, y, x, j) && Leads(s, stride, y, x, k) ==> j == k
  {
    hide Mismatch, Taken;
    var j := SomeTaken(Mismatch(s, stride, y, x, -2), Mismatch(s, stride, y, x, -1), Mismatch(s, stride, y, x, 0),
                       Mismatch(s, stride, y, x, 1), Mismatch(s, stride, y, x, 2));
    assert Leads(s, stride, y, x, j);
    forall k, l | Leads(s, stride, y, x, k) && Leads(s, stride, y, x, l)
      ensures k == l
    {
      OneTaken(Mismatch(s, stride, y, x, -2), Mismatch(s, stride, y, x, -1), Mismatch(s, stride, y, x, 0),
               Mismatch(s, stride, y, x, 1), Mismatch(s, stride, y, x, 2), k, l);
    }
  }

  /** Half of what has changed at the pixel and on the lines above and below. */
  function Motion(f: Frames, a: seq<Byte>, b: seq<Byte>, y: int, x: int): int {
    var c, e := Px(f.cur, f.stride, y - 1, x), Px(f.cur, f.stride, y + 1, x);
    Most(Distance(Px(a, f.stride, y, x), Px(b, f.stride, y, x)) / 2,
         Most((Distance(Px(f.prev, f.stride, y - 1, x), c) + Distance(Px(f.prev, f.stride, y + 1, x), e)) / 2,
              (Distance(Px(f.next, f.stride, y - 1, x), c) + Distance(Px(f.next, f.stride, y + 1, x), e)) / 2))
  }

  /** How far the pixel may be moved: by the motion, or by as much as it rises above both lines next to it, up to
      the greater step from those to the lines beyond; and likewise where it falls below them. */
  function Leeway(motion: int, above2: int, above: int, here: int, below: int, below2: int): int {
    Most(motion,
         Most(Least(Least(here - above, here - below), Most(above2 - above, below2 - below)),
              Least(Least(above - here, below - here), Most(above - above2, below - below2))))
  }

  lemma LeewayIsBound(motion: int, bc: int, fe: int, dc: int, de: int, above: int, here: int, below: int)
    requires dc == here - above && de == here - below
    ensures Bound(motion, bc, fe, dc, de) == Leeway(motion, bc + above, above, here, below, fe + below)
  {
  }

  lemma WindowDirection(w: Window, j: int)
    requires Full(w) && Taken(Score(w, -2), Score(w, -1), Score(w, 0), Score(w, 1), Score(w, 2), j)
    ensures j == Direction(w)
  {
    hide Score;
  }

  lemma AbsIsDistance(x: int, y: int)
    ensures Abs(x - y) == Distance(x, y)
  {
  }

  lemma Max3IsMost(x: int, y: int, z: int)
    ensures Max3(x, y, z) == Most(x, Most(y, z))
  {
  }

  lemma WindowMotion(w: Window)
    requires Full(w)
    ensures var c, e := Above(w, 0), Below(w, 0);
            Change(w) == Most(Distance(w.prev2, w.next2) / 2,
                              Most((Distance(w.prevAbove, c) + Distance(w.prevBelow, e)) / 2,
                                   (Distance(w.nextAbove, c) + Distance(w.nextBelow, e)) / 2))
  {
    hide Abs, Distance, Max3, Most, Above, Below;
    var c, e := Above(w, 0), Below(w, 0);
    AbsIsDistance(w.prev2, w.next2);
    AbsIsDistance(w.prevAbove, c);
    AbsIsDistance(w.prevBelow, e);
    AbsIsDistance(w.nextAbove, c);
    AbsIsDistance(w.nextBelow, e);
    Max3IsMost(Distance(w.prev2, w.next2) / 2, (Distance(w.prevAbove, c) + Distance(w.prevBelow, e)) / 2,
               (Distance(w.nextAbove, c) + Distance(w.nextBelow, e)) / 2);
  }

  /** As near to the spatial prediction as `leeway` around the temporal one allows. */
  predicate Limited(made: int, spatial: int, temporal: int, leeway: int) {
    && (temporal - leeway <= spatial <= temporal + leeway ==> made == spatial)
    && (spatial > temporal + leeway ==> made == temporal + leeway)
    && (spatial < temporal - leeway ==> made == temporal - leeway)
  }

  lemma WindowPixel(w: Window, j: int)
    requires Full(w) && -2 <= j <= 2
    requires Taken(Score(w, -2), Score(w, -1), Score(w, 0), Score(w, 1), Score(w, 2), j)
    ensures var c, e, d := Above(w, 0), Below(w, 0), (w.prev2 as int + w.next2) / 2;
            Limited(Deinterlaced(w), (Above(w, j) + Below(w, 0 - j)) / 2, d,
                    Leeway(Change(w), (w.prev2Above2 as int + w.next2Above2) / 2, c, d, e,
                           (w.prev2Below2 as int + w.next2Below2) / 2))
  {
    hide Score, Change, Bound, Leeway, Direction, Taken, Above, Below;
    WindowDirection(w, j);
    var c, d, e := Above(w, 0), Temporal(w), Below(w, 0);
    LeewayIsBound(Change(w), TwoAbove(w) - c, TwoBelow(w) - e, d - c, d - e, c, d, e);
    StaysBetween(w);
  }

  /** The two fields nearest in time that have the made line: of the previous and this frame, or this and the
      next one. */
  function Nearest(f: Frames, parity: bool, tff: bool): (seq<Byte>, seq<Byte>) {
    if parity == tff then (f.cur, f.next) else (f.prev, f.cur)
  }

  function Mean(a: seq<Byte>, b: seq<Byte>, stride: nat, y: int, x: int): int {
    (Px(a, stride, y, x) + Px(b, stride, y, x)) / 2
  }

  /** Every pixel of a made line: the mean of the two pixels along the direction that leads, where that is
      within the leeway of the mean of the two nearest fields, and else as near to it as the leeway allows. */
  lemma MadePixel(dst: seq<Byte>, dstStride: nat, f: Frames, width: nat, height: nat, parity: bool, tff: bool,
                  up: nat, y: nat, x: nat, j: int)
    requires Shows(dst, dstStride, f, width, height, parity, tff, up) && Inner(height, parity, y) && x < width
    requires Leads(f.cur, f.stride, y, x, j)
    ensures var (a, b) := Nearest(f, parity, tff);
            var spatial := (Px(f.cur, f.stride, y - 1, x + j) + Px(f.cur, f.stride, y + 1, x - j)) / 2;
            var d := Mean(a, b, f.stride, y, x);
            var t := Leeway(Motion(f, a, b, y, x), Mean(a, b, f.stride, y - 2, x), Px(f.cur, f.stride, y - 1, x), d,
                            Px(f.cur, f.stride, y + 1, x), Mean(a, b, f.stride, y + 2, x));
            Limited(Px(dst, dstStride, y, x), spatial, d, t)
  {
    hide Shows, Px, WindowAt, Offset, InReach, Readable, Change, Leeway, Taken, Score, Deinterlaced, Limited, Above;
    InnerPixel(dst, dstStride, f, width, height, parity, tff, up, y, x);
    WindowBytes(f, width, height, y, x, parity != tff);
    var w := WindowAt(f, Offset(y, f.stride, 0) + x, parity != tff);
    WindowScores(f, y, x, w);
    LeadsBetween(f.cur, f.stride, y, x, j);
    WindowPixel(w, j);
    WindowMotion(w);
  }

  lemma LeadsBetween(s: seq<Byte>, stride: nat, y: int, x: int, j: int)
    requires Leads(s, stride, y, x, j)
    ensures -2 <= j <= 2
  {
    hide Mismatch;
  }

  lemma WindowScores(f: Frames, y: int, x: int, w: Window)
    requires Full(w)
    requires forall k :: -3 <= k <= 3 ==> Above(w, k) == Px(f.cur, f.stride, y - 1, x + k)
    requires forall k :: -3 <= k <= 3 ==> Below(w, k) == Px(f.cur, f.stride, y + 1, x + k)
    ensures forall j :: -2 <= j <= 2 ==> Score(w, j) == Mismatch(f.cur, f.stride, y, x, j)
  {
    hide Px, Above, Below;
    forall j | -2 <= j <= 2
      ensures Score(w, j) == Mismatch(f.cur, f.stride, y, x, j)
    {
      assert x + (j - 1) == x + j - 1 && x + (0 - j - 1) == x - j - 1 && x + (1 - j) == x - j + 1;
    }
  }

  /** A pixel that no line next to it exceeds, where the picture does not rise further beyond those either, is
      moved by no more than the motion; so where nothing has changed it comes through as it was. */
  lemma ExtremumKept(dst: seq<Byte>, dstStride: nat, f: Frames, width: nat, height: nat, parity: bool, tff: bool,
                     up: nat, y: nat, x: nat)
    requires Shows(dst, dstStride, f, width, height, parity, tff, up) && Inner(height, parity, y) && x < width
    requires var (a, b) := Nearest(f, parity, tff);
             var above, below := Px(f.cur, f.stride, y - 1, x), Px(f.cur, f.stride, y + 1, x);
             var here := Mean(a, b, f.stride, y, x);
             var above2, below2 := Mean(a, b, f.stride, y - 2, x), Mean(a, b, f.stride, y + 2, x);
             || (above2 <= above <= here && below2 <= below <= here)
             || (above2 >= above >= here && below2 >= below >= here)
    ensures var (a, b) := Nearest(f, parity, tff);
            && Distance(Px(dst, dstStride, y, x), Mean(a, b, f.stride, y, x)) <= Motion(f, a, b, y, x)
            && (Motion(f, a, b, y, x) == 0 && Px(a, f.stride, y, x) == Px(b, f.stride, y, x) ==>
                  Px(dst, dstStride, y, x) == Px(a, f.stride, y, x))
  {
    hide Shows, Px, Mismatch, Taken, Leads;
    ExactlyOneLeads(f.cur, f.stride, y, x);
    var j :| -2 <= j <= 2 && Leads(f.cur, f.stride, y, x, j);
    MadePixel(dst, dstStride, f, width, height, parity, tff, up, y, x, j);
  }

  /** Where the fields agree all around, such a pixel is the source's. */
  lemma StillExtremum(dst: seq<Byte>, dstStride: nat, f: Frames, width: nat, height: nat, parity: bool, tff: bool,
                      up: nat, y: nat, x: nat)
    requires Shows(dst, dstStride, f, width, height, parity, tff, up) && Inner(height, parity, y) && x < width
    requires var other := if parity == tff then f.next else f.prev;
             && Px(other, f.stride, y, x) == Px(f.cur, f.stride, y, x)
             && Px(other, f.stride, y - 2, x) == Px(f.cur, f.stride, y - 2, x) <= Px(f.cur, f.stride, y - 1, x)
             && Px(other, f.stride, y + 2, x) == Px(f.cur, f.stride, y + 2, x) <= Px(f.cur, f.stride, y + 1, x)
    requires forall l :: l == y - 1 || l == y + 1 ==>
               && Px(f.prev, f.stride, l, x) == Px(f.cur, f.stride, l, x) == Px(f.next, f.stride, l, x)
               && Px(f.cur, f.stride, l, x) <= Px(f.cur, f.stride, y, x)
    ensures Px(dst, dstStride, y, x) == Px(f.cur, f.stride, y, x)
  {
    hide Shows, Px;
    ExtremumKept(dst, dstStride, f, width, height, parity, tff, up, y, x);
  }
}
