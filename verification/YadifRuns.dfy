/** What comes out of CDeinterlacer_Yadif::GetFrame (src/Deinterlace_Yadif.cpp:393-449) between the lines it keeps,
    told from the three sources alone. */
module YadifRuns {
  import opened Words
  import opened Planes
  import opened YadifPlane
  import opened YadifLaws
  import opened YadifWindow

  /** Column x of line y is no darker than the lines next to it, which are no darker than those beyond; all five
      are the same in the other picture, and the two next to it in all three. */
  predicate StillMaximum(p0: seq<seq<Byte>>, p1: seq<seq<Byte>>, p2: seq<seq<Byte>>, other: seq<seq<Byte>>, width: nat,
                         y: nat, x: nat) {
    && 2 <= y < |p1| - 2 && |p0| == |p1| == |p2| == |other| && x < width
    && (forall l :: y - 2 <= l <= y + 2 ==> |p0[l]| == |p1[l]| == |p2[l]| == |other[l]| == width)
    && other[y][x] == p1[y][x]
    && other[y - 2][x] == p1[y - 2][x] <= p1[y - 1][x] && other[y + 2][x] == p1[y + 2][x] <= p1[y + 1][x]
    && p0[y - 1][x] == p1[y - 1][x] == p2[y - 1][x] <= p1[y][x]
    && p0[y + 1][x] == p1[y + 1][x] == p2[y + 1][x] <= p1[y][x]
  }

  lemma PictureByte(s: seq<Byte>, pitch: nat, width: nat, height: nat, y: nat, x: nat)
    requires y < height && x < width && |Picture(s, pitch, width, height)[y]| == width
    ensures Picture(s, pitch, width, height)[y][x] == Px(s, pitch, y, x)
  {
    PictureRow(s, pitch, width, height, y);
    OffsetStep(y, pitch, 0, 0, x);
    hide Offset;
  }

  lemma ResultLength(f: Frames, width: nat, height: nat, parity: bool, tff: bool, up: nat, y: nat)
    requires Readable(f, width, height) && height >= 3 && y < height && up <= 1
    ensures |Result(f, width, height, parity, tff, up)[y]| == width
  {
    hide Row, DeinterlacedRow;
    ResultAt(f, width, height, parity, tff, up, y);
    LineInReach(f, width, height, y);
    RowIsSlice(f.cur, f.stride, width, height, y);
    RowIsSlice(f.cur, f.stride, width, height, 1);
    RowIsSlice(f.cur, f.stride, width, height, height - 2);
  }

  lemma MadeIsShown(dst: seq<Byte>, pitch: nat, f: Frames, width: nat, height: nat, parity: bool, tff: bool, up: nat)
    requires MadeFrom(dst, pitch, f, width, height, parity, tff, up) && width > 0
    ensures Shows(dst, pitch, f, width, height, parity, tff, up)
  {
    hide Result, Readable;
    ResultLength(f, width, height, parity, tff, up, height - 1);
    PictureRow(dst, pitch, width, height, height - 1);
  }

  /** The still maximum in the bytes of the planes. */
  lemma LineBytes(s: seq<Byte>, pitch: nat, width: nat, height: nat, y: nat, x: nat)
    requires 2 <= y < height - 2 && x < width
    requires forall l :: y - 2 <= l <= y + 2 ==> |Picture(s, pitch, width, height)[l]| == width
    ensures forall l :: y - 2 <= l <= y + 2 ==> Picture(s, pitch, width, height)[l][x] == Px(s, pitch, l, x)
  {
    hide Picture, Px;
    forall l | y - 2 <= l <= y + 2
      ensures Picture(s, pitch, width, height)[l][x] == Px(s, pitch, l, x)
    {
      PictureByte(s, pitch, width, height, l, x);
    }
  }

  /** One plane. */
  lemma PlaneMaximumKept(dst: seq<Byte>, pitch: nat, f: Frames, width: nat, height: nat, parity: bool, tff: bool,
                         up: nat, y: nat, x: nat)
    requires MadeFrom(dst, pitch, f, width, height, parity, tff, up) && y % 2 != if parity then 1 else 0
    requires var p0, p1, p2 := Picture(f.prev, f.stride, width, height), Picture(f.cur, f.stride, width, height),
                               Picture(f.next, f.stride, width, height);
             StillMaximum(p0, p1, p2, if parity == tff then p2 else p0, width, y, x)
    ensures Px(dst, pitch, y, x) == Picture(f.cur, f.stride, width, height)[y][x]
  {
    hide MadeFrom, Shows, Px, Picture;
    LineBytes(f.prev, f.stride, width, height, y, x);
    LineBytes(f.cur, f.stride, width, height, y, x);
    LineBytes(f.next, f.stride, width, height, y, x);
    MadeIsShown(dst, pitch, f, width, height, parity, tff, up);
    MaximumPixels(f, Picture(f.prev, f.stride, width, height), Picture(f.cur, f.stride, width, height),
                  Picture(f.next, f.stride, width, height), parity == tff, width, y, x);
    StillExtremum(dst, pitch, f, width, height, parity, tff, up, y, x);
  }

  lemma MaximumPixels(f: Frames, p0: seq<seq<Byte>>, p1: seq<seq<Byte>>, p2: seq<seq<Byte>>, after: bool, width: nat,
                      y: nat, x: nat)
    requires StillMaximum(p0, p1, p2, if after then p2 else p0, width, y, x)
    requires forall l :: y - 2 <= l <= y + 2 ==> p0[l][x] == Px(f.prev, f.stride, l, x)
    requires forall l :: y - 2 <= l <= y + 2 ==> p1[l][x] == Px(f.cur, f.stride, l, x)
    requires forall l :: y - 2 <= l <= y + 2 ==> p2[l][x] == Px(f.next, f.stride, l, x)
    ensures var other := if after then f.next else f.prev;
            && Px(other, f.stride, y, x) == Px(f.cur, f.stride, y, x)
            && Px(other, f.stride, y - 2, x) == Px(f.cur, f.stride, y - 2, x) <= Px(f.cur, f.stride, y - 1, x)
            && Px(other, f.stride, y + 2, x) == Px(f.cur, f.stride, y + 2, x) <= Px(f.cur, f.stride, y + 1, x)
    ensures forall l :: l == y - 1 || l == y + 1 ==>
              && Px(f.prev, f.stride, l, x) == Px(f.cur, f.stride, l, x) == Px(f.next, f.stride, l, x)
              && Px(f.cur, f.stride, l, x) <= Px(f.cur, f.stride, y, x)
  {
    hide Px;
    assert p1[y - 2][x] == Px(f.cur, f.stride, y - 2, x) && p1[y + 2][x] == Px(f.cur, f.stride, y + 2, x);
    assert p1[y][x] == Px(f.cur, f.stride, y, x);
  }

  /** In a line of the field that is not shown, a still maximum of the middle source comes through in all three
      planes. The source it must agree with is the one before, or the one after for the second picture of a
      doubled frame. */
  lemma StillMaximumShown<A(!new)>(o: Output<A>, pitchY: nat, pitchC: nat, c0: Content<A>, c1: Content<A>,
                                   c2: Content<A>, bob: bool, field: bool, sse2: bool, y: nat, x: nat)
    requires OutputShows(o, pitchY, pitchC, c0, c1, c2, bob, field, sse2)
    requires c0.width == c1.width == c2.width && c0.height == c1.height == c2.height
    requires y % 2 != if c1.topFieldFirst != (bob && field) then 0 else 1
    ensures var other := if bob && field then c2 else c0;
            && (StillMaximum(c0.luma, c1.luma, c2.luma, other.luma, c1.width, y, x) ==>
                  Px(o.y, pitchY, y, x) == c1.luma[y][x])
            && (StillMaximum(c0.cb, c1.cb, c2.cb, other.cb, c1.width / 2, y, x) ==>
                  Px(o.u, pitchC, y, x) == c1.cb[y][x])
            && (StillMaximum(c0.cr, c1.cr, c2.cr, other.cr, c1.width / 2, y, x) ==>
                  Px(o.v, pitchC, y, x) == c1.cr[y][x])
  {
    hide MadeFrom, Picture, Px, StillMaximum, ShowsKeptLines, Padded;
    var w, h, tff, up := c1.width, c1.height, c1.topFieldFirst, if sse2 then 1 else 0;
    var parity := Parity(bob, field, tff);
    var f0, f1, f2 :|
      && ContentOf(f0) == c0 && ContentOf(f1) == c1 && ContentOf(f2) == c2 && SameLayout(f0, f1, f2)
      && MadeFromImages(o.y, o.u, o.v, pitchY, pitchC, f0, f1, f2, parity, up);
    var fy, fu, fv := Frames(f0.y, f1.y, f2.y, f0.pitchY), Frames(f0.u, f1.u, f2.u, f0.pitchC),
                      Frames(f0.v, f1.v, f2.v, f0.pitchC);
    var other := if bob && field then c2 else c0;
    if StillMaximum(c0.luma, c1.luma, c2.luma, other.luma, w, y, x) {
      PlaneMaximumKept(o.y, pitchY, fy, w, h, parity, tff, up, y, x);
    }
    if StillMaximum(c0.cb, c1.cb, c2.cb, other.cb, w / 2, y, x) {
      PlaneMaximumKept(o.u, pitchC, fu, w / 2, h / 2, parity, tff, up, y, x);
    }
    if StillMaximum(c0.cr, c1.cr, c2.cr, other.cr, w / 2, y, x) {
      PlaneMaximumKept(o.v, pitchC, fv, w / 2, h / 2, parity, tff, up, y, x);
    }
  }
}
