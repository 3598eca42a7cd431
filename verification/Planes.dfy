/** Byte planes addressed by row, pitch and column, and the pictures they hold. */
module Planes {
  import opened Words

  function Offset(y: int, pitch: nat, x: int): int { y * pitch + x }

  lemma OffsetStep(y: int, pitch: nat, x: int, dy: int, dx: int)
    ensures Offset(y + dy, pitch, x + dx) == Offset(y, pitch, x) + dy * pitch + dx
  {
  }

  lemma OffsetMonotonic(y: int, y': int, pitch: nat)
    ensures y <= y' ==> Offset(y, pitch, 0) <= Offset(y', pitch, 0)
  {
    if y <= y' {
      assert (y' - y) * pitch >= 0;
      assert y' * pitch == y * pitch + (y' - y) * pitch;
    }
  }

  /** Rows that fit their pitch do not overlap. */
  lemma RowsApart(y: int, y': int, pitch: nat, width: nat)
    requires width <= pitch
    ensures y < y' ==> Offset(y, pitch, 0) + width <= Offset(y', pitch, 0)
  {
    OffsetMonotonic(y + 1, y', pitch);
    OffsetStep(y, pitch, 0, 1, 0);
  }

  /** The first `width` bytes of each of the first `height` rows are inside the buffer. */
  ghost predicate Reaches(length: nat, pitch: nat, width: nat, height: nat) {
    height > 0 ==> Offset(height - 1, pitch, 0) + width <= length
  }

  /** And the rows do not overlap. */
  ghost predicate Fits(length: nat, pitch: nat, width: nat, height: nat) {
    width <= pitch && Reaches(length, pitch, width, height)
  }

  lemma RowFits(length: nat, pitch: nat, width: nat, height: nat, y: nat)
    requires Reaches(length, pitch, width, height)
    ensures y < height ==> 0 <= Offset(y, pitch, 0) && Offset(y, pitch, 0) + width <= length
  {
    OffsetMonotonic(0, y, pitch);
    OffsetMonotonic(y, height - 1, pitch);
  }

  /** The first `width` bytes of row y. */
  ghost function Row(s: seq<Byte>, pitch: nat, width: nat, y: nat): seq<Byte> {
    var o := Offset(y, pitch, 0);
    if 0 <= o && o + width <= |s| then s[o..o + width] else []
  }

  /** The picture in a plane: its rows, each cut to the picture's width. */
  ghost function Picture(s: seq<Byte>, pitch: nat, width: nat, height: nat): (r: seq<seq<Byte>>)
    ensures |r| == height
  {
    seq(height, y requires 0 <= y < height => Row(s, pitch, width, y))
  }

  lemma PictureRow(s: seq<Byte>, pitch: nat, width: nat, height: nat, y: nat)
    requires y < height
    ensures |Picture(s, pitch, width, height)| == height
    ensures Picture(s, pitch, width, height)[y] == Row(s, pitch, width, y)
  {
  }

  /** Only the bytes d .. d + width - 1 may differ. */
  ghost predicate OnlyChanged(before: seq<Byte>, now: seq<Byte>, d: int, width: nat) {
    && |now| == |before|
    && (forall i :: 0 <= i < |now| && (i < d || d + width <= i) ==> now[i] == before[i])
  }

  lemma NothingChanged(s: seq<Byte>, d: int, width: nat)
    ensures OnlyChanged(s, s, d, width)
  {
  }

  /** A further change inside the same range. */
  lemma ChangesWithin(first: seq<Byte>, before: seq<Byte>, now: seq<Byte>, d: nat, width: nat, e: nat, n: nat)
    requires OnlyChanged(first, before, d, width) && OnlyChanged(before, now, e, n)
    requires d <= e && e + n <= d + width <= |before|
    ensures OnlyChanged(first, now, d, width) && now[d..e] == before[d..e]
  {
  }

  /** Writing row k, even past its end, leaves the rows above it alone. */
  lemma KeepsRow(before: seq<Byte>, now: seq<Byte>, pitch: nat, width: nat, span: nat, k: nat, y: nat)
    requires width <= pitch && OnlyChanged(before, now, Offset(k, pitch, 0), span)
    ensures y < k ==> Row(now, pitch, width, y) == Row(before, pitch, width, y)
  {
    hide Offset;
    RowsApart(y, k, pitch, width);
  }

  /** Byte i lies in the first `width` columns of one of the first `rows` rows. */
  ghost predicate Covered(i: int, pitch: nat, width: nat, rows: nat) {
    exists y :: 0 <= y < rows && Offset(y, pitch, 0) <= i < Offset(y, pitch, 0) + width
  }

  ghost predicate OthersKept(before: seq<Byte>, now: seq<Byte>, pitch: nat, width: nat, rows: nat) {
    && |now| == |before|
    && (forall i :: 0 <= i < |now| && !Covered(i, pitch, width, rows) ==> now[i] == before[i])
  }

  /** The first k rows show the picture, and nothing outside their first `span` columns has changed. */
  ghost predicate Painted(first: seq<Byte>, now: seq<Byte>, pitch: nat, width: nat, span: nat, k: nat,
                          picture: seq<seq<Byte>>) {
    && k <= |picture|
    && (forall y :: 0 <= y < k ==> Row(now, pitch, width, y) == picture[y])
    && OthersKept(first, now, pitch, span, k)
  }

  lemma NothingPainted(first: seq<Byte>, pitch: nat, width: nat, span: nat, picture: seq<seq<Byte>>)
    ensures Painted(first, first, pitch, width, span, 0, picture)
  {
  }

  lemma FirstRow(pitch: nat)
    ensures Offset(0, pitch, 0) == 0
  {
  }

  /** The next row, or the last one once more: what spills over its end is not painted yet. */
  lemma OneMoreRow(first: seq<Byte>, before: seq<Byte>, now: seq<Byte>, pitch: nat, width: nat, span: nat,
                   k: nat, y: nat, picture: seq<seq<Byte>>)
    requires width <= pitch && k - 1 <= y <= k && y < |picture|
    requires Painted(first, before, pitch, width, span, k, picture)
    requires OnlyChanged(before, now, Offset(y, pitch, 0), span)
    requires Row(now, pitch, width, y) == picture[y]
    ensures Painted(first, now, pitch, width, span, if y == k then k + 1 else k, picture)
  {
    hide Offset, Row;
    forall j | 0 <= j < k && j != y
      ensures Row(now, pitch, width, j) == picture[j]
    {
      KeepsRow(before, now, pitch, width, span, y, j);
    }
    forall i | 0 <= i < |now| && !Covered(i, pitch, span, if y == k then k + 1 else k)
      ensures now[i] == first[i]
    {
      assert !Covered(i, pitch, span, k);
    }
  }

  lemma AllPainted(first: seq<Byte>, now: seq<Byte>, pitch: nat, width: nat, span: nat, picture: seq<seq<Byte>>)
    requires Painted(first, now, pitch, width, span, |picture|, picture)
    ensures Picture(now, pitch, width, |picture|) == picture
    ensures OthersKept(first, now, pitch, span, |picture|)
  {
    hide Row, OthersKept;
  }

  lemma RowIsSlice(s: seq<Byte>, pitch: nat, width: nat, height: nat, y: nat)
    requires Reaches(|s|, pitch, width, height) && y < height
    ensures 0 <= Offset(y, pitch, 0) && Offset(y, pitch, 0) + width <= |s|
    ensures Row(s, pitch, width, y) == s[Offset(y, pitch, 0)..Offset(y, pitch, 0) + width]
    ensures Offset(y + 1, pitch, 0) == Offset(y, pitch, 0) + pitch
  {
    RowFits(|s|, pitch, width, height, y);
  }

  /** The bytes a row operation covers: its width rounded up to whole units. */
  function Span(width: nat, unit: nat): nat
    requires unit > 0
  {
    (width + unit - 1) / unit * unit
  }

  lemma SpanCoversWidth(width: nat, unit: nat)
    requires unit == 4 || unit == 16
    ensures width <= Span(width, unit)
  {
  }

  lemma SliceJoin(s: seq<Byte>, p: nat, i: nat, n: nat)
    requires p + i + n <= |s|
    ensures s[p..p + (i + n)] == s[p..p + i] + s[p + i..p + i + n]
  {
  }

  lemma SlicePrefix(s: seq<Byte>, o: nat, n: nat, width: nat)
    requires o + n <= |s| && width <= n
    ensures s[o..o + n][..width] == s[o..o + width]
  {
  }

  /** Stores a run of bytes. */
  method StoreRow(dst: array<Byte>, d: nat, bytes: seq<Byte>)
    requires d + |bytes| <= dst.Length
    modifies dst
    ensures OnlyChanged(old(dst[..]), dst[..], d, |bytes|)
    ensures dst[d..d + |bytes|] == bytes
  {
    for i := 0 to |bytes|
      invariant OnlyChanged(old(dst[..]), dst[..], d, |bytes|)
      invariant dst[d..d + i] == bytes[..i]
    {
      dst[d + i] := bytes[i];
      assert dst[d..d + i + 1] == dst[d..d + i] + [bytes[i]];
    }
  }
}
