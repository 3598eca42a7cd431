/** CDeinterlacer_Yadif::GetFrame (src/Deinterlace_Yadif.cpp:393-449): a window of three frames over
    the sources, and what comes out of it. */
module YadifWindow {
  import opened Words
  import opened Options
  import opened Planes
  import Blend
  import opened YadifPlane
  import PixelCopy

  /** A frame buffer: three planes with room, and its attributes; topFieldFirst is one of the flags.
      A plane is aligned when SSE2 is enabled and its pointer stands on a multiple of sixteen. */
  datatype Image<A> = Image(width: nat, height: nat, y: seq<Byte>, u: seq<Byte>, v: seq<Byte>,
                            pitchY: nat, pitchC: nat, alignedY: bool, alignedU: bool, alignedV: bool,
                            topFieldFirst: bool, attributes: A)

  function RowBytes(width: nat): nat { (width + 31) / 32 * 32 }

  /** A source plane reaches as far as the copy into an allocated plane reads. */
  ghost predicate Copyable(length: nat, pitch: nat, width: nat, height: nat, aligned: bool) {
    Reaches(length, pitch, PixelCopy.CopySpan(width, aligned, RowBytes(width), pitch), height)
  }

  ghost predicate Roomy<A>(i: Image<A>) {
    && Copyable(|i.y|, i.pitchY, i.width, i.height, i.alignedY)
    && Copyable(|i.u|, i.pitchC, i.width / 2, i.height / 2, i.alignedU)
    && Copyable(|i.v|, i.pitchC, i.width / 2, i.height / 2, i.alignedV)
  }

  /** What a frame buffer shows, apart from the bytes beside the picture. */
  datatype Content<A> = Content(width: nat, height: nat, luma: seq<seq<Byte>>, cb: seq<seq<Byte>>, cr: seq<seq<Byte>>,
                                topFieldFirst: bool, attributes: A)

  ghost function ContentOf<A>(i: Image<A>): (c: Content<A>)
    ensures c.width == i.width && c.height == i.height
  {
    Content(i.width, i.height, Picture(i.y, i.pitchY, i.width, i.height),
            Picture(i.u, i.pitchC, i.width / 2, i.height / 2), Picture(i.v, i.pitchC, i.width / 2, i.height / 2),
            i.topFieldFirst, i.attributes)
  }

  /** A plane made by Allocate: every row padded to a multiple of 32. */
  predicate Padded(length: nat, pitch: nat, width: nat, height: nat) {
    pitch == RowBytes(width) && length == Offset(height, pitch, 0)
  }

  predicate Allocated<A>(i: Image<A>) {
    && PixelCopy.GoodSize(i.width, i.height)
    && Padded(|i.y|, i.pitchY, i.width, i.height)
    && Padded(|i.u|, i.pitchC, i.width / 2, i.height / 2) && Padded(|i.v|, i.pitchC, i.width / 2, i.height / 2)
  }

  lemma RowBytesCover(width: nat)
    ensures width <= Span(width, 4) <= RowBytes(width) && Span(width, 16) <= RowBytes(width)
    ensures width > 0 ==> RowBytes(width) >= 32
  {
    var q := (width + 31) / 32;
    assert RowBytes(width) == 32 * q && width <= 32 * q;
    SpanWithin(width, q);
    hide *;
  }

  lemma SpanWithin(width: nat, q: nat)
    requires width <= 32 * q
    ensures width <= Span(width, 4) <= 32 * q && Span(width, 16) <= 32 * q
  {
    var a, b := (width + 3) / 4, (width + 15) / 16;
    assert a <= 8 * q && b <= 2 * q;
    assert Span(width, 4) == 4 * a && Span(width, 16) == 16 * b;
  }

  lemma PaddedFits(length: nat, pitch: nat, width: nat, height: nat)
    requires Padded(length, pitch, width, height)
    ensures Fits(length, pitch, width, height)
    ensures Fits(length, pitch, Span(width, 4), height) && Fits(length, pitch, Span(width, 16), height)
    ensures width > 0 ==> pitch >= 32
  {
    RowBytesCover(width);
    OffsetStep(height - 1, pitch, 0, 1, 0);
    hide RowBytes, Span, Offset;
  }

  /** CopyFrameBuffer: the picture and the attributes. */
  method CopyFrameBuffer<A>(dst: Image<A>, src: Image<A>) returns (r: Image<A>)
    requires Allocated(dst) && Roomy(src) && dst.width == src.width && dst.height == src.height
    ensures Allocated(r) && ContentOf(r) == ContentOf(src)
  {
    hide Picture, Copyable, RowBytes, Offset, OthersKept, PixelCopy.GoodSize;
    var w, h, wc, hc := dst.width, dst.height, dst.width / 2, dst.height / 2;
    var y := CopyOver(w, h, dst.y, dst.pitchY, src.y, src.pitchY, src.alignedY);
    var u := CopyOver(wc, hc, dst.u, dst.pitchC, src.u, src.pitchC, src.alignedU);
    var v := CopyOver(wc, hc, dst.v, dst.pitchC, src.v, src.pitchC, src.alignedV);
    r := dst.(y := y, u := u, v := v, topFieldFirst := src.topFieldFirst, attributes := src.attributes);
  }

  /** Allocated planes are aligned, so the source decides whether SSE2 is used. */
  method CopyOver(width: nat, height: nat, was: seq<Byte>, pitch: nat, src: seq<Byte>, srcPitch: nat, aligned: bool)
    returns (r: seq<Byte>)
    requires Padded(|was|, pitch, width, height) && Copyable(|src|, srcPitch, width, height, aligned)
    ensures |r| == |was| && Picture(r, pitch, width, height) == Picture(src, srcPitch, width, height)
    ensures OthersKept(was, r, pitch, PixelCopy.CopySpan(width, aligned, pitch, srcPitch), height)
  {
    PaddedFits(|was|, pitch, width, height);
    hide Picture, Reaches, OthersKept, Offset, RowBytes, Span;
    var plane := new Byte[|was|](i requires 0 <= i < |was| => was[i]);
    assert plane[..] == was;
    PixelCopy.CopyPlane(width, height, plane, pitch, src, srcPitch, aligned);
    r := plane[..];
  }

  /** Rows of the path's units can be written, the last one up to its unit's end. */
  ghost predicate Writable(length: nat, pitch: nat, width: nat, height: nat, sse2: bool) {
    width <= pitch && Reaches(length, pitch, Span(width, if sse2 then 16 else 4), height)
  }

  // ----- the window

  datatype FrameStatus = FrameOk | FrameSkip | FramePending

  function StatusOf(frames: nat, stored: bool): FrameStatus {
    if frames > 2 then FrameOk else if frames == 2 && stored then FramePending else FrameSkip
  }

  ghost predicate Alike<A>(c: Content<A>, d: Content<A>) { c.width == d.width && c.height == d.height }

  ghost predicate OneSize<A>(history: seq<Content<A>>) {
    forall i :: 0 <= i < |history| ==> Alike(history[i], history[0])
  }

  function Filled(n: nat): nat { if n < 3 then n else 3 }

  /** The frames show the latest sources, oldest first. */
  ghost predicate WindowShows<A>(frames: seq<Option<Image<A>>>, history: seq<Content<A>>) {
    var n := Filled(|history|);
    && |frames| == 3 && OneSize(history)
    && (forall i :: 0 <= i < 3 ==> (frames[i].Some? <==> i < n))
    && (forall i :: 0 <= i < n ==>
         Allocated(frames[i].value) && ContentOf(frames[i].value) == history[|history| - n + i])
  }

  /** The history that counts for a source: what came before is forgotten when the size changes. */
  ghost function Continued<A>(history: seq<Content<A>>, src: Image<A>): seq<Content<A>> {
    if history != [] && !Alike(ContentOf(src), history[0]) then [] else history
  }

  /** What the window remembers of sources that were all stored. */
  ghost function HistoryOf<A>(sources: seq<Image<A>>): seq<Content<A>> {
    if sources == [] then []
    else Continued(HistoryOf(sources[..|sources| - 1]), sources[|sources| - 1]) + [ContentOf(sources[|sources| - 1])]
  }

  /** Over a run of one size nothing is forgotten, so the last source but one is that of the previous call. */
  lemma {:induction false} OneSizeRemembered<A>(sources: seq<Image<A>>)
    requires forall i :: 0 <= i < |sources| ==>
               sources[i].width == sources[0].width && sources[i].height == sources[0].height
    ensures |HistoryOf(sources)| == |sources|
    ensures forall i :: 0 <= i < |sources| ==> HistoryOf(sources)[i] == ContentOf(sources[i])
  {
    hide ContentOf;
    if sources != [] {
      var before := sources[..|sources| - 1];
      OneSizeRemembered(before);
      assert before != [] ==> HistoryOf(before)[0] == ContentOf(sources[0]);
    }
  }

  lemma NothingRemembered<A>()
    ensures HistoryOf<A>([]) == []
  {
  }

  predicate SameSize<A>(i: Image<A>, j: Image<A>) { i.width == j.width && i.height == j.height }

  /** How many sources of one size end with the i-th. */
  function SizeRun<A>(sources: seq<Image<A>>, i: nat): (n: nat)
    requires i < |sources|
    ensures 1 <= n <= i + 1
  {
    if i > 0 && SameSize(sources[i - 1], sources[i]) then SizeRun(sources, i - 1) + 1 else 1
  }

  /** The last n sources up to the i-th, all of one size. */
  ghost predicate Remembers<A>(h: seq<Content<A>>, sources: seq<Image<A>>, i: nat, n: nat) {
    && |h| == n <= i + 1 <= |sources|
    && forall k :: 0 <= k < n ==>
         h[k] == ContentOf(sources[i + 1 - n + k]) && SameSize(sources[i + 1 - n + k], sources[i])
  }

  lemma RemembersOneMore<A>(h: seq<Content<A>>, sources: seq<Image<A>>, i: nat, n: nat)
    requires 0 < i < |sources| && n > 0 && Remembers(h, sources, i - 1, n)
    ensures var same := SameSize(sources[i - 1], sources[i]);
            && Continued(h, sources[i]) == (if same then h else [])
            && Remembers(Continued(h, sources[i]) + [ContentOf(sources[i])], sources, i, if same then n + 1 else 1)
  {
    hide ContentOf;
    assert h[0] == ContentOf(sources[i - n]) && SameSize(sources[i - n], sources[i - 1]);
    assert Alike(ContentOf(sources[i]), h[0]) <==> SameSize(sources[i - 1], sources[i]);
    if SameSize(sources[i - 1], sources[i]) {
      var now := h + [ContentOf(sources[i])];
      forall k | 0 <= k < n + 1
        ensures now[k] == ContentOf(sources[i - n + k]) && SameSize(sources[i - n + k], sources[i])
      {
        assert k < n ==> now[k] == h[k];
      }
    } else {
      RemembersFirst([ContentOf(sources[i])], sources, i);
      assert [] + [ContentOf(sources[i])] == [ContentOf(sources[i])];
    }
  }

  lemma RemembersFirst<A>(h: seq<Content<A>>, sources: seq<Image<A>>, i: nat)
    requires i < |sources| && h == [ContentOf(sources[i])]
    ensures Remembers(h, sources, i, 1)
  {
    hide ContentOf;
    assert h[0] == ContentOf(sources[i]);
  }

  /** Of any run what is remembered are the last sources of one size. */
  lemma {:induction false} LastOfOneSizeRemembered<A>(sources: seq<Image<A>>, i: nat)
    requires i < |sources|
    ensures Remembers(HistoryOf(sources[..i + 1]), sources, i, SizeRun(sources, i))
  {
    hide Remembers, ContentOf;
    var before := sources[..i];
    assert sources[..i + 1][..i] == before && sources[..i + 1][i] == sources[i];
    if i > 0 {
      LastOfOneSizeRemembered(sources, i - 1);
      RemembersOneMore(HistoryOf(before), sources, i, SizeRun(sources, i - 1));
    } else {
      RemembersFirst([ContentOf(sources[0])], sources, 0);
      assert before == [];
      assert [] + [ContentOf(sources[0])] == [ContentOf(sources[0])];
    }
  }

  /** What the i-th source finds and leaves. */
  lemma OneMoreRemembered<A>(sources: seq<Image<A>>, i: nat)
    requires i < |sources|
    ensures var h, n := HistoryOf(sources[..i]), SizeRun(sources, i);
            && |Continued(h, sources[i])| == n - 1
            && HistoryOf(sources[..i + 1]) == Continued(h, sources[i]) + [ContentOf(sources[i])]
            && (n >= 2 ==> HistoryOf(sources[..i + 1])[n - 2] == ContentOf(sources[i - 1]))
            && (n >= 3 ==> HistoryOf(sources[..i + 1])[n - 3] == ContentOf(sources[i - 2]))
  {
    LastOfOneSizeRemembered(sources, i);
    hide ContentOf;
    assert sources[..i + 1][..i] == sources[..i];
  }

  lemma Appended<A>(frames: seq<Option<Image<A>>>, history: seq<Content<A>>, i: nat, image: Image<A>)
    requires WindowShows(frames, history) && |history| == i < 3 && Allocated(image)
    requires history != [] ==> Alike(ContentOf(image), history[0])
    ensures WindowShows(frames[i := Some(image)], history + [ContentOf(image)])
  {
    hide Allocated, ContentOf;
    var now := history + [ContentOf(image)];
    assert forall k :: 0 <= k < i ==> now[k] == history[k];
  }

  lemma Rotated<A>(frames: seq<Option<Image<A>>>, history: seq<Content<A>>, image: Image<A>)
    requires WindowShows(frames, history) && |history| >= 3 && Allocated(image)
    requires Alike(ContentOf(image), history[0])
    ensures WindowShows([frames[1], frames[2], Some(image)], history + [ContentOf(image)])
  {
    hide Allocated, ContentOf;
    var now, n := history + [ContentOf(image)], |history|;
    assert now[n - 2] == history[n - 2] && now[n - 1] == history[n - 1];
  }

  lemma WindowSizes<A>(frames: seq<Option<Image<A>>>, history: seq<Content<A>>, i: nat)
    requires WindowShows(frames, history) && i < Filled(|history|)
    ensures frames[i].Some? && Allocated(frames[i].value)
    ensures frames[i].value.width == history[0].width && frames[i].value.height == history[0].height
  {
    hide Allocated;
    assert ContentOf(frames[i].value) == history[|history| - Filled(|history|) + i];
  }

  class YadifDeinterlacer<A(!new)> {
    const bob: bool
    const frames: array<Option<Image<A>>>
    ghost var History: seq<Content<A>>

    ghost predicate Valid()
      reads this, frames
    {
      WindowShows(frames[..], History)
    }

    constructor (bob: bool)
      ensures Valid() && History == [] && fresh(frames)
    {
      this.bob := bob;
      frames := new Option<Image<A>>[3](_ => None);
      History := [];
    }

    method Finalize()
      requires frames.Length == 3
      modifies this`History, frames
      ensures Valid() && History == []
    {
      frames[0], frames[1], frames[2] := None, None, None;
      History := [];
    }

    /** Fills the first free place of the window. */
    method AddFrame(frame: Image<A>)
      requires Valid() && Allocated(frame) && |History| < 3
      requires History != [] ==> Alike(ContentOf(frame), History[0])
      modifies this`History, frames
      ensures Valid() && History == old(History) + [ContentOf(frame)]
    {
      hide Allocated, ContentOf;
      var i := 0;
      while frames[i].Some?
        invariant 0 <= i <= |History| < 3
        decreases 3 - i
      {
        i := i + 1;
      }
      Appended(frames[..], History, i, frame);
      frames[i] := Some(frame);
      History := History + [ContentOf(frame)];
    }

    /** The oldest frame's buffer is filled anew and becomes the newest. */
    method RotateFrames(src: Image<A>)
      requires Valid() && |History| >= 3 && Roomy(src)
      requires src.width == History[0].width && src.height == History[0].height
      modifies this`History, frames
      ensures Valid() && History == old(History) + [ContentOf(src)]
    {
      hide Allocated, ContentOf, Roomy;
      WindowSizes(frames[..], History, 0);
      var frame := frames[0].value;
      frames[0] := frames[1];
      frames[1] := frames[2];
      frame := CopyFrameBuffer(frame, src);
      frames[2] := Some(frame);
      Rotated(old(frames[..]), old(History), frame);
      assert frames[..] == [old(frames[1]), old(frames[2]), Some(frame)];
      History := History + [ContentOf(src)];
    }

    /** The window part of GetFrame; buffer is what Allocate delivered, if it was asked and succeeded. */
    method TakeFrame(src: Image<A>, buffer: Option<Image<A>>) returns (status: FrameStatus)
      requires Valid() && Roomy(src)
      requires buffer.Some? ==> Allocated(buffer.value) && Alike(ContentOf(buffer.value), ContentOf(src))
      modifies this`History, frames
      ensures Valid()
      ensures var before := Continued(old(History), src);
              History == if |before| < 3 && buffer.None? then before else before + [ContentOf(src)]
      ensures status == StatusOf(|History|, buffer.Some?)
    {
      hide Allocated, ContentOf, Roomy;
      if frames[0].Some? {
        WindowSizes(frames[..], History, 0);
        if src.width != frames[0].value.width || src.height != frames[0].value.height {
          Finalize();
        }
      }
      if frames[0].None? || frames[1].None? || frames[2].None? {
        if buffer.None? {
          return FrameSkip;
        }
        var frame := CopyFrameBuffer(buffer.value, src);
        AddFrame(frame);
        if frames[2].None? {
          return if frames[1].Some? then FramePending else FrameSkip;
        }
      } else {
        RotateFrames(src);
      }
      status := FrameOk;
    }

    /** One plane of the output from the three frames in the window. */
    method MakePlane(dst: array<Byte>, dstPitch: nat, f: Frames, width: nat, height: nat, parity: bool, tff: bool,
                     sse2: bool)
      requires width > 0 && height >= 3
      requires Padded(|f.cur|, f.stride, width, height) && |f.prev| == |f.next| == |f.cur|
      requires Writable(dst.Length, dstPitch, width, height, sse2)
      modifies dst
      ensures MadeFrom(dst[..], dstPitch, f, width, height, parity, tff, if sse2 then 1 else 0)
      ensures KeptLinesOf(dst[..], dstPitch, width, height, Picture(f.cur, f.stride, width, height), parity)
    {
      PaddedFits(|f.cur|, f.stride, width, height);
      RowBytesCover(width);
      hide Reaches, Padded, Row, Result, Span;
      YadifPlane.YadifPlane(dst, dstPitch, f, width, height, parity, tff, sse2);
    }

    /** The three planes of the output. */
    method MakeOutput(dstY: array<Byte>, dstU: array<Byte>, dstV: array<Byte>, dstPitchY: nat, dstPitchC: nat,
                      f0: Image<A>, f1: Image<A>, f2: Image<A>, field: bool, sse2: bool)
      requires dstY != dstU && dstY != dstV && dstU != dstV
      requires SameLayout(f0, f1, f2) && f1.width >= 2 && f1.height >= 6
      requires Writable(dstY.Length, dstPitchY, f1.width, f1.height, sse2)
      requires Writable(dstU.Length, dstPitchC, f1.width / 2, f1.height / 2, sse2)
      requires Writable(dstV.Length, dstPitchC, f1.width / 2, f1.height / 2, sse2)
      modifies dstY, dstU, dstV
      ensures ShowsKeptLines(dstY[..], dstU[..], dstV[..], dstPitchY, dstPitchC, ContentOf(f1),
                             Parity(bob, field, f1.topFieldFirst))
      ensures MadeFromImages(dstY[..], dstU[..], dstV[..], dstPitchY, dstPitchC, f0, f1, f2,
                             Parity(bob, field, f1.topFieldFirst), if sse2 then 1 else 0)
    {
      hide MadeFrom, Writable, Picture, Padded, KeptLinesOf;
      var w, h, tff := f1.width, f1.height, f1.topFieldFirst;
      var parity := if bob then field != !tff else !tff;
      MakePlane(dstY, dstPitchY, Frames(f0.y, f1.y, f2.y, f0.pitchY), w, h, parity, tff, sse2);
      MakePlane(dstU, dstPitchC, Frames(f0.u, f1.u, f2.u, f0.pitchC), w / 2, h / 2, parity, tff, sse2);
      MakePlane(dstV, dstPitchC, Frames(f0.v, f1.v, f2.v, f0.pitchC), w / 2, h / 2, parity, tff, sse2);
    }

    method GetFrame(dstY: array<Byte>, dstU: array<Byte>, dstV: array<Byte>, dstPitchY: nat, dstPitchC: nat,
                    src: Image<A>, buffer: Option<Image<A>>, field: bool, sse2: bool)
      returns (status: FrameStatus, attributes: Option<A>)
      requires Valid() && Roomy(src)
      requires |Continued(History, src)| >= 2 ==> src.height >= 6
      requires buffer.Some? ==> Allocated(buffer.value) && Alike(ContentOf(buffer.value), ContentOf(src))
      requires dstY != dstU && dstY != dstV && dstU != dstV && frames !in {dstY as object, dstU, dstV}
      requires Writable(dstY.Length, dstPitchY, src.width, src.height, sse2)
      requires Writable(dstU.Length, dstPitchC, src.width / 2, src.height / 2, sse2)
      requires Writable(dstV.Length, dstPitchC, src.width / 2, src.height / 2, sse2)
      modifies this`History, frames, dstY, dstU, dstV
      ensures Valid()
      ensures var before := Continued(old(History), src);
              History == if |before| < 3 && buffer.None? then before else before + [ContentOf(src)]
      ensures status == StatusOf(|History|, buffer.Some?)
      ensures (status == FrameOk <==> |History| >= 3) && (status == FramePending <==> |History| == 2 && buffer.Some?)
      ensures status != FrameOk ==> attributes == None && dstY[..] == old(dstY[..])
                                    && dstU[..] == old(dstU[..]) && dstV[..] == old(dstV[..])
      ensures status == FrameOk ==>
                var c := History[|History| - 2];
                && attributes == Some(c.attributes)
                && ShowsKeptLines(dstY[..], dstU[..], dstV[..], dstPitchY, dstPitchC, c,
                                  Parity(bob, field, c.topFieldFirst))
                && frames[0].Some? && frames[1].Some? && frames[2].Some?
                && MadeFromImages(dstY[..], dstU[..], dstV[..], dstPitchY, dstPitchC, frames[0].value, frames[1].value,
                                  frames[2].value, Parity(bob, field, c.topFieldFirst), if sse2 then 1 else 0)
    {
      hide MadeFromImages, ShowsKeptLines, Writable, Picture, Padded, Roomy, SameLayout;
      attributes := None;
      status := TakeFrame(src, buffer);
      if status != FrameOk {
        return;
      }
      ShownFrames(frames[..], History);
      var f1 := frames[1].value;
      MakeOutput(dstY, dstU, dstV, dstPitchY, dstPitchC, frames[0].value, f1, frames[2].value, field, sse2);
      attributes := Some(f1.attributes);
    }

    /** The i-th call of a run. */
    method OneOfRun(dstY: array<Byte>, dstU: array<Byte>, dstV: array<Byte>, dstPitchY: nat, dstPitchC: nat,
                    ghost sources: seq<Image<A>>, src: Image<A>, buffer: Image<A>, ghost i: nat, field: bool,
                    sse2: bool)
      returns (output: Option<Output<A>>, status: FrameStatus)
      requires i < |sources| && src == sources[i] && Valid() && History == HistoryOf(sources[..i])
      requires Roomy(src) && (SizeRun(sources, i) >= 3 ==> src.height >= 6)
      requires Allocated(buffer) && Alike(ContentOf(buffer), ContentOf(src))
      requires dstY != dstU && dstY != dstV && dstU != dstV && frames !in {dstY as object, dstU, dstV}
      requires Writable(dstY.Length, dstPitchY, src.width, src.height, sse2)
      requires Writable(dstU.Length, dstPitchC, src.width / 2, src.height / 2, sse2)
      requires Writable(dstV.Length, dstPitchC, src.width / 2, src.height / 2, sse2)
      modifies this`History, frames, dstY, dstU, dstV
      ensures Valid() && History == HistoryOf(sources[..i + 1])
      ensures ShowsRun(output, status, dstPitchY, dstPitchC, sources, i, bob, field, sse2)
    {
      hide Writable, Roomy, Allocated, ContentOf, HistoryOf, SizeRun, ShowsKeptLines, MadeFromImages, WindowShows,
           ShowsRun, Continued, SameLayout;
      OneMoreRemembered(sources, i);
      var attributes;
      status, attributes := GetFrame(dstY, dstU, dstV, dstPitchY, dstPitchC, src, Some(buffer), field, sse2);
      if status == FrameOk {
        ShownSources(frames[..], History);
        ShownFrames(frames[..], History);
        output := Some(Output(dstY[..], dstU[..], dstV[..], attributes.value));
        OneMoreShown(output.value, dstPitchY, dstPitchC, sources, i, bob, field, sse2, frames[0].value,
                     frames[1].value, frames[2].value);
      } else {
        output := None;
        NothingShown(status, dstPitchY, dstPitchC, sources, i, bob, field, sse2);
      }
    }

    /** A whole run over sources of any sizes, every one of them stored. */
    method DeinterlaceRun(dstY: array<Byte>, dstU: array<Byte>, dstV: array<Byte>, dstPitchY: nat, dstPitchC: nat,
                          sources: seq<Image<A>>, buffers: seq<Image<A>>, fields: seq<bool>, sse2: bool)
      returns (outputs: seq<Option<Output<A>>>, statuses: seq<FrameStatus>)
      requires Valid() && History == [] && |buffers| == |fields| == |sources|
      requires forall i :: 0 <= i < |sources| ==>
                 && Roomy(sources[i]) && (SizeRun(sources, i) >= 3 ==> sources[i].height >= 6)
                 && Allocated(buffers[i]) && Alike(ContentOf(buffers[i]), ContentOf(sources[i]))
      requires dstY != dstU && dstY != dstV && dstU != dstV && frames !in {dstY as object, dstU, dstV}
      requires forall i :: 0 <= i < |sources| ==>
                 && Writable(dstY.Length, dstPitchY, sources[i].width, sources[i].height, sse2)
                 && Writable(dstU.Length, dstPitchC, sources[i].width / 2, sources[i].height / 2, sse2)
                 && Writable(dstV.Length, dstPitchC, sources[i].width / 2, sources[i].height / 2, sse2)
      modifies this`History, frames, dstY, dstU, dstV
      ensures Valid() && History == HistoryOf(sources) && |outputs| == |statuses| == |sources|
      ensures forall i :: 0 <= i < |sources| ==>
                ShowsRun(outputs[i], statuses[i], dstPitchY, dstPitchC, sources, i, bob, fields[i], sse2)
    {
      hide Writable, Roomy, Allocated, ContentOf, HistoryOf, SizeRun, ShowsKeptLines, MadeFromImages, WindowShows,
           ShowsRun;
      outputs, statuses := [], [];
      NothingRemembered<A>();
      for i := 0 to |sources|
        invariant Valid() && History == HistoryOf(sources[..i]) && |outputs| == |statuses| == i
        invariant forall k :: 0 <= k < i ==>
                    ShowsRun(outputs[k], statuses[k], dstPitchY, dstPitchC, sources, k, bob, fields[k], sse2)
      {
        var output, status := OneOfRun(dstY, dstU, dstV, dstPitchY, dstPitchC, sources, sources[i],
                                       buffers[i], i, fields[i], sse2);
        outputs, statuses := outputs + [output], statuses + [status];
      }
      assert sources[..|sources|] == sources;
    }
  }

  /** Allocated for one size. */
  ghost predicate SameLayout<A>(f0: Image<A>, f1: Image<A>, f2: Image<A>) {
    && f0.pitchY == f1.pitchY == f2.pitchY && f0.pitchC == f1.pitchC == f2.pitchC
    && |f0.y| == |f1.y| == |f2.y| && |f0.u| == |f1.u| == |f2.u| && |f0.v| == |f1.v| == |f2.v|
    && Padded(|f1.y|, f1.pitchY, f1.width, f1.height)
    && Padded(|f1.u|, f1.pitchC, f1.width / 2, f1.height / 2)
    && Padded(|f1.v|, f1.pitchC, f1.width / 2, f1.height / 2)
  }

  /** Three frames of one size, the middle one showing the last source but one. */
  lemma ShownFrames<A>(frames: seq<Option<Image<A>>>, history: seq<Content<A>>)
    requires WindowShows(frames, history) && |history| >= 3
    ensures frames[0].Some? && frames[1].Some? && frames[2].Some?
    ensures ContentOf(frames[1].value) == history[|history| - 2] && OneSize(history)
    ensures var f1, last := frames[1].value, history[|history| - 1];
            f1.width == last.width >= 2 && f1.height == last.height
    ensures SameLayout(frames[0].value, frames[1].value, frames[2].value)
  {
    hide RowBytes, Offset, Picture;
    WindowSizes(frames, history, 0);
    WindowSizes(frames, history, 1);
    WindowSizes(frames, history, 2);
  }

  /** What one call left in the three destination planes. */
  datatype Output<A> = Output(y: seq<Byte>, u: seq<Byte>, v: seq<Byte>, attributes: A)

  /** The attributes and the kept lines are those of the middle one of three sources, and the other lines are
      made from frames that show the three, in their order. */
  ghost predicate OutputShows<A(!new)>(o: Output<A>, pitchY: nat, pitchC: nat, c0: Content<A>, c1: Content<A>,
                                       c2: Content<A>, bob: bool, field: bool, sse2: bool) {
    && o.attributes == c1.attributes
    && ShowsKeptLines(o.y, o.u, o.v, pitchY, pitchC, c1, Parity(bob, field, c1.topFieldFirst))
    && exists f0, f1, f2 ::
         && ContentOf(f0) == c0 && ContentOf(f1) == c1 && ContentOf(f2) == c2 && SameLayout(f0, f1, f2)
         && MadeFromImages(o.y, o.u, o.v, pitchY, pitchC, f0, f1, f2, Parity(bob, field, c1.topFieldFirst),
                           if sse2 then 1 else 0)
  }

  /** The i-th call shows nothing for the first source of a size, nothing yet for the second, and from then on
      the source before it. */
  ghost predicate ShowsRun<A(!new)>(o: Option<Output<A>>, status: FrameStatus, pitchY: nat, pitchC: nat,
                                    sources: seq<Image<A>>, i: nat, bob: bool, field: bool, sse2: bool)
    requires i < |sources|
  {
    match SizeRun(sources, i)
    case 1 => status == FrameSkip && o == None
    case 2 => status == FramePending && o == None
    case _ =>
      && status == FrameOk && o.Some?
      && OutputShows(o.value, pitchY, pitchC, ContentOf(sources[i - 2]), ContentOf(sources[i - 1]),
                     ContentOf(sources[i]), bob, field, sse2)
  }

  lemma ShownSources<A>(frames: seq<Option<Image<A>>>, history: seq<Content<A>>)
    requires WindowShows(frames, history) && |history| >= 3
    ensures |frames| == 3 && frames[0].Some? && frames[1].Some? && frames[2].Some?
    ensures ContentOf(frames[0].value) == history[|history| - 3]
    ensures ContentOf(frames[1].value) == history[|history| - 2]
    ensures ContentOf(frames[2].value) == history[|history| - 1]
  {
    hide ContentOf, Allocated;
  }

  lemma OneMoreShown<A(!new)>(o: Output<A>, pitchY: nat, pitchC: nat, sources: seq<Image<A>>, i: nat, bob: bool,
                              field: bool, sse2: bool, f0: Image<A>, f1: Image<A>, f2: Image<A>)
    requires i < |sources| && SizeRun(sources, i) >= 3 && SameLayout(f0, f1, f2)
    requires ContentOf(f0) == ContentOf(sources[i - 2])
    requires ContentOf(f1) == ContentOf(sources[i - 1]) && ContentOf(f2) == ContentOf(sources[i])
    requires var c, p := ContentOf(f1), Parity(bob, field, ContentOf(f1).topFieldFirst);
             && o.attributes == c.attributes
             && ShowsKeptLines(o.y, o.u, o.v, pitchY, pitchC, c, p)
             && MadeFromImages(o.y, o.u, o.v, pitchY, pitchC, f0, f1, f2, p, if sse2 then 1 else 0)
    ensures ShowsRun(Some(o), FrameOk, pitchY, pitchC, sources, i, bob, field, sse2)
  {
    hide ContentOf, MadeFromImages, ShowsKeptLines, SameLayout;
  }

  lemma NothingShown<A(!new)>(status: FrameStatus, pitchY: nat, pitchC: nat, sources: seq<Image<A>>, i: nat,
                              bob: bool, field: bool, sse2: bool)
    requires i < |sources| && SizeRun(sources, i) < 3 && status == StatusOf(SizeRun(sources, i), true)
    ensures ShowsRun(None, status, pitchY, pitchC, sources, i, bob, field, sse2)
  {
    hide SizeRun;
  }

  /** Of a frame with the top field first the even lines are shown, and of another the odd ones; in the second
      picture of a doubled frame it is the other field. */
  lemma FieldShown<A(!new)>(o: Output<A>, pitchY: nat, pitchC: nat, c0: Content<A>, c1: Content<A>, c2: Content<A>,
                            bob: bool, field: bool, sse2: bool, y: nat)
    requires OutputShows(o, pitchY, pitchC, c0, c1, c2, bob, field, sse2)
    requires y % 2 == if c1.topFieldFirst != (bob && field) then 0 else 1
    ensures y < c1.height ==> y < |c1.luma| && Row(o.y, pitchY, c1.width, y) == c1.luma[y]
    ensures y < c1.height / 2 ==> y < |c1.cb| && Row(o.u, pitchC, c1.width / 2, y) == c1.cb[y]
    ensures y < c1.height / 2 ==> y < |c1.cr| && Row(o.v, pitchC, c1.width / 2, y) == c1.cr[y]
  {
    hide Row, MadeFromImages, ContentOf, SameLayout;
  }

  ghost predicate ShowsKeptLines<A>(y: seq<Byte>, u: seq<Byte>, v: seq<Byte>, pitchY: nat, pitchC: nat,
                                    c: Content<A>, parity: bool) {
    && KeptLinesOf(y, pitchY, c.width, c.height, c.luma, parity)
    && KeptLinesOf(u, pitchC, c.width / 2, c.height / 2, c.cb, parity)
    && KeptLinesOf(v, pitchC, c.width / 2, c.height / 2, c.cr, parity)
  }

  /** The kept lines of a plane show those of a picture. */
  ghost predicate KeptLinesOf(dst: seq<Byte>, pitch: nat, width: nat, height: nat, picture: seq<seq<Byte>>,
                              parity: bool) {
    && |picture| == height
    && forall y :: 0 <= y < height && KeptLine(y, parity) ==> Row(dst, pitch, width, y) == picture[y]
  }

  /** A plane that is the deinterlaced plane of three frames, interpolated lines included. */
  ghost predicate MadeFrom(dst: seq<Byte>, pitch: nat, f: Frames, width: nat, height: nat, parity: bool, tff: bool,
                           up: nat) {
    && Readable(f, width, height) && height >= 3 && up <= 1
    && Picture(dst, pitch, width, height) == Result(f, width, height, parity, tff, up)
  }

  ghost predicate MadeFromImages<A>(y: seq<Byte>, u: seq<Byte>, v: seq<Byte>, pitchY: nat, pitchC: nat,
                                    f0: Image<A>, f1: Image<A>, f2: Image<A>, parity: bool, up: nat) {
    var w, h, tff := f1.width, f1.height, f1.topFieldFirst;
    && MadeFrom(y, pitchY, Frames(f0.y, f1.y, f2.y, f0.pitchY), w, h, parity, tff, up)
    && MadeFrom(u, pitchC, Frames(f0.u, f1.u, f2.u, f0.pitchC), w / 2, h / 2, parity, tff, up)
    && MadeFrom(v, pitchC, Frames(f0.v, f1.v, f2.v, f0.pitchC), w / 2, h / 2, parity, tff, up)
  }

  /** Whether the odd lines are the ones kept: the first field's lines, and the other field's in the
      second picture of a doubled frame. */
  function Parity(bob: bool, field: bool, topFieldFirst: bool): bool {
    if bob then field != !topFieldFirst else !topFieldFirst
  }
}
