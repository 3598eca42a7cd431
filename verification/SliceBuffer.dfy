/** The slice buffer of the hardware decoders (src/Mpeg2DecoderD3D11.cpp:773-832, the same
    in src/Mpeg2DecoderDXVA2.cpp:699-758): slices are gathered behind their start codes
    (section 6.2.4 of ISO/IEC 13818-2) and described one by one for the accelerator. */
module SliceBuffer {
  import opened Words
  import Planes
  import opened SliceHeader

  const MAX_SLICE := 175
  const GROW_SIZE := 512 * 1024

  /** A slice as the parser hands it over: its start code's last byte, its bytes and those behind them,
      whether it has a vertical position extension, and the sequence's width. */
  datatype Slice = Slice(code: int, payload: seq<Byte>, behind: Behind, extension: bool, width: nat)

  datatype SliceInfo = SliceInfo(verticalPosition: int, bitsInBuffer: DWord, dataLocation: DWord, mbBitOffset: int,
                                 macroblocks: int, quantizerScaleCode: int)

  /** slice_start_code with its last byte, then the payload. */
  function Encoded(s: Slice): seq<Byte> {
    [0, 0, 1, s.code % 256] + s.payload
  }

  function Stream(slices: seq<Slice>): seq<Byte> {
    if slices == [] then [] else Stream(slices[..|slices| - 1]) + Encoded(slices[|slices| - 1])
  }

  /** The descriptor of a slice that begins at the given byte. */
  function Describe(s: Slice, location: nat): SliceInfo {
    var header := HeaderOf(Seen(s.payload, s.behind), s.extension);
    SliceInfo((s.code - 1) % 0x1_0000, (8 * |Encoded(s)|) % TWO_TO_THE_32, location % TWO_TO_THE_32,
              (32 + header.offset) % 0x1_0000, (s.width / 16) % 0x1_0000, header.quantizerScaleCode)
  }

  function Descriptors(slices: seq<Slice>): (infos: seq<SliceInfo>)
    ensures |infos| == |slices|
  {
    if slices == [] then []
    else
      var before := slices[..|slices| - 1];
      Descriptors(before) + [Describe(slices[|slices| - 1], |Stream(before)|)]
  }

  lemma RoundedUp(needed: nat)
    ensures needed <= (needed + GROW_SIZE) / GROW_SIZE * GROW_SIZE
  {
  }

  class SliceBuffer {
    var buffer: array<Byte>
    var sliceDataSize: nat
    var sliceInfo: array<SliceInfo>
    var sliceCount: nat
    ghost var accepted: seq<Slice>

    ghost predicate Valid()
      reads this, buffer, sliceInfo
    {
      && sliceDataSize <= buffer.Length
      && sliceInfo.Length == MAX_SLICE
      && sliceCount == |accepted| <= MAX_SLICE
      && buffer[..sliceDataSize] == Stream(accepted)
      && sliceInfo[..sliceCount] == Descriptors(accepted)
    }

    constructor ()
      ensures Valid() && accepted == [] && fresh(buffer) && fresh(sliceInfo)
    {
      buffer := new Byte[0];
      sliceInfo := new SliceInfo[MAX_SLICE](_ => SliceInfo(0, 0, 0, 0, 0, 0));
      sliceDataSize, sliceCount, accepted := 0, 0, [];
    }

    /** At a picture start. */
    method Reset()
      requires Valid()
      modifies this`sliceDataSize, this`sliceCount, this`accepted
      ensures Valid() && accepted == []
    {
      sliceDataSize, sliceCount, accepted := 0, 0, [];
    }

    /** realloc: the old bytes lead the new block; false when there is no memory. */
    method Grow(needed: nat, memory: bool) returns (ok: bool)
      requires Valid()
      modifies this`buffer
      ensures Valid() && accepted == old(accepted) && sliceInfo == old(sliceInfo)
      ensures ok ==> needed <= buffer.Length && (buffer == old(buffer) || fresh(buffer))
      ensures !ok ==> buffer == old(buffer)
      ensures ok <==> needed <= old(buffer.Length) || memory
    {
      hide Stream, Descriptors;
      if needed > buffer.Length {
        if !memory {
          return false;
        }
        RoundedUp(needed);
        var bigger := new Byte[(needed + GROW_SIZE) / GROW_SIZE * GROW_SIZE];
        forall i | 0 <= i < buffer.Length {
          bigger[i] := buffer[i];
        }
        assert bigger[..sliceDataSize] == buffer[..sliceDataSize];
        buffer := bigger;
      }
      ok := true;
    }

    /** The start code and the payload, behind the data so far. */
    method Write(s: Slice)
      requires sliceDataSize + 4 + |s.payload| <= buffer.Length
      modifies buffer
      ensures buffer[..sliceDataSize + 4 + |s.payload|] == old(buffer[..sliceDataSize]) + Encoded(s)
    {
      var p := sliceDataSize;
      ghost var before: seq<Byte> := buffer[..];
      Planes.StoreRow(buffer, p, [0, 0, 1, s.code % 256]);
      ghost var started: seq<Byte> := buffer[..];
      Planes.StoreRow(buffer, p + 4, s.payload);
      WrittenBehind(before, started, buffer[..], p, [0, 0, 1, s.code % 256], s.payload);
    }

    /** A slice is taken in whole, or refused with nothing changed: when the table is full or
        the buffer cannot grow. */
    method AddSlice(slice: Slice, memory: bool) returns (ghost taken: bool)
      requires Valid()
      modifies this, buffer, sliceInfo
      ensures Valid()
      ensures taken <==>
                && |old(accepted)| < 175
                && (old(sliceDataSize) + 4 + |slice.payload| <= old(buffer.Length) || memory)
      ensures accepted == if taken then old(accepted) + [slice] else old(accepted)
      ensures sliceInfo == old(sliceInfo) && (buffer == old(buffer) || fresh(buffer))
    {
      hide Stream, Descriptors, Encoded, HeaderOf, Seen;
      taken := false;
      if sliceCount >= MAX_SLICE {
        return;
      }
      var ok := Grow(sliceDataSize + 4 + |slice.payload|, memory);
      if !ok {
        return;
      }
      ghost var infos := sliceInfo[..sliceCount];
      var p, bits := sliceDataSize, 8 * (4 + |slice.payload|);
      Write(slice);
      var header := ReadHeader(slice.payload, slice.behind, slice.extension);
      sliceInfo[sliceCount] :=
        SliceInfo((slice.code - 1) % 0x1_0000, bits % TWO_TO_THE_32, p % TWO_TO_THE_32,
                  (32 + header.offset) % 0x1_0000, (slice.width / 16) % 0x1_0000, header.quantizerScaleCode);
      EncodedLength(slice);
      assert sliceInfo[..sliceCount + 1] == infos + [Describe(slice, p)];
      OneMoreSlice(accepted, slice);
      sliceCount := sliceCount + 1;
      sliceDataSize := sliceDataSize + 4 + |slice.payload|;

      taken := true;
      accepted := accepted + [slice];
    }
  }

  lemma WrittenBehind(before: seq<Byte>, started: seq<Byte>, now: seq<Byte>, p: nat, a: seq<Byte>, b: seq<Byte>)
    requires p + |a| + |b| <= |before| == |started| == |now|
    requires Planes.OnlyChanged(before, started, p, |a|) && started[p..p + |a|] == a
    requires Planes.OnlyChanged(started, now, p + |a|, |b|) && now[p + |a|..p + |a| + |b|] == b
    ensures now[..p + |a| + |b|] == before[..p] + (a + b)
  {
    assert started[..p] == before[..p];
    assert started[..p + |a|] == started[..p] + started[p..p + |a|];
    assert now[..p + |a|] == started[..p + |a|];
    assert now[..p + |a| + |b|] == now[..p + |a|] + now[p + |a|..p + |a| + |b|];
  }

  lemma EncodedLength(s: Slice)
    ensures |Encoded(s)| == 4 + |s.payload|
  {
  }

  lemma OneMoreSlice(slices: seq<Slice>, s: Slice)
    ensures Stream(slices + [s]) == Stream(slices) + Encoded(s)
    ensures Descriptors(slices + [s]) == Descriptors(slices) + [Describe(s, |Stream(slices)|)]
  {
    assert (slices + [s])[..|slices|] == slices;
  }

  // ----- what the descriptors say

  lemma {:induction false} StreamPrefix(slices: seq<Slice>, k: nat)
    requires k <= |slices|
    ensures |Stream(slices[..k])| <= |Stream(slices)|
    ensures Stream(slices)[..|Stream(slices[..k])|] == Stream(slices[..k])
    ensures Descriptors(slices)[..k] == Descriptors(slices[..k])
  {
    hide Encoded, Describe;
    if k == |slices| {
      assert slices[..k] == slices;
    } else {
      var before, last := slices[..|slices| - 1], slices[|slices| - 1];
      StreamPrefix(before, k);
      assert before[..k] == slices[..k];
      assert Stream(slices) == Stream(before) + Encoded(last);
    }
  }

  /** The data size after the first k slices. */
  function StartOf(slices: seq<Slice>, k: nat): nat
    requires k <= |slices|
  {
    |Stream(slices[..k])|
  }

  lemma StartsOfEnds(slices: seq<Slice>)
    ensures StartOf(slices, 0) == 0 && StartOf(slices, |slices|) == |Stream(slices)|
  {
    assert slices[..0] == [] && slices[..|slices|] == slices;
  }

  /** Each descriptor speaks of its own slice, at the place where its bytes are. */
  lemma DescriptorAt(slices: seq<Slice>, k: nat)
    requires k < |slices|
    ensures var start, end := StartOf(slices, k), StartOf(slices, k + 1);
            && start + |Encoded(slices[k])| == end <= |Stream(slices)|
            && Stream(slices)[start..end] == Encoded(slices[k])
            && Descriptors(slices)[k] == Describe(slices[k], start)
  {
    var next := slices[..k + 1];
    StreamPrefix(slices, k + 1);
    assert next[..k] == slices[..k] && next[k] == slices[k];
    assert Descriptors(slices)[k] == Descriptors(slices)[..k + 1][k];
    var upTo := |Stream(slices[..k])|;
    assert Stream(slices)[upTo..|Stream(next)|] == Stream(slices)[..|Stream(next)|][upTo..];
  }

  lemma NothingTruncated(s: Slice, location: nat)
    requires 8 * (location + |Encoded(s)|) < TWO_TO_THE_32
    ensures Describe(s, location).dataLocation == location
    ensures Describe(s, location).bitsInBuffer == 8 * |Encoded(s)|
  {
  }

  /** The descriptors tile the data: each slice's bytes lie at its descriptor's location,
      the next begins where they end, and the last ends at the data size. */
  lemma DescriptorsTile(slices: seq<Slice>, k: nat)
    requires k < |slices| && 8 * |Stream(slices)| < TWO_TO_THE_32
    ensures var info := Descriptors(slices)[k];
            var start, end := info.dataLocation, info.dataLocation + info.bitsInBuffer / 8;
            && info.bitsInBuffer % 8 == 0
            && end <= |Stream(slices)|
            && Stream(slices)[start..end] == Encoded(slices[k])
            && (k == 0 ==> start == 0)
            && end == if k + 1 < |slices| then Descriptors(slices)[k + 1].dataLocation else |Stream(slices)|
  {
    hide Encoded, Stream, Descriptors, Describe, StartOf;
    StartsOfEnds(slices);
    DescriptorAt(slices, k);
    NothingTruncated(slices[k], StartOf(slices, k));
    if k + 1 < |slices| {
      DescriptorAt(slices, k + 1);
      NothingTruncated(slices[k + 1], StartOf(slices, k + 1));
    }
  }

  /** What each descriptor tells the accelerator, read against the data it is given. */
  lemma {:induction false} DescriptorReads(slices: seq<Slice>, k: nat)
    requires k < |slices| && 8 * |Stream(slices)| < TWO_TO_THE_32 && 1 <= slices[k].code <= 175
    ensures var info, s, data := Descriptors(slices)[k], slices[k], Stream(slices);
            var at, n := info.dataLocation, |s.payload|;
            && at + 4 + n <= |data| && info.bitsInBuffer == 8 * (4 + n)
            && data[at..at + 4] == [0, 0, 1, s.code] && data[at + 4..at + 4 + n] == s.payload
            && info.verticalPosition + 1 == s.code
            && (s.width % 16 == 0 && s.width < 0x10_0000 ==> 16 * info.macroblocks == s.width)
            && (n > 0 ==> info.quantizerScaleCode == if s.extension then data[at + 4] % 32 else data[at + 4] / 8)
  {
    hide Stream, Descriptors, Describe, StartOf, Encoded;
    var s, start := slices[k], StartOf(slices, k);
    DescriptorAt(slices, k);
    NothingTruncated(s, start);
    DescribedSlice(s, start);
    EncodedParts(s, Stream(slices), start);
    if |s.payload| > 0 {
      assert Stream(slices)[start + 4..start + 4 + |s.payload|][0] == s.payload[0];
    }
  }

  lemma DescribedSlice(s: Slice, location: nat)
    requires 1 <= s.code <= MAX_SLICE
    ensures Describe(s, location).verticalPosition + 1 == s.code
    ensures s.width % 16 == 0 && s.width < 0x10_0000 ==> 16 * Describe(s, location).macroblocks == s.width
    ensures |s.payload| > 0 ==>
              Describe(s, location).quantizerScaleCode == if s.extension then s.payload[0] % 32 else s.payload[0] / 8
  {
    hide HeaderOf, Seen;
    if |s.payload| > 0 {
      QuantizerScaleCode(s.payload, s.behind, s.extension);
    }
  }

  lemma EncodedParts(s: Slice, data: seq<Byte>, start: nat)
    requires start + |Encoded(s)| <= |data| && data[start..start + |Encoded(s)|] == Encoded(s)
    requires 1 <= s.code <= MAX_SLICE
    ensures |Encoded(s)| == 4 + |s.payload|
    ensures data[start..start + 4] == [0, 0, 1, s.code]
    ensures data[start + 4..start + 4 + |s.payload|] == s.payload
  {
    var e := data[start..start + |Encoded(s)|];
    assert data[start..start + 4] == e[..4];
    assert data[start + 4..start + 4 + |s.payload|] == e[4..];
  }

  /** And where it says that the macroblocks begin: behind the first clear bit of the extra information. */
  lemma {:induction false} MacroblocksBegin(slices: seq<Slice>, k: nat, e: nat)
    requires k < |slices| && 8 * |Stream(slices)| < TWO_TO_THE_32 && 1 <= slices[k].code <= 175
    requires ExtraEnds(slices[k].payload, slices[k].extension, e) && e + 33 < 0x1_0000
    ensures Descriptors(slices)[k].mbBitOffset == 32 + e + 1
    ensures var bit := 8 * Descriptors(slices)[k].dataLocation + 32 + e;
            bit < 8 * |Stream(slices)| && !BitOf(Stream(slices), bit)
  {
    hide Stream, Descriptors, Describe, StartOf, Encoded, HeaderOf, Seen, BitOf, ExtraEnds;
    var s, start := slices[k], StartOf(slices, k);
    DescriptorAt(slices, k);
    NothingTruncated(s, start);
    OffsetBehindExtra(s.payload, s.behind, s.extension, e);
    EncodedParts(s, Stream(slices), start);
    DescribedOffset(s, start);
    ExtraEndsClear(s.payload, s.extension, e);
    BitInside(Stream(slices), start + 4, s.payload, e);
    assert 8 * (start + 4) + e == 8 * start + 32 + e;
  }

  lemma ExtraEndsClear(payload: seq<Byte>, extension: bool, e: nat)
    requires ExtraEnds(payload, extension, e)
    ensures e < 8 * |payload| && !BitOf(payload, e)
  {
  }

  lemma BitInside(data: seq<Byte>, at: nat, payload: seq<Byte>, e: nat)
    requires at + |payload| <= |data| && data[at..at + |payload|] == payload && e < 8 * |payload|
    ensures 8 * at + e < 8 * |data| && (BitOf(data, 8 * at + e) <==> BitOf(payload, e))
  {
    hide BitOfByte;
    assert (8 * at + e) / 8 == at + e / 8 && (8 * at + e) % 8 == e % 8;
    assert data[at..at + |payload|][e / 8] == data[at + e / 8];
  }

  lemma DescribedOffset(s: Slice, location: nat)
    ensures Describe(s, location).mbBitOffset
            == (32 + HeaderOf(Seen(s.payload, s.behind), s.extension).offset) % 0x1_0000
  {
    hide HeaderOf, Seen;
  }
}
