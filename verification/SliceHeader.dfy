/** What the hardware decoders read of a slice header (src/Mpeg2DecoderD3D11.cpp:793-816), through the
    32-bit bit reader of src/libmpeg2/libmpeg2/mpeg2_internal.h:70-131. A 32-bit word is the sequence
    of its binary digits, the most significant first. */
module SliceHeader {
  import opened Words

  // ----- binary digits

  function Digits(x: nat, n: nat): (r: seq<bool>)
    ensures |r| == n
  {
    if n == 0 then [] else Digits(x / 2, n - 1) + [x % 2 == 1]
  }

  function Value(bits: seq<bool>): nat {
    if bits == [] then 0
    else 2 * Value(bits[..|bits| - 1]) + if bits[|bits| - 1] then 1 else 0
  }

  /** The digits are those of the number. */
  lemma {:induction false} ValueOfDigits(x: nat, n: nat)
    requires x < PowerOfTwo(n)
    ensures Value(Digits(x, n)) == x
  {
    if n > 0 {
      ValueOfDigits(x / 2, n - 1);
      assert Digits(x, n)[..n - 1] == Digits(x / 2, n - 1);
    }
  }

  lemma {:induction false} ValueBound(bits: seq<bool>)
    ensures Value(bits) < PowerOfTwo(|bits|)
  {
    if bits != [] {
      ValueBound(bits[..|bits| - 1]);
    }
  }

  lemma {:induction false} ValueJoin(a: seq<bool>, b: seq<bool>)
    ensures Value(a + b) == Value(a) * PowerOfTwo(|b|) + Value(b)
  {
    if b == [] {
      assert a + b == a;
    } else {
      var n := |b| - 1;
      ValueJoin(a, b[..n]);
      assert (a + b)[..|a| + n] == a + b[..n];
      assert Value(a) * PowerOfTwo(n + 1) == 2 * (Value(a) * PowerOfTwo(n));
    }
  }

  /** The first digits are the quotient by a power of two, the last ones the remainder. */
  lemma {:induction false} DigitsSplit(x: nat, n: nat, k: nat)
    requires k <= n && x < PowerOfTwo(n)
    ensures x == Value(Digits(x, n)[..k]) * PowerOfTwo(n - k) + Value(Digits(x, n)[k..])
    ensures Value(Digits(x, n)[k..]) < PowerOfTwo(n - k)
  {
    hide Digits, Value, PowerOfTwo;
    var d := Digits(x, n);
    ValueOfDigits(x, n);
    ValueJoin(d[..k], d[k..]);
    assert d[..k] + d[k..] == d;
    ValueBound(d[k..]);
  }

  /** The digits of bytes in turn. */
  function Bits(bytes: seq<Byte>): (r: seq<bool>)
    ensures |r| == 8 * |bytes|
  {
    if bytes == [] then [] else Bits(bytes[..|bytes| - 1]) + Digits(bytes[|bytes| - 1], 8)
  }

  lemma {:induction false} OneMoreByte(bytes: seq<Byte>, b: Byte)
    ensures Bits(bytes + [b]) == Bits(bytes) + Digits(b, 8)
  {
    hide Digits;
    assert (bytes + [b])[..|bytes|] == bytes;
  }

  lemma {:induction false} BitsOfTwo(a: Byte, b: Byte)
    ensures Bits([a, b]) == Digits(a, 8) + Digits(b, 8)
  {
    hide Digits;
    OneMoreByte([], a);
    OneMoreByte([a], b);
    assert [] + [a] == [a] && [a] + [b] == [a, b];
  }

  lemma {:induction false} BitsJoin(a: seq<Byte>, b: seq<Byte>)
    ensures Bits(a + b) == Bits(a) + Bits(b)
  {
    hide Bits, Digits;
    if b == [] {
      assert a + b == a;
      assert Bits(b) == [];
    } else {
      var n := |b| - 1;
      BitsJoin(a, b[..n]);
      OneMoreByte(b[..n], b[n]);
      OneMoreByte(a + b[..n], b[n]);
      assert b == b[..n] + [b[n]] && a + b == a + b[..n] + [b[n]];
    }
  }

  lemma {:induction false} BitsSlice(bytes: seq<Byte>, i: nat, j: nat)
    requires i <= j <= |bytes|
    ensures Bits(bytes)[8 * i..8 * j] == Bits(bytes[i..j])
  {
    hide Bits;
    BitsJoin(bytes[..i], bytes[i..j]);
    BitsJoin(bytes[..j], bytes[j..]);
    assert bytes == bytes[..j] + bytes[j..] && bytes[..j] == bytes[..i] + bytes[i..j];
    MiddlePart(Bits(bytes[..i]), Bits(bytes[i..j]), Bits(bytes[j..]));
  }

  lemma MiddlePart(a: seq<bool>, b: seq<bool>, c: seq<bool>)
    ensures (a + b + c)[|a|..|a| + |b|] == b
  {
  }

  lemma {:induction false} TwoBytes(bytes: seq<Byte>, i: nat, a: Byte, b: Byte)
    requires i + 2 <= |bytes| && bytes[i] == a && bytes[i + 1] == b
    ensures Bits(bytes)[8 * i..8 * i + 16] == Digits(a, 8) + Digits(b, 8)
  {
    hide Digits, Bits;
    BitsSlice(bytes, i, i + 2);
    BitsOfTwo(a, b);
    assert bytes[i..i + 2] == [a, b];
  }

  // ----- the header

  /** Bit i, and zeros after the last one. */
  function At(s: seq<bool>, i: nat): bool { i < |s| && s[i] }

  /** Where the run of groups of one set bit and eight more that starts at p ends: at a bit that is not set. */
  function RunEnd(s: seq<bool>, p: nat): (e: nat)
    ensures e >= p && !At(s, e) && (e - p) % 9 == 0
    ensures forall j :: p <= j < e && (j - p) % 9 == 0 ==> At(s, j)
    decreases |s| - p
  {
    if At(s, p) then RunEnd(s, p + 9) else p
  }

  /** What lies behind a slice in memory: at least the next start code. */
  type Behind = s: seq<Byte> | |s| >= 4 witness [0, 0, 1, 0]

  /** How many bytes the reader gets to see: four at once, then two at a time while some are left. */
  function SeenBytes(bytes: nat): nat {
    if bytes <= 4 then 4 else bytes + bytes % 2
  }

  /** The bits of a payload as the reader sees them, with what lies behind it in memory. */
  function Seen(payload: seq<Byte>, behind: Behind): (r: seq<bool>)
    ensures |r| >= 32
  {
    Bits((payload + behind)[..SeenBytes(|payload|)])
  }

  datatype Header = Header(quantizerScaleCode: nat, offset: nat)

  /** quantizer_scale_code and the place of the first bit after the terminating zero of the extra
      slice information (section 6.2.4 of ISO/IEC 13818-2), behind the vertical position extension. */
  function HeaderOf(s: seq<bool>, extension: bool): Header
    requires |s| >= 8
  {
    var start := if extension then 3 else 0;
    Header(Value(s[start..start + 5]), RunEnd(s, start + 5) + 1)
  }

  /** The reader: `buf` holds 16 - bits unread bits, and zeros behind them; the next byte is at ptr. */
  class BitReader {
    const memory: seq<Byte>
    const end: nat
    var buf: seq<bool>
    var bits: int
    var ptr: nat
    ghost var Position: nat

    ghost predicate Valid()
      reads this
    {
      && SeenBytes(end) <= |memory| && |buf| == 32 && -16 <= bits <= 16
      && (forall i :: 0 <= i < 32 ==>
            (buf[i] <==> i < 16 - bits && At(Bits(memory[..SeenBytes(end)]), Position + i)))
      && ptr % 2 == 0 && 4 <= ptr <= SeenBytes(end)
      && (if ptr < end then 8 * ptr == Position + 16 - bits else 8 * SeenBytes(end) <= Position + 16 - bits)
    }

    /** bitstream_init */
    constructor (memory: seq<Byte>, bytes: nat)
      requires |memory| >= SeenBytes(bytes)
      ensures Valid() && this.memory == memory && end == bytes && Position == 0 && bits == -16
    {
      hide Digits, Bits;
      ghost var seen := memory[..SeenBytes(bytes)];
      TwoBytes(seen, 0, memory[0], memory[1]);
      TwoBytes(seen, 2, memory[2], memory[3]);
      this.memory, end, Position := memory, bytes, 0;
      var high, low := Digits(memory[0], 8) + Digits(memory[1], 8), Digits(memory[2], 8) + Digits(memory[3], 8);
      buf, bits, ptr := high + low, -16, 4;
      new;
      Joined(Bits(seen), high, low);
    }

    /** bitstream_dumpbits */
    method DumpBits(num: nat)
      requires Valid() && num <= 16 - bits
      modifies this`buf, this`bits, this`Position
      ensures Valid() && Position == old(Position) + num && bits == old(bits) + num
    {
      hide Bits;
      buf := Shifted(buf, num);
      bits := bits + num;
      Position := Position + num;
    }

    /** bitstream_needbits */
    method NeedBits()
      requires Valid()
      modifies this`buf, this`bits, this`ptr
      ensures Valid() && Position == old(Position) && bits == old(bits) - if old(bits) > 0 then 16 else 0
    {
      hide Bits, Digits;
      if bits > 0 {
        if ptr < end {
          TwoBytes(memory[..SeenBytes(end)], ptr, memory[ptr], memory[ptr + 1]);
          var word := Digits(memory[ptr], 8) + Digits(memory[ptr + 1], 8);
          buf := Or(buf, Placed(word, bits));
          ptr := ptr + 2;
        }
        bits := bits - 16;
      }
    }
  }

  lemma Joined(s: seq<bool>, high: seq<bool>, low: seq<bool>)
    requires |high| == |low| == 16 && |s| >= 32 && s[0..16] == high && s[16..32] == low
    ensures forall i :: 0 <= i < 32 ==> (high + low)[i] == s[i]
  {
    assert forall i :: 0 <= i < 16 ==> s[0..16][i] == s[i] && s[16..32][i] == s[16 + i];
  }

  function Zeros(n: nat): (r: seq<bool>)
    ensures |r| == n && forall i :: 0 <= i < n ==> !r[i]
  {
    seq(n, _ => false)
  }

  /** buf << num */
  function Shifted(buf: seq<bool>, num: nat): (r: seq<bool>)
    requires |buf| == 32 && num <= 32
    ensures |r| == 32 && forall i :: 0 <= i < 32 ==> r[i] == At(buf, i + num)
  {
    buf[num..] + Zeros(num)
  }

  /** A word of sixteen bits shifted up by `shift`. */
  function Placed(word: seq<bool>, shift: nat): (r: seq<bool>)
    requires |word| == 16 && shift <= 16
    ensures |r| == 32
    ensures forall i :: 0 <= i < 32 ==> r[i] == (16 - shift <= i && At(word, i - (16 - shift)))
  {
    Zeros(16 - shift) + word + Zeros(shift)
  }

  function Or(a: seq<bool>, b: seq<bool>): (r: seq<bool>)
    requires |a| == |b|
    ensures |r| == |a| && forall i :: 0 <= i < |a| ==> r[i] == (a[i] || b[i])
  {
    seq(|a|, i requires 0 <= i < |a| => a[i] || b[i])
  }

  lemma FirstBits(buf: seq<bool>, s: seq<bool>, offset: nat)
    requires |buf| == 32 && offset + 5 <= |s| && forall i :: 0 <= i < 5 ==> buf[i] == At(s, offset + i)
    ensures buf[..5] == s[offset..offset + 5]
  {
  }

  /** bitstream_ubits after the extension is dumped, and the five bits dumped too. */
  method ReadScaleCode(reader: BitReader, extension: bool) returns (code: nat)
    requires reader.Valid() && reader.Position == 0 && reader.bits == -16
    modifies reader
    ensures reader.Valid() && reader.bits == reader.Position - 16
    ensures reader.Position == if extension then 8 else 5
    ensures var s := Bits(reader.memory[..SeenBytes(reader.end)]);
            |s| >= 32 && code == if extension then Value(s[3..8]) else Value(s[0..5])
  {
    hide Bits, Value;
    if extension {
      reader.DumpBits(3);
    }
    code := Value(reader.buf[..5]);
    FirstBits(reader.buf, Bits(reader.memory[..SeenBytes(reader.end)]), reader.Position);
    reader.DumpBits(5);
  }

  /** The header part of Slice. */
  method ReadHeader(payload: seq<Byte>, behind: Behind, extension: bool) returns (h: Header)
    ensures h == HeaderOf(Seen(payload, behind), extension)
  {
    hide Bits, Value;
    var reader := new BitReader(payload + behind, |payload|);
    ghost var s := Seen(payload, behind);
    var quantizerScaleCode := ReadScaleCode(reader, extension);
    var offset := if extension then 8 else 5;
    while true
      invariant reader.Valid() && reader.bits <= 0 && reader.Position == offset
      invariant reader.memory == payload + behind && reader.end == |payload|
      invariant RunEnd(s, offset) == RunEnd(s, if extension then 8 else 5)
      decreases |s| - offset
    {
      offset := offset + 1;
      if !reader.buf[0] {
        break;
      }
      reader.DumpBits(9);
      reader.NeedBits();
      offset := offset + 8;
    }
    h := Header(quantizerScaleCode, offset);
  }

  /** The scale code is the top five bits of the first byte, or the low five behind the extension. */
  lemma QuantizerScaleCode(payload: seq<Byte>, behind: Behind, extension: bool)
    requires |payload| > 0
    ensures HeaderOf(Seen(payload, behind), extension).quantizerScaleCode
            == if extension then payload[0] % 32 else payload[0] / 8
  {
    hide Bits, Digits, Value, PowerOfTwo;
    var x, memory := payload[0], (payload + behind)[..SeenBytes(|payload|)];
    TwoBytes(memory, 0, x, memory[1]);
    FirstByte(Seen(payload, behind), Digits(x, 8), Digits(memory[1], 8));
    ByteSplit(x);
  }

  lemma {:induction false} ByteSplit(x: Byte)
    ensures Value(Digits(x, 8)[..5]) == x / 8 && Value(Digits(x, 8)[3..]) == x % 32
  {
    hide Digits, Value, PowerOfTwo;
    PowersUsed();
    DigitsSplit(x, 8, 5);
    DigitsSplit(x, 8, 3);
  }

  lemma FirstByte(s: seq<bool>, d: seq<bool>, e: seq<bool>)
    requires |s| >= 16 && |d| == |e| == 8 && s[0..16] == d + e
    ensures s[0..5] == d[..5] && s[3..8] == d[3..]
  {
    assert forall i :: 0 <= i < 8 ==> s[0..16][i] == s[i] == d[i];
  }

  lemma PowersUsed()
    ensures PowerOfTwo(3) == 8 && PowerOfTwo(5) == 32 && PowerOfTwo(8) == 256
  {
    assert PowerOfTwo(3) == 8 && PowerOfTwo(5) == 32;
  }

  // ----- the offset, in bits of the payload

  /** Bit k of a byte, the highest first. */
  predicate BitOfByte(b: Byte, k: nat)
    requires k < 8
  {
    b as int / PowerOfTwo(7 - k) % 2 == 1
  }

  predicate BitOf(bytes: seq<Byte>, i: nat)
    requires i < 8 * |bytes|
  {
    BitOfByte(bytes[i / 8], i % 8)
  }

  lemma {:induction false} DigitAt(x: nat, n: nat, k: nat)
    requires k < n
    ensures Digits(x, n)[k] <==> x / PowerOfTwo(n - 1 - k) % 2 == 1
  {
    if k == n - 1 {
      assert PowerOfTwo(0) == 1;
    } else {
      DigitAt(x / 2, n - 1, k);
      HalfDivided(x, PowerOfTwo(n - 2 - k));
    }
  }

  lemma HalfDivided(x: nat, m: nat)
    requires m > 0
    ensures x / 2 / m == x / (2 * m)
  {
    var q, r := x / 2 / m, x / 2 % m;
    assert x / 2 == q * m + r;
    assert x == q * (2 * m) + (2 * r + x % 2);
    QuotientIs(x, 2 * m, q, 2 * r + x % 2);
  }

  lemma QuotientIs(x: int, m: int, q: int, r: int)
    requires x == q * m + r && 0 <= r < m
    ensures x / m == q
  {
    var d := x / m - q;
    assert x == x / m * m + x % m;
    assert d * m == r - x % m;
    assert d <= 0 by {
      assert d >= 1 ==> d * m >= m;
    }
    assert d >= 0 by {
      assert d <= -1 ==> d * m <= -m;
    }
  }

  lemma {:induction false} BitsAt(bytes: seq<Byte>, i: nat)
    requires i < 8 * |bytes|
    ensures Bits(bytes)[i] <==> BitOf(bytes, i)
  {
    hide Digits, PowerOfTwo;
    var n := |bytes| - 1;
    assert Bits(bytes) == Bits(bytes[..n]) + Digits(bytes[n], 8);
    if i < 8 * n {
      BitsAt(bytes[..n], i);
    } else {
      DigitAt(bytes[n], 8, i - 8 * n);
    }
  }

  /** Within the payload the reader sees the payload's bits. */
  lemma SeenAt(payload: seq<Byte>, behind: Behind, i: nat)
    requires i < 8 * |payload|
    ensures At(Seen(payload, behind), i) <==> BitOf(payload, i)
  {
    hide Bits;
    BitsAt((payload + behind)[..SeenBytes(|payload|)], i);
  }

  /** The bit at which the extra slice information ends: the first clear one in steps of nine. */
  ghost predicate ExtraEnds(payload: seq<Byte>, extension: bool, e: nat) {
    var start := if extension then 8 else 5;
    && start <= e < 8 * |payload| && (e - start) % 9 == 0 && !BitOf(payload, e)
    && forall j :: start <= j < e && (j - start) % 9 == 0 ==> BitOf(payload, j)
  }

  /** The offset is the place just behind that bit. */
  lemma OffsetBehindExtra(payload: seq<Byte>, behind: Behind, extension: bool, e: nat)
    requires ExtraEnds(payload, extension, e)
    ensures HeaderOf(Seen(payload, behind), extension).offset == e + 1
  {
    hide Bits, Seen, BitOf;
    var s, start := Seen(payload, behind), if extension then 8 else 5;
    var r := RunEnd(s, start);
    SeenAt(payload, behind, e);
    if r < e {
      SeenAt(payload, behind, r);
    }
  }
}
