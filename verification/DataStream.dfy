/**
  The bit stream of a symbol: choosing the version, writing the segments with
  their headers, the terminator and the pad codewords
  (ISO/IEC 18004:2015, sections 7.4.9 and 7.4.10), and reading it back.
 */
module DataStream {
  import opened Bits
  import opened Buffers
  import opened QrMode
  import opened VersionTables
  import opened Writers

  /** A segment ready to be written. */
  datatype Payload = Payload(mode: Mode, units: seq<nat>)

  predicate AllWritable(segs: seq<Payload>) {
    forall p | p in segs :: Writable(p.mode, p.units)
  }

  // ---- sizes ----

  /** Mode indicator and character count indicator. */
  function GetReservedBitsCount(mode: Mode, version: nat): nat
    requires ValidVersion(version)
  {
    CharCountIndicator(mode, version) + 4
  }

  function SegmentBits(p: Payload, version: nat): nat
    requires ValidVersion(version)
  {
    GetReservedBitsCount(p.mode, version) + BitsLength(p.mode, |p.units|)
  }

  function TotalBits(segs: seq<Payload>, version: nat): nat
    requires ValidVersion(version)
  {
    if segs == [] then 0 else SegmentBits(segs[0], version) + TotalBits(segs[1..], version)
  }

  /** The number of data bits of a symbol. */
  function DataBits(version: nat, level: Level): (n: nat)
    requires ValidVersion(version)
    ensures n % 8 == 0 && n >= 72
  {
    TablesAgree(version, level);
    (GetSymbolTotalCodewords(version) - GetTotalCodewordsCount(version, level)) * 8
  }

  ghost predicate Fits(segs: seq<Payload>, version: nat, level: Level) {
    ValidVersion(version) && TotalBits(segs, version) <= DataBits(version, level)
  }

  /** How many characters of a mode go into a number of bits. */
  function Storable(mode: Mode, usableBits: nat): nat {
    match mode
    case Numeric => usableBits * 3 / 10
    case Alphanumeric => usableBits * 2 / 11
    case Kanji => usableBits / 13
    case Byte => usableBits / 8
  }

  /** The closed forms are exact: they bound the bit length, and nothing more would fit. */
  lemma StorableExact(mode: Mode, usableBits: nat, n: nat)
    ensures n <= Storable(mode, usableBits) <==> BitsLength(mode, n) <= usableBits
  {
    match mode
    case Numeric => NumericExact(usableBits, n / 3, n % 3);
    case Alphanumeric => AlphanumericExact(usableBits, n / 2, n % 2);
    case Kanji =>
    case Byte =>
  }

  lemma NumericExact(u: nat, q: nat, r: nat)
    requires r < 3
    ensures 3 * q + r <= u * 3 / 10 <==> 10 * q + (if r != 0 then r * 3 + 1 else 0) <= u
  {
    assert 3 * q + r <= u * 3 / 10 <==> 10 * (3 * q + r) <= 3 * u;
  }

  lemma AlphanumericExact(u: nat, q: nat, r: nat)
    requires r < 2
    ensures 2 * q + r <= u * 2 / 11 <==> 11 * q + 6 * r <= u
  {
    assert 2 * q + r <= u * 2 / 11 <==> 11 * (2 * q + r) <= 2 * u;
  }

  function GetCapacity(version: nat, level: Level, mode: Mode): nat
    requires ValidVersion(version)
  {
    Storable(mode, DataBits(version, level) - GetReservedBitsCount(mode, version))
  }

  /** One segment is within capacity exactly when its bits fit. */
  lemma CapacityExact(version: nat, level: Level, p: Payload)
    requires ValidVersion(version)
    ensures |p.units| <= GetCapacity(version, level, p.mode) <==> Fits([p], version, level)
  {
    StorableExact(p.mode, DataBits(version, level) - GetReservedBitsCount(p.mode, version), |p.units|);
    assert [p][1..] == [];
    assert TotalBits([p], version) == SegmentBits(p, version) + TotalBits([p][1..], version);
    hide DataBits, BitsLength, Storable;
  }

  // ---- version choice ----

  datatype Choice = NoVersion | Version(version: nat)

  /** The smallest version that holds the segments. */
  ghost predicate Smallest(segs: seq<Payload>, level: Level, choice: Choice) {
    match choice
    case NoVersion => forall v | ValidVersion(v) :: !Fits(segs, v, level)
    case Version(best) => Fits(segs, best, level) && forall v | ValidVersion(v) && v < best :: !Fits(segs, v, level)
  }

  method GetTotalBitsFromDataArray(segs: seq<Payload>, version: nat) returns (totalBits: nat)
    requires ValidVersion(version)
    ensures totalBits == TotalBits(segs, version)
  {
    totalBits := 0;
    for i := 0 to |segs|
      invariant totalBits + TotalBits(segs[i..], version) == TotalBits(segs, version)
    {
      assert segs[i..][1..] == segs[i + 1..];
      var reservedBits := GetReservedBitsCount(segs[i].mode, version);
      totalBits := totalBits + reservedBits + BitsLength(segs[i].mode, |segs[i].units|);
    }
  }

  method GetBestVersionForMixedData(segs: seq<Payload>, level: Level) returns (r: Choice)
    ensures Smallest(segs, level, r)
  {
    hide TotalBits, DataBits;
    for currentVersion := 1 to 41
      invariant forall v | 1 <= v < currentVersion :: !Fits(segs, v, level)
    {
      var length := GetTotalBitsFromDataArray(segs, currentVersion);
      if length <= DataBits(currentVersion, level) {
        return Version(currentVersion);
      }
    }
    return NoVersion;
  }

  method GetBestVersionForDataLength(p: Payload, level: Level) returns (r: Choice)
    ensures Smallest([p], level, r)
  {
    hide Fits, GetCapacity;
    for currentVersion := 1 to 41
      invariant forall v | 1 <= v < currentVersion :: !Fits([p], v, level)
    {
      CapacityExact(currentVersion, level, p);
      if |p.units| <= GetCapacity(currentVersion, level, p.mode) {
        return Version(currentVersion);
      }
    }
    return NoVersion;
  }

  /** The smallest version that holds the segments, or none. */
  method GetBestVersionForData(segs: seq<Payload>, level: Level) returns (r: Choice)
    ensures Smallest(segs, level, r)
  {
    if |segs| > 1 {
      r := GetBestVersionForMixedData(segs, level);
    } else if |segs| == 0 {
      r := Version(1);
    } else {
      assert segs == [segs[0]];
      r := GetBestVersionForDataLength(segs[0], level);
    }
  }

  // ---- the stream ----

  function Header(p: Payload, version: nat): seq<bool>
    requires ValidVersion(version)
  {
    NumBits(ModeBit(p.mode), 4) + NumBits(|p.units|, CharCountIndicator(p.mode, version))
  }

  function Stream(segs: seq<Payload>, version: nat): (bits: seq<bool>)
    requires ValidVersion(version) && AllWritable(segs)
  {
    if segs == [] then []
    else Header(segs[0], version) + Encode(segs[0].mode, segs[0].units) + Stream(segs[1..], version)
  }

  lemma {:induction false} StreamLength(segs: seq<Payload>, version: nat)
    requires ValidVersion(version) && AllWritable(segs)
    ensures |Stream(segs, version)| == TotalBits(segs, version)
  {
    if segs != [] {
      StreamLength(segs[1..], version);
      WriteRoundTrip(segs[0].mode, segs[0].units);
    }
  }

  function Zeros(n: nat): (z: seq<bool>)
    ensures |z| == n && forall i | 0 <= i < n :: !z[i]
  {
    if n == 0 then [] else Zeros(n - 1) + [false]
  }

  /** Alternating pad codewords 11101100 and 00010001. */
  function PadBytes(n: nat): (bits: seq<bool>)
    ensures |bits| == 8 * n
  {
    if n == 0 then [] else PadBytes(n - 1) + NumBits(if (n - 1) % 2 != 0 then 0x11 else 0xEC, 8)
  }

  function RoundUp(n: nat): (r: nat)
    ensures r % 8 == 0 && n <= r < n + 8
  {
    (n + 7) / 8 * 8
  }

  /** Where the zero bits behind `n` bits of segments end: after four of them if there is room, and at a byte. */
  function ZerosEnd(n: nat, capacity: nat): nat {
    RoundUp(if n + 4 <= capacity then n + 4 else n)
  }

  /** What follows `n` bits of segments. */
  function Padding(n: nat, capacity: nat): (bits: seq<bool>)
  {
    var e := ZerosEnd(n, capacity);
    Zeros(e - n) + PadBytes(if e <= capacity then (capacity - e) / 8 else 0)
  }

  /** The padding fills the symbol exactly, unless the segments are already too long. */
  lemma PaddingFills(n: nat, capacity: nat)
    requires capacity % 8 == 0
    ensures n + |Padding(n, capacity)| == capacity <==> n <= capacity
    ensures n <= capacity ==> ZerosEnd(n, capacity) <= capacity
    ensures n + 4 <= capacity ==> ZerosEnd(n, capacity) - n >= 4
    ensures capacity - 4 < n <= capacity ==> ZerosEnd(n, capacity) == capacity
  {
    hide Zeros, PadBytes, RoundUp;
    var e := ZerosEnd(n, capacity);
    var m := if n + 4 <= capacity then n + 4 else n;
    assert e == RoundUp(m);
    Aligned(m, e, capacity);
    assert n <= capacity ==> e <= capacity;
    assert n <= capacity ==> (capacity - e) / 8 * 8 == capacity - e;
  }

  /** The next multiple of eight is the least. */
  lemma Aligned(m: nat, e: nat, capacity: nat)
    requires e % 8 == 0 && capacity % 8 == 0 && m <= e < m + 8
    ensures m <= capacity ==> e <= capacity
  {}

  lemma {:induction false} NumZeros(n: nat)
    ensures NumBits(0, n) == Zeros(n)
  {
    if n > 0 {
      NumZeros(n - 1);
    }
  }

  /** Appends one segment with its header. */
  method WriteSegment(p: Payload, version: nat, buffer: BitBuffer)
    requires ValidVersion(version) && Writable(p.mode, p.units) && buffer.Valid()
    modifies buffer
    ensures buffer.Valid()
    ensures buffer.Contents() == old(buffer.Contents()) + Header(p, version) + Encode(p.mode, p.units)
  {
    hide Encode, NumBits;
    buffer.Put(ModeBit(p.mode), 4);
    buffer.Put(|p.units|, CharCountIndicator(p.mode, version));
    Write(p.mode, p.units, buffer);
  }

  /** The terminator, if there is room for it, and zero bits up to a byte. */
  method Terminate(buffer: BitBuffer, dataTotalCodewordsBits: nat)
    requires buffer.Valid()
    modifies buffer
    ensures buffer.Valid()
    ensures var n := |old(buffer.Contents())|;
            buffer.Contents() == old(buffer.Contents()) + Zeros(ZerosEnd(n, dataTotalCodewordsBits) - n)
  {
    ghost var before := buffer.Contents();
    ghost var n := |before|;
    ghost var m := if n + 4 <= dataTotalCodewordsBits then n + 4 else n;
    if buffer.GetLengthInBits() + 4 <= dataTotalCodewordsBits {
      NumZeros(4);
      buffer.Put(0, 4);
    }
    ghost var e := RoundUp(m);
    hide RoundUp;
    assert Zeros(0) == [];
    while buffer.GetLengthInBits() % 8 != 0
      invariant buffer.Valid() && m <= buffer.length <= e
      invariant buffer.Contents() == before + Zeros(buffer.length - n)
      decreases e - buffer.length
    {
      ghost var z := buffer.length - n;
      buffer.PutBit(false);
      assert Zeros(z + 1) == Zeros(z) + [false];
    }
    assert buffer.length == e;
  }

  /** Terminator, zero bits up to a byte, and pad codewords. */
  method Pad(buffer: BitBuffer, dataTotalCodewordsBits: nat)
    requires buffer.Valid() && dataTotalCodewordsBits % 8 == 0
    modifies buffer
    ensures buffer.Valid()
    ensures buffer.Contents() == old(buffer.Contents()) + Padding(|old(buffer.Contents())|, dataTotalCodewordsBits)
  {
    hide PadBytes, ZerosEnd, NumBits;
    Terminate(buffer, dataTotalCodewordsBits);
    ghost var middle := buffer.Contents();
    var remaining: int := dataTotalCodewordsBits - buffer.GetLengthInBits();
    var remainingByte := remaining / 8;
    PadNext(0);
    var i := 0;
    while i < remainingByte
      invariant 0 <= i && (i <= remainingByte || (i == 0 && remainingByte < 0)) && buffer.Valid()
      invariant buffer.Contents() == middle + PadBytes(i)
    {
      PadNext(i);
      buffer.Put(if i % 2 != 0 then 0x11 else 0xEC, 8);
      i := i + 1;
    }
  }

  lemma PadNext(i: nat)
    ensures PadBytes(0) == []
    ensures PadBytes(i + 1) == PadBytes(i) + NumBits(if i % 2 != 0 then 0x11 else 0xEC, 8)
  {}

  lemma StreamNext(segs: seq<Payload>, i: nat, version: nat)
    requires ValidVersion(version) && AllWritable(segs) && i < |segs|
    ensures Writable(segs[i].mode, segs[i].units)
    ensures Stream(segs[i..], version) == Header(segs[i], version) + Encode(segs[i].mode, segs[i].units) + Stream(segs[i + 1..], version)
  {
    hide Writable;
    assert segs[i..][1..] == segs[i + 1..] && segs[i] in segs;
  }

  lemma StreamEnds(segs: seq<Payload>, version: nat)
    requires ValidVersion(version) && AllWritable(segs)
    ensures segs[0..] == segs && Stream(segs[|segs|..], version) == []
  {
    hide Writable;
  }

  /**
    The data codewords as bits.  They fill the symbol exactly if and only if
    the segments fit.
   */
  method FillBuffer(version: nat, level: Level, segs: seq<Payload>) returns (buffer: BitBuffer)
    requires ValidVersion(version) && AllWritable(segs)
    ensures fresh(buffer) && buffer.Valid()
    ensures buffer.Contents() == Stream(segs, version) + Padding(TotalBits(segs, version), DataBits(version, level))
    ensures |buffer.Contents()| == DataBits(version, level) <==> Fits(segs, version, level)
    ensures |buffer.buffer| * 8 == |buffer.Contents()| && TotalBits(segs, version) <= |buffer.Contents()|
  {
    hide Header, Encode, DataBits, Padding, Writable, TotalBits, Stream;
    buffer := new BitBuffer();
    StreamEnds(segs, version);
    for i := 0 to |segs|
      invariant fresh(buffer) && buffer.Valid()
      invariant buffer.Contents() + Stream(segs[i..], version) == Stream(segs, version)
    {
      StreamNext(segs, i, version);
      WriteSegment(segs[i], version, buffer);
    }
    StreamLength(segs, version);
    Pad(buffer, DataBits(version, level));
    PaddingFills(TotalBits(segs, version), DataBits(version, level));
    PaddingAligned(TotalBits(segs, version), DataBits(version, level));
  }

  lemma PaddingAligned(n: nat, capacity: nat)
    requires capacity % 8 == 0
    ensures (n + |Padding(n, capacity)|) % 8 == 0
  {}

  // ---- reading the stream ----

  /** The mode of an indicator; the terminator, and Kanji, end the reading. */
  function ModeOf(indicator: nat): Mode {
    if indicator == 1 then Numeric else if indicator == 2 then Alphanumeric else if indicator == 4 then Byte else Kanji
  }

  function ReadStream(bits: seq<bool>, version: nat): seq<Payload>
    requires ValidVersion(version)
    decreases |bits|
  {
    if |bits| < 4 then []
    else
      var mode := ModeOf(FromBits(bits[..4]));
      var width := CharCountIndicator(mode, version);
      if mode == Kanji || |bits| < 4 + width then []
      else
        var n := FromBits(bits[4..4 + width]);
        var end := 4 + width + BitsLength(mode, n);
        if |bits| < end then []
        else [Payload(mode, Decode(mode, bits[4 + width..end], n))] + ReadStream(bits[end..], version)
  }

  /** A reader stops, or finds a segment and goes on behind the bits that it takes. */
  lemma ReadNext(bits: seq<bool>, version: nat) returns (p: Payload, rest: seq<bool>)
    requires ValidVersion(version) && ReadStream(bits, version) != []
    ensures ReadStream(bits, version) == [p] + ReadStream(rest, version)
    ensures SegmentBits(p, version) + |rest| == |bits| && |rest| < |bits|
  {
    var mode := ModeOf(FromBits(bits[..4]));
    var width := CharCountIndicator(mode, version);
    var n := FromBits(bits[4..4 + width]);
    var end := 4 + width + BitsLength(mode, n);
    DecodeSize(mode, bits[4 + width..end], n);
    p, rest := Payload(mode, Decode(mode, bits[4 + width..end], n)), bits[end..];
    hide Decode, FromBits, BitsLength, CharCountIndicator, ModeOf;
  }

  /** Whatever a reader finds took no more bits than there were. */
  lemma {:induction false} ReadTakesBits(bits: seq<bool>, version: nat)
    requires ValidVersion(version)
    ensures TotalBits(ReadStream(bits, version), version) <= |bits|
    decreases |bits|
  {
    hide ReadStream, SegmentBits;
    if ReadStream(bits, version) != [] {
      var p, rest := ReadNext(bits, version);
      ReadTakesBits(rest, version);
      assert ReadStream(bits, version)[1..] == ReadStream(rest, version);
    }
  }

  /** The count of characters fits its field whenever the segment fits the symbol. */
  lemma CountFits(mode: Mode, n: nat, version: nat, level: Level)
    requires ValidVersion(version) && mode != Kanji
    requires GetReservedBitsCount(mode, version) + BitsLength(mode, n) <= DataBits(version, level)
    ensures n < Pow2(CharCountIndicator(mode, version))
  {
    TablesAgree(version, level);
    assert DataBits(version, level) <= 8 * if version < 10 then 232 else if version < 27 then 1370 else 2956;
    hide DataBits;
    CountWidths();
    hide Pow2;
    StorableExact(mode, (if version < 10 then 232 else if version < 27 then 1370 else 2956) * 8 - 12, n);
  }

  lemma CountWidths()
    ensures Pow2(8) == 256 && Pow2(9) == 512 && Pow2(10) == 1024 && Pow2(11) == 2048 && Pow2(12) == 4096
    ensures Pow2(13) == 8192 && Pow2(14) == 16384 && Pow2(16) == 65536
  {
    FieldWidths();
    assert Pow2(9) == 512;
    assert Pow2(12) == 4096;
    assert Pow2(14) == 16384;
  }

  lemma ModeRead(mode: Mode)
    requires mode != Kanji
    ensures ModeOf(FromBits(NumBits(ModeBit(mode), 4))) == mode
  {
    FieldWidths();
    NumberRoundTrip(ModeBit(mode), 4);
  }

  /** What a reader does with bits that show a mode, a count and a whole segment. */
  lemma ReadParts(bits: seq<bool>, version: nat, mode: Mode, n: nat)
    requires ValidVersion(version) && mode != Kanji
    requires var width := CharCountIndicator(mode, version);
             && |bits| >= 4 + width + BitsLength(mode, n)
             && ModeOf(FromBits(bits[..4])) == mode && FromBits(bits[4..4 + width]) == n
    ensures var width := CharCountIndicator(mode, version);
            var end := 4 + width + BitsLength(mode, n);
            ReadStream(bits, version) == [Payload(mode, Decode(mode, bits[4 + width..end], n))] + ReadStream(bits[end..], version)
  {
    hide FromBits, Decode, BitsLength, CharCountIndicator, ModeOf;
  }

  /** One segment is read back, whatever follows it. */
  lemma ReadOne(p: Payload, version: nat, tail: seq<bool>)
    requires ValidVersion(version) && Writable(p.mode, p.units) && |p.units| < Pow2(CharCountIndicator(p.mode, version))
    ensures ReadStream(Header(p, version) + Encode(p.mode, p.units) + tail, version) == [p] + ReadStream(tail, version)
  {
    var bits := Header(p, version) + Encode(p.mode, p.units) + tail;
    var width := CharCountIndicator(p.mode, version);
    assert p.mode != Kanji;
    ModeRead(p.mode);
    NumberRoundTrip(|p.units|, width);
    WriteRoundTrip(p.mode, p.units);
    hide ReadStream, NumBits, FromBits, Encode, Decode, Writable, Pow2, BitsLength, CharCountIndicator, ModeBit, ModeOf;
    Slices(NumBits(ModeBit(p.mode), 4), NumBits(|p.units|, width), Encode(p.mode, p.units), tail);
    ReadParts(bits, version, p.mode, |p.units|);
  }

  /** The parts of a joined list, at their places. */
  lemma Slices<T>(a: seq<T>, b: seq<T>, c: seq<T>, d: seq<T>)
    ensures var all := a + b + c + d;
            && all[..|a|] == a && all[|a|..|a| + |b|] == b
            && all[|a| + |b|..|a| + |b| + |c|] == c && all[|a| + |b| + |c|..] == d
  {}

  /** Terminator and padding end the reading. */
  lemma ReadPadding(n: nat, version: nat, capacity: nat)
    requires ValidVersion(version) && capacity % 8 == 0 && n <= capacity
    ensures ReadStream(Padding(n, capacity), version) == []
  {
    PaddingFills(n, capacity);
    var bits := Padding(n, capacity);
    if n + 4 <= capacity {
      FourZeros();
      assert bits[..4] == Zeros(4);
    }
  }

  lemma FourZeros()
    ensures FromBits(Zeros(4)) == 0
  {
    NumZeros(4);
    FieldWidths();
    NumberRoundTrip(0, 4);
  }

  lemma {:induction false} ReadSegments(segs: seq<Payload>, version: nat, level: Level, tail: seq<bool>)
    requires Fits(segs, version, level) && AllWritable(segs) && ReadStream(tail, version) == []
    ensures ReadStream(Stream(segs, version) + tail, version) == segs
  {
    if segs == [] {
      assert Stream(segs, version) + tail == tail;
    } else {
      var p := segs[0];
      assert Writable(p.mode, p.units);
      CountFits(p.mode, |p.units|, version, level);
      ReadSegments(segs[1..], version, level, tail);
      hide ReadStream, Header, Encode, BitsLength, DataBits, Writable, Pow2;
      ReadOne(p, version, Stream(segs[1..], version) + tail);
      assert Stream(segs, version) + tail == Header(p, version) + Encode(p.mode, p.units) + (Stream(segs[1..], version) + tail);
      assert segs == [p] + segs[1..];
    }
  }

  /** What FillBuffer writes reads back as the same segments. */
  lemma StreamRoundTrip(segs: seq<Payload>, version: nat, level: Level)
    requires Fits(segs, version, level) && AllWritable(segs)
    ensures ReadStream(Stream(segs, version) + Padding(TotalBits(segs, version), DataBits(version, level)), version) == segs
  {
    hide ReadStream, Padding, TotalBits, DataBits, Stream;
    ReadPadding(TotalBits(segs, version), version, DataBits(version, level));
    ReadSegments(segs, version, level, Padding(TotalBits(segs, version), DataBits(version, level)));
  }

  // ---- the stream bit by bit (section 7.4 of ISO/IEC 18004:2015) ----

  /** The width of a character count. */
  function CountWidth(mode: Mode, version: nat): nat {
    match mode
    case Numeric => if version <= 9 then 10 else if version <= 26 then 12 else 14
    case Alphanumeric => if version <= 9 then 9 else if version <= 26 then 11 else 13
    case Byte => if version <= 9 then 8 else 16
    case Kanji => if version <= 9 then 8 else if version <= 26 then 10 else 12
  }

  /** A segment begins with the indicator of its mode, and its length in as many bits as the standard says. */
  lemma HeaderShown(p: Payload, version: nat)
    requires ValidVersion(version) && p.mode != Kanji
    ensures var bits := Header(p, version);
            && |bits| == 4 + CountWidth(p.mode, version)
            && bits[..4] == (if p.mode == Numeric then [false, false, false, true]
                             else if p.mode == Alphanumeric then [false, false, true, false] else [false, true, false, false])
            && (|p.units| < Pow2(CountWidth(p.mode, version)) ==> FromBits(bits[4..]) == |p.units|)
  {
    var width := CountWidth(p.mode, version);
    assert CharCountIndicator(p.mode, version) == width;
    IndicatorShown(p.mode);
    hide CountWidth, CharCountIndicator, ModeBit, FromBits, NumBits, Pow2;
    var indicator, count := NumBits(ModeBit(p.mode), 4), NumBits(|p.units|, width);
    assert Header(p, version)[..4] == indicator && Header(p, version)[4..] == count;
    if |p.units| < Pow2(width) {
      NumberRoundTrip(|p.units|, width);
    }
  }

  lemma IndicatorShown(mode: Mode)
    requires mode != Kanji
    ensures NumBits(ModeBit(mode), 4) == if mode == Numeric then [false, false, false, true]
                                         else if mode == Alphanumeric then [false, false, true, false] else [false, true, false, false]
  {
    var n := ModeBit(mode);
    assert NumBits(n / 8, 1) == [n / 8 % 2 == 1] by { assert NumBits(n / 16, 0) == []; }
    assert NumBits(n / 4, 2) == [n / 8 % 2 == 1, n / 4 % 2 == 1];
    assert NumBits(n / 2, 3) == [n / 8 % 2 == 1, n / 4 % 2 == 1, n / 2 % 2 == 1];
  }

  const PAD_BITS: seq<bool> :=
    [true, true, true, false, true, true, false, false, false, false, false, true, false, false, false, true]

  /**
    Behind the segments come zero bits, four of them if there is room and then
    to the end of the byte, and behind those the bytes 11101100 and 00010001
    in turn.
   */
  lemma PaddingShown(n: nat, capacity: nat, k: nat)
    requires capacity % 8 == 0 && n <= capacity && k < |Padding(n, capacity)|
    ensures |Padding(n, capacity)| == capacity - n
    ensures var end := if n + 4 <= capacity then (n + 11) / 8 * 8 else (n + 7) / 8 * 8;
            end <= capacity && Padding(n, capacity)[k] == (n + k >= end && PAD_BITS[(n + k - end) % 16])
  {
    var end := ZerosEnd(n, capacity);
    PaddingFills(n, capacity);
    assert end == if n + 4 <= capacity then (n + 11) / 8 * 8 else (n + 7) / 8 * 8;
    hide ZerosEnd, PadBytes;
    if k >= end - n {
      PadShown((capacity - end) / 8, k - (end - n));
    }
  }

  lemma {:induction false} PadShown(n: nat, k: nat)
    requires k < 8 * n
    ensures PadBytes(n)[k] == PAD_BITS[k % 16]
  {
    hide PadBytes;
    if k < 8 * (n - 1) {
      PadShown(n - 1, k);
      LastPad(n, 0);
    } else {
      var i := k - 8 * (n - 1);
      LastPad(n, i);
      PadPlace(n - 1, i);
    }
  }

  lemma LastPad(n: nat, i: nat)
    requires n > 0 && i < 8
    ensures PadBytes(n)[..8 * (n - 1)] == PadBytes(n - 1)
    ensures PadBytes(n)[8 * (n - 1) + i] == PAD_BITS[if (n - 1) % 2 == 0 then i else 8 + i]
  {
    PadByte(i);
    hide NumBits;
  }

  lemma PadPlace(n: nat, i: nat)
    requires i < 8
    ensures (8 * n + i) % 16 == if n % 2 == 0 then i else 8 + i
  {
    assert n == 2 * (n / 2) + n % 2;
  }

  lemma PadByte(i: nat)
    requires i < 8
    ensures NumBits(0xEC, 8)[i] == PAD_BITS[i] && NumBits(0x11, 8)[i] == PAD_BITS[8 + i]
  {
    NumBitsAt(0xEC, 8, i);
    NumBitsAt(0x11, 8, i);
    FieldWidths();
    assert Pow2(0) == 1 && Pow2(1) == 2 && Pow2(2) == 4 && Pow2(3) == 8;
    assert Pow2(5) == 32 && Pow2(6) == 64;
  }
}
