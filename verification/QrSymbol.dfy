/** From a text to a symbol, and what a reader of the symbol gets back. */
module QrSymbol {
  import opened Bits
  import opened QrMode
  import opened Results
  import opened Buffers
  import opened GaloisField
  import opened VersionTables
  import W = Writers
  import G = Segmentation
  import opened Segments
  import U = Utf8
  import D = DataStream
  import I = Interleaving
  import opened Matrix
  import opened Placement
  import F = FunctionPatterns
  import K = Masking
  import M = SymbolModules
  import R = SegmentGraph
  import P = Dijkstra
  import C = ModeChoice
  import T = TextVersions
  import V = VersionCheck

  // ---- segments as they are written ----

  function Units(s: Text): (u: seq<nat>)
    ensures |u| == |s| && forall i | 0 <= i < |s| :: u[i] == s[i]
  {
    seq(|s|, i requires 0 <= i < |s| => s[i] as nat)
  }

  function Chars(u: seq<nat>): (s: Text)
    ensures |s| == |u|
  {
    seq(|u|, i requires 0 <= i < |u| => U.Unit(u[i]))
  }

  function PayloadOf(seg: Segment): D.Payload {
    D.Payload(seg.mode, if seg.mode == Byte then U.Encode(seg.data) else Units(seg.data))
  }

  function TextOf(p: D.Payload): Text {
    if p.mode == Byte then U.Decode(p.units) else Chars(p.units)
  }

  function Payloads(segs: seq<Segment>): (ps: seq<D.Payload>)
    ensures |ps| == |segs| && forall i | 0 <= i < |segs| :: ps[i] == PayloadOf(segs[i])
  {
    seq(|segs|, i requires 0 <= i < |segs| => PayloadOf(segs[i]))
  }

  /** The text that a list of read segments spells. */
  function Spelled(ps: seq<D.Payload>): Text {
    if ps == [] then [] else Spelled(ps[..|ps| - 1]) + TextOf(ps[|ps| - 1])
  }

  lemma PayloadWritable(seg: Segment)
    requires Fits(seg)
    ensures W.Writable(PayloadOf(seg).mode, PayloadOf(seg).units)
  {
    match seg.mode
    case Numeric => assert forall i | 0 <= i < |seg.data| :: Encodable(Numeric, seg.data[i]);
    case Alphanumeric => assert forall i | 0 <= i < |seg.data| :: Encodable(Alphanumeric, seg.data[i]);
    case Byte => U.EncodeSize(seg.data);
  }

  lemma AllPayloadsWritable(segs: seq<Segment>)
    requires forall s | s in segs :: Fits(s)
    ensures D.AllWritable(Payloads(segs))
  {
    forall p | p in Payloads(segs)
      ensures W.Writable(p.mode, p.units)
    {
      var i :| 0 <= i < |segs| && Payloads(segs)[i] == p;
      assert Fits(segs[i]);
      PayloadWritable(segs[i]);
    }
  }

  lemma PayloadText(seg: Segment)
    requires seg.mode == Byte ==> G.WellFormed(seg.data)
    ensures TextOf(PayloadOf(seg)) == seg.data
  {
    if seg.mode == Byte {
      U.RoundTrip(seg.data);
    }
  }

  lemma {:induction false} SpelledText(segs: seq<Segment>)
    requires forall i | 0 <= i < |segs| :: segs[i].mode == Byte ==> G.WellFormed(segs[i].data)
    ensures Spelled(Payloads(segs)) == SegmentsText(segs)
  {
    if segs != [] {
      var n := |segs| - 1;
      SpelledText(segs[..n]);
      PayloadText(segs[n]);
      assert Payloads(segs)[..n] == Payloads(segs[..n]);
      hide PayloadOf, TextOf;
    }
  }

  /** A character of a numeric or alphanumeric segment is no surrogate. */
  lemma PlainCharacter(seg: Segment, i: nat)
    requires Fits(seg) && seg.mode != Byte && i < |seg.data|
    ensures !G.IsHigh(seg.data[i]) && !G.IsLow(seg.data[i])
  {
    assert Encodable(seg.mode, seg.data[i]);
  }

  /** Merged segments do not part surrogate pairs. */
  lemma {:induction false} BytesWellFormed(segs: seq<Segment>)
    requires Alternating(segs) && NonEmpty(segs) && (forall i | 0 <= i < |segs| :: Fits(segs[i]))
    requires G.WellFormed(SegmentsText(segs))
    ensures forall i | 0 <= i < |segs| :: segs[i].mode == Byte ==> G.WellFormed(segs[i].data)
  {
    if segs != [] {
      var n := |segs| - 1;
      var front := SegmentsText(segs[..n]);
      if n > 0 {
        assert front == SegmentsText(segs[..n][..n - 1]) + segs[n - 1].data;
        if segs[n].mode == Byte {
          PlainCharacter(segs[n - 1], |segs[n - 1].data| - 1);
        } else {
          PlainCharacter(segs[n], 0);
        }
      }
      hide SegmentsText, Fits;
      G.WellFormedCut(front, segs[n].data);
      BytesWellFormed(segs[..n]);
    }
  }

  // ---- the codewords ----

  /** What a reader makes of the data bytes of a symbol. */
  ghost function ReadText(bytes: seq<bv8>, version: nat): Text
    requires ValidVersion(version)
  {
    Spelled(D.ReadStream(BitsOf(bytes, 8 * |bytes|), version))
  }

  /** The codewords of a symbol spell a text: de-interleave, read the segments, join them. */
  ghost predicate Spells(codewords: seq<bv8>, version: nat, level: Level, data: Text)
    requires ValidVersion(version)
  {
    var total, ecTotal, blocks := GetSymbolTotalCodewords(version), GetTotalCodewordsCount(version, level), GetBlocksCount(version, level);
    0 < blocks && ecTotal <= total
    && exists bytes :: I.Readable(codewords, total, ecTotal, blocks, bytes) && ReadText(bytes, version) == data
  }

  /**
    The codewords carry bits: de-interleaved, their data bytes are these bits.
   */
  ghost predicate CarryBits(codewords: seq<bv8>, version: nat, level: Level, bits: seq<bool>)
    requires ValidVersion(version)
  {
    var total, ecTotal, blocks := GetSymbolTotalCodewords(version), GetTotalCodewordsCount(version, level), GetBlocksCount(version, level);
    0 < blocks && ecTotal <= total
    && exists bytes :: I.Readable(codewords, total, ecTotal, blocks, bytes) && BitsOf(bytes, 8 * |bytes|) == bits
  }

  lemma CarriedSpell(codewords: seq<bv8>, version: nat, level: Level, bits: seq<bool>, segs: seq<D.Payload>)
    requires ValidVersion(version) && CarryBits(codewords, version, level, bits) && D.ReadStream(bits, version) == segs
    ensures Spells(codewords, version, level, Spelled(segs))
  {
    hide I.Readable, D.ReadStream, Spelled;
    var total, ecTotal, blocks := GetSymbolTotalCodewords(version), GetTotalCodewordsCount(version, level), GetBlocksCount(version, level);
    var bytes :| I.Readable(codewords, total, ecTotal, blocks, bytes) && BitsOf(bytes, 8 * |bytes|) == bits;
    assert ReadText(bytes, version) == Spelled(segs);
  }

  lemma BufferBits(buffer: BitBuffer)
    requires buffer.Valid() && |buffer.buffer| * 8 == |buffer.Contents()|
    ensures BitsOf(buffer.buffer, 8 * |buffer.buffer|) == buffer.Contents()
  {}

  /** The bits of the data bytes of a symbol: the padded stream, cut off where the symbol is full. */
  ghost function SymbolBits(segs: seq<D.Payload>, version: nat, level: Level): (bits: seq<bool>)
    requires ValidVersion(version) && D.AllWritable(segs)
  {
    var all := D.Stream(segs, version) + D.Padding(D.TotalBits(segs, version), D.DataBits(version, level));
    if |all| <= D.DataBits(version, level) then all else all[..D.DataBits(version, level)]
  }

  /** A reader gets the segments back exactly if they fit. */
  lemma SymbolBitsRead(segs: seq<D.Payload>, version: nat, level: Level)
    requires ValidVersion(version) && D.AllWritable(segs)
    ensures |SymbolBits(segs, version, level)| <= D.DataBits(version, level)
    ensures D.ReadStream(SymbolBits(segs, version, level), version) == segs <==> D.Fits(segs, version, level)
  {
    hide D.ReadStream, D.Stream, D.Padding, D.TotalBits, D.DataBits, D.AllWritable;
    D.StreamLength(segs, version);
    D.PaddingFills(D.TotalBits(segs, version), D.DataBits(version, level));
    if D.Fits(segs, version, level) {
      D.StreamRoundTrip(segs, version, level);
    } else {
      D.ReadTakesBits(SymbolBits(segs, version, level), version);
    }
  }

  /**
    The bits of the segments, cut into blocks, protected and interleaved.
    Segments that do not fit are cut off, and no reader gets them back.
   */
  method CreateData(gf: Tables, version: nat, level: Level, segs: seq<D.Payload>) returns (codewords: seq<bv8>)
    requires gf.Valid() && ValidVersion(version) && D.AllWritable(segs)
    ensures |codewords| == GetSymbolTotalCodewords(version)
    ensures CarryBits(codewords, version, level, SymbolBits(segs, version, level))
    ensures D.ReadStream(SymbolBits(segs, version, level), version) == segs <==> D.Fits(segs, version, level)
    ensures D.Fits(segs, version, level) ==> Spells(codewords, version, level, Spelled(segs))
  {
    hide D.ReadStream, D.Stream, D.Padding, I.Cut, I.Interleave, Sizes, Spelled, D.AllWritable, SymbolBits, D.TotalBits;
    var total, ecTotal, blocks := GetSymbolTotalCodewords(version), GetTotalCodewordsCount(version, level), GetBlocksCount(version, level);
    TablesAgree(version, level);
    var buffer := D.FillBuffer(version, level, segs);
    BufferIsLongEnough(segs, version, level, buffer);
    BufferBits(buffer);
    var data, dc, ec := I.CreateCodewords(gf, buffer.buffer, total, ecTotal, blocks);
    codewords := data[..];
    I.CodewordsReadable(buffer.buffer, total, ecTotal, blocks, dc, ec, codewords);
    FrontBits(buffer.buffer, total - ecTotal);
    SymbolBitsAre(segs, version, level, buffer.Contents());
    assert CarryBits(codewords, version, level, SymbolBits(segs, version, level));
    SymbolBitsRead(segs, version, level);
    if D.Fits(segs, version, level) {
      CarriedSpell(codewords, version, level, SymbolBits(segs, version, level), segs);
    }
  }

  /** The bits of the first bytes are the first bits. */
  lemma FrontBits(data: seq<bv8>, n: nat)
    requires n <= |data|
    ensures BitsOf(data[..n], 8 * n) == BitsOf(data, 8 * |data|)[..8 * n]
  {
    forall k | 0 <= k < 8 * n
      ensures DataBit(data[..n], k) == DataBit(data, k)
    {}
  }

  lemma SymbolBitsAre(segs: seq<D.Payload>, version: nat, level: Level, bits: seq<bool>)
    requires ValidVersion(version) && D.AllWritable(segs)
    requires bits == D.Stream(segs, version) + D.Padding(D.TotalBits(segs, version), D.DataBits(version, level))
    requires |bits| == D.DataBits(version, level) <==> D.Fits(segs, version, level)
    requires D.TotalBits(segs, version) <= |bits|
    ensures |bits| >= D.DataBits(version, level) && SymbolBits(segs, version, level) == bits[..D.DataBits(version, level)]
  {
    hide D.Stream, D.Padding, D.TotalBits, D.DataBits, D.AllWritable;
  }

  lemma BufferIsLongEnough(segs: seq<D.Payload>, version: nat, level: Level, buffer: BitBuffer)
    requires ValidVersion(version)
    requires buffer.Valid() && |buffer.buffer| * 8 == |buffer.Contents()|
    requires |buffer.Contents()| == D.DataBits(version, level) <==> D.Fits(segs, version, level)
    requires D.TotalBits(segs, version) <= |buffer.Contents()|
    ensures |buffer.buffer| >= GetSymbolTotalCodewords(version) - GetTotalCodewordsCount(version, level)
    ensures D.Fits(segs, version, level) ==> |buffer.buffer| == GetSymbolTotalCodewords(version) - GetTotalCodewordsCount(version, level)
  {
    hide D.TotalBits, Sizes;
  }

  // ---- the version check ----

  function Alternate(n: nat): (segs: seq<D.Payload>) {
    if n == 0 then [] else [D.Payload(Byte, [0]), D.Payload(Numeric, ['0' as int])] + Alternate(n - 1)
  }

  lemma {:induction false} AlternateBits(n: nat, version: nat)
    requires ValidVersion(version)
    ensures D.TotalBits(Alternate(n), version)
            == n * (D.SegmentBits(D.Payload(Byte, [0]), version) + D.SegmentBits(D.Payload(Numeric, ['0' as int]), version))
  {
    var a, b := D.Payload(Byte, [0]), D.Payload(Numeric, ['0' as int]);
    var c := D.SegmentBits(a, version) + D.SegmentBits(b, version);
    if n > 0 {
      AlternateBits(n - 1, version);
      var segs := Alternate(n);
      assert segs[1..] == [b] + Alternate(n - 1) && segs[1..][1..] == Alternate(n - 1);
      assert n * c == (n - 1) * c + c;
    } else {
      assert n * c == 0;
    }
  }

  /** An array of one byte, one digit, and so on. */
  function AlternateItems(n: nat): (items: seq<Item>) {
    if n == 0 then [] else [DataItem([0], Wanted(Byte)), DataItem(['0' as int], Wanted(Numeric))] + AlternateItems(n - 1)
  }

  lemma {:induction false} AlternateSize(n: nat)
    ensures |AlternateItems(n)| == 2 * n == |Alternate(n)|
  {
    if n > 0 {
      AlternateSize(n - 1);
    }
  }

  lemma {:induction false} AlternateAt(n: nat, i: nat)
    requires i < 2 * n
    ensures |AlternateItems(n)| == 2 * n == |Alternate(n)|
    ensures AlternateItems(n)[i] == if i % 2 == 0 then DataItem([0], Wanted(Byte)) else DataItem(['0' as int], Wanted(Numeric))
    ensures Alternate(n)[i] == if i % 2 == 0 then D.Payload(Byte, [0]) else D.Payload(Numeric, ['0' as int])
  {
    AlternateSize(n);
    AlternateSize(n - 1);
    if i >= 2 {
      AlternateAt(n - 1, i - 2);
    }
  }

  /** The array is accepted, and gives these segments. */
  lemma AlternateCollected(n: nat, segs: seq<Segment>)
    requires Collected(AlternateItems(n), segs)
    ensures forall x | x in AlternateItems(n) :: !Skipped(x) && !Refused(x.data, ItemHint(x))
    ensures Payloads(segs) == Alternate(n)
  {
    AlternateSize(n);
    var items := AlternateItems(n);
    forall x | x in items
      ensures !Skipped(x) && !Refused(x.data, ItemHint(x))
    {
      var i :| 0 <= i < |items| && items[i] == x;
      AlternateAt(n, i);
    }
    hide Alternate, AlternateItems, PayloadOf;
    forall i | 0 <= i < |segs|
      ensures PayloadOf(segs[i]) == Alternate(n)[i]
    {
      assert Answers(segs[i], items[i]);
      AlternateAt(n, i);
      AlternatePayload(segs[i], i % 2 == 0);
    }
  }

  lemma AlternatePayload(seg: Segment, even: bool)
    requires Answers(seg, if even then DataItem([0], Wanted(Byte)) else DataItem(['0' as int], Wanted(Numeric)))
    ensures PayloadOf(seg) == if even then D.Payload(Byte, [0]) else D.Payload(Numeric, ['0' as int])
  {
    OneByte();
  }

  lemma OneByte()
    ensures U.Encode([0]) == [0] && Units(['0' as int]) == ['0' as int]
  {
    assert U.Encode([0]) == U.UnitUtf8(0) + U.Encode([]);
  }

  /**
    For arrays, comparing a requested version with the smallest one that fits
    is not enough: wider count indicators let a larger version hold less.
    Forty-eight one-byte segments, each followed by a one-digit segment, fit
    version 9-L but not version 10-L, although 10 passes the check.
   */
  lemma VersionCheckTooWeak(segs: seq<Segment>)
    requires Collected(AlternateItems(48), segs)
    ensures forall x | x in AlternateItems(48) :: !Skipped(x) && !Refused(x.data, ItemHint(x))
    ensures D.Fits(Payloads(segs), 9, L) && !D.Fits(Payloads(segs), 10, L)
    ensures exists best | best < 10 :: D.Smallest(Payloads(segs), L, D.Version(best))
  {
    AlternateCollected(48, segs);
    AlternateFits();
    hide *;
    var best := LeastFit(Payloads(segs), L, 9);
    assert D.Smallest(Payloads(segs), L, D.Version(best)) && best < 10;
  }

  lemma AlternateFits()
    ensures D.Fits(Alternate(48), 9, L) && !D.Fits(Alternate(48), 10, L) && ValidVersion(10)
  {
    AlternateBits(48, 9);
    AlternateBits(48, 10);
    PairBits();
    NineAndTen();
    hide Alternate, D.TotalBits, D.DataBits, D.SegmentBits;
  }

  lemma PairBits()
    ensures D.SegmentBits(D.Payload(Byte, [0]), 9) == 20 && D.SegmentBits(D.Payload(Numeric, ['0' as int]), 9) == 18
    ensures D.SegmentBits(D.Payload(Byte, [0]), 10) == 28 && D.SegmentBits(D.Payload(Numeric, ['0' as int]), 10) == 20
  {}

  lemma NineAndTen()
    ensures D.DataBits(9, L) == 1856 && D.DataBits(10, L) == 2192
  {}

  lemma LeastFit(segs: seq<D.Payload>, level: Level, v: nat) returns (best: nat)
    requires D.Fits(segs, v, level)
    ensures best <= v && D.Smallest(segs, level, D.Version(best))
  {
    hide D.Fits;
    if u: nat :| u < v && D.Fits(segs, u, level) {
      best := LeastFit(segs, level, u);
    } else {
      best := v;
    }
  }

  // ---- the symbol ----

  datatype Symbol = Symbol(version: nat, level: Level, maskPattern: nat, segments: seq<Segment>)

  /**
    The finished picture, unmasked and read along the zig-zag, starts with all
    bits of codewords that spell the text, and goes on with zeros.
   */
  ghost predicate Shows(size: nat, cells: seq<bool>, reserved: seq<bool>, s: Symbol, data: Text)
    requires ValidSize(size) && IsGrid(size, cells) && IsGrid(size, reserved) && s.maskPattern < 8 && ValidVersion(s.version)
  {
    exists codewords ::
      && |codewords| == GetSymbolTotalCodewords(s.version)
      && |ReadSymbol(size, K.Masked(size, cells, reserved, s.maskPattern), reserved)| >= 8 * |codewords|
      && M.Carries(size, K.Masked(size, cells, reserved, s.maskPattern), reserved, codewords)
      && Spells(codewords, s.version, s.level, data)
  }

  ghost predicate ValidInfo(formats: seq<seq<bool>>, versionInfo: seq<seq<bool>>) {
    K.ValidFormats(formats) && |versionInfo| == 41 && forall v | 0 <= v < 41 :: |versionInfo[v]| == 18
  }

  /** The runs of a text, each written in its own mode. */
  function RawSplit(data: Text): (segs: seq<Segment>) {
    var runs := G.Runs(data, 0);
    seq(|runs|, i requires 0 <= i < |runs| => Segment(runs[i].mode, runs[i].data))
  }

  /** No run is refused by its own mode. */
  lemma RawSplitCollected(data: Text, items: seq<Item>)
    requires |items| == |G.Runs(data, 0)|
    requires forall i | 0 <= i < |items| :: items[i] == DataItem(G.Runs(data, 0)[i].data, Wanted(G.Runs(data, 0)[i].mode))
    ensures forall x | x in items :: !Skipped(x) && !Refused(x.data, ItemHint(x))
    ensures forall segs :: Collected(items, segs) ==> segs == RawSplit(data)
  {
    G.RunsEncodable(data, 0);
    forall i | 0 <= i < |items|
      ensures !Skipped(items[i]) && !Refused(items[i].data, ItemHint(items[i])) && items[i].hint.mode != Kanji
    {
      assert G.Runs(data, 0)[i] in G.Runs(data, 0);
    }
    forall segs | Collected(items, segs)
      ensures segs == RawSplit(data)
    {
      assert forall i | 0 <= i < |segs| :: Answers(segs[i], items[i]);
    }
  }

  /** The smallest version that holds the runs of the text, each in its own mode. */
  method EstimateVersion(data: Text, level: Level) returns (estimated: D.Choice)
    ensures D.Smallest(Payloads(RawSplit(data)), level, estimated)
    ensures estimated.Version? ==> ValidVersion(estimated.version)
  {
    var runs := G.GetSegmentsFromString(data);
    var items := seq(|runs|, i requires 0 <= i < |runs| => DataItem(runs[i].data, Wanted(runs[i].mode)));
    RawSplitCollected(data, items);
    var raw := FromArray(items);
    hide Collected, RawSplit, G.Runs, Refused, Skipped;
    estimated := D.GetBestVersionForData(Payloads(raw.value), level);
  }

  /**
    The version for which the modes are chosen: the requested one, else the
    smallest that holds the runs, else the largest of all.
   */
  ghost predicate Steers(data: Text, requested: D.Choice, level: Level, v: nat) {
    if requested.Version? then v == requested.version
    else exists estimated ::
           D.Smallest(Payloads(RawSplit(data)), level, estimated) && v == if estimated.Version? then estimated.version else 40
  }

  lemma SmallestIsValid(segs: seq<D.Payload>, level: Level, best: nat)
    requires D.Smallest(segs, level, D.Version(best))
    ensures ValidVersion(best) && D.Fits(segs, best, level)
  {}

  /**
    The text cut into segments without equal neighbours, whose modes come from
    a cheapest choice for version `v`.
   */
  ghost predicate Segmented(data: Text, segs: seq<Segment>, v: nat) {
    && SegmentsText(segs) == data && Alternating(segs) && NonEmpty(segs) && (forall s | s in segs :: Fits(s))
    && exists groups, c, chosen :: ChosenInto(data, groups, c, chosen, segs, v)
  }

  ghost predicate ChosenInto(data: Text, groups: R.Groups, c: seq<nat>, chosen: seq<Segment>, segs: seq<Segment>, v: nat) {
    T.ChosenFor(G.Runs(data, 0), groups, c, chosen, v) && Tagged(segs) == Tagged(chosen)
  }

  /** The requested version holds the segments, or some version does. */
  ghost predicate Holds(segs: seq<Segment>, requested: D.Choice, level: Level) {
    if requested.Version? then D.Fits(Payloads(segs), requested.version, level) else exists v :: D.Fits(Payloads(segs), v, level)
  }

  /** Segments that spell the text, in a version that holds them. */
  ghost predicate Prepared(data: Text, requested: D.Choice, level: Level, segs: seq<Segment>, version: nat) {
    && G.WellFormed(data) && SegmentsText(segs) == data && Spelled(Payloads(segs)) == data
    && D.AllWritable(Payloads(segs)) && D.Fits(Payloads(segs), version, level)
    && if requested.Version? then version == requested.version else D.Smallest(Payloads(segs), level, D.Version(version))
  }

  lemma CarriedPayloads(segs: seq<Segment>)
    requires NonEmpty(segs)
    ensures T.Carries(segs, Payloads(segs))
  {
    forall i | 0 <= i < |segs|
      ensures |PayloadOf(segs[i]).units| >= 1
    {
      U.EncodeSize(segs[i].data);
      SomeBytes(segs[i].data);
    }
  }

  lemma SomeBytes(s: Text)
    requires s != []
    ensures G.Utf8Length(s) >= 1
  {}

  /** The choice along a shortest path is a cheapest one. */
  lemma SegmentedByPath(data: Text, segs: seq<Segment>, v: nat, groups: R.Groups, g: P.Graph, path: seq<P.Node>, chosen: seq<Segment>)
    requires ValidVersion(v) && SegmentsText(segs) == data && Alternating(segs) && NonEmpty(segs) && (forall s | s in segs :: Fits(s))
    requires R.ValidGroups(G.Runs(data, 0), groups) && R.Layered(groups, g) && P.IsShortest(g, path, "start", "end")
    requires R.Weighted(groups, g, v, |groups|, 0) && R.EndIsFree(groups, g)
    requires ReadOff(groups, path, chosen) && Tagged(segs) == Tagged(chosen)
    ensures Segmented(data, segs, v)
  {
    GroupsAreSmall(G.Runs(data, 0), groups);
    T.RunsAreProper(data, 0);
    hide R.Layered, P.IsShortest, R.Weighted, R.EndIsFree, R.ValidGroups, ReadOff, Tagged, G.Runs, T.ProperRuns, SegmentsText;
    var c := C.ShortestIsCheapest(groups, g, path, v, chosen);
    hide C.Cheapest, C.Chosen;
    assert ChosenInto(data, groups, c, chosen, segs, v);
  }

  /** Segments chosen for a version that fit a smaller one fit that version as well. */
  lemma TextVersionsHold(data: Text, segs: seq<Segment>, level: Level, best: nat, version: nat)
    requires ValidVersion(version) && Segmented(data, segs, version) && D.Fits(Payloads(segs), best, level) && best <= version
    ensures D.Fits(Payloads(segs), version, level)
  {
    CarriedPayloads(segs);
    var groups, c, chosen :| ChosenInto(data, groups, c, chosen, segs, version);
    hide T.ChosenFor, T.Carries, D.Fits, Payloads, Tagged;
    T.ChosenIsEconomical(G.Runs(data, 0), groups, c, chosen, version, segs, Payloads(segs));
    V.LargerVersionFits(Payloads(segs), level, best, version);
  }

  lemma SegmentsSpell(data: Text, segs: seq<Segment>)
    requires G.WellFormed(data) && SegmentsText(segs) == data && Alternating(segs) && NonEmpty(segs)
    requires forall s | s in segs :: Fits(s)
    ensures Spelled(Payloads(segs)) == data && D.AllWritable(Payloads(segs))
  {
    AllPayloadsWritable(segs);
    BytesWellFormed(segs);
    SpelledText(segs);
  }

  /** The check against the smallest version that fits decides whether the segments fit. */
  lemma CheckIsExact(data: Text, requested: D.Choice, level: Level, segs: seq<Segment>, best: D.Choice)
    requires D.Smallest(Payloads(segs), level, best)
    requires requested.Version? ==> ValidVersion(requested.version) && Segmented(data, segs, requested.version)
    ensures Holds(segs, requested, level) <==> best.Version? && (requested.Version? ==> best.version <= requested.version)
  {
    hide Segmented, Payloads;
    if best.Version? {
      SmallestIsValid(Payloads(segs), level, best.version);
      if requested.Version? && best.version <= requested.version {
        TextVersionsHold(data, segs, level, best.version, requested.version);
      }
    }
    hide D.TotalBits, D.DataBits;
  }

  /**
    Chooses the segments of a text and the version that will hold them.  It
    fails exactly on a lone surrogate, and when the version, or all versions
    if none was requested, cannot hold the segments.
   */
  method Prepare(data: Text, requested: D.Choice, level: Level)
    returns (r: Result<seq<Segment>>, version: nat, ghost segs: seq<Segment>, ghost v: nat)
    requires requested.Version? ==> ValidVersion(requested.version)
    ensures G.WellFormed(data) ==> Segmented(data, segs, v) && Steers(data, requested, level, v)
    ensures r.Ok? <==> G.WellFormed(data) && Holds(segs, requested, level)
    ensures r.Ok? ==> r.value == segs && Prepared(data, requested, level, segs, version)
  {
    hide G.WellFormed, SegmentsText, Spelled, D.AllWritable, D.Smallest, D.Fits, Alternating, NonEmpty, Tagged, R.ValidGroups,
         R.Layered, R.Weighted, R.EndIsFree, P.IsShortest, ReadOff, Segmented, Holds, Payloads;
    version, segs := 0, [];
    var estimatedVersion := requested;
    if estimatedVersion.NoVersion? {
      estimatedVersion := EstimateVersion(data, level);
    }
    v := if estimatedVersion.Version? then estimatedVersion.version else 40;
    assert Steers(data, requested, level, v);
    hide Steers;
    ghost var groups, graph, path, chosen;
    r, groups, graph, path, chosen := FromString(data, if estimatedVersion.Version? then estimatedVersion.version else 40);
    if r.Err? {
      return;
    }
    segs := r.value;
    SegmentedByPath(data, segs, v, groups, graph, path, chosen);
    SegmentsSpell(data, segs);
    var bestVersion := D.GetBestVersionForData(Payloads(r.value), level);
    CheckIsExact(data, requested, level, segs, bestVersion);
    if bestVersion.NoVersion? {
      r := Err("The amount of data is too big to be stored in a QR Code");
      return;
    }
    SmallestIsValid(Payloads(r.value), level, bestVersion.version);
    version := bestVersion.version;
    if requested.Version? {
      version := requested.version;
      if version < bestVersion.version {
        r := Err("The chosen QR Code version cannot contain this amount of data.");
        return;
      }
      TextVersionsHold(data, segs, level, bestVersion.version, version);
    }
  }

  /**
    Builds the symbol of a text.  It fails exactly on a lone surrogate, and
    when the version, or all versions if none was requested, cannot hold the
    segments; otherwise the picture shows the text.
   */
  method CreateSymbol(gf: Tables, data: Text, requested: D.Choice, level: Level, choice: M.MaskChoice,
                      formats: seq<seq<bool>>, versionInfo: seq<seq<bool>>)
    returns (r: Result<Symbol>, modules: BitMatrix?, ghost segs: seq<Segment>, ghost v: nat)
    requires gf.Valid() && ValidInfo(formats, versionInfo)
    requires (requested.Version? ==> ValidVersion(requested.version)) && (choice.Fixed? ==> choice.pattern < 8)
    ensures G.WellFormed(data) ==> Segmented(data, segs, v) && Steers(data, requested, level, v)
    ensures r.Ok? <==> G.WellFormed(data) && Holds(segs, requested, level)
    ensures r.Ok? ==> r.value.segments == segs && Prepared(data, requested, level, segs, r.value.version)
    ensures r.Ok? ==> ValidVersion(r.value.version) && r.value.level == level && r.value.maskPattern < 8
    ensures r.Ok? ==> modules != null && modules.Valid() && modules.size == F.SymbolSize(r.value.version)
    ensures r.Ok? ==> M.Prepared(modules.size, modules.Cells(), modules.Reserved())
    ensures r.Ok? ==> M.Whole(r.value.version, modules.Cells(), modules.Reserved(),
                              formats[r.value.maskPattern], versionInfo[r.value.version])
    ensures r.Ok? ==> Shows(modules.size, modules.Cells(), modules.Reserved(), r.value, data)
  {
    hide G.WellFormed, SegmentsText, Spelled, D.AllWritable, M.Prepared, M.Whole, M.Carries, Spells, K.Masked, K.Trial, K.Best;
    hide Segmented, Steers, Holds, D.Smallest, D.TotalBits, D.DataBits;
    modules := null;
    var prepared, version;
    prepared, version, segs, v := Prepare(data, requested, level);
    if prepared.Err? {
      r := Err(prepared.error);
      return;
    }
    var dataBits := CreateData(gf, version, level, Payloads(prepared.value));
    var drawn, maskPattern, plain := M.CreateModules(version, dataBits, formats, versionInfo[version], choice);
    modules := drawn;
    r := Ok(Symbol(version, level, maskPattern, prepared.value));
  }
}
