/**
  Cutting the data into blocks, protecting each, and interleaving the blocks
  (ISO/IEC 18004:2015, section 7.6), and undoing it.
 */
module Interleaving {
  import opened GaloisField
  import opened ReedSolomon

  type Block = seq<bv8>

  // ---- interleaving ----

  /** The first byte of every block that is not used up. */
  function Heads(blocks: seq<Block>): seq<bv8> {
    if blocks == [] then [] else (if blocks[0] == [] then [] else [blocks[0][0]]) + Heads(blocks[1..])
  }

  function Tail(block: Block): Block {
    if block == [] then [] else block[1..]
  }

  function Tails(blocks: seq<Block>): (t: seq<Block>)
    ensures |t| == |blocks|
  {
    if blocks == [] then [] else [Tail(blocks[0])] + Tails(blocks[1..])
  }

  function TotalSize(blocks: seq<Block>): nat {
    if blocks == [] then 0 else |blocks[0]| + TotalSize(blocks[1..])
  }

  lemma {:induction false} HeadsAndTails(blocks: seq<Block>)
    ensures TotalSize(blocks) == |Heads(blocks)| + TotalSize(Tails(blocks))
  {
    if blocks != [] {
      HeadsAndTails(blocks[1..]);
      assert Tails(blocks)[1..] == Tails(blocks[1..]);
    }
  }

  /** Byte after byte, all blocks in turn. */
  function Interleave(blocks: seq<Block>): seq<bv8>
    decreases TotalSize(blocks)
  {
    HeadsAndTails(blocks);
    if Heads(blocks) == [] then [] else Heads(blocks) + Interleave(Tails(blocks))
  }

  lemma {:induction false} NothingLeft(blocks: seq<Block>)
    ensures Heads(blocks) == [] <==> TotalSize(blocks) == 0
  {
    if blocks != [] {
      NothingLeft(blocks[1..]);
    }
  }

  lemma {:induction false} InterleaveSize(blocks: seq<Block>)
    ensures |Interleave(blocks)| == TotalSize(blocks)
    decreases TotalSize(blocks)
  {
    HeadsAndTails(blocks);
    NothingLeft(blocks);
    if Heads(blocks) != [] {
      InterleaveSize(Tails(blocks));
    }
  }

  // ---- undoing it ----

  function SizesOf(blocks: seq<Block>): (s: seq<nat>)
    ensures |s| == |blocks|
  {
    if blocks == [] then [] else [|blocks[0]|] + SizesOf(blocks[1..])
  }

  function Sum(sizes: seq<nat>): nat {
    if sizes == [] then 0 else sizes[0] + Sum(sizes[1..])
  }

  /** The number of blocks with bytes left. */
  function Open(sizes: seq<nat>): nat {
    if sizes == [] then 0 else (if sizes[0] > 0 then 1 else 0) + Open(sizes[1..])
  }

  function Less(sizes: seq<nat>): seq<nat> {
    if sizes == [] then [] else [if sizes[0] > 0 then sizes[0] - 1 else 0] + Less(sizes[1..])
  }

  lemma {:induction false} LessSum(sizes: seq<nat>)
    ensures Sum(sizes) == Open(sizes) + Sum(Less(sizes))
    ensures |Less(sizes)| == |sizes|
  {
    if sizes != [] {
      LessSum(sizes[1..]);
      assert Less(sizes)[1..] == Less(sizes[1..]);
    }
  }

  function Empties(n: nat): seq<Block> {
    if n == 0 then [] else [[]] + Empties(n - 1)
  }

  /** Gives every open block its next byte. */
  function Attach(heads: seq<bv8>, sizes: seq<nat>, tails: seq<Block>): seq<Block>
    requires |tails| == |sizes| && |heads| == Open(sizes)
  {
    if sizes == [] then []
    else if sizes[0] > 0 then [[heads[0]] + tails[0]] + Attach(heads[1..], sizes[1..], tails[1..])
    else [[]] + Attach(heads, sizes[1..], tails[1..])
  }

  lemma {:induction false} AttachSize(heads: seq<bv8>, sizes: seq<nat>, tails: seq<Block>)
    requires |tails| == |sizes| && |heads| == Open(sizes)
    ensures |Attach(heads, sizes, tails)| == |sizes|
  {
    if sizes == [] {
    } else if sizes[0] > 0 {
      AttachSize(heads[1..], sizes[1..], tails[1..]);
    } else {
      AttachSize(heads, sizes[1..], tails[1..]);
    }
  }

  /** The blocks of given sizes that were interleaved. */
  function Deinterleave(data: seq<bv8>, sizes: seq<nat>): (blocks: seq<Block>)
    requires |data| == Sum(sizes)
    ensures |blocks| == |sizes|
    decreases Sum(sizes)
  {
    var k := Open(sizes);
    LessSum(sizes);
    if k == 0 then
      EmptiesSize(|sizes|);
      Empties(|sizes|)
    else
      AttachSize(data[..k], sizes, Deinterleave(data[k..], Less(sizes)));
      Attach(data[..k], sizes, Deinterleave(data[k..], Less(sizes)))
  }

  lemma {:induction false} EmptiesSize(n: nat)
    ensures |Empties(n)| == n
  {
    if n > 0 {
      EmptiesSize(n - 1);
    }
  }

  lemma {:induction false} SizesLess(blocks: seq<Block>)
    ensures Open(SizesOf(blocks)) == |Heads(blocks)|
    ensures Less(SizesOf(blocks)) == SizesOf(Tails(blocks))
    ensures Sum(SizesOf(blocks)) == TotalSize(blocks)
  {
    if blocks != [] {
      SizesLess(blocks[1..]);
      var sizes := SizesOf(blocks);
      assert sizes[1..] == SizesOf(blocks[1..]);
      assert Tails(blocks)[1..] == Tails(blocks[1..]);
    }
  }

  lemma {:induction false} AttachHeads(blocks: seq<Block>)
    requires |Heads(blocks)| == Open(SizesOf(blocks))
    ensures Attach(Heads(blocks), SizesOf(blocks), Tails(blocks)) == blocks
  {
    if blocks != [] {
      SizesLess(blocks[1..]);
      AttachHeads(blocks[1..]);
      var sizes, tails, heads := SizesOf(blocks), Tails(blocks), Heads(blocks);
      assert sizes[1..] == SizesOf(blocks[1..]) && tails[1..] == Tails(blocks[1..]);
      if blocks[0] == [] {
        assert heads == Heads(blocks[1..]);
      } else {
        assert heads[1..] == Heads(blocks[1..]);
        assert [heads[0]] + tails[0] == blocks[0];
      }
      assert blocks == [blocks[0]] + blocks[1..];
    }
  }

  lemma {:induction false} AllEmpty(blocks: seq<Block>)
    requires Heads(blocks) == []
    ensures blocks == Empties(|blocks|)
  {
    if blocks != [] {
      AllEmpty(blocks[1..]);
      assert blocks == [blocks[0]] + blocks[1..];
    }
  }

  /** De-interleaving recovers the blocks, whatever their sizes. */
  lemma {:induction false} InterleaveRoundTrip(blocks: seq<Block>)
    ensures |Interleave(blocks)| == Sum(SizesOf(blocks))
    ensures Deinterleave(Interleave(blocks), SizesOf(blocks)) == blocks
    decreases TotalSize(blocks)
  {
    InterleaveSize(blocks);
    SizesLess(blocks);
    HeadsAndTails(blocks);
    if Heads(blocks) == [] {
      AllEmpty(blocks);
    } else {
      InterleaveRoundTrip(Tails(blocks));
      AttachHeads(blocks);
      var data, k := Interleave(blocks), |Heads(blocks)|;
      assert data[..k] == Heads(blocks) && data[k..] == Interleave(Tails(blocks));
    }
  }

  // ---- the loops ----

  lemma InterleaveStep(blocks: seq<Block>)
    ensures Interleave(blocks) == Heads(blocks) + Interleave(Tails(blocks))
  {
    HeadsAndTails(blocks);
    NothingLeft(blocks);
    NothingLeft(Tails(blocks));
  }

  /** What is left of the blocks after `i` rounds. */
  function Rest(blocks: seq<Block>, i: nat): (t: seq<Block>)
    ensures |t| == |blocks|
  {
    if i == 0 then blocks else Tails(Rest(blocks, i - 1))
  }

  lemma {:induction false} TailsAt(blocks: seq<Block>, r: nat)
    requires r < |blocks|
    ensures Tails(blocks)[r] == Tail(blocks[r])
  {
    if r > 0 {
      TailsAt(blocks[1..], r - 1);
    }
  }

  lemma {:induction false} RestAt(blocks: seq<Block>, i: nat, r: nat)
    requires r < |blocks|
    ensures Rest(blocks, i)[r] == if i <= |blocks[r]| then blocks[r][i..] else []
  {
    if i > 0 {
      RestAt(blocks, i - 1, r);
      TailsAt(Rest(blocks, i - 1), r);
    }
  }

  /** The bytes that a round takes from block `r` on. */
  lemma HeadsFrom(blocks: seq<Block>, i: nat, r: nat)
    requires r < |blocks|
    ensures Heads(Rest(blocks, i)[r..])
            == (if i < |blocks[r]| then [blocks[r][i]] else []) + Heads(Rest(blocks, i)[r + 1..])
  {
    RestAt(blocks, i, r);
    assert Rest(blocks, i)[r..][1..] == Rest(blocks, i)[r + 1..];
  }

  lemma {:induction false} AllUsed(blocks: seq<Block>)
    requires forall r | 0 <= r < |blocks| :: blocks[r] == []
    ensures Interleave(blocks) == []
  {
    AllUsedHeads(blocks);
    NothingLeft(blocks);
    HeadsAndTails(blocks);
  }

  lemma {:induction false} AllUsedHeads(blocks: seq<Block>)
    requires forall r | 0 <= r < |blocks| :: blocks[r] == []
    ensures Heads(blocks) == []
  {
    if blocks != [] {
      AllUsedHeads(blocks[1..]);
    }
  }

  /** The first `index` bytes are written; with the rest of this round and the later ones they make the goal. */
  ghost predicate Writing(data: seq<bv8>, index: nat, heads: seq<bv8>, later: seq<bv8>, goal: seq<bv8>) {
    index <= |data| && |goal| <= |data| && data[..index] + heads + later == goal
  }

  lemma WriteNext(data: seq<bv8>, index: nat, x: bv8, heads: seq<bv8>, later: seq<bv8>, goal: seq<bv8>)
    requires Writing(data, index, [x] + heads, later, goal)
    ensures index < |data| && Writing(data[index := x], index + 1, heads, later, goal)
  {
    assert |goal| == index + (1 + |heads|) + |later|;
    assert data[index := x][..index + 1] == data[..index] + [x];
    assert data[..index] + ([x] + heads) == data[..index] + [x] + heads;
  }

  lemma RoundStarts(data: seq<bv8>, index: nat, blocks: seq<Block>, i: nat, goal: seq<bv8>)
    requires Writing(data, index, [], Interleave(Rest(blocks, i)), goal)
    ensures Writing(data, index, Heads(Rest(blocks, i)[0..]), Interleave(Rest(blocks, i + 1)), goal)
  {
    InterleaveStep(Rest(blocks, i));
    assert Rest(blocks, i)[0..] == Rest(blocks, i);
    hide Interleave, Heads;
    assert data[..index] + [] == data[..index];
  }

  /** One round over all blocks that are long enough. */
  method WriteRound(data: array<bv8>, start: nat, blocks: seq<Block>, i: nat, ghost goal: seq<bv8>) returns (index: nat)
    requires Writing(data[..], start, [], Interleave(Rest(blocks, i)), goal)
    modifies data
    ensures Writing(data[..], index, [], Interleave(Rest(blocks, i + 1)), goal)
  {
    hide Interleave, Heads, Rest, Writing;
    index := start;
    ghost var later := Interleave(Rest(blocks, i + 1));
    RoundStarts(data[..], start, blocks, i, goal);
    for r := 0 to |blocks|
      invariant Writing(data[..], index, Heads(Rest(blocks, i)[r..]), later, goal)
    {
      HeadsFrom(blocks, i, r);
      if i < |blocks[r]| {
        WriteNext(data[..], index, blocks[r][i], Heads(Rest(blocks, i)[r + 1..]), later, goal);
        ghost var now := data[..][index := blocks[r][i]];
        data[index] := blocks[r][i];
        assert data[..] == now;
        index := index + 1;
      } else {
        assert [] + Heads(Rest(blocks, i)[r + 1..]) == Heads(Rest(blocks, i)[r + 1..]);
      }
    }
    NoHeads(Rest(blocks, i)[|blocks|..]);
  }

  lemma NoHeads(blocks: seq<Block>)
    requires blocks == []
    ensures Heads(blocks) == []
  {}

  /** One round over blocks that are all long enough. */
  method WriteFullRound(data: array<bv8>, start: nat, blocks: seq<Block>, i: nat, ghost goal: seq<bv8>) returns (index: nat)
    requires forall r | 0 <= r < |blocks| :: i < |blocks[r]|
    requires Writing(data[..], start, [], Interleave(Rest(blocks, i)), goal)
    modifies data
    ensures Writing(data[..], index, [], Interleave(Rest(blocks, i + 1)), goal)
  {
    hide Interleave, Heads, Rest, Writing;
    index := start;
    ghost var later := Interleave(Rest(blocks, i + 1));
    RoundStarts(data[..], start, blocks, i, goal);
    for r := 0 to |blocks|
      invariant Writing(data[..], index, Heads(Rest(blocks, i)[r..]), later, goal)
    {
      HeadsFrom(blocks, i, r);
      WriteNext(data[..], index, blocks[r][i], Heads(Rest(blocks, i)[r + 1..]), later, goal);
      ghost var now := data[..][index := blocks[r][i]];
      data[index] := blocks[r][i];
      assert data[..] == now;
      index := index + 1;
    }
    NoHeads(Rest(blocks, i)[|blocks|..]);
  }

  // ---- cutting ----

  /** The bytes of data per block: the blocks of the second group, at the end, are one byte longer. */
  function BlockSize(total: nat, ecTotal: nat, blocks: nat, b: nat): nat
    requires 0 < blocks && ecTotal <= total
  {
    (total - ecTotal) / blocks + if b < blocks - total % blocks then 0 else 1
  }

  /** The bytes before block `b`. */
  function BlockStart(total: nat, ecTotal: nat, blocks: nat, b: nat): nat
    requires 0 < blocks && ecTotal <= total
  {
    if b == 0 then 0 else BlockStart(total, ecTotal, blocks, b - 1) + BlockSize(total, ecTotal, blocks, b - 1)
  }

  lemma {:induction false} BlockStartIs(total: nat, ecTotal: nat, blocks: nat, b: nat)
    requires 0 < blocks && ecTotal <= total && b <= blocks
    ensures BlockStart(total, ecTotal, blocks, b)
            == b * ((total - ecTotal) / blocks) + if b <= blocks - total % blocks then 0 else b - (blocks - total % blocks)
  {
    var d := (total - ecTotal) / blocks;
    if b > 0 {
      BlockStartIs(total, ecTotal, blocks, b - 1);
      assert (b - 1) * d + d == b * d;
    } else {
      assert b * d == 0;
    }
  }

  /** When every block gets equally many error correction bytes, the blocks use up the data exactly. */
  lemma SizesAddUp(total: nat, ecTotal: nat, blocks: nat)
    requires 0 < blocks && ecTotal <= total && ecTotal % blocks == 0
    ensures BlockStart(total, ecTotal, blocks, blocks) == total - ecTotal
    ensures total / blocks - (total - ecTotal) / blocks == ecTotal / blocks
    ensures blocks * (ecTotal / blocks) == ecTotal
  {
    DataQuotient(total, ecTotal, blocks);
    BlockStartIs(total, ecTotal, blocks, blocks);
    hide BlockStart;
  }

  lemma DataQuotient(total: nat, ecTotal: nat, blocks: nat)
    requires 0 < blocks && ecTotal <= total && ecTotal % blocks == 0
    ensures (total - ecTotal) / blocks == total / blocks - ecTotal / blocks
    ensures blocks * ((total - ecTotal) / blocks) + total % blocks == total - ecTotal && blocks * (ecTotal / blocks) == ecTotal
  {
    var e, t, g := ecTotal / blocks, total / blocks, total % blocks;
    assert blocks * e == ecTotal && blocks * t + g == total;
    assert t >= e by {
      if t < e {
        AtLeastTimes(blocks, t + 1, e);
      }
    }
    assert total - ecTotal == blocks * (t - e) + g;
    QuotientIs(total - ecTotal, blocks, t - e, g);
  }

  lemma AtLeastTimes(n: nat, a: nat, b: nat)
    requires a <= b
    ensures n * a <= n * b
  {}

  lemma QuotientIs(n: nat, d: nat, q: nat, r: nat)
    requires d > 0 && n == d * q + r && r < d
    ensures n / d == q
  {
    var k := n / d - q;
    assert d * (n / d) + n % d == n;
    assert d * k == r - n % d;
    NoMultiple(d, k);
  }

  lemma NoMultiple(d: int, k: int)
    requires -d < d * k < d
    ensures k == 0
  {}

  lemma {:induction false} StartsRise(total: nat, ecTotal: nat, blocks: nat, a: nat, b: nat)
    requires 0 < blocks && ecTotal <= total && a <= b
    ensures BlockStart(total, ecTotal, blocks, a) <= BlockStart(total, ecTotal, blocks, b)
    decreases b
  {
    if a < b {
      StartsRise(total, ecTotal, blocks, a, b - 1);
    }
  }

  function Flatten(blocks: seq<Block>): seq<bv8> {
    if blocks == [] then [] else Flatten(blocks[..|blocks| - 1]) + blocks[|blocks| - 1]
  }

  /** The data cut into blocks, each with its error correction bytes. */
  ghost predicate Cut(buffer: seq<bv8>, total: nat, ecTotal: nat, blocks: nat, dc: seq<Block>, ec: seq<Block>, n: nat) {
    && 0 < blocks && ecTotal <= total && n <= blocks
    && |dc| == n && |ec| == n
    && BlockStart(total, ecTotal, blocks, n) <= |buffer|
    && Flatten(dc) == buffer[..BlockStart(total, ecTotal, blocks, n)]
    && (forall b | 0 <= b < n :: |dc[b]| == BlockSize(total, ecTotal, blocks, b))
    && (forall b | 0 <= b < n :: IsErrorCorrection(dc[b], ecTotal / blocks, ec[b]))
  }

  lemma CutNext(buffer: seq<bv8>, total: nat, ecTotal: nat, blocks: nat, dc: seq<Block>, ec: seq<Block>, n: nat, d: Block, e: Block)
    requires Cut(buffer, total, ecTotal, blocks, dc, ec, n) && n < blocks
    requires BlockStart(total, ecTotal, blocks, n + 1) <= |buffer|
    requires d == buffer[BlockStart(total, ecTotal, blocks, n)..BlockStart(total, ecTotal, blocks, n + 1)]
    requires IsErrorCorrection(d, ecTotal / blocks, e)
    ensures Cut(buffer, total, ecTotal, blocks, dc + [d], ec + [e], n + 1)
  {
    hide IsErrorCorrection, BlockSize;
    assert (dc + [d])[..n] == dc;
    assert buffer[..BlockStart(total, ecTotal, blocks, n + 1)] == buffer[..BlockStart(total, ecTotal, blocks, n)] + d;
  }

  /** Divides the buffer into blocks and encodes each. */
  method CutBlocks(gf: Tables, buffer: seq<bv8>, total: nat, ecTotal: nat, blocks: nat)
    returns (dcData: seq<Block>, ecData: seq<Block>, maxDataSize: nat)
    requires gf.Valid() && 0 < blocks && ecTotal <= total && ecTotal % blocks == 0 && 0 < ecTotal / blocks <= 255
    requires |buffer| >= total - ecTotal
    ensures Cut(buffer, total, ecTotal, blocks, dcData, ecData, blocks)
    ensures forall b | 0 <= b < blocks :: |dcData[b]| <= maxDataSize
  {
    hide IsErrorCorrection, Tables.Valid;
    SizesAddUp(total, ecTotal, blocks);
    var blocksInGroup2 := total % blocks;
    var blocksInGroup1 := blocks - blocksInGroup2;
    var totalCodewordsInGroup1 := total / blocks;
    var dataCodewordsInGroup1 := (total - ecTotal) / blocks;
    var dataCodewordsInGroup2 := dataCodewordsInGroup1 + 1;
    var ecCount := totalCodewordsInGroup1 - dataCodewordsInGroup1;
    var rs := new Encoder(gf, ecCount);
    var offset := 0;
    dcData, ecData, maxDataSize := [], [], 0;
    for b := 0 to blocks
      invariant rs.Valid() && rs.degree == ecCount && rs.initialized
      invariant offset == BlockStart(total, ecTotal, blocks, b)
      invariant Cut(buffer, total, ecTotal, blocks, dcData, ecData, b)
      invariant forall k | 0 <= k < b :: |dcData[k]| <= maxDataSize
    {
      var dataSize := if b < blocksInGroup1 then dataCodewordsInGroup1 else dataCodewordsInGroup2;
      StartsRise(total, ecTotal, blocks, b + 1, blocks);
      assert BlockStart(total, ecTotal, blocks, b + 1) == offset + dataSize;
      hide Cut, BlockStart, BlockSize;
      var block := buffer[offset..offset + dataSize];
      var ec := rs.Encode(block);
      CutNext(buffer, total, ecTotal, blocks, dcData, ecData, b, block, ec.value);
      dcData, ecData := dcData + [block], ecData + [ec.value];
      offset := offset + dataSize;
      maxDataSize := if maxDataSize < dataSize then dataSize else maxDataSize;
    }
  }

  // ---- all of it ----

  /** After as many rounds as the longest block has bytes, nothing is left. */
  lemma RoundsDone(blocks: seq<Block>, n: nat)
    requires forall r | 0 <= r < |blocks| :: |blocks[r]| <= n
    ensures Interleave(Rest(blocks, n)) == []
  {
    forall r | 0 <= r < |blocks|
      ensures Rest(blocks, n)[r] == []
    {
      RestAt(blocks, n, r);
    }
    AllUsed(Rest(blocks, n));
  }

  lemma {:induction false} FlattenSize(blocks: seq<Block>)
    ensures |Flatten(blocks)| == TotalSize(blocks)
  {
    if blocks != [] {
      var n := |blocks| - 1;
      FlattenSize(blocks[..n]);
      TotalSizeSnoc(blocks[..n], blocks[n]);
      assert blocks == blocks[..n] + [blocks[n]];
    }
  }

  lemma {:induction false} TotalSizeSnoc(blocks: seq<Block>, b: Block)
    ensures TotalSize(blocks + [b]) == TotalSize(blocks) + |b|
  {
    if blocks == [] {
      assert [b][1..] == [];
      assert [] + [b] == [b];
    } else {
      TotalSizeSnoc(blocks[1..], b);
      assert (blocks + [b])[1..] == blocks[1..] + [b];
    }
  }

  lemma {:induction false} EqualSizes(blocks: seq<Block>, n: nat)
    requires forall r | 0 <= r < |blocks| :: |blocks[r]| == n
    ensures TotalSize(blocks) == |blocks| * n
  {
    if blocks != [] {
      EqualSizes(blocks[1..], n);
      assert (|blocks| - 1) * n + n == |blocks| * n;
    }
  }

  /** The interleaved blocks make exactly the codewords of the symbol. */
  lemma SizesFit(buffer: seq<bv8>, total: nat, ecTotal: nat, blocks: nat, dc: seq<Block>, ec: seq<Block>)
    requires Cut(buffer, total, ecTotal, blocks, dc, ec, blocks) && ecTotal % blocks == 0
    ensures |Interleave(dc)| == total - ecTotal && |Interleave(ec)| == ecTotal
  {
    SizesAddUp(total, ecTotal, blocks);
    FlattenSize(dc);
    InterleaveSize(dc);
    InterleaveSize(ec);
    forall b | 0 <= b < blocks
      ensures |ec[b]| == ecTotal / blocks
    {
      assert IsErrorCorrection(dc[b], ecTotal / blocks, ec[b]);
    }
    EqualSizes(ec, ecTotal / blocks);
  }

  /**
    The codewords of a symbol: the interleaved data blocks, then their
    interleaved error correction bytes, exactly as many as the symbol holds.
   */
  method CreateCodewords(gf: Tables, buffer: seq<bv8>, totalCodewords: nat, ecTotalCodewords: nat, ecTotalBlocks: nat)
    returns (codewords: array<bv8>, ghost dc: seq<Block>, ghost ec: seq<Block>)
    requires gf.Valid() && 0 < ecTotalBlocks && ecTotalCodewords <= totalCodewords
    requires ecTotalCodewords % ecTotalBlocks == 0 && 0 < ecTotalCodewords / ecTotalBlocks <= 255
    requires |buffer| >= totalCodewords - ecTotalCodewords
    ensures fresh(codewords) && codewords.Length == totalCodewords
    ensures codewords[..] == Interleave(dc) + Interleave(ec)
    ensures Cut(buffer, totalCodewords, ecTotalCodewords, ecTotalBlocks, dc, ec, ecTotalBlocks)
  {
    hide Interleave, Writing, Rest;
    var dcData, ecData, maxDataSize := CutBlocks(gf, buffer, totalCodewords, ecTotalCodewords, ecTotalBlocks);
    dc, ec := dcData, ecData;
    SizesFit(buffer, totalCodewords, ecTotalCodewords, ecTotalBlocks, dc, ec);
    SizesAddUp(totalCodewords, ecTotalCodewords, ecTotalBlocks);
    var ecCount := totalCodewords / ecTotalBlocks - (totalCodewords - ecTotalCodewords) / ecTotalBlocks;
    ghost var goal := Interleave(dc) + Interleave(ec);
    forall r | 0 <= r < ecTotalBlocks
      ensures |ecData[r]| == ecCount
    {
      assert IsErrorCorrection(dcData[r], ecTotalCodewords / ecTotalBlocks, ecData[r]);
    }
    hide Cut;
    codewords := new bv8[totalCodewords](_ => 0);
    var index := 0;
    DataStarts(codewords[..], dc, goal, Interleave(ec));
    for i := 0 to maxDataSize
      invariant DataWriting(codewords[..], index, Interleave(Rest(dc, i)), Interleave(ec), goal)
    {
      index := WriteDataRound(codewords, index, dcData, i, Interleave(ec), goal);
    }
    RoundsDone(dc, maxDataSize);
    DataDone(codewords[..], index, ec, goal);
    for i := 0 to ecCount
      invariant Writing(codewords[..], index, [], Interleave(Rest(ec, i)), goal)
    {
      index := WriteFullRound(codewords, index, ecData, i, goal);
    }
    RoundsDone(ec, ecCount);
    AllWritten(codewords[..], index, goal);
  }

  /** Writing the data, with the error correction bytes still to come. */
  ghost predicate DataWriting(data: seq<bv8>, index: nat, later: seq<bv8>, last: seq<bv8>, goal: seq<bv8>) {
    |last| <= |goal| <= |data| && goal == goal[..|goal| - |last|] + last && Writing(data, index, [], later, goal[..|goal| - |last|])
  }

  method WriteDataRound(data: array<bv8>, start: nat, blocks: seq<Block>, i: nat, ghost last: seq<bv8>, ghost goal: seq<bv8>)
    returns (index: nat)
    requires DataWriting(data[..], start, Interleave(Rest(blocks, i)), last, goal)
    modifies data
    ensures DataWriting(data[..], index, Interleave(Rest(blocks, i + 1)), last, goal)
  {
    hide Interleave, Writing, Rest;
    index := WriteRound(data, start, blocks, i, goal[..|goal| - |last|]);
  }

  lemma DataStarts(data: seq<bv8>, dc: seq<Block>, goal: seq<bv8>, last: seq<bv8>)
    requires goal == Interleave(dc) + last && |goal| <= |data|
    ensures DataWriting(data, 0, Interleave(Rest(dc, 0)), last, goal)
  {
    assert goal[..|goal| - |last|] == Interleave(dc);
    assert data[..0] + [] + Interleave(dc) == Interleave(dc);
  }

  lemma DataDone(data: seq<bv8>, index: nat, ec: seq<Block>, goal: seq<bv8>)
    requires DataWriting(data, index, [], Interleave(ec), goal)
    ensures Writing(data, index, [], Interleave(Rest(ec, 0)), goal)
  {
    hide Interleave;
    assert Rest(ec, 0) == ec;
    assert data[..index] + [] + [] == data[..index];
    assert data[..index] + [] + Interleave(ec) == data[..index] + Interleave(ec);
  }

  lemma AllWritten(data: seq<bv8>, index: nat, goal: seq<bv8>)
    requires Writing(data, index, [], [], goal) && |goal| == |data|
    ensures data == goal && index == |data|
  {
    assert data[..index] + [] + [] == data[..index];
  }

  /** The sizes of the data blocks. */
  function BlockSizes(total: nat, ecTotal: nat, blocks: nat, n: nat): (s: seq<nat>)
    requires 0 < blocks && ecTotal <= total
    ensures |s| == n && forall b | 0 <= b < n :: s[b] == BlockSize(total, ecTotal, blocks, b)
  {
    seq(n, b requires 0 <= b < n => BlockSize(total, ecTotal, blocks, b))
  }

  lemma {:induction false} SizesOfAt(blocks: seq<Block>, sizes: seq<nat>)
    requires |sizes| == |blocks| && forall b | 0 <= b < |blocks| :: |blocks[b]| == sizes[b]
    ensures SizesOf(blocks) == sizes
  {
    if blocks != [] {
      SizesOfAt(blocks[1..], sizes[1..]);
    }
  }

  /** What a reader makes of the codewords: the data bytes in their first order. */
  ghost predicate Readable(codewords: seq<bv8>, total: nat, ecTotal: nat, blocks: nat, buffer: seq<bv8>)
    requires 0 < blocks && ecTotal <= total
  {
    var sizes := BlockSizes(total, ecTotal, blocks, blocks);
    |codewords| == total && Sum(sizes) == total - ecTotal && Flatten(Deinterleave(codewords[..total - ecTotal], sizes)) == buffer
  }

  /** De-interleaving the codewords of a symbol recovers every block, and so the data. */
  lemma CodewordsReadable(buffer: seq<bv8>, total: nat, ecTotal: nat, blocks: nat, dc: seq<Block>, ec: seq<Block>, codewords: seq<bv8>)
    requires Cut(buffer, total, ecTotal, blocks, dc, ec, blocks) && ecTotal % blocks == 0
    requires codewords == Interleave(dc) + Interleave(ec) && |buffer| >= total - ecTotal
    ensures Readable(codewords, total, ecTotal, blocks, buffer[..total - ecTotal])
  {
    SizesFit(buffer, total, ecTotal, blocks, dc, ec);
    SizesAddUp(total, ecTotal, blocks);
    SizesOfAt(dc, BlockSizes(total, ecTotal, blocks, blocks));
    InterleaveRoundTrip(dc);
    assert codewords[..total - ecTotal] == Interleave(dc);
  }

  /** The error correction blocks are recovered as well. */
  lemma CorrectionReadable(buffer: seq<bv8>, total: nat, ecTotal: nat, blocks: nat, dc: seq<Block>, ec: seq<Block>, codewords: seq<bv8>)
    requires Cut(buffer, total, ecTotal, blocks, dc, ec, blocks) && ecTotal % blocks == 0
    requires codewords == Interleave(dc) + Interleave(ec)
    ensures |codewords| == total && Sum(SizesOf(ec)) == ecTotal
    ensures Deinterleave(codewords[total - ecTotal..], SizesOf(ec)) == ec
  {
    SizesFit(buffer, total, ecTotal, blocks, dc, ec);
    InterleaveRoundTrip(ec);
    assert codewords[total - ecTotal..] == Interleave(ec);
  }

  // ---- the places of the codewords ----

  lemma {:induction false} HeadsBehind(blocks: seq<Block>, g: nat)
    requires g <= |blocks| && forall r | 0 <= r < |blocks| :: blocks[r] == [] <==> r < g
    ensures |Heads(blocks)| == |blocks| - g
    ensures forall r | g <= r < |blocks| :: Heads(blocks)[r - g] == blocks[r][0]
  {
    if blocks != [] {
      var rest, h := blocks[1..], if g == 0 then 0 else g - 1;
      HeadsBehind(rest, h);
      forall r | g <= r < |blocks|
        ensures Heads(blocks)[r - g] == blocks[r][0]
      {
        if r > 0 {
          assert Heads(rest)[r - 1 - h] == rest[r - 1][0];
        }
      }
    }
  }

  /** Byte `k` of a list, which it has. */
  ghost predicate ByteIs(s: seq<bv8>, k: int, x: bv8) {
    0 <= k < |s| && s[k] == x
  }

  /** The first bytes, then what is behind them. */
  lemma {:induction false} HeadsFirst(blocks: seq<Block>, k: nat, x: bv8)
    ensures k < |Heads(blocks)| ==> ByteIs(Interleave(blocks), k, Heads(blocks)[k])
    ensures ByteIs(Interleave(Tails(blocks)), k, x) ==> ByteIs(Interleave(blocks), k + |Heads(blocks)|, x)
  {
    hide Interleave, Heads, Tails;
    NothingLeft(blocks);
    HeadsAndTails(blocks);
    InterleaveSize(blocks);
    InterleaveSize(Tails(blocks));
    if Heads(blocks) != [] {
      InterleaveStep(blocks);
    }
  }

  /** Round by round, every block gives one byte; the blocks behind the first `g` have one byte more, which come last. */
  lemma {:induction false} InterleaveAt(blocks: seq<Block>, m: nat, g: nat, i: nat, r: nat)
    requires g <= |blocks| && forall b | 0 <= b < |blocks| :: |blocks[b]| == m + if b < g then 0 else 1
    requires r < |blocks| && i < |blocks[r]|
    ensures ByteIs(Interleave(blocks), if i < m then i * |blocks| + r else m * |blocks| + r - g, blocks[r][i])
    decreases m
  {
    hide Interleave, Heads, Tails;
    var n := |blocks|;
    HeadsBehind(blocks, if m == 0 then g else 0);
    if m == 0 {
      assert Heads(blocks)[r - g] == blocks[r][0];
      HeadsFirst(blocks, r - g, blocks[r][0]);
      assert m * n == 0;
    } else if i == 0 {
      assert Heads(blocks)[r - 0] == blocks[r][0];
      HeadsFirst(blocks, r, blocks[r][0]);
      assert i * n == 0;
    } else {
      TailsOf(blocks);
      InterleaveAt(Tails(blocks), m - 1, g, i - 1, r);
      HeadsFirst(blocks, if i < m then (i - 1) * n + r else (m - 1) * n + r - g, blocks[r][i]);
      OneRoundMore(n, i);
      OneRoundMore(n, m);
    }
  }

  lemma TailsOf(blocks: seq<Block>)
    requires forall b | 0 <= b < |blocks| :: blocks[b] != []
    ensures forall b | 0 <= b < |blocks| :: Tails(blocks)[b] == blocks[b][1..]
  {
    forall b | 0 <= b < |blocks|
      ensures Tails(blocks)[b] == blocks[b][1..]
    {
      TailsAt(blocks, b);
    }
  }

  lemma OneRoundMore(n: nat, i: nat)
    requires i > 0
    ensures i * n == (i - 1) * n + n
  {}

  lemma {:induction false} BlockAt(buffer: seq<bv8>, total: nat, ecTotal: nat, blocks: nat, dc: seq<Block>, r: nat, i: nat)
    requires 0 < blocks && ecTotal <= total && |dc| <= blocks && BlockStart(total, ecTotal, blocks, |dc|) <= |buffer|
    requires Flatten(dc) == buffer[..BlockStart(total, ecTotal, blocks, |dc|)]
    requires forall b | 0 <= b < |dc| :: |dc[b]| == BlockSize(total, ecTotal, blocks, b)
    requires r < |dc| && i < |dc[r]|
    ensures BlockStart(total, ecTotal, blocks, r) + i < |buffer| && dc[r][i] == buffer[BlockStart(total, ecTotal, blocks, r) + i]
    decreases |dc|
  {
    var n := |dc| - 1;
    var start := BlockStart(total, ecTotal, blocks, n);
    assert BlockStart(total, ecTotal, blocks, |dc|) == start + |dc[n]|;
    assert Flatten(dc) == Flatten(dc[..n]) + dc[n];
    hide BlockStart, BlockSize;
    FlattenLength(total, ecTotal, blocks, dc[..n]);
    assert Flatten(dc[..n]) == buffer[..start];
    if r < n {
      BlockAt(buffer, total, ecTotal, blocks, dc[..n], r, i);
    } else {
      assert dc[n][i] == Flatten(dc)[start + i];
    }
  }

  lemma {:induction false} FlattenLength(total: nat, ecTotal: nat, blocks: nat, dc: seq<Block>)
    requires 0 < blocks && ecTotal <= total
    requires forall b | 0 <= b < |dc| :: |dc[b]| == BlockSize(total, ecTotal, blocks, b)
    ensures |Flatten(dc)| == BlockStart(total, ecTotal, blocks, |dc|)
  {
    hide BlockSize;
    if dc != [] {
      FlattenLength(total, ecTotal, blocks, dc[..|dc| - 1]);
    }
  }

  /**
    Where every byte of data goes.  With `m` bytes in each short block,
    codeword `i * blocks + r` is byte `i` of block `r`, and block `r` begins
    behind `r` blocks of `m` bytes and the extra bytes of the long ones before
    it; the extra bytes come last.
   */
  lemma DataPlaces(buffer: seq<bv8>, total: nat, ecTotal: nat, blocks: nat, dc: seq<Block>, ec: seq<Block>,
                   codewords: seq<bv8>, i: nat, r: nat)
    requires Cut(buffer, total, ecTotal, blocks, dc, ec, blocks) && ecTotal % blocks == 0 && r < blocks
    requires codewords == Interleave(dc) + Interleave(ec)
    ensures var m, short := (total - ecTotal) / blocks, blocks - total % blocks;
            var start := r * m + if r <= short then 0 else r - short;
            && (i < m ==> SameByte(codewords, i * blocks + r, buffer, start + i))
            && (i == m && r >= short ==> SameByte(codewords, m * blocks + r - short, buffer, start + m))
  {
    var m, short := (total - ecTotal) / blocks, blocks - total % blocks;
    BlockStartIs(total, ecTotal, blocks, r);
    assert forall b | 0 <= b < |dc| :: |dc[b]| == m + if b < short then 0 else 1;
    var start := BlockStart(total, ecTotal, blocks, r);
    if i < |dc[r]| {
      BlockAt(buffer, total, ecTotal, blocks, dc, r, i);
      hide *;
      DataPlace(buffer, dc, m, short, codewords, Interleave(ec), start, i, r);
    }
  }

  /** The two lists have the same byte at these places. */
  ghost predicate SameByte(a: seq<bv8>, i: int, b: seq<bv8>, j: int) {
    0 <= i < |a| && 0 <= j < |b| && a[i] == b[j]
  }

  lemma DataPlace(buffer: seq<bv8>, dc: seq<Block>, m: nat, g: nat, codewords: seq<bv8>, behind: seq<bv8>, start: nat, i: nat, r: nat)
    requires g <= |dc| && forall b | 0 <= b < |dc| :: |dc[b]| == m + if b < g then 0 else 1
    requires r < |dc| && i < |dc[r]| && codewords == Interleave(dc) + behind
    requires start + i < |buffer| && dc[r][i] == buffer[start + i]
    ensures SameByte(codewords, if i < m then i * |dc| + r else m * |dc| + r - g, buffer, start + i)
  {
    InterleaveAt(dc, m, g, i, r);
    hide Interleave;
  }

  /** Behind the data, byte `i` of error correction block `r` is codeword `i * blocks + r`. */
  lemma CorrectionPlaces(buffer: seq<bv8>, total: nat, ecTotal: nat, blocks: nat, dc: seq<Block>, ec: seq<Block>,
                         codewords: seq<bv8>, i: nat, r: nat)
    requires Cut(buffer, total, ecTotal, blocks, dc, ec, blocks) && ecTotal % blocks == 0 && r < blocks && i < ecTotal / blocks
    requires codewords == Interleave(dc) + Interleave(ec)
    ensures i < |ec[r]| && ByteIs(codewords, total - ecTotal + i * blocks + r, ec[r][i])
  {
    SizesFit(buffer, total, ecTotal, blocks, dc, ec);
    forall b | 0 <= b < blocks
      ensures |ec[b]| == ecTotal / blocks
    {
      assert IsErrorCorrection(dc[b], ecTotal / blocks, ec[b]);
    }
    hide Interleave, Cut, IsErrorCorrection;
    InterleaveAt(ec, ecTotal / blocks, blocks, i, r);
  }
}
