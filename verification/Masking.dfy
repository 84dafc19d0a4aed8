/**
  Data masks: inverting the modules of the encoding region by a pattern, and
  choosing the pattern of least penalty (ISO/IEC 18004:2015, section 7.8).
 */
module Masking {
  import opened Matrix
  import opened Placement
  import opened FunctionPatterns
  import opened Penalties

  /** Whether pattern `p` inverts the module at (i, j). */
  function GetMaskAt(p: nat, i: nat, j: nat): bool
    requires p < 8
  {
    match p
    case 0 => (i + j) % 2 == 0
    case 1 => i % 2 == 0
    case 2 => j % 3 == 0
    case 3 => (i + j) % 3 == 0
    case 4 => (i / 2 + j / 3) % 2 == 0
    case 5 => (i * j) % 2 + (i * j) % 3 == 0
    case 6 => ((i * j) % 2 + (i * j) % 3) % 2 == 0
    case _ => ((i * j) % 3 + (i + j) % 2) % 2 == 0
  }

  // ---- the patterns as they look (Table 10 of ISO/IEC 18004:2015) ----

  /** After how many rows a pattern repeats. */
  function Period(p: nat): (rows: nat)
    requires p < 8
    ensures 0 < rows <= 6
  {
    if p < 2 then 2 else if p == 2 then 1 else if p == 3 then 3 else if p == 4 then 4 else 6
  }

  /** Of every six modules in row `k` of its tile, a pattern inverts those at these places. */
  function TileRow(p: nat, k: nat): set<nat>
    requires p < 8 && k < Period(p)
  {
    match p
    case 0 =>
      (match k
       case 0 => {0, 2, 4}
       case _ => {1, 3, 5})
    case 1 =>
      (match k
       case 0 => {0, 1, 2, 3, 4, 5}
       case _ => {})
    case 2 => {0, 3}
    case 3 =>
      (match k
       case 0 => {0, 3}
       case 1 => {2, 5}
       case _ => {1, 4})
    case 4 =>
      (match k
       case 0 => {0, 1, 2}
       case 1 => {0, 1, 2}
       case 2 => {3, 4, 5}
       case _ => {3, 4, 5})
    case 5 =>
      (match k
       case 0 => {0, 1, 2, 3, 4, 5}
       case 1 => {0}
       case 2 => {0, 3}
       case 3 => {0, 2, 4}
       case 4 => {0, 3}
       case _ => {0})
    case 6 =>
      (match k
       case 0 => {0, 1, 2, 3, 4, 5}
       case 1 => {0, 1, 2}
       case 2 => {0, 1, 3, 4}
       case 3 => {0, 2, 4}
       case 4 => {0, 2, 3, 5}
       case _ => {0, 4, 5})
    case _ =>
      (match k
       case 0 => {0, 2, 4}
       case 1 => {3, 4, 5}
       case 2 => {0, 4, 5}
       case 3 => {1, 3, 5}
       case 4 => {0, 1, 2}
       case _ => {1, 2, 3})
  }

  /** Pattern `p`, laid out in tiles from the top left corner, inverts the module in row `r` and column `c`. */
  predicate Inverts(p: nat, r: nat, c: nat)
    requires p < 8
  {
    c % 6 in TileRow(p, r % Period(p))
  }

  /** The formulas of the program draw these tiles. */
  lemma MaskIsTiled(p: nat, i: nat, j: nat)
    requires p < 8
    ensures GetMaskAt(p, i, j) == Inverts(p, i, j)
  {
    match p
    case 0 => SumTiles(i, j);
    case 1 =>
    case 2 =>
    case 3 => SumTiles(i, j);
    case 4 => BlockTiles(i, j);
    case _ => ProductTiles(p, i, j);
  }

  lemma SumTiles(i: nat, j: nat)
    ensures GetMaskAt(0, i, j) == Inverts(0, i, j) && GetMaskAt(3, i, j) == Inverts(3, i, j)
  {
    var b := j % 6;
    SumRemainders(i, j);
    assert b == 0 || b == 1 || b == 2 || b == 3 || b == 4 || b == 5;
  }

  lemma SumRemainders(i: nat, j: nat)
    ensures (i + j) % 2 == (i % 2 + j % 6) % 2 && (i + j) % 3 == (i % 3 + j % 6) % 3
  {
    ByTwo(i + j, i % 2 + j % 6, i / 2 + 3 * (j / 6));
    ByThree(i + j, i % 3 + j % 6, i / 3 + 2 * (j / 6));
  }

  lemma BlockTiles(i: nat, j: nat)
    ensures GetMaskAt(4, i, j) == Inverts(4, i, j)
  {
    PairsOfRows(i);
    ThreesOfColumns(j);
    ByTwo(i / 2 + j / 3, i % 4 / 2 + j % 6 / 3, i / 4 + j / 6);
    var k, b := i % 4, j % 6;
    assert Inverts(4, i, j) <==> b in TileRow(4, k);
    hide Inverts;
    assert GetMaskAt(4, i, j) == ((k / 2 + b / 3) % 2 == 0);
    hide GetMaskAt;
  }

  lemma PairsOfRows(i: nat)
    ensures i / 2 == 2 * (i / 4) + i % 4 / 2
  {}

  lemma ThreesOfColumns(j: nat)
    ensures j / 3 == 2 * (j / 6) + j % 6 / 3
  {}

  /** Patterns 5 to 7 depend on the remainders by six alone. */
  lemma ProductTiles(p: nat, i: nat, j: nat)
    requires 5 <= p < 8
    ensures GetMaskAt(p, i, j) == Inverts(p, i, j)
  {
    var a, b := i % 6, j % 6;
    ProductRemainders(i, j);
    ByTwo(i + j, a + b, 3 * (i / 6) + 3 * (j / 6));
    assert GetMaskAt(p, i, j) == GetMaskAt(p, a, b);
    hide GetMaskAt;
    SmallProducts(p, a, b);
  }

  lemma ProductRemainders(i: nat, j: nat)
    ensures (i * j) % 2 == (i % 6 * (j % 6)) % 2 && (i * j) % 3 == (i % 6 * (j % 6)) % 3
  {
    var x, a, y, b := i / 6, i % 6, j / 6, j % 6;
    Expand(x, a, y, b);
    BySix(i * j, a * b, 6 * (x * y) + x * b + a * y);
  }

  lemma Expand(x: nat, a: nat, y: nat, b: nat)
    ensures (6 * x + a) * (6 * y + b) == 6 * (6 * (x * y) + x * b + a * y) + a * b
  {}

  lemma BySix(n: nat, k: nat, q: nat)
    requires n == 6 * q + k
    ensures n % 2 == k % 2 && n % 3 == k % 3
  {
    ByTwo(n, k, 3 * q);
    ByThree(n, k, 2 * q);
  }

  lemma ByTwo(n: nat, k: nat, q: int)
    requires n == 2 * q + k
    ensures n % 2 == k % 2
  {}

  lemma ByThree(n: nat, k: nat, q: int)
    requires n == 3 * q + k
    ensures n % 3 == k % 3
  {}

  lemma SmallProducts(p: nat, a: nat, b: nat)
    requires 5 <= p < 8 && a < 6 && b < 6
    ensures GetMaskAt(p, a, b) == (b in TileRow(p, a))
  {
    match a
    case 0 => RowOfTile(p, 0, b);
    case 1 => RowOfTile(p, 1, b);
    case 2 => RowOfTile(p, 2, b);
    case 3 => RowOfTile(p, 3, b);
    case 4 => RowOfTile(p, 4, b);
    case _ => RowOfTile(p, 5, b);
  }

  lemma RowOfTile(p: nat, a: nat, b: nat)
    requires 5 <= p < 8 && a < 6 && b < 6
    ensures GetMaskAt(p, a, b) == (b in TileRow(p, a))
  {
    SmallRemainders(a, b);
    var x, y := (a * b) % 2, (a * b) % 3;
    if p == 5 {
      assert GetMaskAt(p, a, b) == (x + y == 0);
    } else if p == 6 {
      assert GetMaskAt(p, a, b) == ((x + y) % 2 == 0);
    } else {
      assert GetMaskAt(p, a, b) == ((y + (a + b) % 2) % 2 == 0);
    }
    hide GetMaskAt;
    ByRemainders(a, b, x, y);
  }

  lemma ByRemainders(a: nat, b: nat, x: nat, y: nat)
    requires a < 6 && b < 6 && x == if a % 2 == 1 && b % 2 == 1 then 1 else 0
    requires y == if a % 3 == 0 || b % 3 == 0 then 0 else if a % 3 == b % 3 then 1 else 2
    ensures b in TileRow(5, a) <==> x + y == 0
    ensures b in TileRow(6, a) <==> (x + y) % 2 == 0
    ensures b in TileRow(7, a) <==> (y + (a + b) % 2) % 2 == 0
  {
    match a
    case 0 => case 1 => case 2 => case 3 => case 4 => case _ =>
  }

  lemma SmallRemainders(a: nat, b: nat)
    requires a < 6 && b < 6
    ensures (a * b) % 2 == if a % 2 == 1 && b % 2 == 1 then 1 else 0
    ensures (a * b) % 3 == if a % 3 == 0 || b % 3 == 0 then 0 else if a % 3 == b % 3 then 1 else 2
  {
    match a
    case 0 => case 1 => case 2 => case 3 => case 4 => case _ =>
  }

  /** What the tiles mean, pattern by pattern. */
  lemma TilesShown(r: nat, c: nat)
    ensures Inverts(0, r, c) <==> r % 2 == c % 2
    ensures Inverts(1, r, c) <==> r % 2 == 0
    ensures Inverts(2, r, c) <==> exists k: nat :: c == 3 * k
    ensures Inverts(3, r, c) <==> exists k: nat :: r + c == 3 * k
    ensures Inverts(4, r, c) <==> (r % 4 < 2 <==> c % 6 < 3)
    ensures forall p | 0 <= p < 8 :: Inverts(p, 0, 0)
    ensures forall p | 0 <= p < 8 && p != 4 :: Inverts(p, r + 6, c) == Inverts(p, r, c) && Inverts(p, r, c + 6) == Inverts(p, r, c)
  {
    TilesOfSums(r, c);
    TilesRepeat(r, c);
    hide Inverts;
    if c % 3 == 0 {
      assert c == 3 * (c / 3);
    }
    if (r + c) % 3 == 0 {
      assert r + c == 3 * ((r + c) / 3);
    }
  }

  lemma TilesOfSums(r: nat, c: nat)
    ensures Inverts(0, r, c) <==> r % 2 == c % 2
    ensures Inverts(1, r, c) <==> r % 2 == 0
    ensures Inverts(2, r, c) <==> c % 3 == 0
    ensures Inverts(3, r, c) <==> (r + c) % 3 == 0
    ensures Inverts(4, r, c) <==> (r % 4 < 2 <==> c % 6 < 3)
  {
    SumTiles(r, c);
    ByTwo(r + c, r % 2 + c % 2, r / 2 + c / 2);
  }

  lemma TilesRepeat(r: nat, c: nat)
    ensures forall p | 0 <= p < 8 && p != 4 :: Inverts(p, r + 6, c) == Inverts(p, r, c) && Inverts(p, r, c + 6) == Inverts(p, r, c)
    ensures forall p | 0 <= p < 8 :: Inverts(p, 0, 0)
  {
    ByTwo(r + 6, r, 3);
    ByThree(r + 6, r, 2);
  }

  /** The picture with the unreserved modules inverted by a pattern. */
  ghost function Masked(size: nat, cells: seq<bool>, reserved: seq<bool>, p: nat): (r: seq<bool>)
    requires IsGrid(size, cells) && IsGrid(size, reserved) && p < 8
    ensures IsGrid(size, r)
  {
    Picture(size, (r: nat, c: nat) requires r < size && c < size =>
      At(size, cells, r, c) != (!At(size, reserved, r, c) && Inverts(p, r, c)))
  }

  lemma MaskedAt(size: nat, cells: seq<bool>, reserved: seq<bool>, p: nat)
    requires IsGrid(size, cells) && IsGrid(size, reserved) && p < 8
    ensures forall r: nat, c: nat | r < size && c < size ::
              At(size, Masked(size, cells, reserved, p), r, c)
              == (At(size, cells, r, c) != (!At(size, reserved, r, c) && Inverts(p, r, c)))
  {
    hide At, Inverts, Picture;
  }

  /** Masking twice changes nothing. */
  lemma MaskInvolution(size: nat, cells: seq<bool>, reserved: seq<bool>, p: nat)
    requires IsGrid(size, cells) && IsGrid(size, reserved) && p < 8
    ensures Masked(size, Masked(size, cells, reserved, p), reserved, p) == cells
  {
    MaskedAt(size, cells, reserved, p);
    MaskedAt(size, Masked(size, cells, reserved, p), reserved, p);
    hide At, Inverts, Masked;
    SamePicture(size, Masked(size, Masked(size, cells, reserved, p), reserved, p), cells);
  }

  /** Inverts exactly the unreserved modules that the pattern selects. */
  method ApplyMask(pattern: nat, data: BitMatrix)
    requires data.Valid() && pattern < 8
    modifies data.data
    ensures data.Cells() == Masked(data.size, old(data.Cells()), data.Reserved(), pattern)
    ensures data.Reserved() == old(data.Reserved())
  {
    hide At, GetMaskAt, Inverts, Masked, Put;
    var size := data.size;
    ghost var before, reserved := data.Cells(), data.Reserved();
    MaskedAt(size, before, reserved, pattern);
    ghost var goal := Masked(size, before, reserved, pattern);
    for col := 0 to size
      invariant data.Reserved() == reserved
      invariant forall r: nat, c: nat | r < size && c < size ::
                  At(size, data.Cells(), r, c) == if c < col then At(size, goal, r, c) else At(size, before, r, c)
    {
      for row := 0 to size
        invariant data.Reserved() == reserved
        invariant forall r: nat, c: nat | r < size && c < size ::
                    At(size, data.Cells(), r, c)
                    == if c < col || (c == col && r < row) then At(size, goal, r, c) else At(size, before, r, c)
      {
        if data.IsReserved(row, col) {
          continue;
        }
        ghost var cells := data.Cells();
        MaskIsTiled(pattern, row, col);
        data.Xor(row, col, GetMaskAt(pattern, row, col));
        PutChangesOne(size, cells, row, col, At(size, cells, row, col) != GetMaskAt(pattern, row, col));
      }
    }
    SamePicture(size, data.Cells(), goal);
  }

  // ---- format information as a picture ----

  ghost function WithFormat(size: nat, cells: seq<bool>, bits: seq<bool>): (r: seq<bool>)
    requires ValidSize(size) && IsGrid(size, cells) && |bits| == 15
    ensures IsGrid(size, r)
  {
    Picture(size, (r: nat, c: nat) requires r < size && c < size =>
      if FormatIndex(size, r, c) == -1 then At(size, cells, r, c)
      else FormatIndex(size, r, c) == 15 || bits[FormatIndex(size, r, c)])
  }

  lemma WithFormatAt(size: nat, cells: seq<bool>, bits: seq<bool>)
    requires ValidSize(size) && IsGrid(size, cells) && |bits| == 15
    ensures FormatWritten(size, cells, WithFormat(size, cells, bits), bits)
  {
    hide At, FormatIndex, Picture;
  }

  lemma FormatUnique(size: nat, before: seq<bool>, cells: seq<bool>, bits: seq<bool>)
    requires ValidSize(size) && |bits| == 15 && FormatWritten(size, before, cells, bits)
    ensures cells == WithFormat(size, before, bits)
  {
    WithFormatAt(size, before, bits);
    hide At, FormatIndex, WithFormat;
    SamePicture(size, cells, WithFormat(size, before, bits));
  }

  /** Format information always overwrites the same modules. */
  lemma FormatOverwrites(size: nat, cells: seq<bool>, bits: seq<bool>, bits': seq<bool>)
    requires ValidSize(size) && IsGrid(size, cells) && |bits| == 15 && |bits'| == 15
    ensures WithFormat(size, WithFormat(size, cells, bits), bits') == WithFormat(size, cells, bits')
  {
    WithFormatAt(size, cells, bits);
    WithFormatAt(size, cells, bits');
    WithFormatAt(size, WithFormat(size, cells, bits), bits');
    hide At, FormatIndex, WithFormat;
    SamePicture(size, WithFormat(size, WithFormat(size, cells, bits), bits'), WithFormat(size, cells, bits'));
  }

  ghost predicate FormatHeld(size: nat, reserved: seq<bool>)
    requires ValidSize(size)
  {
    && IsGrid(size, reserved)
    && forall r: nat, c: nat | r < size && c < size && FormatIndex(size, r, c) != -1 :: At(size, reserved, r, c)
  }

  /** Masking and writing format information into reserved modules commute. */
  lemma MaskThenFormat(size: nat, cells: seq<bool>, reserved: seq<bool>, bits: seq<bool>, p: nat)
    requires ValidSize(size) && IsGrid(size, cells) && FormatHeld(size, reserved) && |bits| == 15 && p < 8
    ensures WithFormat(size, Masked(size, cells, reserved, p), bits) == Masked(size, WithFormat(size, cells, bits), reserved, p)
  {
    MaskedAt(size, cells, reserved, p);
    MaskedAt(size, WithFormat(size, cells, bits), reserved, p);
    WithFormatAt(size, cells, bits);
    WithFormatAt(size, Masked(size, cells, reserved, p), bits);
    hide At, FormatIndex, WithFormat, Masked, GetMaskAt;
    SamePicture(size, WithFormat(size, Masked(size, cells, reserved, p), bits), Masked(size, WithFormat(size, cells, bits), reserved, p));
  }

  // ---- the best mask ----

  /** The finished symbol that pattern `p` gives. */
  ghost function Trial(size: nat, cells: seq<bool>, reserved: seq<bool>, formats: seq<seq<bool>>, p: nat): (r: seq<bool>)
    requires ValidSize(size) && IsGrid(size, cells) && IsGrid(size, reserved) && ValidFormats(formats) && p < 8
    ensures IsGrid(size, r)
  {
    Masked(size, WithFormat(size, cells, formats[p]), reserved, p)
  }

  /** The fifteen format bits for each pattern. */
  ghost predicate ValidFormats(formats: seq<seq<bool>>) {
    |formats| == 8 && forall p | 0 <= p < 8 :: |formats[p]| == 15
  }

  ghost function TrialPenalty(size: nat, cells: seq<bool>, reserved: seq<bool>, formats: seq<seq<bool>>, p: nat): int
    requires ValidSize(size) && IsGrid(size, cells) && IsGrid(size, reserved) && ValidFormats(formats) && p < 8
  {
    Penalty(size, Trial(size, cells, reserved, formats, p))
  }

  /** The lowest-numbered pattern of least penalty among the first `n`. */
  ghost predicate Best(size: nat, cells: seq<bool>, reserved: seq<bool>, formats: seq<seq<bool>>, best: nat, n: nat) {
    && ValidSize(size) && IsGrid(size, cells) && IsGrid(size, reserved) && ValidFormats(formats) && best < n <= 8
    && forall q: nat | q < n ::
         && TrialPenalty(size, cells, reserved, formats, best) <= TrialPenalty(size, cells, reserved, formats, q)
         && (q < best ==> TrialPenalty(size, cells, reserved, formats, best) < TrialPenalty(size, cells, reserved, formats, q))
  }

  datatype Limit = Infinity | Finite(value: int)

  /** Tries one pattern and undoes it. */
  method TryMask(data: BitMatrix, formats: seq<seq<bool>>, p: nat, ghost before: seq<bool>, ghost kept: seq<bool>) returns (penalty: int)
    requires data.Valid() && ValidSize(data.size) && ValidFormats(formats) && p < 8
    requires IsGrid(data.size, before) && IsGrid(data.size, kept)
    requires data.Cells() == if p == 0 then before else WithFormat(data.size, before, formats[p - 1])
    requires if p == 0 then data.Reserved() == kept else FormatReserved(data.size, kept, data.Reserved())
    modifies data.data, data.reservedBit
    ensures data.Cells() == WithFormat(data.size, before, formats[p])
    ensures FormatReserved(data.size, kept, data.Reserved())
    ensures p > 0 ==> data.Reserved() == old(data.Reserved())
    ensures penalty == TrialPenalty(data.size, before, data.Reserved(), formats, p)
  {
    hide At, WithFormat, Masked, Penalty, FormatIndex, GetMaskAt;
    var size := data.size;
    ghost var cells, reserved := data.Cells(), data.Reserved();
    SetupFormatInfo(data, formats[p]);
    FormatUnique(size, cells, data.Cells(), formats[p]);
    if p > 0 {
      FormatOverwrites(size, before, formats[p - 1], formats[p]);
      SamePicture(size, data.Reserved(), reserved);
    }
    ghost var plain := data.Cells();
    hide FormatWritten, FormatReserved;
    ApplyMask(p, data);
    penalty := GetPenalty(data);
    ApplyMask(p, data);
    MaskInvolution(size, plain, data.Reserved(), p);
  }

  /**
    The lowest-numbered pattern of least penalty.  Every module is as it was,
    but for the modules that hold the format information.
   */
  method GetBestMask(data: BitMatrix, formats: seq<seq<bool>>) returns (bestPattern: nat)
    requires data.Valid() && ValidSize(data.size) && ValidFormats(formats)
    modifies data.data, data.reservedBit
    ensures FormatReserved(data.size, old(data.Reserved()), data.Reserved())
    ensures data.Cells() == WithFormat(data.size, old(data.Cells()), formats[7])
    ensures bestPattern < 8 && Best(data.size, old(data.Cells()), data.Reserved(), formats, bestPattern, 8)
  {
    hide WithFormat, FormatReserved, TrialPenalty, FormatIndex;
    var numPatterns := 8;
    bestPattern := 0;
    var lowerPenalty := Infinity;
    ghost var before, kept := data.Cells(), data.Reserved();
    for p := 0 to numPatterns
      invariant data.Cells() == if p == 0 then before else WithFormat(data.size, before, formats[p - 1])
      invariant if p == 0 then data.Reserved() == kept else FormatReserved(data.size, kept, data.Reserved())
      invariant if p == 0 then lowerPenalty == Infinity && bestPattern == 0
                else Best(data.size, before, data.Reserved(), formats, bestPattern, p)
                     && lowerPenalty == Finite(TrialPenalty(data.size, before, data.Reserved(), formats, bestPattern))
    {
      var penalty := TryMask(data, formats, p, before, kept);
      if lowerPenalty == Infinity || penalty < lowerPenalty.value {
        lowerPenalty := Finite(penalty);
        bestPattern := p;
      }
    }
  }
}
