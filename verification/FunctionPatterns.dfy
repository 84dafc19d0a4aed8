/**
  The function patterns of a symbol: finder, timing and alignment patterns,
  version and format information (ISO/IEC 18004:2015, sections 6.3, 7.9 and 7.10).
 */
module FunctionPatterns {
  import opened Matrix
  import opened Placement

  function Gap(a: int, b: int): nat {
    if a < b then b - a else a - b
  }

  // ---- square patterns ----

  /** A pattern of square rings around a centre, out to ring `radius`. */
  datatype Pattern = Pattern(row: int, col: int, radius: int)

  /** The number of the ring on which a module lies. */
  function Ring(p: Pattern, r: int, c: int): nat {
    if Gap(r, p.row) < Gap(c, p.col) then Gap(c, p.col) else Gap(r, p.row)
  }

  predicate Near(p: Pattern, r: int, c: int) {
    Ring(p, r, c) <= p.radius
  }

  /**
    A finder pattern has a dark core of two rings, a light, a dark and the light
    frame; an alignment pattern a dark centre, a light ring and a dark ring.
   */
  predicate Dark(p: Pattern, r: int, c: int) {
    if p.radius == 4 then Ring(p, r, c) != 2 && Ring(p, r, c) != 4 else Ring(p, r, c) != 1
  }

  /** Row-major progress of two nested loops over offsets from the centre. */
  predicate Passed(p: Pattern, r: int, c: int, dr: int, dc: int) {
    r - p.row < dr || (r - p.row == dr && c - p.col < dc)
  }

  /** The part of the pattern before offset (dr, dc) is drawn and reserved, the rest is as before. */
  ghost predicate Drawn(size: nat, before: seq<bool>, kept: seq<bool>, cells: seq<bool>, reserved: seq<bool>,
                        p: Pattern, dr: int, dc: int) {
    && IsGrid(size, before) && IsGrid(size, kept) && IsGrid(size, cells) && IsGrid(size, reserved)
    && (forall r: nat, c: nat | r < size && c < size ::
          At(size, cells, r, c) == if Near(p, r, c) && Passed(p, r, c, dr, dc) then Dark(p, r, c) else At(size, before, r, c))
    && (forall r: nat, c: nat | r < size && c < size ::
          At(size, reserved, r, c) == (At(size, kept, r, c) || (Near(p, r, c) && Passed(p, r, c, dr, dc))))
  }

  lemma PassedNext(p: Pattern, r: int, c: int, dr: int, dc: int)
    ensures Passed(p, r, c, dr, dc + 1) <==> Passed(p, r, c, dr, dc) || (r == p.row + dr && c == p.col + dc)
    ensures Near(p, r, c) ==> (Passed(p, r, c, dr, p.radius + 1) <==> Passed(p, r, c, dr + 1, -p.radius))
  {}

  lemma StartDrawing(size: nat, before: seq<bool>, kept: seq<bool>, p: Pattern)
    requires IsGrid(size, before) && IsGrid(size, kept)
    ensures Drawn(size, before, kept, before, kept, p, -p.radius, -p.radius)
  {
    hide At;
  }

  lemma DrawOne(size: nat, before: seq<bool>, kept: seq<bool>, cells: seq<bool>, reserved: seq<bool>, p: Pattern, dr: int, dc: int)
    requires Drawn(size, before, kept, cells, reserved, p, dr, dc)
    requires 0 <= p.row + dr < size && 0 <= p.col + dc < size && Near(p, p.row + dr, p.col + dc)
    ensures Drawn(size, before, kept, Put(size, cells, p.row + dr, p.col + dc, Dark(p, p.row + dr, p.col + dc)),
                  Put(size, reserved, p.row + dr, p.col + dc, true), p, dr, dc + 1)
  {
    hide At, Put, Near, Dark;
    PutChangesOne(size, cells, p.row + dr, p.col + dc, Dark(p, p.row + dr, p.col + dc));
    PutChangesOne(size, reserved, p.row + dr, p.col + dc, true);
    forall r: nat, c: nat | r < size && c < size
      ensures Passed(p, r, c, dr, dc + 1) <==> Passed(p, r, c, dr, dc) || (r == p.row + dr && c == p.col + dc)
    {
      PassedNext(p, r, c, dr, dc);
    }
    hide Passed;
  }

  /** Offsets outside the symbol need no drawing. */
  lemma SkipOne(size: nat, before: seq<bool>, kept: seq<bool>, cells: seq<bool>, reserved: seq<bool>, p: Pattern, dr: int, dc: int)
    requires Drawn(size, before, kept, cells, reserved, p, dr, dc)
    requires !(0 <= p.row + dr < size && 0 <= p.col + dc < size)
    ensures Drawn(size, before, kept, cells, reserved, p, dr, dc + 1)
  {
    hide At, Near, Dark;
    forall r: nat, c: nat | r < size && c < size
      ensures Passed(p, r, c, dr, dc + 1) <==> Passed(p, r, c, dr, dc)
    {
      PassedNext(p, r, c, dr, dc);
    }
    hide Passed;
  }

  lemma RowDone(size: nat, before: seq<bool>, kept: seq<bool>, cells: seq<bool>, reserved: seq<bool>, p: Pattern, dr: int)
    requires Drawn(size, before, kept, cells, reserved, p, dr, p.radius + 1)
    ensures Drawn(size, before, kept, cells, reserved, p, dr + 1, -p.radius)
  {
    hide At, Dark;
    forall r: nat, c: nat | r < size && c < size
      ensures Near(p, r, c) ==> (Passed(p, r, c, dr, p.radius + 1) <==> Passed(p, r, c, dr + 1, -p.radius))
    {
      PassedNext(p, r, c, dr, 0);
    }
    hide Near, Passed;
  }

  lemma SkipRow(size: nat, before: seq<bool>, kept: seq<bool>, cells: seq<bool>, reserved: seq<bool>, p: Pattern, dr: int)
    requires Drawn(size, before, kept, cells, reserved, p, dr, -p.radius)
    requires !(0 <= p.row + dr < size)
    ensures Drawn(size, before, kept, cells, reserved, p, dr + 1, -p.radius)
  {
    hide At, Dark;
    forall r: nat, c: nat | r < size && c < size
      ensures Near(p, r, c) ==> (Passed(p, r, c, dr, -p.radius) <==> Passed(p, r, c, dr + 1, -p.radius))
    {}
    hide Near, Passed;
  }

  lemma DrawingDone(size: nat, before: seq<bool>, kept: seq<bool>, cells: seq<bool>, reserved: seq<bool>, p: Pattern)
    requires Drawn(size, before, kept, cells, reserved, p, p.radius + 1, -p.radius)
    ensures Stamped(size, before, kept, cells, reserved, p)
  {
    hide At, Dark;
    forall r: nat, c: nat | r < size && c < size
      ensures Near(p, r, c) ==> Passed(p, r, c, p.radius + 1, -p.radius)
    {}
    hide Near, Passed;
  }

  /** The whole pattern is drawn and reserved, nothing else changed. */
  ghost predicate Stamped(size: nat, before: seq<bool>, kept: seq<bool>, cells: seq<bool>, reserved: seq<bool>, p: Pattern) {
    && IsGrid(size, before) && IsGrid(size, kept) && IsGrid(size, cells) && IsGrid(size, reserved)
    && (forall r: nat, c: nat | r < size && c < size ::
          At(size, cells, r, c) == if Near(p, r, c) then Dark(p, r, c) else At(size, before, r, c))
    && (forall r: nat, c: nat | r < size && c < size :: At(size, reserved, r, c) == (At(size, kept, r, c) || Near(p, r, c)))
  }

  // ---- finder patterns ----

  function Finder(row: int, col: int): Pattern {
    Pattern(row + 3, col + 3, 4)
  }

  predicate InFinder(size: nat, r: nat, c: nat) {
    Near(Finder(0, 0), r, c) || Near(Finder(size - 7, 0), r, c) || Near(Finder(0, size - 7), r, c)
  }

  predicate FinderModule(size: nat, r: nat, c: nat) {
    || (Near(Finder(0, 0), r, c) && Dark(Finder(0, 0), r, c))
    || (Near(Finder(size - 7, 0), r, c) && Dark(Finder(size - 7, 0), r, c))
    || (Near(Finder(0, size - 7), r, c) && Dark(Finder(0, size - 7), r, c))
  }

  lemma FinderShape(row: nat, col: nat, r: int, c: int)
    requires -1 <= r <= 7 && -1 <= c <= 7
    ensures Near(Finder(row, col), row + r, col + c)
    ensures Dark(Finder(row, col), row + r, col + c)
            <==> (0 <= r <= 6 && (c == 0 || c == 6)) || (0 <= c <= 6 && (r == 0 || r == 6)) || (2 <= r <= 4 && 2 <= c <= 4)
  {}

  method DrawFinder(matrix: BitMatrix, row: nat, col: nat)
    requires matrix.Valid() && row + 7 <= matrix.size && col + 7 <= matrix.size
    modifies matrix.data, matrix.reservedBit
    ensures Stamped(matrix.size, old(matrix.Cells()), old(matrix.Reserved()), matrix.Cells(), matrix.Reserved(), Finder(row, col))
  {
    hide At, Drawn, Stamped, Put;
    var size := matrix.size;
    ghost var before, kept := matrix.Cells(), matrix.Reserved();
    ghost var p := Finder(row, col);
    StartDrawing(size, before, kept, p);
    for r := -1 to 8
      invariant Drawn(size, before, kept, matrix.Cells(), matrix.Reserved(), p, r - 3, -4)
    {
      if row + r <= -1 || size <= row + r {
        SkipRow(size, before, kept, matrix.Cells(), matrix.Reserved(), p, r - 3);
        continue;
      }
      for c := -1 to 8
        invariant Drawn(size, before, kept, matrix.Cells(), matrix.Reserved(), p, r - 3, c - 3)
      {
        if col + c <= -1 || size <= col + c {
          SkipOne(size, before, kept, matrix.Cells(), matrix.Reserved(), p, r - 3, c - 3);
          continue;
        }
        FinderShape(row, col, r, c);
        hide Near, Dark, Ring;
        DrawOne(size, before, kept, matrix.Cells(), matrix.Reserved(), p, r - 3, c - 3);
        if || (0 <= r <= 6 && (c == 0 || c == 6))
           || (0 <= c <= 6 && (r == 0 || r == 6))
           || (2 <= r <= 4 && 2 <= c <= 4) {
          matrix.Set(row + r, col + c, true, true);
        } else {
          matrix.Set(row + r, col + c, false, true);
        }
      }
      RowDone(size, before, kept, matrix.Cells(), matrix.Reserved(), p, r - 3);
    }
    DrawingDone(size, before, kept, matrix.Cells(), matrix.Reserved(), p);
  }

  lemma FindersApart(size: nat, r: nat, c: nat)
    requires ValidSize(size)
    ensures !(Near(Finder(0, 0), r, c) && Near(Finder(size - 7, 0), r, c))
    ensures !(Near(Finder(0, 0), r, c) && Near(Finder(0, size - 7), r, c))
    ensures !(Near(Finder(size - 7, 0), r, c) && Near(Finder(0, size - 7), r, c))
  {}

  /** The three finder patterns and their frames are drawn and reserved, nothing else changes. */
  method SetupFinderPattern(matrix: BitMatrix)
    requires matrix.Valid() && ValidSize(matrix.size)
    modifies matrix.data, matrix.reservedBit
    ensures forall r: nat, c: nat | r < matrix.size && c < matrix.size ::
              At(matrix.size, matrix.Cells(), r, c)
              == if InFinder(matrix.size, r, c) then FinderModule(matrix.size, r, c) else old(At(matrix.size, matrix.Cells(), r, c))
    ensures forall r: nat, c: nat | r < matrix.size && c < matrix.size ::
              At(matrix.size, matrix.Reserved(), r, c) == (old(At(matrix.size, matrix.Reserved(), r, c)) || InFinder(matrix.size, r, c))
  {
    hide At, Stamped;
    var size := matrix.size;
    var pos := [(0, 0), (size - 7, 0), (0, size - 7)];
    ghost var c0, k0 := matrix.Cells(), matrix.Reserved();
    DrawFinder(matrix, pos[0].0, pos[0].1);
    ghost var c1, k1 := matrix.Cells(), matrix.Reserved();
    DrawFinder(matrix, pos[1].0, pos[1].1);
    ghost var c2, k2 := matrix.Cells(), matrix.Reserved();
    DrawFinder(matrix, pos[2].0, pos[2].1);
    ThreeFinders(size, c0, k0, c1, k1, c2, k2, matrix.Cells(), matrix.Reserved());
  }

  lemma ThreeFinders(size: nat, c0: seq<bool>, k0: seq<bool>, c1: seq<bool>, k1: seq<bool>, c2: seq<bool>, k2: seq<bool>,
                     c3: seq<bool>, k3: seq<bool>)
    requires ValidSize(size)
    requires Stamped(size, c0, k0, c1, k1, Finder(0, 0))
    requires Stamped(size, c1, k1, c2, k2, Finder(size - 7, 0))
    requires Stamped(size, c2, k2, c3, k3, Finder(0, size - 7))
    ensures forall r: nat, c: nat | r < size && c < size ::
              At(size, c3, r, c) == if InFinder(size, r, c) then FinderModule(size, r, c) else At(size, c0, r, c)
    ensures forall r: nat, c: nat | r < size && c < size :: At(size, k3, r, c) == (At(size, k0, r, c) || InFinder(size, r, c))
  {
    hide At, Dark;
    forall r: nat, c: nat | r < size && c < size
      ensures At(size, c3, r, c) == if InFinder(size, r, c) then FinderModule(size, r, c) else At(size, c0, r, c)
    {
      FindersApart(size, r, c);
      hide Near;
      assert At(size, c1, r, c) == if Near(Finder(0, 0), r, c) then Dark(Finder(0, 0), r, c) else At(size, c0, r, c);
    }
  }

  // ---- timing patterns ----

  predicate InTiming(size: nat, r: nat, c: nat) {
    (c == 6 && 8 <= r && r + 8 < size) || (r == 6 && 8 <= c && c + 8 < size)
  }

  /** Alternating modules, dark where the distance from the corner is even. */
  predicate TimingModule(r: nat, c: nat) {
    (r + c) % 2 == 0
  }

  lemma TimingNext(size: nat, k: nat)
    requires 8 <= k && k + 8 < size
    ensures TimingModule(k, 6) == TimingModule(6, k) == (k % 2 == 0)
    ensures forall r: nat, c: nat :: InTiming(size, r, c) && r < k + 1 && c < k + 1
              <==> (InTiming(size, r, c) && r < k && c < k) || (r == k && c == 6) || (r == 6 && c == k)
  {}

  method SetupTimingPattern(matrix: BitMatrix)
    requires matrix.Valid() && ValidSize(matrix.size)
    modifies matrix.data, matrix.reservedBit
    ensures forall r: nat, c: nat | r < matrix.size && c < matrix.size ::
              At(matrix.size, matrix.Cells(), r, c)
              == if InTiming(matrix.size, r, c) then TimingModule(r, c) else old(At(matrix.size, matrix.Cells(), r, c))
    ensures forall r: nat, c: nat | r < matrix.size && c < matrix.size ::
              At(matrix.size, matrix.Reserved(), r, c) == (old(At(matrix.size, matrix.Reserved(), r, c)) || InTiming(matrix.size, r, c))
  {
    hide At;
    var size := matrix.size;
    for k := 8 to size - 8
      invariant forall r: nat, c: nat | r < size && c < size ::
                  At(size, matrix.Cells(), r, c)
                  == if InTiming(size, r, c) && r < k && c < k then TimingModule(r, c) else old(At(size, matrix.Cells(), r, c))
      invariant forall r: nat, c: nat | r < size && c < size ::
                  At(size, matrix.Reserved(), r, c) == (old(At(size, matrix.Reserved(), r, c)) || (InTiming(size, r, c) && r < k && c < k))
    {
      var value := k % 2 == 0;
      TimingNext(size, k);
      hide InTiming, TimingModule, Put;
      ghost var cells, reserved := matrix.Cells(), matrix.Reserved();
      matrix.Set(k, 6, value, true);
      PutChangesOne(size, cells, k, 6, value);
      PutChangesOne(size, reserved, k, 6, true);
      cells, reserved := matrix.Cells(), matrix.Reserved();
      matrix.Set(6, k, value, true);
      PutChangesOne(size, cells, 6, k, value);
      PutChangesOne(size, reserved, 6, k, true);
    }
  }

  /** Finder and timing patterns together fill column 6. */
  lemma ColumnSixReserved(size: nat, r: nat)
    requires ValidSize(size) && r < size
    ensures InFinder(size, r, 6) || InTiming(size, r, 6)
  {}

  // ---- alignment patterns ----

  predicate AlignmentVersion(version: nat) {
    2 <= version <= 40
  }

  function SymbolSize(version: nat): (size: nat)
    requires 1 <= version <= 40
    ensures ValidSize(size)
  {
    version * 4 + 17
  }

  /** Where the coordinates of alignment centres lie (Annex E of ISO/IEC 18004:2015). */
  ghost predicate Coordinates(version: nat, coords: seq<int>)
    requires AlignmentVersion(version)
  {
    && |coords| == version / 7 + 2
    && coords[0] == 6 && coords[|coords| - 1] == SymbolSize(version) - 7
    && (forall i | 0 <= i < |coords| :: coords[i] % 2 == 0)
    && (forall i | 0 < i < |coords| :: 12 <= coords[i] - coords[i - 1] <= 28)
    && (forall i | 1 < i < |coords| :: coords[i] - coords[i - 1] == coords[|coords| - 1] - coords[|coords| - 2])
    && (|coords| > 2 ==> LeastSpacing(version, coords[|coords| - 1] - coords[|coords| - 2]))
  }

  /** The least even spacing that reaches from 6 to the last coordinate; version 32 alone is spaced wider. */
  predicate LeastSpacing(version: nat, d: int) {
    var span, gaps := version * 4 + 4, version / 7 + 1;
    if version == 32 then d == 26 else (d - 2) * gaps < span <= d * gaps
  }

  /** The spacing of alignment centres: an even number, rounded up. */
  function Intervals(version: nat): nat
    requires AlignmentVersion(version)
  {
    var size, halves := SymbolSize(version), 2 * (version / 7 + 2) - 2;
    if size == 145 then 26 else (size - 13 + halves - 1) / halves * 2
  }

  /** The spacing leaves room for the first interval. */
  lemma SpacingFits(version: nat)
    requires AlignmentVersion(version)
    ensures Intervals(version) % 2 == 0 && (version >= 7 ==> 12 <= Intervals(version) <= 28 && LeastSpacing(version, Intervals(version)))
    ensures 12 <= SymbolSize(version) - 13 - (version / 7) * Intervals(version) <= 28
  {
    if version < 21 {
      SpacingLow(version);
    } else {
      SpacingHigh(version);
    }
  }

  lemma SpacingLow(version: nat)
    requires 2 <= version < 21
    ensures Intervals(version) % 2 == 0 && (version >= 7 ==> 12 <= Intervals(version) <= 28 && LeastSpacing(version, Intervals(version)))
    ensures 12 <= SymbolSize(version) - 13 - (version / 7) * Intervals(version) <= 28
  {
    if version < 7 {
      assert (version / 7) * Intervals(version) == 0;
    } else if version < 14 {
      SpacingThree(version);
    } else {
      SpacingFour(version);
    }
  }

  lemma SpacingThree(version: nat)
    requires 7 <= version < 14
    ensures Intervals(version) % 2 == 0 && 12 <= Intervals(version) <= 28 && LeastSpacing(version, Intervals(version))
    ensures 12 <= SymbolSize(version) - 13 - (version / 7) * Intervals(version) <= 28
  {
    assert (version / 7) * Intervals(version) == Intervals(version);
  }

  lemma SpacingFour(version: nat)
    requires 14 <= version < 21
    ensures Intervals(version) % 2 == 0 && 12 <= Intervals(version) <= 28 && LeastSpacing(version, Intervals(version))
    ensures 12 <= SymbolSize(version) - 13 - (version / 7) * Intervals(version) <= 28
  {
    assert (version / 7) * Intervals(version) == 2 * Intervals(version);
  }

  lemma SpacingHigh(version: nat)
    requires 21 <= version <= 40
    ensures 12 <= Intervals(version) <= 28 && Intervals(version) % 2 == 0 && LeastSpacing(version, Intervals(version))
    ensures 12 <= SymbolSize(version) - 13 - (version / 7) * Intervals(version) <= 28
  {
    if version < 28 {
      assert (version / 7) * Intervals(version) == 3 * Intervals(version);
    } else if version < 35 {
      assert (version / 7) * Intervals(version) == 4 * Intervals(version);
    } else {
      assert (version / 7) * Intervals(version) == 5 * Intervals(version);
    }
  }

  /** Equally spaced coordinates, downwards from the last. */
  method Descend(size: nat, count: nat, intervals: nat) returns (positions: seq<int>)
    requires count >= 1
    ensures |positions| == count && positions[0] == size - 7 && positions[count - 1] == size - 7 - (count - 1) * intervals
    ensures forall k | 0 < k < count :: positions[k - 1] - positions[k] == intervals
  {
    positions := [size - 7];
    for i := 1 to count
      invariant |positions| == i && positions[0] == size - 7 && positions[i - 1] == size - 7 - (i - 1) * intervals
      invariant forall k | 0 < k < i :: positions[k - 1] - positions[k] == intervals
    {
      assert i * intervals == (i - 1) * intervals + intervals;
      positions := positions + [positions[i - 1] - intervals];
    }
  }

  method GetRowColCoords(version: nat) returns (coords: seq<int>)
    requires 1 <= version <= 40
    ensures if version == 1 then coords == [] else Coordinates(version, coords) && coords == AnnexE(version)
  {
    if version == 1 {
      return [];
    }
    var posCount := version / 7 + 2;
    var size := SymbolSize(version);
    var intervals := Intervals(version);
    SpacingFits(version);
    hide Intervals;
    var positions := Descend(size, posCount - 1, intervals);
    hide Coordinates;
    EvenPositions(positions, intervals);
    positions := positions + [6];
    coords := seq(posCount, i requires 0 <= i < posCount => positions[posCount - 1 - i]);
    Spaced(version, intervals, positions, coords);
    CoordinatesAreAnnexE(version, coords);
  }

  lemma EvenPositions(positions: seq<int>, intervals: nat)
    requires positions != [] && positions[0] % 2 == 0 && intervals % 2 == 0
    requires forall k | 0 < k < |positions| :: positions[k - 1] - positions[k] == intervals
    ensures forall k | 0 <= k < |positions| :: positions[k] % 2 == 0
  {
    for n := 1 to |positions|
      invariant forall k | 0 <= k < n :: positions[k] % 2 == 0
    {
      assert positions[n - 1] - positions[n] == intervals;
    }
  }

  lemma Spaced(version: nat, intervals: nat, positions: seq<int>, coords: seq<int>)
    requires AlignmentVersion(version)
    requires |positions| == version / 7 + 2 && |coords| == |positions|
    requires forall i | 0 <= i < |coords| :: coords[i] == positions[|coords| - 1 - i]
    requires positions[0] == SymbolSize(version) - 7 && positions[|positions| - 1] == 6
    requires forall k | 0 <= k < |positions| :: positions[k] % 2 == 0
    requires forall k | 0 < k < |positions| - 1 :: positions[k - 1] - positions[k] == intervals
    requires 12 <= positions[|positions| - 2] - 6 <= 28 && (version >= 7 ==> 12 <= intervals <= 28 && LeastSpacing(version, intervals))
    ensures Coordinates(version, coords)
  {
    var last := |coords| - 1;
    forall i | 0 < i < |coords|
      ensures 12 <= coords[i] - coords[i - 1] <= 28
      ensures i > 1 ==> coords[i] - coords[i - 1] == intervals
    {
      assert coords[i] == positions[last - i] && coords[i - 1] == positions[last - i + 1];
      if i > 1 {
        assert positions[last - i + 1 - 1] - positions[last - i + 1] == intervals;
      }
    }
  }

  /** Table E.1 of ISO/IEC 18004:2015. */
  function AnnexE(version: nat): seq<int>
    requires AlignmentVersion(version)
  {
    match version
    case 2 => [6, 18]
    case 3 => [6, 22]
    case 4 => [6, 26]
    case 5 => [6, 30]
    case 6 => [6, 34]
    case 7 => [6, 22, 38]
    case 8 => [6, 24, 42]
    case 9 => [6, 26, 46]
    case 10 => [6, 28, 50]
    case 11 => [6, 30, 54]
    case 12 => [6, 32, 58]
    case 13 => [6, 34, 62]
    case 14 => [6, 26, 46, 66]
    case 15 => [6, 26, 48, 70]
    case 16 => [6, 26, 50, 74]
    case 17 => [6, 30, 54, 78]
    case 18 => [6, 30, 56, 82]
    case 19 => [6, 30, 58, 86]
    case 20 => [6, 34, 62, 90]
    case 21 => [6, 28, 50, 72, 94]
    case 22 => [6, 26, 50, 74, 98]
    case 23 => [6, 30, 54, 78, 102]
    case 24 => [6, 28, 54, 80, 106]
    case 25 => [6, 32, 58, 84, 110]
    case 26 => [6, 30, 58, 86, 114]
    case 27 => [6, 34, 62, 90, 118]
    case 28 => [6, 26, 50, 74, 98, 122]
    case 29 => [6, 30, 54, 78, 102, 126]
    case 30 => [6, 26, 52, 78, 104, 130]
    case 31 => [6, 30, 56, 82, 108, 134]
    case 32 => [6, 34, 60, 86, 112, 138]
    case 33 => [6, 30, 58, 86, 114, 142]
    case 34 => [6, 34, 62, 90, 118, 146]
    case 35 => [6, 30, 54, 78, 102, 126, 150]
    case 36 => [6, 24, 50, 76, 102, 128, 154]
    case 37 => [6, 28, 54, 80, 106, 132, 158]
    case 38 => [6, 32, 58, 84, 110, 136, 162]
    case 39 => [6, 26, 54, 82, 110, 138, 166]
    case _ => [6, 30, 58, 86, 114, 142, 170]
  }

  lemma {:induction false} CoordinateIs(version: nat, coords: seq<int>, k: nat)
    requires AlignmentVersion(version) && Coordinates(version, coords) && k + 1 < |coords|
    ensures var n := |coords|;
            coords[n - 1 - k] == SymbolSize(version) - 7 - k * (coords[n - 1] - coords[n - 2])
  {
    if k > 0 {
      CoordinateIs(version, coords, k - 1);
      hide LeastSpacing;
      var n := |coords|;
      assert coords[n - k] - coords[n - k - 1] == coords[n - 1] - coords[n - 2];
      NextMultiple(k, coords[n - 1] - coords[n - 2]);
    }
  }

  lemma NextMultiple(k: nat, d: int)
    requires k > 0
    ensures k * d == (k - 1) * d + d
  {}

  /** What there is to know of coordinates, with the spacing as a number. */
  lemma SpacingOf(version: nat, coords: seq<int>) returns (d: int)
    requires AlignmentVersion(version) && Coordinates(version, coords)
    ensures |coords| == version / 7 + 2 && coords[0] == 6
    ensures forall i | 0 < i < |coords| :: coords[i] == version * 4 + 10 - (|coords| - 1 - i) * d
    ensures |coords| > 2 ==> d % 2 == 0 && LeastSpacing(version, d)
  {
    d := coords[|coords| - 1] - coords[|coords| - 2];
    hide LeastSpacing;
    forall i | 0 < i < |coords|
      ensures coords[i] == version * 4 + 10 - (|coords| - 1 - i) * d
    {
      CoordinateIs(version, coords, |coords| - 1 - i);
    }
  }

  lemma TwoCentres(version: nat, coords: seq<int>, d: int)
    requires 2 <= version <= 6 && |coords| == version / 7 + 2 && coords[0] == 6
    requires forall i | 0 < i < |coords| :: coords[i] == version * 4 + 10 - (|coords| - 1 - i) * d
    ensures coords == AnnexE(version)
  {
    var last := version * 4 + 10;
    assert |coords| == 2 && coords[1] == last;
  }

  lemma ThreeCentres(version: nat, coords: seq<int>, d: int)
    requires 7 <= version <= 13 && |coords| == version / 7 + 2 && coords[0] == 6
    requires forall i | 0 < i < |coords| :: coords[i] == version * 4 + 10 - (|coords| - 1 - i) * d
    requires d % 2 == 0 && LeastSpacing(version, d)
    ensures coords == AnnexE(version)
  {
    var last := version * 4 + 10;
    assert |coords| == 3 && coords[1] == last - d && coords[2] == last;
  }

  lemma FourCentres(version: nat, coords: seq<int>, d: int)
    requires 14 <= version <= 20 && |coords| == version / 7 + 2 && coords[0] == 6
    requires forall i | 0 < i < |coords| :: coords[i] == version * 4 + 10 - (|coords| - 1 - i) * d
    requires d % 2 == 0 && LeastSpacing(version, d)
    ensures coords == AnnexE(version)
  {
    var last := version * 4 + 10;
    assert |coords| == 4 && coords[1] == last - 2 * d && coords[2] == last - d && coords[3] == last;
  }

  lemma FiveCentres(version: nat, coords: seq<int>, d: int)
    requires 21 <= version <= 27 && |coords| == version / 7 + 2 && coords[0] == 6
    requires forall i | 0 < i < |coords| :: coords[i] == version * 4 + 10 - (|coords| - 1 - i) * d
    requires d % 2 == 0 && LeastSpacing(version, d)
    ensures coords == AnnexE(version)
  {
    var last := version * 4 + 10;
    assert |coords| == 5 && coords[1] == last - 3 * d && coords[2] == last - 2 * d && coords[3] == last - d && coords[4] == last;
  }

  lemma SixCentres(version: nat, coords: seq<int>, d: int)
    requires 28 <= version <= 34 && |coords| == version / 7 + 2 && coords[0] == 6
    requires forall i | 0 < i < |coords| :: coords[i] == version * 4 + 10 - (|coords| - 1 - i) * d
    requires d % 2 == 0 && LeastSpacing(version, d)
    ensures coords == AnnexE(version)
  {
    var last := version * 4 + 10;
    assert |coords| == 6 && coords[1] == last - 4 * d && coords[2] == last - 3 * d && coords[3] == last - 2 * d;
    assert coords[4] == last - d && coords[5] == last;
  }

  lemma SevenCentres(version: nat, coords: seq<int>, d: int)
    requires 35 <= version <= 40 && |coords| == version / 7 + 2 && coords[0] == 6
    requires forall i | 0 < i < |coords| :: coords[i] == version * 4 + 10 - (|coords| - 1 - i) * d
    requires d % 2 == 0 && LeastSpacing(version, d)
    ensures coords == AnnexE(version)
  {
    var last := version * 4 + 10;
    assert |coords| == 7 && coords[1] == last - 5 * d && coords[2] == last - 4 * d && coords[3] == last - 3 * d;
    assert coords[4] == last - 2 * d && coords[5] == last - d && coords[6] == last;
  }

  /** The coordinates are the row of the table. */
  lemma CoordinatesAreAnnexE(version: nat, coords: seq<int>)
    requires AlignmentVersion(version) && Coordinates(version, coords)
    ensures coords == AnnexE(version)
  {
    var d := SpacingOf(version, coords);
    hide Coordinates, AnnexE, LeastSpacing;
    if version < 7 {
      TwoCentres(version, coords, d);
    } else if version < 14 {
      ThreeCentres(version, coords, d);
    } else if version < 21 {
      FourCentres(version, coords, d);
    } else if version < 28 {
      FiveCentres(version, coords, d);
    } else if version < 35 {
      SixCentres(version, coords, d);
    } else {
      SevenCentres(version, coords, d);
    }
  }

  /** The coordinates rise from 6, in even steps that keep the others at a distance. */
  lemma {:induction false} CoordinateBounds(version: nat, coords: seq<int>, i: nat)
    requires AlignmentVersion(version) && Coordinates(version, coords) && i < |coords|
    ensures if i == 0 then coords[i] == 6 else coords[i] >= 18
    ensures if i == |coords| - 1 then coords[i] == SymbolSize(version) - 7 else coords[i] <= SymbolSize(version) - 19
  {
    Rising(version, coords, 0, i);
    Rising(version, coords, i, |coords| - 1);
  }

  lemma {:induction false} Rising(version: nat, coords: seq<int>, i: nat, j: nat)
    requires AlignmentVersion(version) && Coordinates(version, coords) && i <= j < |coords|
    ensures i < j ==> coords[i] + 12 <= coords[j]
    decreases j
  {
    if i < j - 1 {
      Rising(version, coords, i, j - 1);
    }
  }

  /** Two coordinates, but not those of a corner taken by a finder pattern. */
  predicate IsCentre(coords: seq<int>, i: int, j: int, m: (int, int)) {
    var last := |coords| - 1;
    && 0 <= i <= last && 0 <= j <= last
    && !(i == 0 && j == 0) && !(i == 0 && j == last) && !(i == last && j == 0)
    && m == (coords[i], coords[j])
  }

  ghost predicate AlignmentCentre(coords: seq<int>, m: (int, int)) {
    exists i, j :: IsCentre(coords, i, j, m)
  }

  /** Centres lie at even coordinates, well inside the symbol and away from its corners. */
  lemma CentreBounds(version: nat, coords: seq<int>, m: (int, int))
    requires AlignmentVersion(version) && Coordinates(version, coords) && AlignmentCentre(coords, m)
    ensures m.0 % 2 == 0 && m.1 % 2 == 0
    ensures m.0 == 6 || 18 <= m.0 <= SymbolSize(version) - 7
    ensures m.1 == 6 || 18 <= m.1 <= SymbolSize(version) - 7
    ensures m.0 == 6 ==> 18 <= m.1 <= SymbolSize(version) - 19
    ensures m.1 == 6 ==> 18 <= m.0 <= SymbolSize(version) - 19
  {
    var i, j :| IsCentre(coords, i, j, m);
    CoordinateBounds(version, coords, i);
    CoordinateBounds(version, coords, j);
  }

  /** All pairs of coordinates but the three corners taken by finder patterns. */
  method GetPositions(version: nat) returns (positions: seq<(int, int)>, ghost coords: seq<int>)
    requires 1 <= version <= 40
    ensures version == 1 ==> positions == []
    ensures version > 1 ==> Coordinates(version, coords)
    ensures version > 1 ==> forall m :: m in positions <==> AlignmentCentre(coords, m)
  {
    var pos := GetRowColCoords(version);
    hide Coordinates;
    var posLength := |pos|;
    coords := pos;
    positions := [];
    for i := 0 to posLength
      invariant i == 0 ==> positions == []
      invariant forall m :: m in positions <==> Before(pos, i, 0, m)
    {
      for j := 0 to posLength
        invariant forall m :: m in positions <==> Before(pos, i, j, m)
      {
        hide Before;
        ghost var was := positions;
        if !((i == 0 && j == 0) || (i == 0 && j == posLength - 1) || (i == posLength - 1 && j == 0)) {
          positions := positions + [(pos[i], pos[j])];
        }
        forall m
          ensures m in positions <==> Before(pos, i, j + 1, m)
        {
          BeforeNext(pos, i, j, m);
          assert m in positions <==> m in was || IsCentre(pos, i, j, m);
        }
      }
    }
  }

  /** A centre from the first `i` rows of pairs, or the first `j` pairs of the next. */
  ghost predicate Before(coords: seq<int>, i: int, j: int, m: (int, int)) {
    exists a, b | a < i || (a == i && b < j) :: IsCentre(coords, a, b, m)
  }

  lemma BeforeNext(coords: seq<int>, i: nat, j: nat, m: (int, int))
    requires i < |coords| && j < |coords|
    ensures Before(coords, i, j + 1, m) <==> Before(coords, i, j, m) || IsCentre(coords, i, j, m)
  {
    hide IsCentre;
  }

  function Alignment(m: (int, int)): Pattern {
    Pattern(m.0, m.1, 2)
  }

  /** Alignment patterns lie inside the symbol and stay clear of the finder patterns and the format information. */
  lemma AlignmentApart(version: nat, coords: seq<int>, m: (int, int), r: nat, c: nat)
    requires AlignmentVersion(version) && Coordinates(version, coords) && AlignmentCentre(coords, m)
    requires Near(Alignment(m), r, c)
    ensures r < SymbolSize(version) && c < SymbolSize(version)
    ensures !InFinder(SymbolSize(version), r, c) && FormatIndex(SymbolSize(version), r, c) == -1
  {
    CentreBounds(version, coords, m);
    NearBounds(Alignment(m), r, c);
    FinderBounds(SymbolSize(version), r, c);
    hide Coordinates, AlignmentCentre, Near, InFinder;
  }

  lemma NearBounds(p: Pattern, r: int, c: int)
    ensures Near(p, r, c) <==> p.row - p.radius <= r <= p.row + p.radius && p.col - p.radius <= c <= p.col + p.radius
  {}

  lemma FinderBounds(size: nat, r: nat, c: nat)
    ensures InFinder(size, r, c) ==> (r <= 7 || r + 8 >= size) && (c <= 7 || c + 8 >= size) && (r <= 7 || c <= 7)
  {
    NearBounds(Finder(0, 0), r, c);
    NearBounds(Finder(size - 7, 0), r, c);
    NearBounds(Finder(0, size - 7), r, c);
    hide Near;
  }

  /** Where an alignment pattern lies on a timing pattern, they agree. */
  lemma AlignmentOnTiming(version: nat, coords: seq<int>, m: (int, int), r: nat, c: nat)
    requires AlignmentVersion(version) && Coordinates(version, coords) && AlignmentCentre(coords, m)
    requires Near(Alignment(m), r, c) && InTiming(SymbolSize(version), r, c)
    ensures Dark(Alignment(m), r, c) == TimingModule(r, c)
  {
    CentreBounds(version, coords, m);
    hide Coordinates, AlignmentCentre, SymbolSize;
    var p := Alignment(m);
    if r == 6 {
      assert m.0 == 6 && Ring(p, r, c) == Gap(c, m.1);
      EvenCentre(c, m.1);
    } else {
      assert m.1 == 6 && Ring(p, r, c) == Gap(r, m.0);
      EvenCentre(r, m.0);
    }
  }

  lemma EvenCentre(k: int, centre: int)
    requires centre % 2 == 0 && Gap(k, centre) <= 2
    ensures Gap(k, centre) != 1 <==> (k + 6) % 2 == 0
  {}

  lemma AlignmentShape(row: nat, col: nat, r: int, c: int)
    requires -2 <= r <= 2 && -2 <= c <= 2
    ensures Near(Alignment((row, col)), row + r, col + c)
    ensures Dark(Alignment((row, col)), row + r, col + c) <==> r == -2 || r == 2 || c == -2 || c == 2 || (r == 0 && c == 0)
  {}

  method DrawAlignment(matrix: BitMatrix, row: nat, col: nat)
    requires matrix.Valid() && 2 <= row && row + 2 < matrix.size && 2 <= col && col + 2 < matrix.size
    modifies matrix.data, matrix.reservedBit
    ensures Stamped(matrix.size, old(matrix.Cells()), old(matrix.Reserved()), matrix.Cells(), matrix.Reserved(), Alignment((row, col)))
  {
    hide At, Drawn, Stamped, Put;
    var size := matrix.size;
    ghost var before, kept := matrix.Cells(), matrix.Reserved();
    ghost var p := Alignment((row, col));
    StartDrawing(size, before, kept, p);
    for r := -2 to 3
      invariant Drawn(size, before, kept, matrix.Cells(), matrix.Reserved(), p, r, -2)
    {
      for c := -2 to 3
        invariant Drawn(size, before, kept, matrix.Cells(), matrix.Reserved(), p, r, c)
      {
        AlignmentShape(row, col, r, c);
        hide Near, Dark, Ring;
        DrawOne(size, before, kept, matrix.Cells(), matrix.Reserved(), p, r, c);
        if r == -2 || r == 2 || c == -2 || c == 2 || (r == 0 && c == 0) {
          matrix.Set(row + r, col + c, true, true);
        } else {
          matrix.Set(row + r, col + c, false, true);
        }
      }
      RowDone(size, before, kept, matrix.Cells(), matrix.Reserved(), p, r);
    }
    DrawingDone(size, before, kept, matrix.Cells(), matrix.Reserved(), p);
  }

  /** A module of one of the first `n` alignment patterns. */
  ghost predicate Covered(positions: seq<(int, int)>, n: nat, r: nat, c: nat) {
    exists k | 0 <= k < n && k < |positions| :: Near(Alignment(positions[k]), r, c)
  }

  /** The first `n` alignment patterns are drawn and reserved, everything else is as before. */
  ghost predicate AlignmentsDrawn(size: nat, positions: seq<(int, int)>, n: nat, before: seq<bool>, kept: seq<bool>,
                                  cells: seq<bool>, reserved: seq<bool>) {
    && n <= |positions|
    && IsGrid(size, before) && IsGrid(size, kept) && IsGrid(size, cells) && IsGrid(size, reserved)
    && (forall k, r: nat, c: nat | 0 <= k < n && r < size && c < size && Near(Alignment(positions[k]), r, c) ::
          At(size, cells, r, c) == Dark(Alignment(positions[k]), r, c))
    && (forall r: nat, c: nat | r < size && c < size && !Covered(positions, n, r, c) ::
          At(size, cells, r, c) == At(size, before, r, c))
    && (forall r: nat, c: nat | r < size && c < size ::
          At(size, reserved, r, c) == (At(size, kept, r, c) || Covered(positions, n, r, c)))
  }

  /** No module belongs to two alignment patterns. */
  lemma CentresApart(version: nat, coords: seq<int>, m: (int, int), m': (int, int), r: nat, c: nat)
    requires AlignmentVersion(version) && Coordinates(version, coords)
    requires AlignmentCentre(coords, m) && AlignmentCentre(coords, m')
    requires Near(Alignment(m), r, c) && Near(Alignment(m'), r, c)
    ensures m == m'
  {
    var i, j :| IsCentre(coords, i, j, m);
    var i', j' :| IsCentre(coords, i', j', m');
    NearBounds(Alignment(m), r, c);
    NearBounds(Alignment(m'), r, c);
    hide Near;
    if i <= i' {
      Rising(version, coords, i, i');
    } else {
      Rising(version, coords, i', i);
    }
    if j <= j' {
      Rising(version, coords, j, j');
    } else {
      Rising(version, coords, j', j);
    }
  }

  lemma DrawNext(size: nat, version: nat, coords: seq<int>, positions: seq<(int, int)>, n: nat, before: seq<bool>, kept: seq<bool>,
                 cells: seq<bool>, reserved: seq<bool>, cells': seq<bool>, reserved': seq<bool>)
    requires AlignmentVersion(version) && Coordinates(version, coords)
    requires forall m | m in positions :: AlignmentCentre(coords, m)
    requires n < |positions| && AlignmentsDrawn(size, positions, n, before, kept, cells, reserved)
    requires Stamped(size, cells, reserved, cells', reserved', Alignment(positions[n]))
    ensures AlignmentsDrawn(size, positions, n + 1, before, kept, cells', reserved')
  {
    hide At, Dark, Near, Coordinates;
    forall k, r: nat, c: nat | 0 <= k < n + 1 && r < size && c < size && Near(Alignment(positions[k]), r, c)
      ensures At(size, cells', r, c) == Dark(Alignment(positions[k]), r, c)
    {
      assert positions[k] in positions && positions[n] in positions;
      if Near(Alignment(positions[n]), r, c) {
        CentresApart(version, coords, positions[k], positions[n], r, c);
      }
    }
    forall r: nat, c: nat
      ensures Covered(positions, n + 1, r, c) <==> Covered(positions, n, r, c) || Near(Alignment(positions[n]), r, c)
    {}
    hide Covered;
  }

  /**
    Every alignment pattern is drawn and reserved, nothing else changes, and
    the finder patterns, the place of the format information and the timing
    pattern are as they were.
   */
  method SetupAlignmentPattern(matrix: BitMatrix, version: nat) returns (ghost centres: seq<(int, int)>, ghost coords: seq<int>)
    requires matrix.Valid() && 1 <= version <= 40 && matrix.size == SymbolSize(version)
    modifies matrix.data, matrix.reservedBit
    ensures AlignmentsDrawn(matrix.size, centres, |centres|, old(matrix.Cells()), old(matrix.Reserved()), matrix.Cells(), matrix.Reserved())
    ensures version == 1 ==> centres == []
    ensures version > 1 ==> Coordinates(version, coords) && forall m :: m in centres <==> AlignmentCentre(coords, m)
  {
    hide At, Stamped, Near, Coordinates, AlignmentCentre;
    var pos;
    pos, coords := GetPositions(version);
    centres := pos;
    var size := matrix.size;
    ghost var before, kept := matrix.Cells(), matrix.Reserved();
    for i := 0 to |pos|
      invariant AlignmentsDrawn(size, pos, i, before, kept, matrix.Cells(), matrix.Reserved())
    {
      hide AlignmentsDrawn;
      ghost var cells, reserved := matrix.Cells(), matrix.Reserved();
      assert pos[i] in pos;
      CentreBounds(version, coords, pos[i]);
      DrawAlignment(matrix, pos[i].0, pos[i].1);
      DrawNext(size, version, coords, pos, i, before, kept, cells, reserved, matrix.Cells(), matrix.Reserved());
    }
  }

  /** Finder patterns, timing pattern and the place of the format information survive the alignment patterns. */
  lemma AlignmentsKeep(version: nat, coords: seq<int>, centres: seq<(int, int)>, before: seq<bool>, kept: seq<bool>,
                       cells: seq<bool>, reserved: seq<bool>, r: nat, c: nat)
    requires 1 <= version <= 40 && (version == 1 ==> centres == [])
    requires version > 1 ==> Coordinates(version, coords) && forall m | m in centres :: AlignmentCentre(coords, m)
    requires AlignmentsDrawn(SymbolSize(version), centres, |centres|, before, kept, cells, reserved)
    requires r < SymbolSize(version) && c < SymbolSize(version)
    ensures InFinder(SymbolSize(version), r, c) ==> At(SymbolSize(version), cells, r, c) == At(SymbolSize(version), before, r, c)
    ensures FormatIndex(SymbolSize(version), r, c) != -1 ==> At(SymbolSize(version), cells, r, c) == At(SymbolSize(version), before, r, c)
    ensures InTiming(SymbolSize(version), r, c) && At(SymbolSize(version), before, r, c) == TimingModule(r, c)
            ==> At(SymbolSize(version), cells, r, c) == TimingModule(r, c)
  {
    hide At, Near, Dark, InFinder, FormatIndex, Coordinates, AlignmentCentre;
    if Covered(centres, |centres|, r, c) {
      var k :| 0 <= k < |centres| && Near(Alignment(centres[k]), r, c);
      assert centres[k] in centres;
      AlignmentApart(version, coords, centres[k], r, c);
      if InTiming(SymbolSize(version), r, c) {
        AlignmentOnTiming(version, coords, centres[k], r, c);
      }
    }
  }

  // ---- format information ----

  /** Which format bit a module carries (15 is the dark module), or -1. */
  function FormatIndex(size: nat, r: nat, c: nat): (i: int)
    requires ValidSize(size)
    ensures -1 <= i <= 15
  {
    if c == 8 && r <= 5 then r
    else if c == 8 && 7 <= r <= 8 then r - 1
    else if c == 8 && r == size - 8 then 15
    else if c == 8 && size - 7 <= r < size then r + 15 - size
    else if r == 8 && size - 8 <= c < size then size - 1 - c
    else if r == 8 && c == 7 then 8
    else if r == 8 && c <= 5 then 14 - c
    else -1
  }

  /** The picture with the format information written into it. */
  ghost predicate FormatWritten(size: nat, before: seq<bool>, cells: seq<bool>, bits: seq<bool>)
    requires ValidSize(size) && |bits| == 15
  {
    && IsGrid(size, before) && IsGrid(size, cells)
    && forall r: nat, c: nat | r < size && c < size ::
         At(size, cells, r, c) == if FormatIndex(size, r, c) == -1 then At(size, before, r, c)
                                  else FormatIndex(size, r, c) == 15 || bits[FormatIndex(size, r, c)]
  }

  ghost predicate FormatReserved(size: nat, kept: seq<bool>, reserved: seq<bool>)
    requires ValidSize(size)
  {
    && IsGrid(size, kept) && IsGrid(size, reserved)
    && forall r: nat, c: nat | r < size && c < size ::
         At(size, reserved, r, c) == (At(size, kept, r, c) || FormatIndex(size, r, c) != -1)
  }

  /** The row of the copy of bit `i` in column 8. */
  function FormatRow(size: nat, i: nat): (r: nat)
    requires ValidSize(size) && i < 15
    ensures r < size && FormatIndex(size, r, 8) == i
  {
    if i < 6 then i else if i < 8 then i + 1 else size - 15 + i
  }

  /** The column of the copy of bit `i` in row 8. */
  function FormatColumn(size: nat, i: nat): (c: nat)
    requires ValidSize(size) && i < 15
    ensures c < size && FormatIndex(size, 8, c) == i
  {
    if i < 8 then size - i - 1 else if i < 9 then 7 else 14 - i
  }

  /** A format bit has its two places and no other. */
  lemma FormatPlaces(size: nat, i: nat)
    requires ValidSize(size) && i < 15
    ensures forall r: nat, c: nat | r < size && c < size ::
              FormatIndex(size, r, c) == i <==> (r, c) in {(FormatRow(size, i), 8), (8, FormatColumn(size, i))}
    ensures (FormatRow(size, i), 8) != (8, FormatColumn(size, i))
  {}

  /** Every format bit is written at the same two modules, whatever the bits are. */
  method SetupFormatInfo(matrix: BitMatrix, bits: seq<bool>)
    requires matrix.Valid() && ValidSize(matrix.size) && |bits| == 15
    modifies matrix.data, matrix.reservedBit
    ensures FormatWritten(matrix.size, old(matrix.Cells()), matrix.Cells(), bits)
    ensures FormatReserved(matrix.size, old(matrix.Reserved()), matrix.Reserved())
  {
    hide At;
    var size := matrix.size;
    for i := 0 to 15
      invariant forall r: nat, c: nat | r < size && c < size ::
                  At(size, matrix.Cells(), r, c)
                  == if 0 <= FormatIndex(size, r, c) < i then bits[FormatIndex(size, r, c)] else old(At(size, matrix.Cells(), r, c))
      invariant forall r: nat, c: nat | r < size && c < size ::
                  At(size, matrix.Reserved(), r, c) == (old(At(size, matrix.Reserved(), r, c)) || 0 <= FormatIndex(size, r, c) < i)
    {
      var mod := bits[i];
      var row := if i < 6 then i else if i < 8 then i + 1 else size - 15 + i;
      var col := if i < 8 then size - i - 1 else if i < 9 then 15 - i - 1 + 1 else 15 - i - 1;
      assert row == FormatRow(size, i) && col == FormatColumn(size, i);
      FormatPlaces(size, i);
      hide FormatIndex, FormatRow, FormatColumn, Put;
      ghost var cells, reserved := matrix.Cells(), matrix.Reserved();
      matrix.Set(row, 8, mod, true);
      PutChangesOne(size, cells, row, 8, mod);
      PutChangesOne(size, reserved, row, 8, true);
      cells, reserved := matrix.Cells(), matrix.Reserved();
      matrix.Set(8, col, mod, true);
      PutChangesOne(size, cells, 8, col, mod);
      PutChangesOne(size, reserved, 8, col, true);
    }
    ghost var cells, reserved := matrix.Cells(), matrix.Reserved();
    matrix.Set(size - 8, 8, true, true);
    PutChangesOne(size, cells, size - 8, 8, true);
    PutChangesOne(size, reserved, size - 8, 8, true);
  }

  /** Both copies of every format bit are read back at their places, and the dark module is dark. */
  lemma FormatReadable(size: nat, before: seq<bool>, cells: seq<bool>, bits: seq<bool>)
    requires ValidSize(size) && |bits| == 15 && FormatWritten(size, before, cells, bits)
    ensures seq(15, i requires 0 <= i < 15 => At(size, cells, FormatRow(size, i), 8)) == bits
    ensures seq(15, i requires 0 <= i < 15 => At(size, cells, 8, FormatColumn(size, i))) == bits
    ensures At(size, cells, size - 8, 8)
  {
    hide At, FormatRow, FormatColumn;
    forall i: nat | i < 15
      ensures At(size, cells, FormatRow(size, i), 8) == bits[i] && At(size, cells, 8, FormatColumn(size, i)) == bits[i]
    {
      hide FormatIndex;
    }
  }

  // ---- version information ----

  predicate InVersionInfo(size: nat, r: nat, c: nat)
    requires ValidSize(size)
  {
    (r < 6 && size - 11 <= c < size - 8) || (c < 6 && size - 11 <= r < size - 8)
  }

  function VersionIndex(size: nat, r: nat, c: nat): (i: nat)
    requires ValidSize(size) && InVersionInfo(size, r, c)
    ensures i < 18
  {
    if r < 6 then 3 * r + c + 11 - size else 3 * c + r + 11 - size
  }

  /** The eighteen version bits are written into two blocks, one the mirror image of the other. */
  method SetupVersionInfo(matrix: BitMatrix, bits: seq<bool>)
    requires matrix.Valid() && ValidSize(matrix.size) && |bits| == 18
    modifies matrix.data, matrix.reservedBit
    ensures forall r: nat, c: nat | r < matrix.size && c < matrix.size ::
              At(matrix.size, matrix.Cells(), r, c)
              == if InVersionInfo(matrix.size, r, c) then bits[VersionIndex(matrix.size, r, c)]
                 else old(At(matrix.size, matrix.Cells(), r, c))
    ensures forall r: nat, c: nat | r < matrix.size && c < matrix.size ::
              At(matrix.size, matrix.Reserved(), r, c)
              == (old(At(matrix.size, matrix.Reserved(), r, c)) || InVersionInfo(matrix.size, r, c))
  {
    hide At;
    var size := matrix.size;
    for i := 0 to 18
      invariant forall r: nat, c: nat | r < size && c < size ::
                  At(size, matrix.Cells(), r, c)
                  == if InVersionInfo(size, r, c) && VersionIndex(size, r, c) < i then bits[VersionIndex(size, r, c)]
                     else old(At(size, matrix.Cells(), r, c))
      invariant forall r: nat, c: nat | r < size && c < size ::
                  At(size, matrix.Reserved(), r, c)
                  == (old(At(size, matrix.Reserved(), r, c)) || (InVersionInfo(size, r, c) && VersionIndex(size, r, c) < i))
    {
      var row := i / 3;
      var col := i % 3 + size - 8 - 3;
      var mod := bits[i];
      ghost var cells, reserved := matrix.Cells(), matrix.Reserved();
      matrix.Set(row, col, mod, true);
      PutChangesOne(size, cells, row, col, mod);
      PutChangesOne(size, reserved, row, col, true);
      cells, reserved := matrix.Cells(), matrix.Reserved();
      matrix.Set(col, row, mod, true);
      PutChangesOne(size, cells, col, row, mod);
      PutChangesOne(size, reserved, col, row, true);
    }
  }
}
