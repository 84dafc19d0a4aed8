/**
  The penalty score of a symbol (ISO/IEC 18004:2015, section 7.8.3): runs of
  one colour, blocks of one colour, finder-like patterns, and the share of
  dark modules.
 */
module Penalties {
  import opened Matrix

  ghost function RowOf(size: nat, cells: seq<bool>, r: nat): (s: seq<bool>)
    requires IsGrid(size, cells) && r < size
    ensures |s| == size && forall c: nat | c < size :: s[c] == At(size, cells, r, c)
  {
    seq(size, c requires 0 <= c < size => At(size, cells, r, c))
  }

  ghost function ColumnOf(size: nat, cells: seq<bool>, c: nat): (s: seq<bool>)
    requires IsGrid(size, cells) && c < size
    ensures |s| == size && forall r: nat | r < size :: s[r] == At(size, cells, r, c)
  {
    seq(size, r requires 0 <= r < size => At(size, cells, r, c))
  }

  // ---- runs ----

  /** The length of the run that a line starts with. */
  function RunLength(s: seq<bool>): (n: nat)
    requires s != []
    ensures 1 <= n <= |s|
    ensures forall i | 0 <= i < n :: s[i] == s[0]
    ensures n < |s| ==> s[n] != s[0]
  {
    if |s| > 1 && s[1] == s[0] then
      assert forall i | 0 <= i < RunLength(s[1..]) :: s[1..][i] == s[i + 1];
      1 + RunLength(s[1..])
    else 1
  }

  /** The points of a run: 3 for five modules, one more for each further module. */
  function Score(n: nat): nat {
    if n >= 5 then 3 + (n - 5) else 0
  }

  /** The points of all maximal runs of a line. */
  function RunScore(s: seq<bool>): nat {
    if s == [] then 0 else Score(RunLength(s)) + RunScore(s[RunLength(s)..])
  }

  lemma RunLengthIs(s: seq<bool>, n: nat)
    requires 1 <= n <= |s| && (forall i | 0 <= i < n :: s[i] == s[0]) && (n < |s| ==> s[n] != s[0])
    ensures RunLength(s) == n
  {
    assert !(RunLength(s) < n);
    assert !(n < RunLength(s));
  }

  /** A run of another colour at the end of a line adds its own points. */
  lemma {:induction false} RunAtEnd(a: seq<bool>, run: seq<bool>)
    requires run != [] && (forall i | 0 <= i < |run| :: run[i] == run[0]) && (a != [] ==> a[|a| - 1] != run[0])
    ensures RunScore(a + run) == RunScore(a) + if |run| < 5 then 0 else |run| - 2
  {
    if a == [] {
      RunLengthIs(run, |run|);
      assert a + run == run && run[|run|..] == [];
    } else {
      var n := RunLength(a);
      assert n == |a| ==> a[|a| - 1] == a[0];
      RunLengthIs(a + run, n);
      assert (a + run)[n..] == a[n..] + run;
      RunAtEnd(a[n..], run);
    }
  }

  /** The state of counting along a line: `closed` points, and a run of `count` modules still open. */
  ghost predicate Counting(s: seq<bool>, last: Colour, count: nat, closed: int) {
    && count <= |s| && (s == [] <==> last == NoColour)
    && (s != [] ==> count > 0 && last == Colour(s[|s| - 1]))
    && (forall i | |s| - count <= i < |s| :: s[i] == s[|s| - 1])
    && (count < |s| ==> s[|s| - count - 1] != s[|s| - 1])
    && closed == RunScore(s[..|s| - count])
  }

  datatype Colour = NoColour | Colour(dark: bool)

  lemma CountSame(s: seq<bool>, last: Colour, count: nat, closed: int, x: bool)
    requires Counting(s, last, count, closed) && last == Colour(x)
    ensures Counting(s + [x], last, count + 1, closed)
  {
    assert (s + [x])[..|s| - count] == s[..|s| - count];
  }

  lemma CountOther(s: seq<bool>, last: Colour, count: nat, closed: int, x: bool)
    requires Counting(s, last, count, closed) && last != Colour(x)
    ensures Counting(s + [x], Colour(x), 1, closed + Score(count))
  {
    assert (s + [x])[..|s|] == s;
    CountEnd(s, last, count, closed);
  }

  lemma CountEnd(s: seq<bool>, last: Colour, count: nat, closed: int)
    requires Counting(s, last, count, closed)
    ensures RunScore(s) == closed + Score(count)
  {
    if s != [] {
      var a, run := s[..|s| - count], s[|s| - count..];
      assert s == a + run;
      RunAtEnd(a, run);
    }
  }

  ghost function N1Total(size: nat, cells: seq<bool>, k: nat): int
    requires IsGrid(size, cells) && k <= size
  {
    if k == 0 then 0
    else N1Total(size, cells, k - 1) + RunScore(RowOf(size, cells, k - 1)) + RunScore(ColumnOf(size, cells, k - 1))
  }

  /** One step of a run counter. */
  method CountModule(dark: bool, last: Colour, count: nat, points: int, ghost s: seq<bool>, ghost closed: int)
    returns (last': Colour, count': nat, points': int, ghost closed': int)
    requires Counting(s, last, count, closed)
    ensures Counting(s + [dark], last', count', closed') && points' - points == closed' - closed
  {
    if Colour(dark) == last {
      CountSame(s, last, count, closed, dark);
      return last, count + 1, points, closed;
    }
    CountOther(s, last, count, closed, dark);
    closed' := closed + Score(count);
    points' := points;
    if count >= 5 {
      points' := points + (3 + (count - 5));
    }
    last', count' := Colour(dark), 1;
  }

  /** The running counters find the points of every maximal run of every row and column. */
  method GetPenaltyN1(data: BitMatrix) returns (points: int)
    requires data.Valid()
    ensures points == N1Total(data.size, data.Cells(), data.size)
  {
    hide Counting, RunScore, RowOf, ColumnOf, At;
    var size := data.size;
    ghost var cells := data.Cells();
    points := 0;
    for row := 0 to size
      invariant points == N1Total(size, cells, row)
    {
      var sameCountCol, sameCountRow := 0, 0;
      var lastCol, lastRow := NoColour, NoColour;
      ghost var across, down := RowOf(size, cells, row), ColumnOf(size, cells, row);
      ghost var closedCol: int, closedRow: int := 0, 0;
      CountStart(across, down);
      for col := 0 to size
        invariant Counting(across[..col], lastCol, sameCountCol, closedCol)
        invariant Counting(down[..col], lastRow, sameCountRow, closedRow)
        invariant points == N1Total(size, cells, row) + closedCol + closedRow
      {
        assert across[..col + 1] == across[..col] + [data.Get(row, col)];
        assert down[..col + 1] == down[..col] + [data.Get(col, row)];
        lastCol, sameCountCol, points, closedCol :=
          CountModule(data.Get(row, col), lastCol, sameCountCol, points, across[..col], closedCol);
        lastRow, sameCountRow, points, closedRow := CountModule(data.Get(col, row), lastRow, sameCountRow, points, down[..col], closedRow);
      }
      assert across[..size] == across && down[..size] == down;
      CountEnd(across, lastCol, sameCountCol, closedCol);
      CountEnd(down, lastRow, sameCountRow, closedRow);
      if sameCountCol >= 5 {
        points := points + (3 + (sameCountCol - 5));
      }
      if sameCountRow >= 5 {
        points := points + (3 + (sameCountRow - 5));
      }
    }
  }

  lemma CountStart(a: seq<bool>, b: seq<bool>)
    ensures Counting(a[..0], NoColour, 0, 0) && Counting(b[..0], NoColour, 0, 0)
  {}

  // ---- blocks ----

  /** A two by two block of one colour with its upper left corner at (r, c). */
  ghost predicate Block(size: nat, cells: seq<bool>, r: int, c: int)
    requires IsGrid(size, cells)
  {
    && 0 <= r < size - 1 && 0 <= c < size - 1
    && At(size, cells, r, c) == At(size, cells, r, c + 1) == At(size, cells, r + 1, c) == At(size, cells, r + 1, c + 1)
  }

  ghost function Blocks(size: nat, cells: seq<bool>, row: int, col: int): set<(int, int)>
    requires IsGrid(size, cells)
  {
    set r, c | 0 <= r < size && 0 <= c < size && (r < row || (r == row && c < col)) && Block(size, cells, r, c) :: (r, c)
  }

  function Number(b: bool): int {
    if b then 1 else 0
  }

  lemma BlocksNext(size: nat, cells: seq<bool>, row: nat, col: nat)
    requires IsGrid(size, cells) && row < size - 1 && col < size - 1
    ensures |Blocks(size, cells, row, col + 1)| == |Blocks(size, cells, row, col)| + Number(Block(size, cells, row, col))
  {
    var was := Blocks(size, cells, row, col);
    hide Block;
    if Block(size, cells, row, col) {
      assert Blocks(size, cells, row, col + 1) == was + {(row, col)};
      assert (row, col) !in was;
    } else {
      assert Blocks(size, cells, row, col + 1) == was;
    }
  }

  lemma BlocksRow(size: nat, cells: seq<bool>, row: int)
    requires IsGrid(size, cells)
    ensures Blocks(size, cells, row, size - 1) == Blocks(size, cells, row + 1, 0)
  {}

  /** Three points for every block of one colour. */
  method GetPenaltyN2(data: BitMatrix) returns (points: int)
    requires data.Valid()
    ensures points == 3 * |set r, c | 0 <= r < data.size && 0 <= c < data.size && Block(data.size, data.Cells(), r, c) :: (r, c)|
  {
    var size := data.size;
    ghost var cells := data.Cells();
    points := 0;
    hide At;
    for row := 0 to size - 1
      invariant points == |Blocks(size, cells, row, 0)|
    {
      for col := 0 to size - 1
        invariant points == |Blocks(size, cells, row, col)|
      {
        hide Blocks;
        var last := Number(data.Get(row, col)) + Number(data.Get(row, col + 1))
                    + Number(data.Get(row + 1, col)) + Number(data.Get(row + 1, col + 1));
        BlocksNext(size, cells, row, col);
        if last == 4 || last == 0 {
          points := points + 1;
        }
      }
      BlocksRow(size, cells, row);
    }
    assert Blocks(size, cells, size - 1, 0)
           == set r, c | 0 <= r < data.size && 0 <= c < data.size && Block(data.size, data.Cells(), r, c) :: (r, c);
    points := points * 3;
  }

  // ---- finder-like patterns ----

  /** Ratio 1:1:3:1:1 with four light modules after it, or before it. */
  predicate FinderLike(w: seq<bool>) {
    || w == [true, false, true, true, true, false, true, false, false, false, false]
    || w == [false, false, false, false, true, false, true, true, true, false, true]
  }

  /** A finder-like window of a line that ends just before position `e`. */
  predicate WindowAt(s: seq<bool>, e: int) {
    11 <= e <= |s| && FinderLike(s[e - 11..e])
  }

  function Bit(b: bool): bv16 {
    if b then 1 else 0
  }

  function Shift(bits: bv16, b: bool): bv16 {
    ((bits << 1) & 0x7FF) | Bit(b)
  }

  /** The register after a line has been shifted in. */
  function Register(s: seq<bool>): bv16 {
    if s == [] then 0 else Shift(Register(s[..|s| - 1]), s[|s| - 1])
  }

  function BitAt(bits: bv16, i: nat): bool
    requires i < 11
  {
    (bits >> i) & 1 == 1
  }

  /** The eleven bits of the register, oldest first. */
  function Content(bits: bv16): seq<bool> {
    [BitAt(bits, 10), BitAt(bits, 9), BitAt(bits, 8), BitAt(bits, 7), BitAt(bits, 6), BitAt(bits, 5),
     BitAt(bits, 4), BitAt(bits, 3), BitAt(bits, 2), BitAt(bits, 1), BitAt(bits, 0)]
  }

  lemma ShiftedBits(x: bv16, b: bool)
    requires x < 0x800
    ensures var y := Shift(x, b);
            && y < 0x800 && BitAt(y, 0) == b
            && BitAt(y, 1) == BitAt(x, 0)
            && BitAt(y, 2) == BitAt(x, 1)
            && BitAt(y, 3) == BitAt(x, 2)
            && BitAt(y, 4) == BitAt(x, 3)
            && BitAt(y, 5) == BitAt(x, 4)
            && BitAt(y, 6) == BitAt(x, 5)
            && BitAt(y, 7) == BitAt(x, 6)
            && BitAt(y, 8) == BitAt(x, 7)
            && BitAt(y, 9) == BitAt(x, 8)
            && BitAt(y, 10) == BitAt(x, 9)
  {}

  /** A shift drops the oldest bit. */
  lemma ShiftMoves(x: bv16, b: bool)
    requires x < 0x800
    ensures Shift(x, b) < 0x800 && Content(Shift(x, b)) == Content(x)[1..] + [b]
  {
    ShiftedBits(x, b);
    hide Shift, BitAt;
  }

  lemma PatternBits(x: bv16)
    requires x < 0x800
    ensures x == 0x5D0 <==> BitAt(x, 10) && !BitAt(x, 9) && BitAt(x, 8) && BitAt(x, 7) && BitAt(x, 6) && !BitAt(x, 5)
                            && BitAt(x, 4) && !BitAt(x, 3) && !BitAt(x, 2) && !BitAt(x, 1) && !BitAt(x, 0)
    ensures x == 0x05D <==> !BitAt(x, 10) && !BitAt(x, 9) && !BitAt(x, 8) && !BitAt(x, 7) && BitAt(x, 6) && !BitAt(x, 5)
                            && BitAt(x, 4) && BitAt(x, 3) && BitAt(x, 2) && !BitAt(x, 1) && BitAt(x, 0)
  {}

  lemma ContentIsPattern(x: bv16)
    requires x < 0x800
    ensures (x == 0x5D0 || x == 0x05D) <==> FinderLike(Content(x))
  {
    PatternBits(x);
    hide BitAt;
  }

  function Light(n: nat): seq<bool> {
    seq(n, _ => false)
  }

  /** The last eleven modules, with light ones before the start of the line. */
  function LastEleven(s: seq<bool>): (w: seq<bool>)
    ensures |w| == 11
  {
    (Light(11) + s)[|s|..]
  }

  lemma LastElevenNext(s: seq<bool>)
    requires s != []
    ensures LastEleven(s) == LastEleven(s[..|s| - 1])[1..] + [s[|s| - 1]]
  {
    assert s == s[..|s| - 1] + [s[|s| - 1]];
  }

  lemma EmptyRegister()
    ensures Content(0) == LastEleven([])
  {
    assert !BitAt(0, 0) && !BitAt(0, 1) && !BitAt(0, 2) && !BitAt(0, 3) && !BitAt(0, 4) && !BitAt(0, 5);
    assert !BitAt(0, 6) && !BitAt(0, 7) && !BitAt(0, 8) && !BitAt(0, 9) && !BitAt(0, 10);
    hide BitAt;
    assert Light(11) + [] == Light(11);
  }

  lemma {:induction false} RegisterHolds(s: seq<bool>)
    ensures Register(s) < 0x800 && Content(Register(s)) == LastEleven(s)
  {
    if s == [] {
      EmptyRegister();
    } else {
      hide Content, LastEleven, Shift;
      RegisterHolds(s[..|s| - 1]);
      ShiftMoves(Register(s[..|s| - 1]), s[|s| - 1]);
      LastElevenNext(s);
    }
  }

  lemma RegisterNext(s: seq<bool>, n: nat)
    requires n < |s|
    ensures Register(s[..n + 1]) == Shift(Register(s[..n]), s[n])
  {
    assert s[..n + 1][..n] == s[..n];
  }

  /** The register shows one of the two patterns exactly when the last eleven modules do. */
  lemma RegisterWindow(s: seq<bool>)
    requires |s| >= 11
    ensures (Register(s) == 0x5D0 || Register(s) == 0x05D) <==> FinderLike(s[|s| - 11..])
  {
    hide Content, FinderLike, Register, LastEleven;
    RegisterHolds(s);
    ContentIsPattern(Register(s));
    LastElevenIs(s);
  }

  lemma LastElevenIs(s: seq<bool>)
    requires |s| >= 11
    ensures LastEleven(s) == s[|s| - 11..]
  {}

  /** The windows of a line that end at or before `e`. */
  ghost function Windows(s: seq<bool>, e: int): set<int> {
    set k | 0 <= k <= e && WindowAt(s, k) :: k
  }

  lemma WindowsNext(s: seq<bool>, e: nat)
    ensures |Windows(s, e + 1)| == |Windows(s, e)| + Number(WindowAt(s, e + 1))
  {
    hide WindowAt;
    if WindowAt(s, e + 1) {
      assert Windows(s, e + 1) == Windows(s, e) + {e + 1};
    } else {
      assert Windows(s, e + 1) == Windows(s, e);
    }
  }

  ghost function N3Total(size: nat, cells: seq<bool>, k: nat): int
    requires IsGrid(size, cells) && k <= size
  {
    if k == 0 then 0
    else N3Total(size, cells, k - 1) + |Windows(RowOf(size, cells, k - 1), size)| + |Windows(ColumnOf(size, cells, k - 1), size)|
  }

  /** One shift of a register, and what it says about the window that ends here. */
  method ShiftModule(bits: bv16, dark: bool, col: nat, points: int, ghost s: seq<bool>) returns (bits': bv16, points': int)
    requires col < |s| && dark == s[col] && bits == Register(s[..col])
    ensures bits' == Register(s[..col + 1]) && points' == points + |Windows(s, col + 1)| - |Windows(s, col)|
  {
    RegisterNext(s, col);
    bits' := Shift(bits, dark);
    points' := points;
    WindowsNext(s, col);
    if col >= 10 {
      RegisterWindow(s[..col + 1]);
      assert s[..col + 1][col - 10..] == s[col - 10..col + 1];
    }
    hide Shift, Register, FinderLike, Windows;
    if col >= 10 && (bits' == 0x5D0 || bits' == 0x05D) {
      points' := points' + 1;
    }
  }

  /** Forty points for every finder-like window of every row and column, and for nothing else. */
  method GetPenaltyN3(data: BitMatrix) returns (points: int)
    requires data.Valid()
    ensures points == 40 * N3Total(data.size, data.Cells(), data.size)
  {
    hide RowOf, ColumnOf, At;
    var size := data.size;
    ghost var cells := data.Cells();
    points := 0;
    for row := 0 to size
      invariant points == N3Total(size, cells, row)
    {
      var bitsCol, bitsRow := 0, 0;
      ghost var across, down := RowOf(size, cells, row), ColumnOf(size, cells, row);
      assert Windows(across, 0) == {} && Windows(down, 0) == {};
      assert Register(across[..0]) == 0 && Register(down[..0]) == 0;
      for col := 0 to size
        invariant bitsCol == Register(across[..col]) && bitsRow == Register(down[..col])
        invariant points == N3Total(size, cells, row) + |Windows(across, col)| + |Windows(down, col)|
      {
        hide Register, Windows, N3Total;
        bitsCol, points := ShiftModule(bitsCol, data.Get(row, col), col, points, across);
        bitsRow, points := ShiftModule(bitsRow, data.Get(col, row), col, points, down);
      }
    }
    points := points * 40;
  }

  // ---- share of dark modules ----

  /** The number of dark modules. */
  ghost function DarkCount(cells: seq<bool>): nat {
    |Darks(cells)|
  }

  ghost function Darks(cells: seq<bool>): set<int> {
    set i | 0 <= i < |cells| && cells[i]
  }

  lemma {:induction false} DarkSnoc(cells: seq<bool>, n: nat)
    requires n < |cells|
    ensures DarkCount(cells[..n + 1]) == DarkCount(cells[..n]) + Number(cells[n])
  {
    var was := Darks(cells[..n]);
    var now := Darks(cells[..n + 1]);
    if cells[n] {
      assert now == was + {n};
    } else {
      assert now == was;
    }
  }

  /** The number of five per cent steps between the share of dark modules, rounded up, and one half. */
  ghost function N4Steps(dark: nat, modules: nat): int
    requires modules > 0
  {
    var k := (dark * 20 + modules - 1) / modules - 10;
    if k < 0 then -k else k
  }

  /** With the share of dark modules in twentieths, rounded up, the steps are the distance to ten. */
  lemma StepsShown(dark: nat, modules: nat)
    requires modules > 0
    ensures var steps := N4Steps(dark, modules);
            && steps >= 0
            && if 20 * dark > 9 * modules then (steps + 9) * modules < 20 * dark <= (steps + 10) * modules
               else (9 - steps) * modules < 20 * dark <= (10 - steps) * modules
  {
    var q := (dark * 20 + modules - 1) / modules;
    RoundedUp(20 * dark, modules, q);
    if q > 9 {
      AtMostTimes(9, q - 1, modules);
    } else {
      AtMostTimes(q, 9, modules);
    }
  }

  lemma RoundedUp(n: nat, d: nat, q: nat)
    requires d > 0 && q == (n + d - 1) / d
    ensures (q - 1) * d < n <= q * d
  {
    assert n + d - 1 == q * d + (n + d - 1) % d;
    assert (q - 1) * d == q * d - d;
  }

  method GetPenaltyN4(data: BitMatrix) returns (points: int)
    requires data.Valid()
    ensures data.size * data.size > 0
    ensures points == 10 * N4Steps(DarkCount(data.Cells()), data.size * data.size)
  {
    var darkCount: nat := 0;
    var modulesCount := data.data.Length;
    ghost var cells := data.Cells();
    AtMostTimes(1, data.size, data.size);
    for i := 0 to modulesCount
      invariant darkCount == DarkCount(cells[..i])
    {
      DarkSnoc(cells, i);
      hide DarkCount;
      darkCount := darkCount + Number(data.data[i]);
    }
    assert cells[..modulesCount] == cells;
    hide DarkCount;
    var steps := (darkCount * 20 + modulesCount - 1) / modulesCount - 10;
    points := (if steps < 0 then -steps else steps) * 10;
  }

  /** Rows and columns count alike: mirroring the picture at its diagonal changes no points. */
  lemma {:induction false} LinesMirrored(size: nat, cells: seq<bool>, mirrored: seq<bool>, k: nat)
    requires IsGrid(size, cells) && IsGrid(size, mirrored) && k <= size
    requires forall r: nat, c: nat | r < size && c < size :: At(size, mirrored, r, c) == At(size, cells, c, r)
    ensures N1Total(size, mirrored, k) == N1Total(size, cells, k)
    ensures N3Total(size, mirrored, k) == N3Total(size, cells, k)
  {
    hide At, RunScore, Windows;
    if k > 0 {
      LinesMirrored(size, cells, mirrored, k - 1);
      assert RowOf(size, mirrored, k - 1) == ColumnOf(size, cells, k - 1);
      assert ColumnOf(size, mirrored, k - 1) == RowOf(size, cells, k - 1);
    }
  }

  // ---- total ----

  ghost function Penalty(size: nat, cells: seq<bool>): int
    requires IsGrid(size, cells) && size > 0
  {
    AtMostTimes(1, size, size);
    N1Total(size, cells, size)
    + 3 * |set r, c | 0 <= r < size && 0 <= c < size && Block(size, cells, r, c) :: (r, c)|
    + 40 * N3Total(size, cells, size)
    + 10 * N4Steps(DarkCount(cells), size * size)
  }

  method GetPenalty(data: BitMatrix) returns (penalty: int)
    requires data.Valid()
    ensures penalty == Penalty(data.size, data.Cells())
  {
    hide Block, N1Total, N3Total, N4Steps, DarkCount;
    var n1 := GetPenaltyN1(data);
    var n2 := GetPenaltyN2(data);
    var n3 := GetPenaltyN3(data);
    var n4 := GetPenaltyN4(data);
    penalty := n1 + n2 + n3 + n4;
  }
}
