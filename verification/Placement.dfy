/**
  Placing the codewords in a symbol: two modules wide columns, upwards and
  downwards in turn, from the right edge to the left, past the timing column
  (ISO/IEC 18004:2015, section 7.7).
 */
module Placement {
  import opened Bits
  import opened Matrix

  type Position = (nat, nat)

  predicate ValidSize(size: nat) {
    size >= 21 && size % 2 == 1
  }

  // ---- the order of the modules ----

  /** The right column of pair `p`, counted from the right edge without the timing column. */
  function Column(size: nat, p: nat): (col: nat)
    requires ValidSize(size) && p < size / 2
    ensures 0 < col < size && col != 6 && col - 1 != 6
  {
    if size - 1 - 2 * p > 6 then size - 1 - 2 * p else size - 2 - 2 * p
  }

  /** The pair a column belongs to. */
  function PairOf(size: nat, col: nat): (p: nat)
    requires ValidSize(size) && col < size && col != 6
    ensures p < size / 2
  {
    if col > 6 then (size - 1 - col) / 2 else (size - 2 - col) / 2
  }

  /** The pairs partition the columns. */
  lemma PairColumns(size: nat, p: nat, col: nat)
    requires ValidSize(size) && p < size / 2 && col < size && col != 6
    ensures PairOf(size, col) == p <==> col == Column(size, p) || col == Column(size, p) - 1
  {}

  /** Step `k` through pair `p`: even pairs run upwards, odd pairs downwards. */
  function Step(size: nat, p: nat, k: nat): (m: Position)
    requires ValidSize(size) && p < size / 2 && k < 2 * size
    ensures m.0 < size && m.1 < size
  {
    (if p % 2 == 0 then size - 1 - k / 2 else k / 2, Column(size, p) - k % 2)
  }

  /** The first `k` modules of pair `p`. */
  function PairOrder(size: nat, p: nat, k: nat): (order: seq<Position>)
    requires ValidSize(size) && p < size / 2 && k <= 2 * size
    ensures |order| == k
  {
    if k == 0 then [] else PairOrder(size, p, k - 1) + [Step(size, p, k - 1)]
  }

  /** All modules of the first `p` pairs. */
  function Order(size: nat, p: nat): seq<Position>
    requires ValidSize(size) && p <= size / 2
  {
    if p == 0 then [] else Order(size, p - 1) + PairOrder(size, p - 1, 2 * size)
  }

  ghost predicate Distinct(s: seq<Position>) {
    forall i, j | 0 <= i < j < |s| :: s[i] != s[j]
  }

  /** A list of the modules of the pairs from `first` to before `end`. */
  ghost predicate HoldsPairs(size: nat, order: seq<Position>, first: nat, end: nat)
    requires ValidSize(size)
  {
    forall m: Position :: m in order <==> m.0 < size && m.1 < size && m.1 != 6 && first <= PairOf(size, m.1) < end
  }

  lemma StepInjective(size: nat, p: nat, k: nat, l: nat)
    requires ValidSize(size) && p < size / 2 && k < 2 * size && l < 2 * size
    requires Step(size, p, k) == Step(size, p, l)
    ensures k == l
  {}

  lemma {:induction false} PairOrderAt(size: nat, p: nat, k: nat, i: nat)
    requires ValidSize(size) && p < size / 2 && i < k <= 2 * size
    ensures PairOrder(size, p, k)[i] == Step(size, p, i)
  {
    if i < k - 1 {
      PairOrderAt(size, p, k - 1, i);
    }
  }

  /** A pair holds the modules of its two columns, each once. */
  lemma PairOrderComplete(size: nat, p: nat)
    requires ValidSize(size) && p < size / 2
    ensures Distinct(PairOrder(size, p, 2 * size)) && HoldsPairs(size, PairOrder(size, p, 2 * size), p, p + 1)
  {
    var order := PairOrder(size, p, 2 * size);
    forall i, j | 0 <= i < j < |order|
      ensures order[i] != order[j]
    {
      PairOrderAt(size, p, 2 * size, i);
      PairOrderAt(size, p, 2 * size, j);
      if order[i] == order[j] {
        StepInjective(size, p, i, j);
      }
    }
    forall m: Position
      ensures m in order <==> m.0 < size && m.1 < size && m.1 != 6 && PairOf(size, m.1) == p
    {
      if m in order {
        var i :| 0 <= i < |order| && order[i] == m;
        PairOrderAt(size, p, 2 * size, i);
        PairColumns(size, p, m.1);
      }
      if m.0 < size && m.1 < size && m.1 != 6 && PairOf(size, m.1) == p {
        PairColumns(size, p, m.1);
        var i := 2 * (if p % 2 == 0 then size - 1 - m.0 else m.0) + (Column(size, p) - m.1);
        PairOrderAt(size, p, 2 * size, i);
        assert order[i] == m;
      }
    }
  }

  lemma DistinctAppend(a: seq<Position>, b: seq<Position>)
    requires Distinct(a) && Distinct(b) && forall m | m in a :: m !in b
    ensures Distinct(a + b)
  {
    forall i, j | 0 <= i < j < |a + b|
      ensures (a + b)[i] != (a + b)[j]
    {
      if i < |a| <= j {
        assert (a + b)[i] in a && (a + b)[j] in b;
      }
    }
  }

  lemma MembersAppend(a: seq<Position>, b: seq<Position>)
    ensures forall m :: m in a + b <==> m in a || m in b
  {
  }

  lemma PairsAppend(size: nat, p: nat, a: seq<Position>, b: seq<Position>)
    requires ValidSize(size) && HoldsPairs(size, a, 0, p) && HoldsPairs(size, b, p, p + 1) && Distinct(a) && Distinct(b)
    ensures HoldsPairs(size, a + b, 0, p + 1) && Distinct(a + b)
  {
    hide PairOf, Distinct;
    DistinctAppend(a, b);
    MembersAppend(a, b);
    forall m: Position
      ensures m in a + b <==> m.0 < size && m.1 < size && m.1 != 6 && 0 <= PairOf(size, m.1) < p + 1
    {
      assert m in a + b <==> m in a || m in b;
    }
  }

  lemma NoPairs(size: nat)
    requires ValidSize(size)
    ensures Distinct(Order(size, 0)) && HoldsPairs(size, Order(size, 0), 0, 0)
  {}

  lemma NextPair(size: nat, p: nat)
    requires ValidSize(size) && p < size / 2 && Distinct(Order(size, p)) && HoldsPairs(size, Order(size, p), 0, p)
    ensures Distinct(Order(size, p + 1)) && HoldsPairs(size, Order(size, p + 1), 0, p + 1)
  {
    assert Order(size, p + 1) == Order(size, p) + PairOrder(size, p, 2 * size);
    hide *;
    PairOrderComplete(size, p);
    PairsAppend(size, p, Order(size, p), PairOrder(size, p, 2 * size));
  }

  /** The first pairs hold the modules of their columns, each once. */
  lemma {:induction false} OrderComplete(size: nat, p: nat)
    requires ValidSize(size) && p <= size / 2
    ensures Distinct(Order(size, p)) && HoldsPairs(size, Order(size, p), 0, p)
  {
    hide *;
    if p == 0 {
      NoPairs(size);
    } else {
      OrderComplete(size, p - 1);
      NextPair(size, p - 1);
    }
  }

  /** The zig-zag visits every module outside column 6 exactly once, and no other. */
  lemma VisitsOnce(size: nat)
    requires ValidSize(size)
    ensures Distinct(Order(size, size / 2))
    ensures forall m: Position :: m in Order(size, size / 2) <==> m.0 < size && m.1 < size && m.1 != 6
  {
    OrderComplete(size, size / 2);
  }

  // ---- the order in numbers ----

  lemma {:induction false} OrderLength(size: nat, p: nat)
    requires ValidSize(size) && p <= size / 2
    ensures |Order(size, p)| == 2 * size * p
  {
    if p > 0 {
      OrderLength(size, p - 1);
      assert 2 * size * p == 2 * size * (p - 1) + 2 * size;
    }
  }

  lemma {:induction false} OrderAt(size: nat, q: nat, p: nat, k: nat)
    requires ValidSize(size) && p < q <= size / 2 && k < 2 * size
    ensures 2 * size * p + k < |Order(size, q)| && Order(size, q)[2 * size * p + k] == Step(size, p, k)
  {
    OrderLength(size, q - 1);
    if p < q - 1 {
      OrderAt(size, q - 1, p, k);
    } else {
      PairOrderAt(size, p, 2 * size, k);
    }
  }

  /**
    The columns are taken in pairs from the right, column 6 left out, the
    first pair upwards and the next downwards; of every row the right module
    comes first, the left one next.
   */
  lemma ZigZag(size: nat, p: nat, t: nat)
    requires size >= 21 && size % 2 == 1 && p < size / 2 && t < size
    ensures var order := Order(size, size / 2);
            var right := if size - 1 - 2 * p > 6 then size - 1 - 2 * p else size - 2 - 2 * p;
            var row := if p % 2 == 0 then size - 1 - t else t;
            && 2 * size * p + 2 * t + 1 < |order|
            && order[2 * size * p + 2 * t] == (row, right)
            && order[2 * size * p + 2 * t + 1] == (row, right - 1)
  {
    OrderAt(size, size / 2, p, 2 * t);
    OrderAt(size, size / 2, p, 2 * t + 1);
    StepsOfRow(size, p, t);
    hide Step, Order;
  }

  lemma StepsOfRow(size: nat, p: nat, t: nat)
    requires ValidSize(size) && p < size / 2 && t < size
    ensures var right := if size - 1 - 2 * p > 6 then size - 1 - 2 * p else size - 2 - 2 * p;
            var row := if p % 2 == 0 then size - 1 - t else t;
            Step(size, p, 2 * t) == (row, right) && Step(size, p, 2 * t + 1) == (row, right - 1)
  {}

  // ---- reading back ----

  ghost predicate InBounds(size: nat, order: seq<Position>) {
    forall i | 0 <= i < |order| :: order[i].0 < size && order[i].1 < size
  }

  /** The unreserved modules of a list of positions, in order. */
  ghost function ReadBack(size: nat, cells: seq<bool>, reserved: seq<bool>, order: seq<Position>): seq<bool>
    requires IsGrid(size, cells) && IsGrid(size, reserved) && InBounds(size, order)
  {
    if order == [] then []
    else
      var last := order[|order| - 1];
      ReadBack(size, cells, reserved, order[..|order| - 1])
      + if At(size, reserved, last.0, last.1) then [] else [At(size, cells, last.0, last.1)]
  }

  /** The bits of a symbol in the order in which they were placed. */
  ghost function ReadSymbol(size: nat, cells: seq<bool>, reserved: seq<bool>): seq<bool>
    requires ValidSize(size) && IsGrid(size, cells) && IsGrid(size, reserved)
  {
    VisitsOnce(size);
    ReadBack(size, cells, reserved, Order(size, size / 2))
  }

  /** While no reserved module is met, bit by bit and module by module. */
  lemma {:induction false} ReadFront(size: nat, cells: seq<bool>, reserved: seq<bool>, order: seq<Position>, n: nat)
    requires IsGrid(size, cells) && IsGrid(size, reserved) && InBounds(size, order) && n <= |order|
    requires forall i | 0 <= i < n :: !At(size, reserved, order[i].0, order[i].1)
    ensures n <= |ReadBack(size, cells, reserved, order)|
    ensures forall i | 0 <= i < n :: ReadBack(size, cells, reserved, order)[i] == At(size, cells, order[i].0, order[i].1)
  {
    hide At;
    var m := |order| - 1;
    if n <= m {
      ReadFront(size, cells, reserved, order[..m], n);
    } else if order != [] {
      ReadFront(size, cells, reserved, order[..m], m);
      OneEach(size, cells, reserved, order[..m]);
    }
  }

  /** Without reserved modules there are as many bits as modules. */
  lemma {:induction false} OneEach(size: nat, cells: seq<bool>, reserved: seq<bool>, order: seq<Position>)
    requires IsGrid(size, cells) && IsGrid(size, reserved) && InBounds(size, order)
    requires forall i | 0 <= i < |order| :: !At(size, reserved, order[i].0, order[i].1)
    ensures |ReadBack(size, cells, reserved, order)| == |order|
  {
    hide At;
    if order != [] {
      OneEach(size, cells, reserved, order[..|order| - 1]);
    }
  }

  /** The first bits of a symbol fill the bottom right corner: from the bottom row upwards, right before left. */
  lemma FirstBits(size: nat, cells: seq<bool>, reserved: seq<bool>, n: nat)
    requires ValidSize(size) && IsGrid(size, cells) && IsGrid(size, reserved) && n <= size
    requires forall r: nat, c: nat | size - n <= r < size && size - 2 <= c < size :: !At(size, reserved, r, c)
    ensures 2 * n <= |ReadSymbol(size, cells, reserved)|
    ensures forall k: nat | k < 2 * n :: ReadSymbol(size, cells, reserved)[k] == At(size, cells, size - 1 - k / 2, size - 1 - k % 2)
  {
    OrderInBounds(size);
    hide At, Order, ReadBack, InBounds;
    var order := Order(size, size / 2);
    CornerFirst(size, n);
    forall i | 0 <= i < 2 * n
      ensures order[i].0 < size && order[i].1 < size && !At(size, reserved, order[i].0, order[i].1)
    {
      assert order[i] == (size - 1 - i / 2, size - 1 - i % 2);
    }
    ReadFront(size, cells, reserved, order, 2 * n);
    forall k: nat | k < 2 * n
      ensures ReadSymbol(size, cells, reserved)[k] == At(size, cells, size - 1 - k / 2, size - 1 - k % 2)
    {
      assert order[k] == (size - 1 - k / 2, size - 1 - k % 2);
    }
  }

  lemma OrderInBounds(size: nat)
    requires ValidSize(size)
    ensures InBounds(size, Order(size, size / 2))
  {
    VisitsOnce(size);
    hide Order, Distinct;
    var order := Order(size, size / 2);
    forall i | 0 <= i < |order|
      ensures order[i].0 < size && order[i].1 < size
    {
      assert order[i] in order;
    }
  }

  lemma CornerFirst(size: nat, n: nat)
    requires ValidSize(size) && n <= size
    ensures var order := Order(size, size / 2);
            && 2 * n <= |order|
            && forall k: nat | k < 2 * n :: order[k] == (size - 1 - k / 2, size - 1 - k % 2)
  {
    hide Order;
    if n > 0 {
      ZigZag(size, 0, n - 1);
    }
    forall k: nat | k < 2 * n
      ensures Order(size, size / 2)[k] == (size - 1 - k / 2, size - 1 - k % 2)
    {
      ZigZag(size, 0, k / 2);
    }
  }

  /** Writing a module outside the list changes nothing that is read. */
  lemma {:induction false} ReadElsewhere(size: nat, cells: seq<bool>, cells': seq<bool>, reserved: seq<bool>, order: seq<Position>)
    requires IsGrid(size, cells) && IsGrid(size, cells') && IsGrid(size, reserved) && InBounds(size, order)
    requires forall m | m in order && !At(size, reserved, m.0, m.1) :: At(size, cells', m.0, m.1) == At(size, cells, m.0, m.1)
    ensures ReadBack(size, cells', reserved, order) == ReadBack(size, cells, reserved, order)
  {
    if order != [] {
      assert order[|order| - 1] in order;
      ReadElsewhere(size, cells, cells', reserved, order[..|order| - 1]);
    }
  }

  /** The modules visited so far carry the data, the others are as they were. */
  ghost predicate Placed(size: nat, before: seq<bool>, cells: seq<bool>, reserved: seq<bool>, order: seq<Position>,
                         data: seq<bv8>, written: nat) {
    && IsGrid(size, before) && IsGrid(size, cells) && IsGrid(size, reserved) && InBounds(size, order)
    && |ReadBack(size, cells, reserved, order)| == written
    && (forall k | 0 <= k < written :: ReadBack(size, cells, reserved, order)[k] == DataBit(data, k))
    && (forall r: nat, c: nat | r < size && c < size && (At(size, reserved, r, c) || (r, c) !in order) ::
          At(size, cells, r, c) == At(size, before, r, c))
  }

  lemma PlaceOne(size: nat, before: seq<bool>, cells: seq<bool>, reserved: seq<bool>, order: seq<Position>,
                 data: seq<bv8>, written: nat, row: nat, col: nat)
    requires Placed(size, before, cells, reserved, order, data, written)
    requires row < size && col < size && !At(size, reserved, row, col) && (row, col) !in order
    ensures Placed(size, before, Put(size, cells, row, col, DataBit(data, written)), reserved, order + [(row, col)], data, written + 1)
  {
    var cells' := Put(size, cells, row, col, DataBit(data, written));
    PutChangesOne(size, cells, row, col, DataBit(data, written));
    var order' := order + [(row, col)];
    assert order'[..|order|] == order;
    hide At, DataBit, Put;
    ReadElsewhere(size, cells, cells', reserved, order);
    var previous := ReadBack(size, cells, reserved, order);
    assert ReadBack(size, cells', reserved, order') == previous + [DataBit(data, written)];
  }

  lemma PassReserved(size: nat, before: seq<bool>, cells: seq<bool>, reserved: seq<bool>, order: seq<Position>,
                     data: seq<bv8>, written: nat, row: nat, col: nat)
    requires Placed(size, before, cells, reserved, order, data, written)
    requires row < size && col < size && At(size, reserved, row, col)
    ensures Placed(size, before, cells, reserved, order + [(row, col)], data, written)
  {
    var order' := order + [(row, col)];
    assert order'[..|order|] == order;
    hide At, DataBit;
  }

  /** The modules visited after `p` pairs and `k` steps. */
  function Visited(size: nat, p: nat, k: nat): seq<Position>
    requires ValidSize(size) && (p < size / 2 || (p == size / 2 && k == 0)) && k <= 2 * size
  {
    Order(size, p) + if p < size / 2 then PairOrder(size, p, k) else []
  }

  lemma VisitNext(size: nat, p: nat, k: nat)
    requires ValidSize(size) && p < size / 2 && k < 2 * size
    ensures Visited(size, p, k + 1) == Visited(size, p, k) + [Step(size, p, k)]
    ensures Step(size, p, k) !in Visited(size, p, k)
  {
    var m := Step(size, p, k);
    OrderComplete(size, p);
    PairColumns(size, p, m.1);
    assert m !in PairOrder(size, p, k) by {
      if m in PairOrder(size, p, k) {
        var i :| 0 <= i < k && PairOrder(size, p, k)[i] == m;
        PairOrderAt(size, p, k, i);
        StepInjective(size, p, i, k);
      }
    }
  }

  lemma PairDone(size: nat, p: nat)
    requires ValidSize(size) && p < size / 2
    ensures Visited(size, p, 2 * size) == Visited(size, p + 1, 0)
  {
    assert PairOrder(size, p, 2 * size) == PairOrder(size, p, 2 * size) + [];
  }

  /** Writes one module of the zig-zag, unless it is reserved. */
  method PlaceModule(matrix: BitMatrix, data: seq<bv8>, row: nat, col: nat, bitIndex: int, byteIndex: nat,
                     ghost before: seq<bool>, ghost order: seq<Position>)
    returns (bitIndex': int, byteIndex': nat)
    requires matrix.Valid() && row < matrix.size && col < matrix.size && 0 <= bitIndex < 8
    requires Placed(matrix.size, before, matrix.Cells(), matrix.Reserved(), order, data, 8 * byteIndex + 7 - bitIndex)
    requires (row, col) !in order
    modifies matrix.data, matrix.reservedBit
    ensures matrix.Reserved() == old(matrix.Reserved()) && 0 <= bitIndex' < 8
    ensures Placed(matrix.size, before, matrix.Cells(), matrix.Reserved(), order + [(row, col)], data, 8 * byteIndex' + 7 - bitIndex')
  {
    bitIndex', byteIndex' := bitIndex, byteIndex;
    ghost var cells, reserved := matrix.Cells(), matrix.Reserved();
    ghost var written := 8 * byteIndex + 7 - bitIndex;
    if !matrix.IsReserved(row, col) {
      var dark := false;
      if byteIndex < |data| {
        dark := BitOf(data[byteIndex], bitIndex);
      }
      assert dark == DataBit(data, written);
      matrix.Set(row, col, dark, false);
      PlaceOne(matrix.size, before, cells, reserved, order, data, written, row, col);
      bitIndex' := bitIndex' - 1;
      if bitIndex' == -1 {
        byteIndex' := byteIndex' + 1;
        bitIndex' := 7;
      }
    } else {
      PassReserved(matrix.size, before, cells, reserved, order, data, written, row, col);
    }
  }

  /** Runs once up or down a pair of columns and turns round at the edge. */
  method FillPair(matrix: BitMatrix, data: seq<bv8>, col: nat, row: nat, inc: int, bitIndex: int, byteIndex: nat,
                  ghost before: seq<bool>, ghost p: nat)
    returns (row': nat, inc': int, bitIndex': int, byteIndex': nat)
    requires matrix.Valid() && ValidSize(matrix.size) && p < matrix.size / 2 && col == Column(matrix.size, p)
    requires if p % 2 == 0 then inc == -1 && row == matrix.size - 1 else inc == 1 && row == 0
    requires 0 <= bitIndex < 8
    requires Placed(matrix.size, before, matrix.Cells(), matrix.Reserved(), Visited(matrix.size, p, 0), data, 8 * byteIndex + 7 - bitIndex)
    modifies matrix.data, matrix.reservedBit
    ensures matrix.Reserved() == old(matrix.Reserved()) && 0 <= bitIndex' < 8
    ensures inc' == -inc && row' == if inc == -1 then 0 else matrix.size - 1
    ensures Placed(matrix.size, before, matrix.Cells(), matrix.Reserved(), Visited(matrix.size, p + 1, 0), data,
                   8 * byteIndex' + 7 - bitIndex')
  {
    hide Placed, At, DataBit, Visited, Order, PairOrder, Column;
    var size := matrix.size;
    var at: int := row;
    inc', bitIndex', byteIndex' := inc, bitIndex, byteIndex;
    ghost var t := 0;
    while true
      invariant t < size && at == (if inc == -1 then size - 1 - t else t) && inc' == inc
      invariant 0 <= bitIndex' < 8 && matrix.Reserved() == old(matrix.Reserved())
      invariant Placed(size, before, matrix.Cells(), matrix.Reserved(), Visited(size, p, 2 * t), data, 8 * byteIndex' + 7 - bitIndex')
      decreases size - t
    {
      for c := 0 to 2
        invariant 0 <= bitIndex' < 8 && matrix.Reserved() == old(matrix.Reserved())
        invariant Placed(size, before, matrix.Cells(), matrix.Reserved(), Visited(size, p, 2 * t + c), data,
                         8 * byteIndex' + 7 - bitIndex')
      {
        VisitNext(size, p, 2 * t + c);
        assert Step(size, p, 2 * t + c) == (at, col - c);
        bitIndex', byteIndex' := PlaceModule(matrix, data, at, col - c, bitIndex', byteIndex', before, Visited(size, p, 2 * t + c));
      }
      at := at + inc';
      t := t + 1;
      if at < 0 || size <= at {
        at := at - inc';
        inc' := -inc';
        break;
      }
    }
    row' := at;
    PairDone(size, p);
  }

  /**
    Reading the unreserved modules back in order gives the bits of the data,
    then zeros; reserved modules and column 6 stay as they were.
   */
  method SetupData(matrix: BitMatrix, data: seq<bv8>)
    requires matrix.Valid() && ValidSize(matrix.size)
    modifies matrix.data, matrix.reservedBit
    ensures matrix.Reserved() == old(matrix.Reserved())
    ensures forall k | 0 <= k < |ReadSymbol(matrix.size, matrix.Cells(), matrix.Reserved())| ::
              ReadSymbol(matrix.size, matrix.Cells(), matrix.Reserved())[k] == DataBit(data, k)
    ensures forall r: nat, c: nat | r < matrix.size && c < matrix.size && (At(matrix.size, matrix.Reserved(), r, c) || c == 6) ::
              At(matrix.size, matrix.Cells(), r, c) == old(At(matrix.size, matrix.Cells(), r, c))
  {
    hide Placed, At, DataBit, Visited, ReadSymbol, Order, PairOrder, Step, IsGrid;
    var size := matrix.size;
    var inc: int := -1;
    var row := size - 1;
    var bitIndex: int := 7;
    var byteIndex: nat := 0;
    ghost var before := matrix.Cells();
    NothingPlaced(size, before, matrix.Reserved(), data);
    ghost var p := 0;
    var col: int := size - 1;
    while col > 0
      invariant p <= size / 2 && col + 2 * p + (if 2 * p <= size - 7 then 1 else 2) == size
      invariant if p % 2 == 0 then inc == -1 && row == size - 1 else inc == 1 && row == 0
      invariant 0 <= bitIndex < 8 && matrix.Reserved() == old(matrix.Reserved())
      invariant Placed(size, before, matrix.Cells(), matrix.Reserved(), Visited(size, p, 0), data, 8 * byteIndex + 7 - bitIndex)
    {
      if col == 6 {
        col := col - 1;
      }
      row, inc, bitIndex, byteIndex := FillPair(matrix, data, col, row, inc, bitIndex, byteIndex, before, p);
      p := p + 1;
      col := col - 2;
    }
    AllPlaced(size, before, matrix.Cells(), matrix.Reserved(), data, 8 * byteIndex + 7 - bitIndex);
  }

  lemma NothingPlaced(size: nat, cells: seq<bool>, reserved: seq<bool>, data: seq<bv8>)
    requires ValidSize(size) && IsGrid(size, cells) && IsGrid(size, reserved)
    ensures Placed(size, cells, cells, reserved, Visited(size, 0, 0), data, 0)
  {}

  lemma AllPlaced(size: nat, before: seq<bool>, cells: seq<bool>, reserved: seq<bool>, data: seq<bv8>, written: nat)
    requires ValidSize(size) && Placed(size, before, cells, reserved, Visited(size, size / 2, 0), data, written)
    ensures forall k | 0 <= k < |ReadSymbol(size, cells, reserved)| :: ReadSymbol(size, cells, reserved)[k] == DataBit(data, k)
    ensures forall r: nat, c: nat | r < size && c < size && (At(size, reserved, r, c) || c == 6) ::
              At(size, cells, r, c) == At(size, before, r, c)
  {
    VisitsOnce(size);
    assert Visited(size, size / 2, 0) == Order(size, size / 2);
  }
}
