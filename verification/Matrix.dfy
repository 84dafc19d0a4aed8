/**
  The modules of a symbol, kept row by row in flat buffers beside a map of
  the modules that belong to function patterns.
 */
module Matrix {
  /** A square picture, row by row. */
  ghost predicate IsGrid(size: nat, cells: seq<bool>) {
    |cells| == size * size
  }

  function Index(size: nat, row: nat, col: nat): (i: nat)
    requires row < size && col < size
    ensures i < size * size
  {
    IndexBound(size, row, col);
    row * size + col
  }

  lemma IndexBound(size: nat, row: nat, col: nat)
    requires row < size && col < size
    ensures row * size + col < size * size
  {
    AtMostTimes(row, size - 1, size);
    assert (size - 1) * size == size * size - size;
  }

  /** No two modules share a place in the buffer. */
  lemma IndexInjective(size: nat, row: nat, col: nat, row': nat, col': nat)
    requires row < size && col < size && row' < size && col' < size
    requires Index(size, row, col) == Index(size, row', col')
    ensures row == row' && col == col'
  {
    if row < row' {
      RowsAscend(size, row, col, row');
    } else if row' < row {
      RowsAscend(size, row', col', row);
    }
  }

  lemma RowsAscend(size: nat, row: nat, col: nat, row': nat)
    requires col < size && row < row'
    ensures row * size + col < row' * size
  {
    AtMostTimes(row + 1, row', size);
    assert (row + 1) * size == row * size + size;
  }

  lemma AtMostTimes(a: nat, b: nat, n: nat)
    requires a <= b
    ensures a * n <= b * n
  {}

  /** Every place in the buffer is a module. */
  lemma IndexOnto(size: nat, i: nat)
    requires i < size * size
    ensures i / size < size && i % size < size && Index(size, i / size, i % size) == i
  {
    assert (i / size) * size + i % size == i;
    if i / size >= size {
      AtMostTimes(size, i / size, size);
    }
  }

  ghost function At(size: nat, cells: seq<bool>, row: nat, col: nat): bool
    requires IsGrid(size, cells) && row < size && col < size
  {
    cells[Index(size, row, col)]
  }

  /** The picture with one module changed. */
  ghost function Put(size: nat, cells: seq<bool>, row: nat, col: nat, value: bool): (r: seq<bool>)
    requires IsGrid(size, cells) && row < size && col < size
    ensures IsGrid(size, r)
  {
    cells[Index(size, row, col) := value]
  }

  lemma PutChangesOne(size: nat, cells: seq<bool>, row: nat, col: nat, value: bool)
    requires IsGrid(size, cells) && row < size && col < size
    ensures forall r: nat, c: nat | r < size && c < size ::
              At(size, Put(size, cells, row, col, value), r, c) == if r == row && c == col then value else At(size, cells, r, c)
  {
    forall r: nat, c: nat | r < size && c < size
      ensures At(size, Put(size, cells, row, col, value), r, c) == if r == row && c == col then value else At(size, cells, r, c)
    {
      if Index(size, r, c) == Index(size, row, col) {
        IndexInjective(size, r, c, row, col);
      }
    }
  }

  /** Two pictures with the same modules are equal. */
  lemma SamePicture(size: nat, a: seq<bool>, b: seq<bool>)
    requires IsGrid(size, a) && IsGrid(size, b)
    requires forall r: nat, c: nat | r < size && c < size :: At(size, a, r, c) == At(size, b, r, c)
    ensures a == b
  {
    forall i | 0 <= i < |a|
      ensures a[i] == b[i]
    {
      IndexOnto(size, i);
      assert At(size, a, i / size, i % size) == At(size, b, i / size, i % size);
    }
  }

  /** The picture with the given modules. */
  ghost function Picture(size: nat, f: (nat, nat) --> bool): (cells: seq<bool>)
    requires forall r: nat, c: nat | r < size && c < size :: f.requires(r, c)
    ensures IsGrid(size, cells)
    ensures forall r: nat, c: nat | r < size && c < size :: At(size, cells, r, c) == f(r, c)
  {
    var cells := seq(size * size, i requires 0 <= i < size * size => f(RowAt(size, i), ColumnAt(size, i)));
    assert forall r: nat, c: nat | r < size && c < size :: At(size, cells, r, c) == f(r, c) by {
      forall r: nat, c: nat | r < size && c < size
        ensures At(size, cells, r, c) == f(r, c)
      {
        var i := Index(size, r, c);
        IndexInjective(size, r, c, RowAt(size, i), ColumnAt(size, i));
      }
    }
    cells
  }

  ghost function RowAt(size: nat, i: nat): (r: nat)
    requires i < size * size
    ensures r < size && Index(size, r, ColumnAt(size, i)) == i
  {
    IndexOnto(size, i);
    i / size
  }

  ghost function ColumnAt(size: nat, i: nat): (c: nat)
    requires i < size * size
    ensures c < size
  {
    i % size
  }

  class BitMatrix {
    const size: nat
    const data: array<bool>
    const reservedBit: array<bool>

    ghost predicate Valid()
      reads this
    {
      size > 0 && data != reservedBit && data.Length == size * size && reservedBit.Length == size * size
    }

    ghost function Cells(): (s: seq<bool>)
      requires Valid()
      reads this, data
      ensures IsGrid(size, s)
    {
      data[..]
    }

    ghost function Reserved(): (s: seq<bool>)
      requires Valid()
      reads this, reservedBit
      ensures IsGrid(size, s)
    {
      reservedBit[..]
    }

    constructor (n: nat)
      requires n > 0
      ensures Valid() && size == n && fresh(data) && fresh(reservedBit)
      ensures forall r: nat, c: nat | r < n && c < n :: !At(size, Cells(), r, c) && !At(size, Reserved(), r, c)
    {
      size := n;
      data := new bool[n * n](i => false);
      reservedBit := new bool[n * n](i => false);
    }

    method Set(row: nat, col: nat, value: bool, reserved: bool)
      requires Valid() && row < size && col < size
      modifies data, reservedBit
      ensures Cells() == Put(size, old(Cells()), row, col, value)
      ensures Reserved() == if reserved then Put(size, old(Reserved()), row, col, true) else old(Reserved())
    {
      var index := Index(size, row, col);
      data[index] := value;
      if reserved {
        reservedBit[index] := true;
      }
    }

    function Get(row: nat, col: nat): (b: bool)
      requires Valid() && row < size && col < size
      reads this, data
      ensures b == At(size, Cells(), row, col)
    {
      data[Index(size, row, col)]
    }

    method Xor(row: nat, col: nat, value: bool)
      requires Valid() && row < size && col < size
      modifies data
      ensures Cells() == Put(size, old(Cells()), row, col, old(At(size, Cells(), row, col)) != value)
    {
      var index := Index(size, row, col);
      data[index] := data[index] != value;
    }

    function IsReserved(row: nat, col: nat): (b: bool)
      requires Valid() && row < size && col < size
      reads this, reservedBit
      ensures b == At(size, Reserved(), row, col)
    {
      reservedBit[Index(size, row, col)]
    }
  }
}
