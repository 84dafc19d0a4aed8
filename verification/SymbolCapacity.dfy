/**
  Counting the modules that the function patterns leave for data: there is
  room for every codeword of the version (Table 1 of ISO/IEC 18004:2015).
 */
module SymbolCapacity {
  import opened Matrix
  import opened Placement
  import opened FunctionPatterns
  import opened QrMode
  import opened VersionTables

  // ---- rectangles ----

  datatype Rect = Rect(top: int, left: int, height: int, width: int)

  ghost predicate Inside(q: Rect, m: Position) {
    q.top <= m.0 < q.top + q.height && q.left <= m.1 < q.left + q.width
  }

  ghost function Modules(q: Rect): (s: set<Position>)
    requires q.top >= 0 && q.left >= 0
    ensures forall m: Position :: m in s <==> Inside(q, m)
  {
    set r: nat, c: nat | q.top <= r < q.top + q.height && q.left <= c < q.left + q.width :: (r, c)
  }

  lemma {:induction false} RowModules(q: Rect)
    requires q.top >= 0 && q.left >= 0 && q.height == 1 && q.width >= 0
    ensures |Modules(q)| == q.width
    decreases q.width
  {
    if q.width == 0 {
      assert Modules(q) == {};
    } else {
      var less := q.(width := q.width - 1);
      var last: Position := (q.top, q.left + q.width - 1);
      RowModules(less);
      assert Modules(q) == Modules(less) + {last};
    }
  }

  lemma LastRow(q: Rect)
    requires q.top >= 0 && q.left >= 0 && q.height > 0 && q.width >= 0
    ensures var less, last := q.(height := q.height - 1), Rect(q.top + q.height - 1, q.left, 1, q.width);
            Modules(q) == Modules(less) + Modules(last) && Modules(less) !! Modules(last)
  {
    var less, last := q.(height := q.height - 1), Rect(q.top + q.height - 1, q.left, 1, q.width);
    forall m: Position
      ensures Inside(q, m) <==> Inside(less, m) || Inside(last, m)
      ensures !(Inside(less, m) && Inside(last, m))
    {}
    hide Inside;
  }

  lemma {:induction false} RectModules(q: Rect)
    requires q.top >= 0 && q.left >= 0 && q.height >= 0 && q.width >= 0
    ensures |Modules(q)| == q.height * q.width
    decreases q.height
  {
    if q.height == 0 {
      assert Modules(q) == {};
    } else {
      var less, last := q.(height := q.height - 1), Rect(q.top + q.height - 1, q.left, 1, q.width);
      LastRow(q);
      hide Modules, Inside;
      RectModules(less);
      RowModules(last);
      OneMore(q.height - 1, q.width);
      DisjointSize(Modules(less), Modules(last));
    }
  }

  lemma OneMore(a: int, b: int)
    ensures a * b + b == (a + 1) * b
  {}

  lemma DisjointSize<T>(a: set<T>, b: set<T>)
    requires a !! b
    ensures |a + b| == |a| + |b|
  {}

  ghost predicate ValidRects(qs: seq<Rect>) {
    forall i | 0 <= i < |qs| :: qs[i].top >= 0 && qs[i].left >= 0 && qs[i].height >= 0 && qs[i].width >= 0
  }

  ghost function Area(qs: seq<Rect>): int {
    if qs == [] then 0 else Area(qs[..|qs| - 1]) + qs[|qs| - 1].height * qs[|qs| - 1].width
  }

  ghost predicate Covers(qs: seq<Rect>, m: Position) {
    exists i | 0 <= i < |qs| :: Inside(qs[i], m)
  }

  /** A set covered by rectangles is no larger than their area. */
  lemma {:induction false} CoverBound(s: set<Position>, qs: seq<Rect>)
    requires ValidRects(qs) && forall m | m in s :: Covers(qs, m)
    ensures |s| <= Area(qs)
  {
    if qs == [] {
      assert forall m: Position :: !Covers(qs, m);
      assert s == {};
    } else {
      var n := |qs| - 1;
      var rest := s - Modules(qs[n]);
      forall m | m in rest
        ensures Covers(qs[..n], m)
      {
        var i :| 0 <= i < |qs| && Inside(qs[i], m);
        assert qs[..n][i] == qs[i];
      }
      CoverBound(rest, qs[..n]);
      RectModules(qs[n]);
      SetSplit(s, Modules(qs[n]));
    }
  }

  lemma SetSplit<T>(s: set<T>, t: set<T>)
    ensures |s| <= |s - t| + |t|
  {
    assert s == (s - t) + (s * t);
    SubsetSize(s * t, t);
  }

  lemma SubsetSize<T>(a: set<T>, b: set<T>)
    requires a <= b
    ensures |a| <= |b|
  {
    assert b == a + (b - a);
  }

  lemma {:induction false} AreaJoin(a: seq<Rect>, b: seq<Rect>)
    ensures Area(a + b) == Area(a) + Area(b)
  {
    if b == [] {
      assert a + b == a;
    } else {
      var n := |b| - 1;
      AreaJoin(a, b[..n]);
      assert (a + b)[..|a + b| - 1] == a + b[..n];
    }
  }

  lemma CoverJoin(a: seq<Rect>, b: seq<Rect>, m: Position)
    ensures Covers(a + b, m) <==> Covers(a, m) || Covers(b, m)
  {
    if Covers(a, m) {
      var i :| 0 <= i < |a| && Inside(a[i], m);
      assert (a + b)[i] == a[i];
    }
    if Covers(b, m) {
      var i :| 0 <= i < |b| && Inside(b[i], m);
      assert (a + b)[|a| + i] == b[i];
    }
    if Covers(a + b, m) {
      var i :| 0 <= i < |a + b| && Inside((a + b)[i], m);
      if i < |a| {
        assert Inside(a[i], m);
      } else {
        assert Inside(b[i - |a|], m);
      }
    }
  }

  // ---- the function patterns as rectangles ----

  /** A module of some function pattern. */
  ghost predicate FunctionArea(version: nat, coords: seq<int>, r: nat, c: nat)
    requires 1 <= version <= 40
  {
    var size := SymbolSize(version);
    || InFinder(size, r, c) || InTiming(size, r, c) || FormatIndex(size, r, c) != -1
    || (version >= 7 && InVersionInfo(size, r, c))
    || (version > 1 && InAlignment(coords, r, c))
  }

  ghost predicate InAlignment(coords: seq<int>, r: nat, c: nat) {
    exists i, j, m :: IsCentre(coords, i, j, m) && Near(Alignment(m), r, c)
  }

  function FinderRects(size: int): seq<Rect> {
    [Rect(0, 0, 8, 8), Rect(size - 8, 0, 8, 8), Rect(0, size - 8, 8, 8)]
  }

  function TimingRects(size: int): seq<Rect> {
    [Rect(8, 6, size - 16, 1), Rect(6, 8, 1, size - 16)]
  }

  function FormatRects(size: int): seq<Rect> {
    [Rect(0, 8, 6, 1), Rect(7, 8, 2, 1), Rect(size - 8, 8, 8, 1), Rect(8, size - 8, 1, 8), Rect(8, 7, 1, 1), Rect(8, 0, 1, 6)]
  }

  function VersionRects(size: int): seq<Rect> {
    [Rect(0, size - 11, 6, 3), Rect(size - 11, 0, 3, 6)]
  }

  lemma FinderCovered(size: nat, r: nat, c: nat)
    requires ValidSize(size) && r < size && c < size && InFinder(size, r, c)
    ensures Covers(FinderRects(size), (r, c))
  {
    NearBounds(Finder(0, 0), r, c);
    NearBounds(Finder(size - 7, 0), r, c);
    NearBounds(Finder(0, size - 7), r, c);
    hide Near;
    var qs := FinderRects(size);
    if r <= 7 && c <= 7 {
      assert Inside(qs[0], (r, c));
    } else if c <= 7 {
      assert Inside(qs[1], (r, c));
    } else {
      assert Inside(qs[2], (r, c));
    }
  }

  lemma TimingCovered(size: nat, r: nat, c: nat)
    requires ValidSize(size) && InTiming(size, r, c)
    ensures Covers(TimingRects(size), (r, c))
  {
    var qs := TimingRects(size);
    if c == 6 {
      assert Inside(qs[0], (r, c));
    } else {
      assert Inside(qs[1], (r, c));
    }
  }

  lemma FormatCovered(size: nat, r: nat, c: nat)
    requires ValidSize(size) && FormatIndex(size, r, c) != -1
    ensures Covers(FormatRects(size), (r, c))
  {
    var qs := FormatRects(size);
    if c == 8 && r <= 5 {
      assert Inside(qs[0], (r, c));
    } else if c == 8 && r <= 8 {
      assert Inside(qs[1], (r, c));
    } else if c == 8 {
      assert Inside(qs[2], (r, c));
    } else if c > 8 {
      assert Inside(qs[3], (r, c));
    } else if c == 7 {
      assert Inside(qs[4], (r, c));
    } else {
      assert Inside(qs[5], (r, c));
    }
  }

  lemma VersionCovered(size: nat, r: nat, c: nat)
    requires ValidSize(size) && InVersionInfo(size, r, c)
    ensures Covers(VersionRects(size), (r, c))
  {
    var qs := VersionRects(size);
    if r < 6 {
      assert Inside(qs[0], (r, c));
    } else {
      assert Inside(qs[1], (r, c));
    }
  }

  /** An alignment pattern, without the modules that it shares with a timing pattern. */
  function CentreRects(coords: seq<int>, i: int, j: int): seq<Rect>
    requires 0 <= i < |coords| && 0 <= j < |coords|
  {
    var last, a, b := |coords| - 1, coords[i], coords[j];
    if (i == 0 && j == 0) || (i == 0 && j == last) || (i == last && j == 0) then []
    else if i == 0 then [Rect(a - 2, b - 2, 2, 5), Rect(a + 1, b - 2, 2, 5)]
    else if j == 0 then [Rect(a - 2, b - 2, 5, 2), Rect(a - 2, b + 1, 5, 2)]
    else [Rect(a - 2, b - 2, 5, 5)]
  }

  function RowRects(coords: seq<int>, i: int, n: nat): seq<Rect>
    requires 0 <= i < |coords| && n <= |coords|
  {
    if n == 0 then [] else RowRects(coords, i, n - 1) + CentreRects(coords, i, n - 1)
  }

  function AlignmentRects(coords: seq<int>, n: nat): seq<Rect>
    requires n <= |coords|
  {
    if n == 0 then [] else AlignmentRects(coords, n - 1) + RowRects(coords, n - 1, |coords|)
  }

  lemma {:induction false} RowCovers(coords: seq<int>, i: int, n: nat, j: int, m: Position)
    requires 0 <= i < |coords| && 0 <= j < n <= |coords| && Covers(CentreRects(coords, i, j), m)
    ensures Covers(RowRects(coords, i, n), m)
  {
    hide CentreRects;
    CoverJoin(RowRects(coords, i, n - 1), CentreRects(coords, i, n - 1), m);
    if j < n - 1 {
      RowCovers(coords, i, n - 1, j, m);
    }
  }

  lemma {:induction false} AlignmentCovers(coords: seq<int>, n: nat, i: int, j: int, m: Position)
    requires 0 <= i < n <= |coords| && 0 <= j < |coords| && Covers(CentreRects(coords, i, j), m)
    ensures Covers(AlignmentRects(coords, n), m)
  {
    hide CentreRects;
    CoverJoin(AlignmentRects(coords, n - 1), RowRects(coords, n - 1, |coords|), m);
    if i < n - 1 {
      AlignmentCovers(coords, n - 1, i, j, m);
    } else {
      RowCovers(coords, i, |coords|, j, m);
    }
  }

  /** A module of the alignment pattern with the given centre is covered, unless it lies on a timing line. */
  lemma CentreCovered(coords: seq<int>, i: int, j: int, m: (int, int), r: nat, c: nat)
    requires IsCentre(coords, i, j, m)
    requires m.0 - 2 <= r <= m.0 + 2 && m.1 - 2 <= c <= m.1 + 2
    requires i == 0 ==> m.0 == 6 && r != 6
    requires j == 0 ==> m.1 == 6 && c != 6
    ensures Covers(CentreRects(coords, i, j), (r, c))
  {
    var qs := CentreRects(coords, i, j);
    if (i == 0 && r > 6) || (i > 0 && j == 0 && c > 6) {
      assert Inside(qs[1], (r, c));
    } else {
      assert Inside(qs[0], (r, c));
    }
  }

  /** Modules of alignment patterns are covered, some of them by the timing patterns. */
  lemma AlignmentCovered(version: nat, coords: seq<int>, r: nat, c: nat)
    requires AlignmentVersion(version) && Coordinates(version, coords) && InAlignment(coords, r, c)
    ensures Covers(AlignmentRects(coords, |coords|), (r, c)) || InTiming(SymbolSize(version), r, c)
  {
    var i, j, m :| IsCentre(coords, i, j, m) && Near(Alignment(m), r, c);
    NearBounds(Alignment(m), r, c);
    hide Near, Covers, CentreRects, AlignmentRects;
    assert AlignmentCentre(coords, m);
    CentreBounds(version, coords, m);
    CoordinateBounds(version, coords, i);
    CoordinateBounds(version, coords, j);
    hide Coordinates;
    if !(i == 0 && r == 6) && !(j == 0 && c == 6) {
      CentreCovered(coords, i, j, m, r, c);
      AlignmentCovers(coords, |coords|, i, j, (r, c));
    }
  }

  lemma CentreArea(coords: seq<int>, i: int, j: int)
    requires 0 <= i < |coords| && 0 <= j < |coords| && |coords| >= 2
    ensures var last := |coords| - 1;
            Area(CentreRects(coords, i, j)) == if (i == 0 && j == 0) || (i == 0 && j == last) || (i == last && j == 0) then 0
                                               else if i == 0 || j == 0 then 20 else 25
  {
    var qs := CentreRects(coords, i, j);
    if |qs| == 2 {
      assert qs[..1][..0] == [];
      assert Area(qs[..1]) == 10;
    } else if |qs| == 1 {
      assert qs[..0] == [];
    }
  }

  lemma {:induction false} RowArea(coords: seq<int>, i: int, n: nat)
    requires 0 <= i < |coords| && 1 <= n <= |coords| && |coords| >= 2
    ensures var last := |coords| - 1;
            Area(RowRects(coords, i, n)) == if i == 0 then 20 * ((if n <= last then n else last) - 1)
                                            else 25 * (n - 1) + if i == last then 0 else 20
  {
    hide CentreRects;
    CentreArea(coords, i, n - 1);
    AreaJoin(RowRects(coords, i, n - 1), CentreRects(coords, i, n - 1));
    if n > 1 {
      RowArea(coords, i, n - 1);
    } else {
      assert Area([]) == 0;
    }
  }

  lemma NoArea()
    ensures Area([]) == 0
  {}

  /** The area of the patterns in the first `n` rows of centres, of `c`. */
  function RowsArea(c: int, n: nat): int {
    if n == 0 then 0
    else RowsArea(c, n - 1) + if n == 1 then 20 * (c - 2) else 25 * (c - 1) + if n == c then 0 else 20
  }

  lemma {:induction false} AlignmentArea(coords: seq<int>, n: nat)
    requires n <= |coords| && |coords| >= 2
    ensures Area(AlignmentRects(coords, n)) == RowsArea(|coords|, n)
  {
    hide RowRects, Area;
    if n == 0 {
      NoArea();
    } else {
      var c := |coords|;
      AlignmentArea(coords, n - 1);
      RowArea(coords, n - 1, c);
      AreaJoin(AlignmentRects(coords, n - 1), RowRects(coords, n - 1, c));
    }
  }

  lemma {:induction false} RowsAreaIs(c: int, n: nat)
    requires 1 <= n < c
    ensures RowsArea(c, n) == 20 * (c - 2) + (n - 1) * (25 * (c - 1) + 20)
  {
    if n > 1 {
      RowsAreaIs(c, n - 1);
      OneMore(n - 2, 25 * (c - 1) + 20);
    }
  }

  lemma AllRowsArea(c: int)
    requires 2 <= c <= 7
    ensures RowsArea(c, c) == 40 * (c - 2) + 25 * (c - 1) * (c - 1)
  {
    RowsAreaIs(c, c - 1);
  }

  /** All function patterns of a version, each module once. */
  function PatternRects(version: nat, coords: seq<int>): seq<Rect>
    requires 1 <= version <= 40
  {
    var size := SymbolSize(version);
    FinderRects(size) + TimingRects(size) + FormatRects(size)
    + (if version >= 7 then VersionRects(size) else [])
    + (if version > 1 then AlignmentRects(coords, |coords|) else [])
  }

  lemma PatternsCovered(version: nat, coords: seq<int>, r: nat, c: nat)
    requires 1 <= version <= 40 && (version > 1 ==> Coordinates(version, coords))
    requires r < SymbolSize(version) && c < SymbolSize(version) && FunctionArea(version, coords, r, c)
    ensures Covers(PatternRects(version, coords), (r, c))
  {
    var size := SymbolSize(version);
    var m := (r, c);
    var q0, q1, q2 := FinderRects(size), TimingRects(size), FormatRects(size);
    var q3 := if version >= 7 then VersionRects(size) else [];
    var q4 := if version > 1 then AlignmentRects(coords, |coords|) else [];
    CoverJoin(q0, q1, m);
    CoverJoin(q0 + q1, q2, m);
    CoverJoin(q0 + q1 + q2, q3, m);
    CoverJoin(q0 + q1 + q2 + q3, q4, m);
    if InFinder(size, r, c) {
      FinderCovered(size, r, c);
    } else if InTiming(size, r, c) {
      TimingCovered(size, r, c);
    } else if FormatIndex(size, r, c) != -1 {
      FormatCovered(size, r, c);
    } else if version >= 7 && InVersionInfo(size, r, c) {
      VersionCovered(size, r, c);
    } else {
      AlignmentCovered(version, coords, r, c);
    }
    hide FinderRects, TimingRects, FormatRects, VersionRects, AlignmentRects, InFinder, InTiming, FormatIndex, Covers;
  }

  lemma FixedAreas(size: int)
    ensures Area(FinderRects(size)) == 192 && Area(TimingRects(size)) == 2 * (size - 16)
    ensures Area(FormatRects(size)) == 31 && Area(VersionRects(size)) == 36
  {
    var f, t, o, v := FinderRects(size), TimingRects(size), FormatRects(size), VersionRects(size);
    TwoAreas(t);
    TwoAreas(v);
    TwoAreas(f[..2]);
    TwoAreas(o[..2]);
    assert Area(o[..3]) == Area(o[..3][..2]) + 8;
    assert o[..3][..2] == o[..2];
    assert Area(o[..4]) == Area(o[..4][..3]) + 8;
    assert o[..4][..3] == o[..3];
    assert Area(o[..5]) == Area(o[..5][..4]) + 1;
    assert o[..5][..4] == o[..4];
  }

  lemma TwoAreas(qs: seq<Rect>)
    requires |qs| == 2
    ensures Area(qs) == qs[0].height * qs[0].width + qs[1].height * qs[1].width
  {
    assert qs[..1][..0] == [];
    assert Area(qs[..1]) == qs[0].height * qs[0].width;
  }

  /** The number of modules that the function patterns of a version take. */
  function PatternModules(version: nat): int
    requires 1 <= version <= 40
  {
    var size, c := SymbolSize(version), version / 7 + 2;
    192 + 2 * (size - 16) + 31 + (if version >= 7 then 36 else 0)
    + (if version > 1 then 40 * (c - 2) + 25 * (c - 1) * (c - 1) else 0)
  }

  lemma PatternArea(version: nat, coords: seq<int>)
    requires 1 <= version <= 40 && (version > 1 ==> Coordinates(version, coords))
    ensures Area(PatternRects(version, coords)) == PatternModules(version)
  {
    var size := SymbolSize(version);
    var q0, q1, q2 := FinderRects(size), TimingRects(size), FormatRects(size);
    var q3 := if version >= 7 then VersionRects(size) else [];
    var q4 := if version > 1 then AlignmentRects(coords, |coords|) else [];
    AreaJoin(q0, q1);
    AreaJoin(q0 + q1, q2);
    AreaJoin(q0 + q1 + q2, q3);
    AreaJoin(q0 + q1 + q2 + q3, q4);
    FixedAreas(size);
    assert Area([]) == 0;
    if version > 1 {
      var c := |coords|;
      AlignmentArea(coords, c);
      AllRowsArea(c);
    }
    hide FinderRects, TimingRects, FormatRects, VersionRects, AlignmentRects, Area, Coordinates, RowsArea;
  }

  lemma FixedInside(size: int)
    requires size >= 21
    ensures ValidRects(FinderRects(size)) && ValidRects(TimingRects(size))
    ensures ValidRects(FormatRects(size)) && ValidRects(VersionRects(size)) && ValidRects([])
  {}

  lemma PatternsInside(version: nat, coords: seq<int>)
    requires 1 <= version <= 40 && (version > 1 ==> Coordinates(version, coords))
    ensures ValidRects(PatternRects(version, coords))
  {
    if version > 1 {
      AlignmentInside(version, coords, |coords|);
    }
    var size := SymbolSize(version);
    FixedInside(size);
    hide FinderRects, TimingRects, FormatRects, VersionRects, AlignmentRects, ValidRects, Coordinates;
    var q3 := if version >= 7 then VersionRects(size) else [];
    var q4 := if version > 1 then AlignmentRects(coords, |coords|) else [];
    InsideJoin(FinderRects(size), TimingRects(size));
    InsideJoin(FinderRects(size) + TimingRects(size), FormatRects(size));
    InsideJoin(FinderRects(size) + TimingRects(size) + FormatRects(size), q3);
    InsideJoin(FinderRects(size) + TimingRects(size) + FormatRects(size) + q3, q4);
  }

  lemma InsideJoin(a: seq<Rect>, b: seq<Rect>)
    ensures ValidRects(a + b) <==> ValidRects(a) && ValidRects(b)
  {
    assert forall i | 0 <= i < |a| :: (a + b)[i] == a[i];
    assert forall i | 0 <= i < |b| :: (a + b)[|a| + i] == b[i];
  }

  lemma {:induction false} AlignmentInside(version: nat, coords: seq<int>, n: nat)
    requires AlignmentVersion(version) && Coordinates(version, coords) && n <= |coords|
    ensures ValidRects(AlignmentRects(coords, n))
  {
    if n > 0 {
      AlignmentInside(version, coords, n - 1);
      RowInside(version, coords, n - 1, |coords|);
      hide Coordinates, RowRects;
    }
  }

  lemma {:induction false} RowInside(version: nat, coords: seq<int>, i: nat, n: nat)
    requires AlignmentVersion(version) && Coordinates(version, coords) && i < |coords| && n <= |coords|
    ensures ValidRects(RowRects(coords, i, n))
  {
    if n > 0 {
      RowInside(version, coords, i, n - 1);
      CoordinateBounds(version, coords, i);
      CoordinateBounds(version, coords, n - 1);
      hide Coordinates;
      CentreInside(coords, i, n - 1);
      hide CentreRects;
    }
  }

  lemma CentreInside(coords: seq<int>, i: nat, j: nat)
    requires i < |coords| && j < |coords| && coords[i] >= 2 && coords[j] >= 2
    ensures ValidRects(CentreRects(coords, i, j))
  {}

  // ---- room for the codewords ----

  /** For every version, what the patterns leave holds all codewords, with fewer than eight modules to spare. */
  lemma RoomForCodewords(version: nat)
    requires ValidVersion(version)
    ensures var room := SymbolSize(version) * SymbolSize(version) - PatternModules(version);
            8 * GetSymbolTotalCodewords(version) <= room < 8 * GetSymbolTotalCodewords(version) + 8
  {
    match version
    case 1 => case 2 => case 3 => case 4 => case 5 => case 6 => case 7 => case 8 => case 9 => case 10 =>
    case 11 => case 12 => case 13 => case 14 => case 15 => case 16 => case 17 => case 18 => case 19 => case 20 =>
    case 21 => case 22 => case 23 => case 24 => case 25 => case 26 => case 27 => case 28 => case 29 => case 30 =>
    case 31 => case 32 => case 33 => case 34 => case 35 => case 36 => case 37 => case 38 => case 39 => case _ =>
  }

  ghost predicate OnlyPatterns(version: nat, coords: seq<int>, reserved: seq<bool>)
    requires 1 <= version <= 40
  {
    && IsGrid(SymbolSize(version), reserved)
    && forall r: nat, c: nat | r < SymbolSize(version) && c < SymbolSize(version) && At(SymbolSize(version), reserved, r, c) ::
         FunctionArea(version, coords, r, c)
  }

  /** The reserved modules among the given ones. */
  ghost function HeldIn(size: nat, reserved: seq<bool>, order: seq<Position>): set<Position>
    requires IsGrid(size, reserved) && InBounds(size, order)
  {
    set m | m in order && At(size, reserved, m.0, m.1)
  }

  lemma {:induction false} ReadSize(size: nat, cells: seq<bool>, reserved: seq<bool>, order: seq<Position>)
    requires IsGrid(size, cells) && IsGrid(size, reserved) && InBounds(size, order) && Distinct(order)
    ensures |ReadBack(size, cells, reserved, order)| + |HeldIn(size, reserved, order)| == |order|
  {
    hide At;
    if order == [] {
      assert HeldIn(size, reserved, order) == {};
    } else {
      var n := |order| - 1;
      var m := order[n];
      ReadSize(size, cells, reserved, order[..n]);
      assert m !in order[..n];
      assert forall x :: x in order <==> x in order[..n] || x == m;
      if At(size, reserved, m.0, m.1) {
        assert HeldIn(size, reserved, order) == HeldIn(size, reserved, order[..n]) + {m};
      } else {
        assert HeldIn(size, reserved, order) == HeldIn(size, reserved, order[..n]);
      }
    }
  }

  lemma {:induction false} OrderSize(size: nat, p: nat)
    requires ValidSize(size) && p <= size / 2
    ensures |Order(size, p)| == p * (2 * size)
  {
    if p > 0 {
      OrderSize(size, p - 1);
      assert (p - 1) * (2 * size) + 2 * size == p * (2 * size);
    }
  }

  /** The reserved modules on the zig-zag, and the whole of column 6, belong to the function patterns. */
  lemma HeldBound(version: nat, coords: seq<int>, reserved: seq<bool>)
    requires 1 <= version <= 40 && (version > 1 ==> Coordinates(version, coords)) && OnlyPatterns(version, coords, reserved)
    ensures var size := SymbolSize(version);
            InBounds(size, Order(size, size / 2))
            && |HeldIn(size, reserved, Order(size, size / 2))| + size <= PatternModules(version)
  {
    var size := SymbolSize(version);
    VisitsOnce(size);
    var order := Order(size, size / 2);
    var held := HeldIn(size, reserved, order);
    var six := Modules(Rect(0, 6, size, 1));
    RectModules(Rect(0, 6, size, 1));
    assert |held + six| == |held| + size by {
      assert held !! six;
    }
    forall m | m in held + six
      ensures Covers(PatternRects(version, coords), m)
    {
      if m in six {
        ColumnSixReserved(size, m.0);
      }
      PatternsCovered(version, coords, m.0, m.1);
    }
    PatternsInside(version, coords);
    PatternArea(version, coords);
    hide PatternRects, Covers, FunctionArea, PatternModules;
    CoverBound(held + six, PatternRects(version, coords));
  }

  /** Every codeword of the version can be read off the symbol. */
  lemma SymbolHoldsCodewords(version: nat, coords: seq<int>, cells: seq<bool>, reserved: seq<bool>)
    requires 1 <= version <= 40 && (version > 1 ==> Coordinates(version, coords)) && OnlyPatterns(version, coords, reserved)
    requires IsGrid(SymbolSize(version), cells)
    ensures |ReadSymbol(SymbolSize(version), cells, reserved)| >= 8 * GetSymbolTotalCodewords(version)
  {
    var size := SymbolSize(version);
    VisitsOnce(size);
    HeldBound(version, coords, reserved);
    ReadSize(size, cells, reserved, Order(size, size / 2));
    OrderSize(size, size / 2);
    hide OnlyPatterns, Coordinates, ReadBack, HeldIn, Order, PatternModules, Distinct, InBounds;
    ZigZagSize(size);
    RoomForCodewords(version);
    hide Sizes;
  }

  lemma ZigZagSize(size: nat)
    requires ValidSize(size)
    ensures size / 2 * (2 * size) == size * size - size
  {
    var h := size / 2;
    assert size == 2 * h + 1;
    assert h * (2 * size) == 2 * h * size;
    assert (size - 1) * size == size * size - size;
  }
}
