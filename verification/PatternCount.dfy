/**
  The rectangles that make up the function patterns do not overlap and cover
  exactly the modules of the patterns, so their area counts those modules.
 */
module PatternCount {
  import opened Matrix
  import opened Placement
  import opened FunctionPatterns
  import opened SymbolCapacity

  /** No module lies in two of the rectangles. */
  ghost predicate Apart(qs: seq<Rect>) {
    forall i, j, m | 0 <= i < j < |qs| && Inside(qs[i], m) :: !Inside(qs[j], m)
  }

  ghost predicate Meet(a: seq<Rect>, b: seq<Rect>) {
    exists m :: Covers(a, m) && Covers(b, m)
  }

  lemma ApartJoin(a: seq<Rect>, b: seq<Rect>)
    requires Apart(a) && Apart(b) && !Meet(a, b)
    ensures Apart(a + b)
  {
    forall i, j, m | 0 <= i < j < |a + b| && Inside((a + b)[i], m)
      ensures !Inside((a + b)[j], m)
    {
      if i < |a| <= j && Inside((a + b)[j], m) {
        assert Inside(a[i], m) && Inside(b[j - |a|], m);
        assert Covers(a, m) && Covers(b, m);
      }
    }
  }

  /** The area of rectangles that do not overlap is the number of modules they cover. */
  lemma {:induction false} ExactArea(s: set<Position>, qs: seq<Rect>)
    requires ValidRects(qs) && Apart(qs) && forall m :: m in s <==> Covers(qs, m)
    ensures |s| == Area(qs)
  {
    if qs == [] {
      assert forall m: Position :: !Covers(qs, m);
      assert s == {};
    } else {
      var n := |qs| - 1;
      var last := Modules(qs[n]);
      assert qs == qs[..n] + [qs[n]];
      forall m: Position
        ensures m in s <==> m in s - last || m in last
        ensures m in s - last <==> Covers(qs[..n], m)
      {
        LastCovers(qs, m);
      }
      assert s == (s - last) + last;
      ExactArea(s - last, qs[..n]);
      RectModules(qs[n]);
      DisjointSize(s - last, last);
    }
  }

  lemma LastCovers(qs: seq<Rect>, m: Position)
    requires qs != [] && Apart(qs)
    ensures Covers(qs, m) <==> Covers(qs[..|qs| - 1], m) || Inside(qs[|qs| - 1], m)
    ensures !(Covers(qs[..|qs| - 1], m) && Inside(qs[|qs| - 1], m))
  {
    var n := |qs| - 1;
    CoverJoin(qs[..n], [qs[n]], m);
    assert qs == qs[..n] + [qs[n]];
    assert Covers([qs[n]], m) <==> Inside(qs[n], m) by {
      assert [qs[n]][0] == qs[n];
    }
    if Covers(qs[..n], m) {
      var i :| 0 <= i < n && Inside(qs[..n][i], m);
      assert Inside(qs[i], m);
    }
  }

  // ---- the fixed patterns ----

  lemma FixedApart(size: nat)
    requires size >= 21
    ensures Apart(FinderRects(size)) && Apart(TimingRects(size)) && Apart(FormatRects(size))
    ensures size >= 45 ==> Apart(VersionRects(size))
    ensures Apart([])
  {}

  lemma FinderExact(size: nat, m: Position)
    requires ValidSize(size)
    ensures Covers(FinderRects(size), m) <==> m.0 < size && m.1 < size && InFinder(size, m.0, m.1)
  {
    NearBounds(Finder(0, 0), m.0, m.1);
    NearBounds(Finder(size - 7, 0), m.0, m.1);
    NearBounds(Finder(0, size - 7), m.0, m.1);
    if m.0 < size && m.1 < size && InFinder(size, m.0, m.1) {
      FinderCovered(size, m.0, m.1);
    }
    hide Near;
  }

  lemma TimingExact(size: nat, m: Position)
    requires ValidSize(size)
    ensures Covers(TimingRects(size), m) <==> m.0 < size && m.1 < size && InTiming(size, m.0, m.1)
  {
    if m.0 < size && m.1 < size && InTiming(size, m.0, m.1) {
      TimingCovered(size, m.0, m.1);
    }
  }

  lemma FormatExact(size: nat, m: Position)
    requires ValidSize(size)
    ensures Covers(FormatRects(size), m) <==> m.0 < size && m.1 < size && FormatIndex(size, m.0, m.1) != -1
  {
    if m.0 < size && m.1 < size && FormatIndex(size, m.0, m.1) != -1 {
      FormatCovered(size, m.0, m.1);
    }
  }

  lemma VersionExact(size: nat, m: Position)
    requires ValidSize(size) && size >= 45
    ensures Covers(VersionRects(size), m) <==> m.0 < size && m.1 < size && InVersionInfo(size, m.0, m.1)
  {
    if m.0 < size && m.1 < size && InVersionInfo(size, m.0, m.1) {
      VersionCovered(size, m.0, m.1);
    }
  }

  /** No module belongs to two of the fixed patterns. */
  lemma FixedKinds(size: nat, r: nat, c: nat)
    requires ValidSize(size) && r < size && c < size
    ensures InFinder(size, r, c) ==> !InTiming(size, r, c) && FormatIndex(size, r, c) == -1
    ensures InTiming(size, r, c) ==> FormatIndex(size, r, c) == -1
    ensures size >= 45 && InVersionInfo(size, r, c) ==>
              !InFinder(size, r, c) && !InTiming(size, r, c) && FormatIndex(size, r, c) == -1
  {
    FinderBounds(size, r, c);
    hide InFinder;
  }

  // ---- the alignment patterns ----

  lemma CentreExact(version: nat, coords: seq<int>, i: nat, j: nat, m: Position)
    requires AlignmentVersion(version) && Coordinates(version, coords) && i < |coords| && j < |coords|
    requires Covers(CentreRects(coords, i, j), m)
    ensures IsCentre(coords, i, j, (coords[i], coords[j])) && Near(Alignment((coords[i], coords[j])), m.0, m.1)
    ensures !InTiming(SymbolSize(version), m.0, m.1)
  {
    var a, b := coords[i], coords[j];
    CoordinateBounds(version, coords, i);
    CoordinateBounds(version, coords, j);
    NearBounds(Alignment((a, b)), m.0, m.1);
    hide Near, Coordinates;
    var k :| 0 <= k < |CentreRects(coords, i, j)| && Inside(CentreRects(coords, i, j)[k], m);
  }

  lemma {:induction false} RowExact(coords: seq<int>, i: nat, n: nat, m: Position) returns (j: nat)
    requires i < |coords| && n <= |coords| && Covers(RowRects(coords, i, n), m)
    ensures j < n && Covers(CentreRects(coords, i, j), m)
  {
    hide CentreRects;
    if n == 0 {
      assert false;
    } else {
      CoverJoin(RowRects(coords, i, n - 1), CentreRects(coords, i, n - 1), m);
      if Covers(CentreRects(coords, i, n - 1), m) {
        j := n - 1;
      } else {
        j := RowExact(coords, i, n - 1, m);
      }
    }
  }

  lemma {:induction false} AlignmentExact(coords: seq<int>, n: nat, m: Position) returns (i: nat, j: nat)
    requires n <= |coords| && Covers(AlignmentRects(coords, n), m)
    ensures i < n && j < |coords| && Covers(CentreRects(coords, i, j), m)
  {
    hide CentreRects, RowRects;
    if n == 0 {
      assert false;
    } else {
      CoverJoin(AlignmentRects(coords, n - 1), RowRects(coords, n - 1, |coords|), m);
      if Covers(RowRects(coords, n - 1, |coords|), m) {
        i := n - 1;
        j := RowExact(coords, i, |coords|, m);
      } else {
        i, j := AlignmentExact(coords, n - 1, m);
      }
    }
  }

  /** A module is covered for one centre only. */
  lemma OneCentre(version: nat, coords: seq<int>, i: nat, j: nat, k: nat, l: nat, m: Position)
    requires AlignmentVersion(version) && Coordinates(version, coords)
    requires i < |coords| && j < |coords| && k < |coords| && l < |coords|
    requires Covers(CentreRects(coords, i, j), m) && Covers(CentreRects(coords, k, l), m)
    ensures i == k && j == l
  {
    CentreExact(version, coords, i, j, m);
    CentreExact(version, coords, k, l, m);
    var x, y := (coords[i], coords[j]), (coords[k], coords[l]);
    assert AlignmentCentre(coords, x) && AlignmentCentre(coords, y);
    CentresApart(version, coords, x, y, m.0, m.1);
    SameCoordinate(version, coords, i, k);
    SameCoordinate(version, coords, j, l);
  }

  lemma SameCoordinate(version: nat, coords: seq<int>, i: nat, k: nat)
    requires AlignmentVersion(version) && Coordinates(version, coords) && i < |coords| && k < |coords| && coords[i] == coords[k]
    ensures i == k
  {
    if i < k {
      Rising(version, coords, i, k);
    } else if k < i {
      Rising(version, coords, k, i);
    }
  }

  lemma CentreApart(coords: seq<int>, i: nat, j: nat)
    requires i < |coords| && j < |coords|
    ensures Apart(CentreRects(coords, i, j))
  {}

  lemma {:induction false} RowApart(version: nat, coords: seq<int>, i: nat, n: nat)
    requires AlignmentVersion(version) && Coordinates(version, coords) && i < |coords| && n <= |coords|
    ensures Apart(RowRects(coords, i, n))
  {
    hide CentreRects, Coordinates, Apart;
    if n > 0 {
      RowApart(version, coords, i, n - 1);
      CentreApart(coords, i, n - 1);
      if Meet(RowRects(coords, i, n - 1), CentreRects(coords, i, n - 1)) {
        var m :| Covers(RowRects(coords, i, n - 1), m) && Covers(CentreRects(coords, i, n - 1), m);
        var j := RowExact(coords, i, n - 1, m);
        OneCentre(version, coords, i, j, i, n - 1, m);
      }
      ApartJoin(RowRects(coords, i, n - 1), CentreRects(coords, i, n - 1));
    } else {
      FixedApart(21);
    }
  }

  lemma {:induction false} AlignmentsApart(version: nat, coords: seq<int>, n: nat)
    requires AlignmentVersion(version) && Coordinates(version, coords) && n <= |coords|
    ensures Apart(AlignmentRects(coords, n))
  {
    hide CentreRects, RowRects, Coordinates, Apart;
    if n > 0 {
      var row := RowRects(coords, n - 1, |coords|);
      AlignmentsApart(version, coords, n - 1);
      RowApart(version, coords, n - 1, |coords|);
      if Meet(AlignmentRects(coords, n - 1), row) {
        var m :| Covers(AlignmentRects(coords, n - 1), m) && Covers(row, m);
        var i, j := AlignmentExact(coords, n - 1, m);
        var l := RowExact(coords, n - 1, |coords|, m);
        OneCentre(version, coords, i, j, n - 1, l, m);
      }
      ApartJoin(AlignmentRects(coords, n - 1), row);
    } else {
      FixedApart(21);
    }
  }

  /** Alignment rectangles cover modules of alignment patterns, and none of any other pattern. */
  lemma AlignmentAlone(version: nat, coords: seq<int>, m: Position)
    requires AlignmentVersion(version) && Coordinates(version, coords) && Covers(AlignmentRects(coords, |coords|), m)
    ensures var size := SymbolSize(version);
            && m.0 < size && m.1 < size && InAlignment(coords, m.0, m.1)
            && !InFinder(size, m.0, m.1) && !InTiming(size, m.0, m.1) && FormatIndex(size, m.0, m.1) == -1
            && !(version >= 7 && InVersionInfo(size, m.0, m.1))
  {
    var i, j := AlignmentExact(coords, |coords|, m);
    CentreExact(version, coords, i, j, m);
    var x := (coords[i], coords[j]);
    assert IsCentre(coords, i, j, x) && AlignmentCentre(coords, x);
    AlignmentApart(version, coords, x, m.0, m.1);
    CentreBounds(version, coords, x);
    NearBounds(Alignment(x), m.0, m.1);
    hide Near, Coordinates, AlignmentCentre, Covers, FormatIndex, InFinder, InTiming;
  }

  // ---- all patterns ----

  function Versions(version: nat): seq<Rect>
    requires 1 <= version <= 40
  {
    if version >= 7 then VersionRects(SymbolSize(version)) else []
  }

  function Alignments(version: nat, coords: seq<int>): seq<Rect> {
    if version > 1 then AlignmentRects(coords, |coords|) else []
  }

  /** A module is covered exactly if it belongs to a function pattern. */
  lemma PatternsExact(version: nat, coords: seq<int>, m: Position)
    requires 1 <= version <= 40 && (version > 1 ==> Coordinates(version, coords))
    ensures var size := SymbolSize(version);
            Covers(PatternRects(version, coords), m) <==> m.0 < size && m.1 < size && FunctionArea(version, coords, m.0, m.1)
  {
    var size := SymbolSize(version);
    var q0, q1, q2, q3, q4 := FinderRects(size), TimingRects(size), FormatRects(size), Versions(version), Alignments(version, coords);
    if Covers(PatternRects(version, coords), m) {
      CoverJoin(q0, q1, m);
      CoverJoin(q0 + q1, q2, m);
      CoverJoin(q0 + q1 + q2, q3, m);
      CoverJoin(q0 + q1 + q2 + q3, q4, m);
      FinderExact(size, m);
      TimingExact(size, m);
      FormatExact(size, m);
      if version >= 7 {
        VersionExact(size, m);
      }
      if version > 1 && Covers(q4, m) {
        AlignmentAlone(version, coords, m);
      }
      hide FinderRects, TimingRects, FormatRects, VersionRects, AlignmentRects, InFinder, InTiming, FormatIndex, Coordinates, InAlignment;
    } else if m.0 < size && m.1 < size && FunctionArea(version, coords, m.0, m.1) {
      PatternsCovered(version, coords, m.0, m.1);
      assert false;
    }
  }

  /** No two of the kinds of patterns share a rectangle's module. */
  lemma KindsApart(version: nat, coords: seq<int>, m: Position)
    requires 1 <= version <= 40 && (version > 1 ==> Coordinates(version, coords))
    ensures var size := SymbolSize(version);
            && (Covers(FinderRects(size), m) ==> !Covers(TimingRects(size), m) && !Covers(FormatRects(size), m))
            && (Covers(TimingRects(size), m) ==> !Covers(FormatRects(size), m))
            && (Covers(Versions(version), m) ==>
                  !Covers(FinderRects(size), m) && !Covers(TimingRects(size), m) && !Covers(FormatRects(size), m))
            && (Covers(Alignments(version, coords), m) ==>
                  && !Covers(FinderRects(size), m) && !Covers(TimingRects(size), m) && !Covers(FormatRects(size), m)
                  && !Covers(Versions(version), m))
  {
    var size := SymbolSize(version);
    FinderExact(size, m);
    TimingExact(size, m);
    FormatExact(size, m);
    if version >= 7 {
      VersionExact(size, m);
    }
    if m.0 < size && m.1 < size {
      FixedKinds(size, m.0, m.1);
    }
    if version > 1 && Covers(Alignments(version, coords), m) {
      AlignmentAlone(version, coords, m);
    }
    NothingCovered(m);
    hide FinderRects, TimingRects, FormatRects, VersionRects, AlignmentRects, InFinder, InTiming, FormatIndex, Coordinates, InAlignment,
         Covers;
  }

  lemma NothingCovered(m: Position)
    ensures !Covers([], m)
  {}

  lemma RectanglesApart(version: nat, coords: seq<int>)
    requires 1 <= version <= 40 && (version > 1 ==> Coordinates(version, coords))
    ensures Apart(PatternRects(version, coords))
  {
    var size := SymbolSize(version);
    var q0, q1, q2, q3, q4 := FinderRects(size), TimingRects(size), FormatRects(size), Versions(version), Alignments(version, coords);
    FixedApart(size);
    if version > 1 {
      AlignmentsApart(version, coords, |coords|);
    }
    hide FinderRects, TimingRects, FormatRects, VersionRects, AlignmentRects, Covers, Coordinates, Apart;
    forall m: Position
      ensures !(Covers(q0, m) && Covers(q1, m)) && !(Covers(q0 + q1, m) && Covers(q2, m))
      ensures !(Covers(q0 + q1 + q2, m) && Covers(q3, m)) && !(Covers(q0 + q1 + q2 + q3, m) && Covers(q4, m))
    {
      CoverJoin(q0, q1, m);
      CoverJoin(q0 + q1, q2, m);
      CoverJoin(q0 + q1 + q2, q3, m);
      KindsApart(version, coords, m);
    }
    ApartJoin(q0, q1);
    ApartJoin(q0 + q1, q2);
    ApartJoin(q0 + q1 + q2, q3);
    ApartJoin(q0 + q1 + q2 + q3, q4);
  }

  ghost function PatternSet(version: nat, coords: seq<int>): set<Position>
    requires 1 <= version <= 40
  {
    set r: nat, c: nat | r < SymbolSize(version) && c < SymbolSize(version) && FunctionArea(version, coords, r, c) :: (r, c)
  }

  /** The function patterns of a version take exactly this many modules. */
  lemma PatternsCounted(version: nat, coords: seq<int>)
    requires 1 <= version <= 40 && (version > 1 ==> Coordinates(version, coords))
    ensures |PatternSet(version, coords)| == PatternModules(version)
  {
    PatternsInside(version, coords);
    PatternArea(version, coords);
    RectanglesApart(version, coords);
    forall m: Position
      ensures m in PatternSet(version, coords) <==> Covers(PatternRects(version, coords), m)
    {
      PatternsExact(version, coords, m);
    }
    hide PatternRects, PatternModules, Covers, Apart, ValidRects;
    ExactArea(PatternSet(version, coords), PatternRects(version, coords));
  }
}
