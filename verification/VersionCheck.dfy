/**
  Wider count indicators let a larger version hold less.  For a list of
  segments in which none would be cheaper in the mode of its neighbours this
  never matters: whatever fits a version fits every larger one.
 */
module VersionCheck {
  import opened QrMode
  import opened VersionTables
  import opened DataStream

  /** Segments with something in them, no two neighbours in one mode. */
  predicate Alternates(ps: seq<Payload>) {
    && (forall i | 0 <= i < |ps| :: ps[i].mode != Kanji && |ps[i].units| >= 1)
    && (forall i | 0 < i < |ps| :: ps[i - 1].mode != ps[i].mode)
  }

  predicate After(ps: seq<Payload>, i: nat, mode: Mode) {
    0 < i <= |ps| && ps[i - 1].mode == mode
  }

  predicate Followed(ps: seq<Payload>, i: nat, mode: Mode) {
    i + 1 < |ps| && ps[i + 1].mode == mode
  }

  /** A numeric segment is not dearer than its digits in the mode of a neighbour, headers included. */
  predicate NumericPays(ps: seq<Payload>, i: nat, version: nat)
    requires ValidVersion(version) && i < |ps|
  {
    var y := |ps[i].units|;
    var cost := GetReservedBitsCount(Numeric, version) + BitsLength(Numeric, y);
    && (After(ps, i, Alphanumeric) || Followed(ps, i, Alphanumeric) ==> cost <= BitsLength(Alphanumeric, y))
    && (After(ps, i, Alphanumeric) && Followed(ps, i, Alphanumeric) ==>
          cost + GetReservedBitsCount(Alphanumeric, version) <= BitsLength(Alphanumeric, y))
    && (After(ps, i, Byte) && Followed(ps, i, Byte) ==> cost + GetReservedBitsCount(Byte, version) <= BitsLength(Byte, y))
  }

  /** An alphanumeric segment between byte segments pays for two headers and at least one character. */
  predicate AlphanumericPays(ps: seq<Payload>, i: nat, version: nat)
    requires ValidVersion(version) && i < |ps|
  {
    After(ps, i, Byte) && Followed(ps, i, Byte) ==>
      GetReservedBitsCount(Alphanumeric, version) + 6 + GetReservedBitsCount(Byte, version) <= BitsLength(Byte, |ps[i].units|)
  }

  ghost predicate Economical(ps: seq<Payload>, version: nat)
    requires ValidVersion(version)
  {
    forall i: nat | i < |ps| ::
      (ps[i].mode == Numeric ==> NumericPays(ps, i, version)) && (ps[i].mode == Alphanumeric ==> AlphanumericPays(ps, i, version))
  }

  // ---- sums over a list of segments ----

  lemma {:induction false} TotalBitsSnoc(ps: seq<Payload>, p: Payload, version: nat)
    requires ValidVersion(version)
    ensures TotalBits(ps + [p], version) == TotalBits(ps, version) + SegmentBits(p, version)
  {
    if ps == [] {
      assert ps + [p] == [p] && [p][1..] == [];
    } else {
      TotalBitsSnoc(ps[1..], p, version);
      assert (ps + [p])[1..] == ps[1..] + [p];
    }
  }

  lemma TotalBitsNext(ps: seq<Payload>, i: nat, version: nat)
    requires ValidVersion(version) && i < |ps|
    ensures TotalBits(ps[..i + 1], version) == TotalBits(ps[..i], version) + SegmentBits(ps[i], version)
  {
    TotalBitsSnoc(ps[..i], ps[i], version);
    assert ps[..i + 1] == ps[..i] + [ps[i]];
  }

  /** The number of byte segments among the first `i`. */
  function ByteSegments(ps: seq<Payload>, i: nat): (n: nat)
    requires i <= |ps|
    ensures n <= i
  {
    if i == 0 then 0 else ByteSegments(ps, i - 1) + if ps[i - 1].mode == Byte then 1 else 0
  }

  lemma Headers()
    ensures GetReservedBitsCount(Numeric, 9) == 14 && GetReservedBitsCount(Alphanumeric, 9) == 13 && GetReservedBitsCount(Byte, 9) == 12
    ensures GetReservedBitsCount(Numeric, 10) == 16 && GetReservedBitsCount(Alphanumeric, 10) == 15 && GetReservedBitsCount(Byte, 10) == 20
    ensures GetReservedBitsCount(Numeric, 27) == 18 && GetReservedBitsCount(Alphanumeric, 27) == 17 && GetReservedBitsCount(Byte, 27) == 20
  {}

  predicate SameWidths(v: nat, w: nat) {
    (v < 10 <==> w < 10) && (v < 27 <==> w < 27)
  }

  lemma {:induction false} SameTotals(ps: seq<Payload>, v: nat, w: nat)
    requires ValidVersion(v) && ValidVersion(w) && SameWidths(v, w)
    ensures TotalBits(ps, v) == TotalBits(ps, w)
  {
    if ps != [] {
      SameTotals(ps[1..], v, w);
    }
  }

  /** A larger version has more data bits. */
  lemma {:induction false} DataBitsRise(v: nat, w: nat, level: Level)
    requires ValidVersion(v) && ValidVersion(w) && v <= w
    ensures DataBits(v, level) <= DataBits(w, level)
    decreases w
  {
    if v < w {
      DataBitsRise(v, w - 1, level);
      DataBitsStep(w - 1, level);
    }
  }

  lemma DataBitsStep(v: nat, level: Level)
    requires 1 <= v < 40
    ensures DataBits(v, level) <= DataBits(v + 1, level)
  {
    if v <= 20 {
      SmallSizesRise(v, level);
    } else {
      LargeSizesRise(v, level);
    }
    hide Sizes;
  }

  /** The number of data codewords. */
  function Room(version: nat, level: Level): int
    requires ValidVersion(version)
  {
    GetSymbolTotalCodewords(version) - GetTotalCodewordsCount(version, level)
  }

  lemma SmallSizesRise(v: nat, level: Level)
    requires 1 <= v <= 20
    ensures Room(v, level) <= Room(v + 1, level)
  {
    match v
    case 1 => case 2 => case 3 => case 4 => case 5 => case 6 => case 7 => case 8 => case 9 => case 10 =>
    case 11 => case 12 => case 13 => case 14 => case 15 => case 16 => case 17 => case 18 => case 19 => case _ =>
  }

  lemma LargeSizesRise(v: nat, level: Level)
    requires 21 <= v < 40
    ensures Room(v, level) <= Room(v + 1, level)
  {
    match v
    case 21 => case 22 => case 23 => case 24 => case 25 => case 26 => case 27 => case 28 => case 29 => case 30 =>
    case 31 => case 32 => case 33 => case 34 => case 35 => case 36 => case 37 => case 38 => case _ =>
  }

  /** The sizes on both sides of the two changes of width. */
  lemma SizesAtChanges()
    ensures DataBits(9, L) == 1856 && DataBits(10, L) == 2192 && DataBits(26, L) == 10960 && DataBits(27, L) == 11744
    ensures DataBits(9, M) == 1456 && DataBits(10, M) == 1728 && DataBits(26, M) == 8496 && DataBits(27, M) == 9024
    ensures DataBits(9, Q) == 1056 && DataBits(10, Q) == 1232 && DataBits(26, Q) == 6032 && DataBits(27, Q) == 6464
    ensures DataBits(9, H) == 800 && DataBits(10, H) == 976 && DataBits(26, H) == 4768 && DataBits(27, H) == 5024
  {}

  // ---- from version 9 to version 10 ----

  /** Digits that pay for a mode of their own are at least eight. */
  lemma EightDigits(y: nat)
    requires 16 + BitsLength(Numeric, y) <= BitsLength(Alphanumeric, y) || 16 + BitsLength(Numeric, y) + 20 <= BitsLength(Byte, y)
    ensures BitsLength(Numeric, y) >= 27
  {
    if y >= 8 {
      BitsLengthMonotone(Numeric, 8, y - 8);
    }
  }

  /** The least sizes of segments in version 9, by what stands beside them. */
  lemma SizeInNine(ps: seq<Payload>, i: nat)
    requires Alternates(ps) && i < |ps| && Economical(ps, 10)
    ensures ps[i].mode == Byte ==> SegmentBits(ps[i], 9) >= 20
    ensures ps[i].mode != Byte ==> SegmentBits(ps[i], 9) >= 18
    ensures ps[i].mode == Numeric && 0 < i < |ps| - 1 ==> SegmentBits(ps[i], 9) >= 41
    ensures ps[i].mode == Alphanumeric && After(ps, i, Byte) && Followed(ps, i, Byte) ==> SegmentBits(ps[i], 9) >= 41
    ensures SegmentBits(ps[i], 10) == SegmentBits(ps[i], 9) + if ps[i].mode == Byte then 8 else 2
  {
    Headers();
    var p := ps[i];
    BitsLengthMonotone(p.mode, 1, |p.units| - 1);
    hide GetReservedBitsCount;
    if p.mode == Numeric && 0 < i < |ps| - 1 {
      assert NumericPays(ps, i, 10);
      EightDigits(|p.units|);
    }
    if p.mode == Alphanumeric && After(ps, i, Byte) && Followed(ps, i, Byte) {
      assert AlphanumericPays(ps, i, 10);
      BitsLengthMonotone(Alphanumeric, 6, |p.units| - 6);
    }
  }

  /** What the segments up to `i` take, by their number and that of the byte segments among them. */
  lemma {:induction false} GrowthToTen(ps: seq<Payload>, i: nat)
    requires Alternates(ps) && Economical(ps, 10) && i <= |ps|
    ensures var m := ByteSegments(ps, i);
            && TotalBits(ps[..i], 10) == TotalBits(ps[..i], 9) + 8 * m + 2 * (i - m)
            && TotalBits(ps[..i], 9) >= 43 * m + 18 * (i - m) - 23
            && (i == 0 || (i < |ps| && (After(ps, i, Numeric) || ps[i].mode == Byte)) ==>
                  TotalBits(ps[..i], 9) >= 43 * m + 18 * (i - m))
            && (if After(ps, i, Byte) then 2 * m <= i + 1 else 2 * m <= i)
  {
    if i > 0 {
      GrowthToTen(ps, i - 1);
      TotalBitsNext(ps, i - 1, 9);
      TotalBitsNext(ps, i - 1, 10);
      SizeInNine(ps, i - 1);
      assert ps[i - 1].mode != Kanji && (i > 1 ==> ps[i - 2].mode != Kanji && ps[i - 2].mode != ps[i - 1].mode);
      hide SegmentBits, TotalBits, Economical, Alternates;
    }
  }

  /** `m` byte segments and `k` others that fit version 9 grow by no more than version 10 has to spare. */
  lemma SpareInTen(m: nat, k: nat, level: Level)
    requires m <= k + 1 && 43 * m + 18 * k - 23 <= DataBits(9, level)
    ensures 8 * m + 2 * k <= DataBits(10, level) - DataBits(9, level)
  {
    SizesAtChanges();
    hide DataBits;
    match level
    case L => assert m <= 31;
    case M => assert m <= 24;
    case Q => assert m <= 17;
    case H => assert m <= 13;
  }

  lemma FitsTen(ps: seq<Payload>, level: Level)
    requires Alternates(ps) && Economical(ps, 10) && TotalBits(ps, 9) <= DataBits(9, level)
    ensures TotalBits(ps, 10) <= DataBits(10, level)
  {
    GrowthToTen(ps, |ps|);
    assert ps[..|ps|] == ps;
    hide *;
    var m := ByteSegments(ps, |ps|);
    SpareInTen(m, |ps| - m, level);
  }

  // ---- from version 26 to version 27 ----

  /** Digits that pay for a mode of their own are at least nine, between alphanumeric segments at least seventeen. */
  lemma NineDigits(y: nat)
    requires 18 + BitsLength(Numeric, y) <= BitsLength(Alphanumeric, y) || 18 + BitsLength(Numeric, y) + 20 <= BitsLength(Byte, y)
    ensures BitsLength(Numeric, y) >= 30
    ensures 18 + BitsLength(Numeric, y) + 17 <= BitsLength(Alphanumeric, y) ==> BitsLength(Numeric, y) >= 57
  {
    if y >= 9 {
      BitsLengthMonotone(Numeric, 9, y - 9);
    }
    if y >= 17 {
      BitsLengthMonotone(Numeric, 17, y - 17);
    }
  }

  /** The least sizes of segments in version 26. */
  lemma SizeInTwentySix(ps: seq<Payload>, i: nat)
    requires Alternates(ps) && i < |ps| && Economical(ps, 27)
    ensures ps[i].mode == Byte ==> SegmentBits(ps[i], 26) >= 28
    ensures ps[i].mode == Alphanumeric ==> SegmentBits(ps[i], 26) >= 21
    ensures ps[i].mode == Numeric ==> SegmentBits(ps[i], 26) >= 20
    ensures ps[i].mode == Numeric && (After(ps, i, Alphanumeric) || Followed(ps, i, Alphanumeric)) ==> SegmentBits(ps[i], 26) >= 46
    ensures ps[i].mode == Numeric && After(ps, i, Alphanumeric) && Followed(ps, i, Alphanumeric) ==> SegmentBits(ps[i], 26) >= 73
    ensures ps[i].mode == Numeric && After(ps, i, Byte) && Followed(ps, i, Byte) ==> SegmentBits(ps[i], 26) >= 46
    ensures SegmentBits(ps[i], 27) == SegmentBits(ps[i], 26) + if ps[i].mode == Byte then 0 else 2
  {
    Headers();
    SameHeaders();
    var p := ps[i];
    BitsLengthMonotone(p.mode, 1, |p.units| - 1);
    hide GetReservedBitsCount;
    if p.mode == Numeric {
      assert NumericPays(ps, i, 27);
      if After(ps, i, Alphanumeric) || Followed(ps, i, Alphanumeric) || (After(ps, i, Byte) && Followed(ps, i, Byte)) {
        NineDigits(|p.units|);
      }
    }
  }

  lemma SameHeaders()
    ensures GetReservedBitsCount(Numeric, 26) == 16 && GetReservedBitsCount(Alphanumeric, 26) == 15 && GetReservedBitsCount(Byte, 26) == 20
  {}

  /** How far the segments up to `i` may fall short of forty bits each, by the last of them and the next. */
  function Debt(ps: seq<Payload>, i: nat): int
    requires i <= |ps|
  {
    if i == 0 then 0
    else if ps[i - 1].mode == Alphanumeric then 19
    else if ps[i - 1].mode == Byte then -8
    else if i == |ps| then 39
    else if ps[i].mode == Alphanumeric then -6
    else 20
  }

  /** One more segment pays its forty bits and what was owed before it. */
  lemma DebtStep(ps: seq<Payload>, i: nat)
    requires Alternates(ps) && Economical(ps, 27) && i < |ps|
    ensures SegmentBits(ps[i], 26) >= (if ps[i].mode == Byte then 0 else 40) + Debt(ps, i) - Debt(ps, i + 1)
    ensures SegmentBits(ps[i], 27) == SegmentBits(ps[i], 26) + if ps[i].mode == Byte then 0 else 2
  {
    SizeInTwentySix(ps, i);
    assert ps[i].mode != Kanji && (i > 0 ==> ps[i - 1].mode != Kanji && ps[i - 1].mode != ps[i].mode);
    assert i + 1 < |ps| ==> ps[i + 1].mode != Kanji && ps[i + 1].mode != ps[i].mode;
    hide SegmentBits, Economical, Alternates;
  }

  /** The segments up to `i` take about forty bits or more for each that is not in byte mode. */
  lemma {:induction false} GrowthToTwentySeven(ps: seq<Payload>, i: nat)
    requires Alternates(ps) && Economical(ps, 27) && i <= |ps|
    ensures var k := i - ByteSegments(ps, i);
            && TotalBits(ps[..i], 27) == TotalBits(ps[..i], 26) + 2 * k
            && TotalBits(ps[..i], 26) >= 40 * k - Debt(ps, i)
  {
    if i > 0 {
      GrowthToTwentySeven(ps, i - 1);
      TotalBitsNext(ps, i - 1, 26);
      TotalBitsNext(ps, i - 1, 27);
      DebtStep(ps, i - 1);
      hide SegmentBits, TotalBits, Economical, Alternates, Debt;
    }
  }

  lemma FitsTwentySeven(ps: seq<Payload>, level: Level)
    requires Alternates(ps) && Economical(ps, 27) && TotalBits(ps, 26) <= DataBits(26, level)
    ensures TotalBits(ps, 27) <= DataBits(27, level)
  {
    GrowthToTwentySeven(ps, |ps|);
    assert ps[..|ps|] == ps;
    SizesAtChanges();
    hide DataBits, TotalBits, Economical, Alternates, ByteSegments;
  }

  // ---- from the smallest versions to the largest ----

  /** No header more than doubles the size of its segment. */
  lemma {:induction false} TwiceAtMost(ps: seq<Payload>)
    requires forall i | 0 <= i < |ps| :: ps[i].mode != Kanji
    ensures TotalBits(ps, 27) <= 2 * TotalBits(ps, 9)
  {
    if ps != [] {
      Headers();
      assert ps[0].mode != Kanji;
      TwiceAtMost(ps[1..]);
    }
  }

  // ---- all versions ----

  /** Without a change of width in between, what fits a version fits every larger one, economical or not. */
  lemma SameWidthsFit(ps: seq<Payload>, level: Level, best: nat, version: nat)
    requires ValidVersion(version) && Fits(ps, best, level) && best <= version && SameWidths(best, version)
    ensures Fits(ps, version, level)
  {
    DataBitsRise(best, version, level);
    SameTotals(ps, best, version);
    hide DataBits, TotalBits;
  }

  /** What fits a version fits every larger one, if it is economical in that one. */
  lemma LargerVersionFits(ps: seq<Payload>, level: Level, best: nat, version: nat)
    requires Alternates(ps) && ValidVersion(version) && Economical(ps, version)
    requires Fits(ps, best, level) && best <= version
    ensures Fits(ps, version, level)
  {
    if SameWidths(best, version) {
      SameWidthsFit(ps, level, best, version);
    } else if version < 27 {
      Widen(ps, level, best, version, 9, 10);
      FitsTen(ps, level);
    } else if best >= 10 {
      Widen(ps, level, best, version, 26, 27);
      FitsTwentySeven(ps, level);
    } else {
      Widen(ps, level, best, version, 9, 27);
      TwiceAtMost(ps);
      SizesAtChanges();
    }
    hide DataBits, TotalBits, Economical;
  }

  /** It is enough to look at the largest version of one width and the smallest of another. */
  lemma Widen(ps: seq<Payload>, level: Level, best: nat, version: nat, v: nat, w: nat)
    requires ValidVersion(version) && ValidVersion(v) && ValidVersion(w) && Economical(ps, version) && Fits(ps, best, level)
    requires SameWidths(best, v) && SameWidths(version, w) && best <= v && w <= version
    ensures TotalBits(ps, v) <= DataBits(v, level) && Economical(ps, w)
    ensures TotalBits(ps, w) <= DataBits(w, level) ==> Fits(ps, version, level)
  {
    SameTotals(ps, best, v);
    SameTotals(ps, version, w);
    DataBitsRise(best, v, level);
    DataBitsRise(w, version, level);
    SameEconomy(ps, version, w);
    hide DataBits, TotalBits, Economical;
  }

  lemma SameEconomy(ps: seq<Payload>, v: nat, w: nat)
    requires ValidVersion(v) && ValidVersion(w) && SameWidths(v, w) && Economical(ps, v)
    ensures Economical(ps, w)
  {
    forall m: Mode
      ensures GetReservedBitsCount(m, v) == GetReservedBitsCount(m, w)
    {}
    hide GetReservedBitsCount;
    forall i: nat | i < |ps|
      ensures ps[i].mode == Numeric ==> NumericPays(ps, i, w)
      ensures ps[i].mode == Alphanumeric ==> AlphanumericPays(ps, i, w)
    {
      assert ps[i].mode == Numeric ==> NumericPays(ps, i, v);
      assert ps[i].mode == Alphanumeric ==> AlphanumericPays(ps, i, v);
    }
  }
}
