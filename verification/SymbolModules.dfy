/** Drawing a whole symbol: function patterns, codewords, mask, format information. */
module SymbolModules {
  import opened Bits
  import opened Matrix
  import opened Placement
  import opened FunctionPatterns
  import opened Penalties
  import opened Masking
  import opened SymbolCapacity
  import opened VersionTables

  ghost predicate FinderIntact(size: nat, cells: seq<bool>)
    requires IsGrid(size, cells)
  {
    forall r: nat, c: nat | r < size && c < size && InFinder(size, r, c) :: At(size, cells, r, c) == FinderModule(size, r, c)
  }

  ghost predicate TimingIntact(size: nat, cells: seq<bool>)
    requires IsGrid(size, cells)
  {
    forall r: nat, c: nat | r < size && c < size && InTiming(size, r, c) :: At(size, cells, r, c) == TimingModule(r, c)
  }

  ghost predicate PatternsHeld(size: nat, reserved: seq<bool>)
    requires IsGrid(size, reserved)
  {
    forall r: nat, c: nat | r < size && c < size && (InFinder(size, r, c) || InTiming(size, r, c)) :: At(size, reserved, r, c)
  }

  /** Finder and timing patterns are drawn, and reserved with the place of the format information. */
  ghost predicate Prepared(size: nat, cells: seq<bool>, reserved: seq<bool>)
    requires ValidSize(size)
  {
    && IsGrid(size, cells) && IsGrid(size, reserved)
    && FinderIntact(size, cells) && TimingIntact(size, cells) && PatternsHeld(size, reserved) && FormatHeld(size, reserved)
  }

  /** Every alignment pattern of the version is drawn and reserved. */
  ghost predicate AlignmentsWhole(version: nat, coords: seq<int>, cells: seq<bool>, reserved: seq<bool>)
    requires 1 <= version <= 40 && IsGrid(SymbolSize(version), cells) && IsGrid(SymbolSize(version), reserved)
  {
    var size := SymbolSize(version);
    version > 1 ==>
      forall m: (int, int), r: nat, c: nat | AlignmentCentre(coords, m) && r < size && c < size && Near(Alignment(m), r, c) ::
        At(size, cells, r, c) == Dark(Alignment(m), r, c) && At(size, reserved, r, c)
  }

  /** From version 7 on, both copies of the version information are drawn and reserved. */
  ghost predicate VersionWhole(version: nat, bits: seq<bool>, cells: seq<bool>, reserved: seq<bool>)
    requires 1 <= version <= 40 && |bits| == 18 && IsGrid(SymbolSize(version), cells) && IsGrid(SymbolSize(version), reserved)
  {
    var size := SymbolSize(version);
    version >= 7 ==>
      forall r: nat, c: nat | r < size && c < size && InVersionInfo(size, r, c) ::
        At(size, cells, r, c) == bits[VersionIndex(size, r, c)] && At(size, reserved, r, c)
  }

  /** Both copies of the format information, and the dark module. */
  ghost predicate FormatWhole(size: nat, bits: seq<bool>, cells: seq<bool>)
    requires ValidSize(size) && |bits| == 15 && IsGrid(size, cells)
  {
    forall r: nat, c: nat | r < size && c < size && FormatIndex(size, r, c) != -1 ::
      At(size, cells, r, c) == (FormatIndex(size, r, c) == 15 || bits[FormatIndex(size, r, c)])
  }

  /** All function patterns of a version are there, and nothing else is reserved. */
  ghost predicate Whole(version: nat, cells: seq<bool>, reserved: seq<bool>, format: seq<bool>, versionBits: seq<bool>)
    requires 1 <= version <= 40 && |format| == 15 && |versionBits| == 18
  {
    var size, coords := SymbolSize(version), if version > 1 then AnnexE(version) else [];
    && IsGrid(size, cells) && IsGrid(size, reserved) && (version > 1 ==> Coordinates(version, coords))
    && FinderIntact(size, cells) && TimingIntact(size, cells) && AlignmentsWhole(version, coords, cells, reserved)
    && FormatWhole(size, format, cells) && VersionWhole(version, versionBits, cells, reserved)
    && forall r: nat, c: nat | r < size && c < size :: At(size, reserved, r, c) <==> FunctionArea(version, coords, r, c)
  }

  /** Column 6, which the zig-zag leaves out, holds function patterns only. */
  lemma ColumnSixHeld(size: nat, reserved: seq<bool>, r: nat)
    requires ValidSize(size) && IsGrid(size, reserved) && PatternsHeld(size, reserved) && r < size
    ensures At(size, reserved, r, 6)
  {
    ColumnSixReserved(size, r);
  }

  /** Every unreserved module is on the zig-zag, exactly once. */
  lemma UnreservedVisitedOnce(size: nat, reserved: seq<bool>, r: nat, c: nat)
    requires ValidSize(size) && IsGrid(size, reserved) && PatternsHeld(size, reserved)
    requires r < size && c < size && !At(size, reserved, r, c)
    ensures exists i | 0 <= i < |Order(size, size / 2)| :: Order(size, size / 2)[i] == (r, c)
    ensures forall i, j | 0 <= i < |Order(size, size / 2)| && 0 <= j < |Order(size, size / 2)|
                          && Order(size, size / 2)[i] == (r, c) && Order(size, size / 2)[j] == (r, c) :: i == j
  {
    if c == 6 {
      ColumnSixHeld(size, reserved, r);
    }
    VisitsOnce(size);
    assert (r, c) in Order(size, size / 2);
  }

  lemma FormatApart(size: nat, r: nat, c: nat)
    requires ValidSize(size) && FormatIndex(size, r, c) != -1
    ensures !InFinder(size, r, c) && !InTiming(size, r, c)
  {
    FinderBounds(size, r, c);
    hide InFinder;
  }

  lemma VersionApart(size: nat, r: nat, c: nat)
    requires ValidSize(size) && InVersionInfo(size, r, c)
    ensures !InFinder(size, r, c) && !InTiming(size, r, c)
  {
    FinderBounds(size, r, c);
    hide InFinder;
  }

  lemma PatternsApart(size: nat, r: nat, c: nat)
    requires ValidSize(size)
    ensures !(InFinder(size, r, c) && InTiming(size, r, c))
  {
    FinderBounds(size, r, c);
    hide InFinder;
  }

  /** Nothing but finder and timing patterns is reserved. */
  ghost predicate OnlyFinderAndTiming(size: nat, reserved: seq<bool>)
    requires IsGrid(size, reserved)
  {
    forall r: nat, c: nat | r < size && c < size && At(size, reserved, r, c) :: InFinder(size, r, c) || InTiming(size, r, c)
  }

  method DrawFinderAndTiming(modules: BitMatrix)
    requires modules.Valid() && ValidSize(modules.size)
    requires forall r: nat, c: nat | r < modules.size && c < modules.size :: !At(modules.size, modules.Reserved(), r, c)
    modifies modules.data, modules.reservedBit
    ensures FinderIntact(modules.size, modules.Cells()) && TimingIntact(modules.size, modules.Cells())
    ensures PatternsHeld(modules.size, modules.Reserved()) && OnlyFinderAndTiming(modules.size, modules.Reserved())
  {
    hide At, InFinder, InTiming, FinderModule, TimingModule;
    SetupFinderPattern(modules);
    SetupTimingPattern(modules);
    forall r: nat, c: nat
      ensures !(InFinder(modules.size, r, c) && InTiming(modules.size, r, c))
    {
      PatternsApart(modules.size, r, c);
    }
  }

  lemma AlignmentsOnly(version: nat, coords: seq<int>, centres: seq<(int, int)>, before: seq<bool>, kept: seq<bool>,
                       cells: seq<bool>, reserved: seq<bool>)
    requires 1 <= version <= 40 && (version == 1 ==> centres == [])
    requires version > 1 ==> forall m | m in centres :: AlignmentCentre(coords, m)
    requires AlignmentsDrawn(SymbolSize(version), centres, |centres|, before, kept, cells, reserved)
    requires OnlyFinderAndTiming(SymbolSize(version), kept)
    ensures OnlyPatterns(version, coords, reserved)
  {
    hide At, Near, InFinder, InTiming, FormatIndex, IsCentre, SymbolSize;
    forall r: nat, c: nat | r < SymbolSize(version) && c < SymbolSize(version) && At(SymbolSize(version), reserved, r, c)
      ensures FunctionArea(version, coords, r, c)
    {
      if Covered(centres, |centres|, r, c) {
        var k :| 0 <= k < |centres| && Near(Alignment(centres[k]), r, c);
        assert centres[k] in centres;
        var i, j :| IsCentre(coords, i, j, centres[k]);
        assert InAlignment(coords, r, c);
      }
    }
  }

  lemma AllAligned(version: nat, coords: seq<int>, centres: seq<(int, int)>, before: seq<bool>, kept: seq<bool>,
                   cells: seq<bool>, reserved: seq<bool>)
    requires 1 <= version <= 40
    requires version > 1 ==> forall m :: m in centres <==> AlignmentCentre(coords, m)
    requires AlignmentsDrawn(SymbolSize(version), centres, |centres|, before, kept, cells, reserved)
    ensures AlignmentsWhole(version, coords, cells, reserved)
  {
    hide At, Near, Dark, AlignmentCentre, SymbolSize;
    var size := SymbolSize(version);
    if version > 1 {
      forall m: (int, int), r: nat, c: nat | AlignmentCentre(coords, m) && r < size && c < size && Near(Alignment(m), r, c)
        ensures At(size, cells, r, c) == Dark(Alignment(m), r, c) && At(size, reserved, r, c)
      {
        var k :| 0 <= k < |centres| && centres[k] == m;
        assert Covered(centres, |centres|, r, c);
      }
    }
  }

  method DrawAlignments(modules: BitMatrix, version: nat) returns (ghost coords: seq<int>)
    requires modules.Valid() && 1 <= version <= 40 && modules.size == SymbolSize(version)
    requires FinderIntact(modules.size, modules.Cells()) && TimingIntact(modules.size, modules.Cells())
    requires PatternsHeld(modules.size, modules.Reserved()) && OnlyFinderAndTiming(modules.size, modules.Reserved())
    modifies modules.data, modules.reservedBit
    ensures FinderIntact(modules.size, modules.Cells()) && TimingIntact(modules.size, modules.Cells())
    ensures PatternsHeld(modules.size, modules.Reserved())
    ensures (version > 1 ==> Coordinates(version, coords)) && OnlyPatterns(version, coords, modules.Reserved())
    ensures AlignmentsWhole(version, coords, modules.Cells(), modules.Reserved())
  {
    hide At, InFinder, InTiming, FinderModule, TimingModule, Near, Dark, Coordinates, AlignmentCentre, FormatIndex, SymbolSize;
    ghost var cells, kept := modules.Cells(), modules.Reserved();
    ghost var centres;
    centres, coords := SetupAlignmentPattern(modules, version);
    AlignmentsOnly(version, coords, centres, cells, kept, modules.Cells(), modules.Reserved());
    AllAligned(version, coords, centres, cells, kept, modules.Cells(), modules.Reserved());
    hide OnlyPatterns, AlignmentsWhole;
    forall r: nat, c: nat | r < modules.size && c < modules.size
      ensures InFinder(modules.size, r, c) ==> At(modules.size, modules.Cells(), r, c) == At(modules.size, cells, r, c)
      ensures InTiming(modules.size, r, c) && At(modules.size, cells, r, c) == TimingModule(r, c)
              ==> At(modules.size, modules.Cells(), r, c) == TimingModule(r, c)
    {
      AlignmentsKeep(version, coords, centres, cells, kept, modules.Cells(), modules.Reserved(), r, c);
    }
  }

  /** Pictures that differ only where there is format information keep their alignment patterns. */
  lemma AlignmentsBesideFormat(version: nat, coords: seq<int>, before: seq<bool>, kept: seq<bool>, cells: seq<bool>, reserved: seq<bool>)
    requires 1 <= version <= 40 && (version > 1 ==> Coordinates(version, coords))
    requires IsGrid(SymbolSize(version), before) && IsGrid(SymbolSize(version), kept)
    requires IsGrid(SymbolSize(version), cells) && IsGrid(SymbolSize(version), reserved)
    requires AlignmentsWhole(version, coords, before, kept)
    requires forall r: nat, c: nat | r < SymbolSize(version) && c < SymbolSize(version)
                                     && At(SymbolSize(version), kept, r, c) && FormatIndex(SymbolSize(version), r, c) == -1 ::
               At(SymbolSize(version), cells, r, c) == At(SymbolSize(version), before, r, c) && At(SymbolSize(version), reserved, r, c)
    ensures AlignmentsWhole(version, coords, cells, reserved)
  {
    hide At, Near, Dark, AlignmentCentre, FormatIndex, SymbolSize, Coordinates, InFinder;
    var size := SymbolSize(version);
    if version > 1 {
      forall m: (int, int), r: nat, c: nat | AlignmentCentre(coords, m) && r < size && c < size && Near(Alignment(m), r, c)
        ensures At(size, cells, r, c) == Dark(Alignment(m), r, c) && At(size, reserved, r, c)
      {
        AlignmentApart(version, coords, m, r, c);
      }
    }
  }

  method DrawFormat(modules: BitMatrix, bits: seq<bool>, ghost version: nat, ghost coords: seq<int>)
    requires modules.Valid() && 1 <= version <= 40 && modules.size == SymbolSize(version) && |bits| == 15
    requires FinderIntact(modules.size, modules.Cells()) && TimingIntact(modules.size, modules.Cells())
    requires PatternsHeld(modules.size, modules.Reserved()) && OnlyPatterns(version, coords, modules.Reserved())
    requires (version > 1 ==> Coordinates(version, coords)) && AlignmentsWhole(version, coords, modules.Cells(), modules.Reserved())
    modifies modules.data, modules.reservedBit
    ensures Prepared(modules.size, modules.Cells(), modules.Reserved()) && OnlyPatterns(version, coords, modules.Reserved())
    ensures AlignmentsWhole(version, coords, modules.Cells(), modules.Reserved())
  {
    hide At, InFinder, InTiming, FinderModule, TimingModule, FormatIndex, InAlignment, InVersionInfo;
    hide AlignmentCentre, Near, Dark, Coordinates, AlignmentsWhole, SymbolSize;
    ghost var before, kept := modules.Cells(), modules.Reserved();
    SetupFormatInfo(modules, bits);
    AlignmentsBesideFormat(version, coords, before, kept, modules.Cells(), modules.Reserved());
    forall r: nat, c: nat | FormatIndex(modules.size, r, c) != -1
      ensures !InFinder(modules.size, r, c) && !InTiming(modules.size, r, c)
    {
      FormatApart(modules.size, r, c);
    }
  }

  lemma AlignmentOffVersion(version: nat, coords: seq<int>, m: (int, int), r: nat, c: nat)
    requires 7 <= version <= 40 && Coordinates(version, coords) && AlignmentCentre(coords, m) && Near(Alignment(m), r, c)
    ensures !InVersionInfo(SymbolSize(version), r, c)
  {
    CentreBounds(version, coords, m);
    NearBounds(Alignment(m), r, c);
    hide Coordinates, AlignmentCentre, Near;
  }

  method DrawVersion(modules: BitMatrix, bits: seq<bool>, ghost version: nat, ghost coords: seq<int>)
    requires modules.Valid() && 7 <= version <= 40 && modules.size == SymbolSize(version) && |bits| == 18
    requires Prepared(modules.size, modules.Cells(), modules.Reserved()) && OnlyPatterns(version, coords, modules.Reserved())
    requires Coordinates(version, coords) && AlignmentsWhole(version, coords, modules.Cells(), modules.Reserved())
    modifies modules.data, modules.reservedBit
    ensures Prepared(modules.size, modules.Cells(), modules.Reserved()) && OnlyPatterns(version, coords, modules.Reserved())
    ensures AlignmentsWhole(version, coords, modules.Cells(), modules.Reserved())
    ensures VersionWhole(version, bits, modules.Cells(), modules.Reserved())
  {
    hide At, InFinder, InTiming, FinderModule, TimingModule, FormatIndex, InVersionInfo, InAlignment;
    hide AlignmentCentre, Near, Dark, Coordinates, SymbolSize, VersionIndex;
    SetupVersionInfo(modules, bits);
    forall m: (int, int), r: nat, c: nat | AlignmentCentre(coords, m) && Near(Alignment(m), r, c)
      ensures !InVersionInfo(modules.size, r, c)
    {
      AlignmentOffVersion(version, coords, m, r, c);
    }
    forall r: nat, c: nat | InVersionInfo(modules.size, r, c)
      ensures !InFinder(modules.size, r, c) && !InTiming(modules.size, r, c)
    {
      VersionApart(modules.size, r, c);
    }
  }

  /** The bits of `data`, then zeros, can be read off the picture. */
  ghost predicate Carries(size: nat, cells: seq<bool>, reserved: seq<bool>, data: seq<bv8>)
    requires ValidSize(size) && IsGrid(size, cells) && IsGrid(size, reserved)
  {
    forall k | 0 <= k < |ReadSymbol(size, cells, reserved)| :: ReadSymbol(size, cells, reserved)[k] == DataBit(data, k)
  }

  /** Changes to reserved modules do not disturb the data. */
  lemma SameUnreserved(size: nat, cells: seq<bool>, cells': seq<bool>, reserved: seq<bool>)
    requires ValidSize(size) && IsGrid(size, cells) && IsGrid(size, cells') && IsGrid(size, reserved)
    requires forall r: nat, c: nat | r < size && c < size && !At(size, reserved, r, c) :: At(size, cells', r, c) == At(size, cells, r, c)
    ensures ReadSymbol(size, cells', reserved) == ReadSymbol(size, cells, reserved)
  {
    VisitsOnce(size);
    hide At, Distinct;
    ReadElsewhere(size, cells, cells', reserved, Order(size, size / 2));
  }

  /** Changes to unreserved modules, or to format modules, leave the patterns alone. */
  lemma StillPrepared(size: nat, cells: seq<bool>, cells': seq<bool>, reserved: seq<bool>)
    requires ValidSize(size) && Prepared(size, cells, reserved) && IsGrid(size, cells')
    requires forall r: nat, c: nat | r < size && c < size && At(size, reserved, r, c) && FormatIndex(size, r, c) == -1 ::
               At(size, cells', r, c) == At(size, cells, r, c)
    ensures Prepared(size, cells', reserved)
  {
    hide At, InFinder, InTiming, FinderModule, TimingModule, FormatIndex;
    forall r: nat, c: nat | InFinder(size, r, c) || InTiming(size, r, c)
      ensures FormatIndex(size, r, c) == -1
    {
      if FormatIndex(size, r, c) != -1 {
        FormatApart(size, r, c);
      }
    }
  }

  datatype MaskChoice = Automatic | Fixed(pattern: nat)

  /** The finished picture, its mask undone. */
  lemma Unmasked(size: nat, cells: seq<bool>, reserved: seq<bool>, formats: seq<seq<bool>>, p: nat, data: seq<bv8>)
    requires ValidSize(size) && Prepared(size, cells, reserved) && ValidFormats(formats) && p < 8
    requires Carries(size, cells, reserved, data)
    ensures Prepared(size, Trial(size, cells, reserved, formats, p), reserved)
    ensures Carries(size, Masked(size, Trial(size, cells, reserved, formats, p), reserved, p), reserved, data)
  {
    var plain := WithFormat(size, cells, formats[p]);
    WithFormatAt(size, cells, formats[p]);
    MaskedAt(size, plain, reserved, p);
    MaskInvolution(size, plain, reserved, p);
    hide At, FormatIndex, WithFormat, Masked, FinderIntact, TimingIntact, PatternsHeld;
    SameUnreserved(size, cells, plain, reserved);
    StillPrepared(size, cells, Trial(size, cells, reserved, formats, p), reserved);
  }

  lemma FormatAlreadyHeld(size: nat, kept: seq<bool>, reserved: seq<bool>)
    requires ValidSize(size) && FormatReserved(size, kept, reserved) && FormatHeld(size, kept)
    ensures reserved == kept
  {
    hide At, FormatIndex;
    SamePicture(size, reserved, kept);
  }

  /**
    Draws a symbol.  `plain` is the picture after placing the data.  The result
    is what the mask makes of it; undoing the mask and following the zig-zag
    reads the codewords; the finder and timing patterns are whole; and a mask
    that was not given is the lowest-numbered one whose finished symbol has
    the least penalty.
   */
  method CreateModules(version: nat, dataBits: seq<bv8>, formats: seq<seq<bool>>, versionBits: seq<bool>, choice: MaskChoice)
    returns (modules: BitMatrix, maskPattern: nat, ghost plain: seq<bool>)
    requires 1 <= version <= 40 && ValidFormats(formats) && |versionBits| == 18 && (choice.Fixed? ==> choice.pattern < 8)
    ensures modules.Valid() && modules.size == SymbolSize(version) && maskPattern < 8 && IsGrid(modules.size, plain)
    ensures Prepared(modules.size, modules.Cells(), modules.Reserved())
    ensures Whole(version, modules.Cells(), modules.Reserved(), formats[maskPattern], versionBits)
    ensures modules.Cells() == Trial(modules.size, plain, modules.Reserved(), formats, maskPattern)
    ensures Carries(modules.size, Masked(modules.size, modules.Cells(), modules.Reserved(), maskPattern), modules.Reserved(), dataBits)
    ensures choice.Automatic? ==> Best(modules.size, plain, modules.Reserved(), formats, maskPattern, 8)
    ensures choice.Automatic? ==> forall q: nat | q < 8 ::
              Penalty(modules.size, modules.Cells()) <= TrialPenalty(modules.size, plain, modules.Reserved(), formats, q)
    ensures choice.Fixed? ==> maskPattern == choice.pattern
    ensures |ReadSymbol(modules.size, Masked(modules.size, modules.Cells(), modules.Reserved(), maskPattern), modules.Reserved())|
            >= 8 * GetSymbolTotalCodewords(version)
  {
    hide At, FinderIntact, TimingIntact, PatternsHeld, FormatHeld, WithFormat, Masked, Best, Carries, FormatIndex, TrialPenalty, Penalty,
         OnlyPatterns, OnlyFinderAndTiming, Coordinates, GetSymbolTotalCodewords, ReadSymbol, AlignmentsWhole, Whole;
    var moduleCount := SymbolSize(version);
    modules := new BitMatrix(moduleCount);
    DrawFinderAndTiming(modules);
    ghost var coords := DrawAlignments(modules, version);
    DrawFormat(modules, formats[0], version, coords);
    if version >= 7 {
      DrawVersion(modules, versionBits, version, coords);
    }
    ghost var drawn, kept := modules.Cells(), modules.Reserved();
    SetupData(modules, dataBits);
    plain := modules.Cells();
    DataPlaced(moduleCount, drawn, plain, kept, dataBits);
    if choice == Automatic {
      maskPattern := GetBestMask(modules, formats);
      FormatAlreadyHeld(moduleCount, kept, modules.Reserved());
    } else {
      maskPattern := choice.pattern;
    }
    ghost var unmasked := modules.Cells();
    ApplyMask(maskPattern, modules);
    ghost var masked := modules.Cells();
    SetupFormatInfo(modules, formats[maskPattern]);
    FormatAlreadyHeld(moduleCount, kept, modules.Reserved());
    FormatUnique(moduleCount, masked, modules.Cells(), formats[maskPattern]);
    MaskThenFormat(moduleCount, unmasked, kept, formats[maskPattern], maskPattern);
    if choice == Automatic {
      FormatOverwrites(moduleCount, plain, formats[7], formats[maskPattern]);
      LeastPenalty(moduleCount, plain, kept, formats, maskPattern);
    }
    Unmasked(moduleCount, plain, kept, formats, maskPattern, dataBits);
    FinishedWhole(version, coords, drawn, plain, kept, formats, maskPattern, versionBits);
    SymbolHoldsCodewords(version, coords, Masked(moduleCount, modules.Cells(), kept, maskPattern), kept);
  }

  /** Masking leaves the reserved modules alone, and the format information is written over its own. */
  lemma TrialReserved(size: nat, plain: seq<bool>, reserved: seq<bool>, formats: seq<seq<bool>>, p: nat)
    requires ValidSize(size) && IsGrid(size, plain) && IsGrid(size, reserved) && ValidFormats(formats) && p < 8
    ensures forall r: nat, c: nat | r < size && c < size && At(size, reserved, r, c) ::
              At(size, Trial(size, plain, reserved, formats, p), r, c)
              == if FormatIndex(size, r, c) == -1 then At(size, plain, r, c)
                 else FormatIndex(size, r, c) == 15 || formats[p][FormatIndex(size, r, c)]
  {
    WithFormatAt(size, plain, formats[p]);
    MaskedAt(size, WithFormat(size, plain, formats[p]), reserved, p);
    hide At, FormatIndex, WithFormat, Masked, Inverts;
  }

  /** The modules drawn before the data are all there in the finished symbol. */
  lemma FinishedWhole(version: nat, coords: seq<int>, drawn: seq<bool>, plain: seq<bool>, kept: seq<bool>,
                      formats: seq<seq<bool>>, p: nat, versionBits: seq<bool>)
    requires 1 <= version <= 40 && ValidFormats(formats) && p < 8 && |versionBits| == 18
    requires Prepared(SymbolSize(version), drawn, kept) && IsGrid(SymbolSize(version), plain)
    requires (version > 1 ==> Coordinates(version, coords)) && OnlyPatterns(version, coords, kept)
    requires AlignmentsWhole(version, coords, drawn, kept) && VersionWhole(version, versionBits, drawn, kept)
    requires forall r: nat, c: nat | r < SymbolSize(version) && c < SymbolSize(version) && At(SymbolSize(version), kept, r, c) ::
               At(SymbolSize(version), plain, r, c) == At(SymbolSize(version), drawn, r, c)
    ensures Whole(version, Trial(SymbolSize(version), plain, kept, formats, p), kept, formats[p], versionBits)
  {
    var size := SymbolSize(version);
    var cells := Trial(size, plain, kept, formats, p);
    TrialReserved(size, plain, kept, formats, p);
    if version > 1 {
      CoordinatesAreAnnexE(version, coords);
    }
    hide At, Trial, FormatIndex, Coordinates, SymbolSize, AnnexE, OnlyPatterns;
    StillPrepared(size, drawn, cells, kept);
    AlignmentsBesideFormat(version, coords, drawn, kept, cells, kept);
    VersionBesideFormat(version, versionBits, drawn, cells, kept);
    ExactlyHeld(version, coords, drawn, kept);
    hide FinderIntact, TimingIntact, PatternsHeld, AlignmentsWhole, VersionWhole;
    SameAlignments(version, coords, cells, kept);
  }

  /** In version 1, which has no alignment patterns, the list of coordinates does not matter. */
  lemma SameAlignments(version: nat, coords: seq<int>, cells: seq<bool>, kept: seq<bool>)
    requires 1 <= version <= 40 && (version > 1 ==> coords == AnnexE(version))
    requires IsGrid(SymbolSize(version), cells) && IsGrid(SymbolSize(version), kept)
    ensures var row := if version > 1 then AnnexE(version) else [];
            && (AlignmentsWhole(version, coords, cells, kept) <==> AlignmentsWhole(version, row, cells, kept))
            && forall r: nat, c: nat :: FunctionArea(version, coords, r, c) <==> FunctionArea(version, row, r, c)
  {
    hide InFinder, InTiming, FormatIndex, InVersionInfo, InAlignment, At, SymbolSize;
  }

  lemma VersionBesideFormat(version: nat, bits: seq<bool>, before: seq<bool>, cells: seq<bool>, kept: seq<bool>)
    requires 1 <= version <= 40 && |bits| == 18 && IsGrid(SymbolSize(version), before)
    requires IsGrid(SymbolSize(version), cells) && IsGrid(SymbolSize(version), kept)
    requires VersionWhole(version, bits, before, kept)
    requires forall r: nat, c: nat | r < SymbolSize(version) && c < SymbolSize(version)
                                     && At(SymbolSize(version), kept, r, c) && FormatIndex(SymbolSize(version), r, c) == -1 ::
               At(SymbolSize(version), cells, r, c) == At(SymbolSize(version), before, r, c)
    ensures VersionWhole(version, bits, cells, kept)
  {
    hide At, VersionIndex;
  }

  /** Everything that is reserved belongs to a function pattern, and the other way round. */
  lemma ExactlyHeld(version: nat, coords: seq<int>, cells: seq<bool>, kept: seq<bool>)
    requires 1 <= version <= 40 && IsGrid(SymbolSize(version), cells) && OnlyPatterns(version, coords, kept)
    requires PatternsHeld(SymbolSize(version), kept) && FormatHeld(SymbolSize(version), kept)
    requires AlignmentsWhole(version, coords, cells, kept)
    requires version >= 7 ==>
               forall r: nat, c: nat | r < SymbolSize(version) && c < SymbolSize(version) && InVersionInfo(SymbolSize(version), r, c) ::
                 At(SymbolSize(version), kept, r, c)
    ensures forall r: nat, c: nat | r < SymbolSize(version) && c < SymbolSize(version) ::
              At(SymbolSize(version), kept, r, c) <==> FunctionArea(version, coords, r, c)
  {
    hide At, InFinder, InTiming, FormatIndex, Near, Dark, SymbolSize, IsCentre, InVersionInfo;
    var size := SymbolSize(version);
    forall r: nat, c: nat | r < size && c < size && version > 1 && InAlignment(coords, r, c)
      ensures At(size, kept, r, c)
    {
      var i, j, m :| IsCentre(coords, i, j, m) && Near(Alignment(m), r, c);
      assert AlignmentCentre(coords, m);
    }
  }

  /** The finished symbol has the least penalty of the eight. */
  lemma LeastPenalty(size: nat, plain: seq<bool>, reserved: seq<bool>, formats: seq<seq<bool>>, best: nat)
    requires Best(size, plain, reserved, formats, best, 8)
    ensures forall q: nat | q < 8 ::
              Penalty(size, Trial(size, plain, reserved, formats, best)) <= TrialPenalty(size, plain, reserved, formats, q)
  {
    assert TrialPenalty(size, plain, reserved, formats, best) == Penalty(size, Trial(size, plain, reserved, formats, best));
    hide TrialPenalty, Trial, Penalty;
  }

  lemma DataPlaced(size: nat, drawn: seq<bool>, cells: seq<bool>, reserved: seq<bool>, data: seq<bv8>)
    requires ValidSize(size) && Prepared(size, drawn, reserved) && IsGrid(size, cells)
    requires forall k | 0 <= k < |ReadSymbol(size, cells, reserved)| :: ReadSymbol(size, cells, reserved)[k] == DataBit(data, k)
    requires forall r: nat, c: nat | r < size && c < size && (At(size, reserved, r, c) || c == 6) ::
               At(size, cells, r, c) == At(size, drawn, r, c)
    ensures Prepared(size, cells, reserved) && Carries(size, cells, reserved, data)
  {
    hide At, ReadSymbol, DataBit, FinderIntact, TimingIntact, PatternsHeld, FormatHeld;
    StillPrepared(size, drawn, cells, reserved);
  }

  // ---- what a reader sees, place by place ----

  /** The dark modules of the eight rows of a finder pattern with its light frame, from its corner inwards. */
  const FINDER: seq<set<nat>> :=
    [{0, 1, 2, 3, 4, 5, 6}, {0, 6}, {0, 2, 3, 4, 6}, {0, 2, 3, 4, 6}, {0, 2, 3, 4, 6}, {0, 6}, {0, 1, 2, 3, 4, 5, 6}, {}]

  /** The dark modules of the five rows of an alignment pattern. */
  const ALIGNMENT: seq<set<nat>> := [{0, 1, 2, 3, 4}, {0, 4}, {0, 2, 4}, {0, 4}, {0, 1, 2, 3, 4}]

  /** Three corners show the finder pattern. */
  lemma FinderShown(version: nat, cells: seq<bool>, reserved: seq<bool>, format: seq<bool>, versionBits: seq<bool>, r: nat, c: nat)
    requires 1 <= version <= 40 && |format| == 15 && |versionBits| == 18 && Whole(version, cells, reserved, format, versionBits)
    requires r < 8 && c < 8
    ensures var size := SymbolSize(version);
            && (At(size, cells, r, c) <==> c in FINDER[r])
            && (At(size, cells, size - 1 - r, c) <==> c in FINDER[r])
            && (At(size, cells, r, size - 1 - c) <==> c in FINDER[r])
  {
    hide At, FinderIntact, SymbolSize;
    assert FinderIntact(SymbolSize(version), cells);
    hide Whole;
    FinderAt(SymbolSize(version), cells, r, c);
  }

  lemma FinderAt(size: nat, cells: seq<bool>, r: nat, c: nat)
    requires ValidSize(size) && IsGrid(size, cells) && FinderIntact(size, cells) && r < 8 && c < 8
    ensures At(size, cells, r, c) <==> c in FINDER[r]
    ensures At(size, cells, size - 1 - r, c) <==> c in FINDER[r]
    ensures At(size, cells, r, size - 1 - c) <==> c in FINDER[r]
  {
    FinderCorner(size, r, c);
    FinderRow(r, c);
    hide At, InFinder, FinderModule, Dark;
  }

  lemma FinderCorner(size: nat, r: nat, c: nat)
    requires ValidSize(size) && r < 8 && c < 8
    ensures InFinder(size, r, c) && InFinder(size, size - 1 - r, c) && InFinder(size, r, size - 1 - c)
    ensures FinderModule(size, r, c) == Dark(Finder(0, 0), r, c)
    ensures FinderModule(size, size - 1 - r, c) == Dark(Finder(0, 0), r, c)
    ensures FinderModule(size, r, size - 1 - c) == Dark(Finder(0, 0), r, c)
  {}

  lemma FinderRow(r: nat, c: nat)
    requires r < 8 && c < 8
    ensures Dark(Finder(0, 0), r, c) <==> c in FINDER[r]
  {
    FinderShape(0, 0, r, c);
    hide Dark, Near;
  }

  /** Between the finder patterns, row 6 and column 6 alternate from dark. */
  lemma TimingShown(version: nat, cells: seq<bool>, reserved: seq<bool>, format: seq<bool>, versionBits: seq<bool>, k: nat)
    requires 1 <= version <= 40 && |format| == 15 && |versionBits| == 18 && Whole(version, cells, reserved, format, versionBits)
    requires 8 <= k < SymbolSize(version) - 8
    ensures var size := SymbolSize(version);
            At(size, cells, 6, k) == At(size, cells, k, 6) == (k % 2 == 0)
  {
    var size := SymbolSize(version);
    assert InTiming(size, 6, k) && InTiming(size, k, 6) && TimingIntact(size, cells);
    assert TimingModule(6, k) == TimingModule(k, 6) == (k % 2 == 0);
    hide At, Whole, InTiming, TimingModule, SymbolSize;
  }

  /** Around every pair of coordinates of the table, but the three corners, lies an alignment pattern. */
  lemma AlignmentShown(version: nat, cells: seq<bool>, reserved: seq<bool>, format: seq<bool>, versionBits: seq<bool>,
                       i: nat, j: nat, r: nat, c: nat)
    requires 2 <= version <= 40 && |format| == 15 && |versionBits| == 18 && Whole(version, cells, reserved, format, versionBits)
    requires var row := AnnexE(version);
             && i < |row| && j < |row| && !(i == 0 && j == 0) && !(i == 0 && j == |row| - 1) && !(i == |row| - 1 && j == 0)
             && 2 <= row[i] <= SymbolSize(version) - 3 && 2 <= row[j] <= SymbolSize(version) - 3
    requires r < 5 && c < 5
    ensures var row := AnnexE(version);
            At(SymbolSize(version), cells, row[i] - 2 + r, row[j] - 2 + c) <==> c in ALIGNMENT[r]
  {
    hide At, AnnexE, Near, Dark, AlignmentCentre, SymbolSize;
    var row := AnnexE(version);
    assert AlignmentsWhole(version, row, cells, reserved);
    hide Whole, AlignmentsWhole;
    TableCentre(row, i, j);
    AlignmentAt(version, row, cells, reserved, (row[i], row[j]), r, c);
  }

  lemma TableCentre(row: seq<int>, i: nat, j: nat)
    requires i < |row| && j < |row| && !(i == 0 && j == 0) && !(i == 0 && j == |row| - 1) && !(i == |row| - 1 && j == 0)
    ensures AlignmentCentre(row, (row[i], row[j]))
  {
    assert IsCentre(row, i, j, (row[i], row[j]));
  }

  lemma AlignmentAt(version: nat, row: seq<int>, cells: seq<bool>, reserved: seq<bool>, m: (int, int), r: nat, c: nat)
    requires 2 <= version <= 40 && IsGrid(SymbolSize(version), cells) && IsGrid(SymbolSize(version), reserved)
    requires AlignmentsWhole(version, row, cells, reserved) && AlignmentCentre(row, m)
    requires 2 <= m.0 <= SymbolSize(version) - 3 && 2 <= m.1 <= SymbolSize(version) - 3 && r < 5 && c < 5
    ensures At(SymbolSize(version), cells, m.0 - 2 + r, m.1 - 2 + c) <==> c in ALIGNMENT[r]
  {
    AlignmentRow(r, c);
    AlignmentShape(m.0, m.1, r - 2, c - 2);
    hide At, Near, Dark, AlignmentCentre, SymbolSize;
    var x, y := m.0 - 2 + r, m.1 - 2 + c;
    assert (m.0, m.1) == m && x == m.0 + (r - 2) && y == m.1 + (c - 2);
  }

  lemma AlignmentRow(r: nat, c: nat)
    requires r < 5 && c < 5
    ensures c in ALIGNMENT[r] <==> r == 0 || r == 4 || c == 0 || c == 4 || (r == 2 && c == 2)
  {}

  /** Every format bit stands in column 8 and in row 8, and the module above the lower copy is dark. */
  lemma FormatShown(version: nat, cells: seq<bool>, reserved: seq<bool>, format: seq<bool>, versionBits: seq<bool>, i: nat)
    requires 1 <= version <= 40 && |format| == 15 && |versionBits| == 18 && Whole(version, cells, reserved, format, versionBits)
    requires i < 15
    ensures var size := SymbolSize(version);
            && At(size, cells, if i < 6 then i else if i < 8 then i + 1 else size - 15 + i, 8) == format[i]
            && At(size, cells, 8, if i < 8 then size - 1 - i else if i == 8 then 7 else 14 - i) == format[i]
            && At(size, cells, size - 8, 8)
  {
    var size := SymbolSize(version);
    var r := if i < 6 then i else if i < 8 then i + 1 else size - 15 + i;
    var c := if i < 8 then size - 1 - i else if i == 8 then 7 else 14 - i;
    assert FormatIndex(size, r, 8) == i && FormatIndex(size, 8, c) == i && FormatIndex(size, size - 8, 8) == 15;
    assert FormatWhole(size, format, cells);
    hide At, Whole, FormatIndex, SymbolSize;
  }

  /** From version 7 on, version bit `i` stands in row `i / 3` left of the upper right finder pattern, and mirrored. */
  lemma VersionShown(version: nat, cells: seq<bool>, reserved: seq<bool>, format: seq<bool>, versionBits: seq<bool>, i: nat)
    requires 7 <= version <= 40 && |format| == 15 && |versionBits| == 18 && Whole(version, cells, reserved, format, versionBits)
    requires i < 18
    ensures var size := SymbolSize(version);
            && At(size, cells, i / 3, size - 11 + i % 3) == versionBits[i]
            && At(size, cells, size - 11 + i % 3, i / 3) == versionBits[i]
  {
    var size := SymbolSize(version);
    var r, c := i / 3, size - 11 + i % 3;
    assert InVersionInfo(size, r, c) && InVersionInfo(size, c, r);
    assert VersionIndex(size, r, c) == i && VersionIndex(size, c, r) == i;
    assert VersionWhole(version, versionBits, cells, reserved);
    hide At, Whole, InVersionInfo, VersionIndex, SymbolSize;
  }

  /** The bottom right corner belongs to no function pattern. */
  lemma CornerFree(version: nat, coords: seq<int>, r: nat, c: nat)
    requires 1 <= version <= 40 && (version > 1 ==> Coordinates(version, coords))
    requires SymbolSize(version) - 4 <= r < SymbolSize(version) && SymbolSize(version) - 2 <= c < SymbolSize(version)
    ensures !FunctionArea(version, coords, r, c)
  {
    FinderBounds(SymbolSize(version), r, c);
    hide InFinder;
    if version > 1 && InAlignment(coords, r, c) {
      var i, j, m :| IsCentre(coords, i, j, m) && Near(Alignment(m), r, c);
      assert AlignmentCentre(coords, m);
      CentreBounds(version, coords, m);
      NearBounds(Alignment(m), r, c);
    }
  }

  /**
    The eight bits of the first codeword, most significant first, stand in the
    bottom right corner, two to a row from the bottom up and right before left,
    inverted where the pattern says so.
   */
  lemma FirstCodewordShown(version: nat, cells: seq<bool>, reserved: seq<bool>, format: seq<bool>, versionBits: seq<bool>,
                           p: nat, data: seq<bv8>, k: nat)
    requires 1 <= version <= 40 && |format| == 15 && |versionBits| == 18 && Whole(version, cells, reserved, format, versionBits)
    requires p < 8 && data != [] && k < 8
    requires Carries(SymbolSize(version), Masked(SymbolSize(version), cells, reserved, p), reserved, data)
    ensures var r, c := SymbolSize(version) - 1 - k / 2, SymbolSize(version) - 1 - k % 2;
            At(SymbolSize(version), cells, r, c) == (((data[0] >> (7 - k)) & 1 == 1) != Inverts(p, r, c))
  {
    CornerUnreserved(version, cells, reserved, format, versionBits);
    hide Whole, SymbolSize;
    CornerBit(SymbolSize(version), cells, reserved, p, data, k);
  }

  lemma CornerUnreserved(version: nat, cells: seq<bool>, reserved: seq<bool>, format: seq<bool>, versionBits: seq<bool>)
    requires 1 <= version <= 40 && |format| == 15 && |versionBits| == 18 && Whole(version, cells, reserved, format, versionBits)
    ensures var size := SymbolSize(version);
            forall r: nat, c: nat | size - 4 <= r < size && size - 2 <= c < size :: !At(size, reserved, r, c)
  {
    hide At, FunctionArea, Coordinates, AnnexE, FinderIntact, TimingIntact, AlignmentsWhole, FormatWhole, VersionWhole;
    var size, coords := SymbolSize(version), if version > 1 then AnnexE(version) else [];
    forall r: nat, c: nat | size - 4 <= r < size && size - 2 <= c < size
      ensures !At(size, reserved, r, c)
    {
      CornerFree(version, coords, r, c);
    }
  }

  lemma CornerBit(size: nat, cells: seq<bool>, reserved: seq<bool>, p: nat, data: seq<bv8>, k: nat)
    requires ValidSize(size) && IsGrid(size, cells) && IsGrid(size, reserved) && p < 8 && data != [] && k < 8
    requires forall r: nat, c: nat | size - 4 <= r < size && size - 2 <= c < size :: !At(size, reserved, r, c)
    requires Carries(size, Masked(size, cells, reserved, p), reserved, data)
    ensures var r, c := size - 1 - k / 2, size - 1 - k % 2;
            At(size, cells, r, c) == (((data[0] >> (7 - k)) & 1 == 1) != Inverts(p, r, c))
  {
    var plain := Masked(size, cells, reserved, p);
    var r, c := size - 1 - k / 2, size - 1 - k % 2;
    hide At, Masked, Inverts, ReadSymbol, DataBit;
    FirstBits(size, plain, reserved, 4);
    assert ReadSymbol(size, plain, reserved)[k] == At(size, plain, r, c) == DataBit(data, k);
    hide Carries;
    FirstByteBit(data, k);
    MaskedAt(size, cells, reserved, p);
  }

  lemma FirstByteBit(data: seq<bv8>, k: nat)
    requires data != [] && k < 8
    ensures DataBit(data, k) == ((data[0] >> (7 - k)) & 1 == 1)
  {
    assert DataBit(data, k) == BitOf(data[0], 7 - k);
  }

  /** The windows that cost points look like a line through the middle of a finder pattern with four light modules at one end. */
  lemma FinderScored(w: seq<bool>)
    ensures var core := seq(7, c requires 0 <= c < 7 => c in FINDER[3]);
            FinderLike(w) <==> w == core + [false, false, false, false] || w == [false, false, false, false] + core
  {
    var core := seq(7, c requires 0 <= c < 7 => c in FINDER[3]);
    assert core == [true, false, true, true, true, false, true];
  }
}
