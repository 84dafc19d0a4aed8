/**
  The sizes of symbols: codewords, error correction blocks and error
  correction codewords per version and level
  (ISO/IEC 18004:2015, Tables 1 and 9).
 */
module VersionTables {
  import opened QrMode

  datatype Level = L | M | Q | H

  datatype Correction = Correction(blocks: nat, codewords: nat)

  /** All codewords of a symbol, and how they are protected at each level. */
  datatype Row = Row(total: nat, low: Correction, medium: Correction, quartile: Correction, high: Correction)

  function Sizes(version: nat): Row
    requires ValidVersion(version)
  {
    match version
    case 1 => Row(26, Correction(1, 7), Correction(1, 10), Correction(1, 13), Correction(1, 17))
    case 2 => Row(44, Correction(1, 10), Correction(1, 16), Correction(1, 22), Correction(1, 28))
    case 3 => Row(70, Correction(1, 15), Correction(1, 26), Correction(2, 36), Correction(2, 44))
    case 4 => Row(100, Correction(1, 20), Correction(2, 36), Correction(2, 52), Correction(4, 64))
    case 5 => Row(134, Correction(1, 26), Correction(2, 48), Correction(4, 72), Correction(4, 88))
    case 6 => Row(172, Correction(2, 36), Correction(4, 64), Correction(4, 96), Correction(4, 112))
    case 7 => Row(196, Correction(2, 40), Correction(4, 72), Correction(6, 108), Correction(5, 130))
    case 8 => Row(242, Correction(2, 48), Correction(4, 88), Correction(6, 132), Correction(6, 156))
    case 9 => Row(292, Correction(2, 60), Correction(5, 110), Correction(8, 160), Correction(8, 192))
    case 10 => Row(346, Correction(4, 72), Correction(5, 130), Correction(8, 192), Correction(8, 224))
    case 11 => Row(404, Correction(4, 80), Correction(5, 150), Correction(8, 224), Correction(11, 264))
    case 12 => Row(466, Correction(4, 96), Correction(8, 176), Correction(10, 260), Correction(11, 308))
    case 13 => Row(532, Correction(4, 104), Correction(9, 198), Correction(12, 288), Correction(16, 352))
    case 14 => Row(581, Correction(4, 120), Correction(9, 216), Correction(16, 320), Correction(16, 384))
    case 15 => Row(655, Correction(6, 132), Correction(10, 240), Correction(12, 360), Correction(18, 432))
    case 16 => Row(733, Correction(6, 144), Correction(10, 280), Correction(17, 408), Correction(16, 480))
    case 17 => Row(815, Correction(6, 168), Correction(11, 308), Correction(16, 448), Correction(19, 532))
    case 18 => Row(901, Correction(6, 180), Correction(13, 338), Correction(18, 504), Correction(21, 588))
    case 19 => Row(991, Correction(7, 196), Correction(14, 364), Correction(21, 546), Correction(25, 650))
    case 20 => Row(1085, Correction(8, 224), Correction(16, 416), Correction(20, 600), Correction(25, 700))
    case 21 => Row(1156, Correction(8, 224), Correction(17, 442), Correction(23, 644), Correction(25, 750))
    case 22 => Row(1258, Correction(9, 252), Correction(17, 476), Correction(23, 690), Correction(34, 816))
    case 23 => Row(1364, Correction(9, 270), Correction(18, 504), Correction(25, 750), Correction(30, 900))
    case 24 => Row(1474, Correction(10, 300), Correction(20, 560), Correction(27, 810), Correction(32, 960))
    case 25 => Row(1588, Correction(12, 312), Correction(21, 588), Correction(29, 870), Correction(35, 1050))
    case 26 => Row(1706, Correction(12, 336), Correction(23, 644), Correction(34, 952), Correction(37, 1110))
    case 27 => Row(1828, Correction(12, 360), Correction(25, 700), Correction(34, 1020), Correction(40, 1200))
    case 28 => Row(1921, Correction(13, 390), Correction(26, 728), Correction(35, 1050), Correction(42, 1260))
    case 29 => Row(2051, Correction(14, 420), Correction(28, 784), Correction(38, 1140), Correction(45, 1350))
    case 30 => Row(2185, Correction(15, 450), Correction(29, 812), Correction(40, 1200), Correction(48, 1440))
    case 31 => Row(2323, Correction(16, 480), Correction(31, 868), Correction(43, 1290), Correction(51, 1530))
    case 32 => Row(2465, Correction(17, 510), Correction(33, 924), Correction(45, 1350), Correction(54, 1620))
    case 33 => Row(2611, Correction(18, 540), Correction(35, 980), Correction(48, 1440), Correction(57, 1710))
    case 34 => Row(2761, Correction(19, 570), Correction(37, 1036), Correction(51, 1530), Correction(60, 1800))
    case 35 => Row(2876, Correction(19, 570), Correction(38, 1064), Correction(53, 1590), Correction(63, 1890))
    case 36 => Row(3034, Correction(20, 600), Correction(40, 1120), Correction(56, 1680), Correction(66, 1980))
    case 37 => Row(3196, Correction(21, 630), Correction(43, 1204), Correction(59, 1770), Correction(70, 2100))
    case 38 => Row(3362, Correction(22, 660), Correction(45, 1260), Correction(62, 1860), Correction(74, 2220))
    case 39 => Row(3532, Correction(24, 720), Correction(47, 1316), Correction(65, 1950), Correction(77, 2310))
    case _ => Row(3706, Correction(25, 750), Correction(49, 1372), Correction(68, 2040), Correction(81, 2430))
  }

  function AtLevel(row: Row, level: Level): Correction {
    match level
    case L => row.low
    case M => row.medium
    case Q => row.quartile
    case H => row.high
  }

  function GetSymbolTotalCodewords(version: nat): nat
    requires ValidVersion(version)
  {
    Sizes(version).total
  }

  function GetBlocksCount(version: nat, level: Level): nat
    requires ValidVersion(version)
  {
    AtLevel(Sizes(version), level).blocks
  }

  function GetTotalCodewordsCount(version: nat, level: Level): nat
    requires ValidVersion(version)
  {
    AtLevel(Sizes(version), level).codewords
  }

  /** The sizes of one kind of symbol fit together. */
  predicate SizesAgree(total: nat, c: Correction) {
    && 0 < c.blocks <= 81 && c.codewords % c.blocks == 0 && 7 <= c.codewords / c.blocks <= 30
    && c.codewords + 9 <= total && total / c.blocks < 255 && c.codewords + c.blocks <= total
  }

  /** The most data codewords a symbol can have in the ranges of equally wide count indicators. */
  predicate DataBounded(version: nat, data: int) {
    data <= if version < 10 then 232 else if version < 27 then 1370 else 2956
  }

  predicate LevelAgrees(version: nat, total: nat, c: Correction) {
    SizesAgree(total, c) && DataBounded(version, total - c.codewords)
  }

  lemma LowAgrees(version: nat)
    requires ValidVersion(version)
    ensures LevelAgrees(version, Sizes(version).total, Sizes(version).low)
  {
    match version
    case 1 => case 2 => case 3 => case 4 => case 5 => case 6 => case 7 => case 8 => case 9 => case 10 =>
    case 11 => case 12 => case 13 => case 14 => case 15 => case 16 => case 17 => case 18 => case 19 => case 20 =>
    case 21 => case 22 => case 23 => case 24 => case 25 => case 26 => case 27 => case 28 => case 29 => case 30 =>
    case 31 => case 32 => case 33 => case 34 => case 35 => case 36 => case 37 => case 38 => case 39 => case _ =>
  }

  lemma MediumAgrees(version: nat)
    requires ValidVersion(version)
    ensures LevelAgrees(version, Sizes(version).total, Sizes(version).medium)
  {
    match version
    case 1 => case 2 => case 3 => case 4 => case 5 => case 6 => case 7 => case 8 => case 9 => case 10 =>
    case 11 => case 12 => case 13 => case 14 => case 15 => case 16 => case 17 => case 18 => case 19 => case 20 =>
    case 21 => case 22 => case 23 => case 24 => case 25 => case 26 => case 27 => case 28 => case 29 => case 30 =>
    case 31 => case 32 => case 33 => case 34 => case 35 => case 36 => case 37 => case 38 => case 39 => case _ =>
  }

  lemma QuartileAgrees(version: nat)
    requires ValidVersion(version)
    ensures LevelAgrees(version, Sizes(version).total, Sizes(version).quartile)
  {
    match version
    case 1 => case 2 => case 3 => case 4 => case 5 => case 6 => case 7 => case 8 => case 9 => case 10 =>
    case 11 => case 12 => case 13 => case 14 => case 15 => case 16 => case 17 => case 18 => case 19 => case 20 =>
    case 21 => case 22 => case 23 => case 24 => case 25 => case 26 => case 27 => case 28 => case 29 => case 30 =>
    case 31 => case 32 => case 33 => case 34 => case 35 => case 36 => case 37 => case 38 => case 39 => case _ =>
  }

  lemma HighAgrees(version: nat)
    requires ValidVersion(version)
    ensures LevelAgrees(version, Sizes(version).total, Sizes(version).high)
  {
    match version
    case 1 => case 2 => case 3 => case 4 => case 5 => case 6 => case 7 => case 8 => case 9 => case 10 =>
    case 11 => case 12 => case 13 => case 14 => case 15 => case 16 => case 17 => case 18 => case 19 => case 20 =>
    case 21 => case 22 => case 23 => case 24 => case 25 => case 26 => case 27 => case 28 => case 29 => case 30 =>
    case 31 => case 32 => case 33 => case 34 => case 35 => case 36 => case 37 => case 38 => case 39 => case _ =>
  }

  /** Every block gets the same number of error correction codewords, and no block is too long for the code. */
  lemma TablesAgree(version: nat, level: Level)
    requires ValidVersion(version)
    ensures SizesAgree(GetSymbolTotalCodewords(version), Correction(GetBlocksCount(version, level), GetTotalCodewordsCount(version, level)))
    ensures DataBounded(version, GetSymbolTotalCodewords(version) - GetTotalCodewordsCount(version, level))
  {
    hide Sizes;
    match level
    case L => LowAgrees(version);
    case M => MediumAgrees(version);
    case Q => QuartileAgrees(version);
    case H => HighAgrees(version);
  }
}
