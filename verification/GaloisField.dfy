/**
  GF(256) arithmetic of the Reed-Solomon encoder.

  The program multiplies bytes through a table of powers of two and a table of
  logarithms.  Here the field is first given on its own, as carry-less
  multiplication modulo the polynomial 0x11D, and the tables built by the
  program are then proved to compute exactly that multiplication.
 */
module GaloisField {
  import opened Results

  /** Addition of the field, and also its subtraction. */
  function Add(a: bv8, b: bv8): bv8 {
    a ^ b
  }

  /** Multiplication by the primitive element 2, reduced modulo 0x11D. */
  function Double(x: bv8): bv8 {
    if x & 0x80 != 0 then (x << 1) ^ 0x1D else x << 1
  }

  /** The n-th power of the primitive element. */
  function Exp(n: nat): bv8 {
    if n == 0 then 1 else Double(Exp(n - 1))
  }

  function Select(bit: bool, a: bv8): bv8 {
    if bit then a else 0
  }

  /** The bits of a byte, lowest first. */
  function Bits(b: bv8): seq<bool> {
    [b & 1 != 0, b & 2 != 0, b & 4 != 0, b & 8 != 0, b & 0x10 != 0, b & 0x20 != 0, b & 0x40 != 0, b & 0x80 != 0]
  }

  /** Shift-and-add product of `a` with the byte that has the given bits. */
  function TimesBits(a: bv8, bits: seq<bool>): bv8
    decreases bits
  {
    if bits == [] then 0 else Add(Select(bits[0], a), TimesBits(Double(a), bits[1..]))
  }

  /** The product of the field, independent of any table. */
  function Times(a: bv8, b: bv8): bv8 {
    TimesBits(a, Bits(b))
  }

  function Pow(x: bv8, n: nat): bv8 {
    if n == 0 then 1 else Times(Pow(x, n - 1), x)
  }

  // ---- the powers of two run through every nonzero byte ----

  lemma Powers000()
    ensures Exp(0) == 0x01 && Exp(1) == 0x02 && Exp(2) == 0x04 && Exp(3) == 0x08 && Exp(4) == 0x10 && Exp(5) == 0x20
    ensures Exp(6) == 0x40 && Exp(7) == 0x80 && Exp(8) == 0x1D && Exp(9) == 0x3A && Exp(10) == 0x74 && Exp(11) == 0xE8
    ensures Exp(12) == 0xCD && Exp(13) == 0x87 && Exp(14) == 0x13 && Exp(15) == 0x26
  {}

  lemma Powers016()
    ensures Exp(16) == 0x4C && Exp(17) == 0x98 && Exp(18) == 0x2D && Exp(19) == 0x5A && Exp(20) == 0xB4 && Exp(21) == 0x75
    ensures Exp(22) == 0xEA && Exp(23) == 0xC9 && Exp(24) == 0x8F && Exp(25) == 0x03 && Exp(26) == 0x06 && Exp(27) == 0x0C
    ensures Exp(28) == 0x18 && Exp(29) == 0x30 && Exp(30) == 0x60 && Exp(31) == 0xC0
  { Powers000(); }

  lemma Powers032()
    ensures Exp(32) == 0x9D && Exp(33) == 0x27 && Exp(34) == 0x4E && Exp(35) == 0x9C && Exp(36) == 0x25 && Exp(37) == 0x4A
    ensures Exp(38) == 0x94 && Exp(39) == 0x35 && Exp(40) == 0x6A && Exp(41) == 0xD4 && Exp(42) == 0xB5 && Exp(43) == 0x77
    ensures Exp(44) == 0xEE && Exp(45) == 0xC1 && Exp(46) == 0x9F && Exp(47) == 0x23
  { Powers016(); }

  lemma Powers048()
    ensures Exp(48) == 0x46 && Exp(49) == 0x8C && Exp(50) == 0x05 && Exp(51) == 0x0A && Exp(52) == 0x14 && Exp(53) == 0x28
    ensures Exp(54) == 0x50 && Exp(55) == 0xA0 && Exp(56) == 0x5D && Exp(57) == 0xBA && Exp(58) == 0x69 && Exp(59) == 0xD2
    ensures Exp(60) == 0xB9 && Exp(61) == 0x6F && Exp(62) == 0xDE && Exp(63) == 0xA1
  { Powers032(); }

  lemma Powers064()
    ensures Exp(64) == 0x5F && Exp(65) == 0xBE && Exp(66) == 0x61 && Exp(67) == 0xC2 && Exp(68) == 0x99 && Exp(69) == 0x2F
    ensures Exp(70) == 0x5E && Exp(71) == 0xBC && Exp(72) == 0x65 && Exp(73) == 0xCA && Exp(74) == 0x89 && Exp(75) == 0x0F
    ensures Exp(76) == 0x1E && Exp(77) == 0x3C && Exp(78) == 0x78 && Exp(79) == 0xF0
  { Powers048(); }

  lemma Powers080()
    ensures Exp(80) == 0xFD && Exp(81) == 0xE7 && Exp(82) == 0xD3 && Exp(83) == 0xBB && Exp(84) == 0x6B && Exp(85) == 0xD6
    ensures Exp(86) == 0xB1 && Exp(87) == 0x7F && Exp(88) == 0xFE && Exp(89) == 0xE1 && Exp(90) == 0xDF && Exp(91) == 0xA3
    ensures Exp(92) == 0x5B && Exp(93) == 0xB6 && Exp(94) == 0x71 && Exp(95) == 0xE2
  { Powers064(); }

  lemma Powers096()
    ensures Exp(96) == 0xD9 && Exp(97) == 0xAF && Exp(98) == 0x43 && Exp(99) == 0x86 && Exp(100) == 0x11 && Exp(101) == 0x22
    ensures Exp(102) == 0x44 && Exp(103) == 0x88 && Exp(104) == 0x0D && Exp(105) == 0x1A && Exp(106) == 0x34 && Exp(107) == 0x68
    ensures Exp(108) == 0xD0 && Exp(109) == 0xBD && Exp(110) == 0x67 && Exp(111) == 0xCE
  { Powers080(); }

  lemma Powers112()
    ensures Exp(112) == 0x81 && Exp(113) == 0x1F && Exp(114) == 0x3E && Exp(115) == 0x7C && Exp(116) == 0xF8 && Exp(117) == 0xED
    ensures Exp(118) == 0xC7 && Exp(119) == 0x93 && Exp(120) == 0x3B && Exp(121) == 0x76 && Exp(122) == 0xEC && Exp(123) == 0xC5
    ensures Exp(124) == 0x97 && Exp(125) == 0x33 && Exp(126) == 0x66 && Exp(127) == 0xCC
  { Powers096(); }

  lemma Powers128()
    ensures Exp(128) == 0x85 && Exp(129) == 0x17 && Exp(130) == 0x2E && Exp(131) == 0x5C && Exp(132) == 0xB8 && Exp(133) == 0x6D
    ensures Exp(134) == 0xDA && Exp(135) == 0xA9 && Exp(136) == 0x4F && Exp(137) == 0x9E && Exp(138) == 0x21 && Exp(139) == 0x42
    ensures Exp(140) == 0x84 && Exp(141) == 0x15 && Exp(142) == 0x2A && Exp(143) == 0x54
  { Powers112(); }

  lemma Powers144()
    ensures Exp(144) == 0xA8 && Exp(145) == 0x4D && Exp(146) == 0x9A && Exp(147) == 0x29 && Exp(148) == 0x52 && Exp(149) == 0xA4
    ensures Exp(150) == 0x55 && Exp(151) == 0xAA && Exp(152) == 0x49 && Exp(153) == 0x92 && Exp(154) == 0x39 && Exp(155) == 0x72
    ensures Exp(156) == 0xE4 && Exp(157) == 0xD5 && Exp(158) == 0xB7 && Exp(159) == 0x73
  { Powers128(); }

  lemma Powers160()
    ensures Exp(160) == 0xE6 && Exp(161) == 0xD1 && Exp(162) == 0xBF && Exp(163) == 0x63 && Exp(164) == 0xC6 && Exp(165) == 0x91
    ensures Exp(166) == 0x3F && Exp(167) == 0x7E && Exp(168) == 0xFC && Exp(169) == 0xE5 && Exp(170) == 0xD7 && Exp(171) == 0xB3
    ensures Exp(172) == 0x7B && Exp(173) == 0xF6 && Exp(174) == 0xF1 && Exp(175) == 0xFF
  { Powers144(); }

  lemma Powers176()
    ensures Exp(176) == 0xE3 && Exp(177) == 0xDB && Exp(178) == 0xAB && Exp(179) == 0x4B && Exp(180) == 0x96 && Exp(181) == 0x31
    ensures Exp(182) == 0x62 && Exp(183) == 0xC4 && Exp(184) == 0x95 && Exp(185) == 0x37 && Exp(186) == 0x6E && Exp(187) == 0xDC
    ensures Exp(188) == 0xA5 && Exp(189) == 0x57 && Exp(190) == 0xAE && Exp(191) == 0x41
  { Powers160(); }

  lemma Powers192()
    ensures Exp(192) == 0x82 && Exp(193) == 0x19 && Exp(194) == 0x32 && Exp(195) == 0x64 && Exp(196) == 0xC8 && Exp(197) == 0x8D
    ensures Exp(198) == 0x07 && Exp(199) == 0x0E && Exp(200) == 0x1C && Exp(201) == 0x38 && Exp(202) == 0x70 && Exp(203) == 0xE0
    ensures Exp(204) == 0xDD && Exp(205) == 0xA7 && Exp(206) == 0x53 && Exp(207) == 0xA6
  { Powers176(); }

  lemma Powers208()
    ensures Exp(208) == 0x51 && Exp(209) == 0xA2 && Exp(210) == 0x59 && Exp(211) == 0xB2 && Exp(212) == 0x79 && Exp(213) == 0xF2
    ensures Exp(214) == 0xF9 && Exp(215) == 0xEF && Exp(216) == 0xC3 && Exp(217) == 0x9B && Exp(218) == 0x2B && Exp(219) == 0x56
    ensures Exp(220) == 0xAC && Exp(221) == 0x45 && Exp(222) == 0x8A && Exp(223) == 0x09
  { Powers192(); }

  lemma Powers224()
    ensures Exp(224) == 0x12 && Exp(225) == 0x24 && Exp(226) == 0x48 && Exp(227) == 0x90 && Exp(228) == 0x3D && Exp(229) == 0x7A
    ensures Exp(230) == 0xF4 && Exp(231) == 0xF5 && Exp(232) == 0xF7 && Exp(233) == 0xF3 && Exp(234) == 0xFB && Exp(235) == 0xEB
    ensures Exp(236) == 0xCB && Exp(237) == 0x8B && Exp(238) == 0x0B && Exp(239) == 0x16
  { Powers208(); }

  lemma Powers240()
    ensures Exp(240) == 0x2C && Exp(241) == 0x58 && Exp(242) == 0xB0 && Exp(243) == 0x7D && Exp(244) == 0xFA && Exp(245) == 0xE9
    ensures Exp(246) == 0xCF && Exp(247) == 0x83 && Exp(248) == 0x1B && Exp(249) == 0x36 && Exp(250) == 0x6C && Exp(251) == 0xD8
    ensures Exp(252) == 0xAD && Exp(253) == 0x47 && Exp(254) == 0x8E
  { Powers224(); }

  /** 2 is primitive: every nonzero byte is one of its first 255 powers. */
  lemma EveryByteIsAPower(x: bv8)
    requires x != 0
    ensures exists i: nat | i < 255 :: Exp(i) == x
  {
    Powers000(); Powers016(); Powers032(); Powers048();
    Powers064(); Powers080(); Powers096(); Powers112();
    Powers128(); Powers144(); Powers160(); Powers176();
    Powers192(); Powers208(); Powers224(); Powers240();
  }

  lemma ExpPeriod(n: nat)
    ensures Exp(n + 255) == Exp(n)
  {
    if n == 0 {
      Powers240();
    } else {
      ExpPeriod(n - 1);
    }
  }

  /** The first 255 powers are pairwise different. */
  lemma {:induction false} ExpInjective(i: nat, j: nat)
    requires i < j < 255
    ensures Exp(i) != Exp(j)
  {
    if Exp(i) == Exp(j) {
      NoShorterPeriod(j - i);
      ExpCancel(i, j - i);
    }
  }

  lemma NoShorterPeriod(d: nat)
    requires 0 < d < 255
    ensures Exp(d) != 1
  {
    Powers000(); Powers016(); Powers032(); Powers048();
    Powers064(); Powers080(); Powers096(); Powers112();
    Powers128(); Powers144(); Powers160(); Powers176();
    Powers192(); Powers208(); Powers224(); Powers240();
  }

  lemma DoubleInjective(x: bv8, y: bv8)
    requires Double(x) == Double(y)
    ensures x == y
  {}

  lemma {:induction false} ExpCancel(i: nat, d: nat)
    requires Exp(i) == Exp(i + d)
    ensures Exp(d) == 1
  {
    if i > 0 {
      DoubleInjective(Exp(i - 1), Exp(i - 1 + d));
      ExpCancel(i - 1, d);
    }
  }

  // ---- doubling is linear over exclusive or ----

  lemma AddSwap(a: bv8, b: bv8, c: bv8, d: bv8)
    ensures Add(Add(a, b), Add(c, d)) == Add(Add(a, c), Add(b, d))
  {
    hide Add;
    AddLaws(a, b, Add(c, d));
    AddLaws(b, c, d);
    AddLaws(c, b, d);
    AddLaws(a, c, Add(b, d));
  }

  lemma AddLaws(a: bv8, b: bv8, c: bv8)
    ensures Add(a, b) == Add(b, a)
    ensures Add(Add(a, b), c) == Add(a, Add(b, c))
    ensures Add(a, a) == 0 && Add(a, 0) == a && Add(0, a) == a
    ensures Add(a, b) == 0 <==> a == b
  {}

  function Reduction(x: bv8): bv8 {
    if x & 0x80 != 0 then 0x1D else 0
  }

  lemma DoubleSplit(x: bv8)
    ensures Double(x) == Add(x << 1, Reduction(x))
  {}

  lemma ShiftLinear(a: bv8, b: bv8)
    ensures Add(a, b) << 1 == Add(a << 1, b << 1)
  {}

  lemma ReductionLinear(a: bv8, b: bv8)
    ensures Reduction(Add(a, b)) == Add(Reduction(a), Reduction(b))
  {}

  lemma DoubleLinear(a: bv8, b: bv8)
    ensures Double(Add(a, b)) == Add(Double(a), Double(b))
  {
    hide Add, Double, Reduction;
    DoubleSplit(a);
    DoubleSplit(b);
    DoubleSplit(Add(a, b));
    ShiftLinear(a, b);
    ReductionLinear(a, b);
    AddSwap(a << 1, Reduction(a), b << 1, Reduction(b));
  }

  // ---- the product ----

  lemma SelectLinear(bit: bool, x: bv8, y: bv8)
    ensures Select(bit, Add(x, y)) == Add(Select(bit, x), Select(bit, y))
    ensures Select(bit, Double(x)) == Double(Select(bit, x))
  {}

  lemma {:induction false} TimesBitsLinear(x: bv8, y: bv8, bits: seq<bool>)
    ensures TimesBits(Add(x, y), bits) == Add(TimesBits(x, bits), TimesBits(y, bits))
    decreases bits
  {
    hide Add, Double, Select;
    if bits == [] {
      SelectZero();
    } else {
      DoubleLinear(x, y);
      TimesBitsLinear(Double(x), Double(y), bits[1..]);
      SelectLinear(bits[0], x, y);
      AddSwap(Select(bits[0], x), Select(bits[0], y),
              TimesBits(Double(x), bits[1..]), TimesBits(Double(y), bits[1..]));
    }
  }

  /** Multiplication distributes over addition, which is exclusive or. */
  lemma Distributive(x: bv8, y: bv8, b: bv8)
    ensures Times(Add(x, y), b) == Add(Times(x, b), Times(y, b))
  {
    hide Add, TimesBits, Bits;
    TimesBitsLinear(x, y, Bits(b));
  }

  lemma {:induction false} TimesBitsDouble(a: bv8, bits: seq<bool>)
    ensures TimesBits(Double(a), bits) == Double(TimesBits(a, bits))
    decreases bits
  {
    hide Add, Double, Select;
    if bits == [] {
      SelectZero();
    } else {
      TimesBitsDouble(Double(a), bits[1..]);
      SelectLinear(bits[0], a, a);
      DoubleLinear(Select(bits[0], a), TimesBits(Double(a), bits[1..]));
    }
  }

  lemma BitsRebuild(b: bv8)
    ensures |Bits(b)| == 8
    ensures var s := Bits(b);
            Add(Select(s[0], 1), Add(Select(s[1], 2), Add(Select(s[2], 4), Add(Select(s[3], 8),
            Add(Select(s[4], 0x10), Add(Select(s[5], 0x20), Add(Select(s[6], 0x40),
            Add(Select(s[7], 0x80), 0)))))))) == b
  {}

  lemma FirstPowers()
    ensures Double(1) == 2 && Double(2) == 4 && Double(4) == 8 && Double(8) == 0x10
    ensures Double(0x10) == 0x20 && Double(0x20) == 0x40 && Double(0x40) == 0x80
  {}

  lemma TimesBitsStep(a: bv8, s: seq<bool>, k: nat)
    requires k < |s|
    ensures TimesBits(a, s[k..]) == Add(Select(s[k], a), TimesBits(Double(a), s[k + 1..]))
    ensures TimesBits(a, s[|s|..]) == 0
  {}

  /** One is neutral: the eight shifted copies of 1 rebuild the byte. */
  lemma TimesOne(b: bv8)
    ensures Times(1, b) == b
  {
    hide Add, Double, Select, Bits, TimesBits;
    FirstPowers();
    BitsRebuild(b);
    var s := Bits(b);
    TimesBitsStep(0x80, s, 7);
    TimesBitsStep(0x40, s, 6);
    TimesBitsStep(0x20, s, 5);
    TimesBitsStep(0x10, s, 4);
    TimesBitsStep(8, s, 3);
    TimesBitsStep(4, s, 2);
    TimesBitsStep(2, s, 1);
    TimesBitsStep(1, s, 0);
    TimesBitsStep(Double(0x80), s, 0);
    assert s[0..] == s;
  }

  lemma SelectZero()
    ensures Select(false, 1) == 0 && Double(0) == 0 && Add(0, 0) == 0
  {}

  lemma TimesZero(b: bv8)
    ensures Times(0, b) == 0 && Times(b, 0) == 0
  {
    hide TimesBits;
    TimesBitsZero(0, Bits(b));
    TimesBitsZero(b, Bits(0));
  }

  lemma {:induction false} TimesBitsZero(a: bv8, bits: seq<bool>)
    requires a == 0 || forall i | 0 <= i < |bits| :: !bits[i]
    ensures TimesBits(a, bits) == 0
    decreases bits
  {
    if bits != [] {
      TimesBitsZero(Double(a), bits[1..]);
    }
  }

  /** Multiplying powers adds their exponents; this is what the tables rely on. */
  lemma {:induction false} TimesExp(i: nat, j: nat)
    ensures Times(Exp(i), Exp(j)) == Exp(i + j)
  {
    if i == 0 {
      TimesOne(Exp(j));
    } else {
      TimesExp(i - 1, j);
      TimesBitsDouble(Exp(i - 1), Bits(Exp(j)));
    }
  }

  // ---- the field laws ----

  lemma Commutative(x: bv8, y: bv8)
    ensures Times(x, y) == Times(y, x)
  {
    if x == 0 || y == 0 {
      TimesZero(x);
      TimesZero(y);
    } else {
      EveryByteIsAPower(x);
      EveryByteIsAPower(y);
      var i: nat :| i < 255 && Exp(i) == x;
      var j: nat :| j < 255 && Exp(j) == y;
      TimesExp(i, j);
      TimesExp(j, i);
    }
  }

  lemma Associative(x: bv8, y: bv8, z: bv8)
    ensures Times(Times(x, y), z) == Times(x, Times(y, z))
  {
    if x == 0 || y == 0 || z == 0 {
      TimesZero(x);
      TimesZero(y);
      TimesZero(z);
      TimesZero(Times(x, y));
      TimesZero(Times(y, z));
    } else {
      EveryByteIsAPower(x);
      EveryByteIsAPower(y);
      EveryByteIsAPower(z);
      var i: nat :| i < 255 && Exp(i) == x;
      var j: nat :| j < 255 && Exp(j) == y;
      var k: nat :| k < 255 && Exp(k) == z;
      TimesExp(i, j);
      TimesExp(j, k);
      TimesExp(i + j, k);
      TimesExp(i, j + k);
    }
  }

  /** No zero divisors. */
  lemma NoZeroDivisor(x: bv8, y: bv8)
    requires Times(x, y) == 0
    ensures x == 0 || y == 0
  {
    if x != 0 && y != 0 {
      EveryByteIsAPower(x);
      EveryByteIsAPower(y);
      var i: nat :| i < 255 && Exp(i) == x;
      var j: nat :| j < 255 && Exp(j) == y;
      TimesExp(i, j);
      ExpNonzero(i + j);
    }
  }

  lemma DoubleNonzero(x: bv8)
    requires x != 0
    ensures Double(x) != 0
  {}

  lemma {:induction false} ExpNonzero(n: nat)
    ensures Exp(n) != 0
  {
    if n > 0 {
      ExpNonzero(n - 1);
      DoubleNonzero(Exp(n - 1));
    }
  }

  // ---- the tables of the program ----

  /** The widened step of the table loop agrees with doubling in the field. */
  function WideStep(x: bv16): bv16 {
    var shifted := x << 1;
    if shifted & 0x100 != 0 then shifted ^ 0x11D else shifted
  }

  function Wide(x: bv8): bv16 {
    x as bv16
  }

  function Narrow(x: bv16): bv8 {
    (x & 0xFF) as bv8
  }

  function Index(x: bv8): nat {
    x as nat
  }

  lemma IndexInjective(x: bv8, y: bv8)
    ensures Index(x) < 256
    ensures Index(x) == Index(y) ==> x == y
  {}

  lemma WideStepIsDouble(x: bv8)
    ensures WideStep(Wide(x)) == Wide(Double(x))
    ensures Narrow(Wide(x)) == x
  {}

  lemma WideStepIsExp(n: nat)
    ensures Wide(Exp(0)) == 1
    ensures WideStep(Wide(Exp(n))) == Wide(Exp(n + 1))
    ensures Narrow(Wide(Exp(n))) == Exp(n)
    ensures Index(Exp(n)) < 256
  {
    hide Double, WideStep;
    IndexInjective(Exp(n), Exp(n));
    WideStepIsDouble(Exp(n));
  }

  class Tables {
    const expTable: array<bv8>
    const logTable: array<nat>

    /** The entry of a nonzero byte is an exponent that gives the byte back. */
    ghost predicate Logged(x: bv8)
      requires logTable.Length == 256
      reads logTable
    {
      logTable[Index(x)] < 255 && Exp(logTable[Index(x)]) == x
    }

    ghost predicate Valid()
      reads expTable, logTable
    {
      && expTable.Length == 512 && logTable.Length == 256
      && (forall i: nat | i < 512 :: expTable[i] == Exp(i))
      && (forall x: bv8 | x != 0 :: Logged(x))
    }

    /** Fills the power table by repeated doubling and the logarithm table beside it. */
    constructor ()
      ensures Valid() && fresh(expTable) && fresh(logTable)
    {
      hide Exp, WideStep, Wide, Narrow, Index;
      expTable := new bv8[512](_ => 0);
      logTable := new nat[256](_ => 0);
      new;
      var x: bv16 := 1;
      WideStepIsExp(0);
      for i := 0 to 255
        invariant x == Wide(Exp(i))
        invariant forall k: nat | k < i :: expTable[k] == Exp(k)
        invariant forall k: nat | k < i :: Logged(Exp(k))
      {
        WideStepIsExp(i);
        var power := Narrow(x);
        expTable[i] := power;
        logTable[Index(power)] := i;
        x := WideStep(x);
        forall k: nat | k < i
          ensures Logged(Exp(k))
        {
          IndexInjective(Exp(k), Exp(i));
        }
      }
      for i := 255 to 512
        invariant forall k: nat | k < i :: expTable[k] == Exp(k)
        invariant forall k: nat | k < 255 :: Logged(Exp(k))
      {
        ExpPeriod(i - 255);
        expTable[i] := expTable[i - 255];
      }
      forall x: bv8 {:trigger Logged(x)} | x != 0
        ensures Logged(x)
      {
        EveryByteIsAPower(x);
      }
    }

    /** Discrete logarithm; the only input without one is 0. */
    function Log(n: bv8): (r: Result<nat>)
      requires Valid()
      reads expTable, logTable
      ensures r.Ok? <==> n != 0
      ensures r.Ok? ==> r.value < 255 && Exp(r.value) == n
    {
      assert n != 0 ==> Logged(n);
      if n < 1 then Err("log") else Ok(logTable[Index(n)])
    }

    /** The table lookup multiplies in the field. */
    function Mul(x: bv8, y: bv8): (r: bv8)
      requires Valid()
      reads expTable, logTable
      ensures r == Times(x, y)
    {
      if x == 0 || y == 0 then
        TimesZero(x);
        TimesZero(y);
        0
      else
        assert Logged(x) && Logged(y);
        TimesExp(logTable[Index(x)], logTable[Index(y)]);
        expTable[logTable[Index(x)] + logTable[Index(y)]]
    }
  }
}

