/**
  Encoding modes of a QR symbol: which characters they cover, how many bits
  they take, and how wide their character count is
  (ISO/IEC 18004:2015, sections 7.3 and 7.4).
 */
module QrMode {
  /** A unit of the UTF-16 strings the program works on. */
  type CodeUnit = n: nat | n < 0x10000

  type Text = seq<CodeUnit>

  datatype Mode = Numeric | Alphanumeric | Byte | Kanji

  /** The four-bit mode indicator. */
  function ModeBit(m: Mode): nat {
    match m
    case Numeric => 1
    case Alphanumeric => 2
    case Byte => 4
    case Kanji => 8
  }

  predicate IsDigit(c: CodeUnit) {
    '0' as int <= c <= '9' as int
  }

  predicate IsUpper(c: CodeUnit) {
    'A' as int <= c <= 'Z' as int
  }

  /** Space, $, %, *, +, -, ., / and colon. */
  predicate IsAlphanumericSign(c: CodeUnit) {
    c in [' ' as int, '$' as int, '%' as int, '*' as int, '+' as int, '-' as int, '.' as int, '/' as int, ':' as int]
  }

  predicate IsAlphanumeric(c: CodeUnit) {
    IsDigit(c) || IsUpper(c) || IsAlphanumericSign(c)
  }

  predicate IsKanji(c: CodeUnit) {
    || 0x3000 <= c <= 0x303F || 0x3040 <= c <= 0x309F || 0x30A0 <= c <= 0x30FF || 0xFF00 <= c <= 0xFFEF
    || 0x4E00 <= c <= 0x9FAF || 0x2605 <= c <= 0x2606 || 0x2190 <= c <= 0x2195 || c == 0x203B
    || c in [0x2010, 0x2015, 0x2018, 0x2019, 0x2025, 0x2026, 0x201C, 0x201D, 0x2225, 0x2260]
    || 0x0391 <= c <= 0x0451 || c in [0x00A7, 0x00A8, 0x00B1, 0x00B4, 0x00D7, 0x00F7]
  }

  predicate Encodable(m: Mode, c: CodeUnit) {
    match m
    case Numeric => IsDigit(c)
    case Alphanumeric => IsAlphanumeric(c)
    case Byte => true
    case Kanji => IsKanji(c)
  }

  predicate AllEncodable(m: Mode, s: Text) {
    forall i | 0 <= i < |s| :: Encodable(m, s[i])
  }

  /** The number of bits that `n` characters (bytes, in byte mode) take. */
  function BitsLength(m: Mode, n: nat): nat {
    match m
    case Numeric => 10 * (n / 3) + (if n % 3 != 0 then (n % 3) * 3 + 1 else 0)
    case Alphanumeric => 11 * (n / 2) + 6 * (n % 2)
    case Byte => n * 8
    case Kanji => n * 13
  }

  lemma BitsLengthStep(m: Mode, n: nat)
    ensures BitsLength(m, n) <= BitsLength(m, n + 1)
  {}

  /** Longer data never takes fewer bits. */
  lemma {:induction false} BitsLengthMonotone(m: Mode, n: nat, k: nat)
    ensures BitsLength(m, n) <= BitsLength(m, n + k)
  {
    if k > 0 {
      BitsLengthMonotone(m, n, k - 1);
      BitsLengthStep(m, n + k - 1);
    }
  }

  /** Continuing a segment takes no more bits than starting over. */
  lemma BitsLengthSubadditive(m: Mode, n: nat, k: nat)
    ensures BitsLength(m, n + k) <= BitsLength(m, n) + BitsLength(m, k)
  {
    match m
    case Numeric =>
      assert BitsLength(m, n + k) * 3 <= 10 * (n + k) + 2;
      assert BitsLength(m, n) * 3 >= 10 * n && BitsLength(m, k) * 3 >= 10 * k;
    case Alphanumeric =>
      assert BitsLength(m, n + k) * 2 <= 11 * (n + k) + 1;
      assert BitsLength(m, n) * 2 >= 11 * n && BitsLength(m, k) * 2 >= 11 * k;
    case Byte =>
    case Kanji =>
  }

  predicate ValidVersion(version: int) {
    1 <= version <= 40
  }

  /** The width of the character count indicator. */
  function CharCountIndicator(m: Mode, version: int): (bits: nat)
    requires ValidVersion(version)
    ensures 8 <= bits <= 16
  {
    var column := if version < 10 then 0 else if version < 27 then 1 else 2;
    match m
    case Numeric => [10, 12, 14][column]
    case Alphanumeric => [9, 11, 13][column]
    case Byte => [8, 16, 16][column]
    case Kanji => [8, 10, 12][column]
  }
}
