/**
  Numeric, alphanumeric and byte data as bits, and back
  (ISO/IEC 18004:2015, sections 7.4.3 to 7.4.5).
 */
module Writers {
  import opened Bits
  import opened Buffers
  import opened QrMode

  /** What a segment writes: characters, or the bytes of its UTF-8 form in byte mode. */
  predicate Writable(mode: Mode, units: seq<nat>) {
    match mode
    case Numeric => forall i | 0 <= i < |units| :: '0' as int <= units[i] <= '9' as int
    case Alphanumeric => forall i | 0 <= i < |units| :: units[i] < 0x10000 && IsAlphanumeric(units[i])
    case Byte => forall i | 0 <= i < |units| :: units[i] < 256
    case Kanji => false
  }

  // ---- numeric ----

  predicate AllDigits(s: seq<nat>) {
    forall i | 0 <= i < |s| :: '0' as int <= s[i] <= '9' as int
  }

  /** The number that decimal digits stand for. */
  function Decimal(s: seq<nat>): nat
    requires AllDigits(s)
  {
    if s == [] then 0 else 10 * Decimal(s[..|s| - 1]) + s[|s| - 1] - '0' as int
  }

  /** A number in a given count of decimal digits. */
  function DigitsOf(v: nat, n: nat): seq<nat> {
    if n == 0 then [] else DigitsOf(v / 10, n - 1) + ['0' as int + v % 10]
  }

  lemma {:induction false} DigitsRoundTrip(s: seq<nat>)
    requires AllDigits(s)
    ensures DigitsOf(Decimal(s), |s|) == s
  {
    if s != [] {
      DigitsRoundTrip(s[..|s| - 1]);
    }
  }

  lemma {:induction false} DecimalBounds(s: seq<nat>)
    requires AllDigits(s) && 1 <= |s| <= 3
    ensures Decimal(s) < if |s| == 1 then 10 else if |s| == 2 then 100 else 1000
  {
    if |s| > 1 {
      DecimalBounds(s[..|s| - 1]);
    }
  }

  lemma FieldWidths()
    ensures Pow2(4) == 16 && Pow2(6) == 64 && Pow2(7) == 128 && Pow2(8) == 256 && Pow2(10) == 1024 && Pow2(11) == 2048
  {
    assert Pow2(3) == 8;
    assert Pow2(6) == 64;
    assert Pow2(9) == 512;
  }

  function EncodeNumeric(s: seq<nat>): seq<bool>
    requires AllDigits(s)
  {
    if |s| >= 3 then NumBits(Decimal(s[..3]), 10) + EncodeNumeric(s[3..])
    else if s == [] then []
    else NumBits(Decimal(s), |s| * 3 + 1)
  }

  /** Reads `n` digits. */
  function DecodeNumeric(bits: seq<bool>, n: nat): seq<nat>
    requires |bits| == BitsLength(Numeric, n)
  {
    if n >= 3 then DigitsOf(FromBits(bits[..10]), 3) + DecodeNumeric(bits[10..], n - 3)
    else if n == 0 then []
    else DigitsOf(FromBits(bits), n)
  }

  /** A group of up to three digits is read back from its field. */
  lemma NumericGroup(group: seq<nat>)
    requires AllDigits(group) && 1 <= |group| <= 3
    ensures DigitsOf(FromBits(NumBits(Decimal(group), |group| * 3 + 1)), |group|) == group
  {
    hide Pow2, Decimal, DigitsOf, NumBits, FromBits;
    FieldWidths();
    DecimalBounds(group);
    NumberRoundTrip(Decimal(group), |group| * 3 + 1);
    DigitsRoundTrip(group);
  }

  lemma {:induction false} NumericRoundTrip(s: seq<nat>)
    requires AllDigits(s)
    ensures |EncodeNumeric(s)| == BitsLength(Numeric, |s|)
    ensures DecodeNumeric(EncodeNumeric(s), |s|) == s
  {
    hide NumBits, FromBits, DigitsOf, Decimal;
    if |s| >= 3 {
      NumericRoundTrip(s[3..]);
      NumericGroup(s[..3]);
      var bits := EncodeNumeric(s);
      assert bits[..10] == NumBits(Decimal(s[..3]), 10) && bits[10..] == EncodeNumeric(s[3..]);
      assert s == s[..3] + s[3..];
    } else if s != [] {
      NumericGroup(s);
    }
  }

  lemma NumericStep(data: seq<nat>, i: nat)
    requires AllDigits(data) && i + 3 <= |data|
    ensures EncodeNumeric(data[i..]) == NumBits(Decimal(data[i..i + 3]), 10) + EncodeNumeric(data[i + 3..])
    ensures Decimal(data[i..i + 3]) < 1000
  {
    assert data[i..][..3] == data[i..i + 3] && data[i..][3..] == data[i + 3..];
    DecimalBounds(data[i..i + 3]);
  }

  lemma NumericEnd(data: seq<nat>, i: nat)
    requires AllDigits(data) && i <= |data| < i + 3
    ensures EncodeNumeric(data[i..]) == if i == |data| then [] else NumBits(Decimal(data[i..]), (|data| - i) * 3 + 1)
    ensures Decimal(data[i..]) < 1000
  {
    if i < |data| {
      DecimalBounds(data[i..]);
    }
  }

  /** Appends the digits in groups of three. */
  method WriteNumeric(data: seq<nat>, bitBuffer: BitBuffer)
    requires bitBuffer.Valid() && AllDigits(data)
    modifies bitBuffer
    ensures bitBuffer.Valid() && bitBuffer.Contents() == old(bitBuffer.Contents()) + EncodeNumeric(data)
  {
    hide NumBits, EncodeNumeric, Decimal;
    ghost var before := bitBuffer.Contents();
    var i := 0;
    assert data[0..] == data;
    while i + 3 <= |data|
      invariant i <= |data| && bitBuffer.Valid()
      invariant bitBuffer.Contents() + EncodeNumeric(data[i..]) == before + EncodeNumeric(data)
    {
      var group := data[i..i + 3];
      NumericStep(data, i);
      bitBuffer.Put(Decimal(group), 10);
      i := i + 3;
    }
    var remainingNum := |data| - i;
    NumericEnd(data, i);
    if remainingNum > 0 {
      var group := data[i..];
      bitBuffer.Put(Decimal(group), remainingNum * 3 + 1);
    }
  }

  // ---- alphanumeric ----

  /** The forty-five characters in order: digits, letters, signs. */
  function CharAt(v: nat): (c: nat)
    requires v < 45
    ensures c < 0x10000 && IsAlphanumeric(c)
  {
    if v < 10 then '0' as int + v
    else if v < 36 then 'A' as int + (v - 10)
    else [' ' as int, '$' as int, '%' as int, '*' as int, '+' as int, '-' as int, '.' as int, '/' as int, ':' as int][v - 36]
  }

  /** The first position at or after `v` with the character, or -1. */
  function IndexFrom(c: nat, v: nat): (i: int)
    requires v <= 45
    ensures i == -1 || (v <= i < 45 && CharAt(i) == c)
    ensures i == -1 ==> forall j: nat | v <= j < 45 :: CharAt(j) != c
    decreases 45 - v
  {
    if v == 45 then -1 else if CharAt(v) == c then v else IndexFrom(c, v + 1)
  }

  /** Exactly the alphanumeric characters have a place in the table. */
  lemma IndexFound(c: nat)
    requires c < 0x10000
    ensures IsAlphanumeric(c) <==> 0 <= IndexFrom(c, 0)
  {
    hide IndexFrom;
    if IsDigit(c) {
      assert CharAt(c - '0' as int) == c;
    } else if IsUpper(c) {
      assert CharAt(c - 'A' as int + 10) == c;
    } else if IsAlphanumericSign(c) {
      SignFound(c);
    }
  }

  lemma SignFound(c: CodeUnit)
    requires IsAlphanumericSign(c)
    ensures exists v: nat | v < 45 :: CharAt(v) == c
  {
    var v := if c == ' ' as int then 36 else if c == '$' as int then 37 else if c == '%' as int then 38
             else if c == '*' as int then 39 else if c == '+' as int then 40 else if c == '-' as int then 41
             else if c == '.' as int then 42 else if c == '/' as int then 43 else 44;
    assert CharAt(v) == c;
  }

  function IndexOf(c: nat): (i: int)
    ensures -1 <= i < 45
    ensures c < 0x10000 && IsAlphanumeric(c) ==> 0 <= i && CharAt(i) == c
  {
    if c < 0x10000 then
      IndexFound(c);
      IndexFrom(c, 0)
    else IndexFrom(c, 0)
  }

  function EncodeAlphanumeric(s: seq<nat>): seq<bool>
    requires Writable(Alphanumeric, s)
  {
    if |s| >= 2 then NumBits(IndexOf(s[0]) * 45 + IndexOf(s[1]), 11) + EncodeAlphanumeric(s[2..])
    else if s == [] then []
    else NumBits(IndexOf(s[0]), 6)
  }

  function Character(v: nat): nat {
    if v < 45 then CharAt(v) else 0
  }

  function DecodeAlphanumeric(bits: seq<bool>, n: nat): seq<nat>
    requires |bits| == BitsLength(Alphanumeric, n)
  {
    if n >= 2 then
      var v := FromBits(bits[..11]);
      [Character(v / 45), Character(v % 45)] + DecodeAlphanumeric(bits[11..], n - 2)
    else if n == 0 then []
    else [Character(FromBits(bits))]
  }

  lemma PairRoundTrip(a: nat, b: nat)
    requires a < 0x10000 && b < 0x10000 && IsAlphanumeric(a) && IsAlphanumeric(b)
    ensures 0 <= IndexOf(a) < 45 && 0 <= IndexOf(b) < 45
    ensures var v := FromBits(NumBits(IndexOf(a) * 45 + IndexOf(b), 11));
            Character(v / 45) == a && Character(v % 45) == b
    ensures Character(FromBits(NumBits(IndexOf(a), 6))) == a
  {
    hide IndexOf, CharAt, IsAlphanumeric;
    FieldWidths();
    var v := IndexOf(a) * 45 + IndexOf(b);
    NumberRoundTrip(v, 11);
    NumberRoundTrip(IndexOf(a), 6);
    assert v / 45 == IndexOf(a) && v % 45 == IndexOf(b);
  }

  lemma {:induction false} AlphanumericRoundTrip(s: seq<nat>)
    requires Writable(Alphanumeric, s)
    ensures |EncodeAlphanumeric(s)| == BitsLength(Alphanumeric, |s|)
    ensures DecodeAlphanumeric(EncodeAlphanumeric(s), |s|) == s
  {
    hide IndexOf, Character, IsAlphanumeric, NumBits, FromBits;
    if |s| >= 2 {
      AlphanumericRoundTrip(s[2..]);
      PairRoundTrip(s[0], s[1]);
      var bits := EncodeAlphanumeric(s);
      assert bits[..11] == NumBits(IndexOf(s[0]) * 45 + IndexOf(s[1]), 11) && bits[11..] == EncodeAlphanumeric(s[2..]);
      assert s == [s[0], s[1]] + s[2..];
    } else if s != [] {
      PairRoundTrip(s[0], s[0]);
    }
  }

  lemma AlphanumericStep(data: seq<nat>, i: nat)
    requires Writable(Alphanumeric, data) && i < |data|
    ensures 0 <= IndexOf(data[i]) < 45 && (i + 1 < |data| ==> 0 <= IndexOf(data[i + 1]) < 45)
    ensures i + 1 < |data| ==> EncodeAlphanumeric(data[i..])
                               == NumBits(IndexOf(data[i]) * 45 + IndexOf(data[i + 1]), 11) + EncodeAlphanumeric(data[i + 2..])
    ensures i + 1 == |data| ==> EncodeAlphanumeric(data[i..]) == NumBits(IndexOf(data[i]), 6)
  {
    hide IndexOf, CharAt, IsAlphanumeric, NumBits;
    if i + 1 < |data| {
      assert data[i..][2..] == data[i + 2..] && data[i..][0] == data[i] && data[i..][1] == data[i + 1];
    } else {
      assert data[i..] == [data[i]];
    }
  }

  /** Appends the characters in pairs. */
  method WriteAlphanumeric(data: seq<nat>, bitBuffer: BitBuffer)
    requires bitBuffer.Valid() && Writable(Alphanumeric, data)
    modifies bitBuffer
    ensures bitBuffer.Valid() && bitBuffer.Contents() == old(bitBuffer.Contents()) + EncodeAlphanumeric(data)
  {
    hide IndexOf, IsAlphanumeric, NumBits;
    ghost var before := bitBuffer.Contents();
    assert data[0..] == data && EncodeAlphanumeric([]) == [];
    hide EncodeAlphanumeric;
    var i := 0;
    while i + 2 <= |data|
      invariant i <= |data| && i % 2 == 0 && bitBuffer.Valid()
      invariant bitBuffer.Contents() + EncodeAlphanumeric(data[i..]) == before + EncodeAlphanumeric(data)
    {
      AlphanumericStep(data, i);
      var value := IndexOf(data[i]) * 45;
      value := value + IndexOf(data[i + 1]);
      bitBuffer.Put(value, 11);
      i := i + 2;
    }
    if |data| % 2 != 0 {
      AlphanumericStep(data, i);
      bitBuffer.Put(IndexOf(data[i]), 6);
    } else {
      assert data[i..] == [];
    }
  }

  // ---- bytes ----

  function EncodeBytes(s: seq<nat>): seq<bool> {
    if s == [] then [] else NumBits(s[0], 8) + EncodeBytes(s[1..])
  }

  function DecodeBytes(bits: seq<bool>, n: nat): seq<nat>
    requires |bits| == BitsLength(Byte, n)
  {
    if n == 0 then [] else [FromBits(bits[..8])] + DecodeBytes(bits[8..], n - 1)
  }

  lemma {:induction false} BytesRoundTrip(s: seq<nat>)
    requires Writable(Byte, s)
    ensures |EncodeBytes(s)| == BitsLength(Byte, |s|)
    ensures DecodeBytes(EncodeBytes(s), |s|) == s
  {
    if s != [] {
      FieldWidths();
      BytesRoundTrip(s[1..]);
      NumberRoundTrip(s[0], 8);
      var bits := EncodeBytes(s);
      assert bits[..8] == NumBits(s[0], 8) && bits[8..] == EncodeBytes(s[1..]);
    }
  }

  method WriteBytes(data: seq<nat>, bitBuffer: BitBuffer)
    requires bitBuffer.Valid() && Writable(Byte, data)
    modifies bitBuffer
    ensures bitBuffer.Valid() && bitBuffer.Contents() == old(bitBuffer.Contents()) + EncodeBytes(data)
  {
    ghost var before := bitBuffer.Contents();
    for i := 0 to |data|
      invariant bitBuffer.Valid()
      invariant bitBuffer.Contents() + EncodeBytes(data[i..]) == before + EncodeBytes(data)
    {
      assert data[i..][1..] == data[i + 1..];
      bitBuffer.Put(data[i], 8);
    }
  }

  // ---- any mode ----

  function Encode(mode: Mode, units: seq<nat>): (bits: seq<bool>)
    requires Writable(mode, units)
  {
    match mode
    case Numeric => EncodeNumeric(units)
    case Alphanumeric => EncodeAlphanumeric(units)
    case Byte => EncodeBytes(units)
  }

  function Decode(mode: Mode, bits: seq<bool>, n: nat): seq<nat>
    requires mode != Kanji && |bits| == BitsLength(mode, n)
  {
    match mode
    case Numeric => DecodeNumeric(bits, n)
    case Alphanumeric => DecodeAlphanumeric(bits, n)
    case Byte => DecodeBytes(bits, n)
  }

  lemma {:induction false} DigitsSize(v: nat, n: nat)
    ensures |DigitsOf(v, n)| == n
  {
    if n > 0 {
      DigitsSize(v / 10, n - 1);
    }
  }

  /** As many characters are read as were announced. */
  lemma {:induction false} DecodeSize(mode: Mode, bits: seq<bool>, n: nat)
    requires mode != Kanji && |bits| == BitsLength(mode, n)
    ensures |Decode(mode, bits, n)| == n
    decreases n
  {
    hide FromBits, DigitsOf;
    match mode
    case Numeric =>
      if n >= 3 {
        DigitsSize(FromBits(bits[..10]), 3);
        DecodeSize(Numeric, bits[10..], n - 3);
      } else if n > 0 {
        DigitsSize(FromBits(bits), n);
      }
    case Alphanumeric =>
      if n >= 2 {
        DecodeSize(Alphanumeric, bits[11..], n - 2);
      }
    case Byte =>
      if n > 0 {
        DecodeSize(Byte, bits[8..], n - 1);
      }
  }

  /** The data takes exactly the announced number of bits and can be read back. */
  lemma WriteRoundTrip(mode: Mode, units: seq<nat>)
    requires Writable(mode, units)
    ensures |Encode(mode, units)| == BitsLength(mode, |units|)
    ensures Decode(mode, Encode(mode, units), |units|) == units
  {
    match mode
    case Numeric => NumericRoundTrip(units);
    case Alphanumeric => AlphanumericRoundTrip(units);
    case Byte => BytesRoundTrip(units);
  }

  method Write(mode: Mode, units: seq<nat>, bitBuffer: BitBuffer)
    requires bitBuffer.Valid() && Writable(mode, units)
    modifies bitBuffer
    ensures bitBuffer.Valid() && bitBuffer.Contents() == old(bitBuffer.Contents()) + Encode(mode, units)
  {
    match mode
    case Numeric => WriteNumeric(units, bitBuffer);
    case Alphanumeric => WriteAlphanumeric(units, bitBuffer);
    case Byte => WriteBytes(units, bitBuffer);
  }

  // ---- the groups as numbers (section 7.4 of ISO/IEC 18004:2015) ----

  /** Three digits are the number they spell in ten bits, two in seven, one in four. */
  lemma {:induction false} NumericShown(s: seq<nat>)
    requires AllDigits(s) && s != []
    ensures var bits := EncodeNumeric(s);
            if |s| == 1 then bits == NumBits(s[0] - 48, 4)
            else if |s| == 2 then bits == NumBits(10 * (s[0] - 48) + (s[1] - 48), 7)
            else bits == NumBits(100 * (s[0] - 48) + 10 * (s[1] - 48) + (s[2] - 48), 10) + EncodeNumeric(s[3..])
  {
    hide NumBits, Decimal;
    if |s| >= 3 {
      assert EncodeNumeric(s) == NumBits(Decimal(s[..3]), 10) + EncodeNumeric(s[3..]);
      hide EncodeNumeric;
      ThreeDigits(s[..3]);
    } else {
      assert EncodeNumeric(s) == NumBits(Decimal(s), |s| * 3 + 1);
      hide EncodeNumeric;
      ThreeDigits(s);
    }
  }

  lemma ThreeDigits(s: seq<nat>)
    requires AllDigits(s) && 1 <= |s| <= 3
    ensures Decimal(s) == if |s| == 1 then s[0] - 48 else if |s| == 2 then 10 * (s[0] - 48) + (s[1] - 48)
                          else 100 * (s[0] - 48) + 10 * (s[1] - 48) + (s[2] - 48)
  {
    assert Decimal([]) == 0;
    assert Decimal(s[..1]) == s[0] - 48 by { assert s[..1][..0] == []; }
    if |s| == 1 {
      assert s[..1] == s;
    } else {
      assert s[..2][..1] == s[..1];
      assert Decimal(s[..2]) == 10 * (s[0] - 48) + (s[1] - 48);
      if |s| == 2 {
        assert s[..2] == s;
      }
    }
  }

  /** The forty-five characters in the order of their values. */
  const CHARACTERS: string := "0123456789" + "ABCDEFGHIJKLMNOPQRSTUVWXYZ" + " $%*+-./:"

  lemma CharactersShown(v: nat)
    requires v < 45
    ensures |CHARACTERS| == 45 && CharAt(v) == CHARACTERS[v] as nat
  {
    if v < 10 {
      DecimalDigits(v);
    } else if v < 36 {
      CapitalLetters(v - 10);
    }
  }

  lemma DecimalDigits(v: nat)
    requires v < 10
    ensures "0123456789"[v] as nat == 48 + v
  {}

  lemma CapitalLetters(v: nat)
    requires v < 26
    ensures "ABCDEFGHIJKLMNOPQRSTUVWXYZ"[v] as nat == 65 + v
  {}

  /** Two characters are forty-five times the first value and the second, in eleven bits; a last one has six. */
  lemma {:induction false} AlphanumericShown(s: seq<nat>, v: nat, w: nat)
    requires Writable(Alphanumeric, s) && s != [] && v < 45 && s[0] == CHARACTERS[v] as nat
    requires w < 45 && (|s| > 1 ==> s[1] == CHARACTERS[w] as nat)
    ensures if |s| == 1 then EncodeAlphanumeric(s) == NumBits(v, 6)
            else EncodeAlphanumeric(s) == NumBits(45 * v + w, 11) + EncodeAlphanumeric(s[2..])
  {
    hide NumBits, IndexOf, CharAt, IsAlphanumeric;
    CharactersShown(v);
    IndexOnce(v, s[0]);
    if |s| > 1 {
      CharactersShown(w);
      IndexOnce(w, s[1]);
      assert EncodeAlphanumeric(s) == NumBits(IndexOf(s[0]) * 45 + IndexOf(s[1]), 11) + EncodeAlphanumeric(s[2..]);
    } else {
      assert EncodeAlphanumeric(s) == NumBits(IndexOf(s[0]), 6);
    }
    hide EncodeAlphanumeric;
  }

  lemma IndexOnce(v: nat, c: nat)
    requires v < 45 && CharAt(v) == c
    ensures IndexOf(c) == v
  {
    CharOnce(v, IndexOf(c));
    hide IndexFrom;
  }

  lemma CharOnce(v: nat, w: nat)
    requires v < 45 && w < 45 && CharAt(v) == CharAt(w)
    ensures v == w
  {}
}
