/** UTF-8 (RFC 3629) of the UTF-16 texts that byte segments carry. */
module Utf8 {
  import opened QrMode
  import opened Segmentation

  /** The bytes of one unit that is not part of a surrogate pair; a lone surrogate becomes U+FFFD. */
  function UnitUtf8(c: CodeUnit): (b: seq<nat>)
    ensures |b| == UnitBytes(c)
  {
    if c < 0x80 then [c]
    else if c < 0x800 then [0xC0 + c / 64, 0x80 + c % 64]
    else if IsHigh(c) || IsLow(c) then [0xEF, 0xBF, 0xBD]
    else [0xE0 + c / 4096, 0x80 + c / 64 % 64, 0x80 + c % 64]
  }

  function CodePoint(h: CodeUnit, l: CodeUnit): (p: nat)
    requires IsHigh(h) && IsLow(l)
    ensures 0x10000 <= p < 0x110000
  {
    0x10000 + (h - 0xD800) * 0x400 + (l - 0xDC00)
  }

  function PairUtf8(h: CodeUnit, l: CodeUnit): (b: seq<nat>)
    requires IsHigh(h) && IsLow(l)
    ensures |b| == 4
  {
    var p := CodePoint(h, l);
    [0xF0 + p / 262144, 0x80 + p / 4096 % 64, 0x80 + p / 64 % 64, 0x80 + p % 64]
  }

  function Encode(s: Text): seq<nat> {
    if s == [] then []
    else if IsHigh(s[0]) && |s| > 1 && IsLow(s[1]) then PairUtf8(s[0], s[1]) + Encode(s[2..])
    else UnitUtf8(s[0]) + Encode(s[1..])
  }

  lemma {:induction false} EncodeSize(s: Text)
    ensures |Encode(s)| == Utf8Length(s)
    ensures forall i | 0 <= i < |Encode(s)| :: Encode(s)[i] < 256
  {
    hide CodePoint;
    if s == [] {
    } else if IsHigh(s[0]) && |s| > 1 && IsLow(s[1]) {
      EncodeSize(s[2..]);
    } else {
      EncodeSize(s[1..]);
    }
  }

  function Unit(n: int): CodeUnit {
    if 0 <= n < 0x10000 then n else 0
  }

  function Two(a: nat, b: nat): nat {
    a % 32 * 64 + b % 64
  }

  function Three(a: nat, b: nat, c: nat): nat {
    a % 16 * 4096 + b % 64 * 64 + c % 64
  }

  function Four(a: nat, b: nat, c: nat, d: nat): nat {
    a % 8 * 262144 + b % 64 * 4096 + c % 64 * 64 + d % 64
  }

  function Surrogates(p: nat): Text {
    [Unit(0xD800 + (p - 0x10000) / 0x400), Unit(0xDC00 + (p - 0x10000) % 0x400)]
  }

  function Decode(b: seq<nat>): Text {
    if b == [] then []
    else if b[0] < 0x80 then [Unit(b[0])] + Decode(b[1..])
    else if b[0] < 0xE0 && |b| >= 2 then [Unit(Two(b[0], b[1]))] + Decode(b[2..])
    else if b[0] < 0xF0 && |b| >= 3 then [Unit(Three(b[0], b[1], b[2]))] + Decode(b[3..])
    else if |b| >= 4 then Surrogates(Four(b[0], b[1], b[2], b[3])) + Decode(b[4..])
    else []
  }

  lemma TwoBack(c: nat)
    requires c < 0x800
    ensures Two(0xC0 + c / 64, 0x80 + c % 64) == c
  {}

  lemma ThreeBack(c: nat)
    requires c < 0x10000
    ensures Three(0xE0 + c / 4096, 0x80 + c / 64 % 64, 0x80 + c % 64) == c
  {
    assert c / 4096 * 64 + c / 64 % 64 == c / 64;
  }

  lemma FourBack(p: nat)
    requires p < 0x110000
    ensures Four(0xF0 + p / 262144, 0x80 + p / 4096 % 64, 0x80 + p / 64 % 64, 0x80 + p % 64) == p
  {
    assert (0xF0 + p / 262144) % 8 == p / 262144;
    assert (0x80 + p / 4096 % 64) % 64 == p / 4096 % 64;
    assert (0x80 + p / 64 % 64) % 64 == p / 64 % 64;
    assert (0x80 + p % 64) % 64 == p % 64;
    Nested(p, 64);
    Nested(p / 64, 64);
    Nested(p / 4096, 64);
  }

  lemma Nested(p: nat, m: nat)
    requires m > 0
    ensures p == p / m * m + p % m
    ensures m == 64 ==> p / 64 / 64 == p / 4096 && p / 4096 / 64 == p / 262144
  {}

  lemma PairBack(h: CodeUnit, l: CodeUnit)
    requires IsHigh(h) && IsLow(l)
    ensures Surrogates(CodePoint(h, l)) == [h, l]
  {}

  lemma DecodeUnit(c: CodeUnit, tail: seq<nat>)
    requires !IsHigh(c) && !IsLow(c)
    ensures Decode(UnitUtf8(c) + tail) == [c] + Decode(tail)
  {
    var b := UnitUtf8(c) + tail;
    assert b[|UnitUtf8(c)|..] == tail;
    hide Two, Three, Four;
    if c < 0x80 {
    } else if c < 0x800 {
      TwoBack(c);
    } else {
      ThreeBack(c);
    }
  }

  lemma DecodePair(h: CodeUnit, l: CodeUnit, tail: seq<nat>)
    requires IsHigh(h) && IsLow(l)
    ensures Decode(PairUtf8(h, l) + tail) == [h, l] + Decode(tail)
  {
    hide Two, Three, Four, CodePoint, Surrogates;
    var b := PairUtf8(h, l) + tail;
    assert b[4..] == tail;
    FourBack(CodePoint(h, l));
    PairBack(h, l);
  }

  /** Texts without lone surrogates are read back. */
  lemma {:induction false} RoundTrip(s: Text)
    requires WellFormed(s)
    ensures Decode(Encode(s)) == s
  {
    hide UnitUtf8, PairUtf8, Decode;
    if s == [] {
      DecodeNothing();
    } else if IsHigh(s[0]) {
      RoundTrip(s[2..]);
      DecodePair(s[0], s[1], Encode(s[2..]));
      assert s == [s[0], s[1]] + s[2..];
    } else {
      RoundTrip(s[1..]);
      DecodeUnit(s[0], Encode(s[1..]));
      assert s == [s[0]] + s[1..];
    }
  }

  lemma DecodeNothing()
    ensures Decode([]) == []
  {}

  /** One to three bytes (section 3 of RFC 3629): the first shows how many there are, the others begin with 10. */
  lemma UnitShown(c: CodeUnit)
    requires !IsHigh(c) && !IsLow(c)
    ensures var b := UnitUtf8(c);
            if c < 0x80 then b == [c]
            else if c < 0x800 then
              |b| == 2 && 0xC0 <= b[0] < 0xE0 && 0x80 <= b[1] < 0xC0 && c == (b[0] - 0xC0) * 64 + (b[1] - 0x80)
            else
              && |b| == 3 && 0xE0 <= b[0] < 0xF0 && 0x80 <= b[1] < 0xC0 && 0x80 <= b[2] < 0xC0
              && c == (b[0] - 0xE0) * 4096 + (b[1] - 0x80) * 64 + (b[2] - 0x80)
  {
    if c >= 0x800 {
      assert c / 64 == c / 4096 * 64 + c / 64 % 64;
    }
  }

  /** A pair of surrogates gives the four bytes of its code point. */
  lemma PairShown(h: CodeUnit, l: CodeUnit)
    requires IsHigh(h) && IsLow(l)
    ensures var b := PairUtf8(h, l);
            && |b| == 4 && 0xF0 <= b[0] < 0xF8 && (forall i | 1 <= i < 4 :: 0x80 <= b[i] < 0xC0)
            && (b[0] - 0xF0) * 262144 + (b[1] - 0x80) * 4096 + (b[2] - 0x80) * 64 + (b[3] - 0x80)
               == 0x10000 + (h - 0xD800) * 1024 + (l - 0xDC00)
  {
    var p := CodePoint(h, l);
    assert p / 64 == p / 4096 * 64 + p / 64 % 64;
    assert p / 4096 == p / 262144 * 64 + p / 4096 % 64;
  }
}
