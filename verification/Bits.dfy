/** Bits of bytes and of numbers, most significant first. */
module Bits {
  function BitOf(b: bv8, i: nat): bool
    requires i < 8
  {
    (b >> i) & 1 == 1
  }

  /** Bit `k` of a row of bytes; zeros follow the end. */
  function DataBit(data: seq<bv8>, k: nat): bool {
    k < 8 * |data| && BitOf(data[k / 8], 7 - k % 8)
  }

  function Pow2(n: nat): (p: nat)
    ensures p > 0
  {
    if n == 0 then 1 else 2 * Pow2(n - 1)
  }

  /** The lowest `n` bits of a number. */
  function NumBits(num: nat, n: nat): (bits: seq<bool>)
    ensures |bits| == n
  {
    if n == 0 then [] else NumBits(num / 2, n - 1) + [num % 2 == 1]
  }

  /** The number that bits stand for. */
  function FromBits(bits: seq<bool>): nat {
    if bits == [] then 0 else 2 * FromBits(bits[..|bits| - 1]) + if bits[|bits| - 1] then 1 else 0
  }

  /** A number that fits its field is read back. */
  lemma {:induction false} NumberRoundTrip(num: nat, n: nat)
    requires num < Pow2(n)
    ensures FromBits(NumBits(num, n)) == num
  {
    if n > 0 {
      NumberRoundTrip(num / 2, n - 1);
      assert NumBits(num, n)[..n - 1] == NumBits(num / 2, n - 1);
    }
  }

  /** Bit `i` from the left is found by shifting the number right. */
  lemma {:induction false} NumBitsAt(num: nat, n: nat, i: nat)
    requires i < n
    ensures NumBits(num, n)[i] == (num / Pow2(n - 1 - i) % 2 == 1)
  {
    if i < n - 1 {
      NumBitsAt(num / 2, n - 1, i);
      HalfFirst(num, Pow2(n - 2 - i));
    }
  }

  lemma HalfFirst(num: nat, p: nat)
    requires p > 0
    ensures num / 2 / p == num / (2 * p)
  {
    var q := num / (2 * p);
    var r := num % (2 * p);
    assert num == q * (2 * p) + r;
    assert num / 2 == q * p + r / 2 by {
      assert q * (2 * p) == 2 * (q * p);
    }
    DivideIs(num / 2, p, q, r / 2);
  }

  lemma DivideIs(n: nat, p: nat, q: nat, r: nat)
    requires p > 0 && n == q * p + r && r < p
    ensures n / p == q
  {
    var d := n / p - q;
    assert n == (n / p) * p + n % p;
    assert d * p == r - n % p;
    SmallMultiple(d, p);
  }

  lemma SmallMultiple(d: int, p: int)
    requires -p < d * p < p
    ensures d == 0
  {}

  /** Setting bit 7 - s of a byte with the mask that has only this bit. */
  lemma SetBit(b: bv8, m: bv8, s: nat, j: nat)
    requires s < 8 && j < 8 && m == 0x80 >> s
    ensures BitOf(b | m, 7 - j) == (BitOf(b, 7 - j) || j == s)
  {
    match j
    case 0 => assert BitOf(b | m, 7) == (BitOf(b, 7) || BitOf(m, 7));
    case 1 => assert BitOf(b | m, 6) == (BitOf(b, 6) || BitOf(m, 6));
    case 2 => assert BitOf(b | m, 5) == (BitOf(b, 5) || BitOf(m, 5));
    case 3 => assert BitOf(b | m, 4) == (BitOf(b, 4) || BitOf(m, 4));
    case 4 => assert BitOf(b | m, 3) == (BitOf(b, 3) || BitOf(m, 3));
    case 5 => assert BitOf(b | m, 2) == (BitOf(b, 2) || BitOf(m, 2));
    case 6 => assert BitOf(b | m, 1) == (BitOf(b, 1) || BitOf(m, 1));
    case _ => assert BitOf(b | m, 0) == (BitOf(b, 0) || BitOf(m, 0));
  }

  lemma ZeroByte(j: nat)
    requires j < 8
    ensures !BitOf(0, j)
  {}

  /** Of each byte the most significant bit comes first. */
  lemma ByteShown(data: seq<bv8>, k: nat)
    requires k < |data|
    ensures DataBit(data, 8 * k) == (data[k] & 0x80 != 0) && DataBit(data, 8 * k + 1) == (data[k] & 0x40 != 0)
    ensures DataBit(data, 8 * k + 2) == (data[k] & 0x20 != 0) && DataBit(data, 8 * k + 3) == (data[k] & 0x10 != 0)
    ensures DataBit(data, 8 * k + 4) == (data[k] & 0x08 != 0) && DataBit(data, 8 * k + 5) == (data[k] & 0x04 != 0)
    ensures DataBit(data, 8 * k + 6) == (data[k] & 0x02 != 0) && DataBit(data, 8 * k + 7) == (data[k] & 0x01 != 0)
  {
    var b := data[k];
    BitsShown(b);
    hide BitOf;
    assert DataBit(data, 8 * k) == BitOf(b, 7) && DataBit(data, 8 * k + 1) == BitOf(b, 6);
    assert DataBit(data, 8 * k + 2) == BitOf(b, 5) && DataBit(data, 8 * k + 3) == BitOf(b, 4);
    assert DataBit(data, 8 * k + 4) == BitOf(b, 3) && DataBit(data, 8 * k + 5) == BitOf(b, 2);
    assert DataBit(data, 8 * k + 6) == BitOf(b, 1) && DataBit(data, 8 * k + 7) == BitOf(b, 0);
  }

  lemma BitsShown(b: bv8)
    ensures BitOf(b, 7) == (b & 0x80 != 0) && BitOf(b, 6) == (b & 0x40 != 0)
    ensures BitOf(b, 5) == (b & 0x20 != 0) && BitOf(b, 4) == (b & 0x10 != 0)
    ensures BitOf(b, 3) == (b & 0x08 != 0) && BitOf(b, 2) == (b & 0x04 != 0)
    ensures BitOf(b, 1) == (b & 0x02 != 0) && BitOf(b, 0) == (b & 0x01 != 0)
  {}
}
