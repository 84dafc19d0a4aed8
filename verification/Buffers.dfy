/** The growing bit buffer, and the writers of numeric, alphanumeric and byte data. */
module Buffers {
  import opened Bits

  /** The first `n` bits of a row of bytes. */
  ghost function BitsOf(data: seq<bv8>, n: nat): (bits: seq<bool>)
    ensures |bits| == n && forall k | 0 <= k < n :: bits[k] == DataBit(data, k)
  {
    seq(n, k requires 0 <= k < n => DataBit(data, k))
  }

  /** The bytes with one more bit behind the first `n`. */
  function Appended(data: seq<bv8>, n: nat, bit: bool): seq<bv8>
    requires |data| == (n + 7) / 8
  {
    var grown := if |data| <= n / 8 then data + [0] else data;
    if bit then grown[n / 8 := grown[n / 8] | (0x80 >> (n % 8))] else grown
  }

  lemma AppendBit(data: seq<bv8>, n: nat, bit: bool)
    requires |data| == (n + 7) / 8 && forall k: nat | n <= k :: !DataBit(data, k)
    ensures forall k: nat :: DataBit(Appended(data, n, bit), k) == if k == n then bit else DataBit(data, k)
  {
    var grown := if |data| <= n / 8 then data + [0] else data;
    PushZero(data);
    SetDataBit(grown, n);
    hide DataBit;
  }

  class BitBuffer {
    var buffer: seq<bv8>
    var length: nat

    /** Just enough bytes, zero bits after the end. */
    ghost predicate Valid()
      reads this
    {
      |buffer| == (length + 7) / 8 && forall k: nat | length <= k :: !DataBit(buffer, k)
    }

    ghost function Contents(): (bits: seq<bool>)
      reads this
      ensures |bits| == length
    {
      BitsOf(buffer, length)
    }

    constructor ()
      ensures Valid() && Contents() == []
    {
      buffer := [];
      length := 0;
    }

    function Get(index: nat): (bit: bool)
      requires Valid() && index < length
      reads this
      ensures bit == Contents()[index]
    {
      var bufIndex := index / 8;
      BitOf(buffer[bufIndex], 7 - index % 8)
    }

    function GetLengthInBits(): (n: nat)
      reads this
      ensures n == |Contents()|
    {
      length
    }

    /** Appends one bit and leaves the earlier ones alone. */
    method PutBit(bit: bool)
      requires Valid()
      modifies this
      ensures Valid() && Contents() == old(Contents()) + [bit]
    {
      hide DataBit;
      AppendBit(buffer, length, bit);
      ghost var goal := Appended(buffer, length, bit);
      var bufIndex := length / 8;
      if |buffer| <= bufIndex {
        buffer := buffer + [0];
      }
      if bit {
        buffer := buffer[bufIndex := buffer[bufIndex] | (0x80 >> (length % 8))];
      }
      assert buffer == goal;
      length := length + 1;
    }

    /** Appends the lowest `size` bits of a number; an unsigned 32-bit shift finds each of them. */
    method Put(num: nat, size: nat)
      requires Valid() && size <= 32
      modifies this
      ensures Valid() && Contents() == old(Contents()) + NumBits(num, size)
    {
      ghost var before := Contents();
      ghost var bits := NumBits(num, size);
      for i := 0 to size
        invariant Valid() && Contents() == before + bits[..i]
      {
        NumBitsAt(num, size, i);
        PutBit(num / Pow2(size - i - 1) % 2 == 1);
        assert bits[..i + 1] == bits[..i] + [bits[i]];
      }
      assert bits[..size] == bits;
    }
  }

  lemma PushZero(data: seq<bv8>)
    ensures forall k: nat :: DataBit(data + [0], k) == DataBit(data, k)
  {
    forall k: nat
      ensures DataBit(data + [0], k) == DataBit(data, k)
    {
      ZeroByte(7 - k % 8);
    }
  }

  lemma SetDataBit(data: seq<bv8>, n: nat)
    requires n / 8 < |data|
    ensures forall k: nat :: DataBit(data[n / 8 := data[n / 8] | (0x80 >> (n % 8))], k) == (DataBit(data, k) || k == n)
  {
    hide BitOf;
    forall k: nat
      ensures DataBit(data[n / 8 := data[n / 8] | (0x80 >> (n % 8))], k) == (DataBit(data, k) || k == n)
    {
      SetBit(data[n / 8], 0x80 >> (n % 8), n % 8, k % 8);
    }
  }
}
