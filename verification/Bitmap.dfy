/** utils/libc_tz/bitmap.c: a byte array read and written one bit at a time. */
module Bitmap {
  import opened Machine

  const BITS_IN_BYTE: nat := 8

  /** A shift distance as a bit-vector, so that shifts stay within bit-vector arithmetic. */
  function Distance(k: nat): bv8
    requires k < BITS_IN_BYTE
  {
    match k case 0 => 0 case 1 => 1 case 2 => 2 case 3 => 3 case 4 => 4 case 5 => 5 case 6 => 6 case 7 => 7
  }

  predicate Bit(b: bv8, k: nat)
    requires k < BITS_IN_BYTE
  {
    (b >> Distance(k)) & 1 == 1
  }

  function Written(b: bv8, k: bv8, value: bool): bv8
    requires k < 8
  {
    if value then b | (1 << k) else b & !(1 << k)
  }

  lemma OneBitChanged(b: bv8, k: bv8, value: bool, j: bv8)
    requires k < 8 && j < 8
    ensures (Written(b, k, value) >> j) & 1 == if j != k then (b >> j) & 1 else if value then 1 else 0
  {
  }

  lemma DistanceFacts(k: nat, j: nat)
    requires k < BITS_IN_BYTE && j < BITS_IN_BYTE
    ensures Distance(k) < 8 && (Distance(k) == Distance(j) ==> k == j)
  {
  }

  /** A byte with bit k set or cleared, as bitmap_set_bit_value rewrites it. */
  function WithBit(b: bv8, k: nat, value: bool): (w: bv8)
    requires k < BITS_IN_BYTE
    ensures forall j: nat :: j < BITS_IN_BYTE ==> Bit(w, j) == if j == k then value else Bit(b, j)
  {
    DistanceFacts(k, k);
    var w := Written(b, Distance(k), value);
    assert forall j: nat :: j < BITS_IN_BYTE ==> Bit(w, j) == (if j == k then value else Bit(b, j)) by {
      forall j: nat | j < BITS_IN_BYTE ensures Bit(w, j) == if j == k then value else Bit(b, j) {
        DistanceFacts(k, j); DistanceFacts(j, k);
        OneBitChanged(b, Distance(k), value, Distance(j));
      }
    }
    w
  }

  class TzBitmap {
    const bitCount: nat
    const bytes: array<bv8>
    /** The set of bit indices holding 1: what the bitmap denotes. */
    ghost var ones: set<nat>

    ghost predicate BitAt(i: nat)
      requires i / BITS_IN_BYTE < bytes.Length
      reads bytes
    {
      Bit(bytes[i / BITS_IN_BYTE], i % BITS_IN_BYTE)
    }

    ghost predicate Valid()
      reads this, bytes
    {
      && bytes.Length == (bitCount + BITS_IN_BYTE - 1) / BITS_IN_BYTE
      && ones <= Range(0, bitCount)
      && forall i: nat {:trigger BitAt(i)} :: i < bitCount ==> (i in ones <==> BitAt(i))
    }

    /** bitmap_create: all bits zero. */
    constructor (bitCount: nat)
      ensures Valid() && fresh(bytes) && this.bitCount == bitCount && ones == {}
    {
      this.bitCount := bitCount;
      var buffer := new bv8[(bitCount + BITS_IN_BYTE - 1) / BITS_IN_BYTE];
      for i := 0 to buffer.Length
        invariant forall j :: 0 <= j < i ==> buffer[j] == 0
      {
        buffer[i] := 0;
      }
      bytes := buffer;
      ones := {};
    }

    method SetBitValue(index: nat, value: bool) returns (status: int)
      requires Valid()
      modifies this, bytes
      ensures Valid() && status == if index < bitCount then 0 else -1
      ensures ones == if index >= bitCount then old(ones)
                      else if value then old(ones) + {index}
                      else old(ones) - {index}
    {
      if index >= bitCount {
        return -1;
      }
      var byteIndex, bitOffset := index / BITS_IN_BYTE, index % BITS_IN_BYTE;
      bytes[byteIndex] := WithBit(bytes[byteIndex], bitOffset, value);
      ones := if value then ones + {index} else ones - {index};
      forall i: nat | i < bitCount ensures i in ones <==> BitAt(i) {
        assert old(BitAt(i)) <==> i in old(ones);
        if i / BITS_IN_BYTE == byteIndex {
          assert i == index <==> i % BITS_IN_BYTE == bitOffset;
        }
      }
      return 0;
    }

    /** -1 out of range, which callers testing for non-zero read as "used". */
    method GetBitValue(index: nat) returns (value: int)
      requires Valid()
      ensures value == if index >= bitCount then -1 else if index in ones then 1 else 0
    {
      if index >= bitCount {
        return -1;
      }
      assert BitAt(index) <==> index in ones;
      var bit := (bytes[index / BITS_IN_BYTE] >> Distance(index % BITS_IN_BYTE)) & 1;
      value := if bit == 1 then 1 else 0;
    }

    /** memset(bitmap, 0xFF, ...) */
    method Fill()
      requires Valid()
      modifies this, bytes
      ensures Valid() && ones == Range(0, bitCount)
    {
      for i := 0 to bytes.Length
        invariant forall j :: 0 <= j < i ==> bytes[j] == 0xFF
      {
        bytes[i] := 0xFF;
      }
      ones := Range(0, bitCount);
    }
  }
}
