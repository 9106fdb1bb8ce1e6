/**
 How many bytes a value will take, decided by masks before anything is written. Every result is the
 length of the bytes that the writer then emits.
 */
module ComputeSize {
  import opened BinaryCounter
  import opened Wire

  /** `value & (~0 << bits)`: the lowest `bits` bits are cleared. */
  function Masked(value: nat, bits: nat): int { value - value % Pow2(bits) }

  function ComputeRawVarint32Size(value: uint32): nat {
    if Masked(value, 7) == 0 then 1
    else if Masked(value, 14) == 0 then 2
    else if Masked(value, 21) == 0 then 3
    else if Masked(value, 28) == 0 then 4
    else 5
  }

  function ComputeRawVarint64Size(value: uint64): nat {
    if Masked(value, 7) == 0 then 1
    else if Masked(value, 14) == 0 then 2
    else if Masked(value, 21) == 0 then 3
    else if Masked(value, 28) == 0 then 4
    else if Masked(value, 35) == 0 then 5
    else if Masked(value, 42) == 0 then 6
    else if Masked(value, 49) == 0 then 7
    else if Masked(value, 56) == 0 then 8
    else if Masked(value, 63) == 0 then 9
    else 10
  }

  function ComputeInt32Size(value: int32): nat {
    if value >= 0 then ComputeRawVarint32Size(value) else 10
  }

  function ComputeSInt32Size(value: int32): nat { ComputeRawVarint32Size(EncodeZigZag32(value)) }

  function ComputeSInt64Size(value: int64): nat { ComputeRawVarint64Size(EncodeZigZag64(value)) }

  lemma SevenMore(n: nat)
    ensures Pow2(n + 7) == 128 * Pow2(n)
  {
    assert Pow2(n + 1) == 2 * Pow2(n);
    assert Pow2(n + 2) == 4 * Pow2(n);
    assert Pow2(n + 3) == 8 * Pow2(n);
    assert Pow2(n + 4) == 16 * Pow2(n);
    assert Pow2(n + 5) == 32 * Pow2(n);
    assert Pow2(n + 6) == 64 * Pow2(n);
  }

  lemma {:induction false} Pow2IsPow128(k: nat)
    ensures Pow2(7 * k) == Pow128(k)
  {
    if k > 0 {
      Pow2IsPow128(k - 1);
      SevenMore(7 * k - 7);
    }
  }

  /** Nothing is left above the mask iff the number is small. */
  lemma MaskedIsZero(value: nat, k: nat)
    ensures Masked(value, 7 * k) == 0 <==> value < Pow128(k)
  {
    Pow2IsPow128(k);
    hide Pow2, Pow128;
    SmallRemainder(value, Pow128(k));
  }

  lemma SmallRemainder(n: nat, m: nat)
    requires m > 0
    ensures n % m == n <==> n < m
  {
  }

  /** Each mask decides one length. */
  lemma MaskDecides(value: uint64, k: nat)
    requires 1 <= k <= 10
    ensures Masked(value, 7 * k) == 0 <==> |Varint(value)| <= k
  {
    MaskedIsZero(value, k);
    VarintLength(value, k);
  }

  lemma AtMostTen(value: uint64)
    ensures |Varint(value)| <= 10 && (value < TWO32 ==> |Varint(value)| <= 5)
  {
    hide Varint;
    VarintLength(value, 10);
    VarintLength(value, 5);
    assert Pow128(10) == 64 * TWO64 && Pow128(5) == 8 * TWO32;
  }

  /** The cascade of masks counts the bytes of the shortest varint, for every 32-bit value ... */
  lemma Varint32SizeIsLength(value: uint32)
    ensures ComputeRawVarint32Size(value) == |Varint(value)|
  {
    hide Varint, Masked;
    AtMostTen(value);
    MaskDecides(value, 1); MaskDecides(value, 2); MaskDecides(value, 3); MaskDecides(value, 4);
  }

  /** ... and for every 64-bit value. */
  lemma Varint64SizeIsLength(value: uint64)
    ensures ComputeRawVarint64Size(value) == |Varint(value)|
  {
    hide Varint, Masked;
    AtMostTen(value);
    MaskDecides(value, 1); MaskDecides(value, 2); MaskDecides(value, 3); MaskDecides(value, 4); MaskDecides(value, 5);
    MaskDecides(value, 6); MaskDecides(value, 7); MaskDecides(value, 8); MaskDecides(value, 9);
  }

  /** The announced size is the number of bytes WriteInt32 emits, sign extension included. */
  lemma Int32SizeIsLength(value: int32)
    ensures ComputeInt32Size(value) == |Int32Bytes(value)|
  {
    hide Varint, ComputeRawVarint32Size;
    if value >= 0 {
      Varint32SizeIsLength(value);
    } else {
      Int32RoundTrip(value, []);
    }
  }

  /** Half of 128^k: the reach of a signed value in `k` groups. */
  function Reach(k: nat): int
    requires k >= 1
  {
    64 * Pow128(k - 1)
  }

  /** ZigZag spends `k` bytes exactly on the signed numbers of `7k` bits. */
  lemma SInt32Reach(n: int32, k: nat)
    requires 1 <= k <= 4
    ensures ComputeSInt32Size(n) <= k <==> -Reach(k) <= n < Reach(k)
  {
    hide Varint, ComputeRawVarint32Size, EncodeZigZag32;
    Varint32SizeIsLength(EncodeZigZag32(n));
    VarintLength(EncodeZigZag32(n), k);
    ZigZagInverse32(n, 0);
    assert Pow128(k) == 2 * Reach(k);
  }

  lemma SInt64Reach(n: int64, k: nat)
    requires 1 <= k <= 9
    ensures ComputeSInt64Size(n) <= k <==> -Reach(k) <= n < Reach(k)
  {
    hide Varint, ComputeRawVarint64Size, EncodeZigZag64;
    Varint64SizeIsLength(EncodeZigZag64(n));
    VarintLength(EncodeZigZag64(n), k);
    ZigZagInverse64(n, 0);
    assert Pow128(k) == 2 * Reach(k);
  }
}
