/**
 The protocol buffer wire format over plain byte sequences (Encoding guide: "Base 128 Varints",
 "Signed Integers", "Length-Delimited Records", "Groups"). Both stream classes are proved against
 these functions. Bit operations are written arithmetically: a 7-bit group is `% 128`, a shift by
 seven is `/ 128`, an or of disjoint groups is a sum, and a cast is a remainder.
 */
module Wire {
  import opened Division

  type byte = b: int | 0 <= b < 256

  const TWO31 := 0x8000_0000
  const TWO32 := 0x1_0000_0000
  const TWO63 := 0x8000_0000_0000_0000
  const TWO64 := 0x1_0000_0000_0000_0000

  type uint32 = n: int | 0 <= n < TWO32
  type uint64 = n: int | 0 <= n < TWO64
  type int32 = n: int | -TWO31 <= n < TWO31
  type int64 = n: int | -TWO63 <= n < TWO63

  /** The exceptions of the original. */
  datatype Error =
    | Truncated | Malformed | NegativeSize | SizeLimitExceeded | RecursionLimitExceeded
    | InvalidTag | UnexpectedEndGroup | MismatchedEndGroup | InvalidOperation | OutOfSpace

  datatype Result<+T> = Ok(value: T) | Err(error: Error) {
    predicate IsFailure() { Err? }

    function PropagateFailure<U>(): Result<U>
      requires Err?
    {
      Err(error)
    }

    function Extract(): T
      requires Ok?
    {
      value
    }
  }

  /** C#'s (int) and (uint) casts, (long) and (ulong) casts. */
  function ToInt32(n: uint32): int32 { if n < TWO31 then n else n - TWO32 }

  function ToUInt32(n: int32): uint32 { if n >= 0 then n else n + TWO32 }

  function ToInt64(n: uint64): int64 { if n < TWO63 then n else n - TWO64 }

  function ToUInt64(n: int64): uint64 { if n >= 0 then n else n + TWO64 }

  function Concat(parts: seq<seq<byte>>): seq<byte> { if parts == [] then [] else parts[0] + Concat(parts[1..]) }

  /** `s` without its first `n` elements, of which there may be fewer. */
  function Drop(s: seq<byte>, n: nat): seq<byte> { if n <= |s| then s[n..] else [] }

  // ----- Varints -----

  /** The shortest varint of `n`. */
  function Varint(n: nat): (raw: seq<byte>)
    ensures |raw| >= 1
  {
    if n < 128 then [n] else [n % 128 + 128] + Varint(n / 128)
  }

  /** The number a group sequence spells, least significant group first, of any length. */
  function Value(raw: seq<byte>): nat {
    if raw == [] then 0 else raw[0] % 128 + 128 * Value(raw[1..])
  }

  predicate AllContinue(raw: seq<byte>) {
    forall k :: 0 <= k < |raw| ==> raw[k] >= 128
  }

  /** Continuation bits everywhere but at the end, and no longer than ten bytes. */
  predicate IsVarint(raw: seq<byte>) {
    1 <= |raw| <= 10 && AllContinue(raw[..|raw| - 1]) && raw[|raw| - 1] < 128
  }

  /** The varint at the head of `s`, of at most `max` bytes. */
  function RawVarint(s: seq<byte>, max: nat): (r: Result<seq<byte>>)
    ensures r.Ok? ==> 1 <= |r.value| <= max && r.value <= s
  {
    if max == 0 then Err(Malformed)
    else if s == [] then Err(Truncated)
    else if s[0] < 128 then Ok([s[0]])
    else
      var rest :- RawVarint(s[1..], max - 1);
      Ok([s[0]] + rest)
  }

  /** What reading a varint of `s` must return, reduced modulo `m`, and how much it consumes. */
  function ReadVarint(s: seq<byte>, m: int): (r: Result<(int, nat)>)
    requires m > 0
    ensures r.Ok? ==> 0 <= r.value.0 < m && 1 <= r.value.1 <= |s|
  {
    var raw :- RawVarint(s, 10);
    Ok((Value(raw) % m, |raw|))
  }

  lemma {:induction false} RawVarintSplits(s: seq<byte>, max: nat, raw: seq<byte>)
    requires AllContinue(raw) && raw <= s && |raw| <= max
    ensures |raw| == max ==> RawVarint(s, max) == Err(Malformed)
    ensures |raw| < max && |s| == |raw| ==> RawVarint(s, max) == Err(Truncated)
    ensures |raw| < max && |s| > |raw| && s[|raw|] < 128 ==> RawVarint(s, max) == Ok(s[..|raw| + 1])
  {
    if raw != [] {
      RawVarintSplits(s[1..], max - 1, raw[1..]);
      if |raw| < max && |s| > |raw| && s[|raw|] < 128 {
        assert s[1..][..|raw|] == s[1..|raw| + 1];
        assert s[..|raw| + 1] == [s[0]] + s[1..|raw| + 1];
      }
    } else if |raw| < max && |s| > 0 && s[0] < 128 {
      assert s[..1] == [s[0]];
    }
  }

  lemma {:induction false} ValueAppend(a: seq<byte>, b: seq<byte>)
    ensures Value(a + b) == Value(a) + Pow128(|a|) * Value(b)
  {
    if a == [] {
      assert a + b == b;
    } else {
      ValueAppend(a[1..], b);
      assert (a + b)[1..] == a[1..] + b;
      var v := Value(b);
      assert 128 * (Pow128(|a| - 1) * v) == Pow128(|a|) * v by { Assoc(128, Pow128(|a| - 1), v); }
    }
  }

  function Pow128(k: nat): (p: nat)
    ensures p >= 1
  {
    if k == 0 then 1 else 128 * Pow128(k - 1)
  }

  /** Every natural number survives its varint. */
  lemma {:induction false} VarintValue(n: nat)
    ensures Value(Varint(n)) == n
    ensures AllContinue(Varint(n)[..|Varint(n)| - 1]) && Varint(n)[|Varint(n)| - 1] < 128
  {
    if n >= 128 {
      VarintValue(n / 128);
      var tail := Varint(n / 128);
      assert Varint(n)[..|Varint(n)| - 1] == [n % 128 + 128] + tail[..|tail| - 1];
    }
  }

  /** Exactly how many bytes: `k` suffice iff the number has at most `7k` bits. */
  lemma {:induction false} VarintLength(n: nat, k: nat)
    requires k >= 1
    ensures |Varint(n)| <= k <==> n < Pow128(k)
  {
    if n >= 128 && k > 1 {
      VarintLength(n / 128, k - 1);
    }
  }

  /** The varint of a 64-bit number, followed by anything, reads back modulo any power of two up to 2^64. */
  lemma VarintRoundTrip(n: uint64, rest: seq<byte>, m: int)
    requires m > 0
    ensures ReadVarint(Varint(n) + rest, m) == Ok((n % m, |Varint(n)|))
  {
    VarintValue(n);
    VarintLength(n, 10);
    assert Pow128(10) == 128 * 128 * 128 * 128 * 128 * 128 * 128 * 128 * 128 * 128;
    var s, k := Varint(n) + rest, |Varint(n)| - 1;
    RawVarintSplits(s, 10, Varint(n)[..k]);
    assert s[..k + 1] == Varint(n);
  }

  lemma VarintIsVarint(v: uint64)
    ensures IsVarint(Varint(v)) && Value(Varint(v)) == v
  {
    VarintValue(v);
    VarintLength(v, 10);
    assert Pow128(10) == 64 * TWO64;
    hide Varint;
  }

  /** Byte by byte: seven bits each, the least significant first, and a continuation bit on all but the last. */
  lemma {:induction false} VarintBytes(n: nat, i: nat)
    requires i < |Varint(n)|
    ensures Varint(n)[i] == n / Pow128(i) % 128 + if i + 1 < |Varint(n)| then 128 else 0
    decreases i
  {
    if i > 0 {
      VarintBytes(n / 128, i - 1);
      DivideTwice(n, 128, Pow128(i - 1));
    }
  }

  /** The examples of the Encoding guide, "Base 128 Varints" and "Signed Integers". */
  lemma EncodingExamples()
    ensures Varint(1) == [1] && Varint(150) == [150, 1] && Varint(300) == [172, 2]
    ensures ReadVarint([172, 2], TWO32) == Ok((300, 2)) && |Int32Bytes(-2)| == 10 && Int32Bytes(-2)[0] == 254 && Int32Bytes(-2)[9] == 1
    ensures LittleEndian(0x01020304, 4) == [4, 3, 2, 1]
  {
    assert Varint(150) == [150, 1];
    VarintRoundTrip(300, [], TWO32);
    assert Varint(300) + [] == [172, 2];
    Int32RoundTrip(-2, []);
    VarintBytes(TWO64 - 2, 0);
    VarintBytes(TWO64 - 2, 9);
    NinthPower();
  }

  lemma NinthPower()
    ensures Pow128(9) == 0x8000_0000_0000_0000
  {
    assert Pow128(3) == 0x20_0000 && Pow128(6) == 0x20_0000 * Pow128(3);
    assert Pow128(9) == 0x20_0000 * Pow128(6);
  }

  // ----- Fixed-width values -----

  function LittleEndian(n: nat, width: nat): (bytes: seq<byte>)
    ensures |bytes| == width
  {
    if width == 0 then [] else [n % 256] + LittleEndian(n / 256, width - 1)
  }

  function FromLittleEndian(bytes: seq<byte>): nat {
    if bytes == [] then 0 else bytes[0] + 256 * FromLittleEndian(bytes[1..])
  }

  /** Byte by byte, the least significant first. */
  lemma {:induction false} LittleEndianBytes(n: nat, width: nat, i: nat)
    requires i < width
    ensures LittleEndian(n, width)[i] == n / Pow256(i) % 256
    decreases i
  {
    if i > 0 {
      LittleEndianBytes(n / 256, width - 1, i - 1);
      DivideTwice(n, 256, Pow256(i - 1));
    }
  }

  /** Shifting out bytes and shifting them back in loses nothing below the width. */
  lemma {:induction false} LittleEndianRoundTrip(n: nat, width: nat)
    requires n < Pow256(width)
    ensures FromLittleEndian(LittleEndian(n, width)) == n
  {
    if width > 0 {
      LittleEndianRoundTrip(n / 256, width - 1);
    }
  }

  function Pow256(k: nat): (p: nat)
    ensures p > 0
  {
    if k == 0 then 1 else 256 * Pow256(k - 1)
  }

  lemma {:induction false} FromLittleEndianSnoc(a: seq<byte>, b: byte)
    ensures FromLittleEndian(a + [b]) == FromLittleEndian(a) + b * Pow256(|a|)
  {
    if a == [] {
      assert [b][1..] == [];
    } else {
      FromLittleEndianSnoc(a[1..], b);
      assert (a + [b])[1..] == a[1..] + [b];
      Assoc(256, b, Pow256(|a| - 1));
    }
  }

  /** A fixed-width value at the head of `s`. */
  function ReadFixed(s: seq<byte>, width: nat): (r: Result<(int, nat)>)
    ensures r.Ok? ==> r.value.1 == width <= |s|
  {
    if |s| < width then Err(Truncated) else Ok((FromLittleEndian(s[..width]), width))
  }

  // ----- Signed values -----

  /** WriteInt32 sign-extends negative values to 64 bits. */
  function Int32Bytes(v: int32): seq<byte> { Varint(if v >= 0 then v else v + TWO64) }

  /** ... and a 32-bit reader drops the upper half again. */
  lemma Int32RoundTrip(v: int32, rest: seq<byte>)
    ensures ReadVarint(Int32Bytes(v) + rest, TWO32) == Ok((ToUInt32(v), |Int32Bytes(v)|))
    ensures ToInt32(ToUInt32(v)) == v
    ensures v < 0 ==> |Int32Bytes(v)| == 10
  {
    var n := if v >= 0 then v else v + TWO64;
    VarintRoundTrip(n, rest, TWO32);
    VarintLength(n, 9);
    VarintLength(n, 10);
    assert Pow128(9) == TWO63;
  }

  function EncodeZigZag32(n: int32): uint32 {
    // (n << 1) ^ (n >> 31): the sign mask is all zeros or all ones
    var doubled := (2 * n) % TWO32;
    if n < 0 then TWO32 - 1 - doubled else doubled
  }

  function EncodeZigZag64(n: int64): uint64 {
    var doubled := (2 * n) % TWO64;
    if n < 0 then TWO64 - 1 - doubled else doubled
  }

  function DecodeZigZag32(n: uint32): int32 {
    // (n >> 1) ^ -(n & 1): xor with minus one is the complement
    if n % 2 == 1 then -1 - n / 2 else n / 2
  }

  function DecodeZigZag64(n: uint64): int64 {
    if n % 2 == 1 then -1 - n / 2 else n / 2
  }

  lemma ZigZagInverse32(n: int32, u: uint32)
    ensures DecodeZigZag32(EncodeZigZag32(n)) == n
    ensures EncodeZigZag32(DecodeZigZag32(u)) == u
    ensures EncodeZigZag32(n) == if n >= 0 then 2 * n else -2 * n - 1
  {
  }

  lemma ZigZagInverse64(n: int64, u: uint64)
    ensures DecodeZigZag64(EncodeZigZag64(n)) == n
    ensures EncodeZigZag64(DecodeZigZag64(u)) == u
    ensures EncodeZigZag64(n) == if n >= 0 then 2 * n else -2 * n - 1
  {
  }
}
