/**
 The two streams against each other: what the writer puts out, with any buffer size, the reader
 gets back value by value, however the source cuts the bytes into chunks.
 */
module Loopback {
  import opened Wire
  import opened WireFields
  import opened CodedInputStream
  import opened CodedOutputStream

  datatype Datum =
    | UInt32(u32: uint32) | UInt64(u64: uint64) | Int32(i32: int32) | Int64(i64: int64)
    | SInt32(s32: int32) | SInt64(s64: int64) | Fixed32(f32: uint32) | Fixed64(f64: uint64)
    | Bytes(bytes: seq<byte>)
  datatype Kind = KUInt32 | KUInt64 | KInt32 | KInt64 | KSInt32 | KSInt64 | KFixed32 | KFixed64 | KBytes

  function KindOf(d: Datum): Kind {
    match d
    case UInt32(_) => KUInt32
    case UInt64(_) => KUInt64
    case Int32(_) => KInt32
    case Int64(_) => KInt64
    case SInt32(_) => KSInt32
    case SInt64(_) => KSInt64
    case Fixed32(_) => KFixed32
    case Fixed64(_) => KFixed64
    case Bytes(_) => KBytes
  }

  ghost predicate Encodable(d: Datum) { d.Bytes? ==> |d.bytes| < TWO31 }

  ghost function Encode(d: Datum): seq<byte> {
    match d
    case UInt32(v) => Varint(v)
    case UInt64(v) => Varint(v)
    case Int32(v) => Int32Bytes(v)
    case Int64(v) => Varint(ToUInt64(v))
    case SInt32(v) => Varint(EncodeZigZag32(v))
    case SInt64(v) => Varint(EncodeZigZag64(v))
    case Fixed32(v) => LittleEndian(v, 4)
    case Fixed64(v) => LittleEndian(v, 8)
    case Bytes(bs) => Varint(|bs|) + bs
  }

  predicate Narrow(kind: Kind) { kind == KUInt32 || kind == KInt32 || kind == KSInt32 || kind == KFixed32 }

  /** The typed reading of a raw 32- or 64-bit result. */
  function FromRaw(kind: Kind, raw: int): Datum
    requires 0 <= raw < TWO64 && (Narrow(kind) ==> raw < TWO32)
  {
    match kind
    case KUInt32 => UInt32(raw)
    case KInt32 => Int32(ToInt32(raw))
    case KSInt32 => SInt32(DecodeZigZag32(raw))
    case KUInt64 => UInt64(raw)
    case KInt64 => Int64(ToInt64(raw))
    case KSInt64 => SInt64(DecodeZigZag64(raw))
    case KFixed32 => Fixed32(raw)
    case KFixed64 => Fixed64(raw)
    case KBytes => Bytes([])
  }

  ghost function Decode(kind: Kind, s: seq<byte>): Result<(Datum, nat)> {
    match kind
    case KBytes =>
      var length :- ReadVarint(s, TWO32);
      var bytes :- ReadBytes(s[length.1..], ToInt32(length.0));
      Ok((Bytes(bytes.0), length.1 + bytes.1))
    case KFixed32 =>
      var raw :- ReadFixed(s, 4);
      FixedBound(s, 4);
      Ok((FromRaw(kind, raw.0), raw.1))
    case KFixed64 =>
      var raw :- ReadFixed(s, 8);
      FixedBound(s, 8);
      Ok((FromRaw(kind, raw.0), raw.1))
    case _ =>
      var raw :- ReadVarint(s, if Narrow(kind) then TWO32 else TWO64);
      Ok((FromRaw(kind, raw.0), raw.1))
  }

  lemma {:induction false} FromLittleEndianBound(bytes: seq<byte>)
    ensures FromLittleEndian(bytes) < Pow256(|bytes|)
  {
    if bytes != [] {
      FromLittleEndianBound(bytes[1..]);
    }
  }

  lemma FixedBound(s: seq<byte>, width: nat)
    requires ReadFixed(s, width).Ok? && (width == 4 || width == 8)
    ensures 0 <= ReadFixed(s, width).value.0 < if width == 4 then TWO32 else TWO64
  {
    FromLittleEndianBound(s[..width]);
    assert Pow256(4) == TWO32;
    assert Pow256(8) == TWO64;
  }

  lemma FixedWidths()
    ensures Pow256(4) == TWO32 && Pow256(8) == TWO64
  {
  }

  lemma FixedRoundTrip(v: nat, width: nat, rest: seq<byte>)
    requires v < Pow256(width)
    ensures ReadFixed(LittleEndian(v, width) + rest, width) == Ok((v, width))
  {
    LittleEndianRoundTrip(v, width);
    assert (LittleEndian(v, width) + rest)[..width] == LittleEndian(v, width);
  }

  lemma BytesRoundTrip(bs: seq<byte>, rest: seq<byte>)
    requires |bs| < TWO31
    ensures Decode(KBytes, Encode(Bytes(bs)) + rest) == Ok((Bytes(bs), |Encode(Bytes(bs))|))
  {
    hide ReadVarint, Varint;
    var head := Varint(|bs|);
    assert head + bs + rest == head + (bs + rest);
    VarintRoundTrip(|bs|, bs + rest, TWO32);
    assert (head + (bs + rest))[|head|..] == bs + rest;
    assert (bs + rest)[..|bs|] == bs;
  }

  predicate OnVarint(kind: Kind) { kind != KBytes && kind != KFixed32 && kind != KFixed64 }

  lemma DecodeVarint(kind: Kind, s: seq<byte>, raw: int, k: nat)
    requires OnVarint(kind) && ReadVarint(s, if Narrow(kind) then TWO32 else TWO64) == Ok((raw, k))
    ensures 0 <= raw < TWO64 && (Narrow(kind) ==> raw < TWO32)
    ensures Decode(kind, s) == Ok((FromRaw(kind, raw), k))
  {
    hide ReadVarint, FromRaw;
  }

  /** The number behind a datum that travels as a varint. */
  function Raw(d: Datum): uint64
    requires OnVarint(KindOf(d))
  {
    match d
    case UInt32(v) => v
    case UInt64(v) => v
    case Int32(v) => if v >= 0 then v else v + TWO64
    case Int64(v) => ToUInt64(v)
    case SInt32(v) => EncodeZigZag32(v)
    case SInt64(v) => EncodeZigZag64(v)
  }

  lemma EncodeVarint(d: Datum)
    requires OnVarint(KindOf(d))
    ensures Encode(d) == Varint(Raw(d))
  {
    hide Varint, EncodeZigZag32, EncodeZigZag64;
  }

  lemma FromRawInverse(d: Datum)
    requires OnVarint(KindOf(d))
    ensures var raw := Raw(d) % (if Narrow(KindOf(d)) then TWO32 else TWO64); FromRaw(KindOf(d), raw) == d
  {
    hide EncodeZigZag32, EncodeZigZag64, DecodeZigZag32, DecodeZigZag64;
    match d
    case SInt32(v) => ZigZagInverse32(v, 0);
    case SInt64(v) => ZigZagInverse64(v, 0);
    case Int32(v) =>
    case Int64(v) =>
    case UInt32(v) =>
    case UInt64(v) =>
  }

  lemma FixedDatumRoundTrip(d: Datum, rest: seq<byte>)
    requires d.Fixed32? || d.Fixed64?
    ensures Decode(KindOf(d), Encode(d) + rest) == Ok((d, |Encode(d)|))
  {
    hide ReadFixed, LittleEndian, Pow256, ReadVarint;
    FixedWidths();
    if d.Fixed32? { FixedRoundTrip(d.f32, 4, rest); } else { FixedRoundTrip(d.f64, 8, rest); }
  }

  /** One value of any kind, followed by anything. */
  lemma RoundTrip(d: Datum, rest: seq<byte>)
    requires Encodable(d)
    ensures Decode(KindOf(d), Encode(d) + rest) == Ok((d, |Encode(d)|))
  {
    hide Encode, Decode, ReadVarint, Varint, Raw, FromRaw;
    if d.Bytes? {
      BytesRoundTrip(d.bytes, rest);
    } else if d.Fixed32? || d.Fixed64? {
      FixedDatumRoundTrip(d, rest);
    } else {
      var m := if Narrow(KindOf(d)) then TWO32 else TWO64;
      EncodeVarint(d);
      FromRawInverse(d);
      VarintRoundTrip(Raw(d), rest, m);
      DecodeVarint(KindOf(d), Encode(d) + rest, Raw(d) % m, |Encode(d)|);
    }
  }

  ghost function EncodeAll(ds: seq<Datum>): seq<byte> {
    if ds == [] then [] else Encode(ds[0]) + EncodeAll(ds[1..])
  }

  lemma {:induction false} EncodeAllSnoc(ds: seq<Datum>, d: Datum)
    ensures EncodeAll(ds + [d]) == EncodeAll(ds) + Encode(d)
  {
    hide Encode;
    if ds == [] {
      assert [d][1..] == [];
      assert Encode(d) + [] == Encode(d) == [] + Encode(d);
    } else {
      EncodeAllSnoc(ds[1..], d);
      assert (ds + [d])[1..] == ds[1..] + [d];
    }
  }

  /** The wire type of a field with a value of this kind. */
  function WireType(kind: Kind): int {
    if kind == KBytes then 2 else if kind == KFixed32 then 5 else if kind == KFixed64 then 1 else 0
  }

  /** The skipper passes over exactly what the writer has written for a field of any kind and number. */
  lemma WrittenIsSkipped(d: Datum, number: nat, rest: seq<byte>, c: Context)
    requires Encodable(d) && |Encode(d) + rest| <= c.room
    ensures SkipField(Encode(d) + rest, c, 8 * number + WireType(KindOf(d))) == Ok(|Encode(d)|)
  {
    hide SkipField, Varint, IsVarint, Value;
    var tag := 8 * number + WireType(KindOf(d));
    if d.Bytes? {
      VarintIsVarint(|d.bytes|);
      SkipsEncoded(BytesField(Varint(|d.bytes|), d.bytes), rest, c, tag);
    } else if d.Fixed32? || d.Fixed64? {
      SkipsEncoded(FixedField(Encode(d)), rest, c, tag);
    } else {
      EncodeVarint(d);
      VarintIsVarint(Raw(d));
      SkipsEncoded(VarintField(Encode(d)), rest, c, tag);
    }
  }

  // ----- The drivers -----

  /** The length and then the bytes. */
  method WriteBytes(output: CodedOutputStream, bs: seq<byte>)
    requires output.Valid() && output.output != null && |bs| < TWO31
    modifies output, output.buffer, output.output
    ensures output.Valid() && output.Written() == old(output.Written()) + (Varint(|bs|) + bs)
  {
    hide Varint;
    var raw := new byte[|bs|](k requires 0 <= k < |bs| => bs[k]);
    assert raw[0..0 + |bs|] == bs;
    ghost var was := output.Written();
    var _ := output.WriteRawVarint32(|bs|);
    var _ := output.WriteRawBytes(raw, 0, |bs|);
    assert was + Varint(|bs|) + bs == was + (Varint(|bs|) + bs);
  }

  method WriteDatum(output: CodedOutputStream, d: Datum)
    requires output.Valid() && output.output != null && Encodable(d)
    modifies output, output.buffer, output.output
    ensures output.Valid() && output.Written() == old(output.Written()) + Encode(d)
  {
    hide Varint, LittleEndian, Int32Bytes, EncodeZigZag32, EncodeZigZag64, ToUInt64;
    match d
    case UInt32(v) => var _ := output.WriteRawVarint32(v);
    case UInt64(v) => var _ := output.WriteRawVarint64(v);
    case Int32(v) => var _ := output.WriteInt32(v);
    case Int64(v) => var _ := output.WriteRawVarint64(ToUInt64(v));
    case SInt32(v) => var _ := output.WriteRawVarint32(EncodeZigZag32(v));
    case SInt64(v) => var _ := output.WriteRawVarint64(EncodeZigZag64(v));
    case Fixed32(v) => var _ := output.WriteRawLittleEndian32(v);
    case Fixed64(v) => var _ := output.WriteRawLittleEndian64(v);
    case Bytes(bs) => WriteBytes(output, bs);
  }

  /** The reader's side, for one value of a given kind. */
  method ReadDatum(input: CodedInputStream, kind: Kind) returns (r: Result<Datum>)
    requires input.Valid() && input.buffer.Length > 0
    modifies input, input.buffer, input.input
    ensures Reads(input, r, Decode(kind, old(input.Rest())), old(input.View()))
  {
    hide ReadVarint, ReadFixed, FromLittleEndian, Sound, Slice;
    ghost var s := input.Rest();
    if kind == KBytes {
      input.PosIsNatural();
      r := ReadLengthDelimited(input, s, input.View());
    } else if kind == KFixed32 {
      var raw :- input.ReadRawLittleEndian32();
      FixedBound(s, 4);
      r := Ok(FromRaw(kind, raw));
    } else if kind == KFixed64 {
      var raw :- input.ReadRawLittleEndian64();
      FixedBound(s, 8);
      r := Ok(FromRaw(kind, raw));
    } else if Narrow(kind) {
      var raw :- input.ReadRawVarint32();
      r := Ok(FromRaw(kind, raw));
    } else {
      var raw :- input.ReadRawVarint64();
      r := Ok(FromRaw(kind, raw));
    }
  }

  method ReadLengthDelimited(input: CodedInputStream, ghost s: seq<byte>, ghost was: View) returns (r: Result<Datum>)
    requires Gathered(input, s, was, []) && input.buffer.Length > 0
    modifies input, input.buffer, input.input
    ensures Reads(input, r, Decode(KBytes, s), was)
  {
    var length :- input.ReadRawVarint32();
    input.AdvancedRest(was, ReadVarint(s, TWO32).value.1);
    var bytes :- input.ReadRawBytes(ToInt32(length));
    return Ok(Bytes(bytes));
  }

  method WriteAll(output: CodedOutputStream, values: seq<Datum>)
    requires output.Valid() && output.output != null
    requires forall k :: 0 <= k < |values| ==> Encodable(values[k])
    modifies output, output.buffer, output.output
    ensures output.Valid() && output.Written() == old(output.Written()) + EncodeAll(values)
  {
    hide Encode, EncodeAll, Encodable;
    ghost var was := output.Written();
    EncodeNone();
    assert values[..0] == [];
    for i := 0 to |values|
      invariant output.Valid() && output.Written() == was + EncodeAll(values[..i])
    {
      WriteDatum(output, values[i]);
      assert values[..i + 1] == values[..i] + [values[i]];
      EncodeAllSnoc(values[..i], values[i]);
      assert was + EncodeAll(values[..i]) + Encode(values[i]) == was + (EncodeAll(values[..i]) + Encode(values[i]));
    }
    assert values[..|values|] == values;
  }

  lemma EncodeNone()
    ensures EncodeAll([]) == []
  {
  }

  /** What `values[i..]` looks like to a reader, and what is left after one value. */
  lemma OneMore(values: seq<Datum>, i: nat)
    requires i < |values| && Encodable(values[i])
    ensures Decode(KindOf(values[i]), EncodeAll(values[i..])) == Ok((values[i], |Encode(values[i])|))
    ensures Drop(EncodeAll(values[i..]), |Encode(values[i])|) == EncodeAll(values[i + 1..])
  {
    hide Encode, Decode;
    var head, tail := Encode(values[i]), EncodeAll(values[i + 1..]);
    assert values[i..][0] == values[i] && values[i..][1..] == values[i + 1..];
    assert EncodeAll(values[i..]) == head + tail;
    RoundTrip(values[i], tail);
    assert (head + tail)[|head|..] == tail;
  }

  /** Only the kinds of `values` steer the reader. */
  method ReadAll(input: CodedInputStream, values: seq<Datum>) returns (r: Result<seq<Datum>>)
    requires input.Valid() && (input.buffer.Length > 0 || values == [])
    requires forall k :: 0 <= k < |values| ==> Encodable(values[k])
    requires input.Rest() == EncodeAll(values) && !TooLarge(input)
    modifies input, input.buffer, input.input
    ensures r == Ok(values)
  {
    hide Sound, Slice, Encode, EncodeAll, Decode, Encodable, Drop;
    var result := [];
    assert values[0..] == values;
    for i := 0 to |values|
      invariant input.Valid() && input.Rest() == EncodeAll(values[i..]) && result == values[..i]
    {
      input.PosIsNatural();
      OneMore(values, i);
      ghost var was := input.View();
      var d := ReadDatum(input, KindOf(values[i]));
      input.AdvancedRest(was, |Encode(values[i])|);
      result := result + [d.value];
    }
    assert values[..|values|] == values;
    return Ok(result);
  }

  /**
   Write everything, flush, and read everything back in the same order: nothing is lost, added or
   changed. The buffer sizes are free, the source cuts its chunks at will, and the size limit is
   set to the largest position there can be.
   */
  method WriteThenRead(values: seq<Datum>, writeBuffer: nat, readBuffer: nat, canSeek: bool) returns (r: Result<seq<Datum>>)
    requires writeBuffer > 0 && readBuffer > 0
    requires forall k :: 0 <= k < |values| ==> Encodable(values[k])
    requires |EncodeAll(values)| <= INT_MAX
    ensures r == Ok(values)
  {
    var bytes := WriteToBytes(values, writeBuffer);
    r := ReadFromBytes(bytes, values, readBuffer, canSeek);
  }

  method WriteToBytes(values: seq<Datum>, bufferSize: nat) returns (bytes: seq<byte>)
    requires bufferSize > 0
    requires forall k :: 0 <= k < |values| ==> Encodable(values[k])
    ensures bytes == EncodeAll(values)
  {
    hide Encode, EncodeAll, Encodable;
    var sink := new OutputSink();
    var output := new CodedOutputStream.FromStream(sink, bufferSize);
    WriteAll(output, values);
    output.Flush();
    bytes := sink.data;
  }

  method ReadFromBytes(bytes: seq<byte>, values: seq<Datum>, bufferSize: nat, canSeek: bool) returns (r: Result<seq<Datum>>)
    requires bufferSize > 0 && bytes == EncodeAll(values) && |bytes| <= INT_MAX
    requires forall k :: 0 <= k < |values| ==> Encodable(values[k])
    ensures r == Ok(values)
  {
    hide Encode, EncodeAll, Encodable;
    var source := new InputSource(bytes, canSeek);
    var input := new CodedInputStream.FromStream(source, bufferSize, INT_MAX, 64);
    assert bytes[0..] == bytes[0..|bytes|] == bytes;
    r := ReadAll(input, values);
  }

  lemma NothingEncoded(values: seq<Datum>)
    requires EncodeAll(values) == []
    ensures values == []
  {
    hide Varint, LittleEndian;
    if values != [] {
      assert Encode(values[0]) == [];
      match values[0]
      case UInt32(_) => case UInt64(_) => case Int32(_) => case Int64(_) => case SInt32(_) =>
      case SInt64(_) => case Fixed32(_) => case Fixed64(_) => case Bytes(_) =>
    }
  }

  /** The same over an array, as a slice of it that starts and ends anywhere. */
  method ReadFromArray(before: seq<byte>, values: seq<Datum>, after: seq<byte>) returns (r: Result<seq<Datum>>)
    requires forall k :: 0 <= k < |values| ==> Encodable(values[k])
    requires |before + EncodeAll(values) + after| <= INT_MAX
    ensures r == Ok(values)
  {
    hide Encode, EncodeAll, Encodable, Decode;
    var bytes := WriteToBytes(values, 4096);
    if bytes == [] { NothingEncoded(values); }
    var all := before + bytes + after;
    var buffer := new byte[|all|](k requires 0 <= k < |all| => all[k]);
    var input := new CodedInputStream.FromArray(buffer, |before|, |bytes|);
    assert buffer[..] == all;
    assert buffer[|before|..|before| + |bytes|] == bytes;
    r := ReadAll(input, values);
  }
}