/**
 The buffered writer. Whatever the buffer size and wherever a flush falls, what has reached the
 sink plus what is still in the buffer is the concatenation of the encodings written so far.
 */
module CodedOutputStream {
  import opened Wire

  /** The output stream below; only the bytes it has received matter. */
  class OutputSink {
    var data: seq<byte>

    constructor ()
      ensures data == []
    {
      data := [];
    }

    method Write(bytes: array<byte>, offset: nat, count: nat)
      requires offset + count <= bytes.Length
      modifies this
      ensures data == old(data) + bytes[offset..offset + count]
    {
      data := data + bytes[offset..offset + count];
    }
  }

  class CodedOutputStream {
    const buffer: array<byte>
    const output: OutputSink?
    const limit: nat
    ghost const start: nat
    var position: nat

    ghost predicate Valid() reads this {
      && start <= position <= limit <= buffer.Length
      && (output != null ==> start == 0 && 0 < limit == buffer.Length)
    }

    /** Everything written so far. */
    ghost function Written(): seq<byte>
      requires Valid()
      reads this, buffer, output
    {
      (if output == null then [] else output.data) + buffer[start..position]
    }

    /** Room for `n` more bytes; a stream-backed writer always has it. */
    ghost predicate Fits(n: nat)
      requires Valid()
      reads this
    {
      output != null || n <= limit - position
    }

    /** The part of `bytes` that is kept: all of them, or what fits before the exception. */
    ghost function Kept(bytes: seq<byte>): seq<byte>
      requires Valid()
      reads this
    {
      if Fits(|bytes|) then bytes else bytes[..limit - position]
    }

    constructor FromArray(flat: array<byte>, offset: nat, length: nat)
      requires offset + length <= flat.Length
      ensures Valid() && buffer == flat && output == null
      ensures Written() == [] && position == offset && limit == offset + length
    {
      buffer, output, position, limit, start := flat, null, offset, offset + length, offset;
    }

    constructor FromStream(output: OutputSink, bufferSize: nat)
      requires bufferSize > 0
      ensures Valid() && fresh(buffer) && this.output == output
      ensures Written() == output.data
    {
      this.buffer, this.output, this.position, this.limit, this.start :=
        new byte[bufferSize], output, 0, bufferSize, 0;
    }

    method RefreshBuffer() returns (r: Result<()>)
      requires Valid()
      modifies this, output
      ensures Valid() && Written() == old(Written())
      ensures r == if output != null then Ok(()) else Err(OutOfSpace)
      ensures position == if output != null then 0 else old(position)
    {
      if output == null {
        return Err(OutOfSpace);
      }
      output.Write(buffer, 0, position);
      position := 0;
      return Ok(());
    }

    method Flush()
      requires Valid()
      modifies this, output
      ensures Valid() && Written() == old(Written())
      ensures output != null ==> output.data == Written()
    {
      if output != null {
        var _ := RefreshBuffer();
      }
    }

    method WriteRawByte(value: byte) returns (r: Result<()>)
      requires Valid()
      modifies this, buffer, output
      ensures Valid() && Written() == old(Written()) + old(Kept([value]))
      ensures r == if old(Fits(1)) then Ok(()) else Err(OutOfSpace)
      ensures output == null && r.Ok? ==> position == old(position) + 1
    {
      if position == limit {
        r := RefreshBuffer();
        if r.Err? { return; }
      }
      buffer[position] := value;
      position := position + 1;
      return Ok(());
    }

    /** `buffer[position++] = value`, where there is room. */
    method Store(value: byte)
      requires Valid() && position < limit
      modifies this`position, buffer
      ensures Valid() && Written() == old(Written()) + [value]
      ensures position == old(position) + 1
    {
      buffer[position] := value;
      position := position + 1;
    }

    /** An encoding `whole`, begun at position `from` with `was` written, has `left` to go. */
    ghost predicate Midway(was: seq<byte>, from: nat, whole: seq<byte>, left: seq<byte>)
      reads this, buffer, output
    {
      && Valid() && Progress(was, whole, Written(), left)
      && (output == null ==> position - from == |whole| - |left|)
    }

    /** The loops that the 32-bit and the 64-bit writer share, word for word. */
    method WriteGroups(v: uint64) returns (r: Result<()>)
      requires Valid()
      modifies this, buffer, output
      ensures Valid() && Written() == old(Written()) + old(Kept(Varint(v)))
      ensures r == if old(Fits(|Varint(v)|)) then Ok(()) else Err(OutOfSpace)
    {
      hide Progress, Written;
      var value: nat := v;
      ghost var was, whole := Written(), Varint(v);
      ProgressStart(was, whole);
      while value > 127 && position < limit
        invariant Midway(was, old(position), whole, Varint(value))
        decreases value
      {
        ProgressStep(was, whole, Written(), value % 128 + 128, Varint(value / 128));
        Store(value % 128 + 128);
        value := value / 128;
      }
      while value > 127
        invariant Midway(was, old(position), whole, Varint(value))
        decreases value
      {
        ProgressStep(was, whole, Written(), value % 128 + 128, Varint(value / 128));
        ProgressStuck(was, whole, Written(), Varint(value));
        r := WriteRawByte(value % 128 + 128);
        if r.Err? { return; }
        value := value / 128;
      }
      assert Varint(value) == [value] + [];
      ProgressStep(was, whole, Written(), value, []);
      ProgressStuck(was, whole, Written(), [value]);
      if position < limit {
        Store(value);
      } else {
        r := WriteRawByte(value);
        if r.Err? { return; }
      }
      ProgressStuck(was, whole, Written(), []);
      return Ok(());
    }

    method WriteRawVarint32(value: uint32) returns (r: Result<()>)
      requires Valid()
      modifies this, buffer, output
      ensures Valid() && Written() == old(Written()) + old(Kept(Varint(value)))
      ensures r == if old(Fits(|Varint(value)|)) then Ok(()) else Err(OutOfSpace)
    {
      if value < 128 && position < limit {
        Store(value);
        return Ok(());
      }
      r := WriteGroups(value);
    }

    method WriteRawVarint64(value: uint64) returns (r: Result<()>)
      requires Valid()
      modifies this, buffer, output
      ensures Valid() && Written() == old(Written()) + old(Kept(Varint(value)))
      ensures r == if old(Fits(|Varint(value)|)) then Ok(()) else Err(OutOfSpace)
    {
      r := WriteGroups(value);
    }

    method WriteInt32(value: int32) returns (r: Result<()>)
      requires Valid()
      modifies this, buffer, output
      ensures Valid() && Written() == old(Written()) + old(Kept(Int32Bytes(value)))
      ensures r == if old(Fits(|Int32Bytes(value)|)) then Ok(()) else Err(OutOfSpace)
    {
      if value >= 0 {
        r := WriteRawVarint32(value);
      } else {
        r := WriteRawVarint64(value + TWO64);
      }
    }

    /** Byte by byte, with a flush wherever the buffer fills up. */
    method WriteBytewise(bytes: seq<byte>) returns (r: Result<()>)
      requires Valid()
      modifies this, buffer, output
      ensures Valid() && Written() == old(Written()) + old(Kept(bytes))
      ensures r == if old(Fits(|bytes|)) then Ok(()) else Err(OutOfSpace)
    {
      ghost var was := Written();
      for k := 0 to |bytes|
        invariant Valid() && Written() == was + bytes[..k]
        invariant output == null ==> position == old(position) + k
      {
        r := WriteRawByte(bytes[k]);
        if r.Err? { return; }
      }
      return Ok(());
    }

    method WriteRawLittleEndian32(value: uint32) returns (r: Result<()>)
      requires Valid()
      modifies this, buffer, output
      ensures Valid() && Written() == old(Written()) + old(Kept(LittleEndian(value, 4)))
      ensures r == if old(Fits(4)) then Ok(()) else Err(OutOfSpace)
    {
      r := WriteFixed(LittleEndian(value, 4));
    }

    method WriteRawLittleEndian64(value: uint64) returns (r: Result<()>)
      requires Valid()
      modifies this, buffer, output
      ensures Valid() && Written() == old(Written()) + old(Kept(LittleEndian(value, 8)))
      ensures r == if old(Fits(8)) then Ok(()) else Err(OutOfSpace)
    {
      r := WriteFixed(LittleEndian(value, 8));
    }

    /** The two branches of the fixed-width writers: one room test, or a test per byte. */
    method WriteFixed(bytes: seq<byte>) returns (r: Result<()>)
      requires Valid()
      modifies this, buffer, output
      ensures Valid() && Written() == old(Written()) + old(Kept(bytes))
      ensures r == if old(Fits(|bytes|)) then Ok(()) else Err(OutOfSpace)
    {
      if position + |bytes| > limit {
        r := WriteBytewise(bytes);
      } else {
        ghost var was := Written();
        hide Written;
        for k := 0 to |bytes|
          invariant Valid() && Written() == was + bytes[..k] && position == old(position) + k
        {
          Store(bytes[k]);
        }
        r := Ok(());
      }
    }

    method WriteRawBytes(value: array<byte>, offset: nat, length: nat) returns (r: Result<()>)
      requires Valid() && offset + length <= value.Length && value != buffer
      modifies this, buffer, output
      ensures Valid() && Written() == old(Written()) + old(Kept(value[offset..offset + length]))
      ensures r == if old(Fits(length)) then Ok(()) else Err(OutOfSpace)
    {
      hide Written;
      ghost var all, was := value[offset..offset + length], Written();
      if limit - position >= length {
        Copy(value, offset, length);
        return Ok(());
      }
      var bytesWritten := limit - position;
      assert all[..bytesWritten] == value[offset..offset + bytesWritten];
      assert all[bytesWritten..] == value[offset + bytesWritten..offset + length];
      Copy(value, offset, bytesWritten);
      r := RefreshBuffer();
      if r.Err? { return; }
      var rest := length - bytesWritten;
      if rest <= limit {
        Copy(value, offset + bytesWritten, rest);
      } else {
        WriteThrough(value, offset + bytesWritten, rest);
      }
      assert Written() == was + all[..bytesWritten] + all[bytesWritten..];
      assert was + all[..bytesWritten] + all[bytesWritten..] == was + all;
    }

    /** The oversized write goes straight to the sink; the buffer has just been flushed. */
    method WriteThrough(value: array<byte>, offset: nat, length: nat)
      requires Valid() && output != null && position == 0 && offset + length <= value.Length
      modifies output
      ensures Valid() && Written() == old(Written()) + value[offset..offset + length]
    {
      output.Write(value, offset, length);
    }

    /** ByteArray.Copy into the buffer at the current position. */
    method Copy(value: array<byte>, offset: nat, length: nat)
      requires Valid() && offset + length <= value.Length && value != buffer && length <= limit - position
      modifies this`position, buffer
      ensures Valid() && Written() == old(Written()) + value[offset..offset + length]
      ensures position == old(position) + length
    {
      forall k | position <= k < position + length {
        buffer[k] := value[offset + (k - position)];
      }
      assert forall k :: position <= k < position + length ==> buffer[k] == value[offset + (k - position)];
      position := position + length;
      assert buffer[start..old(position)] == old(buffer[start..position]);
      assert buffer[old(position)..position] == value[offset..offset + length];
      assert buffer[start..position] == buffer[start..old(position)] + buffer[old(position)..position];
    }
  }

  // ----- The loops' invariant on values: what is written plus what is left -----

  ghost predicate Progress(was: seq<byte>, whole: seq<byte>, now: seq<byte>, left: seq<byte>) {
    |left| <= |whole| && now + left == was + whole
  }

  lemma ProgressStart(was: seq<byte>, whole: seq<byte>)
    ensures Progress(was, whole, was, whole)
  {
  }

  lemma ProgressStep(was: seq<byte>, whole: seq<byte>, now: seq<byte>, b: byte, rest: seq<byte>)
    requires Progress(was, whole, now, [b] + rest)
    ensures Progress(was, whole, now + [b], rest)
  {
    assert now + ([b] + rest) == now + [b] + rest;
  }

  /** Stopping here leaves a prefix of the encoding behind. */
  lemma ProgressStuck(was: seq<byte>, whole: seq<byte>, now: seq<byte>, left: seq<byte>)
    requires Progress(was, whole, now, left)
    ensures |left| <= |whole| && now == was + whole[..|whole| - |left|]
  {
    assert now == (now + left)[..|now|] == (was + whole)[..|now|];
  }
}
