/**
 The buffered reader. For any way the source cuts its bytes into chunks, the reader refines one
 flat byte sequence with one position and one limit: `flat`, `Pos()` and `currentLimit`.
 */
module CodedInputStream {
  import opened VarintGroups
  import opened Wire
  import opened WireFields

  const INT_MAX := 0x7FFF_FFFF

  /** The stream below: it may return any positive number of the bytes it still has. */
  class InputSource {
    const data: seq<byte>
    const canSeek: bool
    var position: nat

    constructor (data: seq<byte>, canSeek: bool)
      ensures this.data == data && this.canSeek == canSeek && position == 0
    {
      this.data, this.canSeek, this.position := data, canSeek, 0;
    }

    method Read(bytes: array<byte>, offset: nat, count: nat) returns (n: nat)
      requires offset + count <= bytes.Length
      modifies this`position, bytes
      ensures n <= count && position == old(position) + n
      ensures n == 0 <==> count == 0 || old(position) >= |data|
      ensures n > 0 ==> position <= |data|
      ensures forall k :: 0 <= k < bytes.Length ==>
        bytes[k] == if offset <= k < offset + n then data[old(position) + (k - offset)] else old(bytes[k])
    {
      if count == 0 || position >= |data| {
        return 0;
      }
      n :| 1 <= n <= count && position + n <= |data|;
      forall k | offset <= k < offset + n {
        bytes[k] := data[position + (k - offset)];
      }
      position := position + n;
    }

    /** One byte, or -1 at the end. */
    method ReadByte() returns (b: int)
      modifies this`position
      ensures if old(position) < |data| then b == data[old(position)] && position == old(position) + 1
              else b == -1 && position == old(position)
    {
      if position >= |data| {
        return -1;
      }
      b := data[position];
      position := position + 1;
    }
  }

  function Min(a: int, b: int): int { if a <= b then a else b }

  datatype View = V(pos: int, limit: int, depth: int, lastTag: uint32, nextTag: uint32, hasNextTag: bool)

  class CodedInputStream {
    const buffer: array<byte>
    const input: InputSource?
    const recursionLimit: int
    const sizeLimit: int
    var bufferPos: int
    var bufferSize: int
    var bufferSizeAfterLimit: int
    var totalBytesRetired: int
    var currentLimit: int
    var recursionDepth: int
    var lastTag: uint32
    var nextTag: uint32
    var hasNextTag: bool

    ghost const flat: seq<byte>    // every byte the source will ever yield
    ghost const origin: nat        // where in the source that sequence starts

    // ----- The abstract state -----

    /** The absolute position of the next byte. */
    ghost function Pos(): int reads this { totalBytesRetired + bufferPos }

    /** All that a caller can tell about the state. */
    ghost function View(): View
      reads this
    {
      V(Pos(), currentLimit, recursionDepth, lastTag, nextTag, hasNextTag)
    }

    /** The bytes that may still be read: up to the limit or the end of the source. */
    ghost function Rest(): seq<byte>
      reads this
    {
      Slice(flat, Pos(), currentLimit)
    }

    ghost predicate Valid()
      reads this, buffer, input
    {
      Sound(this)
    }

    /** The bytes physically in the buffer, including those hidden behind the limit. */
    ghost function Physical(): int reads this { bufferSize + bufferSizeAfterLimit }

    constructor FromArray(buffer: array<byte>, offset: nat, length: nat)
      requires offset + length <= buffer.Length <= INT_MAX
      ensures Valid() && this.buffer == buffer && input == null && flat == buffer[..offset + length]
      ensures Pos() == offset && Rest() == buffer[offset..offset + length]
      ensures currentLimit == INT_MAX && recursionDepth == 0 && !hasNextTag
      ensures sizeLimit == 64 * 1024 * 1024 && recursionLimit == 64
    {
      this.buffer, input := buffer, null;
      bufferPos, bufferSize, bufferSizeAfterLimit := offset, offset + length, 0;
      totalBytesRetired, currentLimit, recursionDepth := 0, INT_MAX, 0;
      sizeLimit, recursionLimit := 64 * 1024 * 1024, 64;
      lastTag, nextTag, hasNextTag := 0, 0, false;
      flat, origin := buffer[..offset + length], 0;
    }

    constructor FromStream(input: InputSource, bufferLength: nat, sizeLimit: int, recursionLimit: int)
      requires bufferLength > 0 && sizeLimit > 0 && recursionLimit > 0 && input.position <= |input.data|
      ensures Valid() && fresh(buffer) && this.input == input && flat == input.data[input.position..]
      ensures this.sizeLimit == sizeLimit && this.recursionLimit == recursionLimit
      ensures Pos() == 0 && currentLimit == INT_MAX && recursionDepth == 0 && !hasNextTag
    {
      this.buffer, this.input := new byte[bufferLength], input;
      bufferPos, bufferSize, bufferSizeAfterLimit := 0, 0, 0;
      totalBytesRetired, currentLimit, recursionDepth := 0, INT_MAX, 0;
      this.sizeLimit, this.recursionLimit := sizeLimit, recursionLimit;
      lastTag, nextTag, hasNextTag := 0, 0, false;
      flat, origin := input.data[input.position..], input.position;
    }

    // ----- Limits -----

    method RecomputeBufferSizeAfterLimit()
      requires 0 <= totalBytesRetired && 0 <= bufferPos && 0 <= bufferSize && 0 <= bufferSizeAfterLimit
      requires bufferPos <= Physical() && Pos() <= currentLimit
      modifies this`bufferSize, this`bufferSizeAfterLimit
      ensures Physical() == old(Physical()) && bufferPos <= bufferSize && 0 <= bufferSizeAfterLimit
      ensures totalBytesRetired + bufferSize <= currentLimit
      ensures bufferSizeAfterLimit > 0 ==> totalBytesRetired + bufferSize == currentLimit
    {
      bufferSize := bufferSize + bufferSizeAfterLimit;
      var bufferEnd := totalBytesRetired + bufferSize;
      if bufferEnd > currentLimit {
        bufferSizeAfterLimit := bufferEnd - currentLimit;
        bufferSize := bufferSize - bufferSizeAfterLimit;
      } else {
        bufferSizeAfterLimit := 0;
      }
    }

    /** Narrows the view to the next `byteLimit` bytes. */
    method PushLimit(byteLimit: int) returns (r: Result<int>)
      requires Valid()
      modifies this`currentLimit, this`bufferSize, this`bufferSizeAfterLimit
      ensures Valid() && View() == old(View()).(limit := currentLimit)
      ensures r == if byteLimit < 0 then Err(NegativeSize)
                   else if Pos() + byteLimit > old(currentLimit) then Err(Truncated)
                   else Ok(old(currentLimit))
      ensures currentLimit == if r.Ok? then Pos() + byteLimit else old(currentLimit)
    {
      if byteLimit < 0 {
        return Err(NegativeSize);
      }
      var newLimit := byteLimit + totalBytesRetired + bufferPos;
      var oldLimit := currentLimit;
      if newLimit > oldLimit {
        return Err(Truncated);
      }
      currentLimit := newLimit;
      RecomputeBufferSizeAfterLimit();
      return Ok(oldLimit);
    }

    /** Widens the view again: every byte hidden by the matching PushLimit is back. */
    method PopLimit(oldLimit: int)
      requires Valid() && currentLimit <= oldLimit
      modifies this`currentLimit, this`bufferSize, this`bufferSizeAfterLimit
      ensures Valid() && View() == old(View()).(limit := oldLimit)
    {
      currentLimit := oldLimit;
      RecomputeBufferSizeAfterLimit();
    }

    // ----- Refilling -----

    method RefillBuffer(mustSucceed: bool) returns (r: Result<bool>)
      requires Valid()
      modifies this, buffer, input
      ensures Valid() && View() == old(View())
      ensures r == Err(InvalidOperation) <==> old(bufferPos < bufferSize)
      ensures r == Ok(true) ==> bufferPos == 0 < bufferSize
      ensures r == Ok(false) ==> !mustSucceed && Rest() == []
      ensures r == Err(Truncated) ==> mustSucceed && Rest() == []
      ensures r == Err(SizeLimitExceeded) ==> TooLarge(this)
      ensures r.Err? ==> r.error == InvalidOperation || r.error == Truncated || r.error == SizeLimitExceeded
      ensures r.Ok? ==> r.value || !mustSucceed
    {
      hide Mirrors;
      if bufferPos < bufferSize {
        return Err(InvalidOperation);
      }
      if totalBytesRetired + bufferSize == currentLimit {
        return if mustSucceed then Err(Truncated) else Ok(false);
      }
      Fetch();
      if bufferSize == 0 {
        return if mustSucceed then Err(Truncated) else Ok(false);
      }
      RecomputeBufferSizeAfterLimit();
      var totalBytesRead := totalBytesRetired + bufferSize + bufferSizeAfterLimit;
      if totalBytesRead > sizeLimit {
        return Err(SizeLimitExceeded);
      }
      return Ok(true);
    }

    /** Retires the exhausted buffer and reads the next chunk, of whatever size, into it. */
    method Fetch()
      requires Mirrors(this, totalBytesRetired, bufferSize)
      modifies this`totalBytesRetired, this`bufferPos, this`bufferSize, buffer, input
      ensures totalBytesRetired == old(totalBytesRetired + bufferSize) && bufferPos == 0 <= bufferSize
      ensures Mirrors(this, totalBytesRetired, bufferSize)
      ensures bufferSize == 0 ==> totalBytesRetired >= |flat|
      ensures bufferSize > 0 ==> input != null
    {
      totalBytesRetired := totalBytesRetired + bufferSize;
      bufferPos := 0;
      bufferSize := 0;
      if input != null {
        bufferSize := input.Read(buffer, 0, buffer.Length);
      }
    }

    // ----- Reading: every reader against a function of the bytes that were left -----

    /** Advancing drops bytes from the front of what is left. */
    lemma AdvancedRest(was: View, n: nat)
      requires 0 <= was.pos && Advanced(this, was, n)
      ensures Rest() == Drop(Slice(flat, was.pos, was.limit), n)
    {
    }

    /** What is in the buffer is what is left to read. */
    lemma Buffered(k: int)
      requires Valid() && 0 <= k && bufferPos + k < bufferSize
      ensures bufferPos + k < buffer.Length && k < |Rest()| && Rest()[k] == buffer[bufferPos + k]
    {
    }

    lemma PosIsNatural()
      requires Valid()
      ensures 0 <= Pos()
    {
    }

    /** `buffer[bufferPos++]` */
    method NextByte() returns (b: byte)
      requires Valid() && bufferPos < bufferSize
      modifies this`bufferPos
      ensures Advanced(this, old(View()), 1) && old(Rest()) != [] && b == old(Rest()[0])
      ensures bufferPos == old(bufferPos) + 1
    {
      Buffered(0);
      hide Mirrors, Slice;
      b := buffer[bufferPos];
      bufferPos := bufferPos + 1;
    }

    method ReadRawByte() returns (r: Result<byte>)
      requires Valid()
      modifies this, buffer, input
      ensures Reads(this, r, ReadByte(old(Rest())), old(View()))
    {
      hide Mirrors;
      if bufferPos == bufferSize {
        var _ :- RefillBuffer(true);
      }
      var b := NextByte();
      return Ok(b);
    }

    /** ReadRawByte, in the middle of a varint. */
    method NextGroup(ghost s: seq<byte>, ghost was: View, ghost k: nat, ghost result: int, ghost m: int)
      returns (r: Result<int>)
      requires k < 10 && Midway(this, s, was, k, result, m)
      modifies this, buffer, input
      ensures r.Ok? ==> 0 <= r.value < 256
      ensures r.Err? ==> Reads(this, r, ReadVarint(s, m), was)
      ensures r.Ok? && r.value < 128 ==> Reads(this, Ok(result + Group(r.value, k, m)), ReadVarint(s, m), was)
      ensures r.Ok? && r.value >= 128 ==> Midway(this, s, was, k + 1, result + Group(r.value, k, m), m)
    {
      AdvancedRest(was, k);
      VarintHead(s, k, m);
      var b :- ReadRawByte();
      return Ok(b);
    }

    /** NextByte, in the middle of a varint. */
    method NextGroupInBuffer(ghost s: seq<byte>, ghost was: View, ghost k: nat, ghost result: int) returns (b: int)
      requires k < 10 && Midway(this, s, was, k, result, TWO32) && bufferPos < bufferSize
      modifies this`bufferPos
      ensures 0 <= b < 256 && bufferPos == old(bufferPos) + 1
      ensures b < 128 ==> Reads(this, Ok(result + Group(b, k, TWO32)), ReadVarint(s, TWO32), was)
      ensures b >= 128 ==> Midway(this, s, was, k + 1, result + Group(b, k, TWO32), TWO32)
    {
      AdvancedRest(was, k);
      VarintHead(s, k, TWO32);
      b := NextByte();
    }

    /**
     The reader that works on the bare stream and takes nothing behind the varint: five groups that
     count, then up to five whose bits are dropped.
     */
    static method ReadRawVarint32FromStream(input: InputSource) returns (r: Result<int>)
      requires input.position <= |input.data|
      modifies input`position
      ensures StreamRead(input, r, ReadVarint(input.data[old(input.position)..], TWO32), old(input.position)) == true
    {
      hide ReadVarint, Group, StreamAt, StreamRead;
      ghost var start, s := input.position, input.data[input.position..];
      var result := 0;
      StreamStart(input);
      for i := 0 to 5
        invariant StreamAt(input, s, start, i, result)
      {
        var b := NextStreamGroup(input, i, s, start, result);
        if b == -1 {
          return Err(Truncated);
        }
        Shifted32(b, i);
        result := result + b % 128 * WEIGHTS[i] % TWO32;
        if b < 128 {
          return Ok(result);
        }
      }
      for i := 5 to 10
        invariant StreamAt(input, s, start, i, result)
      {
        var b := NextStreamGroup(input, i, s, start, result);
        if b == -1 {
          return Err(Truncated);
        }
        Groups32(b, i);
        if b < 128 {
          return Ok(result);
        }
      }
      StreamTooLong(input, s, start, result);
      return Err(Malformed);
    }

    /** One byte of the bare stream, in the middle of a varint. */
    static method NextStreamGroup(input: InputSource, ghost i: nat, ghost s: seq<byte>, ghost start: nat, ghost result: int)
      returns (b: int)
      requires i < 10 && StreamAt(input, s, start, i, result)
      modifies input`position
      ensures -1 <= b < 256
      ensures b == -1 ==> StreamRead(input, Err(Truncated), ReadVarint(s, TWO32), start) == true
      ensures 0 <= b < 128 ==> StreamRead(input, Ok(result + Group(b, i, TWO32)), ReadVarint(s, TWO32), start) == true
      ensures b >= 128 ==> StreamAt(input, s, start, i + 1, result + Group(b, i, TWO32)) == true
    {
      hide ReadVarint, Group;
      VarintHead(s, i, TWO32);
      b := input.ReadByte();
    }

    /** The nest of ifs of the original, one level per group, written as a loop. */
    method SlowReadRawVarint32(ghost s: seq<byte>, ghost was: View) returns (r: Result<int>)
      requires Midway(this, s, was, 0, 0, TWO32)
      modifies this, buffer, input
      ensures Reads(this, r, ReadVarint(s, TWO32), was)
    {
      hide Sound, Midway, Reads, ReadVarint, Group;
      var result := 0;
      for i := 0 to 4
        invariant Midway(this, s, was, i, result, TWO32)
      {
        var tmp :- NextGroup(s, was, i, result, TWO32);
        Groups32(tmp, i);
        if tmp < 128 {
          return Ok(result + tmp * WEIGHTS[i]);
        }
        result := result + tmp % 128 * WEIGHTS[i];
      }
      var tmp :- NextGroup(s, was, 4, result, TWO32);
      Groups32(tmp, 4);
      result := result + tmp * WEIGHTS[4] % TWO32;
      if tmp >= 128 {
        r := DiscardUpper(result, s, was);
        return;
      }
      return Ok(result);
    }

    /** With five bytes in the buffer, the same without a bounds check per byte. */
    method FastReadRawVarint32(ghost s: seq<byte>, ghost was: View) returns (r: Result<int>)
      requires Midway(this, s, was, 0, 0, TWO32) && bufferPos + 5 <= bufferSize
      modifies this, buffer, input
      ensures Reads(this, r, ReadVarint(s, TWO32), was)
    {
      hide Sound, Midway, Reads, ReadVarint, Group;
      var result := 0;
      for i := 0 to 4
        invariant Midway(this, s, was, i, result, TWO32) && bufferPos + 5 - i <= bufferSize
      {
        var tmp := NextGroupInBuffer(s, was, i, result);
        Groups32(tmp, i);
        if tmp < 128 {
          return Ok(result + tmp * WEIGHTS[i]);
        }
        result := result + tmp % 128 * WEIGHTS[i];
      }
      var tmp := NextGroupInBuffer(s, was, 4, result);
      Groups32(tmp, 4);
      result := result + tmp * WEIGHTS[4] % TWO32;
      if tmp >= 128 {
        r := DiscardUpper(result, s, was);
        return;
      }
      return Ok(result);
    }

    method ReadRawVarint32() returns (r: Result<int>)
      requires Valid()
      modifies this, buffer, input
      ensures Reads(this, r, ReadVarint(old(Rest()), TWO32), old(View()))
    {
      if bufferPos + 5 > bufferSize {
        r := SlowReadRawVarint32(Rest(), View());
      } else {
        r := FastReadRawVarint32(Rest(), View());
      }
    }

    /** Discards the upper half: at most five more bytes, one of which must end the varint. */
    method DiscardUpper(result: int, ghost s: seq<byte>, ghost was: View) returns (r: Result<int>)
      requires Midway(this, s, was, 5, result, TWO32)
      modifies this, buffer, input
      ensures Reads(this, r, ReadVarint(s, TWO32), was)
    {
      hide Sound, Midway, Reads, ReadVarint, Group;
      for i := 0 to 5
        invariant Midway(this, s, was, 5 + i, result, TWO32)
      {
        var tmp :- NextGroup(s, was, 5 + i, result, TWO32);
        Groups32(tmp, 5 + i);
        if tmp < 128 {
          return Ok(result);
        }
      }
      TooLong(s, was, result, TWO32);
      return Err(Malformed);
    }

    lemma TooLong(s: seq<byte>, was: View, result: int, m: int)
      requires Midway(this, s, was, 10, result, m)
      ensures Reads(this, Err(Malformed), ReadVarint(s, m), was)
    {
      VarintHead(s, 10, m);
    }

    method ReadRawVarint64() returns (r: Result<int>)
      requires Valid()
      modifies this, buffer, input
      ensures Reads(this, r, ReadVarint(old(Rest()), TWO64), old(View()))
    {
      r := ReadGroups64(Rest(), View());
    }

    method ReadGroups64(ghost s: seq<byte>, ghost was: View) returns (r: Result<int>)
      requires Midway(this, s, was, 0, 0, TWO64)
      modifies this, buffer, input
      ensures Reads(this, r, ReadVarint(s, TWO64), was)
    {
      hide Sound, Midway, Reads, ReadVarint;
      var shift := 0;
      var result := 0;
      while shift < 64
        invariant shift % 7 == 0 && 0 <= shift <= 70 && Midway(this, s, was, shift / 7, result, TWO64)
      {
        var b :- NextGroup(s, was, shift / 7, result, TWO64);
        result := result + b % 128 * Pow128(shift / 7) % TWO64;
        if b < 128 {
          return Ok(result);
        }
        shift := shift + 7;
      }
      TooLong(s, was, result, TWO64);
      return Err(Malformed);
    }

    /** The fixed-width readers: `b1 | (b2 << 8) | ...`, byte by byte. */
    method ReadRawLittleEndian(width: nat) returns (r: Result<int>)
      requires Valid()
      modifies this, buffer, input
      ensures Reads(this, r, ReadFixed(old(Rest()), width), old(View()))
    {
      ghost var s, was := Rest(), View();
      hide Mirrors, Slice;
      var result := 0;
      for i := 0 to width
        invariant 0 <= was.pos && Advanced(this, was, i) && i <= |s| && result == FromLittleEndian(s[..i])
      {
        AdvancedRest(was, i);
        var b :- ReadRawByte();
        assert s[..i + 1] == s[..i] + [b];
        FromLittleEndianSnoc(s[..i], b);
        result := result + b * Pow256(i);
      }
      return Ok(result);
    }

    method ReadRawLittleEndian32() returns (r: Result<int>)
      requires Valid()
      modifies this, buffer, input
      ensures Reads(this, r, ReadFixed(old(Rest()), 4), old(View()))
    {
      r := ReadRawLittleEndian(4);
    }

    method ReadRawLittleEndian64() returns (r: Result<int>)
      requires Valid()
      modifies this, buffer, input
      ensures Reads(this, r, ReadFixed(old(Rest()), 8), old(View()))
    {
      r := ReadRawLittleEndian(8);
    }

    // ----- Runs of bytes -----

    lemma GatherDone(s: seq<byte>, was: View, got: seq<byte>)
      requires Gathered(this, s, was, got)
      ensures Reads(this, Ok(got), ReadBytes(s, |got|), was)
    {
      assert s[..|got|] == got;
    }

    /** Copies `count` bytes out of the buffer and moves past them. */
    method CopyOut(bytes: array<byte>, pos: nat, count: nat, ghost s: seq<byte>, ghost was: View)
      requires pos + count <= bytes.Length && bytes != buffer
      requires Gathered(this, s, was, bytes[..pos]) && bufferPos + count <= bufferSize
      modifies this`bufferPos, bytes
      ensures Gathered(this, s, was, bytes[..pos + count]) && bufferPos == old(bufferPos) + count
    {
      hide Gathered;
      ghost var got := bytes[..pos];
      RunFits(s, was, got, count);
      ghost var run := buffer[bufferPos..bufferPos + count];
      BlockCopy(buffer, bufferPos, bytes, pos, count);
      Consume(count, s, was, got, run);
    }

    /** `bufferPos += count` behind a copy. */
    method Consume(count: nat, ghost s: seq<byte>, ghost was: View, ghost got: seq<byte>, ghost run: seq<byte>)
      requires Gathered(this, s, was, got) && bufferPos + count <= bufferSize && |run| == count && got + run <= s
      modifies this`bufferPos
      ensures Gathered(this, s, was, got + run) && bufferPos == old(bufferPos) + count
    {
      hide Mirrors, Slice;
      bufferPos := bufferPos + count;
    }

    /** What is next in the buffer continues what was gathered. */
    lemma RunFits(s: seq<byte>, was: View, got: seq<byte>, count: nat)
      requires Gathered(this, s, was, got) && bufferPos + count <= bufferSize
      ensures bufferPos + count <= buffer.Length && 0 <= bufferPos
      ensures got + buffer[bufferPos..bufferPos + count] <= s
    {
      AdvancedRest(was, |got|);
      BufferedRun(count);
      hide Mirrors, Slice, Drop;
      PrefixGrows(s, got, buffer[bufferPos..bufferPos + count]);
    }

    lemma BufferedRun(count: nat)
      requires Valid() && bufferPos + count <= bufferSize
      ensures count <= |Rest()| && buffer[bufferPos..bufferPos + count] == Rest()[..count]
    {
      if count > 0 { Buffered(count - 1); }
      forall k | 0 <= k < count ensures buffer[bufferPos + k] == Rest()[k] { Buffered(k); }
    }

    /** Marks the exhausted buffer consumed, without refilling it. */
    method RetireBuffer(ghost s: seq<byte>, ghost was: View, ghost got: seq<byte>)
      requires Gathered(this, s, was, got) && bufferPos == bufferSize && bufferSizeAfterLimit == 0
      modifies this`totalBytesRetired, this`bufferPos, this`bufferSize
      ensures Gathered(this, s, was, got) && Drained()
    {
      totalBytesRetired := totalBytesRetired + bufferSize;
      bufferPos := 0;
      bufferSize := 0;
    }

    /** RefillBuffer(true), with `size` bytes wanted and fewer gathered. */
    method RefillFor(size: nat, ghost s: seq<byte>, ghost was: View, ghost got: seq<byte>) returns (r: Result<bool>)
      requires Gathered(this, s, was, got) && |got| < size && bufferPos == bufferSize
      modifies this, buffer, input
      ensures r.Ok? ==> Gathered(this, s, was, got) && bufferPos == 0 < bufferSize
      ensures r.Err? ==> Reads(this, Err(r.error), ReadBytes(s, size), was)
    {
      AdvancedRest(was, |got|);
      r := RefillBuffer(true);
    }

    /**
     Exactly the next `size` bytes, from the buffer, over refills, or straight from the source.
     The precondition is exactly what the chunk loop needs to end: see StallsExactlyOverEmptyArray.
     */
    method ReadRawBytes(size: int) returns (r: Result<seq<byte>>)
      requires Valid() && (size <= 0 || Pos() + size > currentLimit || buffer.Length > 0)
      modifies this, buffer, input
      ensures Reads(this, r, ReadBytes(old(Rest()), size), old(View()))
    {
      if size < 0 {
        return Err(NegativeSize);
      }
      if totalBytesRetired + bufferPos + size > currentLimit {
        var _ :- SkipRawBytes(currentLimit - totalBytesRetired - bufferPos);
        return Err(Truncated);
      }
      ghost var s, was := Rest(), View();
      if size <= bufferSize - bufferPos {
        var bytes := new byte[size];
        CopyOut(bytes, 0, size, s, was);
        assert bytes[..] == bytes[..size];
        GatherDone(s, was, bytes[..size]);
        return Ok(bytes[..]);
      } else if size < buffer.Length {
        r := ReadOverRefills(size, s, was);
      } else {
        r := ReadInChunks(size, s, was);
      }
    }

    method ReadOverRefills(size: nat, ghost s: seq<byte>, ghost was: View) returns (r: Result<seq<byte>>)
      requires Gathered(this, s, was, []) && 0 <= bufferSize - bufferPos < size
      modifies this, buffer, input
      ensures Reads(this, r, ReadBytes(s, size), was)
    {
      hide Sound, Gathered, Reads, ReadBytes;
      var bytes := new byte[size];
      var pos := bufferSize - bufferPos;
      assert bytes[..0] == [];
      CopyOut(bytes, 0, pos, s, was);
      var _ :- RefillFor(size, s, was, bytes[..pos]);
      while size - pos > bufferSize
        invariant 0 <= pos < size && bufferPos == 0 < bufferSize && Gathered(this, s, was, bytes[..pos])
        decreases size - pos
      {
        CopyOut(bytes, pos, bufferSize, s, was);
        pos := pos + bufferSize;
        var _ :- RefillFor(size, s, was, bytes[..pos]);
      }
      CopyOut(bytes, pos, size - pos, s, was);
      assert bytes[..] == bytes[..size];
      GatherDone(s, was, bytes[..]);
      return Ok(bytes[..]);
    }

    /** Nothing is buffered: the next byte comes straight from the source. */
    ghost predicate Drained() reads this { bufferSize == bufferPos == bufferSizeAfterLimit == 0 }

    /** Bypasses the buffer, a chunk at a time, and concatenates in the end. */
    method ReadInChunks(size: nat, ghost s: seq<byte>, ghost was: View) returns (r: Result<seq<byte>>)
      requires Gathered(this, s, was, []) && 0 <= bufferSize - bufferPos < size && bufferSizeAfterLimit == 0
      requires was.pos + size <= was.limit && buffer.Length > 0
      modifies this, input
      ensures Reads(this, r, ReadBytes(s, size), was)
    {
      hide Sound, Gathered, Reads, ReadBytes;
      var first := new byte[bufferSize - bufferPos];
      assert first[..0] == [];
      CopyOut(first, 0, first.Length, s, was);
      assert first[..first.Length] == first[..];
      RetireBuffer(s, was, first[..]);
      var sizeLeft := size - first.Length;
      var chunks := [];
      assert first[..] + Concat(chunks) == first[..];
      while sizeLeft > 0
        invariant 0 <= sizeLeft && first.Length + |Concat(chunks)| == size - sizeLeft && Drained()
        invariant Gathered(this, s, was, first[..] + Concat(chunks))
      {
        var chunk :- ReadChunk(ChunkLength(sizeLeft, buffer.Length), size, s, was, first[..] + Concat(chunks));
        sizeLeft := sizeLeft - |chunk|;
        ConcatSnoc(chunks, chunk);
        assert first[..] + (Concat(chunks) + chunk) == first[..] + Concat(chunks) + chunk;
        chunks := chunks + [chunk];
      }
      GatherDone(s, was, first[..] + Concat(chunks));
      return Ok(first[..] + Concat(chunks));
    }

    /** Fills one chunk from the source, in as many reads as it takes. */
    method ReadChunk(length: nat, ghost size: nat, ghost s: seq<byte>, ghost was: View, ghost got: seq<byte>)
      returns (r: Result<seq<byte>>)
      requires Gathered(this, s, was, got) && Drained() && |got| + length <= size && was.pos + size <= was.limit
      modifies this`totalBytesRetired, input
      ensures r.Ok? ==> |r.value| == length && Gathered(this, s, was, got + r.value)
      ensures r.Err? ==> Reads(this, Err(r.error), ReadBytes(s, size), was)
    {
      var chunk := new byte[length];
      var pos := 0;
      assert got + chunk[..0] == got;
      hide Sound, Gathered, Reads, ReadBytes;
      while pos < chunk.Length
        invariant pos <= length && Gathered(this, s, was, got + chunk[..pos])
      {
        var n := ReadSome(chunk, pos, size, s, was, got);
        if n <= 0 {
          return Err(Truncated);
        }
        pos := pos + n;
      }
      assert chunk[..] == chunk[..length];
      return Ok(chunk[..]);
    }

    /** One read of the source into a chunk. */
    method ReadSome(chunk: array<byte>, pos: nat, ghost size: nat, ghost s: seq<byte>, ghost was: View, ghost got: seq<byte>)
      returns (n: nat)
      requires pos < chunk.Length && chunk != buffer && Gathered(this, s, was, got + chunk[..pos]) && Drained()
      requires |got| + chunk.Length <= size && was.pos + size <= was.limit
      modifies this`totalBytesRetired, input, chunk
      ensures pos + n <= chunk.Length && Gathered(this, s, was, got + chunk[..pos + n])
      ensures n == 0 ==> Reads(this, Err(Truncated), ReadBytes(s, size), was)
    {
      hide Slice;
      ghost var before := chunk[..pos];
      n := 0;
      if input != null {
        n := input.Read(chunk, pos, chunk.Length - pos);
        totalBytesRetired := totalBytesRetired + n;
      }
      ghost var now := chunk[..];
      if n > 0 { SliceAt(flat, was.pos, was.limit, |got| + pos + n - 1); }
      forall k | pos <= k < pos + n ensures now[k] == s[|got| + k] {
        assert was.pos + |got| + k < |flat| && chunk[k] == flat[was.pos + |got| + k];
        SliceAt(flat, was.pos, was.limit, |got| + k);
      }
      assert now[..pos] == before;
      Extends(s, got, now, pos, n);
      assert now[..pos + n] == chunk[..pos + n];
      if n == 0 { SliceEnds(flat, was.pos, was.limit, |got| + pos); }
    }

    ghost predicate Seekable() {
      input != null && input.canSeek
    }

    /** Lands where ReadRawBytes would, without looking at the bytes. */
    method SkipRawBytes(size: int) returns (r: Result<()>)
      requires Valid()
      modifies this, buffer, input
      decreases if size > currentLimit - Pos() then 1 else 0
      ensures Skips(this, r, SkipBytes(old(Rest()), old(currentLimit - Pos()), Seekable(), size), old(View()))
      ensures r != Err(SizeLimitExceeded)
    {
      if size < 0 {
        return Err(NegativeSize);
      }
      if totalBytesRetired + bufferPos + size > currentLimit {
        var _ :- SkipRawBytes(currentLimit - totalBytesRetired - bufferPos);
        return Err(Truncated);
      }
      if size <= bufferSize - bufferPos {
        BufferedRun(size);
        bufferPos := bufferPos + size;
        return Ok(());
      }
      r := SkipPastBuffer(size, Rest(), View());
    }

    /** Drops what is buffered and moves the source over the rest. */
    method SkipPastBuffer(size: nat, ghost s: seq<byte>, ghost was: View) returns (r: Result<()>)
      requires Gathered(this, s, was, []) && 0 <= bufferSize - bufferPos < size && bufferSizeAfterLimit == 0
      requires was.pos + size <= was.limit
      modifies this`totalBytesRetired, this`bufferPos, this`bufferSize, input
      ensures Skips(this, r, SkipBytes(s, was.limit - was.pos, Seekable(), size), was) && r != Err(SizeLimitExceeded)
    {
      var pos := bufferSize - bufferPos;
      totalBytesRetired := totalBytesRetired + bufferSize;
      bufferPos := 0;
      bufferSize := 0;
      if pos < size {
        if input == null {
          return Err(Truncated);
        }
        var _ :- SkipImpl(size - pos);
        totalBytesRetired := totalBytesRetired + size - pos;
      }
      return Ok(());
    }

    method SkipImpl(amountToSkip: nat) returns (r: Result<()>)
      requires input != null
      modifies input
      ensures r == if input.canSeek || old(input.position) + amountToSkip <= |input.data| || amountToSkip == 0
                   then Ok(()) else Err(Truncated)
      ensures r.Ok? ==> input.position == old(input.position) + amountToSkip
    {
      if input.canSeek {
        input.position := input.position + amountToSkip;
      } else {
        var left := amountToSkip;
        var skipBuffer := new byte[if 1024 <= left then 1024 else left];
        while left > 0
          invariant 0 <= left <= amountToSkip && input.position == old(input.position) + amountToSkip - left
          invariant left == amountToSkip || input.position <= |input.data|
          invariant left > 0 ==> skipBuffer.Length > 0
        {
          var bytesRead := input.Read(skipBuffer, 0, if skipBuffer.Length <= left then skipBuffer.Length else left);
          if bytesRead <= 0 {
            return Err(Truncated);
          }
          left := left - bytesRead;
        }
      }
      return Ok(());
    }

    // ----- Tags and unknown fields -----

    method IsAtEnd() returns (r: Result<bool>)
      requires Valid()
      modifies this, buffer, input
      ensures r.Ok? ==> Valid() && View() == old(View()) && (r.value <==> Rest() == [])
      ensures r.Err? ==> r == Err(SizeLimitExceeded) && TooLarge(this)
    {
      if bufferPos == bufferSize {
        var more :- RefillBuffer(false);
        if !more {
          return Ok(true);
        }
      }
      Buffered(0);
      return Ok(false);
    }

    /** The next tag, from the cache that PeekTag fills or from the bytes; zero at the end. */
    method ReadTag() returns (r: Result<int>)
      requires Valid()
      modifies this, buffer, input
      ensures old(hasNextTag) ==> r == Ok(old(nextTag))
      ensures old(hasNextTag) ==> Valid() && View() == old(View()).(lastTag := old(nextTag), hasNextTag := false)
      ensures !old(hasNextTag) ==> Reads(this, r, TagAt(old(Rest())), old(View()).(lastTag := lastTag))
      ensures r.Ok? ==> lastTag == r.value
    {
      if hasNextTag {
        lastTag := nextTag;
        hasNextTag := false;
        return Ok(lastTag);
      }
      r := FetchTag(Rest(), View());
    }

    method FetchTag(ghost s: seq<byte>, ghost was: View) returns (r: Result<int>)
      requires Gathered(this, s, was, [])
      modifies this, buffer, input
      ensures Reads(this, r, TagAt(s), was.(lastTag := lastTag))
      ensures r.Ok? ==> lastTag == r.value
    {
      if bufferPos + 2 <= bufferSize {
        r := ShortTag(s, was);
        return;
      }
      var atEnd :- IsAtEnd();
      if atEnd {
        lastTag := 0;
        return Ok(0);
      }
      r := LongTag(s, was);
    }

    method LongTag(ghost s: seq<byte>, ghost was: View) returns (r: Result<int>)
      requires Gathered(this, s, was, []) && s != []
      modifies this, buffer, input
      ensures Reads(this, r, TagAt(s), was.(lastTag := lastTag))
      ensures r.Ok? ==> lastTag == r.value
    {
      var tag :- ReadRawVarint32();
      lastTag := tag;
      if lastTag == 0 {
        return Err(InvalidTag);
      }
      return Ok(lastTag);
    }

    /** Two bytes are in the buffer, and most tags fit; otherwise rewind and take the long way. */
    method ShortTag(ghost s: seq<byte>, ghost was: View) returns (r: Result<int>)
      requires Gathered(this, s, was, []) && bufferPos + 2 <= bufferSize
      modifies this, buffer, input
      ensures Reads(this, r, TagAt(s), was.(lastTag := lastTag))
      ensures r.Ok? ==> lastTag == r.value
    {
      hide Mirrors, ReadVarint;
      Buffered(1);
      Buffered(0);
      ShortTagValue(s);
      var tmp: int := buffer[bufferPos];
      bufferPos := bufferPos + 1;
      if tmp < 128 {
        lastTag := tmp;
      } else {
        var result := tmp % 128;
        tmp := buffer[bufferPos];
        bufferPos := bufferPos + 1;
        if tmp < 128 {
          lastTag := result + tmp * 128;
        } else {
          bufferPos := bufferPos - 2;
          r := LongTag(s, was);
          return;
        }
      }
      if lastTag == 0 {
        return Err(InvalidTag);
      }
      return Ok(lastTag);
    }

    /** The tag that the next ReadTag will return; only the cache can tell the two states apart. */
    method PeekTag() returns (r: Result<int>)
      requires Valid()
      modifies this, buffer, input
      ensures old(hasNextTag) ==> r == Ok(old(nextTag)) && Valid() && View() == old(View())
      ensures !old(hasNextTag) ==>
        Reads(this, r, TagAt(old(Rest())), old(View()).(nextTag := nextTag, hasNextTag := true))
      ensures r.Ok? ==> hasNextTag && nextTag == r.value
    {
      if hasNextTag {
        return Ok(nextTag);
      }
      var savedLast := lastTag;
      var tag :- ReadTag();
      nextTag := tag;
      hasNextTag := true;
      lastTag := savedLast;
      return Ok(nextTag);
    }

    ghost function Where(): Context
      reads this
    {
      Context(currentLimit - Pos(), Seekable(), recursionDepth, recursionLimit)
    }

    /** Skips the field whose tag has just been read. */
    method SkipLastField() returns (r: Result<()>)
      requires Valid() && !hasNextTag
      modifies this, buffer, input
      decreases |Rest()|, 3
      ensures old(lastTag) == 0 ==> r == Err(InvalidOperation)
      ensures old(lastTag) != 0 ==>
        Skips(this, r, SkipField(old(Rest()), old(Where()), old(lastTag)), old(View()).(lastTag := lastTag))
    {
      hide Sound, Slice, ReadVarint, SkipLengthDelimited, WireFields.SkipGroup;
      PosIsNatural();
      if lastTag == 0 {
        return Err(InvalidOperation);
      }
      match lastTag % 8
      case 0 => var _ :- ReadRawVarint32(); return Ok(());
      case 1 => var _ :- ReadRawLittleEndian64(); return Ok(());
      case 2 => r := SkipDelimited(Rest(), View());
      case 3 => r := SkipGroup(lastTag, Rest(), View(), Where());
      case 4 => return Err(UnexpectedEndGroup);
      case 5 => var _ :- ReadRawLittleEndian32(); return Ok(());
      case _ => return Ok(());
    }

    method SkipDelimited(ghost s: seq<byte>, ghost was: View) returns (r: Result<()>)
      requires Gathered(this, s, was, [])
      modifies this, buffer, input
      ensures Skips(this, r, SkipLengthDelimited(s, Context(was.limit - was.pos, Seekable(), was.depth, recursionLimit)), was)
    {
      hide Mirrors, ReadVarint;
      var length :- ReadRawVarint32();
      AdvancedRest(was, ReadVarint(s, TWO32).value.1);
      r := SkipRawBytes(ToInt32(length));
    }

    method SkipGroup(startGroupTag: uint32, ghost s: seq<byte>, ghost was: View, ghost c: Context)
      returns (r: Result<()>)
      requires InGroup(this, s, was, c, 0) == true
      modifies this, buffer, input
      decreases |s|, 2
      ensures Skips(this, r, WireFields.SkipGroup(s, c, startGroupTag), was.(lastTag := lastTag)) == true
    {
      hide Sound, InGroup, Advanced, SkipBody, Slice;
      Enter(s, was, c);
      if recursionDepth >= recursionLimit {
        return Err(RecursionLimitExceeded);
      }
      r := SkipToEndTag(startGroupTag, s, was.(depth := was.depth + 1), c.(depth := c.depth + 1));
      if r.Ok? {
        Leave(was.(lastTag := lastTag), SkipBody(s, c.(depth := c.depth + 1), startGroupTag).value);
      }
    }

    method Enter(ghost s: seq<byte>, ghost was: View, ghost c: Context)
      requires InGroup(this, s, was, c, 0)
      modifies this`recursionDepth
      ensures InGroup(this, s, was.(depth := was.depth + 1), c.(depth := c.depth + 1), 0) == true
      ensures recursionDepth == c.depth + 1 && recursionLimit == c.maxDepth
    {
      hide Mirrors;
      recursionDepth := recursionDepth + 1;
    }

    method Leave(ghost v: View, ghost n: nat)
      requires Advanced(this, v.(depth := v.depth + 1), n) == true
      modifies this`recursionDepth
      ensures Advanced(this, v, n) == true
    {
      hide Mirrors;
      recursionDepth := recursionDepth - 1;
    }

    method SkipToEndTag(startGroupTag: uint32, ghost s: seq<byte>, ghost was: View, ghost c: Context)
      returns (r: Result<()>)
      requires InGroup(this, s, was, c, 0) == true
      modifies this, buffer, input
      decreases |s|, 1
      ensures Skips(this, r, SkipBody(s, c, startGroupTag), was.(lastTag := lastTag)) == true
    {
      ghost var n: nat := 0;
      var tag := 0;
      hide Sound, InGroup, Advanced, Reached, SkipBody, Drop, Slice;
      ReachedStart(s, c, startGroupTag);
      while true
        invariant InGroup(this, s, was, c, n) == true && Reached(s, c, startGroupTag, n)
        decreases |Drop(s, n)|
      {
        DropLength(s, n);
        tag, n :- NextInGroup(startGroupTag, s, was, c, n);
        if tag % 8 == 4 {
          break;
        }
      }
      if startGroupTag / 8 != tag / 8 {
        return Err(MismatchedEndGroup);
      }
      GroupEnd(this, s, was, c, n);
      return Ok(());
    }

    /** The body of the loop: one tag and, unless it ends the group, the field behind it. */
    method NextInGroup(start: uint32, ghost s: seq<byte>, ghost was: View, ghost c: Context, ghost n: nat)
      returns (r: Result<int>, ghost m: nat)
      requires InGroup(this, s, was, c, n) == true && Reached(s, c, start, n)
      modifies this, buffer, input
      decreases |Drop(s, n)|, 0
      ensures r == Err(SizeLimitExceeded) ==> TooLarge(this)
      ensures r != Err(SizeLimitExceeded) ==> Decided(s, c, start, n, r, m)
      ensures r.Ok? ==> InGroup(this, s, was, c, m) == true
    {
      hide Sound, InGroup, Advanced, Decided, Reached, SkipBody, SkipField, TagAt, Drop, Slice;
      DecidedByTag(s, c, start, n);
      m := n;
      ghost var k;
      r, k := NextTag(s, was, c, n);
      if r.Err? {
        return;
      }
      var tag := r.value;
      if tag == 0 {
        r := Err(Truncated);
      } else if tag % 8 == 4 {
        m := n + k;
      } else {
        DecidedByField(s, c, start, n, tag, k);
        var skipped := SkipMember(s, was, c, n + k);
        if skipped.Ok? {
          m := n + k + SkipField(Drop(s, n + k), c.Past(n + k), tag).value;
        } else {
          r := Err(skipped.error);
        }
      }
    }

    method NextTag(ghost s: seq<byte>, ghost was: View, ghost c: Context, ghost n: nat)
      returns (r: Result<int>, ghost k: nat)
      requires InGroup(this, s, was, c, n) == true
      modifies this, buffer, input
      ensures r == Err(SizeLimitExceeded) ==> TooLarge(this)
      ensures r.Err? && r != Err(SizeLimitExceeded) ==> TagAt(Drop(s, n)) == Err(r.error)
      ensures r.Ok? ==> TagAt(Drop(s, n)) == Ok((r.value, k)) && InGroup(this, s, was, c, n + k) == true
      ensures r.Ok? && r.value != 0 ==> |Drop(s, n + k)| < |Drop(s, n)|
      ensures r.Ok? ==> lastTag == r.value
    {
      InGroupRest(s, was, c, n);
      ghost var v := View();
      r := ReadTag();
      k := 0;
      if r.Ok? {
        k := TagAt(Drop(s, n)).value.1;
        InGroupMore(s, was, c, n, v, k);
        if r.value != 0 { DropShrinks(s, n, k); }
      }
    }

    method SkipMember(ghost s: seq<byte>, ghost was: View, ghost c: Context, ghost n: nat) returns (r: Result<()>)
      requires InGroup(this, s, was, c, n) == true && lastTag != 0
      modifies this, buffer, input
      decreases |Drop(s, n)|, 4
      ensures r == Err(SizeLimitExceeded) ==> TooLarge(this)
      ensures r != Err(SizeLimitExceeded) ==>
        var spec := SkipField(Drop(s, n), c.Past(n), old(lastTag));
        if spec.Err? then r == Err(spec.error) else r.Ok? && InGroup(this, s, was, c, n + spec.value) == true
    {
      InGroupRest(s, was, c, n);
      ghost var v, spec := View(), SkipField(Drop(s, n), c.Past(n), lastTag);
      r := SkipLastField();
      if r.Ok? {
        InGroupMore(s, was, c, n, v, spec.value);
      }
    }

    lemma InGroupRest(s: seq<byte>, was: View, c: Context, n: nat)
      requires InGroup(this, s, was, c, n) == true
      ensures Rest() == Drop(s, n) && Where() == c.Past(n) && !hasNextTag && Valid()
      ensures View() == was.(lastTag := lastTag, pos := was.pos + n) && Fixed(this, s, was, c)
    {
      AdvancedRest(was.(lastTag := lastTag), n);
    }

    lemma InGroupMore(s: seq<byte>, was: View, c: Context, n: nat, v: View, k: nat)
      requires Fixed(this, s, was, c) && v == was.(lastTag := v.lastTag, pos := was.pos + n)
      requires Advanced(this, v.(lastTag := lastTag), k)
      ensures InGroup(this, s, was, c, n + k) == true
    {
    }
  }

  // ----- What holds of a stream, as predicates of the object -----

  /** Only a source can deliver more than the size limit allows; an array is never refilled. */
  ghost predicate TooLarge(c: CodedInputStream) { c.input != null && |c.flat| > c.sizeLimit }

  /** The representation invariant. */
  ghost predicate Sound(c: CodedInputStream)
    reads c, c.buffer, c.input
  {
    && 0 <= c.totalBytesRetired && 0 <= c.bufferPos <= c.bufferSize && 0 <= c.bufferSizeAfterLimit
    && c.totalBytesRetired + c.bufferSize <= c.currentLimit
    && (c.bufferSizeAfterLimit > 0 ==> c.totalBytesRetired + c.bufferSize == c.currentLimit)
    && Mirrors(c, c.totalBytesRetired, c.bufferSize + c.bufferSizeAfterLimit)
  }

  /** The first `n` bytes of the buffer are the flat bytes from `retired` on, and the source comes next. */
  ghost predicate Mirrors(c: CodedInputStream, retired: int, n: int)
    reads c.buffer, c.input
  {
    && 0 <= retired && 0 <= n <= c.buffer.Length
    && (n > 0 ==> retired + n <= |c.flat|)
    && (forall k :: 0 <= k < n ==> c.buffer[k] == c.flat[retired + k])
    && (c.input == null ==> retired + n == |c.flat|)
    && (c.input != null ==>
          && 0 < c.buffer.Length && c.origin <= |c.input.data| && c.flat == c.input.data[c.origin..]
          && c.input.position == c.origin + retired + n)
  }

  ghost predicate Advanced(c: CodedInputStream, was: View, n: nat)
    reads c, c.buffer, c.input
  {
    c.Valid() && c.View() == was.(pos := was.pos + n)
  }

  /**
   `r` is what `spec` demands of the bytes that were left, and exactly that many are consumed.
   The one way out is the sanity check on the total size, which depends on how far ahead the
   source happened to be read.
   */
  ghost predicate Reads<T>(c: CodedInputStream, r: Result<T>, spec: Result<(T, nat)>, was: View)
    reads c, c.buffer, c.input
  {
    if r == Err(SizeLimitExceeded) then TooLarge(c)
    else if spec.Err? then r == Err(spec.error)
    else r == Ok(spec.value.0) && Advanced(c, was, spec.value.1)
  }

  ghost predicate Skips(c: CodedInputStream, r: Result<()>, spec: Result<nat>, was: View)
    reads c, c.buffer, c.input
  {
    if r == Err(SizeLimitExceeded) then TooLarge(c)
    else if spec.Err? then r == Err(spec.error)
    else r.Ok? && Advanced(c, was, spec.value)
  }

  /** `n` of the bytes `s` that were left at `was` are consumed, in the group that `c` describes. */
  ghost predicate InGroup(o: CodedInputStream, s: seq<byte>, was: View, c: Context, n: nat)
    reads o, o.buffer, o.input
  {
    Fixed(o, s, was, c) && Advanced(o, was.(lastTag := o.lastTag), n)
  }

  ghost predicate Fixed(o: CodedInputStream, s: seq<byte>, was: View, c: Context) {
    && 0 <= was.pos && !was.hasNextTag && s == Slice(o.flat, was.pos, was.limit)
    && c == Context(was.limit - was.pos, o.Seekable(), was.depth, o.recursionLimit)
  }

  lemma GroupEnd(o: CodedInputStream, s: seq<byte>, was: View, c: Context, n: nat)
    requires InGroup(o, s, was, c, n) == true
    ensures Advanced(o, was.(lastTag := o.lastTag), n)
  {
  }

  /** What the two-byte fast path may conclude from the bytes it sees. */
  lemma ShortTagValue(s: seq<byte>)
    ensures |s| >= 2 && s[0] < 128 ==> ReadVarint(s, TWO32) == Ok((s[0], 1))
    ensures |s| >= 2 && s[0] >= 128 && s[1] < 128 ==> ReadVarint(s, TWO32) == Ok(((s[0] % 128 as int) + 128 * (s[1] as int), 2))
  {
    if |s| >= 2 {
      VarintHead(s, 0, TWO32);
      Groups32(s[0], 0);
      if s[0] >= 128 {
        VarintHead(s, 1, TWO32);
        Groups32(s[1], 1);
      }
    }
  }

  /** `k` continuation bytes of `s` have been read, and their groups add up to `result`. */
  ghost predicate Midway(c: CodedInputStream, s: seq<byte>, was: View, k: nat, result: int, m: int)
    reads c, c.buffer, c.input
  {
    && 0 <= was.pos && Advanced(c, was, k) && s == Slice(c.flat, was.pos, was.limit)
    && k <= |s| && AllContinue(s[..k]) && (m == TWO32 || m == TWO64) && result == Low(s, k, m)
  }

  /** `got` is what has been read so far of `s`, the bytes that were left at `was`. */
  ghost predicate Gathered(c: CodedInputStream, s: seq<byte>, was: View, got: seq<byte>)
    reads c, c.buffer, c.input
  {
    0 <= was.pos && s == Slice(c.flat, was.pos, was.limit) && got <= s && Advanced(c, was, |got|)
  }

  /** After `i` continuing groups of the varint at `start`. */
  ghost predicate StreamAt(input: InputSource, s: seq<byte>, start: nat, i: nat, result: int)
    reads input
  {
    && start <= |input.data| && s == input.data[start..] && input.position == start + i <= |input.data|
    && AllContinue(s[..i]) && result == Low(s, i, TWO32)
  }

  lemma StreamStart(input: InputSource)
    requires input.position <= |input.data|
    ensures StreamAt(input, input.data[input.position..], input.position, 0, 0)
  {
  }

  lemma StreamTooLong(input: InputSource, s: seq<byte>, start: nat, result: int)
    requires StreamAt(input, s, start, 10, result)
    ensures StreamRead(input, Err(Malformed), ReadVarint(s, TWO32), start)
  {
    VarintHead(s, 10, TWO32);
  }

  /** A read of the bare stream from `start`: the value, and the stream right behind it. */
  ghost predicate StreamRead(input: InputSource, r: Result<int>, expected: Result<(int, nat)>, start: nat)
    reads input
  {
    match expected
    case Ok(v) => r == Ok(v.0) && input.position == start + v.1
    case Err(e) => r == Err(e)
  }

  lemma PrefixGrows(s: seq<byte>, got: seq<byte>, run: seq<byte>)
    requires got <= s && |run| <= |Drop(s, |got|)| && run == Drop(s, |got|)[..|run|]
    ensures got + run <= s
  {
  }

  /** The bytes `from + k` of the flat sequence, as far as limit and source reach. */
  lemma SliceAt(flat: seq<byte>, from: nat, to: int, k: nat)
    requires from + k < to && from + k < |flat|
    ensures k < |Slice(flat, from, to)| && Slice(flat, from, to)[k] == flat[from + k]
  {
  }

  lemma SliceEnds(flat: seq<byte>, from: nat, to: int, n: nat)
    requires from + n >= |flat|
    ensures |Slice(flat, from, to)| <= n
  {
  }

  lemma Extends(s: seq<byte>, got: seq<byte>, chunk: seq<byte>, pos: nat, n: nat)
    requires pos + n <= |chunk| && got + chunk[..pos] <= s && |got| + pos + n <= |s|
    requires forall k :: pos <= k < pos + n ==> chunk[k] == s[|got| + k]
    ensures got + chunk[..pos + n] <= s
  {
    var all := got + chunk[..pos + n];
    forall i | 0 <= i < |all| ensures all[i] == s[i] {
      if i < |got| + pos { assert (got + chunk[..pos])[i] == s[i]; } else { assert chunk[i - |got|] == s[i]; }
    }
  }

  method BlockCopy(src: array<byte>, from: nat, dst: array<byte>, at: nat, count: nat)
    requires from + count <= src.Length && at + count <= dst.Length && src != dst
    modifies dst
    ensures dst[..at + count] == old(dst[..at]) + src[from..from + count]
  {
    forall k | at <= k < at + count {
      dst[k] := src[from + (k - at)];
    }
  }

  /** How many of the remaining bytes go into the next chunk. */
  function ChunkLength(sizeLeft: nat, bufferLength: nat): nat {
    if sizeLeft <= bufferLength then sizeLeft else bufferLength
  }

  /** What the chunk loop still has to read after `k` rounds. */
  function LeftAfter(k: nat, sizeLeft: nat, bufferLength: nat): (left: nat)
    ensures left <= sizeLeft
  {
    if k == 0 then sizeLeft
    else
      var left := LeftAfter(k - 1, sizeLeft, bufferLength);
      left - ChunkLength(left, bufferLength)
  }

  /** The loop comes to an end exactly over a buffer that is not empty. */
  lemma ChunksEnd(sizeLeft: nat, bufferLength: nat)
    ensures (exists k: nat :: LeftAfter(k, sizeLeft, bufferLength) == 0) <==> sizeLeft == 0 || bufferLength > 0
  {
    if bufferLength > 0 {
      ChunksShrink(sizeLeft, sizeLeft, bufferLength);
    } else {
      forall k: nat ensures LeftAfter(k, sizeLeft, 0) == sizeLeft { ChunksStall(k, sizeLeft); }
      if sizeLeft == 0 { assert LeftAfter(0, 0, 0) == 0; }
    }
  }

  lemma {:induction false} ChunksShrink(k: nat, sizeLeft: nat, bufferLength: nat)
    requires bufferLength > 0
    ensures LeftAfter(k, sizeLeft, bufferLength) <= if k <= sizeLeft then sizeLeft - k else 0
  {
    if k > 0 { ChunksShrink(k - 1, sizeLeft, bufferLength); }
  }

  lemma {:induction false} ChunksStall(k: nat, sizeLeft: nat)
    ensures LeftAfter(k, sizeLeft, 0) == sizeLeft
  {
    if k > 0 { ChunksStall(k - 1, sizeLeft); }
  }

  /** ReadRawBytes(size) enters the chunk loop, and the loop goes on for ever. */
  ghost predicate Stalls(c: CodedInputStream, size: int)
    requires c.Valid()
    reads c, c.buffer, c.input
  {
    && 0 <= size && c.Pos() + size <= c.currentLimit
    && c.bufferSize - c.bufferPos < size && c.buffer.Length <= size
    && NeverDone(size - (c.bufferSize - c.bufferPos), c.buffer.Length)
  }

  ghost predicate NeverDone(sizeLeft: nat, bufferLength: nat) { forall k: nat :: LeftAfter(k, sizeLeft, bufferLength) > 0 }

  /**
   ReadRawBytes returns or throws, as it should, exactly unless a positive number of bytes within the
   limit is asked of a reader over an empty array. That reader has nothing to read, so the promised
   outcome is the exception for a truncated message; the original appends empty chunks for ever.
   */
  lemma StallsExactlyOverEmptyArray(c: CodedInputStream, size: int)
    requires c.Valid()
    ensures Stalls(c, size) <==> 0 < size && c.Pos() + size <= c.currentLimit && c.buffer.Length == 0
    ensures Stalls(c, size) ==>
      c.input == null && c.Rest() == [] && c.bufferSize == c.bufferPos == 0 && ReadBytes(c.Rest(), size) == Err(Truncated)
  {
    var sizeLeft := size - (c.bufferSize - c.bufferPos);
    if sizeLeft > 0 {
      if c.buffer.Length > 0 {
        ChunksShrink(sizeLeft, sizeLeft, c.buffer.Length);
      } else {
        forall k: nat ensures LeftAfter(k, sizeLeft, 0) == sizeLeft { ChunksStall(k, sizeLeft); }
      }
    }
  }

  /** The state is reachable: a reader over an empty array that is asked for a float. */
  method StallingReader() returns (c: CodedInputStream)
    ensures c.Valid() && Stalls(c, 4)
  {
    var empty := new byte[0];
    c := new CodedInputStream.FromArray(empty, 0, 0);
    StallsExactlyOverEmptyArray(c, 4);
  }

  /**
   The other failure is reachable as well: the tag of a length-delimited field and a length of five, over a
   source that can seek. The skip succeeds five bytes past the end, where a read is a truncated message.
   */
  method OvershootingReader() returns (c: CodedInputStream, tag: Result<int>, skipped: Result<()>)
    ensures c.input != null && c.flat == [10, 5] && tag == Ok(10) && skipped.Ok?
    ensures c.Valid() && c.Pos() == 7 > |c.flat|
    ensures ReadBytes(Drop(c.flat, 2), 5) == Err(Truncated)
  {
    hide Sound, SkipField, TagAt;
    var source := new InputSource([10, 5], true);
    c := new CodedInputStream.FromStream(source, 4096, 64 * 1024 * 1024, 64);
    OvershootsByFive(Context(INT_MAX - 1, true, 0, 64));
    assert c.flat == [10, 5] && c.Rest() == [10, 5];
    ghost var was := c.View();
    tag := c.ReadTag();
    c.AdvancedRest(was.(lastTag := 10), 1);
    assert c.Rest() == [5];
    skipped := c.SkipLastField();
  }

  lemma {:induction false} ConcatSnoc(chunks: seq<seq<byte>>, chunk: seq<byte>)
    ensures Concat(chunks + [chunk]) == Concat(chunks) + chunk
  {
    if chunks == [] {
      assert [chunk][1..] == [];
    } else {
      ConcatSnoc(chunks[1..], chunk);
      assert (chunks + [chunk])[1..] == chunks[1..] + [chunk];
    }
  }

  /** `s[from..to]`, cut off at the end of `s`. */
  ghost function Slice(s: seq<byte>, from: int, to: int): seq<byte> {
    var end := Min(to, |s|);
    if 0 <= from <= end then s[from..end] else []
  }


  ghost function ReadByte(s: seq<byte>): Result<(byte, nat)> {
    if s == [] then Err(Truncated) else Ok((s[0], 1))
  }

  ghost function ReadBytes(s: seq<byte>, size: int): Result<(seq<byte>, nat)> {
    if size < 0 then Err(NegativeSize) else if size > |s| then Err(Truncated) else Ok((s[..size], size))
  }
}
