/**
 Tagged fields on the wire and what it takes to skip one, including nested groups (Encoding guide,
 "Groups"). The grammar is a datatype of parse trees; the skipper is a function on bytes.
 */
module WireFields {
  import opened Wire

  /**
   Skipping: like reading, except that a seekable source may be moved past its end without
   complaint; `room` is the distance to the limit.
   */
  function SkipBytes(s: seq<byte>, room: int, seekable: bool, size: int): Result<nat> {
    if size < 0 then Err(NegativeSize)
    else if size > room then Err(Truncated)
    else if size <= |s| || seekable then Ok(size)
    else Err(Truncated)
  }

  /** The next tag; zero means that nothing is left, and is never a valid tag. */
  function TagAt(s: seq<byte>): (r: Result<(int, nat)>)
    ensures r.Ok? ==> 0 <= r.value.0 < TWO32 && r.value.1 <= |s|
    ensures r.Ok? && r.value.0 != 0 ==> r.value.1 >= 1
  {
    if s == [] then Ok((0, 0))
    else
      var tag :- ReadVarint(s, TWO32);
      if tag.0 == 0 then Err(InvalidTag) else Ok(tag)
  }

  /** `n` bytes consumed before what `r` consumes. */
  function After(n: nat, r: Result<nat>): Result<nat> {
    if r.Err? then r else Ok(n + r.value)
  }

  /** Where the reader stands: the distance to the limit, whether it can seek, how deep it is. */
  datatype Context = Context(room: int, seekable: bool, depth: int, maxDepth: int) {
    function Past(n: nat): Context { this.(room := room - n) }
  }

  function SkipLengthDelimited(s: seq<byte>, c: Context): Result<nat> {
    var v :- ReadVarint(s, TWO32);
    After(v.1, SkipBytes(s[v.1..], c.room - v.1, c.seekable, ToInt32(v.0)))
  }

  function SkipField(s: seq<byte>, c: Context, tag: int): Result<nat>
    decreases |s|, 2
  {
    match tag % 8
    case 0 =>
      var v :- ReadVarint(s, TWO32);
      Ok(v.1)
    case 1 =>
      var v :- ReadFixed(s, 8);
      Ok(v.1)
    case 2 => SkipLengthDelimited(s, c)
    case 3 => SkipGroup(s, c, tag)
    case 4 => Err(UnexpectedEndGroup)
    case 5 =>
      var v :- ReadFixed(s, 4);
      Ok(v.1)
    case _ => Ok(0)
  }

  function SkipGroup(s: seq<byte>, c: Context, start: int): Result<nat>
    decreases |s|, 1
  {
    if c.depth + 1 >= c.maxDepth then Err(RecursionLimitExceeded)
    else SkipBody(s, c.(depth := c.depth + 1), start)
  }

  /** Fields up to the end tag with the number of the start tag. */
  function SkipBody(s: seq<byte>, c: Context, start: int): Result<nat>
    decreases |s|, 0
  {
    var tag :- TagAt(s);
    if tag.0 == 0 then Err(Truncated)
    else if tag.0 % 8 == 4 then
      if tag.0 / 8 == start / 8 then Ok(tag.1) else Err(MismatchedEndGroup)
    else
      var field :- SkipField(s[tag.1..], c.Past(tag.1), tag.0);
      var n := tag.1 + field;
      After(n, SkipBody(Drop(s, n), c.Past(n), start))
  }

  // ----- The grammar -----

  /** A field's value as it lies on the wire; varints need not be the shortest ones. */
  datatype Field =
    | VarintField(raw: seq<byte>)
    | FixedField(bytes: seq<byte>)
    | BytesField(length: seq<byte>, bytes: seq<byte>)
    | GroupField(body: Body)
    | ReservedField
  datatype Body = End(tag: seq<byte>) | More(tag: seq<byte>, field: Field, rest: Body)

  ghost function TagOf(raw: seq<byte>): int { Value(raw) % TWO32 }

  /** `budget` is how many more groups may be open at once. */
  ghost predicate WellFormed(tag: int, f: Field, budget: int)
    decreases f
  {
    match f
    case VarintField(raw) => tag % 8 == 0 && IsVarint(raw)
    case FixedField(bytes) => (tag % 8 == 1 && |bytes| == 8) || (tag % 8 == 5 && |bytes| == 4)
    case BytesField(length, bytes) =>
      tag % 8 == 2 && IsVarint(length) && Value(length) % TWO32 == |bytes| < TWO31
    case GroupField(body) => tag % 8 == 3 && budget > 0 && WellFormedBody(tag, body, budget - 1)
    case ReservedField => tag % 8 == 6 || tag % 8 == 7
  }

  ghost predicate WellFormedBody(start: int, body: Body, budget: int)
    decreases body
  {
    match body
    case End(tag) => IsVarint(tag) && TagOf(tag) % 8 == 4 && TagOf(tag) / 8 == start / 8
    case More(tag, field, rest) =>
      && IsVarint(tag) && TagOf(tag) != 0 && TagOf(tag) % 8 != 4
      && WellFormed(TagOf(tag), field, budget) && WellFormedBody(start, rest, budget)
  }

  ghost function Encode(f: Field): seq<byte> {
    match f
    case VarintField(raw) => raw
    case FixedField(bytes) => bytes
    case BytesField(length, bytes) => length + bytes
    case GroupField(body) => EncodeBody(body)
    case ReservedField => []
  }

  ghost function EncodeBody(body: Body): seq<byte> {
    match body
    case End(tag) => tag
    case More(tag, field, rest) => tag + (Encode(field) + EncodeBody(rest))
  }

  // ----- The skipper accepts exactly the grammar -----

  /** A varint at the head of a sequence is found, whatever follows. */
  lemma VarintFound(raw: seq<byte>, rest: seq<byte>, m: int)
    requires IsVarint(raw) && m > 0
    ensures ReadVarint(raw + rest, m) == Ok((Value(raw) % m, |raw|))
  {
    var k := |raw| - 1;
    RawVarintSplits(raw + rest, 10, raw[..k]);
    assert (raw + rest)[..k + 1] == raw;
  }

  /** ... and what is found is a varint. */
  lemma {:induction false} FoundIsVarint(s: seq<byte>, max: nat)
    requires RawVarint(s, max).Ok? && max <= 10
    ensures IsVarint(RawVarint(s, max).value)
  {
    if s[0] >= 128 {
      FoundIsVarint(s[1..], max - 1);
      var rest := RawVarint(s[1..], max - 1).value;
      assert ([s[0]] + rest)[..|rest|] == [s[0]] + rest[..|rest| - 1];
    }
  }

  ghost predicate Roomy(s: seq<byte>, c: Context) { |s| <= c.room }

  lemma TagFound(raw: seq<byte>, rest: seq<byte>)
    requires IsVarint(raw) && TagOf(raw) != 0
    ensures TagAt(raw + rest) == Ok((TagOf(raw), |raw|))
  {
    VarintFound(raw, rest, TWO32);
  }

  lemma FoundAt(s: seq<byte>)
    requires ReadVarint(s, TWO32).Ok?
    ensures var r := ReadVarint(s, TWO32).value; r.1 <= |s| && IsVarint(s[..r.1]) && r.0 == TagOf(s[..r.1])
  {
    FoundIsVarint(s, 10);
    var raw := RawVarint(s, 10).value;
    assert s[..|raw|] == raw;
    hide IsVarint, RawVarint;
  }

  lemma SkipBodyEnd(s: seq<byte>, c: Context, start: int, tag: int, k: nat)
    requires TagAt(s) == Ok((tag, k)) && tag != 0 && tag % 8 == 4 && tag / 8 == start / 8
    ensures SkipBody(s, c, start) == Ok(k)
  {
  }

  /** All that can happen at the next tag of a group. */
  lemma SkipBodyUnfold(s: seq<byte>, c: Context, start: int)
    ensures TagAt(s).Err? ==> SkipBody(s, c, start) == Err(TagAt(s).error)
    ensures TagAt(s).Ok? ==> SkipBody(s, c, start) == AtTag(s, c, start, TagAt(s).value.0, TagAt(s).value.1)
  {
    hide SkipField, TagAt;
  }

  ghost function AtTag(s: seq<byte>, c: Context, start: int, tag: int, k: nat): Result<nat> {
    if tag == 0 then Err(Truncated)
    else if tag % 8 == 4 then
      if tag / 8 == start / 8 then Ok(k) else Err(MismatchedEndGroup)
    else
      var f := SkipField(Drop(s, k), c.Past(k), tag);
      if f.Err? then f else After(k + f.value, SkipBody(Drop(s, k + f.value), c.Past(k + f.value), start))
  }

  lemma DropDrop(s: seq<byte>, n: nat, k: nat)
    ensures Drop(Drop(s, n), k) == Drop(s, n + k)
  {
  }

  lemma PastPast(c: Context, n: nat, k: nat)
    ensures c.Past(n).Past(k) == c.Past(n + k)
  {
  }

  /** `n` bytes of the group's body are consumed, and what remains decides. */
  ghost predicate Reached(s: seq<byte>, c: Context, start: int, n: nat) {
    SkipBody(s, c, start) == After(n, SkipBody(Drop(s, n), c.Past(n), start))
  }

  lemma ReachedStart(s: seq<byte>, c: Context, start: int)
    ensures Reached(s, c, start, 0)
  {
    assert Drop(s, 0) == s;
  }

  /**
   What one step of the group loop may report, from `n`: a failure that the whole group shares, the
   end tag at `m`, or that the body goes on at `m`.
   */
  ghost predicate Decided(s: seq<byte>, c: Context, start: int, n: nat, step: Result<int>, m: nat) {
    match step
    case Err(e) => SkipBody(s, c, start) == Err(e)
    case Ok(tag) =>
      if tag % 8 == 4 then SkipBody(s, c, start) == if tag / 8 == start / 8 then Ok(m) else Err(MismatchedEndGroup)
      else Reached(s, c, start, m) && |Drop(s, m)| < |Drop(s, n)|
  }

  /** The tag alone decides. */
  lemma DecidedByTag(s: seq<byte>, c: Context, start: int, n: nat)
    requires Reached(s, c, start, n)
    ensures
      match TagAt(Drop(s, n))
      case Err(e) => Decided(s, c, start, n, Err(e), n)
      case Ok((tag, k)) =>
        && (tag == 0 ==> Decided(s, c, start, n, Err(Truncated), n))
        && (tag % 8 == 4 ==> Decided(s, c, start, n, Ok(tag), n + k))
  {
    hide SkipBody, SkipField, TagAt, Drop;
    SkipBodyUnfold(Drop(s, n), c.Past(n), start);
  }

  /** The field behind the tag decides. */
  lemma DecidedByField(s: seq<byte>, c: Context, start: int, n: nat, tag: int, k: nat)
    requires Reached(s, c, start, n) && |Drop(s, n + k)| < |Drop(s, n)|
    requires TagAt(Drop(s, n)) == Ok((tag, k)) && tag != 0 && tag % 8 != 4
    ensures
      match SkipField(Drop(s, n + k), c.Past(n + k), tag)
      case Err(e) => Decided(s, c, start, n, Err(e), n)
      case Ok(f) => Decided(s, c, start, n, Ok(tag), n + k + f)
  {
    hide SkipBody, SkipField, TagAt, Drop;
    SkipBodyUnfold(Drop(s, n), c.Past(n), start);
    DropDrop(s, n, k);
    PastPast(c, n, k);
    var field := SkipField(Drop(s, n + k), c.Past(n + k), tag);
    if field.Ok? {
      DropDrop(s, n, k + field.value);
      DropDrop(s, n + k, field.value);
      DropLength(Drop(s, n + k), field.value);
      PastPast(c, n, k + field.value);
    }
  }

  lemma DropLength(s: seq<byte>, n: nat)
    ensures |Drop(s, n)| <= |s|
  {
  }

  lemma DropShrinks(s: seq<byte>, n: nat, k: nat)
    requires k > 0 && Drop(s, n) != []
    ensures |Drop(s, n + k)| < |Drop(s, n)|
  {
  }

  /** A successful group either ends here or starts with a field that is skipped. */
  lemma SkipBodyCases(s: seq<byte>, c: Context, start: int) returns (tag: int, k: nat, n: nat)
    requires SkipBody(s, c, start).Ok?
    ensures 1 <= k <= |s| && IsVarint(s[..k]) && tag == TagOf(s[..k]) && tag != 0
    ensures tag % 8 == 4 ==> tag / 8 == start / 8 && SkipBody(s, c, start) == Ok(k)
    ensures tag % 8 != 4 ==>
      && SkipField(s[k..], c.Past(k), tag) == Ok(n)
      && SkipBody(Drop(s, k + n), c.Past(k + n), start).Ok?
      && SkipBody(s, c, start) == After(k + n, SkipBody(Drop(s, k + n), c.Past(k + n), start))
  {
    hide SkipBody, SkipField, ReadVarint, IsVarint, Value, Drop;
    SkipBodyUnfold(s, c, start);
    var t := TagAt(s).value;
    tag, k := t.0, t.1;
    FoundAt(s);
    n := 0;
    if tag % 8 != 4 {
      assert Drop(s, k) == s[k..] by { DropIs(s, k); }
      n := SkipField(s[k..], c.Past(k), tag).value;
    }
  }

  lemma DropIs(s: seq<byte>, k: nat)
    requires k <= |s|
    ensures Drop(s, k) == s[k..]
  {
  }

  /** One field of a group: what follows the tag, then the rest of the group. */
  lemma SkipBodyStep(s: seq<byte>, c: Context, start: int, tag: int, k: nat, n: nat)
    requires TagAt(s) == Ok((tag, k)) && tag != 0 && tag % 8 != 4
    requires SkipField(s[k..], c.Past(k), tag) == Ok(n)
    ensures SkipBody(s, c, start) == After(k + n, SkipBody(Drop(s, k + n), c.Past(k + n), start))
  {
    hide SkipField, TagAt;
  }

  lemma BytesFound(length: seq<byte>, bytes: seq<byte>, t: seq<byte>, c: Context, tag: int)
    requires WellFormed(tag, BytesField(length, bytes), 0) && Roomy(length + bytes + t, c)
    ensures SkipField(length + bytes + t, c, tag) == Ok(|length| + |bytes|)
  {
    assert length + bytes + t == length + (bytes + t);
    VarintFound(length, bytes + t, TWO32);
    assert (length + (bytes + t))[|length|..] == bytes + t;
  }

  lemma {:induction false} SkipsEncoded(f: Field, t: seq<byte>, c: Context, tag: int)
    requires WellFormed(tag, f, c.maxDepth - 1 - c.depth) && Roomy(Encode(f) + t, c)
    ensures SkipField(Encode(f) + t, c, tag) == Ok(|Encode(f)|)
    decreases f
  {
    match f
    case VarintField(raw) => VarintFound(raw, t, TWO32);
    case FixedField(_) =>
    case BytesField(length, bytes) => BytesFound(length, bytes, t, c, tag);
    case GroupField(body) => SkipsEncodedBody(body, t, c.(depth := c.depth + 1), tag);
    case ReservedField =>
  }

  lemma {:induction false} SkipsEncodedBody(body: Body, t: seq<byte>, c: Context, start: int)
    requires WellFormedBody(start, body, c.maxDepth - 1 - c.depth) && Roomy(EncodeBody(body) + t, c)
    ensures SkipBody(EncodeBody(body) + t, c, start) == Ok(|EncodeBody(body)|)
    decreases body
  {
    hide SkipField, SkipBody, TagAt;
    match body
    case End(tag) =>
      TagFound(tag, t);
      SkipBodyEnd(tag + t, c, start, TagOf(tag), |tag|);
    case More(tag, field, rest) =>
      var after := EncodeBody(rest) + t;
      var s, n := tag + (Encode(field) + after), |tag| + |Encode(field)|;
      assert EncodeBody(body) + t == s;
      TagFound(tag, Encode(field) + after);
      assert s[|tag|..] == Encode(field) + after && s[n..] == after;
      SkipsEncoded(field, after, c.Past(|tag|), TagOf(tag));
      SkipsEncodedBody(rest, t, c.Past(n), start);
      SkipBodyStep(s, c, start, TagOf(tag), |tag|, |Encode(field)|);
  }

  /** The other direction: whatever is skipped is the encoding of a well-formed field. */
  lemma {:induction false} SkippedIsEncoded(s: seq<byte>, c: Context, tag: int) returns (f: Field)
    requires SkipField(s, c, tag).Ok? && SkipField(s, c, tag).value <= |s|
    ensures WellFormed(tag, f, c.maxDepth - 1 - c.depth)
    ensures Encode(f) == s[..SkipField(s, c, tag).value]
    decreases |s|, 1
  {
    if tag % 8 == 3 {
      var body := SkippedBodyIsEncoded(s, c.(depth := c.depth + 1), tag);
      f := GroupField(body);
    } else {
      f := SkippedFlatIsEncoded(s, c, tag);
    }
  }

  lemma SkippedFlatIsEncoded(s: seq<byte>, c: Context, tag: int) returns (f: Field)
    requires SkipField(s, c, tag).Ok? && SkipField(s, c, tag).value <= |s| && tag % 8 != 3
    ensures WellFormed(tag, f, c.maxDepth - 1 - c.depth)
    ensures Encode(f) == s[..SkipField(s, c, tag).value]
  {
    var n := SkipField(s, c, tag).value;
    match tag % 8
    case 0 =>
      FoundAt(s);
      f := VarintField(s[..n]);
    case 2 =>
      FoundAt(s);
      var k := ReadVarint(s, TWO32).value.1;
      f := BytesField(s[..k], s[k..n]);
      assert s[..k] + s[k..n] == s[..n];
    case 6 => f := ReservedField;
    case 7 => f := ReservedField;
    case _ => f := FixedField(s[..n]);
    hide ReadVarint, RawVarint, IsVarint, Value, SkipBody;
  }

  lemma {:induction false} SkippedBodyIsEncoded(s: seq<byte>, c: Context, start: int) returns (body: Body)
    requires SkipBody(s, c, start).Ok?
    ensures SkipBody(s, c, start).value <= |s|
    ensures WellFormedBody(start, body, c.maxDepth - 1 - c.depth)
    ensures EncodeBody(body) == s[..SkipBody(s, c, start).value]
    decreases |s|, 0
  {
    hide SkipField, SkipBody, TagOf, IsVarint, RawVarint;
    var tag, k, n := SkipBodyCases(s, c, start);
    if tag % 8 == 4 {
      body := End(s[..k]);
    } else {
      if k + n > |s| { NothingAfterTheEnd(c.Past(k + n), start); }
      var rest := SkippedBodyIsEncoded(s[k + n..], c.Past(k + n), start);
      var field := SkippedIsEncoded(s[k..], c.Past(k), tag);
      body := More(s[..k], field, rest);
      var m := |EncodeBody(rest)|;
      Slices(s, k, n, m);
    }
  }

  lemma Slices(s: seq<byte>, k: nat, n: nat, m: nat)
    requires k + n + m <= |s|
    ensures s[..k + n + m] == s[..k] + (s[k..][..n] + s[k + n..][..m])
  {
  }

  lemma NothingAfterTheEnd(c: Context, start: int)
    ensures SkipBody([], c, start) == Err(Truncated)
  {
  }

  /**
   Skipping consumes `n` of the bytes that are left exactly when those bytes are one well-formed
   field that opens no more groups than the recursion limit still allows.
   */
  lemma SkipsExactlyFields(s: seq<byte>, c: Context, tag: int, n: nat)
    requires Roomy(s, c) && n <= |s|
    ensures SkipField(s, c, tag) == Ok(n) <==>
      exists f :: WellFormed(tag, f, c.maxDepth - 1 - c.depth) && Encode(f) == s[..n]
  {
    if SkipField(s, c, tag) == Ok(n) {
      var f := SkippedIsEncoded(s, c, tag);
    }
    if f :| WellFormed(tag, f, c.maxDepth - 1 - c.depth) && Encode(f) == s[..n] {
      assert Encode(f) + s[n..] == s;
      SkipsEncoded(f, s[n..], c, tag);
    }
  }

  /** Without seeking, a skip succeeds exactly when a well-formed field comes first. */
  lemma SkipsExactlyWhenField(s: seq<byte>, c: Context, tag: int)
    requires Roomy(s, c) && !c.seekable
    ensures SkipField(s, c, tag).Ok? <==> exists f :: WellFormed(tag, f, c.maxDepth - 1 - c.depth) && Encode(f) <= s
  {
    OvershootsExactly(s, c, tag);
    if SkipField(s, c, tag).Ok? {
      var f := SkippedIsEncoded(s, c, tag);
    }
    if f :| WellFormed(tag, f, c.maxDepth - 1 - c.depth) && Encode(f) <= s {
      assert s[..|Encode(f)|] == Encode(f);
      SkipsExactlyFields(s, c, tag, |Encode(f)|);
    }
  }

  /** The declared length runs past what is there, but not past the limit. */
  ghost predicate CutOff(s: seq<byte>, room: int) {
    var length := ReadVarint(s, TWO32);
    length.Ok? && |s| < length.value.1 + ToInt32(length.value.0) <= room
  }

  /**
   The skip of a seekable source runs past the end exactly for a length-delimited field that is cut off:
   there the original reports success where reading would report a truncated message.
   */
  lemma OvershootsExactly(s: seq<byte>, c: Context, tag: int)
    ensures SkipField(s, c, tag).Ok? && SkipField(s, c, tag).value > |s| <==>
      c.seekable && tag % 8 == 2 && CutOff(s, c.room)
  {
    hide ReadVarint, SkipGroup;
    if tag % 8 == 3 { GroupStays(s, c, tag); }
  }

  /** Five bytes are announced, none is there. */
  lemma OvershootsByFive(c: Context)
    requires c.seekable && 6 <= c.room
    ensures TagAt([10, 5]) == Ok((10, 1)) && SkipField([5], c, 10) == Ok(6)
  {
    assert [10] + [5] == [10, 5] && [5] + [] == [5];
    TagFound([10], [5]);
    VarintFound([5], [], TWO32);
  }

  /** A group ends with a tag that has been read. */
  lemma GroupStays(s: seq<byte>, c: Context, start: int)
    ensures SkipGroup(s, c, start).Ok? ==> SkipGroup(s, c, start).value <= |s|
  {
    hide SkipBody;
    if SkipGroup(s, c, start).Ok? {
      var body := SkippedBodyIsEncoded(s, c.(depth := c.depth + 1), start);
    }
  }
}
