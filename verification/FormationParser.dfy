/**
 The parsing constructors of PBOneFormation and PBFormation as the loops they are, over the stream of the
 runtime library. That stream is not part of the repository: `MessageInput` is what is assumed of it.
 */
module FormationParser {
  import opened Wire
  import opened WireFields
  import opened FormationWire

  /** The input of a parser: bytes, a position, a limit, and how deeply messages are nested. */
  class MessageInput {
    const bytes: seq<byte>
    const recursionLimit: int
    var pos: nat
    var limit: nat
    var depth: int
    var lastTag: int

    constructor (bytes: seq<byte>, recursionLimit: int)
      ensures Valid() && Rest() == bytes && depth == 0 && this.recursionLimit == recursionLimit
    {
      this.bytes, this.recursionLimit := bytes, recursionLimit;
      pos, limit, depth, lastTag := 0, |bytes|, 0, 0;
    }

    predicate Valid() reads this { pos <= limit <= |bytes| }

    function Rest(): seq<byte>
      requires Valid()
      reads this
    {
      bytes[pos..limit]
    }

    ghost function Here(): Depth reads this { Depth(depth, recursionLimit) }

    method ReadTag() returns (r: Result<int>)
      requires Valid()
      modifies this`pos, this`lastTag
      ensures match TagAt(old(Rest()))
        case Ok(t) => r == Ok(t.0) && Valid() && pos == old(pos) + t.1 && lastTag == t.0
        case Err(e) => r == Err(e)
    {
      var t :- TagAt(Rest());
      pos, lastTag := pos + t.1, t.0;
      return Ok(t.0);
    }

    method ReadRawVarint32() returns (r: Result<int>)
      requires Valid()
      modifies this`pos
      ensures match ReadVarint(old(Rest()), TWO32)
        case Ok(v) => r == Ok(v.0) && 0 <= v.0 < TWO32 && Valid() && pos == old(pos) + v.1
        case Err(e) => r == Err(e)
    {
      var v :- ReadVarint(Rest(), TWO32);
      pos := pos + v.1;
      return Ok(v.0);
    }

    method ReadInt64() returns (r: Result<int64>)
      requires Valid()
      modifies this`pos
      ensures match ReadVarint(old(Rest()), TWO64)
        case Ok(v) => r == Ok(ToInt64(v.0)) && Valid() && pos == old(pos) + v.1
        case Err(e) => r == Err(e)
    {
      var v :- ReadVarint(Rest(), TWO64);
      pos := pos + v.1;
      return Ok(ToInt64(v.0));
    }

    method PushLimit(byteLimit: int) returns (r: Result<nat>)
      requires Valid()
      modifies this`limit
      ensures byteLimit < 0 ==> r == Err(NegativeSize)
      ensures byteLimit > old(limit) - pos ==> r == Err(Truncated) || byteLimit < 0
      ensures 0 <= byteLimit <= old(limit) - pos ==> r == Ok(old(limit)) && Valid() && limit == pos + byteLimit
    {
      if byteLimit < 0 {
        return Err(NegativeSize);
      }
      if byteLimit > limit - pos {
        return Err(Truncated);
      }
      r := Ok(limit);
      limit := pos + byteLimit;
    }

    method PopLimit(oldLimit: nat)
      requires Valid() && limit <= oldLimit <= |bytes|
      modifies this`limit
      ensures Valid() && limit == oldLimit
    {
      limit := oldLimit;
    }

    function BytesUntilLimit(): int
      requires Valid()
      reads this
    {
      limit - pos
    }

    /**
     False for an end tag, which belongs to someone else. What the library does with the reserved wire types 6
     and 7 is assumed to be what the C# reader does: an empty field.
     */
    method SkipUnknown(tag: int) returns (r: Result<bool>)
      requires Valid()
      modifies this`pos
      ensures tag % 8 == 4 ==> r == Ok(false) && Valid() && pos == old(pos)
      ensures tag % 8 != 4 ==> match SkipField(old(Rest()), Context(|old(Rest())|, false, depth, recursionLimit), tag)
        case Ok(n) => r == Ok(true) && Valid() && pos == old(pos) + n
        case Err(e) => r == Err(e)
    {
      if tag % 8 == 4 {
        return Ok(false);
      }
      NoOvershoot(Rest(), Context(|Rest()|, false, depth, recursionLimit), tag);
      var n :- SkipField(Rest(), Context(|Rest()|, false, depth, recursionLimit), tag);
      pos := pos + n;
      return Ok(true);
    }
  }

  lemma NoOvershoot(s: seq<byte>, c: Context, tag: int)
    requires !c.seekable
    ensures SkipField(s, c, tag).Ok? ==> SkipField(s, c, tag).value <= |s|
  {
    OvershootsExactly(s, c, tag);
  }

  // ----- The loops -----

  /** The input stands where parsing `s0` from `m0` has become parsing what is left from `m`. */
  ghost predicate Parsing(input: MessageInput, s0: seq<byte>, m0: Message, d: Depth, limit: nat, m: Message)
    reads input
  {
    && input.Valid() && input.limit == limit && input.Here() == d
    && Parse(s0, m0, d) == Parse(input.Rest(), m, d)
  }

  /** What a finished parse has to report. */
  ghost predicate Finished(input: MessageInput, r: Result<Message>, s0: seq<byte>, m0: Message, d: Depth, limit: nat)
    reads input
  {
    match Parse(s0, m0, d)
    case Err(e) => r == Err(e)
    case Ok(p) =>
      && r == Ok(p.message) && input.lastTag == p.lastTag
      && input.Valid() && input.limit == limit && input.Here() == d && (p.lastTag == 0 ==> input.pos == limit)
  }

  /** Behind a tag that starts a field. */
  ghost predicate AtField(input: MessageInput, s0: seq<byte>, m0: Message, d: Depth, limit: nat, m: Message, tag: int)
    reads input
  {
    && input.Valid() && input.limit == limit && input.Here() == d
    && Parse(s0, m0, d) == Behind(ReadField(tag, input.Rest(), m, d), input.Rest(), d)
  }

  ghost function Behind(step: Result<Step>, s: seq<byte>, d: Depth): Result<Parsed> {
    match step
    case Err(e) => Err(e)
    case Ok(field) => Parse(Drop(s, field.size), field.message, d)
  }

  /** readTag, and what follows from it. */
  method NextTag(input: MessageInput, ghost s0: seq<byte>, ghost m0: Message, ghost d: Depth, ghost limit: nat, m: Message)
    returns (r: Result<int>)
    requires Parsing(input, s0, m0, d, limit, m)
    modifies input
    ensures r.Err? ==> Parse(s0, m0, d) == Err(r.error)
    ensures r.Ok? && (r.value == 0 || r.value % 8 == 4) ==> Finished(input, Ok(m), s0, m0, d, limit) == true
    ensures r.Ok? && r.value != 0 && r.value % 8 != 4 ==>
      AtField(input, s0, m0, d, limit, m, r.value) == true && 0 < r.value < TWO32 && input.pos > old(input.pos)
  {
    hide Parse, ReadField, TagAt;
    ghost var s := input.Rest();
    ParseUnfold(s, m, d);
    AtLimit(s);
    r := input.ReadTag();
  }

  lemma AtLimit(s: seq<byte>)
    ensures TagAt(s).Ok? && TagAt(s).value.0 == 0 ==> s == [] && TagAt(s).value.1 == 0
  {
  }

  /** What the tag decides. */
  ghost function ByTag(tag: Result<(int, nat)>, s: seq<byte>, m: Message, d: Depth): Result<Parsed>
    requires tag.Ok? ==> tag.value.1 <= |s|
  {
    if tag.Err? then Err(tag.error)
    else if tag.value.0 == 0 || tag.value.0 % 8 == 4 then Ok(Parsed(m, tag.value.0))
    else Behind(ReadField(tag.value.0, s[tag.value.1..], m, d), s[tag.value.1..], d)
  }

  lemma ParseUnfold(s: seq<byte>, m: Message, d: Depth)
    ensures Parse(s, m, d) == ByTag(TagAt(s), s, m, d)
  {
    hide ReadField, TagAt;
    var tag := TagAt(s);
    if tag.Ok? {
      var t, k := tag.value.0, tag.value.1;
      if t != 0 && t % 8 != 4 {
        var f := ReadField(t, s[k..], m, d);
        if f.Ok? { assert Drop(s, k + f.value.size) == Drop(s[k..], f.value.size); }
      }
    }
  }

  /** readInt64 of a field that is one number or one element of a list. */
  method ReadNumber(input: MessageInput, tag: int, m: Message,
        ghost s0: seq<byte>, ghost m0: Message, ghost d: Depth, ghost limit: nat) returns (r: Result<Message>)
    requires AtField(input, s0, m0, d, limit, m, tag) && (IsNumber(m, tag) || IsList(m, tag))
    modifies input
    ensures r.Err? ==> Parse(s0, m0, d) == Err(r.error)
    ensures r.Ok? ==> Parsing(input, s0, m0, d, limit, r.value) == true && input.pos >= old(input.pos)
    ensures r.Ok? ==> r.value.One? == m.One?
  {
    hide Parse, ReadVarint;
    ghost var s := input.Rest();
    var v :- input.ReadInt64();
    assert Drop(s, input.pos - old(input.pos)) == input.Rest();
    return Ok(if IsNumber(m, tag) then SetNumber(m, tag, v) else SetList(m, tag, ListOf(m, tag) + [v]));
  }

  /** Delimited, as the stream does it: the length, then the limit. */
  lemma DelimitedCases(s: seq<byte>)
    ensures ReadVarint(s, TWO32).Err? ==> Delimited(s) == Err(ReadVarint(s, TWO32).error)
    ensures ReadVarint(s, TWO32).Ok? ==> var v := ReadVarint(s, TWO32).value;
      var n := ToInt32(v.0);
      && v.1 <= |s|
      && (n < 0 ==> Delimited(s) == Err(NegativeSize))
      && (n > |s| - v.1 ==> Delimited(s) == Err(Truncated))
      && (0 <= n <= |s| - v.1 ==> Delimited(s) == Ok((s[v.1..][..n], v.1 + n)))
  {
    hide ReadVarint;
    if ReadVarint(s, TWO32).Ok? {
      var v := ReadVarint(s, TWO32).value;
      var n := ToInt32(v.0);
      if 0 <= n <= |s| - v.1 { assert s[v.1..][..n] == s[v.1..v.1 + n]; }
    }
  }

  /** pushLimit of a length that has just been read: the rest of the input becomes the payload. */
  method PushLength(input: MessageInput, ghost s: seq<byte>) returns (r: Result<nat>)
    requires input.Valid() && s == input.Rest()
    modifies input
    ensures r.Err? ==> Delimited(s) == Err(r.error)
    ensures r.Ok? ==> Delimited(s).Ok? && Within(input, s, old(input.pos), old(input.limit)) && r.value == old(input.limit)
    ensures input.depth == old(input.depth)
  {
    hide ReadVarint, Delimited;
    DelimitedCases(s);
    var length :- input.ReadRawVarint32();
    ghost var k := ReadVarint(s, TWO32).value.1;
    assert input.Rest() == s[k..];
    r := input.PushLimit(ToInt32(length));
    if r.Ok? { assert input.Rest() == s[k..][..ToInt32(length)]; }
  }

  /** The input is cut to the payload of a length-delimited field that began at `pos`. */
  ghost predicate Within(input: MessageInput, s: seq<byte>, pos: nat, limit: nat)
    requires Delimited(s).Ok?
    reads input
  {
    && input.Valid() && pos <= input.pos && input.limit <= limit <= |input.bytes|
    && input.Rest() == Delimited(s).value.0 && input.limit == pos + Delimited(s).value.1
  }

  /** The elements of a packed run, up to the pushed limit. */
  method ReadElements(input: MessageInput, list: seq<int64>, ghost s: seq<byte>) returns (r: Result<seq<int64>>)
    requires input.Valid() && s == input.Rest()
    modifies input`pos
    ensures r == ReadPacked(s, list)
    ensures r.Ok? ==> input.Valid() && input.pos == input.limit
  {
    hide ReadVarint;
    var all := list;
    while input.BytesUntilLimit() > 0
      invariant input.Valid() && ReadPacked(s, list) == ReadPacked(input.Rest(), all)
      decreases input.limit - input.pos
    {
      var v :- input.ReadInt64();
      all := all + [v];
    }
    return Ok(all);
  }

  /** A packed run. */
  method ReadPackedField(input: MessageInput, tag: int, m: Message,
        ghost s0: seq<byte>, ghost m0: Message, ghost d: Depth, ghost limit: nat) returns (r: Result<Message>)
    requires AtField(input, s0, m0, d, limit, m, tag) && IsList(m, tag - 2) && !IsList(m, tag) && !IsNumber(m, tag)
    modifies input
    ensures r.Err? ==> Parse(s0, m0, d) == Err(r.error)
    ensures r.Ok? ==> Parsing(input, s0, m0, d, limit, r.value) == true && input.pos >= old(input.pos)
    ensures r.Ok? ==> r.value.One? == m.One?
  {
    hide Parse, ReadVarint, Delimited, ReadPacked;
    ghost var s := input.Rest();
    var oldLimit :- PushLength(input, s);
    ghost var payload := input.Rest();
    var list :- ReadElements(input, ListOf(m, tag - 2), payload);
    input.PopLimit(oldLimit);
    assert Drop(s, Delimited(s).value.1) == input.Rest();
    return Ok(SetList(m, tag - 2, list));
  }

  /** An unknown field is skipped. */
  method SkipUnknownField(input: MessageInput, tag: int, m: Message,
        ghost s0: seq<byte>, ghost m0: Message, ghost d: Depth, ghost limit: nat) returns (r: Result<bool>)
    requires AtField(input, s0, m0, d, limit, m, tag) && tag % 8 != 4
    requires !IsNumber(m, tag) && !IsList(m, tag) && !IsList(m, tag - 2) && !(m.Formation? && tag == 10)
    modifies input
    ensures r.Err? ==> Parse(s0, m0, d) == Err(r.error)
    ensures r.Ok? ==> Parsing(input, s0, m0, d, limit, m) == true && input.pos >= old(input.pos)
  {
    hide Parse, SkipField;
    ghost var s := input.Rest();
    r := input.SkipUnknown(tag);
    if r.Ok? { assert Drop(s, input.pos - old(input.pos)) == input.Rest(); }
  }

  /** The parsing constructor of PBOneFormation. */
  method ParseOneFormation(input: MessageInput) returns (r: Result<Message>)
    requires input.Valid()
    modifies input
    ensures Finished(input, r, old(input.Rest()), NO_ONE, old(input.Here()), old(input.limit)) == true
  {
    hide Parse, ReadField, AtField;
    ghost var s0, d, limit := input.Rest(), input.Here(), input.limit;
    var m := NO_ONE;
    while true
      invariant Parsing(input, s0, NO_ONE, d, limit, m) && m.One?
      decreases limit - input.pos
    {
      var tag :- NextTag(input, s0, NO_ONE, d, limit, m);
      if tag == 0 || tag % 8 == 4 {
        return Ok(m);
      } else if tag == 18 {
        m :- ReadPackedField(input, tag, m, s0, NO_ONE, d, limit);
      } else if tag == 8 || tag == 16 || tag == 24 || tag == 32 || tag == 40 {
        m :- ReadNumber(input, tag, m, s0, NO_ONE, d, limit);
      } else {
        var _ :- SkipUnknownField(input, tag, m, s0, NO_ONE, d, limit);
      }
    }
  }

  lemma MessageCases(s: seq<byte>, m: Message, d: Depth)
    requires m.Formation?
    ensures ReadField(10, s, m, d) == ReadMessage(s, m, d)
    ensures ReadVarint(s, TWO32).Err? ==> ReadMessage(s, m, d) == Err(ReadVarint(s, TWO32).error)
    ensures ReadVarint(s, TWO32).Ok? && d.depth >= d.limit ==> ReadMessage(s, m, d) == Err(RecursionLimitExceeded)
    ensures ReadVarint(s, TWO32).Ok? && d.depth < d.limit ==> ReadMessage(s, m, d) == Nested(s, m, d)
  {
    hide ReadVarint, Delimited, Parse;
  }

  ghost function Nested(s: seq<byte>, m: Message, d: Depth): Result<Step>
    requires m.Formation?
  {
    if Delimited(s).Err? then Err(Delimited(s).error)
    else
      var nested := Parse(Delimited(s).value.0, NO_ONE, d.(depth := d.depth + 1));
      if nested.Err? then Err(nested.error)
      else if nested.value.lastTag != 0 then Err(MismatchedEndGroup)
      else Ok(Step(m.(formation := m.formation + [nested.value.message]), Delimited(s).value.1))
  }

  /** readMessage of the runtime library: a limit, one level deeper, and the limit must end the message. */
  method ReadOneFormation(input: MessageInput, m: Message,
        ghost s0: seq<byte>, ghost m0: Message, ghost d: Depth, ghost limit: nat) returns (r: Result<Message>)
    requires AtField(input, s0, m0, d, limit, m, 10) && m.Formation?
    modifies input
    ensures r.Err? ==> Parse(s0, m0, d) == Err(r.error)
    ensures r.Ok? ==> Parsing(input, s0, m0, d, limit, r.value) == true && input.pos >= old(input.pos)
    ensures r.Ok? ==> r.value.Formation?
  {
    hide Parse, ReadVarint, Delimited, ReadMessage, ReadField;
    ghost var s := input.Rest();
    DelimitedCases(s);
    MessageCases(s, m, d);
    var length :- input.ReadRawVarint32();
    if input.depth >= input.recursionLimit {
      return Err(RecursionLimitExceeded);
    }
    ghost var k := ReadVarint(s, TWO32).value.1;
    assert input.Rest() == s[k..];
    var oldLimit :- input.PushLimit(ToInt32(length));
    assert input.Rest() == s[k..][..ToInt32(length)];
    input.depth := input.depth + 1;
    var nested :- ParseOneFormation(input);
    if input.lastTag != 0 {
      return Err(MismatchedEndGroup);
    }
    input.depth := input.depth - 1;
    input.PopLimit(oldLimit);
    assert Drop(s, Delimited(s).value.1) == input.Rest();
    return Ok(m.(formation := m.formation + [nested]));
  }

  /** The parsing constructor of PBFormation. */
  method ParseFormation(input: MessageInput) returns (r: Result<Message>)
    requires input.Valid()
    modifies input
    ensures Finished(input, r, old(input.Rest()), NO_FORMATION, old(input.Here()), old(input.limit)) == true
  {
    hide Parse, ReadField, AtField;
    ghost var s0, d, limit := input.Rest(), input.Here(), input.limit;
    var m := NO_FORMATION;
    while true
      invariant Parsing(input, s0, NO_FORMATION, d, limit, m) && m.Formation?
      decreases limit - input.pos
    {
      var tag :- NextTag(input, s0, NO_FORMATION, d, limit, m);
      if tag == 0 || tag % 8 == 4 {
        return Ok(m);
      } else if tag == 10 {
        m :- ReadOneFormation(input, m, s0, NO_FORMATION, d, limit);
      } else if tag == 18 || tag == 26 {
        m :- ReadPackedField(input, tag, m, s0, NO_FORMATION, d, limit);
      } else if tag == 16 || tag == 24 {
        m :- ReadNumber(input, tag, m, s0, NO_FORMATION, d, limit);
      } else {
        var _ :- SkipUnknownField(input, tag, m, s0, NO_FORMATION, d, limit);
      }
    }
  }
}