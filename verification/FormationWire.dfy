/**
 The generated messages PBOneFormation and PBFormation on the wire: what their parsing constructors and
 `writeTo` do, as functions, and the laws between the two. The runtime library's streams read and write
 the same format as the coded streams of this project.
 */
module FormationWire {
  import opened Wire
  import opened WireFields

  datatype Message =
    | One(heroId: int64, equip: seq<int64>, petId: int64, horseId: int64, mingjiangId: int64)
    | Formation(formation: seq<Message>, partner: seq<int64>, battleFormation: seq<int64>)

  const NO_ONE := One(0, [], 0, 0, 0)
  const NO_FORMATION := Formation([], [], [])

  // ----- The parsing constructors -----

  /** Where a nested message stands: readMessage counts the depth. */
  datatype Depth = Depth(depth: int, limit: int)

  /** A length and as many bytes; the limit that is pushed cuts the rest off. */
  ghost function Delimited(s: seq<byte>): (r: Result<(seq<byte>, nat)>)
    ensures r.Ok? ==> |r.value.0| < r.value.1 <= |s|
  {
    var length :- ReadVarint(s, TWO32);
    var n := ToInt32(length.0);
    if n < 0 then Err(NegativeSize)
    else if n > |s| - length.1 then Err(Truncated)
    else Ok((s[length.1..length.1 + n], length.1 + n))
  }

  /** `while (input.getBytesUntilLimit() > 0) list.add(input.readInt64())` */
  ghost function ReadPacked(s: seq<byte>, list: seq<int64>): Result<seq<int64>>
    decreases |s|
  {
    if s == [] then Ok(list)
    else
      var v :- ReadVarint(s, TWO64);
      ReadPacked(s[v.1..], list + [ToInt64(v.0)])
  }

  /** A message and the number of bytes that its last field took. */
  datatype Step = Step(message: Message, size: nat)

  /** What a parse ends with: the message and the tag that ended it. */
  datatype Parsed = Parsed(message: Message, lastTag: int)

  /** The fields that are kept as one number. */
  predicate IsNumber(m: Message, tag: int) { m.One? && (tag == 8 || tag == 24 || tag == 32 || tag == 40) }

  function SetNumber(m: Message, tag: int, v: int64): Message
    requires IsNumber(m, tag)
  {
    if tag == 8 then m.(heroId := v)
    else if tag == 24 then m.(petId := v)
    else if tag == 32 then m.(horseId := v)
    else m.(mingjiangId := v)
  }

  /** The repeated numbers, by the tag of a single element; the packed tag is two more. */
  predicate IsList(m: Message, tag: int) { tag == 16 || (m.Formation? && tag == 24) }

  function ListOf(m: Message, tag: int): seq<int64>
    requires IsList(m, tag)
  {
    if m.One? then m.equip else if tag == 16 then m.partner else m.battleFormation
  }

  function SetList(m: Message, tag: int, list: seq<int64>): Message
    requires IsList(m, tag)
  {
    if m.One? then m.(equip := list) else if tag == 16 then m.(partner := list) else m.(battleFormation := list)
  }

  /** One turn of the parsing loop, behind the tag. */
  ghost function ReadField(tag: int, s: seq<byte>, m: Message, d: Depth): Result<Step>
    decreases |s|, 1
  {
    if IsNumber(m, tag) then
      var v :- ReadVarint(s, TWO64);
      Ok(Step(SetNumber(m, tag, ToInt64(v.0)), v.1))
    else if IsList(m, tag) then
      var v :- ReadVarint(s, TWO64);
      Ok(Step(SetList(m, tag, ListOf(m, tag) + [ToInt64(v.0)]), v.1))
    else if IsList(m, tag - 2) then
      var payload :- Delimited(s);
      var list :- ReadPacked(payload.0, ListOf(m, tag - 2));
      Ok(Step(SetList(m, tag - 2, list), payload.1))
    else if m.Formation? && tag == 10 then
      ReadMessage(s, m, d)
    else
      var n :- SkipField(s, Context(|s|, false, d.depth, d.limit), tag);
      Ok(Step(m, n))
  }

  /** readMessage, and the element it adds. */
  ghost function ReadMessage(s: seq<byte>, m: Message, d: Depth): Result<Step>
    requires m.Formation?
    decreases |s|, 0
  {
    var length :- ReadVarint(s, TWO32);
    if d.depth >= d.limit then Err(RecursionLimitExceeded)
    else
      var payload :- Delimited(s);
      var nested :- Parse(payload.0, NO_ONE, d.(depth := d.depth + 1));
      if nested.lastTag != 0 then Err(MismatchedEndGroup)
      else Ok(Step(m.(formation := m.formation + [nested.message]), payload.1))
  }

  /** The parsing loop: fields until the limit, or until an end tag that belongs to someone else. */
  ghost function Parse(s: seq<byte>, m: Message, d: Depth): Result<Parsed>
    decreases |s|, 2
  {
    var tag :- TagAt(s);
    if tag.0 == 0 || tag.0 % 8 == 4 then Ok(Parsed(m, tag.0))
    else
      var step :- ReadField(tag.0, s[tag.1..], m, d);
      Parse(Drop(s, tag.1 + step.size), step.message, d)
  }

  // ----- writeTo -----

  ghost function Elements(list: seq<int64>): seq<byte> {
    if list == [] then [] else Varint(ToUInt64(list[0])) + Elements(list[1..])
  }

  ghost function NumberField(tag: byte, v: int64): seq<byte> { if v == 0 then [] else [tag] + Varint(ToUInt64(v)) }

  ghost function PackedField(tag: byte, list: seq<int64>): seq<byte> {
    if list == [] then [] else [tag] + (Varint(|Elements(list)|) + Elements(list))
  }

  ghost function MessageFields(messages: seq<Message>): seq<byte>
    decreases messages
  {
    if messages == [] then []
    else [10] + (Varint(|Write(messages[0])|) + Write(messages[0])) + MessageFields(messages[1..])
  }

  ghost function Write(m: Message): seq<byte>
    decreases m
  {
    match m
    case One(heroId, equip, petId, horseId, mingjiangId) =>
      NumberField(8, heroId) + (PackedField(18, equip) +
        (NumberField(24, petId) + (NumberField(32, horseId) + NumberField(40, mingjiangId))))
    case Formation(formation, partner, battleFormation) =>
      MessageFields(formation) + (PackedField(18, partner) + PackedField(26, battleFormation))
  }

  /** mergeFrom: numbers that are set overwrite, lists are appended. */
  function Merge(a: Message, b: Message): Message
    requires a.One? == b.One?
  {
    if a.One? then
      One(Set(a.heroId, b.heroId), a.equip + b.equip, Set(a.petId, b.petId),
          Set(a.horseId, b.horseId), Set(a.mingjiangId, b.mingjiangId))
    else
      Formation(a.formation + b.formation, a.partner + b.partner, a.battleFormation + b.battleFormation)
  }

  function Set(a: int64, b: int64): int64 { if b == 0 then a else b }

  lemma SmallVarint(n: byte)
    requires n < 128
    ensures Varint(n) == [n]
  {
  }

  lemma PackedExample()
    ensures PackedField(18, [2, 300]) == [18, 3, 2, 172, 2]
  {
    hide Varint;
    EncodingExamples();
    SmallVarint(2);
    SmallVarint(3);
    assert [2, 300][1..] == [300] && [300][1..] == [];
    assert Elements([300]) == [172, 2] + Elements([]);
    assert Elements([2, 300]) == [2] + Elements([300]);
    assert Elements([2, 300]) == [2, 172, 2];
  }

  lemma SingleExample(tag: byte, v: byte)
    requires 0 < v < 128
    ensures PackedField(tag, [v]) == [tag, 1, v] && NumberField(tag, v) == [tag, v] && PackedField(tag, []) == NumberField(tag, 0) == []
  {
    hide Varint;
    SmallVarint(v);
    SmallVarint(1);
    assert [v][1..] == [];
    assert Elements([v]) == [v] + Elements([]);
  }

  /** The fields under their numbers in the message definitions, in wire order. */
  lemma OneExample()
    ensures Write(One(1, [2, 300], 3, 4, 5)) == [8, 1, 18, 3, 2, 172, 2, 24, 3, 32, 4, 40, 5]
    ensures Write(One(7, [], 0, 0, 0)) == [8, 7]
  {
    hide NumberField, PackedField;
    PackedExample();
    SingleExample(8, 1);
    SingleExample(24, 3);
    SingleExample(32, 4);
    SingleExample(40, 5);
    SingleExample(8, 7);
    SingleExample(18, 1);
    SingleExample(24, 1);
    SingleExample(32, 1);
    SingleExample(40, 1);
  }

  lemma FormationExample()
    ensures Write(Formation([One(7, [], 0, 0, 0)], [8], [10])) == [10, 2, 8, 7, 18, 1, 8, 26, 1, 10]
  {
    hide NumberField, PackedField, Varint;
    OneExample();
    SmallVarint(2);
    SingleExample(18, 8);
    SingleExample(26, 10);
    var m := One(7, [], 0, 0, 0);
    assert [m][1..] == [];
    assert MessageFields([m]) == [10] + ([2] + [8, 7]) + MessageFields([]);
  }

  // ----- One field at a time -----

  lemma TagByte(tag: byte, rest: seq<byte>)
    requires 0 < tag < 128
    ensures TagAt([tag] + rest) == Ok((tag as int, 1))
  {
    VarintFound([tag], rest, TWO32);
  }

  /** What the loop does with a tag of one byte. */
  lemma ParseStep(tag: byte, rest: seq<byte>, m: Message, d: Depth)
    requires 0 < tag < 128 && tag % 8 != 4
    ensures ReadField(tag, rest, m, d).Err? ==> Parse([tag] + rest, m, d) == Err(ReadField(tag, rest, m, d).error)
    ensures var r := ReadField(tag, rest, m, d);
      r.Ok? ==> Parse([tag] + rest, m, d) == Parse(Drop(rest, r.value.size), r.value.message, d)
  {
    hide ReadField, TagAt;
    TagByte(tag, rest);
    var s, r := [tag] + rest, ReadField(tag, rest, m, d);
    assert s[1..] == rest;
    if r.Ok? { assert Drop(s, 1 + r.value.size) == Drop(rest, r.value.size); }
  }

  lemma DropPrefix(p: seq<byte>, t: seq<byte>)
    ensures Drop(p + t, |p|) == t
  {
    assert (p + t)[|p|..] == t;
  }

  lemma NumberParsed(tag: byte, v: int64, t: seq<byte>, m: Message, d: Depth)
    requires IsNumber(m, tag)
    ensures Parse(NumberField(tag, v) + t, m, d) == Parse(t, if v == 0 then m else SetNumber(m, tag, v), d)
  {
    hide Parse, ReadVarint, Varint;
    if v == 0 {
      assert NumberField(tag, v) + t == t;
    } else {
      var raw := Varint(ToUInt64(v));
      assert NumberField(tag, v) + t == [tag] + (raw + t);
      ParseStep(tag, raw + t, m, d);
      VarintRoundTrip(ToUInt64(v), t, TWO64);
      DropPrefix(raw, t);
    }
  }

  // ----- Repeated fields -----

  /** One element as it may lie on the wire: any varint, not only the shortest. */
  ghost predicate AllVarints(raws: seq<seq<byte>>) { forall i :: 0 <= i < |raws| ==> IsVarint(raws[i]) }

  ghost function Numbers(raws: seq<seq<byte>>): seq<int64> {
    if raws == [] then [] else [ToInt64(Value(raws[0]) % TWO64)] + Numbers(raws[1..])
  }

  lemma {:induction false} PackedRead(raws: seq<seq<byte>>, list: seq<int64>)
    requires AllVarints(raws)
    ensures ReadPacked(Concat(raws), list) == Ok(list + Numbers(raws))
    decreases raws
  {
    hide IsVarint, Value, ReadVarint;
    if raws == [] {
      assert list + Numbers(raws) == list;
    } else {
      var raw, rest := raws[0], Concat(raws[1..]);
      var v := ToInt64(Value(raw) % TWO64);
      VarintFound(raw, rest, TWO64);
      NotEmpty(raw);
      assert (raw + rest)[|raw|..] == rest;
      PackedRead(raws[1..], list + [v]);
      assert list + [v] + Numbers(raws[1..]) == list + Numbers(raws);
    }
  }

  lemma NotEmpty(raw: seq<byte>)
    requires IsVarint(raw)
    ensures raw != []
  {
  }

  lemma DelimitedRead(length: seq<byte>, payload: seq<byte>, t: seq<byte>)
    requires IsVarint(length) && Value(length) % TWO32 == |payload| < TWO31
    ensures Delimited(length + (payload + t)) == Ok((payload, |length| + |payload|))
  {
    hide IsVarint, Value, ReadVarint, Delimited;
    VarintFound(length, payload + t, TWO32);
    DelimitedIs(length + (payload + t), |length|, |payload|);
    Middle(length, payload, t);
  }

  lemma DelimitedIs(s: seq<byte>, k: nat, n: nat)
    requires ReadVarint(s, TWO32) == Ok((n as int, k)) && n < TWO31 && k + n <= |s|
    ensures Delimited(s) == Ok((s[k..k + n], k + n))
  {
    hide ReadVarint;
  }

  lemma Middle(a: seq<byte>, b: seq<byte>, c: seq<byte>)
    ensures (a + (b + c))[|a|..|a| + |b|] == b
  {
  }

  /** A run of a repeated field: one element under the plain tag, or any number under the packed one. */
  datatype Run = Single(raw: seq<byte>) | Packed(length: seq<byte>, raws: seq<seq<byte>>)

  ghost predicate SoundRun(run: Run) {
    match run
    case Single(raw) => IsVarint(raw)
    case Packed(length, raws) => IsVarint(length) && AllVarints(raws) && Value(length) % TWO32 == |Concat(raws)| < TWO31
  }

  ghost function EncodeRun(tag: byte, run: Run): seq<byte>
    requires tag < 126
  {
    match run
    case Single(raw) => [tag] + raw
    case Packed(length, raws) => [tag + 2 as byte] + (length + Concat(raws))
  }

  ghost function RunNumbers(run: Run): seq<int64> {
    match run
    case Single(raw) => [ToInt64(Value(raw) % TWO64)]
    case Packed(_, raws) => Numbers(raws)
  }

  ghost function EncodeRuns(tag: byte, runs: seq<Run>): seq<byte>
    requires tag < 126
  {
    if runs == [] then [] else EncodeRun(tag, runs[0]) + EncodeRuns(tag, runs[1..])
  }

  ghost function RunsNumbers(runs: seq<Run>): seq<int64> {
    if runs == [] then [] else RunNumbers(runs[0]) + RunsNumbers(runs[1..])
  }

  lemma SingleParsed(tag: byte, raw: seq<byte>, t: seq<byte>, m: Message, d: Depth)
    requires IsList(m, tag) && !IsNumber(m, tag) && IsVarint(raw)
    ensures Parse([tag] + (raw + t), m, d) == Parse(t, SetList(m, tag, ListOf(m, tag) + [ToInt64(Value(raw) % TWO64)]), d)
  {
    hide Parse, ReadVarint, IsVarint, Value;
    ParseStep(tag, raw + t, m, d);
    VarintFound(raw, t, TWO64);
    DropPrefix(raw, t);
  }

  lemma PackedRunParsed(tag: byte, length: seq<byte>, raws: seq<seq<byte>>, t: seq<byte>, m: Message, d: Depth)
    requires IsList(m, tag) && SoundRun(Packed(length, raws)) && tag < 126
    ensures Parse([tag + 2 as byte] + (length + (Concat(raws) + t)), m, d)
         == Parse(t, SetList(m, tag, ListOf(m, tag) + Numbers(raws)), d)
  {
    hide Parse, ReadVarint, IsVarint, Value, ReadPacked, Concat, AllVarints;
    var payload := Concat(raws);
    ParseStep(tag + 2, length + (payload + t), m, d);
    DelimitedRead(length, payload, t);
    PackedRead(raws, ListOf(m, tag));
    DropPrefix(length + payload, t);
    assert length + payload + t == length + (payload + t);
  }

  /**
   Any mixture of packed and unpacked runs of a repeated field parses to the elements in wire order,
   behind those that are already there.
   */
  lemma {:induction false} RunsParsed(tag: byte, runs: seq<Run>, t: seq<byte>, m: Message, d: Depth)
    requires tag < 126 && IsList(m, tag) && forall i :: 0 <= i < |runs| ==> SoundRun(runs[i])
    ensures Parse(EncodeRuns(tag, runs) + t, m, d) == Parse(t, SetList(m, tag, ListOf(m, tag) + RunsNumbers(runs)), d)
    decreases runs
  {
    hide Parse, SoundRun, EncodeRun, RunNumbers, ListOf, SetList, IsList;
    if runs == [] {
      assert EncodeRuns(tag, runs) + t == t;
      assert ListOf(m, tag) + RunsNumbers(runs) == ListOf(m, tag);
      SetListTwice(m, tag, [], ListOf(m, tag));
    } else {
      var rest := EncodeRuns(tag, runs[1..]) + t;
      var list := ListOf(m, tag) + RunNumbers(runs[0]);
      var after := SetList(m, tag, list);
      SetListTwice(m, tag, list, list + RunsNumbers(runs[1..]));
      RunParsed(tag, runs[0], rest, m, d);
      assert EncodeRuns(tag, runs) + t == EncodeRun(tag, runs[0]) + rest;
      RunsParsed(tag, runs[1..], t, after, d);
      assert ListOf(m, tag) + RunNumbers(runs[0]) + RunsNumbers(runs[1..]) == ListOf(m, tag) + RunsNumbers(runs);
    }
  }

  lemma SetListTwice(m: Message, tag: int, a: seq<int64>, b: seq<int64>)
    requires IsList(m, tag)
    ensures SetList(m, tag, ListOf(m, tag)) == m
    ensures var n := SetList(m, tag, a); IsList(n, tag) && ListOf(n, tag) == a && SetList(n, tag, b) == SetList(m, tag, b)
  {
  }

  lemma RunParsed(tag: byte, run: Run, t: seq<byte>, m: Message, d: Depth)
    requires tag < 126 && IsList(m, tag) && SoundRun(run)
    ensures Parse(EncodeRun(tag, run) + t, m, d) == Parse(t, SetList(m, tag, ListOf(m, tag) + RunNumbers(run)), d)
  {
    hide Parse, IsVarint, Value, AllVarints;
    match run
    case Single(raw) =>
      assert EncodeRun(tag, run) + t == [tag] + (raw + t);
      SingleParsed(tag, raw, t, m, d);
    case Packed(length, raws) =>
      assert EncodeRun(tag, run) + t == [tag + 2 as byte] + (length + (Concat(raws) + t));
      PackedRunParsed(tag, length, raws, t, m, d);
  }

  // ----- What is written is read -----

  ghost function Raws(list: seq<int64>): seq<seq<byte>> {
    if list == [] then [] else [Varint(ToUInt64(list[0]))] + Raws(list[1..])
  }

  lemma {:induction false} RawsOf(list: seq<int64>)
    ensures AllVarints(Raws(list)) && Concat(Raws(list)) == Elements(list) && Numbers(Raws(list)) == list
    decreases list
  {
    hide IsVarint, Value, Varint;
    if list != [] {
      VarintIsVarint(ToUInt64(list[0]));
      RawsOf(list[1..]);
      assert Raws(list)[1..] == Raws(list[1..]);
      assert [list[0]] + list[1..] == list;
    }
  }

  lemma ListParsed(tag: byte, list: seq<int64>, t: seq<byte>, m: Message, d: Depth)
    requires tag < 126 && IsList(m, tag) && |Elements(list)| < TWO31
    ensures Parse(PackedField(tag + 2, list) + t, m, d) == Parse(t, SetList(m, tag, ListOf(m, tag) + list), d)
  {
    hide Parse, IsVarint, Value, Varint, AllVarints;
    if list == [] {
      assert PackedField(tag + 2, list) + t == t;
      assert ListOf(m, tag) + list == ListOf(m, tag);
    } else {
      RawsOf(list);
      VarintIsVarint(|Elements(list)|);
      assert PackedField(tag + 2, list) + t == [tag + 2 as byte] + (Varint(|Elements(list)|) + (Elements(list) + t));
      PackedRunParsed(tag, Varint(|Elements(list)|), Raws(list), t, m, d);
    }
  }

  /** Lengths are ints. */
  ghost predicate Fits(m: Message) {
    match m
    case One(_, equip, _, _, _) => |Elements(equip)| < TWO31
    case Formation(formation, partner, battleFormation) =>
      && |Elements(partner)| < TWO31 && |Elements(battleFormation)| < TWO31
      && forall i :: 0 <= i < |formation| ==> formation[i].One? && Fits(formation[i]) && |Write(formation[i])| < TWO31
  }

  /** A written PBOneFormation, followed by anything, is merged into what was there. */
  lemma OneMerged(b: Message, t: seq<byte>, a: Message, d: Depth)
    requires a.One? && b.One? && Fits(b)
    ensures Parse(Write(b) + t, a, d) == Parse(t, Merge(a, b), d)
  {
    hide Parse, Elements, NumberField, PackedField;
    var s4 := NumberField(40, b.mingjiangId) + t;
    var s3 := NumberField(32, b.horseId) + s4;
    var s2 := NumberField(24, b.petId) + s3;
    var s1 := PackedField(18, b.equip) + s2;
    assert Write(b) + t == NumberField(8, b.heroId) + s1;
    var m1 := a.(heroId := Set(a.heroId, b.heroId));
    var m2 := m1.(equip := a.equip + b.equip);
    var m3 := m2.(petId := Set(a.petId, b.petId));
    var m4 := m3.(horseId := Set(a.horseId, b.horseId));
    NumberParsed(8, b.heroId, s1, a, d);
    ListParsed(16, b.equip, s2, m1, d);
    NumberParsed(24, b.petId, s3, m2, d);
    NumberParsed(32, b.horseId, s4, m3, d);
    NumberParsed(40, b.mingjiangId, t, m4, d);
  }

  lemma NothingParsed(m: Message, d: Depth)
    ensures Parse([], m, d) == Ok(Parsed(m, 0))
  {
  }

  /** A nested message is read back as it was written. */
  lemma MessageParsed(b: Message, t: seq<byte>, m: Message, d: Depth)
    requires m.Formation? && b.One? && Fits(b) && |Write(b)| < TWO31 && d.depth < d.limit
    ensures Parse([10] + (Varint(|Write(b)|) + Write(b)) + t, m, d) == Parse(t, m.(formation := m.formation + [b]), d)
  {
    hide Parse, Write, Varint, IsVarint, Value, Delimited, ReadVarint;
    var length, payload := Varint(|Write(b)|), Write(b);
    assert [10] + (length + payload) + t == [10] + (length + (payload + t));
    ParseStep(10, length + (payload + t), m, d);
    VarintIsVarint(|payload|);
    VarintFound(length, payload + t, TWO32);
    DelimitedRead(length, payload, t);
    var deeper := d.(depth := d.depth + 1);
    OneMerged(b, [], NO_ONE, deeper);
    NothingParsed(Merge(NO_ONE, b), deeper);
    assert payload + [] == payload;
    assert Merge(NO_ONE, b) == b by { assert [] + b.equip == b.equip; }
    DropPrefix(length + payload, t);
    assert length + payload + t == length + (payload + t);
  }

  lemma {:induction false} MessagesParsed(messages: seq<Message>, t: seq<byte>, m: Message, d: Depth)
    requires m.Formation? && d.depth < d.limit
    requires forall i :: 0 <= i < |messages| ==> messages[i].One? && Fits(messages[i]) && |Write(messages[i])| < TWO31
    ensures Parse(MessageFields(messages) + t, m, d) == Parse(t, m.(formation := m.formation + messages), d)
    decreases messages
  {
    hide Parse, Write, Varint, Fits;
    if messages == [] {
      assert MessageFields(messages) + t == t;
      assert m.formation + messages == m.formation;
    } else {
      var head := [10] + (Varint(|Write(messages[0])|) + Write(messages[0]));
      var rest := MessageFields(messages[1..]) + t;
      assert MessageFields(messages) + t == head + rest;
      MessageParsed(messages[0], rest, m, d);
      MessagesParsed(messages[1..], t, m.(formation := m.formation + [messages[0]]), d);
      assert m.formation + [messages[0]] + messages[1..] == m.formation + messages;
    }
  }

  lemma FormationMerged(b: Message, t: seq<byte>, a: Message, d: Depth)
    requires a.Formation? && b.Formation? && Fits(b) && d.depth < d.limit
    ensures Parse(Write(b) + t, a, d) == Parse(t, Merge(a, b), d)
  {
    hide Parse, Elements, MessageFields, PackedField;
    var s2 := PackedField(26, b.battleFormation) + t;
    var s1 := PackedField(18, b.partner) + s2;
    assert Write(b) + t == MessageFields(b.formation) + s1;
    var m1 := a.(formation := a.formation + b.formation);
    var m2 := m1.(partner := a.partner + b.partner);
    MessagesParsed(b.formation, s1, a, d);
    ListParsed(16, b.partner, s2, m1, d);
    ListParsed(24, b.battleFormation, t, m2, d);
  }

  function Default(like: Message): Message { if like.One? then NO_ONE else NO_FORMATION }

  /** Writing and parsing again gives the message back. */
  lemma ParseWrite(m: Message, d: Depth)
    requires Fits(m) && d.depth < d.limit
    ensures Parse(Write(m), Default(m), d) == Ok(Parsed(m, 0))
  {
    hide Parse, Write, Fits;
    assert Write(m) + [] == Write(m);
    if m.One? {
      OneMerged(m, [], NO_ONE, d);
      assert [] + m.equip == m.equip;
    } else {
      FormationMerged(m, [], NO_FORMATION, d);
      assert [] + m.formation == m.formation && [] + m.partner == m.partner && [] + m.battleFormation == m.battleFormation;
    }
    NothingParsed(m, d);
  }

  /** Two written messages end to end parse to the one merged with the other. */
  lemma ParseConcatenation(a: Message, b: Message, d: Depth)
    requires a.One? == b.One? && Fits(a) && Fits(b) && d.depth < d.limit
    ensures Parse(Write(a) + Write(b), Default(a), d) == Ok(Parsed(Merge(a, b), 0))
  {
    hide Parse, Write, Fits;
    assert Write(b) + [] == Write(b);
    if a.One? {
      OneMerged(a, Write(b), NO_ONE, d);
      assert [] + a.equip == a.equip;
      OneMerged(b, [], a, d);
    } else {
      FormationMerged(a, Write(b), NO_FORMATION, d);
      assert [] + a.formation == a.formation && [] + a.partner == a.partner && [] + a.battleFormation == a.battleFormation;
      FormationMerged(b, [], a, d);
    }
    NothingParsed(Merge(a, b), d);
  }
}