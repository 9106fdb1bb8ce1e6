/**
 The message objects: memoized sizes and `writeTo`. Lists are references, as in the original, so that
 what a message shares with a builder is visible.
 */
module FormationMessages {
  import opened Wire
  import opened ComputeSize
  import opened CodedOutputStream
  import opened FormationWire

  class ArrayList<T> {
    var elems: seq<T>

    constructor (elems: seq<T>)
      ensures this.elems == elems
    {
      this.elems := elems;
    }
  }

  /** A reference to a list, writable or through Collections.unmodifiableList. */
  datatype ListRef<T> = ListRef(list: ArrayList<T>, writable: bool)

  // ----- Sizes, as the generated code adds them up -----

  function ComputeInt64SizeNoTag(v: int64): nat { ComputeRawVarint64Size(ToUInt64(v)) }

  lemma Int64SizeIsLength(v: int64)
    ensures ComputeInt64SizeNoTag(v) == |Varint(ToUInt64(v))|
  {
    Varint64SizeIsLength(ToUInt64(v));
  }

  lemma {:induction false} ElementsSnoc(list: seq<int64>, v: int64)
    ensures Elements(list + [v]) == Elements(list) + Varint(ToUInt64(v))
  {
    hide Varint;
    if list == [] {
      assert [v][1..] == [];
      assert Varint(ToUInt64(v)) + [] == Varint(ToUInt64(v));
    } else {
      ElementsSnoc(list[1..], v);
      assert (list + [v])[1..] == list[1..] + [v];
    }
  }

  /** `computeInt64Size(field, v)` of a number that is set: its one-byte tag and the varint. */
  method NumberSize(v: int64) returns (size: nat)
    ensures size == |NumberField(8, v)|
  {
    hide ComputeRawVarint64Size, Varint;
    Int64SizeIsLength(v);
    return if v != 0 then 1 + ComputeInt64SizeNoTag(v) else 0;
  }

  /** The loop over a repeated field. */
  method DataSize(list: seq<int64>) returns (dataSize: nat)
    ensures dataSize == |Elements(list)|
  {
    hide ComputeInt64SizeNoTag, Varint, Elements;
    dataSize := 0;
    NoElements();
    assert list[..0] == [];
    for i := 0 to |list|
      invariant dataSize == |Elements(list[..i])|
    {
      dataSize := dataSize + ComputeInt64SizeNoTag(list[i]);
      Int64SizeIsLength(list[i]);
      ElementsSnoc(list[..i], list[i]);
      assert list[..i + 1] == list[..i] + [list[i]];
    }
    assert list[..|list|] == list;
  }

  lemma NoElements()
    ensures Elements([]) == []
  {
  }

  /** What a repeated field adds to the size, given the size of its elements. */
  function PackedSize(list: seq<int64>, dataSize: nat): nat
    requires dataSize < TWO31
  {
    dataSize + if list == [] then 0 else 1 + ComputeInt32Size(dataSize)
  }

  lemma PackedSizeIsLength(list: seq<int64>, tag: byte)
    requires |Elements(list)| < TWO31
    ensures PackedSize(list, |Elements(list)|) == |PackedField(tag, list)|
  {
    hide Varint, ComputeInt32Size, Elements;
    Int32SizeIsLength(|Elements(list)|);
    if list == [] { NoElements(); }
  }

  /** The size of a packed payload, and what the field adds to the message. */
  method ListSize(list: seq<int64>, ghost tag: byte) returns (dataSize: nat, size: nat)
    requires |Elements(list)| < TWO31
    ensures dataSize == |Elements(list)| && size == |PackedField(tag, list)|
  {
    hide Elements, PackedField, PackedSize;
    dataSize := DataSize(list);
    PackedSizeIsLength(list, tag);
    size := PackedSize(list, dataSize);
  }

  class PBOneFormation {
    var heroId: int64
    var equip: ListRef<int64>
    var petId: int64
    var horseId: int64
    var mingjiangId: int64
    var equipMemoizedSerializedSize: int
    var memoizedSize: int

    ghost function Value(): Message
      reads this`heroId, this`equip, this`petId, this`horseId, this`mingjiangId, equip.list
    {
      One(heroId, equip.list.elems, petId, horseId, mingjiangId)
    }

    /** A memoized size is right, as long as the list does not change. */
    ghost predicate Valid()
      reads this, equip.list
    {
      memoizedSize == -1 ||
      (memoizedSize == |Write(Value())| && equipMemoizedSerializedSize == |Elements(equip.list.elems)|)
    }

    constructor ()
      ensures Valid() && Value() == NO_ONE && memoizedSize == -1 && !equip.writable && fresh(equip.list)
    {
      heroId, petId, horseId, mingjiangId := 0, 0, 0, 0;
      var empty := new ArrayList<int64>([]);
      equip := ListRef(empty, false);
      equipMemoizedSerializedSize, memoizedSize := -1, -1;
    }

    /** The number of bytes that writeTo will write; the size of the packed payload is kept for it. */
    method GetSerializedSize() returns (size: nat)
      requires Valid() && Fits(Value())
      modifies this`memoizedSize, this`equipMemoizedSerializedSize
      ensures Valid() && Value() == old(Value()) && size == memoizedSize == |Write(Value())|
    {
      hide Elements, NumberField, PackedField, PackedSize;
      if memoizedSize != -1 {
        return memoizedSize;
      }
      size := NumberSize(heroId);
      var dataSize, more := ListSize(equip.list.elems, 18);
      size := size + more;
      equipMemoizedSerializedSize := dataSize;
      var pet := NumberSize(petId);
      var horse := NumberSize(horseId);
      var mingjiang := NumberSize(mingjiangId);
      SameSize(petId, 8, 24);
      SameSize(horseId, 8, 32);
      SameSize(mingjiangId, 8, 40);
      size := size + pet + horse + mingjiang;
      memoizedSize := size;
    }

    method WriteTo(output: CodedOutputStream)
      requires Valid() && Fits(Value()) && output.Valid() && output.output != null
      modifies this`memoizedSize, this`equipMemoizedSerializedSize, output, output.buffer, output.output
      ensures Valid() && Value() == old(Value())
      ensures output.Valid() && output.Written() == old(output.Written()) + Write(Value())
    {
      hide Elements, NumberField, PackedField, Fits;
      ghost var w := output.Written();
      FitsOne(Value());
      var _ := GetSerializedSize();
      WriteNumber(output, 8, heroId);
      WritePacked(output, 18, equip.list.elems, equipMemoizedSerializedSize);
      WriteNumber(output, 24, petId);
      WriteNumber(output, 32, horseId);
      WriteNumber(output, 40, mingjiangId);
      Joined(w, NumberField(8, heroId), PackedField(18, equip.list.elems), NumberField(24, petId),
             NumberField(32, horseId), NumberField(40, mingjiangId));
    }
  }

  lemma FitsOne(m: Message)
    requires m.One? && Fits(m)
    ensures |Elements(m.equip)| < TWO31
  {
  }

  lemma SameSize(v: int64, a: byte, b: byte)
    ensures |NumberField(a, v)| == |NumberField(b, v)|
  {
    hide Varint;
  }

  lemma Joined(w: seq<byte>, a: seq<byte>, b: seq<byte>, c: seq<byte>, d: seq<byte>, e: seq<byte>)
    ensures w + a + b + c + d + e == w + (a + (b + (c + (d + e))))
  {
  }

  /** `output.writeInt64(field, v)` for a number that is set. */
  method WriteNumber(output: CodedOutputStream, tag: byte, v: int64)
    requires output.Valid() && output.output != null && tag < 128
    modifies output, output.buffer, output.output
    ensures output.Valid() && output.Written() == old(output.Written()) + NumberField(tag, v)
  {
    hide Varint;
    ghost var w := output.Written();
    if v != 0 {
      SmallVarint(tag);
      var _ := output.WriteRawVarint32(tag);
      var _ := output.WriteRawVarint64(ToUInt64(v));
      assert w + [tag] + Varint(ToUInt64(v)) == w + ([tag] + Varint(ToUInt64(v)));
    }
  }

  /** A packed field: the tag and the memoized length if there are elements, then the elements. */
  method WritePacked(output: CodedOutputStream, tag: byte, list: seq<int64>, memoized: int)
    requires output.Valid() && output.output != null && tag < 128
    requires memoized == |Elements(list)| < TWO31
    modifies output, output.buffer, output.output
    ensures output.Valid() && output.Written() == old(output.Written()) + PackedField(tag, list)
  {
    hide Varint, Elements;
    if |list| > 0 {
      ghost var w := output.Written();
      SmallVarint(tag);
      var _ := output.WriteRawVarint32(tag);
      var _ := output.WriteRawVarint32(memoized);
      WriteElements(output, list);
      Joined3(w, [tag], Varint(memoized), Elements(list));
    } else {
      NoElements();
      WriteElements(output, list);
    }
  }

  method WriteElements(output: CodedOutputStream, list: seq<int64>)
    requires output.Valid() && output.output != null
    modifies output, output.buffer, output.output
    ensures output.Valid() && output.Written() == old(output.Written()) + Elements(list)
  {
    hide Varint, Elements;
    ghost var w := output.Written();
    NoElements();
    assert list[..0] == [];
    for i := 0 to |list|
      invariant output.Valid() && output.Written() == w + Elements(list[..i])
    {
      var _ := output.WriteRawVarint64(ToUInt64(list[i]));
      ElementsSnoc(list[..i], list[i]);
      assert list[..i + 1] == list[..i] + [list[i]];
      assert w + Elements(list[..i]) + Varint(ToUInt64(list[i])) == w + (Elements(list[..i]) + Varint(ToUInt64(list[i])));
    }
    assert list[..|list|] == list;
  }

  // ----- PBFormation -----

  ghost function Values(ms: seq<PBOneFormation>): (values: seq<Message>)
    reads ms`heroId, ms`equip, ms`petId, ms`horseId, ms`mingjiangId, set m | m in ms :: m.equip.list
    ensures |values| == |ms| && forall i :: 0 <= i < |ms| ==> values[i] == ms[i].Value()
  {
    if ms == [] then [] else [ms[0].Value()] + Values(ms[1..])
  }

  ghost function MessageField(m: Message): seq<byte> { [10] + (Varint(|Write(m)|) + Write(m)) }

  lemma {:induction false} MessageFieldsSnoc(ms: seq<Message>, m: Message)
    ensures MessageFields(ms + [m]) == MessageFields(ms) + MessageField(m)
  {
    hide Varint, Write;
    if ms == [] {
      assert [m][1..] == [];
      assert MessageField(m) + [] == MessageField(m);
    } else {
      MessageFieldsSnoc(ms[1..], m);
      assert (ms + [m])[1..] == ms[1..] + [m];
    }
  }

  lemma NoMessages()
    ensures MessageFields([]) == []
  {
  }

  class PBFormation {
    var formation: ListRef<PBOneFormation>
    var partner: ListRef<int64>
    var battleFormation: ListRef<int64>
    var partnerMemoizedSerializedSize: int
    var battleFormationMemoizedSerializedSize: int
    var memoizedSize: int

    ghost function Value(): Message
      reads this`formation, this`partner, this`battleFormation, formation.list, partner.list, battleFormation.list
      reads Elems()`heroId, Elems()`equip, Elems()`petId, Elems()`horseId, Elems()`mingjiangId
      reads set m | m in Elems() :: m.equip.list
    {
      Formation(Values(Elems()), partner.list.elems, battleFormation.list.elems)
    }

    /** The nested messages. */
    function Elems(): seq<PBOneFormation>
      reads this`formation, formation.list
    {
      formation.list.elems
    }

    ghost predicate Valid()
      reads this, formation.list, partner.list, battleFormation.list, Elems(), set m | m in Elems() :: m.equip.list
    {
      && AllValid(Elems())
      && (memoizedSize == -1 ||
          (memoizedSize == |Write(Value())| && partnerMemoizedSerializedSize == |Elements(partner.list.elems)|
           && battleFormationMemoizedSerializedSize == |Elements(battleFormation.list.elems)|))
    }

    constructor ()
      ensures Valid() && Value() == NO_FORMATION && memoizedSize == -1
      ensures fresh(formation.list) && fresh(partner.list) && fresh(battleFormation.list)
      ensures !formation.writable && !partner.writable && !battleFormation.writable
    {
      var none := new ArrayList<PBOneFormation>([]);
      var empty := new ArrayList<int64>([]);
      formation, partner, battleFormation := ListRef(none, false), ListRef(empty, false), ListRef(empty, false);
      partnerMemoizedSerializedSize, battleFormationMemoizedSerializedSize, memoizedSize := -1, -1, -1;
    }

    /** The number of bytes that writeTo will write; the sizes of the packed payloads are kept for it. */
    method GetSerializedSize() returns (size: nat)
      requires Valid() && Fits(Value())
      modifies this`memoizedSize, this`partnerMemoizedSerializedSize, this`battleFormationMemoizedSerializedSize
      modifies Elems()`memoizedSize, Elems()`equipMemoizedSerializedSize
      ensures Valid() && Value() == old(Value()) && size == memoizedSize == |Write(Value())|
    {
      hide Elements, MessageFields, PackedField, PackedSize, Fits, Values, AllValid, Write;
      if memoizedSize != -1 {
        return memoizedSize;
      }
      var partnerSize, battleSize;
      size, partnerSize, battleSize := ComputeSizes();
      partnerMemoizedSerializedSize, battleFormationMemoizedSerializedSize := partnerSize, battleSize;
      memoizedSize := size;
    }

    method ComputeSizes() returns (size: nat, partnerSize: nat, battleSize: nat)
      requires Valid() && Fits(Value()) && memoizedSize == -1
      modifies Elems()`memoizedSize, Elems()`equipMemoizedSerializedSize
      ensures Valid() && Value() == old(Value()) && size == |Write(Value())|
      ensures partnerSize == |Elements(partner.list.elems)| && battleSize == |Elements(battleFormation.list.elems)|
    {
      hide Elements, MessageFields, PackedField, PackedSize, Fits, Values, AllValid, Write;
      FitsFormation(Value());
      FormationLength(Value());
      size := MessagesSize(Elems(), Values(Elems()));
      var more, rest;
      partnerSize, more := ListSize(partner.list.elems, 18);
      battleSize, rest := ListSize(battleFormation.list.elems, 26);
      size := size + more + rest;
    }

    method WriteTo(output: CodedOutputStream)
      requires Valid() && Fits(Value()) && output.Valid() && output.output != null
      modifies this`memoizedSize, this`partnerMemoizedSerializedSize, this`battleFormationMemoizedSerializedSize
      modifies Elems()`memoizedSize, Elems()`equipMemoizedSerializedSize, output, output.buffer, output.output
      ensures Valid() && Value() == old(Value())
      ensures output.Valid() && output.Written() == old(output.Written()) + Write(Value())
    {
      hide Elements, MessageFields, PackedField, Fits, Values, AllValid;
      ghost var w := output.Written();
      var _ := GetSerializedSize();
      FitsFormation(Value());
      ghost var vs := Values(Elems());
      WriteMessages(output, Elems(), vs);
      WriteLists(output);
      Joined3(w, MessageFields(vs), PackedField(18, partner.list.elems), PackedField(26, battleFormation.list.elems));
    }

    method WriteLists(output: CodedOutputStream)
      requires Valid() && memoizedSize != -1 && output.Valid() && output.output != null
      requires |Elements(partner.list.elems)| < TWO31 && |Elements(battleFormation.list.elems)| < TWO31
      modifies output, output.buffer, output.output
      ensures Valid() && Value() == old(Value())
      ensures output.Valid() &&
        output.Written() == old(output.Written()) + PackedField(18, partner.list.elems) + PackedField(26, battleFormation.list.elems)
    {
      hide Elements, PackedField, Values, AllValid, Write;
      WritePacked(output, 18, partner.list.elems, partnerMemoizedSerializedSize);
      WritePacked(output, 26, battleFormation.list.elems, battleFormationMemoizedSerializedSize);
    }
  }

  lemma FormationLength(m: Message)
    requires m.Formation?
    ensures |Write(m)| == |MessageFields(m.formation)| + |PackedField(18, m.partner)| + |PackedField(26, m.battleFormation)|
  {
  }

  lemma Joined3(w: seq<byte>, a: seq<byte>, b: seq<byte>, c: seq<byte>)
    ensures w + a + b + c == w + (a + (b + c))
  {
  }

  /** Messages whose memoized sizes are right, and what they hold. */
  ghost predicate Holds(ms: seq<PBOneFormation>, vs: seq<Message>)
    reads ms, set m | m in ms :: m.equip.list
  {
    AllValid(ms) && Values(ms) == vs
  }

  ghost predicate AllValid(ms: seq<PBOneFormation>)
    reads ms, set m | m in ms :: m.equip.list
  {
    forall m :: m in ms ==> m.Valid()
  }

  ghost predicate AllFit(vs: seq<Message>) {
    forall i :: 0 <= i < |vs| ==> vs[i].One? && Fits(vs[i]) && |Write(vs[i])| < TWO31
  }

  lemma FitsFormation(m: Message)
    requires m.Formation? && Fits(m)
    ensures AllFit(m.formation) && |Elements(m.partner)| < TWO31 && |Elements(m.battleFormation)| < TWO31
  {
  }

  /** getSerializedSize of a nested message. */
  method SizeAt(ms: seq<PBOneFormation>, i: nat, ghost vs: seq<Message>) returns (size: nat)
    requires i < |ms| && Holds(ms, vs) && AllFit(vs)
    modifies ms`memoizedSize, ms`equipMemoizedSerializedSize
    ensures Holds(ms, vs) == true && size == |Write(vs[i])| < TWO31
  {
    hide Write, Fits, Values;
    size := ms[i].GetSerializedSize();
  }

  /** writeTo of a nested message. */
  method WriteAt(output: CodedOutputStream, ms: seq<PBOneFormation>, i: nat, ghost vs: seq<Message>)
    requires i < |ms| && Holds(ms, vs) && AllFit(vs) && output.Valid() && output.output != null
    modifies ms`memoizedSize, ms`equipMemoizedSerializedSize, output, output.buffer, output.output
    ensures Holds(ms, vs) == true && output.Valid() && output.Written() == old(output.Written()) + Write(vs[i])
  {
    hide Write, Fits, Values;
    ms[i].WriteTo(output);
  }

  /** `computeMessageSize(1, m)` */
  method MessageSize(ms: seq<PBOneFormation>, i: nat, ghost vs: seq<Message>) returns (size: nat)
    requires i < |ms| == |vs| && Holds(ms, vs) && AllFit(vs)
    modifies ms`memoizedSize, ms`equipMemoizedSerializedSize
    ensures Holds(ms, vs) == true && size == |MessageField(vs[i])|
  {
    hide Write, Varint, ComputeRawVarint32Size, Holds, AllFit;
    var length := SizeAt(ms, i, vs);
    Varint32SizeIsLength(length);
    size := 1 + ComputeRawVarint32Size(length) + length;
  }

  /** The nested messages, each with its tag and length. */
  method MessagesSize(ms: seq<PBOneFormation>, ghost vs: seq<Message>) returns (size: nat)
    requires |ms| == |vs| && Holds(ms, vs) && AllFit(vs)
    modifies ms`memoizedSize, ms`equipMemoizedSerializedSize
    ensures Holds(ms, vs) == true && size == |MessageFields(vs)|
  {
    hide MessageFields, MessageField, AllFit, Holds;
    size := 0;
    NoMessages();
    assert vs[..0] == [];
    for i := 0 to |ms|
      invariant Holds(ms, vs) && size == |MessageFields(vs[..i])|
    {
      var more := MessageSize(ms, i, vs);
      size := size + more;
      MessageFieldsSnoc(vs[..i], vs[i]);
      assert vs[..i + 1] == vs[..i] + [vs[i]];
    }
    assert vs[..|vs|] == vs;
  }

  /** Tag and length of a nested message. */
  method WriteHead(output: CodedOutputStream, size: nat, ghost ms: seq<PBOneFormation>, ghost vs: seq<Message>)
    requires output.Valid() && output.output != null && size < TWO31 && Holds(ms, vs)
    modifies output, output.buffer, output.output
    ensures Holds(ms, vs) == true && output.Valid() && output.Written() == old(output.Written()) + ([10] + Varint(size))
  {
    hide Varint, Values;
    ghost var w := output.Written();
    SmallVarint(10);
    var _ := output.WriteRawVarint32(10);
    var _ := output.WriteRawVarint32(size);
    assert w + [10] + Varint(size) == w + ([10] + Varint(size));
  }

  /** `output.writeMessage(1, m)` */
  method WriteMessage(output: CodedOutputStream, ms: seq<PBOneFormation>, i: nat, ghost vs: seq<Message>)
    requires i < |ms| == |vs| && Holds(ms, vs) && AllFit(vs) && output.Valid() && output.output != null
    modifies ms`memoizedSize, ms`equipMemoizedSerializedSize, output, output.buffer, output.output
    ensures Holds(ms, vs) == true && output.Valid() && output.Written() == old(output.Written()) + MessageField(vs[i])
  {
    hide Write, Varint, Holds, AllFit;
    ghost var w := output.Written();
    var size := SizeAt(ms, i, vs);
    WriteHead(output, size, ms, vs);
    WriteAt(output, ms, i, vs);
    assert w + ([10] + Varint(size)) + Write(vs[i]) == w + ([10] + (Varint(size) + Write(vs[i])));
  }

  method WriteMessages(output: CodedOutputStream, ms: seq<PBOneFormation>, ghost vs: seq<Message>)
    requires |ms| == |vs| && Holds(ms, vs) && AllFit(vs) && output.Valid() && output.output != null
    modifies ms`memoizedSize, ms`equipMemoizedSerializedSize, output, output.buffer, output.output
    ensures Holds(ms, vs) == true && output.Valid() && output.Written() == old(output.Written()) + MessageFields(vs)
  {
    hide MessageFields, MessageField, AllFit, Holds;
    ghost var w := output.Written();
    NoMessages();
    assert vs[..0] == [];
    for i := 0 to |ms|
      invariant Holds(ms, vs) && output.Valid() && output.Written() == w + MessageFields(vs[..i])
    {
      WriteMessage(output, ms, i, vs);
      MessageFieldsSnoc(vs[..i], vs[i]);
      assert vs[..i + 1] == vs[..i] + [vs[i]];
      assert w + MessageFields(vs[..i]) + MessageField(vs[i]) == w + (MessageFields(vs[..i]) + MessageField(vs[i]));
    }
    assert vs[..|vs|] == vs;
  }
}