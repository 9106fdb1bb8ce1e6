/**
 PBOneFormation.Builder: copy on write under a bit of `bitField0_`. However calls are mixed, every message
 that was built, or merged from, keeps the value it had; the builder behaves as if messages were values.
 */
module FormationBuilder {
  import opened Wire
  import opened CodedOutputStream
  import opened FormationWire
  import opened FormationMessages
  import opened FormationParser

  class Builder {
    var equipIsMutable: bool    // bit 0x00000002 of bitField0_
    var heroId: int64
    var equip: ListRef<int64>
    var petId: int64
    var horseId: int64
    var mingjiangId: int64

    ghost function Value(): (m: Message)
      reads this, equip.list
      ensures m.One?
    {
      One(heroId, equip.list.elems, petId, horseId, mingjiangId)
    }

    /** The bit is set only on a list that may be written to ... */
    ghost predicate Valid()
      reads this
    {
      equipIsMutable ==> equip.writable
    }

    /** ... and that nobody else holds: the only list this builder will ever write to. */
    ghost function Owned(): set<ArrayList<int64>>
      reads this
    {
      if equipIsMutable then {equip.list} else {}
    }

    constructor ()
      ensures Valid() && Owned() == {} && Value() == NO_ONE && fresh(equip.list)
    {
      heroId, petId, horseId, mingjiangId := 0, 0, 0, 0;
      var empty := new ArrayList<int64>([]);
      equip, equipIsMutable := ListRef(empty, false), false;
    }

    /** The guard of every mutation: a private copy, unless there is one already. */
    method EnsureEquipIsMutable()
      requires Valid()
      modifies this`equip, this`equipIsMutable
      ensures Valid() && equipIsMutable && equip.list.elems == old(equip.list.elems)
      ensures fresh(Owned() - old(Owned()))
    {
      if !equipIsMutable {
        var copy := new ArrayList<int64>(equip.list.elems);
        equip, equipIsMutable := ListRef(copy, true), true;
      }
    }

    method AddEquip(value: int64)
      requires Valid()
      modifies this, Owned()
      ensures Valid() && fresh(Owned() - old(Owned()))
      ensures Value() == SetList(old(Value()), 16, ListOf(old(Value()), 16) + [value])
    {
      EnsureEquipIsMutable();
      Store(equip, equip.list.elems + [value]);
    }

    /** Out of range is an exception of the list, behind the guard. */
    method SetEquip(index: nat, value: int64) returns (ok: bool)
      requires Valid()
      modifies this, Owned()
      ensures Valid() && fresh(Owned() - old(Owned()))
      ensures ok == (index < |ListOf(old(Value()), 16)|)
      ensures Value() == if ok then SetList(old(Value()), 16, ListOf(old(Value()), 16)[index := value]) else old(Value())
    {
      EnsureEquipIsMutable();
      ok := index < |equip.list.elems|;
      if !ok {
        return;
      }
      Store(equip, equip.list.elems[index := value]);
    }

    method AddAllEquip(values: seq<int64>)
      requires Valid()
      modifies this, Owned()
      ensures Valid() && fresh(Owned() - old(Owned()))
      ensures Value() == SetList(old(Value()), 16, ListOf(old(Value()), 16) + values)
    {
      EnsureEquipIsMutable();
      Store(equip, equip.list.elems + values);
    }

    method ClearEquip()
      requires Valid()
      modifies this
      ensures Valid() && Owned() == {} && Value() == SetList(old(Value()), 16, [])
    {
      var empty := new ArrayList<int64>([]);
      equip, equipIsMutable := ListRef(empty, false), false;
    }

    /** setHeroId, setPetId, setHorseId and setMingjiangId, by the tag of the field. */
    method SetNumberField(tag: int, value: int64)
      requires Valid() && IsNumber(Value(), tag)
      modifies this`heroId, this`petId, this`horseId, this`mingjiangId
      ensures Valid() && Value() == SetNumber(old(Value()), tag, value)
    {
      if tag == 8 {
        heroId := value;
      } else if tag == 24 {
        petId := value;
      } else if tag == 32 {
        horseId := value;
      } else {
        mingjiangId := value;
      }
    }

    method Clear()
      requires Valid()
      modifies this
      ensures Valid() && Owned() == {} && Value() == NO_ONE
    {
      heroId := 0;
      var empty := new ArrayList<int64>([]);
      equip, equipIsMutable := ListRef(empty, false), false;
      petId, horseId, mingjiangId := 0, 0, 0;
    }

    /** The list goes to the message, and with it the right to write to it. */
    method BuildPartial() returns (result: PBOneFormation)
      requires Valid()
      modifies this`equip, this`equipIsMutable
      ensures Valid() && Owned() == {} && fresh(result) && result.Valid()
      ensures Value() == old(Value()) && result.Value() == old(Value())
      ensures result.equip.list == equip.list == old(equip.list)
    {
      result := new PBOneFormation();
      result.heroId := heroId;
      if equipIsMutable {
        equip := ListRef(equip.list, false);
        equipIsMutable := false;
      }
      result.equip := equip;
      result.petId := petId;
      result.horseId := horseId;
      result.mingjiangId := mingjiangId;
    }

    /** The list is shared if there was none, else copied element by element. */
    method MergeEquip(other: ListRef<int64>)
      requires Valid() && other.list !in Owned()
      modifies this`equip, this`equipIsMutable, Owned()
      ensures Valid() && fresh(Owned() - old(Owned()))
      ensures equip.list.elems == old(equip.list.elems) + old(other.list.elems)
    {
      if other.list.elems != [] {
        if equip.list.elems == [] {
          equip, equipIsMutable := ListRef(other.list, false), false;
        } else {
          EnsureEquipIsMutable();
          Store(equip, equip.list.elems + other.list.elems);
        }
      }
    }

    /** Numbers that are set overwrite. */
    method MergeNumbers(other: PBOneFormation)
      modifies this`heroId, this`petId, this`horseId, this`mingjiangId
      ensures heroId == Set(old(heroId), other.heroId) && petId == Set(old(petId), other.petId)
      ensures horseId == Set(old(horseId), other.horseId) && mingjiangId == Set(old(mingjiangId), other.mingjiangId)
    {
      if other.heroId != 0 {
        heroId := other.heroId;
      }
      if other.petId != 0 {
        petId := other.petId;
      }
      if other.horseId != 0 {
        horseId := other.horseId;
      }
      if other.mingjiangId != 0 {
        mingjiangId := other.mingjiangId;
      }
    }

    method MergeFrom(other: PBOneFormation)
      requires Valid() && other.equip.list !in Owned()
      modifies this, Owned()
      ensures Valid() && fresh(Owned() - old(Owned()))
      ensures Value() == Merge(old(Value()), old(other.Value()))
    {
      MergeNumbers(other);
      MergeEquip(other.equip);
    }
  }

  /** Any change of a list; through a read-only reference it would be an UnsupportedOperationException. */
  method Store<T>(ref: ListRef<T>, elems: seq<T>)
    requires ref.writable
    modifies ref.list
    ensures ref.list.elems == elems
  {
    ref.list.elems := elems;
  }

  // ----- Every sequence of calls -----

  datatype Op =
    | OpSetNumber(tag: int, value: int64) | OpAddEquip(value: int64) | OpSetEquip(index: nat, value: int64)
    | OpAddAllEquip(values: seq<int64>) | OpClearEquip | OpClear | OpBuild | OpMerge(which: nat)

  /** What the builder holds and which messages there are, as plain values. */
  datatype State = State(current: Message, messages: seq<Message>)

  /** What a call means when messages are values. Calls out of range throw and change nothing. */
  function Apply(s: State, op: Op): (t: State)
    requires s.current.One? && forall i :: 0 <= i < |s.messages| ==> s.messages[i].One?
    ensures t.current.One? && forall i :: 0 <= i < |t.messages| ==> t.messages[i].One?
  {
    match op
    case OpSetNumber(tag, value) => if IsNumber(s.current, tag) then s.(current := SetNumber(s.current, tag, value)) else s
    case OpAddEquip(value) => s.(current := s.current.(equip := s.current.equip + [value]))
    case OpSetEquip(index, value) =>
      if index < |s.current.equip| then s.(current := s.current.(equip := s.current.equip[index := value])) else s
    case OpAddAllEquip(values) => s.(current := s.current.(equip := s.current.equip + values))
    case OpClearEquip => s.(current := s.current.(equip := []))
    case OpClear => s.(current := NO_ONE)
    case OpBuild => s.(messages := s.messages + [s.current])
    case OpMerge(which) => if which < |s.messages| then s.(current := Merge(s.current, s.messages[which])) else s
  }

  function ApplyAll(s: State, ops: seq<Op>): State
    requires s.current.One? && forall i :: 0 <= i < |s.messages| ==> s.messages[i].One?
    decreases ops
  {
    if ops == [] then s else ApplyAll(Apply(s, ops[0]), ops[1..])
  }

  /** The builder and the messages stand for `s`, and the builder owns none of the messages' lists. */
  ghost predicate Mirrors(builder: Builder, messages: seq<PBOneFormation>, s: State)
    reads builder, builder.equip.list, messages, set m | m in messages :: m.equip.list
  {
    && builder.Valid() && builder.Value() == s.current && |messages| == |s.messages|
    && (forall i :: 0 <= i < |messages| ==> messages[i].Value() == s.messages[i])
    && (forall i :: 0 <= i < |messages| ==> messages[i].equip.list !in builder.Owned())
  }

  method Perform(builder: Builder, messages: seq<PBOneFormation>, op: Op, ghost s: State) returns (more: seq<PBOneFormation>)
    requires Mirrors(builder, messages, s)
    modifies builder, builder.Owned()
    ensures Mirrors(builder, more, Apply(s, op)) == true && fresh(builder.Owned() - old(builder.Owned()))
    ensures messages <= more
  {
    more := messages;
    match op {
      case OpSetNumber(tag, value) =>
        if tag == 8 || tag == 24 || tag == 32 || tag == 40 {
          builder.SetNumberField(tag, value);
        }
      case OpAddEquip(value) => builder.AddEquip(value);
      case OpSetEquip(index, value) => var _ := builder.SetEquip(index, value);
      case OpAddAllEquip(values) => builder.AddAllEquip(values);
      case OpClearEquip => builder.ClearEquip();
      case OpClear => builder.Clear();
      case OpBuild =>
        var result := builder.BuildPartial();
        more := messages + [result];
      case OpMerge(which) =>
        if which < |messages| {
          builder.MergeFrom(messages[which]);
        }
    }
  }

  /**
   Whatever is called in whatever order on a builder, starting with any messages to merge from: in the end
   every message, given or built, has the value it had when it was built, and so has the builder.
   */
  method Run(given: seq<PBOneFormation>, ops: seq<Op>) returns (builder: Builder, messages: seq<PBOneFormation>)
    ensures given <= messages
    ensures Mirrors(builder, messages, ApplyAll(State(NO_ONE, Values(given)), ops)) == true
    ensures Values(given) == old(Values(given))
  {
    builder := new Builder();
    messages := given;
    ghost var s := State(NO_ONE, Values(given));
    var i := 0;
    assert ops[0..] == ops;
    while i < |ops|
      invariant 0 <= i <= |ops| && fresh(builder) && fresh(builder.Owned()) && given <= messages
      invariant s.current.One? && forall k :: 0 <= k < |s.messages| ==> s.messages[k].One?
      invariant Mirrors(builder, messages, s)
      invariant ApplyAll(s, ops[i..]) == ApplyAll(State(NO_ONE, old(Values(given))), ops)
    {
      assert ops[i..][0] == ops[i] && ops[i..][1..] == ops[i + 1..];
      messages := Perform(builder, messages, ops[i], s);
      s := Apply(s, ops[i]);
      i := i + 1;
    }
  }

  // ----- What the calls of a builder make -----

  function AddEach(values: seq<int64>): (ops: seq<Op>)
    ensures |ops| == |values|
  {
    seq(|values|, i requires 0 <= i < |values| => OpAddEquip(values[i]))
  }

  lemma {:induction false} EachAdded(s: State, values: seq<int64>, rest: seq<Op>)
    requires s.current.One? && forall i :: 0 <= i < |s.messages| ==> s.messages[i].One?
    ensures ApplyAll(s, AddEach(values) + rest) == ApplyAll(s.(current := s.current.(equip := s.current.equip + values)), rest)
    decreases values
  {
    if values == [] {
      assert AddEach(values) + rest == rest && s.current.equip + values == s.current.equip;
    } else {
      assert (AddEach(values) + rest)[1..] == AddEach(values[1..]) + rest;
      EachAdded(Apply(s, OpAddEquip(values[0])), values[1..], rest);
      assert s.current.equip + [values[0]] + values[1..] == s.current.equip + values;
    }
  }

  lemma NumbersSet(m: Message, heroId: int64, petId: int64, horseId: int64, mingjiangId: int64, rest: seq<Op>)
    requires m.One?
    ensures ApplyAll(State(m, []), [OpSetNumber(8, heroId), OpSetNumber(24, petId), OpSetNumber(32, horseId), OpSetNumber(40, mingjiangId)] + rest)
         == ApplyAll(State(One(heroId, m.equip, petId, horseId, mingjiangId), []), rest)
  {
    hide ApplyAll;
    var a, b, c, d := OpSetNumber(8, heroId), OpSetNumber(24, petId), OpSetNumber(32, horseId), OpSetNumber(40, mingjiangId);
    var s1, s2 := One(heroId, m.equip, m.petId, m.horseId, m.mingjiangId), One(heroId, m.equip, petId, m.horseId, m.mingjiangId);
    var s3 := One(heroId, m.equip, petId, horseId, m.mingjiangId);
    ApplyFirst(State(m, []), a, [b, c, d] + rest);
    ApplyFirst(State(s1, []), b, [c, d] + rest);
    ApplyFirst(State(s2, []), c, [d] + rest);
    ApplyFirst(State(s3, []), d, rest);
    assert [a, b, c, d] + rest == [a] + ([b, c, d] + rest);
    assert [b, c, d] + rest == [b] + ([c, d] + rest);
    assert [c, d] + rest == [c] + ([d] + rest);
  }

  lemma ApplyFirst(s: State, op: Op, rest: seq<Op>)
    requires s.current.One? && forall i :: 0 <= i < |s.messages| ==> s.messages[i].One?
    ensures ApplyAll(s, [op] + rest) == ApplyAll(Apply(s, op), rest)
  {
    hide Apply;
    assert ([op] + rest)[1..] == rest;
  }

  lemma BuiltAtLast(m: Message)
    requires m.One?
    ensures ApplyAll(State(m, []), [OpBuild]) == State(m, [m])
  {
    assert [OpBuild][1..] == [];
  }

  /** Setting the four numbers and adding the elements one by one gives just that message, in the order of the calls. */
  method BuildInOrder(heroId: int64, equip: seq<int64>, petId: int64, horseId: int64, mingjiangId: int64) returns (m: PBOneFormation)
    ensures m.Value() == One(heroId, equip, petId, horseId, mingjiangId)
    ensures m.heroId == heroId && m.equip.list.elems == equip
    ensures m.petId == petId && m.horseId == horseId && m.mingjiangId == mingjiangId
  {
    hide Apply, ApplyAll, AddEach;
    var ops := [OpSetNumber(8, heroId), OpSetNumber(24, petId), OpSetNumber(32, horseId), OpSetNumber(40, mingjiangId)]
      + (AddEach(equip) + [OpBuild]);
    NumbersSet(NO_ONE, heroId, petId, horseId, mingjiangId, AddEach(equip) + [OpBuild]);
    EachAdded(State(One(heroId, [], petId, horseId, mingjiangId), []), equip, [OpBuild]);
    assert [] + equip == equip;
    BuiltAtLast(One(heroId, equip, petId, horseId, mingjiangId));
    assert Values([]) == [];
    var _, messages := Run([], ops);
    m := messages[0];
  }
}
