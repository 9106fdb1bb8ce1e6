/**
 PBFormation.Builder without a nested field builder: three lists, each copied on write under its own bit of
 `bitField0_`. Again every message that was built, or merged from, keeps what it holds, and the builder
 behaves as if lists were values. The nested messages themselves are only passed on, never changed.
 */
module NestedBuilder {
  import opened Wire
  import opened FormationWire
  import opened FormationMessages
  import FormationBuilder

  /** What a formation holds, with its nested messages by reference. */
  datatype Parts = Parts(formation: seq<PBOneFormation>, partner: seq<int64>, battleFormation: seq<int64>)

  const NO_PARTS := Parts([], [], [])

  ghost function PartsOf(m: PBFormation): Parts
    reads m, m.formation.list, m.partner.list, m.battleFormation.list
  {
    Parts(m.Elems(), m.partner.list.elems, m.battleFormation.list.elems)
  }

  function MergeParts(a: Parts, b: Parts): Parts {
    Parts(a.formation + b.formation, a.partner + b.partner, a.battleFormation + b.battleFormation)
  }

  /** partner under tag 16, battle_formation under tag 24. */
  function NumberList(p: Parts, tag: int): seq<int64> { if tag == 16 then p.partner else p.battleFormation }

  function PutNumbers(p: Parts, tag: int, list: seq<int64>): Parts {
    if tag == 16 then p.(partner := list) else p.(battleFormation := list)
  }

  class Builder {
    var formationIsMutable: bool          // bit 0x00000001 of bitField0_
    var partnerIsMutable: bool            // bit 0x00000002
    var battleFormationIsMutable: bool    // bit 0x00000004
    var formation: ListRef<PBOneFormation>
    var partner: ListRef<int64>
    var battleFormation: ListRef<int64>

    ghost function Contents(): Parts
      reads this`formation, this`partner, this`battleFormation, formation.list, partner.list, battleFormation.list
    {
      Parts(formation.list.elems, partner.list.elems, battleFormation.list.elems)
    }

    /** The lists of numbers that this builder may write to; nobody else holds them. */
    ghost function Owned(): set<ArrayList<int64>>
      reads this`partner, this`battleFormation, this`partnerIsMutable, this`battleFormationIsMutable
    {
      (if partnerIsMutable then {partner.list} else {}) + if battleFormationIsMutable then {battleFormation.list} else {}
    }

    /** ... and the list of messages, if it may write to that. */
    ghost function OwnedFormation(): set<ArrayList<PBOneFormation>>
      reads this`formation, this`formationIsMutable
    {
      if formationIsMutable then {formation.list} else {}
    }

    /** A bit is set only on a list that may be written to, and that is not the list of another field. */
    ghost predicate Valid()
      reads this
    {
      && (formationIsMutable ==> formation.writable)
      && (partnerIsMutable ==> partner.writable)
      && (battleFormationIsMutable ==> battleFormation.writable)
      && (partnerIsMutable || battleFormationIsMutable ==> partner.list != battleFormation.list)
    }

    constructor ()
      ensures Valid() && Owned() == {} && OwnedFormation() == {} && Contents() == NO_PARTS
    {
      var none := new ArrayList<PBOneFormation>([]);
      var empty := new ArrayList<int64>([]);
      formation, partner, battleFormation := ListRef(none, false), ListRef(empty, false), ListRef(empty, false);
      formationIsMutable, partnerIsMutable, battleFormationIsMutable := false, false, false;
    }

    method EnsureFormationIsMutable()
      requires Valid()
      modifies this`formation, this`formationIsMutable
      ensures Valid() && formationIsMutable && Contents() == old(Contents())
      ensures fresh(OwnedFormation() - old(OwnedFormation()))
    {
      if !formationIsMutable {
        var copy := new ArrayList<PBOneFormation>(formation.list.elems);
        formation, formationIsMutable := ListRef(copy, true), true;
      }
    }

    method EnsurePartnerIsMutable()
      requires Valid()
      modifies this`partner, this`partnerIsMutable
      ensures Valid() && partnerIsMutable && Contents() == old(Contents())
      ensures fresh(Owned() - old(Owned()))
    {
      if !partnerIsMutable {
        var copy := new ArrayList<int64>(partner.list.elems);
        partner, partnerIsMutable := ListRef(copy, true), true;
      }
    }

    method EnsureBattleFormationIsMutable()
      requires Valid()
      modifies this`battleFormation, this`battleFormationIsMutable
      ensures Valid() && battleFormationIsMutable && Contents() == old(Contents())
      ensures fresh(Owned() - old(Owned()))
    {
      if !battleFormationIsMutable {
        var copy := new ArrayList<int64>(battleFormation.list.elems);
        battleFormation, battleFormationIsMutable := ListRef(copy, true), true;
      }
    }

    /** Out of range, here and below, is an exception of the list, behind the guard. */
    method SetFormation(index: nat, value: PBOneFormation) returns (ok: bool)
      requires Valid()
      modifies this`formation, this`formationIsMutable, OwnedFormation()
      ensures Valid() && fresh(OwnedFormation() - old(OwnedFormation()))
      ensures ok == (index < |old(Contents()).formation|)
      ensures Contents() == if ok then old(Contents()).(formation := old(Contents()).formation[index := value]) else old(Contents())
    {
      EnsureFormationIsMutable();
      ok := index < |formation.list.elems|;
      if ok {
        FormationBuilder.Store(formation, formation.list.elems[index := value]);
      }
    }

    method AddFormation(value: PBOneFormation)
      requires Valid()
      modifies this`formation, this`formationIsMutable, OwnedFormation()
      ensures Valid() && fresh(OwnedFormation() - old(OwnedFormation()))
      ensures Contents() == old(Contents()).(formation := old(Contents()).formation + [value])
    {
      EnsureFormationIsMutable();
      FormationBuilder.Store(formation, formation.list.elems + [value]);
    }

    /** addFormation at an index. */
    method InsertFormation(index: nat, value: PBOneFormation) returns (ok: bool)
      requires Valid()
      modifies this`formation, this`formationIsMutable, OwnedFormation()
      ensures Valid() && fresh(OwnedFormation() - old(OwnedFormation()))
      ensures ok == (index <= |old(Contents()).formation|)
      ensures var was := old(Contents());
        Contents() == if ok then was.(formation := was.formation[..index] + [value] + was.formation[index..]) else was
    {
      EnsureFormationIsMutable();
      ok := index <= |formation.list.elems|;
      if ok {
        FormationBuilder.Store(formation, formation.list.elems[..index] + [value] + formation.list.elems[index..]);
      }
    }

    method AddAllFormation(values: seq<PBOneFormation>)
      requires Valid()
      modifies this`formation, this`formationIsMutable, OwnedFormation()
      ensures Valid() && fresh(OwnedFormation() - old(OwnedFormation()))
      ensures Contents() == old(Contents()).(formation := old(Contents()).formation + values)
    {
      EnsureFormationIsMutable();
      FormationBuilder.Store(formation, formation.list.elems + values);
    }

    method RemoveFormation(index: nat) returns (ok: bool)
      requires Valid()
      modifies this`formation, this`formationIsMutable, OwnedFormation()
      ensures Valid() && fresh(OwnedFormation() - old(OwnedFormation()))
      ensures ok == (index < |old(Contents()).formation|)
      ensures var was := old(Contents());
        Contents() == if ok then was.(formation := was.formation[..index] + was.formation[index + 1..]) else was
    {
      EnsureFormationIsMutable();
      ok := index < |formation.list.elems|;
      if ok {
        FormationBuilder.Store(formation, formation.list.elems[..index] + formation.list.elems[index + 1..]);
      }
    }

    /** setPartner and setBattleFormation, by the tag of a single element. */
    method SetNumber(tag: int, index: nat, value: int64) returns (ok: bool)
      requires Valid()
      modifies this`partner, this`partnerIsMutable, this`battleFormation, this`battleFormationIsMutable, Owned()
      ensures Valid() && fresh(Owned() - old(Owned()))
      ensures ok == (index < |NumberList(old(Contents()), tag)|)
      ensures tag == 16 && ok ==> Contents() == old(Contents()).(partner := old(Contents()).partner[index := value])
      ensures tag != 16 && ok ==> Contents() == old(Contents()).(battleFormation := old(Contents()).battleFormation[index := value])
      ensures !ok ==> Contents() == old(Contents())
    {
      if tag == 16 {
        EnsurePartnerIsMutable();
        ok := index < |partner.list.elems|;
        if ok {
          FormationBuilder.Store(partner, partner.list.elems[index := value]);
        }
      } else {
        EnsureBattleFormationIsMutable();
        ok := index < |battleFormation.list.elems|;
        if ok {
          FormationBuilder.Store(battleFormation, battleFormation.list.elems[index := value]);
        }
      }
    }

    /** addPartner and addAllPartner, and the same for the battle formation. */
    method AddNumbers(tag: int, values: seq<int64>)
      requires Valid()
      modifies this`partner, this`partnerIsMutable, this`battleFormation, this`battleFormationIsMutable, Owned()
      ensures Valid() && fresh(Owned() - old(Owned()))
      ensures tag == 16 ==> Contents() == old(Contents()).(partner := old(Contents()).partner + values)
      ensures tag != 16 ==> Contents() == old(Contents()).(battleFormation := old(Contents()).battleFormation + values)
    {
      if tag == 16 {
        EnsurePartnerIsMutable();
        FormationBuilder.Store(partner, partner.list.elems + values);
      } else {
        EnsureBattleFormationIsMutable();
        FormationBuilder.Store(battleFormation, battleFormation.list.elems + values);
      }
    }

    method ClearFormation()
      requires Valid()
      modifies this`formation, this`formationIsMutable
      ensures Valid() && OwnedFormation() == {} && Contents() == old(Contents()).(formation := [])
    {
      var none := new ArrayList<PBOneFormation>([]);
      formation, formationIsMutable := ListRef(none, false), false;
    }

    /** clearPartner and clearBattleFormation. */
    method ClearNumbers(tag: int)
      requires Valid()
      modifies this`partner, this`partnerIsMutable, this`battleFormation, this`battleFormationIsMutable
      ensures Valid() && Owned() <= old(Owned())
      ensures Contents() == if tag == 16 then old(Contents()).(partner := []) else old(Contents()).(battleFormation := [])
      ensures tag == 16 ==> !partnerIsMutable && battleFormationIsMutable == old(battleFormationIsMutable)
      ensures tag != 16 ==> !battleFormationIsMutable && partnerIsMutable == old(partnerIsMutable)
    {
      var empty := new ArrayList<int64>([]);
      if tag == 16 {
        partner, partnerIsMutable := ListRef(empty, false), false;
      } else {
        battleFormation, battleFormationIsMutable := ListRef(empty, false), false;
      }
    }

    method Clear()
      requires Valid()
      modifies this
      ensures Valid() && Owned() == {} && OwnedFormation() == {} && Contents() == NO_PARTS
    {
      ClearFormation();
      ClearNumbers(16);
      ClearNumbers(24);
    }

    /** The lists go to the message, and with them the right to write to them. */
    method BuildPartial() returns (result: PBFormation)
      requires Valid()
      modifies this
      ensures Valid() && Owned() == {} && OwnedFormation() == {} && fresh(result)
      ensures Contents() == PartsOf(result) == old(Contents())
      ensures result.memoizedSize == -1
    {
      result := new PBFormation();
      if formationIsMutable {
        formation, formationIsMutable := ListRef(formation.list, false), false;
      }
      result.formation := formation;
      if partnerIsMutable {
        partner, partnerIsMutable := ListRef(partner.list, false), false;
      }
      result.partner := partner;
      if battleFormationIsMutable {
        battleFormation, battleFormationIsMutable := ListRef(battleFormation.list, false), false;
      }
      result.battleFormation := battleFormation;
    }

    /** Each list is shared if there was none, else the other's elements are added to a private one. */
    method MergeFrom(other: PBFormation)
      requires Valid() && Apart(this, other)
      modifies this, Owned(), OwnedFormation()
      ensures Valid() && fresh(Owned() - old(Owned())) && fresh(OwnedFormation() - old(OwnedFormation()))
      ensures var a, b := old(Contents()), old(PartsOf(other));
        Contents() == Parts(a.formation + b.formation, a.partner + b.partner, a.battleFormation + b.battleFormation)
    {
      MergeMessages(other);
      MergePartner(other);
      MergeBattleFormation(other);
    }

    method MergeMessages(other: PBFormation)
      requires Valid() && Apart(this, other)
      modifies this`formation, this`formationIsMutable, OwnedFormation()
      ensures Valid() && fresh(OwnedFormation() - old(OwnedFormation()))
      ensures Contents() == old(Contents()).(formation := old(Contents()).formation + old(other.formation.list.elems))
    {
      if other.formation.list.elems != [] {
        if formation.list.elems == [] {
          formation, formationIsMutable := ListRef(other.formation.list, false), false;
        } else {
          EnsureFormationIsMutable();
          FormationBuilder.Store(formation, formation.list.elems + other.formation.list.elems);
        }
      }
    }

    method MergePartner(other: PBFormation)
      requires Valid() && Apart(this, other)
      modifies this`partner, this`partnerIsMutable, Owned()
      ensures Valid() && fresh(Owned() - old(Owned())) && Apart(this, other) == true
      ensures Contents() == old(Contents()).(partner := old(Contents()).partner + old(other.partner.list.elems))
      ensures other.battleFormation.list.elems == old(other.battleFormation.list.elems)
    {
      if other.partner.list.elems != [] {
        if partner.list.elems == [] {
          partner, partnerIsMutable := ListRef(other.partner.list, false), false;
        } else {
          EnsurePartnerIsMutable();
          FormationBuilder.Store(partner, partner.list.elems + other.partner.list.elems);
        }
      }
    }

    method MergeBattleFormation(other: PBFormation)
      requires Valid() && Apart(this, other)
      modifies this`battleFormation, this`battleFormationIsMutable, Owned()
      ensures Valid() && fresh(Owned() - old(Owned()))
      ensures Contents() ==
        old(Contents()).(battleFormation := old(Contents()).battleFormation + old(other.battleFormation.list.elems))
    {
      if other.battleFormation.list.elems != [] {
        if battleFormation.list.elems == [] {
          battleFormation, battleFormationIsMutable := ListRef(other.battleFormation.list, false), false;
        } else {
          EnsureBattleFormationIsMutable();
          FormationBuilder.Store(battleFormation, battleFormation.list.elems + other.battleFormation.list.elems);
        }
      }
    }
  }

  /** What these parts are worth on the wire. */
  ghost function ValueOf(p: Parts): Message
    reads p.formation`heroId, p.formation`equip, p.formation`petId, p.formation`horseId, p.formation`mingjiangId
    reads set m | m in p.formation :: m.equip.list
  {
    Formation(Values(p.formation), p.partner, p.battleFormation)
  }

  /** Merging is what the wire format calls merging. */
  lemma MergeMeans(a: Parts, b: Parts)
    ensures ValueOf(MergeParts(a, b)) == Merge(ValueOf(a), ValueOf(b))
  {
    assert Values(a.formation + b.formation) == Values(a.formation) + Values(b.formation);
  }

  lemma NothingMerged(a: Parts)
    ensures MergeParts(NO_PARTS, a) == a
  {
  }

  lemma ValueOfParts(m: PBFormation)
    ensures m.Value() == ValueOf(PartsOf(m))
  {
  }

  /** The builder may write to none of a message's lists. */
  ghost predicate Apart(builder: Builder, m: PBFormation)
    reads builder, m
  {
    && m.formation.list !in builder.OwnedFormation()
    && m.partner.list !in builder.Owned() && m.battleFormation.list !in builder.Owned()
  }

  // ----- Every sequence of calls -----

  datatype FormationOp =
    | SetMessage(index: nat, which: nat) | AddMessage(which: nat) | InsertMessage(index: nat, which: nat)
    | AddMessages(from: nat, to: nat) | RemoveMessage(index: nat) | ClearMessages

  datatype NumberOp = SetValue(index: nat, value: int64) | AddValues(values: seq<int64>) | ClearValues

  datatype Op =
    | OpFormation(formationOp: FormationOp) | OpNumbers(tag: int, numberOp: NumberOp) | OpClear | OpBuild | OpMerge(which: nat)

  /** What the builder holds and which messages there are, as plain values. */
  datatype State = State(current: Parts, messages: seq<Parts>)

  /** What becomes of the list of nested messages. Calls out of range throw and change nothing. */
  function ApplyFormation(list: seq<PBOneFormation>, ones: seq<PBOneFormation>, op: FormationOp): seq<PBOneFormation> {
    match op
    case SetMessage(index, which) => if index < |list| && which < |ones| then list[index := ones[which]] else list
    case AddMessage(which) => if which < |ones| then list + [ones[which]] else list
    case InsertMessage(index, which) =>
      if index <= |list| && which < |ones| then list[..index] + [ones[which]] + list[index..] else list
    case AddMessages(from, to) => if from <= to <= |ones| then list + ones[from..to] else list
    case RemoveMessage(index) => if index < |list| then list[..index] + list[index + 1..] else list
    case ClearMessages => []
  }

  /** ... and of a list of numbers. */
  function ApplyNumbers(list: seq<int64>, op: NumberOp): seq<int64> {
    match op
    case SetValue(index, value) => if index < |list| then list[index := value] else list
    case AddValues(values) => list + values
    case ClearValues => []
  }

  /** What a call means when lists are values; `ones` are the messages that can be nested. */
  function Apply(s: State, ones: seq<PBOneFormation>, op: Op): State {
    match op
    case OpFormation(change) => s.(current := s.current.(formation := ApplyFormation(s.current.formation, ones, change)))
    case OpNumbers(tag, change) => s.(current := PutNumbers(s.current, tag, ApplyNumbers(NumberList(s.current, tag), change)))
    case OpClear => s.(current := NO_PARTS)
    case OpBuild => s.(messages := s.messages + [s.current])
    case OpMerge(which) => if which < |s.messages| then s.(current := MergeParts(s.current, s.messages[which])) else s
  }

  function ApplyAll(s: State, ones: seq<PBOneFormation>, ops: seq<Op>): State
    decreases ops
  {
    if ops == [] then s else ApplyAll(Apply(s, ones, ops[0]), ones, ops[1..])
  }

  /** Place by place: what a change does to the list of nested messages. */
  lemma SetInPlace(list: seq<PBOneFormation>, ones: seq<PBOneFormation>, index: nat, which: nat)
    requires which < |ones|
    ensures var r := ApplyFormation(list, ones, SetMessage(index, which));
      |r| == |list| && forall k :: 0 <= k < |r| ==> r[k] == if k == index then ones[which] else list[k]
  {
  }

  lemma InsertedInPlace(list: seq<PBOneFormation>, ones: seq<PBOneFormation>, index: nat, which: nat)
    requires which < |ones|
    ensures var r := ApplyFormation(list, ones, InsertMessage(index, which));
      if index > |list| then r == list
      else |r| == |list| + 1 && forall k :: 0 <= k < |r| ==>
        r[k] == if k < index then list[k] else if k == index then ones[which] else list[k - 1]
  {
  }

  lemma RemovedInPlace(list: seq<PBOneFormation>, ones: seq<PBOneFormation>, index: nat)
    ensures var r := ApplyFormation(list, ones, RemoveMessage(index));
      if index >= |list| then r == list
      else |r| == |list| - 1 && forall k :: 0 <= k < |r| ==> r[k] == list[if k < index then k else k + 1]
  {
  }

  function AddEach(n: nat): (ops: seq<Op>)
    ensures |ops| == n
  {
    seq(n, i requires 0 <= i < n => OpFormation(AddMessage(i)))
  }

  function AddEachNumber(tag: int, values: seq<int64>): (ops: seq<Op>)
    ensures |ops| == |values|
  {
    seq(|values|, i requires 0 <= i < |values| => OpNumbers(tag, AddValues([values[i]])))
  }

  lemma {:induction false} ApplyBoth(s: State, ones: seq<PBOneFormation>, a: seq<Op>, b: seq<Op>)
    ensures ApplyAll(s, ones, a + b) == ApplyAll(ApplyAll(s, ones, a), ones, b)
    decreases a
  {
    hide Apply;
    if a == [] {
      assert a + b == b;
    } else {
      assert (a + b)[1..] == a[1..] + b;
      ApplyBoth(Apply(s, ones, a[0]), ones, a[1..], b);
    }
  }

  lemma ApplyOne(s: State, ones: seq<PBOneFormation>, op: Op)
    ensures ApplyAll(s, ones, [op]) == Apply(s, ones, op)
  {
    hide Apply;
    assert [op][1..] == [];
  }

  lemma {:induction false} EachAdded(s: State, ones: seq<PBOneFormation>, n: nat)
    requires n <= |ones|
    ensures ApplyAll(s, ones, AddEach(n)) == s.(current := s.current.(formation := s.current.formation + ones[..n]))
  {
    if n == 0 {
      assert s.current.formation + ones[..0] == s.current.formation;
    } else {
      EachAdded(s, ones, n - 1);
      assert AddEach(n) == AddEach(n - 1) + [OpFormation(AddMessage(n - 1))];
      ApplyBoth(s, ones, AddEach(n - 1), [OpFormation(AddMessage(n - 1))]);
      ApplyOne(ApplyAll(s, ones, AddEach(n - 1)), ones, OpFormation(AddMessage(n - 1)));
      assert s.current.formation + ones[..n - 1] + [ones[n - 1]] == s.current.formation + ones[..n];
    }
  }

  lemma {:induction false} EachNumberAdded(s: State, ones: seq<PBOneFormation>, tag: int, values: seq<int64>)
    ensures ApplyAll(s, ones, AddEachNumber(tag, values)) == s.(current :=
      if tag == 16 then s.current.(partner := s.current.partner + values)
      else s.current.(battleFormation := s.current.battleFormation + values))
    decreases values
  {
    if values == [] {
      assert s.current.partner + values == s.current.partner && s.current.battleFormation + values == s.current.battleFormation;
    } else {
      var n := |values| - 1;
      var front, last := values[..n], OpNumbers(tag, AddValues([values[n]]));
      EachNumberAdded(s, ones, tag, front);
      assert AddEachNumber(tag, values) == AddEachNumber(tag, front) + [last];
      ApplyBoth(s, ones, AddEachNumber(tag, front), [last]);
      ApplyOne(ApplyAll(s, ones, AddEachNumber(tag, front)), ones, last);
      assert s.current.partner + front + [values[n]] == s.current.partner + values;
      assert s.current.battleFormation + front + [values[n]] == s.current.battleFormation + values;
    }
  }

  lemma EverythingAdded(ones: seq<PBOneFormation>, partner: seq<int64>, battleFormation: seq<int64>)
    ensures ApplyAll(State(NO_PARTS, []), ones, AddEach(|ones|) + AddEachNumber(16, partner) + AddEachNumber(24, battleFormation) + [OpBuild])
         == State(Parts(ones, partner, battleFormation), [Parts(ones, partner, battleFormation)])
  {
    hide Apply, ApplyAll;
    var s := State(NO_PARTS, []);
    var a, b, c := AddEach(|ones|), AddEachNumber(16, partner), AddEachNumber(24, battleFormation);
    EachAdded(s, ones, |ones|);
    assert [] + ones[..|ones|] == ones;
    ApplyBoth(s, ones, a, b);
    EachNumberAdded(ApplyAll(s, ones, a), ones, 16, partner);
    assert [] + partner == partner;
    ApplyBoth(s, ones, a + b, c);
    EachNumberAdded(ApplyAll(s, ones, a + b), ones, 24, battleFormation);
    assert [] + battleFormation == battleFormation;
    ApplyBoth(s, ones, a + b + c, [OpBuild]);
    var t := State(Parts(ones, partner, battleFormation), []);
    ApplyOne(t, ones, OpBuild);
    Built(t, ones);
  }

  lemma Built(s: State, ones: seq<PBOneFormation>)
    ensures Apply(s, ones, OpBuild) == State(s.current, s.messages + [s.current])
  {
  }

  /** The messages hold these parts, in lists from these sets. */
  ghost predicate Hold(messages: seq<PBFormation>, parts: seq<Parts>, lists: set<ArrayList<int64>>,
        formations: set<ArrayList<PBOneFormation>>)
    reads messages, lists, formations
  {
    |messages| == |parts| && forall i :: 0 <= i < |messages| ==>
      && messages[i].formation.list in formations
      && messages[i].partner.list in lists && messages[i].battleFormation.list in lists
      && PartsOf(messages[i]) == parts[i]
  }

  /** The builder and the messages hold what `s` says, and the builder owns none of the messages' lists. */
  ghost predicate Mirrors(builder: Builder, messages: seq<PBFormation>, s: State, lists: set<ArrayList<int64>>,
        formations: set<ArrayList<PBOneFormation>>)
    reads builder, builder.formation.list, builder.partner.list, builder.battleFormation.list, messages, lists, formations
  {
    && builder.Valid() && builder.Contents() == s.current && Hold(messages, s.messages, lists, formations)
    && builder.Owned() !! lists && builder.OwnedFormation() !! formations
  }

  method ChangeList(builder: Builder, ones: seq<PBOneFormation>, op: FormationOp)
    requires builder.Valid()
    modifies builder`formation, builder`formationIsMutable, builder.OwnedFormation()
    ensures builder.Valid() && fresh(builder.OwnedFormation() - old(builder.OwnedFormation()))
    ensures builder.Contents() == old(builder.Contents()).(formation := ApplyFormation(old(builder.Contents()).formation, ones, op))
  {
    match op {
      case SetMessage(index, which) =>
        if which < |ones| {
          var _ := builder.SetFormation(index, ones[which]);
        }
      case AddMessage(which) =>
        if which < |ones| {
          builder.AddFormation(ones[which]);
        }
      case InsertMessage(index, which) =>
        if which < |ones| {
          var _ := builder.InsertFormation(index, ones[which]);
        }
      case AddMessages(from, to) =>
        if from <= to <= |ones| {
          builder.AddAllFormation(ones[from..to]);
        }
      case RemoveMessage(index) => var _ := builder.RemoveFormation(index);
      case ClearMessages => builder.ClearFormation();
    }
  }

  method ChangeNumberList(builder: Builder, tag: int, op: NumberOp)
    requires builder.Valid()
    modifies builder`partner, builder`partnerIsMutable, builder`battleFormation, builder`battleFormationIsMutable
    modifies builder.Owned()
    ensures builder.Valid() && fresh(builder.Owned() - old(builder.Owned()))
    ensures var was := old(builder.Contents());
      builder.Contents() == PutNumbers(was, tag, ApplyNumbers(NumberList(was, tag), op))
  {
    match op {
      case SetValue(index, value) => var _ := builder.SetNumber(tag, index, value);
      case AddValues(values) => builder.AddNumbers(tag, values);
      case ClearValues => builder.ClearNumbers(tag);
    }
  }

  lemma HoldApart(builder: Builder, messages: seq<PBFormation>, s: State, lists: set<ArrayList<int64>>,
        formations: set<ArrayList<PBOneFormation>>, which: nat)
    requires Mirrors(builder, messages, s, lists, formations) && which < |messages|
    ensures which < |s.messages| && Apart(builder, messages[which]) && PartsOf(messages[which]) == s.messages[which]
  {
  }

  lemma HoldMore(messages: seq<PBFormation>, parts: seq<Parts>, lists: set<ArrayList<int64>>,
        formations: set<ArrayList<PBOneFormation>>, m: PBFormation)
    requires Hold(messages, parts, lists, formations)
    ensures Hold(messages + [m], parts + [PartsOf(m)], lists + {m.partner.list, m.battleFormation.list}, formations + {m.formation.list})
  {
  }

  method PerformBuild(builder: Builder, messages: seq<PBFormation>, ghost s: State,
        ghost lists: set<ArrayList<int64>>, ghost formations: set<ArrayList<PBOneFormation>>)
    returns (more: seq<PBFormation>, ghost lists': set<ArrayList<int64>>, ghost formations': set<ArrayList<PBOneFormation>>)
    requires Mirrors(builder, messages, s, lists, formations)
    modifies builder
    ensures Mirrors(builder, more, s.(messages := s.messages + [s.current]), lists', formations') == true && messages <= more
    ensures builder.Owned() == {} && builder.OwnedFormation() == {}
  {
    hide Hold;
    var result := builder.BuildPartial();
    HoldMore(messages, s.messages, lists, formations, result);
    more := messages + [result];
    lists', formations' := lists + {result.partner.list, result.battleFormation.list}, formations + {result.formation.list};
  }

  method Perform(builder: Builder, ones: seq<PBOneFormation>, messages: seq<PBFormation>, op: Op, ghost s: State,
        ghost lists: set<ArrayList<int64>>, ghost formations: set<ArrayList<PBOneFormation>>)
    returns (more: seq<PBFormation>, ghost lists': set<ArrayList<int64>>, ghost formations': set<ArrayList<PBOneFormation>>)
    requires Mirrors(builder, messages, s, lists, formations)
    modifies builder, builder.Owned(), builder.OwnedFormation()
    ensures Mirrors(builder, more, Apply(s, ones, op), lists', formations') == true && messages <= more
    ensures fresh(builder.Owned() - old(builder.Owned())) && fresh(builder.OwnedFormation() - old(builder.OwnedFormation()))
  {
    hide ApplyFormation, ApplyNumbers, NumberList, PutNumbers, Hold;
    more, lists', formations' := messages, lists, formations;
    match op {
      case OpFormation(change) => ChangeList(builder, ones, change);
      case OpNumbers(tag, change) => ChangeNumberList(builder, tag, change);
      case OpClear => builder.Clear();
      case OpBuild =>
        more, lists', formations' := PerformBuild(builder, messages, s, lists, formations);
      case OpMerge(which) =>
        SameLength(messages, s.messages, lists, formations);
        if which < |messages| {
          HoldApart(builder, messages, s, lists, formations, which);
          builder.MergeFrom(messages[which]);
        }
    }
  }

  lemma SameLength(messages: seq<PBFormation>, parts: seq<Parts>, lists: set<ArrayList<int64>>,
        formations: set<ArrayList<PBOneFormation>>)
    requires Hold(messages, parts, lists, formations)
    ensures |messages| == |parts|
  {
  }

  method PerformAll(builder: Builder, ones: seq<PBOneFormation>, given: seq<PBFormation>, ops: seq<Op>, ghost s0: State,
        ghost lists0: set<ArrayList<int64>>, ghost formations0: set<ArrayList<PBOneFormation>>)
    returns (messages: seq<PBFormation>)
    requires Mirrors(builder, given, s0, lists0, formations0) && builder.Owned() == {} && builder.OwnedFormation() == {}
    modifies builder
    ensures given <= messages
    ensures builder.Contents() == ApplyAll(s0, ones, ops).current && AllParts(messages) == ApplyAll(s0, ones, ops).messages
  {
    hide Apply, Hold, AllParts, Mirrors;
    messages := given;
    ghost var s, lists, formations := s0, lists0, formations0;
    var i := 0;
    assert ops[0..] == ops;
    while i < |ops|
      invariant 0 <= i <= |ops| && fresh(builder.Owned()) && fresh(builder.OwnedFormation())
      invariant given <= messages && Mirrors(builder, messages, s, lists, formations)
      invariant ApplyAll(s, ones, ops[i..]) == ApplyAll(s0, ones, ops)
    {
      assert ops[i..][0] == ops[i] && ops[i..][1..] == ops[i + 1..];
      messages, lists, formations := Perform(builder, ones, messages, ops[i], s, lists, formations);
      s := Apply(s, ones, ops[i]);
      i := i + 1;
    }
    MirrorsAll(builder, messages, s, lists, formations);
  }

  /**
   Whatever is called in whatever order on a builder, starting with any messages to nest and to merge from: in
   the end every message, given or built, holds what it held when it was built, and so does the builder.
   Nothing that was there before is written to, so the nested messages keep their values.
   */
  method Run(ones: seq<PBOneFormation>, given: seq<PBFormation>, ops: seq<Op>)
    returns (builder: Builder, messages: seq<PBFormation>)
    ensures given <= messages
    ensures var s := ApplyAll(State(NO_PARTS, old(AllParts(given))), ones, ops);
      builder.Contents() == s.current && AllParts(messages) == s.messages
  {
    hide Apply, Hold, AllParts, ApplyAll;
    ghost var parts := AllParts(given);
    ghost var lists, formations := HoldGiven(given);
    builder := new Builder();
    messages := PerformAll(builder, ones, given, ops, State(NO_PARTS, parts), lists, formations);
  }

  /** Adding one by one to a new builder and building gives a message with everything in the order of the calls. */
  method BuildInOrder(ones: seq<PBOneFormation>, partner: seq<int64>, battleFormation: seq<int64>) returns (m: PBFormation)
    ensures m.Elems() == ones && m.partner.list.elems == partner && m.battleFormation.list.elems == battleFormation
  {
    hide Apply, ApplyAll, AddEach, AddEachNumber, AllParts;
    EverythingAdded(ones, partner, battleFormation);
    NoParts();
    var ops := AddEach(|ones|) + AddEachNumber(16, partner) + AddEachNumber(24, battleFormation) + [OpBuild];
    var _, messages := Run(ones, [], ops);
    m := messages[0];
  }

  lemma NoParts()
    ensures AllParts([]) == []
  {
  }

  lemma MirrorsAll(builder: Builder, messages: seq<PBFormation>, s: State, lists: set<ArrayList<int64>>,
        formations: set<ArrayList<PBOneFormation>>)
    requires Mirrors(builder, messages, s, lists, formations)
    ensures builder.Contents() == s.current && AllParts(messages) == s.messages
  {
  }

  lemma HoldGiven(given: seq<PBFormation>) returns (lists: set<ArrayList<int64>>, formations: set<ArrayList<PBOneFormation>>)
    ensures Hold(given, AllParts(given), lists, formations)
  {
    lists := (set m | m in given :: m.partner.list) + (set m | m in given :: m.battleFormation.list);
    formations := set m | m in given :: m.formation.list;
  }

  ghost function AllParts(ms: seq<PBFormation>): (parts: seq<Parts>)
    reads ms, set m | m in ms :: m.formation.list
    reads set m | m in ms :: m.partner.list, set m | m in ms :: m.battleFormation.list
    ensures |parts| == |ms| && forall i :: 0 <= i < |ms| ==> parts[i] == PartsOf(ms[i])
  {
    if ms == [] then [] else [PartsOf(ms[0])] + AllParts(ms[1..])
  }
}
