/** Writer and parser against each other, through a real buffered stream. */
module FormationRoundTrip {
  import opened Wire
  import opened CodedOutputStream
  import opened FormationWire
  import opened FormationMessages
  import opened FormationParser
  import opened NestedBuilder

  method WriteOne(m: PBOneFormation, bufferSize: nat) returns (bytes: seq<byte>)
    requires m.Valid() && Fits(m.Value()) && bufferSize > 0
    modifies m`memoizedSize, m`equipMemoizedSerializedSize
    ensures bytes == Write(m.Value()) && m.Value() == old(m.Value()) && m.Valid() && m.memoizedSize == |bytes|
  {
    hide Write, Fits;
    var sink := new OutputSink();
    var output := new CodedOutputStream.FromStream(sink, bufferSize);
    m.WriteTo(output);
    output.Flush();
    bytes := sink.data;
    var _ := m.GetSerializedSize();
  }

  /** A sound message with this value. */
  ghost predicate Keeps(m: PBFormation, v: Message)
    reads m, m.formation.list, m.partner.list, m.battleFormation.list, m.Elems(), set e | e in m.Elems() :: e.equip.list
  {
    m.Valid() && m.Value() == v
  }

  method WriteFormation(m: PBFormation, bufferSize: nat) returns (bytes: seq<byte>)
    requires m.Valid() && Fits(m.Value()) && bufferSize > 0
    modifies m`memoizedSize, m`partnerMemoizedSerializedSize, m`battleFormationMemoizedSerializedSize
    modifies m.Elems()`memoizedSize, m.Elems()`equipMemoizedSerializedSize
    ensures bytes == Write(old(m.Value())) && Keeps(m, old(m.Value())) == true
  {
    hide Write, Fits, Keeps;
    ghost var v := m.Value();
    var sink := new OutputSink();
    var output := new CodedOutputStream.FromStream(sink, bufferSize);
    m.WriteTo(output);
    Kept(m, v);
    output.Flush();
    bytes := sink.data;
  }

  lemma Kept(m: PBFormation, v: Message)
    ensures m.Valid() && m.Value() == v <==> Keeps(m, v)
  {
  }

  /** One message, written and parsed again. */
  method RoundTripOne(m: PBOneFormation, bufferSize: nat) returns (r: Result<Message>)
    requires m.Valid() && Fits(m.Value()) && bufferSize > 0
    modifies m`memoizedSize, m`equipMemoizedSerializedSize
    ensures r == Ok(m.Value()) && m.Value() == old(m.Value())
  {
    hide Write, Fits, Parse;
    var bytes := WriteOne(m, bufferSize);
    var input := new MessageInput(bytes, 100);
    ParseWrite(m.Value(), input.Here());
    r := ParseOneFormation(input);
  }

  /** A message with nested messages, written and parsed again. */
  method RoundTripFormation(m: PBFormation, bufferSize: nat) returns (r: Result<Message>)
    requires m.Valid() && Fits(m.Value()) && bufferSize > 0
    modifies m`memoizedSize, m`partnerMemoizedSerializedSize, m`battleFormationMemoizedSerializedSize
    modifies m.Elems()`memoizedSize, m.Elems()`equipMemoizedSerializedSize
    ensures r == Ok(old(m.Value()))
  {
    hide Write, Fits, Parse, Keeps;
    ghost var v := m.Value();
    var bytes := WriteFormation(m, bufferSize);
    var input := new MessageInput(bytes, 100);
    ParseWrite(v, input.Here());
    r := ParseFormation(input);
  }

  /** The bytes of two messages end to end parse to the first merged with the second. */
  method ParseBoth(a: PBOneFormation, b: PBOneFormation, bufferSize: nat) returns (r: Result<Message>)
    requires a.Valid() && b.Valid() && Fits(a.Value()) && Fits(b.Value()) && bufferSize > 0
    modifies a`memoizedSize, a`equipMemoizedSerializedSize, b`memoizedSize, b`equipMemoizedSerializedSize
    ensures r == Ok(Merge(old(a.Value()), old(b.Value())))
  {
    hide Write, Fits, Parse;
    ghost var va, vb := a.Value(), b.Value();
    var first := WriteOne(a, bufferSize);
    var second := WriteOne(b, bufferSize);
    var input := new MessageInput(first + second, 100);
    ParseConcatenation(va, vb, input.Here());
    r := ParseOneFormation(input);
  }

  /** Writing one message leaves another one sound, even if the two share nested messages. */
  method WriteBeside(m: PBFormation, other: PBFormation, bufferSize: nat) returns (bytes: seq<byte>)
    requires m.Valid() && Fits(m.Value()) && other.Valid() && bufferSize > 0
    modifies m`memoizedSize, m`partnerMemoizedSerializedSize, m`battleFormationMemoizedSerializedSize
    modifies m.Elems()`memoizedSize, m.Elems()`equipMemoizedSerializedSize
    ensures bytes == Write(m.Value()) && m.Value() == old(m.Value())
    ensures other.Valid() && other.Value() == old(other.Value())
  {
    hide Write, Fits, Values, Elements;
    bytes := WriteFormation(m, bufferSize);
  }

  /** The same for formations: the nested messages of both, and the lists end to end. */
  method ParseBothFormations(a: PBFormation, b: PBFormation, bufferSize: nat) returns (r: Result<Message>)
    requires a.Valid() && b.Valid() && Fits(a.Value()) && Fits(b.Value()) && bufferSize > 0
    modifies a`memoizedSize, a`partnerMemoizedSerializedSize, a`battleFormationMemoizedSerializedSize
    modifies b`memoizedSize, b`partnerMemoizedSerializedSize, b`battleFormationMemoizedSerializedSize
    modifies a.Elems()`memoizedSize, a.Elems()`equipMemoizedSerializedSize
    modifies b.Elems()`memoizedSize, b.Elems()`equipMemoizedSerializedSize
    ensures r == Ok(Merge(old(a.Value()), old(b.Value())))
  {
    hide Write, Fits, Parse, Values, AllValid, Elements;
    ghost var va, vb := a.Value(), b.Value();
    var first := WriteBeside(a, b, bufferSize);
    var second := WriteFormation(b, bufferSize);
    var input := new MessageInput(first + second, 100);
    ParseConcatenation(va, vb, input.Here());
    r := ParseFormation(input);
  }

  /** ... and that is what a builder makes of the two. */
  method BuildBoth(a: PBFormation, b: PBFormation) returns (built: PBFormation)
    ensures built.Value() == Merge(a.Value(), b.Value())
  {
    hide ValueOf, Merge;
    ghost var pa, pb := PartsOf(a), PartsOf(b);
    var builder := new Builder();
    builder.MergeFrom(a);
    builder.MergeFrom(b);
    built := builder.BuildPartial();
    assert MergeParts(NO_PARTS, pa) == pa by { NothingMerged(pa); }
    MergeMeans(pa, pb);
    assert PartsOf(a) == pa && PartsOf(b) == pb && PartsOf(built) == MergeParts(pa, pb);
    ValueOfParts(a);
    ValueOfParts(b);
    ValueOfParts(built);
  }
}
