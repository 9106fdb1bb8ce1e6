/**
 What a text means to the reader, without reference to how the writer prints: every text in the spelling of RFC 4627
 is read, and a key that comes more than once keeps its first place and its last value.
 */
module JsonReading {
  import opened JsonSymbols
  import opened JsonLexer
  import opened JsonGrammar
  import opened JsonReader
  import opened JsonText
  import opened JsonDocument
  import opened JsonLayout
  import opened JsonWriter
  import opened JsonData
  import JsonSpelling

  // ----- Keys that come more than once -----

  /** `value` is what comes last with `key`. */
  ghost predicate IsLast(pairs: seq<KeyValue>, key: seq<unit>, value: Data) {
    exists k :: 0 <= k < |pairs| && pairs[k] == KeyValue(key, value) && forall m :: k < m < |pairs| ==> pairs[m].key != key
  }

  /** `a` comes for the first time before `b` does. */
  ghost predicate ComesFirst(pairs: seq<KeyValue>, a: seq<unit>, b: seq<unit>) {
    exists k :: 0 <= k < |pairs| && pairs[k].key == a && forall m :: 0 <= m <= k ==> pairs[m].key != b
  }

  ghost predicate HasKey(entries: seq<KeyValue>, key: seq<unit>) { exists i :: 0 <= i < |entries| && entries[i].key == key }

  /** Each key once, in the order of their first places, with the values that come last. */
  ghost predicate Gathers(entries: seq<KeyValue>, pairs: seq<KeyValue>) {
    && (forall k :: 0 <= k < |pairs| ==> HasKey(entries, pairs[k].key))
    && (forall i :: 0 <= i < |entries| ==> IsLast(pairs, entries[i].key, entries[i].value))
    && (forall i, j :: 0 <= i < j < |entries| ==> ComesFirst(pairs, entries[i].key, entries[j].key))
  }

  /** The members of an object, read one by one. */
  function Pairs(members: Members): seq<KeyValue>
    requires ReadableMembers(members)
    decreases members
  {
    if members.Empty? then [] else [KeyValue(members.key, FromTree(members.value))] + Pairs(members.rest)
  }

  lemma KeysDiffer(entries: seq<KeyValue>, pairs: seq<KeyValue>)
    requires Gathers(entries, pairs)
    ensures forall i, j :: 0 <= i < j < |entries| ==> entries[i].key != entries[j].key
  {
    forall i, j | 0 <= i < j < |entries| ensures entries[i].key != entries[j].key {
      assert ComesFirst(pairs, entries[i].key, entries[j].key);
    }
  }

  lemma StillLast(pairs: seq<KeyValue>, e: KeyValue, key: seq<unit>, value: Data)
    requires IsLast(pairs, key, value) && e.key != key
    ensures IsLast(pairs + [e], key, value)
  {
    var k :| 0 <= k < |pairs| && pairs[k] == KeyValue(key, value) && forall m :: k < m < |pairs| ==> pairs[m].key != key;
    assert (pairs + [e])[k] == KeyValue(key, value);
  }

  lemma NowLast(pairs: seq<KeyValue>, e: KeyValue)
    ensures IsLast(pairs + [e], e.key, e.value)
  {
    assert (pairs + [e])[|pairs|] == KeyValue(e.key, e.value);
  }

  lemma StillFirst(pairs: seq<KeyValue>, e: KeyValue, a: seq<unit>, b: seq<unit>)
    requires ComesFirst(pairs, a, b)
    ensures ComesFirst(pairs + [e], a, b)
  {
    var k :| 0 <= k < |pairs| && pairs[k].key == a && forall m :: 0 <= m <= k ==> pairs[m].key != b;
    assert (pairs + [e])[k].key == a;
  }

  lemma NewComesLater(pairs: seq<KeyValue>, e: KeyValue, a: seq<unit>, value: Data)
    requires IsLast(pairs, a, value) && forall k :: 0 <= k < |pairs| ==> pairs[k].key != e.key
    ensures ComesFirst(pairs + [e], a, e.key)
  {
    var k :| 0 <= k < |pairs| && pairs[k] == KeyValue(a, value) && forall m :: k < m < |pairs| ==> pairs[m].key != a;
    assert (pairs + [e])[k].key == a;
  }

  lemma PutGathers(entries: seq<KeyValue>, pairs: seq<KeyValue>, e: KeyValue)
    requires Gathers(entries, pairs)
    ensures Gathers(PutValue(entries, e), pairs + [e])
  {
    hide IsLast, ComesFirst;
    KeysDiffer(entries, pairs);
    var put, all := PutValue(entries, e), pairs + [e];
    var at := Find(KeysIn(entries), e.key);
    assert put[at] == e && HasKey(put, e.key);
    forall k | 0 <= k < |all| ensures HasKey(put, all[k].key) {
      if k < |pairs| {
        var i :| 0 <= i < |entries| && entries[i].key == pairs[k].key;
        assert put[i].key == pairs[k].key;
      }
    }
    forall i | 0 <= i < |put| ensures IsLast(all, put[i].key, put[i].value) {
      if i == at { NowLast(pairs, e); } else { StillLast(pairs, e, put[i].key, put[i].value); }
    }
    forall i, j | 0 <= i < j < |put| ensures ComesFirst(all, put[i].key, put[j].key) {
      if j < |entries| {
        StillFirst(pairs, e, entries[i].key, entries[j].key);
      } else {
        NotThere(entries, pairs, e);
        NewComesLater(pairs, e, put[i].key, put[i].value);
      }
    }
  }

  lemma NotThere(entries: seq<KeyValue>, pairs: seq<KeyValue>, e: KeyValue)
    requires Gathers(entries, pairs) && Find(KeysIn(entries), e.key) == |entries|
    ensures forall k :: 0 <= k < |pairs| ==> pairs[k].key != e.key
  {
    assert forall i :: 0 <= i < |entries| ==> KeysIn(entries)[i] != e.key;
    assert forall k :: 0 <= k < |pairs| ==> HasKey(entries, pairs[k].key);
  }

  lemma {:induction false} MembersGather(done: seq<KeyValue>, before: seq<KeyValue>, members: Members)
    requires ReadableMembers(members) && Gathers(done, before)
    ensures Gathers(FromMembers(done, members), before + Pairs(members))
    decreases members
  {
    hide Gathers, PutValue, FromTree, Readable;
    if members.Empty? {
      assert before + Pairs(members) == before;
    } else {
      var e := KeyValue(members.key, FromTree(members.value));
      PutGathers(done, before, e);
      MembersGather(PutValue(done, e), before + [e], members.rest);
      assert before + [e] + Pairs(members.rest) == before + Pairs(members);
    }
  }

  /** Of an object. */
  lemma ObjectGathers(members: Members)
    requires ReadableMembers(members)
    ensures var d := FromTree(ObjectTree(members)); d.ObjectData? && Gathers(d.entries, Pairs(members))
  {
    MembersGather([], [], members);
    assert [] + Pairs(members) == Pairs(members);
  }

  // ----- Numbers -----

  /** Which numbers are refused: those between the ranges of a long and a ulong; what is beyond them is zero. */
  lemma NumberReadAs(n: JsonSpelling.Number, k: int)
    requires JsonSpelling.Accepted(n) && 0 <= k && n.whole == DecimalNat(k)
    ensures var v := if n.minus then -k else k; var t := NumberTree(JsonSpelling.NumberText(n));
      if JsonSpelling.Dangling(n) then Readable(t) && FromTree(t) == IntData(0)
      else if n.fraction.Some? || n.exponent.Exponent? then Readable(t) && FromTree(t) == DoubleData(JsonSpelling.NumberText(n))
      else if -2147483648 <= v <= 2147483647 then Readable(t) && FromTree(t) == IntData(v)
      else if -9223372036854775808 <= v <= 9223372036854775807 then Readable(t) && FromTree(t) == LongData(v)
      else if 0 <= v <= 18446744073709551615 then !Readable(t)
      else Readable(t) && FromTree(t) == IntData(0)
  {
    hide DecimalNat, NumberEvent, JsonSpelling.Accepted, JsonSpelling.NumberText;
    JsonSpelling.NumberMeans(n, k);
  }

  // ----- Literals and strings -----

  /** By their letters, as events, as data, and as they are printed again. */
  lemma LiteralsReadAs(run: Run, style: Style, depth: nat)
    ensures Spelling(TrueLiteral) == Units("true") == Printed(TreeOf(BooleanData(true)), style, depth)
    ensures EventsThen(Spells(TrueLiteral), run) == Emits(Event(BooleanToken, BooleanValue(true)), run)
    ensures FromTree(Spells(TrueLiteral)) == BooleanData(true)
    ensures Spelling(FalseLiteral) == Units("false") == Printed(TreeOf(BooleanData(false)), style, depth)
    ensures EventsThen(Spells(FalseLiteral), run) == Emits(Event(BooleanToken, BooleanValue(false)), run)
    ensures FromTree(Spells(FalseLiteral)) == BooleanData(false)
    ensures Spelling(NullLiteral) == Units("null") == Printed(TreeOf(NullData), style, depth)
    ensures EventsThen(Spells(NullLiteral), run) == Emits(Event(NullToken, NoValue), run)
    ensures FromTree(Spells(NullLiteral)) == NullData
  {
  }

  /** A string is its units, one for each piece. */
  lemma StringReadAs(ps: seq<JsonSpelling.Piece>)
    requires JsonSpelling.AllSound(34, ps)
    ensures var d := FromTree(Spells(StringPieces(ps)));
      && d.StringData? && |d.text| == |ps|
      && forall k :: 0 <= k < |ps| ==>
           match ps[k]
           case Plainly(c) => d.text[k] == c
           case Shortly(e) =>
             d.text[k] == (if e == 'n' as int then 10 else if e == 'r' as int then 13 else if e == 't' as int then 9
                           else if e == 'f' as int then 12 else if e == 'b' as int then 8 else e)
           case InHex(a, b, c, d') =>
             d.text[k] == JsonSpelling.HexOf(a) * 4096 + JsonSpelling.HexOf(b) * 256 + JsonSpelling.HexOf(c) * 16 + JsonSpelling.HexOf(d')
  {
    forall k | 0 <= k < |ps| ensures JsonSpelling.SoundIn(34, ps[k]) {
    }
  }

  function ItemAt(items: Trees, i: nat): Tree
    requires i < CountItems(items)
    decreases items
  {
    if i == 0 then items.head else ItemAt(items.tail, i - 1)
  }

  lemma {:induction false} ItemsReadable(items: Trees)
    requires ReadableItems(items)
    ensures forall i :: 0 <= i < CountItems(items) ==> Readable(ItemAt(items, i))
  {
    hide Readable;
    if items.Cons? {
      ItemsReadable(items.tail);
      forall i | 0 <= i < CountItems(items) ensures Readable(ItemAt(items, i)) {
        if i > 0 { assert Readable(ItemAt(items.tail, i - 1)); }
      }
    }
  }

  lemma {:induction false} ItemsInOrder(done: seq<Data>, items: Trees)
    requires ReadableItems(items) && forall i :: 0 <= i < CountItems(items) ==> Readable(ItemAt(items, i))
    ensures var all := FromItems(done, items);
      && |all| == |done| + CountItems(items) && all[..|done|] == done
      && forall i :: 0 <= i < CountItems(items) ==> all[|done| + i] == FromTree(ItemAt(items, i))
    decreases items
  {
    hide Readable, FromTree;
    if items.Cons? {
      ItemsReadable(items.tail);
      var more := done + [FromTree(items.head)];
      ItemsInOrder(more, items.tail);
      var all := FromItems(more, items.tail);
      assert all[..|done|] == all[..|more|][..|done|];
      assert all[|done|] == all[..|more|][|done|];
      forall i | 0 < i < CountItems(items) ensures all[|done| + i] == FromTree(ItemAt(items, i)) {
        assert all[|more| + (i - 1)] == FromTree(ItemAt(items.tail, i - 1));
      }
    }
  }

  /** An array has its items in their order. */
  lemma ArrayReadAs(items: Trees)
    requires ReadableItems(items)
    ensures forall i :: 0 <= i < CountItems(items) ==> Readable(ItemAt(items, i))
    ensures var d := FromTree(ArrayTree(items));
      && d.ArrayData? && |d.items| == CountItems(items)
      && forall i :: 0 <= i < CountItems(items) ==> d.items[i] == FromTree(ItemAt(items, i))
  {
    ItemsReadable(items);
    ItemsInOrder([], items);
  }

  // ----- Whole texts -----

  /** Every text of RFC 4627, in whatever spelling: it is read as what it spells, or refused for a number. */
  method ReadDocument(before: seq<unit>, v: Value, after: seq<unit>) returns (r: ReadResult, ghost repr: set<JsonData>)
    requires Blank(before) && Blank(after) && Sound(v) && (v.ArrayValue? || v.ObjectValue?)
    ensures fresh(repr)
    ensures r.Got? <==> Readable(Spells(v))
    ensures r.Got? ==> Represents(r.data, FromTree(Spells(v)), repr)
  {
    hide TokensOf, Sound, Spelling, Spells, Represents, TokensThen, FromTree, Readable;
    TextRead(before, v, after);
    r, repr := ToObject(before + Spelling(v) + after);
  }
}
