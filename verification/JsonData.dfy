/**
 The tree of JsonData objects: its mutators, its printer and the builder that reads it back. Printing a
 tree and reading the text gives the same tree, with the same order of keys.
 */
module JsonData {
  import opened JsonSymbols
  import opened JsonLexer
  import opened JsonGrammar
  import opened JsonText
  import opened JsonLayout
  import opened JsonWriter
  import opened JsonReader
  import opened JsonNesting

  // ----- What a tree of objects stands for -----

  datatype Data =
    | NullData | BooleanData(boolean: bool) | IntData(int32: int) | LongData(int64: int)
    | DoubleData(digits: seq<unit>) | StringData(text: seq<unit>)
    | ArrayData(items: seq<Data>) | ObjectData(entries: seq<KeyValue>)
  datatype KeyValue = KeyValue(key: seq<unit>, value: Data)

  /** C#'s ranges, and one value per key, all the way down. */
  ghost predicate WellFormed(d: Data) {
    match d
    case IntData(n) => -0x8000_0000 <= n < 0x8000_0000
    case LongData(n) => -0x8000_0000_0000_0000 <= n < 0x8000_0000_0000_0000
    case ArrayData(items) => forall i :: 0 <= i < |items| ==> WellFormed(items[i])
    case ObjectData(entries) =>
      && (forall i :: 0 <= i < |entries| ==> WellFormed(entries[i].value))
      && AllDistinct(KeysIn(entries))
    case _ => true
  }

  datatype JsonType = NoType | ObjectType | ArrayType | StringType | IntType | LongType | DoubleType | BooleanType

  datatype ListEntry = ListEntry(key: seq<unit>, value: JsonData?)

  /** The position of a key among the keys of a list, or the length of the list. */
  function Find(keys: seq<seq<unit>>, key: seq<unit>): (i: nat)
    ensures i <= |keys| && (i < |keys| ==> keys[i] == key)
    ensures forall j :: 0 <= j < i ==> keys[j] != key
  {
    if keys == [] then 0 else if keys[0] == key then 0 else 1 + Find(keys[1..], key)
  }

  function KeysOf(list: seq<ListEntry>): (keys: seq<seq<unit>>)
    ensures |keys| == |list| && forall i :: 0 <= i < |list| ==> keys[i] == list[i].key
  {
    seq(|list|, i requires 0 <= i < |list| => list[i].key)
  }

  /** Setting a key replaces its entry in place, or adds one at the end. */
  function PutEntry(list: seq<ListEntry>, key: seq<unit>, value: JsonData?): seq<ListEntry> {
    var i := Find(KeysOf(list), key);
    if i < |list| then list[i := ListEntry(key, value)] else list + [ListEntry(key, value)]
  }

  /** Each key once, with the same value in the dictionary as in the list. */
  ghost predicate InStep(list: seq<ListEntry>, dict: map<seq<unit>, JsonData?>) {
    && DistinctKeys(list)
    && (forall i :: 0 <= i < |list| ==> list[i].key in dict && dict[list[i].key] == list[i].value)
    && (forall k :: k in dict ==> Find(KeysOf(list), k) < |list|)
  }

  predicate DistinctKeys(list: seq<ListEntry>) { forall i, j :: 0 <= i < j < |list| ==> list[i].key != list[j].key }

  lemma FindIs(list: seq<ListEntry>, i: nat)
    requires i < |list| && forall j :: 0 <= j < i ==> list[j].key != list[i].key
    ensures Find(KeysOf(list), list[i].key) == i
  {
  }

  lemma FindIn(list: seq<ListEntry>, i: nat, key: seq<unit>)
    requires i < |list| && list[i].key == key
    ensures Find(KeysOf(list), key) < |list|
  {
    assert KeysOf(list)[i] == key;
  }

  lemma PutInStep(list: seq<ListEntry>, dict: map<seq<unit>, JsonData?>, key: seq<unit>, value: JsonData?)
    requires InStep(list, dict)
    ensures InStep(PutEntry(list, key, value), dict[key := value])
  {
    hide Find, KeysOf;
    Hit(list, key);
    var put, i := PutEntry(list, key, value), Find(KeysOf(list), key);
    assert put[i] == ListEntry(key, value);
    forall k | k in dict[key := value] ensures Find(KeysOf(put), k) < |put| {
      Hit(list, k);
      FindIn(put, if k == key then i else Find(KeysOf(list), k), k);
    }
  }

  /** The entry of the key is replaced where it is, or added at the end if there is none. */
  ghost predicate IsPut(was: seq<ListEntry>, key: seq<unit>, value: JsonData?, now: seq<ListEntry>) {
    && (forall i :: 0 <= i < |was| && was[i].key == key ==> now == was[i := ListEntry(key, value)])
    && ((forall i :: 0 <= i < |was| ==> was[i].key != key) ==> now == was + [ListEntry(key, value)])
  }

  lemma PutIsPut(list: seq<ListEntry>, dict: map<seq<unit>, JsonData?>, key: seq<unit>, value: JsonData?)
    requires InStep(list, dict)
    ensures IsPut(list, key, value, PutEntry(list, key, value))
  {
    hide KeysOf, Find;
    Hit(list, key);
    forall i | 0 <= i < |list| && list[i].key == key ensures Find(KeysOf(list), key) == i { FirstOfItsKey(list, dict, i); }
  }

  lemma Hit(list: seq<ListEntry>, key: seq<unit>)
    ensures var i := Find(KeysOf(list), key); i < |list| ==> list[i].key == key
  {
  }

  lemma NowhereFound(list: seq<ListEntry>, dict: map<seq<unit>, JsonData?>, key: seq<unit>)
    requires InStep(list, dict) && forall j :: 0 <= j < |list| ==> list[j].key != key
    ensures Find(KeysOf(list), key) == |list| && key !in dict && dict - {key} == dict
  {
    Hit(list, key);
  }

  lemma EmptyInStep()
    ensures InStep([], map[])
  {
  }

  lemma KeyThere(list: seq<ListEntry>, dict: map<seq<unit>, JsonData?>, key: seq<unit>)
    requires InStep(list, dict) && key in dict
    ensures Find(KeysOf(list), key) < |list| && list[Find(KeysOf(list), key)].key == key
  {
  }

  lemma FirstOfItsKey(list: seq<ListEntry>, dict: map<seq<unit>, JsonData?>, i: nat)
    requires InStep(list, dict) && i < |list|
    ensures Find(KeysOf(list), list[i].key) == i
  {
    FindIs(list, i);
  }

  lemma OneOfItsKey(list: seq<ListEntry>, dict: map<seq<unit>, JsonData?>, i: nat)
    requires InStep(list, dict) && i < |list|
    ensures list[i].key in dict && forall j :: 0 <= j < |list| && list[j].key == list[i].key ==> j == i
  {
  }

  lemma KeyMissing(list: seq<ListEntry>, dict: map<seq<unit>, JsonData?>, key: seq<unit>)
    requires InStep(list, dict) && key !in dict
    ensures Find(KeysOf(list), key) == |list|
  {
  }

  /** A search that has not met the key by position `i` goes on. */
  lemma NotYet(list: seq<ListEntry>, key: seq<unit>, i: nat)
    requires i < |list| && i <= Find(KeysOf(list), key) < |list| && list[i].key != key
    ensures i < Find(KeysOf(list), key)
  {
  }

  lemma PutThere(list: seq<ListEntry>, key: seq<unit>, value: JsonData?)
    ensures Find(KeysOf(PutEntry(list, key, value)), key) < |PutEntry(list, key, value)|
  {
    FindIn(PutEntry(list, key, value), Find(KeysOf(list), key), key);
  }

  lemma Twice(list: seq<ListEntry>, dict: map<seq<unit>, JsonData?>, index: nat, key: seq<unit>, value: JsonData?)
    requires InStep(list, dict) && index <= |list| && Find(KeysOf(list), key) < |list|
    ensures !InStep(list[..index] + [ListEntry(key, value)] + list[index..], dict)
  {
    hide InStep, Find, KeysOf;
    Hit(list, key);
    var more, i := list[..index] + [ListEntry(key, value)] + list[index..], Find(KeysOf(list), key);
    if i < index {
      assert more[i] == list[i] && more[index].key == key;
      SameKeyTwice(more, dict, i, index);
    } else {
      assert more[i + 1] == list[i] && more[index].key == key;
      SameKeyTwice(more, dict, index, i + 1);
    }
  }

  lemma SameKeyTwice(list: seq<ListEntry>, dict: map<seq<unit>, JsonData?>, i: nat, j: nat)
    requires i < j < |list| && list[i].key == list[j].key
    ensures !InStep(list, dict)
  {
  }

  lemma DropFinds(list: seq<ListEntry>, dict: map<seq<unit>, JsonData?>, i: nat, k: seq<unit>)
    requires InStep(list, dict) && i < |list| && k in dict && k != list[i].key
    ensures Find(KeysOf(list[..i] + list[i + 1..]), k) < |list| - 1
  {
    hide InStep, Find, KeysOf;
    KeyThere(list, dict, k);
    var j := Find(KeysOf(list), k);
    FindIn(list[..i] + list[i + 1..], if j < i then j else j - 1, k);
  }

  /** Entry `k` of the list without entry `i`. */
  lemma DropAt(list: seq<ListEntry>, i: nat, k: nat)
    requires i < |list| && k < |list| - 1
    ensures (list[..i] + list[i + 1..])[k] == list[if k < i then k else k + 1]
  {
  }

  lemma DropDistinct(list: seq<ListEntry>, i: nat)
    requires DistinctKeys(list) && i < |list|
    ensures DistinctKeys(list[..i] + list[i + 1..])
    ensures var left := list[..i] + list[i + 1..]; forall k :: 0 <= k < |left| ==> left[k].key != list[i].key
  {
    var left := list[..i] + list[i + 1..];
    forall k | 0 <= k < |left| ensures left[k] == list[if k < i then k else k + 1] { DropAt(list, i, k); }
  }

  lemma DropInStep(list: seq<ListEntry>, dict: map<seq<unit>, JsonData?>, i: nat)
    requires InStep(list, dict) && i < |list|
    ensures InStep(list[..i] + list[i + 1..], dict - {list[i].key})
  {
    hide Find, KeysOf, DistinctKeys;
    var left, fewer := list[..i] + list[i + 1..], dict - {list[i].key};
    DropDistinct(list, i);
    forall k | 0 <= k < |left| ensures left[k].key in fewer && fewer[left[k].key] == left[k].value { DropAt(list, i, k); }
    forall k | k in fewer ensures Find(KeysOf(left), k) < |left| { DropFinds(list, dict, i, k); }
  }

  class JsonData {
    var jsonType: JsonType
    var instArray: seq<JsonData?>
    var instBoolean: bool
    var instDouble: seq<unit>
    var instInt: int
    var instLong: int
    var instString: seq<unit>
    var instObject: map<seq<unit>, JsonData?>
    var objectList: seq<ListEntry>    // the entries in the order of their insertion

    constructor ()
      ensures jsonType == NoType
    {
      jsonType := NoType;
    }

    /** The dictionary and the ordered list tell the same: each key once, with the same value. */
    ghost predicate Consistent()
      reads this
    {
      InStep(objectList, instObject)
    }

    method SetJsonType(jsonType: JsonType)
      modifies this
      ensures this.jsonType == jsonType
      ensures jsonType == ObjectType ==> objectList == if old(this.jsonType) == ObjectType then old(objectList) else []
      ensures jsonType == ObjectType ==> instObject == if old(this.jsonType) == ObjectType then old(instObject) else map[]
      ensures jsonType == ArrayType ==> instArray == if old(this.jsonType) == ArrayType then old(instArray) else []
      ensures old(this.jsonType) != jsonType ==>
        match jsonType
        case StringType => instString == []
        case IntType => instInt == 0
        case LongType => instLong == 0
        case DoubleType => instDouble == []
        case BooleanType => !instBoolean
        case _ => true
      ensures old(this.jsonType) == jsonType ==> unchanged(this)
    {
      if this.jsonType == jsonType {
        return;
      }
      match jsonType {
        case NoType =>
        case ObjectType => instObject, objectList := map[], [];
        case ArrayType => instArray := [];
        case StringType => instString := [];
        case IntType => instInt := 0;
        case LongType => instLong := 0;
        case DoubleType => instDouble := [];
        case BooleanType => instBoolean := false;
      }
      this.jsonType := jsonType;
    }

    method SetBoolean(val: bool)
      modifies this
      ensures jsonType == BooleanType && instBoolean == val
    {
      jsonType, instBoolean := BooleanType, val;
    }

    method SetDouble(val: seq<unit>)
      modifies this
      ensures jsonType == DoubleType && instDouble == val
    {
      jsonType, instDouble := DoubleType, val;
    }

    method SetInt(val: int)
      modifies this
      ensures jsonType == IntType && instInt == val
    {
      jsonType, instInt := IntType, val;
    }

    method SetLong(val: int)
      modifies this
      ensures jsonType == LongType && instLong == val
    {
      jsonType, instLong := LongType, val;
    }

    method SetString(val: seq<unit>)
      modifies this
      ensures jsonType == StringType && instString == val
    {
      jsonType, instString := StringType, val;
    }

    /** Turns a fresh object into a dictionary; false is the exception. */
    method EnsureDictionary() returns (ok: bool)
      modifies this
      ensures ok == (old(jsonType) == ObjectType || old(jsonType) == NoType)
      ensures ok ==> jsonType == ObjectType
      ensures ok ==> objectList == (if old(jsonType) == ObjectType then old(objectList) else [])
      ensures ok ==> instObject == (if old(jsonType) == ObjectType then old(instObject) else map[])
      ensures old(jsonType) != NoType ==> unchanged(this)
    {
      if jsonType == ObjectType {
        return true;
      }
      if jsonType != NoType {
        return false;
      }
      jsonType, instObject, objectList := ObjectType, map[], [];
      return true;
    }

    method EnsureList() returns (ok: bool)
      modifies this
      ensures ok == (old(jsonType) == ArrayType || old(jsonType) == NoType)
      ensures ok ==> jsonType == ArrayType
      ensures ok ==> instArray == (if old(jsonType) == ArrayType then old(instArray) else [])
      ensures old(jsonType) != NoType ==> unchanged(this)
    {
      if jsonType == ArrayType {
        return true;
      }
      if jsonType != NoType {
        return false;
      }
      jsonType, instArray := ArrayType, [];
      return true;
    }

    /** this[key] = value. The list stays in step with the dictionary, and existing keys keep their place. */
    method SetItem(key: seq<unit>, value: JsonData?) returns (ok: bool)
      requires jsonType == ObjectType ==> Consistent()
      modifies this
      ensures ok == (old(jsonType) == ObjectType || old(jsonType) == NoType)
      ensures ok ==> jsonType == ObjectType && Consistent()
      ensures ok ==> objectList == PutEntry(if old(jsonType) == ObjectType then old(objectList) else [], key, value)
      ensures ok ==> IsPut(if old(jsonType) == ObjectType then old(objectList) else [], key, value, objectList)
      ensures ok ==> instObject == (if old(jsonType) == ObjectType then old(instObject) else map[])[key := value]
      ensures !ok ==> unchanged(this)
    {
      hide InStep, Find, KeysOf;
      EmptyInStep();
      ok := EnsureDictionary();
      if !ok {
        return;
      }
      PutInStep(objectList, instObject, key, value);
      PutIsPut(objectList, instObject, key, value);
      if key in instObject {
        KeyThere(objectList, instObject, key);
        var i := 0;
        while objectList[i].key != key
          invariant 0 <= i < |objectList| && i <= Find(KeysOf(objectList), key) < |objectList|
          invariant forall j :: 0 <= j < i ==> objectList[j].key != key
          decreases |objectList| - i
          modifies {}
        {
          NotYet(objectList, key, i);
          i := i + 1;
        }
        FindIs(objectList, i);
        objectList := objectList[i := ListEntry(key, value)];
      } else {
        KeyMissing(objectList, instObject, key);
        objectList := objectList + [ListEntry(key, value)];
      }
      instObject := instObject[key := value];
    }

    /** this[index] = value, on an array or on the entries of an object. */
    method SetAt(index: nat, value: JsonData?) returns (ok: bool)
      requires jsonType == ObjectType ==> Consistent()
      modifies this
      ensures jsonType == old(jsonType)
      ensures ok == ((jsonType == ArrayType && index < |old(instArray)|) || (jsonType == ObjectType && index < |old(objectList)|))
      ensures ok && jsonType == ArrayType ==> index < |old(instArray)| && instArray == old(instArray)[index := value]
      ensures jsonType == ObjectType ==> Consistent()
      ensures ok && jsonType == ObjectType ==>
        (index < |old(objectList)| && objectList == old(objectList)[index := ListEntry(old(objectList)[index].key, value)])
      ensures !ok ==> unchanged(this)
    {
      hide InStep, Find, KeysOf;
      if jsonType == ArrayType {
        if index >= |instArray| {
          return false;
        }
        instArray := instArray[index := value];
        return true;
      }
      if jsonType != ObjectType || index >= |objectList| {
        return false;
      }
      var entry := objectList[index];
      FirstOfItsKey(objectList, instObject, index);
      PutInStep(objectList, instObject, entry.key, value);
      objectList := objectList[index := ListEntry(entry.key, value)];
      instObject := instObject[entry.key := value];
      return true;
    }

    /** IDictionary.Add, which refuses a key that is there. */
    method AddEntry(key: seq<unit>, value: JsonData?) returns (ok: bool)
      requires jsonType == ObjectType ==> Consistent()
      modifies this
      ensures ok == (old(jsonType) == NoType || (old(jsonType) == ObjectType && key !in old(instObject)))
      ensures ok ==> jsonType == ObjectType && Consistent()
      ensures ok ==> objectList == (if old(jsonType) == ObjectType then old(objectList) else []) + [ListEntry(key, value)]
      ensures !ok ==> unchanged(this)
    {
      hide InStep, Find, KeysOf;
      EmptyInStep();
      ok := EnsureDictionary();
      if !ok {
        return;
      }
      if key in instObject {
        return false;
      }
      KeyMissing(objectList, instObject, key);
      PutInStep(objectList, instObject, key, value);
      instObject := instObject[key := value];
      objectList := objectList + [ListEntry(key, value)];
    }

    method Remove(key: seq<unit>) returns (ok: bool)
      requires jsonType == ObjectType ==> Consistent()
      modifies this
      ensures ok == (old(jsonType) == ObjectType || old(jsonType) == NoType)
      ensures ok ==> jsonType == ObjectType && Consistent() && key !in instObject
      ensures ok && old(jsonType) == NoType ==> objectList == []
      ensures ok && old(jsonType) == ObjectType ==> forall i :: 0 <= i < |old(objectList)| && old(objectList)[i].key == key ==>
        objectList == old(objectList)[..i] + old(objectList)[i + 1..]
      ensures ok && old(jsonType) == ObjectType && key !in old(instObject) ==> objectList == old(objectList)
      ensures ok ==> instObject == (if old(jsonType) == ObjectType then old(instObject) else map[]) - {key}
      ensures !ok ==> unchanged(this)
    {
      hide InStep, Find, KeysOf;
      EmptyInStep();
      ok := EnsureDictionary();
      if !ok {
        return;
      }
      if key !in instObject { KeyMissing(objectList, instObject, key); }
      var i := 0;
      while i < |objectList| && objectList[i].key != key
        invariant 0 <= i <= |objectList| && forall j :: 0 <= j < i ==> objectList[j].key != key
      {
        i := i + 1;
      }
      if i < |objectList| {
        FindIs(objectList, i);
        OneOfItsKey(objectList, instObject, i);
        DropInStep(objectList, instObject, i);
        objectList := objectList[..i] + objectList[i + 1..];
      } else {
        NowhereFound(objectList, instObject, key);
      }
      instObject := instObject - {key};
    }

    method Clear()
      requires jsonType == ObjectType ==> Consistent()
      modifies this
      ensures jsonType == old(jsonType)
      ensures jsonType == ObjectType ==> Consistent() && objectList == []
      ensures jsonType == ArrayType ==> instArray == []
      ensures jsonType != ObjectType && jsonType != ArrayType ==> unchanged(this)
    {
      EmptyInStep();
      if jsonType == ObjectType {
        instObject, objectList := map[], [];
      } else if jsonType == ArrayType {
        instArray := [];
      }
    }

    method Add(value: JsonData?) returns (ok: bool)
      modifies this
      ensures ok == (old(jsonType) == ArrayType || old(jsonType) == NoType)
      ensures ok ==> jsonType == ArrayType && instArray == (if old(jsonType) == ArrayType then old(instArray) else []) + [value]
      ensures !ok ==> unchanged(this)
    {
      ok := EnsureList();
      if ok {
        instArray := instArray + [value];
      }
    }

    /** IOrderedDictionary.RemoveAt. Out of range is an exception, which leaves a fresh node an object. */
    method RemoveAt(index: nat) returns (ok: bool)
      requires jsonType == ObjectType ==> Consistent()
      modifies this
      ensures ok == (old(jsonType) == ObjectType && index < |old(objectList)|)
      ensures jsonType == if old(jsonType) == NoType then ObjectType else old(jsonType)
      ensures jsonType == ObjectType ==> Consistent()
      ensures ok ==> index < |old(objectList)| && objectList == old(objectList)[..index] + old(objectList)[index + 1..]
      ensures old(jsonType) != NoType && !ok ==> unchanged(this)
    {
      hide InStep;
      EmptyInStep();
      ok := EnsureDictionary();
      if !ok || index >= |objectList| {
        return false;
      }
      DropInStep(objectList, instObject, index);
      instObject := instObject - {objectList[index].key};
      objectList := objectList[..index] + objectList[index + 1..];
    }

    /**
     IOrderedDictionary.Insert adds the key twice: at the end by the indexer, unless it is there already, and
     once more at `index`. This is the one mutator that does not keep the list in step.
     */
    method Insert(index: nat, key: seq<unit>, value: JsonData?) returns (ok: bool)
      requires jsonType == ObjectType ==> Consistent()
      modifies this
      ensures var was, usable := if old(jsonType) == ObjectType then old(objectList) else [], old(jsonType) in {ObjectType, NoType};
        && (ok ==> index < |objectList| && objectList[index] == ListEntry(key, value) && !Consistent() &&
                   IsPut(was, key, value, objectList[..index] + objectList[index + 1..]))
        && (usable && !ok ==> IsPut(was, key, value, objectList) && Consistent() && index > |objectList|)
        && (!usable ==> !ok)
      ensures old(jsonType) != ObjectType && old(jsonType) != NoType ==> unchanged(this)
    {
      hide InStep, KeysOf;
      ghost var was := if jsonType == ObjectType then objectList else [];
      ok := SetItem(key, value);
      if !ok || index > |objectList| {
        return false;
      }
      PutThere(was, key, value);
      Twice(objectList, instObject, index, key, value);
      ghost var put := objectList;
      objectList := objectList[..index] + [ListEntry(key, value)] + objectList[index..];
      assert objectList[..index] + objectList[index + 1..] == put;
    }
  }

  // ----- Objects in memory and what they stand for -----

  /** `obj`, with everything below it in `repr`, stands for `d`. A null reference stands for null. */
  ghost predicate Represents(obj: JsonData?, d: Data, repr: set<JsonData>)
    reads repr
    decreases d
  {
    if d.NullData? then obj == null
    else
      obj != null && obj in repr &&
      match d
      case BooleanData(b) => obj.jsonType == BooleanType && obj.instBoolean == b
      case IntData(n) => obj.jsonType == IntType && obj.instInt == n
      case LongData(n) => obj.jsonType == LongType && obj.instLong == n
      case DoubleData(digits) => obj.jsonType == DoubleType && obj.instDouble == digits
      case StringData(text) => obj.jsonType == StringType && obj.instString == text
      case ArrayData(items) =>
        && obj.jsonType == ArrayType && |obj.instArray| == |items|
        && forall i :: 0 <= i < |items| ==> Represents(obj.instArray[i], items[i], repr)
      case ObjectData(entries) =>
        && obj.jsonType == ObjectType && obj.Consistent() && |obj.objectList| == |entries|
        && forall i :: 0 <= i < |entries| ==>
             obj.objectList[i].key == entries[i].key && Represents(obj.objectList[i].value, entries[i].value, repr)
  }

  lemma {:induction false} RepresentsInLarger(obj: JsonData?, d: Data, repr: set<JsonData>, larger: set<JsonData>)
    requires Represents(obj, d, repr) && repr <= larger
    ensures Represents(obj, d, larger)
    decreases d
  {
    if d.ArrayData? {
      forall i | 0 <= i < |d.items| ensures Represents(obj.instArray[i], d.items[i], larger) {
        RepresentsInLarger(obj.instArray[i], d.items[i], repr, larger);
      }
    } else if d.ObjectData? {
      forall i | 0 <= i < |d.entries| ensures Represents(obj.objectList[i].value, d.entries[i].value, larger) {
        RepresentsInLarger(obj.objectList[i].value, d.entries[i].value, repr, larger);
      }
    }
  }

  // ----- The tree that a value is printed as, and back -----

  function TreeOf(d: Data): Tree
    decreases d
  {
    match d
    case NullData => NullTree
    case BooleanData(b) => if b then TrueTree else FalseTree
    case IntData(n) => NumberTree(Decimal(n))
    case LongData(n) => NumberTree(Decimal(n))
    case DoubleData(digits) => NumberTree(digits)
    case StringData(text) => StringTree(text)
    case ArrayData(items) => ArrayTree(TreesOf(items))
    case ObjectData(entries) => ObjectTree(MembersOf(entries))
  }

  function TreesOf(items: seq<Data>): Trees
    decreases items
  {
    if items == [] then Nil else Cons(TreeOf(items[0]), TreesOf(items[1..]))
  }

  function MembersOf(entries: seq<KeyValue>): Members
    decreases entries
  {
    if entries == [] then Empty else Member(entries[0].key, TreeOf(entries[0].value), MembersOf(entries[1..]))
  }

  lemma {:induction false} TreesSnoc(items: seq<Data>, d: Data)
    ensures TreesOf(items + [d]) == SnocItem(TreesOf(items), TreeOf(d))
  {
    if items == [] {
      assert [d][1..] == [];
    } else {
      TreesSnoc(items[1..], d);
      assert (items + [d])[1..] == items[1..] + [d];
    }
  }

  lemma {:induction false} MembersSnocOf(entries: seq<KeyValue>, e: KeyValue)
    ensures MembersOf(entries + [e]) == SnocMember(MembersOf(entries), e.key, TreeOf(e.value))
  {
    if entries == [] {
      assert [e][1..] == [];
    } else {
      MembersSnocOf(entries[1..], e);
      assert (entries + [e])[1..] == entries[1..] + [e];
    }
  }

  /** No doubles, whose printing is the library's. */
  ghost predicate Printable(d: Data) {
    match d
    case DoubleData(_) => false
    case ArrayData(items) => forall i :: 0 <= i < |items| ==> Printable(items[i])
    case ObjectData(entries) => forall i :: 0 <= i < |entries| ==> Printable(entries[i].value)
    case _ => true
  }

  predicate IsContainer(d: Data) { d.ArrayData? || d.ObjectData? }

  /** Where the writer must stand for `d` to be in place. */
  predicate InPlace(d: Data, frames: Frames) { if IsContainer(d) then TakesContainer(frames) else TakesValue(frames) }

  method WriteJson(obj: JsonData?, writer: JsonWriter, ghost d: Data, ghost repr: set<JsonData>)
    requires Represents(obj, d, repr) && Printable(d) && writer.Valid() && InPlace(d, writer.frames)
    modifies writer, writer.hexSeq
    ensures writer.Valid() && writer.Layout() == old(writer.Layout()) && writer.frames == AddValue(old(writer.frames), TreeOf(d))
    decreases d
  {
    hide LaidOut, Agrees, IntegralFrames;
    if obj == null {
      var _ := writer.WriteString(None);
    } else if obj.jsonType == StringType {
      var _ := writer.WriteString(Some(obj.instString));
    } else if obj.jsonType == BooleanType {
      var _ := writer.WriteBoolean(obj.instBoolean);
    } else if obj.jsonType == IntType {
      var _ := writer.WriteInteger(obj.instInt);
    } else if obj.jsonType == LongType {
      var _ := writer.WriteInteger(obj.instLong);
    } else if obj.jsonType == ArrayType {
      WriteArray(obj, writer, d, repr);
    } else {
      WriteObject(obj, writer, d, repr);
    }
  }

  method WriteArray(obj: JsonData, writer: JsonWriter, ghost d: Data, ghost repr: set<JsonData>)
    requires d.ArrayData? && Represents(obj, d, repr) && Printable(d) && writer.Valid() && TakesContainer(writer.frames)
    modifies writer, writer.hexSeq
    ensures writer.Valid() && writer.Layout() == old(writer.Layout()) && writer.frames == AddValue(old(writer.frames), TreeOf(d))
    decreases d, 0
  {
    hide LaidOut, Agrees, IntegralFrames;
    ghost var outer := writer.frames;
    var _ := writer.WriteStart(true);
    assert d.items[..0] == [];
    for i := 0 to |obj.instArray|
      invariant Represents(obj, d, repr) && obj.instArray == old(obj.instArray)
      invariant writer.Valid() && writer.Layout() == old(writer.Layout()) && writer.frames == InArray(TreesOf(d.items[..i]), outer)
    {
      WriteJson(obj.instArray[i], writer, d.items[i], repr);
      assert d.items[..i + 1] == d.items[..i] + [d.items[i]];
      TreesSnoc(d.items[..i], d.items[i]);
    }
    assert d.items[..|d.items|] == d.items;
    var _ := writer.WriteEnd(true);
  }

  method WriteEntry(entry: ListEntry, writer: JsonWriter, ghost e: KeyValue, ghost repr: set<JsonData>,
        ghost members: Members, ghost outer: Frames)
    requires entry.key == e.key && Represents(entry.value, e.value, repr) && Printable(e.value)
    requires writer.Valid() && writer.frames == InObject(members, None, outer)
    modifies writer, writer.hexSeq
    ensures writer.Valid() && writer.Layout() == old(writer.Layout()) && writer.frames == InObject(SnocMember(members, e.key, TreeOf(e.value)), None, outer)
    decreases e, 1
  {
    hide LaidOut, Agrees, IntegralFrames;
    var _ := writer.WritePropertyName(entry.key);
    WriteJson(entry.value, writer, e.value, repr);
  }

  method WriteEntries(list: seq<ListEntry>, writer: JsonWriter, ghost entries: seq<KeyValue>, ghost repr: set<JsonData>,
        ghost outer: Frames)
    requires |list| == |entries| && writer.Valid() && writer.frames == InObject(Empty, None, outer)
    requires forall i :: 0 <= i < |list| ==>
      list[i].key == entries[i].key && Represents(list[i].value, entries[i].value, repr) && Printable(entries[i].value)
    modifies writer, writer.hexSeq
    ensures writer.Valid() && writer.Layout() == old(writer.Layout()) && writer.frames == InObject(MembersOf(entries), None, outer)
    decreases entries
  {
    hide LaidOut, Agrees, IntegralFrames, TreeOf;
    assert entries[..0] == [];
    for i := 0 to |list|
      invariant writer.Valid() && writer.Layout() == old(writer.Layout()) && writer.frames == InObject(MembersOf(entries[..i]), None, outer)
    {
      WriteEntry(list[i], writer, entries[i], repr, MembersOf(entries[..i]), outer);
      assert entries[..i + 1] == entries[..i] + [entries[i]];
      MembersSnocOf(entries[..i], entries[i]);
    }
    assert entries[..|entries|] == entries;
  }

  method WriteObject(obj: JsonData, writer: JsonWriter, ghost d: Data, ghost repr: set<JsonData>)
    requires d.ObjectData? && Represents(obj, d, repr) && Printable(d) && writer.Valid() && TakesContainer(writer.frames)
    modifies writer, writer.hexSeq
    ensures writer.Valid() && writer.Layout() == old(writer.Layout()) && writer.frames == AddValue(old(writer.frames), TreeOf(d))
    decreases d, 0
  {
    hide LaidOut, Agrees, IntegralFrames;
    ghost var outer := writer.frames;
    var _ := writer.WriteStart(false);
    WriteEntries(obj.objectList, writer, d.entries, repr, outer);
    var _ := writer.WriteEnd(false);
  }

  // ----- Reading back -----

  /** The value a number token is boxed as; a ulong under the Long token cannot be unboxed as a long. */
  function NumberData(text: seq<unit>): Option<Data> {
    match NumberEvent(text).value
    case IntValue(n) => Some(IntData(n))
    case LongValue(n) => Some(LongData(n))
    case DoubleValue(digits) => Some(DoubleData(digits))
    case _ => None
  }

  predicate Readable(t: Tree)
    decreases t
  {
    match t
    case NumberTree(text) => NumberData(text).Some?
    case ArrayTree(items) => ReadableItems(items)
    case ObjectTree(members) => ReadableMembers(members)
    case _ => true
  }

  predicate ReadableItems(items: Trees)
    decreases items
  {
    items.Cons? ==> Readable(items.head) && ReadableItems(items.tail)
  }

  predicate ReadableMembers(members: Members)
    decreases members
  {
    members.Member? ==> Readable(members.value) && ReadableMembers(members.rest)
  }

  function KeysIn(entries: seq<KeyValue>): (keys: seq<seq<unit>>)
    ensures |keys| == |entries| && forall i :: 0 <= i < |entries| ==> keys[i] == entries[i].key
  {
    seq(|entries|, i requires 0 <= i < |entries| => entries[i].key)
  }

  /** A repeated key overwrites its value and keeps its first place. */
  function PutValue(entries: seq<KeyValue>, e: KeyValue): seq<KeyValue> {
    var i := Find(KeysIn(entries), e.key);
    if i < |entries| then entries[i := e] else entries + [e]
  }

  /** What a parse tree is read as. */
  function FromTree(t: Tree): Data
    requires Readable(t)
    decreases t
  {
    match t
    case NumberTree(text) => NumberData(text).value
    case TrueTree => BooleanData(true)
    case FalseTree => BooleanData(false)
    case NullTree => NullData
    case StringTree(text) => StringData(text)
    case ArrayTree(items) => ArrayData(FromItems([], items))
    case ObjectTree(members) => ObjectData(FromMembers([], members))
  }

  function FromItems(done: seq<Data>, items: Trees): seq<Data>
    requires ReadableItems(items)
    decreases items
  {
    if items.Nil? then done else FromItems(done + [FromTree(items.head)], items.tail)
  }

  function FromMembers(done: seq<KeyValue>, members: Members): seq<KeyValue>
    requires ReadableMembers(members)
    decreases members
  {
    if members.Empty? then done
    else FromMembers(PutValue(done, KeyValue(members.key, FromTree(members.value))), members.rest)
  }

  datatype ReadResult = Threw | Got(data: JsonData?)

  /** The reader can go on. */
  ghost predicate Mid(reader: JsonReader)
    reads reader, reader.lexer
  {
    reader.Valid() && !reader.endOfJson && reader.Stream() != EndOfText
  }

  /** After something that started at `was`: at `rest` if the text is sound, else closer to where it breaks off. */
  ghost predicate Moved(reader: JsonReader, was: Run, rest: Run)
    reads reader, reader.lexer
  {
    && reader.Valid() && Length(reader.Upcoming()) < Length(was)
    && (reader.Upcoming().Emits? || !Succeeds(was) ==> Mid(reader))
    && if Succeeds(was) then reader.Upcoming() == rest else !Succeeds(reader.Upcoming())
  }

  lemma EndingOfEvent(run: Run)
    ensures run.Emits? ==> Ending(run) == Ending(run.run) && Length(run) == Length(run.run) + 1
    ensures Broken(run) || (run.Emits? && Broken(run.run)) ==> !Succeeds(run)
  {
  }

  /** One event; an empty text has none. */
  method NextEvent(reader: JsonReader) returns (thrown: bool)
    requires reader.Valid() && !reader.endOfJson
    modifies reader, reader.lexer
    ensures thrown ==> old(reader.Stream()) != EndOfText && !Succeeds(old(reader.Upcoming()))
    ensures old(reader.Stream()) == EndOfText ==> reader.token == NoToken
    ensures !thrown && old(reader.Stream()) != EndOfText ==>
      reader.Valid() && old(reader.Upcoming()) == Emits(Event(reader.token, reader.tokenValue), reader.Upcoming()) &&
      Moved(reader, old(reader.Upcoming()), reader.Upcoming())
  {
    hide Parse, Tokenize, Good;
    ghost var was := reader.Upcoming();
    assert reader.AtStart() == was;
    var r := reader.Read();
    thrown := r == Thrown;
    EndingOfEvent(was);
    if !thrown && old(reader.Stream()) != EndOfText {
      assert Reported(reader, r, was);
      if reader.endOfJson { Finished(reader); }
    }
  }

  /** The events of an item, or of the end of the items. */
  function Expected(what: Option<Tree>, rest: Run): Run {
    if what.None? then Emits(Event(ArrayEnd, NoValue), rest) else EventsThen(what.value, rest)
  }

  /** Where a value or the end of an array can be read. */
  predicate ReadsValue(at: Position) { at.Start? || at.ValueIn? || (at.In? && at.context.Items?) }

  function ContextOf(at: Position): Context { if at.Start? then Outside else at.context }

  /** Where it leads to. */
  function Past(at: Position, closes: bool): Position
    requires ReadsValue(at)
  {
    match at
    case Start => In(Outside)
    case ValueIn(context) => In(context)
    case In(context) => if closes then In(context.outer) else at
  }

  /** What an event leads to where a value or the end of an array can be read. */
  lemma Leads(run: Run, at: Position)
    requires run.Emits? && ReadsValue(at) && Nested(run, at)
    ensures var token := run.event.token;
      if token == ArrayStart then Nested(run.run, In(Items(ContextOf(at))))
      else if token == ObjectStart then Nested(run.run, In(Entries(ContextOf(at))))
      else Nested(run.run, Past(at, token == ArrayEnd))
    ensures Past(at, false) == In(ContextOf(at))
  {
  }

  /** What ReadValue has to return where `what` was expected. */
  ghost predicate ReadBack(reader: JsonReader, r: ReadResult, repr: set<JsonData>, what: Option<Tree>)
    reads reader, repr
  {
    if what.None? then r == Got(null) && reader.token == ArrayEnd
    else if !Readable(what.value) then r == Threw
    else
      && r.Got? && (r.data == null ==> reader.token != ArrayEnd)
      && Represents(r.data, FromTree(what.value), repr)
  }

  ghost predicate ItemsRepresent(objs: seq<JsonData?>, items: seq<Data>, repr: set<JsonData>)
    reads repr
  {
    |objs| == |items| && forall i :: 0 <= i < |items| ==> Represents(objs[i], items[i], repr)
  }

  lemma EventsAreEmits(t: Tree, run: Run)
    ensures EventsThen(t, run).Emits?
  {
  }

  /** A scalar's only event, unboxed into the instance; false is a failed cast. */
  method SetScalar(instance: JsonData, token: JsonToken, value: TokenValue) returns (ok: bool)
    modifies instance
    ensures token == StringToken && value.StringValue? ==> ok && instance.jsonType == StringType && instance.instString == value.text
    ensures token == IntToken && value.IntValue? ==> ok && instance.jsonType == IntType && instance.instInt == value.int32
    ensures token == LongToken && value.LongValue? ==> ok && instance.jsonType == LongType && instance.instLong == value.int64
    ensures token == LongToken && value.ULongValue? ==> !ok
    ensures token == DoubleToken && value.DoubleValue? ==> ok && instance.jsonType == DoubleType && instance.instDouble == value.digits
    ensures token == BooleanToken && value.BooleanValue? ==> ok && instance.jsonType == BooleanType && instance.instBoolean == value.boolean
    ensures token == NoToken ==> ok && instance.jsonType == old(instance.jsonType)
  {
    ok := true;
    if token == StringToken && value.StringValue? {
      instance.SetString(value.text);
    } else if token == DoubleToken && value.DoubleValue? {
      instance.SetDouble(value.digits);
    } else if token == IntToken && value.IntValue? {
      instance.SetInt(value.int32);
    } else if token == LongToken && value.LongValue? {
      instance.SetLong(value.int64);
    } else if token == BooleanToken && value.BooleanValue? {
      instance.SetBoolean(value.boolean);
    } else if token in {StringToken, DoubleToken, IntToken, LongToken, BooleanToken} {
      ok := false;
    }
  }

  /** What the loop over items keeps: `done` is read, `left` is still to come. */
  ghost predicate ItemsLeft(ahead: Run, items: Trees, rest: Run, done: seq<Data>, left: Trees) {
    && Succeeds(ahead) && ahead == ItemEvents(left, Emits(Event(ArrayEnd, NoValue), rest))
    && (ReadableItems(items) <==> ReadableItems(left))
    && (ReadableItems(left) ==> FromItems(done, left) == FromItems([], items))
  }

  /** What ReadValue is to expect next, and what comes behind it. */
  ghost function NextItem(left: Trees): Option<Tree> { if left.Cons? then Some(left.head) else None }

  ghost function BehindItem(left: Trees, rest: Run): Run {
    if left.Cons? then ItemEvents(left.tail, Emits(Event(ArrayEnd, NoValue), rest)) else rest
  }

  lemma ItemsAhead(ahead: Run, items: Trees, rest: Run, done: seq<Data>, left: Trees)
    requires ItemsLeft(ahead, items, rest, done, left)
    ensures Succeeds(ahead) && ahead == Expected(NextItem(left), BehindItem(left, rest))
    ensures left.Nil? ==> ReadableItems(items) && done == FromItems([], items) && BehindItem(left, rest) == rest
    ensures left.Cons? && !Readable(left.head) ==> !ReadableItems(items)
  {
    hide Ending, EventsThen, Readable;
  }

  lemma ItemRead(ahead: Run, items: Trees, rest: Run, done: seq<Data>, left: Trees)
    requires ItemsLeft(ahead, items, rest, done, left) && left.Cons? && Readable(left.head)
    ensures var behind := BehindItem(left, rest);
      behind.Emits? && Succeeds(behind) && ItemsLeft(behind, items, rest, done + [FromTree(left.head)], left.tail)
  {
    hide EventsThen, FromTree, Readable;
    var end := Emits(Event(ArrayEnd, NoValue), rest);
    EndingThen(left.head, ItemEvents(left.tail, end));
    if left.tail.Cons? { EventsAreEmits(left.tail.head, ItemEvents(left.tail.tail, end)); }
  }

  /** `((IList) instance).Add (item)` */
  method StoreItem(instance: JsonData, item: JsonData?, ghost done: seq<Data>, ghost repr: set<JsonData>,
        ghost d: Data, ghost more: set<JsonData>, ghost sound: bool)
    requires instance.jsonType == ArrayType && instance !in repr + more
    requires sound ==> ItemsRepresent(instance.instArray, done, repr) && Represents(item, d, more)
    modifies instance
    ensures instance.jsonType == ArrayType
    ensures sound ==> ItemsRepresent(instance.instArray, done + [d], repr + more)
  {
    hide Represents;
    ghost var objs := instance.instArray;
    if sound {
      forall i | 0 <= i < |done| ensures Represents(objs[i], done[i], repr + more) {
        RepresentsInLarger(objs[i], done[i], repr, repr + more);
      }
      RepresentsInLarger(item, d, more, repr + more);
    }
    var _ := instance.Add(item);
  }

  method ReadItems(reader: JsonReader, instance: JsonData, ghost items: Trees, ghost rest: Run, ghost outer: Context)
    returns (threw: bool, ghost repr: set<JsonData>)
    requires Mid(reader) && instance.jsonType == ArrayType && instance.instArray == []
    requires Nested(reader.Upcoming(), In(Items(outer)))
    requires Succeeds(reader.Upcoming()) ==> reader.Upcoming() == ItemEvents(items, Emits(Event(ArrayEnd, NoValue), rest))
    modifies reader, reader.lexer, instance
    ensures fresh(repr) && instance !in repr
    ensures Succeeds(old(reader.Upcoming())) ==> threw == !ReadableItems(items)
    ensures Succeeds(old(reader.Upcoming())) && !threw ==>
      instance.jsonType == ArrayType && ItemsRepresent(instance.instArray, FromItems([], items), repr)
    ensures !threw ==> Moved(reader, old(reader.Upcoming()), rest) && Nested(reader.Upcoming(), In(outer))
    decreases Length(reader.Upcoming()), 1
  {
    hide Parse, Tokenize, Good, Ending, Represents, ItemsRepresent, ItemsLeft, FromTree, BehindItem, Length, Nested;
    ghost var was, sound := reader.Upcoming(), Succeeds(reader.Upcoming());
    ghost var done: seq<Data>, left := [], items;
    repr := {};
    ItemsStart(reader.Upcoming(), items, rest);
    while true
      invariant fresh(repr) && instance !in repr && instance.jsonType == ArrayType
      invariant Mid(reader) && Length(reader.Upcoming()) <= Length(was) && sound == Succeeds(reader.Upcoming())
      invariant sound ==> ItemsLeft(reader.Upcoming(), items, rest, done, left)
      invariant sound ==> ItemsRepresent(instance.instArray, done, repr)
      invariant Nested(reader.Upcoming(), In(Items(outer)))
      decreases Length(reader.Upcoming())
    {
      if sound { ItemsAhead(reader.Upcoming(), items, rest, done, left); }
      ghost var ahead := reader.Upcoming();
      var item, more := ReadValue(reader, NextItem(left), BehindItem(left, rest), In(Items(outer)));
      if item.Threw? {
        return true, repr;
      }
      if item.data == null && reader.token == ArrayEnd {
        return false, repr;
      }
      if sound { ItemRead(ahead, items, rest, done, left); }
      ghost var d := if sound then FromTree(left.head) else NullData;
      StoreItem(instance, item.data, done, repr, d, more, sound);
      repr, done := repr + more, done + [d];
      if sound { left := left.tail; }
    }
  }

  lemma ItemsStart(ahead: Run, items: Trees, rest: Run)
    requires Succeeds(ahead) ==> ahead == ItemEvents(items, Emits(Event(ArrayEnd, NoValue), rest))
    ensures Succeeds(ahead) ==> ItemsLeft(ahead, items, rest, [], items)
    ensures ItemsRepresent([], [], {})
  {
    hide Ending;
  }

  // ... and the same for the members of an object.

  ghost predicate EntriesRepresent(list: seq<ListEntry>, entries: seq<KeyValue>, repr: set<JsonData>)
    reads repr
  {
    |list| == |entries| && forall i :: 0 <= i < |entries| ==>
      list[i].key == entries[i].key && Represents(list[i].value, entries[i].value, repr)
  }

  ghost predicate MembersLeft(ahead: Run, members: Members, rest: Run, done: seq<KeyValue>, left: Members) {
    && Succeeds(ahead) && ahead == MemberEvents(left, Emits(Event(ObjectEnd, NoValue), rest))
    && (ReadableMembers(members) <==> ReadableMembers(left))
    && (ReadableMembers(left) ==> FromMembers(done, left) == FromMembers([], members))
  }

  /** The key's event, the value behind it, and what is left then. */
  ghost function BehindMember(left: Members, rest: Run): Run {
    if left.Member? then MemberEvents(left.rest, Emits(Event(ObjectEnd, NoValue), rest)) else rest
  }

  lemma MembersAhead(ahead: Run, members: Members, rest: Run, done: seq<KeyValue>, left: Members)
    requires MembersLeft(ahead, members, rest, done, left)
    ensures ahead == (if left.Empty? then Emits(Event(ObjectEnd, NoValue), rest)
      else Emits(Event(PropertyName, StringValue(left.key)), EventsThen(left.value, BehindMember(left, rest))))
    ensures left.Member? ==> EventsThen(left.value, BehindMember(left, rest)).Emits?
    ensures left.Empty? ==> ReadableMembers(members) && done == FromMembers([], members)
    ensures left.Member? && !Readable(left.value) ==> !ReadableMembers(members)
  {
    hide Ending, EventsThen, Readable;
    if left.Member? { EventsAreEmits(left.value, BehindMember(left, rest)); }
  }

  lemma MemberRead(ahead: Run, members: Members, rest: Run, done: seq<KeyValue>, left: Members)
    requires MembersLeft(ahead, members, rest, done, left) && left.Member? && Readable(left.value)
    ensures var behind := BehindMember(left, rest);
      && behind.Emits? && Succeeds(behind)
      && MembersLeft(behind, members, rest, PutValue(done, KeyValue(left.key, FromTree(left.value))), left.rest)
  {
    hide EventsThen, FromTree, Readable, PutValue;
    EndingThen(left.value, BehindMember(left, rest));
  }

  /** `((IDictionary) instance)[property] = item` */
  method StoreEntry(instance: JsonData, property: seq<unit>, item: JsonData?, ghost done: seq<KeyValue>,
        ghost repr: set<JsonData>, ghost d: Data, ghost more: set<JsonData>, ghost sound: bool)
    requires instance.jsonType == ObjectType && instance.Consistent() && instance !in repr + more
    requires sound ==> EntriesRepresent(instance.objectList, done, repr) && Represents(item, d, more)
    modifies instance
    ensures instance.jsonType == ObjectType && instance.Consistent()
    ensures sound ==> EntriesRepresent(instance.objectList, PutValue(done, KeyValue(property, d)), repr + more)
  {
    hide Represents, Find, InStep;
    ghost var list := instance.objectList;
    if sound {
      forall i | 0 <= i < |done| ensures Represents(list[i].value, done[i].value, repr + more) {
        RepresentsInLarger(list[i].value, done[i].value, repr, repr + more);
      }
      RepresentsInLarger(item, d, more, repr + more);
      assert KeysOf(list) == KeysIn(done);
    }
    var _ := instance.SetItem(property, item);
  }

  lemma LeadsOn(run: Run, outer: Context)
    requires run.Emits? && Nested(run, In(Entries(outer)))
    ensures Nested(run.run, if run.event.token == ObjectEnd then In(outer) else ValueIn(Entries(outer)))
    ensures Past(ValueIn(Entries(outer)), false) == In(Entries(outer)) == Past(ValueIn(Entries(outer)), true)
  {
  }

  method ReadMembers(reader: JsonReader, instance: JsonData, ghost members: Members, ghost rest: Run, ghost outer: Context)
    returns (threw: bool, ghost repr: set<JsonData>)
    requires Mid(reader) && Nested(reader.Upcoming(), In(Entries(outer)))
    requires instance.jsonType == ObjectType && instance.objectList == [] && instance.Consistent()
    requires Succeeds(reader.Upcoming()) ==> reader.Upcoming() == MemberEvents(members, Emits(Event(ObjectEnd, NoValue), rest))
    modifies reader, reader.lexer, instance
    ensures fresh(repr) && instance !in repr
    ensures Succeeds(old(reader.Upcoming())) ==> threw == !ReadableMembers(members)
    ensures Succeeds(old(reader.Upcoming())) && !threw ==> instance.jsonType == ObjectType && instance.Consistent()
    ensures Succeeds(old(reader.Upcoming())) && !threw ==> EntriesRepresent(instance.objectList, FromMembers([], members), repr)
    ensures !threw ==> Moved(reader, old(reader.Upcoming()), rest) && Nested(reader.Upcoming(), In(outer))
    decreases Length(reader.Upcoming()), 1
  {
    hide Parse, Tokenize, Good, Ending, Represents, EntriesRepresent, MembersLeft, FromTree, PutValue, InStep, BehindMember, Nested, Past;
    ghost var was, sound := reader.Upcoming(), Succeeds(reader.Upcoming());
    ghost var done: seq<KeyValue>, left := [], members;
    repr := {};
    MembersStart(reader.Upcoming(), members, rest);
    while true
      invariant fresh(repr) && instance !in repr && instance.jsonType == ObjectType && instance.Consistent()
      invariant Mid(reader) && Length(reader.Upcoming()) <= Length(was) && sound == Succeeds(reader.Upcoming())
      invariant sound ==> MembersLeft(reader.Upcoming(), members, rest, done, left)
      invariant sound ==> EntriesRepresent(instance.objectList, done, repr)
      invariant Nested(reader.Upcoming(), In(Entries(outer)))
      decreases Length(reader.Upcoming())
    {
      if sound { MembersAhead(reader.Upcoming(), members, rest, done, left); }
      EndingOfEvent(reader.Upcoming());
      if reader.Upcoming().Emits? { LeadsOn(reader.Upcoming(), outer); }
      ghost var ahead := reader.Upcoming();
      var thrown := NextEvent(reader);
      if thrown {
        return true, repr;
      }
      if reader.token == ObjectEnd {
        return false, repr;
      }
      if !reader.tokenValue.StringValue? {
        return true, repr;
      }
      var property := reader.tokenValue.text;
      var item, more := ReadValue(reader, if left.Member? then Some(left.value) else None, BehindMember(left, rest), ValueIn(Entries(outer)));
      if item.Threw? {
        return true, repr;
      }
      if sound { MemberRead(ahead, members, rest, done, left); }
      ghost var d := if sound then FromTree(left.value) else NullData;
      StoreEntry(instance, property, item.data, done, repr, d, more, sound);
      repr, done := repr + more, PutValue(done, KeyValue(property, d));
      if sound { left := left.rest; }
    }
  }

  lemma MembersStart(ahead: Run, members: Members, rest: Run)
    requires Succeeds(ahead) ==> ahead == MemberEvents(members, Emits(Event(ObjectEnd, NoValue), rest))
    ensures Succeeds(ahead) ==> MembersLeft(ahead, members, rest, [], members)
    ensures EntriesRepresent([], [], {})
  {
    hide Ending;
  }

  method ReadArray(reader: JsonReader, ghost t: Tree, ghost rest: Run, ghost sound: bool, ghost outer: Context)
    returns (r: ReadResult, ghost repr: set<JsonData>)
    requires Mid(reader) && sound == Succeeds(reader.Upcoming()) && Nested(reader.Upcoming(), In(Items(outer)))
    requires sound ==> t.ArrayTree? && reader.Upcoming() == ItemEvents(t.items, Emits(Event(ArrayEnd, NoValue), rest))
    modifies reader, reader.lexer
    ensures fresh(repr)
    ensures sound ==> if !Readable(t) then r == Threw else r.Got? && r.data != null && Represents(r.data, FromTree(t), repr)
    ensures r.Got? ==> r.data != null && Moved(reader, old(reader.Upcoming()), rest) && Nested(reader.Upcoming(), In(outer))
    decreases Length(reader.Upcoming()), 2
  {
    hide Parse, Tokenize, Good, Ending, Nested;
    var instance := new JsonData();
    instance.SetJsonType(ArrayType);
    var threw, parts := ReadItems(reader, instance, if t.ArrayTree? then t.items else Nil, rest, outer);
    if threw {
      return Threw, {};
    }
    if sound { ArrayRepresents(instance, FromItems([], t.items), parts); }
    return Got(instance), parts + {instance};
  }

  lemma ArrayRepresents(obj: JsonData, items: seq<Data>, parts: set<JsonData>)
    requires obj.jsonType == ArrayType && ItemsRepresent(obj.instArray, items, parts)
    ensures Represents(obj, ArrayData(items), parts + {obj})
  {
    forall i | 0 <= i < |items| ensures Represents(obj.instArray[i], items[i], parts + {obj}) {
      RepresentsInLarger(obj.instArray[i], items[i], parts, parts + {obj});
    }
  }

  method ReadObject(reader: JsonReader, ghost t: Tree, ghost rest: Run, ghost sound: bool, ghost outer: Context)
    returns (r: ReadResult, ghost repr: set<JsonData>)
    requires Mid(reader) && sound == Succeeds(reader.Upcoming()) && Nested(reader.Upcoming(), In(Entries(outer)))
    requires sound ==> t.ObjectTree? && reader.Upcoming() == MemberEvents(t.members, Emits(Event(ObjectEnd, NoValue), rest))
    modifies reader, reader.lexer
    ensures fresh(repr)
    ensures sound ==> if !Readable(t) then r == Threw else r.Got? && r.data != null && Represents(r.data, FromTree(t), repr)
    ensures r.Got? ==> r.data != null && Moved(reader, old(reader.Upcoming()), rest) && Nested(reader.Upcoming(), In(outer))
    decreases Length(reader.Upcoming()), 2
  {
    hide Parse, Tokenize, Good, Ending, Nested;
    var instance := new JsonData();
    instance.SetJsonType(ObjectType);
    EmptyInStep();
    var threw, parts := ReadMembers(reader, instance, if t.ObjectTree? then t.members else Empty, rest, outer);
    if threw {
      return Threw, {};
    }
    if sound { ObjectRepresents(instance, FromMembers([], t.members), parts); }
    return Got(instance), parts + {instance};
  }

  lemma ObjectRepresents(obj: JsonData, entries: seq<KeyValue>, parts: set<JsonData>)
    requires obj.jsonType == ObjectType && obj.Consistent() && EntriesRepresent(obj.objectList, entries, parts)
    ensures Represents(obj, ObjectData(entries), parts + {obj})
  {
    forall i | 0 <= i < |entries| ensures Represents(obj.objectList[i].value, entries[i].value, parts + {obj}) {
      RepresentsInLarger(obj.objectList[i].value, entries[i].value, parts, parts + {obj});
    }
  }

  lemma InsideEmits(items: Trees, members: Members, end: Run)
    requires end.Emits?
    ensures ItemEvents(items, end).Emits? && MemberEvents(members, end).Emits?
  {
    if items.Cons? { EventsAreEmits(items.head, ItemEvents(items.tail, end)); }
  }

  lemma NoEventWithoutTokens(reader: JsonReader)
    requires reader.Valid()
    ensures reader.Stream() == EndOfText && !reader.endOfJson ==> !Succeeds(reader.Upcoming())
  {
    hide Tokenize;
    if reader.Stream() == EndOfText && !reader.endOfJson { Dead(reader.automatonStack, EndOfText, START); }
  }

  /** The first event of what is expected. */
  lemma FirstEvent(what: Option<Tree>, rest: Run)
    ensures var run := Expected(what, rest); run.Emits? && Ending(run) == Ending(run.run)
    ensures var e := Expected(what, rest).event.token;
      && (e == ArrayEnd <==> what.None?)
      && (e == NullToken <==> what == Some(NullTree))
      && (e == ArrayStart <==> what.Some? && what.value.ArrayTree?)
      && (e == ObjectStart <==> what.Some? && what.value.ObjectTree?)
    ensures what.Some? && IsText(what.value) ==> Expected(what, rest).run.Emits?
  {
    if what.Some? && what.value.ArrayTree? {
      InsideEmits(what.value.items, Empty, Emits(Event(ArrayEnd, NoValue), rest));
    } else if what.Some? && what.value.ObjectTree? {
      InsideEmits(Nil, what.value.members, Emits(Event(ObjectEnd, NoValue), rest));
    }
  }

  lemma ScalarRead(instance: JsonData, t: Tree, rest: Run, ok: bool)
    requires !t.ArrayTree? && !t.ObjectTree? && !t.NullTree?
    requires var e := EventsThen(t, rest).event;
      && (e.token == StringToken && e.value.StringValue? ==> ok && instance.jsonType == StringType && instance.instString == e.value.text)
      && (e.token == IntToken && e.value.IntValue? ==> ok && instance.jsonType == IntType && instance.instInt == e.value.int32)
      && (e.token == LongToken && e.value.LongValue? ==> ok && instance.jsonType == LongType && instance.instLong == e.value.int64)
      && (e.token == LongToken && e.value.ULongValue? ==> !ok)
      && (e.token == DoubleToken && e.value.DoubleValue? ==> ok && instance.jsonType == DoubleType && instance.instDouble == e.value.digits)
      && (e.token == BooleanToken && e.value.BooleanValue? ==> ok && instance.jsonType == BooleanType && instance.instBoolean == e.value.boolean)
    ensures ok == Readable(t) && (ok ==> Represents(instance, FromTree(t), {instance}))
    ensures EventsThen(t, rest).run == rest
  {
  }

  /**
   ReadValue: the next value as a fresh tree of objects, null for a null literal, and null at the end of
   an array. A number beyond int64 ends in an exception. In a text that breaks off further on, a value can
   still be read, but not the outermost one: what is read is nested like a text.
   */
  method ReadValue(reader: JsonReader, ghost what: Option<Tree>, ghost rest: Run, ghost at: Position)
    returns (r: ReadResult, ghost repr: set<JsonData>)
    requires reader.Valid() && !reader.endOfJson && ReadsValue(at) && Nested(reader.Upcoming(), at)
    requires Succeeds(reader.Upcoming()) ==> reader.Upcoming() == Expected(what, rest)
    modifies reader, reader.lexer
    ensures fresh(repr)
    ensures Succeeds(old(reader.Upcoming())) ==> ReadBack(reader, r, repr, what)
    ensures r.Got? && old(reader.Stream()) != EndOfText ==>
      && Moved(reader, old(reader.Upcoming()), rest)
      && Nested(reader.Upcoming(), Past(at, r.data == null && reader.token == ArrayEnd))
    ensures old(reader.Stream()) == EndOfText ==> r.Got? && r.data != null && r.data.jsonType == NoType
    decreases Length(reader.Upcoming()), 0
  {
    hide Parse, Tokenize, Good, Ending, ItemEvents, MemberEvents, Nested, Past;
    ghost var sound := Succeeds(reader.Upcoming());
    FirstEvent(what, rest);
    EndingOfEvent(reader.Upcoming());
    if reader.Upcoming().Emits? { Leads(reader.Upcoming(), at); }
    NoEventWithoutTokens(reader);
    var thrown := NextEvent(reader);
    if thrown {
      return Threw, {};
    }
    if reader.token == ArrayEnd || reader.token == NullToken {
      return Got(null), {};
    }
    if reader.token == ArrayStart {
      r, repr := ReadArray(reader, if what.Some? then what.value else NullTree, rest, sound, ContextOf(at));
    } else if reader.token == ObjectStart {
      r, repr := ReadObject(reader, if what.Some? then what.value else NullTree, rest, sound, ContextOf(at));
    } else {
      var instance := new JsonData();
      var ok := SetScalar(instance, reader.token, reader.tokenValue);
      if sound { ScalarRead(instance, what.value, rest, ok); }
      r, repr := if ok then Got(instance) else Threw, {instance};
    }
  }

  // ----- There and back -----

  /** What survives: everything, except that a Long in the range of an int comes back as an Int. */
  function Normal(d: Data): Data
    decreases d
  {
    match d
    case LongData(n) => if -0x8000_0000 <= n < 0x8000_0000 then IntData(n) else d
    case ArrayData(items) => ArrayData(NormalItems(items))
    case ObjectData(entries) => ObjectData(NormalEntries(entries))
    case _ => d
  }

  function NormalItems(items: seq<Data>): seq<Data>
    decreases items
  {
    if items == [] then [] else [Normal(items[0])] + NormalItems(items[1..])
  }

  function NormalEntries(entries: seq<KeyValue>): (r: seq<KeyValue>)
    ensures |r| == |entries| && forall i :: 0 <= i < |r| ==> r[i].key == entries[i].key
    decreases entries
  {
    if entries == [] then [] else [KeyValue(entries[0].key, Normal(entries[0].value))] + NormalEntries(entries[1..])
  }

  lemma {:induction false} PrintedComesBack(d: Data)
    requires WellFormed(d) && Printable(d)
    ensures Readable(TreeOf(d)) && FromTree(TreeOf(d)) == Normal(d)
    decreases d
  {
    hide Decimal, NumberEvent;
    match d
    case IntData(n) => IntegerComesBack(n);
    case LongData(n) => IntegerComesBack(n);
    case ArrayData(items) =>
      ItemsComeBack([], items);
      assert [] + NormalItems(items) == NormalItems(items);
    case ObjectData(entries) =>
      assert KeysIn([]) + KeysIn(entries) == KeysIn(entries);
      EntriesComeBack([], entries);
      assert [] + NormalEntries(entries) == NormalEntries(entries);
    case _ =>
  }

  lemma {:induction false} ItemsComeBack(done: seq<Data>, items: seq<Data>)
    requires forall i :: 0 <= i < |items| ==> WellFormed(items[i]) && Printable(items[i])
    ensures ReadableItems(TreesOf(items)) && FromItems(done, TreesOf(items)) == done + NormalItems(items)
    decreases items
  {
    hide TreeOf, FromTree, Normal, Readable, WellFormed, Printable;
    if items != [] {
      var first := Normal(items[0]);
      PrintedComesBack(items[0]);
      ItemsComeBack(done + [first], items[1..]);
      assert TreesOf(items) == Cons(TreeOf(items[0]), TreesOf(items[1..]));
      Joined(done, first, NormalItems(items[1..]));
    } else {
      assert done + NormalItems(items) == done;
    }
  }

  predicate AllDistinct(keys: seq<seq<unit>>) { forall i, j :: 0 <= i < j < |keys| ==> keys[i] != keys[j] }

  lemma NewKey(done: seq<KeyValue>, e: KeyValue, more: seq<seq<unit>>)
    requires AllDistinct(KeysIn(done) + [e.key] + more)
    ensures PutValue(done, e) == done + [e]
  {
    var keys := KeysIn(done) + [e.key] + more;
    assert keys[|done|] == e.key;
    assert forall i :: 0 <= i < |done| ==> KeysIn(done)[i] == keys[i];
  }

  lemma OneKeyOver(done: seq<KeyValue>, e: KeyValue, entries: seq<KeyValue>)
    requires entries != [] && e == KeyValue(entries[0].key, Normal(entries[0].value))
    ensures KeysIn(done) + [e.key] + KeysIn(entries[1..]) == KeysIn(done) + KeysIn(entries)
    ensures KeysIn(done + [e]) + KeysIn(entries[1..]) == KeysIn(done) + KeysIn(entries)
    ensures done + [e] + NormalEntries(entries[1..]) == done + NormalEntries(entries)
  {
    hide Normal, KeysIn;
    KeysSnoc(done, e);
    KeysCons(entries);
    Joined(KeysIn(done), e.key, KeysIn(entries[1..]));
    Joined(done, e, NormalEntries(entries[1..]));
  }

  lemma Joined<T>(a: seq<T>, x: T, b: seq<T>)
    ensures a + [x] + b == a + ([x] + b)
  {
  }

  lemma KeysSnoc(done: seq<KeyValue>, e: KeyValue)
    ensures KeysIn(done + [e]) == KeysIn(done) + [e.key]
  {
  }

  lemma KeysCons(entries: seq<KeyValue>)
    requires entries != []
    ensures KeysIn(entries) == [entries[0].key] + KeysIn(entries[1..])
  {
  }

  lemma {:induction false} EntriesComeBack(done: seq<KeyValue>, entries: seq<KeyValue>)
    requires forall i :: 0 <= i < |entries| ==> WellFormed(entries[i].value) && Printable(entries[i].value)
    requires AllDistinct(KeysIn(done) + KeysIn(entries))
    ensures ReadableMembers(MembersOf(entries)) && FromMembers(done, MembersOf(entries)) == done + NormalEntries(entries)
    decreases entries
  {
    hide TreeOf, FromTree, Normal, Readable, WellFormed, Printable, PutValue, AllDistinct, KeysIn, Find;
    if entries != [] {
      var e := KeyValue(entries[0].key, Normal(entries[0].value));
      PrintedComesBack(entries[0].value);
      OneKeyOver(done, e, entries);
      NewKey(done, e, KeysIn(entries[1..]));
      EntriesComeBack(done + [e], entries[1..]);
    } else {
      assert done + NormalEntries(entries) == done;
    }
  }

  /** ToJson: a fresh writer that does not validate prints the page of the tree. */
  method ToJson(obj: JsonData, prettyPrint: bool, ghost d: Data, ghost repr: set<JsonData>) returns (text: seq<unit>)
    requires Represents(obj, d, repr) && Printable(d) && IsContainer(d)
    ensures text == Page(TreeOf(d), if prettyPrint then Indented(4) else Compact)
    ensures TokensOf(text) == TokensThen(TreeOf(d), EndOfText)
  {
    hide LaidOut, Agrees, IntegralFrames, TokensOf, Page;
    var writer := new JsonWriter(prettyPrint);
    writer.validate := false;
    WriteJson(obj, writer, d, repr);
    Complete(writer);
    text := writer.text;
  }

  lemma OnlyTree(s: Stream, t: Tree, rest: Stream)
    requires s == TokensThen(t, rest)
    ensures forall u, more :: s == TokensThen(u, more) ==> u == t
  {
    hide TokensThen;
    forall u, more | s == TokensThen(u, more) ensures u == t { Unambiguous(t, u, rest, more); }
  }

  /** A text all of whose numbers can be unboxed. */
  ghost predicate BeginsReadably(s: Stream) {
    exists t, rest :: IsText(t) && rest != LexicalError && s == TokensThen(t, rest) && Readable(t)
  }

  /** In front of the end of a text nothing is closed. */
  lemma StillInside(reader: JsonReader)
    requires Mid(reader)
    ensures !Nested(reader.Upcoming(), In(Outside))
  {
    hide Parse, Tokenize, Good;
    StreamIsPlain(reader);
    NoSilentStop(reader.automatonStack, reader.Stream(), START);
  }

  /**
   ToObject: there is no exception exactly when the text begins with a sentence all of whose numbers can be
   unboxed; then the tree of that sentence is what is read. Only the empty text gives an object of no type.
   */
  method ToObject(text: seq<unit>) returns (r: ReadResult, ghost repr: set<JsonData>)
    ensures fresh(repr)
    ensures TokensOf(text) != EndOfText ==> (r.Got? <==> BeginsReadably(TokensOf(text)))
    ensures forall t, rest :: IsText(t) && rest != LexicalError && TokensOf(text) == TokensThen(t, rest) ==>
      if Readable(t) then r.Got? && Represents(r.data, FromTree(t), repr) else r == Threw
    ensures TokensOf(text) == EndOfText ==> r.Got? && r.data != null && r.data.jsonType == NoType
  {
    hide Parse, Tokenize, Good, TokensThen, EventsThen, Represents, FromTree, Readable, Nested;
    var reader := new JsonReader(text);
    ghost var s := reader.Stream();
    StreamIsPlain(reader);
    AcceptsExactlyTexts(s);
    EveryRunNests(s);
    ghost var what, rest := Some(NullTree), EndOfText;
    if Succeeds(reader.Upcoming()) {
      var t;
      t, rest := SplitText(s);
      ParseText(t, rest);
      what := Some(t);
      OnlyTree(s, t, rest);
    }
    r, repr := ReadValue(reader, what, Stops(rest), Start);
    if r.Got? && s != EndOfText && Mid(reader) { StillInside(reader); }
  }

  /**
   Printing a tree, indented or not, and reading the text gives the same tree with the keys in the same
   order, Longs in the range of an int turned into Ints.
   */
  method RoundTrip(obj: JsonData, prettyPrint: bool, ghost d: Data, ghost repr: set<JsonData>)
    returns (r: ReadResult, ghost copy: set<JsonData>)
    requires Represents(obj, d, repr) && WellFormed(d) && Printable(d) && IsContainer(d)
    ensures fresh(copy) && r.Got? && Represents(r.data, Normal(d), copy)
  {
    hide TokensOf, Represents, TokensThen, FromTree, Readable, Normal, Page;
    var text := ToJson(obj, prettyPrint, d, repr);
    PrintedComesBack(d);
    assert IsText(TreeOf(d));
    r, copy := ToObject(text);
  }
}