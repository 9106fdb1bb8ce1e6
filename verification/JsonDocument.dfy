/**
 Whole texts as RFC 4627 allows them, section 2: any spelling of numbers and strings, and blanks around every
 structural character. Each is read as the tree that it spells.
 */
module JsonDocument {
  import opened JsonSymbols
  import opened JsonLexer
  import opened JsonGrammar
  import opened JsonReader
  import opened JsonText
  import JsonSpelling

  /** A value with all that can be chosen about its text. */
  datatype Value =
    | NumberValue(number: JsonSpelling.Number) | TrueLiteral | FalseLiteral | NullLiteral
    | StringPieces(pieces: seq<JsonSpelling.Piece>)
    | ArrayValue(blank: seq<unit>, items: Items) | ObjectValue(blank: seq<unit>, members: Entries)
  /** The blanks before and after an item; those of an empty array belong to the array. */
  datatype Items = NoItem | Item(before: seq<unit>, value: Value, after: seq<unit>, tail: Items)
  datatype Entries =
    | NoEntry
    | Entry(before: seq<unit>, key: seq<JsonSpelling.Piece>, gap: seq<unit>, lead: seq<unit>, value: Value, after: seq<unit>, tail: Entries)

  predicate Sound(v: Value) {
    match v
    case NumberValue(n) => JsonSpelling.Accepted(n)
    case StringPieces(ps) => JsonSpelling.AllSound(34, ps)
    case ArrayValue(blank, items) => Blank(blank) && SoundItems(items)
    case ObjectValue(blank, members) => Blank(blank) && SoundEntries(members)
    case _ => true
  }

  predicate SoundItems(items: Items) {
    items.Item? ==> Blank(items.before) && Sound(items.value) && Blank(items.after) && SoundItems(items.tail)
  }

  predicate SoundEntries(members: Entries) {
    members.Entry? ==>
      && Blank(members.before) && JsonSpelling.AllSound(34, members.key) && Blank(members.gap) && Blank(members.lead)
      && Sound(members.value) && Blank(members.after) && SoundEntries(members.tail)
  }

  // ----- What the RFC allows, and no more -----

  /** Space, tab, line feed and carriage return. */
  predicate ProperBlank(s: seq<unit>) { forall k :: 0 <= k < |s| ==> s[k] == 32 || s[k] == 9 || s[k] == 10 || s[k] == 13 }

  /** Control characters must be escaped, and an apostrophe must not. */
  predicate ProperPiece(p: JsonSpelling.Piece) {
    JsonSpelling.SoundIn(34, p) && (p.Plainly? ==> p.c >= 32) && (p.Shortly? ==> p.e != 39)
  }

  predicate ProperPieces(ps: seq<JsonSpelling.Piece>) { forall k :: 0 <= k < |ps| ==> ProperPiece(ps[k]) }

  /** An exponent has digits. */
  predicate ProperNumber(n: JsonSpelling.Number) { JsonSpelling.Accepted(n) && !JsonSpelling.Dangling(n) }

  predicate Proper(v: Value) {
    match v
    case NumberValue(n) => ProperNumber(n)
    case StringPieces(ps) => ProperPieces(ps)
    case ArrayValue(blank, items) => ProperBlank(blank) && ProperItems(items)
    case ObjectValue(blank, members) => ProperBlank(blank) && ProperEntries(members)
    case _ => true
  }

  predicate ProperItems(items: Items) {
    items.Item? ==> ProperBlank(items.before) && Proper(items.value) && ProperBlank(items.after) && ProperItems(items.tail)
  }

  predicate ProperEntries(members: Entries) {
    members.Entry? ==>
      && ProperBlank(members.before) && ProperPieces(members.key) && ProperBlank(members.gap) && ProperBlank(members.lead)
      && Proper(members.value) && ProperBlank(members.after) && ProperEntries(members.tail)
  }

  // ----- Spelling -----

  function Spelling(v: Value): seq<unit> {
    match v
    case NumberValue(n) => JsonSpelling.NumberText(n)
    case TrueLiteral => [116, 114, 117, 101]
    case FalseLiteral => [102, 97, 108, 115, 101]
    case NullLiteral => [110, 117, 108, 108]
    case StringPieces(ps) => JsonSpelling.StringText(ps)
    case ArrayValue(blank, items) => [91] + ((if items.NoItem? then blank else ItemText(items)) + [93])
    case ObjectValue(blank, members) => [123] + ((if members.NoEntry? then blank else EntryText(members)) + [125])
  }

  /** `value, value, ...` */
  function ItemText(items: Items): seq<unit>
    requires items.Item?
  {
    items.before + (Spelling(items.value) + (items.after + if items.tail.NoItem? then [] else [44] + ItemText(items.tail)))
  }

  /** `"key": value, "key": value, ...` */
  function EntryText(members: Entries): seq<unit>
    requires members.Entry?
  {
    members.before + (JsonSpelling.StringText(members.key) + (members.gap + ([58] + (members.lead + (Spelling(members.value) +
      (members.after + if members.tail.NoEntry? then [] else [44] + EntryText(members.tail)))))))
  }

  /** What a value spells. */
  function Spells(v: Value): Tree
    requires Sound(v)
  {
    match v
    case NumberValue(n) => NumberTree(JsonSpelling.NumberText(n))
    case TrueLiteral => TrueTree
    case FalseLiteral => FalseTree
    case NullLiteral => NullTree
    case StringPieces(ps) => StringTree(JsonSpelling.PiecesUnits(ps))
    case ArrayValue(_, items) => ArrayTree(SpellsItems(items))
    case ObjectValue(_, members) => ObjectTree(SpellsEntries(members))
  }

  function SpellsItems(items: Items): Trees
    requires SoundItems(items)
  {
    if items.NoItem? then Nil else Cons(Spells(items.value), SpellsItems(items.tail))
  }

  function SpellsEntries(members: Entries): Members
    requires SoundEntries(members)
  {
    if members.NoEntry? then Empty
    else Member(JsonSpelling.PiecesUnits(members.key), Spells(members.value), SpellsEntries(members.tail))
  }

  lemma BlankThenDelimited(blank: seq<unit>, c: unit, rest: seq<unit>)
    requires Blank(blank) && Closes(c)
    ensures Delimited(blank + ([c] + rest))
  {
    if blank != [] { assert (blank + ([c] + rest))[0] == blank[0]; } else { assert (blank + ([c] + rest))[0] == c; }
  }

  lemma LiteralRead(v: Value, rest: seq<unit>)
    requires v.TrueLiteral? || v.FalseLiteral? || v.NullLiteral?
    ensures TokensOf(Spelling(v) + rest) == TokensThen(Spells(v), TokensOf(rest))
  {
    hide TokensOf;
    match v
    case TrueLiteral => TrueLexed(rest); assert Spelling(v) == TRUE;
    case FalseLiteral => FalseLexed(rest); assert Spelling(v) == FALSE;
    case NullLiteral => NullLexed(rest); assert Spelling(v) == NULL;
  }

  /** Every value, behind a delimiter if it is a number, is read as what it spells. */
  lemma {:induction false} ValueRead(v: Value, rest: seq<unit>)
    requires Sound(v) && (v.NumberValue? ==> Delimited(rest))
    ensures TokensOf(Spelling(v) + rest) == TokensThen(Spells(v), TokensOf(rest))
    decreases v, 1
  {
    hide TokensOf, JsonSpelling.Accepted, JsonSpelling.NumberText, JsonSpelling.StringText, JsonSpelling.PiecesUnits;
    match v
    case NumberValue(n) => JsonSpelling.NumberRead(n, rest);
    case StringPieces(ps) => JsonSpelling.StringRead(ps, rest);
    case ArrayValue(_, _) => ArrayRead(v, rest);
    case ObjectValue(_, _) => ObjectRead(v, rest);
    case _ => LiteralRead(v, rest);
  }

  lemma {:induction false} ArrayRead(v: Value, rest: seq<unit>)
    requires Sound(v) && v.ArrayValue?
    ensures TokensOf(Spelling(v) + rest) == TokensThen(Spells(v), TokensOf(rest))
    decreases v, 0
  {
    hide TokensOf;
    var inside := if v.items.NoItem? then v.blank else ItemText(v.items);
    assert Spelling(v) + rest == [91] + (inside + ([93] + rest));
    PunctuationLexed(91, inside + ([93] + rest));
    PunctuationLexed(93, rest);
    if v.items.NoItem? {
      BlankSkipped(v.blank, [93] + rest);
    } else {
      ItemsRead(v.items, rest);
    }
  }

  lemma {:induction false} ItemsRead(items: Items, rest: seq<unit>)
    requires SoundItems(items) && items.Item?
    ensures TokensOf(ItemText(items) + ([93] + rest)) == ItemsThen(SpellsItems(items), TokensOf([93] + rest))
    decreases items
  {
    hide TokensOf, Sound, Spelling, Spells, Blank, TokensThen;
    var behind := (if items.tail.NoItem? then [] else [44] + ItemText(items.tail)) + ([93] + rest);
    assert ItemText(items) + ([93] + rest) == items.before + (Spelling(items.value) + (items.after + behind));
    BlankSkipped(items.before, Spelling(items.value) + (items.after + behind));
    if items.tail.NoItem? {
      assert behind == [93] + rest;
      BlankThenDelimited(items.after, 93, rest);
    } else {
      assert behind == [44] + (ItemText(items.tail) + ([93] + rest));
      BlankThenDelimited(items.after, 44, ItemText(items.tail) + ([93] + rest));
      PunctuationLexed(44, ItemText(items.tail) + ([93] + rest));
      ItemsRead(items.tail, rest);
      MoreItems(SpellsItems(items.tail), TokensOf([93] + rest));
    }
    ValueRead(items.value, items.after + behind);
    BlankSkipped(items.after, behind);
  }

  lemma MoreItems(items: Trees, s: Stream)
    requires items.Cons?
    ensures MoreItemsThen(items, s) == Next(Plain(COMMA), ItemsThen(items, s))
  {
  }

  lemma {:induction false} ObjectRead(v: Value, rest: seq<unit>)
    requires Sound(v) && v.ObjectValue?
    ensures TokensOf(Spelling(v) + rest) == TokensThen(Spells(v), TokensOf(rest))
    decreases v, 0
  {
    hide TokensOf;
    var inside := if v.members.NoEntry? then v.blank else EntryText(v.members);
    assert Spelling(v) + rest == [123] + (inside + ([125] + rest));
    PunctuationLexed(123, inside + ([125] + rest));
    PunctuationLexed(125, rest);
    if v.members.NoEntry? {
      BlankSkipped(v.blank, [125] + rest);
    } else {
      EntriesRead(v.members, rest);
    }
  }

  lemma {:induction false} EntriesRead(members: Entries, rest: seq<unit>)
    requires SoundEntries(members) && members.Entry?
    ensures TokensOf(EntryText(members) + ([125] + rest)) == MembersThen(SpellsEntries(members), TokensOf([125] + rest))
    decreases members
  {
    hide TokensOf, Sound, Spelling, Spells, Blank, TokensThen, JsonSpelling.StringText, JsonSpelling.PiecesUnits, JsonSpelling.AllSound;
    var behind := (if members.tail.NoEntry? then [] else [44] + EntryText(members.tail)) + ([125] + rest);
    var value := members.lead + (Spelling(members.value) + (members.after + behind));
    assert EntryText(members) + ([125] + rest)
        == members.before + (JsonSpelling.StringText(members.key) + (members.gap + ([58] + value)));
    BlankSkipped(members.before, JsonSpelling.StringText(members.key) + (members.gap + ([58] + value)));
    JsonSpelling.StringRead(members.key, members.gap + ([58] + value));
    BlankSkipped(members.gap, [58] + value);
    PunctuationLexed(58, value);
    BlankSkipped(members.lead, Spelling(members.value) + (members.after + behind));
    if members.tail.NoEntry? {
      assert behind == [125] + rest;
      BlankThenDelimited(members.after, 125, rest);
    } else {
      assert behind == [44] + (EntryText(members.tail) + ([125] + rest));
      BlankThenDelimited(members.after, 44, EntryText(members.tail) + ([125] + rest));
      PunctuationLexed(44, EntryText(members.tail) + ([125] + rest));
      EntriesRead(members.tail, rest);
      MoreEntries(SpellsEntries(members.tail), TokensOf([125] + rest));
    }
    ValueRead(members.value, members.after + behind);
    BlankSkipped(members.after, behind);
  }

  lemma MoreEntries(members: Members, s: Stream)
    requires members.Member?
    ensures MoreMembersThen(members, s) == Next(Plain(COMMA), MembersThen(members, s))
  {
  }

  /** A whole text: an array or object between blanks. */
  lemma TextRead(before: seq<unit>, v: Value, after: seq<unit>)
    requires Blank(before) && Blank(after) && Sound(v) && (v.ArrayValue? || v.ObjectValue?)
    ensures IsText(Spells(v)) && TokensOf(before + Spelling(v) + after) == TokensThen(Spells(v), EndOfText)
  {
    hide TokensOf, Sound, Spelling, Spells;
    assert before + Spelling(v) + after == before + (Spelling(v) + after);
    BlankSkipped(before, Spelling(v) + after);
    ValueRead(v, after);
    assert after + [] == after;
    BlankSkipped(after, []);
    Nothing();
    IsSpelled(v);
  }

  lemma IsSpelled(v: Value)
    requires Sound(v) && (v.ArrayValue? || v.ObjectValue?)
    ensures IsText(Spells(v))
  {
  }

  lemma Nothing()
    ensures TokensOf([]) == EndOfText
  {
  }
}
