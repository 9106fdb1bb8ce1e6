/**
 The page that the writer prints, told from the tree alone, line by line; and that every such page, indented
 or not, is a text of RFC 4627 that spells the tree.
 */
module JsonLayout {
  import opened JsonSymbols
  import opened JsonGrammar
  import opened JsonReader
  import opened JsonText
  import opened JsonDocument
  import JsonSpelling

  // ----- Strings, unit by unit -----

  /** How many backslashes are at the end. */
  function Trailing(s: seq<unit>): nat { if s == [] || s[|s| - 1] != 92 then 0 else 1 + Trailing(s[..|s| - 1]) }

  /**
   Printable ASCII between two quotes. The quote at the end is preceded by an even number of backslashes,
   and every quote inside by an odd one.
   */
  predicate ProperlyQuoted(q: seq<unit>) {
    && |q| >= 2 && q[0] == 34 && q[|q| - 1] == 34
    && (forall k :: 0 <= k < |q| ==> 32 <= q[k] <= 126)
    && (forall k :: 0 < k < |q| - 1 && q[k] == 34 ==> Trailing(q[..k]) % 2 == 1)
    && Trailing(q[..|q| - 1]) % 2 == 0
  }

  /** ... but for the quote at the end. */
  predicate ProperlyOpen(s: seq<unit>) {
    && |s| >= 1 && s[0] == 34
    && (forall k :: 0 <= k < |s| ==> 32 <= s[k] <= 126)
    && (forall k :: 0 < k < |s| && s[k] == 34 ==> Trailing(s[..k]) % 2 == 1)
    && Trailing(s) % 2 == 0
  }

  lemma OneMore(s: seq<unit>, c: unit)
    ensures Trailing(s + [c]) == if c == 92 then Trailing(s) + 1 else 0
    ensures forall k :: 0 <= k <= |s| ==> (s + [c])[..k] == s[..k]
  {
    assert (s + [c])[..|s|] == s;
  }

  lemma PlainUnitOpen(s: seq<unit>, c: unit)
    requires ProperlyOpen(s) && 32 <= c <= 126 && c != 34 && c != 92
    ensures ProperlyOpen(s + [c])
  {
    OneMore(s, c);
  }

  lemma EscapedUnitOpen(s: seq<unit>, c: unit)
    requires ProperlyOpen(s) && 32 <= c <= 126
    ensures ProperlyOpen(s + [92, c])
  {
    OneMore(s, 92);
    OneMore(s + [92], c);
    assert s + [92, c] == s + [92] + [c];
    var t := s + [92] + [c];
    forall k | 0 < k < |t| && t[k] == 34 ensures Trailing(t[..k]) % 2 == 1 {
      if k <= |s| { assert t[..k] == s[..k]; } else { assert t[..k] == s + [92]; }
    }
  }

  lemma LongUnitOpen(s: seq<unit>, c: unit)
    requires ProperlyOpen(s)
    ensures ProperlyOpen(s + ([92, 117] + Hex4(c)))
  {
    hide ProperlyOpen;
    var d0, d1, d2, d3 := HexDigit(c / 4096), HexDigit(c / 256 % 16), HexDigit(c / 16 % 16), HexDigit(c % 16);
    EscapedUnitOpen(s, 117);
    PlainUnitOpen(s + [92, 117], d0);
    PlainUnitOpen(s + [92, 117] + [d0], d1);
    PlainUnitOpen(s + [92, 117] + [d0] + [d1], d2);
    PlainUnitOpen(s + [92, 117] + [d0] + [d1] + [d2], d3);
    assert s + ([92, 117] + Hex4(c)) == s + [92, 117] + [d0] + [d1] + [d2] + [d3];
  }

  lemma UnitOpen(s: seq<unit>, c: unit)
    requires ProperlyOpen(s)
    ensures ProperlyOpen(s + Escaped(c))
  {
    hide ProperlyOpen, Hex4;
    if c == 10 { EscapedUnitOpen(s, 110); }
    else if c == 13 { EscapedUnitOpen(s, 114); }
    else if c == 9 { EscapedUnitOpen(s, 116); }
    else if c == 34 || c == 92 { EscapedUnitOpen(s, c); }
    else if c == 12 { EscapedUnitOpen(s, 102); }
    else if c == 8 { EscapedUnitOpen(s, 98); }
    else if 32 <= c <= 126 { PlainUnitOpen(s, c); }
    else { LongUnitOpen(s, c); }
  }

  lemma {:induction false} UnitsOpen(str: seq<unit>)
    ensures ProperlyOpen([34] + EscapedAll(str))
  {
    hide Escaped;
    if str == [] {
      assert [34] + EscapedAll(str) == [34];
    } else {
      var front := EscapedAll(str[..|str| - 1]);
      UnitsOpen(str[..|str| - 1]);
      UnitOpen([34] + front, str[|str| - 1]);
      assert [34] + EscapedAll(str) == [34] + front + Escaped(str[|str| - 1]);
    }
  }

  /** No unit of any string breaks out of its quotes. */
  lemma QuotedProperly(str: seq<unit>)
    ensures ProperlyQuoted(Quoted(str))
  {
    hide EscapedAll;
    UnitsOpen(str);
    OneMore([34] + EscapedAll(str), 34);
  }

  /** The strings are printed unit by unit, ... */
  lemma {:induction false} UnitByUnit(a: seq<unit>, b: seq<unit>)
    ensures EscapedAll(a + b) == EscapedAll(a) + EscapedAll(b)
    decreases |b|
  {
    hide Escaped;
    if b == [] {
      assert a + b == a;
    } else {
      UnitByUnit(a, b[..|b| - 1]);
      assert (a + b)[..|a + b| - 1] == a + b[..|b| - 1];
    }
  }

  /** ... seven of them in short forms, printable ASCII as it is, and all others by four upper-case digits. */
  lemma OneUnit(c: unit)
    ensures var s := EscapedAll([c]);
      if c == 8 then s == [92, 98] else if c == 9 then s == [92, 116] else if c == 10 then s == [92, 110]
      else if c == 12 then s == [92, 102] else if c == 13 then s == [92, 114] else if c == 34 then s == [92, 34]
      else if c == 92 then s == [92, 92] else if 32 <= c <= 126 then s == [c]
      else
        && |s| == 6 && s[0] == 92 && s[1] == 117
        && (forall k :: 2 <= k < 6 ==> 48 <= s[k] <= 57 || 65 <= s[k] <= 70)
        && c == JsonSpelling.HexOf(s[2]) * 4096 + JsonSpelling.HexOf(s[3]) * 256 + JsonSpelling.HexOf(s[4]) * 16 + JsonSpelling.HexOf(s[5])
  {
    hide Hex4;
    OnlyOneUnit(c);
    LongUnit(c);
  }

  lemma OnlyOneUnit(c: unit)
    ensures EscapedAll([c]) == Escaped(c)
  {
    hide Escaped;
    assert [c][..0] == [] && EscapedAll([]) == [];
    assert EscapedAll([c]) == [] + Escaped(c);
  }

  lemma LongUnit(c: unit)
    ensures var s := [92, 117] + Hex4(c);
      && |s| == 6 && s[0] == 92 && s[1] == 117
      && (forall k :: 2 <= k < 6 ==> 48 <= s[k] <= 57 || 65 <= s[k] <= 70)
      && c == JsonSpelling.HexOf(s[2]) * 4096 + JsonSpelling.HexOf(s[3]) * 256 + JsonSpelling.HexOf(s[4]) * 16 + JsonSpelling.HexOf(s[5])
  {
    HexInverse(c);
  }

  // ----- Pages -----

  /** `pretty_print` and `indent_value`. */
  datatype Style = Compact | Indented(width: int)

  function Spaces(n: int): (s: seq<unit>)
    ensures |s| == (if n <= 0 then 0 else n) && forall k :: 0 <= k < |s| ==> s[k] == 32
  {
    if n <= 0 then [] else Spaces(n - 1) + [32]
  }

  /** A new line, indented. */
  function Break(style: Style, depth: nat): seq<unit> {
    if style.Compact? then [] else [10] + Spaces(style.width * depth)
  }

  function Wider(widest: nat, key: seq<unit>): nat { if |key| > widest then |key| else widest }

  /** Between a key and its value: the colon, below that of the widest key so far. */
  function Gap(style: Style, key: seq<unit>, widest: nat): seq<unit> {
    if style.Compact? then [58] else Spaces(widest - |key| + 1) + [58, 32]
  }

  function Printed(t: Tree, style: Style, depth: nat): seq<unit>
    decreases t
  {
    match t
    case NumberTree(text) => text
    case TrueTree => TRUE
    case FalseTree => FALSE
    case NullTree => NULL
    case StringTree(s) => Quoted(s)
    case ArrayTree(items) => [91] + PrintedItems(items, style, depth + 1) + Break(style, depth) + [93]
    case ObjectTree(members) => [123] + PrintedMembers(members, style, depth + 1, 0) + Break(style, depth) + [125]
  }

  /** Each item on a line of its own. */
  function PrintedItems(items: Trees, style: Style, depth: nat): seq<unit>
    decreases items
  {
    if items.Nil? then []
    else
      Break(style, depth) + Printed(items.head, style, depth) + (if items.tail.Nil? then [] else [44])
      + PrintedItems(items.tail, style, depth)
  }

  function PrintedMembers(members: Members, style: Style, depth: nat, widest: nat): seq<unit>
    decreases members
  {
    if members.Empty? then []
    else
      var now := Wider(widest, members.key);
      Break(style, depth) + Quoted(members.key) + Gap(style, members.key, now) + Printed(members.value, style, depth)
      + (if members.rest.Empty? then [] else [44]) + PrintedMembers(members.rest, style, depth, now)
  }

  /** A whole page begins with a new line too. */
  function Page(t: Tree, style: Style): seq<unit> { Break(style, 0) + Printed(t, style, 0) }

  function Units(s: string): seq<unit> { seq(|s|, i requires 0 <= i < |s| => if s[i] as int < 65536 then s[i] as int else 0) }

  function ItemsOfExample(): Trees { Cons(NumberTree(Units("1")), Cons(StringTree(Units("x\n")), Nil)) }

  /** An array and an object within an object. */
  function Example(): Tree {
    ObjectTree(Member(Units("long"), ArrayTree(ItemsOfExample()), Member(Units("a"), ObjectTree(Empty), Empty)))
  }

  lemma CompactExample()
    ensures Page(Example(), Compact)
         == Units("{\"long\":") + Units("[1,") + Units("\"x\\n\"") + Units("],") + Units("\"a\":") + Units("{}") + Units("}")
  {
    hide Quoted, PrintedItems, PrintedMembers;
    ItemsExample(Compact);
    MembersExample(Compact);
    assert Units("{\"long\":") == [123] + Units("\"long\"") + [58];
    assert Units("[1,") == [91] + Units("1,");
    assert Units("],") == [93, 44];
    assert Units("\"a\":") == Units("\"a\"") + [58];
    assert Units("{}") == [123, 125];
    assert Units("}") == [125];
    ExampleTogether(Units("\"long\""), Units("1,"), Units("\"x\\n\""), Units("\"a\""));
  }

  lemma ExampleTogether(long: seq<unit>, one: seq<unit>, x: seq<unit>, a: seq<unit>)
    ensures [] + ([123] + ([] + long + [58] + ([91] + ([] + one + [] + x) + [] + [93, 44]) + [] + a + [58] + ([123] + [] + [125])) + [] + [125])
      == ([123] + long + [58]) + ([91] + one) + x + [93, 44] + (a + [58]) + [123, 125] + [125]
  {
  }

  /** Line by line. */
  lemma PageExample()
    ensures Page(Example(), Indented(4)) ==
      Units("\n{") + Units("\n    \"long\" : [") + Units("\n        1,") + Units("\n        \"x\\n\"") + Units("\n    ],")
      + Units("\n    \"a\"    : {") + Units("\n    }") + Units("\n}")
  {
    hide Quoted, PrintedItems, PrintedMembers, Break, Gap, Units;
    var style := Indented(4);
    ItemsExample(style);
    MembersExample(style);
    LinesExample();
    ItemLinesExample();
    MoreLinesExample();
    LastLinesExample();
    assert Page(Example(), style) == Break(style, 0) + ([123] + PrintedMembers(Example().members, style, 1, 0) + Break(style, 0) + [125]);
    ExampleJoined(Units("\"long\""), Units("1,"), Units("\"x\\n\""), Units("\"a\""));
  }

  lemma LinesExample()
    ensures var style := Indented(4);
      && Units("\n{") == Break(style, 0) + [123]
      && Units("\n    \"long\" : [") == Break(style, 1) + Units("\"long\"") + Gap(style, Units("long"), 4) + [91]
  {
  }

  lemma ItemLinesExample()
    ensures var style := Indented(4);
      && Units("\n        1,") == Break(style, 2) + Units("1,")
      && Units("\n        \"x\\n\"") == Break(style, 2) + Units("\"x\\n\"")
  {
  }

  lemma MoreLinesExample()
    ensures var style := Indented(4);
      && Units("\n    ],") == Break(style, 1) + [93, 44]
      && Units("\n    }") == Break(style, 1) + [125] && Units("\n}") == Break(style, 0) + [125]
  {
  }

  lemma LastLinesExample()
    ensures var style := Indented(4);
      Units("\n    \"a\"    : {") == Break(style, 1) + Units("\"a\"") + Gap(style, Units("a"), 4) + [123]
  {
    var style := Indented(4);
    assert Break(style, 1) == Units("\n    ") && Gap(style, Units("a"), 4) == Units("    : ");
    hide Break, Gap, Spaces;
  }

  lemma ExampleJoined(long: seq<unit>, one: seq<unit>, x: seq<unit>, a: seq<unit>)
    ensures var style := Indented(4);
      var b0, b1, b2 := Break(style, 0), Break(style, 1), Break(style, 2);
      var wide, narrow := Gap(style, Units("long"), 4), Gap(style, Units("a"), 4);
      b0 + ([123] + (b1 + long + wide + ([91] + (b2 + one + b2 + x) + b1 + [93, 44]) + b1 + a + narrow + ([123] + b1 + [125])) + b0 + [125])
      == (b0 + [123]) + (b1 + long + wide + [91]) + (b2 + one) + (b2 + x) + (b1 + [93, 44]) + (b1 + a + narrow + [123]) + (b1 + [125]) + (b0 + [125])
  {
    hide Break, Gap;
  }

  lemma ItemsExample(style: Style)
    ensures PrintedItems(ItemsOfExample(), style, 2)
         == Break(style, 2) + Units("1,") + Break(style, 2) + Units("\"x\\n\"")
  {
    hide Quoted, Break;
    QuotedExamples();
    assert PrintedItems(Cons(StringTree(Units("x\n")), Nil), style, 2) == Break(style, 2) + Units("\"x\\n\"");
  }

  lemma MembersExample(style: Style)
    ensures PrintedMembers(Example().members, style, 1, 0)
         == Break(style, 1) + Units("\"long\"") + Gap(style, Units("long"), 4)
          + ([91] + PrintedItems(ItemsOfExample(), style, 2) + Break(style, 1) + [93, 44])
          + Break(style, 1) + Units("\"a\"") + Gap(style, Units("a"), 4) + ([123] + Break(style, 1) + [125])
  {
    hide Quoted, Break, Gap, PrintedItems, ItemsOfExample;
    QuotedExamples();
    assert PrintedMembers(Member(Units("a"), ObjectTree(Empty), Empty), style, 1, 4)
        == Break(style, 1) + Units("\"a\"") + Gap(style, Units("a"), 4) + ([123] + Break(style, 1) + [125]);
  }

  /** Printable ASCII but for quotes and backslashes. */
  lemma {:induction false} AllPlain(s: seq<unit>)
    requires forall k :: 0 <= k < |s| ==> 32 <= s[k] <= 126 && s[k] != 34 && s[k] != 92
    ensures EscapedAll(s) == s
  {
    hide Escaped, EscapedAll;
    if s == [] {
      NoUnits();
    } else {
      var front, last := s[..|s| - 1], s[|s| - 1];
      AllPlain(front);
      OneUnit(last);
      UnitByUnit(front, [last]);
      assert front + [last] == s;
    }
  }

  lemma QuotedExamples()
    ensures Quoted(Units("x\n")) == Units("\"x\\n\"") && Quoted(Units("long")) == Units("\"long\"") && Quoted(Units("a")) == Units("\"a\"")
  {
    hide EscapedAll;
    AllPlain(Units("long"));
    AllPlain(Units("a"));
    AllPlain(Units("x"));
    OneUnit(10);
    UnitByUnit(Units("x"), [10]);
    assert Units("x\n") == Units("x") + [10];
  }

  // ----- Every page is a document -----

  /** Numbers are integers, as the writer prints them. */
  ghost predicate Integral(t: Tree) {
    match t
    case NumberTree(text) => IsInteger(text) && text == Decimal(IntegerOf(text))
    case ArrayTree(items) => IntegralItems(items)
    case ObjectTree(members) => IntegralMembers(members)
    case _ => true
  }

  ghost predicate IntegralItems(items: Trees) { items.Cons? ==> Integral(items.head) && IntegralItems(items.tail) }

  ghost predicate IntegralMembers(members: Members) {
    members.Member? ==> Integral(members.value) && IntegralMembers(members.rest)
  }

  function PieceOf(c: unit): JsonSpelling.Piece {
    var s := EscapedAll([c]);
    if |s| == 6 then JsonSpelling.InHex(s[2], s[3], s[4], s[5])
    else if |s| == 2 then JsonSpelling.Shortly(s[1])
    else JsonSpelling.Plainly(c)
  }

  function PiecesOf(str: seq<unit>): seq<JsonSpelling.Piece> { seq(|str|, k requires 0 <= k < |str| => PieceOf(str[k])) }

  function IntegerNumber(n: int): JsonSpelling.Number {
    JsonSpelling.Number(n < 0, DecimalNat(if n < 0 then -n else n), None, JsonSpelling.NoExponent)
  }

  function DocumentOf(t: Tree, style: Style, depth: nat): Value
    decreases t
  {
    match t
    case NumberTree(text) => NumberValue(IntegerNumber(if IsInteger(text) then IntegerOf(text) else 0))
    case TrueTree => TrueLiteral
    case FalseTree => FalseLiteral
    case NullTree => NullLiteral
    case StringTree(s) => StringPieces(PiecesOf(s))
    case ArrayTree(items) => ArrayValue(Break(style, depth), DocumentItems(items, style, depth))
    case ObjectTree(members) => ObjectValue(Break(style, depth), DocumentMembers(members, style, depth, 0))
  }

  function DocumentItems(items: Trees, style: Style, depth: nat): Items
    decreases items
  {
    if items.Nil? then NoItem
    else
      Item(Break(style, depth + 1), DocumentOf(items.head, style, depth + 1),
           if items.tail.Nil? then Break(style, depth) else [], DocumentItems(items.tail, style, depth))
  }

  function DocumentMembers(members: Members, style: Style, depth: nat, widest: nat): Entries
    decreases members
  {
    if members.Empty? then NoEntry
    else
      var now := Wider(widest, members.key);
      Entry(Break(style, depth + 1), PiecesOf(members.key),
            if style.Compact? then [] else Spaces(now - |members.key| + 1), if style.Compact? then [] else [32],
            DocumentOf(members.value, style, depth + 1),
            if members.rest.Empty? then Break(style, depth) else [], DocumentMembers(members.rest, style, depth, now))
  }

  lemma PieceIsProper(c: unit)
    ensures ProperPiece(PieceOf(c)) && JsonSpelling.PieceText(PieceOf(c)) == EscapedAll([c]) && JsonSpelling.PieceUnit(PieceOf(c)) == c
  {
    hide EscapedAll;
    OneUnit(c);
  }

  lemma NoUnits()
    ensures EscapedAll([]) == []
  {
  }

  lemma {:induction false} PiecesTextOf(str: seq<unit>)
    ensures JsonSpelling.PiecesText(PiecesOf(str)) == EscapedAll(str)
    decreases |str|
  {
    hide EscapedAll, PieceOf, JsonSpelling.PieceText;
    if str == [] {
      NoUnits();
    } else {
      PieceIsProper(str[0]);
      PiecesTextOf(str[1..]);
      assert PiecesOf(str)[1..] == PiecesOf(str[1..]);
      UnitByUnit([str[0]], str[1..]);
      assert [str[0]] + str[1..] == str;
    }
  }

  lemma PiecesAreProper(str: seq<unit>)
    ensures ProperPieces(PiecesOf(str)) && JsonSpelling.AllSound(34, PiecesOf(str))
    ensures JsonSpelling.StringText(PiecesOf(str)) == Quoted(str) && JsonSpelling.PiecesUnits(PiecesOf(str)) == str
  {
    hide PieceOf, EscapedAll, JsonSpelling.PiecesText;
    forall c: unit { PieceIsProper(c); }
    PiecesTextOf(str);
  }

  lemma {:induction false} DecimalIsWhole(k: nat)
    ensures JsonSpelling.IsWhole(DecimalNat(k)) && (k > 0 ==> DecimalNat(k)[0] != 48)
  {
    if k >= 10 { DecimalIsWhole(k / 10); }
  }

  lemma NumberIsProper(n: int)
    ensures ProperNumber(IntegerNumber(n)) && JsonSpelling.NumberText(IntegerNumber(n)) == Decimal(n)
  {
    hide DecimalNat;
    DecimalIsWhole(if n < 0 then -n else n);
  }

  /** For every integer: its decimal form is one number. */
  lemma NumberLexed(n: int, rest: seq<unit>)
    requires Delimited(rest)
    ensures TokensOf(Decimal(n) + rest) == Next(Token(Number, Decimal(n)), TokensOf(rest))
  {
    hide TokensOf, Decimal, JsonSpelling.NumberText;
    NumberIsProper(n);
    JsonSpelling.NumberRead(IntegerNumber(n), rest);
  }

  /** For every UTF-16 string: quote, the very same units, quote. */
  lemma StringLexed(str: seq<unit>, rest: seq<unit>)
    ensures TokensOf(Quoted(str) + rest) == StringThen(str, TokensOf(rest))
  {
    hide TokensOf, Quoted, JsonSpelling.StringText, JsonSpelling.PiecesUnits, PiecesOf;
    PiecesAreProper(str);
    JsonSpelling.StringRead(PiecesOf(str), rest);
  }

  /** What is printed of a value is a value of the grammar with exactly that text. */
  lemma {:induction false} ValueIsDocument(t: Tree, style: Style, depth: nat)
    requires Integral(t)
    ensures var v := DocumentOf(t, style, depth);
      Proper(v) && Sound(v) && Spelling(v) == Printed(t, style, depth) && Spells(v) == t
    decreases t
  {
    hide Break, PiecesOf, Quoted, IntegerNumber, Decimal, IntegerOf, IsInteger, JsonSpelling.NumberText, JsonSpelling.StringText,
      JsonSpelling.PiecesUnits, JsonSpelling.Accepted, ProperBlank, Blank, DocumentItems, DocumentMembers, PrintedItems,
      PrintedMembers, ItemText, EntryText, ProperItems, ProperEntries, SoundItems, SoundEntries, SpellsItems, SpellsEntries;
    match t
    case NumberTree(text) => NumberIsProper(IntegerOf(text));
    case StringTree(s) => PiecesAreProper(s);
    case ArrayTree(items) =>
      ItemsAreDocument(items, style, depth);
      ArrayIsDocument(items, style, depth);
    case ObjectTree(members) =>
      MembersAreDocument(members, style, depth, 0);
      ObjectIsDocument(members, style, depth);
    case _ =>
  }

  lemma ArrayIsDocument(items: Trees, style: Style, depth: nat)
    requires var d := DocumentItems(items, style, depth);
      ProperItems(d) && SoundItems(d) && SpellsItems(d) == items && d.NoItem? == items.Nil?
    requires var d := DocumentItems(items, style, depth);
      if items.Nil? then PrintedItems(items, style, depth + 1) == []
      else ItemText(d) == PrintedItems(items, style, depth + 1) + Break(style, depth)
    ensures var v := DocumentOf(ArrayTree(items), style, depth);
      Proper(v) && Sound(v) && Spelling(v) == Printed(ArrayTree(items), style, depth) && Spells(v) == ArrayTree(items)
  {
    hide Break, ProperBlank, Blank, DocumentItems, PrintedItems, ItemText, ProperItems, SoundItems, SpellsItems;
    BlanksAreBlank();
  }

  lemma ObjectIsDocument(members: Members, style: Style, depth: nat)
    requires var d := DocumentMembers(members, style, depth, 0);
      ProperEntries(d) && SoundEntries(d) && SpellsEntries(d) == members && d.NoEntry? == members.Empty?
    requires var d := DocumentMembers(members, style, depth, 0);
      if members.Empty? then PrintedMembers(members, style, depth + 1, 0) == []
      else EntryText(d) == PrintedMembers(members, style, depth + 1, 0) + Break(style, depth)
    ensures var v := DocumentOf(ObjectTree(members), style, depth);
      Proper(v) && Sound(v) && Spelling(v) == Printed(ObjectTree(members), style, depth) && Spells(v) == ObjectTree(members)
  {
    hide Break, ProperBlank, Blank, DocumentMembers, PrintedMembers, EntryText, ProperEntries, SoundEntries, SpellsEntries;
    BlanksAreBlank();
  }

  lemma {:induction false} ItemsAreDocument(items: Trees, style: Style, depth: nat)
    requires IntegralItems(items)
    ensures var d := DocumentItems(items, style, depth);
      ProperItems(d) && SoundItems(d) && SpellsItems(d) == items && d.NoItem? == items.Nil?
    ensures var d := DocumentItems(items, style, depth);
      if items.Nil? then PrintedItems(items, style, depth + 1) == []
      else ItemText(d) == PrintedItems(items, style, depth + 1) + Break(style, depth)
    decreases items
  {
    hide Break, Integral, DocumentOf, Printed, Proper, Sound, Spelling, Spells, ProperBlank, Blank, ItemText;
    if items.Cons? {
      BlanksAreBlank();
      ValueIsDocument(items.head, style, depth + 1);
      ItemsAreDocument(items.tail, style, depth);
      ItemLine(items, style, depth);
    }
  }

  /** One line of an array, and the lines after it. */
  lemma ItemLine(items: Trees, style: Style, depth: nat)
    requires items.Cons?
    requires Spelling(DocumentOf(items.head, style, depth + 1)) == Printed(items.head, style, depth + 1)
    requires var d := DocumentItems(items.tail, style, depth);
      && d.NoItem? == items.tail.Nil?
      && (if items.tail.Nil? then PrintedItems(items.tail, style, depth + 1) == []
          else ItemText(d) == PrintedItems(items.tail, style, depth + 1) + Break(style, depth))
    ensures ItemText(DocumentItems(items, style, depth)) == PrintedItems(items, style, depth + 1) + Break(style, depth)
  {
    hide Break, Spelling, DocumentOf, Printed;
    var value, lines := Printed(items.head, style, depth + 1), PrintedItems(items.tail, style, depth + 1);
    var comma := if items.tail.Nil? then [] else [44];
    InLine([], [], Break(style, depth + 1), value, comma, lines, Break(style, depth));
  }

  lemma {:induction false} MembersAreDocument(members: Members, style: Style, depth: nat, widest: nat)
    requires IntegralMembers(members)
    ensures var d := DocumentMembers(members, style, depth, widest);
      ProperEntries(d) && SoundEntries(d) && SpellsEntries(d) == members && d.NoEntry? == members.Empty?
    ensures var d := DocumentMembers(members, style, depth, widest);
      if members.Empty? then PrintedMembers(members, style, depth + 1, widest) == []
      else EntryText(d) == PrintedMembers(members, style, depth + 1, widest) + Break(style, depth)
    decreases members
  {
    hide Break, Integral, DocumentOf, Printed, Proper, Sound, Spelling, Spells, ProperBlank, Blank, PiecesOf, Quoted,
      JsonSpelling.StringText, JsonSpelling.PiecesUnits, JsonSpelling.AllSound, EntryText, ProperPieces, PrintedMembers, Gap;
    if members.Empty? {
      NoMembers(style, depth + 1, widest);
    } else {
      BlanksAreBlank();
      PiecesAreProper(members.key);
      ValueIsDocument(members.value, style, depth + 1);
      MembersAreDocument(members.rest, style, depth, Wider(widest, members.key));
      MemberText(members, style, depth, widest);
    }
  }

  lemma NoMembers(style: Style, depth: nat, widest: nat)
    ensures PrintedMembers(Empty, style, depth, widest) == []
  {
  }

  /** One line of an object, and the lines after it. */
  lemma MemberText(members: Members, style: Style, depth: nat, widest: nat)
    requires members.Member?
    requires JsonSpelling.StringText(PiecesOf(members.key)) == Quoted(members.key)
    requires Spelling(DocumentOf(members.value, style, depth + 1)) == Printed(members.value, style, depth + 1)
    requires var now := Wider(widest, members.key); var d := DocumentMembers(members.rest, style, depth, now);
      && d.NoEntry? == members.rest.Empty?
      && (if members.rest.Empty? then PrintedMembers(members.rest, style, depth + 1, now) == []
          else EntryText(d) == PrintedMembers(members.rest, style, depth + 1, now) + Break(style, depth))
    ensures var d := DocumentMembers(members, style, depth, widest);
      EntryText(d) == PrintedMembers(members, style, depth + 1, widest) + Break(style, depth)
  {
    hide Break, Spelling, DocumentOf, Printed, PiecesOf, Quoted, JsonSpelling.StringText, EntryText, PrintedMembers, Spaces;
    var now := Wider(widest, members.key);
    var d := DocumentMembers(members, style, depth, widest);
    var comma := if members.rest.Empty? then [] else [44];
    var lines := PrintedMembers(members.rest, style, depth + 1, now);
    EntryLine(d);
    PrintedLine(members, style, depth + 1, widest);
    var value, behind := Spelling(d.value), d.after + if d.tail.NoEntry? then [] else [44] + EntryText(d.tail);
    assert behind == comma + (lines + Break(style, depth)) by {
      if members.rest.Member? { assert [] + ([44] + EntryText(d.tail)) == [44] + EntryText(d.tail); }
    }
    GapSplit(d.gap, d.lead, value + behind);
    assert d.gap + [58] + d.lead == Gap(style, members.key, now);
    InLine(Break(style, depth + 1), Quoted(members.key), Gap(style, members.key, now), value, comma, lines, Break(style, depth));
  }

  lemma EntryLine(d: Entries)
    requires d.Entry?
    ensures EntryText(d) == d.before + (JsonSpelling.StringText(d.key) + (d.gap + ([58] + (d.lead + (Spelling(d.value)
      + (d.after + if d.tail.NoEntry? then [] else [44] + EntryText(d.tail)))))))
  {
  }

  lemma PrintedLine(members: Members, style: Style, depth: nat, widest: nat)
    requires members.Member?
    ensures var now := Wider(widest, members.key);
      PrintedMembers(members, style, depth, widest)
      == Break(style, depth) + Quoted(members.key) + Gap(style, members.key, now) + Printed(members.value, style, depth)
         + (if members.rest.Empty? then [] else [44]) + PrintedMembers(members.rest, style, depth, now)
  {
  }

  lemma GapSplit(gap: seq<unit>, lead: seq<unit>, behind: seq<unit>)
    ensures gap + ([58] + (lead + behind)) == gap + [58] + lead + behind
  {
  }

  lemma InLine(a: seq<unit>, b: seq<unit>, c: seq<unit>, d: seq<unit>, e: seq<unit>, f: seq<unit>, g: seq<unit>)
    ensures a + (b + (c + (d + (e + (f + g))))) == a + b + c + d + e + f + g
  {
  }

  lemma BlanksAreBlank()
    ensures ProperBlank([]) && Blank([]) && ProperBlank([32]) && Blank([32])
    ensures forall n :: ProperBlank(Spaces(n)) && Blank(Spaces(n))
    ensures forall style, depth: nat :: ProperBlank(Break(style, depth)) && Blank(Break(style, depth))
  {
  }

  /** Every page is a text of RFC 4627 that spells its tree, and is read as just that. */
  lemma PageIsDocument(t: Tree, style: Style) returns (v: Value)
    requires IsText(t) && Integral(t)
    ensures Proper(v) && Sound(v) && Spells(v) == t
    ensures ProperBlank(Break(style, 0)) && Page(t, style) == Break(style, 0) + Spelling(v)
    ensures TokensOf(Page(t, style)) == TokensThen(t, EndOfText)
  {
    hide TokensOf, Break, Printed, Proper, Sound, Spelling, Spells, Blank, ProperBlank, Integral;
    BlanksAreBlank();
    ValueIsDocument(t, style, 0);
    v := DocumentOf(t, style, 0);
    IsContainer(t, style);
    TextRead(Break(style, 0), v, []);
    assert Break(style, 0) + Spelling(v) + [] == Page(t, style);
  }

  lemma IsContainer(t: Tree, style: Style)
    requires IsText(t)
    ensures var v := DocumentOf(t, style, 0); v.ArrayValue? || v.ObjectValue?
  {
  }
}
