/**
 The validating writer. Whatever sequence of calls it accepts, and whether it indents or not, the text so far is
 the page of the arrays and objects that are open, as far as they have come; once the end is reached it is the
 page of one complete array or object, the one the calls described.
 */
module JsonWriter {
  import opened JsonSymbols
  import opened JsonGrammar
  import opened JsonText
  import opened JsonLayout

  // ----- A document under construction -----

  /** What the calls have described so far: open arrays and objects, the innermost one outermost here. */
  datatype Frames =
    | Root
    | Done(tree: Tree)
    | InArray(items: Trees, outer: Frames)
    | InObject(members: Members, key: Option<seq<unit>>, outer: Frames)

  function SnocItem(items: Trees, t: Tree): Trees {
    if items.Nil? then Cons(t, Nil) else Cons(items.head, SnocItem(items.tail, t))
  }

  function SnocMember(members: Members, key: seq<unit>, t: Tree): Members {
    if members.Empty? then Member(key, t, Empty)
    else Member(members.key, members.value, SnocMember(members.rest, key, t))
  }

  function CountItems(items: Trees): nat { if items.Nil? then 0 else 1 + CountItems(items.tail) }

  function CountMembers(members: Members): nat { if members.Empty? then 0 else 1 + CountMembers(members.rest) }

  predicate TakesValue(frames: Frames) { frames.InArray? || (frames.InObject? && frames.key.Some?) }

  predicate TakesContainer(frames: Frames) { frames.Root? || TakesValue(frames) }

  predicate TakesProperty(frames: Frames) { frames.InObject? && frames.key.None? }

  function AddValue(frames: Frames, t: Tree): Frames
    requires TakesContainer(frames)
  {
    match frames
    case Root => Done(t)
    case InArray(items, outer) => InArray(SnocItem(items, t), outer)
    case InObject(members, key, outer) => InObject(SnocMember(members, key.value, t), None, outer)
  }

  /** The frame that a bracket or brace opens. */
  function Opened(frames: Frames, isArray: bool): Frames {
    if isArray then InArray(Nil, frames) else InObject(Empty, None, frames)
  }

  function Opening(isArray: bool): unit { if isArray then '[' as int else '{' as int }

  function Closing(isArray: bool): unit { if isArray then ']' as int else '}' as int }

  predicate Closable(frames: Frames, isArray: bool) {
    (if isArray then frames.InArray? else frames.InObject? && frames.key.None?) && TakesContainer(frames.outer)
  }

  /** What is left when the innermost array or object is complete. */
  function Closed(frames: Frames, isArray: bool): Frames
    requires Closable(frames, isArray)
  {
    AddValue(frames.outer, if isArray then ArrayTree(frames.items) else ObjectTree(frames.members))
  }

  /** All numbers are integers. */
  ghost predicate IntegralFrames(frames: Frames) {
    match frames
    case Root => true
    case Done(t) => Integral(t)
    case InArray(items, outer) => IntegralItems(items) && IntegralFrames(outer)
    case InObject(members, _, outer) => IntegralMembers(members) && IntegralFrames(outer)
  }

  lemma {:induction false} IntegralItemsSnoc(items: Trees, t: Tree)
    ensures IntegralItems(SnocItem(items, t)) <==> IntegralItems(items) && Integral(t)
  {
    if items.Cons? { IntegralItemsSnoc(items.tail, t); }
  }

  lemma {:induction false} IntegralMembersSnoc(members: Members, key: seq<unit>, t: Tree)
    ensures IntegralMembers(SnocMember(members, key, t)) <==> IntegralMembers(members) && Integral(t)
  {
    if members.Member? { IntegralMembersSnoc(members.rest, key, t); }
  }

  lemma IntegralAdded(frames: Frames, t: Tree)
    requires TakesContainer(frames)
    ensures IntegralFrames(AddValue(frames, t)) <==> IntegralFrames(frames) && Integral(t)
  {
    hide Integral;
    match frames
    case Root =>
    case InArray(items, _) => IntegralItemsSnoc(items, t);
    case InObject(members, key, _) => IntegralMembersSnoc(members, key.value, t);
  }

  lemma DecimalIsIntegral(n: int)
    ensures Integral(NumberTree(Decimal(n))) && IntegerOf(Decimal(n)) == n
  {
    hide DecimalNat, Digits;
    var digits := DecimalNat(if n < 0 then -n else n);
    DecimalDigits(if n < 0 then -n else n);
    if n < 0 { assert Decimal(n)[1..] == digits; }
  }

  // ----- The page so far -----

  function Depth(frames: Frames): nat {
    match frames
    case InArray(_, outer) => 1 + Depth(outer)
    case InObject(_, _, outer) => 1 + Depth(outer)
    case _ => 0
  }

  /** What comes before the next value or property: the comma that is due, and a new line. */
  function Lead(frames: Frames, style: Style): seq<unit> {
    match frames
    case InArray(items, _) => (if items.Cons? then [44] else []) + Break(style, Depth(frames))
    case InObject(members, key, _) =>
      if key.Some? then [] else (if members.Member? then [44] else []) + Break(style, Depth(frames))
    case _ => Break(style, 0)
  }

  /** The length of the longest key. */
  function Widest(members: Members, widest: nat): nat
    decreases members
  {
    if members.Empty? then widest else Widest(members.rest, Wider(widest, members.key))
  }

  /** The text of what is open, line by line. */
  function SoFar(frames: Frames, style: Style): seq<unit>
    decreases frames
  {
    match frames
    case Root => []
    case Done(t) => Page(t, style)
    case InArray(items, outer) => SoFar(outer, style) + Lead(outer, style) + [91] + PrintedItems(items, style, Depth(frames))
    case InObject(members, key, outer) =>
      var inside := SoFar(outer, style) + Lead(outer, style) + [123] + PrintedMembers(members, style, Depth(frames), 0);
      if key.None? then inside
      else
        inside + Lead(frames.(key := None), style) + Quoted(key.value) + Gap(style, key.value, Wider(Widest(members, 0), key.value))
  }

  lemma {:induction false} PrintedSnoc(items: Trees, t: Tree, style: Style, depth: nat)
    ensures PrintedItems(SnocItem(items, t), style, depth)
         == PrintedItems(items, style, depth) + (if items.Cons? then [44] else []) + Break(style, depth) + Printed(t, style, depth)
  {
    hide Break, Printed;
    if items.Cons? { PrintedSnoc(items.tail, t, style, depth); }
  }

  lemma {:induction false} PrintedMemberSnoc(members: Members, key: seq<unit>, t: Tree, style: Style, depth: nat, widest: nat)
    ensures PrintedMembers(SnocMember(members, key, t), style, depth, widest)
         == PrintedMembers(members, style, depth, widest) + (if members.Member? then [44] else []) + Break(style, depth)
            + Quoted(key) + Gap(style, key, Wider(Widest(members, widest), key)) + Printed(t, style, depth)
  {
    hide Break, Printed, Quoted, Gap, PrintedMembers;
    if members.Member? {
      var now := Wider(widest, members.key);
      PrintedLine(SnocMember(members, key, t), style, depth, widest);
      PrintedLine(members, style, depth, widest);
      PrintedMemberSnoc(members.rest, key, t, style, depth, now);
      if members.rest.Empty? { NoMembers(style, depth, now); }
      LineRegrouped(Break(style, depth) + Quoted(members.key) + Gap(style, members.key, now) + Printed(members.value, style, depth),
        if members.rest.Empty? then [] else [44], PrintedMembers(members.rest, style, depth, now),
        Break(style, depth), Quoted(key), Gap(style, key, Wider(Widest(members, widest), key)), Printed(t, style, depth));
    } else {
      PrintedLine(Member(key, t, Empty), style, depth, widest);
      NoMembers(style, depth, widest);
      NoMembers(style, depth, Wider(widest, key));
    }
  }

  lemma LineRegrouped(line: seq<unit>, comma: seq<unit>, lines: seq<unit>, b: seq<unit>, q: seq<unit>, g: seq<unit>, v: seq<unit>)
    requires comma == [44] || (comma == [] && lines == [])
    ensures line + [44] + (lines + comma + b + q + g + v) == line + comma + lines + [44] + b + q + g + v
  {
  }

  lemma {:induction false} WidestSnoc(members: Members, key: seq<unit>, t: Tree, widest: nat)
    ensures Widest(SnocMember(members, key, t), widest) == Wider(Widest(members, widest), key)
  {
    if members.Member? { WidestSnoc(members.rest, key, t, Wider(widest, members.key)); }
  }

  lemma ArrayLead(items: Trees, outer: Frames, style: Style)
    ensures Lead(InArray(items, outer), style) == (if items.Cons? then [44] else []) + Break(style, 1 + Depth(outer))
  {
    hide Break;
  }

  lemma ArraySoFar(items: Trees, outer: Frames, style: Style)
    ensures SoFar(InArray(items, outer), style)
         == SoFar(outer, style) + Lead(outer, style) + [91] + PrintedItems(items, style, 1 + Depth(outer))
  {
    hide Break, Lead, PrintedItems, PrintedMembers, Quoted, Gap, Page;
  }

  lemma ObjectSoFar(members: Members, outer: Frames, style: Style)
    ensures SoFar(InObject(members, None, outer), style)
         == SoFar(outer, style) + Lead(outer, style) + [123] + PrintedMembers(members, style, 1 + Depth(outer), 0)
  {
    hide Break, Lead, PrintedItems, PrintedMembers, Quoted, Gap, Page;
  }

  lemma ItemLaid(items: Trees, outer: Frames, t: Tree, style: Style)
    ensures var frames := InArray(items, outer);
      SoFar(AddValue(frames, t), style) == SoFar(frames, style) + Lead(frames, style) + Printed(t, style, Depth(frames))
  {
    hide Break, Printed, PrintedItems, SoFar, Lead;
    var depth := 1 + Depth(outer);
    ArrayLead(items, outer, style);
    ArraySoFar(items, outer, style);
    ArraySoFar(SnocItem(items, t), outer, style);
    PrintedSnoc(items, t, style, depth);
    var comma, before := if items.Cons? then [44] else [], SoFar(outer, style) + Lead(outer, style) + [91];
    Joined(PrintedItems(items, style, depth), comma, Break(style, depth), Printed(t, style, depth));
    Joined(before, PrintedItems(items, style, depth), comma + Break(style, depth), Printed(t, style, depth));
  }

  lemma KeySoFar(members: Members, key: seq<unit>, outer: Frames, style: Style)
    ensures SoFar(InObject(members, Some(key), outer), style)
         == SoFar(InObject(members, None, outer), style) + ((if members.Member? then [44] else []) + Break(style, 1 + Depth(outer)))
            + Quoted(key) + Gap(style, key, Wider(Widest(members, 0), key))
  {
    hide Break, PrintedMembers, Quoted, Gap, Page, Widest;
    assert InObject(members, Some(key), outer).(key := None) == InObject(members, None, outer);
  }

  lemma MemberLaid(members: Members, key: seq<unit>, outer: Frames, t: Tree, style: Style)
    ensures var frames := InObject(members, Some(key), outer);
      SoFar(AddValue(frames, t), style) == SoFar(frames, style) + Printed(t, style, Depth(frames))
  {
    hide SoFar, Lead, Break, Printed, PrintedMembers, Gap, Quoted, Widest;
    var depth := 1 + Depth(outer);
    ObjectSoFar(members, outer, style);
    KeySoFar(members, key, outer, style);
    ObjectSoFar(SnocMember(members, key, t), outer, style);
    PrintedMemberSnoc(members, key, t, style, depth, 0);
    MemberRegrouped(SoFar(outer, style) + Lead(outer, style) + [123], PrintedMembers(members, style, depth, 0),
      if members.Member? then [44] else [], Break(style, depth), Quoted(key), Gap(style, key, Wider(Widest(members, 0), key)),
      Printed(t, style, depth));
  }

  lemma MemberRegrouped(a: seq<unit>, b: seq<unit>, c: seq<unit>, d: seq<unit>, e: seq<unit>, f: seq<unit>, g: seq<unit>)
    ensures a + (b + c + d + e + f + g) == a + b + (c + d) + e + f + g
  {
  }

  /** A value is printed behind what leads to it, ... */
  lemma ValueLaid(frames: Frames, t: Tree, style: Style)
    requires TakesContainer(frames)
    ensures SoFar(AddValue(frames, t), style) == SoFar(frames, style) + Lead(frames, style) + Printed(t, style, Depth(frames))
  {
    hide Break, Printed;
    match frames
    case Root =>
    case InArray(items, outer) => ItemLaid(items, outer, t, style);
    case InObject(members, key, outer) => MemberLaid(members, key.value, outer, t, style);
  }

  lemma Joined(text: seq<unit>, newline: seq<unit>, pad: seq<unit>, body: seq<unit>)
    ensures text + newline + pad + body == text + (newline + pad) + body == text + (newline + pad + body)
  {
  }

  /** ... and an array or object ends on a line of its own, as deep as it began. */
  lemma ClosingLaid(frames: Frames, isArray: bool, style: Style)
    requires Closable(frames, isArray)
    ensures SoFar(Closed(frames, isArray), style)
         == SoFar(frames, style) + Break(style, Depth(frames.outer)) + [Closing(isArray)]
  {
    hide AddValue, Break, Lead;
    var t := if isArray then ArrayTree(frames.items) else ObjectTree(frames.members);
    var lead, lines, end := Lead(frames.outer, style), Inside(frames, style), Break(style, Depth(frames.outer));
    ValueLaid(frames.outer, t, style);
    InsideSoFar(frames, isArray, style);
    assert Printed(t, style, Depth(frames.outer)) == [Opening(isArray)] + lines + end + [Closing(isArray)];
    Regrouped(SoFar(frames.outer, style), lead, [Opening(isArray)], lines, end, [Closing(isArray)]);
  }

  /** The lines of the innermost array or object. */
  function Inside(frames: Frames, style: Style): seq<unit> {
    match frames
    case InArray(items, outer) => PrintedItems(items, style, Depth(outer) + 1)
    case InObject(members, _, outer) => PrintedMembers(members, style, Depth(outer) + 1, 0)
    case _ => []
  }

  lemma InsideSoFar(frames: Frames, isArray: bool, style: Style)
    requires Closable(frames, isArray)
    ensures SoFar(frames, style) == SoFar(frames.outer, style) + Lead(frames.outer, style) + [Opening(isArray)] + Inside(frames, style)
  {
    hide SoFar, Lead, PrintedItems, PrintedMembers;
    if isArray { ArraySoFar(frames.items, frames.outer, style); } else { ObjectSoFar(frames.members, frames.outer, style); }
  }

  lemma Regrouped(a: seq<unit>, b: seq<unit>, c: seq<unit>, d: seq<unit>, e: seq<unit>, f: seq<unit>)
    ensures a + b + (c + d + e + f) == a + b + c + d + e + f
  {
  }

  lemma OpeningLaid(frames: Frames, isArray: bool, style: Style)
    ensures SoFar(Opened(frames, isArray), style) == SoFar(frames, style) + Lead(frames, style) + [Opening(isArray)]
  {
    hide Break, Lead;
  }

  lemma KeyLaid(frames: Frames, key: seq<unit>, style: Style)
    requires TakesProperty(frames)
    ensures SoFar(frames.(key := Some(key)), style)
         == SoFar(frames, style) + Lead(frames, style) + Quoted(key) + Gap(style, key, Wider(Widest(frames.members, 0), key))
  {
    hide Break, Quoted, Gap, PrintedMembers;
    assert frames.(key := None) == frames;
  }

  // ----- The writer's own state -----

  datatype Condition = ClosesArray | ClosesObject | NotAProperty | Property | IsValue

  datatype WriterContext =
    WriterContext(count: nat, inArray: bool, inObject: bool, expectingValue: bool, padding: nat)

  const ROOT_CONTEXT := WriterContext(0, false, false, false, 0)

  /** The context of an enclosing array or object, in which one more value is under way. */
  predicate EnclosingAgrees(outer: Frames, below: seq<WriterContext>)
    decreases outer
  {
    |below| > 0 &&
    var c := below[|below| - 1];
    match outer
    case Root => |below| == 1 && !c.inArray && !c.inObject && !c.expectingValue
    case Done(_) => false
    case InArray(items, further) =>
      && c.inArray && !c.inObject && !c.expectingValue && c.count == CountItems(items) + 1
      && EnclosingAgrees(further, below[..|below| - 1])
    case InObject(members, key, further) =>
      && key.Some? && !c.inArray && c.inObject && c.expectingValue && c.count == CountMembers(members) + 1
      && EnclosingAgrees(further, below[..|below| - 1])
  }

  /** The stack of contexts, the current one kept apart, mirrors the open arrays and objects. */
  predicate Agrees(frames: Frames, below: seq<WriterContext>, c: WriterContext) {
    match frames
    case Root => below == [] && !c.inArray && !c.inObject && !c.expectingValue && c.count == 0
    case Done(_) => true
    case InArray(items, outer) =>
      c.inArray && !c.inObject && !c.expectingValue && c.count == CountItems(items) && EnclosingAgrees(outer, below)
    case InObject(members, key, outer) =>
      && !c.inArray && c.inObject && c.expectingValue == key.Some?
      && c.count == CountMembers(members) + (if key.Some? then 1 else 0) && EnclosingAgrees(outer, below)
  }

  /** When DoValidation lets a call pass. */
  predicate Allowed(cond: Condition, frames: Frames) {
    match cond
    case ClosesArray => frames.InArray?
    case ClosesObject => frames.InObject? && frames.key.None?
    case NotAProperty => TakesContainer(frames)
    case Property => TakesProperty(frames)
    case IsValue => TakesValue(frames)
  }

  function Counted(c: WriterContext): WriterContext { if c.expectingValue then c else c.(count := c.count + 1) }

  function Newline(c: WriterContext, pretty: bool, addComma: bool): seq<unit> {
    (if addComma && !c.expectingValue && c.count > 1 then [',' as int] else [])
    + (if pretty && !c.expectingValue then ['\n' as int] else [])
  }

  function Pad(c: WriterContext, pretty: bool, indentation: int): seq<unit> {
    if pretty && !c.expectingValue then Spaces(indentation) else []
  }

  /** In an object, `padding` is the length of the longest key so far. */
  predicate Padded(frames: Frames, stack: seq<WriterContext>)
    decreases frames
  {
    match frames
    case InArray(_, outer) => |stack| > 0 && Padded(outer, stack[..|stack| - 1])
    case InObject(members, key, outer) =>
      && |stack| > 0 && Padded(outer, stack[..|stack| - 1])
      && stack[|stack| - 1].padding == if key.None? then Widest(members, 0) else Wider(Widest(members, 0), key.value)
    case _ => true
  }

  /** The text, the indentation and the paddings are those of the page. */
  predicate LaidOut(text: seq<unit>, frames: Frames, style: Style, indentation: int, below: seq<WriterContext>, c: WriterContext) {
    text == SoFar(frames, style) && (style.Indented? ==> indentation == style.width * Depth(frames) && Padded(frames, below + [c]))
  }

  lemma LeadIs(frames: Frames, style: Style, indentation: int, below: seq<WriterContext>, c: WriterContext)
    requires Agrees(frames, below, c) && (TakesContainer(frames) || TakesProperty(frames))
    requires style.Indented? ==> indentation == style.width * Depth(frames)
    ensures Newline(Counted(c), style.Indented?, true) + Pad(Counted(c), style.Indented?, indentation) == Lead(frames, style)
  {
    hide EnclosingAgrees;
    if frames.InArray? { CountIsSome(frames.items, Empty); }
    if frames.InObject? { CountIsSome(Nil, frames.members); }
  }

  lemma CountIsSome(items: Trees, members: Members)
    ensures CountItems(items) > 0 <==> items.Cons?
    ensures CountMembers(members) > 0 <==> members.Member?
  {
  }

  /** The context after a value. */
  lemma ValueAgrees(frames: Frames, below: seq<WriterContext>, c: WriterContext, t: Tree)
    requires Agrees(frames, below, c) && TakesValue(frames)
    ensures Agrees(AddValue(frames, t), below, Counted(c).(expectingValue := false))
  {
    hide EnclosingAgrees;
    if frames.InArray? { CountSnocItem(frames.items, t); } else { CountSnocMember(frames.members, frames.key.value, t); }
  }

  lemma {:induction false} CountSnocItem(items: Trees, t: Tree)
    ensures CountItems(SnocItem(items, t)) == CountItems(items) + 1 && SnocItem(items, t).Cons?
  {
    if items.Cons? { CountSnocItem(items.tail, t); }
  }

  lemma {:induction false} CountSnocMember(members: Members, key: seq<unit>, t: Tree)
    ensures CountMembers(SnocMember(members, key, t)) == CountMembers(members) + 1 && SnocMember(members, key, t).Member?
  {
    if members.Member? { CountSnocMember(members.rest, key, t); }
  }

  lemma OpenedAgrees(frames: Frames, below: seq<WriterContext>, c: WriterContext, isArray: bool)
    requires Agrees(frames, below, c) && TakesContainer(frames)
    ensures Agrees(Opened(frames, isArray), below + [Counted(c)], WriterContext(0, isArray, !isArray, false, 0))
  {
    assert (below + [Counted(c)])[..|below|] == below;
  }

  lemma ClosedAgrees(frames: Frames, below: seq<WriterContext>, c: WriterContext, isArray: bool)
    requires Agrees(frames, below, c) && Closable(frames, isArray)
    ensures |below| > 0 && (|below| == 1 <==> Closed(frames, isArray).Done?)
    ensures Closed(frames, isArray).Done? ==> IsText(Closed(frames, isArray).tree)
    ensures |below| > 1 ==>
      Agrees(Closed(frames, isArray), below[..|below| - 1], below[|below| - 1].(expectingValue := false))
    ensures !below[|below| - 1].(expectingValue := false).expectingValue
  {
    var t := if isArray then ArrayTree(frames.items) else ObjectTree(frames.members);
    assert EnclosingAgrees(frames.outer, below);
    match frames.outer
    case Root =>
    case InArray(items, further) =>
      assert EnclosingAgrees(further, below[..|below| - 1]);
      CountSnocItem(items, t);
    case InObject(members, key, further) =>
      assert EnclosingAgrees(further, below[..|below| - 1]);
      CountSnocMember(members, key.value, t);
  }

  // ----- One call, on values: what it appends and what that does -----

  lemma PaddedAfter(frames: Frames, below: seq<WriterContext>, c: WriterContext, t: Tree)
    requires TakesValue(frames) && Padded(frames, below + [c])
    ensures Padded(AddValue(frames, t), below + [Counted(c).(expectingValue := false)])
    ensures Depth(AddValue(frames, t)) == Depth(frames)
  {
    assert (below + [c])[..|below|] == below == (below + [Counted(c).(expectingValue := false)])[..|below|];
    if frames.InObject? { WidestSnoc(frames.members, frames.key.value, t, 0); }
  }

  lemma AfterValue(text: seq<unit>, frames: Frames, style: Style, indentation: int, below: seq<WriterContext>, c: WriterContext,
        body: seq<unit>, t: Tree)
    requires LaidOut(text, frames, style, indentation, below, c) && IntegralFrames(frames)
    requires Agrees(frames, below, c) && TakesValue(frames) && body == Printed(t, style, Depth(frames)) && Integral(t)
    ensures var written := text + Newline(Counted(c), style.Indented?, true) + Pad(Counted(c), style.Indented?, indentation) + body;
      LaidOut(written, AddValue(frames, t), style, indentation, below, Counted(c).(expectingValue := false))
    ensures Agrees(AddValue(frames, t), below, Counted(c).(expectingValue := false)) && IntegralFrames(AddValue(frames, t))
    ensures !AddValue(frames, t).Done?
  {
    hide Agrees, Newline, Pad, SoFar, Lead, Printed, IntegralFrames, Integral, Padded;
    LeadIs(frames, style, indentation, below, c);
    ValueLaid(frames, t, style);
    ValueAgrees(frames, below, c, t);
    IntegralAdded(frames, t);
    if style.Indented? { PaddedAfter(frames, below, c, t); }
    Joined(text, Newline(Counted(c), style.Indented?, true), Pad(Counted(c), style.Indented?, indentation), body);
  }

  lemma PaddedOpening(frames: Frames, below: seq<WriterContext>, c: WriterContext, isArray: bool)
    requires Padded(frames, below + [c])
    ensures Padded(Opened(frames, isArray), below + [Counted(c)] + [WriterContext(0, isArray, !isArray, false, 0)])
  {
    assert (below + [c])[..|below|] == below == (below + [Counted(c)])[..|below|];
    var stack := below + [Counted(c)] + [WriterContext(0, isArray, !isArray, false, 0)];
    assert stack[..|stack| - 1] == below + [Counted(c)];
  }

  lemma AfterOpening(text: seq<unit>, frames: Frames, style: Style, indentation: int, below: seq<WriterContext>, c: WriterContext,
        isArray: bool)
    requires LaidOut(text, frames, style, indentation, below, c) && IntegralFrames(frames)
    requires Agrees(frames, below, c) && TakesContainer(frames)
    ensures var written := text + Newline(Counted(c), style.Indented?, true) + Pad(Counted(c), style.Indented?, indentation)
        + [Opening(isArray)];
      LaidOut(written, Opened(frames, isArray), style, if style.Indented? then indentation + style.width else indentation,
              below + [Counted(c)], WriterContext(0, isArray, !isArray, false, 0))
    ensures Agrees(Opened(frames, isArray), below + [Counted(c)], WriterContext(0, isArray, !isArray, false, 0))
    ensures IntegralFrames(Opened(frames, isArray))
  {
    hide Agrees, Newline, Pad, SoFar, Lead, Padded, Depth, Opened, IntegralFrames;
    LeadIs(frames, style, indentation, below, c);
    OpeningLaid(frames, isArray, style);
    OpenedAgrees(frames, below, c, isArray);
    OpenedIs(frames, isArray);
    if style.Indented? {
      PaddedOpening(frames, below, c, isArray);
      Outdented(style.width, Depth(Opened(frames, isArray)), Depth(frames));
    }
    Joined(text, Newline(Counted(c), style.Indented?, true), Pad(Counted(c), style.Indented?, indentation), [Opening(isArray)]);
  }

  lemma OpenedIs(frames: Frames, isArray: bool)
    ensures Depth(Opened(frames, isArray)) == Depth(frames) + 1
    ensures IntegralFrames(frames) ==> IntegralFrames(Opened(frames, isArray))
  {
  }

  lemma PaddedKey(frames: Frames, below: seq<WriterContext>, c: WriterContext, key: seq<unit>)
    requires TakesProperty(frames) && Padded(frames, below + [c])
    ensures c.padding == Widest(frames.members, 0)
    ensures Padded(frames.(key := Some(key)), below + [Counted(c).(expectingValue := true, padding := Wider(c.padding, key))])
  {
    assert (below + [c])[..|below|] == below
        == (below + [Counted(c).(expectingValue := true, padding := Wider(c.padding, key))])[..|below|];
  }

  lemma AfterKey(text: seq<unit>, frames: Frames, style: Style, indentation: int, below: seq<WriterContext>, c: WriterContext,
        key: seq<unit>)
    requires LaidOut(text, frames, style, indentation, below, c) && IntegralFrames(frames)
    requires Agrees(frames, below, c) && TakesProperty(frames)
    ensures var written := text + Newline(Counted(c), style.Indented?, true) + Pad(Counted(c), style.Indented?, indentation) + Quoted(key);
      var now := if style.Indented? then Wider(c.padding, key) else c.padding;
      && LaidOut(written + Gap(style, key, now), frames.(key := Some(key)), style, indentation, below,
                 Counted(c).(expectingValue := true, padding := now))
      && Agrees(frames.(key := Some(key)), below, Counted(c).(expectingValue := true, padding := now))
    ensures IntegralFrames(frames.(key := Some(key)))
  {
    hide Newline, Pad, SoFar, Lead, Padded, Quoted, EnclosingAgrees, Spaces;
    LeadIs(frames, style, indentation, below, c);
    KeyLaid(frames, key, style);
    if style.Indented? { PaddedKey(frames, below, c, key); }
    Joined(text, Newline(Counted(c), style.Indented?, true), Pad(Counted(c), style.Indented?, indentation), Quoted(key));
  }

  lemma PaddedClosing(frames: Frames, below: seq<WriterContext>, c: WriterContext, isArray: bool)
    requires Closable(frames, isArray) && Padded(frames, below + [c]) && |below| > 0
    ensures var last := |below| - 1;
      Padded(Closed(frames, isArray), below[..last] + [below[last].(expectingValue := false)])
  {
    var last := |below| - 1;
    assert (below + [c])[..|below|] == below;
    assert below[..last] + [below[last]] == below;
    var t := if isArray then ArrayTree(frames.items) else ObjectTree(frames.members);
    if !frames.outer.Root? { PaddedAgain(frames.outer, below[..last], below[last], t); }
  }

  lemma PaddedAgain(frames: Frames, below: seq<WriterContext>, c: WriterContext, t: Tree)
    requires TakesValue(frames) && Padded(frames, below + [c])
    ensures Padded(AddValue(frames, t), below + [c.(expectingValue := false)])
  {
    assert (below + [c])[..|below|] == below == (below + [c.(expectingValue := false)])[..|below|];
    if frames.InObject? { WidestSnoc(frames.members, frames.key.value, t, 0); }
  }

  /** What is on top of the stack, and what is below it, when one context has been popped and was not the last but one. */
  function Popped(below: seq<WriterContext>, c: WriterContext): WriterContext
    requires |below| > 0
  {
    if |below| == 1 then c else below[|below| - 1].(expectingValue := false)
  }

  function PoppedBelow(below: seq<WriterContext>): seq<WriterContext>
    requires |below| > 0
  {
    if |below| == 1 then below else below[..|below| - 1]
  }

  lemma PaddedClosed(frames: Frames, below: seq<WriterContext>, c: WriterContext, isArray: bool)
    requires Agrees(frames, below, c) && Closable(frames, isArray) && Padded(frames, below + [c])
    ensures |below| > 0 && Padded(Closed(frames, isArray), PoppedBelow(below) + [Popped(below, Counted(c))])
  {
    hide Agrees, Closed, Padded;
    ClosedAgrees(frames, below, c, isArray);
    DoneAgrees(Closed(frames, isArray), PoppedBelow(below), Popped(below, Counted(c)));
    PaddedClosing(frames, below, c, isArray);
  }

  lemma TextClosed(text: seq<unit>, frames: Frames, style: Style, indentation: int, inner: int,
        c: WriterContext, top: WriterContext, isArray: bool)
    requires text == SoFar(frames, style) && Closable(frames, isArray) && !c.expectingValue && !top.expectingValue
    requires style.Indented? ==> indentation == style.width * Depth(frames) && inner == indentation - style.width
    ensures style.Indented? ==> inner == style.width * Depth(frames.outer)
    ensures SoFar(Closed(frames, isArray), style)
         == text + Newline(c, style.Indented?, false) + Pad(top, style.Indented?, inner) + [Closing(isArray)]
  {
    hide SoFar, Spaces, Closed, Lead;
    ClosingLaid(frames, isArray, style);
    if style.Indented? { Outdented(style.width, Depth(frames), Depth(frames.outer)); }
    assert Newline(c, style.Indented?, false) + Pad(top, style.Indented?, inner) == Break(style, Depth(frames.outer));
    Joined(text, Newline(c, style.Indented?, false), Pad(top, style.Indented?, inner), [Closing(isArray)]);
  }

  lemma Outdented(width: int, depth: nat, outer: nat)
    requires depth == outer + 1
    ensures width * depth - width == width * outer
  {
  }

  lemma AfterClosing(text: seq<unit>, frames: Frames, style: Style, indentation: int, below: seq<WriterContext>, c: WriterContext,
        isArray: bool)
    requires LaidOut(text, frames, style, indentation, below, c) && IntegralFrames(frames)
    requires Agrees(frames, below, c) && Closable(frames, isArray)
    ensures |below| > 0 && IntegralFrames(Closed(frames, isArray))
    ensures var top, inner := Popped(below, Counted(c)), if style.Indented? then indentation - style.width else indentation;
      && LaidOut(text + Newline(Counted(c), style.Indented?, false) + Pad(top, style.Indented?, inner) + [Closing(isArray)],
                 Closed(frames, isArray), style, inner, PoppedBelow(below), top)
      && Agrees(Closed(frames, isArray), PoppedBelow(below), top)
  {
    hide SoFar, Padded, IntegralFrames, Closed, Newline, Pad, EnclosingAgrees;
    ClosedAgrees(frames, below, c, isArray);
    DoneAgrees(Closed(frames, isArray), PoppedBelow(below), Popped(below, Counted(c)));
    DepthClosed(frames, isArray);
    IntegralClosed(frames, isArray);
    TextClosed(text, frames, style, indentation, if style.Indented? then indentation - style.width else indentation, Counted(c),
      Popped(below, Counted(c)), isArray);
    if style.Indented? { PaddedClosed(frames, below, c, isArray); }
  }

  lemma DepthClosed(frames: Frames, isArray: bool)
    requires Closable(frames, isArray)
    ensures Depth(Closed(frames, isArray)) == Depth(frames.outer)
  {
  }

  lemma IntegralClosed(frames: Frames, isArray: bool)
    requires Closable(frames, isArray) && IntegralFrames(frames)
    ensures IntegralFrames(Closed(frames, isArray))
  {
    hide AddValue;
    IntegralAdded(frames.outer, if isArray then ArrayTree(frames.items) else ObjectTree(frames.members));
  }

  /** An open array or object lies in something that can take it. */
  lemma AgreesClosable(frames: Frames, below: seq<WriterContext>, c: WriterContext, isArray: bool)
    requires Agrees(frames, below, c)
    ensures Closable(frames, isArray) <==> Allowed(if isArray then ClosesArray else ClosesObject, frames)
  {
    if frames.InArray? || frames.InObject? { assert EnclosingAgrees(frames.outer, below); }
  }

  lemma DoneAgrees(frames: Frames, below: seq<WriterContext>, c: WriterContext)
    ensures frames.Done? ==> Agrees(frames, below, c) && Padded(frames, below + [c])
  {
  }

  lemma EscapedNone()
    ensures EscapedAll([]) == []
  {
  }

  lemma EscapedSnoc(s: seq<unit>, c: unit)
    ensures EscapedAll(s + [c]) == EscapedAll(s) + Escaped(c)
  {
    assert (s + [c])[..|s|] == s;
  }

  class JsonWriter {
    const hexSeq: array<unit>
    var text: seq<unit>               // what went to the TextWriter
    var context: WriterContext
    var below: seq<WriterContext>     // the rest of the stack
    var hasReachedEnd: bool
    var indentation: int
    var indentValue: int
    var prettyPrint: bool
    var validate: bool
    ghost var frames: Frames

    constructor (prettyPrint: bool)
      ensures Valid() && validate && fresh(hexSeq) && frames == Root && text == []
      ensures Layout() == if prettyPrint then Indented(4) else Compact
    {
      hexSeq := new unit[4];
      text, context, below, hasReachedEnd := [], ROOT_CONTEXT, [], false;
      indentation, indentValue, this.prettyPrint, validate := 0, 4, prettyPrint, true;
      frames := Root;
    }

    ghost predicate Valid()
      reads this
    {
      && hexSeq.Length == 4
      && Agrees(frames, below, context) && (hasReachedEnd <==> frames.Done?)
      && LaidOut(text, frames, Layout(), indentation, below, context) && IntegralFrames(frames)
      && (frames.Done? ==> IsText(frames.tree))
    }

    function Layout(): Style
      reads this
    {
      if prettyPrint then Indented(indentValue) else Compact
    }

    /** Counts the call, and lets it pass or not. */
    method DoValidation(cond: Condition) returns (ok: bool)
      requires Valid() && (validate || Allowed(cond, frames))
      modifies this`context
      ensures context == Counted(old(context)) && ok == Allowed(cond, frames)
    {
      hide LaidOut, IntegralFrames, EnclosingAgrees;
      if !context.expectingValue {
        context := context.(count := context.count + 1);
      }
      if !validate {
        return true;
      }
      if hasReachedEnd {
        return false;
      }
      match cond
      case ClosesArray => ok := context.inArray;
      case ClosesObject => ok := context.inObject && !context.expectingValue;
      case NotAProperty => ok := !(context.inObject && !context.expectingValue);
      case Property => ok := context.inObject && !context.expectingValue;
      case IsValue => ok := context.inArray || (context.inObject && context.expectingValue);
    }

    method PutNewline(addComma: bool)
      modifies this`text
      ensures text == old(text) + Newline(context, prettyPrint, addComma)
    {
      if addComma && !context.expectingValue && context.count > 1 {
        text := text + [',' as int];
      }
      if prettyPrint && !context.expectingValue {
        text := text + ['\n' as int];
      }
    }

    method Put(str: seq<unit>)
      modifies this`text
      ensures text == old(text) + Pad(context, prettyPrint, indentation) + str
    {
      if prettyPrint && !context.expectingValue {
        var i := 0;
        while i < indentation
          invariant 0 <= i && (i <= indentation || i == 0) && text == old(text) + Spaces(i)
        {
          text := text + [' ' as int];
          i := i + 1;
        }
        assert Spaces(i) == Spaces(indentation);
      }
      text := text + str;
    }

    method IntToHex(n: unit)
      requires hexSeq.Length == 4
      modifies hexSeq
      ensures hexSeq[..] == Hex4(n)
    {
      var m: int := n;
      for i := 0 to 4
        invariant m == (if i == 0 then n else if i == 1 then n / 16 else if i == 2 then n / 256 else if i == 3 then n / 4096 else 0)
        invariant i > 0 ==> hexSeq[3] == HexDigit(n % 16)
        invariant i > 1 ==> hexSeq[2] == HexDigit(n / 16 % 16)
        invariant i > 2 ==> hexSeq[1] == HexDigit(n / 256 % 16)
        invariant i > 3 ==> hexSeq[0] == HexDigit(n / 4096 % 16)
      {
        var num := m % 16;
        hexSeq[3 - i] := if num < 10 then '0' as int + num else 'A' as int + (num - 10);
        m := m / 16;
      }
    }

    method PutString(str: seq<unit>)
      requires hexSeq.Length == 4
      modifies this`text, hexSeq
      ensures text == old(text) + Pad(context, prettyPrint, indentation) + Quoted(str) && ProperlyQuoted(Quoted(str))
    {
      hide EscapedAll, Escaped, Pad, ProperlyQuoted;
      QuotedProperly(str);
      Put([]);
      text := text + [QUOTE];
      ghost var start := text;
      EscapedNone();
      assert str[..0] == [];
      for i := 0 to |str|
        invariant text == start + EscapedAll(str[..i])
      {
        PutUnit(str[i]);
        EscapedSnoc(str[..i], str[i]);
        assert str[..i + 1] == str[..i] + [str[i]];
        assert start + EscapedAll(str[..i]) + Escaped(str[i]) == start + (EscapedAll(str[..i]) + Escaped(str[i]));
      }
      assert str[..|str|] == str;
      text := text + [QUOTE];
    }

    /** One turn of the loop of PutString. */
    method PutUnit(c: unit)
      requires hexSeq.Length == 4
      modifies this`text, hexSeq
      ensures text == old(text) + Escaped(c)
    {
      if c == 10 {
        text := text + [BACKSLASH, 'n' as int];
      } else if c == 13 {
        text := text + [BACKSLASH, 'r' as int];
      } else if c == 9 {
        text := text + [BACKSLASH, 't' as int];
      } else if c == QUOTE || c == BACKSLASH {
        text := text + [BACKSLASH];
        text := text + [c];
      } else if c == 12 {
        text := text + [BACKSLASH, 'f' as int];
      } else if c == 8 {
        text := text + [BACKSLASH, 'b' as int];
      } else if 32 <= c <= 126 {
        text := text + [c];
      } else {
        IntToHex(c);
        text := text + [BACKSLASH, 'u' as int];
        text := text + hexSeq[..];
      }
    }

    // ----- The calls: each is accepted exactly when the document can take it there -----

    method WriteBoolean(boolean: bool) returns (ok: bool)
      requires Valid() && (validate || TakesValue(frames))
      modifies this
      ensures ok == TakesValue(old(frames))
      ensures validate == old(validate) && Layout() == old(Layout()) && (!ok ==> text == old(text))
      ensures ok ==> Valid() && frames == AddValue(old(frames), if boolean then TrueTree else FalseTree)
    {
      hide LaidOut, Agrees, Newline, Pad, AddValue, IntegralFrames;
      ghost var t := if boolean then TrueTree else FalseTree;
      ok := DoValidation(IsValue);
      if ok {
        AfterValue(text, frames, Layout(), indentation, below, old(context), if boolean then TRUE else FALSE, t);
        PutNewline(true);
        Put(if boolean then TRUE else FALSE);
        context := context.(expectingValue := false);
        frames := AddValue(frames, t);
      }
    }

    /** For int as well as for long. */
    method WriteInteger(n: int) returns (ok: bool)
      requires Valid() && (validate || TakesValue(frames))
      modifies this
      ensures ok == TakesValue(old(frames))
      ensures validate == old(validate) && Layout() == old(Layout()) && (!ok ==> text == old(text))
      ensures ok ==> Valid() && frames == AddValue(old(frames), NumberTree(Decimal(n)))
    {
      hide LaidOut, Agrees, Newline, Pad, AddValue, Decimal, IntegralFrames;
      ok := DoValidation(IsValue);
      if ok {
        DecimalIsIntegral(n);
        AfterValue(text, frames, Layout(), indentation, below, old(context), Decimal(n), NumberTree(Decimal(n)));
        PutNewline(true);
        Put(Decimal(n));
        context := context.(expectingValue := false);
        frames := AddValue(frames, NumberTree(Decimal(n)));
      }
    }

    /** A null string is the literal null. */
    method WriteString(str: Option<seq<unit>>) returns (ok: bool)
      requires Valid() && (validate || TakesValue(frames))
      modifies this, hexSeq
      ensures ok == TakesValue(old(frames))
      ensures validate == old(validate) && Layout() == old(Layout()) && (!ok ==> text == old(text))
      ensures ok ==> Valid() && frames == AddValue(old(frames), if str.None? then NullTree else StringTree(str.value))
    {
      hide LaidOut, Agrees, Newline, Pad, AddValue, Quoted, IntegralFrames, ProperlyQuoted;
      ghost var t := if str.None? then NullTree else StringTree(str.value);
      ok := DoValidation(IsValue);
      if ok {
        AfterValue(text, frames, Layout(), indentation, below, old(context), if str.None? then NULL else Quoted(str.value), t);
        PutNewline(true);
        if str.None? {
          Put(NULL);
        } else {
          PutString(str.value);
        }
        context := context.(expectingValue := false);
        frames := AddValue(frames, t);
      }
    }

    /** WriteArrayStart and WriteObjectStart. */
    method WriteStart(isArray: bool) returns (ok: bool)
      requires Valid() && (validate || TakesContainer(frames))
      modifies this
      ensures ok == TakesContainer(old(frames))
      ensures validate == old(validate) && Layout() == old(Layout()) && (!ok ==> text == old(text))
      ensures ok ==> Valid() && frames == Opened(old(frames), isArray)
    {
      hide LaidOut, Agrees, Newline, Pad, IntegralFrames;
      ok := DoValidation(NotAProperty);
      if ok {
        AfterOpening(text, frames, Layout(), indentation, below, old(context), isArray);
        PutNewline(true);
        Put([Opening(isArray)]);
        below := below + [context];
        context := WriterContext(0, isArray, !isArray, false, 0);
        if prettyPrint {
          indentation := indentation + indentValue;
        }
        frames := Opened(frames, isArray);
      }
    }

    /** WriteArrayEnd and WriteObjectEnd. */
    method WriteEnd(isArray: bool) returns (ok: bool)
      requires Valid() && (validate || Closable(frames, isArray))
      modifies this
      ensures ok == Closable(old(frames), isArray)
      ensures validate == old(validate) && Layout() == old(Layout()) && (!ok ==> text == old(text))
      ensures ok ==> Valid() && frames == Closed(old(frames), isArray)
    {
      hide LaidOut, Agrees, Closed, IntegralFrames, Newline, Pad;
      AgreesClosable(frames, below, context, isArray);
      ok := DoValidation(if isArray then ClosesArray else ClosesObject);
      if ok {
        ClosedAgrees(frames, below, old(context), isArray);
        AfterClosing(text, frames, Layout(), indentation, below, old(context), isArray);
        PutNewline(false);
        if |below| == 1 {
          hasReachedEnd := true;
        } else {
          context := below[|below| - 1];
          context := context.(expectingValue := false);
          below := below[..|below| - 1];
        }
        if prettyPrint {
          indentation := indentation - indentValue;
        }
        Put([Closing(isArray)]);
        frames := Closed(frames, isArray);
      }
    }

    /** The blanks that align the colons: one more than the difference. */
    method PutGap(n: int)
      modifies this`text
      ensures text == old(text) + Spaces(n + 1)
    {
      var i := n;
      while i >= 0
        invariant i <= n && (i >= -1 || i == n) && text == old(text) + Spaces(n - i)
      {
        text := text + [' ' as int];
        i := i - 1;
      }
    }

    method WritePropertyName(propertyName: seq<unit>) returns (ok: bool)
      requires Valid() && (validate || TakesProperty(frames))
      modifies this, hexSeq
      ensures ok == TakesProperty(old(frames))
      ensures validate == old(validate) && Layout() == old(Layout()) && (!ok ==> text == old(text))
      ensures ok ==> Valid() && frames == old(frames).(key := Some(propertyName))
    {
      hide LaidOut, Agrees, Newline, Pad, Quoted, Spaces, IntegralFrames, ProperlyQuoted;
      ok := DoValidation(Property);
      if ok {
        AfterKey(text, frames, Layout(), indentation, below, old(context), propertyName);
        PutNewline(true);
        PutString(propertyName);
        if prettyPrint {
          if |propertyName| > context.padding {
            context := context.(padding := |propertyName|);
          }
          ghost var start := text;
          PutGap(context.padding - |propertyName|);
          text := text + [':' as int, ' ' as int];
          assert start + Spaces(context.padding - |propertyName| + 1) + [':' as int, ' ' as int]
              == start + Gap(Layout(), propertyName, context.padding);
        } else {
          text := text + [':' as int];
        }
        context := context.(expectingValue := true);
        frames := frames.(key := Some(propertyName));
      }
    }
  }

  // ----- Whole runs -----

  datatype Call =
    | CallBoolean(boolean: bool) | CallInteger(n: int) | CallString(str: Option<seq<unit>>)
    | CallStart(isArray: bool) | CallEnd(isArray: bool) | CallProperty(name: seq<unit>)

  /** What a call adds to the document; None if it is out of place. */
  function Accept(frames: Frames, call: Call): Option<Frames> {
    match call
    case CallBoolean(b) => if TakesValue(frames) then Some(AddValue(frames, if b then TrueTree else FalseTree)) else None
    case CallInteger(n) => if TakesValue(frames) then Some(AddValue(frames, NumberTree(Decimal(n)))) else None
    case CallString(str) =>
      if TakesValue(frames) then Some(AddValue(frames, if str.None? then NullTree else StringTree(str.value))) else None
    case CallStart(isArray) => if TakesContainer(frames) then Some(Opened(frames, isArray)) else None
    case CallEnd(isArray) => if Closable(frames, isArray) then Some(Closed(frames, isArray)) else None
    case CallProperty(name) => if TakesProperty(frames) then Some(frames.(key := Some(name))) else None
  }

  function AcceptAll(frames: Frames, calls: seq<Call>): Option<Frames>
    decreases |calls|
  {
    if calls == [] then Some(frames)
    else
      var next := Accept(frames, calls[0]);
      if next.None? then None else AcceptAll(next.value, calls[1..])
  }

  /**
   Any sequence of calls: there is no exception exactly when every call is in place; and when the calls
   reach the end, the text is the page of exactly one array or object, the one they described, and reads as that.
   */
  method Replay(calls: seq<Call>, prettyPrint: bool) returns (ok: bool, ended: bool, text: seq<unit>)
    ensures ok == AcceptAll(Root, calls).Some?
    ensures ok ==> ended == AcceptAll(Root, calls).value.Done?
    ensures ok && ended ==>
      var t := AcceptAll(Root, calls).value.tree;
      && IsText(t) && text == Page(t, if prettyPrint then Indented(4) else Compact)
      && TokensOf(text) == TokensThen(t, EndOfText)
  {
    hide LaidOut, Agrees, TokensOf, Accept, Page, IntegralFrames;
    var writer := new JsonWriter(prettyPrint);
    ok := true;
    var i := 0;
    assert calls[0..] == calls;
    while i < |calls| && ok
      invariant 0 <= i <= |calls| && fresh(writer) && fresh(writer.hexSeq) && writer.validate && writer.Layout() == (if prettyPrint then Indented(4) else Compact)
      invariant ok ==> writer.Valid() && AcceptAll(writer.frames, calls[i..]) == AcceptAll(Root, calls)
      invariant !ok ==> AcceptAll(Root, calls).None?
    {
      assert calls[i..][0] == calls[i] && calls[i..][1..] == calls[i + 1..];
      ok := Perform(writer, calls[i]);
      i := i + 1;
    }
    ended, text := writer.hasReachedEnd, writer.text;
    if ok && ended {
      Complete(writer);
    }
  }

  method Perform(writer: JsonWriter, call: Call) returns (ok: bool)
    requires writer.Valid() && writer.validate
    modifies writer, writer.hexSeq
    ensures writer.validate && writer.Layout() == old(writer.Layout()) && ok == Accept(old(writer.frames), call).Some?
    ensures ok ==> writer.Valid() && writer.frames == Accept(old(writer.frames), call).value
  {
    hide LaidOut, Agrees, IntegralFrames, AddValue, Closable, Closed, TakesValue, TakesContainer, TakesProperty, Opened;
    match call
    case CallBoolean(b) => ok := writer.WriteBoolean(b);
    case CallInteger(n) => ok := writer.WriteInteger(n);
    case CallString(str) => ok := writer.WriteString(str);
    case CallStart(isArray) => ok := writer.WriteStart(isArray);
    case CallEnd(isArray) => ok := writer.WriteEnd(isArray);
    case CallProperty(name) => ok := writer.WritePropertyName(name);
  }

  lemma Complete(w: JsonWriter)
    requires w.Valid() && w.hasReachedEnd
    ensures IsText(w.frames.tree) && Integral(w.frames.tree) && w.text == Page(w.frames.tree, w.Layout())
    ensures TokensOf(w.text) == TokensThen(w.frames.tree, EndOfText)
  {
    hide Agrees, TokensOf, Page, Integral;
    var _ := PageIsDocument(w.frames.tree, w.Layout());
  }

  /** The same calls, indented and compact: both are accepted or neither, and the texts read the same. */
  method ReplayBoth(calls: seq<Call>) returns (ok: bool, ended: bool, pretty: seq<unit>, compact: seq<unit>)
    ensures ok == AcceptAll(Root, calls).Some? && (ok ==> ended == AcceptAll(Root, calls).value.Done?)
    ensures ok && ended ==> TokensOf(pretty) == TokensOf(compact) == TokensThen(AcceptAll(Root, calls).value.tree, EndOfText)
  {
    hide AcceptAll, TokensOf;
    ok, ended, pretty := Replay(calls, true);
    var also, finished;
    also, finished, compact := Replay(calls, false);
    assert ok == also && (ok ==> ended == finished);
  }

  /** Indentation changes nothing that a reader can see. */
  lemma PrettyReadsTheSame(pretty: JsonWriter, compact: JsonWriter)
    requires pretty.Valid() && compact.Valid() && pretty.hasReachedEnd
    requires pretty.frames == compact.frames
    ensures TokensOf(pretty.text) == TokensOf(compact.text)
  {
    hide TokensOf, LaidOut, Agrees;
    Complete(pretty);
    Complete(compact);
  }
}