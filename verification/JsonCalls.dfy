/** Which calls the writer accepts: exactly the pre-orders of the arrays and objects that can be written. */
module JsonCalls {
  import opened JsonSymbols
  import opened JsonGrammar
  import opened JsonText
  import opened JsonLayout
  import opened JsonWriter

  /** The calls that write a tree. */
  function CallsOf(t: Tree): seq<Call> {
    match t
    case NumberTree(text) => if IsInteger(text) then [CallInteger(IntegerOf(text))] else []
    case TrueTree => [CallBoolean(true)]
    case FalseTree => [CallBoolean(false)]
    case NullTree => [CallString(None)]
    case StringTree(text) => [CallString(Some(text))]
    case ArrayTree(items) => [CallStart(true)] + (ItemCalls(items) + [CallEnd(true)])
    case ObjectTree(members) => [CallStart(false)] + (MemberCalls(members) + [CallEnd(false)])
  }

  function ItemCalls(items: Trees): seq<Call> { if items.Nil? then [] else CallsOf(items.head) + ItemCalls(items.tail) }

  function MemberCalls(members: Members): seq<Call> {
    if members.Empty? then [] else [CallProperty(members.key)] + (CallsOf(members.value) + MemberCalls(members.rest))
  }

  // ----- Whatever is accepted is a pre-order -----

  /** The calls that have led to a document under construction. */
  function FrameCalls(frames: Frames): seq<Call> {
    match frames
    case Root => []
    case Done(t) => CallsOf(t)
    case InArray(items, outer) => FrameCalls(outer) + ([CallStart(true)] + ItemCalls(items))
    case InObject(members, key, outer) =>
      FrameCalls(outer) + ([CallStart(false)] + (MemberCalls(members) + if key.None? then [] else [CallProperty(key.value)]))
  }

  lemma {:induction false} ItemCallsSnoc(items: Trees, t: Tree)
    ensures ItemCalls(SnocItem(items, t)) == ItemCalls(items) + CallsOf(t)
  {
    if items.Cons? { ItemCallsSnoc(items.tail, t); }
  }

  lemma {:induction false} MemberCallsSnoc(members: Members, key: seq<unit>, t: Tree)
    ensures MemberCalls(SnocMember(members, key, t)) == MemberCalls(members) + ([CallProperty(key)] + CallsOf(t))
  {
    if members.Member? {
      MemberCallsSnoc(members.rest, key, t);
    } else {
      assert CallsOf(t) + [] == CallsOf(t);
    }
  }

  lemma ValueCalls(frames: Frames, t: Tree)
    requires TakesContainer(frames)
    ensures FrameCalls(AddValue(frames, t)) == FrameCalls(frames) + CallsOf(t)
    ensures IntegralFrames(AddValue(frames, t)) <==> IntegralFrames(frames) && Integral(t)
  {
    hide CallsOf, Integral, IntegralFrames;
    IntegralAdded(frames, t);
    match frames
    case Root => assert [] + CallsOf(t) == CallsOf(t);
    case InArray(items, _) => ItemCallsSnoc(items, t);
    case InObject(members, key, _) => MemberCallsSnoc(members, key.value, t);
  }

  lemma IntegerCall(n: int)
    ensures Integral(NumberTree(Decimal(n))) && CallsOf(NumberTree(Decimal(n))) == [CallInteger(n)]
  {
    hide Decimal;
    DecimalIsIntegral(n);
  }

  lemma ClosingCalls(frames: Frames, isArray: bool)
    requires Closable(frames, isArray) && IntegralFrames(frames)
    ensures FrameCalls(Closed(frames, isArray)) == FrameCalls(frames) + [CallEnd(isArray)]
    ensures IntegralFrames(Closed(frames, isArray))
  {
    hide AddValue;
    ValueCalls(frames.outer, if isArray then ArrayTree(frames.items) else ObjectTree(frames.members));
  }

  lemma OneCall(frames: Frames, call: Call)
    requires Accept(frames, call).Some? && IntegralFrames(frames)
    ensures FrameCalls(Accept(frames, call).value) == FrameCalls(frames) + [call] && IntegralFrames(Accept(frames, call).value)
  {
    hide AddValue, Decimal;
    match call
    case CallBoolean(b) => ValueCalls(frames, if b then TrueTree else FalseTree);
    case CallInteger(n) => IntegerCall(n); ValueCalls(frames, NumberTree(Decimal(n)));
    case CallString(str) => ValueCalls(frames, if str.None? then NullTree else StringTree(str.value));
    case CallStart(isArray) =>
    case CallEnd(isArray) => ClosingCalls(frames, isArray);
    case CallProperty(name) =>
  }

  lemma {:induction false} AllCalls(frames: Frames, calls: seq<Call>)
    requires AcceptAll(frames, calls).Some? && IntegralFrames(frames)
    ensures FrameCalls(AcceptAll(frames, calls).value) == FrameCalls(frames) + calls && IntegralFrames(AcceptAll(frames, calls).value)
    decreases |calls|
  {
    hide Accept, FrameCalls, IntegralFrames;
    if calls == [] {
      assert FrameCalls(frames) + calls == FrameCalls(frames);
    } else {
      OneCall(frames, calls[0]);
      AllCalls(Accept(frames, calls[0]).value, calls[1..]);
      assert FrameCalls(frames) + [calls[0]] + calls[1..] == FrameCalls(frames) + calls;
    }
  }

  // ----- Every pre-order is accepted -----

  lemma AcceptFirst(frames: Frames, call: Call, rest: seq<Call>)
    requires Accept(frames, call).Some?
    ensures AcceptAll(frames, [call] + rest) == AcceptAll(Accept(frames, call).value, rest)
  {
    hide Accept;
    assert ([call] + rest)[1..] == rest;
  }

  lemma {:induction false} TreeAccepted(t: Tree, frames: Frames, rest: seq<Call>)
    requires Integral(t) && if IsText(t) then TakesContainer(frames) else TakesValue(frames)
    ensures AcceptAll(frames, CallsOf(t) + rest) == AcceptAll(AddValue(frames, t), rest)
    decreases t, 1
  {
    hide AcceptAll, AddValue;
    match t
    case ArrayTree(items) =>
      assert CallsOf(t) + rest == [CallStart(true)] + (ItemCalls(items) + ([CallEnd(true)] + rest));
      AcceptFirst(frames, CallStart(true), ItemCalls(items) + ([CallEnd(true)] + rest));
      ItemsAccepted(Nil, items, frames, [CallEnd(true)] + rest);
      AcceptFirst(InArray(items, frames), CallEnd(true), rest);
    case ObjectTree(members) =>
      assert CallsOf(t) + rest == [CallStart(false)] + (MemberCalls(members) + ([CallEnd(false)] + rest));
      AcceptFirst(frames, CallStart(false), MemberCalls(members) + ([CallEnd(false)] + rest));
      MembersAccepted(Empty, members, frames, [CallEnd(false)] + rest);
      AcceptFirst(InObject(members, None, frames), CallEnd(false), rest);
    case NumberTree(text) => AcceptFirst(frames, CallInteger(IntegerOf(text)), rest);
    case TrueTree => AcceptFirst(frames, CallBoolean(true), rest);
    case FalseTree => AcceptFirst(frames, CallBoolean(false), rest);
    case NullTree => AcceptFirst(frames, CallString(None), rest);
    case StringTree(text) => AcceptFirst(frames, CallString(Some(text)), rest);
  }

  function Join(done: Trees, items: Trees): Trees
    decreases items
  {
    if items.Nil? then done else Join(SnocItem(done, items.head), items.tail)
  }

  function JoinMembers(done: Members, members: Members): Members
    decreases members
  {
    if members.Empty? then done else JoinMembers(SnocMember(done, members.key, members.value), members.rest)
  }

  lemma {:induction false} JoinCons(head: Tree, done: Trees, items: Trees)
    ensures Join(Cons(head, done), items) == Cons(head, Join(done, items))
    decreases items
  {
    if items.Cons? { JoinCons(head, SnocItem(done, items.head), items.tail); }
  }

  lemma {:induction false} JoinNil(items: Trees)
    ensures Join(Nil, items) == items
  {
    if items.Cons? {
      JoinCons(items.head, Nil, items.tail);
      JoinNil(items.tail);
    }
  }

  lemma {:induction false} JoinMember(key: seq<unit>, value: Tree, done: Members, members: Members)
    ensures JoinMembers(Member(key, value, done), members) == Member(key, value, JoinMembers(done, members))
    decreases members
  {
    if members.Member? { JoinMember(key, value, SnocMember(done, members.key, members.value), members.rest); }
  }

  lemma {:induction false} JoinEmpty(members: Members)
    ensures JoinMembers(Empty, members) == members
  {
    if members.Member? {
      JoinMember(members.key, members.value, Empty, members.rest);
      JoinEmpty(members.rest);
    }
  }

  lemma {:induction false} ItemsAccepted(done: Trees, items: Trees, outer: Frames, rest: seq<Call>)
    requires IntegralItems(items)
    ensures AcceptAll(InArray(done, outer), ItemCalls(items) + rest) == AcceptAll(InArray(Join(done, items), outer), rest)
    ensures Join(Nil, items) == items
    decreases items, 0
  {
    hide AcceptAll, Integral, CallsOf;
    JoinNil(items);
    if items.Nil? {
      assert ItemCalls(items) + rest == rest;
    } else {
      assert ItemCalls(items) + rest == CallsOf(items.head) + (ItemCalls(items.tail) + rest);
      TreeAccepted(items.head, InArray(done, outer), ItemCalls(items.tail) + rest);
      ItemsAccepted(SnocItem(done, items.head), items.tail, outer, rest);
    }
  }

  lemma {:induction false} MembersAccepted(done: Members, members: Members, outer: Frames, rest: seq<Call>)
    requires IntegralMembers(members)
    ensures AcceptAll(InObject(done, None, outer), MemberCalls(members) + rest)
         == AcceptAll(InObject(JoinMembers(done, members), None, outer), rest)
    ensures JoinMembers(Empty, members) == members
    decreases members, 0
  {
    hide AcceptAll, Integral, CallsOf;
    JoinEmpty(members);
    if members.Empty? {
      assert MemberCalls(members) + rest == rest;
    } else {
      var value := CallsOf(members.value) + (MemberCalls(members.rest) + rest);
      assert MemberCalls(members) + rest == [CallProperty(members.key)] + value;
      AcceptFirst(InObject(done, None, outer), CallProperty(members.key), value);
      TreeAccepted(members.value, InObject(done, Some(members.key), outer), MemberCalls(members.rest) + rest);
      MembersAccepted(SnocMember(done, members.key, members.value), members.rest, outer, rest);
    }
  }

  /** A sequence of calls completes a document exactly if it is the pre-order of that array or object. */
  lemma AcceptsExactlyDocuments(calls: seq<Call>, t: Tree)
    ensures AcceptAll(Root, calls) == Some(Done(t)) <==> IsText(t) && Integral(t) && calls == CallsOf(t)
  {
    hide AcceptAll, Integral, CallsOf;
    if AcceptAll(Root, calls) == Some(Done(t)) {
      AllCalls(Root, calls);
      assert [] + calls == calls;
      OnlyTexts(calls, t);
    }
    if IsText(t) && Integral(t) && calls == CallsOf(t) {
      TreeAccepted(t, Root, []);
      assert calls + [] == calls;
      AcceptNone(Done(t));
    }
  }

  lemma AcceptNone(frames: Frames)
    ensures AcceptAll(frames, []) == Some(frames)
  {
  }

  /** Frames within which everything that is open can be closed. */
  predicate Textual(frames: Frames) {
    match frames
    case Root => true
    case Done(t) => IsText(t)
    case InArray(_, outer) => Textual(outer) && TakesContainer(outer)
    case InObject(_, _, outer) => Textual(outer) && TakesContainer(outer)
  }

  lemma {:induction false} OnlyTextsFrom(frames: Frames, calls: seq<Call>)
    requires Textual(frames) && AcceptAll(frames, calls).Some?
    ensures Textual(AcceptAll(frames, calls).value)
    decreases |calls|
  {
    if calls != [] {
      TextualStep(frames, calls[0]);
      OnlyTextsFrom(Accept(frames, calls[0]).value, calls[1..]);
    }
  }

  lemma TextualStep(frames: Frames, call: Call)
    requires Textual(frames) && Accept(frames, call).Some?
    ensures Textual(Accept(frames, call).value)
  {
    hide Decimal;
  }

  lemma OnlyTexts(calls: seq<Call>, t: Tree)
    requires AcceptAll(Root, calls) == Some(Done(t))
    ensures IsText(t)
  {
    OnlyTextsFrom(Root, calls);
  }
}
