/**
 The table-driven LL(1) parser: its table, the pushdown machine over a stream of tokens, and the proof
 that the machine accepts exactly the sentences of the grammar and reports them in pre-order.
 */
module JsonGrammar {
  import opened JsonSymbols

  /** What the lexer delivers, one token after the other, and how it ends. */
  datatype Stream = EndOfText | LexicalError | Next(token: Token, rest: Stream)

  datatype JsonToken =
    | NoToken | ObjectStart | PropertyName | ObjectEnd | ArrayStart | ArrayEnd
    | IntToken | LongToken | DoubleToken | StringToken | BooleanToken | NullToken

  /** The boxed value of a token. A double stays the text that the library is asked to convert. */
  datatype TokenValue =
    | NoValue | IntValue(int32: int) | LongValue(int64: int) | ULongValue(uint64: int)
    | DoubleValue(digits: seq<unit>) | StringValue(text: seq<unit>) | BooleanValue(boolean: bool)

  datatype Event = Event(token: JsonToken, value: TokenValue)

  // ----- Numbers -----

  predicate AllDigits(text: seq<unit>) { forall k :: 0 <= k < |text| ==> IsDigit(text[k]) }

  /** The number that a run of digits spells. */
  function Digits(text: seq<unit>): int {
    if text == [] then 0 else Digits(text[..|text| - 1]) * 10 + (text[|text| - 1] - '0' as int)
  }

  predicate IsInteger(text: seq<unit>) {
    || (|text| >= 1 && AllDigits(text))
    || (|text| >= 2 && text[0] == '-' as int && AllDigits(text[1..]))
  }

  function IntegerOf(text: seq<unit>): int
    requires IsInteger(text)
  {
    if text[0] == '-' as int then -Digits(text[1..]) else Digits(text)
  }

  predicate Fractional(text: seq<unit>) { '.' as int in text || 'e' as int in text || 'E' as int in text }

  /** Double.TryParse on what the lexer lets through: it fails on an exponent without digits. */
  predicate DoubleParses(text: seq<unit>) { text != [] && IsDigit(text[|text| - 1]) }

  /** ProcessNumber: the first type that holds the number; beyond all of them, the number is zero. */
  function NumberEvent(text: seq<unit>): Event {
    if Fractional(text) && DoubleParses(text) then Event(DoubleToken, DoubleValue(text))
    else if !IsInteger(text) then Event(IntToken, IntValue(0))
    else
      var n := IntegerOf(text);
      if -0x8000_0000 <= n < 0x8000_0000 then Event(IntToken, IntValue(n))
      else if -0x8000_0000_0000_0000 <= n < 0x8000_0000_0000_0000 then Event(LongToken, LongValue(n))
      else if 0 <= n < 0x1_0000_0000_0000_0000 then Event(LongToken, ULongValue(n))
      else Event(IntToken, IntValue(0))
  }

  // ----- The table -----

  datatype Option<T> = None | Some(value: T)

  datatype Stack = Bottom | Push(top: Symbol, below: Stack)

  const COMMA := Char(',' as int)
  const COLON := Char(':' as int)
  const OPEN_BRACKET := Char('[' as int)
  const CLOSE_BRACKET := Char(']' as int)
  const OPEN_BRACE := Char('{' as int)
  const CLOSE_BRACE := Char('}' as int)
  const QUOTATION := Char(QUOTE)

  /** The symbols that are a value by themselves. */
  predicate IsLiteral(col: Symbol) { col.Number? || col.True? || col.False? || col.Null? }

  /** The symbols with which a value can begin. */
  predicate BeginsValue(col: Symbol) {
    col == QUOTATION || col == OPEN_BRACKET || col == OPEN_BRACE || IsLiteral(col)
  }

  /** The entry of the table, pushed onto what lies below; an epsilon pushes nothing. */
  function Expand(row: Symbol, col: Symbol, below: Stack): Option<Stack> {
    match row
    case Array => if col == OPEN_BRACKET then Some(Push(OPEN_BRACKET, Push(ArrayPrime, below))) else None
    case ArrayPrime =>
      if BeginsValue(col) then Some(Push(Value, Push(ValueRest, Push(CLOSE_BRACKET, below))))
      else if col == CLOSE_BRACKET then Some(Push(CLOSE_BRACKET, below))
      else None
    case Object => if col == OPEN_BRACE then Some(Push(OPEN_BRACE, Push(ObjectPrime, below))) else None
    case ObjectPrime =>
      if col == QUOTATION then Some(Push(Pair, Push(PairRest, Push(CLOSE_BRACE, below))))
      else if col == CLOSE_BRACE then Some(Push(CLOSE_BRACE, below))
      else None
    case Pair => if col == QUOTATION then Some(Push(String, Push(COLON, Push(Value, below)))) else None
    case PairRest =>
      if col == COMMA then Some(Push(COMMA, Push(Pair, Push(PairRest, below))))
      else if col == CLOSE_BRACE then Some(below)
      else None
    case String => if col == QUOTATION then Some(Push(QUOTATION, Push(CharSeq, Push(QUOTATION, below)))) else None
    case Text =>
      if col == OPEN_BRACKET then Some(Push(Array, below))
      else if col == OPEN_BRACE then Some(Push(Object, below))
      else None
    case Value =>
      if col == QUOTATION then Some(Push(String, below))
      else if col == OPEN_BRACKET then Some(Push(Array, below))
      else if col == OPEN_BRACE then Some(Push(Object, below))
      else if IsLiteral(col) then Some(Push(col, below))
      else None
    case ValueRest =>
      if col == COMMA then Some(Push(COMMA, Push(Value, Push(ValueRest, below))))
      else if col == CLOSE_BRACKET then Some(below)
      else None
    case _ => None
  }

  // ----- The machine -----

  /** What one Read gathers; `done` ends it. */
  datatype Register = Register(token: JsonToken, value: TokenValue, inString: bool, done: bool)

  const START := Register(NoToken, NoValue, false, false)

  /** ProcessSymbol. */
  function Process(r: Register, symbol: Symbol, text: seq<unit>): Register {
    if symbol == OPEN_BRACKET then r.(token := ArrayStart, done := true)
    else if symbol == CLOSE_BRACKET then r.(token := ArrayEnd, done := true)
    else if symbol == OPEN_BRACE then r.(token := ObjectStart, done := true)
    else if symbol == CLOSE_BRACE then r.(token := ObjectEnd, done := true)
    else if symbol == QUOTATION then
      if r.inString then r.(inString := false, done := true)
      else r.(token := if r.token == NoToken then StringToken else r.token, inString := true)
    else if symbol == CharSeq then r.(value := StringValue(text))
    else if symbol == False then r.(token := BooleanToken, value := BooleanValue(false), done := true)
    else if symbol == Null then r.(token := NullToken, done := true)
    else if symbol == Number then
      var e := NumberEvent(text);
      r.(token := e.token, value := e.value, done := true)
    else if symbol == Pair then r.(token := PropertyName)
    else if symbol == True then r.(token := BooleanToken, value := BooleanValue(true), done := true)
    else r
  }

  /** All that the machine will report: events up to the end of the JSON text, or a failure. */
  datatype Run = Fails | Stops(rest: Stream) | Emits(event: Event, run: Run)

  /** How many steps can pass before a token is consumed. */
  function Reach(stack: Stack): nat {
    if stack.Bottom? then 0
    else if stack.top.ValueRest? || stack.top.PairRest? then 1 + Reach(stack.below)
    else Rank(stack.top)
  }

  function Rank(symbol: Symbol): nat {
    if symbol.ArrayPrime? || symbol.ObjectPrime? then 3
    else if symbol.Text? || symbol.Value? || symbol.Pair? then 2
    else if symbol.String? || symbol.Array? || symbol.Object? then 1
    else 0
  }

  function Parse(stack: Stack, s: Stream, r: Register): Run
    decreases s, Reach(stack)
  {
    match stack
    case Bottom => Fails
    case Push(top, below) =>
      if top == End then Stops(s)
      else if !s.Next? then Fails
      else
        var q := Process(r, top, s.token.text);
        if top == s.token.symbol then
          if q.done then Emits(Event(q.token, q.value), Parse(below, s.rest, START)) else Parse(below, s.rest, q)
        else
          match Expand(top, s.token.symbol, below)
          case None => Fails
          case Some(pushed) => Parse(pushed, s, q)
  }

  // ----- Parse trees -----

  datatype Tree =
    | NumberTree(text: seq<unit>) | TrueTree | FalseTree | NullTree
    | StringTree(text: seq<unit>) | ArrayTree(items: Trees) | ObjectTree(members: Members)
  datatype Trees = Nil | Cons(head: Tree, tail: Trees)
  datatype Members = Empty | Member(key: seq<unit>, value: Tree, rest: Members)

  function Plain(symbol: Symbol): Token { Token(symbol, []) }

  function StringThen(text: seq<unit>, s: Stream): Stream {
    Next(Plain(QUOTATION), Next(Token(CharSeq, text), Next(Plain(QUOTATION), s)))
  }

  /** The tokens of a tree, and then `s`. */
  function TokensThen(t: Tree, s: Stream): Stream {
    match t
    case NumberTree(text) => Next(Token(Number, text), s)
    case TrueTree => Next(Plain(True), s)
    case FalseTree => Next(Plain(False), s)
    case NullTree => Next(Plain(Null), s)
    case StringTree(text) => StringThen(text, s)
    case ArrayTree(items) => Next(Plain(OPEN_BRACKET), ItemsThen(items, Next(Plain(CLOSE_BRACKET), s)))
    case ObjectTree(members) => Next(Plain(OPEN_BRACE), MembersThen(members, Next(Plain(CLOSE_BRACE), s)))
  }

  function ItemsThen(items: Trees, s: Stream): Stream {
    if items.Nil? then s else TokensThen(items.head, MoreItemsThen(items.tail, s))
  }

  function MoreItemsThen(items: Trees, s: Stream): Stream {
    if items.Nil? then s else Next(Plain(COMMA), TokensThen(items.head, MoreItemsThen(items.tail, s)))
  }

  function MembersThen(members: Members, s: Stream): Stream {
    if members.Empty? then s else StringThen(members.key, Next(Plain(COLON), TokensThen(members.value, MoreMembersThen(members.rest, s))))
  }

  function MoreMembersThen(members: Members, s: Stream): Stream {
    if members.Empty? then s
    else
      Next(Plain(COMMA),
           StringThen(members.key, Next(Plain(COLON), TokensThen(members.value, MoreMembersThen(members.rest, s)))))
  }

  /** The pre-order events of a tree, and then `run`. */
  function EventsThen(t: Tree, run: Run): Run {
    match t
    case NumberTree(text) => Emits(NumberEvent(text), run)
    case TrueTree => Emits(Event(BooleanToken, BooleanValue(true)), run)
    case FalseTree => Emits(Event(BooleanToken, BooleanValue(false)), run)
    case NullTree => Emits(Event(NullToken, NoValue), run)
    case StringTree(text) => Emits(Event(StringToken, StringValue(text)), run)
    case ArrayTree(items) =>
      Emits(Event(ArrayStart, NoValue), ItemEvents(items, Emits(Event(ArrayEnd, NoValue), run)))
    case ObjectTree(members) =>
      Emits(Event(ObjectStart, NoValue), MemberEvents(members, Emits(Event(ObjectEnd, NoValue), run)))
  }

  function ItemEvents(items: Trees, run: Run): Run {
    if items.Nil? then run else EventsThen(items.head, ItemEvents(items.tail, run))
  }

  function MemberEvents(members: Members, run: Run): Run {
    if members.Empty? then run
    else Emits(Event(PropertyName, StringValue(members.key)), EventsThen(members.value, MemberEvents(members.rest, run)))
  }

  // ----- Every sentence is accepted -----

  /** One step of the machine. */
  function Stepped(top: Symbol, below: Stack, token: Token, rest: Stream, r: Register): Run {
    var q := Process(r, top, token.text);
    if top == token.symbol then
      if q.done then Emits(Event(q.token, q.value), Parse(below, rest, START)) else Parse(below, rest, q)
    else
      match Expand(top, token.symbol, below)
      case None => Fails
      case Some(pushed) => Parse(pushed, Next(token, rest), q)
  }

  lemma Unfold(top: Symbol, below: Stack, token: Token, rest: Stream, r: Register)
    requires top != End
    ensures Parse(Push(top, below), Next(token, rest), r) == Stepped(top, below, token, rest, r)
  {
    hide Process, Expand;
  }

  /** A string as a value, and as the name of a property. */
  lemma ParseString(text: seq<unit>, below: Stack, s: Stream, r: Register)
    requires r == START || r == START.(token := PropertyName)
    ensures Parse(Push(String, below), StringThen(text, s), r) ==
      Emits(Event(if r == START then StringToken else PropertyName, StringValue(text)), Parse(below, s, START))
  {
    hide Parse;
    var s2 := Next(Plain(QUOTATION), s);
    var s1 := Next(Token(CharSeq, text), s2);
    var q := r.(token := if r.token == NoToken then StringToken else r.token, inString := true);
    Unfold(String, below, Plain(QUOTATION), s1, r);
    Unfold(QUOTATION, Push(CharSeq, Push(QUOTATION, below)), Plain(QUOTATION), s1, r);
    Unfold(CharSeq, Push(QUOTATION, below), Token(CharSeq, text), s2, q);
    Unfold(QUOTATION, below, Plain(QUOTATION), s, q.(value := StringValue(text)));
  }

  /** A token that is a value by itself, or that opens or closes one. */
  predicate Alone(symbol: Symbol) {
    || IsLiteral(symbol) || symbol == OPEN_BRACKET || symbol == CLOSE_BRACKET || symbol == OPEN_BRACE || symbol == CLOSE_BRACE
  }

  lemma ParseAlone(token: Token, below: Stack, s: Stream)
    requires Alone(token.symbol)
    ensures var q := Process(START, token.symbol, token.text);
      Parse(Push(token.symbol, below), Next(token, s), START) == Emits(Event(q.token, q.value), Parse(below, s, START))
  {
    hide Parse, NumberEvent;
    Unfold(token.symbol, below, token, s, START);
  }

  /** The first token of a value, by which the table chooses. */
  function Head(t: Tree): Token {
    match t
    case NumberTree(text) => Token(Number, text)
    case TrueTree => Plain(True)
    case FalseTree => Plain(False)
    case NullTree => Plain(Null)
    case StringTree(_) => Plain(QUOTATION)
    case ArrayTree(_) => Plain(OPEN_BRACKET)
    case ObjectTree(_) => Plain(OPEN_BRACE)
  }

  lemma HeadOf(t: Tree, s: Stream)
    ensures TokensThen(t, s).Next? && TokensThen(t, s).token == Head(t) && BeginsValue(Head(t).symbol)
  {
  }

  predicate IsLeaf(t: Tree) { t.NumberTree? || t.TrueTree? || t.FalseTree? || t.NullTree? }

  lemma ParseLeaf(t: Tree, below: Stack, s: Stream)
    requires IsLeaf(t)
    ensures Parse(Push(Value, below), TokensThen(t, s), START) == EventsThen(t, Parse(below, s, START))
  {
    hide Parse, NumberEvent;
    Unfold(Value, below, Head(t), s, START);
    ParseAlone(Head(t), below, s);
  }

  lemma {:induction false} ParseValue(t: Tree, below: Stack, s: Stream)
    ensures Parse(Push(Value, below), TokensThen(t, s), START) == EventsThen(t, Parse(below, s, START))
    decreases t, 0
  {
    hide Parse, NumberEvent;
    if IsLeaf(t) {
      ParseLeaf(t, below, s);
    } else {
      Unfold(Value, below, Head(t), TokensThen(t, s).rest, START);
      match t
      case StringTree(text) => ParseString(text, below, s, START);
      case ArrayTree(items) => ParseArray(items, below, s);
      case ObjectTree(members) => ParseObject(members, below, s);
    }
  }

  lemma OpensArray(below: Stack, s: Stream)
    ensures Parse(Push(Array, below), Next(Plain(OPEN_BRACKET), s), START)
         == Emits(Event(ArrayStart, NoValue), Parse(Push(ArrayPrime, below), s, START))
  {
    hide Parse, NumberEvent;
    Unfold(Array, below, Plain(OPEN_BRACKET), s, START);
    ParseAlone(Plain(OPEN_BRACKET), Push(ArrayPrime, below), s);
  }

  lemma OpensObject(below: Stack, s: Stream)
    ensures Parse(Push(Object, below), Next(Plain(OPEN_BRACE), s), START)
         == Emits(Event(ObjectStart, NoValue), Parse(Push(ObjectPrime, below), s, START))
  {
    hide Parse, NumberEvent;
    Unfold(Object, below, Plain(OPEN_BRACE), s, START);
    ParseAlone(Plain(OPEN_BRACE), Push(ObjectPrime, below), s);
  }

  lemma {:induction false} ParseArray(items: Trees, below: Stack, s: Stream)
    ensures Parse(Push(Array, below), TokensThen(ArrayTree(items), s), START) ==
      EventsThen(ArrayTree(items), Parse(below, s, START))
    decreases items, 1
  {
    hide Parse, Process;
    var closed := Next(Plain(CLOSE_BRACKET), s);
    OpensArray(below, ItemsThen(items, closed));
    ParseInside(items, below, s);
  }

  lemma {:induction false} ParseInside(items: Trees, below: Stack, s: Stream)
    ensures Parse(Push(ArrayPrime, below), ItemsThen(items, Next(Plain(CLOSE_BRACKET), s)), START) ==
      ItemEvents(items, Emits(Event(ArrayEnd, NoValue), Parse(below, s, START)))
    decreases items, 0
  {
    hide Parse, TokensThen, NumberEvent;
    var closing, closed := Push(CLOSE_BRACKET, below), Next(Plain(CLOSE_BRACKET), s);
    var inside := ItemsThen(items, closed);
    if items.Cons? {
      HeadOf(items.head, MoreItemsThen(items.tail, closed));
      ParseValue(items.head, Push(ValueRest, closing), MoreItemsThen(items.tail, closed));
      ParseItems(items.tail, closing, closed);
    }
    ParseAlone(Plain(CLOSE_BRACKET), below, s);
    Unfold(ArrayPrime, below, inside.token, inside.rest, START);
  }

  lemma {:induction false} ParseItems(items: Trees, below: Stack, s: Stream)
    requires s.Next? && s.token == Plain(CLOSE_BRACKET)
    ensures Parse(Push(ValueRest, below), MoreItemsThen(items, s), START) == ItemEvents(items, Parse(below, s, START))
    decreases items, 0
  {
    hide Parse, TokensThen, NumberEvent;
    var tokens := MoreItemsThen(items, s);
    Unfold(ValueRest, below, tokens.token, tokens.rest, START);
    if items.Cons? {
      Unfold(COMMA, Push(Value, Push(ValueRest, below)), Plain(COMMA), tokens.rest, START);
      ParseValue(items.head, Push(ValueRest, below), MoreItemsThen(items.tail, s));
      ParseItems(items.tail, below, s);
    }
  }

  lemma {:induction false} ParseObject(members: Members, below: Stack, s: Stream)
    ensures Parse(Push(Object, below), TokensThen(ObjectTree(members), s), START) ==
      EventsThen(ObjectTree(members), Parse(below, s, START))
    decreases members, 2
  {
    hide Parse, Process;
    var closed := Next(Plain(CLOSE_BRACE), s);
    OpensObject(below, MembersThen(members, closed));
    ParseWithin(members, below, s);
  }

  lemma {:induction false} ParseWithin(members: Members, below: Stack, s: Stream)
    ensures Parse(Push(ObjectPrime, below), MembersThen(members, Next(Plain(CLOSE_BRACE), s)), START) ==
      MemberEvents(members, Emits(Event(ObjectEnd, NoValue), Parse(below, s, START)))
    decreases members, 1
  {
    hide Parse, TokensThen, NumberEvent;
    var closing, closed := Push(CLOSE_BRACE, below), Next(Plain(CLOSE_BRACE), s);
    var inside := MembersThen(members, closed);
    if members.Member? {
      ParsePair(members.key, members.value, Push(PairRest, closing), MoreMembersThen(members.rest, closed));
      ParseMembers(members.rest, closing, closed);
    }
    ParseAlone(Plain(CLOSE_BRACE), below, s);
    Unfold(ObjectPrime, below, inside.token, inside.rest, START);
  }

  lemma {:induction false} ParsePair(key: seq<unit>, value: Tree, below: Stack, s: Stream)
    ensures Parse(Push(Pair, below), StringThen(key, Next(Plain(COLON), TokensThen(value, s))), START) ==
      Emits(Event(PropertyName, StringValue(key)), EventsThen(value, Parse(below, s, START)))
    decreases value, 1
  {
    hide Parse, TokensThen, NumberEvent;
    var tokens := TokensThen(value, s);
    var all := StringThen(key, Next(Plain(COLON), tokens));
    Unfold(Pair, below, all.token, all.rest, START);
    ParseString(key, Push(COLON, Push(Value, below)), Next(Plain(COLON), tokens), START.(token := PropertyName));
    Unfold(COLON, Push(Value, below), Plain(COLON), tokens, START);
    ParseValue(value, below, s);
  }

  lemma {:induction false} ParseMembers(members: Members, below: Stack, s: Stream)
    requires s.Next? && s.token == Plain(CLOSE_BRACE)
    ensures Parse(Push(PairRest, below), MoreMembersThen(members, s), START) == MemberEvents(members, Parse(below, s, START))
    decreases members, 0
  {
    hide Parse, TokensThen, NumberEvent;
    var tokens := MoreMembersThen(members, s);
    Unfold(PairRest, below, tokens.token, tokens.rest, START);
    if members.Member? {
      Unfold(COMMA, Push(Pair, Push(PairRest, below)), Plain(COMMA), tokens.rest, START);
      ParsePair(members.key, members.value, Push(PairRest, below), MoreMembersThen(members.rest, s));
      ParseMembers(members.rest, below, s);
    }
  }

  // ----- Nothing else is accepted -----

  /** Where a run stops, if it does; the lexer must be able to go on there. */
  ghost function Ending(run: Run): Option<Stream> {
    match run
    case Fails => None
    case Stops(rest) => if rest == LexicalError then None else Some(rest)
    case Emits(_, more) => Ending(more)
  }

  ghost predicate Succeeds(run: Run) { Ending(run).Some? }

  function Size(s: Stream): nat { if s.Next? then 1 + Size(s.rest) else 0 }

  predicate Terminal(symbol: Symbol) { symbol.Char? || symbol.CharSeq? || IsLiteral(symbol) }

  /** Tokens are terminals, and only numbers and strings carry characters. */
  predicate PlainToken(token: Token) {
    Terminal(token.symbol) && (token.symbol == Number || token.symbol == CharSeq || token.text == [])
  }

  ghost predicate PlainStream(s: Stream) { s.Next? ==> PlainToken(s.token) && PlainStream(s.rest) }

  /** A nonterminal on the way to success has an entry for the next token ... */
  lemma Expands(top: Symbol, below: Stack, s: Stream, r: Register)
    requires !Terminal(top) && top != End && PlainStream(s) && Succeeds(Parse(Push(top, below), s, r))
    ensures s.Next? && PlainToken(s.token) && PlainStream(s.rest) && Expand(top, s.token.symbol, below).Some?
    ensures Succeeds(Parse(Expand(top, s.token.symbol, below).value, s, Process(r, top, s.token.text)))
  {
    hide Process, Expand;
  }

  /** ... and a terminal is that very token. */
  lemma Matches(top: Symbol, below: Stack, s: Stream, r: Register)
    requires Terminal(top) && PlainStream(s) && Succeeds(Parse(Push(top, below), s, r))
    ensures s.Next? && PlainToken(s.token) && PlainStream(s.rest) && s.token.symbol == top
    ensures var q := Process(r, top, s.token.text); Succeeds(Parse(below, s.rest, if q.done then START else q))
  {
    hide Process;
  }

  /** Behind the opening quote. */
  lemma SplitCharSeq(below: Stack, s: Stream, q: Register) returns (text: seq<unit>, rest: Stream)
    requires PlainStream(s) && Succeeds(Parse(Push(CharSeq, Push(QUOTATION, below)), s, q)) && q.inString && !q.done
    ensures s == Next(Token(CharSeq, text), Next(Plain(QUOTATION), rest)) && Size(rest) < Size(s) && PlainStream(rest)
    ensures Succeeds(Parse(below, rest, START))
  {
    hide Parse, Succeeds, NumberEvent, PlainStream;
    Matches(CharSeq, Push(QUOTATION, below), s, q);
    text := s.token.text;
    var r := q.(value := StringValue(text));
    assert Process(q, CharSeq, text) == r;
    Matches(QUOTATION, below, s.rest, r);
    rest := s.rest.rest;
  }

  lemma SplitString(below: Stack, s: Stream, r: Register) returns (text: seq<unit>, rest: Stream)
    requires PlainStream(s) && Succeeds(Parse(Push(String, below), s, r))
    requires r == START || r == START.(token := PropertyName)
    ensures s == StringThen(text, rest) && Size(rest) < Size(s) && PlainStream(rest)
    ensures Succeeds(Parse(below, rest, START))
  {
    hide Parse, Succeeds, NumberEvent, PlainStream;
    Expands(String, below, s, r);
    Matches(QUOTATION, Push(CharSeq, Push(QUOTATION, below)), s, r);
    text, rest := SplitCharSeq(below, s.rest, Process(r, QUOTATION, []));
  }

  lemma {:induction false} SplitValue(below: Stack, s: Stream) returns (t: Tree, rest: Stream)
    requires PlainStream(s) && Succeeds(Parse(Push(Value, below), s, START))
    ensures s == TokensThen(t, rest) && Size(rest) < Size(s) && PlainStream(rest)
    ensures Succeeds(Parse(below, rest, START))
    decreases Size(s), 2
  {
    hide Parse, Succeeds, NumberEvent;
    Expands(Value, below, s, START);
    var symbol := s.token.symbol;
    if symbol == QUOTATION {
      var text;
      text, rest := SplitString(below, s, START);
      t := StringTree(text);
    } else if symbol == OPEN_BRACKET {
      t, rest := SplitArray(below, s);
    } else if symbol == OPEN_BRACE {
      t, rest := SplitObject(below, s);
    } else {
      t, rest := SplitLeaf(below, s);
    }
  }

  lemma SplitLeaf(below: Stack, s: Stream) returns (t: Tree, rest: Stream)
    requires PlainStream(s) && s.Next? && IsLiteral(s.token.symbol)
    requires Succeeds(Parse(Push(s.token.symbol, below), s, START))
    ensures IsLeaf(t) && s == TokensThen(t, rest) && Size(rest) < Size(s) && PlainStream(rest)
    ensures Succeeds(Parse(below, rest, START))
  {
    hide Parse, Succeeds, NumberEvent;
    Matches(s.token.symbol, below, s, START);
    rest := s.rest;
    match s.token.symbol
    case Number => t := NumberTree(s.token.text);
    case True => t := TrueTree;
    case False => t := FalseTree;
    case _ => t := NullTree;
  }

  lemma {:induction false} SplitArray(below: Stack, s: Stream) returns (t: Tree, rest: Stream)
    requires PlainStream(s) && Succeeds(Parse(Push(Array, below), s, START))
    ensures t.ArrayTree? && s == TokensThen(t, rest) && Size(rest) < Size(s) && PlainStream(rest)
    ensures Succeeds(Parse(below, rest, START))
    decreases Size(s), 1
  {
    hide Parse, Succeeds, NumberEvent;
    Expands(Array, below, s, START);
    Matches(OPEN_BRACKET, Push(ArrayPrime, below), s, START);
    var s1, closing := s.rest, Push(CLOSE_BRACKET, below);
    Expands(ArrayPrime, below, s1, START);
    var items, closed := Nil, s1;
    if s1.token.symbol != CLOSE_BRACKET {
      var head, more := SplitValue(Push(ValueRest, closing), s1);
      var tail;
      tail, closed := SplitItems(closing, more);
      items := Cons(head, tail);
    }
    Matches(CLOSE_BRACKET, below, closed, START);
    t, rest := ArrayTree(items), closed.rest;
  }

  lemma {:induction false} SplitItems(closing: Stack, s: Stream) returns (items: Trees, rest: Stream)
    requires PlainStream(s) && Succeeds(Parse(Push(ValueRest, closing), s, START))
    ensures s == MoreItemsThen(items, rest) && Size(rest) <= Size(s) && PlainStream(rest)
    ensures Succeeds(Parse(closing, rest, START))
    decreases Size(s), 0
  {
    hide Parse, Succeeds, NumberEvent;
    Expands(ValueRest, closing, s, START);
    if s.token.symbol == COMMA {
      Matches(COMMA, Push(Value, Push(ValueRest, closing)), s, START);
      var head, more := SplitValue(Push(ValueRest, closing), s.rest);
      var tail;
      tail, rest := SplitItems(closing, more);
      items := Cons(head, tail);
    } else {
      items, rest := Nil, s;
    }
  }

  lemma {:induction false} SplitObject(below: Stack, s: Stream) returns (t: Tree, rest: Stream)
    requires PlainStream(s) && Succeeds(Parse(Push(Object, below), s, START))
    ensures t.ObjectTree? && s == TokensThen(t, rest) && Size(rest) < Size(s) && PlainStream(rest)
    ensures Succeeds(Parse(below, rest, START))
    decreases Size(s), 1
  {
    hide Parse, Succeeds, NumberEvent;
    Expands(Object, below, s, START);
    Matches(OPEN_BRACE, Push(ObjectPrime, below), s, START);
    var s1, closing := s.rest, Push(CLOSE_BRACE, below);
    Expands(ObjectPrime, below, s1, START);
    var members, closed := Empty, s1;
    if s1.token.symbol != CLOSE_BRACE {
      var key, value, more := SplitPair(Push(PairRest, closing), s1);
      var tail;
      tail, closed := SplitMembers(closing, more);
      members := Member(key, value, tail);
    }
    Matches(CLOSE_BRACE, below, closed, START);
    t, rest := ObjectTree(members), closed.rest;
  }

  lemma {:induction false} SplitPair(below: Stack, s: Stream) returns (key: seq<unit>, value: Tree, rest: Stream)
    requires PlainStream(s) && Succeeds(Parse(Push(Pair, below), s, START))
    ensures s == StringThen(key, Next(Plain(COLON), TokensThen(value, rest))) && Size(rest) < Size(s) && PlainStream(rest)
    ensures Succeeds(Parse(below, rest, START))
    decreases Size(s), 3
  {
    hide Parse, Succeeds, NumberEvent;
    Expands(Pair, below, s, START);
    var s1;
    key, s1 := SplitString(Push(COLON, Push(Value, below)), s, START.(token := PropertyName));
    Matches(COLON, Push(Value, below), s1, START);
    value, rest := SplitValue(below, s1.rest);
  }

  lemma {:induction false} SplitMembers(closing: Stack, s: Stream) returns (members: Members, rest: Stream)
    requires PlainStream(s) && Succeeds(Parse(Push(PairRest, closing), s, START))
    ensures s == MoreMembersThen(members, rest) && Size(rest) <= Size(s) && PlainStream(rest)
    ensures Succeeds(Parse(closing, rest, START))
    decreases Size(s), 0
  {
    hide Parse, Succeeds, NumberEvent;
    Expands(PairRest, closing, s, START);
    if s.token.symbol == COMMA {
      Matches(COMMA, Push(Pair, Push(PairRest, closing)), s, START);
      var key, value, more := SplitPair(Push(PairRest, closing), s.rest);
      var tail;
      tail, rest := SplitMembers(closing, more);
      members := Member(key, value, tail);
    } else {
      members, rest := Empty, s;
    }
  }

  /** The stack with which every text begins. */
  const BEGIN := Push(Text, Push(End, Bottom))

  /** An object or an array. */
  predicate IsText(t: Tree) { t.ArrayTree? || t.ObjectTree? }

  /** A text can be read off `s`. */
  ghost predicate BeginsWithText(s: Stream) {
    exists t, rest :: IsText(t) && rest != LexicalError && s == TokensThen(t, rest)
  }

  /**
   The machine accepts exactly the sentences of the grammar, and reports the pre-order of the one parse
   tree there is. What follows is left alone, except that it must not break the lexer at once.
   */
  lemma AcceptsExactlyTexts(s: Stream)
    requires PlainStream(s)
    ensures Succeeds(Parse(BEGIN, s, START)) <==> BeginsWithText(s)
  {
    hide Parse;
    if Succeeds(Parse(BEGIN, s, START)) {
      var t, rest := SplitText(s);
    }
    if t, rest :| IsText(t) && rest != LexicalError && s == TokensThen(t, rest) {
      ParseText(t, rest);
      EndingThen(t, Stops(rest));
    }
  }

  lemma ParseText(t: Tree, rest: Stream)
    requires IsText(t)
    ensures Parse(BEGIN, TokensThen(t, rest), START) == EventsThen(t, Stops(rest))
  {
    hide Parse, NumberEvent;
    var s := TokensThen(t, rest);
    Unfold(Text, Push(End, Bottom), s.token, s.rest, START);
    assert Parse(Push(End, Bottom), rest, START) == Stops(rest) by { AtEnd(rest); }
    if t.ArrayTree? {
      ParseArray(t.items, Push(End, Bottom), rest);
    } else {
      ParseObject(t.members, Push(End, Bottom), rest);
    }
  }

  lemma AtEnd(rest: Stream)
    ensures Parse(Push(End, Bottom), rest, START) == Stops(rest)
  {
  }

  lemma SplitText(s: Stream) returns (t: Tree, rest: Stream)
    requires PlainStream(s) && Succeeds(Parse(BEGIN, s, START))
    ensures IsText(t) && s == TokensThen(t, rest) && rest != LexicalError
  {
    hide Parse, NumberEvent;
    Expands(Text, Push(End, Bottom), s, START);
    if s.token.symbol == OPEN_BRACKET {
      t, rest := SplitArray(Push(End, Bottom), s);
    } else {
      t, rest := SplitObject(Push(End, Bottom), s);
    }
    AtEnd(rest);
  }

  /** Events do not change how a run ends. */
  lemma {:induction false} EndingThen(t: Tree, run: Run)
    ensures Ending(EventsThen(t, run)) == Ending(run)
    decreases t
  {
    hide NumberEvent;
    match t
    case ArrayTree(items) => EndingItems(items, Emits(Event(ArrayEnd, NoValue), run));
    case ObjectTree(members) => EndingMembers(members, Emits(Event(ObjectEnd, NoValue), run));
    case NumberTree(_) =>
    case TrueTree =>
    case FalseTree =>
    case NullTree =>
    case StringTree(_) =>
  }

  lemma {:induction false} EndingItems(items: Trees, run: Run)
    ensures Ending(ItemEvents(items, run)) == Ending(run)
    decreases items
  {
    if items.Cons? {
      EndingThen(items.head, ItemEvents(items.tail, run));
      EndingItems(items.tail, run);
    }
  }

  lemma {:induction false} EndingMembers(members: Members, run: Run)
    ensures Ending(MemberEvents(members, run)) == Ending(run)
    decreases members
  {
    if members.Member? {
      EndingThen(members.value, MemberEvents(members.rest, run));
      EndingMembers(members.rest, run);
    }
  }

  // ----- One text, one tree -----

  lemma {:induction false} Unambiguous(t: Tree, u: Tree, r: Stream, s: Stream)
    requires TokensThen(t, r) == TokensThen(u, s)
    ensures t == u && r == s
    decreases t
  {
    if t.ArrayTree? {
      UnambiguousItems(t.items, u.items, Next(Plain(CLOSE_BRACKET), r), Next(Plain(CLOSE_BRACKET), s), true);
    } else if t.ObjectTree? {
      UnambiguousMembers(t.members, u.members, Next(Plain(CLOSE_BRACE), r), Next(Plain(CLOSE_BRACE), s), true);
    }
  }

  lemma {:induction false} UnambiguousItems(t: Trees, u: Trees, r: Stream, s: Stream, first: bool)
    requires r.Next? && s.Next? && r.token == s.token == Plain(CLOSE_BRACKET)
    requires if first then ItemsThen(t, r) == ItemsThen(u, s) else MoreItemsThen(t, r) == MoreItemsThen(u, s)
    ensures t == u && r == s
    decreases t
  {
    if t.Cons? && u.Cons? {
      Unambiguous(t.head, u.head, MoreItemsThen(t.tail, r), MoreItemsThen(u.tail, s));
      UnambiguousItems(t.tail, u.tail, r, s, false);
    } else if t.Cons? {
      HeadOf(t.head, MoreItemsThen(t.tail, r));
    } else if u.Cons? {
      HeadOf(u.head, MoreItemsThen(u.tail, s));
    }
  }

  lemma {:induction false} UnambiguousMembers(t: Members, u: Members, r: Stream, s: Stream, first: bool)
    requires r.Next? && s.Next? && r.token == s.token == Plain(CLOSE_BRACE)
    requires if first then MembersThen(t, r) == MembersThen(u, s) else MoreMembersThen(t, r) == MoreMembersThen(u, s)
    ensures t == u && r == s
    decreases t
  {
    if t.Member? && u.Member? {
      Unambiguous(t.value, u.value, MoreMembersThen(t.rest, r), MoreMembersThen(u.rest, s));
      UnambiguousMembers(t.rest, u.rest, r, s, false);
    }
  }
}
