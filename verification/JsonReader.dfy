/**
 The reader: the lexer's tokens drive the pushdown machine, one token ahead, and every Read stops at
 the next event.
 */
module JsonReader {
  import opened JsonSymbols
  import opened JsonLexer
  import opened JsonGrammar

  // ----- A text as a stream of tokens -----

  function PlainOf(token: Token): Token {
    if token.symbol == Number || token.symbol == CharSeq then token else Plain(token.symbol)
  }

  function Tokenize(f: Flags, state: int, s: seq<unit>): Stream
    decreases |s|, if Eager(state) then 0 else 1
  {
    match Lex(f, Fresh(state), s)
    case Malformed => LexicalError
    case EndOfInput => EndOfText
    case Lexed(token, next, rest) => Next(PlainOf(token), Tokenize(f, next, rest))
  }

  lemma {:induction false} LexedIsTerminal(f: Flags, c: Config, s: seq<unit>)
    ensures Lex(f, c, s).Lexed? ==> Terminal(Lex(f, c, s).token.symbol)
    decreases |s|
  {
    if s != [] && Delta(f, c, s[0]).Go? { LexedIsTerminal(f, Delta(f, c, s[0]).config, s[1..]); }
    hide Delta;
  }

  lemma {:induction false} TokenizePlain(f: Flags, state: int, s: seq<unit>)
    ensures PlainStream(Tokenize(f, state, s))
    decreases |s|, if Eager(state) then 0 else 1
  {
    hide Lex;
    LexedIsTerminal(f, Fresh(state), s);
    match Lex(f, Fresh(state), s)
    case Lexed(_, next, rest) => TokenizePlain(f, next, rest);
    case Malformed =>
    case EndOfInput =>
  }

  // ----- The reader -----

  /** The symbols that may lie directly on the end marker: a text, or what is left of one. */
  predicate Outermost(symbol: Symbol) {
    || symbol.Text? || symbol.Array? || symbol.ArrayPrime? || symbol.Object? || symbol.ObjectPrime?
    || symbol == CLOSE_BRACKET || symbol == CLOSE_BRACE
  }

  predicate Good(stack: Stack) {
    match stack
    case Bottom => false
    case Push(top, below) =>
      if top == End then below == Bottom else Good(below) && (below.top == End ==> Outermost(top))
  }

  lemma GoodPush(top: Symbol, below: Stack)
    requires Good(below) && top != End && (below.top == End ==> Outermost(top))
    ensures Good(Push(top, below))
  {
  }

  /** The table keeps the stack good. */
  lemma ExpandGood(top: Symbol, below: Stack, col: Symbol)
    requires Good(below) && (below.top == End ==> Outermost(top)) && Expand(top, col, below).Some?
    ensures Good(Expand(top, col, below).value)
  {
    hide Good, BeginsValue;
    match top
    case Array => GoodPush(ArrayPrime, below); GoodPush(OPEN_BRACKET, Push(ArrayPrime, below));
    case ArrayPrime =>
      var closing := Push(CLOSE_BRACKET, below);
      GoodPush(CLOSE_BRACKET, below); GoodPush(ValueRest, closing); GoodPush(Value, Push(ValueRest, closing));
    case Object => GoodPush(ObjectPrime, below); GoodPush(OPEN_BRACE, Push(ObjectPrime, below));
    case ObjectPrime =>
      var closing := Push(CLOSE_BRACE, below);
      GoodPush(CLOSE_BRACE, below); GoodPush(PairRest, closing); GoodPush(Pair, Push(PairRest, closing));
    case Pair => GoodPush(Value, below); GoodPush(COLON, Push(Value, below)); GoodPush(String, Push(COLON, Push(Value, below)));
    case PairRest => GoodPush(PairRest, below); GoodPush(Pair, Push(PairRest, below)); GoodPush(COMMA, Push(Pair, Push(PairRest, below)));
    case String =>
      var last := Push(QUOTATION, below);
      GoodPush(QUOTATION, below); GoodPush(CharSeq, last); GoodPush(QUOTATION, Push(CharSeq, last));
    case Text => GoodPush(if col == OPEN_BRACKET then Array else Object, below);
    case Value =>
      GoodPush(if col == QUOTATION then String else if col == OPEN_BRACKET then Array else if col == OPEN_BRACE then Object else col, below);
    case ValueRest => GoodPush(ValueRest, below); GoodPush(Value, Push(ValueRest, below)); GoodPush(COMMA, Push(Value, Push(ValueRest, below)));
  }

  class JsonReader {
    const lexer: Lexer
    var automatonStack: Stack
    var currentInput: Symbol
    var currentSymbol: Symbol
    var endOfJson: bool
    var endOfInput: bool
    var parserInString: bool
    var parserReturn: bool
    var readStarted: bool
    var token: JsonToken
    var tokenValue: TokenValue

    constructor (text: seq<unit>)
      ensures Valid() && fresh(lexer) && !endOfJson && !endOfInput && !readStarted
      ensures automatonStack == BEGIN && Stream() == Tokenize(Flags(true, true), 1, text)
    {
      lexer := new Lexer(text, Flags(true, true));
      automatonStack, currentInput, currentSymbol := BEGIN, End, End;
      endOfJson, endOfInput, readStarted := false, false, false;
      parserInString, parserReturn := false, false;
      token, tokenValue := NoToken, NoValue;
    }

    ghost predicate Valid()
      reads this, lexer
    {
      && (!endOfInput ==> lexer.Ready() && (readStarted ==> Terminal(currentInput)))
      && Good(automatonStack) && (endOfJson <==> automatonStack.top == End) && (endOfInput ==> endOfJson)
    }

    /** The tokens that are left, the one ahead included. */
    ghost function Stream(): Stream
      requires !endOfInput ==> lexer.Ready()
      reads this, lexer
    {
      if endOfInput then EndOfText
      else if !readStarted then Behind()
      else Next(PlainOf(Token(currentInput, lexer.stringValue)), Behind())
    }

    /** ... and excluded. */
    ghost function Behind(): Stream
      requires lexer.Ready()
      reads this, lexer
    {
      Tokenize(lexer.flags, lexer.state, lexer.Rest())
    }

    /** What is still to be reported of the current text. */
    ghost function Upcoming(): Run
      requires Valid()
      reads this, lexer
    {
      Parse(automatonStack, Stream(), START)
    }

    /** ... once the stack is set up anew after the end of a text. */
    ghost function AtStart(): Run
      requires Valid()
      reads this, lexer
    {
      Parse(if endOfJson then BEGIN else automatonStack, Stream(), START)
    }

    ghost function Gathered(): Register reads this { Register(token, tokenValue, parserInString, parserReturn) }

    method ProcessSymbol()
      modifies this
      ensures Gathered() == Process(old(Gathered()), currentSymbol, lexer.stringValue)
      ensures automatonStack == old(automatonStack) && currentInput == old(currentInput) && currentSymbol == old(currentSymbol)
      ensures endOfJson == old(endOfJson) && endOfInput == old(endOfInput) && readStarted == old(readStarted)
    {
      if currentSymbol == OPEN_BRACKET {
        token, parserReturn := ArrayStart, true;
      } else if currentSymbol == CLOSE_BRACKET {
        token, parserReturn := ArrayEnd, true;
      } else if currentSymbol == OPEN_BRACE {
        token, parserReturn := ObjectStart, true;
      } else if currentSymbol == CLOSE_BRACE {
        token, parserReturn := ObjectEnd, true;
      } else if currentSymbol == QUOTATION {
        if parserInString {
          parserInString, parserReturn := false, true;
        } else {
          if token == NoToken {
            token := StringToken;
          }
          parserInString := true;
        }
      } else if currentSymbol == CharSeq {
        tokenValue := StringValue(lexer.stringValue);
      } else if currentSymbol == False {
        token, tokenValue, parserReturn := BooleanToken, BooleanValue(false), true;
      } else if currentSymbol == Null {
        token, parserReturn := NullToken, true;
      } else if currentSymbol == Number {
        var number := NumberEvent(lexer.stringValue);
        token, tokenValue, parserReturn := number.token, number.value, true;
      } else if currentSymbol == Pair {
        token := PropertyName;
      } else if currentSymbol == True {
        token, tokenValue, parserReturn := BooleanToken, BooleanValue(true), true;
      }
    }

    /** Fetches the next token ahead; false at the end of the text. */
    method ReadToken() returns (r: Outcome)
      requires !endOfInput && lexer.Ready()
      modifies this`endOfInput, this`endOfJson, this`currentInput, lexer
      ensures r == Thrown <==> old(Behind()) == LexicalError
      ensures r == Returned(false) <==> old(Behind()) == EndOfText
      ensures r == Returned(false) ==> endOfInput && endOfJson
      ensures r == Returned(true) ==> endOfInput == old(endOfInput) && endOfJson == old(endOfJson) && lexer.Ready()
      ensures r == Returned(true) ==> Next(PlainOf(Token(currentInput, lexer.stringValue)), Behind()) == old(Behind())
      ensures r == Returned(true) ==> Terminal(currentInput)
    {
      hide Lex;
      LexedIsTerminal(lexer.flags, Fresh(lexer.state), lexer.Rest());
      r := lexer.NextToken();
      if r == Returned(false) {
        endOfInput, endOfJson := true, true;
      } else if r == Returned(true) {
        currentInput := lexer.token;
      }
    }

    /**
     The next event. The original answers false only when there is no text at all: in the middle of one
     it reports or throws, and the stack is never popped empty.
     */
    method Read() returns (r: Outcome)
      requires Valid()
      modifies this, lexer
      ensures old(endOfInput) ==> r == Returned(false)
      ensures !old(endOfInput) && old(Stream()) == EndOfText ==> r == Returned(false) && token == NoToken
      ensures !old(endOfInput) && old(Stream()) != EndOfText ==> Reported(this, r, old(AtStart())) == true
    {
      hide Parse, Process, Expand, Tokenize, Reach, Good;
      if endOfInput {
        return Returned(false);
      }
      ghost var run := AtStart();
      BeginIsGood();
      if endOfJson {
        endOfJson := false;
        automatonStack := BEGIN;
      }
      parserInString, parserReturn := false, false;
      token, tokenValue := NoToken, NoValue;
      if !readStarted {
        Dead(automatonStack, LexicalError, START);
        readStarted := true;
        var more := ReadToken();
        if more != Returned(true) {
          return more;
        }
      }
      r := Drive(run);
    }

    /** The loop of Read. */
    method Drive(ghost run: Run) returns (r: Outcome)
      requires Midway(this, run)
      modifies this, lexer
      ensures Reported(this, r, run) == true
    {
      hide Parse, Process, Expand, Tokenize, Reach, Good;
      while true
        invariant Midway(this, run)
        decreases Stream(), Reach(automatonStack)
      {
        if parserReturn {
          BeginIsGood();
          if automatonStack.top == End {
            endOfJson := true;
          }
          return Returned(true);
        }
        var out := Step(run);
        if out.Some? {
          return out.value;
        }
      }
    }

    /** One symbol is popped, processed, and matched against the token ahead or expanded. */
    method Step(ghost run: Run) returns (out: Option<Outcome>)
      requires Midway(this, run) && !parserReturn
      modifies this, lexer
      ensures out.None? ==> Midway(this, run) == true
      ensures out.None? ==> Closer(Stream(), automatonStack, old(Stream()), old(automatonStack))
      ensures out.Some? ==> Reported(this, out.value, run) == true
    {
      hide Parse, Process, Expand, Tokenize, Reach;
      ghost var ahead, was := Token(currentInput, lexer.stringValue), Gathered();
      currentSymbol := automatonStack.top;
      automatonStack := automatonStack.below;
      if currentSymbol == currentInput || !Terminal(currentSymbol) { ProcessPlain(was, currentSymbol, ahead); }
      ProcessSymbol();
      if currentSymbol == currentInput {
        StepMatches(automatonStack, PlainOf(ahead), Behind(), was);
        out := Shift(run);
      } else {
        StepExpands(currentSymbol, automatonStack, PlainOf(ahead), Behind(), was);
        var entry := Expand(currentSymbol, currentInput, automatonStack);
        if entry.None? {
          return Some(Thrown);
        }
        ExpandReach(currentSymbol, automatonStack, currentInput);
        automatonStack := entry.value;
        return None;
      }
    }

    /** The token ahead is consumed: the next one is fetched before anything is reported. */
    method Shift(ghost run: Run) returns (out: Option<Outcome>)
      requires !endOfInput && !endOfJson && readStarted && lexer.Ready() && Good(automatonStack)
      requires automatonStack.top == End ==> parserReturn
      requires run == if parserReturn then Emits(Event(token, tokenValue), Parse(automatonStack, Behind(), START))
                      else Parse(automatonStack, Behind(), Gathered())
      modifies this`endOfInput, this`endOfJson, this`currentInput, lexer
      ensures out.None? ==> Midway(this, run) == true && Stream() == old(Behind())
      ensures out.Some? ==> Reported(this, out.value, run) == true
    {
      hide Parse, Process, Expand, Tokenize;
      ghost var behind := Behind();
      if !behind.Next? && (behind == LexicalError || automatonStack.top != End) {
        Dead(automatonStack, behind, START);
        Dead(automatonStack, behind, Gathered());
      }
      var more := ReadToken();
      if more == Thrown {
        return Some(Thrown);
      }
      if more == Returned(false) {
        if automatonStack.top != End {
          return Some(Thrown);
        }
        assert parserReturn;
        return Some(Returned(true));
      }
      return None;
    }
  }

  lemma BeginIsGood()
    ensures Good(BEGIN) && forall stack :: Good(stack) ==> stack.Push?
  {
  }

  /** The measure that every step lowers. */
  ghost predicate Closer(s: Stream, stack: Stack, wasS: Stream, wasStack: Stack) {
    s < wasS || (s == wasS && Reach(stack) < Reach(wasStack))
  }

  /** Nothing is left to report, because the text has an error. */
  predicate Broken(run: Run) { run == Fails || run == Stops(LexicalError) }

  /** Without a token ahead nothing goes on, except at the end marker behind a whole text. */
  lemma Dead(stack: Stack, s: Stream, r: Register)
    requires Good(stack) && !s.Next? && (s == LexicalError || stack.top != End)
    ensures Broken(Parse(stack, s, r))
  {
  }

  /** The characters of a token matter only to the symbols that carry some. */
  lemma ProcessPlain(r: Register, top: Symbol, token: Token)
    requires top == token.symbol || !Terminal(top)
    ensures Process(r, top, PlainOf(token).text) == Process(r, top, token.text)
  {
    hide NumberEvent;
  }

  /** A match either reports, or leaves something above the end marker. */
  lemma StepMatches(below: Stack, token: Token, rest: Stream, r: Register)
    requires Terminal(token.symbol) && Good(Push(token.symbol, below))
    ensures var q := Process(r, token.symbol, token.text);
      && Parse(Push(token.symbol, below), Next(token, rest), r) ==
           (if q.done then Emits(Event(q.token, q.value), Parse(below, rest, START)) else Parse(below, rest, q))
      && Good(below) && (below.top == End ==> q.done)
  {
    hide Parse, NumberEvent;
    Unfold(token.symbol, below, token, rest, r);
  }

  lemma GoodBelow(top: Symbol, below: Stack)
    requires Good(Push(top, below)) && top != End
    ensures Good(below) && below.Push? && (below.top == End ==> Outermost(top))
  {
  }

  /** Expanding reports nothing, and does not bring the end marker up. */
  lemma Quiet(top: Symbol, below: Stack, token: Token, r: Register)
    requires Expand(top, token.symbol, below).Some? && !r.done && Terminal(token.symbol)
    requires Good(below) && (below.top == End ==> Outermost(top))
    ensures !Terminal(top) && !Process(r, top, token.text).done
    ensures Expand(top, token.symbol, below).value.Push? && Expand(top, token.symbol, below).value.top != End
  {
    hide NumberEvent, BeginsValue;
  }

  lemma StepExpands(top: Symbol, below: Stack, token: Token, rest: Stream, r: Register)
    requires top != End && top != token.symbol && Terminal(token.symbol) && Good(Push(top, below)) && !r.done
    ensures var q := Process(r, top, token.text);
      match Expand(top, token.symbol, below)
      case None => Parse(Push(top, below), Next(token, rest), r) == Fails
      case Some(pushed) =>
        && Parse(Push(top, below), Next(token, rest), r) == Parse(pushed, Next(token, rest), q)
        && !q.done && !Terminal(top) && Good(pushed) && pushed.top != End
  {
    hide Parse, Process, Expand, Good;
    Unfold(top, below, token, rest, r);
    GoodBelow(top, below);
    if Expand(top, token.symbol, below).Some? {
      ExpandGood(top, below, token.symbol);
      Quiet(top, below, token, r);
    }
  }

  lemma ReachOf(top: Symbol, below: Stack)
    ensures Reach(Push(top, below)) == if top.ValueRest? || top.PairRest? then 1 + Reach(below) else Rank(top)
  {
  }

  /** An epsilon uncovers what lies below; otherwise the new top ranks lower and is no epsilon candidate. */
  lemma ExpandRank(top: Symbol, below: Stack, col: Symbol)
    requires Expand(top, col, below).Some?
    ensures var pushed := Expand(top, col, below).value;
      if top.ValueRest? || top.PairRest? then pushed == below || (pushed.Push? && pushed.top == COMMA)
      else pushed.Push? && !pushed.top.ValueRest? && !pushed.top.PairRest? && Rank(pushed.top) < Rank(top)
  {
    hide BeginsValue;
  }

  lemma ExpandReach(top: Symbol, below: Stack, col: Symbol)
    requires Expand(top, col, below).Some?
    ensures Reach(Expand(top, col, below).value) < Reach(Push(top, below))
  {
    hide Reach, BeginsValue, Expand;
    ReachOf(top, below);
    ExpandRank(top, below, col);
    var pushed := Expand(top, col, below).value;
    if pushed.Push? { ReachOf(pushed.top, pushed.below); }
  }

  /** The end of a text is reached only by an event. */
  lemma {:induction false} NoSilentStop(stack: Stack, s: Stream, r: Register)
    requires PlainStream(s) && Good(stack) && stack.top != End && !r.done
    ensures !Parse(stack, s, r).Stops?
    decreases s, Reach(stack)
  {
    hide Process, Expand, Good, Reach;
    BeginIsGood();
    if s.Next? {
      var top, below := stack.top, stack.below;
      if top == s.token.symbol {
        StepMatches(below, s.token, s.rest, r);
        var q := Process(r, top, s.token.text);
        if !q.done { NoSilentStop(below, s.rest, q); }
      } else {
        StepExpands(top, below, s.token, s.rest, r);
        var entry := Expand(top, s.token.symbol, below);
        if entry.Some? {
          ExpandReach(top, below, s.token.symbol);
          NoSilentStop(entry.value, s, Process(r, top, s.token.text));
        }
      }
    }
  }

  /** In the middle of a Read that has to report the first event of `run`. */
  ghost predicate Midway(r: JsonReader, run: Run)
    reads r, r.lexer
  {
    && !r.endOfInput && !r.endOfJson && r.readStarted && r.lexer.Ready() && Good(r.automatonStack) && Terminal(r.currentInput)
    && if r.parserReturn then run == Emits(Event(r.token, r.tokenValue), Parse(r.automatonStack, r.Stream(), START))
       else r.automatonStack.top != End && run == Parse(r.automatonStack, r.Stream(), r.Gathered())
  }

  /** What a Read may do when `run` lies ahead: report its first event, or throw if it breaks now or right after. */
  ghost predicate Reported(r: JsonReader, out: Outcome, run: Run)
    reads r, r.lexer
  {
    match out
    case Thrown => Broken(run) || (run.Emits? && Broken(run.run))
    case Returned(more) => more && r.Valid() && (r.readStarted || r.endOfInput) && run == Emits(Event(r.token, r.tokenValue), r.Upcoming())
  }

  // ----- A whole text, Read by Read -----

  ghost function FromEvents(events: seq<Event>, run: Run): Run {
    if events == [] then run else Emits(events[0], FromEvents(events[1..], run))
  }

  lemma {:induction false} FromEventsSnoc(events: seq<Event>, e: Event, run: Run)
    ensures FromEvents(events + [e], run) == FromEvents(events, Emits(e, run))
  {
    if events == [] {
      assert [e][1..] == [];
    } else {
      FromEventsSnoc(events[1..], e, run);
      assert (events + [e])[1..] == events[1..] + [e];
    }
  }

  lemma {:induction false} EndingFrom(events: seq<Event>, run: Run)
    ensures Ending(FromEvents(events, run)) == Ending(run)
  {
    if events != [] { EndingFrom(events[1..], run); }
  }

  ghost function Length(run: Run): nat { if run.Emits? then 1 + Length(run.run) else 0 }

  /** `events` are the pre-order of the tree whose tokens lie between `s` and `rest`. */
  ghost predicate Tells(events: seq<Event>, s: Stream, rest: Stream) {
    exists t :: IsText(t) && s == TokensThen(t, rest) && FromEvents(events, Stops(rest)) == EventsThen(t, Stops(rest))
  }

  /**
   Reads one text to its end: the first of a reader, or the one behind the last. It returns with events exactly
   when the tokens begin with a sentence of the grammar (and the lexer can go on behind it); then the events are
   the pre-order of its tree, and the reader stands right behind it, ready for the next. Without any token it
   returns empty-handed, and of anything else there is an exception.
   */
  method ReadToEnd(reader: JsonReader) returns (r: Outcome, events: seq<Event>)
    requires reader.Valid() && (reader.endOfJson || reader.automatonStack == BEGIN)
    modifies reader, reader.lexer
    ensures r == Returned(true) <==> BeginsWithText(old(reader.Stream()))
    ensures r == Returned(true) ==> reader.Valid() && reader.endOfJson && Tells(events, old(reader.Stream()), reader.Stream())
    ensures r == Returned(false) <==> old(reader.Stream()) == EndOfText
    ensures r == Returned(false) ==> events == []
  {
    hide Parse, Tokenize, Good, TokensThen, EventsThen, Reach;
    ghost var s, run := reader.Stream(), reader.AtStart();
    StreamIsPlain(reader);
    AcceptsExactlyTexts(s);
    NothingInEmptyText();
    events := [];
    var more := true;
    while more
      invariant reader.Valid() && run == FromEvents(events, if more then reader.AtStart() else reader.Upcoming())
      invariant more ==> if events == [] then reader.Stream() == s else s != EndOfText && reader.Stream() != EndOfText
      invariant !more ==> s != EndOfText && reader.endOfJson && (reader.endOfInput || reader.readStarted)
      decreases more, if more then Length(reader.AtStart()) else 0
    {
      ghost var upcoming := reader.AtStart();
      EndingFrom(events, upcoming);
      r := reader.Read();
      if r != Returned(true) {
        return r, events;
      }
      var e := Event(reader.token, reader.tokenValue);
      FromEventsSnoc(events, e, reader.Upcoming());
      events := events + [e];
      more := !reader.endOfJson;
    }
    Finished(reader);
    ToldInFull(s, events, reader.Stream());
    return Returned(true), events;
  }

  lemma NothingInEmptyText()
    ensures !Succeeds(Parse(BEGIN, EndOfText, START))
  {
    Dead(BEGIN, EndOfText, START);
  }

  lemma Finished(r: JsonReader)
    requires r.Valid() && r.endOfJson && (r.endOfInput || r.readStarted)
    ensures r.Upcoming() == Stops(r.Stream()) && r.Stream() != LexicalError
  {
    hide Tokenize;
    assert r.automatonStack == Push(End, Bottom);
    AtEnd(r.Stream());
  }

  lemma ToldInFull(s: Stream, events: seq<Event>, rest: Stream)
    requires PlainStream(s) && rest != LexicalError
    requires Parse(BEGIN, s, START) == FromEvents(events, Stops(rest))
    ensures BeginsWithText(s) && Tells(events, s, rest)
  {
    hide Parse, TokensThen, EventsThen;
    EndingFrom(events, Stops(rest));
    var t, r := SplitText(s);
    ParseText(t, r);
    EndingThen(t, Stops(r));
  }

  lemma StreamIsPlain(r: JsonReader)
    requires r.Valid()
    ensures PlainStream(r.Stream())
  {
    hide Tokenize, Parse;
    if !r.endOfInput {
      TokenizePlain(r.lexer.flags, r.lexer.state, r.lexer.Rest());
    }
  }
}
