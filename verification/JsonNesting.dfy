/**
 What the machine reports is well nested, even of a text that turns out to be broken: nothing but the end
 of the outermost array or object can be followed by the end of the run.
 */
module JsonNesting {
  import opened JsonSymbols
  import opened JsonGrammar

  /** The arrays and objects that are open, innermost first. */
  datatype Context = Outside | Items(outer: Context) | Entries(outer: Context)

  /** Before the text, between the parts of a context, or where a value has to follow a property's name. */
  datatype Position = Start | In(context: Context) | ValueIn(context: Context)

  predicate IsScalar(token: JsonToken) {
    token.IntToken? || token.LongToken? || token.DoubleToken? || token.StringToken? || token.BooleanToken? || token.NullToken?
  }

  /** Where the beginning of a value leads to. */
  function StepValue(context: Context, token: JsonToken): Option<Position> {
    if token.ArrayStart? then Some(In(Items(context)))
    else if token.ObjectStart? then Some(In(Entries(context)))
    else if IsScalar(token) then Some(In(context))
    else None
  }

  function Step(position: Position, token: JsonToken): Option<Position> {
    match position
    case Start => if IsScalar(token) then None else StepValue(Outside, token)
    case ValueIn(context) => StepValue(context, token)
    case In(Outside) => None
    case In(Items(outer)) => if token.ArrayEnd? then Some(In(outer)) else StepValue(Items(outer), token)
    case In(Entries(outer)) =>
      if token.ObjectEnd? then Some(In(outer))
      else if token.PropertyName? then Some(ValueIn(Entries(outer)))
      else None
  }

  /** Every event fits its place. A run ends outside exactly when it stops; otherwise it fails. */
  ghost predicate Nested(run: Run, position: Position) {
    match run
    case Fails => position != In(Outside)
    case Stops(_) => position == In(Outside)
    case Emits(event, more) => Step(position, event.token).Some? && Nested(more, Step(position, event.token).value)
  }

  /** What lies on the stack between the parts of a context. */
  function Pending(context: Context): Stack {
    match context
    case Outside => Push(End, Bottom)
    case Items(outer) => Push(ValueRest, Push(CLOSE_BRACKET, Pending(outer)))
    case Entries(outer) => Push(PairRest, Push(CLOSE_BRACE, Pending(outer)))
  }

  // ----- One step of the machine -----

  /** A terminal is consumed, or the run fails. */
  lemma OnTerminal(top: Symbol, below: Stack, s: Stream, r: Register)
    requires Terminal(top) && PlainStream(s)
    ensures var run := Parse(Push(top, below), s, r);
      || run == Fails
      || (s.Next? && s.token.symbol == top && PlainStream(s.rest) && run == Stepped(top, below, s.token, s.rest, r))
  {
    hide Process, Expand;
    if s.Next? && s.token.symbol != top { assert Expand(top, s.token.symbol, below).None? by { NoEntry(top, s.token.symbol, below); } }
  }

  lemma NoEntry(top: Symbol, col: Symbol, below: Stack)
    requires Terminal(top)
    ensures Expand(top, col, below).None?
  {
  }

  /** A nonterminal is replaced by its entry for the next token, or the run fails. */
  lemma OnNonterminal(top: Symbol, below: Stack, s: Stream, r: Register)
    requires !Terminal(top) && top != End && PlainStream(s)
    ensures var run := Parse(Push(top, below), s, r);
      || run == Fails
      || (s.Next? && Expand(top, s.token.symbol, below).Some? && run == Stepped(top, below, s.token, s.rest, r))
  {
    hide Process, Expand;
  }

  /** A bracket, a brace or a literal: one event. */
  lemma OnAlone(symbol: Symbol, below: Stack, s: Stream) returns (e: Event)
    requires Alone(symbol) && PlainStream(s)
    ensures var run := Parse(Push(symbol, below), s, START);
      || run == Fails
      || (s.Next? && PlainStream(s.rest) && run == Emits(e, Parse(below, s.rest, START)))
    ensures symbol == OPEN_BRACKET ==> e.token == ArrayStart
    ensures symbol == CLOSE_BRACKET ==> e.token == ArrayEnd
    ensures symbol == OPEN_BRACE ==> e.token == ObjectStart
    ensures symbol == CLOSE_BRACE ==> e.token == ObjectEnd
    ensures IsLiteral(symbol) ==> IsScalar(e.token)
  {
    hide Parse;
    OnTerminal(symbol, below, s, START);
    var q := Process(START, symbol, if s.Next? then s.token.text else []);
    e := Event(q.token, q.value);
  }

  /** Behind the opening quote. */
  lemma OnCharSeq(below: Stack, s: Stream, q: Register) returns (text: seq<unit>, rest: Stream)
    requires PlainStream(s) && q.inString && !q.done
    ensures var run := Parse(Push(CharSeq, Push(QUOTATION, below)), s, q);
      || run == Fails
      || (PlainStream(rest) && Size(rest) < Size(s) && run == Emits(Event(q.token, StringValue(text)), Parse(below, rest, START)))
  {
    hide Parse, NumberEvent;
    text, rest := [], s;
    OnTerminal(CharSeq, Push(QUOTATION, below), s, q);
    if s.Next? {
      text := s.token.text;
      OnTerminal(QUOTATION, below, s.rest, q.(value := StringValue(text)));
      if s.rest.Next? { rest := s.rest.rest; }
    }
  }

  /** A string: one event, as a value or as the name of a property. */
  lemma OnString(below: Stack, s: Stream, r: Register) returns (text: seq<unit>, rest: Stream)
    requires PlainStream(s) && (r == START || r == START.(token := PropertyName))
    ensures var run := Parse(Push(String, below), s, r);
      var e := Event(if r == START then StringToken else PropertyName, StringValue(text));
      run == Fails || (PlainStream(rest) && Size(rest) < Size(s) && run == Emits(e, Parse(below, rest, START)))
  {
    hide Parse, NumberEvent, PlainStream;
    var quoted := Push(CharSeq, Push(QUOTATION, below));
    text, rest := [], s;
    OnNonterminal(String, below, s, r);
    OnTerminal(QUOTATION, quoted, s, r);
    if s.Next? && PlainStream(s.rest) {
      text, rest := OnCharSeq(below, s.rest, r.(token := if r.token == NoToken then StringToken else r.token, inString := true));
    }
  }

  // ----- The whole run -----

  /** In front of a literal, a quote, a bracket or a brace that begins a value. */
  lemma {:induction false} ValueNests(context: Context, s: Stream)
    requires PlainStream(s)
    ensures Nested(Parse(Push(Value, Pending(context)), s, START), ValueIn(context))
    decreases Size(s), 3
  {
    hide Parse, Process, PlainStream, Pending;
    OnNonterminal(Value, Pending(context), s, START);
    if Parse(Push(Value, Pending(context)), s, START) != Fails {
      Unchanged(Value, s.token.text);
      var symbol := s.token.symbol;
      if symbol == QUOTATION {
        var text, rest := OnString(Pending(context), s, START);
        if Parse(Push(String, Pending(context)), s, START) != Fails { BetweenNests(context, rest); }
      } else if symbol == OPEN_BRACKET {
        ArrayNests(context, s);
      } else if symbol == OPEN_BRACE {
        ObjectNests(context, s);
      } else {
        var _ := OnAlone(symbol, Pending(context), s);
        if Parse(Push(symbol, Pending(context)), s, START) != Fails { BetweenNests(context, s.rest); }
      }
    }
  }

  /** These symbols leave the register alone. */
  lemma Unchanged(top: Symbol, text: seq<unit>)
    requires top in {Array, ArrayPrime, Object, ObjectPrime, PairRest, String, Text, Value, ValueRest, COMMA, COLON}
    ensures Process(START, top, text) == START
  {
  }

  lemma {:induction false} ArrayNests(context: Context, s: Stream)
    requires PlainStream(s)
    ensures var run := Parse(Push(Array, Pending(context)), s, START);
      run == Fails || (run.Emits? && run.event.token == ArrayStart && Nested(run.run, In(Items(context))))
    decreases Size(s), 2
  {
    hide Parse, Process, PlainStream, Pending;
    OnNonterminal(Array, Pending(context), s, START);
    if Parse(Push(Array, Pending(context)), s, START) != Fails {
      Unchanged(Array, s.token.text);
      var _ := OnAlone(OPEN_BRACKET, Push(ArrayPrime, Pending(context)), s);
      if PlainStream(s.rest) { InsideArrayNests(context, s.rest); }
    }
  }

  lemma {:induction false} InsideArrayNests(outer: Context, s: Stream)
    requires PlainStream(s)
    ensures Nested(Parse(Push(ArrayPrime, Pending(outer)), s, START), In(Items(outer)))
    decreases Size(s), 4
  {
    hide Parse, Process, PlainStream;
    OnNonterminal(ArrayPrime, Pending(outer), s, START);
    if Parse(Push(ArrayPrime, Pending(outer)), s, START) != Fails {
      Unchanged(ArrayPrime, s.token.text);
      if s.token.symbol == CLOSE_BRACKET {
        ClosingNests(outer, s, true);
      } else {
        ValueNests(Items(outer), s);
        ItemNests(Parse(Push(Value, Pending(Items(outer))), s, START), outer);
      }
    }
  }

  /** Where a value is due, an item fits. */
  lemma ItemNests(run: Run, outer: Context)
    requires Nested(run, ValueIn(Items(outer)))
    ensures Nested(run, In(Items(outer)))
  {
  }

  lemma {:induction false} ClosingNests(outer: Context, s: Stream, bracket: bool)
    requires PlainStream(s)
    ensures bracket ==> Nested(Parse(Push(CLOSE_BRACKET, Pending(outer)), s, START), In(Items(outer)))
    ensures !bracket ==> Nested(Parse(Push(CLOSE_BRACE, Pending(outer)), s, START), In(Entries(outer)))
    decreases Size(s), 1
  {
    hide Parse, PlainStream, Pending;
    var _ := OnAlone(if bracket then CLOSE_BRACKET else CLOSE_BRACE, Pending(outer), s);
    if s.Next? && PlainStream(s.rest) { BetweenNests(outer, s.rest); }
  }

  lemma {:induction false} ObjectNests(context: Context, s: Stream)
    requires PlainStream(s)
    ensures var run := Parse(Push(Object, Pending(context)), s, START);
      run == Fails || (run.Emits? && run.event.token == ObjectStart && Nested(run.run, In(Entries(context))))
    decreases Size(s), 2
  {
    hide Parse, Process, PlainStream, Pending;
    OnNonterminal(Object, Pending(context), s, START);
    if Parse(Push(Object, Pending(context)), s, START) != Fails {
      Unchanged(Object, s.token.text);
      var _ := OnAlone(OPEN_BRACE, Push(ObjectPrime, Pending(context)), s);
      if PlainStream(s.rest) { InsideObjectNests(context, s.rest); }
    }
  }

  lemma {:induction false} InsideObjectNests(outer: Context, s: Stream)
    requires PlainStream(s)
    ensures Nested(Parse(Push(ObjectPrime, Pending(outer)), s, START), In(Entries(outer)))
    decreases Size(s), 4
  {
    hide Parse, Process, PlainStream;
    OnNonterminal(ObjectPrime, Pending(outer), s, START);
    if Parse(Push(ObjectPrime, Pending(outer)), s, START) != Fails {
      Unchanged(ObjectPrime, s.token.text);
      if s.token.symbol == CLOSE_BRACE {
        ClosingNests(outer, s, false);
      } else {
        PairNests(outer, s);
      }
    }
  }

  lemma {:induction false} PairNests(outer: Context, s: Stream)
    requires PlainStream(s)
    ensures Nested(Parse(Push(Pair, Pending(Entries(outer))), s, START), In(Entries(outer)))
    decreases Size(s), 3
  {
    hide Parse, PlainStream, Pending;
    var below := Pending(Entries(outer));
    var behind := Push(COLON, Push(Value, below));
    OnNonterminal(Pair, below, s, START);
    var _, rest := OnString(behind, s, START.(token := PropertyName));
    if PlainStream(rest) && Size(rest) < Size(s) {
      OnTerminal(COLON, Push(Value, below), rest, START);
      if rest.Next? && PlainStream(rest.rest) {
        ValueNests(Entries(outer), rest.rest);
      }
    }
  }

  /** Between the parts of a context, or behind the last. */
  lemma {:induction false} BetweenNests(context: Context, s: Stream)
    requires PlainStream(s)
    ensures Nested(Parse(Pending(context), s, START), In(context))
    decreases Size(s), 4
  {
    hide Parse, Process, PlainStream;
    match context
    case Outside => AtEnd(s);
    case Items(outer) => NextItemNests(outer, s);
    case Entries(outer) => NextPairNests(outer, s);
  }

  lemma {:induction false} NextItemNests(outer: Context, s: Stream)
    requires PlainStream(s)
    ensures Nested(Parse(Pending(Items(outer)), s, START), In(Items(outer)))
    decreases Size(s), 3
  {
    hide Parse, Process, PlainStream;
    var closing := Push(CLOSE_BRACKET, Pending(outer));
    OnNonterminal(ValueRest, closing, s, START);
    if Parse(Pending(Items(outer)), s, START) != Fails {
      Unchanged(ValueRest, s.token.text);
      if s.token.symbol == COMMA {
        OnTerminal(COMMA, Push(Value, Pending(Items(outer))), s, START);
        Unchanged(COMMA, s.token.text);
        if PlainStream(s.rest) {
          ValueNests(Items(outer), s.rest);
          ItemNests(Parse(Push(Value, Pending(Items(outer))), s.rest, START), outer);
        }
      } else {
        ClosingNests(outer, s, true);
      }
    }
  }

  lemma {:induction false} NextPairNests(outer: Context, s: Stream)
    requires PlainStream(s)
    ensures Nested(Parse(Pending(Entries(outer)), s, START), In(Entries(outer)))
    decreases Size(s), 3
  {
    hide Parse, Process, PlainStream;
    var closing := Push(CLOSE_BRACE, Pending(outer));
    OnNonterminal(PairRest, closing, s, START);
    if Parse(Pending(Entries(outer)), s, START) != Fails {
      Unchanged(PairRest, s.token.text);
      if s.token.symbol == COMMA {
        OnTerminal(COMMA, Push(Pair, Pending(Entries(outer))), s, START);
        Unchanged(COMMA, s.token.text);
        if PlainStream(s.rest) { PairNests(outer, s.rest); }
      } else {
        ClosingNests(outer, s, false);
      }
    }
  }

  /** Whatever the tokens, what is reported of them is nested like a text. */
  lemma EveryRunNests(s: Stream)
    requires PlainStream(s)
    ensures Nested(Parse(BEGIN, s, START), Start)
  {
    hide Parse, Process, PlainStream;
    OnNonterminal(Text, Pending(Outside), s, START);
    if Parse(BEGIN, s, START) != Fails {
      Unchanged(Text, s.token.text);
      if s.token.symbol == OPEN_BRACKET {
        ArrayNests(Outside, s);
      } else {
        ObjectNests(Outside, s);
      }
    }
  }
}
