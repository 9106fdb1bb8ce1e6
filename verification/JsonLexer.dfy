/** The terminals and nonterminals shared by the lexer and the parser, as numbered in ParserToken.cs. */
module JsonSymbols {

  /** A UTF-16 code unit, and what a reader returns for one: -1 at the end. */
  type unit = n: int | 0 <= n < 0x1_0000

  datatype Symbol =
    | Char(code: int) | Number | True | False | Null | CharSeq
    | Text | Object | ObjectPrime | Pair | PairRest | Array | ArrayPrime | Value | ValueRest | String
    | End

  /** A token with the characters that the lexer collected for it. */
  datatype Token = Token(symbol: Symbol, text: seq<unit>)

  const QUOTE := '\"' as int
  const APOSTROPHE := '\'' as int
  const BACKSLASH := '\\' as int

  predicate IsSpace(c: int) { c == ' ' as int || '\t' as int <= c <= '\r' as int }

  predicate IsDigit(c: int) { '0' as int <= c <= '9' as int }

  predicate IsHex(c: int) { IsDigit(c) || 'A' as int <= c <= 'F' as int || 'a' as int <= c <= 'f' as int }

  /** What may follow a number without being part of it. */
  predicate Closes(c: int) { c == ',' as int || c == ']' as int || c == '}' as int }
}

/**
 The lexer: a finite state machine of 28 states with one character of push-back. Its transitions are
 a function of state and character; the handlers are proved to run that function over the text.
 */
module JsonLexer {
  import opened JsonSymbols

  datatype Flags = Flags(comments: bool, singleQuotes: bool)

  /** `back` is where an escape returns to; `digits` and `unichar` belong to a \u escape. */
  datatype Config = Config(state: int, back: int, text: seq<unit>, digits: nat, unichar: int) {
    function To(next: int): Config { this.(state := next) }

    function Add(ch: unit): Config { this.(text := text + [ch]) }
  }

  function Fresh(state: int): Config { Config(state, 0, [], 0, 0) }

  /** One character: no transition, another state, or the end of a token. */
  datatype Step = Reject | Go(config: Config) | Emit(next: int, unget: bool, code: int)

  function HexValue(digit: int): int {
    if digit == 'a' as int || digit == 'A' as int then 10
    else if digit == 'b' as int || digit == 'B' as int then 11
    else if digit == 'c' as int || digit == 'C' as int then 12
    else if digit == 'd' as int || digit == 'D' as int then 13
    else if digit == 'e' as int || digit == 'E' as int then 14
    else if digit == 'f' as int || digit == 'F' as int then 15
    else digit - '0' as int
  }

  function ProcessEscChar(esc: int): unit
    requires 0 <= esc < 0x1_0000
  {
    if esc == QUOTE || esc == APOSTROPHE || esc == BACKSLASH || esc == '/' as int then esc
    else if esc == 'n' as int then 10
    else if esc == 't' as int then 9
    else if esc == 'r' as int then 13
    else if esc == 'b' as int then 8
    else if esc == 'f' as int then 12
    else '?' as int
  }

  predicate IsEscape(c: int) {
    c in {QUOTE, APOSTROPHE, '/' as int, BACKSLASH, 'b' as int, 'f' as int, 'n' as int, 'r' as int, 't' as int}
  }

  // ----- The transitions, group by group -----

  /** Between tokens (state 1). */
  function StartStep(f: Flags, c: Config, ch: unit): Step {
    if IsSpace(ch) then Go(c)
    else if '1' as int <= ch <= '9' as int then Go(c.Add(ch).To(3))
    else if ch == QUOTE then Emit(19, false, ch)
    else if ch in {',' as int, ':' as int, '[' as int, ']' as int, '{' as int, '}' as int} then Emit(1, false, ch)
    else if ch == '-' as int then Go(c.Add(ch).To(2))
    else if ch == '0' as int then Go(c.Add(ch).To(4))
    else if ch == 'f' as int then Go(c.To(12))
    else if ch == 'n' as int then Go(c.To(16))
    else if ch == 't' as int then Go(c.To(9))
    else if ch == APOSTROPHE && f.singleQuotes then Emit(23, false, QUOTE)
    else if ch == '/' as int && f.comments then Go(c.To(25))
    else Reject
  }

  /** Inside a number (states 2 to 8). */
  function NumberStep(c: Config, ch: unit): Step {
    if c.state == 2 then
      if '1' as int <= ch <= '9' as int then Go(c.Add(ch).To(3))
      else if ch == '0' as int then Go(c.Add(ch).To(4))
      else Reject
    else if c.state == 5 then
      if IsDigit(ch) then Go(c.Add(ch).To(6)) else Reject
    else if c.state == 7 then
      if IsDigit(ch) || ch == '+' as int || ch == '-' as int then Go(c.Add(ch).To(8)) else Reject
    else if c.state != 4 && IsDigit(ch) then Go(c.Add(ch))
    else if IsSpace(ch) then Emit(1, false, ch)
    else if Closes(ch) then Emit(1, true, ch)
    else if ch == '.' as int && c.state <= 4 then Go(c.Add(ch).To(5))
    else if (ch == 'e' as int || ch == 'E' as int) && c.state <= 6 then Go(c.Add(ch).To(7))
    else Reject
  }

  /** The letter that states 9 to 18 wait for: t-rue, f-alse, n-ull. */
  function Letter(state: int): int {
    if state == 9 then 'r' as int
    else if state == 10 || state == 16 then 'u' as int
    else if state == 11 || state == 15 then 'e' as int
    else if state == 12 then 'a' as int
    else if state == 14 then 's' as int
    else 'l' as int
  }

  predicate LastLetter(state: int) { state == 11 || state == 15 || state == 18 }

  function KeywordStep(c: Config, ch: unit): Step {
    if ch != Letter(c.state) then Reject
    else if LastLetter(c.state) then Emit(1, false, ch)
    else Go(c.To(c.state + 1))
  }

  /** Inside a string (states 19 to 24). */
  function StringStep(c: Config, ch: unit): Step {
    if c.state == 19 || c.state == 23 then
      if ch == (if c.state == 19 then QUOTE else APOSTROPHE) then Emit(c.state + 1, true, ch)
      else if ch == BACKSLASH then Go(c.(back := c.state).To(21))
      else Go(c.Add(ch))
    else if c.state == 20 then
      if ch == QUOTE then Emit(1, false, ch) else Reject
    else if c.state == 24 then
      if ch == APOSTROPHE then Emit(1, false, QUOTE) else Reject
    else if c.state == 21 then
      if ch == 'u' as int then Go(c.To(22).(digits := 0, unichar := 0))
      else if IsEscape(ch) then Go(c.Add(ProcessEscChar(ch)).(back := 0).To(c.back))
      else Reject
    else
      HexStep(c, ch)
  }

  /** The digits of a \u escape, most significant first; the fourth completes the code unit. */
  function HexStep(c: Config, ch: unit): Step {
    if !IsHex(ch) then Reject
    else
      var unichar := c.unichar + HexValue(ch) * Weight(c.digits);
      if c.digits < 3 then Go(c.(digits := c.digits + 1, unichar := unichar))
      else Go(Config(c.back, 0, c.text + [unichar % 0x1_0000], 0, 0))
  }

  function Weight(digits: nat): int {
    if digits == 0 then 4096 else if digits == 1 then 256 else if digits == 2 then 16 else 1
  }

  /** Inside a comment (states 25 to 28). */
  function CommentStep(c: Config, ch: unit): Step {
    if c.state == 25 then
      if ch == '*' as int then Go(c.To(27)) else if ch == '/' as int then Go(c.To(26)) else Reject
    else if c.state == 26 then
      Go(c.To(if ch == '\n' as int then 1 else 26))
    else if c.state == 27 then
      Go(c.To(if ch == '*' as int then 28 else 27))
    else
      Go(c.To(if ch == '*' as int then 28 else if ch == '/' as int then 1 else 27))
  }

  function Delta(f: Flags, c: Config, ch: unit): Step {
    if c.state == 1 then StartStep(f, c, ch)
    else if 2 <= c.state <= 8 then NumberStep(c, ch)
    else if 9 <= c.state <= 18 then KeywordStep(c, ch)
    else if 19 <= c.state <= 24 then StringStep(c, ch)
    else CommentStep(c, ch)
  }

  /** The states whose handler loops over GetChar: the end of the text is no error there. */
  predicate Soft(state: int) { state in {1, 3, 6, 8, 19, 22, 23, 26, 27, 28} }

  /** The return table. */
  function ReturnSymbol(state: int, code: int): Symbol {
    if state in {3, 4, 6, 8} then Number
    else if state == 11 then True
    else if state == 15 then False
    else if state == 18 then Null
    else if state == 19 || state == 23 then CharSeq
    else Char(code)
  }

  datatype LexResult =
    | Malformed
    | EndOfInput
    | Lexed(token: Token, next: int, rest: seq<unit>)

  /** States in which a token starts with a character of its own. */
  predicate Eager(state: int) { state == 1 || state == 20 || state == 24 }

  /** One run of NextToken. */
  function Lex(f: Flags, c: Config, s: seq<unit>): (r: LexResult)
    ensures r.Lexed? ==> |r.rest| < |s| || (|r.rest| == |s| && !Eager(c.state) && Eager(r.next))
    decreases |s|
  {
    if s == [] then if Soft(c.state) then EndOfInput else Malformed
    else
      match Delta(f, c, s[0])
      case Reject => Malformed
      case Go(d) => Lex(f, d, s[1..])
      case Emit(next, unget, code) =>
        Lexed(Token(ReturnSymbol(c.state, code), c.text), next, if unget then s else s[1..])
  }

  // ----- What a handler has to show -----

  /** What becomes of a step at character `ch`, with `rest` behind it. */
  ghost function After(f: Flags, c: Config, ch: int, rest: seq<unit>, step: Step): LexResult
    requires 0 <= ch < 0x1_0000
  {
    match step
    case Reject => Malformed
    case Go(d) => Lex(f, d, rest)
    case Emit(next, unget, code) =>
      Lexed(Token(ReturnSymbol(c.state, code), c.text), next, if unget then [ch as unit] + rest else rest)
  }

  lemma LexStep(f: Flags, c: Config, s: seq<unit>)
    ensures s == [] ==> Lex(f, c, s) == if Soft(c.state) then EndOfInput else Malformed
    ensures s != [] ==> Lex(f, c, s) == After(f, c, s[0], s[1..], Delta(f, c, s[0]))
  {
    if s != [] { assert [s[0]] + s[1..] == s; }
  }

  /** Where a new token may begin. */
  predicate Boundary(state: int) { state in {1, 19, 20, 23, 24} }

  /** A token has begun as `Lex(was, s)` says, and the machine is now in state `st`, `n` characters from the end. */
  ghost predicate Mid(l: Lexer, st: int, was: Config, s: seq<unit>, n: int)
    reads l
  {
    && l.Valid() && !l.endOfInput && !l.finished && 1 <= st <= 28
    && (st == 21 || st == 22 ==> l.stateStack == 19 || l.stateStack == 23)
    && Lex(l.flags, was, s) == Lex(l.flags, l.ConfigAt(st), l.Rest()) && |l.Rest()| <= n
  }

  /** ... and its next character has been read: the transition function decides. */
  ghost predicate Decided(l: Lexer, was: Config, s: seq<unit>, n: int)
    reads l
  {
    && l.Valid() && l.inputBuffer == 0 && !l.endOfInput && !l.finished && 0 <= l.inputChar < 0x1_0000
    && |l.Rest()| < n && Lex(l.flags, was, s) == After(l.flags, l.ConfigAt(l.state), l.inputChar, l.Rest(), l.DeltaHere())
    && (l.state == 21 || l.state == 22 ==> l.stateStack == 19 || l.stateStack == 23)
  }

  /** What is left of the code unit's range shrinks with every digit: it never overflows. */
  ghost predicate InEscape(l: Lexer, digits: nat, was: Config, s: seq<unit>, n: int)
    reads l
  {
    && l.Valid() && !l.endOfInput && !l.finished && (l.stateStack == 19 || l.stateStack == 23)
    && digits <= 3 && 0 <= l.unichar <= 0x1_0000 - 16 * Weight(digits)
    && Lex(l.flags, was, s) == Lex(l.flags, l.EscapeConfig(digits), l.Rest()) && |l.Rest()| <= n
  }

  /** One more character of the escape. */
  ghost predicate DigitRead(l: Lexer, digits: nat, was: Config, s: seq<unit>, n: int)
    reads l
  {
    && l.Valid() && l.inputBuffer == 0 && !l.endOfInput && !l.finished && (l.stateStack == 19 || l.stateStack == 23)
    && 0 <= l.inputChar < 0x1_0000 && |l.Rest()| < n
    && if !IsHex(l.inputChar) then Lex(l.flags, was, s) == Malformed
       else
         var unichar := l.unichar + HexValue(l.inputChar) * Weight(digits);
         && 0 <= unichar <= 0x1_0000 - Weight(digits)
         && Lex(l.flags, was, s) == Lex(l.flags,
              if digits < 3 then Config(22, l.stateStack, l.stringBuffer, digits + 1, unichar)
              else Config(l.stateStack, 0, l.stringBuffer + [unichar], 0, 0), l.Rest())
  }

  lemma DigitFits(digits: nat, unichar: int, ch: int)
    requires digits <= 3 && 0 <= unichar <= 0x1_0000 - 16 * Weight(digits) && IsHex(ch)
    ensures 0 <= unichar + HexValue(ch) * Weight(digits) <= 0x1_0000 - Weight(digits) < 0x1_0000
  {
    assert 0 <= HexValue(ch) <= 15;
    if digits == 0 {} else if digits == 1 {} else if digits == 2 {} else {}
  }

  /** What the outcome of a handler says about the token. */
  ghost predicate Handled(l: Lexer, ok: bool, was: Config, s: seq<unit>, n: int)
    reads l
  {
    if !ok then Lex(l.flags, was, s) == Malformed
    else if l.endOfInput then Lex(l.flags, was, s) == EndOfInput
    else if l.finished then
      l.Valid() && Boundary(l.nextState) &&
      Lex(l.flags, was, s) == Lexed(Token(ReturnSymbol(l.state, l.inputChar), l.stringBuffer), l.nextState, l.Rest())
    else Mid(l, l.nextState, was, s, n - 1)
  }

  /** NextToken throws, or says whether there was a token. */
  datatype Outcome = Thrown | Returned(more: bool)

  ghost predicate Scanned(l: Lexer, r: Outcome, expected: LexResult)
    reads l
  {
    match expected
    case Malformed => r == Thrown
    case EndOfInput => r == Returned(false) && l.endOfInput
    case Lexed(token, next, rest) =>
      r == Returned(true) && l.Ready() && Token(l.token, l.stringValue) == token && l.state == next && l.Rest() == rest
  }

  // ----- The machine -----

  class Lexer {
    const flags: Flags
    const reader: seq<unit>
    var position: nat          // of the reader
    var inputBuffer: int       // the pushed-back character; zero when there is none
    var inputChar: int
    var endOfInput: bool
    var state: int
    var stringBuffer: seq<unit>
    var stringValue: seq<unit>
    var token: Symbol
    var unichar: int
    var finished: bool         // the handlers' context
    var nextState: int
    var stateStack: int

    constructor (reader: seq<unit>, flags: Flags)
      ensures Valid() && this.reader == reader && this.flags == flags
      ensures state == 1 && stringBuffer == [] && !endOfInput && Rest() == reader
    {
      this.reader, this.flags := reader, flags;
      position, inputBuffer, inputChar, endOfInput := 0, 0, 0, false;
      state, stringBuffer, stringValue, token := 1, [], [], End;
      unichar, finished, nextState, stateStack := 0, false, 1, 0;
    }

    ghost predicate Valid()
      reads this
    {
      0 <= position <= |reader| && 0 <= inputBuffer < 0x1_0000
    }

    /** What is still to be read, the pushed-back character first. */
    ghost function Rest(): seq<unit>
      requires Valid()
      reads this
    {
      if inputBuffer != 0 then [inputBuffer] + reader[position..] else reader[position..]
    }

    /** The machine's configuration, were it to go on in state `s`. */
    ghost function ConfigAt(s: int): Config
      reads this
    {
      Config(s, if s == 21 || s == 22 then stateStack else 0, stringBuffer, 0, 0)
    }

    /** In the middle of a \u escape, after `digits` of its digits. */
    ghost function EscapeConfig(digits: nat): Config
      reads this
    {
      Config(22, stateStack, stringBuffer, digits, unichar)
    }

    ghost function DeltaHere(): Step
      requires 0 <= inputChar < 0x1_0000
      reads this
    {
      Delta(flags, ConfigAt(state), inputChar)
    }

    method NextChar() returns (c: int)
      requires Valid()
      modifies this`inputBuffer, this`position
      ensures Valid() && inputBuffer == 0
      ensures c == (if old(Rest()) == [] then -1 else old(Rest())[0])
      ensures Rest() == (if old(Rest()) == [] then [] else old(Rest())[1..])
    {
      if inputBuffer != 0 {
        c := inputBuffer;
        inputBuffer := 0;
      } else if position < |reader| {
        c := reader[position];
        position := position + 1;
      } else {
        c := -1;
      }
    }

    method GetChar() returns (more: bool)
      requires Valid() && !endOfInput
      modifies this`inputBuffer, this`position, this`inputChar, this`endOfInput
      ensures Valid() && inputBuffer == 0 && more == (old(Rest()) != []) == !endOfInput
      ensures more ==> inputChar == old(Rest())[0] && Rest() == old(Rest())[1..]
      ensures !more ==> inputChar == -1 && Rest() == []
    {
      inputChar := NextChar();
      if inputChar != -1 {
        return true;
      }
      endOfInput := true;
      return false;
    }

    /** Only ever called for a character that is not NUL: the sentinel is never pushed back. */
    method UngetChar()
      requires Valid() && inputBuffer == 0 && 0 < inputChar < 0x1_0000
      modifies this`inputBuffer
      ensures Valid() && Rest() == [inputChar as unit] + old(Rest())
    {
      inputBuffer := inputChar;
    }

    /** GetChar, with what the character decides. */
    method Fetch(ghost was: Config, ghost s: seq<unit>, ghost n: int) returns (more: bool)
      requires Mid(this, state, was, s, n)
      modifies this`inputBuffer, this`position, this`inputChar, this`endOfInput
      ensures more ==> Decided(this, was, s, n) == true
      ensures !more ==> endOfInput && inputChar == -1 && Lex(flags, was, s) == if Soft(state) then EndOfInput else Malformed
    {
      hide Lex, Delta;
      LexStep(flags, ConfigAt(state), Rest());
      more := GetChar();
    }

    /** Goes on in state `next`, without keeping the character. */
    method Follow(next: int, ghost was: Config, ghost s: seq<unit>, ghost n: int)
      requires Decided(this, was, s, n) && state != 21 && state != 22 && 1 <= next <= 28 && next != 21 && next != 22
      requires DeltaHere() == Go(ConfigAt(state).To(next))
      modifies this`nextState
      ensures Mid(this, next, was, s, n - 1) == true && nextState == next
    {
      hide Lex, Delta;
      nextState := next;
    }

    /** string_buffer.Append (input_char), to go on in state `next`. */
    method Collect(ghost next: int, ghost was: Config, ghost s: seq<unit>, ghost n: int)
      requires Decided(this, was, s, n) && state != 21 && state != 22 && 1 <= next <= 28 && next != 21 && next != 22
      requires DeltaHere() == Go(ConfigAt(state).Add(inputChar).To(next))
      modifies this`stringBuffer
      ensures Mid(this, next, was, s, n - 1) == true
    {
      hide Lex, Delta;
      stringBuffer := stringBuffer + [inputChar as unit];
    }

    /** The token ends here; the character may belong to the next one. */
    method Yield(next: int, unget: bool, code: int, ghost was: Config, ghost s: seq<unit>, ghost n: int)
      requires Decided(this, was, s, n) && Boundary(next)
      requires DeltaHere() == Emit(next, unget, code) && (unget ==> code == inputChar != 0)
      modifies this`inputBuffer, this`inputChar, this`finished, this`nextState
      ensures Handled(this, true, was, s, n) == true
    {
      hide Lex, Delta;
      if unget {
        UngetChar();
      }
      inputChar, finished, nextState := code, true, next;
    }

    method State1(ghost was: Config, ghost s: seq<unit>, ghost n: int) returns (ok: bool)
      requires state == 1 && Mid(this, state, was, s, n)
      modifies this
      ensures state == old(state) && Handled(this, ok, was, s, n) == true
    {
      hide Lex;
      while true
        invariant state == 1 && Mid(this, 1, was, s, n)
        decreases |Rest()|
      {
        ghost var left := |Rest()|;
        var more := Fetch(was, s, left);
        if !more {
          return true;
        } else if IsSpace(inputChar) {
          continue;
        } else if '1' as int <= inputChar <= '9' as int {
          nextState := 3;
          Collect(3, was, s, left);
          return true;
        } else if inputChar == QUOTE {
          Yield(19, false, inputChar, was, s, left);
          return true;
        } else if inputChar in {',' as int, ':' as int, '[' as int, ']' as int, '{' as int, '}' as int} {
          Yield(1, false, inputChar, was, s, left);
          return true;
        } else if inputChar == '-' as int {
          nextState := 2;
          Collect(2, was, s, left);
          return true;
        } else if inputChar == '0' as int {
          nextState := 4;
          Collect(4, was, s, left);
          return true;
        } else if inputChar == 'f' as int {
          Follow(12, was, s, left);
          return true;
        } else if inputChar == 'n' as int {
          Follow(16, was, s, left);
          return true;
        } else if inputChar == 't' as int {
          Follow(9, was, s, left);
          return true;
        } else if inputChar == APOSTROPHE && flags.singleQuotes {
          Yield(23, false, QUOTE, was, s, left);
          return true;
        } else if inputChar == '/' as int && flags.comments {
          Follow(25, was, s, left);
          return true;
        } else {
          return false;
        }
      }
    }

    method State2(ghost was: Config, ghost s: seq<unit>, ghost n: int) returns (ok: bool)
      requires state == 2 && Mid(this, state, was, s, n)
      modifies this
      ensures state == old(state) && Handled(this, ok, was, s, n) == true
    {
      hide Lex;
      var _ := Fetch(was, s, n);
      if '1' as int <= inputChar <= '9' as int {
        nextState := 3;
        Collect(3, was, s, n);
        return true;
      } else if inputChar == '0' as int {
        nextState := 4;
        Collect(4, was, s, n);
        return true;
      } else {
        return false;
      }
    }

    method State3(ghost was: Config, ghost s: seq<unit>, ghost n: int) returns (ok: bool)
      requires state == 3 && Mid(this, state, was, s, n)
      modifies this
      ensures state == old(state) && Handled(this, ok, was, s, n) == true
    {
      hide Lex;
      while true
        invariant state == 3 && Mid(this, 3, was, s, n)
        decreases |Rest()|
      {
        ghost var left := |Rest()|;
        var more := Fetch(was, s, left);
        if !more {
          return true;
        } else if IsDigit(inputChar) {
          Collect(3, was, s, left);
        } else if IsSpace(inputChar) {
          Yield(1, false, inputChar, was, s, left);
          return true;
        } else if Closes(inputChar) {
          Yield(1, true, inputChar, was, s, left);
          return true;
        } else if inputChar == '.' as int {
          nextState := 5;
          Collect(5, was, s, left);
          return true;
        } else if inputChar == 'e' as int || inputChar == 'E' as int {
          nextState := 7;
          Collect(7, was, s, left);
          return true;
        } else {
          return false;
        }
      }
    }

    method State4(ghost was: Config, ghost s: seq<unit>, ghost n: int) returns (ok: bool)
      requires state == 4 && Mid(this, state, was, s, n)
      modifies this
      ensures state == old(state) && Handled(this, ok, was, s, n) == true
    {
      hide Lex;
      var _ := Fetch(was, s, n);
      if IsSpace(inputChar) {
        Yield(1, false, inputChar, was, s, n);
        return true;
      } else if Closes(inputChar) {
        Yield(1, true, inputChar, was, s, n);
        return true;
      } else if inputChar == '.' as int {
        nextState := 5;
        Collect(5, was, s, n);
        return true;
      } else if inputChar == 'e' as int || inputChar == 'E' as int {
        nextState := 7;
        Collect(7, was, s, n);
        return true;
      } else {
        return false;
      }
    }

    method State5(ghost was: Config, ghost s: seq<unit>, ghost n: int) returns (ok: bool)
      requires state == 5 && Mid(this, state, was, s, n)
      modifies this
      ensures state == old(state) && Handled(this, ok, was, s, n) == true
    {
      hide Lex;
      var _ := Fetch(was, s, n);
      if IsDigit(inputChar) {
        nextState := 6;
        Collect(6, was, s, n);
        return true;
      } else {
        return false;
      }
    }

    method State6(ghost was: Config, ghost s: seq<unit>, ghost n: int) returns (ok: bool)
      requires state == 6 && Mid(this, state, was, s, n)
      modifies this
      ensures state == old(state) && Handled(this, ok, was, s, n) == true
    {
      hide Lex;
      while true
        invariant state == 6 && Mid(this, 6, was, s, n)
        decreases |Rest()|
      {
        ghost var left := |Rest()|;
        var more := Fetch(was, s, left);
        if !more {
          return true;
        } else if IsDigit(inputChar) {
          Collect(6, was, s, left);
        } else if IsSpace(inputChar) {
          Yield(1, false, inputChar, was, s, left);
          return true;
        } else if Closes(inputChar) {
          Yield(1, true, inputChar, was, s, left);
          return true;
        } else if inputChar == 'e' as int || inputChar == 'E' as int {
          nextState := 7;
          Collect(7, was, s, left);
          return true;
        } else {
          return false;
        }
      }
    }

    method State7(ghost was: Config, ghost s: seq<unit>, ghost n: int) returns (ok: bool)
      requires state == 7 && Mid(this, state, was, s, n)
      modifies this
      ensures state == old(state) && Handled(this, ok, was, s, n) == true
    {
      hide Lex;
      var _ := Fetch(was, s, n);
      if IsDigit(inputChar) || inputChar == '+' as int || inputChar == '-' as int {
        nextState := 8;
        Collect(8, was, s, n);
        return true;
      } else {
        return false;
      }
    }

    method State8(ghost was: Config, ghost s: seq<unit>, ghost n: int) returns (ok: bool)
      requires state == 8 && Mid(this, state, was, s, n)
      modifies this
      ensures state == old(state) && Handled(this, ok, was, s, n) == true
    {
      hide Lex;
      while true
        invariant state == 8 && Mid(this, 8, was, s, n)
        decreases |Rest()|
      {
        ghost var left := |Rest()|;
        var more := Fetch(was, s, left);
        if !more {
          return true;
        } else if IsDigit(inputChar) {
          Collect(8, was, s, left);
        } else if IsSpace(inputChar) {
          Yield(1, false, inputChar, was, s, left);
          return true;
        } else if Closes(inputChar) {
          Yield(1, true, inputChar, was, s, left);
          return true;
        } else {
          return false;
        }
      }
    }

    /** Ten handlers that differ only in the letter they wait for. */
    method States9To18(ghost was: Config, ghost s: seq<unit>, ghost n: int) returns (ok: bool)
      requires 9 <= state <= 18 && Mid(this, state, was, s, n)
      modifies this
      ensures state == old(state) && Handled(this, ok, was, s, n) == true
    {
      hide Lex;
      var _ := Fetch(was, s, n);
      if inputChar == Letter(state) && LastLetter(state) {
        Yield(1, false, inputChar, was, s, n);
        return true;
      } else if inputChar == Letter(state) {
        Follow(state + 1, was, s, n);
        return true;
      } else {
        return false;
      }
    }

    /** The body of a string, up to the quote that opened it. */
    method States19And23(ghost was: Config, ghost s: seq<unit>, ghost n: int) returns (ok: bool)
      requires (state == 19 || state == 23) && Mid(this, state, was, s, n)
      modifies this
      ensures state == old(state) && Handled(this, ok, was, s, n) == true
    {
      hide Lex;
      var quote := if state == 19 then QUOTE else APOSTROPHE;
      while true
        invariant state == old(state) && Mid(this, state, was, s, n)
        decreases |Rest()|
      {
        ghost var left := |Rest()|;
        var more := Fetch(was, s, left);
        if !more {
          return true;
        } else if inputChar == quote {
          Yield(state + 1, true, inputChar, was, s, left);
          return true;
        } else if inputChar == BACKSLASH {
          stateStack, nextState := state, 21;
          return true;
        } else {
          Collect(state, was, s, left);
        }
      }
    }

    method States20And24(ghost was: Config, ghost s: seq<unit>, ghost n: int) returns (ok: bool)
      requires (state == 20 || state == 24) && Mid(this, state, was, s, n)
      modifies this
      ensures state == old(state) && Handled(this, ok, was, s, n) == true
    {
      hide Lex;
      var _ := Fetch(was, s, n);
      if inputChar == if state == 20 then QUOTE else APOSTROPHE {
        Yield(1, false, QUOTE, was, s, n);
        return true;
      } else {
        return false;
      }
    }

    method State21(ghost was: Config, ghost s: seq<unit>, ghost n: int) returns (ok: bool)
      requires state == 21 && Mid(this, state, was, s, n)
      modifies this
      ensures state == old(state) && Handled(this, ok, was, s, n) == true
    {
      hide Lex;
      var _ := Fetch(was, s, n);
      if inputChar == 'u' as int {
        nextState := 22;
        return true;
      } else if IsEscape(inputChar) {
        stringBuffer, nextState := stringBuffer + [ProcessEscChar(inputChar)], stateStack;
        return true;
      } else {
        return false;
      }
    }

    method State22(ghost was: Config, ghost s: seq<unit>, ghost n: int) returns (ok: bool)
      requires state == 22 && Mid(this, state, was, s, n)
      modifies this
      ensures state == old(state) && Handled(this, ok, was, s, n) == true
    {
      hide Lex, HexValue, IsHex;
      var counter, mult := 0, 4096;
      unichar := 0;
      while true
        invariant state == 22 && InEscape(this, counter, was, s, n) && mult == Weight(counter)
        decreases |Rest()|
      {
        var more := FetchDigit(counter, was, s, |Rest()|);
        if !more {
          return true;
        }
        if !IsHex(inputChar) {
          return false;
        }
        unichar := unichar + HexValue(inputChar) * mult;
        counter := counter + 1;
        mult := mult / 16;
        if counter == 4 {
          stringBuffer, nextState := stringBuffer + [unichar as unit], stateStack;
          return true;
        }
      }
    }

    /** GetChar in a \u escape. */
    method FetchDigit(ghost digits: nat, ghost was: Config, ghost s: seq<unit>, ghost n: int) returns (more: bool)
      requires state == 22 && InEscape(this, digits, was, s, n)
      modifies this`inputBuffer, this`position, this`inputChar, this`endOfInput
      ensures more ==> DigitRead(this, digits, was, s, n) == true
      ensures !more ==> endOfInput && Lex(flags, was, s) == EndOfInput
    {
      hide Lex, HexValue, Weight;
      LexStep(flags, EscapeConfig(digits), Rest());
      more := GetChar();
      if more && IsHex(inputChar) { DigitFits(digits, unichar, inputChar); }
    }

    method State25(ghost was: Config, ghost s: seq<unit>, ghost n: int) returns (ok: bool)
      requires state == 25 && Mid(this, state, was, s, n)
      modifies this
      ensures state == old(state) && Handled(this, ok, was, s, n) == true
    {
      hide Lex;
      var _ := Fetch(was, s, n);
      if inputChar == '*' as int {
        Follow(27, was, s, n);
        return true;
      } else if inputChar == '/' as int {
        Follow(26, was, s, n);
        return true;
      } else {
        return false;
      }
    }

    method State26(ghost was: Config, ghost s: seq<unit>, ghost n: int) returns (ok: bool)
      requires state == 26 && Mid(this, state, was, s, n)
      modifies this
      ensures state == old(state) && Handled(this, ok, was, s, n) == true
    {
      hide Lex;
      while true
        invariant state == 26 && Mid(this, 26, was, s, n)
        decreases |Rest()|
      {
        ghost var left := |Rest()|;
        var more := Fetch(was, s, left);
        if !more {
          return true;
        } else if inputChar == '\n' as int {
          Follow(1, was, s, left);
          return true;
        }
      }
    }

    method State27(ghost was: Config, ghost s: seq<unit>, ghost n: int) returns (ok: bool)
      requires state == 27 && Mid(this, state, was, s, n)
      modifies this
      ensures state == old(state) && Handled(this, ok, was, s, n) == true
    {
      hide Lex;
      while true
        invariant state == 27 && Mid(this, 27, was, s, n)
        decreases |Rest()|
      {
        ghost var left := |Rest()|;
        var more := Fetch(was, s, left);
        if !more {
          return true;
        } else if inputChar == '*' as int {
          Follow(28, was, s, left);
          return true;
        }
      }
    }

    method State28(ghost was: Config, ghost s: seq<unit>, ghost n: int) returns (ok: bool)
      requires state == 28 && Mid(this, state, was, s, n)
      modifies this
      ensures state == old(state) && Handled(this, ok, was, s, n) == true
    {
      hide Lex;
      while true
        invariant state == 28 && Mid(this, 28, was, s, n)
        decreases |Rest()|
      {
        ghost var left := |Rest()|;
        var more := Fetch(was, s, left);
        if !more {
          return true;
        } else if inputChar == '*' as int {
          continue;
        } else if inputChar == '/' as int {
          Follow(1, was, s, left);
          return true;
        } else {
          Follow(27, was, s, left);
          return true;
        }
      }
    }

    /** The handler table. Every handler leads to a state of the table again, so that there always is an entry. */
    method Handler(ghost was: Config, ghost s: seq<unit>, ghost n: int) returns (ok: bool)
      requires Mid(this, state, was, s, n)
      modifies this
      ensures state == old(state) && Handled(this, ok, was, s, n) == true
    {
      hide Handled;
      if 9 <= state <= 18 { ok := States9To18(was, s, n); return; }
      match state
      case 1 => ok := State1(was, s, n);
      case 2 => ok := State2(was, s, n);
      case 3 => ok := State3(was, s, n);
      case 4 => ok := State4(was, s, n);
      case 5 => ok := State5(was, s, n);
      case 6 => ok := State6(was, s, n);
      case 7 => ok := State7(was, s, n);
      case 8 => ok := State8(was, s, n);
      case 19 => ok := States19And23(was, s, n);
      case 20 => ok := States20And24(was, s, n);
      case 21 => ok := State21(was, s, n);
      case 22 => ok := State22(was, s, n);
      case 23 => ok := States19And23(was, s, n);
      case 24 => ok := States20And24(was, s, n);
      case 25 => ok := State25(was, s, n);
      case 26 => ok := State26(was, s, n);
      case 27 => ok := State27(was, s, n);
      case _ => ok := State28(was, s, n);
    }

    /** At the start of a token. */
    ghost predicate Ready()
      reads this
    {
      Valid() && !endOfInput && Boundary(state) && stringBuffer == []
    }

    method NextToken() returns (r: Outcome)
      requires Ready()
      modifies this
      ensures Scanned(this, r, Lex(flags, Fresh(old(state)), old(Rest()))) == true
    {
      hide Lex;
      ghost var was, s, n := Fresh(state), Rest(), |Rest()|;
      finished := false;
      while true
        invariant Mid(this, state, was, s, n)
        decreases n
      {
        var ok := Handler(was, s, n);
        if !ok {
          return Thrown;
        }
        if endOfInput {
          return Returned(false);
        }
        if finished {
          stringValue := stringBuffer;
          stringBuffer := [];
          token := ReturnSymbol(state, inputChar);
          state := nextState;
          return Returned(true);
        }
        state := nextState;
        n := n - 1;
      }
    }
  }
}
