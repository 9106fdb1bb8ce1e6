/**
 What a text may look like that the lexer reads: numbers and strings by the grammar of RFC 4627, sections 2.4 and
 2.5, in every spelling, and not only as the writer prints them. Values are given by position, character by character.
 */
module JsonSpelling {
  import opened Division
  import opened JsonSymbols
  import opened JsonLexer
  import opened JsonGrammar
  import opened JsonReader
  import opened JsonText

  // ----- Escapes -----

  /** 0-9, A-F and a-f. */
  predicate IsHexDigit(c: unit) { 48 <= c <= 57 || 65 <= c <= 70 || 97 <= c <= 102 }

  /** The value of a hexadecimal digit of either case, by its offset. */
  function HexOf(c: unit): (d: nat)
    requires IsHexDigit(c)
    ensures d < 16
  {
    if c <= 57 then c - 48 else if c <= 70 then c - 65 + 10 else c - 97 + 10
  }

  lemma HexDigitRead(c: Config, h: unit, rest: seq<unit>)
    requires c.state == 22 && c.digits <= 3 && IsHexDigit(h)
    ensures var unichar := c.unichar + HexOf(h) * Weight(c.digits);
      Lex(DEFAULTS, c, [h] + rest) == Lex(DEFAULTS,
        if c.digits < 3 then c.(digits := c.digits + 1, unichar := unichar)
        else Config(c.back, 0, c.text + [unichar % 0x1_0000], 0, 0), rest)
  {
    hide Lex, IsHexDigit, HexOf, HexValue, IsHex;
    HexDigits(h);
    Steps(c, h, rest);
  }

  lemma HexDigits(h: unit)
    ensures IsHex(h) <==> IsHexDigit(h)
    ensures IsHexDigit(h) ==> HexValue(h) == HexOf(h)
  {
  }

  /** Inside a string that began with one of the two quotes. */
  function InQuotes(quote: unit, text: seq<unit>): Config { Config(if quote == 39 then 23 else 19, 0, text, 0, 0) }

  /** `\uXXXX`, in either case, appends the base-16 number of the four digits. */
  lemma HexEscapeRead(quote: unit, text: seq<unit>, a: unit, b: unit, c: unit, d: unit, rest: seq<unit>)
    requires IsHexDigit(a) && IsHexDigit(b) && IsHexDigit(c) && IsHexDigit(d)
    ensures var n := HexOf(a) * 4096 + HexOf(b) * 256 + HexOf(c) * 16 + HexOf(d);
      n < 0x1_0000 && Lex(DEFAULTS, InQuotes(quote, text), [92, 117, a, b, c, d] + rest) == Lex(DEFAULTS, InQuotes(quote, text + [n]), rest)
  {
    hide Lex, HexOf;
    var back := InQuotes(quote, text).state;
    var r3, r2 := [d] + rest, [c] + ([d] + rest);
    var r1 := [b] + r2;
    var r0 := [a] + r1;
    assert [92, 117, a, b, c, d] + rest == [92] + ([117] + r0);
    Steps(InQuotes(quote, text), 92, [117] + r0);
    Steps(Config(21, back, text, 0, 0), 117, r0);
    HexDigitRead(Config(22, back, text, 0, 0), a, r1);
    HexDigitRead(Config(22, back, text, 1, HexOf(a) * 4096), b, r2);
    HexDigitRead(Config(22, back, text, 2, HexOf(a) * 4096 + HexOf(b) * 256), c, r3);
    HexDigitRead(Config(22, back, text, 3, HexOf(a) * 4096 + HexOf(b) * 256 + HexOf(c) * 16), d, rest);
  }

  /** What an escape of one character stands for; -1 if it is none. */
  function Escapes(e: unit): int {
    if e == 34 then 34         // "
    else if e == 92 then 92    // \
    else if e == 47 then 47    // /
    else if e == 39 then 39    // ', which is not in the RFC
    else if e == 98 then 8     // b
    else if e == 102 then 12   // f
    else if e == 110 then 10   // n
    else if e == 114 then 13   // r
    else if e == 116 then 9    // t
    else -1
  }

  /** The escapes of one character, and no others; behind `\u` there must be hexadecimal digits. */
  lemma ShortEscapeRead(quote: unit, text: seq<unit>, e: unit, rest: seq<unit>)
    requires e != 117
    ensures Lex(DEFAULTS, InQuotes(quote, text), [92, e] + rest)
         == if Escapes(e) == -1 then Malformed else Lex(DEFAULTS, InQuotes(quote, text + [Escapes(e)]), rest)
  {
    hide Lex;
    assert [92, e] + rest == [92] + ([e] + rest);
    Steps(InQuotes(quote, text), 92, [e] + rest);
    Steps(Config(21, InQuotes(quote, text).state, text, 0, 0), e, rest);
  }

  lemma BadHexDigit(c: Config, h: unit, rest: seq<unit>)
    requires c.state == 22 && !IsHexDigit(h)
    ensures Lex(DEFAULTS, c, [h] + rest) == Malformed
  {
    hide Lex;
    Steps(c, h, rest);
  }

  // ----- Numbers -----

  datatype Exponent = NoExponent | Exponent(letter: unit, sign: seq<unit>, digits: seq<unit>)

  /** `[-]whole[.fraction][e[sign]digits]` */
  datatype Number = Number(minus: bool, whole: seq<unit>, fraction: Option<seq<unit>>, exponent: Exponent)

  predicate OnlyDigits(s: seq<unit>) { forall k :: 0 <= k < |s| ==> 48 <= s[k] <= 57 }

  /** Digits without a leading zero, unless it is the only one. */
  predicate IsWhole(s: seq<unit>) { s != [] && OnlyDigits(s) && (s[0] == 48 ==> |s| == 1) }

  /** What the lexer accepts: the grammar of the RFC, and an exponent that ends with its sign. */
  predicate Accepted(n: Number) {
    && IsWhole(n.whole)
    && (n.fraction.Some? ==> n.fraction.value != [] && OnlyDigits(n.fraction.value))
    && (n.exponent.Exponent? ==>
          && (n.exponent.letter == 101 || n.exponent.letter == 69)
          && (n.exponent.sign == [] || n.exponent.sign == [43] || n.exponent.sign == [45])
          && OnlyDigits(n.exponent.digits) && (n.exponent.digits == [] ==> n.exponent.sign != []))
  }

  /** ... which the RFC does not allow. */
  predicate Dangling(n: Number) { n.exponent.Exponent? && n.exponent.digits == [] }

  function WholeText(n: Number): seq<unit> { (if n.minus then [45] else []) + n.whole }

  function FractionText(n: Number): seq<unit> { if n.fraction.None? then [] else [46] + n.fraction.value }

  function ExponentText(n: Number): seq<unit> {
    if n.exponent.NoExponent? then [] else [n.exponent.letter] + n.exponent.sign + n.exponent.digits
  }

  function NumberText(n: Number): seq<unit> { WholeText(n) + FractionText(n) + ExponentText(n) }

  /** In the middle of a number. */
  function InNumber(state: int, text: seq<unit>): Config { Config(state, 0, text, 0, 0) }

  lemma {:induction false} DigitsRead(state: int, collected: seq<unit>, digits: seq<unit>, rest: seq<unit>)
    requires (state == 3 || state == 6 || state == 8) && OnlyDigits(digits)
    ensures Lex(DEFAULTS, InNumber(state, collected), digits + rest) == Lex(DEFAULTS, InNumber(state, collected + digits), rest)
    decreases |digits|
  {
    hide Lex;
    if digits == [] {
      assert digits + rest == rest && collected + digits == collected;
    } else {
      var tail := digits[1..] + rest;
      assert digits + rest == [digits[0]] + tail;
      Steps(InNumber(state, collected), digits[0], tail);
      DigitsRead(state, collected + [digits[0]], digits[1..], rest);
      assert collected + [digits[0]] + digits[1..] == collected + digits;
    }
  }

  function WholeState(n: Number): int { if n.whole == [48] then 4 else 3 }

  lemma WholeRead(n: Number, rest: seq<unit>)
    requires Accepted(n)
    ensures Lex(DEFAULTS, Fresh(1), WholeText(n) + rest) == Lex(DEFAULTS, InNumber(WholeState(n), WholeText(n)), rest)
  {
    hide Lex;
    var tail := n.whole[1..] + rest;
    var c := if n.minus then InNumber(2, [45]) else Fresh(1);
    if n.minus {
      assert WholeText(n) + rest == [45] + (n.whole + rest);
      Steps(Fresh(1), 45, n.whole + rest);
      assert Fresh(1).text + [45] == [45];
    } else {
      assert WholeText(n) + rest == n.whole + rest;
    }
    assert n.whole + rest == [n.whole[0]] + tail;
    Steps(c, n.whole[0], tail);
    if n.whole[0] == 48 {
      assert tail == rest && c.text + [48] == WholeText(n);
    } else {
      DigitsRead(3, c.text + [n.whole[0]], n.whole[1..], rest);
      assert c.text + [n.whole[0]] + n.whole[1..] == WholeText(n);
    }
  }

  function FractionState(n: Number): int { if n.fraction.Some? then 6 else WholeState(n) }

  lemma FractionRead(n: Number, text: seq<unit>, rest: seq<unit>)
    requires Accepted(n)
    ensures Lex(DEFAULTS, InNumber(WholeState(n), text), FractionText(n) + rest)
         == Lex(DEFAULTS, InNumber(FractionState(n), text + FractionText(n)), rest)
  {
    hide Lex;
    if n.fraction.None? {
      assert FractionText(n) + rest == rest && text + FractionText(n) == text;
    } else {
      var digits := n.fraction.value;
      var tail := digits[1..] + rest;
      assert FractionText(n) + rest == [46] + ([digits[0]] + tail);
      Steps(InNumber(WholeState(n), text), 46, [digits[0]] + tail);
      Steps(InNumber(5, text + [46]), digits[0], tail);
      DigitsRead(6, text + [46] + [digits[0]], digits[1..], rest);
      assert text + [46] + [digits[0]] + digits[1..] == text + FractionText(n);
    }
  }

  function ExponentState(n: Number): int { if n.exponent.Exponent? then 8 else FractionState(n) }

  lemma ExponentRead(n: Number, text: seq<unit>, rest: seq<unit>)
    requires Accepted(n)
    ensures Lex(DEFAULTS, InNumber(FractionState(n), text), ExponentText(n) + rest)
         == Lex(DEFAULTS, InNumber(ExponentState(n), text + ExponentText(n)), rest)
  {
    hide Lex;
    if n.exponent.NoExponent? {
      assert ExponentText(n) + rest == rest && text + ExponentText(n) == text;
    } else {
      var letter, behind := n.exponent.letter, n.exponent.sign + n.exponent.digits;
      var tail := behind[1..] + rest;
      assert ExponentText(n) + rest == [letter] + ([behind[0]] + tail);
      Steps(InNumber(FractionState(n), text), letter, [behind[0]] + tail);
      Steps(InNumber(7, text + [letter]), behind[0], tail);
      DigitsRead(8, text + [letter] + [behind[0]], behind[1..], rest);
      assert text + [letter] + [behind[0]] + behind[1..] == text + ExponentText(n);
    }
  }

  lemma NumberDone(state: int, text: seq<unit>, rest: seq<unit>)
    requires state in {3, 4, 6, 8} && Delimited(rest)
    ensures Lex(DEFAULTS, InNumber(state, text), rest) == Lexed(Token(JsonSymbols.Number, text), 1, if IsSpace(rest[0]) then rest[1..] else rest)
  {
    hide Lex;
    assert rest == [rest[0]] + rest[1..];
    Steps(InNumber(state, text), rest[0], rest[1..]);
  }

  lemma NumberLexes(n: Number, rest: seq<unit>)
    requires Accepted(n) && Delimited(rest)
    ensures Lex(DEFAULTS, Fresh(1), NumberText(n) + rest)
         == Lexed(Token(JsonSymbols.Number, NumberText(n)), 1, if IsSpace(rest[0]) then rest[1..] else rest)
  {
    hide Lex, WholeText, FractionText, ExponentText, WholeState, FractionState, ExponentState, Accepted;
    var whole, behind := WholeText(n), ExponentText(n) + rest;
    assert NumberText(n) + rest == whole + (FractionText(n) + behind);
    WholeRead(n, FractionText(n) + behind);
    FractionRead(n, whole, behind);
    ExponentRead(n, whole + FractionText(n), rest);
    States(n);
    NumberDone(ExponentState(n), NumberText(n), rest);
  }

  /** Every number of the grammar, in front of a delimiter, is one token with exactly its text. */
  lemma NumberRead(n: Number, rest: seq<unit>)
    requires Accepted(n) && Delimited(rest)
    ensures TokensOf(NumberText(n) + rest) == Next(Token(JsonSymbols.Number, NumberText(n)), TokensOf(rest))
  {
    hide Lex, Tokenize, NumberText, Accepted;
    NumberLexes(n, rest);
    TokenizeIn(1, NumberText(n) + rest);
    if IsSpace(rest[0]) {
      assert rest == [rest[0]] + rest[1..];
      SpaceSkipped(rest[0], rest[1..]);
    }
  }

  lemma States(n: Number)
    ensures ExponentState(n) in {3, 4, 6, 8}
  {
  }

  // ----- ... and nothing else is one -----

  /** What has been read of a number when the automaton is in one of its states. */
  predicate PartOf(state: int, text: seq<unit>, n: Number) {
    if state == 2 then text == [45]
    else
      && IsWhole(n.whole)
      && if state == 3 then n.whole[0] != 48 && text == WholeText(n)
         else if state == 4 then n.whole == [48] && text == WholeText(n)
         else if state == 5 then text == WholeText(n) + [46]
         else if state == 6 then n.exponent.NoExponent? && n.fraction.Some? && Accepted(n) && text == NumberText(n)
         else if state == 7 then
           Accepted(n.(exponent := NoExponent)) && n.exponent.Exponent? && n.exponent.sign == n.exponent.digits == []
           && (n.exponent.letter == 101 || n.exponent.letter == 69) && text == NumberText(n)
         else n.exponent.Exponent? && Accepted(n) && text == NumberText(n)
  }

  function Bare(n: Number): Number { n.(fraction := None, exponent := NoExponent) }

  lemma BareText(n: Number)
    ensures NumberText(Bare(n)) == WholeText(n)
  {
    assert NumberText(Bare(n)) == WholeText(n) + [] + [];
  }

  lemma WholeDigit(n: Number, ch: unit) returns (m: Number)
    requires IsWhole(n.whole) && n.whole[0] != 48 && 48 <= ch <= 57
    ensures IsWhole(m.whole) && m.whole[0] != 48 && WholeText(m) == WholeText(n) + [ch]
  {
    m := n.(whole := n.whole + [ch]);
  }

  lemma FractionDigit(n: Number, ch: unit) returns (m: Number)
    requires n.exponent.NoExponent? && n.fraction.Some? && Accepted(n) && 48 <= ch <= 57
    ensures m.exponent.NoExponent? && m.fraction.Some? && Accepted(m) && NumberText(m) == NumberText(n) + [ch]
  {
    m := n.(fraction := Some(n.fraction.value + [ch]));
    assert FractionText(m) == FractionText(n) + [ch];
    assert NumberText(m) == WholeText(n) + (FractionText(n) + [ch]) + [];
  }

  lemma ExponentDigit(n: Number, ch: unit) returns (m: Number)
    requires n.exponent.Exponent? && Accepted(n) && 48 <= ch <= 57
    ensures m.exponent.Exponent? && Accepted(m) && NumberText(m) == NumberText(n) + [ch]
  {
    m := n.(exponent := n.exponent.(digits := n.exponent.digits + [ch]));
    assert ExponentText(m) == ExponentText(n) + [ch];
    assert NumberText(m) == WholeText(n) + FractionText(n) + (ExponentText(n) + [ch]);
  }

  lemma ExponentLetter(n: Number, ch: unit) returns (m: Number)
    requires n.exponent.NoExponent? && Accepted(n) && (ch == 101 || ch == 69)
    ensures PartOf(7, NumberText(n) + [ch], m)
  {
    m := n.(exponent := Exponent(ch, [], []));
    assert m.(exponent := NoExponent) == n;
    assert ExponentText(m) == [ch] && NumberText(n) == WholeText(n) + FractionText(n) + [];
    assert NumberText(m) == NumberText(n) + [ch];
  }

  lemma ExponentStart(n: Number, text: seq<unit>, ch: unit) returns (m: Number)
    requires PartOf(7, text, n) && (48 <= ch <= 57 || ch == 43 || ch == 45)
    ensures PartOf(8, text + [ch], m)
  {
    m := n.(exponent := if ch < 48 then n.exponent.(sign := [ch]) else n.exponent.(digits := [ch]));
    assert ExponentText(n) == [n.exponent.letter] && ExponentText(m) == [n.exponent.letter] + [ch];
    assert NumberText(m) == WholeText(n) + FractionText(n) + ([n.exponent.letter] + [ch]);
    assert NumberText(m) == text + [ch];
  }

  /** One more character of a number: the automaton goes on in a number, or the number is done. */
  lemma NumberStays(state: int, text: seq<unit>, n: Number, ch: unit) returns (m: Number)
    requires 2 <= state <= 8 && PartOf(state, text, n)
    ensures match Delta(DEFAULTS, InNumber(state, text), ch)
      case Reject => true
      case Go(d) => 2 <= d.state <= 8 && d == InNumber(d.state, d.text) && PartOf(d.state, d.text, m)
      case Emit(_, _, _) => Accepted(m) && NumberText(m) == text
  {
    hide PartOf, NumberText, Accepted;
    m := n;
    if state == 2 {
      m := MinusDigit(text, n, ch);
    } else if state == 3 || state == 4 {
      m := InWhole(state, text, n, ch);
    } else if state == 5 {
      m := FirstFraction(text, n, ch);
    } else if state == 6 {
      m := InFraction(text, n, ch);
    } else if state == 7 {
      if 48 <= ch <= 57 || ch == 43 || ch == 45 { m := ExponentStart(n, text, ch); }
    } else {
      m := InExponent(text, n, ch);
    }
  }

  lemma MinusDigit(text: seq<unit>, n: Number, ch: unit) returns (m: Number)
    requires PartOf(2, text, n)
    ensures 49 <= ch <= 57 ==> PartOf(3, text + [ch], m)
    ensures ch == 48 ==> PartOf(4, text + [ch], m)
  {
    m := Number.Number(true, [ch], None, NoExponent);
  }

  lemma InWhole(state: int, text: seq<unit>, n: Number, ch: unit) returns (m: Number)
    requires (state == 3 || state == 4) && PartOf(state, text, n)
    ensures state == 3 && 48 <= ch <= 57 ==> PartOf(3, text + [ch], m)
    ensures ch == 46 ==> PartOf(5, text + [ch], m)
    ensures ch == 101 || ch == 69 ==> PartOf(7, text + [ch], m)
    ensures !(state == 3 && 48 <= ch <= 57) && ch != 46 && ch != 101 && ch != 69 ==> Accepted(m) && NumberText(m) == text
  {
    BareText(n);
    m := Bare(n);
    if state == 3 && 48 <= ch <= 57 {
      m := WholeDigit(n, ch);
    } else if ch == 101 || ch == 69 {
      m := ExponentLetter(Bare(n), ch);
    }
  }

  lemma FirstFraction(text: seq<unit>, n: Number, ch: unit) returns (m: Number)
    requires PartOf(5, text, n)
    ensures 48 <= ch <= 57 ==> PartOf(6, text + [ch], m)
  {
    m := n.(fraction := Some([ch]), exponent := NoExponent);
    assert FractionText(m) == [46] + [ch];
    assert NumberText(m) == WholeText(n) + ([46] + [ch]) + [];
    assert NumberText(m) == text + [ch];
  }

  lemma InFraction(text: seq<unit>, n: Number, ch: unit) returns (m: Number)
    requires PartOf(6, text, n)
    ensures 48 <= ch <= 57 ==> PartOf(6, text + [ch], m)
    ensures ch == 101 || ch == 69 ==> PartOf(7, text + [ch], m)
    ensures !(48 <= ch <= 57) && ch != 101 && ch != 69 ==> Accepted(m) && NumberText(m) == text
  {
    m := n;
    if 48 <= ch <= 57 {
      m := FractionDigit(n, ch);
    } else if ch == 101 || ch == 69 {
      m := ExponentLetter(n, ch);
    }
  }

  lemma InExponent(text: seq<unit>, n: Number, ch: unit) returns (m: Number)
    requires PartOf(8, text, n)
    ensures 48 <= ch <= 57 ==> PartOf(8, text + [ch], m)
    ensures !(48 <= ch <= 57) ==> Accepted(m) && NumberText(m) == text
  {
    m := n;
    if 48 <= ch <= 57 { m := ExponentDigit(n, ch); }
  }

  /** Where no number is under way. */
  predicate Elsewhere(c: Config) {
    && (c.state == 1 || 9 <= c.state <= 28)
    && (c.state == 1 || c.state >= 25 ==> c == Config(c.state, 0, [], 0, 0))
    && (c.state == 21 || c.state == 22 ==> c.back == 19 || c.back == 23)
  }

  lemma ElsewhereStep(c: Config, ch: unit) returns (m: Number)
    requires Elsewhere(c)
    ensures match Delta(DEFAULTS, c, ch)
      case Reject => true
      case Go(d) => Elsewhere(d) || (2 <= d.state <= 8 && d == InNumber(d.state, d.text) && PartOf(d.state, d.text, m))
      case Emit(next, _, code) => ReturnSymbol(c.state, code) != JsonSymbols.Number && Boundary(next)
  {
    m := Number.Number(false, [ch], None, NoExponent);
    if c.state == 1 { assert c.text + [ch] == [ch]; }
  }

  /** A token that the lexer calls a number is one by the grammar, or ends with the sign of its exponent. */
  lemma {:induction false} OnlyNumbersIn(state: int, text: seq<unit>, n: Number, s: seq<unit>) returns (m: Number)
    requires 2 <= state <= 8 && PartOf(state, text, n) && Lex(DEFAULTS, InNumber(state, text), s).Lexed?
    ensures Accepted(m) && Lex(DEFAULTS, InNumber(state, text), s).token.text == NumberText(m)
    decreases |s|
  {
    hide PartOf, Accepted, NumberText, Delta;
    LexStep(DEFAULTS, InNumber(state, text), s);
    m := n;
    if s != [] {
      m := NumberStays(state, text, n, s[0]);
      var step := Delta(DEFAULTS, InNumber(state, text), s[0]);
      if step.Go? { m := OnlyNumbersIn(step.config.state, step.config.text, m, s[1..]); }
    }
  }

  lemma {:induction false} OnlyNumbers(c: Config, s: seq<unit>) returns (m: Number)
    requires Elsewhere(c) && Lex(DEFAULTS, c, s).Lexed?
    ensures Lex(DEFAULTS, c, s).token.symbol == JsonSymbols.Number ==> Accepted(m) && Lex(DEFAULTS, c, s).token.text == NumberText(m)
    decreases |s|
  {
    hide PartOf, Accepted, NumberText, Delta, Elsewhere;
    LexStep(DEFAULTS, c, s);
    m := Number.Number(false, [], None, NoExponent);
    if s != [] {
      m := ElsewhereStep(c, s[0]);
      var step := Delta(DEFAULTS, c, s[0]);
      if step.Go? {
        if Elsewhere(step.config) {
          m := OnlyNumbers(step.config, s[1..]);
        } else {
          m := OnlyNumbersIn(step.config.state, step.config.text, m, s[1..]);
        }
      }
    }
  }

  lemma {:induction false} NextIsBoundary(c: Config, s: seq<unit>)
    requires 1 <= c.state <= 28
    requires c.state == 21 || c.state == 22 ==> c.back == 19 || c.back == 23
    ensures Lex(DEFAULTS, c, s).Lexed? ==> Boundary(Lex(DEFAULTS, c, s).next)
    decreases |s|
  {
    if s != [] {
      match Delta(DEFAULTS, c, s[0])
      case Go(d) => NextIsBoundary(d, s[1..]);
      case Reject =>
      case Emit(_, _, _) =>
    }
  }

  /** All number tokens of a stream are numbers. */
  ghost predicate NumbersSpelled(s: Stream) {
    s.Next? ==>
      && (s.token.symbol == JsonSymbols.Number ==> exists n :: Accepted(n) && s.token.text == NumberText(n))
      && NumbersSpelled(s.rest)
  }

  /** Whatever the text, it has no other number tokens. */
  lemma {:induction false} TokensSpelled(state: int, s: seq<unit>)
    requires Boundary(state)
    ensures NumbersSpelled(Tokenize(DEFAULTS, state, s))
    decreases |s|, if Eager(state) then 0 else 1
  {
    hide Lex, Accepted, NumberText;
    match Lex(DEFAULTS, Fresh(state), s)
    case Lexed(token, next, rest) =>
      var n := OnlyNumbers(Fresh(state), s);
      NextIsBoundary(Fresh(state), s);
      TokensSpelled(next, rest);
    case Malformed =>
    case EndOfInput =>
  }

  // ----- What a number means -----

  function Pow10(k: nat): (p: nat)
    ensures p > 0
  {
    if k == 0 then 1 else 10 * Pow10(k - 1)
  }

  /** Place by place, from the right. */
  lemma {:induction false} DecimalPlace(k: nat, i: nat)
    requires i < |DecimalNat(k)|
    ensures DecimalNat(k)[|DecimalNat(k)| - 1 - i] == 48 + k / Pow10(i) % 10
    decreases i
  {
    if i > 0 {
      DecimalPlace(k / 10, i - 1);
      DivideTwice(k, 10, Pow10(i - 1));
    }
  }

  lemma {:induction false} OnlyOneDecimal(w: seq<unit>)
    requires OnlyDigits(w)
    ensures AllDigits(w) && Digits(w) >= 0
  {
    if w != [] { OnlyOneDecimal(w[..|w| - 1]); }
  }

  /** Every whole part is the decimal form of the number that its digits spell. */
  lemma {:induction false} WholeIsDecimal(w: seq<unit>) returns (k: nat)
    requires IsWhole(w)
    ensures w == DecimalNat(k) && k == Digits(w)
    decreases |w|
  {
    OnlyOneDecimal(w);
    k := Digits(w);
    var front, last := w[..|w| - 1], w[|w| - 1];
    assert w == front + [last];
    if front != [] {
      var j := WholeIsDecimal(front);
      PositiveWhole(front);
    } else {
      assert Digits([]) == 0;
    }
  }

  lemma {:induction false} PositiveWhole(w: seq<unit>)
    requires IsWhole(w) && w[0] != 48
    ensures Digits(w) > 0
    decreases |w|
  {
    if |w| > 1 { PositiveWhole(w[..|w| - 1]); } else { assert Digits(w[..0]) == 0; }
  }

  /** An integer by its value: Int, Long, ULong under the token Long, and 0 beyond all of them. */
  function IntegerEvent(v: int): Event {
    if -2147483648 <= v <= 2147483647 then Event(IntToken, IntValue(v))
    else if -9223372036854775808 <= v <= 9223372036854775807 then Event(LongToken, LongValue(v))
    else if 0 <= v <= 18446744073709551615 then Event(LongToken, ULongValue(v))
    else Event(IntToken, IntValue(0))
  }

  predicate HasPoint(n: Number) { n.fraction.Some? || n.exponent.Exponent? }

  lemma NoMark(w: seq<unit>, minus: bool)
    requires OnlyDigits(w)
    ensures !Fractional((if minus then [45] else []) + w)
  {
  }

  lemma IsMarked(n: Number)
    requires Accepted(n)
    ensures Fractional(NumberText(n)) <==> HasPoint(n)
    ensures DoubleParses(NumberText(n)) <==> !Dangling(n)
  {
    var text := NumberText(n);
    var k := |WholeText(n)|;
    if n.fraction.Some? {
      assert text[k] == 46;
    } else if n.exponent.Exponent? {
      assert text[k] == n.exponent.letter;
    } else {
      assert text == WholeText(n);
      NoMark(n.whole, n.minus);
    }
    LastUnit(n);
  }

  lemma LastUnit(n: Number)
    requires Accepted(n)
    ensures NumberText(n) != [] && (IsDigit(NumberText(n)[|NumberText(n)| - 1]) <==> !Dangling(n))
  {
    var text := NumberText(n);
    var last := text[|text| - 1];
    if n.exponent.Exponent? {
      assert last == ExponentText(n)[|ExponentText(n)| - 1];
      if n.exponent.digits == [] {
        assert ExponentText(n) == [n.exponent.letter] + n.exponent.sign;
      } else {
        assert last == n.exponent.digits[|n.exponent.digits| - 1];
      }
    } else if n.fraction.Some? {
      assert last == n.fraction.value[|n.fraction.value| - 1];
    } else {
      assert last == n.whole[|n.whole| - 1];
    }
  }

  lemma NotInteger(n: Number)
    requires Accepted(n) && n.exponent.Exponent?
    ensures !IsInteger(NumberText(n))
  {
    var text := NumberText(n);
    var at := |WholeText(n)| + |FractionText(n)|;
    assert text[at] == n.exponent.letter;
    if |text| >= 2 { assert text[1..][at - 1] == text[at]; }
  }

  /**
   A fraction or an exponent makes a double of the whole text; without them it is the integer that the digits spell.
   Only an exponent without digits, which is no number by the RFC, is taken for zero.
   */
  lemma NumberMeans(n: Number, k: int)
    requires Accepted(n) && 0 <= k && n.whole == DecimalNat(k)
    ensures NumberEvent(NumberText(n)) ==
      if Dangling(n) then Event(IntToken, IntValue(0))
      else if HasPoint(n) then Event(DoubleToken, DoubleValue(NumberText(n)))
      else IntegerEvent(if n.minus then -k else k)
  {
    hide DecimalNat, Fractional, DoubleParses, Digits;
    IsMarked(n);
    if Dangling(n) {
      NotInteger(n);
    } else if !HasPoint(n) {
      IntegerMeans(n, k);
    }
  }

  lemma IntegerMeans(n: Number, k: int)
    requires Accepted(n) && !HasPoint(n) && 0 <= k && n.whole == DecimalNat(k)
    ensures IsInteger(NumberText(n)) && IntegerOf(NumberText(n)) == if n.minus then -k else k
  {
    hide DecimalNat, Digits;
    DecimalDigits(k);
    var text := NumberText(n);
    if n.minus {
      assert text == [45] + n.whole;
      assert text[1..] == n.whole;
    } else {
      assert text == n.whole;
    }
  }

  // ----- Strings -----

  /** One unit of a string as it may be spelled: by itself, or escaped in one of two ways. */
  datatype Piece = Plainly(c: unit) | Shortly(e: unit) | InHex(a: unit, b: unit, c: unit, d: unit)

  predicate WellEscaped(p: Piece) {
    match p
    case Plainly(_) => true
    case Shortly(e) => e != 117 && Escapes(e) != -1
    case InHex(a, b, c, d) => IsHexDigit(a) && IsHexDigit(b) && IsHexDigit(c) && IsHexDigit(d)
  }

  /** Between two quotes of one kind. */
  predicate SoundIn(quote: unit, p: Piece) { WellEscaped(p) && (p.Plainly? ==> p.c != quote && p.c != 92) }

  predicate AllSound(quote: unit, ps: seq<Piece>) { forall k :: 0 <= k < |ps| ==> SoundIn(quote, ps[k]) }

  function PieceText(p: Piece): seq<unit> {
    match p
    case Plainly(c) => [c]
    case Shortly(e) => [92, e]
    case InHex(a, b, c, d) => [92, 117, a, b, c, d]
  }

  function PieceUnit(p: Piece): unit {
    match p
    case Plainly(c) => c
    case Shortly(e) => if WellEscaped(p) then Escapes(e) else 0
    case InHex(a, b, c, d) => if WellEscaped(p) then HexOf(a) * 4096 + HexOf(b) * 256 + HexOf(c) * 16 + HexOf(d) else 0
  }

  function PiecesText(ps: seq<Piece>): seq<unit> { if ps == [] then [] else PieceText(ps[0]) + PiecesText(ps[1..]) }

  function PiecesUnits(ps: seq<Piece>): (s: seq<unit>)
    ensures |s| == |ps| && forall k :: 0 <= k < |s| ==> s[k] == PieceUnit(ps[k])
  {
    seq(|ps|, k requires 0 <= k < |ps| => PieceUnit(ps[k]))
  }

  function StringText(ps: seq<Piece>): seq<unit> { QuotedText(34, ps) }

  function QuotedText(quote: unit, ps: seq<Piece>): seq<unit> { [quote] + PiecesText(ps) + [quote] }

  lemma PieceRead(quote: unit, text: seq<unit>, p: Piece, rest: seq<unit>)
    requires (quote == 34 || quote == 39) && SoundIn(quote, p)
    ensures Lex(DEFAULTS, InQuotes(quote, text), PieceText(p) + rest) == Lex(DEFAULTS, InQuotes(quote, text + [PieceUnit(p)]), rest)
  {
    hide Lex, Escapes, HexOf;
    match p
    case Plainly(c) => Steps(InQuotes(quote, text), c, rest);
    case Shortly(e) => ShortEscapeRead(quote, text, e, rest);
    case InHex(a, b, c, d) => HexEscapeRead(quote, text, a, b, c, d, rest);
  }

  lemma {:induction false} PiecesRead(quote: unit, text: seq<unit>, ps: seq<Piece>, rest: seq<unit>)
    requires (quote == 34 || quote == 39) && AllSound(quote, ps)
    ensures Lex(DEFAULTS, InQuotes(quote, text), PiecesText(ps) + rest) == Lex(DEFAULTS, InQuotes(quote, text + PiecesUnits(ps)), rest)
    decreases |ps|
  {
    hide Lex, PieceText, PieceUnit, SoundIn;
    if ps == [] {
      assert PiecesText(ps) + rest == rest && text + PiecesUnits(ps) == text;
    } else {
      assert PiecesText(ps) + rest == PieceText(ps[0]) + (PiecesText(ps[1..]) + rest);
      PieceRead(quote, text, ps[0], PiecesText(ps[1..]) + rest);
      PiecesRead(quote, text + [PieceUnit(ps[0])], ps[1..], rest);
      assert text + [PieceUnit(ps[0])] + PiecesUnits(ps[1..]) == text + PiecesUnits(ps);
    }
  }

  /** Every spelling of a string, in quotes of either kind, is read as its units. */
  lemma QuotedRead(quote: unit, ps: seq<Piece>, rest: seq<unit>)
    requires (quote == 34 || quote == 39) && AllSound(quote, ps)
    ensures TokensOf(QuotedText(quote, ps) + rest) == StringThen(PiecesUnits(ps), TokensOf(rest))
  {
    hide Lex, Tokenize, PiecesText, PiecesUnits;
    var inside, end := if quote == 34 then 19 else 23, if quote == 34 then 20 else 24;
    var behind := [quote] + rest;
    var body := PiecesText(ps) + behind;
    assert QuotedText(quote, ps) + rest == [quote] + body;
    Steps(Fresh(1), quote, body);
    TokenizeIn(1, [quote] + body);
    PiecesRead(quote, [], ps, behind);
    assert [] + PiecesUnits(ps) == PiecesUnits(ps);
    Steps(InQuotes(quote, PiecesUnits(ps)), quote, rest);
    TokenizeIn(inside, body);
    Steps(Fresh(end), quote, rest);
    TokenizeIn(end, behind);
  }

  lemma StringRead(ps: seq<Piece>, rest: seq<unit>)
    requires AllSound(34, ps)
    ensures TokensOf(StringText(ps) + rest) == StringThen(PiecesUnits(ps), TokensOf(rest))
  {
    QuotedRead(34, ps, rest);
  }
}
