/**
 How the pieces that the writer puts out look to the lexer: blanks, punctuation, literals, integers and
 strings. Every UTF-16 string is read back from its quoted form, unit by unit.
 */
module JsonText {
  import opened JsonSymbols
  import opened JsonLexer
  import opened JsonGrammar
  import opened JsonReader

  const DEFAULTS := Flags(true, true)

  /** The tokens of a text that is read from its beginning. */
  function TokensOf(s: seq<unit>): Stream { Tokenize(DEFAULTS, 1, s) }

  // ----- The pieces -----

  function Digit(d: int): unit
    requires 0 <= d < 10
  {
    '0' as int + d
  }

  function DecimalNat(n: nat): (text: seq<unit>)
    ensures text != []
  {
    if n < 10 then [Digit(n)] else DecimalNat(n / 10) + [Digit(n % 10)]
  }

  /** Convert.ToString, in the invariant culture. */
  function Decimal(n: int): seq<unit> { if n < 0 then ['-' as int] + DecimalNat(-n) else DecimalNat(n) }

  function HexDigit(d: int): unit
    requires 0 <= d < 16
  {
    if d < 10 then '0' as int + d else 'A' as int + (d - 10)
  }

  function Hex4(n: unit): seq<unit> {
    [HexDigit(n / 4096), HexDigit(n / 256 % 16), HexDigit(n / 16 % 16), HexDigit(n % 16)]
  }

  /** One code unit inside a string. */
  function Escaped(c: unit): seq<unit> {
    if c == 10 then [BACKSLASH, 'n' as int]
    else if c == 13 then [BACKSLASH, 'r' as int]
    else if c == 9 then [BACKSLASH, 't' as int]
    else if c == QUOTE || c == BACKSLASH then [BACKSLASH, c]
    else if c == 12 then [BACKSLASH, 'f' as int]
    else if c == 8 then [BACKSLASH, 'b' as int]
    else if 32 <= c <= 126 then [c]
    else [BACKSLASH, 'u' as int] + Hex4(c)
  }

  function EscapedAll(s: seq<unit>): seq<unit> {
    if s == [] then [] else EscapedAll(s[..|s| - 1]) + Escaped(s[|s| - 1])
  }

  function Quoted(s: seq<unit>): seq<unit> { [QUOTE] + EscapedAll(s) + [QUOTE] }

  const TRUE: seq<unit> := ['t' as int, 'r' as int, 'u' as int, 'e' as int]
  const FALSE: seq<unit> := ['f' as int, 'a' as int, 'l' as int, 's' as int, 'e' as int]
  const NULL: seq<unit> := ['n' as int, 'u' as int, 'l' as int, 'l' as int]

  // ----- One character at a time -----

  lemma Steps(c: Config, ch: unit, rest: seq<unit>)
    ensures Lex(DEFAULTS, c, [ch] + rest) == After(DEFAULTS, c, ch, rest, Delta(DEFAULTS, c, ch))
  {
    hide Delta;
    LexStep(DEFAULTS, c, [ch] + rest);
    assert ([ch] + rest)[1..] == rest;
  }

  predicate Blank(s: seq<unit>) { forall k :: 0 <= k < |s| ==> IsSpace(s[k]) }

  lemma SpaceSkipped(ch: unit, rest: seq<unit>)
    requires IsSpace(ch)
    ensures TokensOf([ch] + rest) == TokensOf(rest)
  {
    hide Lex;
    Steps(Fresh(1), ch, rest);
  }

  lemma {:induction false} BlankSkipped(s: seq<unit>, rest: seq<unit>)
    requires Blank(s)
    ensures TokensOf(s + rest) == TokensOf(rest)
  {
    if s == [] {
      assert s + rest == rest;
    } else {
      assert s + rest == [s[0]] + (s[1..] + rest);
      SpaceSkipped(s[0], s[1..] + rest);
      BlankSkipped(s[1..], rest);
    }
  }

  predicate IsPunctuation(c: int) {
    c == ',' as int || c == ':' as int || c == '[' as int || c == ']' as int || c == '{' as int || c == '}' as int
  }

  lemma PunctuationLexed(c: unit, rest: seq<unit>)
    requires IsPunctuation(c)
    ensures TokensOf([c] + rest) == Next(Plain(Char(c)), TokensOf(rest))
  {
    hide Lex;
    Steps(Fresh(1), c, rest);
  }

  lemma TrueLexed(rest: seq<unit>)
    ensures TokensOf(TRUE + rest) == Next(Plain(True), TokensOf(rest))
  {
    hide Lex, Tokenize;
    var r1, r2, r3 := ['r' as int, 'u' as int, 'e' as int] + rest, ['u' as int, 'e' as int] + rest, ['e' as int] + rest;
    assert TRUE + rest == ['t' as int] + r1 && r1 == ['r' as int] + r2 && r2 == ['u' as int] + r3;
    Steps(Fresh(1), 't' as int, r1);
    Steps(Fresh(9), 'r' as int, r2);
    Steps(Fresh(10), 'u' as int, r3);
    Steps(Fresh(11), 'e' as int, rest);
    TokenizeIn(1, TRUE + rest);
  }

  lemma FalseLexed(rest: seq<unit>)
    ensures TokensOf(FALSE + rest) == Next(Plain(False), TokensOf(rest))
  {
    hide Lex, Tokenize;
    var r1 := ['a' as int, 'l' as int, 's' as int, 'e' as int] + rest;
    var r2, r3, r4 := ['l' as int, 's' as int, 'e' as int] + rest, ['s' as int, 'e' as int] + rest, ['e' as int] + rest;
    assert FALSE + rest == ['f' as int] + r1 && r1 == ['a' as int] + r2 && r2 == ['l' as int] + r3 && r3 == ['s' as int] + r4;
    Steps(Fresh(1), 'f' as int, r1);
    Steps(Fresh(12), 'a' as int, r2);
    Steps(Fresh(13), 'l' as int, r3);
    Steps(Fresh(14), 's' as int, r4);
    Steps(Fresh(15), 'e' as int, rest);
    TokenizeIn(1, FALSE + rest);
  }

  lemma NullLexed(rest: seq<unit>)
    ensures TokensOf(NULL + rest) == Next(Plain(Null), TokensOf(rest))
  {
    hide Lex, Tokenize;
    var r1, r2, r3 := ['u' as int, 'l' as int, 'l' as int] + rest, ['l' as int, 'l' as int] + rest, ['l' as int] + rest;
    assert NULL + rest == ['n' as int] + r1 && r1 == ['u' as int] + r2 && r2 == ['l' as int] + r3;
    Steps(Fresh(1), 'n' as int, r1);
    Steps(Fresh(16), 'u' as int, r2);
    Steps(Fresh(17), 'l' as int, r3);
    Steps(Fresh(18), 'l' as int, rest);
    TokenizeIn(1, NULL + rest);
  }

  lemma TokenizeIn(state: int, s: seq<unit>)
    ensures var r := Lex(DEFAULTS, Fresh(state), s);
      r.Lexed? ==> Tokenize(DEFAULTS, state, s) == Next(PlainOf(r.token), Tokenize(DEFAULTS, r.next, r.rest))
  {
  }

  // ----- Integers -----

  /** What the writer always has behind a number. */
  predicate Delimited(rest: seq<unit>) { rest != [] && (IsSpace(rest[0]) || Closes(rest[0])) }

  lemma {:induction false} DecimalDigits(n: nat)
    ensures AllDigits(DecimalNat(n)) && Digits(DecimalNat(n)) == n
    ensures n > 0 ==> DecimalNat(n)[0] != '0' as int
    ensures n == 0 ==> DecimalNat(n) == ['0' as int]
  {
    if n < 10 {
      assert DecimalNat(n)[..0] == [];
      assert Digits([]) == 0;
    } else {
      DecimalDigits(n / 10);
      assert DecimalNat(n)[..|DecimalNat(n)| - 1] == DecimalNat(n / 10);
    }
  }

  /** What comes back for a printed integer: an Int if it fits, else a Long. */
  lemma IntegerComesBack(n: int)
    requires -0x8000_0000_0000_0000 <= n < 0x8000_0000_0000_0000
    ensures NumberEvent(Decimal(n)) ==
      if -0x8000_0000 <= n < 0x8000_0000 then Event(IntToken, IntValue(n)) else Event(LongToken, LongValue(n))
  {
    hide DecimalNat, Digits;
    var digits := DecimalNat(if n < 0 then -n else n);
    DecimalDigits(if n < 0 then -n else n);
    if n < 0 { assert Decimal(n)[1..] == digits; }
  }

  /** Four digits, most significant first, give the number back: for all 65536 of them. */
  lemma HexInverse(n: unit)
    ensures 0 <= n / 4096 < 16
    ensures n / 4096 * 4096 + n / 256 % 16 * 256 + n / 16 % 16 * 16 + n % 16 == n
  {
    assert n / 4096 == n / 256 / 16 && n / 256 == n / 16 / 16;
  }
}
