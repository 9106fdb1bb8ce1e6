/**
 The language of the lexer, exactly: a token is lexed from a text if and only if the text begins with blanks and
 comments and then the token's own characters. Comments and single quotes are what LitJson allows beyond RFC 4627.
 */
module JsonLexemes {
  import opened JsonSymbols
  import opened JsonLexer
  import opened JsonGrammar
  import opened JsonReader
  import opened JsonText
  import opened JsonSpelling

  // ----- Blanks and comments -----

  datatype Filler = Space(c: unit) | LineComment(body: seq<unit>) | BlockComment(body: seq<unit>)

  /** No `*` and `/` side by side, nor a `/` in front if a `*` went before. */
  predicate Unclosed(body: seq<unit>, behindStar: bool) {
    && (behindStar && body != [] ==> body[0] != 47)
    && forall k :: 0 < k < |body| && body[k - 1] == 42 ==> body[k] != 47
  }

  /** The six blanks; a comment that ends with the line; one that ends with the first star and slash. */
  predicate SoundFiller(f: Filler) {
    match f
    case Space(c) => c == 32 || 9 <= c <= 13
    case LineComment(body) => forall k :: 0 <= k < |body| ==> body[k] != 10
    case BlockComment(body) => Unclosed(body, false)
  }

  function FillerText(f: Filler): seq<unit> {
    match f
    case Space(c) => [c]
    case LineComment(body) => [47, 47] + body + [10]
    case BlockComment(body) => [47, 42] + body + [42, 47]
  }

  predicate AllFillers(fs: seq<Filler>) { forall k :: 0 <= k < |fs| ==> SoundFiller(fs[k]) }

  function FillersText(fs: seq<Filler>): seq<unit> { if fs == [] then [] else FillerText(fs[0]) + FillersText(fs[1..]) }

  lemma {:induction false} LineRead(body: seq<unit>, rest: seq<unit>)
    requires SoundFiller(LineComment(body))
    ensures Lex(DEFAULTS, Fresh(26), body + ([10] + rest)) == Lex(DEFAULTS, Fresh(1), rest)
    decreases |body|
  {
    hide Lex;
    if body == [] {
      assert body + ([10] + rest) == [10] + rest;
      Steps(Fresh(26), 10, rest);
    } else {
      assert body + ([10] + rest) == [body[0]] + (body[1..] + ([10] + rest));
      Steps(Fresh(26), body[0], body[1..] + ([10] + rest));
      LineRead(body[1..], rest);
    }
  }

  lemma {:induction false} BlockRead(body: seq<unit>, behindStar: bool, rest: seq<unit>)
    requires Unclosed(body, behindStar)
    ensures Lex(DEFAULTS, Fresh(if behindStar then 28 else 27), body + ([42, 47] + rest)) == Lex(DEFAULTS, Fresh(1), rest)
    decreases |body|
  {
    hide Lex;
    var state := if behindStar then 28 else 27;
    if body == [] {
      assert body + ([42, 47] + rest) == [42] + ([47] + rest);
      Steps(Fresh(state), 42, [47] + rest);
      Steps(Fresh(28), 47, rest);
    } else {
      assert body + ([42, 47] + rest) == [body[0]] + (body[1..] + ([42, 47] + rest));
      Steps(Fresh(state), body[0], body[1..] + ([42, 47] + rest));
      BlockRead(body[1..], body[0] == 42, rest);
    }
  }

  lemma FillerRead(f: Filler, rest: seq<unit>)
    requires SoundFiller(f)
    ensures Lex(DEFAULTS, Fresh(1), FillerText(f) + rest) == Lex(DEFAULTS, Fresh(1), rest)
  {
    hide Lex, Unclosed, NumberStep, KeywordStep, StringStep;
    match f
    case Space(c) => Steps(Fresh(1), c, rest);
    case LineComment(body) =>
      assert FillerText(f) + rest == [47] + ([47] + (body + ([10] + rest)));
      Steps(Fresh(1), 47, [47] + (body + ([10] + rest)));
      Steps(Fresh(25), 47, body + ([10] + rest));
      LineRead(body, rest);
    case BlockComment(body) =>
      assert FillerText(f) + rest == [47] + ([42] + (body + ([42, 47] + rest)));
      Steps(Fresh(1), 47, [42] + (body + ([42, 47] + rest)));
      Steps(Fresh(25), 42, body + ([42, 47] + rest));
      BlockRead(body, false, rest);
  }

  /** All of them are skipped. */
  lemma {:induction false} FillersRead(fs: seq<Filler>, rest: seq<unit>)
    requires AllFillers(fs)
    ensures Lex(DEFAULTS, Fresh(1), FillersText(fs) + rest) == Lex(DEFAULTS, Fresh(1), rest)
    decreases |fs|
  {
    hide Lex, FillerText, SoundFiller;
    if fs == [] {
      assert FillersText(fs) + rest == rest;
    } else {
      assert FillersText(fs) + rest == FillerText(fs[0]) + (FillersText(fs[1..]) + rest);
      FillerRead(fs[0], FillersText(fs[1..]) + rest);
      FillersRead(fs[1..], rest);
    }
  }

  lemma {:induction false} OnlyLine(s: seq<unit>) returns (body: seq<unit>, rest: seq<unit>)
    requires Lex(DEFAULTS, Fresh(26), s).Lexed?
    ensures SoundFiller(LineComment(body)) && s == body + [10] + rest
    ensures Lex(DEFAULTS, Fresh(26), s) == Lex(DEFAULTS, Fresh(1), rest)
    decreases |s|
  {
    LexStep(DEFAULTS, Fresh(26), s);
    hide Lex;
    if s[0] == 10 {
      body, rest := [], s[1..];
    } else {
      body, rest := OnlyLine(s[1..]);
      body := [s[0]] + body;
    }
  }

  lemma {:induction false} OnlyBlock(s: seq<unit>, behindStar: bool) returns (body: seq<unit>, rest: seq<unit>)
    requires Lex(DEFAULTS, Fresh(if behindStar then 28 else 27), s).Lexed?
    ensures if behindStar && body == [] && s != [] && s[0] == 47 then s == [47] + rest
            else Unclosed(body, behindStar) && s == body + [42, 47] + rest
    ensures Lex(DEFAULTS, Fresh(if behindStar then 28 else 27), s) == Lex(DEFAULTS, Fresh(1), rest)
    decreases |s|
  {
    LexStep(DEFAULTS, Fresh(if behindStar then 28 else 27), s);
    hide Lex;
    if behindStar && s[0] == 47 {
      body, rest := [], s[1..];
    } else if s[0] == 42 && s[1..] != [] && s[1] == 47 {
      body, rest := OnlyBlock(s[1..], true);
      assert rest == s[2..] by { LexStep(DEFAULTS, Fresh(28), s[1..]); }
      body := [];
    } else {
      body, rest := OnlyBlock(s[1..], s[0] == 42);
      body := [s[0]] + body;
    }
  }

  /** A comment that is begun and does not run to the end of the text. */
  lemma OnlyComment(s: seq<unit>) returns (f: Filler, rest: seq<unit>)
    requires Lex(DEFAULTS, Fresh(25), s).Lexed?
    ensures SoundFiller(f) && [47] + s == FillerText(f) + rest && |rest| < |s|
    ensures Lex(DEFAULTS, Fresh(25), s) == Lex(DEFAULTS, Fresh(1), rest)
  {
    hide Lex, Unclosed;
    LexStep(DEFAULTS, Fresh(25), s);
    if s[0] == 42 {
      var body;
      body, rest := OnlyBlock(s[1..], false);
      f := BlockComment(body);
    } else {
      var body;
      body, rest := OnlyLine(s[1..]);
      f := LineComment(body);
    }
  }

  /** A token, or what starts one, comes next. */
  predicate Starts(s: seq<unit>) { s != [] && !IsSpace(s[0]) && s[0] != 47 }

  lemma {:induction false} OnlyFillers(s: seq<unit>) returns (fs: seq<Filler>, rest: seq<unit>)
    requires Lex(DEFAULTS, Fresh(1), s).Lexed?
    ensures AllFillers(fs) && s == FillersText(fs) + rest && Starts(rest)
    ensures Lex(DEFAULTS, Fresh(1), s) == Lex(DEFAULTS, Fresh(1), rest)
    decreases |s|
  {
    hide Lex, FillerText, SoundFiller;
    LexStep(DEFAULTS, Fresh(1), s);
    fs, rest := [], s;
    if s != [] && !Starts(s) {
      var f, after := Space(s[0]), s[1..];
      if s[0] == 47 { f, after := OnlyComment(s[1..]); }
      assert s == FillerText(f) + after && SoundFiller(f) by { assert [s[0]] + s[1..] == s; OneSpace(s[0]); }
      fs, rest := OnlyFillers(after);
      assert [f][1..] == [] && ([f] + fs)[1..] == fs;
      assert FillersText([f] + fs) == FillerText(f) + FillersText(fs);
      fs := [f] + fs;
    }
  }

  lemma OneSpace(c: unit)
    ensures FillerText(Space(c)) == [c] && (IsSpace(c) <==> SoundFiller(Space(c)))
  {
  }

  // ----- Words -----

  /** What is left of `true`, `false` and `null` in states 9 to 18. */
  function Tail(state: int): seq<unit> {
    if state == 9 then [114, 117, 101] else if state == 10 then [117, 101] else if state == 11 then [101]
    else if state == 12 then [97, 108, 115, 101] else if state == 13 then [108, 115, 101]
    else if state == 14 then [115, 101] else if state == 15 then [101]
    else if state == 16 then [117, 108, 108] else if state == 17 then [108, 108] else [108]
  }

  function Word(state: int): Symbol { if state <= 11 then True else if state <= 15 then False else Null }

  /** Letter by letter, or not at all. */
  lemma {:induction false} WordExactly(state: int, s: seq<unit>)
    requires 9 <= state <= 18
    ensures Lex(DEFAULTS, Fresh(state), s)
         == if Tail(state) <= s then Lexed(Token(Word(state), []), 1, s[|Tail(state)|..]) else Malformed
    decreases 18 - state
  {
    hide Lex;
    LexStep(DEFAULTS, Fresh(state), s);
    if s != [] && s[0] == Letter(state) && !LastLetter(state) {
      WordExactly(state + 1, s[1..]);
      assert Tail(state) == [s[0]] + Tail(state + 1);
      assert Tail(state) <= s <==> Tail(state + 1) <= s[1..];
    }
  }

  // ----- Strings -----

  /** The first piece of what is inside a string. */
  lemma OnlyPiece(quote: unit, text: seq<unit>, s: seq<unit>) returns (p: Piece, rest: seq<unit>)
    requires (quote == 34 || quote == 39) && Lex(DEFAULTS, InQuotes(quote, text), s).Lexed? && s != [] && s[0] != quote
    ensures SoundIn(quote, p) && s == PieceText(p) + rest
    ensures Lex(DEFAULTS, InQuotes(quote, text), s) == Lex(DEFAULTS, InQuotes(quote, text + [PieceUnit(p)]), rest)
  {
    hide Lex, Escapes, HexOf, IsHexDigit;
    if s[0] != 92 {
      p, rest := Plainly(s[0]), s[1..];
    } else {
      Escaping(quote, text, s);
      if s[1] != 117 {
        p, rest := Shortly(s[1]), s[2..];
        ShortEscapeRead(quote, text, s[1], rest);
      } else {
        p, rest := InHex(s[2], s[3], s[4], s[5]), s[6..];
      }
    }
    assert s == PieceText(p) + rest;
    PieceRead(quote, text, p, rest);
  }

  /** Behind a backslash there is an escape. */
  lemma Escaping(quote: unit, text: seq<unit>, s: seq<unit>)
    requires (quote == 34 || quote == 39) && Lex(DEFAULTS, InQuotes(quote, text), s).Lexed? && s != [] && s[0] == 92
    ensures |s| >= 2 && (s[1] != 117 ==> Escapes(s[1]) != -1)
    ensures s[1] == 117 ==> |s| >= 6 && IsHexDigit(s[2]) && IsHexDigit(s[3]) && IsHexDigit(s[4]) && IsHexDigit(s[5])
  {
    hide Lex, Escapes, HexOf, IsHexDigit;
    var back := InQuotes(quote, text).state;
    LexStep(DEFAULTS, InQuotes(quote, text), s);
    LexStep(DEFAULTS, Config(21, back, text, 0, 0), s[1..]);
    if s[1] != 117 {
      assert s == [92, s[1]] + s[2..];
      ShortEscapeRead(quote, text, s[1], s[2..]);
    } else {
      FourDigits(Config(22, back, text, 0, 0), s[1..][1..]);
      assert s[1..][1..] == s[2..];
    }
  }

  /** The digits that are left of a long escape. */
  lemma {:induction false} FourDigits(c: Config, s: seq<unit>)
    requires c.state == 22 && c.digits <= 3 && Lex(DEFAULTS, c, s).Lexed?
    ensures |s| >= 4 - c.digits && forall k :: 0 <= k < 4 - c.digits ==> IsHexDigit(s[k])
    decreases 3 - c.digits
  {
    hide Lex, IsHexDigit;
    LexStep(DEFAULTS, c, s);
    assert s == [s[0]] + s[1..];
    if !IsHexDigit(s[0]) { BadHexDigit(c, s[0], s[1..]); }
    var d := Delta(DEFAULTS, c, s[0]);
    if c.digits < 3 { FourDigits(d.config, s[1..]); }
  }

  /** The text of a string ends in front of its quote, and nowhere else. */
  lemma {:induction false} OnlyPieces(quote: unit, text: seq<unit>, s: seq<unit>) returns (ps: seq<Piece>, rest: seq<unit>)
    requires (quote == 34 || quote == 39) && Lex(DEFAULTS, InQuotes(quote, text), s).Lexed?
    ensures AllSound(quote, ps) && s == PiecesText(ps) + rest && rest != [] && rest[0] == quote
    ensures Lex(DEFAULTS, InQuotes(quote, text), s)
         == Lexed(Token(CharSeq, text + PiecesUnits(ps)), if quote == 34 then 20 else 24, rest)
    decreases |s|
  {
    hide Lex, PieceText, PieceUnit, SoundIn, PiecesText, PiecesUnits, AllSound;
    LexStep(DEFAULTS, InQuotes(quote, text), s);
    if s[0] == quote {
      ps, rest := [], s;
      NoPieces(quote, text);
    } else {
      var p, after := OnlyPiece(quote, text, s);
      PieceIsSome(p);
      ps, rest := OnlyPieces(quote, text + [PieceUnit(p)], after);
      OneMorePiece(text, p, ps);
      ps := [p] + ps;
    }
  }

  lemma OneMorePiece(text: seq<unit>, p: Piece, ps: seq<Piece>)
    ensures PiecesText([p] + ps) == PieceText(p) + PiecesText(ps)
    ensures text + PiecesUnits([p] + ps) == text + [PieceUnit(p)] + PiecesUnits(ps)
    ensures forall quote :: SoundIn(quote, p) && AllSound(quote, ps) ==> AllSound(quote, [p] + ps)
  {
    hide PieceText, PieceUnit, SoundIn;
    assert ([p] + ps)[1..] == ps;
  }

  lemma NoPieces(quote: unit, text: seq<unit>)
    ensures PiecesText([]) == [] && text + PiecesUnits([]) == text && AllSound(quote, [])
  {
  }

  lemma PieceIsSome(p: Piece)
    ensures PieceText(p) != []
  {
  }

  // ----- Numbers -----

  /** A number token is what has been consumed, up to what delimits it. */
  lemma {:induction false} NumberConsumed(state: int, text: seq<unit>, s: seq<unit>) returns (w: seq<unit>, behind: seq<unit>)
    requires 2 <= state <= 8 && Lex(DEFAULTS, InNumber(state, text), s).Lexed?
    ensures s == w + behind && Delimited(behind)
    ensures Lex(DEFAULTS, InNumber(state, text), s)
         == Lexed(Token(JsonSymbols.Number, text + w), 1, if IsSpace(behind[0]) then behind[1..] else behind)
    decreases |s|
  {
    hide Lex;
    LexStep(DEFAULTS, InNumber(state, text), s);
    var step := Delta(DEFAULTS, InNumber(state, text), s[0]);
    if step.Go? {
      w, behind := NumberConsumed(step.config.state, step.config.text, s[1..]);
      assert text + [s[0]] + w == text + ([s[0]] + w);
      assert s == [s[0]] + s[1..];
      w := [s[0]] + w;
    } else {
      w, behind := [], s;
      assert text + w == text;
    }
  }

  // ----- Tokens -----

  /** Whose characters `w` are, and in which state the lexer is behind them. */
  ghost predicate IsLexeme(state: int, w: seq<unit>, token: Token, next: int) {
    if state == 1 then
      || (|w| == 1 && IsPunctuation(w[0]) && token == Token(Char(w[0]), []) && next == 1)
      || (w == [34] && token == Token(Char(34), []) && next == 19)
      || (w == [39] && token == Token(Char(34), []) && next == 23)
      || (w == [116, 114, 117, 101] && token == Token(True, []) && next == 1)
      || (w == [102, 97, 108, 115, 101] && token == Token(False, []) && next == 1)
      || (w == [110, 117, 108, 108] && token == Token(Null, []) && next == 1)
      || (token == Token(JsonSymbols.Number, w) && next == 1 && exists n :: Accepted(n) && w == NumberText(n))
    else if state == 19 || state == 23 then
      next == state + 1 && exists ps :: AllSound(if state == 19 then 34 else 39, ps) && w == PiecesText(ps) && token == Token(CharSeq, PiecesUnits(ps))
    else
      next == 1 && token == Token(Char(34), []) && w == if state == 20 then [34] else [39]
  }

  /** A number needs something to delimit it, of which a blank is consumed; a string goes up to its quote. */
  predicate EndsIn(state: int, symbol: Symbol, behind: seq<unit>, rest: seq<unit>) {
    if symbol == JsonSymbols.Number then Delimited(behind) && rest == if IsSpace(behind[0]) then behind[1..] else behind
    else rest == behind && (state == 19 || state == 23 ==> rest != [] && rest[0] == if state == 19 then 34 else 39)
  }

  lemma FirstLexemeRead(w: seq<unit>, token: Token, next: int, behind: seq<unit>)
    requires IsLexeme(1, w, token, next) && token.symbol != JsonSymbols.Number
    ensures Lex(DEFAULTS, Fresh(1), w + behind) == Lexed(token, next, behind)
  {
    hide Lex;
    assert w + behind == [w[0]] + (w[1..] + behind);
    Steps(Fresh(1), w[0], w[1..] + behind);
    if |w| > 1 {
      var word := if w[0] == 116 then 9 else if w[0] == 102 then 12 else 16;
      WordExactly(word, w[1..] + behind);
      assert w[1..] == Tail(word) && (w[1..] + behind)[|w[1..]|..] == behind;
    } else {
      assert w[1..] + behind == behind;
    }
  }

  lemma StringLexemeRead(state: int, w: seq<unit>, token: Token, next: int, behind: seq<unit>)
    requires (state == 19 || state == 23) && IsLexeme(state, w, token, next)
    requires behind != [] && behind[0] == if state == 19 then 34 else 39
    ensures Lex(DEFAULTS, Fresh(state), w + behind) == Lexed(token, next, behind)
  {
    hide Lex, PiecesText, PiecesUnits, AllSound;
    var quote := if state == 19 then 34 else 39;
    var ps :| AllSound(quote, ps) && w == PiecesText(ps) && token == Token(CharSeq, PiecesUnits(ps));
    PiecesRead(quote, [], ps, behind);
    assert [] + PiecesUnits(ps) == PiecesUnits(ps);
    assert behind == [quote] + behind[1..];
    Steps(InQuotes(quote, PiecesUnits(ps)), quote, behind[1..]);
  }

  /** Every lexeme is lexed. */
  lemma LexemeRead(state: int, w: seq<unit>, token: Token, next: int, behind: seq<unit>, rest: seq<unit>)
    requires Boundary(state) && IsLexeme(state, w, token, next) && EndsIn(state, token.symbol, behind, rest)
    ensures Lex(DEFAULTS, Fresh(state), w + behind) == Lexed(token, next, rest)
  {
    hide Lex, Accepted, NumberText, PiecesText, PiecesUnits, AllSound;
    if state == 19 || state == 23 {
      StringLexemeRead(state, w, token, next, behind);
    } else if token.symbol == JsonSymbols.Number {
      var n :| Accepted(n) && w == NumberText(n);
      NumberLexes(n, behind);
    } else if state == 1 {
      FirstLexemeRead(w, token, next, behind);
    } else {
      Steps(Fresh(state), w[0], behind);
    }
  }

  /** Whatever is lexed is a lexeme. */
  lemma OnlyLexemes(state: int, s: seq<unit>) returns (w: seq<unit>, behind: seq<unit>)
    requires Boundary(state) && Lex(DEFAULTS, Fresh(state), s).Lexed? && (state == 1 ==> Starts(s))
    ensures var r := Lex(DEFAULTS, Fresh(state), s);
      s == w + behind && IsLexeme(state, w, r.token, r.next) && EndsIn(state, r.token.symbol, behind, r.rest)
  {
    hide Lex, Accepted, NumberText, PiecesText, PiecesUnits, AllSound;
    LexStep(DEFAULTS, Fresh(state), s);
    if state == 1 {
      w, behind := OnlyFirstLexeme(s);
    } else if state == 19 || state == 23 {
      var quote := if state == 19 then 34 else 39;
      var ps;
      ps, behind := OnlyPieces(quote, [], s);
      w := PiecesText(ps);
      assert [] + PiecesUnits(ps) == PiecesUnits(ps);
    } else {
      w, behind := [s[0]], s[1..];
    }
  }

  lemma OnlyFirstLexeme(s: seq<unit>) returns (w: seq<unit>, behind: seq<unit>)
    requires Lex(DEFAULTS, Fresh(1), s).Lexed? && Starts(s)
    ensures var r := Lex(DEFAULTS, Fresh(1), s);
      s == w + behind && IsLexeme(1, w, r.token, r.next) && EndsIn(1, r.token.symbol, behind, r.rest)
  {
    hide Lex, Accepted, NumberText, PiecesText, PiecesUnits, AllSound, NumberStep, KeywordStep, StringStep, CommentStep, IsLexeme, EndsIn;
    LexStep(DEFAULTS, Fresh(1), s);
    assert s == [s[0]] + s[1..] && [] + [s[0]] == [s[0]];
    var step := Delta(DEFAULTS, Fresh(1), s[0]);
    if step.Emit? {
      w, behind := [s[0]], s[1..];
      IsFirst(s[0]);
    } else if step.config.state < 9 {
      w, behind := NumberConsumed(step.config.state, [s[0]], s[1..]);
      w := [s[0]] + w;
      var n := OnlyNumbers(Fresh(1), s);
      IsNumber(n, w);
      assert s == w + behind;
    } else {
      var tail := Tail(step.config.state);
      WordExactly(step.config.state, s[1..]);
      w, behind := [s[0]] + tail, s[1..][|tail|..];
      assert s[1..] == tail + behind;
      IsWord(s[0]);
    }
  }

  lemma IsFirst(ch: unit)
    ensures var step := Delta(DEFAULTS, Fresh(1), ch);
      step.Emit? ==> IsLexeme(1, [ch], Token(ReturnSymbol(1, step.code), []), step.next) && !step.unget
    ensures forall code, rest :: EndsIn(1, ReturnSymbol(1, code), rest, rest)
  {
  }

  lemma IsNumber(n: Number, w: seq<unit>)
    requires Accepted(n) && w == NumberText(n)
    ensures IsLexeme(1, w, Token(JsonSymbols.Number, w), 1)
    ensures forall behind :: Delimited(behind) ==>
      EndsIn(1, JsonSymbols.Number, behind, if IsSpace(behind[0]) then behind[1..] else behind)
  {
    hide Accepted, NumberText;
  }

  lemma IsWord(ch: unit)
    ensures var step := Delta(DEFAULTS, Fresh(1), ch);
      step.Go? && step.config.state >= 9 && ch != 47 ==>
        && step.config == Fresh(step.config.state) && step.config.state <= 18
        && IsLexeme(1, [ch] + Tail(step.config.state), Token(Word(step.config.state), []), 1)
        && forall rest :: EndsIn(1, Word(step.config.state), rest, rest)
  {
  }

  /** A token comes next. */
  ghost predicate TokenAhead(state: int, s: seq<unit>, token: Token, next: int, rest: seq<unit>) {
    exists fs, w, behind ::
      && AllFillers(fs) && (state != 1 ==> fs == []) && s == FillersText(fs) + (w + behind)
      && IsLexeme(state, w, token, next) && EndsIn(state, token.symbol, behind, rest)
  }

  /** One run of NextToken, in terms of the characters. */
  lemma LexesExactly(state: int, s: seq<unit>, token: Token, next: int, rest: seq<unit>)
    requires Boundary(state)
    ensures Lex(DEFAULTS, Fresh(state), s) == Lexed(token, next, rest) <==> TokenAhead(state, s, token, next, rest)
  {
    hide Lex, IsLexeme, EndsIn, AllFillers, FillersText;
    if Lex(DEFAULTS, Fresh(state), s) == Lexed(token, next, rest) {
      var fs, from := [], s;
      NoFillers(s);
      if state == 1 { fs, from := OnlyFillers(s); }
      var w, behind := OnlyLexemes(state, from);
      assert s == FillersText(fs) + (w + behind);
    }
    if TokenAhead(state, s, token, next, rest) {
      var fs, w, behind :|
        && AllFillers(fs) && (state != 1 ==> fs == []) && s == FillersText(fs) + (w + behind)
        && IsLexeme(state, w, token, next) && EndsIn(state, token.symbol, behind, rest);
      LexemeRead(state, w, token, next, behind, rest);
      if state == 1 { FillersRead(fs, w + behind); } else { NoFillers(w + behind); }
    }
  }

  /** When nothing else is left the text is at its end. */
  lemma OnlyFillersLeft(fs: seq<Filler>)
    requires AllFillers(fs)
    ensures Lex(DEFAULTS, Fresh(1), FillersText(fs)) == EndOfInput && TokensOf(FillersText(fs)) == EndOfText
  {
    FillersRead(fs, []);
    assert FillersText(fs) + [] == FillersText(fs);
  }

  lemma NoFillers(s: seq<unit>)
    ensures AllFillers([]) && FillersText([]) + s == s
  {
  }

  /** Without comments and single quotes their first characters are rejected, and all else is as before. */
  lemma OnlyFirstDiffers(f: Flags, c: Config, ch: unit)
    ensures Delta(f, c, ch) ==
      if c.state == 1 && ((ch == 47 && !f.comments) || (ch == 39 && !f.singleQuotes)) then Reject else Delta(DEFAULTS, c, ch)
  {
  }
}
