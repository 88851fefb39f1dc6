/**
 * The tokenizer (src/lexer.rs): a character-by-character state machine over a
 * pending buffer and an in-string flag. Whitespace outside a quoted run and
 * the two parentheses flush the buffer; a flushed buffer is classified as a
 * keyword, else a literal, else an identifier.
 *
 * The pure functions below (StepChar, ScanChars, LexSpec) specify the class
 * `Lexer`, whose methods update its fields in place as the source does.
 * Source positions are diagnostic only and are not modelled.
 */
module Lexer {
  import opened Wrappers
  import opened Keywords
  import L = Literals

  datatype Lexem =
    | KeywordToken(keyword: Keyword)
    | LiteralToken(literal: L.Literal)
    | ParenOpen
    | ParenClose
    | Identifier(name: string)

  // ---------------------------------------------------------------------
  // Classifying a flushed buffer
  // ---------------------------------------------------------------------

  /** `sublex_keyword`: the symbol or ASCII alias of a special form. */
  function SublexKeyword(buf: string): (r: Option<Lexem>)
    ensures r.Some? ==> r.value.KeywordToken?
  {
    if buf == "δ" || buf == "def" then Some(KeywordToken(Def))
    else if buf == "ε" || buf == "external" then Some(KeywordToken(External))
    else if buf == "λ" || buf == "lambda" then Some(KeywordToken(Lambda))
    else if buf == "->" then Some(KeywordToken(Arrow))
    else if buf == "ι" || buf == "id" then Some(KeywordToken(Id))
    else if buf == "_" then Some(KeywordToken(Ignore))
    else if buf == "Ω" || buf == "nih" then Some(KeywordToken(Nil))
    else None
  }

  /** `sublex_literal`: a number, else a quoted string, else nil. */
  function SublexLiteral(buf: string): (r: Option<Lexem>)
    ensures r.Some? ==> r.value.LiteralToken?
  {
    var lit :=
      if L.ParseNum(buf).Some? then L.ParseNum(buf)
      else if L.QuotedString(buf).Some? then L.QuotedString(buf)
      else L.ParseNil(buf);
    match lit
    case Some(l) => Some(LiteralToken(l))
    case None => None
  }

  /** `sublex_identifier`: any non-empty buffer without a '"'. */
  function SublexIdentifier(buf: string): (r: Option<Lexem>)
    ensures r.Some? <==> buf != [] && '"' !in buf
    ensures r.Some? ==> r.value == Identifier(buf)
  {
    if buf == [] || '"' in buf then None else Some(Identifier(buf))
  }

  /** The priority order `push` applies: keyword, then literal, then identifier. */
  function Classify(buf: string): (r: Option<Lexem>)
    ensures r.Some? ==> r.value.KeywordToken? || r.value.LiteralToken? || r.value == Identifier(buf)
  {
    var k := SublexKeyword(buf);
    if k.Some? then k
    else
      var l := SublexLiteral(buf);
      if l.Some? then l else SublexIdentifier(buf)
  }

  /** Rust's `char::is_whitespace` (the Unicode White_Space property). */
  predicate IsWhitespace(c: char): (b: bool)
    ensures c == ' ' || c == '\t' || c == '\n' || c == '\r' ==> b
    ensures b ==> c != '(' && c != ')' && c != '"' && c != '\\'
  {
    var n := c as int;
    (9 <= n <= 13) || n == 32 || n == 0x85 || n == 0xA0 || n == 0x1680
    || (0x2000 <= n <= 0x200A) || n == 0x2028 || n == 0x2029 || n == 0x202F
    || n == 0x205F || n == 0x3000
  }

  // ---------------------------------------------------------------------
  // The state machine as functions
  // ---------------------------------------------------------------------

  /** The fields of a `Lexer` (positions left out). */
  datatype LexState = LexState(current: string, inString: bool, tokens: seq<Lexem>)

  /** `Lexer::new()`. */
  const Fresh := LexState("", false, [])

  function TokenList(t: Option<Lexem>): (r: seq<Lexem>)
    ensures |r| <= 1 && (t.Some? ==> r == [t.value])
  {
    match t
    case Some(x) => [x]
    case None => []
  }

  /**
   * `push(token)`: emit the classified buffer (if any), clear the buffer, then
   * emit `token`. It fails exactly when a non-empty buffer is unclassifiable.
   */
  function Flush(st: LexState, token: Option<Lexem>): (r: (LexState, bool))
    ensures r.0.current == [] && r.0.inString == st.inString
    ensures st.current == [] ==> r.1
    ensures st.tokens <= r.0.tokens
    ensures token.Some? ==> |r.0.tokens| > 0 && r.0.tokens[|r.0.tokens| - 1] == token.value
    ensures |r.0.tokens| <= |st.tokens| + 2
  {
    var cls := Classify(st.current);
    (LexState([], st.inString, st.tokens + TokenList(cls) + TokenList(token)), cls.Some? || st.current == [])
  }

  /** Scanning stops at the first flush whose `unwrap()` panics. */
  datatype Scan = Scanning(state: LexState) | Panicked(state: LexState, buffer: string)

  /** `self.push(token).unwrap()` inside the loop of `lex`. */
  function Flushed(st: LexState, token: Option<Lexem>): Scan
  {
    var (st', ok) := Flush(st, token);
    if ok then Scanning(st') else Panicked(st', st.current)
  }

  /** One iteration of the loop in `lex`. */
  function StepChar(st: LexState, c: char): (r: Scan)
    ensures st.tokens <= r.state.tokens
    ensures r.Panicked? ==> r.buffer == st.current && r.buffer != []
    ensures r.Scanning? ==> r.state.inString == (st.inString != (c == '"'))
  {
    if IsWhitespace(c) && !st.inString then Flushed(st, None)
    else if c == '(' then Flushed(st, Some(ParenOpen))
    else if c == ')' then Flushed(st, Some(ParenClose))
    else Scanning(st.(current := st.current + [c], inString := if c == '"' then !st.inString else st.inString))
  }

  /** The loop of `lex` over all of `s`. */
  function ScanChars(st: LexState, s: string): (r: Scan)
    ensures r.Panicked? ==> r.buffer != []
    decreases |s|
  {
    if s == [] then Scanning(st)
    else
      match ScanChars(st, s[..|s| - 1])
      case Scanning(st') => StepChar(st', s[|s| - 1])
      case Panicked(st', b) => Panicked(st', b)
  }

  /** What `lex` returns: Ok, the `?` error of the final flush, or a panic inside the loop. */
  datatype LexOutcome = LexOk | LexError(buffer: string) | LexPanic(buffer: string)

  /** `lex(source)`: the loop, then a last flush whose error is returned. */
  function LexSpec(st: LexState, source: string): (r: (LexOutcome, LexState))
    ensures !r.0.LexOk? ==> r.0.buffer != []
    ensures !r.0.LexPanic? ==> r.1.current == []
  {
    match ScanChars(st, source)
    case Panicked(st', b) => (LexPanic(b), st')
    case Scanning(st') =>
      var (st'', ok) := Flush(st', None);
      (if ok then LexOk else LexError(st'.current), st'')
  }

  // ---------------------------------------------------------------------
  // The lexer object
  // ---------------------------------------------------------------------

  class Lexer {
    var current: string
    var inString: bool
    var tokens: seq<Lexem>

    function State(): LexState
      reads this
    {
      LexState(current, inString, tokens)
    }

    constructor ()
      ensures State() == Fresh
    {
      current := "";
      inString := false;
      tokens := [];
    }

    /** `push`: classify and emit the buffer, clear it, then emit `token`. */
    method Push(token: Option<Lexem>) returns (ok: bool)
      modifies this
      ensures (State(), ok) == Flush(old(State()), token)
    {
      var found := SublexKeyword(current);
      if found.None? {
        found := SublexLiteral(current);
      }
      if found.None? {
        found := SublexIdentifier(current);
      }
      assert found == Classify(old(current));
      if found.Some? {
        tokens := tokens + [found.value];
      }
      assert tokens == old(tokens) + TokenList(found);
      ok := found.Some? || current == [];
      current := "";
      if token.Some? {
        tokens := tokens + [token.value];
      }
      assert tokens == old(tokens) + TokenList(found) + TokenList(token);
    }

    /** `lex`: feed every character of `source`, then flush what is left. */
    method Lex(source: string) returns (r: LexOutcome)
      modifies this
      ensures (r, State()) == LexSpec(old(State()), source)
    {
      ghost var start := State();
      var i := 0;
      while i < |source|
        invariant 0 <= i <= |source|
        invariant ScanChars(start, source[..i]) == Scanning(State())
      {
        var c := source[i];
        assert source[..i + 1][..i] == source[..i];
        ghost var before := State();
        ScanLast(start, source[..i + 1]);
        if IsWhitespace(c) && !inString {
          var buffer := current;
          var ok := Push(None);
          FlushedStep(before, None, State(), ok);
          if !ok {
            LexSpecPanicked(start, source, i + 1);
            return LexPanic(buffer);
          }
        } else if c == '(' {
          var buffer := current;
          var ok := Push(Some(ParenOpen));
          FlushedStep(before, Some(ParenOpen), State(), ok);
          if !ok {
            LexSpecPanicked(start, source, i + 1);
            return LexPanic(buffer);
          }
        } else if c == ')' {
          var buffer := current;
          var ok := Push(Some(ParenClose));
          FlushedStep(before, Some(ParenClose), State(), ok);
          if !ok {
            LexSpecPanicked(start, source, i + 1);
            return LexPanic(buffer);
          }
        } else {
          if c == '"' {
            inString := !inString;
          }
          current := current + [c];
        }
        i := i + 1;
      }
      assert source[..i] == source;
      ghost var scanned := State();
      var buffer := current;
      var ok := Push(None);
      LexSpecScanned(start, source, scanned, State(), ok);
      r := if ok then LexOk else LexError(buffer);
    }
  }

  /** `lex` fails only on a buffer no sublexer accepts, inside the loop or at the end. */
  lemma LexFailureUnclassifiable(st: LexState, source: string)
    ensures var (o, _) := LexSpec(st, source);
            !o.LexOk? ==> Classify(o.buffer).None?
  {
    if ScanChars(st, source).Panicked? {
      ScanPanicUnclassifiable(st, source);
    }
  }

  lemma {:induction false} ScanPanicUnclassifiable(st: LexState, s: string)
    requires ScanChars(st, s).Panicked?
    ensures Classify(ScanChars(st, s).buffer).None?
    decreases |s|
  {
    var init := s[..|s| - 1];
    if ScanChars(st, init).Panicked? {
      ScanPanicUnclassifiable(st, init);
    } else {
      ScanLast(st, s);
    }
  }

  /** One more character, while still scanning, is one more step. */
  lemma ScanLast(st: LexState, s: string)
    requires s != [] && ScanChars(st, s[..|s| - 1]).Scanning?
    ensures ScanChars(st, s) == StepChar(ScanChars(st, s[..|s| - 1]).state, s[|s| - 1])
  {
  }

  /** A scan that has not panicked had not panicked one character earlier either. */
  lemma ScanPrefixScanning(st: LexState, s: string)
    requires s != [] && ScanChars(st, s).Scanning?
    ensures ScanChars(st, s[..|s| - 1]).Scanning?
  {
  }

  /** A flush inside the loop, read from what `push` left and returned. */
  lemma FlushedStep(before: LexState, token: Option<Lexem>, after: LexState, ok: bool)
    requires (after, ok) == Flush(before, token)
    ensures Flushed(before, token) == if ok then Scanning(after) else Panicked(after, before.current)
  {
  }

  /** A panic inside the loop is what `lex` ends with. */
  lemma LexSpecPanicked(st: LexState, source: string, k: nat)
    requires k <= |source| && ScanChars(st, source[..k]).Panicked?
    ensures LexSpec(st, source) == (LexPanic(ScanChars(st, source[..k]).buffer), ScanChars(st, source[..k]).state)
  {
    PanicPersists(st, source, k);
  }

  /** Without a panic, the last flush decides what `lex` returns. */
  lemma LexSpecScanned(st: LexState, source: string, scanned: LexState, after: LexState, ok: bool)
    requires ScanChars(st, source) == Scanning(scanned) && (after, ok) == Flush(scanned, None)
    ensures LexSpec(st, source) == (if ok then LexOk else LexError(scanned.current), after)
  {
  }

  /** Once a flush inside the loop has panicked, later characters change nothing. */
  lemma {:induction false} PanicPersists(st: LexState, s: string, k: nat)
    requires k <= |s|
    requires ScanChars(st, s[..k]).Panicked?
    ensures ScanChars(st, s) == ScanChars(st, s[..k])
    decreases |s| - k
  {
    if k == |s| {
      assert s[..k] == s;
    } else {
      assert s[..k + 1][..k] == s[..k];
      PanicPersists(st, s, k + 1);
    }
  }

  // ---------------------------------------------------------------------
  // Properties
  // ---------------------------------------------------------------------

  /** Printing a keyword and classifying the text gives that keyword back. */
  lemma KeywordRoundTrip(k: Keyword)
    ensures Classify(Spelling(k)) == Some(KeywordToken(k))
  {
    match k
    case Def => assert SublexKeyword("δ") == Some(KeywordToken(Def));
    case Lambda => assert SublexKeyword("λ") == Some(KeywordToken(Lambda));
    case Arrow => assert SublexKeyword("->") == Some(KeywordToken(Arrow));
    case External => assert SublexKeyword("ε") == Some(KeywordToken(External));
    case Id => assert SublexKeyword("ι") == Some(KeywordToken(Id));
    case Ignore => assert SublexKeyword("_") == Some(KeywordToken(Ignore));
    case Nil => assert SublexKeyword("Ω") == Some(KeywordToken(Nil));
  }

  /** The ASCII alias "nih" is the Ω keyword, not an identifier. */
  lemma NihIsKeyword(s: string)
    requires s == "nih"
    ensures Classify(s) == Some(KeywordToken(Nil))
  {
    assert SublexKeyword(s) == Some(KeywordToken(Nil));
  }

  /** Both spellings of nil are literals, not identifiers. */
  lemma NilIsLiteral(s: string)
    requires s == "nil" || s == "Φ"
    ensures Classify(s) == Some(LiteralToken(L.Nil))
  {
    assert SublexKeyword(s) == None;
    if s == "nil" {
      ClassifiedAsNil(s, 2);
    } else {
      ClassifiedAsNil(s, 0);
    }
  }

  /** A buffer that is no keyword, cannot be a number and spells nil is the nil literal. */
  lemma ClassifiedAsNil(s: string, i: nat)
    requires SublexKeyword(s) == None && L.ParseNil(s) == Some(L.Nil)
    requires i < |s| && !L.IsFloatChar(s[i]) && s[0] != '"'
    ensures Classify(s) == Some(LiteralToken(L.Nil))
  {
    L.NotNumber(s, i);
    assert L.QuotedString(s) == None;
  }

  /** "inf" is read as a number (infinity), not as an identifier. */
  lemma InfIsNumber(s: string)
    requires s == "inf"
    ensures Classify(s) == Some(LiteralToken(L.Num(s)))
  {
    assert SublexKeyword(s) == None;
    L.InfWord(s);
  }

  lemma KeywordHasNoQuote(buf: string)
    requires SublexKeyword(buf).Some?
    ensures buf != [] && '"' !in buf
  {
  }

  lemma LiteralWithoutQuotes(buf: string)
    requires buf == [] || '"' in buf
    ensures L.ParseNum(buf) == None && L.ParseNil(buf) == None
  {
    if buf == [] {
      L.EmptyIsNotNumber();
    } else {
      var i :| 0 <= i < |buf| && buf[i] == '"';
      L.NotNumber(buf, i);
    }
  }

  /**
   * A non-empty buffer is unclassifiable exactly when it holds a '"' and is
   * not a well-formed string literal; the empty buffer is never classified.
   */
  lemma UnclassifiableBuffer(buf: string)
    ensures Classify(buf).None? <==> buf == [] || ('"' in buf && L.QuotedString(buf).None?)
  {
    if SublexKeyword(buf).Some? {
      KeywordHasNoQuote(buf);
    }
    if buf == [] || '"' in buf {
      LiteralWithoutQuotes(buf);
    }
  }

  /** A flush of the empty buffer emits only `token` and succeeds. */
  lemma FlushEmptyBuffer(st: LexState, token: Option<Lexem>)
    requires st.current == []
    ensures Flush(st, token) == (LexState([], st.inString, st.tokens + TokenList(token)), true)
  {
    UnclassifiableBuffer(st.current);
    assert st.tokens + [] == st.tokens;
  }

  /** A non-empty unclassifiable buffer makes the flush fail, and the buffer is still cleared. */
  lemma FlushUnclassifiable(st: LexState, token: Option<Lexem>)
    requires st.current != [] && '"' in st.current && L.QuotedString(st.current).None?
    ensures !Flush(st, token).1
    ensures Flush(st, token).0 == LexState([], st.inString, st.tokens + TokenList(token))
  {
    UnclassifiableBuffer(st.current);
    assert st.tokens + [] == st.tokens;
  }

  /** Tokens are only ever appended: the old tokens stay a prefix. */
  lemma {:induction false} ScanAppendsTokens(st: LexState, s: string)
    ensures st.tokens <= ScanChars(st, s).state.tokens
    decreases |s|
  {
    if s != [] {
      ScanAppendsTokens(st, s[..|s| - 1]);
    }
  }

  /** The parenthesis tokens of a token list, in order. */
  function Parens(ts: seq<Lexem>): seq<Lexem>
  {
    if ts == [] then []
    else Parens(ts[..|ts| - 1]) + (if ts[|ts| - 1] == ParenOpen || ts[|ts| - 1] == ParenClose then [ts[|ts| - 1]] else [])
  }

  /** The parenthesis characters of a text, as tokens, in order. */
  function ParenChars(s: string): seq<Lexem>
  {
    if s == [] then []
    else ParenChars(s[..|s| - 1]) + (if s[|s| - 1] == '(' then [ParenOpen] else if s[|s| - 1] == ')' then [ParenClose] else [])
  }

  lemma {:induction false} ParensAppend(a: seq<Lexem>, b: seq<Lexem>)
    ensures Parens(a + b) == Parens(a) + Parens(b)
    decreases |b|
  {
    if b != [] {
      assert (a + b)[..|a + b| - 1] == a + b[..|b| - 1];
      ParensAppend(a, b[..|b| - 1]);
    } else {
      assert a + b == a;
    }
  }

  lemma FlushParens(st: LexState, token: Option<Lexem>)
    ensures Parens(Flush(st, token).0.tokens) == Parens(st.tokens) + Parens(TokenList(token))
  {
    AppendNonParen(st.tokens, Classify(st.current), token);
  }

  /** Appending a classified buffer's token adds no parenthesis. */
  lemma AppendNonParen(ts: seq<Lexem>, cls: Option<Lexem>, token: Option<Lexem>)
    requires cls.Some? ==> !cls.value.ParenOpen? && !cls.value.ParenClose?
    ensures Parens(ts + TokenList(cls) + TokenList(token)) == Parens(ts) + Parens(TokenList(token))
  {
    ParensAppend(ts + TokenList(cls), TokenList(token));
    ParensAppend(ts, TokenList(cls));
    if cls.Some? {
      assert Parens(TokenList(cls)) == Parens([]) + [] by {
        assert TokenList(cls)[..0] == [];
      }
    }
  }

  /**
   * Every '(' and ')' of a text that lexes without panicking becomes exactly
   * one parenthesis token, in source order; classified buffers never add one.
   */
  lemma {:induction false} ScanParens(st: LexState, s: string)
    requires ScanChars(st, s).Scanning?
    ensures Parens(ScanChars(st, s).state.tokens) == Parens(st.tokens) + ParenChars(s)
    decreases |s|
  {
    if s != [] {
      var init := s[..|s| - 1];
      var c := s[|s| - 1];
      ScanPrefixScanning(st, s);
      ScanParens(st, init);
      var mid := ScanChars(st, init).state;
      ScanLast(st, s);
      StepParens(mid, c);
      assert ParenChars(s) == ParenChars(init) + (if c == '(' then [ParenOpen] else if c == ')' then [ParenClose] else []);
    }
  }

  /** One character adds to the tokens the parenthesis it is, if any. */
  lemma StepParens(st: LexState, c: char)
    requires StepChar(st, c).Scanning?
    ensures Parens(StepChar(st, c).state.tokens)
         == Parens(st.tokens) + (if c == '(' then [ParenOpen] else if c == ')' then [ParenClose] else [])
  {
    var token := if IsWhitespace(c) && !st.inString then None
                 else if c == '(' then Some(ParenOpen)
                 else if c == ')' then Some(ParenClose)
                 else None;
    if (IsWhitespace(c) && !st.inString) || c == '(' || c == ')' {
      assert StepChar(st, c) == Flushed(st, token);
      FlushedParens(st, token);
      SingleParen(token);
    }
  }

  lemma FlushedParens(st: LexState, token: Option<Lexem>)
    requires Flushed(st, token).Scanning?
    ensures Parens(Flushed(st, token).state.tokens) == Parens(st.tokens) + Parens(TokenList(token))
  {
    FlushParens(st, token);
  }

  lemma SingleParen(token: Option<Lexem>)
    ensures token == Some(ParenOpen) ==> Parens(TokenList(token)) == [ParenOpen]
    ensures token == Some(ParenClose) ==> Parens(TokenList(token)) == [ParenClose]
    ensures token == None ==> Parens(TokenList(token)) == []
  {
    if token.Some? {
      assert TokenList(token)[..0] == [];
    }
  }

  function QuoteCount(s: string): nat
  {
    if s == [] then 0 else QuoteCount(s[..|s| - 1]) + (if s[|s| - 1] == '"' then 1 else 0)
  }

  /** Every '"' toggles the in-string flag, so the flag tracks the parity of the quotes seen. */
  lemma {:induction false} QuoteParity(st: LexState, s: string)
    requires ScanChars(st, s).Scanning?
    ensures ScanChars(st, s).state.inString == (st.inString != (QuoteCount(s) % 2 == 1))
    decreases |s|
  {
    if s != [] {
      var init := s[..|s| - 1];
      var c := s[|s| - 1];
      ScanPrefixScanning(st, s);
      QuoteParity(st, init);
      var mid := ScanChars(st, init).state;
      ScanLast(st, s);
      StepQuote(mid, c);
      assert ScanChars(st, s).state.inString == (mid.inString != (c == '"'));
      assert QuoteCount(s) == QuoteCount(init) + (if c == '"' then 1 else 0);
      ParityStep(QuoteCount(init), c == '"');
    }
  }

  lemma ParityStep(n: nat, b: bool)
    ensures ((n + if b then 1 else 0) % 2 == 1) == ((n % 2 == 1) != b)
  {
  }

  /** Only a '"' changes the in-string flag; a flush leaves it alone. */
  lemma StepQuote(st: LexState, c: char)
    requires StepChar(st, c).Scanning?
    ensures StepChar(st, c).state.inString == (st.inString != (c == '"'))
  {
  }

  /** An identifier token's text: non-empty, and free of '"', '(' and ')'. */
  predicate IdentifierText(name: string)
  {
    |name| > 0 && '"' !in name && '(' !in name && ')' !in name
  }

  predicate IdentifiersWellFormed(ts: seq<Lexem>)
  {
    forall i :: 0 <= i < |ts| && ts[i].Identifier? ==> IdentifierText(ts[i].name)
  }

  predicate NoParens(s: string)
  {
    '(' !in s && ')' !in s
  }

  lemma FlushIdentifiers(st: LexState, token: Option<Lexem>)
    requires IdentifiersWellFormed(st.tokens) && NoParens(st.current)
    requires token.Some? ==> !token.value.Identifier?
    ensures IdentifiersWellFormed(Flush(st, token).0.tokens)
  {
  }

  /** Parentheses never enter the buffer, so identifier tokens never hold one (nor a '"'). */
  lemma {:induction false} ScanIdentifiers(st: LexState, s: string)
    requires IdentifiersWellFormed(st.tokens) && NoParens(st.current)
    ensures IdentifiersWellFormed(ScanChars(st, s).state.tokens)
    ensures NoParens(ScanChars(st, s).state.current)
    decreases |s|
  {
    if s != [] {
      ScanIdentifiers(st, s[..|s| - 1]);
      var r := ScanChars(st, s[..|s| - 1]);
      if r.Scanning? {
        var c := s[|s| - 1];
        if IsWhitespace(c) && !r.state.inString {
          FlushIdentifiers(r.state, None);
        } else if c == '(' {
          FlushIdentifiers(r.state, Some(ParenOpen));
        } else if c == ')' {
          FlushIdentifiers(r.state, Some(ParenClose));
        }
      }
    }
  }

  /** Whatever `lex` returns, the identifier tokens of a fresh lexer are well formed. */
  lemma LexIdentifiers(source: string)
    ensures IdentifiersWellFormed(LexSpec(Fresh, source).1.tokens)
  {
    ScanIdentifiers(Fresh, source);
    var r := ScanChars(Fresh, source);
    if r.Scanning? {
      FlushIdentifiers(r.state, None);
    }
  }

  /** Lexing the empty text yields no tokens and succeeds. */
  lemma LexEmpty()
    ensures LexSpec(Fresh, "") == (LexOk, Fresh)
  {
    assert ScanChars(Fresh, "") == Scanning(Fresh);
    FlushEmptyBuffer(Fresh, None);
    assert Fresh.tokens + TokenList(None) == Fresh.tokens;
    assert Flush(Fresh, None) == (Fresh, true);
  }

  /** Whitespace inside a quoted run stays in the buffer; outside it flushes. */
  lemma WhitespaceInString(st: LexState, c: char)
    requires IsWhitespace(c)
    ensures st.inString ==> StepChar(st, c) == Scanning(st.(current := st.current + [c]))
    ensures !st.inString ==> StepChar(st, c) == Flushed(st, None)
  {
  }
}
