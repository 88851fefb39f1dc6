/**
 * The recursive-descent parser (src/parser.rs): tokens to an AST.
 *
 * A group `( operator operand* )` becomes an application. When the operator
 * is itself an application, the group is flattened (curried calls merge);
 * when no operator can be read, the group falls back to an application of
 * the `ι` keyword. A missing `)` at the end of the input is tolerated.
 */
module Parser {
  import opened Wrappers
  import opened Keywords
  import L = Literals
  import opened Lexer

  datatype Expr =
    | App(operator: Expr, operands: seq<Expr>)
    | Var(name: string)
    | Lit(lit: L.Literal)
    | Kw(keyword: Keyword)

  /** `Display for Expr`: `(op a b …)`, each operand preceded by one space. */
  function Show(e: Expr): (s: string)
    ensures e.App? ==> |s| >= 2 && s[0] == '(' && s[|s| - 1] == ')'
  {
    match e
    case App(op, xs) => "(" + Show(op) + ShowOperands(xs) + ")"
    case Var(name) => name
    case Lit(l) => L.Display(l)
    case Kw(k) => Spelling(k)
  }

  /** The left fold of `Display for Expr` over the operands. */
  function ShowOperands(xs: seq<Expr>): (s: string)
    ensures xs == [] <==> s == ""
    ensures xs != [] ==> s[0] == ' '
    ensures |s| >= |xs|
  {
    if xs == [] then "" else ShowOperands(xs[..|xs| - 1]) + " " + Show(xs[|xs| - 1])
  }

  /** The grammar rule that rejected a token (its error message names it). */
  datatype Production = KeywordRule | LiteralRule | OpenRule | VarRule | OperatorRule

  datatype ParseError =
    | EndOfInput(position: nat)
    | Unexpected(rule: Production, token: Lexem)

  /** `Result<ParseResult<T>, String>`, plus the panic of `parse_operator`'s `unwrap()`. */
  datatype Parsed<T> = Parsed(value: T, next: nat) | NoParse(error: ParseError) | ParsePanic

  /**
   * The shape of every parsed expression: an application's operator is a
   * variable or a keyword, never a literal or another application.
   */
  predicate WellHeaded(e: Expr)
  {
    match e
    case App(op, xs) => (op.Var? || op.Kw?) && forall i :: 0 <= i < |xs| ==> WellHeaded(xs[i])
    case _ => true
  }

  /** Tokens left from `pos` on: what every descent step shrinks. */
  function Remaining(toks: seq<Lexem>, pos: nat): nat
  {
    if pos < |toks| then |toks| - pos else 0
  }

  // ---------------------------------------------------------------------
  // Single-token rules
  // ---------------------------------------------------------------------

  /** `parse_keyword`. */
  function ParseKeyword(toks: seq<Lexem>, pos: nat): (r: Parsed<Expr>)
    ensures r.Parsed? <==> pos < |toks| && toks[pos].KeywordToken?
    ensures r.Parsed? ==> r.value == Kw(toks[pos].keyword) && r.next == pos + 1
    ensures r.NoParse? && pos >= |toks| ==> r.error == EndOfInput(pos)
    ensures !r.ParsePanic?
  {
    if pos >= |toks| then NoParse(EndOfInput(pos))
    else match toks[pos]
      case KeywordToken(k) => Parsed(Kw(k), pos + 1)
      case t => NoParse(Unexpected(KeywordRule, t))
  }

  /** `parse_literal`. */
  function ParseLiteral(toks: seq<Lexem>, pos: nat): (r: Parsed<Expr>)
    ensures r.Parsed? <==> pos < |toks| && toks[pos].LiteralToken?
    ensures r.Parsed? ==> r.value == Lit(toks[pos].literal) && r.next == pos + 1
    ensures !r.ParsePanic?
  {
    if pos >= |toks| then NoParse(EndOfInput(pos))
    else match toks[pos]
      case LiteralToken(l) => Parsed(Lit(l), pos + 1)
      case t => NoParse(Unexpected(LiteralRule, t))
  }

  /** `parse_var`. */
  function ParseVar(toks: seq<Lexem>, pos: nat): (r: Parsed<Expr>)
    ensures r.Parsed? <==> pos < |toks| && toks[pos].Identifier?
    ensures r.Parsed? ==> r.value == Var(toks[pos].name) && r.next == pos + 1
    ensures !r.ParsePanic?
  {
    if pos >= |toks| then NoParse(EndOfInput(pos))
    else match toks[pos]
      case Identifier(name) => Parsed(Var(name), pos + 1)
      case t => NoParse(Unexpected(VarRule, t))
  }

  // ---------------------------------------------------------------------
  // The descent
  // ---------------------------------------------------------------------

  /** `parse`: a keyword, a literal, a variable or a group, tried in that order. */
  function Parse(toks: seq<Lexem>, pos: nat): (r: Parsed<Expr>)
    ensures r.Parsed? ==> r.next > pos && WellHeaded(r.value)
    decreases Remaining(toks, pos), 2
  {
    var k := ParseKeyword(toks, pos);
    if k.Parsed? then k
    else
      var l := ParseLiteral(toks, pos);
      if l.Parsed? then l
      else
        var v := ParseVar(toks, pos);
        if v.Parsed? then v
        else ParseExpression(toks, pos)
  }

  /**
   * `parse_operator`: a variable, a keyword or a group. When none applies it
   * reports the token at `pos`, and `unwrap()` panics if there is none.
   */
  function ParseOperator(toks: seq<Lexem>, pos: nat): (r: Parsed<Expr>)
    ensures r.Parsed? ==> r.next > pos && WellHeaded(r.value)
    decreases Remaining(toks, pos), 2
  {
    var v := ParseVar(toks, pos);
    if v.Parsed? then v
    else
      var k := ParseKeyword(toks, pos);
      if k.Parsed? then k
      else
        match ParseExpression(toks, pos)
        case Parsed(e, n) => Parsed(e, n)
        case ParsePanic => ParsePanic
        case NoParse(_) =>
          if pos < |toks| then NoParse(Unexpected(OperatorRule, toks[pos])) else ParsePanic
  }

  /**
   * `parse_expression`: `(`, then an operator and the operand list. An
   * operator that is an application is merged with the new operands; a
   * group with no operator is `ι` applied to its items, unless it has none.
   */
  function ParseExpression(toks: seq<Lexem>, pos: nat): (r: Parsed<Expr>)
    ensures r.Parsed? ==> r.next > pos && r.value.App? && WellHeaded(r.value)
    decreases Remaining(toks, pos), 1
  {
    if pos >= |toks| then NoParse(EndOfInput(pos))
    else if toks[pos] != ParenOpen then NoParse(Unexpected(OpenRule, toks[pos]))
    else
      match ParseOperator(toks, pos + 1)
      case Parsed(op, n) =>
        (match ParseItems(toks, n)
         case Parsed(xs, m) =>
           if op.App? then Parsed(App(op.operator, op.operands + xs), m) else Parsed(App(op, xs), m)
         case NoParse(err) => NoParse(err)
         case ParsePanic => ParsePanic)
      case NoParse(err) =>
        (match ParseItems(toks, pos + 1)
         case Parsed(xs, m) => if xs == [] then NoParse(err) else Parsed(App(Kw(Id), xs), m)
         case NoParse(err2) => NoParse(err2)
         case ParsePanic => ParsePanic)
      case ParsePanic => ParsePanic
  }

  /**
   * `parse_list`: expressions up to a `)` or the end of the input; the next
   * position is one past the stopping point either way.
   */
  function ParseItems(toks: seq<Lexem>, pos: nat): (r: Parsed<seq<Expr>>)
    ensures r.Parsed? ==> r.next > pos && forall i :: 0 <= i < |r.value| ==> WellHeaded(r.value[i])
    decreases Remaining(toks, pos), 3
  {
    if pos >= |toks| || toks[pos] == ParenClose then Parsed([], pos + 1)
    else
      match Parse(toks, pos)
      case Parsed(e, n) =>
        (match ParseItems(toks, n)
         case Parsed(es, m) => Parsed([e] + es, m)
         case NoParse(err) => NoParse(err)
         case ParsePanic => ParsePanic)
      case NoParse(err) => NoParse(err)
      case ParsePanic => ParsePanic
  }

  /** Puts `es` in front of a successful list result. */
  function Prepend(es: seq<Expr>, r: Parsed<seq<Expr>>): Parsed<seq<Expr>>
  {
    match r
    case Parsed(v, n) => Parsed(es + v, n)
    case NoParse(err) => NoParse(err)
    case ParsePanic => ParsePanic
  }

  lemma PrependTwice(a: seq<Expr>, b: seq<Expr>, r: Parsed<seq<Expr>>)
    ensures Prepend(a, Prepend(b, r)) == Prepend(a + b, r)
  {
    if r.Parsed? {
      assert a + (b + r.value) == (a + b) + r.value;
    }
  }

  /** `parse_list` with its `while let` loop. */
  method ParseList(toks: seq<Lexem>, pos: nat) returns (r: Parsed<seq<Expr>>)
    ensures r == ParseItems(toks, pos)
  {
    var expressions: seq<Expr> := [];
    var position: nat := pos;
    if ParseItems(toks, pos).Parsed? {
      assert [] + ParseItems(toks, pos).value == ParseItems(toks, pos).value;
    }
    while position < |toks| && toks[position] != ParenClose
      invariant ParseItems(toks, pos) == Prepend(expressions, ParseItems(toks, position))
      decreases Remaining(toks, position)
    {
      var p := Parse(toks, position);
      match p {
        case NoParse(err) =>
          return NoParse(err);
        case ParsePanic =>
          return ParsePanic;
        case Parsed(e, n) =>
          PrependTwice(expressions, [e], ParseItems(toks, n));
          position := n;
          expressions := expressions + [e];
      }
    }
    assert expressions + [] == expressions;
    return Parsed(expressions, position + 1);
  }

  /** `run_parser`: no tokens read as the nil literal; otherwise parse from 0. */
  function RunParser(toks: seq<Lexem>): (r: Parsed<Expr>)
    ensures toks == [] ==> r == Parsed(Lit(L.Nil), 1)
    ensures r.Parsed? ==> WellHeaded(r.value)
  {
    if toks == [] then Parsed(Lit(L.Nil), 1) else Parse(toks, 0)
  }

  /** The `parse!` macro: lex a fresh lexer, run the parser; each `unwrap()` failure is `None`. */
  function ParseSource(text: string): (r: Option<Expr>)
    ensures r.Some? ==> WellHeaded(r.value)
  {
    var (outcome, st) := LexSpec(Fresh, text);
    if outcome != LexOk then None
    else
      match RunParser(st.tokens)
      case Parsed(e, _) => Some(e)
      case _ => None
  }

  // ---------------------------------------------------------------------
  // Printing back to tokens
  // ---------------------------------------------------------------------

  /** The token sequence an expression is written as. */
  function Tokens(e: Expr): (ts: seq<Lexem>)
    ensures |ts| > 0 && ts[0] != ParenClose
  {
    match e
    case Var(n) => [Identifier(n)]
    case Lit(l) => [LiteralToken(l)]
    case Kw(k) => [KeywordToken(k)]
    case App(op, xs) => [ParenOpen] + Tokens(op) + ItemTokens(xs) + [ParenClose]
  }

  function ItemTokens(xs: seq<Expr>): seq<Lexem>
  {
    if xs == [] then [] else Tokens(xs[0]) + ItemTokens(xs[1..])
  }

  lemma Window(toks: seq<Lexem>, p: nat, a: seq<Lexem>, b: seq<Lexem>)
    requires p + |a| + |b| <= |toks| && toks[p..p + |a| + |b|] == a + b
    ensures toks[p..p + |a|] == a
    ensures toks[p + |a|..p + |a| + |b|] == b
  {
    assert toks[p..p + |a|] == toks[p..p + |a| + |b|][..|a|];
    assert toks[p + |a|..p + |a| + |b|] == toks[p..p + |a| + |b|][|a|..];
  }

  /** Parsing the tokens of a well-headed expression gives it back and consumes exactly those tokens. */
  lemma {:induction false} ParseTokens(toks: seq<Lexem>, p: nat, e: Expr)
    requires WellHeaded(e)
    requires p + |Tokens(e)| <= |toks| && toks[p..p + |Tokens(e)|] == Tokens(e)
    ensures Parse(toks, p) == Parsed(e, p + |Tokens(e)|)
    decreases e, 2
  {
    assert toks[p] == Tokens(e)[0];
    match e
    case App(op, xs) =>
      ParseGroupTokens(toks, p, op, xs);
    case Var(n) =>
      assert ParseVar(toks, p) == Parsed(e, p + 1);
    case Lit(l) =>
      assert ParseLiteral(toks, p) == Parsed(e, p + 1);
    case Kw(k) =>
      assert ParseKeyword(toks, p) == Parsed(e, p + 1);
  }

  /** The group case of `ParseTokens`: `( op operands… )` reads back as the application. */
  lemma {:induction false} ParseGroupTokens(toks: seq<Lexem>, p: nat, op: Expr, xs: seq<Expr>)
    requires WellHeaded(App(op, xs))
    requires p + |Tokens(App(op, xs))| <= |toks| && toks[p..p + |Tokens(App(op, xs))|] == Tokens(App(op, xs))
    ensures ParseExpression(toks, p) == Parsed(App(op, xs), p + |Tokens(App(op, xs))|)
    ensures Parse(toks, p) == ParseExpression(toks, p)
    decreases xs, 1
  {
    GroupWindow(toks, p, op, xs);
    OperatorToken(toks, p + 1, op);
    ParseItemTokens(toks, p + 2, xs);
  }

  /**
   * Curried groups flatten: a group whose operator is itself the group of a
   * well-headed application `(h ys…)`, followed by operands `xs…`, reads as
   * the single application `(h ys… xs…)` and consumes the whole group.
   */
  lemma CurriedGroupTokens(toks: seq<Lexem>, p: nat, h: Expr, ys: seq<Expr>, xs: seq<Expr>)
    requires WellHeaded(App(h, ys)) && forall i :: 0 <= i < |xs| ==> WellHeaded(xs[i])
    requires var w := [ParenOpen] + Tokens(App(h, ys)) + ItemTokens(xs) + [ParenClose];
             p + |w| <= |toks| && toks[p..p + |w|] == w
    ensures ParseExpression(toks, p)
         == Parsed(App(h, ys + xs), p + |Tokens(App(h, ys))| + |ItemTokens(xs)| + 2)
  {
    var inner := Tokens(App(h, ys));
    var items := ItemTokens(xs);
    var n := p + 1 + |inner|;
    AppTokensOpen(h, ys);
    CurriedWindow(toks, p, inner, items);
    ParseGroupTokens(toks, p + 1, h, ys);
    GroupOperator(toks, p + 1);
    ParseItemTokens(toks, n, xs);
    ExpressionStep(toks, p, App(h, ys), n, xs, n + |items| + 1);
  }

  lemma AppTokensOpen(h: Expr, ys: seq<Expr>)
    ensures Tokens(App(h, ys))[0] == ParenOpen
  {
  }

  /** `parse_expression` once its operator and operands are read. */
  lemma ExpressionStep(toks: seq<Lexem>, p: nat, op: Expr, n: nat, xs: seq<Expr>, m: nat)
    requires p < |toks| && toks[p] == ParenOpen
    requires ParseOperator(toks, p + 1) == Parsed(op, n) && ParseItems(toks, n) == Parsed(xs, m)
    ensures ParseExpression(toks, p)
         == if op.App? then Parsed(App(op.operator, op.operands + xs), m) else Parsed(App(op, xs), m)
  {
  }

  /** At a `(`, the operator rule reads a group. */
  lemma GroupOperator(toks: seq<Lexem>, q: nat)
    requires q < |toks| && toks[q] == ParenOpen && ParseExpression(toks, q).Parsed?
    ensures ParseOperator(toks, q) == ParseExpression(toks, q)
  {
    assert !ParseVar(toks, q).Parsed? && !ParseKeyword(toks, q).Parsed?;
  }

  /** Where the parts of a curried group's tokens sit. */
  lemma CurriedWindow(toks: seq<Lexem>, p: nat, inner: seq<Lexem>, items: seq<Lexem>)
    requires |inner| > 0 && inner[0] == ParenOpen
    requires var w := [ParenOpen] + inner + items + [ParenClose];
             p + |w| <= |toks| && toks[p..p + |w|] == w
    ensures toks[p] == ParenOpen && toks[p + 1] == ParenOpen
    ensures toks[p + 1..p + 1 + |inner|] == inner
    ensures toks[p + 1 + |inner|..p + 1 + |inner| + |items|] == items
    ensures toks[p + 1 + |inner| + |items|] == ParenClose
  {
    var w := [ParenOpen] + inner + items + [ParenClose];
    var n := p + 1 + |inner|;
    assert toks[p] == w[0];
    assert toks[p + 1..p + |w|] == w[1..] == inner + (items + [ParenClose]);
    Window(toks, p + 1, inner, items + [ParenClose]);
    assert toks[p + 1] == toks[p + 1..p + 1 + |inner|][0];
    Window(toks, n, items, [ParenClose]);
    assert toks[n + |items|] == toks[n + |items|..n + |items| + 1][0];
  }

  /** Where the parts of a group's tokens sit. */
  lemma GroupWindow(toks: seq<Lexem>, p: nat, op: Expr, xs: seq<Expr>)
    requires op.Var? || op.Kw?
    requires p + |Tokens(App(op, xs))| <= |toks| && toks[p..p + |Tokens(App(op, xs))|] == Tokens(App(op, xs))
    ensures |Tokens(op)| == 1 && |Tokens(App(op, xs))| == |ItemTokens(xs)| + 3
    ensures toks[p] == ParenOpen && toks[p + 1] == Tokens(op)[0]
    ensures toks[p + 2..p + 2 + |ItemTokens(xs)|] == ItemTokens(xs)
    ensures toks[p + 2 + |ItemTokens(xs)|] == ParenClose
  {
    var t := Tokens(App(op, xs));
    var items := ItemTokens(xs);
    var head := Tokens(op)[0];
    assert Tokens(op) == [head];
    assert t == [ParenOpen, head] + items + [ParenClose];
    assert t[2..2 + |items|] == items;
    assert t[0] == ParenOpen && t[1] == head && t[2 + |items|] == ParenClose;
    var w := toks[p..p + |t|];
    assert toks[p] == w[0] && toks[p + 1] == w[1] && toks[p + 2 + |items|] == w[2 + |items|];
    forall k | 0 <= k < |items|
      ensures toks[p + 2 + k] == items[k]
    {
      assert toks[p + 2 + k] == w[2 + k];
    }
  }

  /** A variable's or keyword's token reads back as the operator. */
  lemma OperatorToken(toks: seq<Lexem>, q: nat, op: Expr)
    requires op.Var? || op.Kw?
    requires q < |toks| && toks[q] == Tokens(op)[0]
    ensures ParseOperator(toks, q) == Parsed(op, q + 1)
  {
    if op.Var? {
      assert ParseVar(toks, q) == Parsed(op, q + 1);
    } else {
      assert ParseKeyword(toks, q) == Parsed(op, q + 1);
    }
  }

  /** The operand tokens followed by `)` read back as exactly those operands. */
  lemma {:induction false} ParseItemTokens(toks: seq<Lexem>, p: nat, xs: seq<Expr>)
    requires forall i :: 0 <= i < |xs| ==> WellHeaded(xs[i])
    requires p + |ItemTokens(xs)| < |toks| && toks[p..p + |ItemTokens(xs)|] == ItemTokens(xs)
    requires toks[p + |ItemTokens(xs)|] == ParenClose
    ensures ParseItems(toks, p) == Parsed(xs, p + |ItemTokens(xs)| + 1)
    decreases xs, 0
  {
    if xs != [] {
      var t0 := Tokens(xs[0]);
      var rest := ItemTokens(xs[1..]);
      assert ItemTokens(xs) == t0 + rest;
      Window(toks, p, t0, rest);
      assert toks[p] == t0[0];
      ParseTokens(toks, p, xs[0]);
      var n := p + |t0|;
      assert Parse(toks, p) == Parsed(xs[0], n);
      ParseItemTokens(toks, n, xs[1..]);
      assert ParseItems(toks, n) == Parsed(xs[1..], n + |rest| + 1);
      assert [xs[0]] + xs[1..] == xs;
    }
  }

  // ---------------------------------------------------------------------
  // Shapes the parser gives to groups
  // ---------------------------------------------------------------------

  /** `((f a) b)` is read as the single application `(f a b)`. */
  lemma CurriedGroupFlattens()
    ensures Parse([ParenOpen, ParenOpen, Identifier("f"), Identifier("a"), ParenClose, Identifier("b"), ParenClose], 0)
         == Parsed(App(Var("f"), [Var("a"), Var("b")]), 7)
  {
    var toks := [ParenOpen, ParenOpen, Identifier("f"), Identifier("a"), ParenClose, Identifier("b"), ParenClose];
    var inner := App(Var("f"), [Var("a")]);
    ParseTokens(toks, 1, inner);
    assert ParseItems(toks, 6) == Parsed([], 7);
    assert Parse(toks, 5) == Parsed(Var("b"), 6);
    assert [Var("b")] + [] == [Var("b")];
    assert ParseItems(toks, 5) == Parsed([Var("b")], 7);
    assert ParseOperator(toks, 1) == Parsed(inner, 5);
    assert [Var("a")] + [Var("b")] == [Var("a"), Var("b")];
    assert ParseExpression(toks, 0) == Parsed(App(Var("f"), [Var("a"), Var("b")]), 7);
  }

  /** A group that opens with a literal has no operator and becomes an application of `ι`. */
  lemma LiteralGroupIsIdentity(a: L.Literal, b: L.Literal)
    ensures Parse([ParenOpen, LiteralToken(a), LiteralToken(b), ParenClose], 0)
         == Parsed(App(Kw(Id), [Lit(a), Lit(b)]), 4)
  {
    var toks := [ParenOpen, LiteralToken(a), LiteralToken(b), ParenClose];
    assert ParseOperator(toks, 1) == NoParse(Unexpected(OperatorRule, LiteralToken(a)));
    assert ParseItems(toks, 3) == Parsed([], 4);
    assert Parse(toks, 2) == Parsed(Lit(b), 3);
    assert [Lit(b)] + [] == [Lit(b)];
    assert ParseItems(toks, 2) == Parsed([Lit(b)], 4);
    assert Parse(toks, 1) == Parsed(Lit(a), 2);
    assert [Lit(a)] + [Lit(b)] == [Lit(a), Lit(b)];
    assert ParseItems(toks, 1) == Parsed([Lit(a), Lit(b)], 4);
  }

  /** `()` is an error: no operator and no operands. */
  lemma EmptyGroupRejected()
    ensures Parse([ParenOpen, ParenClose], 0) == NoParse(Unexpected(OperatorRule, ParenClose))
  {
    var toks := [ParenOpen, ParenClose];
    assert ParseOperator(toks, 1) == NoParse(Unexpected(OperatorRule, ParenClose));
  }

  /** A lone `(` makes `parse_operator` unwrap a missing token: a panic. */
  lemma LoneOpenPanics()
    ensures Parse([ParenOpen], 0) == ParsePanic
  {
    var toks := [ParenOpen];
    assert ParseExpression(toks, 1) == NoParse(EndOfInput(1));
  }

  /** A group left open at the end of the input still parses, as if closed. */
  lemma MissingCloseTolerated()
    ensures Parse([ParenOpen, Identifier("f"), Identifier("a")], 0) == Parsed(App(Var("f"), [Var("a")]), 4)
  {
    var toks := [ParenOpen, Identifier("f"), Identifier("a")];
    assert ParseItems(toks, 3) == Parsed([], 4);
    assert Parse(toks, 2) == Parsed(Var("a"), 3);
    assert [Var("a")] + [] == [Var("a")];
    assert ParseItems(toks, 2) == Parsed([Var("a")], 4);
    assert ParseOperator(toks, 1) == Parsed(Var("f"), 2);
  }

  /** An application prints as its operator and each operand after one space, all in parentheses. */
  lemma ShowApplication()
    ensures Show(App(Var("f"), [])) == "(f)"
    ensures Show(App(Var("f"), [Var("a"), Var("b")])) == "(f a b)"
  {
    assert [Var("a"), Var("b")][..1] == [Var("a")];
    assert [Var("a")][..0] == [];
    assert ShowOperands([Var("a"), Var("b")]) == " a b";
  }

  /** The Ω keyword and the nil literal print differently, so output never confuses them. */
  lemma NilKeywordIsNotNilLiteral()
    ensures Show(Kw(Nil)) == "Ω" && Show(Lit(L.Nil)) == "Φ"
    ensures Show(Kw(Nil)) != Show(Lit(L.Nil))
  {
  }

  /** An empty token list reads as nil. */
  lemma NoTokensIsNil()
    ensures RunParser([]) == Parsed(Lit(L.Nil), 1)
    ensures ParseSource("") == Some(Lit(L.Nil))
  {
    LexEmpty();
  }
}
