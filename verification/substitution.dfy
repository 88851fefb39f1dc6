/**
 * `Runtime::replace_free` (src/evaluator.rs): substituting a value for a
 * name in an AST, without touching the runtime's stack.
 *
 * The rewrite stops at a binder (`δ`, `λ`, `ε`) whose first operand is the
 * name, and does not look inside an application headed by any other keyword.
 * An application's operator is replaced only when it is the name itself.
 */
module Substitution {
  import opened Keywords
  import opened Parser
  import L = Literals

  function ReplaceFree(name: string, value: Expr, ast: Expr): (r: Expr)
    ensures ast.App? ==> r.App? && |r.operands| == |ast.operands|
    ensures ast.App? ==> r.operator == if ast.operator == Var(name) then value else ast.operator
    ensures ast == Var(name) ==> r == value
    ensures !ast.App? && ast != Var(name) ==> r == ast
    decreases ast, 1
  {
    match ast
    case App(op, xs) =>
      if op == Var(name) then App(value, ReplaceEach(name, value, xs))
      else if op.Kw? then
        if IsBinder(op.keyword) && !(|xs| > 0 && xs[0] == Var(name)) then App(op, ReplaceEach(name, value, xs))
        else ast
      else App(op, ReplaceEach(name, value, xs))
    case Var(n) => if n == name then value else ast
    case _ => ast
  }

  /** The `map`/`collect` over the operands. */
  function ReplaceEach(name: string, value: Expr, xs: seq<Expr>): (r: seq<Expr>)
    ensures |r| == |xs|
    ensures forall i :: 0 <= i < |xs| ==> r[i] == ReplaceFree(name, value, xs[i])
    decreases xs, 0
  {
    seq(|xs|, i requires 0 <= i < |xs| => ReplaceFree(name, value, xs[i]))
  }

  /**
   * Whether `name` occurs where `replace_free` rewrites it: as a bare
   * variable, as an operator, or below a head it descends into.
   */
  predicate FreeIn(name: string, e: Expr)
  {
    match e
    case Var(n) => n == name
    case App(op, xs) =>
      if op == Var(name) then true
      else if op.Kw? then
        IsBinder(op.keyword) && !(|xs| > 0 && xs[0] == Var(name))
        && exists i :: 0 <= i < |xs| && FreeIn(name, xs[i])
      else exists i :: 0 <= i < |xs| && FreeIn(name, xs[i])
    case _ => false
  }

  /** Where the name does not occur free, substitution changes nothing. */
  lemma {:induction false} ReplaceNotFree(name: string, value: Expr, ast: Expr)
    requires !FreeIn(name, ast)
    ensures ReplaceFree(name, value, ast) == ast
    decreases ast
  {
    match ast
    case App(op, xs) =>
      if !op.Kw? || (IsBinder(op.keyword) && !(|xs| > 0 && xs[0] == Var(name))) {
        forall i | 0 <= i < |xs|
          ensures ReplaceFree(name, value, xs[i]) == xs[i]
        {
          ReplaceNotFree(name, value, xs[i]);
        }
        assert ReplaceEach(name, value, xs) == xs;
      }
    case _ =>
  }

  /** After substituting a value that does not mention the name, the name is no longer free. */
  lemma {:induction false} ReplaceRemoves(name: string, value: Expr, ast: Expr)
    requires !FreeIn(name, value)
    ensures !FreeIn(name, ReplaceFree(name, value, ast))
    decreases ast
  {
    match ast
    case App(op, xs) =>
      forall i | 0 <= i < |xs|
        ensures !FreeIn(name, ReplaceFree(name, value, xs[i]))
      {
        ReplaceRemoves(name, value, xs[i]);
      }
    case _ =>
  }

  /** Substituting twice is substituting once, when the value does not mention the name. */
  lemma ReplaceIdempotent(name: string, value: Expr, ast: Expr)
    requires !FreeIn(name, value)
    ensures ReplaceFree(name, value, ReplaceFree(name, value, ast)) == ReplaceFree(name, value, ast)
  {
    ReplaceRemoves(name, value, ast);
    ReplaceNotFree(name, value, ReplaceFree(name, value, ast));
  }

  /** A binder of the name shadows it: the whole application is left as it is. */
  lemma BinderShadows(name: string, value: Expr, k: Keyword, rest: seq<Expr>)
    requires IsBinder(k)
    ensures ReplaceFree(name, value, App(Kw(k), [Var(name)] + rest)) == App(Kw(k), [Var(name)] + rest)
  {
  }

  /** An application headed by `ι`, `_`, `Ω` or `->` is left as it is; its operands are not visited. */
  lemma OtherKeywordOpaque(name: string, value: Expr, k: Keyword, xs: seq<Expr>)
    requires !IsBinder(k)
    ensures ReplaceFree(name, value, App(Kw(k), xs)) == App(Kw(k), xs)
  {
  }

  // ---------------------------------------------------------------------
  // The unit tests of `replace_free`, on the trees `parse!` builds
  // ---------------------------------------------------------------------

  const One := Lit(L.Num("1"))

  /** `(x (λ x x) x)` with x := 1 gives `(1 (λ x x) 1)`. */
  lemma ReplaceFreeLambdaTest()
    ensures var src := App(Var("x"), [App(Kw(Lambda), [Var("x"), Var("x")]), Var("x")]);
            ReplaceFree("x", One, src) == App(One, [App(Kw(Lambda), [Var("x"), Var("x")]), One])
  {
  }

  /** The tree of `ReplaceFreeLambdaTest` prints as the test expects. */
  lemma ReplaceFreeLambdaTestPrints()
    ensures Show(App(One, [App(Kw(Lambda), [Var("x"), Var("x")]), One])) == "(1 (λ x x) 1)"
  {
    var inner := App(Kw(Lambda), [Var("x"), Var("x")]);
    ShowLambdaXX();
    var xs := [inner, One];
    assert xs[..1] == [inner];
    assert [inner][..0] == [];
    assert ShowOperands(xs) == " (λ x x) 1";
  }

  lemma ShowLambdaXX()
    ensures Show(App(Kw(Lambda), [Var("x"), Var("x")])) == "(λ x x)"
  {
    assert [Var("x"), Var("x")][..1] == [Var("x")];
    assert [Var("x")][..0] == [];
    assert ShowOperands([Var("x"), Var("x")]) == " x x";
  }

  /** `(f (λ f (f x)) 5)` with f := `(λ _ 5)` replaces only the head. */
  lemma ReplaceFreeLambdaHeadTest()
    ensures var five := Lit(L.Num("5"));
            var shadow := App(Kw(Lambda), [Var("f"), App(Var("f"), [Var("x")])]);
            ReplaceFree("f", App(Kw(Lambda), [Kw(Ignore), five]), App(Var("f"), [shadow, five]))
            == App(App(Kw(Lambda), [Kw(Ignore), five]), [shadow, five])
  {
  }

  /** `(x (δ x x) y x)` with x := 1 gives `(1 (δ x x) y 1)`. */
  lemma ReplaceFreeDefTest()
    ensures ReplaceFree("x", One, App(Var("x"), [App(Kw(Def), [Var("x"), Var("x")]), Var("y"), Var("x")]))
            == App(One, [App(Kw(Def), [Var("x"), Var("x")]), Var("y"), One])
  {
  }

  /** `(δ f (λ x y x))` with y := ι gives `(δ f (λ x ι x))`. */
  lemma ReplaceFreeNestedBinderTest()
    ensures ReplaceFree("y", Kw(Id), App(Kw(Def), [Var("f"), App(Kw(Lambda), [Var("x"), Var("y"), Var("x")])]))
            == App(Kw(Def), [Var("f"), App(Kw(Lambda), [Var("x"), Kw(Id), Var("x")])])
  {
    var lam := App(Kw(Lambda), [Var("x"), Var("y"), Var("x")]);
    assert ReplaceFree("y", Kw(Id), lam) == App(Kw(Lambda), [Var("x"), Kw(Id), Var("x")]);
  }

  /** The boolean encodings bind p themselves, so p := 42 leaves the tree unchanged. */
  lemma ReplaceFreeShadowedTest()
    ensures var t := App(Kw(Lambda), [Var("p"), App(Kw(Lambda), [Var("q"), Var("p")])]);
            var f := App(Kw(Lambda), [Var("p"), App(Kw(Lambda), [Var("q"), Var("q")])]);
            var src := App(Kw(Def), [Var("true"), t, App(Kw(Def), [Var("false"), f, Var("true")])]);
            ReplaceFree("p", Lit(L.Num("42")), src) == src
  {
    var t := App(Kw(Lambda), [Var("p"), App(Kw(Lambda), [Var("q"), Var("p")])]);
    var f := App(Kw(Lambda), [Var("p"), App(Kw(Lambda), [Var("q"), Var("q")])]);
    var src := App(Kw(Def), [Var("true"), t, App(Kw(Def), [Var("false"), f, Var("true")])]);
    assert !FreeIn("p", t);
    assert !FreeIn("p", f);
    assert !FreeIn("p", App(Kw(Def), [Var("false"), f, Var("true")]));
    assert !FreeIn("p", src);
    ReplaceNotFree("p", Lit(L.Num("42")), src);
  }
}
