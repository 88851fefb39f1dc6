/**
 * What `Runtime::eval` computes (src/evaluator.rs), as functions of the
 * frame stack and the AST. Each returns the outcome together with the stack
 * the call leaves behind; the class `Runtime` (evaluator.dfy) performs the
 * same steps in place and is proved to agree with these functions.
 *
 * `eval` tries five strategies in turn and moves to the next one on an
 * error, keeping whatever the failed strategy did to the stack, so a caller
 * only ever sees the last strategy's error. Rust panics (`unwrap()` of an
 * error, `unimplemented!()`, a missing operand) are the `Abort` outcome.
 * Evaluation need not terminate, so every function takes fuel; running out
 * is the `OutOfFuel` outcome, which, like `Abort`, ends evaluation.
 */
module Semantics {
  import opened Wrappers
  import opened Keywords
  import L = Literals
  import opened Parser
  import opened Frames
  import opened Substitution

  /** The frames of a `Runtime`, innermost last (`VecDeque::push_back`). */
  type Stack = seq<map<string, Expr>>

  // ---------------------------------------------------------------------
  // The stack
  // ---------------------------------------------------------------------

  /** `lookup`: the fold over the frames from the front, a later frame's binding winning. */
  function StackLookup(st: Stack, name: string): (r: Option<Expr>)
    ensures r.Some? ==> exists i :: 0 <= i < |st| && name in st[i] && r.value == st[i][name]
    ensures st != [] && name in st[|st| - 1] ==> r == Some(st[|st| - 1][name])
  {
    if st == [] then None
    else
      match Get(st[|st| - 1], name)
      case Some(v) => Some(v)
      case None => StackLookup(st[..|st| - 1], name)
  }

  /** Innermost-wins: a name resolves to its binding in the last frame that has one. */
  lemma {:induction false} LookupInnermost(st: Stack, name: string)
    ensures StackLookup(st, name).Some? <==> exists i :: 0 <= i < |st| && name in st[i]
    ensures StackLookup(st, name).Some? ==>
      exists i :: 0 <= i < |st| && name in st[i] && StackLookup(st, name).value == st[i][name]
        && forall j :: i < j < |st| ==> name !in st[j]
  {
    if st != [] {
      var init := st[..|st| - 1];
      LookupInnermost(init, name);
      if name in st[|st| - 1] {
        assert 0 <= |st| - 1 < |st| && name in st[|st| - 1];
      } else {
        if exists i :: 0 <= i < |st| && name in st[i] {
          var i :| 0 <= i < |st| && name in st[i];
          assert init[i] == st[i];
        }
        if StackLookup(st, name).Some? {
          var i :| 0 <= i < |init| && name in init[i] && StackLookup(init, name).value == init[i][name]
            && forall j :: i < j < |init| ==> name !in init[j];
          assert st[i] == init[i];
          assert forall j :: i < j < |st| ==> name !in st[j] by {
            forall j | i < j < |st|
              ensures name !in st[j]
            {
              if j < |init| {
                assert st[j] == init[j];
              }
            }
          }
        }
      }
    }
  }

  /**
   * Stack shapes an evaluation may leave: the same frames except the
   * innermost one, whose bindings may have changed; from an empty stack, at
   * most the one frame a `δ` with more than three operands creates.
   */
  predicate SameShape(before: Stack, after: Stack)
  {
    if before == [] then |after| <= 1
    else |after| == |before| && after[..|before| - 1] == before[..|before| - 1]
  }

  /** `push_var`: bind in the innermost frame, creating one only if there is none. */
  function PushedVar(st: Stack, name: string, value: Expr): (r: Stack)
    ensures SameShape(st, r) && |r| > 0
  {
    if st == [] then [map[name := value]]
    else st[..|st| - 1] + [st[|st| - 1][name := value]]
  }

  /** After `push_var`, the name resolves to the new value and every other name as before. */
  lemma PushedVarLookup(st: Stack, name: string, value: Expr, other: string)
    ensures StackLookup(PushedVar(st, name, value), name) == Some(value)
    ensures other != name ==> StackLookup(PushedVar(st, name, value), other) == StackLookup(st, other)
  {
    var r := PushedVar(st, name, value);
    if st != [] {
      assert r[..|r| - 1] == st[..|st| - 1];
    }
  }

  /** `VecDeque::pop_back`, whose result the evaluator ignores. */
  function Pop(st: Stack): Stack
  {
    if st == [] then [] else st[..|st| - 1]
  }

  /** Popping after a call that began with one frame pushed gives back the stack below it. */
  lemma PopRestores(below: Stack, frame: map<string, Expr>, after: Stack)
    requires SameShape(below + [frame], after)
    ensures Pop(after) == below
  {
    assert (below + [frame])[..|below|] == below;
  }

  // ---------------------------------------------------------------------
  // Outcomes
  // ---------------------------------------------------------------------

  /** The five strategies of `eval`, in the order it tries them. */
  datatype Strategy = VarStrategy | LiteralStrategy | KeywordStrategy | NestedStrategy | VarOperatorStrategy

  /** The categories of `Err` messages. */
  datatype EvalError =
    | CannotEvaluate(strategy: Strategy, ast: Expr)
    | CannotEvaluateOperator(strategy: Strategy, operator: Expr)
    | UndefinedVariable(name: string)
    | InvalidVariableName(operand: Expr)
    | DefArity(count: nat)
    | LambdaArity(count: nat)
    | PatternMismatch(expected: L.Literal, actual: Expr)
    | InvalidParameter(operand: Expr)

  /** Why the Rust program panics. */
  datatype Panic =
    | UnwrapError(error: EvalError)
    | Unimplemented(keyword: Keyword)
    | MissingOperand(index: nat)

  datatype Outcome = Done(value: Expr) | Fail(error: EvalError) | Abort(panic: Panic) | OutOfFuel

  /** An outcome that ends the whole evaluation: no strategy is tried after it. */
  predicate Terminal(o: Outcome)
  {
    o.Abort? || o.OutOfFuel?
  }

  /** An outcome and the stack left behind. */
  datatype Evaluated = Evaluated(outcome: Outcome, stack: Stack)

  /** `.unwrap()` on an evaluation: an error becomes a panic. */
  function Unwrapped(r: Evaluated): (u: Evaluated)
    ensures !u.outcome.Fail? && u.stack == r.stack
    ensures r.outcome.Fail? ==> u.outcome == Abort(UnwrapError(r.outcome.error))
    ensures !r.outcome.Fail? ==> u == r
  {
    if r.outcome.Fail? then Evaluated(Abort(UnwrapError(r.outcome.error)), r.stack) else r
  }

  /** `self.stack.pop_back()` after a call; a panic unwinds past it. */
  function Popped(r: Evaluated): Evaluated
  {
    if Terminal(r.outcome) then r else Evaluated(r.outcome, Pop(r.stack))
  }

  /** The only errors `eval` can return: those of its last strategy. */
  predicate Visible(e: EvalError)
  {
    (e.CannotEvaluate? || e.CannotEvaluateOperator?) && e.strategy == VarOperatorStrategy
  }

  // ---------------------------------------------------------------------
  // Evaluation
  // ---------------------------------------------------------------------

  /** `eval`: the five strategies, each tried on the stack the previous one left. */
  function Eval(fuel: nat, st: Stack, ast: Expr): (r: Evaluated)
    ensures r.outcome.Fail? ==> Visible(r.outcome.error)
    ensures !Terminal(r.outcome) ==> SameShape(st, r.stack)
    decreases fuel, 0
  {
    if fuel == 0 then Evaluated(OutOfFuel, st)
    else
      var r1 := EvalVar(fuel - 1, st, ast);
      if !r1.outcome.Fail? then r1
      else
        var r2 := Evaluated(EvalLiteral(ast), r1.stack);
        if !r2.outcome.Fail? then r2
        else
          var r3 := EvalExprKeyword(fuel - 1, r2.stack, ast);
          if !r3.outcome.Fail? then r3
          else
            var r4 := EvalExprNested(fuel - 1, r3.stack, ast);
            if !r4.outcome.Fail? then r4
            else EvalExprVar(fuel - 1, r4.stack, ast)
  }

  /** `eval_var`: a variable evaluates to the evaluation of its binding. */
  function EvalVar(fuel: nat, st: Stack, ast: Expr): (r: Evaluated)
    ensures !Terminal(r.outcome) ==> SameShape(st, r.stack)
    ensures !ast.Var? ==> r == Evaluated(Fail(CannotEvaluate(VarStrategy, ast)), st)
    decreases fuel, 1
  {
    match ast
    case Var(name) =>
      (match StackLookup(st, name)
       case Some(e) => Eval(fuel, st, e)
       case None => Evaluated(Fail(UndefinedVariable(name)), st))
    case _ => Evaluated(Fail(CannotEvaluate(VarStrategy, ast)), st)
  }

  /** `eval_literal`: a literal is its own value. */
  function EvalLiteral(ast: Expr): (o: Outcome)
    ensures o.Done? <==> ast.Lit?
    ensures o.Done? ==> o.value == ast
    ensures o.Fail? ==> o.error == CannotEvaluate(LiteralStrategy, ast)
  {
    match ast
    case Lit(_) => Done(ast)
    case _ => Fail(CannotEvaluate(LiteralStrategy, ast))
  }

  /** `eval_expr_keyword`: an application headed by a keyword is a special form. */
  function EvalExprKeyword(fuel: nat, st: Stack, ast: Expr): (r: Evaluated)
    ensures !Terminal(r.outcome) ==> SameShape(st, r.stack)
    decreases fuel, 4
  {
    match ast
    case App(op, xs) =>
      (match op
       case Kw(k) =>
         (match k
          case Def => EvalDef(fuel, st, xs)
          case Lambda => EvalLambda(fuel, st, xs)
          case Arrow => Evaluated(Abort(Unimplemented(Arrow)), st)
          case External => Evaluated(Abort(Unimplemented(External)), st)
          case Id => EvalId(fuel, st, xs)
          case Ignore => EvalIgnore(fuel, st, xs)
          case Nil => Evaluated(Done(Kw(Nil)), st))
       case _ => Evaluated(Fail(CannotEvaluateOperator(KeywordStrategy, op)), st))
    case _ => Evaluated(Fail(CannotEvaluate(KeywordStrategy, ast)), st)
  }

  /**
   * `δ name value body`: evaluate the value, then the body with the name
   * substituted, inside a frame of its own. With more operands
   * (`δ name value f args…`) the binding goes into the innermost frame and
   * stays there, and `f args…` with the name substituted is evaluated.
   */
  function EvalDef(fuel: nat, st: Stack, xs: seq<Expr>): (r: Evaluated)
    ensures !Terminal(r.outcome) ==> SameShape(st, r.stack)
    decreases fuel, 2
  {
    if |xs| < 3 then Evaluated(Fail(DefArity(|xs|)), st)
    else if !xs[0].Var? then Evaluated(Fail(InvalidVariableName(xs[0])), st)
    else
      var name := xs[0].name;
      var r1 := Eval(fuel, st, xs[1]);
      if !r1.outcome.Done? then r1
      else
        var value := r1.outcome.value;
        if |xs| == 3 then
          var r2 := Eval(fuel, r1.stack + [map[name := value]], ReplaceFree(name, value, xs[2]));
          if !Terminal(r2.outcome) then PopRestores(r1.stack, map[name := value], r2.stack); Popped(r2)
          else r2
        else
          Eval(fuel, PushedVar(r1.stack, name, value),
               App(ReplaceFree(name, value, xs[2]), ReplaceEach(name, value, xs[3..])))
  }

  /** `λ` by operand count: two is a lambda value, three a call, more a call applied further. */
  function EvalLambda(fuel: nat, st: Stack, xs: seq<Expr>): (r: Evaluated)
    ensures !Terminal(r.outcome) ==> SameShape(st, r.stack)
    decreases fuel, 3
  {
    if |xs| == 2 then Evaluated(Done(App(Kw(Lambda), xs)), st)
    else if |xs| == 3 then EvalLambdaCall(fuel, st, xs)
    else if |xs| >= 4 then EvalLambdaCurried(fuel, st, xs)
    else Evaluated(Fail(LambdaArity(|xs|)), st)
  }

  /**
   * `λ parameter body argument`: a variable parameter binds the evaluated
   * argument in a frame of its own and in the body; a literal parameter is a
   * guard the evaluated argument must equal; `_` ignores the argument
   * without evaluating it.
   */
  function EvalLambdaCall(fuel: nat, st: Stack, xs: seq<Expr>): (r: Evaluated)
    requires |xs| == 3
    ensures !Terminal(r.outcome) ==> SameShape(st, r.stack)
    decreases fuel, 2
  {
    match xs[0]
    case Var(name) =>
      var r1 := Unwrapped(Eval(fuel, st, xs[2]));
      if !r1.outcome.Done? then r1
      else
        var value := r1.outcome.value;
        var r2 := Eval(fuel, r1.stack + [map[name := value]], ReplaceFree(name, value, xs[1]));
        if !Terminal(r2.outcome) then PopRestores(r1.stack, map[name := value], r2.stack); Popped(r2)
        else r2
    case Lit(expected) =>
      var r1 := Unwrapped(Eval(fuel, st, xs[2]));
      if !r1.outcome.Done? then r1
      else
        var actual := r1.outcome.value;
        if actual.Lit? && L.LiteralEq(actual.lit, expected) then Eval(fuel, r1.stack, xs[1])
        else Evaluated(Fail(PatternMismatch(expected, actual)), r1.stack)
    case Kw(k) =>
      if k == Ignore then Eval(fuel, st, xs[1])
      else Evaluated(Fail(InvalidParameter(xs[0])), st)
    case _ => Evaluated(Fail(InvalidParameter(xs[0])), st)
  }

  /**
   * `λ parameter body argument rest…`: as a call, but the evaluated body is
   * applied to the remaining operands. A variable parameter is bound only
   * through its frame: the body is not substituted.
   */
  function EvalLambdaCurried(fuel: nat, st: Stack, xs: seq<Expr>): (r: Evaluated)
    requires |xs| >= 4
    ensures !Terminal(r.outcome) ==> SameShape(st, r.stack)
    decreases fuel, 2
  {
    match xs[0]
    case Var(name) => EvalCurriedBinding(fuel, st, name, xs[1], xs[2], xs[3..])
    case Lit(expected) =>
      var r1 := Unwrapped(Eval(fuel, st, xs[2]));
      if !r1.outcome.Done? then r1
      else
        var actual := r1.outcome.value;
        if actual.Lit? && L.LiteralEq(actual.lit, expected) then
          var r2 := Unwrapped(Eval(fuel, r1.stack, xs[1]));
          if !r2.outcome.Done? then r2
          else Eval(fuel, r2.stack, App(r2.outcome.value, xs[3..]))
        else Evaluated(Fail(PatternMismatch(expected, actual)), r1.stack)
    case Kw(k) =>
      if k == Ignore then
        var r2 := Unwrapped(Eval(fuel, st, xs[1]));
        if !r2.outcome.Done? then r2
        else Eval(fuel, r2.stack, App(r2.outcome.value, xs[3..]))
      else Evaluated(Fail(InvalidParameter(xs[0])), st)
    case _ => Evaluated(Fail(InvalidParameter(xs[0])), st)
  }

  /**
   * `λ name body argument rest…`: the evaluated argument is bound in a frame
   * of its own, the body evaluated there is applied to the rest, and the
   * frame is popped.
   */
  function EvalCurriedBinding(fuel: nat, st: Stack, name: string, body: Expr, arg: Expr, rest: seq<Expr>): (r: Evaluated)
    ensures !Terminal(r.outcome) ==> SameShape(st, r.stack)
    decreases fuel, 1
  {
    var r1 := Unwrapped(Eval(fuel, st, arg));
    if !r1.outcome.Done? then r1
    else
      var frame := map[name := r1.outcome.value];
      var r2 := Unwrapped(Eval(fuel, r1.stack + [frame], body));
      if !r2.outcome.Done? then r2
      else
        var r3 := Eval(fuel, r2.stack, App(r2.outcome.value, rest));
        if !Terminal(r3.outcome) then PopRestores(r1.stack, frame, r3.stack); Popped(r3)
        else r3
  }

  /** `ι`: none gives `(ι)`, one operand evaluates it, more apply the first to the rest. */
  function EvalId(fuel: nat, st: Stack, xs: seq<Expr>): (r: Evaluated)
    ensures !Terminal(r.outcome) ==> SameShape(st, r.stack)
    decreases fuel, 2
  {
    if |xs| == 0 then Evaluated(Done(App(Kw(Id), [])), st)
    else if |xs| == 1 then Eval(fuel, st, xs[0])
    else
      var r := Unwrapped(Eval(fuel, st, xs[0]));
      if !r.outcome.Done? then r
      else Eval(fuel, r.stack, App(r.outcome.value, xs[1..]))
  }

  /**
   * `_`: none gives `_`, one gives `Ω`, two read a third operand that is not
   * there (a panic), more apply the second to the ones after it.
   */
  function EvalIgnore(fuel: nat, st: Stack, xs: seq<Expr>): (r: Evaluated)
    ensures !Terminal(r.outcome) ==> SameShape(st, r.stack)
    decreases fuel, 2
  {
    if |xs| == 0 then Evaluated(Done(Kw(Ignore)), st)
    else if |xs| == 1 then Evaluated(Done(Kw(Nil)), st)
    else if |xs| == 2 then Evaluated(Abort(MissingOperand(2)), st)
    else
      var r := Unwrapped(Eval(fuel, st, xs[1]));
      if !r.outcome.Done? then r
      else Eval(fuel, r.stack, App(r.outcome.value, xs[2..]))
  }

  /** `eval_expr_nested`: an application whose operator is an application is merged into one. */
  function EvalExprNested(fuel: nat, st: Stack, ast: Expr): (r: Evaluated)
    ensures !Terminal(r.outcome) ==> SameShape(st, r.stack)
    decreases fuel, 1
  {
    match ast
    case App(op, xs) =>
      (match op
       case App(inner, ys) => Eval(fuel, st, App(inner, ys + xs))
       case _ => Evaluated(Fail(CannotEvaluateOperator(NestedStrategy, op)), st))
    case _ => Evaluated(Fail(CannotEvaluate(NestedStrategy, ast)), st)
  }

  /**
   * `eval_expr_var`: an application headed by a variable evaluates the
   * variable (an error panics) and applies the result, merging its operands
   * in front when it is an application.
   */
  function EvalExprVar(fuel: nat, st: Stack, ast: Expr): (r: Evaluated)
    ensures r.outcome.Fail? ==> Visible(r.outcome.error)
    ensures !Terminal(r.outcome) ==> SameShape(st, r.stack)
    decreases fuel, 1
  {
    match ast
    case App(op, xs) =>
      (match op
       case Var(name) =>
         var r1 := Unwrapped(Eval(fuel, st, op));
         if !r1.outcome.Done? then r1
         else
           (match r1.outcome.value
            case App(f, ys) => Eval(fuel, r1.stack, App(f, ys + xs))
            case v => Eval(fuel, r1.stack, App(v, xs)))
       case _ => Evaluated(Fail(CannotEvaluateOperator(VarOperatorStrategy, op)), st))
    case _ => Evaluated(Fail(CannotEvaluate(VarOperatorStrategy, ast)), st)
  }

  // ---------------------------------------------------------------------
  // Properties of evaluation
  // ---------------------------------------------------------------------

  /** A literal evaluates to itself and leaves the stack alone. */
  lemma LiteralIsFixedPoint(fuel: nat, st: Stack, l: L.Literal)
    requires fuel > 0
    ensures Eval(fuel, st, Lit(l)) == Evaluated(Done(Lit(l)), st)
  {
  }

  /** No strategy accepts a bare keyword, so evaluating one fails with the last strategy's error. */
  lemma BareKeywordFails(fuel: nat, st: Stack, k: Keyword)
    requires fuel > 0
    ensures Eval(fuel, st, Kw(k)) == Evaluated(Fail(CannotEvaluate(VarOperatorStrategy, Kw(k))), st)
  {
  }

  /**
   * A variable evaluates to the evaluation of its innermost binding; an
   * undefined variable fails, but with the last strategy's error.
   */
  lemma VariableEvaluatesBinding(fuel: nat, st: Stack, name: string)
    requires fuel > 0
    ensures StackLookup(st, name).None? ==>
      Eval(fuel, st, Var(name)) == Evaluated(Fail(CannotEvaluate(VarOperatorStrategy, Var(name))), st)
    ensures StackLookup(st, name).Some? && !Eval(fuel - 1, st, StackLookup(st, name).value).outcome.Fail? ==>
      Eval(fuel, st, Var(name)) == Eval(fuel - 1, st, StackLookup(st, name).value)
  {
  }

  /**
   * An application whose operator is an application is evaluated as one
   * application, the inner operands first; if that fails, the caller sees
   * the last strategy reject the nested operator.
   */
  lemma NestedFlattens(fuel: nat, st: Stack, inner: Expr, ys: seq<Expr>, xs: seq<Expr>)
    requires fuel > 0
    ensures var r := Eval(fuel, st, App(App(inner, ys), xs));
            var flat := Eval(fuel - 1, st, App(inner, ys + xs));
            r.stack == flat.stack
            && (!flat.outcome.Fail? ==> r.outcome == flat.outcome)
            && (flat.outcome.Fail? ==> r.outcome == Fail(CannotEvaluateOperator(VarOperatorStrategy, App(inner, ys))))
  {
  }

  /**
   * A special form's result is the result of `eval_expr_keyword`; when that
   * fails, the caller sees the last strategy refuse the keyword operator.
   */
  lemma SpecialFormDispatch(fuel: nat, st: Stack, k: Keyword, xs: seq<Expr>)
    requires fuel > 0
    ensures var r := Eval(fuel, st, App(Kw(k), xs));
            var form := EvalExprKeyword(fuel - 1, st, App(Kw(k), xs));
            r.stack == form.stack
            && (!form.outcome.Fail? ==> r.outcome == form.outcome)
            && (form.outcome.Fail? ==> r.outcome == Fail(CannotEvaluateOperator(VarOperatorStrategy, Kw(k))))
  {
  }

  /**
   * `δ name value body` evaluates the body in a frame binding the name and
   * pops that frame afterwards, whether the body succeeds or fails.
   */
  lemma DefIsScoped(fuel: nat, st: Stack, name: string, value: Expr, body: Expr)
    requires fuel > 0 && Eval(fuel - 1, st, value).outcome.Done?
    ensures var r1 := Eval(fuel - 1, st, value);
            var v := r1.outcome.value;
            var inside := Eval(fuel - 1, r1.stack + [map[name := v]], ReplaceFree(name, v, body));
            var r := Eval(fuel, st, App(Kw(Def), [Var(name), value, body]));
            (!inside.outcome.Fail? ==> r.outcome == inside.outcome)
            && (inside.outcome.Fail? ==> r.outcome == Fail(CannotEvaluateOperator(VarOperatorStrategy, Kw(Def))))
            && (!Terminal(inside.outcome) ==> r.stack == r1.stack)
  {
    var xs := [Var(name), value, body];
    var r1 := Eval(fuel - 1, st, value);
    var v := r1.outcome.value;
    var inside := Eval(fuel - 1, r1.stack + [map[name := v]], ReplaceFree(name, v, body));
    SpecialFormDispatch(fuel, st, Def, xs);
    if !Terminal(inside.outcome) {
      PopRestores(r1.stack, map[name := v], inside.stack);
      assert EvalDef(fuel - 1, st, xs) == Evaluated(inside.outcome, r1.stack);
    } else {
      assert EvalDef(fuel - 1, st, xs) == inside;
    }
  }

  /**
   * `δ name value f args…` binds the name in the innermost frame (creating
   * one only on an empty stack) and evaluates `f args…` with the name
   * substituted; nothing is popped afterwards.
   */
  lemma CurriedDefBinds(fuel: nat, st: Stack, name: string, value: Expr, f: Expr, rest: seq<Expr>)
    requires fuel > 0 && |rest| > 0 && Eval(fuel - 1, st, value).outcome.Done?
    ensures var r1 := Eval(fuel - 1, st, value);
            var v := r1.outcome.value;
            var inside := Eval(fuel - 1, PushedVar(r1.stack, name, v),
                               App(ReplaceFree(name, v, f), ReplaceEach(name, v, rest)));
            var r := Eval(fuel, st, App(Kw(Def), [Var(name), value, f] + rest));
            r.stack == inside.stack
            && (!inside.outcome.Fail? ==> r.outcome == inside.outcome)
            && (inside.outcome.Fail? ==> r.outcome == Fail(CannotEvaluateOperator(VarOperatorStrategy, Kw(Def))))
  {
    var xs := [Var(name), value, f] + rest;
    assert xs[0] == Var(name) && xs[1] == value && xs[2] == f && xs[3..] == rest;
    var r1 := Eval(fuel - 1, st, value);
    var v := r1.outcome.value;
    assert EvalDef(fuel - 1, st, xs)
        == Eval(fuel - 1, PushedVar(r1.stack, name, v), App(ReplaceFree(name, v, f), ReplaceEach(name, v, rest)));
    assert EvalExprKeyword(fuel - 1, st, App(Kw(Def), xs)) == EvalDef(fuel - 1, st, xs);
    SpecialFormDispatch(fuel, st, Def, xs);
  }

  /**
   * `(δ x v ι w)` on an empty stack is w and leaves behind the frame binding
   * x to v (as `(δ x 1 ι 5)` gives 5).
   */
  lemma CurriedDefPersists(fuel: nat, name: string, v: L.Literal, w: L.Literal)
    requires fuel >= 3
    ensures Eval(fuel, [], App(Kw(Def), [Var(name), Lit(v), Kw(Id), Lit(w)]))
            == Evaluated(Done(Lit(w)), [map[name := Lit(v)]])
  {
    var inner := [map[name := Lit(v)]];
    var body := App(Kw(Id), [Lit(w)]);
    assert Eval(fuel - 1, inner, body) == Evaluated(Done(Lit(w)), inner) by {
      IdentityOfOne(fuel - 1, inner, Lit(w));
      LiteralIsFixedPoint(fuel - 2, inner, w);
    }
    assert Eval(fuel - 1, [], Lit(v)) == Evaluated(Done(Lit(v)), []) by {
      LiteralIsFixedPoint(fuel - 1, [], v);
    }
    assert ReplaceFree(name, Lit(v), Kw(Id)) == Kw(Id);
    assert ReplaceEach(name, Lit(v), [Lit(w)]) == [Lit(w)];
    assert PushedVar([], name, Lit(v)) == inner;
    CurriedDefBinds(fuel, [], name, Lit(v), Kw(Id), [Lit(w)]);
    assert [Var(name), Lit(v), Kw(Id)] + [Lit(w)] == [Var(name), Lit(v), Kw(Id), Lit(w)];
  }

  /**
   * `λ name body argument` evaluates the argument (an error panics), then
   * the substituted body in a frame binding the name, and pops the frame.
   */
  lemma LambdaIsScoped(fuel: nat, st: Stack, name: string, body: Expr, arg: Expr)
    requires fuel > 0 && Eval(fuel - 1, st, arg).outcome.Done?
    ensures var r1 := Eval(fuel - 1, st, arg);
            var v := r1.outcome.value;
            var inside := Eval(fuel - 1, r1.stack + [map[name := v]], ReplaceFree(name, v, body));
            var r := Eval(fuel, st, App(Kw(Lambda), [Var(name), body, arg]));
            (!inside.outcome.Fail? ==> r.outcome == inside.outcome)
            && (inside.outcome.Fail? ==> r.outcome == Fail(CannotEvaluateOperator(VarOperatorStrategy, Kw(Lambda))))
            && (!Terminal(inside.outcome) ==> r.stack == r1.stack)
  {
    var xs := [Var(name), body, arg];
    var r1 := Eval(fuel - 1, st, arg);
    var v := r1.outcome.value;
    var inside := Eval(fuel - 1, r1.stack + [map[name := v]], ReplaceFree(name, v, body));
    SpecialFormDispatch(fuel, st, Lambda, xs);
    assert Unwrapped(r1) == r1;
    if !Terminal(inside.outcome) {
      PopRestores(r1.stack, map[name := v], inside.stack);
      assert EvalLambdaCall(fuel - 1, st, xs) == Evaluated(inside.outcome, r1.stack);
    } else {
      assert EvalLambdaCall(fuel - 1, st, xs) == inside;
    }
  }

  /**
   * `λ name body argument rest…` binds the name only through its frame: the
   * body is evaluated unsubstituted in that frame, applied to the rest, and
   * the frame is popped.
   */
  lemma CurriedLambdaBindsByFrame(fuel: nat, st: Stack, xs: seq<Expr>)
    requires |xs| >= 4 && xs[0].Var?
    requires Eval(fuel, st, xs[2]).outcome.Done?
    requires Eval(fuel, Eval(fuel, st, xs[2]).stack + [map[xs[0].name := Eval(fuel, st, xs[2]).outcome.value]], xs[1]).outcome.Done?
    ensures var r1 := Eval(fuel, st, xs[2]);
            var frame := map[xs[0].name := r1.outcome.value];
            var r2 := Eval(fuel, r1.stack + [frame], xs[1]);
            var inside := Eval(fuel, r2.stack, App(r2.outcome.value, xs[3..]));
            var r := EvalLambdaCurried(fuel, st, xs);
            r.outcome == inside.outcome && (!Terminal(r.outcome) ==> r.stack == r1.stack)
  {
    var r1 := Eval(fuel, st, xs[2]);
    var frame := map[xs[0].name := r1.outcome.value];
    var r2 := Eval(fuel, r1.stack + [frame], xs[1]);
    assert Unwrapped(r1) == r1 && Unwrapped(r2) == r2;
    var inside := Eval(fuel, r2.stack, App(r2.outcome.value, xs[3..]));
    if !Terminal(inside.outcome) {
      PopRestores(r1.stack, frame, inside.stack);
    }
  }

  /** A `_` parameter never evaluates the argument: the result does not depend on it. */
  lemma IgnoredArgumentIsIrrelevant(fuel: nat, st: Stack, body: Expr, a: Expr, b: Expr)
    ensures Eval(fuel, st, App(Kw(Lambda), [Kw(Ignore), body, a]))
         == Eval(fuel, st, App(Kw(Lambda), [Kw(Ignore), body, b]))
  {
    if fuel > 0 {
      SpecialFormDispatch(fuel, st, Lambda, [Kw(Ignore), body, a]);
      SpecialFormDispatch(fuel, st, Lambda, [Kw(Ignore), body, b]);
      IgnoredCall(fuel - 1, st, body, a);
      IgnoredCall(fuel - 1, st, body, b);
    }
  }

  /** The `_` parameter's arm of a three-operand `λ`: the body alone is evaluated. */
  lemma IgnoredCall(fuel: nat, st: Stack, body: Expr, a: Expr)
    ensures EvalExprKeyword(fuel, st, App(Kw(Lambda), [Kw(Ignore), body, a])) == Eval(fuel, st, body)
  {
    assert EvalLambdaCall(fuel, st, [Kw(Ignore), body, a]) == Eval(fuel, st, body);
  }

  /**
   * A curried `_` parameter never evaluates its argument either: the body is
   * evaluated and applied to the remaining operands, whatever the argument.
   */
  lemma IgnoredCurriedArgumentIsIrrelevant(fuel: nat, st: Stack, body: Expr, a: Expr, b: Expr, rest: seq<Expr>)
    requires |rest| > 0
    ensures Eval(fuel, st, App(Kw(Lambda), [Kw(Ignore), body, a] + rest))
         == Eval(fuel, st, App(Kw(Lambda), [Kw(Ignore), body, b] + rest))
  {
    if fuel > 0 {
      SpecialFormDispatch(fuel, st, Lambda, [Kw(Ignore), body, a] + rest);
      SpecialFormDispatch(fuel, st, Lambda, [Kw(Ignore), body, b] + rest);
      IgnoredCurriedCall(fuel - 1, st, body, a, rest);
      IgnoredCurriedCall(fuel - 1, st, body, b, rest);
    }
  }

  /** The `_` parameter's arm of a curried `λ`: the evaluated body is applied to the rest. */
  lemma IgnoredCurriedCall(fuel: nat, st: Stack, body: Expr, a: Expr, rest: seq<Expr>)
    requires |rest| > 0
    ensures var r := Unwrapped(Eval(fuel, st, body));
            EvalExprKeyword(fuel, st, App(Kw(Lambda), [Kw(Ignore), body, a] + rest))
            == if !r.outcome.Done? then r else Eval(fuel, r.stack, App(r.outcome.value, rest))
  {
    var xs := [Kw(Ignore), body, a] + rest;
    assert xs[0] == Kw(Ignore) && xs[1] == body && xs[3..] == rest;
    assert EvalLambda(fuel, st, xs) == EvalLambdaCurried(fuel, st, xs);
  }

  /** `λ` with two operands is a lambda value: it evaluates to itself. */
  lemma LambdaValue(fuel: nat, st: Stack, parameter: Expr, body: Expr)
    requires fuel > 0
    ensures Eval(fuel, st, App(Kw(Lambda), [parameter, body]))
            == Evaluated(Done(App(Kw(Lambda), [parameter, body])), st)
  {
    SpecialFormDispatch(fuel, st, Lambda, [parameter, body]);
  }

  /** `_` with no operand is `_`, with one is `Ω`, and with two panics on the missing third. */
  lemma IgnoreResults(fuel: nat, st: Stack, a: Expr, b: Expr)
    requires fuel > 0
    ensures Eval(fuel, st, App(Kw(Ignore), [])) == Evaluated(Done(Kw(Ignore)), st)
    ensures Eval(fuel, st, App(Kw(Ignore), [a])) == Evaluated(Done(Kw(Nil)), st)
    ensures Eval(fuel, st, App(Kw(Ignore), [a, b])) == Evaluated(Abort(MissingOperand(2)), st)
  {
    FormResult(fuel, st, Ignore, [], Done(Kw(Ignore)));
    FormResult(fuel, st, Ignore, [a], Done(Kw(Nil)));
    FormResult(fuel, st, Ignore, [a, b], Abort(MissingOperand(2)));
  }

  /** `(ι)` is itself and `Ω` applied to anything is `Ω`. */
  lemma ConstantForms(fuel: nat, st: Stack, xs: seq<Expr>)
    requires fuel > 0
    ensures Eval(fuel, st, App(Kw(Id), [])) == Evaluated(Done(App(Kw(Id), [])), st)
    ensures Eval(fuel, st, App(Kw(Nil), xs)) == Evaluated(Done(Kw(Nil)), st)
  {
    assert EvalExprKeyword(fuel - 1, st, App(Kw(Id), [])) == Evaluated(Done(App(Kw(Id), [])), st);
    FormResult(fuel, st, Id, [], Done(App(Kw(Id), [])));
    FormResult(fuel, st, Nil, xs, Done(Kw(Nil)));
  }

  /** `->` and `ε` panic as unimplemented, whatever their operands. */
  lemma UnimplementedForms(fuel: nat, st: Stack, xs: seq<Expr>)
    requires fuel > 0
    ensures Eval(fuel, st, App(Kw(Arrow), xs)) == Evaluated(Abort(Unimplemented(Arrow)), st)
    ensures Eval(fuel, st, App(Kw(External), xs)) == Evaluated(Abort(Unimplemented(External)), st)
  {
    FormResult(fuel, st, Arrow, xs, Abort(Unimplemented(Arrow)));
    FormResult(fuel, st, External, xs, Abort(Unimplemented(External)));
  }

  /** A special form whose arm answers without touching the stack answers the same from `eval`. */
  lemma FormResult(fuel: nat, st: Stack, k: Keyword, xs: seq<Expr>, o: Outcome)
    requires fuel > 0 && !o.Fail?
    requires EvalExprKeyword(fuel - 1, st, App(Kw(k), xs)) == Evaluated(o, st)
    ensures Eval(fuel, st, App(Kw(k), xs)) == Evaluated(o, st)
  {
    SpecialFormDispatch(fuel, st, k, xs);
  }

  /** `ι` with one operand is that operand's evaluation (its failure reported by the last strategy). */
  lemma IdentityOfOne(fuel: nat, st: Stack, x: Expr)
    requires fuel > 0
    ensures var r := Eval(fuel, st, App(Kw(Id), [x]));
            var inner := Eval(fuel - 1, st, x);
            r.stack == inner.stack
            && (!inner.outcome.Fail? ==> r.outcome == inner.outcome)
            && (inner.outcome.Fail? ==> r.outcome == Fail(CannotEvaluateOperator(VarOperatorStrategy, Kw(Id))))
  {
    SpecialFormDispatch(fuel, st, Id, [x]);
    assert EvalId(fuel - 1, st, [x]) == Eval(fuel - 1, st, x);
  }

  /** `(δ x 1 x)` is 1, and the stack is as before. */
  lemma DefExample(fuel: nat, st: Stack)
    requires fuel >= 2
    ensures Eval(fuel, st, App(Kw(Def), [Var("x"), One, Var("x")])) == Evaluated(Done(One), st)
  {
    LiteralIsFixedPoint(fuel - 1, st, One.lit);
    LiteralIsFixedPoint(fuel - 1, st + [map["x" := One]], One.lit);
    DefIsScoped(fuel, st, "x", One, Var("x"));
  }

  /**
   * `λ` with a literal parameter is a guard: when the argument equals it the
   * body is the result; otherwise the form fails with a pattern mismatch,
   * which the caller sees as the last strategy refusing `λ`.
   */
  lemma LiteralGuard(fuel: nat, st: Stack, expected: L.Literal, body: L.Literal, actual: L.Literal)
    requires fuel >= 2
    ensures var xs := [Lit(expected), Lit(body), Lit(actual)];
            var r := Eval(fuel, st, App(Kw(Lambda), xs));
            (L.LiteralEq(actual, expected) ==> r == Evaluated(Done(Lit(body)), st))
            && (!L.LiteralEq(actual, expected) ==>
                  EvalLambdaCall(fuel - 1, st, xs).outcome == Fail(PatternMismatch(expected, Lit(actual)))
                  && r == Evaluated(Fail(CannotEvaluateOperator(VarOperatorStrategy, Kw(Lambda))), st))
  {
    var xs := [Lit(expected), Lit(body), Lit(actual)];
    LiteralIsFixedPoint(fuel - 1, st, actual);
    LiteralIsFixedPoint(fuel - 1, st, body);
    SpecialFormDispatch(fuel, st, Lambda, xs);
    if L.LiteralEq(actual, expected) {
      assert EvalLambdaCall(fuel - 1, st, xs) == Evaluated(Done(Lit(body)), st);
    } else {
      assert EvalLambdaCall(fuel - 1, st, xs) == Evaluated(Fail(PatternMismatch(expected, Lit(actual))), st);
    }
  }

  /** `(λ 5 "ok" 5.0)`: the guard compares numbers by value, so it matches. */
  lemma GuardMatches(fuel: nat, st: Stack)
    requires fuel >= 2
    ensures Eval(fuel, st, App(Kw(Lambda), [Lit(L.Num("5")), Lit(L.Str("ok")), Lit(L.Num("5.0"))]))
            == Evaluated(Done(Lit(L.Str("ok"))), st)
  {
    L.FiveIsFive("5");
    L.FivePointZeroIsFive("5.0");
    assert L.LiteralEq(L.Num("5.0"), L.Num("5"));
    LiteralGuard(fuel, st, L.Num("5"), L.Str("ok"), L.Num("5.0"));
  }

  /**
   * `(λ 5 "ok" "five")`: the guard rejects the argument, but the caller
   * only sees the last strategy refuse the `λ` operator.
   */
  lemma GuardMismatchIsMasked(fuel: nat, st: Stack)
    requires fuel >= 2
    ensures Eval(fuel, st, App(Kw(Lambda), [Lit(L.Num("5")), Lit(L.Str("ok")), Lit(L.Str("five"))]))
            == Evaluated(Fail(CannotEvaluateOperator(VarOperatorStrategy, Kw(Lambda))), st)
  {
    LiteralGuard(fuel, st, L.Num("5"), L.Str("ok"), L.Str("five"));
  }

  /** Calling an undefined function unwraps the failed lookup: a panic. */
  lemma UndefinedOperatorPanics(fuel: nat)
    requires fuel >= 2
    ensures Eval(fuel, [], App(Var("f"), [])).outcome == Abort(UnwrapError(CannotEvaluate(VarOperatorStrategy, Var("f"))))
  {
    var ast := App(Var("f"), []);
    VariableEvaluatesBinding(fuel - 1, [], "f");
    assert Eval(fuel - 1, [], Var("f")) == Evaluated(Fail(CannotEvaluate(VarOperatorStrategy, Var("f"))), []);
    assert EvalExprVar(fuel - 1, [], ast).outcome == Abort(UnwrapError(CannotEvaluate(VarOperatorStrategy, Var("f"))));
    assert EvalExprKeyword(fuel - 1, [], ast).outcome.Fail?;
    assert EvalExprNested(fuel - 1, [], ast).outcome.Fail?;
  }
}
