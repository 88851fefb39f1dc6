/**
 * The evaluator object (src/evaluator.rs): a `Runtime` owning a stack of
 * frames that its methods push, pop and extend in place. Each method is
 * proved to compute what the function of the same name in `Semantics`
 * specifies, both the outcome and the stack it leaves.
 *
 * Frames are held by value, as maps (the `VecDeque<Frame>` owns them).
 */
module Evaluator {
  import opened Wrappers
  import opened Keywords
  import L = Literals
  import opened Parser
  import opened Substitution
  import S = Semantics

  class Runtime {
    var stack: S.Stack

    /** `Runtime::new`: no frames. */
    constructor ()
      ensures stack == []
      ensures forall name :: Lookup(name) == None
    {
      stack := [];
    }

    /** `lookup`. */
    function Lookup(name: string): (r: Option<Expr>)
      reads this
      ensures r.Some? <==> exists i :: 0 <= i < |stack| && name in stack[i]
    {
      S.LookupInnermost(stack, name);
      S.StackLookup(stack, name)
    }

    /** `push_var`: bind in the innermost frame, or in a new one when there is none. */
    method PushVar(name: string, value: Expr)
      modifies this
      ensures stack == S.PushedVar(old(stack), name, value)
      ensures Lookup(name) == Some(value)
    {
      if |stack| > 0 {
        stack := stack[..|stack| - 1] + [stack[|stack| - 1][name := value]];
      } else {
        stack := [map[name := value]];
      }
      S.PushedVarLookup(old(stack), name, value, name);
    }

    /** `pop_back`, whose result is dropped. */
    method PopFrame()
      modifies this
      ensures stack == S.Pop(old(stack))
    {
      if |stack| > 0 {
        stack := stack[..|stack| - 1];
      }
    }

    /** `eval`: the five strategies in turn, each on the stack the previous one left. */
    method Eval(fuel: nat, ast: Expr) returns (out: S.Outcome)
      modifies this
      ensures S.Evaluated(out, stack) == S.Eval(fuel, old(stack), ast)
      decreases fuel, 0
    {
      if fuel == 0 {
        return S.OutOfFuel;
      }
      out := EvalVar(fuel - 1, ast);
      if !out.Fail? {
        return;
      }
      out := S.EvalLiteral(ast);
      if !out.Fail? {
        return;
      }
      out := EvalExprKeyword(fuel - 1, ast);
      if !out.Fail? {
        return;
      }
      out := EvalExprNested(fuel - 1, ast);
      if !out.Fail? {
        return;
      }
      out := EvalExprVar(fuel - 1, ast);
    }

    /** `eval_var`. */
    method EvalVar(fuel: nat, ast: Expr) returns (out: S.Outcome)
      modifies this
      ensures S.Evaluated(out, stack) == S.EvalVar(fuel, old(stack), ast)
      decreases fuel, 1
    {
      match ast {
        case Var(name) =>
          var binding := Lookup(name);
          match binding {
            case Some(e) =>
              out := Eval(fuel, e);
            case None =>
              out := S.Fail(S.UndefinedVariable(name));
          }
        case _ =>
          out := S.Fail(S.CannotEvaluate(S.VarStrategy, ast));
      }
    }

    /** `eval_expr_keyword`. */
    method EvalExprKeyword(fuel: nat, ast: Expr) returns (out: S.Outcome)
      modifies this
      ensures S.Evaluated(out, stack) == S.EvalExprKeyword(fuel, old(stack), ast)
      decreases fuel, 4
    {
      if !ast.App? {
        return S.Fail(S.CannotEvaluate(S.KeywordStrategy, ast));
      }
      if !ast.operator.Kw? {
        return S.Fail(S.CannotEvaluateOperator(S.KeywordStrategy, ast.operator));
      }
      var xs := ast.operands;
      match ast.operator.keyword {
        case Def =>
          out := EvalDef(fuel, xs);
        case Lambda =>
          out := EvalLambda(fuel, xs);
        case Arrow =>
          out := S.Abort(S.Unimplemented(Arrow));
        case External =>
          out := S.Abort(S.Unimplemented(External));
        case Id =>
          out := EvalId(fuel, xs);
        case Ignore =>
          out := EvalIgnore(fuel, xs);
        case Nil =>
          out := S.Done(Kw(Nil));
      }
    }

    /** The `δ` arm of `eval_expr_keyword`. */
    method EvalDef(fuel: nat, xs: seq<Expr>) returns (out: S.Outcome)
      modifies this
      ensures S.Evaluated(out, stack) == S.EvalDef(fuel, old(stack), xs)
      decreases fuel, 2
    {
      if |xs| < 3 {
        return S.Fail(S.DefArity(|xs|));
      }
      if !xs[0].Var? {
        return S.Fail(S.InvalidVariableName(xs[0]));
      }
      var name := xs[0].name;
      out := Eval(fuel, xs[1]);
      if !out.Done? {
        return;
      }
      var value := out.value;
      if |xs| == 3 {
        stack := stack + [map[name := value]];
        out := Eval(fuel, ReplaceFree(name, value, xs[2]));
        if !S.Terminal(out) {
          PopFrame();
        }
      } else {
        PushVar(name, value);
        out := Eval(fuel, App(ReplaceFree(name, value, xs[2]), ReplaceEach(name, value, xs[3..])));
      }
    }

    /** The `λ` arm of `eval_expr_keyword`. */
    method EvalLambda(fuel: nat, xs: seq<Expr>) returns (out: S.Outcome)
      modifies this
      ensures S.Evaluated(out, stack) == S.EvalLambda(fuel, old(stack), xs)
      decreases fuel, 3
    {
      if |xs| == 2 {
        out := S.Done(App(Kw(Lambda), xs));
      } else if |xs| == 3 {
        out := EvalLambdaCall(fuel, xs);
      } else if |xs| >= 4 {
        out := EvalLambdaCurried(fuel, xs);
      } else {
        out := S.Fail(S.LambdaArity(|xs|));
      }
    }

    /** `self.eval(e).unwrap()`. */
    method EvalUnwrapped(fuel: nat, e: Expr) returns (out: S.Outcome)
      modifies this
      ensures S.Evaluated(out, stack) == S.Unwrapped(S.Eval(fuel, old(stack), e))
      decreases fuel, 1
    {
      out := Eval(fuel, e);
      if out.Fail? {
        out := S.Abort(S.UnwrapError(out.error));
      }
    }

    /** `λ parameter body argument`. */
    method EvalLambdaCall(fuel: nat, xs: seq<Expr>) returns (out: S.Outcome)
      requires |xs| == 3
      modifies this
      ensures S.Evaluated(out, stack) == S.EvalLambdaCall(fuel, old(stack), xs)
      decreases fuel, 2
    {
      match xs[0] {
        case Var(name) =>
          out := EvalUnwrapped(fuel, xs[2]);
          if !out.Done? {
            return;
          }
          var value := out.value;
          stack := stack + [map[name := value]];
          out := Eval(fuel, ReplaceFree(name, value, xs[1]));
          if !S.Terminal(out) {
            PopFrame();
          }
        case Lit(expected) =>
          out := EvalUnwrapped(fuel, xs[2]);
          if !out.Done? {
            return;
          }
          var actual := out.value;
          if actual.Lit? && L.LiteralEq(actual.lit, expected) {
            out := Eval(fuel, xs[1]);
          } else {
            out := S.Fail(S.PatternMismatch(expected, actual));
          }
        case Kw(k) =>
          if k == Ignore {
            out := Eval(fuel, xs[1]);
          } else {
            out := S.Fail(S.InvalidParameter(xs[0]));
          }
        case _ =>
          out := S.Fail(S.InvalidParameter(xs[0]));
      }
    }

    /** `λ parameter body argument rest…`. */
    method EvalLambdaCurried(fuel: nat, xs: seq<Expr>) returns (out: S.Outcome)
      requires |xs| >= 4
      modifies this
      ensures S.Evaluated(out, stack) == S.EvalLambdaCurried(fuel, old(stack), xs)
      decreases fuel, 2
    {
      match xs[0] {
        case Var(name) =>
          out := EvalUnwrapped(fuel, xs[2]);
          if !out.Done? {
            return;
          }
          stack := stack + [map[name := out.value]];
          out := EvalUnwrapped(fuel, xs[1]);
          if !out.Done? {
            return;
          }
          out := Eval(fuel, App(out.value, xs[3..]));
          if !S.Terminal(out) {
            PopFrame();
          }
        case Lit(expected) =>
          out := EvalUnwrapped(fuel, xs[2]);
          if !out.Done? {
            return;
          }
          var actual := out.value;
          if actual.Lit? && L.LiteralEq(actual.lit, expected) {
            out := EvalUnwrapped(fuel, xs[1]);
            if !out.Done? {
              return;
            }
            out := Eval(fuel, App(out.value, xs[3..]));
          } else {
            out := S.Fail(S.PatternMismatch(expected, actual));
          }
        case Kw(k) =>
          if k == Ignore {
            out := EvalUnwrapped(fuel, xs[1]);
            if !out.Done? {
              return;
            }
            out := Eval(fuel, App(out.value, xs[3..]));
          } else {
            out := S.Fail(S.InvalidParameter(xs[0]));
          }
        case _ =>
          out := S.Fail(S.InvalidParameter(xs[0]));
      }
    }

    /** The `ι` arm of `eval_expr_keyword`. */
    method EvalId(fuel: nat, xs: seq<Expr>) returns (out: S.Outcome)
      modifies this
      ensures S.Evaluated(out, stack) == S.EvalId(fuel, old(stack), xs)
      decreases fuel, 2
    {
      if |xs| == 0 {
        out := S.Done(App(Kw(Id), []));
      } else if |xs| == 1 {
        out := Eval(fuel, xs[0]);
      } else {
        out := EvalUnwrapped(fuel, xs[0]);
        if !out.Done? {
          return;
        }
        out := Eval(fuel, App(out.value, xs[1..]));
      }
    }

    /** The `_` arm of `eval_expr_keyword`. */
    method EvalIgnore(fuel: nat, xs: seq<Expr>) returns (out: S.Outcome)
      modifies this
      ensures S.Evaluated(out, stack) == S.EvalIgnore(fuel, old(stack), xs)
      decreases fuel, 2
    {
      if |xs| == 0 {
        out := S.Done(Kw(Ignore));
      } else if |xs| == 1 {
        out := S.Done(Kw(Nil));
      } else if |xs| == 2 {
        out := S.Abort(S.MissingOperand(2));
      } else {
        out := EvalUnwrapped(fuel, xs[1]);
        if !out.Done? {
          return;
        }
        out := Eval(fuel, App(out.value, xs[2..]));
      }
    }

    /** `eval_expr_nested`. */
    method EvalExprNested(fuel: nat, ast: Expr) returns (out: S.Outcome)
      modifies this
      ensures S.Evaluated(out, stack) == S.EvalExprNested(fuel, old(stack), ast)
      decreases fuel, 1
    {
      if !ast.App? {
        return S.Fail(S.CannotEvaluate(S.NestedStrategy, ast));
      }
      var op := ast.operator;
      if !op.App? {
        return S.Fail(S.CannotEvaluateOperator(S.NestedStrategy, op));
      }
      out := Eval(fuel, App(op.operator, op.operands + ast.operands));
    }

    /** `eval_expr_var`. */
    method EvalExprVar(fuel: nat, ast: Expr) returns (out: S.Outcome)
      modifies this
      ensures S.Evaluated(out, stack) == S.EvalExprVar(fuel, old(stack), ast)
      decreases fuel, 2
    {
      if !ast.App? {
        return S.Fail(S.CannotEvaluate(S.VarOperatorStrategy, ast));
      }
      var op := ast.operator;
      if !op.Var? {
        return S.Fail(S.CannotEvaluateOperator(S.VarOperatorStrategy, op));
      }
      out := EvalUnwrapped(fuel, op);
      if !out.Done? {
        return;
      }
      match out.value {
        case App(f, ys) =>
          out := Eval(fuel, App(f, ys + ast.operands));
        case v =>
          out := Eval(fuel, App(v, ast.operands));
      }
    }
  }
}
