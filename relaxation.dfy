/// The relaxation of one loop condition (`HoistRelaxedIfMutator::Relax_`):
/// a comparison is reduced to the sign of one expression, and the condition
/// taken at an end point of the loop range becomes a loop-invariant guard
/// when the arithmetic analyzer proves that end point extremal.
module Relaxation {
  import opened Wrappers
  import opened TirExpr

  /** The question put to the arithmetic analyzer: with `v` bound to the
      half-open range [begin, end), is `expr` provably non-negative? */
  datatype Query = Query(expr: Expr, v: Var, begin: Expr, end: Expr)

  /** The analyzer is outside this model; it is a parameter. */
  type Prover = Query -> bool

  predicate InRange(q: Query, env: Env) {
    Eval(q.begin, env) <= Lookup(env, q.v) < Eval(q.end, env)
  }

  /** The analyzer answers yes only to valid questions: a proved expression is
      non-negative in every state that puts `v` inside its range. */
  ghost predicate SoundProver(prove: Prover) {
    forall q: Query, env: Env :: prove(q) && InRange(q, env) ==> Eval(q.expr, env) >= 0
  }

  predicate IsComparison(cond: Expr) {
    cond.Bin? && cond.op in {Lt, Le, Gt, Ge}
  }

  predicate IsStrict(cond: Expr) {
    cond.Bin? && cond.op in {Lt, Gt}
  }

  /** `a < b` and `a <= b` become `a - b`, `a > b` and `a >= b` become `b - a`;
      any other condition has no normal form. */
  function Reduce(cond: Expr): (r: Option<Expr>)
    ensures r.Some? <==> IsComparison(cond)
    ensures r.Some? ==> forall env :: Holds(cond, env) <==>
      (if IsStrict(cond) then Eval(r.value, env) < 0 else Eval(r.value, env) <= 0)
  {
    match cond
    case Bin(Lt, a, b) => Some(Bin(Sub, a, b))
    case Bin(Le, a, b) => Some(Bin(Sub, a, b))
    case Bin(Gt, a, b) => Some(Bin(Sub, b, a))
    case Bin(Ge, a, b) => Some(Bin(Sub, b, a))
    case _ => None
  }

  /** The last iteration value `end - 1`. */
  function Last(end: Expr): Expr {
    Bin(Sub, end, IntImm(1))
  }

  /** Is `d` at `point` at least `d` at every point of [begin, end)? */
  function EndpointQuery(d: Expr, v: Var, begin: Expr, end: Expr, point: Expr): Query {
    Query(Bin(Sub, SubstExpr(d, v, point), d), v, begin, end)
  }

  /** The guard for `cond` over `v` in [begin, end): `cond` at `begin` when the
      analyzer proves `begin` extremal, otherwise `cond` at `end - 1` when it
      proves that end extremal, otherwise undefined. */
  function Relax(cond: Expr, v: Var, begin: Expr, end: Expr, prove: Prover): (r: Option<Expr>)
    ensures r.Some? <==>
      IsComparison(cond) &&
      (prove(EndpointQuery(Reduce(cond).value, v, begin, end, begin)) ||
       prove(EndpointQuery(Reduce(cond).value, v, begin, end, Last(end))))
    ensures r.Some? ==>
      if prove(EndpointQuery(Reduce(cond).value, v, begin, end, begin))
      then r.value == SubstExpr(cond, v, begin)
      else r.value == SubstExpr(cond, v, Last(end))
  {
    match Reduce(cond)
    case None => None
    case Some(d) =>
      if prove(EndpointQuery(d, v, begin, end, begin)) then Some(SubstExpr(cond, v, begin))
      else if prove(EndpointQuery(d, v, begin, end, Last(end))) then Some(SubstExpr(cond, v, Last(end)))
      else None
  }

  /** One accepted end point makes the guard sound: if the condition holds at
      `point` and `d` is never larger elsewhere in the range, the condition
      holds at `x`. */
  lemma EndpointSound(cond: Expr, d: Expr, v: Var, begin: Expr, end: Expr, point: Expr, prove: Prover, env: Env, x: int)
    requires SoundProver(prove) && Reduce(cond) == Some(d)
    requires v !in ExprVars(begin) && v !in ExprVars(end) && v !in ExprVars(point)
    requires prove(EndpointQuery(d, v, begin, end, point))
    requires Holds(SubstExpr(cond, v, point), env)
    requires Eval(begin, env) <= x < Eval(end, env)
    ensures Holds(cond, Bind(env, v, x))
  {
    var q := EndpointQuery(d, v, begin, end, point);
    var p := Eval(point, env);
    var ex := Bind(env, v, x);
    EvalAgree(begin, env, ex);
    EvalAgree(end, env, ex);
    ProvedNonNegative(q, prove, ex);
    EndpointDifference(d, v, point, env, x);
    // the guard is the condition at the point
    SubstExprEval(cond, v, point, env);
    ReduceMonotone(cond, d, ex, Bind(env, v, p));
  }

  lemma ProvedNonNegative(q: Query, prove: Prover, env: Env)
    requires SoundProver(prove) && prove(q) && InRange(q, env)
    ensures Eval(q.expr, env) >= 0
  {
  }

  /** In the state with `v = x`, the query expression is `d` at the point
      minus `d` at `x`. */
  lemma EndpointDifference(d: Expr, v: Var, point: Expr, env: Env, x: int)
    requires v !in ExprVars(point)
    ensures Eval(Bin(Sub, SubstExpr(d, v, point), d), Bind(env, v, x))
        == Eval(d, Bind(env, v, Eval(point, env))) - Eval(d, Bind(env, v, x))
  {
    var ex := Bind(env, v, x);
    var p := Eval(point, env);
    EvalAgree(point, env, ex);
    SubstExprEval(d, v, point, ex);
    EvalAgree(d, Bind(ex, v, p), Bind(env, v, p));
  }

  /** A condition that holds in one state holds in every state where its
      normal form is no larger. */
  lemma ReduceMonotone(cond: Expr, d: Expr, lower: Env, upper: Env)
    requires Reduce(cond) == Some(d)
    requires Eval(d, lower) <= Eval(d, upper) && Holds(cond, upper)
    ensures Holds(cond, lower)
  {
    assert Holds(cond, upper) <==> (if IsStrict(cond) then Eval(d, upper) < 0 else Eval(d, upper) <= 0);
    assert Holds(cond, lower) <==> (if IsStrict(cond) then Eval(d, lower) < 0 else Eval(d, lower) <= 0);
  }

  /** Soundness of the hoisted guard: when `Relax` returns a guard and the
      guard is true, the original condition is true for every value of the
      loop variable in [begin, end). */
  lemma GuardSound(cond: Expr, v: Var, begin: Expr, end: Expr, prove: Prover, env: Env)
    requires SoundProver(prove)
    requires v !in ExprVars(begin) && v !in ExprVars(end)
    requires Relax(cond, v, begin, end, prove).Some?
    requires Holds(Relax(cond, v, begin, end, prove).value, env)
    ensures forall x :: Eval(begin, env) <= x < Eval(end, env) ==> Holds(cond, Bind(env, v, x))
  {
    var d := Reduce(cond).value;
    var point := if prove(EndpointQuery(d, v, begin, end, begin)) then begin else Last(end);
    forall x | Eval(begin, env) <= x < Eval(end, env)
      ensures Holds(cond, Bind(env, v, x))
    {
      EndpointSound(cond, d, v, begin, end, point, prove, env, x);
    }
  }
}
