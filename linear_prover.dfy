/// A small decision procedure that can stand in for the arithmetic analyzer:
/// it answers the analyzer's question for affine expressions whose only
/// variable with a non-zero coefficient is the bound one and whose range has
/// constant ends. It is proved sound, so it meets the soundness assumption
/// the guard lemmas make of the analyzer.
module LinearProver {
  import opened TirExpr
  import opened Relaxation

  predicate Closed(e: Expr) {
    ExprVars(e) == {}
  }

  /** Sums, differences, and products with a constant factor. */
  predicate Affine(e: Expr) {
    match e
    case Ref(_) => true
    case IntImm(_) => true
    case Bin(op, a, b) =>
      || ((op == Add || op == Sub) && Affine(a) && Affine(b))
      || (op == Mul && Affine(a) && Affine(b) && (Closed(a) || Closed(b)))
    case Not(_) => false
  }

  /** The coefficient of `u` in an affine expression. */
  function Coeff(e: Expr, u: Var): int
    requires Affine(e)
  {
    match e
    case Ref(w) => if w == u then 1 else 0
    case IntImm(_) => 0
    case Bin(op, a, b) =>
      if op == Add then Coeff(a, u) + Coeff(b, u)
      else if op == Sub then Coeff(a, u) - Coeff(b, u)
      else if Closed(a) then Eval(a, map[]) * Coeff(b, u)
      else Coeff(a, u) * Eval(b, map[])
  }

  lemma ClosedEval(e: Expr, env: Env)
    requires Closed(e)
    ensures Eval(e, env) == Eval(e, map[])
  {
    EvalAgree(e, env, map[]);
  }

  lemma ScaleShift(k: int, p1: int, p2: int, c: int, d: int)
    requires p1 - p2 == c * d
    ensures k * p1 - k * p2 == (k * c) * d
    ensures p1 * k - p2 * k == (c * k) * d
  {
    assert k * p1 - k * p2 == k * (p1 - p2);
    assert p1 * k - p2 * k == (p1 - p2) * k;
  }

  lemma SumShift(p1: int, p2: int, q1: int, q2: int, c1: int, c2: int, d: int)
    requires p1 - p2 == c1 * d && q1 - q2 == c2 * d
    ensures (p1 + q1) - (p2 + q2) == (c1 + c2) * d
    ensures (p1 - q1) - (p2 - q2) == (c1 - c2) * d
  {
    assert (c1 + c2) * d == c1 * d + c2 * d;
    assert (c1 - c2) * d == c1 * d - c2 * d;
  }

  /** Changing `u` from `y` to `x` changes an affine expression by its
      coefficient times `x - y`. */
  lemma {:induction false} CoeffShift(e: Expr, u: Var, env: Env, x: int, y: int)
    requires Affine(e)
    ensures Eval(e, Bind(env, u, x)) - Eval(e, Bind(env, u, y)) == Coeff(e, u) * (x - y)
  {
    var ex, ey := Bind(env, u, x), Bind(env, u, y);
    match e
    case Ref(_) =>
    case IntImm(_) =>
    case Bin(op, a, b) =>
      CoeffShift(a, u, env, x, y);
      CoeffShift(b, u, env, x, y);
      var a1, a2, b1, b2 := Eval(a, ex), Eval(a, ey), Eval(b, ex), Eval(b, ey);
      assert Eval(e, ex) == ApplyOp(op, a1, b1) && Eval(e, ey) == ApplyOp(op, a2, b2);
      if op == Mul {
        if Closed(a) {
          ClosedEval(a, ex);
          ClosedEval(a, ey);
          ScaleShift(Eval(a, map[]), b1, b2, Coeff(b, u), x - y);
        } else {
          ClosedEval(b, ex);
          ClosedEval(b, ey);
          ScaleShift(Eval(b, map[]), a1, a2, Coeff(a, u), x - y);
        }
      } else {
        SumShift(a1, a2, b1, b2, Coeff(a, u), Coeff(b, u), x - y);
      }
  }

  /** Variables whose coefficient is zero do not matter. */
  lemma {:induction false} IgnoresZeroCoeff(e: Expr, U: set<Var>, env1: Env, env2: Env)
    requires Affine(e)
    requires forall u :: u in U ==> Coeff(e, u) == 0
    requires forall u :: u in ExprVars(e) && u !in U ==> Lookup(env1, u) == Lookup(env2, u)
    ensures Eval(e, env1) == Eval(e, env2)
    decreases |U|
  {
    if U == {} {
      EvalAgree(e, env1, env2);
    } else {
      var u :| u in U;
      var env1' := Bind(env1, u, Lookup(env2, u));
      CoeffShift(e, u, env1, Lookup(env2, u), Lookup(env1, u));
      EvalAgree(e, Bind(env1, u, Lookup(env1, u)), env1);
      IgnoresZeroCoeff(e, U - {u}, env1', env2);
    }
  }

  /** An affine function of one variable that is non-negative at both ends of
      a range is non-negative on all of it. */
  lemma AffineBetween(c: int, b: int, lo: int, hi: int, x: int)
    requires lo <= x <= hi
    requires c * lo + b >= 0 && c * hi + b >= 0
    ensures c * x + b >= 0
  {
    if c >= 0 {
      assert c * (x - lo) >= 0;
    } else {
      assert c * (hi - x) <= 0;
    }
  }

  /** Proves `q.expr >= 0` when `q.expr` is affine, depends only on `q.v`, the
      range has constant ends, and the value is non-negative at both ends of
      the range (or the range is empty). */
  predicate LinearProve(q: Query) {
    && Affine(q.expr) && Closed(q.begin) && Closed(q.end)
    && (forall u :: u in ExprVars(q.expr) && u != q.v ==> Coeff(q.expr, u) == 0)
    && var lo, hi := Eval(q.begin, map[]), Eval(q.end, map[]);
       var c, b := Coeff(q.expr, q.v), Eval(q.expr, Bind(map[], q.v, 0));
       hi <= lo || (c * lo + b >= 0 && c * (hi - 1) + b >= 0)
  }

  /** The procedure only proves what is true. */
  lemma LinearProverSound()
    ensures SoundProver(LinearProve)
  {
    forall q: Query, env: Env | LinearProve(q) && InRange(q, env)
      ensures Eval(q.expr, env) >= 0
    {
      var e, v, x := q.expr, q.v, Lookup(env, q.v);
      var U := ExprVars(e) - {v};
      IgnoresZeroCoeff(e, U, env, Bind(map[], v, x));
      CoeffShift(e, v, map[], x, 0);
      ClosedEval(q.begin, env);
      ClosedEval(q.end, env);
      var lo, hi := Eval(q.begin, map[]), Eval(q.end, map[]);
      AffineBetween(Coeff(e, v), Eval(e, Bind(map[], v, 0)), lo, hi - 1, x);
    }
  }
}
