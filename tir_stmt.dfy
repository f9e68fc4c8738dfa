/// Statements of the tensor IR that the loop-if hoisting rewrite inspects:
/// an opaque leaf, a conditional with an optional else branch and a serial
/// loop over the half-open range [min, min + extent).
///
/// The meaning of a statement is the trace of writes its leaves perform, so
/// two statements are equivalent when they perform the same writes with the
/// same values in the same order.
module TirStmt {
  import opened Wrappers
  import opened TirExpr

  /** The loop kind, carried through the rewrite unchanged. */
  datatype ForType = Serial | Parallel | Vectorized | Unrolled

  /** The device API tag of a loop, also carried through unchanged. */
  type DeviceApi = nat

  datatype Stmt =
    | Store(buffer: nat, value: Expr)
    | IfThenElse(cond: Expr, thenCase: Stmt, elseCase: Option<Stmt>)
    | For(loopVar: Var, min: Expr, extent: Expr, forType: ForType, deviceApi: DeviceApi, body: Stmt)

  datatype Event = Write(buffer: nat, value: int)

  /** A loop with a negative extent runs no iteration. */
  function TripCount(extent: int): nat {
    if extent < 0 then 0 else extent
  }

  function Exec(s: Stmt, env: Env): seq<Event>
    decreases s, 0
  {
    match s
    case Store(buf, val) => [Write(buf, Eval(val, env))]
    case IfThenElse(c, t, e) =>
      if Holds(c, env) then Exec(t, env)
      else (match e case None => [] case Some(es) => Exec(es, env))
    case For(v, mn, ext, _, _, b) => Loop(v, Eval(mn, env), TripCount(Eval(ext, env)), b, env)
  }

  /** The iterations `lo`, `lo + 1`, ..., `lo + n - 1` of a loop over `v` running `body`. */
  function Loop(v: Var, lo: int, n: nat, body: Stmt, env: Env): seq<Event>
    decreases body, 1, n
  {
    if n == 0 then [] else Exec(body, Bind(env, v, lo)) + Loop(v, lo + 1, n - 1, body, env)
  }

  /** The variables read by some expression of `s` (loop binders are not included). */
  function UsedVars(s: Stmt): set<Var> {
    match s
    case Store(_, val) => ExprVars(val)
    case IfThenElse(c, t, e) =>
      ExprVars(c) + UsedVars(t) + (match e case None => {} case Some(es) => UsedVars(es))
    case For(_, mn, ext, _, _, b) => ExprVars(mn) + ExprVars(ext) + UsedVars(b)
  }

  /** The variables bound by some loop of `s`. */
  function BoundVars(s: Stmt): set<Var> {
    match s
    case Store(_, _) => {}
    case IfThenElse(_, t, e) =>
      BoundVars(t) + (match e case None => {} case Some(es) => BoundVars(es))
    case For(v, _, _, _, _, b) => {v} + BoundVars(b)
  }

  function AllVars(s: Stmt): set<Var> {
    UsedVars(s) + BoundVars(s)
  }

  /** Every use of `v` replaced by `r`; loop binders are left alone, like the
      IR's own substitution, which rewrites expressions only. */
  function SubstStmt(s: Stmt, v: Var, r: Expr): Stmt {
    match s
    case Store(buf, val) => Store(buf, SubstExpr(val, v, r))
    case IfThenElse(c, t, e) =>
      IfThenElse(SubstExpr(c, v, r), SubstStmt(t, v, r),
                 match e case None => None case Some(es) => Some(SubstStmt(es, v, r)))
    case For(w, mn, ext, ft, api, b) =>
      For(w, SubstExpr(mn, v, r), SubstExpr(ext, v, r), ft, api, SubstStmt(b, v, r))
  }

  /** Two loops with the same range are equivalent when their bodies are,
      iteration by iteration. */
  lemma {:induction false} LoopCongruence(v1: Var, v2: Var, lo: int, n: nat, b1: Stmt, b2: Stmt, env1: Env, env2: Env)
    requires forall x :: lo <= x < lo + n ==> Exec(b1, Bind(env1, v1, x)) == Exec(b2, Bind(env2, v2, x))
    ensures Loop(v1, lo, n, b1, env1) == Loop(v2, lo, n, b2, env2)
    decreases n
  {
    if n > 0 {
      assert Exec(b1, Bind(env1, v1, lo)) == Exec(b2, Bind(env2, v2, lo));
      LoopCongruence(v1, v2, lo + 1, n - 1, b1, b2, env1, env2);
    }
  }

  /** Executing a statement only looks at the variables it reads. */
  lemma {:induction false} ExecAgree(s: Stmt, env1: Env, env2: Env)
    requires forall u :: u in UsedVars(s) ==> Lookup(env1, u) == Lookup(env2, u)
    ensures Exec(s, env1) == Exec(s, env2)
  {
    match s
    case Store(_, val) =>
      EvalAgree(val, env1, env2);
    case IfThenElse(c, t, e) =>
      EvalAgree(c, env1, env2);
      ExecAgree(t, env1, env2);
      match e {
        case None =>
        case Some(es) => ExecAgree(es, env1, env2);
      }
    case For(w, mn, ext, _, _, b) =>
      EvalAgree(mn, env1, env2);
      EvalAgree(ext, env1, env2);
      var lo, n := Eval(mn, env1), TripCount(Eval(ext, env1));
      forall x | lo <= x < lo + n
        ensures Exec(b, Bind(env1, w, x)) == Exec(b, Bind(env2, w, x))
      {
        forall u | u in UsedVars(b) ensures Lookup(Bind(env1, w, x), u) == Lookup(Bind(env2, w, x), u) {
          if u != w {
            assert u in UsedVars(s);
          }
        }
        ExecAgree(b, Bind(env1, w, x), Bind(env2, w, x));
      }
      LoopCongruence(w, w, lo, n, b, b, env1, env2);
  }

  /** Renaming `v` to a variable `k` that no loop of `s` binds is the same as
      giving `v` the value of `k`. */
  lemma {:induction false} SubstStmtExec(s: Stmt, v: Var, k: Var, env: Env)
    requires v !in BoundVars(s) && k !in BoundVars(s)
    ensures Exec(SubstStmt(s, v, Ref(k)), env) == Exec(s, env[v := Lookup(env, k)])
  {
    var env' := env[v := Lookup(env, k)];
    match s
    case Store(_, val) =>
      SubstExprEval(val, v, Ref(k), env);
    case IfThenElse(c, t, e) =>
      SubstExprEval(c, v, Ref(k), env);
      SubstStmtExec(t, v, k, env);
      match e {
        case None =>
        case Some(es) => SubstStmtExec(es, v, k, env);
      }
    case For(w, mn, ext, _, _, b) =>
      SubstExprEval(mn, v, Ref(k), env);
      SubstExprEval(ext, v, Ref(k), env);
      var lo, n := Eval(mn, env'), TripCount(Eval(ext, env'));
      forall x | lo <= x < lo + n
        ensures Exec(SubstStmt(b, v, Ref(k)), Bind(env, w, x)) == Exec(b, Bind(env', w, x))
      {
        SubstStmtExec(b, v, k, Bind(env, w, x));
        ExecAgree(b, Bind(env, w, x)[v := Lookup(Bind(env, w, x), k)], Bind(env', w, x));
      }
      LoopCongruence(w, w, lo, n, SubstStmt(b, v, Ref(k)), b, env, env');
  }

  lemma {:induction false} SubstStmtVars(s: Stmt, v: Var, r: Expr)
    ensures UsedVars(SubstStmt(s, v, r)) <= (UsedVars(s) - {v}) + ExprVars(r)
    ensures BoundVars(SubstStmt(s, v, r)) == BoundVars(s)
  {
    match s
    case Store(_, val) =>
      SubstExprVars(val, v, r);
    case IfThenElse(c, t, e) =>
      SubstExprVars(c, v, r);
      SubstStmtVars(t, v, r);
      match e {
        case None =>
        case Some(es) => SubstStmtVars(es, v, r);
      }
    case For(_, mn, ext, _, _, b) =>
      SubstExprVars(mn, v, r);
      SubstExprVars(ext, v, r);
      SubstStmtVars(b, v, r);
  }

  /** Renaming the binder of a loop: a loop over a fresh `k` whose body has
      `v` replaced by `k` runs exactly like the loop over `v`. */
  lemma RenameLoop(v: Var, k: Var, mn: Expr, ext: Expr, ft: ForType, api: DeviceApi, b: Stmt, env: Env)
    requires k != v && k !in AllVars(b) && v !in BoundVars(b)
    ensures Exec(For(k, mn, ext, ft, api, SubstStmt(b, v, Ref(k))), env) == Exec(For(v, mn, ext, ft, api, b), env)
  {
    var lo, n := Eval(mn, env), TripCount(Eval(ext, env));
    forall x | lo <= x < lo + n
      ensures Exec(SubstStmt(b, v, Ref(k)), Bind(env, k, x)) == Exec(b, Bind(env, v, x))
    {
      SubstStmtExec(b, v, k, Bind(env, k, x));
      ExecAgree(b, Bind(env, k, x)[v := Lookup(Bind(env, k, x), k)], Bind(env, v, x));
    }
    LoopCongruence(k, v, lo, n, SubstStmt(b, v, Ref(k)), b, env, env);
  }
}
