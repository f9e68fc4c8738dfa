/// Index expressions of the tensor IR, restricted to the node kinds the
/// loop-if hoisting rewrite distinguishes, with their evaluation and the
/// structural substitution of a variable.
module TirExpr {

  /** A variable is compared by identity: `id` stands for the object identity
      of an IR variable, `nameHint` is only what it prints as. */
  datatype Var = Var(nameHint: string, id: nat)

  datatype BinOp =
    | Add | Sub | Mul
    | Lt | Le | Gt | Ge | Eq | Ne
    | And | Or

  datatype Expr =
    | Ref(v: Var)
    | IntImm(value: int)
    | Bin(op: BinOp, a: Expr, b: Expr)
    | Not(a: Expr)

  /** A state gives every variable an integer; an unbound variable reads 0. */
  type Env = map<Var, int>

  function Lookup(env: Env, u: Var): int {
    if u in env then env[u] else 0
  }

  /** `env` with `v` set to `x`, for instance the state of one loop iteration. */
  function Bind(env: Env, v: Var, x: int): Env {
    env[v := x]
  }

  function BoolToInt(b: bool): int {
    if b then 1 else 0
  }

  function ApplyOp(op: BinOp, x: int, y: int): int {
    match op
    case Add => x + y
    case Sub => x - y
    case Mul => x * y
    case Lt => BoolToInt(x < y)
    case Le => BoolToInt(x <= y)
    case Gt => BoolToInt(x > y)
    case Ge => BoolToInt(x >= y)
    case Eq => BoolToInt(x == y)
    case Ne => BoolToInt(x != y)
    case And => BoolToInt(x != 0 && y != 0)
    case Or => BoolToInt(x != 0 || y != 0)
  }

  /** Unbounded integer evaluation; a comparison or a logical node gives 0 or 1. */
  function Eval(e: Expr, env: Env): int {
    match e
    case Ref(u) => Lookup(env, u)
    case IntImm(c) => c
    case Bin(op, a, b) => ApplyOp(op, Eval(a, env), Eval(b, env))
    case Not(a) => BoolToInt(Eval(a, env) == 0)
  }

  /** A condition holds when it evaluates to a non-zero value. */
  predicate Holds(e: Expr, env: Env) {
    Eval(e, env) != 0
  }

  function ExprVars(e: Expr): set<Var> {
    match e
    case Ref(u) => {u}
    case IntImm(_) => {}
    case Bin(_, a, b) => ExprVars(a) + ExprVars(b)
    case Not(a) => ExprVars(a)
  }

  /** Every occurrence of `v` replaced by `r`. */
  function SubstExpr(e: Expr, v: Var, r: Expr): Expr {
    match e
    case Ref(u) => if u == v then r else e
    case IntImm(_) => e
    case Bin(op, a, b) => Bin(op, SubstExpr(a, v, r), SubstExpr(b, v, r))
    case Not(a) => Not(SubstExpr(a, v, r))
  }

  /** Evaluation only looks at the variables that occur. */
  lemma {:induction false} EvalAgree(e: Expr, env1: Env, env2: Env)
    requires forall u :: u in ExprVars(e) ==> Lookup(env1, u) == Lookup(env2, u)
    ensures Eval(e, env1) == Eval(e, env2)
  {
    match e
    case Ref(_) =>
    case IntImm(_) =>
    case Bin(_, a, b) =>
      EvalAgree(a, env1, env2);
      EvalAgree(b, env1, env2);
    case Not(a) =>
      EvalAgree(a, env1, env2);
  }

  /** Substituting `r` for `v` is the same as evaluating with `v` set to the value of `r`. */
  lemma {:induction false} SubstExprEval(e: Expr, v: Var, r: Expr, env: Env)
    ensures Eval(SubstExpr(e, v, r), env) == Eval(e, Bind(env, v, Eval(r, env)))
  {
    match e
    case Ref(u) =>
    case IntImm(_) =>
    case Bin(_, a, b) =>
      SubstExprEval(a, v, r, env);
      SubstExprEval(b, v, r, env);
    case Not(a) =>
      SubstExprEval(a, v, r, env);
  }

  lemma {:induction false} SubstExprVars(e: Expr, v: Var, r: Expr)
    ensures ExprVars(SubstExpr(e, v, r)) <= (ExprVars(e) - {v}) + ExprVars(r)
  {
    match e
    case Ref(_) =>
    case IntImm(_) =>
    case Bin(_, a, b) =>
      SubstExprVars(a, v, r);
      SubstExprVars(b, v, r);
    case Not(a) =>
      SubstExprVars(a, v, r);
  }

  /** Writing a decimal counter, as `std::to_string` does for a non-negative int. */
  function NatToString(n: nat): (s: string)
    ensures |s| > 0
    ensures forall k :: 0 <= k < |s| ==> '0' <= s[k] <= '9'
  {
    var d := ['0' + (n % 10) as char];
    if n < 10 then d else NatToString(n / 10) + d
  }
}
