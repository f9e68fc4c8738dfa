/// Concrete loops run through the rewrite with the affine prover standing in
/// for the arithmetic analyzer: the split reduction of the unit test and a
/// loop under two comparisons.
module HoistExamples {
  import opened Wrappers
  import opened TirExpr
  import opened TirStmt
  import opened Relaxation
  import opened LinearProver
  import opened HoistRelaxedIf
  import opened HoistProperties

  // ---------------------------------------------------------------------
  // The split reduction: sum of i * 2 for i < N, with i split by 4
  // ---------------------------------------------------------------------

  const N := Var("N", 0)
  const IOuter := Var("i.outer", 1)
  const IInner := Var("i.inner", 2)

  /** The reduction index `i.outer * 4 + i.inner`. */
  function Index(): Expr {
    Bin(Add, Bin(Mul, Ref(IOuter), IntImm(4)), Ref(IInner))
  }

  /** The inner loop after splitting: the tail iterations are cut off by a
      bound check on the reduction index. */
  function SplitInner(): Stmt {
    For(IInner, IntImm(0), IntImm(4), Serial, 0,
        IfThenElse(Bin(Lt, Index(), Ref(N)), Store(0, Bin(Mul, Index(), IntImm(2))), None))
  }

  /** The outer loop around an inner statement, four iterations as for N = 15. */
  function SplitOuter(inner: Stmt): Stmt {
    For(IOuter, IntImm(0), IntImm(4), Serial, 0, inner)
  }

  /** The bound check in normal form, `i.outer * 4 + i.inner - N`. */
  function SplitNormal(): Expr {
    Bin(Sub, Index(), Ref(N))
  }

  lemma IndexEval(env: Env)
    ensures Eval(Index(), env) == 4 * Lookup(env, IOuter) + Lookup(env, IInner)
  {
    assert Eval(Bin(Mul, Ref(IOuter), IntImm(4)), env) == Lookup(env, IOuter) * 4;
  }

  lemma SplitMinQueryRefused()
    ensures !LinearProve(EndpointQuery(SplitNormal(), IInner, IntImm(0), LoopEnd(SplitInner()), IntImm(0)))
  {
    var q := EndpointQuery(SplitNormal(), IInner, IntImm(0), LoopEnd(SplitInner()), IntImm(0));
    var at := Bin(Sub, Bin(Add, Bin(Mul, Ref(IOuter), IntImm(4)), IntImm(0)), Ref(N));
    assert SubstExpr(SplitNormal(), IInner, IntImm(0)) == at;
    assert q.expr == Bin(Sub, at, SplitNormal());
    assert Affine(q.expr);
    assert Coeff(q.expr, IInner) == -1;
    var m := Bind(map[], IInner, 0);
    assert Eval(Bin(Mul, Ref(IOuter), IntImm(4)), m) == 0;
    assert Eval(Bin(Add, Bin(Mul, Ref(IOuter), IntImm(4)), IntImm(0)), m) == 0;
    assert Eval(at, m) == 0 - Lookup(m, N);
    IndexEval(m);
    assert Eval(SplitNormal(), m) == 0 - Lookup(m, N);
    assert Eval(q.expr, m) == 0;
    assert Eval(q.end, map[]) == 4;
  }

  lemma SplitMaxQueryProved()
    ensures LinearProve(EndpointQuery(SplitNormal(), IInner, IntImm(0), LoopEnd(SplitInner()), Last(LoopEnd(SplitInner()))))
  {
    var last := Last(LoopEnd(SplitInner()));
    var q := EndpointQuery(SplitNormal(), IInner, IntImm(0), LoopEnd(SplitInner()), last);
    var at := Bin(Sub, Bin(Add, Bin(Mul, Ref(IOuter), IntImm(4)), last), Ref(N));
    assert SubstExpr(SplitNormal(), IInner, last) == at;
    assert q.expr == Bin(Sub, at, SplitNormal());
    assert Affine(q.expr);
    assert ExprVars(q.expr) == {IOuter, N, IInner};
    assert Coeff(q.expr, IOuter) == 0;
    assert Coeff(q.expr, N) == 0;
    assert Coeff(q.expr, IInner) == -1;
    var m := Bind(map[], IInner, 0);
    assert Eval(LoopEnd(SplitInner()), m) == 4;
    assert Eval(last, m) == 3;
    assert Eval(Bin(Mul, Ref(IOuter), IntImm(4)), m) == 0;
    assert Eval(Bin(Add, Bin(Mul, Ref(IOuter), IntImm(4)), last), m) == 3;
    assert Eval(at, m) == 3 - Lookup(m, N);
    IndexEval(m);
    assert Eval(SplitNormal(), m) == 0 - Lookup(m, N);
    assert Eval(q.expr, m) == 3;
    assert Eval(q.end, map[]) == 4;
  }

  /** The structure the unit test expects: the outer loop's body is a
      two-branch conditional whose then branch is a loop without a
      conditional inside and whose else branch is a loop with one; rewriting
      the outer loop afterwards changes nothing. */
  lemma SplitReductionShape()
    ensures var inner := Hoisted(SplitInner(), LinearProve, 3);
      var outer := Hoisted(SplitOuter(inner), LinearProve, 4);
      && outer == SplitOuter(inner)
      && outer.body.IfThenElse? && outer.body.elseCase.Some?
      && outer.body.thenCase.For? && !outer.body.thenCase.body.IfThenElse?
      && outer.body.elseCase.value.For? && outer.body.elseCase.value.body.IfThenElse?
  {
    var op := SplitInner();
    assert ChainConds(op.body) == [Bin(Lt, Index(), Ref(N))];
    assert Reduce(Bin(Lt, Index(), Ref(N))) == Some(SplitNormal());
    SplitMinQueryRefused();
    SplitMaxQueryProved();
    assert Guard(op, LinearProve, 0).Some?;
    var inner := Hoisted(op, LinearProve, 3);
    assert inner == IfThenElse(Guard(op, LinearProve, 0).value, Folded(op, LinearProve, 3, 0), Some(SlowPath(op, 3, 0)));
    assert !IsCandidate(inner);
  }

  /** The sum of the values a trace writes. */
  function Total(t: seq<Event>): int {
    if t == [] then 0 else t[0].value + Total(t[1..])
  }

  lemma {:induction false} TotalAppend(t1: seq<Event>, t2: seq<Event>)
    ensures Total(t1 + t2) == Total(t1) + Total(t2)
    decreases |t1|
  {
    if t1 == [] {
      assert t1 + t2 == t2;
    } else {
      assert (t1 + t2)[0] == t1[0];
      assert (t1 + t2)[1..] == t1[1..] + t2;
      TotalAppend(t1[1..], t2);
    }
  }

  lemma SplitBodyTrace(env: Env, o: int, k: int)
    requires Lookup(env, N) == 15
    ensures var t := Exec(SplitInner().body, Bind(Bind(env, IOuter, o), IInner, k));
      Total(t) == if 4 * o + k < 15 then 2 * (4 * o + k) else 0
  {
    var e := Bind(Bind(env, IOuter, o), IInner, k);
    assert Lookup(e, IOuter) == o && Lookup(e, IInner) == k && Lookup(e, N) == 15;
    IndexEval(e);
    var i := 4 * o + k;
    assert Eval(Ref(N), e) == 15;
    assert Eval(Bin(Lt, Index(), Ref(N)), e) == BoolToInt(i < 15);
    assert Holds(Bin(Lt, Index(), Ref(N)), e) <==> i < 15;
    assert Eval(Bin(Mul, Index(), IntImm(2)), e) == 2 * i;
    if i < 15 {
      assert Exec(SplitInner().body, e) == [Write(0, 2 * i)];
    } else {
      assert Exec(SplitInner().body, e) == [];
    }
  }

  /** What one iteration of the outer loop of the original program writes. */
  lemma InnerTotal(env: Env, o: int)
    requires Lookup(env, N) == 15 && 0 <= o < 4
    ensures Total(Exec(SplitInner(), Bind(env, IOuter, o))) == if o < 3 then 32 * o + 12 else 78
  {
    var e := Bind(env, IOuter, o);
    var b := SplitInner().body;
    var t0, t1, t2, t3 := Exec(b, Bind(e, IInner, 0)), Exec(b, Bind(e, IInner, 1)),
                          Exec(b, Bind(e, IInner, 2)), Exec(b, Bind(e, IInner, 3));
    SplitBodyTrace(env, o, 0);
    SplitBodyTrace(env, o, 1);
    SplitBodyTrace(env, o, 2);
    SplitBodyTrace(env, o, 3);
    assert Loop(IInner, 3, 1, b, e) == t3;
    assert Loop(IInner, 2, 2, b, e) == t2 + t3;
    assert Loop(IInner, 1, 3, b, e) == t1 + (t2 + t3);
    assert Exec(SplitInner(), e) == t0 + (t1 + (t2 + t3));
    TotalAppend(t2, t3);
    TotalAppend(t1, t2 + t3);
    TotalAppend(t0, t1 + (t2 + t3));
  }

  /** With N = 15 the rewritten program writes values summing to 210, the
      sum of i * 2 for i < 15. */
  lemma SplitReductionTotal(env: Env)
    requires Lookup(env, N) == 15
    ensures Total(Exec(SplitOuter(Hoisted(SplitInner(), LinearProve, 3)), env)) == 210
  {
    var s := SplitInner();
    var inner := Hoisted(s, LinearProve, 3);
    LinearProverSound();
    assert Hoistable(s, 3) by {
      assert AllVars(s) == {IOuter, IInner, N};
    }
    forall x | 0 <= x < 4
      ensures Exec(inner, Bind(env, IOuter, x)) == Exec(s, Bind(env, IOuter, x))
    {
      HoistPreservesSemantics(s, LinearProve, 3, Bind(env, IOuter, x));
    }
    LoopCongruence(IOuter, IOuter, 0, 4, inner, s, env, env);
    var t0, t1, t2, t3 := Exec(s, Bind(env, IOuter, 0)), Exec(s, Bind(env, IOuter, 1)),
                          Exec(s, Bind(env, IOuter, 2)), Exec(s, Bind(env, IOuter, 3));
    assert Loop(IOuter, 3, 1, s, env) == t3;
    assert Loop(IOuter, 2, 2, s, env) == t2 + t3;
    assert Loop(IOuter, 1, 3, s, env) == t1 + (t2 + t3);
    assert Exec(SplitOuter(s), env) == t0 + (t1 + (t2 + t3));
    InnerTotal(env, 0);
    InnerTotal(env, 1);
    InnerTotal(env, 2);
    InnerTotal(env, 3);
    TotalAppend(t2, t3);
    TotalAppend(t1, t2 + t3);
    TotalAppend(t0, t1 + (t2 + t3));
  }

  // ---------------------------------------------------------------------
  // A loop under two comparisons
  // ---------------------------------------------------------------------

  const I := Var("i", 0)

  /** `for i in [0, 8): if i < 5: if i >= 2: A[0] = i` */
  function TwoChecks(): Stmt {
    For(I, IntImm(0), IntImm(8), Serial, 0,
        IfThenElse(Bin(Lt, Ref(I), IntImm(5)),
                   IfThenElse(Bin(Ge, Ref(I), IntImm(2)), Store(0, Ref(I)), None), None))
  }

  lemma TwoChecksInnerQuery()
    ensures LinearProve(EndpointQuery(Bin(Sub, IntImm(2), Ref(I)), I, IntImm(0), LoopEnd(TwoChecks()), IntImm(0)))
  {
    var d := Bin(Sub, IntImm(2), Ref(I));
    var q := EndpointQuery(d, I, IntImm(0), LoopEnd(TwoChecks()), IntImm(0));
    assert q.expr == Bin(Sub, Bin(Sub, IntImm(2), IntImm(0)), d);
    assert ExprVars(q.expr) == {I};
    assert Coeff(q.expr, I) == 1;
    var m := Bind(map[], I, 0);
    assert Eval(d, m) == 2;
    assert Eval(Bin(Sub, IntImm(2), IntImm(0)), m) == 2;
    assert Eval(q.expr, m) == 0;
    assert Eval(q.end, map[]) == 8;
  }

  lemma TwoChecksOuterQueries()
    ensures !LinearProve(EndpointQuery(Bin(Sub, Ref(I), IntImm(5)), I, IntImm(0), LoopEnd(TwoChecks()), IntImm(0)))
    ensures LinearProve(EndpointQuery(Bin(Sub, Ref(I), IntImm(5)), I, IntImm(0), LoopEnd(TwoChecks()), Last(LoopEnd(TwoChecks()))))
  {
    var d := Bin(Sub, Ref(I), IntImm(5));
    var last := Last(LoopEnd(TwoChecks()));
    var m := Bind(map[], I, 0);
    assert Eval(d, m) == -5;
    var q0 := EndpointQuery(d, I, IntImm(0), LoopEnd(TwoChecks()), IntImm(0));
    assert q0.expr == Bin(Sub, Bin(Sub, IntImm(0), IntImm(5)), d);
    assert Coeff(q0.expr, I) == -1;
    assert Eval(Bin(Sub, IntImm(0), IntImm(5)), m) == -5;
    assert Eval(q0.expr, m) == 0;
    assert Eval(q0.end, map[]) == 8;
    var q1 := EndpointQuery(d, I, IntImm(0), LoopEnd(TwoChecks()), last);
    assert q1.expr == Bin(Sub, Bin(Sub, last, IntImm(5)), d);
    assert ExprVars(q1.expr) == {I};
    assert Coeff(q1.expr, I) == -1;
    assert Eval(LoopEnd(TwoChecks()), m) == 8;
    assert Eval(last, m) == 7;
    assert Eval(Bin(Sub, last, IntImm(5)), m) == 2;
    assert Eval(q1.expr, m) == 7;
  }

  /** For `i >= 2` the normal form is `2 - i`, which is largest at the lower
      end, so the guard is the condition at `i = 0`, which is false; the
      condition at the upper end, `7 >= 2`, is true although `i >= 2` fails at
      `i = 0`, so it would not have been a sound guard. For `i < 5` the normal
      form `i - 5` is largest at the upper end and the guard is `7 < 5`. Both
      guards are false, so the slow path runs. */
  lemma TwoChecksGuards(env: Env)
    ensures Guard(TwoChecks(), LinearProve, 1) == Some(Bin(Ge, IntImm(0), IntImm(2)))
    ensures Guard(TwoChecks(), LinearProve, 0) == Some(Bin(Lt, Last(LoopEnd(TwoChecks())), IntImm(5)))
    ensures !Holds(Bin(Ge, IntImm(0), IntImm(2)), env)
    ensures !Holds(Bin(Lt, Last(LoopEnd(TwoChecks())), IntImm(5)), env)
    ensures Holds(Bin(Ge, IntImm(7), IntImm(2)), env) && !Holds(Bin(Ge, Ref(I), IntImm(2)), Bind(env, I, 0))
  {
    TwoInnerGuard();
    TwoOuterGuard();
    assert Eval(LoopEnd(TwoChecks()), env) == 8;
    assert Eval(Last(LoopEnd(TwoChecks())), env) == 7;
    assert Eval(Bin(Ge, IntImm(0), IntImm(2)), env) == ApplyOp(Ge, 0, 2) == 0;
    assert Eval(Bin(Lt, Last(LoopEnd(TwoChecks())), IntImm(5)), env) == ApplyOp(Lt, 7, 5) == 0;
    assert Eval(Bin(Ge, IntImm(7), IntImm(2)), env) == ApplyOp(Ge, 7, 2) == 1;
    assert Eval(Ref(I), Bind(env, I, 0)) == 0;
    assert Eval(Bin(Ge, Ref(I), IntImm(2)), Bind(env, I, 0)) == ApplyOp(Ge, 0, 2) == 0;
  }

  lemma TwoInnerGuard()
    ensures Guard(TwoChecks(), LinearProve, 1) == Some(Bin(Ge, IntImm(0), IntImm(2)))
  {
    var op := TwoChecks();
    var c1 := Bin(Ge, Ref(I), IntImm(2));
    assert ChainConds(op.body) == [Bin(Lt, Ref(I), IntImm(5)), c1];
    assert Reduce(c1) == Some(Bin(Sub, IntImm(2), Ref(I)));
    TwoChecksInnerQuery();
    assert SubstExpr(c1, I, IntImm(0)) == Bin(Ge, IntImm(0), IntImm(2));
  }

  lemma TwoOuterGuard()
    ensures Guard(TwoChecks(), LinearProve, 0) == Some(Bin(Lt, Last(LoopEnd(TwoChecks())), IntImm(5)))
  {
    var op := TwoChecks();
    var c0 := Bin(Lt, Ref(I), IntImm(5));
    assert ChainConds(op.body) == [c0, Bin(Ge, Ref(I), IntImm(2))];
    assert Reduce(c0) == Some(Bin(Sub, Ref(I), IntImm(5)));
    TwoChecksOuterQueries();
    assert SubstExpr(c0, I, Last(LoopEnd(op))) == Bin(Lt, Last(LoopEnd(op)), IntImm(5));
  }
}
