/// What the loop-if hoisting rewrite guarantees: the shape of the slow paths,
/// distinct binders for the loops it introduces, that it leaves a loop
/// without a chain alone, that the fast loop runs without per-iteration
/// checks, and that the rewritten loop performs exactly the writes of the
/// original one.
module HoistProperties {
  import opened Wrappers
  import opened TirExpr
  import opened TirStmt
  import opened Relaxation
  import opened HoistRelaxedIf

  /** The conditions under which the rewrite of `op` preserves meaning: the
      loop variable does not occur in the range of the loop and is bound by no
      loop inside it, and every variable of the loop has an identity below
      `nextId`, the first one the rewrite hands out. */
  predicate Hoistable(op: Stmt, nextId: nat) {
    && op.For?
    && op.loopVar !in ExprVars(op.min)
    && op.loopVar !in ExprVars(op.extent)
    && op.loopVar !in BoundVars(op.body)
    && forall u :: u in AllVars(op) ==> u.id < nextId
  }

  // ---------------------------------------------------------------------
  // Identity on loops without a chain
  // ---------------------------------------------------------------------

  /** The loop over the stripped body that the rewrite seeds its result with
      is left unchanged by a second rewrite, whatever the analyzer says and
      whatever identities are handed out. */
  lemma SeedIsFixpoint(op: Stmt, prove: Prover, nextId: nat, prove': Prover, nextId': nat)
    requires op.For?
    ensures Hoisted(Folded(op, prove, nextId, 0), prove', nextId') == Folded(op, prove, nextId, 0)
  {
    ChainRoundTrip(op.body);
  }

  lemma {:induction false} FoldedHead(op: Stmt, prove: Prover, nextId: nat, j: nat)
    requires op.For? && 0 < j <= |ChainConds(op.body)|
    ensures var r := Folded(op, prove, nextId, j);
      r.IfThenElse? || (r.For? && r.loopVar.id >= nextId)
  {
  }

  /** Conversely, a loop headed by an else-less conditional is always changed:
      the result is a selection, or a loop over a new variable. */
  lemma RewriteChangesChainedLoop(op: Stmt, prove: Prover, nextId: nat)
    requires op.For? && IsCandidate(op.body) && op.loopVar.id < nextId
    ensures Hoisted(op, prove, nextId) != op
  {
    FoldedHead(op, prove, nextId, |ChainConds(op.body)|);
  }

  // ---------------------------------------------------------------------
  // Slow paths
  // ---------------------------------------------------------------------

  lemma {:induction false} SubstKeepsCandidate(s: Stmt, v: Var, r: Expr)
    ensures IsCandidate(SubstStmt(s, v, r)) <==> IsCandidate(s)
  {
    match s
    case Store(_, _) =>
    case IfThenElse(_, _, e) =>
      match e {
        case None =>
        case Some(_) =>
      }
    case For(_, _, _, _, _, _) =>
  }

  /** Renaming commutes with wrapping a body in conditionals. */
  lemma {:induction false} SubstWrap(conds: seq<Expr>, t: Stmt, v: Var, r: Expr)
    ensures SubstStmt(Wrap(conds, t), v, r) ==
            Wrap(seq(|conds|, j requires 0 <= j < |conds| => SubstExpr(conds[j], v, r)), SubstStmt(t, v, r))
    decreases |conds|
  {
    if conds != [] {
      SubstWrap(conds[1..], t, v, r);
      assert seq(|conds|, j requires 0 <= j < |conds| => SubstExpr(conds[j], v, r))[1..] ==
             seq(|conds| - 1, j requires 0 <= j < |conds| - 1 => SubstExpr(conds[1..][j], v, r));
    }
  }

  /** The slow path for condition `i` is a loop with the original range,
      kind and device tag, over a variable that is new to `op`, whose body is
      the chain of the original conditions from level `i` inwards around the
      stripped body, all with the loop variable renamed; no use of the
      original loop variable is left in it. */
  lemma SlowPathShape(op: Stmt, nextId: nat, i: nat)
    requires Hoistable(op, nextId) && i < |ChainConds(op.body)|
    ensures var sp := SlowPath(op, nextId, i);
      var cs := ChainConds(op.body);
      var k := sp.loopVar;
      && sp.For? && sp.min == op.min && sp.extent == op.extent
      && sp.forType == op.forType && sp.deviceApi == op.deviceApi
      && k !in AllVars(op) && k.id == nextId + |cs| - 1 - i
      && ChainConds(sp.body) == seq(|cs| - i, j requires 0 <= j < |cs| - i => SubstExpr(cs[i + j], op.loopVar, Ref(k)))
      && ChainBody(sp.body) == SubstStmt(ChainBody(op.body), op.loopVar, Ref(k))
      && op.loopVar !in UsedVars(sp.body)
  {
    var cs := ChainConds(op.body);
    var sp := SlowPath(op, nextId, i);
    var k := sp.loopVar;
    var v := op.loopVar;
    assert v in AllVars(op);
    SubstWrap(cs[i..], ChainBody(op.body), v, Ref(k));
    ChainRoundTrip(op.body);
    SubstKeepsCandidate(ChainBody(op.body), v, Ref(k));
    var rcs := seq(|cs[i..]|, j requires 0 <= j < |cs[i..]| => SubstExpr(cs[i..][j], v, Ref(k)));
    ChainUnique(rcs, SubstStmt(ChainBody(op.body), v, Ref(k)));
    SubstStmtVars(Level(op.body, i), v, Ref(k));
  }

  /** A slow path runs exactly like the original loop over the conditionals
      from its level inwards. */
  lemma SlowPathEquivalent(op: Stmt, nextId: nat, i: nat, env: Env)
    requires Hoistable(op, nextId) && i < |ChainConds(op.body)|
    ensures Exec(SlowPath(op, nextId, i), env) ==
            Exec(For(op.loopVar, op.min, op.extent, op.forType, op.deviceApi, Level(op.body, i)), env)
  {
    var k := NewVar(op.loopVar, nextId, |ChainConds(op.body)| - 1 - i);
    LevelVars(op.body, i);
    assert op.loopVar in AllVars(op);
    assert k !in AllVars(Level(op.body, i));
    RenameLoop(op.loopVar, k, op.min, op.extent, op.forType, op.deviceApi, Level(op.body, i), env);
  }

  /** The rewrite is not idempotent: every slow path is again a loop headed
      by an else-less conditional, so rewriting it a second time (with
      identities not yet in use) changes it. */
  lemma SlowPathRewrittenAgain(op: Stmt, nextId: nat, i: nat, prove: Prover, nextId': nat)
    requires Hoistable(op, nextId) && i < |ChainConds(op.body)|
    requires nextId' >= nextId + |ChainConds(op.body)|
    ensures IsCandidate(SlowPath(op, nextId, i).body)
    ensures Hoisted(SlowPath(op, nextId, i), prove, nextId') != SlowPath(op, nextId, i)
  {
    var sp := SlowPath(op, nextId, i);
    SlowPathShape(op, nextId, i);
    assert |ChainConds(sp.body)| > 0;
    RewriteChangesChainedLoop(sp, prove, nextId');
  }

  // ---------------------------------------------------------------------
  // Binders of the introduced loops
  // ---------------------------------------------------------------------

  /** The binders of the loops at the top of a result: those reached through
      the two-branch selections without entering a loop. */
  function TopLoops(s: Stmt): seq<Var> {
    match s
    case IfThenElse(_, t, Some(e)) => TopLoops(t) + TopLoops(e)
    case For(v, _, _, _, _, _) => [v]
    case _ => []
  }

  /** The binders at the top of the result after `j` steps have pairwise
      distinct identities: the loop variable's, or `nextId + c` for a counter
      `c < j`. */
  predicate BindersAfter(ts: seq<Var>, v: Var, nextId: nat, j: nat) {
    && (forall a, b :: 0 <= a < b < |ts| ==> ts[a].id != ts[b].id)
    && (forall a :: 0 <= a < |ts| ==> ts[a] == v || nextId <= ts[a].id < nextId + j)
  }

  lemma {:induction false} FoldedBinders(op: Stmt, prove: Prover, nextId: nat, j: nat)
    requires op.For? && op.loopVar.id < nextId && j <= |ChainConds(op.body)|
    ensures BindersAfter(TopLoops(Folded(op, prove, nextId, j)), op.loopVar, nextId, j)
    decreases j
  {
    if j > 0 {
      var i := |ChainConds(op.body)| - j;
      var k := NewVar(op.loopVar, nextId, j - 1);
      assert TopLoops(SlowPath(op, nextId, i)) == [k];
      match Guard(op, prove, i)
      case None =>
      case Some(g) =>
        var prev := TopLoops(Folded(op, prove, nextId, j - 1));
        FoldedBinders(op, prove, nextId, j - 1);
        assert TopLoops(Folded(op, prove, nextId, j)) == prev + [k];
        forall a | 0 <= a < |prev| ensures prev[a].id != k.id {
          assert prev[a] == op.loopVar || prev[a].id < nextId + j - 1;
        }
    }
  }

  /** The loops the rewrite puts at the top of its result bind pairwise
      distinct variables: the original loop variable at most once (the fast
      loop) and otherwise one new variable per level, none of which occurs in
      the original loop. */
  lemma HoistedBinders(op: Stmt, prove: Prover, nextId: nat)
    requires Hoistable(op, nextId)
    ensures var ts := TopLoops(Hoisted(op, prove, nextId));
      && (forall a, b :: 0 <= a < b < |ts| ==> ts[a] != ts[b])
      && (forall a :: 0 <= a < |ts| ==> ts[a] == op.loopVar || ts[a] !in AllVars(op))
  {
    var ts := TopLoops(Hoisted(op, prove, nextId));
    assert op.loopVar in AllVars(op);
    FoldedBinders(op, prove, nextId, |ChainConds(op.body)|);
    forall a | 0 <= a < |ts| ensures ts[a] == op.loopVar || ts[a] !in AllVars(op) {
      if ts[a] in AllVars(op) {
        assert ts[a].id < nextId;
      }
    }
    forall a, b | 0 <= a < b < |ts| ensures ts[a] != ts[b] {
      assert ts[a].id != ts[b].id;
    }
  }

  // ---------------------------------------------------------------------
  // The fast path
  // ---------------------------------------------------------------------

  /** The loop that runs in state `env`: the two-branch selections are
      followed by their guards until a statement of another kind. */
  function Selected(s: Stmt, env: Env): Stmt {
    match s
    case IfThenElse(c, t, Some(e)) => if Holds(c, env) then Selected(t, env) else Selected(e, env)
    case _ => s
  }

  lemma {:induction false} FoldedFastPath(op: Stmt, prove: Prover, nextId: nat, env: Env, j: nat)
    requires op.For? && j <= |ChainConds(op.body)|
    requires forall i :: |ChainConds(op.body)| - j <= i < |ChainConds(op.body)| ==>
      Guard(op, prove, i).Some? && Holds(Guard(op, prove, i).value, env)
    ensures Selected(Folded(op, prove, nextId, j), env) ==
      For(op.loopVar, op.min, op.extent, op.forType, op.deviceApi, ChainBody(op.body))
    decreases j
  {
    if j > 0 {
      assert Guard(op, prove, |ChainConds(op.body)| - j).Some?;
      FoldedFastPath(op, prove, nextId, env, j - 1);
    }
  }

  /** When every condition was relaxed and every guard is true, the loop that
      runs is the original loop over the stripped body: no condition of the
      chain is checked per iteration. */
  lemma HoistedFastPath(op: Stmt, prove: Prover, nextId: nat, env: Env)
    requires op.For?
    requires forall i :: 0 <= i < |ChainConds(op.body)| ==>
      Guard(op, prove, i).Some? && Holds(Guard(op, prove, i).value, env)
    ensures Selected(Hoisted(op, prove, nextId), env) ==
      For(op.loopVar, op.min, op.extent, op.forType, op.deviceApi, ChainBody(op.body))
    ensures !IsCandidate(ChainBody(op.body))
  {
    FoldedFastPath(op, prove, nextId, env, |ChainConds(op.body)|);
    ChainRoundTrip(op.body);
  }

  // ---------------------------------------------------------------------
  // Semantic equivalence
  // ---------------------------------------------------------------------

  /** A check that holds on every iteration can be dropped. */
  lemma DropCheck(op: Stmt, c: Expr, w: Stmt, env: Env)
    requires op.For?
    requires forall x :: Eval(op.min, env) <= x < Eval(LoopEnd(op), env) ==> Holds(c, Bind(env, op.loopVar, x))
    ensures Exec(For(op.loopVar, op.min, op.extent, op.forType, op.deviceApi, w), env) ==
            Exec(For(op.loopVar, op.min, op.extent, op.forType, op.deviceApi, IfThenElse(c, w, None)), env)
  {
    var lo, n := Eval(op.min, env), TripCount(Eval(op.extent, env));
    forall x | lo <= x < lo + n
      ensures Exec(w, Bind(env, op.loopVar, x)) == Exec(IfThenElse(c, w, None), Bind(env, op.loopVar, x))
    {
      assert Holds(c, Bind(env, op.loopVar, x));
    }
    LoopCongruence(op.loopVar, op.loopVar, lo, n, w, IfThenElse(c, w, None), env, env);
  }

  lemma {:induction false} FoldedEquivalent(op: Stmt, prove: Prover, nextId: nat, j: nat, env: Env)
    requires Hoistable(op, nextId) && SoundProver(prove) && j <= |ChainConds(op.body)|
    ensures Exec(Folded(op, prove, nextId, j), env) ==
      Exec(For(op.loopVar, op.min, op.extent, op.forType, op.deviceApi, Level(op.body, |ChainConds(op.body)| - j)), env)
    decreases j
  {
    var n := |ChainConds(op.body)|;
    if j > 0 {
      var i := n - j;
      var c := ChainConds(op.body)[i];
      LevelStep(op.body, i);
      SlowPathEquivalent(op, nextId, i, env);
      match Guard(op, prove, i)
      case None =>
      case Some(g) =>
        if Holds(g, env) {
          FoldedEquivalent(op, prove, nextId, j - 1, env);
          GuardSound(c, op.loopVar, op.min, LoopEnd(op), prove, env);
          DropCheck(op, c, Level(op.body, i + 1), env);
        }
    }
  }

  /** The rewrite preserves meaning: the rewritten loop performs the same
      writes, with the same values and in the same order, as the original
      loop, in every state. */
  lemma HoistPreservesSemantics(op: Stmt, prove: Prover, nextId: nat, env: Env)
    requires Hoistable(op, nextId) && SoundProver(prove)
    ensures Exec(Hoisted(op, prove, nextId), env) == Exec(op, env)
  {
    FoldedEquivalent(op, prove, nextId, |ChainConds(op.body)|, env);
    ChainRoundTrip(op.body);
  }

  /** All of `conds` hold in `env`. */
  predicate AllHold(conds: seq<Expr>, env: Env) {
    forall i :: 0 <= i < |conds| ==> Holds(conds[i], env)
  }

  /** The reference meaning of a loop with a chain: iteration by iteration,
      `body` runs exactly at the values of `v` where all of `conds` hold. */
  function Filtered(v: Var, lo: int, n: nat, conds: seq<Expr>, body: Stmt, env: Env): seq<Event>
    decreases n
  {
    if n == 0 then []
    else
      (if AllHold(conds, Bind(env, v, lo)) then Exec(body, Bind(env, v, lo)) else [])
      + Filtered(v, lo + 1, n - 1, conds, body, env)
  }

  /** Nested else-less conditionals run their body exactly when all their
      conditions hold. */
  lemma {:induction false} WrapExec(conds: seq<Expr>, body: Stmt, env: Env)
    ensures Exec(Wrap(conds, body), env) == if AllHold(conds, env) then Exec(body, env) else []
    decreases |conds|
  {
    if conds != [] {
      WrapExec(conds[1..], body, env);
      if Holds(conds[0], env) {
        assert AllHold(conds, env) <==> AllHold(conds[1..], env) by {
          if AllHold(conds[1..], env) {
            forall i | 0 <= i < |conds| ensures Holds(conds[i], env) {
              if i > 0 { assert conds[i] == conds[1..][i - 1]; }
            }
          }
        }
      }
    }
  }

  lemma {:induction false} LoopWrapFiltered(v: Var, lo: int, n: nat, conds: seq<Expr>, body: Stmt, env: Env)
    ensures Loop(v, lo, n, Wrap(conds, body), env) == Filtered(v, lo, n, conds, body, env)
    decreases n
  {
    if n > 0 {
      WrapExec(conds, body, Bind(env, v, lo));
      LoopWrapFiltered(v, lo + 1, n - 1, conds, body, env);
    }
  }

  /** The rewritten loop runs the stripped body exactly at the iteration
      values where all collected conditions hold, in iteration order. */
  lemma HoistRunsBodyWhereChainHolds(op: Stmt, prove: Prover, nextId: nat, env: Env)
    requires Hoistable(op, nextId) && SoundProver(prove)
    ensures Exec(Hoisted(op, prove, nextId), env) ==
      Filtered(op.loopVar, Eval(op.min, env), TripCount(Eval(op.extent, env)),
               ChainConds(op.body), ChainBody(op.body), env)
  {
    HoistPreservesSemantics(op, prove, nextId, env);
    ChainRoundTrip(op.body);
    LoopWrapFiltered(op.loopVar, Eval(op.min, env), TripCount(Eval(op.extent, env)),
                     ChainConds(op.body), ChainBody(op.body), env);
  }
}
