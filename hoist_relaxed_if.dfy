/// The loop-if hoisting rewrite of one loop (`HoistRelaxedIfMutator::VisitStmt_`
/// on a `For` node): the chain of else-less conditionals directly under the
/// loop is peeled off, and the loop is rebuilt from the innermost condition
/// outwards as a choice, on each relaxed guard, between the loop built so far
/// (the fast path) and a renamed copy of the loop that still checks the
/// conditions from that level inwards on every iteration (the slow path).
module HoistRelaxedIf {
  import opened Wrappers
  import opened TirExpr
  import opened TirStmt
  import opened Relaxation

  // ---------------------------------------------------------------------
  // Chain extraction
  // ---------------------------------------------------------------------

  /** A conditional without an else branch: the only kind the chain collects. */
  predicate IsCandidate(s: Stmt) {
    s.IfThenElse? && s.elseCase.None?
  }

  /** The conditions of the maximal run of else-less conditionals heading `s`, outer to inner. */
  function ChainConds(s: Stmt): seq<Expr> {
    if IsCandidate(s) then [s.cond] + ChainConds(s.thenCase) else []
  }

  /** The first statement under that run: the stripped loop body. */
  function ChainBody(s: Stmt): Stmt {
    if IsCandidate(s) then ChainBody(s.thenCase) else s
  }

  /** `body` under else-less conditionals on `conds`, the first outermost. */
  function Wrap(conds: seq<Expr>, body: Stmt): Stmt
    decreases |conds|
  {
    if conds == [] then body else IfThenElse(conds[0], Wrap(conds[1..], body), None)
  }

  /** Re-wrapping the stripped body in the collected conditions gives the
      original statement back, and the stripped body is not itself an
      else-less conditional. */
  lemma {:induction false} ChainRoundTrip(s: Stmt)
    ensures Wrap(ChainConds(s), ChainBody(s)) == s
    ensures !IsCandidate(ChainBody(s))
  {
    if IsCandidate(s) {
      ChainRoundTrip(s.thenCase);
      assert ([s.cond] + ChainConds(s.thenCase))[1..] == ChainConds(s.thenCase);
    }
  }

  /** Conversely, the decomposition is unique: any chain of conditions around
      a statement that is not an else-less conditional is exactly what
      extraction returns. */
  lemma {:induction false} ChainUnique(conds: seq<Expr>, t: Stmt)
    requires !IsCandidate(t)
    ensures ChainConds(Wrap(conds, t)) == conds
    ensures ChainBody(Wrap(conds, t)) == t
    decreases |conds|
  {
    if conds != [] {
      ChainUnique(conds[1..], t);
    }
  }

  /** The original conditionals from level `i` inwards around the stripped body. */
  function Level(s: Stmt, i: nat): Stmt
    requires i <= |ChainConds(s)|
  {
    Wrap(ChainConds(s)[i..], ChainBody(s))
  }

  lemma {:induction false} LevelVars(s: Stmt, i: nat)
    requires i <= |ChainConds(s)|
    ensures UsedVars(Level(s, i)) <= UsedVars(s)
    ensures BoundVars(Level(s, i)) <= BoundVars(s)
  {
    if i == 0 {
      ChainRoundTrip(s);
    } else {
      assert ChainConds(s)[i..] == ChainConds(s.thenCase)[i - 1..];
      LevelVars(s.thenCase, i - 1);
    }
  }

  lemma LevelStep(s: Stmt, i: nat)
    requires i < |ChainConds(s)|
    ensures Level(s, i) == IfThenElse(ChainConds(s)[i], Level(s, i + 1), None)
  {
    assert ChainConds(s)[i..][1..] == ChainConds(s)[i + 1..];
  }

  // ---------------------------------------------------------------------
  // Reconstruction
  // ---------------------------------------------------------------------

  /** The variable made for the slow path with counter `cnt`: named after the
      loop variable with the counter appended, and with the identity
      `nextId + cnt`, where `nextId` is the first identity not yet in use. */
  function NewVar(v: Var, nextId: nat, cnt: nat): Var {
    Var(v.nameHint + NatToString(cnt), nextId + cnt)
  }

  /** The end of the loop range, `min + extent`. */
  function LoopEnd(op: Stmt): Expr
    requires op.For?
  {
    Bin(Add, op.min, op.extent)
  }

  /** The relaxed guard of condition `i` (counted from the outside). */
  function Guard(op: Stmt, prove: Prover, i: nat): Option<Expr>
    requires op.For? && i < |ChainConds(op.body)|
  {
    Relax(ChainConds(op.body)[i], op.loopVar, op.min, LoopEnd(op), prove)
  }

  /** The slow path for condition `i`: a loop with the original range, kind
      and device tag over a new variable, running the original conditionals
      from level `i` inwards with the loop variable renamed. It is built when
      the counter is `n - 1 - i`, for `n` conditions. */
  function SlowPath(op: Stmt, nextId: nat, i: nat): Stmt
    requires op.For? && i < |ChainConds(op.body)|
  {
    var k := NewVar(op.loopVar, nextId, |ChainConds(op.body)| - 1 - i);
    For(k, op.min, op.extent, op.forType, op.deviceApi, SubstStmt(Level(op.body, i), op.loopVar, Ref(k)))
  }

  /** The result after folding the `j` innermost conditions: the seed is the
      loop over the stripped body; each step either selects between the
      previous result and the slow path on the relaxed guard, or, when the
      guard is undefined, is the slow path alone. */
  function Folded(op: Stmt, prove: Prover, nextId: nat, j: nat): Stmt
    requires op.For? && j <= |ChainConds(op.body)|
    decreases j
  {
    if j == 0 then
      For(op.loopVar, op.min, op.extent, op.forType, op.deviceApi, ChainBody(op.body))
    else
      var i := |ChainConds(op.body)| - j;
      match Guard(op, prove, i)
      case Some(g) => IfThenElse(g, Folded(op, prove, nextId, j - 1), Some(SlowPath(op, nextId, i)))
      case None => SlowPath(op, nextId, i)
  }

  /** What the rewrite makes of the loop `op`. */
  function Hoisted(op: Stmt, prove: Prover, nextId: nat): Stmt
    requires op.For?
  {
    Folded(op, prove, nextId, |ChainConds(op.body)|)
  }

  /** The rewrite of one loop whose children have already been rewritten.
      `prove` is the arithmetic analyzer and `nextId` the first variable
      identity not yet in use. */
  method VisitFor(op: Stmt, prove: Prover, nextId: nat) returns (ret: Stmt)
    requires op.For?
    ensures ret == Hoisted(op, prove, nextId)
    ensures !IsCandidate(op.body) ==> ret == op
  {
    // the condition of each else-less conditional, from outer to inner
    var conds: seq<Expr> := [];
    var body := op.body;
    while body.IfThenElse?
      invariant ChainConds(op.body) == conds + ChainConds(body)
      invariant ChainBody(body) == ChainBody(op.body)
      decreases body
    {
      // two-branch conditionals are not hoisted
      if body.elseCase.Some? {
        break;
      }
      conds := conds + [body.cond];
      body := body.thenCase;
    }
    assert conds == ChainConds(op.body) && body == ChainBody(op.body);

    ret := For(op.loopVar, op.min, op.extent, op.forType, op.deviceApi, body);
    var opEnd := Bin(Add, op.min, op.extent);
    var nameCnt: nat := 0;
    var it := |conds|;
    // from inner to outer
    while it > 0
      invariant 0 <= it <= |conds| && nameCnt == |conds| - it
      invariant body == Level(op.body, it)
      invariant ret == Folded(op, prove, nextId, nameCnt)
    {
      it := it - 1;
      var condRelaxed := Relax(conds[it], op.loopVar, op.min, opEnd, prove);
      LevelStep(op.body, it);
      body := IfThenElse(conds[it], body, None);
      var newVar := NewVar(op.loopVar, nextId, nameCnt);
      nameCnt := nameCnt + 1;
      var newBody := SubstStmt(body, op.loopVar, Ref(newVar));
      var slowPath := For(newVar, op.min, op.extent, op.forType, op.deviceApi, newBody);
      if condRelaxed.Some? {
        ret := IfThenElse(condRelaxed.value, ret, Some(slowPath));
      } else {
        ret := slowPath;
      }
    }
  }
}
