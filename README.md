# Loop-if hoisting in the tensor IR (`tir.transform.HoistRelaxedIf`)

This project models the TVM tensor-IR pass that hoists conditionals out of loops.
It also proves what that pass promises.

The pass looks at a `For` loop whose body starts with a run of conditionals that have no `else` branch.
Each such condition is relaxed to a loop-invariant guard: the condition taken at one end of the loop range.
An end point qualifies when the arithmetic analyzer proves that the condition's normal form is largest there.
The condition is then hardest to satisfy at that end point, so the guard implies it on every iteration.
The loop is then rebuilt from the innermost condition outwards:

- with a defined guard, the level becomes `if guard then <loop built so far> else <slow path>`;
- without one, the level is the slow path alone.

A slow path is a copy of the loop over a new variable.
It still checks the original conditions from that level inwards on every iteration.

## Structure

- `wrappers.dfy`, module `Wrappers`: `Option`.
- `tir_expr.dfy`, module `TirExpr`:
  - variables, compared by identity;
  - integer expressions with `+ - *`, the comparisons, `&& || !`;
  - evaluation in a state, and structural substitution.
- `tir_stmt.dfy`, module `TirStmt`:
  - statements: a buffer store, `IfThenElse` with an optional `else`, and `For` with its range, loop kind and device tag;
  - a trace semantics: the sequence of stores a statement performs;
  - substitution, which leaves loop binders alone as `Substitute` does;
  - lemmas that renaming a loop variable to an unused one preserves the trace.
- `relaxation.dfy`, module `Relaxation`:
  - `Relax_`: the normal form of a comparison, the two end-point queries in the source's order, and the guard;
  - soundness of the guard.
- `linear_prover.dfy`, module `LinearProver`:
  - a small decision procedure for affine queries with constant ranges, proved sound;
  - it stands in for the analyzer in the concrete examples.
- `hoist_relaxed_if.dfy`, module `HoistRelaxedIf`:
  - chain extraction;
  - the reconstruction fold as specification functions (`Folded`, `Hoisted`);
  - `VisitFor`, the imperative method with the source's two loops, proved equal to `Hoisted`.
- `hoist_properties.dfy`, module `HoistProperties`:
  - shape, binder and identity properties of the result;
  - semantic equivalence with the original loop.
- `hoist_examples.dfy`, module `HoistExamples`:
  - the split reduction of the unit test;
  - a loop under two comparisons.

The analyzer (`arith::Analyzer`) is a parameter `prove: Query -> bool`.
A query asks whether an expression is non-negative while the loop variable ranges over `[begin, end)`.
Every semantic theorem requires `SoundProver(prove)`: a query answered yes is valid.
`LinearProver.LinearProverSound` shows that this hypothesis can be met.

New variables are made by `NewVar`:

- the name is the loop variable's name hint with the decimal counter appended, as on line 58;
- the identity is `nextId + counter`, where `nextId` is a parameter holding the first identity not yet in use.

The semantic theorems assume the loop is well formed, which is the predicate `Hoistable`:

- the loop variable does not occur in `min` or `extent`;
- it is not re-bound by a loop inside the body;
- every variable in the loop has an identity below `nextId`.

## Model

| member | source | states |
|---|---|---|
| HoistRelaxedIf.ChainRoundTrip | src/tir/transforms/hoist_relaxed_if.cc:38-47 | Wrapping the stripped body back in the collected conditions, outer to inner, gives the original loop body. The stripped body is never itself an else-less conditional. |
| HoistRelaxedIf.ChainUnique | src/tir/transforms/hoist_relaxed_if.cc:38-47 | Extraction inverts wrapping. For any conditions around a statement that is not an else-less conditional, it returns exactly those conditions and that statement. Any condition shape is collected. |
| HoistRelaxedIf.LevelStep | src/tir/transforms/hoist_relaxed_if.cc:57 | Re-wrapping one condition around the level below rebuilds the original chain from that level inwards. It does not wrap the result built so far. |
| HoistRelaxedIf.LevelVars | src/tir/transforms/hoist_relaxed_if.cc:57 | A level of the chain reads and binds no variable the loop body does not. |
| HoistRelaxedIf.VisitFor | src/tir/transforms/hoist_relaxed_if.cc:34-70 | The two loops (extraction, then the fold from inner to outer with the counter `name_cnt`) compute `Hoisted`. When the body does not start with an else-less conditional, they return the loop unchanged: same variable, range, kind, device tag and body. |
| Relaxation.Reduce | src/tir/transforms/hoist_relaxed_if.cc:75-86 | A normal form exists exactly for `<`, `<=`, `>`, `>=`. The condition holds iff the normal form is `< 0` (strict comparisons) or `<= 0` (non-strict ones). |
| Relaxation.Relax | src/tir/transforms/hoist_relaxed_if.cc:73-101 | A guard exists iff the condition is a comparison and one of the two end-point queries is proved. The guard is the condition at `begin` when the `begin` query is proved. Otherwise it is the condition at `end - 1`. |
| Relaxation.ReduceMonotone | src/tir/transforms/hoist_relaxed_if.cc:75-86 | A comparison that holds in one state holds in every state where its normal form is no larger. |
| Relaxation.EndpointSound | src/tir/transforms/hoist_relaxed_if.cc:88-100 | If the analyzer proves `expr[var := p] - expr >= 0` over the range and the condition holds at `p`, it holds at every value of the range. |
| Relaxation.GuardSound | src/tir/transforms/hoist_relaxed_if.cc:88-100 | With a sound analyzer: whenever a guard is returned and is true, the original condition holds for every loop value in `[begin, end)`. |
| LinearProver.LinearProverSound | src/tir/transforms/hoist_relaxed_if.cc:88-99 | The affine decision procedure used in the examples answers yes only to valid queries. |
| HoistProperties.SeedIsFixpoint | src/tir/transforms/hoist_relaxed_if.cc:40-55 | The loop over the stripped body is left unchanged by a second rewrite, whatever the analyzer answers and whatever identities are handed out. |
| HoistProperties.FoldedHead | src/tir/transforms/hoist_relaxed_if.cc:61-67 | After at least one fold step, the result is a two-branch conditional or a slow-path loop over a new variable. |
| HoistProperties.RewriteChangesChainedLoop | src/tir/transforms/hoist_relaxed_if.cc:55-67 | A loop whose body starts with an else-less conditional is always changed. |
| HoistProperties.SubstWrap | src/tir/transforms/hoist_relaxed_if.cc:59-60 | Substituting into a wrapped chain substitutes into each condition and into the stripped body. |
| HoistProperties.SlowPathShape | src/tir/transforms/hoist_relaxed_if.cc:53-62 | The slow path at level `i` has the original `min`, `extent`, kind and device tag. Its loop variable is new, with identity `nextId + n - 1 - i`. Its body contains the original conditions from level `i` inwards and the stripped body, all with the loop variable renamed. No free occurrence of the old loop variable remains. |
| HoistProperties.SlowPathEquivalent | src/tir/transforms/hoist_relaxed_if.cc:57-62 | A slow path performs the same stores as the original loop around the chain from its level inwards. |
| HoistProperties.SlowPathRewrittenAgain | src/tir/transforms/hoist_relaxed_if.cc:57-62 | Every slow path starts with an else-less conditional, so a second rewrite changes it: the rewrite is not idempotent. |
| HoistProperties.FoldedBinders | src/tir/transforms/hoist_relaxed_if.cc:53-67 | After `j` fold steps, the top-level loops of the result have pairwise distinct variables. Each is the loop variable or has an identity `nextId + c` with `c < j`. |
| HoistProperties.HoistedBinders | src/tir/transforms/hoist_relaxed_if.cc:53-67 | No two top-level loops of the result share a binder. Every new binder is fresh for the original loop. |
| HoistProperties.FoldedFastPath | src/tir/transforms/hoist_relaxed_if.cc:49-64 | When every guard folded so far is defined and true, the selected branch is the seed loop over the stripped body. |
| HoistProperties.HoistedFastPath | src/tir/transforms/hoist_relaxed_if.cc:49-64 | When all guards are defined and true, the result selects the loop over the stripped body, which carries no condition. |
| HoistProperties.DropCheck | src/tir/transforms/hoist_relaxed_if.cc:63-64 | A condition that holds on the whole range can be dropped from the loop body without changing the stores. |
| HoistProperties.FoldedEquivalent | src/tir/transforms/hoist_relaxed_if.cc:49-68 | With a sound analyzer, the result after `j` steps performs the same stores as the original loop around the `j` innermost conditions. |
| HoistProperties.HoistPreservesSemantics | src/tir/transforms/hoist_relaxed_if.cc:34-70 | With a sound analyzer, the rewritten loop performs the same stores, in the same order, as the original loop. |
| HoistProperties.WrapExec | src/tir/transforms/hoist_relaxed_if.cc:38-47 | A wrapped chain runs its body iff all its conditions hold. |
| HoistProperties.LoopWrapFiltered | src/tir/transforms/hoist_relaxed_if.cc:38-47 | A loop over a wrapped chain runs the stripped body exactly at the iterations where all conditions hold, in order. |
| HoistProperties.HoistRunsBodyWhereChainHolds | src/tir/transforms/hoist_relaxed_if.cc:34-70 | With a sound analyzer, the rewritten loop runs the stripped body exactly at the loop values where all collected conditions hold, in increasing order. |
| HoistExamples.SplitMinQueryRefused | src/tir/transforms/hoist_relaxed_if.cc:90-94 | For the split bound check `i.outer*4 + i.inner < N`, the query at `min` is refused. |
| HoistExamples.SplitMaxQueryProved | src/tir/transforms/hoist_relaxed_if.cc:95-98 | For the same check, the query at `end - 1` is proved. |
| HoistExamples.SplitReductionShape | tests/python/unittest/test_tir_transform_hoist_relaxed_if.py:33-38 | The rewritten split reduction has the shape the test checks: an `if` over two loops, without and with an inner `if`. |
| HoistExamples.SplitReductionTotal | tests/python/unittest/test_tir_transform_hoist_relaxed_if.py:41-45 | For `N = 15`, the rewritten program writes values that sum to 210. |
| HoistExamples.InnerTotal | tests/python/unittest/test_tir_transform_hoist_relaxed_if.py:41-45 | One outer iteration of the original split reduction writes the partial sum. |
| HoistExamples.TwoChecksGuards | src/tir/transforms/hoist_relaxed_if.cc:75-99 | For `i < 5` then `i >= 2` over `[0, 8)`, the guards are `0 >= 2` (lower end) and `7 < 5` (upper end). Both are false. The upper-end condition `7 >= 2` would be true although `i >= 2` fails at `i = 0`. |
| TirStmt.RenameLoop | src/tir/transforms/hoist_relaxed_if.cc:58-62 | Renaming a loop variable to one the body does not mention preserves the stores. |
| TirStmt.SubstStmtExec | src/tir/transforms/hoist_relaxed_if.cc:59-60 | Substituting a variable for the loop variable is running with the loop variable set to that variable's value. |
| TirExpr.SubstExprEval | src/tir/transforms/hoist_relaxed_if.cc:90-98 | Evaluating after substitution is evaluating with the variable bound to the substituted value. |
| TirExpr.NatToString | src/tir/transforms/hoist_relaxed_if.cc:58 | The counter is written as a non-empty string of decimal digits. |

Proof helpers without a row of their own:

- `HoistExamples.TotalAppend` serves `HoistExamples.SplitReductionTotal`.
- `LinearProver.CoeffShift` serves `LinearProver.LinearProverSound`.
- `Relaxation.EndpointDifference` serves `Relaxation.EndpointSound`.
- `HoistProperties.SubstKeepsCandidate` serves `HoistProperties.SlowPathShape`.

## Notes on the behaviour

- The rewrite is not idempotent (`HoistProperties.SlowPathRewrittenAgain`).
  - Each slow path is a loop whose body starts with an else-less conditional, so rewriting the output again rewrites every slow path.
  - It is idempotent only on the seed loop (`HoistProperties.SeedIsFixpoint`).
- For `i >= 2` over `[0, 8)`, the normal form is `2 - i` (line 83).
  - The query at the lower end is proved, so the guard is `0 >= 2`.
  - An upper-end guard `7 >= 2` would be unsound, since `i >= 2` is false at `i = 0` (`HoistExamples.TwoChecksGuards`).
- Loops inside the stripped body keep their binders. The fast path and the slow paths therefore contain inner loops over the same variables. Only the top-level loops of the result have distinct binders (`HoistProperties.HoistedBinders`).

## Left out

- The child traversal before the rewrite (line 35, `StmtMutator::VisitStmt_`): `VisitFor` rewrites one loop whose children are already rewritten.
- `CopyOnWrite` and node sharing (lines 59 and 109): memory management, with no effect on the values.
- Pass creation and registration (lines 107-117), and `tvm.lower`, `tvm.build` and code generation in the test.
- The arithmetic analyzer (lines 88-99, `Bind` and `CanProveGreaterEqual`): it is an oracle parameter with a soundness hypothesis.
- int32 overflow of index expressions: the model uses unbounded integers.
- Floating point and data types on expressions: the model's expressions are integer-valued.
- `for_type` and `device_api` are opaque payloads that are copied, never interpreted.
- Loads, calls and other expression kinds: the model's expressions are variables, constants, `+ - *`, the comparisons and the logical operators.
  - A condition outside the comparisons is still collected and has no normal form, as in the source.
- HoistPreservesSemantics and HoistRunsBodyWhereChainHolds hold only within the model's domain.
  - In that domain, a condition depends only on variables, and no expression can read what the loop stores.
  - The source makes no such guarantee when a condition loads from a buffer the body writes.
  - Example: the condition `A[0] < 5` over a body that does `A[0] = A[0] + 1`. The query `(A[0] - 5) - (A[0] - 5) >= 0` is provable, so the guard is evaluated once, before the loop. The fast path then stores on every iteration, while the original stops once `A[0]` reaches 5.
  - Statement kinds other than store, `IfThenElse` and `For` are absent: `SeqStmt`, `LetStmt`, `Evaluate`, `Allocate`, `AttrStmt`. The semantic theorems therefore do not cover, for example, a stripped body that is a sequence.
- The name hint of a new variable is built as on line 58, but identity is by `id`, as TVM compares variables by object.
- HoistExamples.SplitReductionTotal: the split loop is written after lowering by hand, with a bound check `i.outer*4 + i.inner < N`.
  - The outer extent is the constant 4, which is `(N + 3) / 4` for `N = 15`.
  - The accumulation into `A` is left out; the total of the stored values stands for it.
  - Any `likely` marker on the lowered condition is left out.
