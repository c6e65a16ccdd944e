/**
 * `branchAndBound` of bs.cpp as the source runs it: a while-loop over a leaf
 * container, with the cut pool and the scratch problem as objects updated in
 * place and node ids drawn from the process-wide counter. Its result is the
 * one `BranchSearch.Run` specifies.
 */
module Engine {
  import opened Wrappers
  import opened ExtendedReals
  import opened Numeric
  import opened Lp
  import opened Util
  import opened CutPools
  import opened Gmi
  import opened BranchSearch

  /** The cut-generation loop over columns 1..n: every produced cut is added to the pool. */
  method GenerateCuts(sol: Solved, pool: CutPool)
    requires WellFormed(sol)
    modifies pool
    ensures pool.cuts == old(pool.cuts) + NewCuts(sol, |sol.cols|)
  {
    ghost var start := pool.cuts;
    var j := 1;
    while j <= |sol.cols|
      invariant 1 <= j <= |sol.cols| + 1
      invariant pool.cuts == start + NewCuts(sol, j - 1)
    {
      PoolColumnCut(sol, j, pool);
      NewCutsStep(sol, j);
      j := j + 1;
    }
  }

  /** One pass of that loop: `generateCut3` for column j, and `addToPool` when it produced a cut. */
  method PoolColumnCut(sol: Solved, j: int, pool: CutPool)
    requires WellFormed(sol) && 1 <= j <= |sol.cols|
    modifies pool
    ensures pool.cuts == old(pool.cuts) + ColumnCut(sol, j)
  {
    var result := GenerateCut3(sol, j);
    if result.oid != -1 {
      var size := pool.AddToPool(result);
    }
  }

  /** The cut round on the scratch problem `a`: generate into the pool, then inject the latest cut. */
  method CutRoundOn(env: Env, sol: Solved, a: GlpProb, pool: CutPool)
    requires WellFormed(sol) && env.cutsEnabled
    modifies a, pool
    ensures (pool.cuts, a.model) == CutRound(env, old(pool.cuts), old(a.model), sol)
  {
    GenerateCuts(sol, pool);
    var code := pool.AddCutConstraint(a);
  }

  /**
   * The two children of a branch on column `pick` with value `bound`: both drawn
   * from the counter as copies of the scratch problem, then bounded (S2 above
   * by floor, S3 below by ceiling) and solved for their upper bounds.
   */
  method MakeChildren(env: Env, scratch: Model, pick: int, bound: real, ids: IdCounter) returns (s2: NodeData, s3: NodeData)
    modifies ids
    ensures s2 == Child(env, scratch, pick, Upper(Floor(bound) as real), old(ids.id))
    ensures s3 == Child(env, scratch, pick, Lower(Ceil(bound) as real), old(ids.id) + 1)
    ensures ids.id == old(ids.id) + 2
  {
    s2 := ids.NewNode(scratch);
    s3 := ids.NewNode(scratch);
    s2 := s2.(prob := SetColBound(s2.prob, pick, Upper(Floor(bound) as real)));
    s2 := s2.(upperBound := Finite(env.solve(s2.prob).objVal));
    s3 := s3.(prob := SetColBound(s3.prob, pick, Lower(Ceil(bound) as real)));
    s3 := s3.(upperBound := Finite(env.solve(s3.prob).objVal));
  }

  /**
   * The branch case on the scratch problem `a` (a copy of the picked node's
   * problem), after the node is erased: the cut round, the branching column,
   * the two children entered in the tree under the node and queued S2 first.
   * `halted` is the loop-limit exit.
   */
  method BranchOn(env: Env, ghost s: State, rest: seq<NodeData>, node: NodeData, sol: Solved, vars: seq<int>,
                  tree0: SearchTree, count: nat, a: GlpProb, pool: CutPool, ids: IdCounter)
    returns (leaves: seq<NodeData>, tree: SearchTree, halted: bool)
    requires WellFormed(sol) && env.pickVar(vars) in vars
    requires forall i :: i in vars ==> 1 <= i <= |sol.cols|
    requires s.nextId == ids.id && s.pool == pool.cuts && s.tree == tree0 && s.count == count && a.model == node.prob
    modifies a, pool, ids
    ensures var t := State(leaves, ids.id, s.bestLower, s.solution, tree, s.count, pool.cuts);
            Branch(env, s, rest, node, sol, vars) == if halted then Halt(t, -1) else Continue(t.(count := s.count + 1))
  {
    if env.cutsEnabled {
      CutRoundOn(env, sol, a, pool);
    }
    assert (pool.cuts, a.model) == CutRound(env, s.pool, node.prob, sol);
    var pick := env.pickVar(vars);
    var bound := sol.cols[pick - 1].prim;
    var s2, s3 := MakeChildren(env, a.model, pick, bound, ids);
    tree := tree0[s2.oid := TreeEntry(Some(node.oid), NONE)][s3.oid := TreeEntry(Some(node.oid), NONE)];
    leaves := rest + [s2, s3];
    halted := count > LoopLimit;
    ghost var grown := Grow(s, rest, node.oid, pool.cuts, s2, s3);
    assert grown == State(leaves, ids.id, s.bestLower, s.solution, tree, s.count, pool.cuts);
  }

  /**
   * One pass of the loop body on the current container: pick, copy and solve,
   * classify, then end the loop on a decided initial node, or erase and prune,
   * or branch. Returns the new locals and whether the loop ends, with its exit code.
   */
  method Iterate(env: Env, leaves: seq<NodeData>, tree: SearchTree, bestLower: ExtReal, solution: Option<Incumbent>,
                 count: nat, pool: CutPool, ids: IdCounter)
    returns (leaves': seq<NodeData>, tree': SearchTree, bestLower': ExtReal, solution': Option<Incumbent>,
             count': nat, halted: bool, exit: int)
    requires Sound(env) && |leaves| > 0
    modifies pool, ids
    ensures var cur := State(leaves, old(ids.id), bestLower, solution, tree, count, old(pool.cuts));
            var t := State(leaves', ids.id, bestLower', solution', tree', count', pool.cuts);
            Step(env, cur) == if halted then Halt(t, exit) else Continue(t)
    ensures !halted ==> exit == 0
  {
    ghost var cur := State(leaves, ids.id, bestLower, solution, tree, count, pool.cuts);
    var idx := env.pickNode(leaves);
    var node := leaves[idx];
    var a := new GlpProb(node.prob);
    var sol := env.solve(a.model);
    var status, vars := PrintInfo(sol);
    assert idx == Picked(env, cur) && sol == Relaxation(env, cur);
    leaves', tree', bestLower', solution', count', halted, exit := leaves, tree, bestLower, solution, count, false, 0;
    if node.initial && status == -1 {
      tree' := Mark(tree, node.oid, FEAS);
      halted := true;
      return;
    }
    if node.initial && status == 1 {
      leaves' := leaves[idx := node.(upperBound := Finite(sol.objVal))];
      tree' := Mark(tree, node.oid, INTG);
      halted := true;
      return;
    }
    var rest := leaves[..idx] + leaves[idx + 1..];
    assert rest == Erase(leaves, idx);
    assert Step(env, cur) == Settle(env, cur, rest, node, sol);
    leaves', tree', bestLower', solution', count', halted, exit :=
      SettleOn(env, cur, rest, node, sol, status, vars, tree, bestLower, solution, count, a, pool, ids);
  }

  /**
   * The rest of the loop body once the picked node is erased: an integral node
   * may become the incumbent, an infeasible or bounded one is pruned, and a
   * fractional one is branched on.
   */
  method SettleOn(env: Env, ghost s: State, rest: seq<NodeData>, node: NodeData, sol: Solved, status: int, vars: seq<int>,
                  tree: SearchTree, bestLower: ExtReal, solution: Option<Incumbent>, count: nat,
                  a: GlpProb, pool: CutPool, ids: IdCounter)
    returns (leaves': seq<NodeData>, tree': SearchTree, bestLower': ExtReal, solution': Option<Incumbent>,
             count': nat, halted: bool, exit: int)
    requires Sound(env) && WellFormed(sol) && a.model == node.prob
    requires status == StatusCode(Classify(sol))
    requires vars == if Classify(sol).Fractional? then Classify(sol).violated else []
    requires status == 0 <==> vars != []
    requires s == State(s.leaves, ids.id, bestLower, solution, tree, count, pool.cuts)
    modifies a, pool, ids
    ensures var t := State(leaves', ids.id, bestLower', solution', tree', count', pool.cuts);
            Settle(env, s, rest, node, sol) == if halted then Halt(t, exit) else Continue(t)
    ensures !halted ==> exit == 0
  {
    if status != 0 || LessEq(Finite(sol.objVal), bestLower) {
      tree', bestLower', solution' := Prune(env, s, rest, node, sol, status, tree, bestLower, solution);
      leaves', count', halted, exit := rest, count + 1, false, 0;
    } else {
      assert Settle(env, s, rest, node, sol) == Branch(env, s, rest, node, sol, vars);
      bestLower', solution', exit := bestLower, solution, 0;
      leaves', tree', halted := BranchOn(env, s, rest, node, sol, vars, tree, count, a, pool, ids);
      count' := count + 1;
      if halted {
        count', exit := count, -1;
      }
    }
  }

  /**
   * The cases that close the picked node: an integral node is marked INTG and
   * becomes the incumbent when it beats the best lower bound, an infeasible one
   * is marked FEAS, and one whose value cannot beat the bound is marked BNDS.
   */
  method Prune(env: Env, ghost s: State, rest: seq<NodeData>, node: NodeData, sol: Solved, status: int,
               tree: SearchTree, bestLower: ExtReal, solution: Option<Incumbent>)
    returns (tree': SearchTree, bestLower': ExtReal, solution': Option<Incumbent>)
    requires Sound(env) && WellFormed(sol) && status == StatusCode(Classify(sol))
    requires s.tree == tree && s.bestLower == bestLower && s.solution == solution
    requires status != 0 || LessEq(Finite(sol.objVal), bestLower)
    ensures Settle(env, s, rest, node, sol) ==
              Continue(s.(leaves := rest, tree := tree', bestLower := bestLower', solution := solution', count := s.count + 1))
  {
    tree', bestLower', solution' := tree, bestLower, solution;
    if status == 1 {
      tree' := Mark(tree, node.oid, INTG);
      if Less(bestLower, Finite(sol.objVal)) {
        bestLower' := Finite(sol.objVal);
        solution' := Some(Incumbent(node.oid, sol.objVal));
      }
    } else if status == -1 {
      tree' := Mark(tree, node.oid, FEAS);
    } else {
      tree' := Mark(tree, node.oid, BNDS);
    }
  }

  /**
   * `branchAndBound(prob, params)`: the initial node S1 is drawn from the
   * counter and the loop runs until the container is empty or an iteration
   * ends it. Returns the final state and the exit code (-1 when the loop limit
   * ends the process).
   */
  method BranchAndBound(prob: Model, env: Env, ids: IdCounter) returns (out: Outcome)
    requires Sound(env)
    modifies ids
    ensures out == Run(env, Init(prob, old(ids.id)))
    ensures ids.id == out.state.nextId
  {
    var s1 := ids.NewNode(prob);
    s1 := s1.(initial := true);
    var leaves := [s1];
    var tree: SearchTree := map[s1.oid := TreeEntry(None, NONE)];
    var pool := new CutPool();
    var bestLower := NegInf;
    var solution: Option<Incumbent> := None;
    var count: nat := 0;
    var halted, exit := false, 0;
    ghost var s0 := State(leaves, ids.id, bestLower, solution, tree, count, pool.cuts);
    assert s0 == Init(prob, old(ids.id));
    while !halted && leaves != []
      invariant !halted ==> Run(env, State(leaves, ids.id, bestLower, solution, tree, count, pool.cuts)) == Run(env, s0)
      invariant halted ==> Outcome(State(leaves, ids.id, bestLower, solution, tree, count, pool.cuts), exit) == Run(env, s0)
      invariant !halted ==> exit == 0
      decreases !halted, CapLeft(count), |leaves|
    {
      ghost var cur := State(leaves, ids.id, bestLower, solution, tree, count, pool.cuts);
      leaves, tree, bestLower, solution, count, halted, exit := Iterate(env, leaves, tree, bestLower, solution, count, pool, ids);
      ghost var next := State(leaves, ids.id, bestLower, solution, tree, count, pool.cuts);
      assert Step(env, cur) == if halted then Halt(next, exit) else Continue(next);
    }
    out := Outcome(State(leaves, ids.id, bestLower, solution, tree, count, pool.cuts), exit);
  }
}
