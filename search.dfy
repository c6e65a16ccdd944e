/**
 * The branch-and-bound engine of bs.cpp: the pure oid rules `getParentOid` and
 * `getBranchDirection`, one iteration of the `branchAndBound` loop as a state
 * transition `Step`, the whole loop as `Run`, and the loop itself over the
 * cut pool, problem and id-counter objects, proved to compute `Run`.
 *
 * The solver is the oracle `Env.solve`; the bodies of `pickNode`/`pickVar` are
 * not shown and become the parameters `Env.pickNode`/`Env.pickVar`, of which
 * only what the loop relies on is assumed (`Sound`).
 */
module BranchSearch {
  import opened Wrappers
  import opened ExtendedReals
  import opened Numeric
  import opened Lp
  import opened Util
  import opened CutPools
  import opened Gmi
  import Messages

  /** A branch step taken while `count` exceeds this ends the process with -1. */
  const LoopLimit := 200000

  /**
   * One search-tree node, keyed by its oid: the oid of its parent (none for the
   * root) and the prune annotation that util.h's `SPInfo` carries.
   */
  datatype TreeEntry = TreeEntry(parent: Option<int>, prune: PruneType)

  /** The search tree, kept as oid -> entry. */
  type SearchTree = map<int, TreeEntry>

  /** `getParentOid`: a node with oid <= 1 is reported as its own parent. */
  function GetParentOid(tree: SearchTree, oid: int): int
    requires oid in tree && (oid > 1 ==> tree[oid].parent.Some?)
  {
    if oid <= 1 then oid else tree[oid].parent.value
  }

  /**
   * In a tree rooted at oid 1, `getParentOid` of any node is a node of the tree;
   * it is strictly older than the node except at the root, which reports itself.
   */
  lemma ParentOidIsOlder(tree: SearchTree, nextId: int, oid: int)
    requires TreeShaped(tree, 1, nextId) && oid in tree
    ensures oid > 1 ==> tree[oid].parent.Some?
    ensures GetParentOid(tree, oid) in tree
    ensures oid == 1 <==> GetParentOid(tree, oid) == oid
    ensures 1 <= GetParentOid(tree, oid) <= oid
  {
  }

  /** `getBranchDirection`: the middle for oid <= 1, then right for even oids and left for odd ones. */
  function GetBranchDirection(oid: int): (d: Messages.BranchDirection)
    ensures d == Messages.M <==> oid <= 1
    ensures d == Messages.R <==> oid > 1 && oid % 2 == 0
    ensures d == Messages.L <==> oid > 1 && oid % 2 == 1
  {
    if oid <= 1 then Messages.M
    else if oid % 2 == 0 then Messages.R
    else Messages.L
  }

  /** The incumbent the `solution` text describes: the node it came from and its objective. */
  datatype Incumbent = Incumbent(oid: int, value: real)

  /**
   * The loop's state: the leaf container, the next oid the counter hands out,
   * `bestLower`, the incumbent, the search tree, `count`, and the cut pool.
   */
  datatype State = State(leaves: seq<NodeData>, nextId: int, bestLower: ExtReal, solution: Option<Incumbent>,
                         tree: SearchTree, count: nat, pool: seq<CutContainer>)

  /** The solver and the two strategy callbacks, and whether cuts are enabled. */
  datatype Env = Env(solve: Model -> Solved, pickNode: seq<NodeData> -> int, pickVar: seq<int> -> int,
                     cutsEnabled: bool)

  /**
   * What the loop relies on: solver results are well formed, `pickNode` picks
   * an index of a non-empty container and `pickVar` one of the violated columns.
   */
  ghost predicate Sound(env: Env)
  {
    && (forall m :: WellFormed(env.solve(m)))
    && (forall leaves: seq<NodeData> :: |leaves| > 0 ==> 0 <= env.pickNode(leaves) < |leaves|)
    && (forall vars: seq<int> :: |vars| > 0 ==> env.pickVar(vars) in vars)
  }

  /** What an iteration leads to: the next state, or the end of the loop with the function's exit code. */
  datatype Next = Continue(s: State) | Halt(s: State, exit: int)

  /** `erase(begin() + i)`: the sequence without position i, the rest in order. */
  function Erase<T>(xs: seq<T>, i: int): (r: seq<T>)
    requires 0 <= i < |xs|
    ensures |r| == |xs| - 1
    ensures forall k :: 0 <= k < i ==> r[k] == xs[k]
    ensures forall k :: i <= k < |r| ==> r[k] == xs[k + 1]
    ensures multiset(r) + multiset{xs[i]} == multiset(xs)
  {
    assert xs == xs[..i] + [xs[i]] + xs[i + 1..];
    xs[..i] + xs[i + 1..]
  }

  /** Sets the prune annotation of node `oid`; every other node keeps its entry. */
  function Mark(tree: SearchTree, oid: int, p: PruneType): (t: SearchTree)
    ensures t.Keys == tree.Keys
    ensures oid in tree ==> t[oid] == tree[oid].(prune := p)
    ensures forall k :: k in tree && k != oid ==> t[k] == tree[k]
  {
    if oid in tree then tree[oid := tree[oid].(prune := p)] else tree
  }

  /** Every pooled cut has matching, non-empty index and value vectors, so injecting it succeeds. */
  predicate CutsWellShaped(cuts: seq<CutContainer>)
  {
    forall c :: c in cuts ==> |c.inds| == |c.vals| && c.inds != []
  }

  /** What `generateCut3` contributes for column k: its cut, or nothing when it reports no cut. */
  function ColumnCut(sol: Solved, k: int): (cs: seq<CutContainer>)
    requires WellFormed(sol) && 1 <= k <= |sol.cols|
    ensures |cs| <= 1
    ensures cs == [] <==> Cut3(sol, k).oid == -1
    ensures cs != [] ==> cs[0] == Cut3(sol, k) && |cs[0].inds| == |cs[0].vals| == |sol.cols| + 1
  {
    var c := Cut3(sol, k);
    if c.oid != -1 then [c] else []
  }

  /** The cuts `generateCut3` produces for columns 1..k, in column order, skipping the no-cut results. */
  function NewCuts(sol: Solved, k: nat): (cs: seq<CutContainer>)
    requires WellFormed(sol) && k <= |sol.cols|
    ensures |cs| <= k
    ensures forall c :: c in cs ==> c.oid != -1 && |c.inds| == |c.vals| == |sol.cols| + 1
  {
    if k == 0 then [] else NewCuts(sol, k - 1) + ColumnCut(sol, k)
  }

  /** Column k adds its cut, if any, after those of columns 1..k-1. */
  lemma NewCutsStep(sol: Solved, k: int)
    requires WellFormed(sol) && 1 <= k <= |sol.cols|
    ensures NewCuts(sol, k) == NewCuts(sol, k - 1) + ColumnCut(sol, k)
  {
  }

  /**
   * The optional cut round on the scratch problem: every produced cut joins the
   * pool, then the latest pooled cut becomes a new row. Returns the pool and the
   * problem the children are cloned from.
   */
  function CutRound(env: Env, pool: seq<CutContainer>, prob: Model, sol: Solved): (r: (seq<CutContainer>, Model))
    requires WellFormed(sol)
    ensures !env.cutsEnabled ==> r == (pool, prob)
    ensures env.cutsEnabled ==> r.0 == pool + NewCuts(sol, |sol.cols|)
    ensures CutsWellShaped(pool) ==> CutsWellShaped(r.0)
    ensures r.1.colBounds == prob.colBounds
    ensures env.cutsEnabled && CutsWellShaped(pool) && r.0 != [] ==>
              && Inject(r.0, prob, -1).code == Ok(|r.0| - 1)
              && r.1.rows == prob.rows + [CutRow(r.0[|r.0| - 1])]
    ensures env.cutsEnabled && r.0 == [] ==> r.1 == prob
  {
    if env.cutsEnabled then
      var cuts := pool + NewCuts(sol, |sol.cols|);
      (cuts, Inject(cuts, prob, -1).model)
    else (pool, prob)
  }

  /** A child: a fresh oid, the scratch problem with column `pick` bounded by `b`, and that problem's objective as its bound. */
  function Child(env: Env, scratch: Model, pick: int, b: Bound, oid: int): (n: NodeData)
    ensures n.oid == oid && !n.initial && n.lowerBound == NegInf
    ensures n.prob.rows == scratch.rows && n.prob.colBounds == scratch.colBounds[pick := b]
    ensures n.upperBound == Finite(env.solve(n.prob).objVal)
  {
    var m := SetColBound(scratch, pick, b);
    NodeData(oid, Finite(env.solve(m).objVal), NegInf, m, false)
  }

  /** The index `pickNode` chooses in a non-empty container. */
  function Picked(env: Env, s: State): (i: int)
    requires Sound(env) && |s.leaves| > 0
    ensures 0 <= i < |s.leaves|
  {
    env.pickNode(s.leaves)
  }

  /** The relaxation of the picked node. */
  function Relaxation(env: Env, s: State): (sol: Solved)
    requires Sound(env) && |s.leaves| > 0
    ensures WellFormed(sol)
  {
    env.solve(s.leaves[Picked(env, s)].prob)
  }

  /** Whether the picked node is branched on: fractional and strictly above `bestLower`. */
  ghost predicate Branches(env: Env, s: State)
    requires Sound(env) && |s.leaves| > 0
  {
    var sol := Relaxation(env, s);
    Classify(sol).Fractional? && Less(s.bestLower, Finite(sol.objVal))
  }

  /**
   * Queuing two children under `parent`: both appended after `rest` in order,
   * entered in the tree as unpruned children of `parent`, the counter moved
   * past both, and the pool after the cut round.
   */
  function Grow(s: State, rest: seq<NodeData>, parent: int, pool: seq<CutContainer>, s2: NodeData, s3: NodeData): (t: State)
    ensures t.leaves == rest + [s2, s3] && t.nextId == s.nextId + 2 && t.pool == pool
    ensures t.tree.Keys == s.tree.Keys + {s.nextId, s.nextId + 1}
    ensures t.tree[s.nextId] == t.tree[s.nextId + 1] == TreeEntry(Some(parent), NONE)
    ensures forall k :: k in s.tree && k != s.nextId && k != s.nextId + 1 ==> t.tree[k] == s.tree[k]
    ensures t.bestLower == s.bestLower && t.solution == s.solution && t.count == s.count
  {
    var entry := TreeEntry(Some(parent), NONE);
    s.(leaves := rest + [s2, s3], nextId := s.nextId + 2,
       tree := s.tree[s.nextId := entry][s.nextId + 1 := entry], pool := pool)
  }

  /**
   * The branch case, after the picked node is erased (`rest`): the cut round,
   * the branching column `pick` with value v, the floor child S2 (x <= floor v)
   * and the ceiling child S3 (x >= ceil v) with consecutive oids, both under the
   * picked node and queued S2 first; then the loop-limit exit.
   */
  function Branch(env: Env, s: State, rest: seq<NodeData>, node: NodeData, sol: Solved, vars: seq<int>): (r: Next)
    requires WellFormed(sol) && env.pickVar(vars) in vars
    requires forall i :: i in vars ==> 1 <= i <= |sol.cols|
    ensures var pick := env.pickVar(vars);
            var v := sol.cols[pick - 1].prim;
            var scratch := CutRound(env, s.pool, node.prob, sol).1;
            && |r.s.leaves| == |rest| + 2 && r.s.leaves[..|rest|] == rest
            && r.s.leaves[|rest|] == Child(env, scratch, pick, Upper(Floor(v) as real), s.nextId)
            && r.s.leaves[|rest| + 1] == Child(env, scratch, pick, Lower(Ceil(v) as real), s.nextId + 1)
    ensures r.s.(count := s.count) ==
              Grow(s, rest, node.oid, CutRound(env, s.pool, node.prob, sol).0, r.s.leaves[|rest|], r.s.leaves[|rest| + 1])
    ensures r.Halt? <==> s.count > LoopLimit
    ensures r.Halt? ==> r.exit == -1 && r.s.count == s.count
    ensures r.Continue? ==> r.s.count == s.count + 1
  {
    var (pool, scratch) := CutRound(env, s.pool, node.prob, sol);
    var pick := env.pickVar(vars);
    var v := sol.cols[pick - 1].prim;
    var s2 := Child(env, scratch, pick, Upper(Floor(v) as real), s.nextId);
    var s3 := Child(env, scratch, pick, Lower(Ceil(v) as real), s.nextId + 1);
    var t := Grow(s, rest, node.oid, pool, s2, s3);
    if s.count > LoopLimit then Halt(t, -1) else Continue(t.(count := s.count + 1))
  }

  /** The loop's measure: branch steps are bounded by the loop limit, prune steps shrink the container. */
  function CapLeft(count: nat): nat
  {
    if count <= LoopLimit + 1 then LoopLimit + 2 - count else 0
  }

  predicate Progress(t: State, s: State)
  {
    CapLeft(t.count) < CapLeft(s.count) || (CapLeft(t.count) == CapLeft(s.count) && |t.leaves| < |s.leaves|)
  }

  /**
   * One iteration of the `branchAndBound` loop on a non-empty container.
   * The initial node whose relaxation is infeasible or integral ends the loop
   * on the spot, unerased. Otherwise the picked node is erased and checked in
   * the order integral, infeasible, bound (ties pruned), and otherwise branched on.
   */
  function Step(env: Env, s: State): (r: Next)
    requires Sound(env) && |s.leaves| > 0
    ensures var i := Picked(env, s);
            var node := s.leaves[i];
            var v := Classify(Relaxation(env, s));
            && ((r.Halt? && r.exit == 0) <==> node.initial && !v.Fractional?)
            && (r.Halt? && r.exit == 0 ==>
                  && |r.s.leaves| == |s.leaves| && r.s.leaves[i].oid == node.oid
                  && r.s.tree == Mark(s.tree, node.oid, if v.Integral? then INTG else FEAS)
                  && r.s.bestLower == s.bestLower && r.s.solution == s.solution
                  && r.s.count == s.count && r.s.nextId == s.nextId)
            && (!(r.Halt? && r.exit == 0) ==>
                  |r.s.leaves| >= |s.leaves| - 1 && r.s.leaves[..|s.leaves| - 1] == Erase(s.leaves, i))
            && (r.Halt? && r.exit != 0 ==> r.exit == -1 && Branches(env, s) && s.count > LoopLimit)
    ensures Branches(env, s) ==>
              var i := Picked(env, s);
              var sol := Relaxation(env, s);
              r == Branch(env, s, Erase(s.leaves, i), s.leaves[i], sol, Classify(sol).violated)
    ensures r.Continue? ==> r.s.count == s.count + 1 && Progress(r.s, s)
    ensures r.Continue? ==> (|r.s.leaves| == |s.leaves| + 1 <==> Branches(env, s))
    ensures r.Continue? && !Branches(env, s) ==>
              && |r.s.leaves| == |s.leaves| - 1 && r.s.nextId == s.nextId && r.s.pool == s.pool
              && r.s.tree == Mark(s.tree, s.leaves[Picked(env, s)].oid, PruneOf(Classify(Relaxation(env, s))))
    ensures LessEq(s.bestLower, r.s.bestLower)
    ensures r.s.bestLower == s.bestLower ==> r.s.solution == s.solution
    ensures r.s.bestLower != s.bestLower ==>
              var sol := Relaxation(env, s);
              && Classify(sol).Integral? && !s.leaves[Picked(env, s)].initial
              && r.s.bestLower == Finite(sol.objVal)
              && r.s.solution == Some(Incumbent(s.leaves[Picked(env, s)].oid, sol.objVal))
    ensures var sol := Relaxation(env, s);
            (Classify(sol).Integral? && !s.leaves[Picked(env, s)].initial && Less(s.bestLower, Finite(sol.objVal)))
            ==> r.s.bestLower == Finite(sol.objVal)
  {
    var i := Picked(env, s);
    var node := s.leaves[i];
    var sol := Relaxation(env, s);
    var v := Classify(sol);
    if node.initial && v.Infeasible? then
      Halt(s.(tree := Mark(s.tree, node.oid, FEAS)), 0)
    else if node.initial && v.Integral? then
      Halt(s.(leaves := s.leaves[i := node.(upperBound := Finite(sol.objVal))],
              tree := Mark(s.tree, node.oid, INTG)), 0)
    else
      Settle(env, s, Erase(s.leaves, i), node, sol)
  }

  /**
   * The iteration once the picked `node` is erased (`rest`) and its relaxation
   * `sol` does not end the loop: record an integral incumbent, prune an
   * infeasible or bounded node, or branch.
   */
  function Settle(env: Env, s: State, rest: seq<NodeData>, node: NodeData, sol: Solved): (r: Next)
    requires Sound(env) && WellFormed(sol)
  {
    match Classify(sol)
    case Integral =>
      var better := Less(s.bestLower, Finite(sol.objVal));
      Continue(s.(leaves := rest, tree := Mark(s.tree, node.oid, INTG),
                  bestLower := if better then Finite(sol.objVal) else s.bestLower,
                  solution := if better then Some(Incumbent(node.oid, sol.objVal)) else s.solution,
                  count := s.count + 1))
    case Infeasible =>
      Continue(s.(leaves := rest, tree := Mark(s.tree, node.oid, FEAS), count := s.count + 1))
    case Fractional(vars) =>
      if LessEq(Finite(sol.objVal), s.bestLower) then
        Continue(s.(leaves := rest, tree := Mark(s.tree, node.oid, BNDS), count := s.count + 1))
      else
        Branch(env, s, rest, node, sol, vars)
  }

  /** The annotation a pruned node receives, by the verdict that pruned it. */
  function PruneOf(v: Verdict): PruneType
  {
    match v
    case Integral => INTG
    case Infeasible => FEAS
    case Fractional(_) => BNDS
  }

  /** The loop's final state and `branchAndBound`'s exit code (0, or -1 at the loop limit). */
  datatype Outcome = Outcome(state: State, exit: int)

  /** The whole loop: iterate `Step` until the container is empty or an iteration ends the loop. */
  function Run(env: Env, s: State): (o: Outcome)
    requires Sound(env)
    decreases CapLeft(s.count), |s.leaves|
    ensures o.exit == 0 || o.exit == -1
    ensures o.exit == -1 ==> o.state.count > LoopLimit
  {
    if |s.leaves| == 0 then Outcome(s, 0)
    else
      match Step(env, s)
      case Halt(t, e) => Outcome(t, e)
      case Continue(t) => Run(env, t)
  }

  /** The state before the loop: the initial node S1 alone, as the root of the tree. */
  function Init(prob: Model, rootId: int): (s: State)
    ensures |s.leaves| == 1 && s.leaves[0] == NodeData(rootId, PosInf, NegInf, prob, true)
    ensures s.tree == map[rootId := TreeEntry(None, NONE)] && s.nextId == rootId + 1
    ensures s.bestLower == NegInf && s.solution == None && s.count == 0 && s.pool == []
  {
    var s1 := NodeData(rootId, PosInf, NegInf, prob, true);
    State([s1], rootId + 1, NegInf, None, map[rootId := TreeEntry(None, NONE)], 0, [])
  }

  /**
   * The invariant of the loop's state, for a tree rooted at `root`: every tree
   * oid was handed out already and, except the root, has an older parent in the
   * tree; the leaves are distinct tree nodes; pooled cuts have matching vectors;
   * and there is an incumbent exactly when `bestLower` is finite, an
   * integral-pruned node whose objective `bestLower` is.
   */
  ghost predicate Valid(s: State, root: int)
  {
    && TreeShaped(s.tree, root, s.nextId)
    && LeafSet(s.tree, s.leaves)
    && CutsWellShaped(s.pool)
    && IncumbentRecorded(s)
  }

  /** The root has no parent; every oid lies in [root, nextId); every other node has an older parent in the tree. */
  ghost predicate TreeShaped(tree: SearchTree, root: int, nextId: int)
  {
    && root in tree && tree[root].parent == None
    && (forall k :: k in tree ==> root <= k < nextId)
    && (forall k {:trigger tree[k]} :: k in tree && k != root ==>
          tree[k].parent.Some? && tree[k].parent.value in tree && tree[k].parent.value < k)
  }

  /** An incumbent exists exactly when `bestLower` is finite: an integral-pruned node whose objective `bestLower` is. */
  ghost predicate IncumbentRecorded(s: State)
  {
    && (s.solution.None? <==> s.bestLower == NegInf)
    && (s.solution.Some? ==>
          && s.bestLower == Finite(s.solution.value.value)
          && s.solution.value.oid in s.tree && s.tree[s.solution.value.oid].prune == INTG)
  }

  /**
   * `after` is `tree` with two fresh entries at nextId and nextId + 1, both
   * unpruned children of `parent`.
   */
  ghost predicate AddsChildren(tree: SearchTree, after: SearchTree, nextId: int, parent: int)
  {
    && after.Keys == tree.Keys + {nextId, nextId + 1}
    && after[nextId] == after[nextId + 1] == TreeEntry(Some(parent), NONE)
    && (forall k :: k in tree && k != nextId && k != nextId + 1 ==> after[k] == tree[k])
  }

  /** Two fresh children of a tree node keep the tree shaped. */
  lemma AddChildrenKeepsShape(tree: SearchTree, after: SearchTree, root: int, nextId: int, parent: int)
    requires TreeShaped(tree, root, nextId) && parent in tree && AddsChildren(tree, after, nextId, parent)
    ensures TreeShaped(after, root, nextId + 2)
  {
    forall k | k in after && k != root
      ensures after[k].parent.Some? && after[k].parent.value in after && after[k].parent.value < k
    {
      if k < nextId {
        assert after[k] == tree[k];
      }
    }
  }

  /** The leaves are tree nodes with distinct oids. */
  ghost predicate LeafSet(tree: SearchTree, leaves: seq<NodeData>)
  {
    && (forall n :: n in leaves ==> n.oid in tree)
    && (forall i, j :: 0 <= i < j < |leaves| ==> leaves[i].oid != leaves[j].oid)
  }

  /** Every leaf is still unpruned in the tree. */
  ghost predicate LeavesOpen(s: State)
  {
    forall n :: n in s.leaves && n.oid in s.tree ==> s.tree[n.oid].prune == NONE
  }

  /** Erasing a leaf keeps the rest distinct tree nodes, none of them the erased one. */
  lemma EraseKeepsLeafSet(tree: SearchTree, leaves: seq<NodeData>, i: int)
    requires 0 <= i < |leaves| && LeafSet(tree, leaves)
    ensures LeafSet(tree, Erase(leaves, i))
    ensures forall n :: n in Erase(leaves, i) ==> n in leaves && n.oid != leaves[i].oid
  {
    var rest := Erase(leaves, i);
    forall a | 0 <= a < |rest|
      ensures rest[a] in leaves && rest[a].oid != leaves[i].oid
    {
      if a < i {
        assert rest[a] == leaves[a];
      } else {
        assert rest[a] == leaves[a + 1];
      }
    }
    forall a, b | 0 <= a < b < |rest|
      ensures rest[a].oid != rest[b].oid
    {
      if a < i && i <= b {
        assert rest[a] == leaves[a] && rest[b] == leaves[b + 1];
      } else if a < i {
        assert rest[a] == leaves[a] && rest[b] == leaves[b];
      } else {
        assert rest[a] == leaves[a + 1] && rest[b] == leaves[b + 1];
      }
    }
  }

  /** Queuing two fresh children under a tree node keeps the invariant and the leaves unpruned. */
  lemma GrowKeepsValid(s: State, rest: seq<NodeData>, parent: int, pool: seq<CutContainer>, s2: NodeData, s3: NodeData,
                       root: int)
    requires Valid(s, root) && LeafSet(s.tree, rest) && CutsWellShaped(pool) && parent in s.tree
    requires forall n :: n in rest ==> s.tree[n.oid].prune == NONE
    requires s2.oid == s.nextId && s3.oid == s.nextId + 1
    ensures Valid(Grow(s, rest, parent, pool, s2, s3), root) && LeavesOpen(Grow(s, rest, parent, pool, s2, s3))
  {
    var t := Grow(s, rest, parent, pool, s2, s3);
    assert AddsChildren(s.tree, t.tree, s.nextId, parent);
    AddChildrenKeepsShape(s.tree, t.tree, root, s.nextId, parent);
    GrowLeaves(s.tree, t.tree, rest, parent, s.nextId, s2, s3);
    if s.solution.Some? {
      assert s.solution.value.oid < s.nextId;
    }
  }

  /** The leaf facts of `Grow`: distinct unpruned tree nodes, the two children included. */
  lemma GrowLeaves(tree: SearchTree, after: SearchTree, rest: seq<NodeData>, parent: int, nextId: int,
                   s2: NodeData, s3: NodeData)
    requires LeafSet(tree, rest) && (forall k :: k in tree ==> k < nextId) && AddsChildren(tree, after, nextId, parent)
    requires forall n :: n in rest ==> tree[n.oid].prune == NONE
    requires s2.oid == nextId && s3.oid == nextId + 1
    ensures LeafSet(after, rest + [s2, s3])
    ensures forall n :: n in rest + [s2, s3] ==> after[n.oid].prune == NONE
  {
    var leaves := rest + [s2, s3];
    forall n | n in leaves
      ensures n.oid in after && after[n.oid].prune == NONE
    {
      if n in rest {
        assert after[n.oid] == tree[n.oid];
      } else {
        assert n == s2 || n == s3;
      }
    }
    forall a, b | 0 <= a < b < |leaves|
      ensures leaves[a].oid != leaves[b].oid
    {
      if b >= |rest| && a < |rest| {
        assert leaves[a] in rest;
      }
    }
  }

  /** Pruning the picked leaf keeps the invariant; the remaining leaves stay unpruned. */
  lemma PruneKeepsValid(s: State, i: int, p: PruneType, t: State, root: int)
    requires 0 <= i < |s.leaves| && Valid(s, root) && LeavesOpen(s)
    requires t.tree == Mark(s.tree, s.leaves[i].oid, p) && t.nextId == s.nextId && t.pool == s.pool
    requires || t.leaves == Erase(s.leaves, i)
             || (|t.leaves| == |s.leaves| && t.leaves == s.leaves[i := t.leaves[i]] && t.leaves[i].oid == s.leaves[i].oid)
    requires t.solution == s.solution || (p == INTG && t.solution.Some? && t.solution.value.oid == s.leaves[i].oid)
    requires t.solution.None? <==> t.bestLower == NegInf
    requires t.solution.Some? ==> t.bestLower == Finite(t.solution.value.value)
    ensures Valid(t, root)
    ensures t.leaves == Erase(s.leaves, i) ==> LeavesOpen(t)
  {
    var node := s.leaves[i];
    assert s.tree[node.oid].prune == NONE;
    if t.leaves == Erase(s.leaves, i) {
      EraseKeepsLeafSet(s.tree, s.leaves, i);
    } else {
      forall n | n in t.leaves
        ensures n.oid in t.tree
      {
        var a :| 0 <= a < |t.leaves| && t.leaves[a] == n;
        assert a == i || n == s.leaves[a];
      }
      forall a, b | 0 <= a < b < |t.leaves|
        ensures t.leaves[a].oid != t.leaves[b].oid
      {
        assert t.leaves[a].oid == s.leaves[a].oid && t.leaves[b].oid == s.leaves[b].oid;
      }
    }
  }

  /** Every iteration keeps the invariant; one that does not end the loop also keeps the leaves unpruned. */
  lemma StepKeepsValid(env: Env, s: State, root: int)
    requires Sound(env) && |s.leaves| > 0 && Valid(s, root) && LeavesOpen(s)
    ensures Valid(Step(env, s).s, root)
    ensures Step(env, s).Continue? || Step(env, s).exit == -1 ==> LeavesOpen(Step(env, s).s)
  {
    var r := Step(env, s);
    if Branches(env, s) {
      BranchStepKeepsValid(env, s, root);
    } else if r.Halt? && r.exit == 0 {
      RootStepKeepsValid(env, s, root);
    } else {
      PruneStepKeepsValid(env, s, root);
    }
  }

  lemma BranchStepKeepsValid(env: Env, s: State, root: int)
    requires Sound(env) && |s.leaves| > 0 && Valid(s, root) && LeavesOpen(s) && Branches(env, s)
    ensures Valid(Step(env, s).s, root) && LeavesOpen(Step(env, s).s)
  {
    var r := Step(env, s);
    var i := Picked(env, s);
    var node := s.leaves[i];
    var sol := Relaxation(env, s);
    var rest := Erase(s.leaves, i);
    assert r == Branch(env, s, rest, node, sol, Classify(sol).violated);
    EraseKeepsLeafSet(s.tree, s.leaves, i);
    GrowKeepsValid(s, rest, node.oid, CutRound(env, s.pool, node.prob, sol).0,
                   r.s.leaves[|rest|], r.s.leaves[|rest| + 1], root);
  }

  lemma RootStepKeepsValid(env: Env, s: State, root: int)
    requires Sound(env) && |s.leaves| > 0 && Valid(s, root) && LeavesOpen(s)
    requires Step(env, s).Halt? && Step(env, s).exit == 0
    ensures Valid(Step(env, s).s, root)
  {
    var sol := Relaxation(env, s);
    PruneKeepsValid(s, Picked(env, s), if Classify(sol).Integral? then INTG else FEAS, Step(env, s).s, root);
  }

  lemma PruneStepKeepsValid(env: Env, s: State, root: int)
    requires Sound(env) && |s.leaves| > 0 && Valid(s, root) && LeavesOpen(s) && !Branches(env, s)
    requires !(s.leaves[Picked(env, s)].initial && !Classify(Relaxation(env, s)).Fractional?)
    ensures Valid(Step(env, s).s, root) && LeavesOpen(Step(env, s).s)
  {
    var r := Step(env, s);
    var i := Picked(env, s);
    assert r.s.leaves == Erase(s.leaves, i);
    PruneKeepsValid(s, i, PruneOf(Classify(Relaxation(env, s))), r.s, root);
  }

  /** The whole loop keeps the invariant, from any state where the leaves are unpruned. */
  lemma {:induction false} RunKeepsValid(env: Env, s: State, root: int)
    requires Sound(env) && Valid(s, root) && LeavesOpen(s)
    ensures Valid(Run(env, s).state, root)
    decreases CapLeft(s.count), |s.leaves|
  {
    if |s.leaves| > 0 {
      StepKeepsValid(env, s, root);
      var r := Step(env, s);
      if r.Continue? {
        RunKeepsValid(env, r.s, root);
        assert Run(env, s) == Run(env, r.s);
      } else {
        assert Run(env, s).state == r.s;
      }
    }
  }

  /** `bestLower` never decreases over the whole loop. */
  lemma {:induction false} RunBestLowerMonotone(env: Env, s: State)
    requires Sound(env)
    ensures LessEq(s.bestLower, Run(env, s).state.bestLower)
    decreases CapLeft(s.count), |s.leaves|
  {
    if |s.leaves| > 0 && Step(env, s).Continue? {
      var t := Step(env, s).s;
      RunBestLowerMonotone(env, t);
      LessEqIsOrder(s.bestLower, t.bestLower, Run(env, t).state.bestLower);
    }
  }

  /**
   * The loop starts valid with its leaf open: one root node with no parent,
   * the counter just past it.
   */
  lemma InitIsValid(prob: Model, rootId: int)
    ensures Valid(Init(prob, rootId), rootId) && LeavesOpen(Init(prob, rootId))
  {
  }

  /**
   * An initial relaxation that is infeasible or integral ends the loop in its
   * first iteration with exit code 0: the root stays in the container, no
   * incumbent is recorded and `bestLower` stays -inf even when the root is
   * integral; the root is annotated FEAS or INTG.
   */
  lemma RootDecidesAlone(env: Env, prob: Model, rootId: int)
    requires Sound(env) && !Classify(env.solve(prob)).Fractional?
    ensures var o := Run(env, Init(prob, rootId));
            && o.exit == 0 && |o.state.leaves| == 1 && o.state.leaves[0].oid == rootId
            && o.state.bestLower == NegInf && o.state.solution == None && o.state.count == 0
            && o.state.tree[rootId].prune == (if Classify(env.solve(prob)).Integral? then INTG else FEAS)
  {
    var s := Init(prob, rootId);
    assert Picked(env, s) == 0;
  }

  /** Oids are handed out in pairs after the root, so the next one is an odd distance from it. */
  predicate OddGap(s: State, root: int)
  {
    (s.nextId - root) % 2 == 1
  }

  lemma OddPlusTwo(d: int, e: int)
    requires d % 2 == 1 && (e == d || e == d + 2)
    ensures e % 2 == 1
  {
  }

  /**
   * A branch step draws the next two oids for the children, queues them last
   * in that order and enters both in the tree under the picked node.
   */
  lemma BranchStepShape(env: Env, s: State)
    requires Sound(env) && |s.leaves| > 0 && Branches(env, s)
    ensures var t := Step(env, s).s;
            var n := |s.leaves|;
            var parent := s.leaves[Picked(env, s)].oid;
            && t.nextId == s.nextId + 2 && |t.leaves| == n + 1
            && t.leaves[n - 1].oid == s.nextId && t.leaves[n].oid == s.nextId + 1
            && s.nextId in t.tree && s.nextId + 1 in t.tree
            && t.tree[s.nextId].parent == Some(parent) && t.tree[s.nextId + 1].parent == Some(parent)
  {
    var i := Picked(env, s);
    var sol := Relaxation(env, s);
    var rest := Erase(s.leaves, i);
    var r := Branch(env, s, rest, s.leaves[i], sol, Classify(sol).violated);
    assert Step(env, s) == r;
    var g := Grow(s, rest, s.leaves[i].oid, CutRound(env, s.pool, s.leaves[i].prob, sol).0, r.s.leaves[|rest|], r.s.leaves[|rest| + 1]);
    assert r.s.(count := s.count) == g;
    assert r.s.tree == g.tree && r.s.nextId == g.nextId && r.s.leaves == g.leaves;
  }

  /** An iteration moves the counter by two exactly when it branches. */
  lemma StepMovesCounter(env: Env, s: State)
    requires Sound(env) && |s.leaves| > 0
    ensures Step(env, s).s.nextId == if Branches(env, s) then s.nextId + 2 else s.nextId
  {
    if Branches(env, s) {
      BranchStepShape(env, s);
    }
  }

  /** An iteration moves the counter by 0 or 2, keeping the gap odd. */
  lemma StepKeepsOddGap(env: Env, s: State, root: int)
    requires Sound(env) && |s.leaves| > 0 && OddGap(s, root)
    ensures OddGap(Step(env, s).s, root)
  {
    StepMovesCounter(env, s);
    GapMoves(s, Step(env, s).s, root);
  }

  lemma GapMoves(s: State, t: State, root: int)
    requires OddGap(s, root) && (t.nextId == s.nextId || t.nextId == s.nextId + 2)
    ensures OddGap(t, root)
  {
    OddPlusTwo(s.nextId - root, t.nextId - root);
  }

  /** Over the whole loop the gap stays odd. */
  lemma {:induction false} RunKeepsOddGap(env: Env, s: State, root: int)
    requires Sound(env) && OddGap(s, root)
    ensures OddGap(Run(env, s).state, root)
    decreases CapLeft(s.count), |s.leaves|
  {
    if |s.leaves| > 0 {
      StepKeepsOddGap(env, s, root);
      var r := Step(env, s);
      if r.Continue? {
        RunKeepsOddGap(env, r.s, root);
        assert Run(env, s) == Run(env, r.s);
      } else {
        assert Run(env, s).state == r.s;
      }
    }
  }

  /**
   * Children are numbered in pairs k, k + 1 with k - 1 odd, so k > 1 is even:
   * k is reported as a right branch and k + 1 as a left one.
   */
  lemma SiblingDirections(k: int)
    requires k > 1 && (k - 1) % 2 == 1
    ensures GetBranchDirection(k) == Messages.R && GetBranchDirection(k + 1) == Messages.L
  {
  }

  /**
   * With the root at oid 1 (so every later oid is past 1), a branch step gives the floor child S2 an even
   * oid, reported as a right branch, and the ceiling child S3 the next, odd oid,
   * reported as a left branch; `getParentOid` reports the branched node for both.
   */
  lemma ChildDirections(env: Env, s: State)
    requires Sound(env) && |s.leaves| > 0 && s.nextId > 1 && OddGap(s, 1) && Branches(env, s)
    ensures var t := Step(env, s).s;
            var n := |s.leaves|;
            var parent := s.leaves[Picked(env, s)].oid;
            && |t.leaves| == n + 1
            && GetBranchDirection(t.leaves[n - 1].oid) == Messages.R
            && GetBranchDirection(t.leaves[n].oid) == Messages.L
            && t.leaves[n].oid == t.leaves[n - 1].oid + 1
            && t.leaves[n - 1].oid in t.tree && GetParentOid(t.tree, t.leaves[n - 1].oid) == parent
            && t.leaves[n].oid in t.tree && GetParentOid(t.tree, t.leaves[n].oid) == parent
  {
    BranchStepShape(env, s);
    SiblingDirections(s.nextId);
  }

  /**
   * The chain of parents from `oid` up to the root of a valid tree: strictly
   * decreasing oids, each a tree node, ending at the root. With the root at
   * oid 1, each link is what `getParentOid` reports, and the root reports itself.
   */
  function PathToRoot(s: State, root: int, oid: int): (p: seq<int>)
    requires Valid(s, root) && oid in s.tree
    decreases oid - root
    ensures |p| > 0 && p[0] == oid && p[|p| - 1] == root
    ensures forall k :: 0 <= k < |p| ==> p[k] in s.tree
    ensures forall k :: 0 <= k < |p| - 1 ==> p[k + 1] < p[k] && s.tree[p[k]].parent == Some(p[k + 1])
    ensures root == 1 ==> GetParentOid(s.tree, root) == root
    ensures root == 1 ==> forall k :: 0 <= k < |p| - 1 ==> GetParentOid(s.tree, p[k]) == p[k + 1]
  {
    if oid == root then [oid]
    else [oid] + PathToRoot(s, root, s.tree[oid].parent.value)
  }
}
