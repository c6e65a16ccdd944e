/**
 * The first-in-first-out engine of BranchAndBound.cpp: nodes are taken from
 * the front of a queue, children are pushed at the back, the branching column
 * is the first violated one, and children keep an upper bound of +infinity.
 * The search tree records each node's parent oid.
 */
module Fifo {
  import opened Wrappers
  import opened ExtendedReals
  import opened Numeric
  import opened Lp
  import opened Util

  /** The loop ends after the iteration that branches with `count > 50`. */
  const FifoLimit := 50

  /** The loop's state: the queue, the next oid, `bestLower`, each node's parent, and `count`. */
  datatype FifoState = FifoState(queue: seq<NodeData>, nextId: int, bestLower: ExtReal,
                                 parents: map<int, Option<int>>, count: nat)

  /** What an iteration leads to: the next state, or the `break` out of the loop. */
  datatype FifoNext = Go(s: FifoState) | Stop(s: FifoState)

  /** The solver returns well-formed results for every problem. */
  ghost predicate SolverSound(solve: Model -> Solved)
  {
    forall m :: WellFormed(solve(m))
  }

  /** The state before the loop: S1 alone in the queue and as the tree's root. */
  function FifoInit(prob: Model, rootId: int): (s: FifoState)
    ensures |s.queue| == 1 && s.queue[0].initial && s.queue[0].oid == rootId && s.queue[0].prob == prob
    ensures s.parents == map[rootId := None] && s.nextId == rootId + 1
    ensures s.bestLower == NegInf && s.count == 0
  {
    FifoState([NodeData(rootId, PosInf, NegInf, prob, true)], rootId + 1, NegInf, map[rootId := None], 0)
  }

  /**
   * The two children of a branch on column `pick` with value `v`, cloned from
   * the front node's problem and bounded above by floor v (S2) and below by
   * ceil v (S3); their upper bounds stay +infinity.
   */
  function FifoChildren(node: NodeData, pick: int, v: real, nextId: int): (r: (NodeData, NodeData))
    ensures r.0.oid == nextId && r.1.oid == nextId + 1
    ensures r.0.prob.rows == node.prob.rows && r.0.prob.colBounds == node.prob.colBounds[pick := Upper(Floor(v) as real)]
    ensures r.1.prob.rows == node.prob.rows && r.1.prob.colBounds == node.prob.colBounds[pick := Lower(Ceil(v) as real)]
    ensures !r.0.initial && !r.1.initial && r.0.upperBound == r.1.upperBound == PosInf
  {
    (NodeData(nextId, PosInf, NegInf, SetColBound(node.prob, pick, Upper(Floor(v) as real)), false),
     NodeData(nextId + 1, PosInf, NegInf, SetColBound(node.prob, pick, Lower(Ceil(v) as real)), false))
  }

  /**
   * One iteration on a non-empty queue. An initial node whose relaxation is not
   * fractional breaks out with the state untouched; otherwise the front is
   * popped and pruned (integral, infeasible, or bound with ties) or branched on
   * its first violated column, the children pushed S2 first, and the loop
   * broken when `count > 50`.
   */
  function FifoStep(solve: Model -> Solved, s: FifoState): (r: FifoNext)
    requires SolverSound(solve) && |s.queue| > 0
    ensures var sol := solve(s.queue[0].prob);
            var v := Classify(sol);
            var branches := v.Fractional? && Less(s.bestLower, Finite(sol.objVal));
            && (r.Stop? <==> (s.queue[0].initial && !v.Fractional?) || (branches && s.count > FifoLimit))
            && (r.Stop? && !branches ==> r.s == s)
            && (!(r.Stop? && !branches) ==>
                  && |r.s.queue| >= |s.queue| - 1 && r.s.queue[..|s.queue| - 1] == s.queue[1..]
                  && (|r.s.queue| == |s.queue| + 1 <==> branches)
                  && (!branches ==> |r.s.queue| == |s.queue| - 1 && r.s.nextId == s.nextId && r.s.parents == s.parents))
            && (branches ==>
                  && r.s.nextId == s.nextId + 2
                  && r.s.queue[|s.queue| - 1] == FifoChildren(s.queue[0], v.violated[0], sol.cols[v.violated[0] - 1].prim, s.nextId).0
                  && r.s.queue[|s.queue|] == FifoChildren(s.queue[0], v.violated[0], sol.cols[v.violated[0] - 1].prim, s.nextId).1
                  && r.s.parents == s.parents[s.nextId := Some(s.queue[0].oid)][s.nextId + 1 := Some(s.queue[0].oid)])
            && (r.Go? ==> r.s.count == s.count + 1)
    ensures LessEq(s.bestLower, r.s.bestLower)
    ensures var sol := solve(s.queue[0].prob);
            r.s.bestLower != s.bestLower <==>
              Classify(sol).Integral? && !s.queue[0].initial && Less(s.bestLower, Finite(sol.objVal))
    ensures r.s.bestLower != s.bestLower ==> r.s.bestLower == Finite(solve(s.queue[0].prob).objVal)
  {
    var node := s.queue[0];
    var sol := solve(node.prob);
    var v := Classify(sol);
    if node.initial && !v.Fractional? then Stop(s)
    else
      var rest := s.queue[1..];
      match v
      case Integral =>
        var better := Less(s.bestLower, Finite(sol.objVal));
        Go(s.(queue := rest, bestLower := if better then Finite(sol.objVal) else s.bestLower, count := s.count + 1))
      case Infeasible =>
        Go(s.(queue := rest, count := s.count + 1))
      case Fractional(vars) =>
        if LessEq(Finite(sol.objVal), s.bestLower) then Go(s.(queue := rest, count := s.count + 1))
        else
          var (s2, s3) := FifoChildren(node, vars[0], sol.cols[vars[0] - 1].prim, s.nextId);
          var t := s.(queue := rest + [s2, s3], nextId := s.nextId + 2,
                      parents := s.parents[s2.oid := Some(node.oid)][s3.oid := Some(node.oid)]);
          if s.count > FifoLimit then Stop(t) else Go(t.(count := s.count + 1))
  }

  /** The measure: branching iterations are bounded by the limit, pruning ones shrink the queue. */
  function FifoCap(count: nat): nat
  {
    if count <= FifoLimit + 1 then FifoLimit + 2 - count else 0
  }

  /** Every continuing iteration either spends the branching budget or shrinks the queue. */
  lemma FifoStepProgress(solve: Model -> Solved, s: FifoState)
    requires SolverSound(solve) && |s.queue| > 0 && FifoStep(solve, s).Go?
    ensures var t := FifoStep(solve, s).s;
            FifoCap(t.count) < FifoCap(s.count) || (FifoCap(t.count) == FifoCap(s.count) && |t.queue| < |s.queue|)
  {
  }

  /** The whole loop: iterate until the queue is empty or an iteration breaks; `branchAndBound` then returns 0. */
  function FifoRun(solve: Model -> Solved, s: FifoState): FifoState
    requires SolverSound(solve)
    decreases FifoCap(s.count), |s.queue|
  {
    if |s.queue| == 0 then s
    else
      match FifoStep(solve, s)
      case Stop(t) => t
      case Go(t) =>
        FifoStepProgress(solve, s);
        FifoRun(solve, t)
  }

  /** The queue lists oids in strictly increasing order. */
  predicate OidsAscending(queue: seq<NodeData>)
  {
    forall i, j :: 0 <= i < j < |queue| ==> queue[i].oid < queue[j].oid
  }

  /**
   * The invariant of the loop's state: every recorded oid lies in [root, nextId);
   * the root has no parent and every other node an older recorded parent; the
   * queue holds recorded nodes in increasing oid order.
   */
  ghost predicate FifoValid(s: FifoState, root: int)
  {
    && ParentsShaped(s.parents, root, s.nextId)
    && (forall n :: n in s.queue ==> n.oid in s.parents)
    && OidsAscending(s.queue)
  }

  lemma FifoInitIsValid(prob: Model, rootId: int)
    ensures FifoValid(FifoInit(prob, rootId), rootId)
  {
  }

  /** The parent map's part of the invariant. */
  ghost predicate ParentsShaped(parents: map<int, Option<int>>, root: int, nextId: int)
  {
    && root in parents && parents[root] == None
    && (forall k :: k in parents ==> root <= k < nextId)
    && (forall k {:trigger parents[k]} :: k in parents && k != root ==>
          parents[k].Some? && parents[k].value in parents && parents[k].value < k)
  }

  /** Recording two fresh children of a recorded node keeps the parent map shaped. */
  lemma RecordChildren(parents: map<int, Option<int>>, root: int, nextId: int, parent: int)
    requires ParentsShaped(parents, root, nextId) && parent in parents
    ensures ParentsShaped(parents[nextId := Some(parent)][nextId + 1 := Some(parent)], root, nextId + 2)
  {
    var after := parents[nextId := Some(parent)][nextId + 1 := Some(parent)];
    forall k | k in after && k != root
      ensures after[k].Some? && after[k].value in after && after[k].value < k
    {
      if k < nextId {
        assert after[k] == parents[k];
      }
    }
  }

  /** Popping the front and pushing two oids past every queued one keeps the queue ascending. */
  lemma PushKeepsAscending(queue: seq<NodeData>, after: seq<NodeData>, nextId: int)
    requires |queue| > 0 && OidsAscending(queue) && forall n :: n in queue ==> n.oid < nextId
    requires |after| == |queue| + 1 && after[..|queue| - 1] == queue[1..]
    requires after[|queue| - 1].oid == nextId && after[|queue|].oid == nextId + 1
    ensures OidsAscending(after)
    ensures forall i :: 0 <= i < |queue| - 1 ==> after[i] == queue[i + 1]
  {
    var n := |queue|;
    forall i | 0 <= i < n - 1
      ensures after[i] == queue[i + 1]
    {
      assert after[i] == after[..n - 1][i];
    }
    forall i, j | 0 <= i < j < |after|
      ensures after[i].oid < after[j].oid
    {
      if i < n - 1 {
        assert queue[i + 1] in queue;
      }
    }
  }

  /** Pushing the two children after the popped queue keeps the tree and the queue order. */
  lemma PushKeepsValid(s: FifoState, root: int, t: FifoState)
    requires FifoValid(s, root) && |s.queue| > 0
    requires |t.queue| == |s.queue| + 1 && t.queue[..|s.queue| - 1] == s.queue[1..]
    requires t.queue[|s.queue| - 1].oid == s.nextId && t.queue[|s.queue|].oid == s.nextId + 1
    requires t.nextId == s.nextId + 2
    requires t.parents == s.parents[s.nextId := Some(s.queue[0].oid)][s.nextId + 1 := Some(s.queue[0].oid)]
    ensures FifoValid(t, root)
  {
    assert ParentsShaped(s.parents, root, s.nextId);
    assert s.queue[0] in s.queue;
    RecordChildren(s.parents, root, s.nextId, s.queue[0].oid);
    PushKeepsAscending(s.queue, t.queue, s.nextId);
    forall m | m in t.queue
      ensures m.oid in t.parents
    {
      var i :| 0 <= i < |t.queue| && t.queue[i] == m;
      if i < |s.queue| - 1 {
        assert s.queue[i + 1] in s.queue;
      }
    }
  }

  /** Popping the front keeps the tree and the queue order. */
  lemma PopKeepsValid(s: FifoState, root: int, t: FifoState)
    requires FifoValid(s, root) && |s.queue| > 0
    requires t.queue == s.queue[1..] && t.nextId == s.nextId && t.parents == s.parents
    ensures FifoValid(t, root)
  {
    forall i, j | 0 <= i < j < |t.queue|
      ensures t.queue[i].oid < t.queue[j].oid
    {
      assert t.queue[i] == s.queue[i + 1] && t.queue[j] == s.queue[j + 1];
    }
  }

  lemma FifoStepKeepsValid(solve: Model -> Solved, s: FifoState, root: int)
    requires SolverSound(solve) && |s.queue| > 0 && FifoValid(s, root)
    ensures FifoValid(FifoStep(solve, s).s, root)
  {
    var r := FifoStep(solve, s);
    var sol := solve(s.queue[0].prob);
    var v := Classify(sol);
    var branches := v.Fractional? && Less(s.bestLower, Finite(sol.objVal));
    if branches {
      PushKeepsValid(s, root, r.s);
    } else if !r.Stop? {
      assert r.s.queue == r.s.queue[..|s.queue| - 1];
      PopKeepsValid(s, root, r.s);
    }
  }

  /** The run ends in a state that still satisfies the invariant. */
  lemma {:induction false} FifoRunKeepsValid(solve: Model -> Solved, s: FifoState, root: int)
    requires SolverSound(solve) && FifoValid(s, root)
    ensures FifoValid(FifoRun(solve, s), root)
    decreases FifoCap(s.count), |s.queue|
  {
    if |s.queue| > 0 {
      FifoStepKeepsValid(solve, s, root);
      var r := FifoStep(solve, s);
      if r.Go? {
        FifoStepProgress(solve, s);
        assert FifoRun(solve, s) == FifoRun(solve, r.s);
        FifoRunKeepsValid(solve, r.s, root);
      }
    }
  }

  /**
   * The queue discipline: the next node taken from the queue was created after
   * the current one, so nodes are solved in the order they were created.
   */
  lemma FifoTakesInCreationOrder(solve: Model -> Solved, s: FifoState, root: int)
    requires SolverSound(solve) && |s.queue| > 0 && FifoValid(s, root)
    requires FifoStep(solve, s).Go? && |FifoStep(solve, s).s.queue| > 0
    ensures s.queue[0].oid < FifoStep(solve, s).s.queue[0].oid
  {
    var t := FifoStep(solve, s).s;
    FifoStepKeepsValid(solve, s, root);
    if |s.queue| > 1 {
      assert t.queue[0] == t.queue[..|s.queue| - 1][0] == s.queue[1];
    } else {
      assert s.queue[0] in s.queue;
      assert t.queue[0].oid == s.nextId;
    }
  }

  /** `bestLower` never decreases over the run. */
  lemma {:induction false} FifoRunBestLowerMonotone(solve: Model -> Solved, s: FifoState)
    requires SolverSound(solve)
    ensures LessEq(s.bestLower, FifoRun(solve, s).bestLower)
    decreases FifoCap(s.count), |s.queue|
  {
    if |s.queue| > 0 {
      var r := FifoStep(solve, s);
      if r.Go? {
        FifoStepProgress(solve, s);
        assert FifoRun(solve, s) == FifoRun(solve, r.s);
        FifoRunBestLowerMonotone(solve, r.s);
        LessEqIsOrder(s.bestLower, r.s.bestLower, FifoRun(solve, r.s).bestLower);
      }
    }
  }

  /** An initial relaxation that is infeasible or integral ends the run at once, with nothing changed. */
  lemma FifoRootDecidesAlone(solve: Model -> Solved, prob: Model, rootId: int)
    requires SolverSound(solve) && !Classify(solve(prob)).Fractional?
    ensures FifoRun(solve, FifoInit(prob, rootId)) == FifoInit(prob, rootId)
  {
    var s := FifoInit(prob, rootId);
    assert FifoStep(solve, s) == Stop(s);
  }

  /**
   * One pass of the loop body: copy and solve the front node's problem,
   * classify it, then break, pop and prune, or pop and push two children.
   */
  method FifoIterate(solve: Model -> Solved, queue: seq<NodeData>, bestLower: ExtReal,
                     parents: map<int, Option<int>>, count: nat, ids: IdCounter)
    returns (queue': seq<NodeData>, bestLower': ExtReal, parents': map<int, Option<int>>, count': nat, stop: bool)
    requires SolverSound(solve) && |queue| > 0
    modifies ids
    ensures var t := FifoState(queue', ids.id, bestLower', parents', count');
            FifoStep(solve, FifoState(queue, old(ids.id), bestLower, parents, count)) == if stop then Stop(t) else Go(t)
  {
    var a := new GlpProb(queue[0].prob);
    var sol := solve(a.model);
    var status, vars := PrintInfo(sol);
    queue', bestLower', parents', count', stop := queue, bestLower, parents, count, false;
    if queue[0].initial && status != 0 {
      stop := true;
      return;
    }
    var node := queue[0];
    queue' := queue[1..];
    if status == 1 {
      if Less(bestLower, Finite(sol.objVal)) {
        bestLower' := Finite(sol.objVal);
      }
    } else if status == -1 {
    } else if LessEq(Finite(sol.objVal), bestLower) {
    } else {
      var bound := sol.cols[vars[0] - 1].prim;
      var s2 := ids.NewNode(a.model);
      var s3 := ids.NewNode(a.model);
      s2 := s2.(prob := SetColBound(s2.prob, vars[0], Upper(Floor(bound) as real)));
      s3 := s3.(prob := SetColBound(s3.prob, vars[0], Lower(Ceil(bound) as real)));
      parents' := parents[s2.oid := Some(node.oid)][s3.oid := Some(node.oid)];
      queue' := queue' + [s2, s3];
      if count > FifoLimit {
        stop := true;
        return;
      }
    }
    count' := count + 1;
  }

  /**
   * `branchAndBound(prob)` of BranchAndBound.cpp: S1 is drawn from the counter
   * and queued, and the loop runs until the queue is empty or an iteration
   * breaks. The function always returns 0; the final state is the result here.
   */
  method FifoBranchAndBound(prob: Model, solve: Model -> Solved, ids: IdCounter) returns (final: FifoState)
    requires SolverSound(solve)
    modifies ids
    ensures final == FifoRun(solve, FifoInit(prob, old(ids.id)))
    ensures ids.id == final.nextId
  {
    var s1 := ids.NewNode(prob);
    s1 := s1.(initial := true);
    var queue := [s1];
    var parents := map[s1.oid := None];
    var bestLower := NegInf;
    var count: nat := 0;
    var stop := false;
    ghost var s0 := FifoState(queue, ids.id, bestLower, parents, count);
    assert s0 == FifoInit(prob, old(ids.id));
    while !stop && queue != []
      invariant !stop ==> FifoRun(solve, FifoState(queue, ids.id, bestLower, parents, count)) == FifoRun(solve, s0)
      invariant stop ==> FifoState(queue, ids.id, bestLower, parents, count) == FifoRun(solve, s0)
      decreases !stop, FifoCap(count), |queue|
    {
      ghost var cur := FifoState(queue, ids.id, bestLower, parents, count);
      queue, bestLower, parents, count, stop := FifoIterate(solve, queue, bestLower, parents, count, ids);
      ghost var next := FifoState(queue, ids.id, bestLower, parents, count);
      assert FifoStep(solve, cur) == if stop then Stop(next) else Go(next);
      if !stop {
        FifoStepProgress(solve, cur);
      }
    }
    final := FifoState(queue, ids.id, bestLower, parents, count);
  }
}
