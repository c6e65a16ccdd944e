/**
 * The shared vocabulary of the engine (util.h) and its two helpers (util.cpp):
 * the node record and its id allocation, the prune annotations, the strategy
 * codes and their holder, and the classifier of a solved relaxation.
 */
module Util {
  import opened Wrappers
  import opened ExtendedReals
  import opened Numeric
  import opened Lp

  /** Prune by integrality, infeasibility, worse bound, or not pruned. */
  datatype PruneType = INTG | FEAS | BNDS | NONE

  /** The enumerator values: INTG = 0, FEAS = 1, BNDS = 3, and NONE follows BNDS. */
  function PruneCode(p: PruneType): (c: int)
    ensures p == INTG <==> c == 0
    ensures p == FEAS <==> c == 1
    ensures p == BNDS <==> c == 3
    ensures p == NONE <==> c == 4
  {
    match p
    case INTG => 0
    case FEAS => 1
    case BNDS => 3
    case NONE => 4
  }

  /** The annotation a code names, if any: the codes are exactly 0, 1, 3 and 4, so distinct annotations have distinct codes. */
  function PruneOfCode(c: int): (r: Option<PruneType>)
    ensures r.Some? <==> c in {0, 1, 3, 4}
    ensures r.Some? ==> PruneCode(r.value) == c
    ensures forall p :: PruneCode(p) == c ==> r == Some(p)
  {
    if c == 0 then Some(INTG) else if c == 1 then Some(FEAS) else if c == 3 then Some(BNDS) else if c == 4 then Some(NONE) else None
  }

  /** Branching-variable strategies: in order, fractional part nearest 0.5, greatest objective impact. */
  datatype VarStrat = VO | VFP | VGO

  /** Node-selection strategies: depth-first (queue order) and best bound. */
  datatype NodeStrat = DFS | BEST

  function VarStratCode(a: VarStrat): int
  {
    match a
    case VO => 0
    case VFP => 1
    case VGO => 2
  }

  function NodeStratCode(b: NodeStrat): int
  {
    match b
    case DFS => 0
    case BEST => 1
  }

  /** The strategy a code names, if any: the codes are exactly 0, 1 and 2. */
  function VarStratOfCode(c: int): (r: Option<VarStrat>)
    ensures r.Some? <==> 0 <= c <= 2
    ensures r.Some? ==> VarStratCode(r.value) == c
    ensures forall a :: VarStratCode(a) == c ==> r == Some(a)
  {
    if c == 0 then Some(VO) else if c == 1 then Some(VFP) else if c == 2 then Some(VGO) else None
  }

  /** The strategy a code names, if any: the codes are exactly 0 and 1. */
  function NodeStratOfCode(c: int): (r: Option<NodeStrat>)
    ensures r.Some? <==> 0 <= c <= 1
    ensures r.Some? ==> NodeStratCode(r.value) == c
    ensures forall b :: NodeStratCode(b) == c ==> r == Some(b)
  {
    if c == 0 then Some(DFS) else if c == 1 then Some(BEST) else None
  }

  /**
   * A sub-problem: its object id, the objective of its relaxation (`upperBound`),
   * the unused `lowerBound`, its own copy of the problem, and whether it is the
   * initial relaxation.
   */
  datatype NodeData = NodeData(oid: int, upperBound: ExtReal, lowerBound: ExtReal, prob: Model, initial: bool)

  /** The process-wide object-id counter (`static int id = 1`) and the constructor that draws from it. */
  class IdCounter {
    var id: int

    constructor ()
      ensures id == 1
    {
      id := 1;
    }

    /**
     * `NodeData(parent)`: takes the current counter value as oid, advances the
     * counter, starts with bounds -inf / +inf, is not the initial relaxation, and
     * owns a copy of the parent problem.
     */
    method NewNode(parent: Model) returns (n: NodeData)
      modifies this
      ensures n == NodeData(old(id), PosInf, NegInf, parent, false)
      ensures id == old(id) + 1
    {
      n := NodeData(id, PosInf, NegInf, parent, false);
      id := id + 1;
    }
  }

  /** The strategy settings; built only from a problem, starting at VO and DFS. */
  class ParameterObj {
    var varStrat: VarStrat
    var nodeStrat: NodeStrat
    const prob: Model

    constructor (p: Model)
      ensures varStrat == VO && nodeStrat == DFS && prob == p
    {
      varStrat, nodeStrat, prob := VO, DFS, p;
    }

    method SetVarStrat(a: VarStrat)
      modifies this
      ensures varStrat == a && nodeStrat == old(nodeStrat)
    {
      varStrat := a;
    }

    method SetNodeStrat(b: NodeStrat)
      modifies this
      ensures nodeStrat == b && varStrat == old(varStrat)
    {
      nodeStrat := b;
    }

    method SetStrategy(a: VarStrat, b: NodeStrat)
      modifies this
      ensures varStrat == a && nodeStrat == b
    {
      varStrat, nodeStrat := a, b;
    }
  }

  /** The three outcomes of classifying a relaxation: -1, 1, and 0 with its violated columns. */
  datatype Verdict = Infeasible | Integral | Fractional(violated: seq<int>)

  function StatusCode(v: Verdict): int
  {
    match v
    case Infeasible => -1
    case Integral => 1
    case Fractional(_) => 0
  }

  /** GLP_NOFEAS, GLP_INFEAS and GLP_UNBND count as "no solution". */
  predicate NoSolution(st: Status)
  {
    st == NoFeas || st == Infeas || st == Unbnd
  }

  /** A column breaks integrality: non-zero value, non-zero objective coefficient, fractional, not continuous. */
  predicate IsViolated(c: ColumnInfo)
  {
    c.prim != 0.0 && c.objCoef != 0.0 && Trunc(c.prim) != c.prim && c.kind != Continuous
  }

  predicate StrictlyAscending(v: seq<int>)
  {
    forall p, q :: 0 <= p < q < |v| ==> v[p] < v[q]
  }

  /** The violated columns among columns 1..k, in column order. */
  function ViolatedUpTo(cols: seq<ColumnInfo>, k: nat): (v: seq<int>)
    requires k <= |cols|
    ensures forall i :: i in v <==> 1 <= i <= k && IsViolated(cols[i - 1])
    ensures StrictlyAscending(v)
    ensures forall p :: 0 <= p < |v| ==> 1 <= v[p] <= k
  {
    if k == 0 then []
    else
      var w := ViolatedUpTo(cols, k - 1);
      if IsViolated(cols[k - 1]) then w + [k] else w
  }

  /**
   * printInfo's verdict on a solved relaxation: no solution first, then integral
   * when no column is violated, otherwise fractional with the violated columns.
   */
  function Classify(sol: Solved): (v: Verdict)
    ensures v.Infeasible? <==> NoSolution(sol.status)
    ensures v.Integral? <==> !NoSolution(sol.status) && forall j :: 0 <= j < |sol.cols| ==> !IsViolated(sol.cols[j])
    ensures v.Fractional? ==> |v.violated| > 0 && StrictlyAscending(v.violated)
    ensures v.Fractional? ==> forall i :: i in v.violated <==> 1 <= i <= |sol.cols| && IsViolated(sol.cols[i - 1])
  {
    if NoSolution(sol.status) then Infeasible
    else
      var w := ViolatedUpTo(sol.cols, |sol.cols|);
      if w == [] then
        assert forall j :: 0 <= j < |sol.cols| ==> !IsViolated(sol.cols[j]) by {
          forall j | 0 <= j < |sol.cols| ensures !IsViolated(sol.cols[j]) {
            assert (j + 1 in w) == IsViolated(sol.cols[j]);
          }
        }
        Integral
      else
        assert w[0] in w && IsViolated(sol.cols[w[0] - 1]);
        Fractional(w)
  }

  /** A column with a zero objective coefficient is never among the violated ones. */
  lemma ZeroCoefficientNeverViolates(sol: Solved, i: int)
    requires 1 <= i <= |sol.cols| && sol.cols[i - 1].objCoef == 0.0
    ensures Classify(sol).Fractional? ==> i !in Classify(sol).violated
  {
  }

  /**
   * printInfo: scans the columns in order, collecting the violated ones, and
   * reports -1 (no solution), 1 (nothing violated) or 0 (some column violated).
   */
  method PrintInfo(sol: Solved) returns (status: int, violated: seq<int>)
    ensures status == StatusCode(Classify(sol))
    ensures violated == if Classify(sol).Fractional? then Classify(sol).violated else []
    ensures status == 0 <==> violated != []
  {
    violated := [];
    if NoSolution(sol.status) {
      return -1, violated;
    }
    var cols := |sol.cols|;
    var i := 1;
    while i <= cols
      invariant 1 <= i <= cols + 1
      invariant violated == ViolatedUpTo(sol.cols, i - 1)
    {
      var c := sol.cols[i - 1];
      if c.prim != 0.0 && c.objCoef != 0.0 {
        if Trunc(c.prim) != c.prim && c.kind != Continuous {
          violated := violated + [i];
        }
      }
      i := i + 1;
    }
    if violated == [] {
      return 1, violated;
    }
    return 0, violated;
  }
}
