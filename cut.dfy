/**
 * Cuts and the cut pool (cut.h, cut.cpp): an append-only store of cuts, and
 * the injection of one stored cut as a new row of a problem.
 */
module CutPools {
  import opened Wrappers
  import opened Lp

  /**
   * A cut: parallel index and value vectors (slot 0 is a placeholder GLPK does
   * not read), the row's lower bound, and an origin id where -1 means "no cut".
   */
  datatype CutContainer = CutContainer(inds: seq<int>, vals: seq<real>, lb: real, oid: int)

  /** The "no cut produced" marker. */
  const NoCut := CutContainer([], [], 0.0, -1)

  /**
   * The ways `addCutConstraint` can end without returning: `.at` out of range,
   * the size assert failing, or an empty cut, whose row length `inds.size() - 1`
   * reaches `glp_set_mat_row` as -1, a length GLPK rejects by aborting.
   */
  datatype CutError = OutOfRange | SizeMismatch | EmptyCut

  /**
   * The row a cut becomes: `glp_set_mat_row` is given `inds.size() - 1` entries
   * starting at slot 1, and `glp_set_row_bnds` makes `lb` a lower bound.
   */
  function CutRow(c: CutContainer): (r: Row)
    requires |c.inds| == |c.vals| && c.inds != []
    ensures |r.inds| == |r.vals| == |c.inds| - 1
    ensures forall k :: 1 <= k < |c.inds| ==> r.inds[k - 1] == c.inds[k] && r.vals[k - 1] == c.vals[k]
    ensures r.bound == Lower(c.lb)
  {
    Row(c.inds[1..], c.vals[1..], Lower(c.lb))
  }

  /** The result of `addCutConstraint`: its return value or the error it ends with, and the problem afterwards. */
  datatype Injection = Injection(code: Result<int, CutError>, model: Model)

  /**
   * `addCutConstraint(in, cID)` on a pool holding `cuts`: -1 and no change for an
   * empty pool; otherwise a new row is added first, then the cut at `cID` (the
   * latest one when `cID` is negative) is looked up and written into that row.
   * The lookup succeeds exactly when the selected cut has matching, non-empty
   * vectors.
   */
  function Inject(cuts: seq<CutContainer>, m: Model, cID: int): (r: Injection)
    ensures cuts == [] ==> r == Injection(Ok(-1), m)
    ensures cuts != [] ==> |r.model.rows| == |m.rows| + 1 && r.model.rows[..|m.rows|] == m.rows
    ensures r.model.colBounds == m.colBounds
    ensures cuts != [] && cID < |cuts| && r.code.Ok? ==>
              var used := if cID < 0 then |cuts| - 1 else cID;
              && r.code == Ok(used)
              && |cuts[used].inds| == |cuts[used].vals| && cuts[used].inds != []
              && r.model.rows[|m.rows|] == CutRow(cuts[used])
    ensures cuts != [] && cID < |cuts| ==>
              var used := if cID < 0 then |cuts| - 1 else cID;
              && (r.code.Ok? <==> |cuts[used].inds| == |cuts[used].vals| && cuts[used].inds != [])
              && (r.code == Err(SizeMismatch) <==> |cuts[used].inds| != |cuts[used].vals|)
              && (r.code == Err(EmptyCut) <==> |cuts[used].inds| == |cuts[used].vals| && cuts[used].inds == [])
    ensures cuts != [] && cID >= |cuts| ==> r.code == Err(OutOfRange) && r.model.rows[|m.rows|] == EmptyRow
    ensures r.code.Err? ==> r.model.rows[|m.rows|] == EmptyRow
  {
    if cuts == [] then Injection(Ok(-1), m)
    else
      var used := if cID < 0 then |cuts| - 1 else cID;
      var withRow := m.(rows := m.rows + [EmptyRow]);
      if used >= |cuts| then Injection(Err(OutOfRange), withRow)
      else if |cuts[used].inds| != |cuts[used].vals| then Injection(Err(SizeMismatch), withRow)
      else if cuts[used].inds == [] then Injection(Err(EmptyCut), withRow)
      else Injection(Ok(used), m.(rows := m.rows + [CutRow(cuts[used])]))
  }

  /** The pool: a private vector of cuts whose only mutator appends. */
  class CutPool {
    var cuts: seq<CutContainer>

    constructor ()
      ensures cuts == []
    {
      cuts := [];
    }

    /** `addToPool`: appends the cut and returns the new size, the cut's 1-based position. */
    method AddToPool(cut: CutContainer) returns (size: int)
      modifies this
      ensures cuts == old(cuts) + [cut]
      ensures size == |cuts| && cuts[size - 1] == cut
    {
      cuts := cuts + [cut];
      size := |cuts|;
    }

    /**
     * `addCutConstraint`: writes one stored cut into a new row of `p`; the pool
     * itself is only read. A negative `cID` (the default) selects the latest cut.
     */
    method AddCutConstraint(p: GlpProb, cID: int := -1) returns (r: Result<int, CutError>)
      modifies p
      ensures Injection(r, p.model) == Inject(cuts, old(p.model), cID)
    {
      if |cuts| == 0 {
        return Ok(-1);
      }
      var id := cID;
      if id < 0 {
        id := |cuts| - 1;
      }
      p.model := p.model.(rows := p.model.rows + [EmptyRow]);
      if id >= |cuts| {
        return Err(OutOfRange);
      }
      var selected := cuts[id];
      if |selected.inds| != |selected.vals| {
        return Err(SizeMismatch);
      }
      if |selected.inds| == 0 {
        return Err(EmptyCut);
      }
      var index := |p.model.rows| - 1;
      p.model := p.model.(rows := p.model.rows[index := CutRow(selected)]);
      return Ok(id);
    }
  }
}
