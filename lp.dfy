/**
 * The GLPK boundary. GLPK itself is not part of this model: a problem object is
 * the record of the rows and column bounds the engine put on it, and a solved
 * relaxation is the value the `glp_get_*` getters would read back from it.
 */
module Lp {
  /** `glp_get_status`: GLP_UNDEF, GLP_FEAS, GLP_INFEAS, GLP_NOFEAS, GLP_OPT, GLP_UNBND. */
  datatype Status = Undef | Feas | Infeas | NoFeas | Opt | Unbnd

  /** `glp_get_col_kind`: GLP_CV, GLP_IV, GLP_BV. */
  datatype ColKind = Continuous | Integer | Binary

  /** The bound types of `glp_set_col_bnds` / `glp_set_row_bnds`. */
  datatype Bound = Free | Lower(lb: real) | Upper(ub: real) | DoubleBounded(lo: real, hi: real) | FixedAt(v: real)

  /** One constraint row: its sparse coefficients and its bound. */
  datatype Row = Row(inds: seq<int>, vals: seq<real>, bound: Bound)

  /** A problem object's contents: its rows in order, and the bound set on each column. */
  datatype Model = Model(rows: seq<Row>, colBounds: map<int, Bound>)

  /** `glp_set_col_bnds(p, j, type, ...)`: the column's bound is replaced by the new one. */
  function SetColBound(m: Model, j: int, b: Bound): (r: Model)
    ensures r.rows == m.rows
    ensures j in r.colBounds && r.colBounds[j] == b
    ensures forall c :: c != j ==> (c in r.colBounds <==> c in m.colBounds)
    ensures forall c :: c != j && c in m.colBounds ==> r.colBounds[c] == m.colBounds[c]
  {
    m.(colBounds := m.colBounds[j := b])
  }

  /** `glp_add_rows(p, 1)`: a new row with no coefficients and no bound. */
  const EmptyRow := Row([], [], Free)

  /** One (ind[k], val[k]) pair of a sparse GLPK vector. */
  datatype Entry = Entry(index: int, value: real)

  /**
   * What the getters report for structural column j (stored at position j - 1):
   * `glp_get_col_prim`, `glp_get_obj_coef`, `glp_get_col_kind`,
   * `glp_get_col_stat == GLP_BS`, `glp_get_col_ub`.
   */
  datatype ColumnInfo = ColumnInfo(prim: real, objCoef: real, kind: ColKind, basic: bool, ub: real)

  /** What the getters report for row i (stored at position i - 1): `glp_get_row_ub` and `glp_get_mat_row`. */
  datatype RowInfo = RowInfo(ub: real, entries: seq<Entry>)

  /**
   * A problem after `glp_simplex`: status, objective value, constant term
   * `glp_get_obj_coef(p, 0)`, columns, rows, and for each structural column j the
   * row `glp_eval_tab_row(p, m + j, ...)` of the simplex tableau.
   */
  datatype Solved = Solved(status: Status, objVal: real, shift: real,
                           cols: seq<ColumnInfo>, rows: seq<RowInfo>, tabRows: seq<seq<Entry>>)

  /**
   * What GLPK guarantees about the vectors it returns, and what the callers'
   * `n + 1`-sized buffers rely on: a tableau row has at most n entries, each
   * naming a variable in 1..m+n, and a constraint row has at most n entries.
   */
  ghost predicate WellFormed(s: Solved)
  {
    && |s.tabRows| == |s.cols|
    && (forall j :: 0 <= j < |s.tabRows| ==> |s.tabRows[j]| <= |s.cols|)
    && (forall j, k :: 0 <= j < |s.tabRows| && 0 <= k < |s.tabRows[j]| ==>
          1 <= s.tabRows[j][k].index <= |s.rows| + |s.cols|)
    && (forall i :: 0 <= i < |s.rows| ==> |s.rows[i].entries| <= |s.cols|)
  }

  /** A `glp_prob *`: an object whose contents the engine changes in place. */
  class GlpProb {
    var model: Model

    /** `glp_create_prob()` followed by `glp_copy_prob` of `m`. */
    constructor (m: Model)
      ensures model == m
    {
      model := m;
    }
  }
}
