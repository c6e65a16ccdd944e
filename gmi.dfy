/**
 * Gomory mixed-integer cut construction (`generateCut3`): from the tableau row
 * of a basic integer column, per-entry mixed-integer-rounding coefficients and
 * a running right-hand side, a back-substitution through the constraint rows,
 * and a fixed output layout.
 */
module Gmi {
  import opened Numeric
  import opened Lp
  import opened CutPools

  /**
   * The coefficient of one tableau entry with value `val`, given the fractional
   * part `fRhs` of the current right-hand side: one rule for integer columns,
   * one for continuous ones (every row variable counts as continuous). A binary
   * column matches neither rule and keeps the previous entry's coefficient `prev`.
   */
  function MirCoef(kind: ColKind, val: real, fRhs: real, prev: real): real
    requires 0.0 <= fRhs < 1.0
  {
    if kind == Integer then
      var fVal := Fract(val);
      if fRhs >= fVal then fVal else (fRhs / (1.0 - fRhs)) * (1.0 - fVal)
    else if kind == Continuous then
      if val >= 0.0 then val else (fRhs / (1.0 - fRhs)) * (-1.0 * val)
    else prev
  }

  function Min(x: real, y: real): real { if x <= y then x else y }
  function Max(x: real, y: real): real { if x >= y then x else y }

  /**
   * The integer rule is the Gomory mixed-integer coefficient
   * min(f_j, f_0 (1 - f_j) / (1 - f_0)); it lies in [0, f_0].
   */
  lemma IntegerCoefIsGmi(val: real, fRhs: real, prev: real)
    requires 0.0 <= fRhs < 1.0
    ensures var fVal := Fract(val);
            MirCoef(Integer, val, fRhs, prev) == Min(fVal, fRhs * (1.0 - fVal) / (1.0 - fRhs))
    ensures 0.0 <= MirCoef(Integer, val, fRhs, prev) <= fRhs
  {
    var fVal := Fract(val);
    ScaledTimesDenom(fRhs, 1.0 - fVal);
    assert fRhs * (1.0 - fVal) == fRhs - fVal * fRhs;
    IntegerRuleBounds(fVal, fRhs, (fRhs / (1.0 - fRhs)) * (1.0 - fVal));
  }

  /**
   * The continuous rule is max(a_j, -a_j f_0 / (1 - f_0)): the entry itself when
   * non-negative, its scaled negation otherwise; it is never negative.
   */
  lemma ContinuousCoefIsGmi(val: real, fRhs: real, prev: real)
    requires 0.0 <= fRhs < 1.0
    ensures MirCoef(Continuous, val, fRhs, prev) == Max(val, -val * fRhs / (1.0 - fRhs))
    ensures MirCoef(Continuous, val, fRhs, prev) >= 0.0
  {
    var d := 1.0 - fRhs;
    ScaledTimesDenom(fRhs, -1.0 * val);
    var alt := (fRhs / d) * (-1.0 * val);
    if val >= 0.0 {
      MulNonNeg(fRhs, val);
      assert alt * d <= 0.0 * d;
      Cancel(alt, 0.0, d);
    } else {
      MulNonNeg(fRhs, -1.0 * val);
      assert 0.0 * d <= alt * d;
      Cancel(0.0, alt, d);
    }
  }

  /** Where `alt` solves alt (1 - r) = r (1 - f): alt >= 0, and it is compared with f and r. */
  lemma IntegerRuleBounds(f: real, r: real, alt: real)
    requires 0.0 <= f < 1.0 && 0.0 <= r < 1.0
    requires alt * (1.0 - r) == r - f * r
    ensures 0.0 <= alt
    ensures r >= f ==> f <= alt
    ensures r < f ==> alt <= f && alt <= r
  {
    RuleNonNegative(f, r, alt);
    if r >= f {
      RuleAtLeastF(f, r, alt);
    } else {
      RuleAtMostBoth(f, r, alt);
    }
  }

  lemma RuleNonNegative(f: real, r: real, alt: real)
    requires 0.0 <= f < 1.0 && 0.0 <= r < 1.0
    requires alt * (1.0 - r) == r - f * r
    ensures 0.0 <= alt
  {
    MulNonNeg(r, 1.0 - f);
    MulOneMinus(r, f);
    Cancel(0.0, alt, 1.0 - r);
  }

  lemma RuleAtLeastF(f: real, r: real, alt: real)
    requires 0.0 <= f <= r < 1.0
    requires alt * (1.0 - r) == r - f * r
    ensures f <= alt
  {
    MulOneMinus(f, r);
    Cancel(f, alt, 1.0 - r);
  }

  lemma RuleAtMostBoth(f: real, r: real, alt: real)
    requires 0.0 <= r < f < 1.0
    requires alt * (1.0 - r) == r - f * r
    ensures alt <= f && alt <= r
  {
    MulOneMinus(f, r);
    Cancel(alt, f, 1.0 - r);
    MulOneMinus(r, r);
    MulNonNeg(r, f - r);
    MulMinus(r, f, r);
    Cancel(alt, r, 1.0 - r);
  }

  lemma MulOneMinus(a: real, b: real)
    ensures a * (1.0 - b) == a - b * a
  {
  }

  lemma MulMinus(a: real, b: real, c: real)
    ensures a * (b - c) == b * a - c * a
  {
  }

  lemma ScaledTimesDenom(r: real, x: real)
    requires r < 1.0
    ensures (r / (1.0 - r)) * x * (1.0 - r) == r * x
    ensures (r / (1.0 - r)) * x == r * x / (1.0 - r)
  {
  }

  lemma MulNonNeg(a: real, b: real)
    requires a >= 0.0 && b >= 0.0
    ensures a * b >= 0.0
  {
  }

  /** Dividing both sides of `x * d <= y * d` by a positive d. */
  lemma Cancel(x: real, y: real, d: real)
    requires 0.0 < d && x * d <= y * d
    ensures x <= y
  {
  }

  /** The state of the first loop: the work array, the running right-hand side, and the last coefficient. */
  datatype Pass = Pass(work: seq<real>, rhs: real, temp: real)

  /** The variables of a tableau row: 1..m are rows, m+1..m+n are columns. */
  ghost predicate EntriesInRange(view: Solved, es: seq<Entry>)
  {
    forall k :: 0 <= k < |es| ==> 1 <= es[k].index <= |view.rows| + |view.cols|
  }

  /** The kind and upper bound the loop reads for variable `index`; a row variable is continuous. */
  function KindAndUb(view: Solved, index: int): (ColKind, real)
    requires 1 <= index <= |view.rows| + |view.cols|
  {
    var m := |view.rows|;
    if index <= m then (Continuous, view.rows[index - 1].ub)
    else (view.cols[index - m - 1].kind, view.cols[index - m - 1].ub)
  }

  /** One entry: its coefficient, from the current rhs's fractional part, is stored negated and rhs drops by coefficient times bound. */
  function EntryStep(view: Solved, p: Pass, e: Entry): (r: Pass)
    requires 1 <= e.index <= |view.rows| + |view.cols| && e.index < |p.work|
    ensures |r.work| == |p.work|
  {
    var (kind, ub) := KindAndUb(view, e.index);
    var coef := MirCoef(kind, e.value, Fract(p.rhs), p.temp);
    Pass(p.work[e.index := -1.0 * coef], p.rhs - coef * ub, coef)
  }

  /** The first loop over the entries of a tableau row, left to right. */
  function Scan(view: Solved, es: seq<Entry>, p0: Pass): (r: Pass)
    requires EntriesInRange(view, es) && |p0.work| == |view.rows| + |view.cols| + 1
    ensures |r.work| == |p0.work|
  {
    if es == [] then p0
    else EntryStep(view, Scan(view, es[..|es| - 1], p0), es[|es| - 1])
  }

  /** Row i's contribution: entry k (1-based position in the row) adds w * value into slot m + k. */
  function AddScaledRow(work: seq<real>, m: nat, w: real, es: seq<Entry>, k: nat): (r: seq<real>)
    requires k <= |es| && m + |es| < |work|
    ensures |r| == |work|
    ensures forall x {:trigger r[x]} :: 0 <= x <= m ==> r[x] == work[x]
  {
    if k == 0 then work
    else
      var r := AddScaledRow(work, m, w, es, k - 1);
      r[m + k := r[m + k] + w * es[k - 1].value]
  }

  lemma AddScaledRowStep(work: seq<real>, m: nat, w: real, es: seq<Entry>, k: nat)
    requires 1 <= k <= |es| && m + |es| < |work|
    ensures var r := AddScaledRow(work, m, w, es, k - 1);
            AddScaledRow(work, m, w, es, k) == r[m + k := r[m + k] + w * es[k - 1].value]
  {
  }

  ghost predicate RowsFit(rows: seq<RowInfo>, width: nat)
  {
    forall i :: 0 <= i < |rows| ==> |rows| + |rows[i].entries| < width
  }

  /** The second loop, over rows 1..i: each row's multiplier `work[i]` is spread over slots m+1.. */
  function BackSubstitute(work: seq<real>, rows: seq<RowInfo>, i: nat): (r: seq<real>)
    requires i <= |rows| < |work| && RowsFit(rows, |work|)
    ensures |r| == |work|
    ensures forall x {:trigger r[x]} :: 0 <= x <= |rows| ==> r[x] == work[x]
  {
    if i == 0 then work
    else
      var w := BackSubstitute(work, rows, i - 1);
      AddScaledRow(w, |rows|, w[i], rows[i - 1].entries, |rows[i - 1].entries|)
  }

  /** The sum over rows 1..i of work[row] times the row's k-th listed value (rows shorter than k add nothing). */
  function PositionalSum(work: seq<real>, rows: seq<RowInfo>, i: nat, k: nat): real
    requires i <= |rows| < |work|
  {
    if i == 0 then 0.0
    else PositionalSum(work, rows, i - 1, k)
         + (if 1 <= k <= |rows[i - 1].entries| then work[i] * rows[i - 1].entries[k - 1].value else 0.0)
  }

  lemma {:induction false} AddScaledRowAt(work: seq<real>, m: nat, w: real, es: seq<Entry>, k: nat, x: nat)
    requires k <= |es| && m + |es| < |work| && m < x < |work|
    ensures AddScaledRow(work, m, w, es, k)[x] == work[x] + (if x - m <= k then w * es[x - m - 1].value else 0.0)
  {
    if k > 0 {
      AddScaledRowAt(work, m, w, es, k - 1, x);
    }
  }

  /**
   * After back-substitution, structural slot m + k holds its first-pass value plus
   * work[i] times the k-th listed value of each row i: the value is taken by its
   * position in the row's sparse list, not by the column that row entry names.
   */
  lemma {:induction false} BackSubstituteIsPositional(work: seq<real>, rows: seq<RowInfo>, i: nat, k: nat)
    requires i <= |rows| < |work| && RowsFit(rows, |work|) && 1 <= k && |rows| + k < |work|
    ensures BackSubstitute(work, rows, i)[|rows| + k] == work[|rows| + k] + PositionalSum(work, rows, i, k)
  {
    if i > 0 {
      BackSubstituteIsPositional(work, rows, i - 1, k);
      var w := BackSubstitute(work, rows, i - 1);
      var es := rows[i - 1].entries;
      AddScaledRowAt(w, |rows|, w[i], es, |es|, |rows| + k);
    }
  }

  function Zeros(len: nat): (z: seq<real>)
    ensures |z| == len && forall x :: 0 <= x < len ==> z[x] == 0.0
  {
    seq(len, _ => 0.0)
  }

  /**
   * generateCut3(in, j): no cut unless column j is of integer kind and basic;
   * otherwise the cut over columns 1..n, with `inds = [0, 1, .., n]`,
   * `vals = [rhs, work[m+1], .., work[m+n]]` and `lb = rhs`. The model gives a
   * produced cut oid 0, since the source leaves it unset.
   */
  function Cut3(view: Solved, j: int): (c: CutContainer)
    requires WellFormed(view) && 1 <= j <= |view.cols|
    ensures c.oid != -1 <==> view.cols[j - 1].kind == Integer && view.cols[j - 1].basic
    ensures c.oid == -1 ==> c == NoCut
    ensures c.oid != -1 ==>
              && |c.inds| == |c.vals| == |view.cols| + 1
              && (forall i :: 0 <= i < |c.inds| ==> c.inds[i] == i)
              && c.vals[0] == c.lb
  {
    var m, n := |view.rows|, |view.cols|;
    if view.cols[j - 1].kind != Integer then NoCut
    else if !view.cols[j - 1].basic then NoCut
    else
      var p := FirstPass(view, j);
      var work := BackSubstitute(p.work, view.rows, m);
      CutContainer(seq(n + 1, i => i), [p.rhs] + work[m + 1..], p.rhs, 0)
  }

  /** The first loop of `generateCut3` for column j, from a zeroed work array and rhs = value of x_j. */
  function FirstPass(view: Solved, j: int): (p: Pass)
    requires WellFormed(view) && 1 <= j <= |view.cols|
    ensures |p.work| == |view.rows| + |view.cols| + 1
  {
    Scan(view, view.tabRows[j - 1], Pass(Zeros(|view.rows| + |view.cols| + 1), view.cols[j - 1].prim, 0.0))
  }

  /**
   * The coefficient a produced cut gives column k: its first-pass slot plus the
   * positional back-substitution sum; and the bound is the final running rhs.
   */
  lemma CutCoefficient(view: Solved, j: int, k: int)
    requires WellFormed(view) && 1 <= j <= |view.cols| && 1 <= k <= |view.cols|
    requires view.cols[j - 1].kind == Integer && view.cols[j - 1].basic
    ensures var p := FirstPass(view, j);
            && Cut3(view, j).vals[k] == p.work[|view.rows| + k] + PositionalSum(p.work, view.rows, |view.rows|, k)
            && Cut3(view, j).lb == p.rhs
  {
    var p := FirstPass(view, j);
    BackSubstituteIsPositional(p.work, view.rows, |view.rows|, k);
  }

  /** The coefficient rules of the first loop, as branches over the column kind. */
  method EntryCoefficient(kind: ColKind, val: real, fRhs: real, prev: real) returns (coef: real)
    requires 0.0 <= fRhs < 1.0
    ensures coef == MirCoef(kind, val, fRhs, prev)
    ensures kind != Binary ==> coef >= 0.0
  {
    coef := prev;
    var fVal := Fract(val);
    if kind == Integer {
      if fRhs >= fVal {
        coef := fVal;
      } else {
        coef := (fRhs / (1.0 - fRhs)) * (1.0 - fVal);
      }
      IntegerCoefIsGmi(val, fRhs, prev);
    }
    if kind == Continuous {
      if val >= 0.0 {
        coef := val;
      } else {
        coef := (fRhs / (1.0 - fRhs)) * (-1.0 * val);
      }
      ContinuousCoefIsGmi(val, fRhs, prev);
    }
  }

  /** The first loop of generateCut3, in place on `work`: returns the final rhs. */
  method ScanTableauRow(view: Solved, tab: seq<Entry>, work: array<real>, rhs0: real) returns (rhs: real)
    requires EntriesInRange(view, tab) && work.Length == |view.rows| + |view.cols| + 1
    modifies work
    ensures var p := Scan(view, tab, Pass(old(work[..]), rhs0, 0.0));
            work[..] == p.work && rhs == p.rhs
  {
    var m := |view.rows|;
    rhs := rhs0;
    var temp := 0.0;
    ghost var p0 := Pass(work[..], rhs, temp);
    for i := 1 to |tab| + 1
      invariant Pass(work[..], rhs, temp) == Scan(view, tab[..i - 1], p0)
    {
      var e := tab[i - 1];
      ghost var before := Pass(work[..], rhs, temp);
      var kind, ub;
      if e.index <= m {
        kind, ub := Continuous, view.rows[e.index - 1].ub;
      } else {
        kind, ub := view.cols[e.index - m - 1].kind, view.cols[e.index - m - 1].ub;
      }
      assert (kind, ub) == KindAndUb(view, e.index);
      var coef := EntryCoefficient(kind, e.value, Fract(rhs), temp);
      work[e.index] := -1.0 * coef;
      rhs := rhs - coef * ub;
      temp := coef;
      assert Pass(work[..], rhs, temp) == EntryStep(view, before, e);
      assert tab[..i][..i - 1] == tab[..i - 1];
    }
    assert tab[..|tab|] == tab;
  }

  /** The second loop of generateCut3, in place on `work`. */
  method BackSubstituteRows(rows: seq<RowInfo>, work: array<real>)
    requires |rows| < work.Length && RowsFit(rows, work.Length)
    modifies work
    ensures work[..] == BackSubstitute(old(work[..]), rows, |rows|)
  {
    var m := |rows|;
    ghost var w1 := work[..];
    for i := 1 to m + 1
      invariant work[..] == BackSubstitute(w1, rows, i - 1)
    {
      var row := rows[i - 1].entries;
      ghost var before := work[..];
      for k := 1 to |row| + 1
        invariant work[..] == AddScaledRow(before, m, before[i], row, k - 1)
      {
        ghost var prev := work[..];
        var pivot := work[i];
        assert pivot == before[i];
        work[m + k] := work[m + k] + pivot * row[k - 1].value;
        assert work[..] == prev[m + k := prev[m + k] + pivot * row[k - 1].value];
        AddScaledRowStep(before, m, pivot, row, k);
      }
    }
  }

  /** generateCut3, over arrays as the source runs it. */
  method GenerateCut3(view: Solved, j: int) returns (result: CutContainer)
    requires WellFormed(view) && 1 <= j <= |view.cols|
    ensures result == Cut3(view, j)
  {
    var m, n := |view.rows|, |view.cols|;
    if view.cols[j - 1].kind != Integer {
      return NoCut;
    }
    if !view.cols[j - 1].basic {
      return NoCut;
    }
    var work := new real[m + n + 1];
    ClearWork(work);
    var rhs := ScanTableauRow(view, view.tabRows[j - 1], work, view.cols[j - 1].prim);
    assert work[..] == FirstPass(view, j).work && rhs == FirstPass(view, j).rhs;
    BackSubstituteRows(view.rows, work);
    result := EmitCut(work, m, n, rhs);
    assert result.inds == seq(n + 1, i => i);
    assert result.vals == [rhs] + work[..][m + 1..];
  }

  /** The zeroing loop over slots 0..m+n. */
  method ClearWork(work: array<real>)
    modifies work
    ensures work[..] == Zeros(work.Length)
  {
    var z := 0;
    while z < work.Length
      invariant 0 <= z <= work.Length
      invariant forall x :: 0 <= x < z ==> work[x] == 0.0
    {
      work[z] := 0.0;
      z := z + 1;
    }
  }

  /**
   * The output loop: index 0 carries the final rhs, and index i (1..n) carries
   * column i with the coefficient left in slot m + i; the bound is the rhs.
   */
  method EmitCut(work: array<real>, m: nat, n: nat, rhs: real) returns (result: CutContainer)
    requires work.Length == m + n + 1
    ensures |result.inds| == |result.vals| == n + 1 && result.oid == 0 && result.lb == rhs
    ensures forall i :: 0 <= i <= n ==> result.inds[i] == i
    ensures result.vals[0] == rhs && forall i :: 1 <= i <= n ==> result.vals[i] == work[m + i]
  {
    var inds := [0];
    var vals := [rhs];
    var i := 1;
    while i <= n
      invariant 1 <= i <= n + 1
      invariant |inds| == |vals| == i
      invariant forall x :: 0 <= x < i ==> inds[x] == x
      invariant vals[0] == rhs && forall x :: 1 <= x < i ==> vals[x] == work[m + x]
    {
      inds := inds + [i];
      vals := vals + [work[m + i]];
      i := i + 1;
    }
    result := CutContainer(inds, vals, rhs, 0);
  }
}
