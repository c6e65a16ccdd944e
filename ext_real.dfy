/**
 * The doubles the engine compares: finite values and the two infinities
 * (`-std::numeric_limits<double>::infinity()` starts the incumbent, `+infinity`
 * starts a node's upper bound). NaN never arises in the compared quantities.
 */
module ExtendedReals {
  datatype ExtReal = NegInf | Finite(value: real) | PosInf

  /** `a < b` on doubles. */
  predicate Less(a: ExtReal, b: ExtReal)
  {
    match (a, b)
    case (NegInf, NegInf) => false
    case (NegInf, _) => true
    case (Finite(x), Finite(y)) => x < y
    case (Finite(_), PosInf) => true
    case (_, _) => false
  }

  /** `a <= b` on doubles, which without NaN is `!(b < a)`. */
  predicate LessEq(a: ExtReal, b: ExtReal)
  {
    !Less(b, a)
  }

  lemma LessEqIsOrder(a: ExtReal, b: ExtReal, c: ExtReal)
    ensures LessEq(a, a)
    ensures LessEq(a, b) && LessEq(b, a) ==> a == b
    ensures LessEq(a, b) && LessEq(b, c) ==> LessEq(a, c)
    ensures Less(a, b) <==> LessEq(a, b) && a != b
  {
  }
}
