/** A floating-point element as the kernels see it: NaN, one of the two
    infinities, or a finite value. Finite values are exact reals, so the
    model has no rounding. Comparisons follow IEEE 754: every comparison
    that involves NaN is false, and NaN is not equal to itself. */
module Floats {

  datatype F = NaN | NegInf | PosInf | Fin(r: real)

  /** np.isnan */
  predicate IsNaN(x: F) {
    x.NaN?
  }

  /** IEEE `x < y` */
  predicate Lt(x: F, y: F) {
    match (x, y)
    case (NaN, _) => false
    case (_, NaN) => false
    case (NegInf, NegInf) => false
    case (NegInf, _) => true
    case (PosInf, _) => false
    case (Fin(_), NegInf) => false
    case (Fin(a), Fin(b)) => a < b
    case (Fin(_), PosInf) => true
  }

  /** IEEE `x > y` */
  predicate Gt(x: F, y: F) {
    Lt(y, x)
  }

  /** IEEE `x == y`: false whenever either side is NaN */
  predicate Eq(x: F, y: F) {
    !x.NaN? && x == y
  }

  /** IEEE `x <= y` */
  predicate Le(x: F, y: F) {
    Lt(x, y) || Eq(x, y)
  }

  /** IEEE `x >= y` */
  predicate Ge(x: F, y: F) {
    Le(y, x)
  }

  /** On non-NaN values the comparisons form a total order. */
  lemma Trichotomy(x: F, y: F)
    requires !x.NaN? && !y.NaN?
    ensures Lt(x, y) || x == y || Lt(y, x)
    ensures !(Lt(x, y) && Lt(y, x))
    ensures Ge(x, y) <==> !Lt(x, y)
  {
  }

  lemma GeTrans(x: F, y: F, z: F)
    requires Ge(x, y) && Ge(y, z)
    ensures Ge(x, z)
  {
  }
}
