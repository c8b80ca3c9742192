/** Road weights: a finite non-negative real or positive infinity (a blocked road). */
module Costs {

  /** `Inf` is Java's `Double.POSITIVE_INFINITY`; every other weight is a finite real. */
  datatype Cost = Fin(val: real) | Inf

  /** Addition with the IEEE rule that anything plus infinity is infinity. */
  function Add(a: Cost, b: Cost): (r: Cost)
    ensures r.Fin? <==> a.Fin? && b.Fin?
    ensures r.Fin? ==> r.val == a.val + b.val
  {
    if a.Fin? && b.Fin? then Fin(a.val + b.val) else Inf
  }

  /** `a <= b`, with infinity above every finite value. */
  predicate Le(a: Cost, b: Cost) {
    b.Inf? || (a.Fin? && a.val <= b.val)
  }

  /** `a < b`; in particular `Inf < Inf` is false, as for Java doubles. */
  predicate Lt(a: Cost, b: Cost) {
    a.Fin? && (b.Inf? || a.val < b.val)
  }

  /** A weight no smaller than zero. */
  predicate NonNeg(c: Cost) {
    c.Inf? || c.val >= 0.0
  }

  /** Adding a non-negative weight never decreases a cost. */
  lemma AddNonNegGrows(a: Cost, b: Cost)
    requires NonNeg(b)
    ensures Le(a, Add(a, b))
  {
  }

  lemma AddAssociative(a: Cost, b: Cost, c: Cost)
    ensures Add(Add(a, b), c) == Add(a, Add(b, c))
  {
  }
}
