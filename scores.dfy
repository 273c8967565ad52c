/** Search scores as JavaScript numbers used by the two searchers: a finite
    value or one of the two infinities that open the alpha-beta window. */
module Scores {

  datatype Score = NegInf | Fin(v: real) | PosInf

  /** `a <= b` on the extended reals. */
  predicate Le(a: Score, b: Score) {
    a.NegInf? || b.PosInf? || (a.Fin? && b.Fin? && a.v <= b.v)
  }

  /** `a < b` on the extended reals. */
  predicate Lt(a: Score, b: Score) {
    !Le(b, a)
  }

  /** `Math.max(a, b)`: the least upper bound of the two. */
  function Max(a: Score, b: Score): (r: Score)
    ensures Le(a, r) && Le(b, r)
    ensures r == a || r == b
  {
    if Le(a, b) then b else a
  }

  /** `Math.min(a, b)`: the greatest lower bound of the two. */
  function Min(a: Score, b: Score): (r: Score)
    ensures Le(r, a) && Le(r, b)
    ensures r == a || r == b
  {
    if Le(a, b) then a else b
  }

  /** Unary minus; it maps the infinities onto each other. */
  function Neg(a: Score): (r: Score)
    ensures r.Fin? <==> a.Fin?
  {
    match a
    case NegInf => PosInf
    case Fin(x) => Fin(-x)
    case PosInf => NegInf
  }

  lemma LeTotal(a: Score, b: Score)
    ensures Le(a, b) || Le(b, a)
  {
  }

  lemma LeTrans(a: Score, b: Score, c: Score)
    requires Le(a, b) && Le(b, c)
    ensures Le(a, c)
  {
  }

  /** Negation reverses the order, so maximising a negated value minimises
      the value itself. */
  lemma NegReversesOrder(a: Score, b: Score)
    ensures Le(Neg(a), Neg(b)) <==> Le(b, a)
    ensures Neg(Neg(a)) == a
  {
  }

  lemma MaxAssoc(a: Score, b: Score, c: Score)
    ensures Max(a, Max(b, c)) == Max(Max(a, b), c)
  {
  }

  lemma MinAssoc(a: Score, b: Score, c: Score)
    ensures Min(a, Min(b, c)) == Min(Min(a, b), c)
  {
  }
}
