/** Extended reals: the values a single-precision `float` takes in the slab
    test once rounding is ignored -- a finite real or one of the two
    infinities the running interval starts from. */
module ExtReal {

  datatype Ext = NegInf | Fin(value: real) | PosInf

  /** The order of the extended real line (`<=` on floats without NaN). */
  predicate Le(a: Ext, b: Ext) {
    match (a, b)
    case (NegInf, _) => true
    case (_, PosInf) => true
    case (Fin(x), Fin(y)) => x <= y
    case _ => false
  }

  /** Strict order (`<` on floats without NaN). */
  predicate Lt(a: Ext, b: Ext) {
    Le(a, b) && a != b
  }

  lemma LeTransitive(a: Ext, b: Ext, c: Ext)
    requires Le(a, b) && Le(b, c)
    ensures Le(a, c)
  {
  }

  /** The larger of two extended reals: an upper bound of both that is one of them. */
  function Max(a: Ext, b: Ext): (r: Ext)
    ensures Le(a, r) && Le(b, r)
    ensures r == a || r == b
  {
    if Le(a, b) then b else a
  }

  /** The smaller of two extended reals: a lower bound of both that is one of them. */
  function Min(a: Ext, b: Ext): (r: Ext)
    ensures Le(r, a) && Le(r, b)
    ensures r == a || r == b
  {
    if Le(a, b) then a else b
  }

  /** Max is the least upper bound: it lies below c exactly when both arguments do. */
  lemma MaxLeIff(a: Ext, b: Ext, c: Ext)
    ensures Le(Max(a, b), c) <==> Le(a, c) && Le(b, c)
  {
  }

  /** Min is the greatest lower bound: it lies above c exactly when both arguments do. */
  lemma LeMinIff(c: Ext, a: Ext, b: Ext)
    ensures Le(c, Min(a, b)) <==> Le(c, a) && Le(c, b)
  {
  }
}
