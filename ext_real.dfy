/** The values a float64 division of two finite operands can take: a finite
    quotient, a signed infinity, or NaN. Rounding is not modelled, so a finite
    quotient is the exact real quotient. */
module ExtReal {

  datatype Ext = Finite(value: real) | PosInf | NegInf | NaN

  /** IEEE 754 division `num / den` of two finite floats. */
  function Div(num: real, den: real): (r: Ext)
    ensures r.Finite? <==> den != 0.0
    ensures r.Finite? ==> r.value * den == num
    ensures r == PosInf <==> den == 0.0 && num > 0.0
    ensures r == NegInf <==> den == 0.0 && num < 0.0
    ensures r == NaN <==> den == 0.0 && num == 0.0
  {
    if den != 0.0 then Finite(num / den)
    else if num > 0.0 then PosInf
    else if num < 0.0 then NegInf
    else NaN
  }

  /** The float comparison `x >= 0`: false for NaN and for -inf. */
  predicate AtLeastZero(x: Ext) {
    match x
    case Finite(v) => v >= 0.0
    case PosInf => true
    case _ => false
  }

  /** The float comparison `x < 0`: false for NaN and for +inf. */
  predicate BelowZero(x: Ext) {
    match x
    case Finite(v) => v < 0.0
    case NegInf => true
    case _ => false
  }

  /** `x >= 0` and `x < 0` never both hold, and one of them holds exactly
      when `x` is not NaN: NaN is the only value both comparisons reject. */
  lemma ComparisonsSplit(x: Ext)
    ensures !(AtLeastZero(x) && BelowZero(x))
    ensures AtLeastZero(x) || BelowZero(x) <==> !x.NaN?
  {
  }
}
