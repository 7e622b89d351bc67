/**
 * The style function of layer2 (script.js:33-43): a fill chosen from the
 * feature's unemployment_rate.  Only the bucket is modelled, not the
 * colour strings or strokes.
 */
module Choropleth {
  import opened Wrappers

  datatype Fill = Green | Yellow | Red

  /** Position of a bucket on the scale. */
  function Rank(fill: Fill): nat {
    match fill
    case Green => 0
    case Yellow => 1
    case Red => 2
  }

  /**
   * `Number(x) || 0`.  The argument is Number(feature.get('unemployment_rate')),
   * None when that is NaN; NaN and 0 are the falsy numbers and both become 0.
   */
  function RateOrZero(number: Option<real>): real {
    match number
    case None => 0.0
    case Some(n) => n
  }

  /** Green to start with, overridden by yellow above 5, then by red above 10. */
  function FillFor(rate: real): (fill: Fill)
    ensures fill == Green <==> rate <= 5.0
    ensures fill == Yellow <==> 5.0 < rate <= 10.0
    ensures fill == Red <==> 10.0 < rate
  {
    var fill := Green;
    var fill := if rate > 5.0 then Yellow else fill;
    if rate > 10.0 then Red else fill
  }

  /** A missing or non-numeric rate is green; otherwise the thresholds 5 and 10 decide. */
  function StyleFill(number: Option<real>): (fill: Fill)
    ensures number.None? ==> fill == Green
    ensures number.Some? ==> (fill == Green <==> number.value <= 5.0)
    ensures number.Some? ==> (fill == Yellow <==> 5.0 < number.value <= 10.0)
    ensures number.Some? ==> (fill == Red <==> 10.0 < number.value)
  {
    FillFor(RateOrZero(number))
  }

  /** The bucket never decreases as the rate increases. */
  lemma FillMonotone(a: real, b: real)
    requires a <= b
    ensures Rank(FillFor(a)) <= Rank(FillFor(b))
  {
  }
}
