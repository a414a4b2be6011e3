/** `calc_fare_transformation`: validate the fare structure and the fare
    order, build Q and TR, reduce them to the efficient strategies seeded with
    every position, and scatter the survivors' adjusted fares and demands (and,
    on request, their Q and TR) back to one slot per fare class, with NaN
    (`None`) in the slots of the strategies that were removed. */
module FareTransformation {
  import opened Wrappers
  import opened Errors
  import opened ExtReal
  import opened Indexing
  import opened Aggregation
  import opened Reducer

  /** The only fare structure the transformation supports. */
  const Undifferentiated: string := "undifferentiated"

  /** The two-tuple returned by default, or the four-tuple of `return_all`. */
  datatype Output =
    | Adjusted(adjustedFares: seq<Option<Ext>>, adjustedDemand: seq<Option<real>>)
    | AdjustedAll(adjustedFares: seq<Option<Ext>>, adjustedDemand: seq<Option<real>>,
                  efficientQ: seq<Option<real>>, efficientTR: seq<Option<real>>)

  /** What `check_fares_decreasing` accepts: fares strictly decreasing from the
      highest class down. */
  predicate FaresDecreasing(fares: seq<real>) {
    forall i, j :: 0 <= i < j < |fares| ==> fares[i] > fares[j]
  }

  /** The reduction the pipeline runs: Q and TR of the inputs, reduced with the
      top fare as the highest fare. */
  function Reduction(fares: seq<real>, demands: seq<real>, cap: Option<real>): (r: Result<Frontier, Error>)
    requires |demands| == |fares| && |fares| > 0
    ensures r.Ok? ==>
              var q := CumulativeDemand(demands, cap);
              && Below(r.value.indices, |fares|) && Increasing(r.value.indices)
              && r.value.q == Select(q, r.value.indices)
              && r.value.tr == Select(TotalRevenue(fares, q), r.value.indices)
  {
    var q := CumulativeDemand(demands, cap);
    EfficientStrategies(q, TotalRevenue(fares, q), fares[0])
  }

  /** `calc_fare_transformation(fares, demands, cap, fare_structure, return_all)`.
      An unsupported fare structure raises before the fares are looked at; then
      fares out of order raise; an empty fare vector raises on `fares[0]`. On
      success every output has one slot per fare class, and the adjusted fare
      and the adjusted demand of a class are both present or both NaN. */
  function CalcFareTransformation(fares: seq<real>, demands: seq<real>, cap: Option<real>,
                                  fareStructure: string, returnAll: bool): (r: Result<Output, Error>)
    requires |demands| == |fares|
    ensures fareStructure != Undifferentiated ==> r == Err(UnsupportedFareStructure(fareStructure))
    ensures fareStructure == Undifferentiated && !FaresDecreasing(fares) ==> r == Err(InvalidFareOrder)
    ensures r.Ok? ==>
              && |r.value.adjustedFares| == |fares| && |r.value.adjustedDemand| == |fares|
              && (r.value.AdjustedAll? <==> returnAll)
              && (r.value.AdjustedAll? ==> |r.value.efficientQ| == |fares| && |r.value.efficientTR| == |fares|)
              && forall i :: 0 <= i < |fares| ==>
                   (r.value.adjustedFares[i].Some? <==> r.value.adjustedDemand[i].Some?)
  {
    if fareStructure != Undifferentiated then Err(UnsupportedFareStructure(fareStructure))
    else if !FaresDecreasing(fares) then Err(InvalidFareOrder)
    else if |fares| == 0 then Err(IndexError)
    else
      match Reduction(fares, demands, cap)
      case Err(e) => Err(e)
      case Ok(f) => Ok(Expand(|fares|, f, returnAll))
  }

  /** Lines 37-48: scatter the survivors back to `size` slots, NaN elsewhere. */
  function Expand(size: nat, f: Frontier, returnAll: bool): (out: Output)
    requires Below(f.indices, size)
    requires |f.fares| == |f.indices| && |f.demand| == |f.indices|
    requires |f.q| == |f.indices| && |f.tr| == |f.indices|
    ensures |out.adjustedFares| == size && |out.adjustedDemand| == size
    ensures out.AdjustedAll? <==> returnAll
    ensures out.AdjustedAll? ==> |out.efficientQ| == size && |out.efficientTR| == size
    ensures forall i :: 0 <= i < size ==>
              (out.adjustedFares[i].Some? <==> i in f.indices) &&
              (out.adjustedDemand[i].Some? <==> i in f.indices)
  {
    var adjustedFares := FillNan(size, f.indices, f.fares);
    var adjustedDemand := FillNan(size, f.indices, f.demand);
    if !returnAll then Adjusted(adjustedFares, adjustedDemand)
    else AdjustedAll(adjustedFares, adjustedDemand,
                     FillNan(size, f.indices, f.q), FillNan(size, f.indices, f.tr))
  }

  /** On valid input with a non-negative top fare the transformation is the
      expansion of a successful reduction. */
  lemma Unfold(fares: seq<real>, demands: seq<real>, cap: Option<real>, returnAll: bool)
    requires |demands| == |fares| && |fares| > 0
    requires FaresDecreasing(fares) && fares[0] >= 0.0
    ensures Reduction(fares, demands, cap).Ok?
    ensures Reduction(fares, demands, cap).value.indices[0] == 0
    ensures Reduction(fares, demands, cap).value.fares[0] == Finite(fares[0])
    ensures CalcFareTransformation(fares, demands, cap, Undifferentiated, returnAll)
            == Ok(Expand(|fares|, Reduction(fares, demands, cap).value, returnAll))
  {
    ReductionKeepsTop(fares, demands, cap);
  }

  /** With a non-negative top fare the reduction succeeds and keeps the top
      class, at its own fare. */
  lemma ReductionKeepsTop(fares: seq<real>, demands: seq<real>, cap: Option<real>)
    requires |demands| == |fares| && |fares| > 0 && fares[0] >= 0.0
    ensures Reduction(fares, demands, cap).Ok?
    ensures Reduction(fares, demands, cap).value.indices[0] == 0
    ensures Reduction(fares, demands, cap).value.fares[0] == Finite(fares[0])
  {
    var q := CumulativeDemand(demands, cap);
    ReduceKeepsTop(q, TotalRevenue(fares, q), fares[0], Range(|q|));
  }

  /** The transformation succeeds exactly when the fare structure is supported,
      the fares are strictly decreasing, there is at least one class, and the
      top fare is not negative. A negative top fare raises IndexError: every
      pass of the reduction then removes its first position until none is
      left. */
  lemma SucceedsIff(fares: seq<real>, demands: seq<real>, cap: Option<real>,
                    fareStructure: string, returnAll: bool)
    requires |demands| == |fares|
    ensures CalcFareTransformation(fares, demands, cap, fareStructure, returnAll).Ok?
            <==> fareStructure == Undifferentiated && FaresDecreasing(fares) && |fares| > 0 && fares[0] >= 0.0
    ensures fareStructure == Undifferentiated && FaresDecreasing(fares) && (|fares| == 0 || fares[0] < 0.0) ==>
              CalcFareTransformation(fares, demands, cap, fareStructure, returnAll) == Err(IndexError)
  {
    if fareStructure == Undifferentiated && FaresDecreasing(fares) && |fares| > 0 {
      var q := CumulativeDemand(demands, cap);
      var tr := TotalRevenue(fares, q);
      if fares[0] >= 0.0 {
        ReduceKeepsTop(q, tr, fares[0], Range(|q|));
      } else {
        forall k | 0 <= k < |fares|
          ensures fares[k] < 0.0
        {
          if k > 0 {
            assert fares[0] > fares[k];
          }
        }
        NegativeFaresLose(fares, q);
        ReduceRejectsNegativeTop(q, tr, fares[0], Range(|q|));
      }
    }
  }

  /** `out` holds the survivors of `f` and nothing else: the present slots,
      read in increasing order, are the survivors' positions, the adjusted
      fare and the adjusted demand are present together, and gathering the
      present slots gives back the survivors' adjusted fares and demands. */
  predicate Scatters(out: Output, f: Frontier) {
    && |out.adjustedDemand| == |out.adjustedFares|
    && |f.fares| == |f.indices| && |f.demand| == |f.indices|
    && Where(Present(out.adjustedFares)) == f.indices
    && Present(out.adjustedDemand) == Present(out.adjustedFares)
    && Gather(out.adjustedFares, f.indices) == f.fares
    && Gather(out.adjustedDemand, f.indices) == f.demand
  }

  /** The expansion puts each survivor's values in the survivor's slot, and
      reading the present slots back gives the survivors and their values. */
  lemma ExpandRoundTrip(size: nat, f: Frontier, returnAll: bool)
    requires Below(f.indices, size) && Increasing(f.indices)
    requires |f.fares| == |f.indices| && |f.demand| == |f.indices|
    requires |f.q| == |f.indices| && |f.tr| == |f.indices|
    ensures Scatters(Expand(size, f, returnAll), f)
    ensures var out := Expand(size, f, returnAll);
            forall k :: 0 <= k < |f.indices| ==>
              && out.adjustedFares[f.indices[k]] == Some(f.fares[k])
              && out.adjustedDemand[f.indices[k]] == Some(f.demand[k])
              && (out.AdjustedAll? ==>
                    out.efficientQ[f.indices[k]] == Some(f.q[k]) && out.efficientTR[f.indices[k]] == Some(f.tr[k]))
  {
    var out := Expand(size, f, returnAll);
    FillNanRoundTrip(size, f.indices, f.fares);
    FillNanRoundTrip(size, f.indices, f.demand);
    var pf, pd := Present(out.adjustedFares), Present(out.adjustedDemand);
    forall i | 0 <= i < |pf|
      ensures pf[i] == pd[i]
    {
      assert pf[i] <==> i in f.indices;
    }
  }

  /** The top class survives, with its own fare as adjusted fare. */
  lemma TopSurvives(fares: seq<real>, demands: seq<real>, cap: Option<real>, returnAll: bool)
    requires |demands| == |fares| && |fares| > 0
    requires FaresDecreasing(fares) && fares[0] >= 0.0
    ensures CalcFareTransformation(fares, demands, cap, Undifferentiated, returnAll).Ok?
    ensures CalcFareTransformation(fares, demands, cap, Undifferentiated, returnAll).value.adjustedFares[0]
            == Some(Finite(fares[0]))
  {
    Unfold(fares, demands, cap, returnAll);
    var f := Reduction(fares, demands, cap).value;
    ExpandRoundTrip(|fares|, f, returnAll);
    assert Expand(|fares|, f, returnAll).adjustedFares[f.indices[0]] == Some(f.fares[0]);
  }

  /** The present slots are exactly the efficient strategies, in increasing
      order, holding their adjusted fares and demands. */
  lemma Survivors(fares: seq<real>, demands: seq<real>, cap: Option<real>, returnAll: bool)
    requires |demands| == |fares| && |fares| > 0
    requires FaresDecreasing(fares) && fares[0] >= 0.0
    ensures CalcFareTransformation(fares, demands, cap, Undifferentiated, returnAll).Ok?
    ensures Reduction(fares, demands, cap).Ok?
    ensures Scatters(CalcFareTransformation(fares, demands, cap, Undifferentiated, returnAll).value,
                     Reduction(fares, demands, cap).value)
  {
    Unfold(fares, demands, cap, returnAll);
    var f := Reduction(fares, demands, cap).value;
    ExpandRoundTrip(|fares|, f, returnAll);
  }

  /** No present adjusted fare is negative or NaN. */
  lemma PresentFaresNonNegative(fares: seq<real>, demands: seq<real>, cap: Option<real>, returnAll: bool)
    requires |demands| == |fares| && |fares| > 0
    requires FaresDecreasing(fares) && fares[0] >= 0.0
    ensures var r := CalcFareTransformation(fares, demands, cap, Undifferentiated, returnAll);
            && r.Ok?
            && forall i :: 0 <= i < |fares| && r.value.adjustedFares[i].Some? ==>
                 AtLeastZero(r.value.adjustedFares[i].value) && !r.value.adjustedFares[i].value.NaN?
  {
    Unfold(fares, demands, cap, returnAll);
    var f := Reduction(fares, demands, cap).value;
    var out := Expand(|fares|, f, returnAll);
    ExpandRoundTrip(|fares|, f, returnAll);
    forall i | 0 <= i < |fares| && out.adjustedFares[i].Some?
      ensures AtLeastZero(out.adjustedFares[i].value) && !out.adjustedFares[i].value.NaN?
    {
      var k :| 0 <= k < |f.indices| && f.indices[k] == i;
      assert out.adjustedFares[i] == Some(f.fares[k]);
    }
  }

  /** With `return_all`, Q and TR are present exactly where the adjusted fare
      is, and hold the class's own cumulative demand and revenue. */
  lemma EfficientCurves(fares: seq<real>, demands: seq<real>, cap: Option<real>)
    requires |demands| == |fares| && |fares| > 0
    requires FaresDecreasing(fares) && fares[0] >= 0.0
    ensures CalcFareTransformation(fares, demands, cap, Undifferentiated, true).Ok?
    ensures var r := CalcFareTransformation(fares, demands, cap, Undifferentiated, true);
            var q := CumulativeDemand(demands, cap);
            var tr := TotalRevenue(fares, q);
            && r.value.AdjustedAll?
            && forall i :: 0 <= i < |fares| ==>
                 && (r.value.efficientQ[i].Some? <==> r.value.adjustedFares[i].Some?)
                 && (r.value.efficientTR[i].Some? <==> r.value.adjustedFares[i].Some?)
                 && (r.value.efficientQ[i].Some? ==> r.value.efficientQ[i].value == q[i])
                 && (r.value.efficientTR[i].Some? ==> r.value.efficientTR[i].value == tr[i])
  {
    Unfold(fares, demands, cap, true);
    var q := CumulativeDemand(demands, cap);
    var tr := TotalRevenue(fares, q);
    var f := Reduction(fares, demands, cap).value;
    var out := Expand(|fares|, f, true);
    ExpandRoundTrip(|fares|, f, true);
    assert out.efficientQ == FillNan(|fares|, f.indices, f.q);
    assert out.efficientTR == FillNan(|fares|, f.indices, f.tr);
    forall i | 0 <= i < |fares| && out.efficientQ[i].Some?
      ensures out.efficientQ[i].value == q[i] && out.efficientTR[i].value == tr[i]
    {
      var k :| 0 <= k < |f.indices| && f.indices[k] == i;
      assert out.efficientQ[i] == Some(f.q[k]);
      assert out.efficientTR[i] == Some(f.tr[k]);
    }
  }

  /** The present adjusted demands add up to the cumulative demand of the last
      efficient strategy. */
  lemma AdjustedDemandSum(fares: seq<real>, demands: seq<real>, cap: Option<real>, returnAll: bool)
    requires |demands| == |fares| && |fares| > 0
    requires FaresDecreasing(fares) && fares[0] >= 0.0
    ensures CalcFareTransformation(fares, demands, cap, Undifferentiated, returnAll).Ok?
    ensures var r := CalcFareTransformation(fares, demands, cap, Undifferentiated, returnAll);
            var w := Where(Present(r.value.adjustedDemand));
            |w| > 0
            && Sum(PresentValues(r.value.adjustedDemand)) == CumulativeDemand(demands, cap)[w[|w| - 1]]
  {
    Survivors(fares, demands, cap, returnAll);
    var f := Reduction(fares, demands, cap).value;
    SumOfIncrements(f.q);
  }

  /** On well-formed inputs every survivor of the reduction has a finite
      adjusted fare, and every survivor after the first a positive adjusted
      demand. */
  lemma FiniteFrontier(fares: seq<real>, demands: seq<real>, cap: Option<real>)
    requires |demands| == |fares| && |fares| > 0
    requires FaresDecreasing(fares) && fares[0] >= 0.0
    requires forall i :: 0 <= i < |demands| ==> demands[i] >= 0.0
    requires cap.Some? ==> cap.value >= 0.0
    ensures Reduction(fares, demands, cap).Ok?
    ensures var f := Reduction(fares, demands, cap).value;
            forall k :: 0 <= k < |f.fares| ==> f.fares[k].Finite? && (k > 0 ==> f.demand[k] > 0.0)
  {
    ReductionKeepsTop(fares, demands, cap);
    var q := CumulativeDemand(demands, cap);
    var f := Reduction(fares, demands, cap).value;
    CumulativeDemandMonotone(demands, cap);
    SurvivorCurve(fares, q, f.indices, fares[0]);
  }

  /** A selection of a well-formed curve (strictly decreasing fares,
      non-negative non-decreasing Q, TR = fare * Q) keeps its shape, so a pass
      over it keeps only finite fares. */
  lemma SurvivorCurve(fares: seq<real>, q: seq<real>, indices: seq<nat>, highestFare: real)
    requires |q| == |fares| && Below(indices, |fares|) && Increasing(indices) && |indices| > 0
    requires FaresDecreasing(fares)
    requires forall i, j :: 0 <= i <= j < |q| ==> 0.0 <= q[i] <= q[j]
    ensures var sq, str := Select(q, indices), Select(TotalRevenue(fares, q), indices);
            var m := AdjustedFares(sq, str, highestFare);
            forall k :: 0 <= k < |indices| && AtLeastZero(m[k]) ==>
              m[k].Finite? && (k > 0 ==> Increments(sq)[k] > 0.0)
  {
    var g, sq, str := Select(fares, indices), Select(q, indices), Select(TotalRevenue(fares, q), indices);
    forall j, k | 0 <= j < k < |indices|
      ensures g[j] > g[k] && sq[j] <= sq[k]
    {
      assert indices[j] < indices[k];
    }
    KeptAreFinite(g, sq, str, highestFare);
  }

  /** On well-formed inputs (non-negative demands, a non-negative capacity or
      none) no adjusted fare is infinite, and every efficient class below the
      top adds a positive demand. */
  lemma FiniteOnWellFormedInput(fares: seq<real>, demands: seq<real>, cap: Option<real>, returnAll: bool)
    requires |demands| == |fares| && |fares| > 0
    requires FaresDecreasing(fares) && fares[0] >= 0.0
    requires forall i :: 0 <= i < |demands| ==> demands[i] >= 0.0
    requires cap.Some? ==> cap.value >= 0.0
    ensures var r := CalcFareTransformation(fares, demands, cap, Undifferentiated, returnAll);
            && r.Ok?
            && (forall i :: 0 <= i < |fares| && r.value.adjustedFares[i].Some? ==>
                  r.value.adjustedFares[i].value.Finite?)
            && (forall i :: 0 < i < |fares| && r.value.adjustedDemand[i].Some? ==>
                  r.value.adjustedDemand[i].value > 0.0)
  {
    Unfold(fares, demands, cap, returnAll);
    var q := CumulativeDemand(demands, cap);
    var f := Reduction(fares, demands, cap).value;
    var out := Expand(|fares|, f, returnAll);
    ExpandRoundTrip(|fares|, f, returnAll);
    FiniteFrontier(fares, demands, cap);
    forall i | 0 <= i < |fares| && out.adjustedFares[i].Some?
      ensures out.adjustedFares[i].value.Finite?
      ensures i > 0 ==> out.adjustedDemand[i].value > 0.0
    {
      var k :| 0 <= k < |f.indices| && f.indices[k] == i;
      assert out.adjustedFares[i] == Some(f.fares[k]);
      assert out.adjustedDemand[i] == Some(f.demand[k]);
      assert i > 0 ==> k > 0;
    }
  }

  /** Reducing the efficient Q and TR again removes nothing: the adjusted fares
      and demands come back unchanged. */
  lemma EfficientIsFixedPoint(fares: seq<real>, demands: seq<real>, cap: Option<real>)
    requires |demands| == |fares| && |fares| > 0
    requires Reduction(fares, demands, cap).Ok?
    ensures var f := Reduction(fares, demands, cap).value;
            var again := EfficientStrategies(f.q, f.tr, fares[0]);
            again.Ok? && again.value.fares == f.fares && again.value.demand == f.demand
            && again.value.indices == Range(|f.q|)
  {
    var q := CumulativeDemand(demands, cap);
    var f := Reduction(fares, demands, cap).value;
    ReduceFixedPoint(q, TotalRevenue(fares, q), fares[0], Range(|q|));
  }
}
