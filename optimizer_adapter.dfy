/** `fare_trafo_decorator(optimizer)`: the wrapper it returns runs the fare
    transformation, calls the protection-level optimizer once on the classes
    whose adjusted fare is not NaN, and scatters the optimizer's levels back
    to one slot per class, NaN elsewhere. The optimizer is an arbitrary
    function; the wrapper is modelled with the optimizer as its first
    argument. */
module OptimizerAdapter {
  import opened Wrappers
  import opened Errors
  import opened ExtReal
  import opened Indexing
  import opened FareTransformation

  /** A protection-level optimizer: adjusted fares, adjusted demands and demand
      deviations of the efficient classes, to one protection level each. */
  type Optimizer = (seq<Ext>, seq<real>, seq<real>) -> seq<real>

  /** The arguments of the one optimizer call, and the class positions they
      were taken from. */
  datatype Call = Call(fares: seq<Ext>, demands: seq<real>, sigmas: seq<real>, positions: seq<nat>)

  /** `~np.isnan(adjusted_fares)`: a slot is NaN when it was filled, or when it
      holds a NaN fare. */
  function NotNan(v: seq<Option<Ext>>): (mask: seq<bool>)
    ensures |mask| == |v|
    ensures forall i :: 0 <= i < |v| ==> (mask[i] <==> v[i].Some? && !v[i].value.NaN?)
  {
    seq(|v|, i requires 0 <= i < |v| => v[i].Some? && !v[i].value.NaN?)
  }

  /** `np.where(~np.isnan(adjusted_fares))[0]`: the increasing positions of
      the slots that hold a fare other than NaN. */
  function NotNanPositions(v: seq<Option<Ext>>): (r: seq<nat>)
    ensures Below(r, |v|) && Increasing(r)
    ensures forall k :: 0 <= k < |r| ==> v[r[k]].Some? && !v[r[k]].value.NaN?
  {
    var r := Where(NotNan(v));
    assert forall k :: 0 <= k < |r| ==> r[k] in r && NotNan(v)[r[k]];
    r
  }

  /** The zero vector `np.zeros(n)`: the default deviations. */
  function Zeros(n: nat): (z: seq<real>)
    ensures |z| == n && forall i :: 0 <= i < n ==> z[i] == 0.0
  {
    seq(n, _ => 0.0)
  }

  /** Lines 86-100 up to the optimizer call: the call to make, `None` when no
      class is efficient, or the exception the transformation raised. */
  function PrepareCall(fares: seq<real>, demands: seq<real>, sigmas: Option<seq<real>>, cap: Option<real>)
    : (r: Result<Option<Call>, Error>)
    requires |demands| == |fares|
    requires sigmas.Some? ==> |sigmas.value| == |fares|
    ensures r.Ok? && r.value.Some? ==>
              var c := r.value.value;
              && |c.fares| == |c.positions| && |c.demands| == |c.positions| && |c.sigmas| == |c.positions|
              && Below(c.positions, |fares|) && Increasing(c.positions)
  {
    var s := if sigmas.None? then Zeros(|fares|) else sigmas.value;
    match CalcFareTransformation(fares, demands, cap, Undifferentiated, false)
    case Err(e) => Err(e)
    case Ok(out) =>
      var efficient := NotNanPositions(out.adjustedFares);
      if |efficient| > 0 then
        Ok(Some(Call(Gather(out.adjustedFares, efficient), Gather(out.adjustedDemand, efficient),
                     Select(s, efficient), efficient)))
      else Ok(None)
  }

  /** The wrapper `fare_trafo_decorator(optimizer)` returns, applied to
      `(fares, demands, sigmas, cap)`. The optimizer is called at most once:
      never when the transformation raises or no class is efficient (then the
      levels are all zero), otherwise on the efficient classes only; a
      result of the wrong length raises. */
  function FareTrafoWrapper(optimizer: Optimizer, fares: seq<real>, demands: seq<real>,
                            sigmas: Option<seq<real>>, cap: Option<real>): (r: Result<seq<Option<real>>, Error>)
    requires |demands| == |fares|
    requires sigmas.Some? ==> |sigmas.value| == |fares|
    ensures r.Ok? ==> |r.value| == |fares|
  {
    match PrepareCall(fares, demands, sigmas, cap)
    case Err(e) => Err(e)
    case Ok(None) => Ok(seq(|fares|, _ => Some(0.0)))
    case Ok(Some(call)) =>
      var levels := optimizer(call.fares, call.demands, call.sigmas);
      if |levels| != |call.positions| then Err(ShapeMismatch)
      else Ok(FillNan(|fares|, call.positions, levels))
  }

  /** Lines 89-90 call the transformation without handling its exceptions, so
      the wrapper raises exactly what the transformation raises, and the only
      error of its own is a level vector of the wrong length. Unordered fares
      give InvalidFareOrder; ordered fares with no class or a negative top
      fare give IndexError, whatever the optimizer. */
  lemma WrapperRaisesWithTransformation(optimizer: Optimizer, fares: seq<real>, demands: seq<real>,
                                        sigmas: Option<seq<real>>, cap: Option<real>)
    requires |demands| == |fares|
    requires sigmas.Some? ==> |sigmas.value| == |fares|
    ensures var t := CalcFareTransformation(fares, demands, cap, Undifferentiated, false);
            t.Err? ==> FareTrafoWrapper(optimizer, fares, demands, sigmas, cap) == Err(t.error)
    ensures var r := FareTrafoWrapper(optimizer, fares, demands, sigmas, cap);
            r.Err? ==> CalcFareTransformation(fares, demands, cap, Undifferentiated, false).Err?
                       || r.error == ShapeMismatch
    ensures !FaresDecreasing(fares) ==>
              FareTrafoWrapper(optimizer, fares, demands, sigmas, cap) == Err(InvalidFareOrder)
    ensures FaresDecreasing(fares) && (|fares| == 0 || fares[0] < 0.0) ==>
              FareTrafoWrapper(optimizer, fares, demands, sigmas, cap) == Err(IndexError)
  {
    PrepareCallRaises(fares, demands, sigmas, cap);
    var r := FareTrafoWrapper(optimizer, fares, demands, sigmas, cap);
    var p := PrepareCall(fares, demands, sigmas, cap);
    if p.Err? {
      assert r == Err(p.error);
    } else if p.value.Some? {
      WrapperOnCall(optimizer, fares, demands, sigmas, cap, p.value.value);
    }
    SucceedsIff(fares, demands, cap, Undifferentiated, false);
  }

  /** The call is prepared exactly when the transformation returns; otherwise
      its exception is passed on. */
  lemma PrepareCallRaises(fares: seq<real>, demands: seq<real>, sigmas: Option<seq<real>>, cap: Option<real>)
    requires |demands| == |fares|
    requires sigmas.Some? ==> |sigmas.value| == |fares|
    ensures var t := CalcFareTransformation(fares, demands, cap, Undifferentiated, false);
            var p := PrepareCall(fares, demands, sigmas, cap);
            (p.Err? <==> t.Err?) && (t.Err? ==> p.error == t.error)
  {
  }

  /** The optimizer sees exactly the efficient strategies: on valid input with
      a non-negative top fare the call is made, its positions are the
      survivors of the reduction (the top class first), its fares and demands
      are their adjusted fares and demands, none of the fares negative, and its
      deviations are the given ones at those positions, or zeros. */
  lemma OptimizerSeesEfficientOnly(fares: seq<real>, demands: seq<real>, sigmas: Option<seq<real>>, cap: Option<real>)
    requires |demands| == |fares| && |fares| > 0
    requires sigmas.Some? ==> |sigmas.value| == |fares|
    requires FaresDecreasing(fares) && fares[0] >= 0.0
    ensures PrepareCall(fares, demands, sigmas, cap).Ok?
    ensures PrepareCall(fares, demands, sigmas, cap).value.Some?
    ensures var c := PrepareCall(fares, demands, sigmas, cap).value.value;
            var f := Reduction(fares, demands, cap).value;
            && Reduction(fares, demands, cap).Ok?
            && c.positions == f.indices && c.positions[0] == 0
            && c.fares == f.fares && c.demands == f.demand
            && c.fares[0] == Finite(fares[0])
            && (forall k :: 0 <= k < |c.fares| ==> AtLeastZero(c.fares[k]))
            && c.sigmas == Select(if sigmas.None? then Zeros(|fares|) else sigmas.value, c.positions)
  {
    Survivors(fares, demands, cap, false);
    Unfold(fares, demands, cap, false);
    var out := CalcFareTransformation(fares, demands, cap, Undifferentiated, false).value;
    var f := Reduction(fares, demands, cap).value;
    NoNanSurvivor(out.adjustedFares);
  }

  /** Survivors are never NaN, so `~np.isnan` marks exactly the filled slots. */
  lemma NoNanSurvivor(v: seq<Option<Ext>>)
    requires forall i :: 0 <= i < |v| && v[i].Some? ==> !v[i].value.NaN?
    ensures NotNan(v) == Present(v)
  {
  }

  /** The all-zero fallback of lines 103-106 is never taken: whenever the
      transformation succeeds at least one class is efficient, so the wrapper
      either raises or calls the optimizer. */
  lemma FallbackUnreachable(fares: seq<real>, demands: seq<real>, sigmas: Option<seq<real>>, cap: Option<real>)
    requires |demands| == |fares|
    requires sigmas.Some? ==> |sigmas.value| == |fares|
    ensures PrepareCall(fares, demands, sigmas, cap) != Ok(None)
  {
    SucceedsIff(fares, demands, cap, Undifferentiated, false);
    if CalcFareTransformation(fares, demands, cap, Undifferentiated, false).Ok? {
      OptimizerSeesEfficientOnly(fares, demands, sigmas, cap);
    }
  }

  /** The protection levels: on valid input with a non-negative top fare the
      wrapper succeeds exactly when the optimizer returns one level per
      efficient class, and then puts the optimizer's k-th level in the slot of
      the k-th efficient class and NaN in the slot of every removed class. */
  lemma ProtectionLevels(optimizer: Optimizer, fares: seq<real>, demands: seq<real>,
                         sigmas: Option<seq<real>>, cap: Option<real>)
    requires |demands| == |fares| && |fares| > 0
    requires sigmas.Some? ==> |sigmas.value| == |fares|
    requires FaresDecreasing(fares) && fares[0] >= 0.0
    ensures PrepareCall(fares, demands, sigmas, cap).Ok?
    ensures PrepareCall(fares, demands, sigmas, cap).value.Some?
    ensures CalcFareTransformation(fares, demands, cap, Undifferentiated, false).Ok?
    ensures var c := PrepareCall(fares, demands, sigmas, cap).value.value;
            var levels := optimizer(c.fares, c.demands, c.sigmas);
            var r := FareTrafoWrapper(optimizer, fares, demands, sigmas, cap);
            var adjusted := CalcFareTransformation(fares, demands, cap, Undifferentiated, false).value.adjustedFares;
            && (r.Ok? <==> |levels| == |c.positions|)
            && (r.Err? ==> r.error == ShapeMismatch)
            && (r.Ok? ==>
                  && (forall k :: 0 <= k < |c.positions| ==> r.value[c.positions[k]] == Some(levels[k]))
                  && (forall i :: 0 <= i < |fares| ==> (r.value[i].None? <==> adjusted[i].None?)))
  {
    OptimizerSeesEfficientOnly(fares, demands, sigmas, cap);
    Survivors(fares, demands, cap, false);
    var c := PrepareCall(fares, demands, sigmas, cap).value.value;
    var adjusted := CalcFareTransformation(fares, demands, cap, Undifferentiated, false).value.adjustedFares;
    SlotsOfPositions(adjusted, c.positions);
    WrapperOnCall(optimizer, fares, demands, sigmas, cap, c);
  }

  /** What the wrapper returns once the call is decided. */
  lemma WrapperOnCall(optimizer: Optimizer, fares: seq<real>, demands: seq<real>,
                      sigmas: Option<seq<real>>, cap: Option<real>, c: Call)
    requires |demands| == |fares|
    requires sigmas.Some? ==> |sigmas.value| == |fares|
    requires PrepareCall(fares, demands, sigmas, cap) == Ok(Some(c))
    ensures var levels := optimizer(c.fares, c.demands, c.sigmas);
            var r := FareTrafoWrapper(optimizer, fares, demands, sigmas, cap);
            && (|levels| != |c.positions| ==> r == Err(ShapeMismatch))
            && (|levels| == |c.positions| ==> r == Ok(FillNan(|fares|, c.positions, levels)))
  {
  }

  lemma SlotsOfPositions(v: seq<Option<Ext>>, positions: seq<nat>)
    requires Where(Present(v)) == positions
    ensures forall i :: 0 <= i < |v| ==> (v[i].Some? <==> i in positions)
  {
  }

  /** The wrapper depends on the optimizer only through the one call it makes:
      two optimizers that agree on that call's arguments give the same result,
      and when no call is made the optimizer does not matter at all. */
  lemma OneCallOnly(o1: Optimizer, o2: Optimizer, fares: seq<real>, demands: seq<real>,
                    sigmas: Option<seq<real>>, cap: Option<real>)
    requires |demands| == |fares|
    requires sigmas.Some? ==> |sigmas.value| == |fares|
    requires var p := PrepareCall(fares, demands, sigmas, cap);
             p.Ok? && p.value.Some? ==>
               var c := p.value.value;
               o1(c.fares, c.demands, c.sigmas) == o2(c.fares, c.demands, c.sigmas)
    ensures FareTrafoWrapper(o1, fares, demands, sigmas, cap) == FareTrafoWrapper(o2, fares, demands, sigmas, cap)
  {
  }
}
