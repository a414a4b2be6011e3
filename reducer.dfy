/** `efficient_strategies`: the recursive reduction of a cumulative-demand
    curve Q and revenue curve TR to the nesting strategies whose marginal
    fare is not negative. Each pass computes the incremental demand and the
    marginal fare of every position against its predecessor (a virtual zero
    before the first), patches the top position and the undefined (0/0)
    fares, and either stops, when no marginal fare is negative, or drops
    every negative position and recurses on what is left. */
module Reducer {
  import opened Wrappers
  import opened Errors
  import opened ExtReal
  import opened Indexing
  import opened Aggregation

  /** What a call returns: adjusted fares, adjusted demands, the surviving Q
      and TR, and the positions of the survivors in the caller's numbering. */
  datatype Frontier = Frontier(fares: seq<Ext>, demand: seq<real>, q: seq<real>, tr: seq<real>, indices: seq<nat>)

  /** The quotients of line 55, before any patch: revenue increment over
      demand increment, position by position. */
  function RawFares(q: seq<real>, tr: seq<real>): (m: seq<Ext>)
    requires |tr| == |q|
    ensures |m| == |q|
  {
    var dq := Increments(q);
    var dtr := Increments(tr);
    seq(|q|, k requires 0 <= k < |q| => Div(dtr[k], dq[k]))
  }

  /** The adjusted fares of one pass: the raw quotients, with position 0 set to
      the highest fare when its demand increment is 0, and every NaN set to -1.
      No NaN is left, and the top position is exactly the highest fare when its
      revenue is the highest fare times its demand. */
  function AdjustedFares(q: seq<real>, tr: seq<real>, highestFare: real): (m: seq<Ext>)
    requires |tr| == |q| > 0
    ensures |m| == |q|
    ensures forall k :: 0 <= k < |m| ==> !m[k].NaN?
    ensures tr[0] == highestFare * q[0] ==> m[0] == Finite(highestFare)
  {
    var raw := RawFares(q, tr);
    var patched := if Increments(q)[0] == 0.0 then raw[0 := Finite(highestFare)] else raw;
    seq(|q|, k requires 0 <= k < |q| => if patched[k].NaN? then Finite(-1.0) else patched[k])
  }

  /** No adjusted fare is negative: the base case of the recursion. */
  predicate Efficient(m: seq<Ext>) {
    forall k :: 0 <= k < |m| ==> AtLeastZero(m[k])
  }

  /** `~(adjusted_fares < 0)`: the positions a pass keeps. */
  function KeepMask(m: seq<Ext>): (mask: seq<bool>)
    ensures |mask| == |m|
  {
    seq(|m|, k requires 0 <= k < |m| => !BelowZero(m[k]))
  }

  /** A pass that is not efficient keeps strictly fewer positions. */
  lemma DropsSome(m: seq<Ext>)
    requires forall k :: 0 <= k < |m| ==> !m[k].NaN?
    requires !Efficient(m)
    ensures |Where(KeepMask(m))| < |m|
  {
    var k :| 0 <= k < |m| && !AtLeastZero(m[k]);
    assert !KeepMask(m)[k];
  }

  /** One call of `efficient_strategies(Q, TR, highest_fare, indices)`.
      An empty Q raises (line 58 reads position 0). On success the result is a
      fixed point of a pass: its adjusted fares and demands are those of its
      own Q and TR, none of the fares is negative, and it is never empty. */
  function Reduce(q: seq<real>, tr: seq<real>, highestFare: real, indices: seq<nat>): (r: Result<Frontier, Error>)
    requires |tr| == |q| && |indices| == |q|
    ensures r.Err? ==> r.error == IndexError
    ensures r.Ok? ==>
              && 0 < |r.value.q| <= |q|
              && |r.value.tr| == |r.value.q| && |r.value.indices| == |r.value.q|
              && r.value.fares == AdjustedFares(r.value.q, r.value.tr, highestFare)
              && r.value.demand == Increments(r.value.q)
              && Efficient(r.value.fares)
              && (forall k :: 0 <= k < |r.value.indices| ==> r.value.indices[k] in indices)
    decreases |q|
  {
    if |q| == 0 then Err(IndexError)
    else
      var fares := AdjustedFares(q, tr, highestFare);
      if Efficient(fares) then Ok(Frontier(fares, Increments(q), q, tr, indices))
      else
        var keep := Where(KeepMask(fares));
        DropsSome(fares);
        var next := Select(indices, keep);
        assert forall k :: 0 <= k < |next| ==> next[k] in indices;
        Reduce(Select(q, keep), Select(tr, keep), highestFare, next)
  }

  /** `efficient_strategies(Q, TR, highest_fare)` with `indices=None`: the
      positions start as `np.arange(0, len(Q))`. On success the survivors are a
      strictly increasing selection of the positions of Q, and the returned Q
      and TR are Q and TR at those positions. */
  function EfficientStrategies(q: seq<real>, tr: seq<real>, highestFare: real): (r: Result<Frontier, Error>)
    requires |tr| == |q|
    ensures r.Ok? ==>
              && Below(r.value.indices, |q|) && Increasing(r.value.indices)
              && r.value.q == Select(q, r.value.indices)
              && r.value.tr == Select(tr, r.value.indices)
  {
    SelectRange(q);
    SelectRange(tr);
    ReduceTracksPositions(q, tr, highestFare, q, tr, Range(|q|));
    Reduce(q, tr, highestFare, Range(|q|))
  }

  /** The number of calls the recursion makes, the one that raises or returns
      included: at most one more than the length of Q, and at most the length
      of Q when the reduction succeeds. */
  function Passes(q: seq<real>, tr: seq<real>, highestFare: real, indices: seq<nat>): (n: nat)
    requires |tr| == |q| && |indices| == |q|
    ensures 1 <= n <= |q| + 1
    ensures Reduce(q, tr, highestFare, indices).Ok? ==> n <= |q|
    decreases |q|
  {
    if |q| == 0 then 1
    else
      var fares := AdjustedFares(q, tr, highestFare);
      if Efficient(fares) then 1
      else
        var keep := Where(KeepMask(fares));
        DropsSome(fares);
        1 + Passes(Select(q, keep), Select(tr, keep), highestFare, Select(indices, keep))
  }

  /** A pass drops a position exactly when its marginal fare is negative or
      0/0: with a positive demand increment when the revenue per unit is
      negative, with a zero demand increment when the revenue increment is
      not positive (-inf or NaN). A zero demand increment with a positive
      revenue increment gives +inf, which is kept. At the top position a zero
      demand increment defers to the highest fare. */
  lemma DroppedIff(q: seq<real>, tr: seq<real>, highestFare: real, k: nat)
    requires |tr| == |q| && k < |q|
    ensures var dq := Increments(q)[k];
            var dtr := Increments(tr)[k];
            var m := AdjustedFares(q, tr, highestFare)[k];
            && (BelowZero(m) <==>
                 if k == 0 && dq == 0.0 then highestFare < 0.0
                 else if dq == 0.0 then dtr <= 0.0
                 else dtr / dq < 0.0)
            && (m == PosInf <==> (k > 0 || dq != 0.0) && dq == 0.0 && dtr > 0.0)
  {
  }

  /** A pass keeps every position exactly when it is efficient; otherwise it
      keeps strictly fewer. */
  lemma PassShrinks(q: seq<real>, tr: seq<real>, highestFare: real)
    requires |tr| == |q| > 0
    ensures var m := AdjustedFares(q, tr, highestFare);
            Efficient(m) <==> Where(KeepMask(m)) == Range(|q|)
  {
    var m := AdjustedFares(q, tr, highestFare);
    var w := Where(KeepMask(m));
    if Efficient(m) {
      var all := Range(|q|);
      var mask := KeepMask(m);
      forall x
        ensures x in w <==> x in all
      {
        if x in all {
          var i :| 0 <= i < |all| && all[i] == x;
          assert AtLeastZero(m[x]);
          assert mask[x];
        }
        if x in w {
          var i :| 0 <= i < |w| && w[i] == x;
          assert all[x] == x;
        }
      }
      IncreasingUnique(w, all);
    } else {
      var k :| 0 <= k < |m| && !AtLeastZero(m[k]);
      assert !KeepMask(m)[k];
      assert |w| < |q|;
    }
  }

  /** Invariant of the recursion: when the current Q and TR are an increasing
      selection of an original Q0 and TR0, so are the ones it returns. */
  lemma {:induction false} ReduceTracksPositions(
    q0: seq<real>, tr0: seq<real>, highestFare: real,
    q: seq<real>, tr: seq<real>, indices: seq<nat>)
    requires |tr0| == |q0| && |tr| == |q| && |indices| == |q|
    requires Below(indices, |q0|) && Increasing(indices)
    requires q == Select(q0, indices) && tr == Select(tr0, indices)
    ensures var r := Reduce(q, tr, highestFare, indices);
            r.Ok? ==>
              && Below(r.value.indices, |q0|) && Increasing(r.value.indices)
              && r.value.q == Select(q0, r.value.indices)
              && r.value.tr == Select(tr0, r.value.indices)
    decreases |q|
  {
    if |q| > 0 {
      var fares := AdjustedFares(q, tr, highestFare);
      if !Efficient(fares) {
        var keep := Where(KeepMask(fares));
        DropsSome(fares);
        SelectSelect(q0, indices, keep);
        SelectSelect(tr0, indices, keep);
        SelectIncreasing(indices, keep, |q0|);
        ReduceTracksPositions(q0, tr0, highestFare, Select(q, keep), Select(tr, keep), Select(indices, keep));
      }
    }
  }

  /** The top position survives: when the revenue at position 0 is the highest
      fare times its demand and the highest fare is not negative, the reduction
      succeeds, keeps position 0 first, and its adjusted fare is the highest
      fare. */
  lemma {:induction false} ReduceKeepsTop(q: seq<real>, tr: seq<real>, highestFare: real, indices: seq<nat>)
    requires |tr| == |q| && |indices| == |q| && |q| > 0
    requires highestFare >= 0.0 && tr[0] == highestFare * q[0]
    ensures var r := Reduce(q, tr, highestFare, indices);
            && r.Ok?
            && r.value.indices[0] == indices[0]
            && r.value.q[0] == q[0] && r.value.tr[0] == tr[0]
            && r.value.fares[0] == Finite(highestFare)
    decreases |q|
  {
    var fares := AdjustedFares(q, tr, highestFare);
    assert fares[0] == Finite(highestFare);
    if !Efficient(fares) {
      var mask := KeepMask(fares);
      assert mask[0];
      WhereFirst(mask);
      var keep := Where(mask);
      DropsSome(fares);
      var q', tr', indices' := Select(q, keep), Select(tr, keep), Select(indices, keep);
      assert q'[0] == q[0] && tr'[0] == tr[0] && indices'[0] == indices[0];
      ReduceKeepsTop(q', tr', highestFare, indices');
      assert Reduce(q, tr, highestFare, indices) == Reduce(q', tr', highestFare, indices');
    }
  }

  /** A negative highest fare empties the curve when every revenue has the
      sign opposite to its demand (as it does when every fare is negative):
      every pass then drops position 0, and the recursion ends on an empty Q,
      which raises. */
  lemma {:induction false} ReduceRejectsNegativeTop(q: seq<real>, tr: seq<real>, highestFare: real, indices: seq<nat>)
    requires |tr| == |q| && |indices| == |q|
    requires highestFare < 0.0
    requires forall k :: 0 <= k < |q| ==> (q[k] > 0.0 ==> tr[k] < 0.0) && (q[k] < 0.0 ==> tr[k] > 0.0)
    ensures Reduce(q, tr, highestFare, indices) == Err(IndexError)
    decreases |q|
  {
    if |q| > 0 {
      var m := AdjustedFares(q, tr, highestFare);
      NegativeTopDropped(q, tr, highestFare);
      var keep := Where(KeepMask(m));
      DropsSome(m);
      var q', tr' := Select(q, keep), Select(tr, keep);
      forall k | 0 <= k < |q'|
        ensures (q'[k] > 0.0 ==> tr'[k] < 0.0) && (q'[k] < 0.0 ==> tr'[k] > 0.0)
      {
        assert q'[k] == q[keep[k]] && tr'[k] == tr[keep[k]];
      }
      ReduceRejectsNegativeTop(q', tr', highestFare, Select(indices, keep));
    }
  }

  /** The first position's adjusted fare is negative when the highest fare is
      and the first revenue has the sign opposite to the first demand. */
  lemma NegativeTopDropped(q: seq<real>, tr: seq<real>, highestFare: real)
    requires |tr| == |q| > 0
    requires highestFare < 0.0
    requires (q[0] > 0.0 ==> tr[0] < 0.0) && (q[0] < 0.0 ==> tr[0] > 0.0)
    ensures BelowZero(AdjustedFares(q, tr, highestFare)[0])
  {
    if q[0] != 0.0 {
      assert RawFares(q, tr)[0] == Div(tr[0], q[0]);
      assert tr[0] / q[0] < 0.0;
    }
  }

  /** The result is a fixed point: reducing the returned Q and TR again stops
      at once and gives the same result back. */
  lemma ReduceFixedPoint(q: seq<real>, tr: seq<real>, highestFare: real, indices: seq<nat>)
    requires |tr| == |q| && |indices| == |q|
    requires Reduce(q, tr, highestFare, indices).Ok?
    ensures var f := Reduce(q, tr, highestFare, indices).value;
            Reduce(f.q, f.tr, highestFare, f.indices) == Ok(f)
            && EfficientStrategies(f.q, f.tr, highestFare) == Ok(f.(indices := Range(|f.q|)))
  {
  }

  /** The returned adjusted demands telescope: they add up to the last
      surviving cumulative demand. */
  lemma AdjustedDemandTelescopes(q: seq<real>, tr: seq<real>, highestFare: real, indices: seq<nat>)
    requires |tr| == |q| && |indices| == |q|
    requires Reduce(q, tr, highestFare, indices).Ok?
    ensures var f := Reduce(q, tr, highestFare, indices).value;
            Sum(f.demand) == f.q[|f.q| - 1]
  {
    var f := Reduce(q, tr, highestFare, indices).value;
    SumOfIncrements(f.q);
  }

  /** On a well-formed curve every kept position has a finite adjusted fare and
      every kept position after the first a positive demand increment: when the
      revenues are strictly decreasing fares times a non-negative,
      non-decreasing Q, a zero demand increment after the top always comes with
      a revenue increment that is not positive, which the pass drops. */
  lemma KeptAreFinite(fares: seq<real>, q: seq<real>, tr: seq<real>, highestFare: real)
    requires |fares| == |q| && |tr| == |q| && |q| > 0
    requires forall k :: 0 <= k < |q| ==> tr[k] == fares[k] * q[k] && q[k] >= 0.0
    requires forall j, k :: 0 <= j < k < |q| ==> fares[j] > fares[k] && q[j] <= q[k]
    ensures var m := AdjustedFares(q, tr, highestFare);
            forall k :: 0 <= k < |q| && AtLeastZero(m[k]) ==>
              m[k].Finite? && (k > 0 ==> Increments(q)[k] > 0.0)
  {
    forall k | 0 <= k < |q|
      ensures var m := AdjustedFares(q, tr, highestFare);
              AtLeastZero(m[k]) ==> m[k].Finite? && (k > 0 ==> Increments(q)[k] > 0.0)
    {
      KeptIsFiniteAt(fares, q, tr, highestFare, k);
    }
  }

  lemma KeptIsFiniteAt(fares: seq<real>, q: seq<real>, tr: seq<real>, highestFare: real, k: nat)
    requires |fares| == |q| && |tr| == |q| && k < |q|
    requires forall k :: 0 <= k < |q| ==> tr[k] == fares[k] * q[k] && q[k] >= 0.0
    requires forall j, k :: 0 <= j < k < |q| ==> fares[j] > fares[k] && q[j] <= q[k]
    ensures var m := AdjustedFares(q, tr, highestFare);
            AtLeastZero(m[k]) ==> m[k].Finite? && (k > 0 ==> Increments(q)[k] > 0.0)
  {
    var m := AdjustedFares(q, tr, highestFare);
    var dq := Increments(q)[k];
    var dtr := Increments(tr)[k];
    assert RawFares(q, tr)[k] == Div(dtr, dq);
    if k > 0 {
      assert dq == q[k] - q[k - 1] >= 0.0;
      if dq == 0.0 {
        RevenueDropNonPositive(fares[k], fares[k - 1], q[k]);
        assert dtr == fares[k] * q[k] - fares[k - 1] * q[k];
        assert BelowZero(m[k]);
      }
    }
  }

  lemma RevenueDropNonPositive(lower: real, higher: real, x: real)
    requires lower < higher && x >= 0.0
    ensures lower * x - higher * x <= 0.0
  {
    assert lower * x - higher * x == (lower - higher) * x;
  }
}
