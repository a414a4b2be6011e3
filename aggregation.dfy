/** The cumulative-demand and total-revenue curves built at the start of
    `calc_fare_transformation`: Q is the running sum of the demands, clipped
    to the capacity when one is given, and TR is fare times Q, class by class.
    The first differences of a vector (each entry minus its predecessor, with
    a virtual 0 before the first) undo the running sum. */
module Aggregation {
  import opened Wrappers

  /** Sum of a vector, adding from the front. */
  function Sum(s: seq<real>): real
  {
    if s == [] then 0.0 else Sum(s[..|s| - 1]) + s[|s| - 1]
  }

  /** `demands.cumsum()`: entry i is the sum of demands 0..i. */
  function CumSum(demands: seq<real>): (c: seq<real>)
    ensures |c| == |demands|
  {
    seq(|demands|, i requires 0 <= i < |demands| => Sum(demands[..i + 1]))
  }

  /** `Q = demands.cumsum()` followed by the masked write `Q[Q > cap] = cap`. */
  function CumulativeDemand(demands: seq<real>, cap: Option<real>): (q: seq<real>)
    ensures |q| == |demands|
  {
    var running := CumSum(demands);
    if cap.None? then running
    else seq(|running|, i requires 0 <= i < |running| =>
               if running[i] > cap.value then cap.value else running[i])
  }

  /** `TR = fares * Q`, elementwise. */
  function TotalRevenue(fares: seq<real>, q: seq<real>): (tr: seq<real>)
    requires |q| == |fares|
    ensures |tr| == |q|
  {
    seq(|q|, i requires 0 <= i < |q| => fares[i] * q[i])
  }

  /** With every fare negative, each revenue has the sign opposite to its
      demand. */
  lemma NegativeFaresLose(fares: seq<real>, q: seq<real>)
    requires |q| == |fares|
    requires forall k :: 0 <= k < |fares| ==> fares[k] < 0.0
    ensures var tr := TotalRevenue(fares, q);
            forall k :: 0 <= k < |q| ==> (q[k] > 0.0 ==> tr[k] < 0.0) && (q[k] < 0.0 ==> tr[k] > 0.0)
  {
    var tr := TotalRevenue(fares, q);
    forall k | 0 <= k < |q|
      ensures (q[k] > 0.0 ==> tr[k] < 0.0) && (q[k] < 0.0 ==> tr[k] > 0.0)
    {
      assert tr[k] == fares[k] * q[k];
    }
  }

  /** `v - np.hstack((0, v[:-1]))`: each entry minus the one before it, the
      first entry minus 0. */
  function Increments(v: seq<real>): (d: seq<real>)
    ensures |d| == |v|
  {
    seq(|v|, k requires 0 <= k < |v| => v[k] - (if k == 0 then 0.0 else v[k - 1]))
  }

  /** The running sum grows by one demand per class. */
  lemma CumSumStep(demands: seq<real>, i: nat)
    requires 0 < i < |demands|
    ensures CumSum(demands)[i] == CumSum(demands)[i - 1] + demands[i]
  {
    assert demands[..i + 1][..i] == demands[..i];
  }

  /** Increments undo the running sum: `d == diff(cumsum(d))` with a leading 0. */
  lemma IncrementsOfCumSum(demands: seq<real>)
    ensures Increments(CumSum(demands)) == demands
  {
    var c := CumSum(demands);
    forall k | 0 <= k < |demands|
      ensures Increments(c)[k] == demands[k]
    {
      if k == 0 {
        assert demands[..1] == [demands[0]];
        assert Sum(demands[..1]) == Sum([]) + demands[0];
      } else {
        CumSumStep(demands, k);
      }
    }
  }

  /** Q entry by entry: the sum of the demands up to and including the class,
      replaced by the capacity when it exceeds it; so Q never exceeds the
      capacity. */
  lemma CumulativeDemandAt(demands: seq<real>, cap: Option<real>, i: nat)
    requires i < |demands|
    ensures var total := Sum(demands[..i + 1]);
            CumulativeDemand(demands, cap)[i]
            == if cap.Some? && total > cap.value then cap.value else total
    ensures cap.Some? ==> CumulativeDemand(demands, cap)[i] <= cap.value
  {
  }

  /** The sum of the first differences of a non-empty vector is its last entry:
      the increments telescope. */
  lemma {:induction false} SumOfIncrements(v: seq<real>)
    requires |v| > 0
    ensures Sum(Increments(v)) == v[|v| - 1]
  {
    var n := |v| - 1;
    if n == 0 {
      assert Increments(v) == [v[0]];
      assert Sum([v[0]]) == Sum([]) + v[0];
    } else {
      assert Increments(v)[..n] == Increments(v[..n]);
      SumOfIncrements(v[..n]);
    }
  }

  /** With non-negative demands and a non-negative capacity (or none), Q is
      non-negative and non-decreasing. */
  lemma CumulativeDemandMonotone(demands: seq<real>, cap: Option<real>)
    requires forall i :: 0 <= i < |demands| ==> demands[i] >= 0.0
    requires cap.Some? ==> cap.value >= 0.0
    ensures var q := CumulativeDemand(demands, cap);
            forall i, j :: 0 <= i <= j < |q| ==> 0.0 <= q[i] <= q[j]
  {
    CumSumMonotone(demands, |demands|);
  }

  /** Prefix version of the monotonicity of the running sum. */
  lemma {:induction false} CumSumMonotone(demands: seq<real>, m: nat)
    requires m <= |demands|
    requires forall i :: 0 <= i < |demands| ==> demands[i] >= 0.0
    ensures forall i, j :: 0 <= i <= j < m ==> 0.0 <= CumSum(demands)[i] <= CumSum(demands)[j]
  {
    if m > 0 {
      CumSumMonotone(demands, m - 1);
      var c := CumSum(demands);
      if m - 1 == 0 {
        assert demands[..1] == [demands[0]];
        assert Sum(demands[..1]) == Sum([]) + demands[0];
      } else {
        CumSumStep(demands, m - 1);
      }
    }
  }
}
