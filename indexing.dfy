/** Index operations on numpy-style vectors, as the fare transformation uses
    them: `np.arange`, fancy indexing `v[idx]`, boolean masks `v[mask]`,
    `np.where(mask)[0]`, and the `fill_nan` helper that scatters values back
    into a NaN-filled vector. */
module Indexing {
  import opened Wrappers

  /** Every index is a valid position of a vector of length `n`. */
  predicate Below(idx: seq<nat>, n: nat) {
    forall k :: 0 <= k < |idx| ==> idx[k] < n
  }

  /** Strictly increasing, hence free of repetitions. */
  predicate Increasing(idx: seq<nat>) {
    forall j, k :: 0 <= j < k < |idx| ==> idx[j] < idx[k]
  }

  /** `np.arange(0, n)`. */
  function Range(n: nat): (r: seq<nat>)
    ensures |r| == n && Below(r, n) && Increasing(r)
    ensures forall k :: 0 <= k < n ==> r[k] == k
  {
    seq(n, k => k)
  }

  /** Fancy indexing `v[idx]`. */
  function Select<T>(v: seq<T>, idx: seq<nat>): (r: seq<T>)
    requires Below(idx, |v|)
    ensures |r| == |idx|
    ensures forall k :: 0 <= k < |idx| ==> r[k] == v[idx[k]]
  {
    seq(|idx|, k requires 0 <= k < |idx| => v[idx[k]])
  }

  lemma SelectRange<T>(v: seq<T>)
    ensures Select(v, Range(|v|)) == v
  {
  }

  /** Indexing twice is indexing once with the composed index vector. */
  lemma SelectSelect<T>(v: seq<T>, a: seq<nat>, b: seq<nat>)
    requires Below(a, |v|) && Below(b, |a|)
    ensures Below(Select(a, b), |v|)
    ensures Select(Select(v, a), b) == Select(v, Select(a, b))
  {
  }

  /** An increasing selection of an increasing index vector is increasing. */
  lemma SelectIncreasing(a: seq<nat>, b: seq<nat>, n: nat)
    requires Below(a, n) && Increasing(a) && Below(b, |a|) && Increasing(b)
    ensures Below(Select(a, b), n) && Increasing(Select(a, b))
  {
  }

  /** `np.where(mask)[0]`: the positions where `mask` holds, in order. Boolean
      indexing `v[mask]` is `Select(v, Where(mask))`. */
  function Where(mask: seq<bool>): (r: seq<nat>)
    ensures Below(r, |mask|) && Increasing(r)
    ensures forall i :: 0 <= i < |mask| ==> (i in r <==> mask[i])
    ensures |r| <= |mask|
    ensures (exists i :: 0 <= i < |mask| && !mask[i]) ==> |r| < |mask|
  {
    if mask == [] then []
    else
      var n := |mask| - 1;
      var front := mask[..n];
      assert forall i :: 0 <= i < n ==> front[i] == mask[i];
      Where(front) + (if mask[n] then [n] else [])
  }

  /** A mask that holds at position 0 keeps position 0 first. */
  lemma WhereFirst(mask: seq<bool>)
    requires |mask| > 0 && mask[0]
    ensures |Where(mask)| > 0 && Where(mask)[0] == 0
  {
    var r := Where(mask);
    assert 0 in r;
    HeadIsLeast(r);
  }

  /** The head of an increasing vector is its least element. */
  lemma HeadIsLeast(s: seq<nat>)
    requires Increasing(s)
    ensures forall x :: x in s ==> s[0] <= x
  {
  }

  /** Two increasing index vectors with the same elements are equal. */
  lemma {:induction false} IncreasingUnique(a: seq<nat>, b: seq<nat>)
    requires Increasing(a) && Increasing(b)
    requires forall x :: x in a <==> x in b
    ensures a == b
    decreases |a|
  {
    if a == [] {
      HeadIn(b);
    } else {
      assert a[0] in b;
      assert b != [];
      assert b[0] in a;
      var i :| 0 <= i < |a| && a[i] == b[0];
      var j :| 0 <= j < |b| && b[j] == a[0];
      assert a[0] <= a[i];
      assert b[0] <= b[j];
      assert a[0] == b[0];
      forall x
        ensures x in a[1..] <==> x in b[1..]
      {
        InTail(a, x);
        InTail(b, x);
      }
      IncreasingUnique(a[1..], b[1..]);
      assert a == [a[0]] + a[1..];
      assert b == [b[0]] + b[1..];
    }
  }

  lemma HeadIn(s: seq<nat>)
    ensures |s| > 0 ==> s[0] in s
  {
  }

  /** In an increasing vector the tail holds everything but the head. */
  lemma InTail(s: seq<nat>, x: nat)
    requires Increasing(s) && s != []
    ensures x in s[1..] <==> x in s && x != s[0]
  {
    if x in s && x != s[0] {
      var i :| 0 <= i < |s| && s[i] == x;
      assert s[1..][i - 1] == x;
    }
  }

  /** `fill_nan(size, idx, vals)`: a vector of length `size` with `vals[k]` at
      position `idx[k]` and NaN (`None`) at every other position. */
  function FillNan<T>(size: nat, idx: seq<nat>, vals: seq<T>): (r: seq<Option<T>>)
    requires |vals| == |idx| && Below(idx, size)
    ensures |r| == size
    ensures forall i :: 0 <= i < size ==> (r[i].Some? <==> i in idx)
    ensures Increasing(idx) ==> forall k :: 0 <= k < |idx| ==> r[idx[k]] == Some(vals[k])
    decreases |idx|
  {
    if idx == [] then seq(size, _ => None)
    else
      var n := |idx| - 1;
      assert forall i :: 0 <= i < size ==> (i in idx <==> i in idx[..n] || i == idx[n]);
      FillNan(size, idx[..n], vals[..n])[idx[n] := Some(vals[n])]
  }

  /** Scattering onto the first positions fills them in order and leaves
      the rest NaN. */
  lemma FillNanRange<T>(size: nat, vals: seq<T>)
    requires |vals| <= size
    ensures FillNan(size, Range(|vals|), vals)
            == seq(size, i requires 0 <= i < size => if i < |vals| then Some(vals[i]) else None)
  {
    var idx := Range(|vals|);
    var r := FillNan(size, idx, vals);
    forall i | 0 <= i < size
      ensures r[i] == if i < |vals| then Some(vals[i]) else None
    {
      if i < |vals| {
        assert idx[i] == i;
      } else {
        assert i !in idx;
      }
    }
  }

  /** The mask of present (non-NaN) slots. */
  function Present<T>(v: seq<Option<T>>): (mask: seq<bool>)
    ensures |mask| == |v|
    ensures forall i :: 0 <= i < |v| ==> (mask[i] <==> v[i].Some?)
  {
    seq(|v|, i requires 0 <= i < |v| => v[i].Some?)
  }

  /** `v[idx]` on slots known to be present. */
  function Gather<T>(v: seq<Option<T>>, idx: seq<nat>): (r: seq<T>)
    requires Below(idx, |v|)
    requires forall k :: 0 <= k < |idx| ==> v[idx[k]].Some?
    ensures |r| == |idx|
    ensures forall k :: 0 <= k < |idx| ==> v[idx[k]] == Some(r[k])
  {
    seq(|idx|, k requires 0 <= k < |idx| => v[idx[k]].value)
  }

  /** `v[~np.isnan(v)]`: the present values, in slot order. */
  function PresentValues<T>(v: seq<Option<T>>): (r: seq<T>)
    ensures |r| == |Where(Present(v))|
    ensures forall k :: 0 <= k < |r| ==> v[Where(Present(v))[k]] == Some(r[k])
  {
    var w := Where(Present(v));
    assert forall k :: 0 <= k < |w| ==> w[k] in w;
    Gather(v, w)
  }

  /** Round trip: the present positions of a `fill_nan` result are exactly the
      scattered indices, and the values found there are the scattered values. */
  lemma FillNanRoundTrip<T>(size: nat, idx: seq<nat>, vals: seq<T>)
    requires |vals| == |idx| && Below(idx, size) && Increasing(idx)
    ensures Where(Present(FillNan(size, idx, vals))) == idx
    ensures Gather(FillNan(size, idx, vals), idx) == vals
  {
    var v := FillNan(size, idx, vals);
    var w := Where(Present(v));
    forall x
      ensures x in w <==> x in idx
    {
      if x in w {
        var k :| 0 <= k < |w| && w[k] == x;
      }
      if x in idx {
        var k :| 0 <= k < |idx| && idx[k] == x;
      }
    }
    IncreasingUnique(w, idx);
  }
}
