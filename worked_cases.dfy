/** The transformation on concrete fare structures. */
module WorkedCases {
  import opened Wrappers
  import opened ExtReal
  import opened Indexing
  import opened Aggregation
  import opened Reducer
  import opened FareTransformation

  /** Fares 100, 80, 75, 50 with demands 10, 5, 100, 30 and no capacity:
      the last class has marginal fare -1375/30 and is removed; the other
      three keep marginal fares 100, 40 and 74.25. Only the negative class
      goes: the fare of 40 below the fare of 74.25 is not a reason to drop a
      class. */
  lemma InefficientLastClass()
    ensures CalcFareTransformation([100.0, 80.0, 75.0, 50.0], [10.0, 5.0, 100.0, 30.0], None, Undifferentiated, false)
            == Ok(Adjusted([Some(Finite(100.0)), Some(Finite(40.0)), Some(Finite(74.25)), None],
                           [Some(10.0), Some(5.0), Some(100.0), None]))
  {
    var f := Frontier([Finite(100.0), Finite(40.0), Finite(74.25)], [10.0, 5.0, 100.0],
                      [10.0, 15.0, 115.0], [1000.0, 1200.0, 8625.0], Range(3));
    ExampleCurves();
    ExampleReduction();
    DecreasingOf4(100.0, 80.0, 75.0, 50.0);
    Pipeline([100.0, 80.0, 75.0, 50.0], [10.0, 5.0, 100.0, 30.0],
             [10.0, 15.0, 115.0, 145.0], [1000.0, 1200.0, 8625.0, 7250.0], f);
    Padded(4, f.fares);
    Padded(4, f.demand);
  }

  /** The pipeline with the inputs held abstract: once Q, TR and the
      reduction are known, the output is the scatter of the survivors. */
  lemma Pipeline(fares: seq<real>, demands: seq<real>, q: seq<real>, tr: seq<real>, f: Frontier)
    requires |fares| > 0 && |demands| == |fares|
    requires FaresDecreasing(fares) && fares[0] >= 0.0
    requires CumulativeDemand(demands, None) == q && TotalRevenue(fares, q) == tr
    requires Reduce(q, tr, fares[0], Range(|fares|)) == Ok(f)
    requires f.indices == Range(|f.fares|)
    ensures |f.fares| <= |fares| && |f.demand| == |f.fares|
    ensures CalcFareTransformation(fares, demands, None, Undifferentiated, false)
            == Ok(Adjusted(seq(|fares|, i requires 0 <= i < |fares| => if i < |f.fares| then Some(f.fares[i]) else None),
                           seq(|fares|, i requires 0 <= i < |fares| => if i < |f.fares| then Some(f.demand[i]) else None)))
  {
    Unfold(fares, demands, None, false);
    FillNanRange(|fares|, f.fares);
    FillNanRange(|fares|, f.demand);
  }

  /** Fares 100, 80, 60 with demands 10, 20, 30: every class is efficient,
      yet the adjusted fares are the marginal revenues 100, 70 and 40, not
      the fares themselves. */
  lemma NoClassRemoved()
    ensures CalcFareTransformation([100.0, 80.0, 60.0], [10.0, 20.0, 30.0], None, Undifferentiated, false)
            == Ok(Adjusted([Some(Finite(100.0)), Some(Finite(70.0)), Some(Finite(40.0))],
                           [Some(10.0), Some(20.0), Some(30.0)]))
  {
    var q, tr := [10.0, 30.0, 60.0], [1000.0, 2400.0, 3600.0];
    var f := Frontier([Finite(100.0), Finite(70.0), Finite(40.0)], [10.0, 20.0, 30.0], q, tr, Range(3));
    SecondCurves();
    SinglePass(q, tr);
    DecreasingOf3(100.0, 80.0, 60.0);
    Pipeline([100.0, 80.0, 60.0], [10.0, 20.0, 30.0], q, tr, f);
    Padded(3, f.fares);
    Padded(3, f.demand);
  }

  /** Q and TR of the second example. */
  lemma SecondCurves()
    ensures CumulativeDemand([10.0, 20.0, 30.0], None) == [10.0, 30.0, 60.0]
    ensures TotalRevenue([100.0, 80.0, 60.0], [10.0, 30.0, 60.0]) == [1000.0, 2400.0, 3600.0]
  {
    SumOf4(10.0, 20.0, 30.0, 0.0);
    var demands := [10.0, 20.0, 30.0];
    assert demands[..1] == [10.0] && demands[..2] == [10.0, 20.0] && demands[..3] == demands;
  }

  /** Three strictly decreasing fares pass the fare-order check. */
  lemma DecreasingOf3(a: real, b: real, c: real)
    requires a > b > c
    ensures FaresDecreasing([a, b, c])
  {
    var v := [a, b, c];
    forall i, j | 0 <= i < j < 3
      ensures v[i] > v[j]
    {
      assert v[0] == a && v[1] == b && v[2] == c;
    }
  }

  /** The reduction of the second example stops after its first pass. */
  lemma SinglePass(q: seq<real>, tr: seq<real>)
    requires q == [10.0, 30.0, 60.0] && tr == [1000.0, 2400.0, 3600.0]
    ensures Reduce(q, tr, 100.0, Range(3))
            == Ok(Frontier([Finite(100.0), Finite(70.0), Finite(40.0)], [10.0, 20.0, 30.0], q, tr, Range(3)))
  {
    assert AdjustedFares(q, tr, 100.0) == [Finite(100.0), Finite(70.0), Finite(40.0)];
    assert Increments(q) == [10.0, 20.0, 30.0];
    ReduceStops(q, tr, 100.0, Range(3));
  }

  /** Four strictly decreasing fares pass the fare-order check. */
  lemma DecreasingOf4(a: real, b: real, c: real, d: real)
    requires a > b > c > d
    ensures FaresDecreasing([a, b, c, d])
  {
    var v := [a, b, c, d];
    forall i, j | 0 <= i < j < 4
      ensures v[i] > v[j]
    {
      assert v[0] == a && v[1] == b && v[2] == c && v[3] == d;
    }
  }

  /** Q and TR of the example. */
  lemma ExampleCurves()
    ensures CumulativeDemand([10.0, 5.0, 100.0, 30.0], None) == [10.0, 15.0, 115.0, 145.0]
    ensures TotalRevenue([100.0, 80.0, 75.0, 50.0], [10.0, 15.0, 115.0, 145.0]) == [1000.0, 1200.0, 8625.0, 7250.0]
  {
    var demands := [10.0, 5.0, 100.0, 30.0];
    SumOf4(10.0, 5.0, 100.0, 30.0);
    assert demands[..1] == [10.0] && demands[..2] == [10.0, 5.0];
    assert demands[..3] == [10.0, 5.0, 100.0] && demands[..4] == demands;
  }

  /** The two passes of the example: the first drops position 3, the second
      finds every fare non-negative. */
  lemma ExampleReduction()
    ensures Reduce([10.0, 15.0, 115.0, 145.0], [1000.0, 1200.0, 8625.0, 7250.0], 100.0, Range(4))
            == Ok(Frontier([Finite(100.0), Finite(40.0), Finite(74.25)], [10.0, 5.0, 100.0],
                           [10.0, 15.0, 115.0], [1000.0, 1200.0, 8625.0], Range(3)))
  {
    FirstPass();
    SecondPass();
    TwoPasses([10.0, 15.0, 115.0, 145.0], [1000.0, 1200.0, 8625.0, 7250.0],
              [10.0, 15.0, 115.0], [1000.0, 1200.0, 8625.0],
              [Finite(100.0), Finite(40.0), Finite(74.25), Finite(-1375.0 / 30.0)],
              [Finite(100.0), Finite(40.0), Finite(74.25)]);
  }

  /** Two passes that drop the last of four positions and then stop, with
      the vectors held abstract so that the recursion is unfolded exactly
      twice. */
  lemma TwoPasses(q: seq<real>, tr: seq<real>, q': seq<real>, tr': seq<real>, m: seq<Ext>, m': seq<Ext>)
    requires |q| == 4 && |tr| == 4 && q' == q[..3] && tr' == tr[..3]
    requires AdjustedFares(q, tr, 100.0) == m && AdjustedFares(q', tr', 100.0) == m'
    requires AtLeastZero(m[0]) && AtLeastZero(m[1]) && AtLeastZero(m[2]) && BelowZero(m[3])
    requires Efficient(m')
    ensures Reduce(q, tr, 100.0, Range(4)) == Ok(Frontier(m', Increments(q'), q', tr', Range(3)))
  {
    DropLast(q, tr, q', tr', m);
    ReduceStops(q', tr', 100.0, Range(3));
  }

  /** The first pass drops the last position only. */
  lemma DropLast(q: seq<real>, tr: seq<real>, q': seq<real>, tr': seq<real>, m: seq<Ext>)
    requires |q| == 4 && |tr| == 4 && q' == q[..3] && tr' == tr[..3]
    requires AdjustedFares(q, tr, 100.0) == m
    requires AtLeastZero(m[0]) && AtLeastZero(m[1]) && AtLeastZero(m[2]) && BelowZero(m[3])
    ensures Reduce(q, tr, 100.0, Range(4)) == Reduce(q', tr', 100.0, Range(3))
  {
    var mask := KeepMask(m);
    assert mask[0] && mask[1] && mask[2] && !mask[3];
    assert !Efficient(m) by { assert !AtLeastZero(m[3]); }
    WhereAllButLast(mask);
    var keep := Where(mask);
    assert Select(q, keep) == q' && Select(tr, keep) == tr';
    assert Select(Range(4), keep) == Range(3);
    ReduceRecurses(q, tr, 100.0, Range(4));
  }

  /** The recursion stops on an efficient pass. */
  lemma ReduceStops(q: seq<real>, tr: seq<real>, highestFare: real, indices: seq<nat>)
    requires |tr| == |q| && |indices| == |q| && |q| > 0
    requires Efficient(AdjustedFares(q, tr, highestFare))
    ensures Reduce(q, tr, highestFare, indices)
            == Ok(Frontier(AdjustedFares(q, tr, highestFare), Increments(q), q, tr, indices))
  {
  }

  /** The recursion goes on with the kept positions after a pass that is not
      efficient. */
  lemma ReduceRecurses(q: seq<real>, tr: seq<real>, highestFare: real, indices: seq<nat>)
    requires |tr| == |q| && |indices| == |q| && |q| > 0
    requires !Efficient(AdjustedFares(q, tr, highestFare))
    ensures var keep := Where(KeepMask(AdjustedFares(q, tr, highestFare)));
            Reduce(q, tr, highestFare, indices)
            == Reduce(Select(q, keep), Select(tr, keep), highestFare, Select(indices, keep))
  {
  }

  lemma FirstPass()
    ensures AdjustedFares([10.0, 15.0, 115.0, 145.0], [1000.0, 1200.0, 8625.0, 7250.0], 100.0)
            == [Finite(100.0), Finite(40.0), Finite(74.25), Finite(-1375.0 / 30.0)]
  {
  }

  lemma SecondPass()
    ensures AdjustedFares([10.0, 15.0, 115.0], [1000.0, 1200.0, 8625.0], 100.0)
            == [Finite(100.0), Finite(40.0), Finite(74.25)]
    ensures Increments([10.0, 15.0, 115.0]) == [10.0, 5.0, 100.0]
  {
  }

  /** Prefix sums of a four-element vector. */
  lemma SumOf4(a: real, b: real, c: real, d: real)
    ensures Sum([a]) == a && Sum([a, b]) == a + b && Sum([a, b, c]) == a + b + c
    ensures Sum([a, b, c, d]) == a + b + c + d
  {
    assert [a, b, c, d][..3] == [a, b, c];
    assert [a, b, c][..2] == [a, b];
    assert [a, b][..1] == [a];
    assert [a][..0] == [];
  }

  /** `np.where` on a four-element mask that holds everywhere but last. */
  lemma WhereAllButLast(mask: seq<bool>)
    requires |mask| == 4 && mask[0] && mask[1] && mask[2] && !mask[3]
    ensures Where(mask) == [0, 1, 2]
  {
    var w := Where(mask);
    forall x
      ensures x in w <==> x in [0, 1, 2]
    {
      if x in w {
        var k :| 0 <= k < |w| && w[k] == x;
      }
    }
    IncreasingUnique(w, [0, 1, 2]);
  }

  /** The first three slots present, the rest NaN. */
  lemma Padded<T>(size: nat, v: seq<T>)
    requires 3 == |v| <= size <= 4
    ensures var r := seq(size, i requires 0 <= i < size => if i < |v| then Some(v[i]) else None);
            r == if size == 3 then [Some(v[0]), Some(v[1]), Some(v[2])]
                 else [Some(v[0]), Some(v[1]), Some(v[2]), None]
  {
  }
}
