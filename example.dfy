/** A worked example: four consecutive trading days on which both frames have a close.
    `Eg.py` and `Veta.py` estimate beta from the exact changes and show 2.65; `Beta.py`
    rounds the changes to two decimals first and shows 2.64. */
module Example {
  import BetaPage
  import opened Wrappers
  import opened Numbers
  import opened Series
  import opened Align
  import opened Stats
  import opened Estimator

  /** Stock closes 100, 102, 101, 105 on days 1 to 4. */
  const Stock := [Bar(1, 100.0, []), Bar(2, 102.0, []), Bar(3, 101.0, []), Bar(4, 105.0, [])]

  /** Index closes 1000, 1010, 1005, 1015 on the same days. */
  const Index := [Bar(1, 1000.0, []), Bar(2, 1010.0, []), Bar(3, 1005.0, []), Bar(4, 1015.0, [])]

  /** The intersection of the example: all four days, the first without changes. */
  const Intersection := [
    Aligned(1, 100.0, None, 1000.0, None),
    Aligned(2, 102.0, Some(2.0), 1010.0, Some(1.0)),
    Aligned(3, 101.0, Some(-50.0 / 51.0), 1005.0, Some(-50.0 / 101.0)),
    Aligned(4, 105.0, Some(400.0 / 101.0), 1015.0, Some(200.0 / 201.0))]

  /** The stock frame with its change column: 2, -50/51 and 400/101 percent, none on
      day 1. */
  const StockRows := [Row(1, 100.0, [], None), Row(2, 102.0, [], Some(2.0)),
                      Row(3, 101.0, [], Some(-50.0 / 51.0)), Row(4, 105.0, [], Some(400.0 / 101.0))]

  /** The index frame with its change column: 1, -50/101 and 200/201 percent, none on
      day 1. */
  const IndexRows := [Row(1, 1000.0, [], None), Row(2, 1010.0, [], Some(1.0)),
                      Row(3, 1005.0, [], Some(-50.0 / 101.0)), Row(4, 1015.0, [], Some(200.0 / 201.0))]

  lemma ExampleChanges()
    ensures WithDailyChange(Stock) == StockRows
    ensures WithDailyChange(Index) == IndexRows
  {
  }

  /** Both frames have the same four days, in ascending order. */
  lemma ExampleDates()
    ensures Ascending(IndexRows) && |StockRows| == |IndexRows|
    ensures forall i :: 0 <= i < |StockRows| ==> StockRows[i].date == IndexRows[i].date
  {
  }

  /** Day by day, the intersection row is the pair of the two frames' rows. */
  lemma ExamplePairs()
    ensures forall i :: 0 <= i < 4 ==> Pair(StockRows[i], IndexRows[i]) == Intersection[i]
  {
  }

  /** Every day is in the intersection, day 1 without changes. */
  lemma ExampleIntersection()
    ensures InnerJoin(StockRows, IndexRows) == Intersection
  {
    ExampleDates();
    ExamplePairs();
    InnerJoinSameDates(StockRows, IndexRows, 0);
    assert StockRows[0..] == StockRows;
  }

  /** From the downloaded closes to the intersection. */
  lemma ExamplePipeline()
    ensures InnerJoin(WithDailyChange(Stock), WithDailyChange(Index)) == Intersection
  {
    ExampleChanges();
    ExampleIntersection();
  }

  /** The three defined stock changes and the three defined index changes. */
  const StockValues := [2.0, -50.0 / 51.0, 400.0 / 101.0]
  const IndexValues := [1.0, -50.0 / 101.0, 200.0 / 201.0]

  /** The three days on which both changes are defined. */
  const CompletePairs: seq<(real, real)> :=
    [(2.0, 1.0), (-50.0 / 51.0, -50.0 / 101.0), (400.0 / 101.0, 200.0 / 201.0)]

  /** Day 1 has no change, so only the other three index changes count. */
  lemma ExampleIndexPresent()
    ensures Present(IndexChanges(Intersection)) == IndexValues
  {
    var xs := IndexChanges(Intersection);
    assert xs == [None, Some(1.0), Some(-50.0 / 101.0), Some(200.0 / 201.0)];
    assert xs[2..][1..] == xs[3..] && xs[1..][1..] == xs[2..];
    assert Present(xs[3..]) == IndexValues[2..];
    assert Present(xs[2..]) == IndexValues[1..];
    assert Present(xs[1..]) == IndexValues;
  }

  /** The index changes average 30451/60903. */
  lemma ExampleIndexMean()
    ensures Mean(IndexValues) == 30451.0 / 60903.0
  {
    assert IndexValues[1..][1..][1..] == [];
  }

  /** Sample variance of the three index changes. */
  lemma ExampleVariance()
    ensures Variance(Intersection) == Some(918127951.0 / 1236391803.0)
  {
    ExampleIndexPresent();
    ExampleIndexMean();
    var vs := IndexValues;
    assert vs[1..][1..][1..] == [];
    assert SquaredDeviation(vs, 30451.0 / 60903.0) == 1836255902.0 / 1236391803.0;
  }

  /** Only the three days with both changes count. */
  lemma ExampleComplete()
    ensures Complete(ChangePairs(Intersection)) == CompletePairs
  {
    var ps := ChangePairs(Intersection);
    assert ps == [(None, None), (Some(2.0), Some(1.0)), (Some(-50.0 / 51.0), Some(-50.0 / 101.0)),
                  (Some(400.0 / 101.0), Some(200.0 / 201.0))];
    assert ps[2..][1..] == ps[3..] && ps[1..][1..] == ps[2..];
    assert Complete(ps[3..]) == CompletePairs[2..];
    assert Complete(ps[2..]) == CompletePairs[1..];
    assert Complete(ps[1..]) == CompletePairs;
  }

  /** The stock changes average 25652/15453 and the index changes 30451/60903. */
  lemma ExamplePairMeans()
    ensures Firsts(CompletePairs) == StockValues && Seconds(CompletePairs) == IndexValues
    ensures Mean(StockValues) == 25652.0 / 15453.0
  {
    var qs := CompletePairs;
    assert qs[1..][1..][1..] == [];
    assert StockValues[1..][1..][1..] == [];
  }

  /** Sample covariance of the three complete change pairs. */
  lemma ExampleCovariance()
    ensures Covariance(Intersection) == Some(617395577.0 / 313711353.0)
  {
    ExampleComplete();
    ExamplePairMeans();
    ExampleIndexMean();
    var qs := CompletePairs;
    assert qs[1..][1..][1..] == [];
    assert CrossDeviation(qs, 25652.0 / 15453.0, 30451.0 / 60903.0) == 1234791154.0 / 313711353.0;
  }

  /** The example's beta, computed from its intersection. */
  lemma ExampleBeta()
    ensures RawBeta(Intersection) == Finite(41365503659.0 / 15608175167.0)
    ensures GuardedBeta(Intersection) == Some(Finite(2.65))
    ensures UnguardedBeta(Intersection) == Finite(2.65)
  {
    ExampleVariance();
    ExampleCovariance();
    var b := 41365503659.0 / 15608175167.0;
    assert (617395577.0 / 313711353.0) / (918127951.0 / 1236391803.0) == b;
    assert (b * 100.0).Floor == 265;
  }

  /** Beta of the example is 41365503659 / 15608175167, about 2.650246: `Eg.py` and
      `Veta.py` show it as 2.65, and so would the unguarded formula on these unrounded
      changes. */
  lemma EndToEnd()
    ensures var j := InnerJoin(WithDailyChange(Stock), WithDailyChange(Index));
      RawBeta(j) == Finite(41365503659.0 / 15608175167.0) &&
      GuardedBeta(j) == Some(Finite(2.65)) &&
      UnguardedBeta(j) == Finite(2.65)
  {
    ExamplePipeline();
    ExampleBeta();
  }

  // ----- The same downloads through Beta.py, which rounds the changes first -----

  /** The stock frame with its rounded change column: 2.0, -0.98 and 3.96. */
  const RoundedStockRows := [Row(1, 100.0, [], None), Row(2, 102.0, [], Some(2.0)),
                             Row(3, 101.0, [], Some(-0.98)), Row(4, 105.0, [], Some(3.96))]

  /** The index frame with its rounded change column: 1.0, -0.5 and 1.0. */
  const RoundedIndexRows := [Row(1, 1000.0, [], None), Row(2, 1010.0, [], Some(1.0)),
                             Row(3, 1005.0, [], Some(-0.5)), Row(4, 1015.0, [], Some(1.0))]

  /** The `'both'` rows of the rounded frames. */
  const RoundedIntersection := [
    Aligned(1, 100.0, None, 1000.0, None),
    Aligned(2, 102.0, Some(2.0), 1010.0, Some(1.0)),
    Aligned(3, 101.0, Some(-0.98), 1005.0, Some(-0.5)),
    Aligned(4, 105.0, Some(3.96), 1015.0, Some(1.0))]

  /** Each change rounded half-even to two decimals. */
  lemma ExampleRoundings()
    ensures Round2(2.0) == 2.0 && Round2(1.0) == 1.0
    ensures Round2(-50.0 / 51.0) == -0.98
    ensures Round2(400.0 / 101.0) == 3.96
    ensures Round2(-50.0 / 101.0) == -0.5
    ensures Round2(200.0 / 201.0) == 1.0
  {
    Round2Exact(200);
    Round2Exact(100);
    assert ((-50.0 / 51.0) * 100.0).Floor == -99;
    assert ((400.0 / 101.0) * 100.0).Floor == 396;
    assert ((-50.0 / 101.0) * 100.0).Floor == -50;
    assert ((200.0 / 201.0) * 100.0).Floor == 99;
  }

  lemma ExampleRoundedChanges()
    ensures BetaPage.RoundedChanges(Stock) == RoundedStockRows
    ensures BetaPage.RoundedChanges(Index) == RoundedIndexRows
  {
    ExampleChanges();
    ExampleRoundings();
  }

  /** The rounded frames keep the four shared days, in ascending order. */
  lemma ExampleRoundedDates()
    ensures Ascending(RoundedStockRows) && Ascending(RoundedIndexRows)
    ensures |RoundedStockRows| == |RoundedIndexRows|
    ensures forall i :: 0 <= i < |RoundedStockRows| ==> RoundedStockRows[i].date == RoundedIndexRows[i].date
  {
  }

  /** Day by day, the rounded intersection row is the pair of the two rounded rows. */
  lemma ExampleRoundedPairs()
    ensures forall i :: 0 <= i < 4 ==> Pair(RoundedStockRows[i], RoundedIndexRows[i]) == RoundedIntersection[i]
  {
  }

  lemma ExampleRoundedJoin()
    ensures InnerJoin(RoundedStockRows, RoundedIndexRows) == RoundedIntersection
  {
    ExampleRoundedDates();
    ExampleRoundedPairs();
    InnerJoinSameDates(RoundedStockRows, RoundedIndexRows, 0);
    assert RoundedStockRows[0..] == RoundedStockRows;
  }

  /** The rounded frames share their four days, so the `'both'` rows of their outer merge
      pair them day by day. */
  lemma ExampleRoundedIntersection()
    ensures Intersecting(OuterMerge(RoundedStockRows, RoundedIndexRows)) == RoundedIntersection
  {
    ExampleRoundedDates();
    IntersectingIsInnerJoin(RoundedStockRows, RoundedIndexRows);
    ExampleRoundedJoin();
  }

  /** The rounded index changes 1.0, -0.5, 1.0 have variance 0.75. */
  lemma ExampleRoundedVariance()
    ensures Variance(RoundedIntersection) == Some(0.75)
  {
    var xs := IndexChanges(RoundedIntersection);
    assert xs == [None, Some(1.0), Some(-0.5), Some(1.0)];
    assert xs[2..][1..] == xs[3..] && xs[1..][1..] == xs[2..];
    var vs := [1.0, -0.5, 1.0];
    assert Present(xs[3..]) == vs[2..];
    assert Present(xs[2..]) == vs[1..];
    assert Present(xs) == vs;
    assert vs[1..][1..][1..] == [];
    assert Mean(vs) == 0.5;
    assert SquaredDeviation(vs, 0.5) == 1.5;
  }

  /** The three days on which both rounded changes are defined. */
  const RoundedPairs: seq<(real, real)> := [(2.0, 1.0), (-0.98, -0.5), (3.96, 1.0)]

  lemma ExampleRoundedComplete()
    ensures Complete(ChangePairs(RoundedIntersection)) == RoundedPairs
  {
    var ps := ChangePairs(RoundedIntersection);
    assert ps == [(None, None), (Some(2.0), Some(1.0)), (Some(-0.98), Some(-0.5)), (Some(3.96), Some(1.0))];
    assert ps[2..][1..] == ps[3..] && ps[1..][1..] == ps[2..];
    assert Complete(ps[3..]) == RoundedPairs[2..];
    assert Complete(ps[2..]) == RoundedPairs[1..];
  }

  /** The rounded stock changes average 1.66 and the rounded index changes 0.5. */
  lemma ExampleRoundedMeans()
    ensures Mean(Firsts(RoundedPairs)) == 1.66 && Mean(Seconds(RoundedPairs)) == 0.5
  {
    var qs := RoundedPairs;
    assert qs[1..][1..][1..] == [];
    assert Firsts(qs) == [2.0, -0.98, 3.96] && Seconds(qs) == [1.0, -0.5, 1.0];
    assert [2.0, -0.98, 3.96][1..][1..][1..] == [] && [1.0, -0.5, 1.0][1..][1..][1..] == [];
  }

  /** The rounded change pairs have covariance 1.98. */
  lemma ExampleRoundedCovariance()
    ensures Covariance(RoundedIntersection) == Some(1.98)
  {
    ExampleRoundedComplete();
    ExampleRoundedMeans();
    var qs := RoundedPairs;
    assert qs[1..][1..][1..] == [];
    assert CrossDeviation(qs, 1.66, 0.5) == 3.96;
  }

  /** `Beta.py` on the example's downloads: no error, and beta 1.98 / 0.75 = 2.64 where
      `Eg.py` and `Veta.py` show 2.65, because the changes are rounded before the
      statistics. */
  lemma BetaPageEndToEnd()
    ensures BetaPage.Run(Stock, Index).errors == []
    ensures BetaPage.Run(Stock, Index).report.Some?
    ensures BetaPage.Run(Stock, Index).report.value.intersecting == RoundedIntersection
    ensures BetaPage.Run(Stock, Index).report.value.beta == Finite(2.64)
  {
    ExampleRoundedChanges();
    ExampleRoundedIntersection();
    ExampleRoundedVariance();
    ExampleRoundedCovariance();
    assert 1.98 / 0.75 == 264 as real / 100.0;
    Round2Exact(264);
  }
}
