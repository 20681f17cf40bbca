/** The beta of a stock against an index, estimated from the intersection rows: the sample
    covariance of the two daily-change columns divided by the sample variance of the index
    change column, rounded to two decimals. `Eg.py` and `Veta.py` guard against a zero
    variance; `Beta.py` divides regardless. */
module Estimator {
  import opened Wrappers
  import opened Numbers
  import opened Stats
  import opened Align

  /** The `Daily Change (%)_Stock` column of the intersection. */
  function StockChanges(j: seq<Aligned>): (xs: seq<Option<real>>)
    ensures |xs| == |j| && forall i :: 0 <= i < |j| ==> xs[i] == j[i].stockChange
  {
    seq(|j|, i requires 0 <= i < |j| => j[i].stockChange)
  }

  /** The `Daily Change (%)_Index` column of the intersection. */
  function IndexChanges(j: seq<Aligned>): (xs: seq<Option<real>>)
    ensures |xs| == |j| && forall i :: 0 <= i < |j| ==> xs[i] == j[i].indexChange
  {
    seq(|j|, i requires 0 <= i < |j| => j[i].indexChange)
  }

  /** The two change columns side by side, as `Series.cov` pairs them by row. */
  function ChangePairs(j: seq<Aligned>): (ps: seq<(Option<real>, Option<real>)>)
    ensures |ps| == |j| && forall i :: 0 <= i < |j| ==> ps[i] == (j[i].stockChange, j[i].indexChange)
  {
    seq(|j|, i requires 0 <= i < |j| => (j[i].stockChange, j[i].indexChange))
  }

  /** `intersection['Daily Change (%)_Stock'].cov(intersection['Daily Change (%)_Index'])` */
  function Covariance(j: seq<Aligned>): (c: Option<real>)
    ensures c.Some? <==> |Complete(ChangePairs(j))| >= 2
  {
    SampleCovariance(ChangePairs(j))
  }

  /** `intersection['Daily Change (%)_Index'].var()` */
  function Variance(j: seq<Aligned>): (v: Option<real>)
    ensures v.Some? <==> |Present(IndexChanges(j))| >= 2
    ensures v.Some? ==> v.value >= 0.0
  {
    SampleVariance(IndexChanges(j))
  }

  /** `covariance / variance` as a double: NaN when either is NaN, an infinity or NaN when
      the variance is zero. */
  function RawBeta(j: seq<Aligned>): (b: Float)
    ensures Covariance(j).Some? && Variance(j).Some? && Variance(j).value != 0.0 ==>
      b == Finite(Covariance(j).value / Variance(j).value)
    ensures Covariance(j).None? || Variance(j).None? ==> b == NaN
    ensures Variance(j) == Some(0.0) ==> !b.Finite?
  {
    Div(FromOption(Covariance(j)), FromOption(Variance(j)))
  }

  /** `round(covariance / variance, 2) if variance != 0 else None` of `Eg.py` and
      `Veta.py`. A NaN variance is not equal to zero, so fewer than two index changes give
      a NaN beta, not `None`. */
  function GuardedBeta(j: seq<Aligned>): (b: Option<Float>)
    ensures b.None? <==> Variance(j) == Some(0.0)
    ensures b.Some? ==> !b.value.Inf?
    ensures b.Some? && Covariance(j).Some? && Variance(j).Some? ==>
      b.value == Finite(Round2(Covariance(j).value / Variance(j).value))
    ensures (Covariance(j).None? || Variance(j).None?) && Variance(j) != Some(0.0) ==>
      b == Some(NaN)
  {
    if Variance(j) == Some(0.0) then None else Some(RoundFloat(RawBeta(j)))
  }

  /** `round(covariance / variance, 2)` of `Beta.py`, with no guard: a zero variance gives
      an infinity (or NaN when the covariance is zero too), never a number. */
  function UnguardedBeta(j: seq<Aligned>): (b: Float)
    ensures Variance(j) == Some(0.0) ==> !b.Finite?
    ensures Covariance(j).Some? && Variance(j).Some? && Variance(j).value != 0.0 ==>
      b == Finite(Round2(Covariance(j).value / Variance(j).value))
    ensures Covariance(j).None? || Variance(j).None? ==> b == NaN
  {
    RoundFloat(RawBeta(j))
  }

  /** The two estimators agree wherever the guard does not fire. */
  lemma GuardedAgreesWithUnguarded(j: seq<Aligned>)
    ensures Variance(j) != Some(0.0) ==> GuardedBeta(j) == Some(UnguardedBeta(j))
    ensures Variance(j) == Some(0.0) ==> GuardedBeta(j).None? && !UnguardedBeta(j).Finite?
  {
  }

  /** The guard fires exactly when at least two index changes are defined and all of them
      are equal. */
  lemma GuardFiresIffIndexFlat(j: seq<Aligned>)
    ensures GuardedBeta(j).None? <==>
      |Present(IndexChanges(j))| >= 2 && Constant(Present(IndexChanges(j)))
  {
    VarianceZeroIffConstant(IndexChanges(j));
  }

  /** With fewer than two defined index changes both estimators give NaN. */
  lemma ShortSampleIsNaN(j: seq<Aligned>)
    requires |Present(IndexChanges(j))| < 2
    ensures GuardedBeta(j) == Some(NaN)
    ensures UnguardedBeta(j) == NaN
  {
  }

  /** A stock that moves exactly like the index has beta 1 (its covariance with the index
      is the index's variance). */
  lemma BetaOfIndexItself(j: seq<Aligned>)
    requires forall i :: 0 <= i < |j| ==> j[i].stockChange == j[i].indexChange
    requires Variance(j).Some? && Variance(j) != Some(0.0)
    ensures GuardedBeta(j) == Some(Finite(1.0))
    ensures UnguardedBeta(j) == Finite(1.0)
  {
    assert ChangePairs(j) == Diagonal(IndexChanges(j));
    CovarianceWithItself(IndexChanges(j));
    var v := Variance(j).value;
    assert v / v == 1.0;
    Round2Exact(100);
    assert 100 as real / 100.0 == 1.0;
  }

  /** The intersection with every stock change multiplied by `k`. */
  function ScaleStock(j: seq<Aligned>, k: real): (r: seq<Aligned>)
    ensures |r| == |j|
    ensures forall i :: 0 <= i < |j| ==>
      r[i] == j[i].(stockChange := ScaleCell(j[i].stockChange, k))
  {
    seq(|j|, i requires 0 <= i < |j| => j[i].(stockChange := ScaleCell(j[i].stockChange, k)))
  }

  /** Beta is linear in the stock's changes: multiplying them all by `k` multiplies the
      unrounded beta by `k`, and leaves an undefined or guarded beta so. */
  lemma RawBetaScalesWithStock(j: seq<Aligned>, k: real)
    ensures Variance(ScaleStock(j, k)) == Variance(j)
    ensures Covariance(ScaleStock(j, k)).Some? <==> Covariance(j).Some?
    ensures Covariance(j).Some? && Variance(j).Some? && Variance(j).value != 0.0 ==>
      RawBeta(ScaleStock(j, k)) == Finite(k * RawBeta(j).value)
  {
    var s := ScaleStock(j, k);
    assert IndexChanges(s) == IndexChanges(j);
    ChangePairsScaled(j, k);
    CovarianceScaled(ChangePairs(j), k, 1.0);
    if Covariance(j).Some? && Variance(j).Some? && Variance(j).value != 0.0 {
      var c, v := Covariance(j).value, Variance(j).value;
      assert Covariance(s).value == k * 1.0 * c;
      assert RawBeta(s) == Finite(Covariance(s).value / v);
      ScaleRatio(k, c, v);
    }
  }

  lemma ScaleRatio(k: real, c: real, v: real)
    requires v != 0.0
    ensures k * 1.0 * c / v == k * (c / v)
  {
  }

  /** The intersection with every index change multiplied by `k`. */
  function ScaleIndex(j: seq<Aligned>, k: real): (r: seq<Aligned>)
    ensures |r| == |j|
    ensures forall i :: 0 <= i < |j| ==>
      r[i] == j[i].(indexChange := ScaleCell(j[i].indexChange, k))
  {
    seq(|j|, i requires 0 <= i < |j| => j[i].(indexChange := ScaleCell(j[i].indexChange, k)))
  }

  /** Beta is inversely proportional to the index's changes: multiplying them all by a
      non-zero `k` divides the unrounded beta by `k`; the guard fires, and the beta is
      undefined, on the scaled intersection exactly when it does on the original. */
  lemma RawBetaScalesWithIndex(j: seq<Aligned>, k: real)
    requires k != 0.0
    ensures Variance(ScaleIndex(j, k)).Some? <==> Variance(j).Some?
    ensures Variance(ScaleIndex(j, k)) == Some(0.0) <==> Variance(j) == Some(0.0)
    ensures Covariance(ScaleIndex(j, k)).Some? <==> Covariance(j).Some?
    ensures Covariance(j).Some? && Variance(j).Some? && Variance(j).value != 0.0 ==>
      RawBeta(ScaleIndex(j, k)) == Finite(RawBeta(j).value / k)
  {
    var s := ScaleIndex(j, k);
    IndexChangesScaled(j, k);
    ChangePairsIndexScaled(j, k);
    VarianceScaled(IndexChanges(j), k);
    CovarianceScaled(ChangePairs(j), 1.0, k);
    if Variance(j).Some? {
      SquareScaleNonZero(k, Variance(j).value);
    }
    if Covariance(j).Some? && Variance(j).Some? && Variance(j).value != 0.0 {
      var c, v := Covariance(j).value, Variance(j).value;
      InverseRatio(k, c, v);
    }
  }

  lemma SquareScaleNonZero(k: real, v: real)
    requires k != 0.0
    ensures Times(k * k, v) == 0.0 <==> v == 0.0
  {
    SquareZero(k);
    var kk := k * k;
    assert kk > 0.0;
    if v > 0.0 {
      TimesPositive(kk, v);
    } else if v < 0.0 {
      TimesPositive(kk, -v);
      assert Times(kk, -v) == -Times(kk, v);
    }
  }

  lemma InverseRatio(k: real, c: real, v: real)
    requires k != 0.0 && v != 0.0
    ensures Times(k * k, v) != 0.0
    ensures Times(1.0 * k, c) / Times(k * k, v) == c / v / k
  {
    SquareScaleNonZero(k, v);
    var d := Times(k * k, v);
    var r := c / v / k;
    assert r * k == c / v;
    assert (c / v) * v == c;
    assert d == (k * v) * k;
    assert r * d == ((r * k) * v) * k;
    assert r * d == Times(1.0 * k, c);
  }

  lemma IndexChangesScaled(j: seq<Aligned>, k: real)
    ensures IndexChanges(ScaleIndex(j, k)) == ScaleColumn(IndexChanges(j), k)
  {
    ScaleColumnIndex(IndexChanges(j), k);
  }

  lemma ChangePairsIndexScaled(j: seq<Aligned>, k: real)
    ensures ChangePairs(ScaleIndex(j, k)) == ScalePairs(ChangePairs(j), 1.0, k)
  {
    var ps := ChangePairs(j);
    ScalePairsIndex(ps, 1.0, k);
    forall i | 0 <= i < |ps|
      ensures ChangePairs(ScaleIndex(j, k))[i] == ScalePairs(ps, 1.0, k)[i]
    {
      ScaleCellOne(ps[i].0);
    }
  }

  lemma {:induction false} ScaleColumnIndex(xs: seq<Option<real>>, a: real)
    ensures forall i :: 0 <= i < |xs| ==> ScaleColumn(xs, a)[i] == ScaleCell(xs[i], a)
  {
    if |xs| > 0 {
      ScaleColumnIndex(xs[1..], a);
      assert forall i :: 1 <= i < |xs| ==> xs[1..][i - 1] == xs[i];
    }
  }

  lemma ChangePairsScaled(j: seq<Aligned>, k: real)
    ensures ChangePairs(ScaleStock(j, k)) == ScalePairs(ChangePairs(j), k, 1.0)
  {
    var ps := ChangePairs(j);
    ScalePairsIndex(ps, k, 1.0);
    forall i | 0 <= i < |ps|
      ensures ChangePairs(ScaleStock(j, k))[i] == ScalePairs(ps, k, 1.0)[i]
    {
      ScaleCellOne(ps[i].1);
    }
  }

  lemma ScaleCellOne(x: Option<real>)
    ensures ScaleCell(x, 1.0) == x
  {
  }

  lemma {:induction false} ScalePairsIndex(ps: seq<(Option<real>, Option<real>)>, a: real, b: real)
    ensures forall i :: 0 <= i < |ps| ==>
      ScalePairs(ps, a, b)[i] == (ScaleCell(ps[i].0, a), ScaleCell(ps[i].1, b))
  {
    if |ps| > 0 {
      ScalePairsIndex(ps[1..], a, b);
      assert forall i :: 1 <= i < |ps| ==> ps[1..][i - 1] == ps[i];
    }
  }
}
