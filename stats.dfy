/** pandas' sample statistics on a column that may hold NaN: `Series.var()` and
    `Series.cov(other)`, both with the default `ddof=1`. `var` skips the NaN cells of its
    column; `cov` keeps only the rows where both columns have a value. Either is NaN (here
    `None`) when fewer than two values remain, since the n - 1 denominator is then zero. */
module Stats {
  import opened Wrappers
  import opened Sequences

  /** The values of a column that are not NaN, in row order. */
  function Present(xs: seq<Option<real>>): (vs: seq<real>)
    ensures |vs| <= |xs|
  {
    if |xs| == 0 then []
    else (if xs[0].Some? then [xs[0].value] else []) + Present(xs[1..])
  }

  /** The rows where both columns have a value, in row order. */
  function Complete(ps: seq<(Option<real>, Option<real>)>): (qs: seq<(real, real)>)
    ensures |qs| <= |ps|
  {
    if |ps| == 0 then []
    else
      (if ps[0].0.Some? && ps[0].1.Some? then [(ps[0].0.value, ps[0].1.value)] else [])
      + Complete(ps[1..])
  }

  /** The present values are exactly the values of the non-NaN cells, each as many times
      as it is in the column. */
  lemma {:induction false} PresentSpec(xs: seq<Option<real>>)
    ensures forall v :: v in Present(xs) <==> Some(v) in xs
    ensures forall v :: Occurrences(Present(xs), v) == Occurrences(xs, Some(v))
  {
    PresentCounts(xs);
    if |xs| > 0 {
      PresentSpec(xs[1..]);
      assert forall v :: Some(v) in xs <==> Some(v) == xs[0] || Some(v) in xs[1..];
    }
  }

  /** The complete rows are exactly the rows where both cells have a value, each as many
      times as it is in the columns. */
  lemma {:induction false} CompleteSpec(ps: seq<(Option<real>, Option<real>)>)
    ensures forall x, y :: (x, y) in Complete(ps) <==> (Some(x), Some(y)) in ps
    ensures forall x, y :: Occurrences(Complete(ps), (x, y)) == Occurrences(ps, (Some(x), Some(y)))
  {
    CompleteCounts(ps);
    if |ps| > 0 {
      CompleteSpec(ps[1..]);
      assert forall x, y :: (Some(x), Some(y)) in ps <==> (Some(x), Some(y)) == ps[0] || (Some(x), Some(y)) in ps[1..];
    }
  }

  /** A value is present once per cell that holds it: a repeated value is not merged. */
  lemma {:induction false} PresentCounts(xs: seq<Option<real>>)
    ensures forall v :: Occurrences(Present(xs), v) == Occurrences(xs, Some(v))
  {
    if |xs| > 0 {
      var head := if xs[0].Some? then [xs[0].value] else [];
      PresentCounts(xs[1..]);
      assert xs == [xs[0]] + xs[1..];
      assert [xs[0]][..0] == [];
      if xs[0].Some? {
        assert head[..0] == [];
      }
      forall v
        ensures Occurrences(Present(xs), v) == Occurrences(xs, Some(v))
      {
        OccurrencesAppend(head, Present(xs[1..]), v);
        OccurrencesAppend([xs[0]], xs[1..], Some(v));
      }
    }
  }

  /** A pair is complete once per row that holds both of its values. */
  lemma {:induction false} CompleteCounts(ps: seq<(Option<real>, Option<real>)>)
    ensures forall x, y :: Occurrences(Complete(ps), (x, y)) == Occurrences(ps, (Some(x), Some(y)))
  {
    if |ps| > 0 {
      var both := ps[0].0.Some? && ps[0].1.Some?;
      var head := if both then [(ps[0].0.value, ps[0].1.value)] else [];
      CompleteCounts(ps[1..]);
      assert ps == [ps[0]] + ps[1..];
      assert [ps[0]][..0] == [];
      forall x, y
        ensures Occurrences(Complete(ps), (x, y)) == Occurrences(ps, (Some(x), Some(y)))
      {
        OccurrencesAppend(head, Complete(ps[1..]), (x, y));
        OccurrencesAppend([ps[0]], ps[1..], (Some(x), Some(y)));
        if both {
          assert head[..0] == [];
        }
      }
    }
  }

  /** Multiplication, kept behind a name so that sequence reasoning does not meet
      non-linear terms. */
  function Times(x: real, y: real): real {
    x * y
  }

  function Sum(vs: seq<real>): real {
    if |vs| == 0 then 0.0 else vs[0] + Sum(vs[1..])
  }

  /** Adding one value at the end adds it to the sum. */
  lemma {:induction false} SumSnoc(vs: seq<real>, x: real)
    ensures Sum(vs + [x]) == Sum(vs) + x
  {
    if |vs| > 0 {
      assert (vs + [x])[1..] == vs[1..] + [x];
      SumSnoc(vs[1..], x);
    }
  }

  function Mean(vs: seq<real>): real
    requires |vs| > 0
  {
    Sum(vs) / |vs| as real
  }

  /** The sum of squared deviations of `vs` from `m`. */
  function SquaredDeviation(vs: seq<real>, m: real): (d: real)
    ensures d >= 0.0
  {
    if |vs| == 0 then 0.0
    else
      SquareZero(vs[0] - m);
      Times(vs[0] - m, vs[0] - m) + SquaredDeviation(vs[1..], m)
  }

  /** The sum of the products of the deviations of each pair from `(mx, my)`. */
  function CrossDeviation(qs: seq<(real, real)>, mx: real, my: real): real {
    if |qs| == 0 then 0.0
    else Times(qs[0].0 - mx, qs[0].1 - my) + CrossDeviation(qs[1..], mx, my)
  }

  function Firsts(qs: seq<(real, real)>): (vs: seq<real>)
    ensures |vs| == |qs|
  {
    if |qs| == 0 then [] else [qs[0].0] + Firsts(qs[1..])
  }


  function Seconds(qs: seq<(real, real)>): (vs: seq<real>)
    ensures |vs| == |qs|
  {
    if |qs| == 0 then [] else [qs[0].1] + Seconds(qs[1..])
  }


  /** `Series.var()`: NaN cells skipped, denominator n - 1, NaN below two values. */
  function SampleVariance(xs: seq<Option<real>>): (v: Option<real>)
    ensures v.Some? <==> |Present(xs)| >= 2
    ensures v.Some? ==> v.value >= 0.0
  {
    var vs := Present(xs);
    if |vs| < 2 then None
    else Some(SquaredDeviation(vs, Mean(vs)) / (|vs| - 1) as real)
  }

  /** `Series.cov(other)`: pairwise-complete rows only, denominator n - 1, NaN below two
      such rows. */
  function SampleCovariance(ps: seq<(Option<real>, Option<real>)>): (c: Option<real>)
    ensures c.Some? <==> |Complete(ps)| >= 2
  {
    var qs := Complete(ps);
    if |qs| < 2 then None
    else Some(CrossDeviation(qs, Mean(Firsts(qs)), Mean(Seconds(qs))) / (|qs| - 1) as real)
  }

  // ----- Element-wise maps distribute over concatenation -----

  lemma {:induction false} ScaleRealsAppend(p: seq<real>, q: seq<real>, a: real)
    ensures ScaleReals(p + q, a) == ScaleReals(p, a) + ScaleReals(q, a)
  {
    if |p| > 0 {
      assert (p + q)[1..] == p[1..] + q;
      ScaleRealsAppend(p[1..], q, a);
    } else {
      assert p + q == q;
    }
  }

  lemma {:induction false} ScaleRealPairsAppend(p: seq<(real, real)>, q: seq<(real, real)>, a: real, b: real)
    ensures ScaleRealPairs(p + q, a, b) == ScaleRealPairs(p, a, b) + ScaleRealPairs(q, a, b)
  {
    if |p| > 0 {
      assert (p + q)[1..] == p[1..] + q;
      ScaleRealPairsAppend(p[1..], q, a, b);
    } else {
      assert p + q == q;
    }
  }

  // ----- Covariance of a column with itself -----

  /** A column paired with itself, cell by cell. */
  function Diagonal<T>(xs: seq<T>): (ps: seq<(T, T)>)
    ensures |ps| == |xs| && forall i :: 0 <= i < |xs| ==> ps[i] == (xs[i], xs[i])
  {
    seq(|xs|, i requires 0 <= i < |xs| => (xs[i], xs[i]))
  }

  lemma {:induction false} CompleteDiagonal(xs: seq<Option<real>>)
    ensures Firsts(Complete(Diagonal(xs))) == Present(xs)
    ensures Seconds(Complete(Diagonal(xs))) == Present(xs)
  {
    CompleteDiagonalPairs(xs);
    DiagonalProjections(Present(xs));
  }

  lemma {:induction false} CompleteDiagonalPairs(xs: seq<Option<real>>)
    ensures Complete(Diagonal(xs)) == Diagonal(Present(xs))
  {
    if |xs| > 0 {
      var rest := xs[1..];
      assert Diagonal(xs)[1..] == Diagonal(rest);
      CompleteDiagonalPairs(rest);
      var hv: seq<real> := if xs[0].Some? then [xs[0].value] else [];
      assert Diagonal(xs)[0] == (xs[0], xs[0]);
      assert Present(xs) == hv + Present(rest);
      assert Complete(Diagonal(xs)) == Diagonal(hv) + Complete(Diagonal(rest));
      DiagonalAppend(hv, Present(rest));
    }
  }

  lemma DiagonalAppend<T>(p: seq<T>, q: seq<T>)
    ensures Diagonal(p + q) == Diagonal(p) + Diagonal(q)
  {
  }

  lemma {:induction false} DiagonalProjections(vs: seq<real>)
    ensures Firsts(Diagonal(vs)) == vs && Seconds(Diagonal(vs)) == vs
  {
    if |vs| > 0 {
      assert Diagonal(vs)[1..] == Diagonal(vs[1..]);
      DiagonalProjections(vs[1..]);
    }
  }

  lemma {:induction false} CrossDeviationDiagonal(vs: seq<real>, m: real)
    ensures CrossDeviation(Diagonal(vs), m, m) == SquaredDeviation(vs, m)
  {
    if |vs| > 0 {
      assert Diagonal(vs)[1..] == Diagonal(vs[1..]);
      CrossDeviationDiagonal(vs[1..], m);
    }
  }

  /** Both statistics use the same n - 1 convention over the same rows: the covariance of
      a column with itself is its variance. */
  lemma CovarianceWithItself(xs: seq<Option<real>>)
    ensures SampleCovariance(Diagonal(xs)) == SampleVariance(xs)
  {
    CompleteDiagonal(xs);
    CompleteDiagonalPairs(xs);
    var vs := Present(xs);
    if |vs| >= 2 {
      CrossDeviationDiagonal(vs, Mean(vs));
    }
  }

  // ----- Zero variance -----

  predicate Constant(vs: seq<real>) {
    forall i :: 0 <= i < |vs| ==> vs[i] == vs[0]
  }

  lemma {:induction false} SquaredDeviationZero(vs: seq<real>, m: real)
    ensures SquaredDeviation(vs, m) == 0.0 <==> forall i :: 0 <= i < |vs| ==> vs[i] == m
  {
    if |vs| > 0 {
      var d := vs[0] - m;
      SquaredDeviationZero(vs[1..], m);
      SquareZero(d);
      assert forall i :: 1 <= i < |vs| ==> vs[i] == vs[1..][i - 1];
    }
  }



  /** A square is never negative, and it is zero only for zero. */
  lemma SquareZero(d: real)
    ensures Times(d, d) >= 0.0
    ensures d != 0.0 ==> Times(d, d) > 0.0
  {
    if d > 0.0 {
      TimesPositive(d, d);
    } else if d < 0.0 {
      TimesPositive(-d, -d);
      TimesNegNeg(d, d);
    }
  }

  lemma TimesPositive(x: real, y: real)
    requires x > 0.0 && y > 0.0
    ensures Times(x, y) > 0.0
  {}

  lemma TimesNegNeg(x: real, y: real)
    ensures Times(-x, -y) == Times(x, y)
  {}

  lemma {:induction false} SumConstant(vs: seq<real>, c: real)
    requires forall i :: 0 <= i < |vs| ==> vs[i] == c
    ensures Sum(vs) == |vs| as real * c
  {
    if |vs| > 0 {
      SumConstant(vs[1..], c);
    }
  }

  /** The variance is exactly zero if and only if there are at least two values and they
      are all equal. */
  lemma VarianceZeroIffConstant(xs: seq<Option<real>>)
    ensures SampleVariance(xs) == Some(0.0) <==> |Present(xs)| >= 2 && Constant(Present(xs))
  {
    var vs := Present(xs);
    if |vs| >= 2 {
      var m := Mean(vs);
      SquaredDeviationZero(vs, m);
      var d := SquaredDeviation(vs, m);
      var n := (|vs| - 1) as real;
      assert d / n == 0.0 <==> d == 0.0;
      if Constant(vs) {
        MeanConstant(vs);
      }
    }
  }

  /** The mean of equal values is that value. */
  lemma MeanConstant(vs: seq<real>)
    requires |vs| > 0 && Constant(vs)
    ensures Mean(vs) == vs[0]
  {
    SumConstant(vs, vs[0]);
    CancelCount(|vs| as real, vs[0]);
  }

  lemma CancelCount(n: real, c: real)
    requires n > 0.0
    ensures n * c / n == c
  {
  }

  // ----- Scaling -----

  /** Every value of the first column multiplied by `a`, of the second by `b`. */
  function ScalePairs(ps: seq<(Option<real>, Option<real>)>, a: real, b: real): (r: seq<(Option<real>, Option<real>)>)
    ensures |r| == |ps|
  {
    if |ps| == 0 then [] else [(ScaleCell(ps[0].0, a), ScaleCell(ps[0].1, b))] + ScalePairs(ps[1..], a, b)
  }


  function ScaleCell(x: Option<real>, a: real): (y: Option<real>)
    ensures y.Some? <==> x.Some?
  {
    match x
    case Some(v) => Some(Times(a, v))
    case None => None
  }

  function ScaleReals(vs: seq<real>, a: real): (r: seq<real>)
    ensures |r| == |vs|
  {
    if |vs| == 0 then [] else [Times(a, vs[0])] + ScaleReals(vs[1..], a)
  }


  function ScaleRealPairs(qs: seq<(real, real)>, a: real, b: real): (r: seq<(real, real)>)
    ensures |r| == |qs|
  {
    if |qs| == 0 then [] else [(Times(a, qs[0].0), Times(b, qs[0].1))] + ScaleRealPairs(qs[1..], a, b)
  }


  lemma {:induction false} CompleteScaled(ps: seq<(Option<real>, Option<real>)>, a: real, b: real)
    ensures Complete(ScalePairs(ps, a, b)) == ScaleRealPairs(Complete(ps), a, b)
  {
    if |ps| > 0 {
      CompleteScaled(ps[1..], a, b);
      var head := if ps[0].0.Some? && ps[0].1.Some? then [(ps[0].0.value, ps[0].1.value)] else [];
      ScaleRealPairsAppend(head, Complete(ps[1..]), a, b);
    }
  }

  lemma {:induction false} SumScaled(vs: seq<real>, a: real)
    ensures Sum(ScaleReals(vs, a)) == Times(a, Sum(vs))
  {
    if |vs| > 0 {
      SumScaled(vs[1..], a);
      Distribute(a, vs[0], Sum(vs[1..]));
    }
  }


  lemma Distribute(a: real, x: real, y: real)
    ensures Times(a, x) + Times(a, y) == Times(a, x + y)
  {
  }


  lemma MeanScaled(vs: seq<real>, a: real)
    requires |vs| > 0
    ensures Mean(ScaleReals(vs, a)) == Times(a, Mean(vs))
  {
    SumScaled(vs, a);
    DivideScaled(Sum(vs), |vs| as real, a);
  }



  lemma DivideScaled(s: real, n: real, a: real)
    requires n != 0.0
    ensures Times(a, s) / n == Times(a, s / n)
  {
  }


  lemma ProductScaled(x: real, mx: real, y: real, my: real, a: real, b: real)
    ensures Times(Times(a, x) - Times(a, mx), Times(b, y) - Times(b, my))
         == Times(Times(a, b), Times(x - mx, y - my))
  {
    assert a * x - a * mx == a * (x - mx);
    assert b * y - b * my == b * (y - my);
    assert (a * (x - mx)) * (b * (y - my)) == (a * b) * ((x - mx) * (y - my));
  }


  lemma {:induction false} ProjectionsScaled(qs: seq<(real, real)>, a: real, b: real)
    ensures Firsts(ScaleRealPairs(qs, a, b)) == ScaleReals(Firsts(qs), a)
    ensures Seconds(ScaleRealPairs(qs, a, b)) == ScaleReals(Seconds(qs), b)
  {
    if |qs| > 0 {
      ProjectionsScaled(qs[1..], a, b);
      assert ScaleRealPairs(qs, a, b)[1..] == ScaleRealPairs(qs[1..], a, b);
      assert ScaleReals(Firsts(qs), a)[1..] == ScaleReals(Firsts(qs[1..]), a);
    }
  }

  lemma {:induction false} CrossDeviationScaled(qs: seq<(real, real)>, mx: real, my: real, a: real, b: real)
    ensures CrossDeviation(ScaleRealPairs(qs, a, b), Times(a, mx), Times(b, my))
         == Times(Times(a, b), CrossDeviation(qs, mx, my))
  {
    if |qs| > 0 {
      var x, y := qs[0].0, qs[0].1;
      CrossDeviationScaled(qs[1..], mx, my, a, b);
      ProductScaled(x, mx, y, my, a, b);
      Distribute(Times(a, b), Times(x - mx, y - my), CrossDeviation(qs[1..], mx, my));
    }
  }



  /** Multiplying one column by `a` and the other by `b` multiplies their covariance by
      `a * b`; which rows are complete does not change. */
  lemma CovarianceScaled(ps: seq<(Option<real>, Option<real>)>, a: real, b: real)
    ensures SampleCovariance(ScalePairs(ps, a, b)).Some? <==> SampleCovariance(ps).Some?
    ensures SampleCovariance(ps).Some? ==>
      SampleCovariance(ScalePairs(ps, a, b)).value == Times(a * b, SampleCovariance(ps).value)
  {
    CompleteScaled(ps, a, b);
    var qs := Complete(ps);
    if |qs| >= 2 {
      ProjectionsScaled(qs, a, b);
      MeanScaled(Firsts(qs), a);
      MeanScaled(Seconds(qs), b);
      var mx, my := Mean(Firsts(qs)), Mean(Seconds(qs));
      CrossDeviationScaled(qs, mx, my, a, b);
      var cd := CrossDeviation(qs, mx, my);
      DivideScaled(cd, (|qs| - 1) as real, Times(a, b));
    }
  }


  function ScaleColumn(xs: seq<Option<real>>, a: real): (r: seq<Option<real>>)
    ensures |r| == |xs|
  {
    if |xs| == 0 then [] else [ScaleCell(xs[0], a)] + ScaleColumn(xs[1..], a)
  }


  lemma {:induction false} DiagonalScaled(xs: seq<Option<real>>, a: real)
    ensures Diagonal(ScaleColumn(xs, a)) == ScalePairs(Diagonal(xs), a, a)
  {
    if |xs| > 0 {
      DiagonalScaled(xs[1..], a);
      assert Diagonal(xs)[1..] == Diagonal(xs[1..]);
      assert Diagonal(ScaleColumn(xs, a))[1..] == Diagonal(ScaleColumn(xs, a)[1..]);
    }
  }

  /** The variance of a scaled column is the covariance of the scaled diagonal. */
  lemma ScaledVarianceIsCovariance(xs: seq<Option<real>>, a: real)
    ensures SampleVariance(ScaleColumn(xs, a)) == SampleCovariance(ScalePairs(Diagonal(xs), a, a))
  {
    DiagonalScaled(xs, a);
    CovarianceWithItself(ScaleColumn(xs, a));
  }

  /** Multiplying a column by `a` multiplies its variance by `a * a`. */
  lemma VarianceScaled(xs: seq<Option<real>>, a: real)
    ensures SampleVariance(ScaleColumn(xs, a)).Some? <==> SampleVariance(xs).Some?
    ensures SampleVariance(xs).Some? ==>
      SampleVariance(ScaleColumn(xs, a)).value == Times(a * a, SampleVariance(xs).value)
  {
    ScaledVarianceIsCovariance(xs, a);
    CovarianceWithItself(xs);
    CovarianceScaled(Diagonal(xs), a, a);
  }
}
