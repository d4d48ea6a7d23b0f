/** Sample variance and Cronbach's alpha of a response matrix (rows are samples, columns are items). */
module CronbachAlpha {
  import opened Sums
  import opened Wrappers

  type Matrix = seq<seq<real>>

  function Mean(xs: seq<real>): real
    requires |xs| > 0
  {
    Sum(xs) / |xs| as real
  }

  /** Each value minus `c`. */
  function Centred(xs: seq<real>, c: real): (d: seq<real>)
    ensures |d| == |xs|
    ensures forall i :: 0 <= i < |d| ==> d[i] == xs[i] - c
  {
    seq(|xs|, i requires 0 <= i < |xs| => xs[i] - c)
  }

  function Squares(xs: seq<real>): (q: seq<real>)
    ensures |q| == |xs|
    ensures forall i :: 0 <= i < |q| ==> q[i] == Times(xs[i], xs[i])
  {
    seq(|xs|, i requires 0 <= i < |xs| => Times(xs[i], xs[i]))
  }

  /** Sum of squared deviations from the mean. */
  function Spread(xs: seq<real>): real
    requires |xs| > 0
  {
    Sum(Squares(Centred(xs, Mean(xs))))
  }

  /** Sample variance; fewer than two values have variance zero. */
  function Variance(xs: seq<real>): real {
    if |xs| < 2 then 0.0 else Spread(xs) / (|xs| - 1) as real
  }

  ghost predicate Rectangular(m: Matrix, k: nat) {
    forall i :: 0 <= i < |m| ==> |m[i]| == k
  }

  predicate ColumnExists(m: Matrix, j: nat) {
    forall i :: 0 <= i < |m| ==> j < |m[i]|
  }

  function Column(m: Matrix, j: nat): (c: seq<real>)
    requires ColumnExists(m, j)
    ensures |c| == |m|
    ensures forall i :: 0 <= i < |m| ==> c[i] == m[i][j]
  {
    seq(|m|, i requires 0 <= i < |m| => m[i][j])
  }

  function RowSums(m: Matrix): (t: seq<real>)
    ensures |t| == |m|
    ensures forall i :: 0 <= i < |m| ==> t[i] == Sum(m[i])
  {
    seq(|m|, i requires 0 <= i < |m| => Sum(m[i]))
  }

  function ColumnSums(m: Matrix, k: nat): (t: seq<real>)
    requires forall j :: 0 <= j < k ==> ColumnExists(m, j)
    ensures |t| == k
    ensures forall j :: 0 <= j < k ==> t[j] == Sum(Column(m, j))
  {
    seq(k, j requires 0 <= j < k => Sum(Column(m, j)))
  }

  function ItemVariances(m: Matrix, k: nat): (v: seq<real>)
    requires forall j :: 0 <= j < k ==> ColumnExists(m, j)
    ensures |v| == k
    ensures forall j :: 0 <= j < k ==> v[j] == Variance(Column(m, j))
  {
    seq(k, j requires 0 <= j < k => Variance(Column(m, j)))
  }

  function Coefficient(k: int, itemVariance: real, totalVariance: real): real
    requires k >= 2 && totalVariance != 0.0
  {
    k as real / (k - 1) as real * (1.0 - itemVariance / totalVariance)
  }

  /** What the coefficient is for any matrix, ragged ones included: `None` stands for the
      index error that a row shorter than the first one causes. */
  function Alpha(m: Matrix): Option<real> {
    if |m| == 0 || |m[0]| < 2 then Some(0.0)
    else
      var k := |m[0]|;
      var totalVariance := Variance(RowSums(m));
      if totalVariance == 0.0 then Some(0.0)
      else if exists j :: 0 <= j < k && !ColumnExists(m, j) then None
      else Some(Coefficient(k, Sum(ItemVariances(m, k)), totalVariance))
  }

  /** The accumulating form. */
  method ComputeAlpha(m: Matrix) returns (alpha: Option<real>)
    ensures alpha == Alpha(m)
  {
    if |m| == 0 {
      return Some(0.0);
    }
    var k := |m[0]|;
    if k < 2 {
      return Some(0.0);
    }
    var totalVariance := Variance(RowSums(m));
    if totalVariance == 0.0 {
      return Some(0.0);
    }
    var itemVariance := 0.0;
    var j := 0;
    while j < k
      invariant 0 <= j <= k
      invariant forall i :: 0 <= i < j ==> ColumnExists(m, i)
      invariant itemVariance == Sum(ItemVariances(m, j))
    {
      if !ColumnExists(m, j) {
        return None;
      }
      assert ItemVariances(m, j + 1)[..j] == ItemVariances(m, j);
      itemVariance := itemVariance + Variance(Column(m, j));
      j := j + 1;
    }
    return Some(Coefficient(k, itemVariance, totalVariance));
  }

  // ---- one row: the Cauchy-Schwarz step in its exact form ----

  lemma SquaresPrefix(xs: seq<real>, n: nat)
    requires |xs| == n + 1
    ensures Sum(Squares(xs)) == Sum(Squares(xs[..n])) + Times(xs[n], xs[n])
  {
    hide Times;
    assert Squares(xs)[..n] == Squares(xs[..n]);
  }

  lemma {:induction false} SquaresShift(d: seq<real>, c: real)
    ensures Sum(Squares(Centred(d, c)))
         == Sum(Squares(d)) - Times(2.0 * c, Sum(d)) + Times(|d| as real, Times(c, c))
  {
    if |d| == 0 {
      assert Centred(d, c) == d;
    } else {
      hide Times;
      var n := |d| - 1;
      SquaresShift(d[..n], c);
      assert Centred(d, c)[..n] == Centred(d[..n], c);
      SquaresPrefix(Centred(d, c), n);
      SquaresPrefix(d, n);
      ShiftStep(d[n], c, Sum(d[..n]), n as real);
    }
  }

  lemma ShiftStep(x: real, c: real, t: real, n: real)
    ensures Times(x - c, x - c) - Times(2.0 * c, t) + Times(n, Times(c, c))
         == Times(x, x) - Times(2.0 * c, t + x) + Times(n + 1.0, Times(c, c))
  {
    assert (x - c) * (x - c) == x * x - 2.0 * c * x + c * c;
  }

  lemma MeanTimes(xs: seq<real>)
    requires |xs| > 0
    ensures Sum(xs) == Times(|xs| as real, Mean(xs))
  {
  }

  lemma MeanUnique(xs: seq<real>, c: real)
    requires |xs| > 0 && Times(|xs| as real, c) == Sum(xs)
    ensures Mean(xs) == c
  {
  }

  /** k times the sum of squares exceeds the squared sum by k times the spread about the mean. */
  lemma RowIdentity(d: seq<real>)
    requires |d| > 0
    ensures Times(|d| as real, Sum(Squares(d))) - Times(Sum(d), Sum(d)) == Times(|d| as real, Spread(d))
  {
    hide Times, Mean, Sum, Squares;
    SquaresShift(d, Mean(d));
    MeanTimes(d);
    RowAlgebra(|d| as real, Sum(Squares(d)), Sum(d), Mean(d), Spread(d));
  }

  lemma RowAlgebra(k: real, q: real, t: real, c: real, spread: real)
    requires t == Times(k, c) && spread == q - Times(2.0 * c, t) + Times(k, Times(c, c))
    ensures Times(k, q) - Times(t, t) == Times(k, spread)
  {
    assert c * t == k * (c * c);
    assert t * t == k * (c * t);
  }

  lemma SquareNonneg(x: real)
    ensures Times(x, x) >= 0.0
  {
    assert x < 0.0 ==> (-x) * (-x) > 0.0;
  }

  lemma ProductZero(x: real, y: real)
    requires Times(x, y) == 0.0
    ensures x == 0.0 || y == 0.0
  {
  }

  lemma SquaresNonneg(xs: seq<real>)
    ensures forall i :: 0 <= i < |xs| ==> Squares(xs)[i] >= 0.0
    ensures Sum(Squares(xs)) >= 0.0
  {
    hide Times, Sum;
    forall i | 0 <= i < |xs| ensures Squares(xs)[i] >= 0.0 {
      SquareNonneg(xs[i]);
    }
    SumNonneg(Squares(xs));
  }

  /** The spread vanishes exactly on constant sequences. */
  lemma SpreadZeroIff(d: seq<real>)
    requires |d| > 0
    ensures Spread(d) == 0.0 <==> forall j, l :: 0 <= j < |d| && 0 <= l < |d| ==> d[j] == d[l]
  {
    hide Mean, Sum, Times;
    var centred := Centred(d, Mean(d));
    SquaresNonneg(centred);
    SumZeroIff(Squares(centred));
    if Spread(d) == 0.0 {
      forall j | 0 <= j < |d| ensures d[j] == Mean(d) {
        assert Squares(centred)[j] == 0.0;
        ProductZero(centred[j], centred[j]);
      }
    }
    if forall j, l :: 0 <= j < |d| && 0 <= l < |d| ==> d[j] == d[l] {
      SumConst(d, d[0]);
      MeanUnique(d, d[0]);
      forall j | 0 <= j < |d| ensures Squares(centred)[j] == 0.0 {
        assert centred[j] == 0.0;
        TimesZero(0.0);
      }
    }
  }

  // ---- swapping the order of summation ----

  lemma {:induction false} SwapSums(m: Matrix, k: nat)
    requires Rectangular(m, k)
    ensures Sum(RowSums(m)) == Sum(ColumnSums(m, k))
  {
    if |m| == 0 {
      SumConst(ColumnSums(m, k), 0.0);
    } else {
      var n := |m| - 1;
      var m' := m[..n];
      SwapSums(m', k);
      assert RowSums(m)[..n] == RowSums(m');
      forall j | 0 <= j < k ensures ColumnSums(m, k)[j] == ColumnSums(m', k)[j] + m[n][j] {
        assert Column(m, j)[..n] == Column(m', j);
      }
      SumAdd(ColumnSums(m', k), m[n], ColumnSums(m, k));
    }
  }

  // ---- from rows to variances ----

  function ColumnMeans(m: Matrix, k: nat): (c: seq<real>)
    requires |m| > 0 && Rectangular(m, k)
    ensures |c| == k
    ensures forall j :: 0 <= j < k ==> c[j] == Mean(Column(m, j))
  {
    seq(k, j requires 0 <= j < k => Mean(Column(m, j)))
  }

  /** Cell (i, j) minus the mean of column j. */
  function Deviation(m: Matrix, k: nat): (d: Matrix)
    requires |m| > 0 && Rectangular(m, k)
    ensures |d| == |m| && Rectangular(d, k)
    ensures forall i, j :: 0 <= i < |m| && 0 <= j < k ==> d[i][j] == m[i][j] - Mean(Column(m, j))
  {
    seq(|m|, i requires 0 <= i < |m| => seq(k, j requires 0 <= j < k => m[i][j] - Mean(Column(m, j))))
  }

  function CellSquares(m: Matrix): (q: Matrix)
    ensures |q| == |m|
    ensures forall i :: 0 <= i < |m| ==> q[i] == Squares(m[i])
  {
    seq(|m|, i requires 0 <= i < |m| => Squares(m[i]))
  }

  /** Spread of each row's deviations about their own mean. */
  function RowSpreads(m: Matrix, k: nat): (s: seq<real>)
    requires k > 0 && |m| > 0 && Rectangular(m, k)
    ensures |s| == |m|
    ensures forall i :: 0 <= i < |m| ==> s[i] == Spread(Deviation(m, k)[i])
  {
    seq(|m|, i requires 0 <= i < |m| => Spread(Deviation(m, k)[i]))
  }

  lemma MeanOfTotals(m: Matrix, k: nat)
    requires |m| > 0 && Rectangular(m, k)
    ensures Mean(RowSums(m)) == Sum(ColumnMeans(m, k))
  {
    hide Sum, Times, Mean;
    SwapSums(m, k);
    forall j | 0 <= j < k ensures ColumnSums(m, k)[j] == Times(|m| as real, ColumnMeans(m, k)[j]) {
      MeanTimes(Column(m, j));
    }
    SumScale(ColumnMeans(m, k), ColumnSums(m, k), |m| as real);
    MeanUnique(RowSums(m), Sum(ColumnMeans(m, k)));
  }

  /** A row total deviates from the mean total by the sum of the row's deviations. */
  lemma TotalsDeviate(m: Matrix, k: nat)
    requires |m| > 0 && Rectangular(m, k)
    ensures Centred(RowSums(m), Mean(RowSums(m))) == RowSums(Deviation(m, k))
  {
    hide Sum, Mean;
    MeanOfTotals(m, k);
    forall i | 0 <= i < |m|
      ensures Centred(RowSums(m), Mean(RowSums(m)))[i] == RowSums(Deviation(m, k))[i]
    {
      SumSub(m[i], ColumnMeans(m, k), Deviation(m, k)[i]);
    }
  }

  lemma VarianceTimes(xs: seq<real>)
    requires |xs| >= 2
    ensures Times((|xs| - 1) as real, Variance(xs)) == Spread(xs)
    ensures Variance(xs) >= 0.0
  {
    hide Sum, Mean;
    SquaresNonneg(Centred(xs, Mean(xs)));
  }

  /** Column variances, summed, are the sum of all squared deviations over n - 1. */
  lemma ItemVarianceTotal(m: Matrix, k: nat)
    requires |m| >= 2 && Rectangular(m, k)
    ensures Times((|m| - 1) as real, Sum(ItemVariances(m, k))) == Sum(RowSums(CellSquares(Deviation(m, k))))
  {
    hide Sum, Mean, Times, Variance;
    var q := CellSquares(Deviation(m, k));
    SwapSums(q, k);
    forall j | 0 <= j < k ensures ColumnSums(q, k)[j] == Times((|m| - 1) as real, ItemVariances(m, k)[j]) {
      assert Column(q, j) == Squares(Centred(Column(m, j), Mean(Column(m, j))));
      VarianceTimes(Column(m, j));
    }
    SumScale(ItemVariances(m, k), ColumnSums(q, k), (|m| - 1) as real);
  }

  /** k times the summed item variances is the variance of the totals plus the (scaled) row spreads. */
  lemma VarianceGap(m: Matrix, k: nat)
    requires |m| >= 2 && k > 0 && Rectangular(m, k)
    ensures Times((|m| - 1) as real, Times(k as real, Sum(ItemVariances(m, k))) - Variance(RowSums(m)))
         == Times(k as real, Sum(RowSpreads(m, k)))
  {
    hide Sum, Mean, Times, Variance;
    var d := Deviation(m, k);
    var kr := k as real;
    var squares := RowSums(CellSquares(d));
    TotalsDeviate(m, k);
    ItemVarianceTotal(m, k);
    VarianceTimes(RowSums(m));
    var kSquares := Scaled(squares, kr);
    var kSpreads := Scaled(RowSpreads(m, k), kr);
    forall i | 0 <= i < |m| ensures kSpreads[i] == kSquares[i] - Squares(RowSums(d))[i] {
      RowIdentity(d[i]);
    }
    SumScale(squares, kSquares, kr);
    SumSub(kSquares, Squares(RowSums(d)), kSpreads);
    SumScale(RowSpreads(m, k), kSpreads, kr);
    GapAlgebra((|m| - 1) as real, kr, Sum(ItemVariances(m, k)), Variance(RowSums(m)), Sum(squares), Spread(RowSums(m)));
  }

  lemma GapAlgebra(n: real, k: real, s: real, v: real, q: real, t: real)
    requires Times(n, s) == q && Times(n, v) == t
    ensures Times(n, Times(k, s) - v) == Times(k, q) - t
  {
    assert n * (k * s) == k * (n * s);
  }

  /** Every two samples differ by the same amount on every item. */
  ghost predicate Parallel(m: Matrix, k: nat)
    requires |m| > 0 && Rectangular(m, k)
  {
    forall i, j, l :: 0 <= i < |m| && 0 <= j < k && 0 <= l < k ==> Deviation(m, k)[i][j] == Deviation(m, k)[i][l]
  }

  lemma ParallelIff(m: Matrix, k: nat)
    requires k > 0 && |m| > 0 && Rectangular(m, k)
    ensures Sum(RowSpreads(m, k)) >= 0.0
    ensures Sum(RowSpreads(m, k)) == 0.0 <==> Parallel(m, k)
  {
    hide Sum, Mean, Times;
    var d := Deviation(m, k);
    forall i | 0 <= i < |m|
      ensures RowSpreads(m, k)[i] >= 0.0
      ensures RowSpreads(m, k)[i] == 0.0 <==> forall j, l :: 0 <= j < k && 0 <= l < k ==> d[i][j] == d[i][l]
    {
      SquaresNonneg(Centred(d[i], Mean(d[i])));
      SpreadZeroIff(d[i]);
    }
    SumNonneg(RowSpreads(m, k));
    SumZeroIff(RowSpreads(m, k));
  }

  lemma SpreadDecides(m: Matrix, k: nat)
    requires |m| >= 2 && k >= 2 && Rectangular(m, k)
    ensures Times(k as real, Sum(ItemVariances(m, k))) >= Variance(RowSums(m))
    ensures Times(k as real, Sum(ItemVariances(m, k))) == Variance(RowSums(m)) <==> Parallel(m, k)
  {
    hide Times, Variance, Sum, Parallel, ItemVariances, RowSpreads;
    VarianceGap(m, k);
    ParallelIff(m, k);
    GapSign((|m| - 1) as real, Times(k as real, Sum(ItemVariances(m, k))) - Variance(RowSums(m)),
            k as real, Sum(RowSpreads(m, k)));
  }

  lemma GapSign(n: real, gap: real, k: real, spread: real)
    requires n > 0.0 && k > 0.0 && spread >= 0.0 && Times(n, gap) == Times(k, spread)
    ensures gap >= 0.0 && (gap == 0.0 <==> spread == 0.0)
  {
    assert spread > 0.0 ==> k * spread > 0.0;
    assert gap < 0.0 ==> n * gap < 0.0;
  }

  lemma CoefficientBound(k: int, s: real, v: real)
    requires k >= 2 && v > 0.0 && Times(k as real, s) >= v
    ensures Coefficient(k, s, v) <= 1.0
    ensures Coefficient(k, s, v) == 1.0 <==> Times(k as real, s) == v
  {
    var kr := k as real;
    var a := Coefficient(k, s, v);
    var r := s / v;
    assert a * (kr - 1.0) == kr * (1.0 - r);
    assert kr * s == kr * r * v by { assert r * v == s; }
    Divide(kr * r - 1.0, v);
    assert (kr * r - 1.0) * v == kr * s - v;
    Divide(1.0 - a, kr - 1.0);
    assert (1.0 - a) * (kr - 1.0) == kr * r - 1.0;
  }

  lemma Divide(x: real, y: real)
    requires y > 0.0
    ensures x * y >= 0.0 <==> x >= 0.0
    ensures x * y == 0.0 <==> x == 0.0
  {
  }

  /** Alpha never exceeds one on a rectangular matrix, and is one exactly when the totals vary
      and the items are parallel. */
  lemma AlphaAtMostOne(m: Matrix, k: nat)
    requires |m| > 0 && k >= 2 && Rectangular(m, k)
    ensures Alpha(m).Some?
    ensures Alpha(m).value <= 1.0
    ensures Alpha(m).value == 1.0 <==> Variance(RowSums(m)) != 0.0 && Parallel(m, k)
  {
    hide Times, Coefficient, Spread, Parallel;
    if Variance(RowSums(m)) != 0.0 {
      VarianceTimes(RowSums(m));
      SpreadDecides(m, k);
      CoefficientBound(k, Sum(ItemVariances(m, k)), Variance(RowSums(m)));
    }
  }

  lemma CoefficientTimes(k: int, s: real, v: real)
    requires k >= 2 && v != 0.0
    ensures Times((k - 1) as real, Times(v, 1.0 - Coefficient(k, s, v))) == Times(k as real, s) - v
  {
    var n, kr, r := (k - 1) as real, k as real, s / v;
    var a := Coefficient(k, s, v);
    assert r * v == s;
    assert a * n == kr * (1.0 - r) by {
      var q := kr / n;
      assert q * n == kr;
      assert a == q * (1.0 - r);
    }
    assert (n * (1.0 - a)) * v == (n - kr + kr * r) * v;
    assert n * (v * (1.0 - a)) == (n * (1.0 - a)) * v;
    assert (kr * r) * v == kr * (r * v);
  }

  lemma ValueAlgebra(n: real, k: real, v: real, a: real, gap: real, spread: real, totals: real)
    requires Times(k, Times(v, 1.0 - a)) == gap && Times(n, gap) == spread && Times(n, v) == totals
    ensures Times(k, Times(totals, 1.0 - a)) == spread
  {
    assert k * (n * v * (1.0 - a)) == n * (k * (v * (1.0 - a)));
  }

  lemma TotalsVary(t: seq<real>)
    requires |t| >= 2
    ensures Variance(t) == 0.0 <==> Spread(t) == 0.0
  {
    VarianceTimes(t);
    hide Variance, Spread;
    TimesZero((|t| - 1) as real);
    if Spread(t) == 0.0 {
      ProductZero((|t| - 1) as real, Variance(t));
    }
  }

  ghost predicate AllEqual(t: seq<real>) {
    forall i, l :: 0 <= i < |t| && 0 <= l < |t| ==> t[i] == t[l]
  }

  lemma EqualTotals(t: seq<real>)
    requires |t| >= 2
    ensures AllEqual(t) <==> Variance(t) == 0.0
  {
    SpreadZeroIff(t);
    TotalsVary(t);
    hide Spread, Variance;
  }

  /** The value of alpha: zero when all totals are equal; otherwise k - 1 times the spread of the totals, times what
      alpha lacks to one, is k times the spread left within the rows of deviations. */
  lemma AlphaValue(m: Matrix, k: nat)
    requires |m| >= 2 && k >= 2 && Rectangular(m, k)
    ensures Alpha(m).Some?
    ensures AllEqual(RowSums(m)) ==> Alpha(m).value == 0.0
    ensures !AllEqual(RowSums(m)) ==>
      Times((k - 1) as real, Times(Spread(RowSums(m)), 1.0 - Alpha(m).value)) == Times(k as real, Sum(RowSpreads(m, k)))
  {
    hide *;
    AlphaOfRectangle(m, k);
    EqualTotals(RowSums(m));
    if Variance(RowSums(m)) != 0.0 {
      ValueOfVarying(m, k);
    }
  }

  lemma AlphaOfRectangle(m: Matrix, k: nat)
    requires |m| > 0 && k >= 2 && Rectangular(m, k)
    ensures
      var v := Variance(RowSums(m));
      Alpha(m) == Some(if v == 0.0 then 0.0 else Coefficient(k, Sum(ItemVariances(m, k)), v))
  {
    hide Variance, Sum, Coefficient;
  }

  lemma ValueOfVarying(m: Matrix, k: nat)
    requires |m| >= 2 && k >= 2 && Rectangular(m, k) && Variance(RowSums(m)) != 0.0
    ensures
      var a := Coefficient(k, Sum(ItemVariances(m, k)), Variance(RowSums(m)));
      Times((k - 1) as real, Times(Spread(RowSums(m)), 1.0 - a)) == Times(k as real, Sum(RowSpreads(m, k)))
  {
    VarianceTimes(RowSums(m));
    VarianceGap(m, k);
    hide *;
    var s, v := Sum(ItemVariances(m, k)), Variance(RowSums(m));
    CoefficientTimes(k, s, v);
    ValueAlgebra((|m| - 1) as real, (k - 1) as real, v, Coefficient(k, s, v), Times(k as real, s) - v,
                 Times(k as real, Sum(RowSpreads(m, k))), Spread(RowSums(m)));
  }

  // ---- reflecting every item ----

  /** `m` with every column j replaced by c[j] minus it, as a reversed scoring does. */
  function Reflected(m: Matrix, c: seq<real>): (r: Matrix)
    requires Rectangular(m, |c|)
    ensures |r| == |m| && Rectangular(r, |c|)
    ensures forall i, j :: 0 <= i < |m| && 0 <= j < |c| ==> r[i][j] == c[j] - m[i][j]
  {
    seq(|m|, i requires 0 <= i < |m| => seq(|c|, j requires 0 <= j < |c| => c[j] - m[i][j]))
  }

  lemma MeanReflects(xs: seq<real>, ys: seq<real>, c: real)
    requires |xs| == |ys| > 0
    requires forall i :: 0 <= i < |xs| ==> ys[i] == c - xs[i]
    ensures Mean(ys) == c - Mean(xs)
  {
    hide Sum, Mean;
    var cs := seq(|xs|, i requires 0 <= i < |xs| => c);
    SumConst(cs, c);
    SumSub(cs, xs, ys);
    MeanTimes(xs);
    MeanUnique(ys, c - Mean(xs));
  }

  lemma VarianceReflects(xs: seq<real>, ys: seq<real>, c: real)
    requires |xs| == |ys|
    requires forall i :: 0 <= i < |xs| ==> ys[i] == c - xs[i]
    ensures Variance(ys) == Variance(xs)
  {
    hide Sum, Mean, Times;
    if |xs| >= 2 {
      MeanReflects(xs, ys, c);
      var a, b := Centred(xs, Mean(xs)), Centred(ys, Mean(ys));
      forall i | 0 <= i < |xs| ensures Squares(b)[i] == Squares(a)[i] {
        assert b[i] == -a[i];
        TimesNegated(a[i]);
      }
      assert Squares(b) == Squares(a);
    }
  }

  lemma TimesNegated(x: real)
    ensures Times(-x, -x) == Times(x, x)
  {
  }

  /** Reflecting every item at once leaves alpha unchanged. */
  lemma AlphaReflects(m: Matrix, c: seq<real>)
    requires |m| > 0 && Rectangular(m, |c|)
    ensures Alpha(Reflected(m, c)) == Alpha(m)
  {
    hide Sum, Variance, Coefficient;
    var k := |c|;
    var r := Reflected(m, c);
    forall i | 0 <= i < |m| ensures RowSums(r)[i] == Sum(c) - RowSums(m)[i] {
      SumSub(c, m[i], r[i]);
    }
    VarianceReflects(RowSums(m), RowSums(r), Sum(c));
    forall j | 0 <= j < k ensures ItemVariances(r, k)[j] == ItemVariances(m, k)[j] {
      VarianceReflects(Column(m, j), Column(r, j), c[j]);
    }
    assert ItemVariances(r, k) == ItemVariances(m, k);
  }

  // ---- which row lengths keep alpha at most one ----

  ghost predicate HasShape(m: Matrix, shape: seq<nat>) {
    |m| == |shape| && forall i :: 0 <= i < |m| ==> |m[i]| == shape[i]
  }

  ghost predicate AtMostOne(alpha: Option<real>) {
    alpha.Some? ==> alpha.value <= 1.0
  }

  /** Some row is shorter than the first, or none is longer. */
  predicate BoundedShape(shape: seq<nat>)
    requires |shape| > 0
  {
    (exists i :: 0 <= i < |shape| && shape[i] < shape[0]) || forall i :: 0 <= i < |shape| ==> shape[i] <= shape[0]
  }

  /** Zeros everywhere but for a one in row r, column k. */
  function LoneCell(shape: seq<nat>, r: nat, k: nat): (m: Matrix)
    ensures HasShape(m, shape)
    ensures forall i, j :: 0 <= i < |shape| && 0 <= j < shape[i] ==> m[i][j] == if i == r && j == k then 1.0 else 0.0
  {
    seq(|shape|, i requires 0 <= i < |shape| => seq(shape[i], j requires 0 <= j < shape[i] => if i == r && j == k then 1.0 else 0.0))
  }

  lemma LoneCellSums(shape: seq<nat>, r: nat, k: nat)
    requires r < |shape| && k < shape[r]
    ensures forall i :: 0 <= i < |shape| ==> RowSums(LoneCell(shape, r, k))[i] == if i == r then 1.0 else 0.0
  {
    var m := LoneCell(shape, r, k);
    hide Sum, LoneCell;
    forall i | 0 <= i < |shape| ensures Sum(m[i]) == if i == r then 1.0 else 0.0 {
      if i == r {
        SumLone(m[i], k);
      } else {
        SumConst(m[i], 0.0);
        TimesZero(|m[i]| as real);
      }
    }
  }

  lemma ConstantVariance(xs: seq<real>, c: real)
    requires forall i :: 0 <= i < |xs| ==> xs[i] == c
    ensures Variance(xs) == 0.0
  {
    if |xs| >= 2 {
      SpreadZeroIff(xs);
    }
  }

  lemma NoItemVariance(m: Matrix, k: nat)
    requires forall j :: 0 <= j < k ==> ColumnExists(m, j)
    requires forall i, j :: 0 <= i < |m| && 0 <= j < k && j < |m[i]| ==> m[i][j] == 0.0
    ensures Sum(ItemVariances(m, k)) == 0.0
  {
    hide Variance, Sum;
    forall j | 0 <= j < k ensures ItemVariances(m, k)[j] == 0.0 {
      ConstantVariance(Column(m, j), 0.0);
    }
    SumConst(ItemVariances(m, k), 0.0);
    TimesZero(k as real);
  }

  /** A cell beyond the first row's length counts in its row's total but in no item. */
  lemma LoneCellExceedsOne(shape: seq<nat>, r: nat)
    requires 0 < r < |shape| && 2 <= shape[0] < shape[r] && forall i :: 0 <= i < |shape| ==> shape[0] <= shape[i]
    ensures
      var k := shape[0];
      Alpha(LoneCell(shape, r, k)) == Some(k as real / (k - 1) as real)
  {
    var k := shape[0];
    var m := LoneCell(shape, r, k);
    LoneCellSums(shape, r, k);
    SpreadZeroIff(RowSums(m));
    VarianceTimes(RowSums(m));
    assert RowSums(m)[0] != RowSums(m)[r];
    TimesZero((|m| - 1) as real);
    NoItemVariance(m, k);
    hide Sum, Spread, Variance, Times, LoneCell;
    assert Coefficient(k, 0.0, Variance(RowSums(m))) == k as real / (k - 1) as real * (1.0 - 0.0);
  }

  lemma ShortRowGivesNoAlpha(m: Matrix, i: nat)
    requires i < |m| && |m[i]| < |m[0]|
    ensures Alpha(m) in {None, Some(0.0)}
  {
    assert !ColumnExists(m, |m[i]|);
  }

  /** With at least two rows, the first of length at least two, alpha is at most one for every matrix with these row
      lengths exactly when none is longer than the first or, so that there is no alpha but zero, some is shorter. */
  lemma AlphaAtMostOneIff(shape: seq<nat>)
    requires |shape| >= 2 && shape[0] >= 2
    ensures (forall m: Matrix :: HasShape(m, shape) ==> AtMostOne(Alpha(m))) <==> BoundedShape(shape)
  {
    hide Alpha;
    if BoundedShape(shape) {
      forall m: Matrix | HasShape(m, shape) ensures AtMostOne(Alpha(m)) {
        if i :| 0 <= i < |shape| && shape[i] < shape[0] {
          ShortRowGivesNoAlpha(m, i);
        } else {
          AlphaAtMostOne(m, shape[0]);
        }
      }
    } else {
      var r :| 0 <= r < |shape| && shape[r] > shape[0];
      var k := shape[0];
      LoneCellExceedsOne(shape, r);
      assert k as real / (k - 1) as real > 1.0;
      assert HasShape(LoneCell(shape, r, k), shape);
      assert !AtMostOne(Alpha(LoneCell(shape, r, k)));
    }
  }
}
