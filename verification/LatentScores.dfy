/** From a target alpha to the correlation of items, from a latent value to an option, and the correlation of
    two lists. Square root and normal quantile are any functions with the properties that are asked for. */
module LatentScores {
  import opened Sums
  import opened CronbachAlpha

  // ---- options from latent values ----

  function Bins(optionCount: int): (m: int)
    ensures 2 <= m <= 50
  {
    if optionCount < 2 then 2 else if optionCount > 50 then 50 else optionCount
  }

  /** The quantile grows with its argument. */
  ghost predicate Rising(quantile: real -> real) {
    forall p, q :: p <= q ==> quantile(p) <= quantile(q)
  }

  /** The j-th of m - 1 cuts between m equally likely options. */
  function Cut(quantile: real -> real, m: int, j: int): real
    requires m > 0
  {
    quantile(j as real / m as real)
  }

  method ZToCategory(z: real, optionCount: int, quantile: real -> real) returns (c: int)
    ensures InBin(z, if optionCount < 2 then 2 else if optionCount > 50 then 50 else optionCount, c, quantile)
  {
    var m := Bins(optionCount);
    for j := 1 to m
      invariant j > 1 ==> z > Cut(quantile, m, j - 1)
    {
      if z <= Cut(quantile, m, j) {
        return j - 1;
      }
    }
    return m - 1;
  }

  /** Option c is the one between whose cuts the value lies. */
  ghost predicate InBin(z: real, m: int, c: int, quantile: real -> real)
    requires m > 0
  {
    && 0 <= c < m
    && (c > 0 ==> z > quantile(c as real / m as real))
    && (c < m - 1 ==> z <= quantile((c + 1) as real / m as real))
  }

  lemma CutsRise(quantile: real -> real, m: int, i: int, j: int)
    requires Rising(quantile) && m > 0 && i <= j
    ensures Cut(quantile, m, i) <= Cut(quantile, m, j)
  {
    assert i as real / m as real <= j as real / m as real;
  }

  /** There is only one such option, and a higher value never lies in a lower one. */
  lemma BinsAreOrdered(z: real, y: real, m: int, c: int, d: int, quantile: real -> real)
    requires Rising(quantile) && m > 0 && z <= y && InBin(z, m, c, quantile) && InBin(y, m, d, quantile)
    ensures c <= d
    ensures z == y ==> c == d
  {
    if d < c {
      CutsRise(quantile, m, d + 1, c);
    }
    if c < d && z == y {
      CutsRise(quantile, m, c + 1, d);
    }
  }

  // ---- correlation from alpha ----

  const LOWEST_RHO := 0.000001
  const HIGHEST_RHO := 0.999999

  function Rho(alpha: real, k: int): real {
    if !(0.0 < alpha < 1.0) || k < 2 then 0.2
    else
      var denominator := k as real - Times(alpha, (k - 1) as real);
      if denominator <= 0.0 then 0.2
      else
        var rho := alpha / denominator;
        if rho < LOWEST_RHO then LOWEST_RHO else if rho > HIGHEST_RHO then HIGHEST_RHO else rho
  }

  /** The alpha of k items whose correlations are all `rho`. */
  function AlphaOf(rho: real, k: int): real
    requires k >= 2 && rho > 0.0
  {
    AlphaPositive(rho, k);
    Times(k as real, rho) / (1.0 + Times((k - 1) as real, rho))
  }

  lemma AlphaPositive(rho: real, k: int)
    requires k >= 2 && rho > 0.0
    ensures 1.0 + Times((k - 1) as real, rho) > 0.0
  {
  }

  lemma LessThanWhole(alpha: real, n: real)
    requires 0.0 < alpha < 1.0 && n > 0.0
    ensures Times(alpha, n) <= n
  {
  }

  lemma DenominatorPositive(alpha: real, k: int)
    requires 0.0 < alpha < 1.0 && k >= 2
    ensures k as real - Times(alpha, (k - 1) as real) >= 1.0
  {
    LessThanWhole(alpha, (k - 1) as real);
  }

  lemma RhoRoundTrip(alpha: real, k: real, denominator: real, rho: real)
    requires 0.0 < alpha < 1.0 && k >= 2.0 && denominator == k - Times(alpha, k - 1.0) && denominator > 0.0 && rho == alpha / denominator
    ensures Times(k, rho) == Times(alpha, 1.0 + Times(k - 1.0, rho))
  {
    assert rho * denominator == alpha;
    assert rho * k - rho * (alpha * (k - 1.0)) == alpha;
    assert alpha * (1.0 + (k - 1.0) * rho) == alpha + alpha * ((k - 1.0) * rho);
    assert rho * (alpha * (k - 1.0)) == alpha * ((k - 1.0) * rho);
  }

  /** Two correlations with the same alpha are the same. */
  lemma AlphaDecidesRho(alpha: real, k: real, r: real, s: real)
    requires k >= 2.0 && 0.0 < alpha < 1.0
    requires Times(k, r) == Times(alpha, 1.0 + Times(k - 1.0, r)) && Times(k, s) == Times(alpha, 1.0 + Times(k - 1.0, s))
    ensures r == s
  {
    var d := k - alpha * (k - 1.0);
    LessThanWhole(alpha, k - 1.0);
    assert d > 0.0;
    assert r * d == alpha && s * d == alpha;
    assert (r - s) * d == 0.0;
  }

  /** The correlation computed from a target alpha brings that alpha about, exactly when it needs no clamping;
      for a target strictly between 0 and 1 and at least two items the last fallback is never taken. */
  lemma RhoBringsAlphaAboutIff(alpha: real, k: int)
    requires 0.0 < alpha < 1.0 && k >= 2
    ensures
      var denominator := k as real - Times(alpha, (k - 1) as real);
      && denominator > 0.0 && Rho(alpha, k) > 0.0
      && (AlphaOf(Rho(alpha, k), k) == alpha <==> 0.000001 <= alpha / denominator <= 0.999999)
      && (alpha / denominator < 0.000001 ==> Rho(alpha, k) == 0.000001)
      && (alpha / denominator > 0.999999 ==> Rho(alpha, k) == 0.999999)
  {
    var denominator := k as real - Times(alpha, (k - 1) as real);
    DenominatorPositive(alpha, k);
    var exact, rho := alpha / denominator, Rho(alpha, k);
    assert k as real - 1.0 == (k - 1) as real;
    RhoRoundTrip(alpha, k as real, denominator, exact);
    AlphaPositive(rho, k);
    QuotientIs(Times(k as real, rho), 1.0 + Times((k - 1) as real, rho), alpha);
    if AlphaOf(rho, k) == alpha {
      hide Rho;
      AlphaDecidesRho(alpha, k as real, rho, exact);
    }
  }

  lemma QuotientIs(x: real, y: real, q: real)
    requires y > 0.0
    ensures x / y == q <==> x == Times(q, y)
  {
  }

  // ---- correlation of two lists ----

  function Products(a: seq<real>, b: seq<real>): (p: seq<real>)
    requires |a| == |b|
    ensures |p| == |a| && forall i {:trigger p[i]} :: 0 <= i < |a| ==> p[i] == Times(a[i], b[i])
  {
    seq(|a|, i requires 0 <= i < |a| => Times(a[i], b[i]))
  }

  ghost predicate IsRoot(sqrt: real -> real) {
    forall x {:trigger sqrt(x)} :: x >= 0.0 ==> sqrt(x) >= 0.0 && Times(sqrt(x), sqrt(x)) == x
  }

  function Correlation(xs: seq<real>, ys: seq<real>, sqrt: real -> real): real {
    if |xs| != |ys| || |xs| < 2 then 0.0
    else
      var a, b := Centred(xs, Mean(xs)), Centred(ys, Mean(ys));
      var den := sqrt(Times(Sum(Squares(a)), Sum(Squares(b))));
      if den != 0.0 then Sum(Products(a, b)) / den else 0.0
  }

  /** The sums up to position i, and one step further. */
  lemma MomentStep(xs: seq<real>, ys: seq<real>, mx: real, my: real, i: nat)
    requires |xs| == |ys| && i < |xs|
    ensures
      var p, a, b := Products(Centred(xs, mx), Centred(ys, my)), Squares(Centred(xs, mx)), Squares(Centred(ys, my));
      && Sum(p[..i + 1]) == Sum(p[..i]) + Times(xs[i] - mx, ys[i] - my)
      && Sum(a[..i + 1]) == Sum(a[..i]) + Times(xs[i] - mx, xs[i] - mx)
      && Sum(b[..i + 1]) == Sum(b[..i]) + Times(ys[i] - my, ys[i] - my)
  {
    SumStep(Products(Centred(xs, mx), Centred(ys, my)), i);
    SumStep(Squares(Centred(xs, mx)), i);
    SumStep(Squares(Centred(ys, my)), i);
    hide Times, Sum;
  }

  lemma EmptySum(xs: seq<real>)
    ensures Sum(xs[..0]) == 0.0 && Sum(xs[..|xs|]) == Sum(xs)
  {
    SumWhole(xs);
  }

  method CoMoments(xs: seq<real>, ys: seq<real>, mx: real, my: real) returns (num: real, dx: real, dy: real)
    requires |xs| == |ys|
    ensures num == Sum(Products(Centred(xs, mx), Centred(ys, my)))
    ensures dx == Sum(Squares(Centred(xs, mx))) && dy == Sum(Squares(Centred(ys, my)))
  {
    hide *;
    ghost var p, a, b := Products(Centred(xs, mx), Centred(ys, my)), Squares(Centred(xs, mx)), Squares(Centred(ys, my));
    EmptySum(p);
    EmptySum(a);
    EmptySum(b);
    num, dx, dy := 0.0, 0.0, 0.0;
    for i := 0 to |xs|
      invariant num == Sum(p[..i]) && dx == Sum(a[..i]) && dy == Sum(b[..i])
    {
      MomentStep(xs, ys, mx, my, i);
      var u, v := xs[i] - mx, ys[i] - my;
      num := num + Times(u, v);
      dx := dx + Times(u, u);
      dy := dy + Times(v, v);
    }
  }

  method ComputeCorrelation(xs: seq<real>, ys: seq<real>, sqrt: real -> real) returns (r: real)
    ensures r == Correlation(xs, ys, sqrt)
  {
    if |xs| != |ys| || |xs| < 2 {
      return 0.0;
    }
    hide Times, Mean, Sum, Products, Squares, Centred;
    var num, dx, dy := CoMoments(xs, ys, Mean(xs), Mean(ys));
    var den := sqrt(Times(dx, dy));
    return if den != 0.0 then num / den else 0.0;
  }

  lemma {:induction false} SquareOfDifference(a: seq<real>, b: seq<real>, e: seq<real>, t: real)
    requires |a| == |b| == |e| && forall i :: 0 <= i < |a| ==> e[i] == a[i] - Times(t, b[i])
    ensures Sum(Squares(e)) == Sum(Squares(a)) - 2.0 * Times(t, Sum(Products(a, b))) + Times(Times(t, t), Sum(Squares(b)))
  {
    if |a| > 0 {
      var n := |a| - 1;
      SquareOfDifference(a[..n], b[..n], e[..n], t);
      assert Squares(e)[..n] == Squares(e[..n]) && Squares(a)[..n] == Squares(a[..n]);
      assert Squares(b)[..n] == Squares(b[..n]) && Products(a, b)[..n] == Products(a[..n], b[..n]);
      OneDifference(a[n], b[n], t);
      AddTimes(t, Sum(Products(a[..n], b[..n])), Times(a[n], b[n]));
      AddTimes(Times(t, t), Sum(Squares(b[..n])), Times(b[n], b[n]));
      hide Times;
    } else {
      TimesZero(t);
      TimesZero(Times(t, t));
    }
  }

  lemma OneDifference(a: real, b: real, t: real)
    ensures Times(a - Times(t, b), a - Times(t, b)) == Times(a, a) - 2.0 * Times(t, Times(a, b)) + Times(Times(t, t), Times(b, b))
  {
    var u := t * b;
    assert (a - u) * (a - u) == a * a - 2.0 * (a * u) + u * u;
    assert a * u == t * (a * b);
    assert u * u == (t * t) * (b * b);
  }

  lemma AddTimes(t: real, x: real, y: real)
    ensures Times(t, x + y) == Times(t, x) + Times(t, y)
  {
  }

  lemma {:induction false} ProductsVanish(a: seq<real>, b: seq<real>)
    requires |a| == |b| && forall i :: 0 <= i < |b| ==> b[i] == 0.0
    ensures Sum(Products(a, b)) == 0.0
  {
    if |a| > 0 {
      var n := |a| - 1;
      ProductsVanish(a[..n], b[..n]);
      assert Products(a, b)[..n] == Products(a[..n], b[..n]);
    }
  }

  lemma Discriminant(aa: real, ab: real, bb: real)
    requires bb > 0.0 && aa - 2.0 * Times(ab / bb, ab) + Times(Times(ab / bb, ab / bb), bb) >= 0.0
    ensures Times(ab, ab) <= Times(aa, bb)
  {
    var t := ab / bb;
    assert t * bb == ab;
    assert (t * t) * bb == t * (t * bb) == t * ab;
    assert aa - t * ab >= 0.0;
    assert (aa - t * ab) * bb >= 0.0;
    assert (t * ab) * bb == ab * (t * bb) == ab * ab;
    assert (aa - t * ab) * bb == aa * bb - (t * ab) * bb;
  }

  /** The Cauchy-Schwarz inequality. */
  lemma ProductsBounded(a: seq<real>, b: seq<real>)
    requires |a| == |b|
    ensures Sum(Squares(a)) >= 0.0 && Sum(Squares(b)) >= 0.0
    ensures Times(Sum(Products(a, b)), Sum(Products(a, b))) <= Times(Sum(Squares(a)), Sum(Squares(b)))
  {
    SquaresNonneg(a);
    SquaresNonneg(b);
    hide Times, Sum, Squares, Products;
    if Sum(Squares(b)) > 0.0 {
      BoundedByDiscriminant(a, b);
    } else {
      BoundedByNothing(a, b);
    }
  }

  lemma BoundedByDiscriminant(a: seq<real>, b: seq<real>)
    requires |a| == |b| && Sum(Squares(b)) > 0.0
    ensures Times(Sum(Products(a, b)), Sum(Products(a, b))) <= Times(Sum(Squares(a)), Sum(Squares(b)))
  {
    hide Times, Sum;
    var t := Sum(Products(a, b)) / Sum(Squares(b));
    var e := seq(|a|, i requires 0 <= i < |a| => a[i] - Times(t, b[i]));
    SquareOfDifference(a, b, e, t);
    SquaresNonneg(e);
    Discriminant(Sum(Squares(a)), Sum(Products(a, b)), Sum(Squares(b)));
  }

  lemma BoundedByNothing(a: seq<real>, b: seq<real>)
    requires |a| == |b| && Sum(Squares(b)) <= 0.0
    ensures Times(Sum(Products(a, b)), Sum(Products(a, b))) <= Times(Sum(Squares(a)), Sum(Squares(b)))
  {
    hide Times, Sum;
    SquaresNonneg(b);
    SumZeroIff(Squares(b));
    forall i | 0 <= i < |b| ensures b[i] == 0.0 {
      assert Squares(b)[i] == 0.0;
      ProductZero(b[i], b[i]);
    }
    ProductsVanish(a, b);
    TimesZero(0.0);
    TimesZero(Sum(Squares(a)));
  }

  lemma SquaresGrow(x: real, y: real)
    requires 0.0 < x < y
    ensures Times(x, x) < Times(y, y) == Times(-y, -y)
  {
  }

  lemma RootBound(num: real, den: real)
    requires den > 0.0 && Times(num, num) <= Times(den, den)
    ensures -1.0 <= num / den <= 1.0
  {
    if num > den {
      SquaresGrow(den, num);
    }
    if -num > den {
      SquaresGrow(den, -num);
    }
  }

  /** A correlation lies between -1 and 1. */
  lemma CorrelationIsBounded(xs: seq<real>, ys: seq<real>, sqrt: real -> real)
    requires IsRoot(sqrt)
    ensures -1.0 <= Correlation(xs, ys, sqrt) <= 1.0
  {
    if |xs| == |ys| >= 2 {
      var a, b := Centred(xs, Mean(xs)), Centred(ys, Mean(ys));
      ProductsBounded(a, b);
      TimesNonneg(Sum(Squares(a)), Sum(Squares(b)));
      var den := sqrt(Times(Sum(Squares(a)), Sum(Squares(b))));
      hide Times, Sum;
      if den != 0.0 {
        RootBound(Sum(Products(a, b)), den);
      }
    }
  }

  // ---- what a correlation is ----

  /** n times the sum of products, minus the product of the sums. */
  function CoMoment(xs: seq<real>, ys: seq<real>): real
    requires |xs| == |ys|
  {
    Times(|xs| as real, Sum(Products(xs, ys))) - Times(Sum(xs), Sum(ys))
  }

  lemma {:induction false} ProductsShift(xs: seq<real>, ys: seq<real>, c: real, d: real)
    requires |xs| == |ys|
    ensures Sum(Products(Centred(xs, c), Centred(ys, d)))
         == Sum(Products(xs, ys)) - Times(d, Sum(xs)) - Times(c, Sum(ys)) + Times(|xs| as real, Times(c, d))
  {
    if |xs| > 0 {
      var n := |xs| - 1;
      ProductsShift(xs[..n], ys[..n], c, d);
      assert Products(Centred(xs, c), Centred(ys, d))[..n] == Products(Centred(xs[..n], c), Centred(ys[..n], d));
      assert Products(xs, ys)[..n] == Products(xs[..n], ys[..n]);
      OneShift(xs[n], ys[n], c, d, Sum(xs[..n]), Sum(ys[..n]), n as real);
      hide Times;
    } else {
      TimesZero(c);
      TimesZero(d);
      TimesZero(Times(c, d));
    }
  }

  lemma OneShift(x: real, y: real, c: real, d: real, s: real, t: real, n: real)
    ensures Times(x - c, y - d) - Times(d, s) - Times(c, t) + Times(n, Times(c, d))
         == Times(x, y) - Times(d, s + x) - Times(c, t + y) + Times(n + 1.0, Times(c, d))
  {
  }

  /** The sum of products about the means, n times over. */
  lemma CentredMoment(xs: seq<real>, ys: seq<real>)
    requires |xs| == |ys| > 0
    ensures Times(|xs| as real, Sum(Products(Centred(xs, Mean(xs)), Centred(ys, Mean(ys))))) == CoMoment(xs, ys)
  {
    ProductsShift(xs, ys, Mean(xs), Mean(ys));
    MeanTimes(xs);
    MeanTimes(ys);
    hide Sum, Mean, Products;
    MomentAlgebra(|xs| as real, Sum(Products(xs, ys)), Mean(xs), Mean(ys));
  }

  lemma MomentAlgebra(n: real, p: real, c: real, d: real)
    ensures Times(n, p - Times(d, Times(n, c)) - Times(c, Times(n, d)) + Times(n, Times(c, d)))
         == Times(n, p) - Times(Times(n, c), Times(n, d))
  {
    assert d * (n * c) == n * (c * d) == c * (n * d);
    assert n * (p - n * (c * d)) == n * p - n * (n * (c * d));
    assert (n * c) * (n * d) == n * (n * (c * d));
  }

  lemma SquaresAreProducts(a: seq<real>)
    ensures Products(a, a) == Squares(a)
  {
  }

  lemma RootOfSquare(sqrt: real -> real, x: real, y: real)
    requires IsRoot(sqrt) && x >= 0.0 && y >= 0.0
    ensures Times(x, y) >= 0.0 && sqrt(Times(x, y)) >= 0.0
    ensures Times(sqrt(Times(x, y)), sqrt(Times(x, y))) == Times(x, y)
    ensures sqrt(Times(x, y)) == 0.0 <==> Times(x, y) == 0.0
  {
    TimesNonneg(x, y);
    var r := sqrt(Times(x, y));
    assert Times(r, r) == Times(x, y);
    if Times(x, y) == 0.0 {
      ProductZero(r, r);
    }
  }

  lemma QuotientSquared(p: real, a: real, b: real, den: real)
    requires den > 0.0 && Times(den, den) == Times(a, b)
    ensures Times(Times(p / den, p / den), Times(a, b)) == Times(p, p)
    ensures Times(p / den, p) >= 0.0
  {
    var r := p / den;
    assert r * den == p;
    assert (r * r) * (den * den) == (r * den) * (r * den);
    assert r * p == (r * r) * den;
    assert r * r >= 0.0;
  }

  /** From sums about the means to n times them, on every side. */
  lemma ScaleUp(n: real, r: real, p: real, a: real, b: real)
    requires n > 0.0 && Times(Times(r, r), Times(a, b)) == Times(p, p) && Times(r, p) >= 0.0
    ensures Times(Times(r, r), Times(Times(n, a), Times(n, b))) == Times(Times(n, p), Times(n, p))
    ensures Times(r, Times(n, p)) >= 0.0
  {
    assert (n * a) * (n * b) == (n * n) * (a * b);
    assert (r * r) * ((n * n) * (a * b)) == (n * n) * ((r * r) * (a * b));
    assert (n * p) * (n * p) == (n * n) * (p * p);
    assert r * (n * p) == n * (r * p);
  }

  lemma ScaledZero(n: real, a: real, b: real)
    requires n > 0.0
    ensures Times(a, b) == 0.0 <==> Times(Times(n, a), Times(n, b)) == 0.0
  {
    var w, z := Times(n, n), Times(a, b);
    SquaresGrow(n / 2.0, n);
    SquareNonneg(n / 2.0);
    assert (n * a) * (n * b) == (n * n) * (a * b);
    assert Times(Times(n, a), Times(n, b)) == Times(w, z);
    TimesZero(w);
    hide Times;
    if Times(w, z) == 0.0 {
      ProductZero(w, z);
    }
  }

  /** What a correlation is, without means: zero unless both lists vary; otherwise its square times both moments
      is the square of the co-moment, and it has the sign of the co-moment. */
  lemma CorrelationValue(xs: seq<real>, ys: seq<real>, sqrt: real -> real)
    requires IsRoot(sqrt) && |xs| == |ys| >= 2
    ensures
      var r, xx, yy, xy := Correlation(xs, ys, sqrt), CoMoment(xs, xs), CoMoment(ys, ys), CoMoment(xs, ys);
      if Times(xx, yy) == 0.0 then r == 0.0
      else Times(Times(r, r), Times(xx, yy)) == Times(xy, xy) && Times(r, xy) >= 0.0
  {
    var a, b := Centred(xs, Mean(xs)), Centred(ys, Mean(ys));
    CentredMoment(xs, xs);
    CentredMoment(ys, ys);
    CentredMoment(xs, ys);
    SquaresAreProducts(a);
    SquaresAreProducts(b);
    SquaresNonneg(a);
    SquaresNonneg(b);
    hide Times, Sum, Mean, Products, Squares, CoMoment;
    var p, aa, bb := Sum(Products(a, b)), Sum(Squares(a)), Sum(Squares(b));
    RootOfSquare(sqrt, aa, bb);
    ScaledZero(|xs| as real, aa, bb);
    if Times(aa, bb) != 0.0 {
      var den := sqrt(Times(aa, bb));
      QuotientSquared(p, aa, bb, den);
      ScaleUp(|xs| as real, p / den, p, aa, bb);
    }
  }

  lemma CentredTwice(xs: seq<real>, c: real)
    requires |xs| > 0
    ensures Centred(Centred(xs, c), Mean(Centred(xs, c))) == Centred(xs, Mean(xs))
  {
    var ys := Centred(xs, c);
    var cs := seq(|xs|, i requires 0 <= i < |xs| => c);
    SumConst(cs, c);
    SumSub(xs, cs, ys);
    MeanTimes(xs);
    hide Sum, Mean;
    AddTimes(|xs| as real, Mean(xs), -c);
    NegatedTimes(|xs| as real, c);
    hide Times;
    MeanUnique(ys, Mean(xs) - c);
  }

  lemma NegatedTimes(n: real, c: real)
    ensures Times(n, -c) == -Times(n, c)
  {
  }

  /** Shifting a list by a constant leaves a correlation unchanged. */
  lemma CorrelationShifts(xs: seq<real>, ys: seq<real>, c: real, d: real, sqrt: real -> real)
    ensures Correlation(Centred(xs, c), Centred(ys, d), sqrt) == Correlation(xs, ys, sqrt)
  {
    if |xs| == |ys| >= 2 {
      CentredTwice(xs, c);
      CentredTwice(ys, d);
      hide Mean, Sum, Times;
    }
  }

  /** A list that varies correlates fully with itself. */
  lemma SelfCorrelation(xs: seq<real>, sqrt: real -> real, i: nat, j: nat)
    requires IsRoot(sqrt) && i < |xs| && j < |xs| && xs[i] != xs[j]
    ensures Correlation(xs, xs, sqrt) == 1.0
  {
    var a := Centred(xs, Mean(xs));
    SpreadZeroIff(xs);
    SquaresNonneg(a);
    SquaresAreProducts(a);
    var x := Sum(Squares(a));
    assert x > 0.0;
    hide Mean, Sum, Squares, Products;
    RootOfSquare(sqrt, x, x);
    var r := sqrt(Times(x, x));
    SquaresGrow(x / 2.0, x);
    SquareNonneg(x / 2.0);
    hide Times;
    if r < x {
      SquaresGrow(r, x);
    } else if r > x {
      SquaresGrow(x, r);
    }
    assert r == x && x / x == 1.0;
  }
}
