/** Finite sums of exact reals and of integers, stated over sequences so that they line up with the
    `sum(...)` calls and accumulating loops of the program. */
module Sums {

  /** The product, under a name that a proof can hide: with several products of variables in
      view at once the solver's nonlinear arithmetic does not come to an end. */
  function Times(x: real, y: real): real {
    x * y
  }

  lemma TimesZero(x: real)
    ensures Times(x, 0.0) == 0.0 && Times(0.0, x) == 0.0
  {
  }

  lemma TimesUnit(x: real)
    ensures Times(x, 1.0) == x
  {
  }

  lemma TimesNonneg(x: real, y: real)
    requires x >= 0.0 && y >= 0.0
    ensures Times(x, y) >= 0.0
  {
  }

  lemma TimesMonotone(n: real, x: real, y: real)
    requires n >= 0.0 && x <= y
    ensures Times(n, x) <= Times(n, y)
    ensures n > 0.0 && x < y ==> Times(n, x) < Times(n, y)
  {
  }

  function Sum(xs: seq<real>): real {
    if |xs| == 0 then 0.0 else Sum(xs[..|xs| - 1]) + xs[|xs| - 1]
  }

  /** One step of a left-to-right accumulation. */
  lemma SumStep(xs: seq<real>, i: nat)
    requires i < |xs|
    ensures Sum(xs[..i + 1]) == Sum(xs[..i]) + xs[i]
  {
    assert xs[..i + 1][..i] == xs[..i];
  }

  lemma SumSnoc(xs: seq<real>, x: real)
    ensures Sum(xs + [x]) == Sum(xs) + x
  {
    assert (xs + [x])[..|xs|] == xs;
  }

  lemma SumWhole(xs: seq<real>)
    ensures Sum(xs[..|xs|]) == Sum(xs)
  {
    assert xs[..|xs|] == xs;
  }

  lemma {:induction false} SumAdd(xs: seq<real>, ys: seq<real>, zs: seq<real>)
    requires |xs| == |ys| == |zs|
    requires forall i :: 0 <= i < |xs| ==> zs[i] == xs[i] + ys[i]
    ensures Sum(zs) == Sum(xs) + Sum(ys)
  {
    if |xs| > 0 {
      var n := |xs| - 1;
      SumAdd(xs[..n], ys[..n], zs[..n]);
    }
  }

  lemma SumSub(xs: seq<real>, ys: seq<real>, zs: seq<real>)
    requires |xs| == |ys| == |zs|
    requires forall i :: 0 <= i < |xs| ==> zs[i] == xs[i] - ys[i]
    ensures Sum(zs) == Sum(xs) - Sum(ys)
  {
    SumAdd(zs, ys, xs);
  }

  lemma {:induction false} SumScale(xs: seq<real>, zs: seq<real>, a: real)
    requires |xs| == |zs|
    requires forall i :: 0 <= i < |xs| ==> zs[i] == Times(a, xs[i])
    ensures Sum(zs) == Times(a, Sum(xs))
  {
    if |xs| > 0 {
      var n := |xs| - 1;
      SumScale(xs[..n], zs[..n], a);
    }
  }

  lemma {:induction false} SumConst(xs: seq<real>, c: real)
    requires forall i :: 0 <= i < |xs| ==> xs[i] == c
    ensures Sum(xs) == Times(|xs| as real, c)
  {
    if |xs| > 0 {
      SumConst(xs[..|xs| - 1], c);
    }
  }

  /** A list that is zero except at k sums to its element there. */
  lemma {:induction false} SumLone(xs: seq<real>, k: nat)
    requires k < |xs| && forall i :: 0 <= i < |xs| && i != k ==> xs[i] == 0.0
    ensures Sum(xs) == xs[k]
  {
    var n := |xs| - 1;
    if k < n {
      SumLone(xs[..n], k);
    } else {
      SumConst(xs[..n], 0.0);
      TimesZero(n as real);
    }
  }

  lemma {:induction false} SumMonotone(xs: seq<real>, ys: seq<real>)
    requires |xs| == |ys|
    requires forall i :: 0 <= i < |xs| ==> xs[i] <= ys[i]
    ensures Sum(xs) <= Sum(ys)
  {
    if |xs| > 0 {
      var n := |xs| - 1;
      SumMonotone(xs[..n], ys[..n]);
    }
  }

  lemma {:induction false} SumNonneg(xs: seq<real>)
    requires forall i :: 0 <= i < |xs| ==> xs[i] >= 0.0
    ensures Sum(xs) >= 0.0
  {
    if |xs| > 0 {
      SumNonneg(xs[..|xs| - 1]);
    }
  }

  /** No nonnegative term exceeds the sum. */
  lemma {:induction false} SumAtLeastTerm(xs: seq<real>, k: nat)
    requires k < |xs|
    requires forall i :: 0 <= i < |xs| ==> xs[i] >= 0.0
    ensures xs[k] <= Sum(xs)
  {
    var n := |xs| - 1;
    SumNonneg(xs[..n]);
    if k < n {
      SumAtLeastTerm(xs[..n], k);
    }
  }

  /** A sum of nonnegative terms vanishes exactly when every term does. */
  lemma SumZeroIff(xs: seq<real>)
    requires forall i :: 0 <= i < |xs| ==> xs[i] >= 0.0
    ensures Sum(xs) == 0.0 <==> forall i :: 0 <= i < |xs| ==> xs[i] == 0.0
  {
    if Sum(xs) == 0.0 {
      forall i | 0 <= i < |xs| ensures xs[i] == 0.0 {
        SumAtLeastTerm(xs, i);
      }
    }
    if forall i :: 0 <= i < |xs| ==> xs[i] == 0.0 {
      SumConst(xs, 0.0);
    }
  }

  lemma {:induction false} SumConcat(xs: seq<real>, ys: seq<real>)
    ensures Sum(xs + ys) == Sum(xs) + Sum(ys)
  {
    if |ys| == 0 {
      assert xs + ys == xs;
    } else {
      var n := |ys| - 1;
      SumConcat(xs, ys[..n]);
      assert (xs + ys)[..|xs + ys| - 1] == xs + ys[..n];
    }
  }

  function Reverse<T>(xs: seq<T>): (r: seq<T>)
    ensures |r| == |xs|
    ensures forall i :: 0 <= i < |xs| ==> r[i] == xs[|xs| - 1 - i]
  {
    seq(|xs|, i requires 0 <= i < |xs| => xs[|xs| - 1 - i])
  }

  lemma {:induction false} SumReverse(xs: seq<real>)
    ensures Sum(Reverse(xs)) == Sum(xs)
  {
    if |xs| > 0 {
      var n := |xs| - 1;
      SumReverse(xs[..n]);
      assert Reverse(xs) == [xs[n]] + Reverse(xs[..n]);
      SumConcat([xs[n]], Reverse(xs[..n]));
      assert Sum([xs[n]]) == xs[n] by { assert [xs[n]][..0] == []; }
    }
  }

  function Scaled(xs: seq<real>, a: real): (ys: seq<real>)
    ensures |ys| == |xs|
    ensures forall i {:trigger ys[i]} :: 0 <= i < |xs| ==> ys[i] == Times(a, xs[i])
  {
    seq(|xs|, i requires 0 <= i < |xs| => Times(a, xs[i]))
  }

  function Differences(xs: seq<real>, ys: seq<real>): (d: seq<real>)
    requires |xs| == |ys|
    ensures |d| == |xs|
    ensures forall i {:trigger d[i]} :: 0 <= i < |xs| ==> d[i] == xs[i] - ys[i]
  {
    seq(|xs|, i requires 0 <= i < |xs| => xs[i] - ys[i])
  }

  // ---- sums of integers ----

  function Total(qs: seq<int>): int {
    if |qs| == 0 then 0 else Total(qs[..|qs| - 1]) + qs[|qs| - 1]
  }

  function AsReals(qs: seq<int>): (r: seq<real>)
    ensures |r| == |qs|
    ensures forall i {:trigger r[i]} :: 0 <= i < |qs| ==> r[i] == qs[i] as real
  {
    seq(|qs|, i requires 0 <= i < |qs| => qs[i] as real)
  }

  lemma {:induction false} TotalAsSum(qs: seq<int>)
    ensures Total(qs) as real == Sum(AsReals(qs))
  {
    if |qs| > 0 {
      TotalAsSum(qs[..|qs| - 1]);
      assert AsReals(qs)[..|qs| - 1] == AsReals(qs[..|qs| - 1]);
    }
  }

  /** Adding to one entry adds as much to the total. */
  lemma {:induction false} TotalUpdate(qs: seq<int>, k: nat, v: int)
    requires k < |qs|
    ensures Total(qs[k := v]) == Total(qs) - qs[k] + v
  {
    var n := |qs| - 1;
    if k < n {
      TotalUpdate(qs[..n], k, v);
      assert qs[k := v][..n] == qs[..n][k := v];
    } else {
      assert qs[k := v][..n] == qs[..n];
    }
  }
}
