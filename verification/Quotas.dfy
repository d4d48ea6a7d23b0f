/** Normalising a list of weights and splitting a sample count over it by largest remainder. */
module Quotas {
  import opened Sums
  import opened Sorting

  /** A configured weight: a finite number, or a value that does not convert to one. */
  datatype Weight = Finite(value: real) | Unusable

  function Clean(w: Weight): (v: real)
    ensures v >= 0.0
  {
    if w.Finite? && w.value > 0.0 then w.value else 0.0
  }

  function Cleaned(ws: seq<Weight>): (c: seq<real>)
    ensures |c| == |ws|
    ensures forall i :: 0 <= i < |ws| ==> c[i] == Clean(ws[i])
  {
    seq(|ws|, i requires 0 <= i < |ws| => Clean(ws[i]))
  }

  /** Each cleaned weight over their total; equal shares when the total is not positive. */
  function Normalized(ws: seq<Weight>): (p: seq<real>)
    ensures |p| == |ws|
  {
    var total := Sum(Cleaned(ws));
    if total <= 0.0 then seq(|ws|, i requires 0 <= i < |ws| => 1.0 / |ws| as real)
    else seq(|ws|, i requires 0 <= i < |ws| => Clean(ws[i]) / total)
  }

  method NormalizeProbabilityList(ws: seq<Weight>) returns (p: seq<real>)
    ensures p == Normalized(ws)
  {
    var cleaned: seq<real> := [];
    var i := 0;
    while i < |ws|
      invariant 0 <= i <= |ws|
      invariant cleaned == Cleaned(ws)[..i]
    {
      cleaned := cleaned + [Clean(ws[i])];
      i := i + 1;
    }
    assert cleaned == Cleaned(ws);
    var total := Sum(cleaned);
    if total <= 0.0 {
      if |cleaned| == 0 {
        return [];
      }
      return seq(|cleaned|, i requires 0 <= i < |cleaned| => 1.0 / |cleaned| as real);
    }
    return seq(|cleaned|, i requires 0 <= i < |cleaned| => cleaned[i] / total);
  }

  /** The result is a probability distribution, ordered like the cleaned weights; unless every
      weight is zero it has exactly their support. */
  lemma NormalizedIsDistribution(ws: seq<Weight>)
    requires |ws| > 0
    ensures Sum(Normalized(ws)) == 1.0
    ensures forall i :: 0 <= i < |ws| ==> 0.0 <= Normalized(ws)[i]
    ensures forall i, j :: 0 <= i < |ws| && 0 <= j < |ws| && Clean(ws[i]) <= Clean(ws[j]) ==> Normalized(ws)[i] <= Normalized(ws)[j]
    ensures (exists j :: 0 <= j < |ws| && Clean(ws[j]) > 0.0) ==>
      forall i :: 0 <= i < |ws| ==> (Normalized(ws)[i] > 0.0 <==> Clean(ws[i]) > 0.0)
  {
    var c := Cleaned(ws);
    var total := Sum(c);
    var p := Normalized(ws);
    SumNonneg(c);
    SumZeroIff(c);
    if total <= 0.0 {
      UniformSum(p, |ws| as real);
    } else {
      forall i | 0 <= i < |ws| ensures c[i] == Times(total, p[i]) && p[i] >= 0.0 && (p[i] > 0.0 <==> c[i] > 0.0) {
        Share(c[i], total);
      }
      SumScale(p, c, total);
      assert Sum(p) == 1.0 by {
        TimesOne(total, Sum(p));
      }
      forall i, j | 0 <= i < |ws| && 0 <= j < |ws| && Clean(ws[i]) <= Clean(ws[j]) ensures p[i] <= p[j] {
        ShareMonotone(c[i], c[j], total);
      }
    }
  }

  /** The shares p of given values: each positive value gets its part of their sum, all others get nothing; equal
      shares when no value is positive. */
  ghost predicate SharesOf(p: seq<real>, v: seq<real>) {
    && |p| == |v| && Sum(p) == 1.0
    && if exists k :: 0 <= k < |v| && v[k] > 0.0 then
         && (forall i :: 0 <= i < |v| && v[i] <= 0.0 ==> p[i] == 0.0)
         && (forall i, j :: 0 <= i < |v| && 0 <= j < |v| && v[i] > 0.0 && v[j] > 0.0 ==> Times(p[i], v[j]) == Times(p[j], v[i]))
       else forall i :: 0 <= i < |v| ==> p[i] == 1.0 / |v| as real
  }

  function Values(ws: seq<Weight>): (v: seq<real>)
    ensures |v| == |ws| && forall i {:trigger v[i]} :: 0 <= i < |v| ==> v[i] == if ws[i].Finite? then ws[i].value else 0.0
  {
    seq(|ws|, i requires 0 <= i < |ws| => if ws[i].Finite? then ws[i].value else 0.0)
  }

  lemma CrossTimes(a: real, b: real, total: real)
    requires total > 0.0
    ensures Times(a / total, b) == Times(b / total, a)
  {
    assert (a / total) * b == (a * b) / total;
  }

  /** Normalising hands out shares in proportion to the raw values. */
  lemma NormalizedIsProportional(ws: seq<Weight>)
    requires |ws| > 0
    ensures SharesOf(Normalized(ws), Values(ws))
  {
    var c, v, p := Cleaned(ws), Values(ws), Normalized(ws);
    NormalizedIsDistribution(ws);
    SumNonneg(c);
    SumZeroIff(c);
    hide Sum, Times;
    assert forall i :: 0 <= i < |ws| ==> c[i] == if v[i] > 0.0 then v[i] else 0.0;
    if k :| 0 <= k < |v| && v[k] > 0.0 {
      assert c[k] > 0.0;
      forall i, j | 0 <= i < |v| && 0 <= j < |v| && v[i] > 0.0 && v[j] > 0.0 ensures Times(p[i], v[j]) == Times(p[j], v[i]) {
        CrossTimes(c[i], c[j], Sum(c));
      }
      forall i | 0 <= i < |v| && v[i] <= 0.0 ensures p[i] == 0.0 {
        Share(c[i], Sum(c));
      }
    }
  }

  function Positives(v: seq<real>): (c: seq<real>)
    ensures |c| == |v| && forall i {:trigger c[i]} :: 0 <= i < |v| ==> c[i] == if v[i] > 0.0 then v[i] else 0.0
  {
    seq(|v|, i requires 0 <= i < |v| => if v[i] > 0.0 then v[i] else 0.0)
  }

  lemma ShareOfTotal(p: seq<real>, v: seq<real>, k: nat)
    requires SharesOf(p, v) && k < |v| && v[k] > 0.0
    ensures Times(p[k], Sum(Positives(v))) == v[k]
  {
    var c := Positives(v);
    var scaled := Scaled(p, v[k]);
    forall i | 0 <= i < |v| ensures scaled[i] == Times(p[k], c[i]) {
      if v[i] > 0.0 {
        TimesCommutes(v[k], p[i]);
      } else {
        TimesZero(v[k]);
        TimesZero(p[k]);
      }
    }
    SumScale(p, scaled, v[k]);
    SumScale(c, scaled, p[k]);
    TimesUnit(v[k]);
  }

  lemma TimesCommutes(x: real, y: real)
    ensures Times(x, y) == Times(y, x)
  {
  }

  lemma SameFactor(x: real, y: real, z: real)
    requires z > 0.0 && Times(x, z) == Times(y, z)
    ensures x == y
  {
    assert (x - y) * z == 0.0;
  }

  /** Values have only one list of shares. */
  lemma SharesAreUnique(p: seq<real>, q: seq<real>, v: seq<real>)
    requires SharesOf(p, v) && SharesOf(q, v)
    ensures p == q
  {
    var c := Positives(v);
    SumNonneg(c);
    SumZeroIff(c);
    hide Sum, Times;
    forall i: nat | i < |v| ensures p[i] == q[i] {
      if v[i] > 0.0 {
        ShareOfTotal(p, v, i);
        ShareOfTotal(q, v, i);
        assert c[i] > 0.0;
        SameFactor(p[i], q[i], Sum(c));
      }
    }
  }

  lemma UniformSum(p: seq<real>, n: real)
    requires |p| > 0 && n == |p| as real
    requires forall i :: 0 <= i < |p| ==> p[i] == 1.0 / n
    ensures Sum(p) == 1.0
  {
    SumConst(p, 1.0 / n);
  }

  lemma Share(c: real, total: real)
    requires total > 0.0 && c >= 0.0
    ensures c == Times(total, c / total)
    ensures c / total >= 0.0
    ensures c / total > 0.0 <==> c > 0.0
  {
  }

  lemma ShareMonotone(c: real, d: real, total: real)
    requires total > 0.0 && c <= d
    ensures c / total <= d / total
  {
  }

  lemma TimesOne(t: real, s: real)
    requires t > 0.0 && Times(t, s) == t
    ensures s == 1.0
  {
  }

  // ---- largest remainder ----

  function Targets(p: seq<real>, n: int): (t: seq<real>)
    ensures |t| == |p|
    ensures forall i :: 0 <= i < |p| ==> t[i] == Times(n as real, p[i])
  {
    seq(|p|, i requires 0 <= i < |p| => Times(n as real, p[i]))
  }

  function Floors(t: seq<real>): (f: seq<int>)
    ensures |f| == |t|
    ensures forall i :: 0 <= i < |t| ==> f[i] == t[i].Floor
  {
    seq(|t|, i requires 0 <= i < |t| => t[i].Floor)
  }

  function Remainders(t: seq<real>): (r: seq<real>)
    ensures |r| == |t|
    ensures forall i :: 0 <= i < |t| ==> r[i] == t[i] - t[i].Floor as real && 0.0 <= r[i] < 1.0
  {
    seq(|t|, i requires 0 <= i < |t| => t[i] - t[i].Floor as real)
  }

  function At(xs: seq<real>, i: nat): real {
    if i < |xs| then xs[i] else 0.0
  }

  /** Largest remainder first, then largest share, then smallest index. */
  predicate RanksBefore(rem: seq<real>, p: seq<real>, i: nat, j: nat) {
    || At(rem, i) > At(rem, j)
    || (At(rem, i) == At(rem, j) && (At(p, i) > At(p, j) || (At(p, i) == At(p, j) && i <= j)))
  }

  function Ranking(rem: seq<real>, p: seq<real>): (r: seq<nat>)
    ensures |r| == |p| && multiset(r) == multiset(Indices(|p|))
    ensures forall k :: 0 <= k < |r| ==> r[k] < |p|
  {
    var r := Sort((i: nat, j: nat) => RanksBefore(rem, p, i, j), Indices(|p|));
    assert forall k :: 0 <= k < |r| ==> r[k] in multiset(r);
    r
  }

  /** One more for each listed index. */
  function Bump(q: seq<int>, idxs: seq<nat>): (r: seq<int>)
    requires forall k :: 0 <= k < |idxs| ==> idxs[k] < |q|
    ensures |r| == |q|
  {
    if |idxs| == 0 then q
    else
      var n := |idxs| - 1;
      var r := Bump(q, idxs[..n]);
      r[idxs[n] := r[idxs[n]] + 1]
  }

  /** How many units are left once every target has been rounded down. */
  function Leftover(p: seq<real>, n: int): int {
    n - Total(Floors(Targets(p, n)))
  }

  function Quotas(ws: seq<Weight>, n: int): (q: seq<int>)
    ensures |q| == |ws|
  {
    if n <= 0 then seq(|ws|, i requires 0 <= i < |ws| => 0)
    else
      var p := Normalized(ws);
      var t := Targets(p, n);
      var left := Leftover(p, n);
      var ranked := Ranking(Remainders(t), p);
      Bump(Floors(t), if left <= 0 then [] else if left <= |ranked| then ranked[..left] else ranked)
  }

  method BumpEach(q: seq<int>, top: seq<nat>) returns (quotas: seq<int>)
    requires forall k :: 0 <= k < |top| ==> top[k] < |q|
    ensures quotas == Bump(q, top)
  {
    quotas := q;
    var k := 0;
    while k < |top|
      invariant 0 <= k <= |top|
      invariant quotas == Bump(q, top[..k])
    {
      assert top[..k + 1][..k] == top[..k];
      quotas := quotas[top[k] := quotas[top[k]] + 1];
      k := k + 1;
    }
    assert top[..k] == top;
  }

  method BuildIntegerQuotas(ws: seq<Weight>, n: int) returns (quotas: seq<int>)
    ensures quotas == Quotas(ws, n)
  {
    if n <= 0 {
      return seq(|ws|, i requires 0 <= i < |ws| => 0);
    }
    hide Times, Sort, RanksBefore, Sum, Ranking, Targets, Remainders, Floors, Cleaned;
    var p := NormalizeProbabilityList(ws);
    LeftoverRange(ws, n);
    hide Normalized, Total;
    var t := Targets(p, n);
    quotas := Floors(t);
    var remaining := n - Total(quotas);
    if remaining > 0 {
      var ranked := Ranking(Remainders(t), p);
      var top := if remaining <= |ranked| then ranked[..remaining] else ranked;
      quotas := BumpEach(quotas, top);
    } else if remaining < 0 {
      // the program lowers quotas here; exact targets never overshoot
      assert false;
    }
  }

  // ---- facts about the ranking and the increments ----

  lemma {:induction false} BumpTotal(q: seq<int>, idxs: seq<nat>)
    requires forall k :: 0 <= k < |idxs| ==> idxs[k] < |q|
    ensures Total(Bump(q, idxs)) == Total(q) + |idxs|
  {
    if |idxs| > 0 {
      var n := |idxs| - 1;
      BumpTotal(q, idxs[..n]);
      TotalUpdate(Bump(q, idxs[..n]), idxs[n], Bump(q, idxs[..n])[idxs[n]] + 1);
    }
  }

  lemma {:induction false} BumpAt(q: seq<int>, idxs: seq<nat>, i: nat)
    requires forall k :: 0 <= k < |idxs| ==> idxs[k] < |q|
    requires Distinct(idxs) && i < |q|
    ensures Bump(q, idxs)[i] == q[i] + if i in idxs then 1 else 0
  {
    if |idxs| > 0 {
      var n := |idxs| - 1;
      BumpAt(q, idxs[..n], i);
      assert idxs == idxs[..n] + [idxs[n]];
      assert idxs[n] !in idxs[..n];
    }
  }

  lemma RanksBeforeOrders(rem: seq<real>, p: seq<real>)
    ensures TotalPreorder((i: nat, j: nat) => RanksBefore(rem, p, i, j))
  {
  }

  lemma RankingFacts(rem: seq<real>, p: seq<real>)
    ensures Distinct(Ranking(rem, p))
    ensures forall i: nat :: i < |p| ==> i in Ranking(rem, p)
    ensures forall a, b :: 0 <= a < b < |p| ==> RanksBefore(rem, p, Ranking(rem, p)[a], Ranking(rem, p)[b])
  {
    var le := (i: nat, j: nat) => RanksBefore(rem, p, i, j);
    var r := Ranking(rem, p);
    RanksBeforeOrders(rem, p);
    SortSorts(le, Indices(|p|));
    DistinctPermutes(Indices(|p|), r);
    SameElements(Indices(|p|), r);
    forall i: nat | i < |p| ensures i in r {
      assert Indices(|p|)[i] == i;
    }
    forall a, b | 0 <= a < b < |p| ensures RanksBefore(rem, p, r[a], r[b]) {
      assert le(r[a], r[b]);
    }
  }

  lemma TargetSum(ws: seq<Weight>, n: int)
    requires |ws| > 0
    ensures Sum(Targets(Normalized(ws), n)) == n as real
  {
    var p := Normalized(ws);
    NormalizedIsDistribution(ws);
    SumScale(p, Targets(p, n), n as real);
  }

  lemma FloorsAndRemainders(t: seq<real>)
    ensures Total(Floors(t)) as real + Sum(Remainders(t)) == Sum(t)
  {
    TotalAsSum(Floors(t));
    SumAdd(AsReals(Floors(t)), Remainders(t), t);
  }

  lemma {:induction false} SumBelowLength(xs: seq<real>)
    requires |xs| > 0
    requires forall i :: 0 <= i < |xs| ==> xs[i] < 1.0
    ensures Sum(xs) < |xs| as real
  {
    var n := |xs| - 1;
    if n > 0 {
      SumBelowLength(xs[..n]);
    }
  }

  /** The leftover is the sum of the remainders: not negative, and smaller than the option count. */
  lemma LeftoverRange(ws: seq<Weight>, n: int)
    requires n > 0
    ensures |ws| > 0 ==> 0 <= Leftover(Normalized(ws), n) < |ws|
    ensures |ws| > 0 ==> Leftover(Normalized(ws), n) as real == Sum(Remainders(Targets(Normalized(ws), n)))
    ensures Leftover(Normalized(ws), n) >= 0
  {
    if |ws| > 0 {
      hide Times;
      var t := Targets(Normalized(ws), n);
      TargetSum(ws, n);
      FloorsAndRemainders(t);
      SumNonneg(Remainders(t));
      SumBelowLength(Remainders(t));
    }
  }

  predicate RoundedUp(q: seq<int>, t: seq<real>, i: nat)
    requires i < |q| == |t|
  {
    q[i] == t[i].Floor + 1
  }

  /** `q` is `t` rounded down, raised by one on a set of indices that no other index outranks. */
  ghost predicate LargestRemainder(q: seq<int>, t: seq<real>, p: seq<real>) {
    && |q| == |t| == |p|
    && (forall i: nat :: i < |q| ==> q[i] == t[i].Floor || RoundedUp(q, t, i))
    && (forall i: nat, j: nat :: i < |q| && j < |q| && RoundedUp(q, t, i) && !RoundedUp(q, t, j) ==>
          RanksBefore(Remainders(t), p, i, j))
  }

  lemma QuotasRaiseTop(ws: seq<Weight>, n: int)
    requires |ws| > 0 && n > 0
    ensures
      var p := Normalized(ws);
      var rem := Remainders(Targets(p, n));
      && 0 <= Leftover(p, n) < |ws|
      && Quotas(ws, n) == Bump(Floors(Targets(p, n)), Ranking(rem, p)[..Leftover(p, n)])
  {
    LeftoverRange(ws, n);
    hide Times, Ranking, RanksBefore, Normalized, Leftover;
    var p := Normalized(ws);
    assert Leftover(p, n) == 0 ==> Ranking(Remainders(Targets(p, n)), p)[..0] == [];
  }

  lemma TopIsLargestRemainder(t: seq<real>, p: seq<real>, left: nat)
    requires |t| == |p| && left <= |p|
    ensures LargestRemainder(Bump(Floors(t), Ranking(Remainders(t), p)[..left]), t, p)
  {
    var ranked := Ranking(Remainders(t), p);
    RankingFacts(Remainders(t), p);
    hide Ranking, RanksBefore, Bump, Remainders, Floors;
    var top, rest := ranked[..left], ranked[left..];
    var q := Bump(Floors(t), top);
    assert ranked == top + rest;
    forall i: nat | i < |q| ensures q[i] == t[i].Floor + if i in top then 1 else 0 {
      BumpAt(Floors(t), top, i);
    }
    forall i: nat, j: nat | i < |q| && j < |q| && RoundedUp(q, t, i) && !RoundedUp(q, t, j)
      ensures RanksBefore(Remainders(t), p, i, j)
    {
      assert i in top && j !in top && j in ranked;
      var a :| 0 <= a < |top| && top[a] == i;
      var b :| 0 <= b < |rest| && rest[b] == j;
      assert ranked[a] == i && ranked[left + b] == j;
    }
  }

  lemma QuotaShape(ws: seq<Weight>, n: int)
    requires |ws| > 0 && n > 0
    ensures Total(Quotas(ws, n)) == n
    ensures LargestRemainder(Quotas(ws, n), Targets(Normalized(ws), n), Normalized(ws))
    ensures Sum(Targets(Normalized(ws), n)) == n as real
  {
    var p := Normalized(ws);
    var t := Targets(p, n);
    QuotasRaiseTop(ws, n);
    TargetSum(ws, n);
    assert Leftover(p, n) == n - Total(Floors(t));
    hide *;
    TopIsLargestRemainder(t, p, Leftover(p, n));
    BumpTotal(Floors(t), Ranking(Remainders(t), p)[..Leftover(p, n)]);
  }

  // ---- what the split guarantees ----

  /** The quotas use up the sample count exactly, each is its target rounded down or one more,
      and a larger share (or an equal share listed earlier) never gets the smaller quota. */
  lemma QuotasApportion(ws: seq<Weight>, n: int)
    requires |ws| > 0
    ensures Total(Quotas(ws, n)) == if n <= 0 then 0 else n
    ensures n > 0 ==> forall i: nat :: i < |ws| ==>
      Times(n as real, Normalized(ws)[i]).Floor <= Quotas(ws, n)[i] <= Times(n as real, Normalized(ws)[i]).Floor + 1
    ensures forall i: nat, j: nat :: i < |ws| && j < |ws| && SharesBefore(Normalized(ws), i, j) ==>
      Quotas(ws, n)[i] >= Quotas(ws, n)[j]
  {
    if n <= 0 {
      ZeroTotal(Quotas(ws, n));
    } else {
      QuotaShape(ws, n);
      var p, q := Normalized(ws), Quotas(ws, n);
      var t := Targets(p, n);
      hide Normalized, Quotas, Times, RanksBefore, Total, Targets;
      assert forall i: nat :: i < |ws| ==> t[i] == Times(n as real, p[i]);
      forall i: nat, j: nat | i < |ws| && j < |ws| && SharesBefore(p, i, j) ensures q[i] >= q[j] {
        TimesMonotone(n as real, p[j], p[i]);
        QuotaOrder(q, t, p, i, j);
      }
    }
  }

  /** The larger share, or the earlier of two equal ones. */
  predicate SharesBefore(p: seq<real>, i: nat, j: nat)
    requires i < |p| && j < |p|
  {
    p[i] > p[j] || (p[i] == p[j] && i < j)
  }

  lemma QuotaOrder(q: seq<int>, t: seq<real>, p: seq<real>, i: nat, j: nat)
    requires LargestRemainder(q, t, p) && i < |q| && j < |q| && SharesBefore(p, i, j)
    requires t[i] >= t[j] && (p[i] == p[j] ==> t[i] == t[j])
    ensures q[i] >= q[j]
  {
    if RoundedUp(q, t, j) && !RoundedUp(q, t, i) {
      assert RanksBefore(Remainders(t), p, j, i);
    }
  }

  lemma {:induction false} ZeroTotal(q: seq<int>)
    requires forall i :: 0 <= i < |q| ==> q[i] == 0
    ensures Total(q) == 0
  {
    if |q| > 0 {
      ZeroTotal(q[..|q| - 1]);
    }
  }

  /** An option whose exact target is a whole number gets just that number; in particular an
      option of share zero gets no sample. */
  lemma WholeTargetsAreMet(ws: seq<Weight>, n: int, i: nat)
    requires n > 0 && i < |ws|
    requires Times(n as real, Normalized(ws)[i]) == Times(n as real, Normalized(ws)[i]).Floor as real
    ensures Quotas(ws, n)[i] as real == Times(n as real, Normalized(ws)[i])
  {
    QuotaShape(ws, n);
    var p, q := Normalized(ws), Quotas(ws, n);
    var t := Targets(p, n);
    hide Normalized, Quotas, Times, LargestRemainder, Total, Sum, Targets;
    assert t[i] == Times(n as real, p[i]);
    TotalAsSum(q);
    WholeTargetMet(q, t, p, i);
  }

  lemma WholeTargetMet(q: seq<int>, t: seq<real>, p: seq<real>, i: nat)
    requires LargestRemainder(q, t, p) && i < |q|
    requires Sum(AsReals(q)) == Sum(t) && t[i] == t[i].Floor as real
    ensures q[i] as real == t[i]
  {
    if RoundedUp(q, t, i) {
      var excess := Differences(AsReals(q), t);
      SumSub(AsReals(q), t, excess);
      forall k: nat | k < |q| ensures excess[k] >= 0.0 {
        assert !RoundedUp(q, t, k) ==> RanksBefore(Remainders(t), p, i, k);
      }
      SumAtLeastTerm(excess, i);
      assert false;
    }
  }

  function SquaredDistance(r: seq<int>, t: seq<real>): real
    requires |r| == |t|
  {
    Sum(SquaredGaps(r, t))
  }

  function SquaredGaps(r: seq<int>, t: seq<real>): (d: seq<real>)
    requires |r| == |t|
    ensures |d| == |r|
    ensures forall i :: 0 <= i < |r| ==> d[i] == Times(r[i] as real - t[i], r[i] as real - t[i])
  {
    seq(|r|, i requires 0 <= i < |r| => Times(r[i] as real - t[i], r[i] as real - t[i]))
  }

  /** Moving a coordinate by whole steps changes its squared gap by at least the common price per step. */
  lemma StepPrice(q: int, r: int, t: real, price: real)
    requires 2.0 * (q as real - t) - 1.0 <= price <= 2.0 * (q as real - t) + 1.0
    ensures Times(r as real - t, r as real - t) - Times(q as real - t, q as real - t) >= Times(price, r as real - q as real)
  {
    hide Times;
    var e := q as real - t;
    var d := r as real - q as real;
    assert r as real - t == e + d;
    DifferenceOfSquares(e, d);
    if r > q {
      TimesOrder(d, price, 2.0 * e + d);
    } else if r < q {
      TimesOrder(d, 2.0 * e + d, price);
    } else {
      TimesZero(price);
    }
  }

  lemma DifferenceOfSquares(e: real, d: real)
    ensures Times(e + d, e + d) - Times(e, e) == Times(d, 2.0 * e + d)
  {
    assert (e + d) * (e + d) == e * e + 2.0 * e * d + d * d;
  }

  lemma TimesOrder(d: real, x: real, y: real)
    requires x <= y
    ensures d > 0.0 ==> Times(x, d) <= Times(d, y)
    ensures d < 0.0 ==> Times(d, x) >= Times(y, d)
  {
  }

  /** A value that separates the remainders rounded up from those rounded down. */
  lemma ThresholdExists(q: seq<int>, t: seq<real>, p: seq<real>) returns (lowest: real)
    requires LargestRemainder(q, t, p)
    ensures 0.0 <= lowest <= 1.0
    ensures forall i: nat :: i < |q| ==>
      if RoundedUp(q, t, i) then Remainders(t)[i] >= lowest else Remainders(t)[i] <= lowest
  {
    var rem := Remainders(t);
    lowest := 1.0;
    var k := 0;
    while k < |q|
      invariant 0 <= k <= |q|
      invariant 0.0 <= lowest <= 1.0
      invariant forall i: nat :: i < k && RoundedUp(q, t, i) ==> lowest <= rem[i]
      invariant lowest == 1.0 || exists i: nat :: i < |q| && RoundedUp(q, t, i) && rem[i] == lowest
    {
      if RoundedUp(q, t, k) && rem[k] < lowest {
        lowest := rem[k];
      }
      k := k + 1;
    }
    forall i: nat | i < |q| && !RoundedUp(q, t, i) ensures rem[i] <= lowest {
      if lowest < 1.0 {
        var u: nat :| u < |q| && RoundedUp(q, t, u) && rem[u] == lowest;
        assert RanksBefore(rem, p, u, i);
      }
    }
  }

  /** Every coordinate could move one unit up at no less, and one unit down at no more, than `price`. */
  ghost predicate PriceFits(q: seq<int>, t: seq<real>, price: real)
    requires |q| == |t|
  {
    forall i: nat :: i < |q| ==> 2.0 * (q[i] as real - t[i]) - 1.0 <= price <= 2.0 * (q[i] as real - t[i]) + 1.0
  }

  lemma PriceExists(q: seq<int>, t: seq<real>, p: seq<real>) returns (price: real)
    requires LargestRemainder(q, t, p)
    ensures PriceFits(q, t, price)
  {
    var lowest := ThresholdExists(q, t, p);
    price := 1.0 - 2.0 * lowest;
    forall i: nat | i < |q|
      ensures 2.0 * (q[i] as real - t[i]) - 1.0 <= price <= 2.0 * (q[i] as real - t[i]) + 1.0
    {
      assert Remainders(t)[i] == t[i] - t[i].Floor as real;
      assert q[i] == t[i].Floor || RoundedUp(q, t, i);
    }
  }

  lemma MovesArePaidFor(q: seq<int>, t: seq<real>, price: real, r: seq<int>)
    requires |q| == |t| == |r| && PriceFits(q, t, price)
    ensures Sum(Scaled(Differences(AsReals(r), AsReals(q)), price)) <= SquaredDistance(r, t) - SquaredDistance(q, t)
  {
    hide Times, Sum;
    var paid := Scaled(Differences(AsReals(r), AsReals(q)), price);
    var gained := Differences(SquaredGaps(r, t), SquaredGaps(q, t));
    forall i: nat | i < |q| ensures paid[i] <= gained[i] {
      StepPrice(q[i], r[i], t[i], price);
    }
    SumMonotone(paid, gained);
    SumSub(SquaredGaps(r, t), SquaredGaps(q, t), gained);
  }

  /** With a common price in place no rearrangement of the same total comes closer. */
  lemma PriceMakesOptimal(q: seq<int>, t: seq<real>, price: real, r: seq<int>)
    requires |q| == |t| == |r| && PriceFits(q, t, price)
    requires Total(r) == Total(q)
    ensures SquaredDistance(q, t) <= SquaredDistance(r, t)
  {
    hide *;
    var moves := Differences(AsReals(r), AsReals(q));
    MovesArePaidFor(q, t, price, r);
    SumScale(moves, Scaled(moves, price), price);
    SumSub(AsReals(r), AsReals(q), moves);
    TotalAsSum(r);
    TotalAsSum(q);
    TimesZero(price);
  }

  /** No other way to split the samples lies closer to the exact targets. */
  lemma QuotasAreOptimal(ws: seq<Weight>, n: int, r: seq<int>)
    requires |ws| > 0 && n > 0
    requires |r| == |ws| && Total(r) == n
    ensures SquaredDistance(Quotas(ws, n), Targets(Normalized(ws), n)) <= SquaredDistance(r, Targets(Normalized(ws), n))
  {
    hide *;
    QuotaShape(ws, n);
    var price := PriceExists(Quotas(ws, n), Targets(Normalized(ws), n), Normalized(ws));
    PriceMakesOptimal(Quotas(ws, n), Targets(Normalized(ws), n), price, r);
  }
}
