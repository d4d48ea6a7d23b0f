/** Runtime correction of an option distribution towards its target, and the rank clamp that keeps the
    corrected distribution in the order of its reference. The exponential is any function that is given. */
module Distribution {
  import opened Wrappers
  import opened Sums
  import opened Quotas

  // ---- targets ----

  /** A configured ratio list; entries that are missing count as 0. */
  datatype RatioConfig = NoRatios | One(value: real) | Many(values: seq<real>)

  function FitTo(ws: seq<Weight>, n: nat): (r: seq<Weight>)
    ensures |r| == n
  {
    seq(n, i requires 0 <= i < n => if i < |ws| then ws[i] else Finite(0.0))
  }

  function AsWeights(c: RatioConfig): seq<Weight> {
    match c
    case NoRatios => []
    case One(v) => [Finite(v)]
    case Many(vs) => seq(|vs|, i requires 0 <= i < |vs| => Finite(vs[i]))
  }

  /** Equal shares when nothing is configured, or nothing positive. */
  function Target(c: RatioConfig, optionCount: int): (t: seq<real>)
    ensures |t| == if optionCount <= 0 then 0 else optionCount
  {
    if optionCount <= 0 then [] else Normalized(FitTo(AsWeights(c), optionCount))
  }

  ghost predicate IsDistribution(t: seq<real>) {
    Sum(t) == 1.0 && forall i :: 0 <= i < |t| ==> t[i] >= 0.0
  }

  lemma TargetIsDistribution(c: RatioConfig, optionCount: int)
    requires optionCount > 0
    ensures IsDistribution(Target(c, optionCount))
  {
    NormalizedIsDistribution(FitTo(AsWeights(c), optionCount));
  }

  /** What is configured for option i: nothing counts as zero, and a single number is for the first option. */
  function ConfiguredAt(c: RatioConfig, i: nat): real {
    match c
    case NoRatios => 0.0
    case One(v) => if i == 0 then v else 0.0
    case Many(vs) => if i < |vs| then vs[i] else 0.0
  }

  /** The target gives every option its share of what is configured. */
  lemma TargetIsProportional(c: RatioConfig, optionCount: int)
    requires optionCount > 0
    ensures SharesOf(Target(c, optionCount), seq(optionCount, i requires 0 <= i < optionCount => ConfiguredAt(c, i)))
  {
    var ws := FitTo(AsWeights(c), optionCount);
    NormalizedIsProportional(ws);
    hide SharesOf, Normalized;
    assert Values(ws) == seq(optionCount, i requires 0 <= i < optionCount => ConfiguredAt(c, i));
  }

  // ---- correction ----

  datatype Tuning = Tuning(warmup: nat, gain: real, minFactor: real, maxFactor: real, gapLimit: real) {
    predicate Valid() {
      gain >= 0.0 && 0.0 < minFactor <= maxFactor
    }
  }

  const STANDARD := Tuning(12, 4.2, 0.45, 2.2, 0.42)
  const RELIABILITY := Tuning(14, 1.75, 0.80, 1.28, 0.28)

  function TuningFor(priority: bool): (p: Tuning)
    ensures p.Valid()
  {
    if priority then RELIABILITY else STANDARD
  }

  /** Counts of what was chosen so far. */
  datatype History = History(total: int, counts: seq<int>)

  function Least(x: real, y: real): (m: real)
    ensures m <= x && m <= y && (m == x || m == y)
  {
    if x <= y then x else y
  }

  function Between(low: real, high: real, x: real): (r: real)
    requires low <= high
    ensures low <= r <= high
    ensures low <= x <= high ==> r == x
  {
    if x > high then high else if x < low then low else x
  }

  /** The reach of the limit is symmetric, whatever its sign. */
  function Limited(limit: real, x: real): real {
    if Least(limit, x) < -limit then -limit else Least(limit, x)
  }

  function SampleFactor(total: int, warmup: nat): real {
    var enough := if warmup < 1 then 1 else warmup;
    Least(1.0, total as real / enough as real)
  }

  function Observed(h: History, i: nat): real {
    if i < |h.counts| && h.total > 0 then h.counts[i] as real / h.total as real else 0.0
  }

  function Factor(t: real, observed: real, total: int, p: Tuning, exp: real -> real): (f: real)
    requires p.Valid()
    ensures p.minFactor <= f <= p.maxFactor
  {
    var gap := Limited(p.gapLimit, t - observed);
    Between(p.minFactor, p.maxFactor, exp(Times(Times(p.gain, SampleFactor(total, p.warmup)), gap)))
  }

  function Adjusted(t: seq<real>, h: History, p: Tuning, exp: real -> real): (a: seq<real>)
    requires p.Valid()
    ensures |a| == |t|
    ensures forall i {:trigger a[i]} :: 0 <= i < |t| ==>
              a[i] == if t[i] <= 0.0 then 0.0 else Times(t[i], Factor(t[i], Observed(h, i), h.total, p, exp))
  {
    seq(|t|, i requires 0 <= i < |t| =>
      if t[i] <= 0.0 then 0.0 else Times(t[i], Factor(t[i], Observed(h, i), h.total, p, exp)))
  }

  function Shares(a: seq<real>): (r: seq<real>)
    ensures |r| == |a|
    ensures forall i {:trigger r[i]} :: 0 <= i < |a| ==> r[i] == if Sum(a) <= 0.0 then a[i] else a[i] / Sum(a)
  {
    if Sum(a) <= 0.0 then a else seq(|a|, i requires 0 <= i < |a| => a[i] / Sum(a))
  }

  function Corrected(t: seq<real>, history: Option<History>, p: Tuning, exp: real -> real): (r: seq<real>)
    requires p.Valid()
    ensures |r| == |t|
  {
    if history.None? || history.value.total <= 0 then t
    else if Sum(Adjusted(t, history.value, p, exp)) <= 0.0 then t
    else Shares(Adjusted(t, history.value, p, exp))
  }

  method AdjustTarget(t: seq<real>, h: History, p: Tuning, exp: real -> real) returns (adjusted: seq<real>)
    requires p.Valid()
    ensures adjusted == Adjusted(t, h, p, exp)
  {
    hide Factor, Observed, Times;
    adjusted := [];
    for k := 0 to |t|
      invariant |adjusted| == k
      invariant forall i :: 0 <= i < k ==> adjusted[i] == Adjusted(t, h, p, exp)[i]
    {
      if t[k] <= 0.0 {
        adjusted := adjusted + [0.0];
      } else {
        adjusted := adjusted + [Times(t[k], Factor(t[k], Observed(h, k), h.total, p, exp))];
      }
    }
    assert |Adjusted(t, h, p, exp)| == |t|;
  }

  method ResolveDistributionProbabilities(c: RatioConfig, optionCount: int, history: Option<History>, priority: bool, exp: real -> real)
    returns (r: seq<real>)
    ensures r == Corrected(Target(c, optionCount), history, TuningFor(priority), exp)
  {
    hide Sum, Factor, Observed, Times, Normalized;
    var t := Target(c, optionCount);
    if optionCount <= 0 || history.None? || history.value.total <= 0 {
      assert optionCount <= 0 ==> Corrected(t, history, TuningFor(priority), exp) == [];
      return t;
    }
    var adjusted := AdjustTarget(t, history.value, TuningFor(priority), exp);
    var total := Sum(adjusted);
    if total <= 0.0 {
      return t;
    }
    return Shares(adjusted);
  }

  // ---- what the correction keeps ----

  lemma SharesSumToOne(a: seq<real>)
    requires Sum(a) > 0.0
    ensures Sum(Shares(a)) == 1.0
  {
    var r := Shares(a);
    forall i | 0 <= i < |a| ensures a[i] == Times(Sum(a), r[i]) {
      Undivided(a[i], Sum(a));
    }
    SumScale(r, a, Sum(a));
    TimesOne(Sum(a), Sum(r));
  }

  lemma Undivided(x: real, total: real)
    requires total > 0.0
    ensures x == Times(total, x / total)
    ensures x > 0.0 <==> x / total > 0.0
    ensures x >= 0.0 <==> x / total >= 0.0
  {
  }

  lemma TimesBounds(t: real, f: real, low: real, high: real)
    requires t >= 0.0 && low <= f <= high
    ensures Times(low, t) <= Times(t, f) <= Times(high, t)
    ensures t > 0.0 && low > 0.0 ==> Times(t, f) > 0.0
  {
  }

  /** The adjusted weights add up to something between the two factors. */
  lemma AdjustedTotal(t: seq<real>, h: History, p: Tuning, exp: real -> real)
    requires IsDistribution(t) && p.Valid()
    ensures p.minFactor <= Sum(Adjusted(t, h, p, exp)) <= p.maxFactor
  {
    var a := Adjusted(t, h, p, exp);
    hide Factor;
    forall i | 0 <= i < |t|
      ensures Scaled(t, p.minFactor)[i] <= a[i] <= Scaled(t, p.maxFactor)[i]
    {
      TimesBounds(t[i], Factor(t[i], Observed(h, i), h.total, p, exp), p.minFactor, p.maxFactor);
      if t[i] <= 0.0 {
        assert t[i] == 0.0;
        TimesBounds(0.0, p.minFactor, p.minFactor, p.maxFactor);
        TimesZero(p.minFactor);
        TimesZero(p.maxFactor);
      }
    }
    SumMonotone(Scaled(t, p.minFactor), a);
    SumMonotone(a, Scaled(t, p.maxFactor));
    SumScale(t, Scaled(t, p.minFactor), p.minFactor);
    SumScale(t, Scaled(t, p.maxFactor), p.maxFactor);
    TimesUnit(p.minFactor);
    TimesUnit(p.maxFactor);
  }

  /** Correction gives a distribution with exactly the target's support. */
  lemma CorrectedIsDistribution(t: seq<real>, history: Option<History>, p: Tuning, exp: real -> real)
    requires IsDistribution(t) && p.Valid()
    ensures IsDistribution(Corrected(t, history, p, exp))
    ensures forall i :: 0 <= i < |t| ==> (Corrected(t, history, p, exp)[i] > 0.0 <==> t[i] > 0.0)
  {
    if history.Some? && history.value.total > 0 {
      var h := history.value;
      var a := Adjusted(t, h, p, exp);
      AdjustedTotal(t, h, p, exp);
      SharesSumToOne(a);
      hide Factor, Observed;
      forall i | 0 <= i < |t| ensures Shares(a)[i] >= 0.0 && (Shares(a)[i] > 0.0 <==> t[i] > 0.0) {
        TimesBounds(t[i], Factor(t[i], Observed(h, i), h.total, p, exp), p.minFactor, p.maxFactor);
        Undivided(a[i], Sum(a));
      }
    }
  }

  lemma RatioBounds(t: real, f: real, total: real, p: Tuning)
    requires p.Valid() && t > 0.0 && p.minFactor <= f <= p.maxFactor && p.minFactor <= total <= p.maxFactor
    ensures Times(t, f) / total / t == f / total
    ensures p.minFactor / p.maxFactor <= f / total <= p.maxFactor / p.minFactor
  {
    QuotientCancels(t, f, total);
    QuotientOrder(p.minFactor, p.maxFactor, f, total);
    QuotientOrder(f, total, p.maxFactor, p.minFactor);
  }

  lemma QuotientCancels(t: real, f: real, total: real)
    requires t > 0.0 && total > 0.0
    ensures Times(t, f) / total / t == f / total
  {
    var q := f / total;
    assert f == q * total;
    assert t * f == (t * q) * total;
    assert t * f / total == t * q;
  }

  lemma QuotientOrder(a: real, b: real, c: real, d: real)
    requires 0.0 < a <= c && 0.0 < d <= b
    ensures a / b <= c / d
  {
    assert a / b <= c / b;
    assert c / b <= c / d;
  }

  /** The share of an option, relative to its target, is its factor over the total. */
  lemma CorrectedRatio(t: seq<real>, h: History, p: Tuning, exp: real -> real, i: nat)
    requires IsDistribution(t) && p.Valid() && h.total > 0 && i < |t| && t[i] > 0.0
    ensures Sum(Adjusted(t, h, p, exp)) > 0.0
    ensures Corrected(t, Some(h), p, exp)[i] / t[i]
         == Factor(t[i], Observed(h, i), h.total, p, exp) / Sum(Adjusted(t, h, p, exp))
    ensures p.minFactor / p.maxFactor <= Corrected(t, Some(h), p, exp)[i] / t[i] <= p.maxFactor / p.minFactor
  {
    AdjustedTotal(t, h, p, exp);
    hide Sum, Times, Factor, Observed;
    RatioBounds(t[i], Factor(t[i], Observed(h, i), h.total, p, exp), Sum(Adjusted(t, h, p, exp)), p);
  }

  lemma OneIsWithin(low: real, high: real, t: real)
    requires 0.0 < low <= high && t > 0.0
    ensures low / high <= t / t <= high / low
  {
    assert t / t == 1.0;
    QuotientOrder(low, high, high, high);
    assert high / high == 1.0;
    QuotientOrder(low, low, high, low);
    assert low / low == 1.0;
  }

  /** No option's share moves further from its target than the factor limits allow. */
  lemma CorrectionIsBounded(t: seq<real>, history: Option<History>, p: Tuning, exp: real -> real, i: nat)
    requires IsDistribution(t) && p.Valid() && i < |t| && t[i] > 0.0
    ensures p.minFactor / p.maxFactor <= Corrected(t, history, p, exp)[i] / t[i] <= p.maxFactor / p.minFactor
  {
    if history.Some? && history.value.total > 0 {
      CorrectedRatio(t, history.value, p, exp, i);
    } else {
      OneIsWithin(p.minFactor, p.maxFactor, t[i]);
    }
  }

  ghost predicate Monotone(exp: real -> real) {
    forall x, y :: x <= y ==> exp(x) <= exp(y)
  }

  lemma FactorOrder(t: real, a: real, s: real, b: real, total: int, p: Tuning, exp: real -> real)
    requires p.Valid() && Monotone(exp) && total > 0 && t - a <= s - b
    ensures Factor(t, a, total, p, exp) <= Factor(s, b, total, p, exp)
  {
    var g := Times(p.gain, SampleFactor(total, p.warmup));
    var x, y := Limited(p.gapLimit, t - a), Limited(p.gapLimit, s - b);
    assert SampleFactor(total, p.warmup) >= 0.0;
    TimesNonneg(p.gain, SampleFactor(total, p.warmup));
    assert x <= y;
    TimesMonotone(g, x, y);
    hide Times;
    assert exp(Times(g, x)) <= exp(Times(g, y));
  }

  /** With a monotone exponential, the further an option lags behind its target, the more it is favoured. */
  lemma LaggingOptionsAreFavoured(t: seq<real>, h: History, p: Tuning, exp: real -> real, i: nat, j: nat)
    requires IsDistribution(t) && p.Valid() && Monotone(exp) && h.total > 0
    requires i < |t| && j < |t| && t[i] > 0.0 && t[j] > 0.0
    requires t[i] - Observed(h, i) <= t[j] - Observed(h, j)
    ensures Corrected(t, Some(h), p, exp)[i] / t[i] <= Corrected(t, Some(h), p, exp)[j] / t[j]
  {
    CorrectedRatio(t, h, p, exp, i);
    CorrectedRatio(t, h, p, exp, j);
    FactorOrder(t[i], Observed(h, i), t[j], Observed(h, j), h.total, p, exp);
    hide *;
    QuotientOrder(Factor(t[i], Observed(h, i), h.total, p, exp), Sum(Adjusted(t, h, p, exp)),
                  Factor(t[j], Observed(h, j), h.total, p, exp), Sum(Adjusted(t, h, p, exp)));
  }

  /** A target that has been met exactly is left alone. */
  lemma MetTargetsRest(t: seq<real>, h: History, p: Tuning, exp: real -> real)
    requires IsDistribution(t) && p.Valid() && h.total > 0 && exp(0.0) == 1.0
    requires p.minFactor <= 1.0 <= p.maxFactor && p.gapLimit >= 0.0
    requires forall i :: 0 <= i < |t| ==> Observed(h, i) == t[i]
    ensures Corrected(t, Some(h), p, exp) == t
  {
    var a := Adjusted(t, h, p, exp);
    forall i | 0 <= i < |t| ensures a[i] == t[i] {
      TimesZero(Times(p.gain, SampleFactor(h.total, p.warmup)));
      assert Factor(t[i], Observed(h, i), h.total, p, exp) == 1.0;
      TimesUnit(t[i]);
    }
    assert a == t;
    assert Shares(t) == t;
  }

  // ---- the two profiles in numbers ----

  /** How far a share may move from its target: a factor of 2.2 / 0.45 normally, of 1.6 under the reliability profile. */
  lemma ProfileBounds(t: seq<real>, history: Option<History>, exp: real -> real, i: nat)
    requires IsDistribution(t) && i < |t| && t[i] > 0.0
    ensures 0.45 / 2.2 <= Corrected(t, history, TuningFor(false), exp)[i] / t[i] <= 2.2 / 0.45
    ensures 0.625 <= Corrected(t, history, TuningFor(true), exp)[i] / t[i] <= 1.6
  {
    hide Corrected, Sum;
    CorrectionIsBounded(t, history, TuningFor(false), exp, i);
    CorrectionIsBounded(t, history, TuningFor(true), exp, i);
  }

  /** `y` is `x`, held within two limits. */
  predicate HeldWithin(y: real, low: real, x: real, high: real) {
    if x > high then y == high else if x < low then y == low else y == x
  }

  /** By what factor option i is favoured over its target: the exponential of how far its share in the past lags behind,
      times a gain that grows during the warm-up, both held within the limits of the profile. */
  ghost predicate FavouredBy(priority: bool, h: History, exp: real -> real, target: real, i: nat, f: real) {
    h.total > 0 &&
    var (warmup, gain, least, most, limit) := if priority then (14, 1.75, 0.8, 1.28, 0.28) else (12, 4.2, 0.45, 2.2, 0.42);
    var past := if i < |h.counts| then h.counts[i] as real / h.total as real else 0.0;
    var weight := if h.total >= warmup then 1.0 else h.total as real / warmup as real;
    exists lag :: HeldWithin(lag, -limit, target - past, limit)
                  && HeldWithin(f, least, exp(Times(Times(gain, weight), lag)), most)
  }

  lemma FactorIs(priority: bool, h: History, exp: real -> real, target: real, i: nat, f: real)
    requires FavouredBy(priority, h, exp, target, i, f)
    ensures Factor(target, Observed(h, i), h.total, TuningFor(priority), exp) == f
  {
    var p := TuningFor(priority);
    WarmupWeight(h.total, p.warmup);
    hide Times, SampleFactor;
    var past := Observed(h, i);
    var lag :| HeldWithin(lag, -p.gapLimit, target - past, p.gapLimit)
               && HeldWithin(f, p.minFactor, exp(Times(Times(p.gain, SampleFactor(h.total, p.warmup)), lag)), p.maxFactor);
    LimitedIs(p.gapLimit, target - past, lag);
    BetweenIs(p.minFactor, p.maxFactor, exp(Times(Times(p.gain, SampleFactor(h.total, p.warmup)), lag)), f);
  }

  lemma BetweenIs(low: real, high: real, x: real, f: real)
    requires low <= high && HeldWithin(f, low, x, high)
    ensures Between(low, high, x) == f
  {
    if x > high {
      assert Between(low, high, x) == high;
    } else if x < low {
      assert Between(low, high, x) == low;
    }
  }

  lemma LimitedIs(limit: real, x: real, lag: real)
    requires limit >= 0.0 && HeldWithin(lag, -limit, x, limit)
    ensures Limited(limit, x) == lag
  {
    if x > limit {
      assert Least(limit, x) == limit;
    } else {
      assert Least(limit, x) == x;
    }
  }

  lemma WarmupWeight(total: int, warmup: nat)
    requires total > 0 && warmup >= 1
    ensures SampleFactor(total, warmup) == if total >= warmup then 1.0 else total as real / warmup as real
  {
    if total >= warmup {
      assert total as real / warmup as real >= 1.0;
    } else {
      assert total as real / warmup as real < 1.0;
    }
  }

  lemma CrossShares(x: real, y: real, total: real)
    requires total > 0.0
    ensures Times(x / total, y) == Times(y / total, x)
  {
    assert (x / total) * y == (x * y) / total;
  }

  /** Shares stand to each other as the targets times the factors by which the options are favoured. */
  lemma CorrectionOdds(t: seq<real>, h: History, priority: bool, exp: real -> real, i: nat, j: nat, fi: real, fj: real)
    requires IsDistribution(t) && i < |t| && j < |t| && t[i] > 0.0 && t[j] > 0.0
    requires FavouredBy(priority, h, exp, t[i], i, fi) && FavouredBy(priority, h, exp, t[j], j, fj)
    ensures
      var r := Corrected(t, Some(h), TuningFor(priority), exp);
      Times(r[i], Times(t[j], fj)) == Times(r[j], Times(t[i], fi))
  {
    var p := TuningFor(priority);
    AdjustedTotal(t, h, p, exp);
    FactorIs(priority, h, exp, t[i], i, fi);
    FactorIs(priority, h, exp, t[j], j, fj);
    hide Times, Sum, Factor, FavouredBy;
    CrossShares(Times(t[i], fi), Times(t[j], fj), Sum(Adjusted(t, h, p, exp)));
  }
}
