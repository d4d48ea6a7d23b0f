/** One evaluation of a psychometric dimension: quotas, rank assignment, option choices and alpha together. */
module DimensionPlan {
  import opened Sums
  import opened Sorting
  import opened Wrappers
  import opened Quotas
  import opened ScoreAssignment
  import opened CronbachAlpha

  const MICRO_JITTER_SIGMA := 0.03

  datatype Item = Item(key: string, weights: seq<Weight>, optionCount: int, levels: seq<int>) {
    /** What the blueprint builder guarantees: one weight per option, and a score map only if it is ordinal. */
    ghost predicate Valid() {
      && optionCount == |weights| >= 2
      && (|levels| == 0 || (|levels| == optionCount && IsOrdinalMapping(levels)))
    }
  }

  /** The random inputs of an evaluation, one trait per sample and two noise draws per item and sample. */
  datatype Draws = Draws(theta: seq<real>, noise: seq<seq<real>>, jitter: seq<seq<real>>) {
    predicate Fits(itemCount: nat, sampleCount: nat) {
      && |theta| == sampleCount
      && |noise| == itemCount && (forall i :: 0 <= i < itemCount ==> |noise[i]| == sampleCount)
      && |jitter| == itemCount && (forall i :: 0 <= i < itemCount ==> |jitter[i]| == sampleCount)
    }
  }

  function ItemScores(d: Draws, i: nat, n: nat, sigma: real, isReversed: bool): (r: seq<real>)
    requires d.Fits(|d.noise|, n) && i < |d.noise|
    ensures |r| == n
  {
    var sign := if isReversed then -1.0 else 1.0;
    seq(n, s requires 0 <= s < n =>
      sign * d.theta[s] + sigma * d.noise[i][s] + MICRO_JITTER_SIGMA * d.jitter[i][s])
  }

  /** The score level each sample gets on item i. */
  function Levels(items: seq<Item>, d: Draws, n: nat, sigma: real, flipped: set<string>, i: nat): (r: seq<nat>)
    requires d.Fits(|items|, n) && i < |items|
    ensures |r| == n
  {
    Assign(ItemScores(d, i, n, sigma, items[i].key in flipped), Quotas.Quotas(items[i].weights, n))
  }

  /** A reversed item is scored from the other end. */
  function Response(item: Item, isReversed: bool, level: nat): real {
    if isReversed then (item.optionCount - level) as real else (level + 1) as real
  }

  function Responses(items: seq<Item>, d: Draws, n: nat, sigma: real, flipped: set<string>): (m: Matrix)
    requires d.Fits(|items|, n)
    ensures |m| == n && Rectangular(m, |items|)
    ensures forall s, i :: 0 <= s < n && 0 <= i < |items| ==>
      m[s][i] == Response(items[i], items[i].key in flipped, Levels(items, d, n, sigma, flipped, i)[s])
  {
    seq(n, s requires 0 <= s < n => seq(|items|, i requires 0 <= i < |items| =>
      Response(items[i], items[i].key in flipped, Levels(items, d, n, sigma, flipped, i)[s])))
  }

  function ItemChoices(items: seq<Item>, d: Draws, n: nat, sigma: real, flipped: set<string>, i: nat): (r: seq<int>)
    requires d.Fits(|items|, n) && i < |items| && items[i].optionCount > 0
    ensures |r| == n
  {
    Choices(items[i].optionCount, items[i].levels, Levels(items, d, n, sigma, flipped, i))
  }

  method EvaluateDimensionPlan(items: seq<Item>, n: nat, sigma: real, d: Draws, flipped: set<string>)
    returns (alpha: Option<real>, choicesByItem: map<string, seq<int>>)
    requires d.Fits(|items|, n)
    requires forall i :: 0 <= i < |items| ==> items[i].optionCount > 0
    ensures alpha == Alpha(Responses(items, d, n, sigma, flipped))
    ensures choicesByItem.Keys == set i | 0 <= i < |items| :: items[i].key
    ensures forall i: nat :: i < |items| && (forall j :: i < j < |items| ==> items[j].key != items[i].key) ==>
      choicesByItem[items[i].key] == ItemChoices(items, d, n, sigma, flipped, i)
  {
    hide Quotas.Quotas, Assign, Alpha, Choices, Response, ItemScores, Times;
    choicesByItem := map[];
    var rows: Matrix := seq(n, s requires 0 <= s < n => seq(|items|, i requires 0 <= i < |items| => 0.0));
    var i := 0;
    while i < |items|
      invariant 0 <= i <= |items|
      invariant |rows| == n && Rectangular(rows, |items|)
      invariant forall s, j :: 0 <= s < n && 0 <= j < i ==>
        rows[s][j] == Response(items[j], items[j].key in flipped, Levels(items, d, n, sigma, flipped, j)[s])
      invariant choicesByItem.Keys == set j | 0 <= j < i :: items[j].key
      invariant forall k: nat :: k < i && (forall j :: k < j < i ==> items[j].key != items[k].key) ==>
        choicesByItem[items[k].key] == ItemChoices(items, d, n, sigma, flipped, k)
    {
      var isReversed := items[i].key in flipped;
      var quotas := BuildIntegerQuotas(items[i].weights, n);
      var levels := AssignChoicesFromScores(ItemScores(d, i, n, sigma, isReversed), quotas);
      assert levels == Levels(items, d, n, sigma, flipped, i);
      choicesByItem := choicesByItem[items[i].key := Choices(items[i].optionCount, items[i].levels, levels)];
      rows := FillColumn(rows, |items|, i, items[i], isReversed, levels);
      i := i + 1;
    }
    ghost var all := Responses(items, d, n, sigma, flipped);
    forall s | 0 <= s < n ensures rows[s] == all[s] {
      assert forall j :: 0 <= j < |items| ==> rows[s][j] == all[s][j];
    }
    assert rows == all;
    alpha := ComputeAlpha(rows);
  }

  method FillColumn(rows: Matrix, k: nat, i: nat, item: Item, isReversed: bool, levels: seq<nat>) returns (filled: Matrix)
    requires Rectangular(rows, k) && i < k && |levels| == |rows|
    ensures |filled| == |rows| && Rectangular(filled, k)
    ensures forall s :: 0 <= s < |rows| ==> filled[s] == rows[s][i := Response(item, isReversed, levels[s])]
  {
    filled := rows;
    var s := 0;
    while s < |rows|
      invariant 0 <= s <= |rows| == |filled|
      invariant forall u :: 0 <= u < s ==> filled[u] == rows[u][i := Response(item, isReversed, levels[u])]
      invariant forall u :: s <= u < |rows| ==> filled[u] == rows[u]
    {
      filled := filled[s := filled[s][i := Response(item, isReversed, levels[s])]];
      s := s + 1;
    }
  }

  /** Whatever the draws, the noise level and the set of reversed items: option c of a valid item is
      chosen for exactly as many samples as the quota of the score level it carries. */
  lemma PlanKeepsQuotas(items: seq<Item>, d: Draws, n: nat, sigma: real, flipped: set<string>, i: nat, c: nat)
    requires d.Fits(|items|, n) && n > 0 && i < |items| && items[i].Valid() && c < items[i].optionCount
    ensures
      var level := ScoreForChoice(items[i].optionCount, items[i].levels, c);
      multiset(ItemChoices(items, d, n, sigma, flipped, i))[c] == Quotas.Quotas(items[i].weights, n)[level]
  {
    var item := items[i];
    var q := Quotas.Quotas(item.weights, n);
    var scores := ItemScores(d, i, n, sigma, item.key in flipped);
    var levels := Levels(items, d, n, sigma, flipped, i);
    QuotasApportion(item.weights, n);
    QuotasNonneg(item.weights, n);
    hide Quotas.Quotas, ItemScores, Total, Normalized, Times;
    QuotasSurvive(scores, q);
    forall k | 0 <= k < |levels| ensures levels[k] < item.optionCount {
      assert levels[k] in multiset(levels);
    }
    ChoiceCounts(item.optionCount, item.levels, levels, c);
  }

  lemma QuotasNonneg(ws: seq<Weight>, n: int)
    requires |ws| > 0
    ensures forall i :: 0 <= i < |ws| ==> Quotas.Quotas(ws, n)[i] >= 0
  {
    if n > 0 {
      QuotasApportion(ws, n);
      NormalizedIsDistribution(ws);
      hide Quotas.Quotas, Normalized;
      forall i: nat | i < |ws| ensures Quotas.Quotas(ws, n)[i] >= 0 {
        TimesMonotone(n as real, 0.0, Normalized(ws)[i]);
      }
    }
  }

  /** Responses lie between one and the option count, and the two ways of scoring a level add up to one more than it. */
  lemma ResponseIs(item: Item, level: nat)
    ensures Response(item, false, level) == level as real + 1.0
    ensures Response(item, true, level) + Response(item, false, level) == item.optionCount as real + 1.0
    ensures level < item.optionCount ==> forall r :: 1.0 <= Response(item, r, level) <= item.optionCount as real
  {
  }

  /** How noise moves a score: turning the trait and the scoring of an item around at once only changes the sign of the
      trait's part; what noise and jitter add is the same for both. */
  lemma ScoresAreTraitAndNoise(d: Draws, i: nat, n: nat, sigma: real, s: nat)
    requires d.Fits(|d.noise|, n) && i < |d.noise| && s < n
    ensures
      var kept, turned := ItemScores(d, i, n, sigma, false)[s], ItemScores(d, i, n, sigma, true)[s];
      kept - turned == 2.0 * d.theta[s] && kept + turned == 2.0 * (sigma * d.noise[i][s] + 0.03 * d.jitter[i][s])
  {
  }

  /** The alpha of a plan over at least two items exists and is at most one. */
  lemma PlanAlphaAtMostOne(items: seq<Item>, d: Draws, n: nat, sigma: real, flipped: set<string>)
    requires d.Fits(|items|, n) && n > 0 && |items| >= 2
    ensures Alpha(Responses(items, d, n, sigma, flipped)).Some?
    ensures Alpha(Responses(items, d, n, sigma, flipped)).value <= 1.0
  {
    AlphaAtMostOne(Responses(items, d, n, sigma, flipped), |items|);
  }

  /** Without noise and jitter the responses rise with the trait on every item, reversed or not. */
  lemma NoiselessResponsesRise(items: seq<Item>, d: Draws, n: nat, flipped: set<string>, i: nat, s: nat, u: nat)
    requires d.Fits(|items|, n) && i < |items| && s < n && u < n
    requires forall k, v :: 0 <= k < |items| && 0 <= v < n ==> d.jitter[k][v] == 0.0
    requires d.theta[s] < d.theta[u]
    ensures Responses(items, d, n, 0.0, flipped)[s][i] <= Responses(items, d, n, 0.0, flipped)[u][i]
  {
    var isReversed := items[i].key in flipped;
    var scores := ItemScores(d, i, n, 0.0, isReversed);
    var q := Quotas.Quotas(items[i].weights, n);
    assert scores[s] == (if isReversed then -d.theta[s] else d.theta[s]);
    assert scores[u] == (if isReversed then -d.theta[u] else d.theta[u]);
    hide Quotas.Quotas, ItemScores;
    if isReversed {
      HigherScoreHigherLevel(scores, q, u, s);
    } else {
      HigherScoreHigherLevel(scores, q, s, u);
    }
  }
}
