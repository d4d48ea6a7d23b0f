/** Handing option quotas out to samples by score rank, and translating score levels to options. */
module ScoreAssignment {
  import opened Sums
  import opened Sorting
  import opened Wrappers

  function AtLeastZero(q: int): nat {
    if q < 0 then 0 else q
  }

  function Repeat(level: nat, count: nat): (r: seq<nat>)
    ensures |r| == count
    ensures forall i :: 0 <= i < count ==> r[i] == level
  {
    seq(count, i requires 0 <= i < count => level)
  }

  /** Every level as often as its quota says, lowest level first. */
  function Ladder(quotas: seq<int>): seq<nat> {
    if |quotas| == 0 then []
    else
      var n := |quotas| - 1;
      Ladder(quotas[..n]) + Repeat(n, AtLeastZero(quotas[n]))
  }

  /** The ladder cut, or padded with its last level, to the number of samples. */
  function Fitted(quotas: seq<int>, count: nat): (r: seq<nat>)
    ensures |r| == count
  {
    var ladder := Ladder(quotas);
    if |ladder| < count then ladder + Repeat(if |quotas| == 0 then 0 else |quotas| - 1, count - |ladder|)
    else ladder[..count]
  }

  function Score(scores: seq<real>, i: nat): real {
    if i < |scores| then scores[i] else 0.0
  }

  predicate ScoreAtMost(scores: seq<real>, i: nat, j: nat) {
    Score(scores, i) <= Score(scores, j)
  }

  predicate Earlier(i: nat, j: nat) {
    i < j
  }

  /** Sample indices by ascending score, as the stable sort leaves them. */
  function RankedSamples(scores: seq<real>): (r: seq<nat>)
    ensures |r| == |scores| && multiset(r) == multiset(Indices(|scores|))
    ensures forall k :: 0 <= k < |r| ==> r[k] < |scores|
  {
    var r := Sort((i: nat, j: nat) => ScoreAtMost(scores, i, j), Indices(|scores|));
    assert forall k :: 0 <= k < |r| ==> r[k] in multiset(r);
    r
  }

  /** Writes levels[k] at position order[k], in order. */
  function Place(base: seq<nat>, order: seq<nat>, levels: seq<nat>): (r: seq<nat>)
    requires |order| <= |levels|
    requires forall k :: 0 <= k < |order| ==> order[k] < |base|
    ensures |r| == |base|
  {
    if |order| == 0 then base
    else
      var n := |order| - 1;
      Place(base, order[..n], levels)[order[n] := levels[n]]
  }

  function Assign(scores: seq<real>, quotas: seq<int>): (a: seq<nat>)
    ensures |a| == |scores|
  {
    Place(Repeat(0, |scores|), RankedSamples(scores), Fitted(quotas, |scores|))
  }

  method AssignChoicesFromScores(scores: seq<real>, quotas: seq<int>) returns (given: seq<nat>)
    ensures given == Assign(scores, quotas)
  {
    var count := |scores|;
    var ordered: seq<nat> := [];
    var option := 0;
    while option < |quotas|
      invariant 0 <= option <= |quotas|
      invariant ordered == Ladder(quotas[..option])
    {
      assert quotas[..option + 1][..option] == quotas[..option];
      ordered := ordered + Repeat(option, AtLeastZero(quotas[option]));
      option := option + 1;
    }
    assert quotas[..option] == quotas;
    if |ordered| < count {
      ordered := ordered + Repeat(if |quotas| == 0 then 0 else |quotas| - 1, count - |ordered|);
    } else if |ordered| > count {
      ordered := ordered[..count];
    }
    assert ordered == Fitted(quotas, count);
    var ranked := RankedSamples(scores);
    given := Repeat(0, count);
    var k := 0;
    while k < |ranked|
      invariant 0 <= k <= |ranked|
      invariant given == Place(Repeat(0, count), ranked[..k], ordered)
    {
      assert ranked[..k + 1][..k] == ranked[..k];
      given := given[ranked[k] := ordered[k]];
      k := k + 1;
    }
    assert ranked[..k] == ranked;
  }

  // ---- the ladder ----

  lemma {:induction false} LadderCounts(quotas: seq<int>)
    requires forall i :: 0 <= i < |quotas| ==> quotas[i] >= 0
    ensures |Ladder(quotas)| == Total(quotas)
    ensures forall c: nat :: multiset(Ladder(quotas))[c] == if c < |quotas| then quotas[c] else 0
  {
    if |quotas| > 0 {
      var n := |quotas| - 1;
      LadderCounts(quotas[..n]);
      RepeatCount(n, quotas[n]);
    }
  }

  lemma {:induction false} RepeatCount(level: nat, count: nat)
    ensures forall c: nat :: multiset(Repeat(level, count))[c] == if c == level then count else 0
  {
    if count > 0 {
      RepeatCount(level, count - 1);
      assert Repeat(level, count) == Repeat(level, count - 1) + [level];
    }
  }

  ghost predicate NeverFalling(levels: seq<nat>) {
    forall i, j :: 0 <= i < j < |levels| ==> levels[i] <= levels[j]
  }

  lemma {:induction false} LadderAscends(quotas: seq<int>)
    ensures NeverFalling(Ladder(quotas))
    ensures forall i :: 0 <= i < |Ladder(quotas)| ==> Ladder(quotas)[i] < |quotas|
  {
    if |quotas| > 0 {
      LadderAscends(quotas[..|quotas| - 1]);
    }
  }

  lemma FittedAscends(quotas: seq<int>, count: nat)
    ensures NeverFalling(Fitted(quotas, count))
  {
    LadderAscends(quotas);
  }

  // ---- placing along a permutation ----

  lemma RankedFacts(scores: seq<real>)
    ensures Distinct(RankedSamples(scores))
    ensures forall s: nat :: s < |scores| ==> s in RankedSamples(scores)
    ensures forall a, b :: 0 <= a < b < |scores| ==>
      var i, j := RankedSamples(scores)[a], RankedSamples(scores)[b];
      scores[i] < scores[j] || (scores[i] == scores[j] && i < j)
  {
    var le := (i: nat, j: nat) => ScoreAtMost(scores, i, j);
    var r := RankedSamples(scores);
    SortStable(le, Earlier, Indices(|scores|));
    DistinctPermutes(Indices(|scores|), r);
    SameElements(Indices(|scores|), r);
    forall s: nat | s < |scores| ensures s in r {
      assert Indices(|scores|)[s] == s;
    }
    forall a, b | 0 <= a < b < |scores|
      ensures scores[r[a]] < scores[r[b]] || (scores[r[a]] == scores[r[b]] && r[a] < r[b])
    {
      assert le(r[a], r[b]) && (le(r[b], r[a]) ==> Earlier(r[a], r[b]));
    }
  }

  lemma {:induction false} PlaceAt(base: seq<nat>, order: seq<nat>, levels: seq<nat>, k: nat)
    requires |order| <= |levels| && k < |order|
    requires forall i :: 0 <= i < |order| ==> order[i] < |base|
    requires Distinct(order)
    ensures Place(base, order, levels)[order[k]] == levels[k]
  {
    var n := |order| - 1;
    if k < n {
      PlaceAt(base, order[..n], levels, k);
    }
  }

  function Gather<T>(xs: seq<T>, idxs: seq<nat>): (r: seq<T>)
    requires forall k :: 0 <= k < |idxs| ==> idxs[k] < |xs|
    ensures |r| == |idxs|
    ensures forall k :: 0 <= k < |idxs| ==> r[k] == xs[idxs[k]]
  {
    seq(|idxs|, k requires 0 <= k < |idxs| => xs[idxs[k]])
  }

  lemma WithoutMultiset<T>(xs: seq<T>, p: nat)
    requires p < |xs|
    ensures multiset(xs) == multiset(Without(xs, p)) + multiset{xs[p]}
    ensures multiset(Without(xs, p)) == multiset(xs) - multiset{xs[p]}
  {
    assert xs == xs[..p] + [xs[p]] + xs[p + 1..];
  }

  ghost predicate InRange(idxs: seq<nat>, n: nat) {
    forall k :: 0 <= k < |idxs| ==> idxs[k] < n
  }

  lemma GatherWithout<T>(xs: seq<T>, idxs: seq<nat>, p: nat)
    requires InRange(idxs, |xs|) && p < |idxs|
    ensures InRange(Without(idxs, p), |xs|)
    ensures multiset(Gather(xs, idxs)) == multiset(Gather(xs, Without(idxs, p))) + multiset{xs[idxs[p]]}
  {
    WithoutMultiset(Gather(xs, idxs), p);
    assert Without(Gather(xs, idxs), p) == Gather(xs, Without(idxs, p));
  }

  /** Reading a sequence through two rearrangements of the same indices gives the same multiset. */
  lemma {:induction false} GatherPermutes<T>(xs: seq<T>, a: seq<nat>, b: seq<nat>)
    requires multiset(a) == multiset(b) && InRange(a, |xs|) && InRange(b, |xs|)
    ensures multiset(Gather(xs, a)) == multiset(Gather(xs, b))
  {
    if |a| == 0 {
      assert |multiset(b)| == 0;
    } else {
      assert a[0] in multiset(b);
      var p: nat :| p < |b| && b[p] == a[0];
      WithoutMultiset(a, 0);
      WithoutMultiset(b, p);
      GatherWithout(xs, a, 0);
      GatherWithout(xs, b, p);
      hide Without, Gather, InRange;
      GatherPermutes(xs, Without(a, 0), Without(b, p));
    }
  }

  /** The assignment hands out exactly the fitted levels. */
  lemma AssignmentUsesLevels(scores: seq<real>, quotas: seq<int>)
    ensures multiset(Assign(scores, quotas)) == multiset(Fitted(quotas, |scores|))
  {
    var a := Assign(scores, quotas);
    var ranked := RankedSamples(scores);
    RankedFacts(scores);
    hide RankedSamples, Fitted;
    forall k: nat | k < |ranked| ensures a[ranked[k]] == Fitted(quotas, |scores|)[k] {
      PlaceAt(Repeat(0, |scores|), ranked, Fitted(quotas, |scores|), k);
    }
    assert Gather(a, ranked) == Fitted(quotas, |scores|);
    GatherPermutes(a, ranked, Indices(|scores|));
    assert Gather(a, Indices(|scores|)) == a;
  }

  /** Quotas that add up to the sample count survive exactly: level c goes to quotas[c] samples. */
  lemma QuotasSurvive(scores: seq<real>, quotas: seq<int>)
    requires forall i :: 0 <= i < |quotas| ==> quotas[i] >= 0
    requires Total(quotas) == |scores|
    ensures forall c: nat :: multiset(Assign(scores, quotas))[c] == if c < |quotas| then quotas[c] else 0
  {
    AssignmentUsesLevels(scores, quotas);
    LadderCounts(quotas);
    assert Fitted(quotas, |scores|) == Ladder(quotas);
  }

  /** For any quotas: a higher score never gets a lower level, nor does a later sample of equal score. */
  lemma HigherScoreHigherLevel(scores: seq<real>, quotas: seq<int>, i: nat, j: nat)
    requires i < |scores| && j < |scores|
    requires scores[i] < scores[j] || (scores[i] == scores[j] && i < j)
    ensures Assign(scores, quotas)[i] <= Assign(scores, quotas)[j]
  {
    var ranked := RankedSamples(scores);
    var levels := Fitted(quotas, |scores|);
    RankedFacts(scores);
    FittedAscends(quotas, |scores|);
    assert i in ranked && j in ranked;
    var a: nat :| a < |ranked| && ranked[a] == i;
    var b: nat :| b < |ranked| && ranked[b] == j;
    PlaceAt(Repeat(0, |scores|), ranked, levels, a);
    PlaceAt(Repeat(0, |scores|), ranked, levels, b);
  }

  // ---- score levels and options ----

  /** The nearest option index in range. */
  function Clamp(optionCount: int, index: int): (r: int)
    requires optionCount > 0
    ensures 0 <= r < optionCount
    ensures 0 <= index < optionCount ==> r == index
  {
    if index < 0 then 0 else if index >= optionCount then optionCount - 1 else index
  }

  /** No option in range lies nearer: the clamped index stands between the given one and any of them. */
  lemma ClampIsNearest(optionCount: int, index: int, k: int)
    requires 0 <= k < optionCount
    ensures
      var r := Clamp(optionCount, index);
      index <= r <= k || k <= r <= index
  {
  }

  /** The first option mapped to `score`, if any. */
  function FirstOption(levels: seq<int>, score: int): Option<nat> {
    if score in levels then Some(FirstIndex(levels, score)) else None
  }

  function FirstIndex(levels: seq<int>, score: int): (c: nat)
    requires score in levels
    ensures c < |levels| && levels[c] == score
    ensures forall d :: 0 <= d < c ==> levels[d] != score
  {
    if levels[0] == score then 0 else 1 + FirstIndex(levels[1..], score)
  }

  /** The option a score level stands for; an empty `levels` means the item has no score map. */
  function ChoiceForScore(optionCount: int, levels: seq<int>, score: int): (c: int)
    requires optionCount > 0
    ensures 0 <= c < optionCount
  {
    var found := FirstOption(levels, score);
    Clamp(optionCount, if found.Some? then found.value else score)
  }

  method ChoiceIndexForScore(optionCount: int, levels: seq<int>, score: int) returns (c: int)
    requires optionCount > 0
    ensures c == ChoiceForScore(optionCount, levels, score)
  {
    if |levels| == 0 {
      return Clamp(optionCount, score);
    }
    for i := 0 to |levels|
      invariant score !in levels[..i]
    {
      if levels[i] == score {
        assert levels == levels[..i] + levels[i..];
        return Clamp(optionCount, i);
      }
    }
    assert levels[..|levels|] == levels;
    return Clamp(optionCount, score);
  }

  /** The score level of an option. */
  function ScoreForChoice(optionCount: int, levels: seq<int>, choice: int): (s: int)
    requires optionCount > 0
    ensures 0 <= s < optionCount
  {
    if |levels| > 0 && 0 <= choice < |levels| then Clamp(optionCount, levels[choice]) else Clamp(optionCount, choice)
  }

  /** The acceptance test for an ordinal mapping: sorted, it is 0, 1, ..., n - 1. */
  predicate IsOrdinalMapping(levels: seq<int>) {
    Sort(IntAtMost, levels) == IntRange(|levels|)
  }

  /** The test accepts exactly the sequences with distinct entries below their length. */
  lemma OrdinalMappingIff(levels: seq<int>)
    ensures IsOrdinalMapping(levels)
      <==> Distinct(levels) && forall i :: 0 <= i < |levels| ==> 0 <= levels[i] < |levels|
  {
    var sorted := Sort(IntAtMost, levels);
    IntAtMostPreorder();
    SortSorts(IntAtMost, levels);
    SameElements(levels, sorted);
    if IsOrdinalMapping(levels) {
      DistinctPermutes(IntRange(|levels|), levels);
      forall i | 0 <= i < |levels| ensures 0 <= levels[i] < |levels| {
        assert levels[i] in sorted;
      }
    }
    if Distinct(levels) && forall i :: 0 <= i < |levels| ==> 0 <= levels[i] < |levels| {
      DistinctPermutes(levels, sorted);
      forall i | 0 <= i < |levels| ensures 0 <= sorted[i] < |levels| {
        assert sorted[i] in levels;
      }
      DistinctSortedIsRange(sorted);
    }
  }

  lemma DistinctSortedIsRange(xs: seq<int>)
    requires Distinct(xs) && SortedBy(IntAtMost, xs)
    requires forall i :: 0 <= i < |xs| ==> 0 <= xs[i] < |xs|
    ensures xs == IntRange(|xs|)
  {
    forall i | 0 <= i < |xs| ensures xs[i] == i {
      StrictlyAbove(xs, i);
      StrictlyBelow(xs, i);
    }
  }

  lemma {:induction false} StrictlyAbove(xs: seq<int>, i: nat)
    requires Distinct(xs) && SortedBy(IntAtMost, xs) && i < |xs| && xs[0] >= 0
    ensures xs[i] >= i
  {
    if i > 0 {
      StrictlyAbove(xs, i - 1);
      assert IntAtMost(xs[i - 1], xs[i]);
    }
  }

  lemma {:induction false} StrictlyBelow(xs: seq<int>, i: nat)
    requires Distinct(xs) && SortedBy(IntAtMost, xs) && i < |xs| && xs[|xs| - 1] < |xs|
    ensures xs[i] <= i
    decreases |xs| - i
  {
    if i < |xs| - 1 {
      StrictlyBelow(xs, i + 1);
      assert IntAtMost(xs[i], xs[i + 1]);
    }
  }

  /** An accepted mapping covers every level. */
  lemma OrdinalMappingCovers(levels: seq<int>, score: int)
    requires IsOrdinalMapping(levels) && 0 <= score < |levels|
    ensures score in levels
  {
    assert IntRange(|levels|)[score] == score;
    SameElements(levels, Sort(IntAtMost, levels));
  }

  /** Score-to-option and option-to-score undo each other for an item without a map, and for an
      item whose map passed the acceptance test. */
  lemma ScoreChoiceInverse(optionCount: int, levels: seq<int>, x: int)
    requires optionCount > 0 && 0 <= x < optionCount
    requires |levels| == 0 || (|levels| == optionCount && IsOrdinalMapping(levels))
    ensures ScoreForChoice(optionCount, levels, ChoiceForScore(optionCount, levels, x)) == x
    ensures ChoiceForScore(optionCount, levels, ScoreForChoice(optionCount, levels, x)) == x
  {
    if |levels| > 0 {
      OrdinalMappingIff(levels);
      OrdinalMappingCovers(levels, x);
    }
  }

  function Choices(optionCount: int, levels: seq<int>, given: seq<nat>): (r: seq<int>)
    requires optionCount > 0
    ensures |r| == |given|
    ensures forall k :: 0 <= k < |given| ==> r[k] == ChoiceForScore(optionCount, levels, given[k])
  {
    seq(|given|, k requires 0 <= k < |given| => ChoiceForScore(optionCount, levels, given[k]))
  }

  /** Option c is chosen as often as its score level was assigned. */
  lemma {:induction false} ChoiceCounts(optionCount: int, levels: seq<int>, given: seq<nat>, c: int)
    requires optionCount > 0 && 0 <= c < optionCount
    requires |levels| == 0 || (|levels| == optionCount && IsOrdinalMapping(levels))
    requires forall k :: 0 <= k < |given| ==> given[k] < optionCount
    ensures multiset(Choices(optionCount, levels, given))[c]
         == multiset(given)[ScoreForChoice(optionCount, levels, c)]
  {
    if |given| > 0 {
      var n := |given| - 1;
      ChoiceCounts(optionCount, levels, given[..n], c);
      assert given == given[..n] + [given[n]];
      assert Choices(optionCount, levels, given)
          == Choices(optionCount, levels, given[..n]) + [ChoiceForScore(optionCount, levels, given[n])];
      ScoreChoiceInverse(optionCount, levels, given[n]);
      ScoreChoiceInverse(optionCount, levels, c);
    }
  }
}
