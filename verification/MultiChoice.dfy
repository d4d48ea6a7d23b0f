/** Building the answer to a multiple-choice question: at random, by a mask of independent draws, or by a strict ratio. */
module MultiChoice {
  import opened Wrappers
  import opened Sums
  import opened Sorting
  import opened AnswerRules
  import opened WeightedSample
  import opened MultiSelect

  /** How the selection is drafted; random draws are given. `Masked` holds the outcome of the retried mask
      and the option that stands in when it is empty. */
  datatype Draft =
    | Uniform(sampled: seq<int>)
    | Weighted(probabilities: seq<real>, mask: seq<bool>, lucky: int)
    | Strict(probabilities: seq<real>, rounding: real, draws: seq<real>)

  /** A limit of 0 is no limit. */
  datatype Question = Question(optionCount: int, minLimit: int, maxLimit: int) {
    function Limits(): (l: Limits)
      ensures optionCount >= 1 ==> 1 <= l.min <= l.max <= optionCount && l.Min() == l.min && l.Max() == l.max
    {
      var max := AtLeast(1, AtMost(if maxLimit == 0 then optionCount else maxLimit, optionCount));
      var min := AtLeast(1, AtMost(if minLimit == 0 then 1 else minLimit, optionCount));
      MultiSelect.Limits.Limits(optionCount, AtMost(min, max), max)
    }
  }

  /** The limits in force: those given, as far as they fit; no limit given means one option at least and all at most; the
      upper limit wins over the lower. */
  lemma LimitsInForce(q: Question)
    requires q.optionCount >= 1
    ensures
      var l := q.Limits();
      && l.optionCount == q.optionCount && 1 <= l.min <= l.max <= q.optionCount
      && (1 <= q.maxLimit <= q.optionCount ==> l.max == q.maxLimit)
      && (q.maxLimit == 0 || q.maxLimit > q.optionCount ==> l.max == q.optionCount)
      && (q.maxLimit < 0 ==> l.max == 1)
      && (1 <= q.minLimit <= l.max ==> l.min == q.minLimit)
      && (q.minLimit <= 0 ==> l.min == 1)
      && (q.minLimit > l.max ==> l.min == l.max)
  {
  }

  /** The members of a set that are options, in ascending order. */
  function Listed(s: set<int>, n: int): (r: seq<int>)
    ensures forall x :: x in r <==> x in s && InRange(x, n)
  {
    if n <= 0 then [] else if n - 1 in s then Listed(s, n - 1) + [n - 1] else Listed(s, n - 1)
  }

  lemma {:induction false} ListedAscends(s: set<int>, n: int)
    ensures Ascending(Listed(s, n))
  {
    if n > 0 {
      var before := Listed(s, n - 1);
      ListedAscends(s, n - 1);
      forall i | 0 <= i < |before| ensures before[i] < n - 1 {
        assert before[i] in before;
      }
    }
  }

  function Percent(p: real): real {
    if p < 0.0 then 0.0 else if p > 100.0 then 100.0 else p
  }

  /** The weights that are left for drawing: within 0 and 100, one per option, none for options already decided. */
  function Silenced(probabilities: seq<real>, n: nat, decided: set<int>): (w: seq<real>)
    ensures |w| == n
    ensures forall i {:trigger w[i]} :: 0 <= i < n ==>
              w[i] == if i in decided || i >= |probabilities| then 0.0 else Percent(probabilities[i])
  {
    seq(n, i requires 0 <= i => if i in decided || i >= |probabilities| then 0.0 else Percent(probabilities[i]))
  }

  function PositivePositions(w: seq<real>): (r: seq<int>)
    ensures |r| <= |w|
    ensures forall i :: i in r <==> 0 <= i < |w| && w[i] > 0.0
  {
    if |w| == 0 then []
    else
      var n := |w| - 1;
      if w[n] > 0.0 then PositivePositions(w[..n]) + [n] else PositivePositions(w[..n])
  }

  lemma {:induction false} PositiveAscends(w: seq<real>)
    ensures Ascending(PositivePositions(w))
  {
    if |w| > 0 {
      var before := PositivePositions(w[..|w| - 1]);
      PositiveAscends(w[..|w| - 1]);
      forall i | 0 <= i < |before| ensures before[i] < |w| - 1 {
        assert before[i] in before;
      }
    }
  }

  function WeightsAt(w: seq<real>, positions: seq<int>): (r: seq<real>)
    requires forall i :: i in positions ==> 0 <= i < |w|
    ensures |r| == |positions|
    ensures forall k {:trigger r[k]} :: 0 <= k < |r| ==> positions[k] in positions && r[k] == w[positions[k]]
  {
    seq(|positions|, k requires 0 <= k < |positions| && positions[k] in positions => w[positions[k]])
  }

  /** Rounds up with probability equal to the fraction. */
  function StochasticRound(v: real, draw: real): int {
    if v <= 0.0 then 0 else if draw < v - v.Floor as real then v.Floor + 1 else v.Floor
  }

  // ---- the strict ratio ----

  datatype StrictPlan = StrictPlan(required: seq<int>, optional: seq<int>, weights: seq<real>, total: int)

  function PlanStrict(l: Limits, c: Constraint, probabilities: seq<real>, rounding: real): (p: StrictPlan)
    requires l.optionCount >= 1
    ensures |p.required| <= p.total <= |p.required| + |p.optional|
    ensures AtMost(l.Min(), AtMost(l.Max(), |p.required| + |p.optional|)) <= p.total <= l.Max()
    ensures |p.weights| == |p.optional| <= l.optionCount
  {
    var n := l.optionCount;
    var listed := Listed(c.must, n);
    var required := listed[..AtMost(|listed|, l.Max())];
    var w := Silenced(probabilities, n, c.must + c.mustNot);
    var optional := PositivePositions(w);
    var weights := WeightsAt(w, optional);
    var maxTotal := AtMost(l.Max(), |required| + |optional|);
    var minTotal := AtMost(AtLeast(l.Min(), |required|), maxTotal);
    var expected := Sum(weights) / 100.0;
    StrictPlan(required, optional, weights, AtLeast(minTotal, AtMost(maxTotal, |required| + StochasticRound(expected, rounding))))
  }

  function StrictSelection(l: Limits, c: Constraint, probabilities: seq<real>, rounding: real, draws: seq<real>): seq<int>
    requires l.optionCount >= 1 && |draws| >= l.optionCount
  {
    var p := PlanStrict(l, c, probabilities, rounding);
    Normal(p.required + Sample(Tickets(p.optional, p.weights), p.total - |p.required|, draws), l.optionCount)
  }

  method BuildStrict(l: Limits, c: Constraint, probabilities: seq<real>, rounding: real, draws: seq<real>)
    returns (selected: seq<int>)
    requires l.optionCount >= 1 && |draws| >= l.optionCount
    ensures selected == StrictSelection(l, c, probabilities, rounding, draws)
  {
    hide PlanStrict, Tickets, Sample, Normal;
    var p := PlanStrict(l, c, probabilities, rounding);
    var sampled := WeightedSampleWithoutReplacement(p.optional, p.weights, p.total - |p.required|, draws);
    selected := NormalizeSelectedIndices(p.required + sampled, l.optionCount);
  }

  lemma SampledFacts(optional: seq<int>, weights: seq<real>, count: int, draws: seq<real>)
    requires Ascending(optional) && |weights| == |optional| && forall k :: 0 <= k < |weights| ==> weights[k] > 0.0
    requires 0 <= count <= |optional| && count <= |draws|
    ensures
      var sampled := Sample(Tickets(optional, weights), count, draws);
      |sampled| == count && Distinct(sampled) && forall x :: x in sampled ==> x in optional
  {
    AscendingDistinct(optional);
    AllTickets(optional, weights);
    hide Tickets, Sample;
    SampleIsExact(Tickets(optional, weights), count, draws);
  }

  /** The strict selection has exactly the planned size: all that is required, as far as it fits, and options
      of positive weight that no rule has decided about. */
  lemma StrictIsExact(l: Limits, c: Constraint, probabilities: seq<real>, rounding: real, draws: seq<real>)
    requires l.optionCount >= 1 && |draws| >= l.optionCount
    ensures
      var p, r := PlanStrict(l, c, probabilities, rounding), StrictSelection(l, c, probabilities, rounding, draws);
      && Ascending(r) && |r| == p.total
      && (forall x :: x in p.required ==> x in r)
      && (forall x :: x in r ==> x in p.required || x in p.optional)
  {
    hide PlanStrict, Tickets, Sample, Normal, Ascending;
    var p := PlanStrict(l, c, probabilities, rounding);
    StrictParts(l, c, probabilities, rounding);
    SampledFacts(p.optional, p.weights, p.total - |p.required|, draws);
    JoinExact(p.required, Sample(Tickets(p.optional, p.weights), p.total - |p.required|, draws), l.optionCount);
  }

  lemma JoinExact(xs: seq<int>, ys: seq<int>, n: int)
    requires Ascending(xs) && Distinct(ys) && forall y :: y in ys ==> y !in xs
    requires (forall x :: x in xs ==> InRange(x, n)) && (forall y :: y in ys ==> InRange(y, n))
    ensures
      var r := Normal(xs + ys, n);
      Ascending(r) && |r| == |xs| + |ys| && forall x :: x in r <==> x in xs || x in ys
  {
    AscendingDistinct(xs);
    hide Normal, Ascending;
    forall i, j | 0 <= i < j < |xs + ys| ensures (xs + ys)[i] != (xs + ys)[j] {
      if i < |xs| <= j {
        assert xs[i] in xs && ys[j - |xs|] in ys;
      }
    }
    NormalOfDistinct(xs + ys, n);
    NormalFacts(xs + ys, n);
  }

  lemma StrictParts(l: Limits, c: Constraint, probabilities: seq<real>, rounding: real)
    requires l.optionCount >= 1
    ensures
      var p := PlanStrict(l, c, probabilities, rounding);
      && Ascending(p.required) && (forall x :: x in p.required ==> x in c.must && InRange(x, l.optionCount))
      && Ascending(p.optional) && (forall x :: x in p.optional ==> x !in c.must + c.mustNot && InRange(x, l.optionCount))
      && (forall x :: x in p.optional ==> x !in p.required)
      && |p.weights| == |p.optional| && (forall k :: 0 <= k < |p.weights| ==> p.weights[k] > 0.0)
  {
    var n := l.optionCount;
    var listed := Listed(c.must, n);
    ListedAscends(c.must, n);
    AscendingPrefix(listed, AtMost(|listed|, l.Max()));
    var w := Silenced(probabilities, n, c.must + c.mustNot);
    PositiveAscends(w);
    hide StochasticRound, Sum, Listed;
    var p := PlanStrict(l, c, probabilities, rounding);
    forall k | 0 <= k < |p.weights| ensures p.weights[k] > 0.0 {
      assert p.optional[k] in p.optional;
    }
  }

  /** When every weight is positive, there is a ticket for every index. */
  lemma {:induction false} AllTickets(indices: seq<int>, weights: seq<real>)
    requires |indices| == |weights| && Distinct(indices) && forall k :: 0 <= k < |weights| ==> weights[k] > 0.0
    ensures IndicesOf(Tickets(indices, weights)) == indices
  {
    if |indices| > 0 {
      AllTickets(indices[1..], weights[1..]);
      assert IndicesOf(Tickets(indices, weights)) == [indices[0]] + IndicesOf(Tickets(indices[1..], weights[1..]));
    }
  }

  // ---- what the strict ratio plans ----

  lemma WeightsOfFront(w: seq<real>, n: nat, positions: seq<int>)
    requires n <= |w| && forall i :: i in positions ==> 0 <= i < n
    ensures WeightsAt(w[..n], positions) == WeightsAt(w, positions)
  {
  }

  lemma OneMoreWeight(w: seq<real>, positions: seq<int>, i: nat)
    requires i < |w| && forall j :: j in positions ==> 0 <= j < |w|
    ensures WeightsAt(w, positions + [i]) == WeightsAt(w, positions) + [w[i]]
  {
  }

  lemma PositiveWeightsGrow(w: seq<real>)
    requires |w| > 0
    ensures
      var n := |w| - 1;
      PositiveWeights(w) == if w[n] > 0.0 then PositiveWeights(w[..n]) + [w[n]] else PositiveWeights(w[..n])
  {
    hide WeightsAt;
    WeightsOfFront(w, |w| - 1, PositivePositions(w[..|w| - 1]));
    OneMoreWeight(w, PositivePositions(w[..|w| - 1]), |w| - 1);
  }

  function PositiveWeights(w: seq<real>): seq<real> {
    WeightsAt(w, PositivePositions(w))
  }

  lemma PositiveSumStep(w: seq<real>)
    requires |w| > 0 && Sum(PositiveWeights(w[..|w| - 1])) == Sum(w[..|w| - 1])
    ensures Sum(PositiveWeights(w)) == if w[|w| - 1] > 0.0 then Sum(w) else Sum(w) - w[|w| - 1]
  {
    hide *;
    var front, x := w[..|w| - 1], w[|w| - 1];
    PositiveWeightsGrow(w);
    SumSnoc(PositiveWeights(front), x);
    SumSnoc(front, x);
    assert front + [x] == w;
  }

  lemma NoPositiveWeights()
    ensures Sum(PositiveWeights([])) == Sum([])
  {
  }

  lemma {:induction false} PositiveSum(w: seq<real>)
    requires forall i :: 0 <= i < |w| ==> w[i] >= 0.0
    ensures Sum(PositiveWeights(w)) == Sum(w)
  {
    hide *;
    if |w| == 0 {
      NoPositiveWeights();
      assert w == [];
    } else {
      PositiveSum(w[..|w| - 1]);
      PositiveSumStep(w);
    }
  }

  /** Option i is undecided and has a positive percentage. */
  predicate Takes(c: Constraint, probabilities: seq<real>, n: int, i: int) {
    i !in c.must && i !in c.mustNot && 0 <= i < n && i < |probabilities| && probabilities[i] > 0.0
  }

  /** The percentages of the undecided options, capped at a hundred. */
  function Percentages(c: Constraint, probabilities: seq<real>, n: nat): (r: seq<real>)
    ensures |r| == n
    ensures forall i {:trigger r[i]} :: 0 <= i < n ==>
              r[i] == if !Takes(c, probabilities, n, i) then 0.0 else if probabilities[i] > 100.0 then 100.0 else probabilities[i]
  {
    seq(n, i requires 0 <= i < n =>
      if !Takes(c, probabilities, n, i) then 0.0 else if probabilities[i] > 100.0 then 100.0 else probabilities[i])
  }

  lemma SumCapped(w: seq<real>, cap: real)
    requires cap >= 0.0 && forall i :: 0 <= i < |w| ==> 0.0 <= w[i] <= cap
    ensures 0.0 <= Sum(w) <= Times(|w| as real, cap)
  {
    var caps := seq(|w|, _ => cap);
    SumNonneg(w);
    SumMonotone(w, caps);
    SumConst(caps, cap);
  }

  /** What the strict ratio plans: the demanded options, as far as they fit; the undecided ones with a percentage, with
      that as weight; and as many of these as their percentages add up to in hundreds, rounded down, or up when the
      draw is below the fraction, unless the limits leave no room for that. */
  lemma StrictPlanIs(l: Limits, c: Constraint, probabilities: seq<real>, rounding: real)
    requires l.optionCount >= 1 && 0.0 <= rounding
    ensures
      var p, w := PlanStrict(l, c, probabilities, rounding), Percentages(c, probabilities, l.optionCount);
      var expected := Sum(w) / 100.0;
      var count := expected.Floor + if rounding < expected - expected.Floor as real then 1 else 0;
      && (forall x :: x in p.optional <==> Takes(c, probabilities, l.optionCount, x))
      && (forall k :: 0 <= k < |p.optional| ==> 0 <= p.optional[k] < |w| && p.weights[k] == w[p.optional[k]])
      && 0 <= count <= |p.optional|
      && (l.Min() <= |p.required| + count <= l.Max() ==> p.total == |p.required| + count)
      && (|p.required| + count > l.Max() ==> p.total == l.Max())
      && (|p.required| + count < l.Min() ==> p.total == AtMost(l.Min(), AtMost(l.Max(), |p.required| + |p.optional|)))
  {
    hide PlanStrict, Sum, PositivePositions, WeightsAt;
    var p, w := PlanStrict(l, c, probabilities, rounding), Percentages(c, probabilities, l.optionCount);
    PlanParts(l, c, probabilities, rounding);
    assert forall x :: 0 <= x < |w| ==> (w[x] > 0.0 <==> Takes(c, probabilities, l.optionCount, x));
    hide Percentages, Takes;
    PositiveSum(w);
    SumCapped(p.weights, 100.0);
    CountFits(Sum(w), rounding, |p.optional|);
    hide StochasticRound;
    forall k | 0 <= k < |p.optional| ensures 0 <= p.optional[k] < |w| && p.weights[k] == w[p.optional[k]] {
      assert p.optional[k] in p.optional;
    }
  }

  lemma PlanParts(l: Limits, c: Constraint, probabilities: seq<real>, rounding: real)
    requires l.optionCount >= 1
    ensures
      var p, w := PlanStrict(l, c, probabilities, rounding), Percentages(c, probabilities, l.optionCount);
      var most := AtMost(l.Max(), |p.required| + |p.optional|);
      && p.optional == PositivePositions(w) && p.weights == WeightsAt(w, p.optional)
      && (forall i :: 0 <= i < |w| ==> 0.0 <= w[i] <= 100.0)
      && p.total == AtLeast(AtMost(AtLeast(l.Min(), |p.required|), most),
                            AtMost(most, |p.required| + StochasticRound(Sum(p.weights) / 100.0, rounding)))
      && |p.required| <= l.Max()
  {
    SilencedIs(c, probabilities, l.optionCount);
    hide Silenced, Percentages, Sum, PositivePositions, WeightsAt, Listed, StochasticRound;
  }

  lemma SilencedIs(c: Constraint, probabilities: seq<real>, n: nat)
    ensures Silenced(probabilities, n, c.must + c.mustNot) == Percentages(c, probabilities, n)
    ensures forall i :: 0 <= i < n ==> 0.0 <= Percentages(c, probabilities, n)[i] <= 100.0
  {
  }

  lemma CountFits(sum: real, rounding: real, n: nat)
    requires 0.0 <= sum <= Times(n as real, 100.0) && 0.0 <= rounding
    ensures
      var expected := sum / 100.0;
      var count := expected.Floor + if rounding < expected - expected.Floor as real then 1 else 0;
      0 <= count <= n && StochasticRound(expected, rounding) == count
  {
    var expected := sum / 100.0;
    assert 0.0 <= expected <= n as real;
    if expected.Floor == n {
      assert expected == n as real;
    }
  }

  // ---- all three paths ----

  function Undecided(c: Constraint, n: int): seq<int> {
    Listed((set i | i in Range(n) && i !in c.must && i !in c.mustNot), n)
  }

  function MaskedBy(w: seq<real>, mask: seq<bool>): (r: seq<real>)
    ensures |r| == |w| && forall i {:trigger r[i]} :: 0 <= i < |w| ==> r[i] == if i < |mask| && mask[i] then w[i] else 0.0
  {
    seq(|w|, i requires 0 <= i < |w| => if i < |mask| && mask[i] then w[i] else 0.0)
  }

  /** The positions that the mask marks and that have positive weight; the stand-in when the mask is empty. */
  function Marked(w: seq<real>, mask: seq<bool>, lucky: int): (r: seq<int>)
    ensures forall i :: i in r ==> 0 <= i < |w| && w[i] > 0.0
  {
    var hits := PositivePositions(MaskedBy(w, mask));
    if hits == [] && 0 <= lucky < |w| && w[lucky] > 0.0 then [lucky] else hits
  }

  function WeightedSelection(l: Limits, c: Constraint, probabilities: seq<real>, mask: seq<bool>, lucky: int): seq<int>
    requires l.optionCount >= 0
  {
    var n := l.optionCount;
    var required, blocked := Listed(c.must, n), Listed(c.mustNot, n);
    var w := Silenced(probabilities, n, c.must + c.mustNot);
    var positive := PositivePositions(w);
    if positive == [] && required == [] then [] else Constrained(l, Marked(w, mask, lucky), required, blocked, positive)
  }

  method BuildWeighted(l: Limits, c: Constraint, probabilities: seq<real>, mask: seq<bool>, lucky: int) returns (r: seq<int>)
    requires l.optionCount >= 1
    ensures r == WeightedSelection(l, c, probabilities, mask, lucky)
  {
    var n := l.optionCount;
    var required, blocked := Listed(c.must, n), Listed(c.mustNot, n);
    var w := Silenced(probabilities, n, c.must + c.mustNot);
    var positive := PositivePositions(w);
    if positive == [] && required == [] {
      return [];
    }
    hide Constrained, Listed, Silenced, PositivePositions, Marked;
    r := ApplyMultipleConstraints(l, Marked(w, mask, lucky), required, blocked, positive);
  }

  function UniformSelection(l: Limits, c: Constraint, sampled: seq<int>): seq<int> {
    var required, blocked := Listed(c.must, l.optionCount), Listed(c.mustNot, l.optionCount);
    Constrained(l, required + sampled, required, blocked, Undecided(c, l.optionCount))
  }

  method BuildUniform(l: Limits, c: Constraint, sampled: seq<int>) returns (r: seq<int>)
    ensures r == UniformSelection(l, c, sampled)
  {
    var required, blocked := Listed(c.must, l.optionCount), Listed(c.mustNot, l.optionCount);
    hide Constrained, Listed, Undecided;
    r := ApplyMultipleConstraints(l, required + sampled, required, blocked, Undecided(c, l.optionCount));
  }

  /** What the builder selects; nothing when there is no answer to give. */
  function Selection(q: Question, c: Constraint, d: Draft): seq<int>
    requires d.Strict? ==> |d.draws| >= q.optionCount
  {
    if q.optionCount <= 0 then []
    else
      match d
      case Uniform(sampled) => UniformSelection(q.Limits(), c, sampled)
      case Weighted(probabilities, mask, lucky) => WeightedSelection(q.Limits(), c, probabilities, mask, lucky)
      case Strict(probabilities, rounding, draws) => StrictSelection(q.Limits(), c, probabilities, rounding, draws)
  }

  method BuildMultipleAction(q: Question, rules: seq<AnswerRule>, answered: map<int, Record>, num: int, d: Draft)
    returns (selected: Option<seq<int>>)
    requires d.Strict? ==> |d.draws| >= q.optionCount
    ensures
      var r := Selection(q, ConstraintOf(Latest(rules, answered, num, None), q.optionCount), d);
      selected == if r == [] then None else Some(r)
  {
    if q.optionCount <= 0 {
      return None;
    }
    var l := q.Limits();
    assert l.optionCount == q.optionCount;
    var c := GetMultipleRuleConstraint(rules, answered, num, q.optionCount);
    hide UniformSelection, WeightedSelection, StrictSelection, ConstraintOf, Latest;
    var r: seq<int>;
    match d {
      case Uniform(sampled) => r := BuildUniform(l, c, sampled);
      case Weighted(probabilities, mask, lucky) => r := BuildWeighted(l, c, probabilities, mask, lucky);
      case Strict(probabilities, rounding, draws) => r := BuildStrict(l, c, probabilities, rounding, draws);
    }
    selected := if r == [] then None else Some(r);
  }

  // ---- what every selection satisfies ----

  lemma ListedFacts(s: set<int>, n: int)
    ensures
      var listed := Listed(s, n);
      Ascending(listed) && Normal(listed, n) == listed
  {
    var listed := Listed(s, n);
    ListedAscends(s, n);
    NormalFacts(listed, n);
    hide Normal, Listed;
    AscendingDistinct(listed);
    NormalOfDistinct(listed, n);
    SameAscending(listed, Normal(listed, n));
  }

  /** Options that no rule forbids. */
  function Permitted(c: Constraint, n: int): set<int> {
    AsSet(Range(n)) - c.mustNot
  }

  /** Within the limits, without forbidden options, and with all demanded ones as far as they fit. */
  ghost predicate IsValid(l: Limits, c: Constraint, r: seq<int>) {
    && Ascending(r) && (forall x :: x in r ==> InRange(x, l.optionCount))
    && |r| <= l.Max()
    && (forall x :: x in r ==> x !in c.mustNot)
    && (|Listed(c.must, l.optionCount)| <= l.Max() ==> forall x :: x in c.must ==> x in r)
    && (|Listed(c.must, l.optionCount)| > l.Max() ==> r == Listed(c.must, l.optionCount)[..l.Max()])
  }

  /** What a constraint has to be like, and always is. */
  ghost predicate OneSided(c: Constraint, n: int) {
    && (c.must == {} || c.mustNot == {})
    && (forall i :: i in c.must ==> 0 <= i < n) && (forall i :: i in c.mustNot ==> 0 <= i < n)
  }

  lemma ConstrainedIsValid(l: Limits, c: Constraint, selected: seq<int>, priorities: seq<int>)
    requires OneSided(c, l.optionCount)
    ensures
      var n := l.optionCount;
      var r := Constrained(l, selected, Listed(c.must, n), Listed(c.mustNot, n), priorities);
      IsValid(l, c, r) && |r| >= AtMost(l.Max(), AtMost(l.Min(), |Permitted(c, n)|))
  {
    hide Constrained, Normal, Listed, WantedSet, Unblocked, Permitted, Ascending;
    var n := l.optionCount;
    var req, blk := Listed(c.must, n), Listed(c.mustNot, n);
    ListedFacts(c.must, n);
    ListedFacts(c.mustNot, n);
    ConstrainedIsWithinLimits(l, selected, req, blk, priorities);
    RequiredComeFirst(l, selected, req, blk, priorities);
    PermittedIsUnblocked(l, c);
    SubsetSize(Permitted(c, n), WantedSet(l, selected, req, blk) + Unblocked(l, blk));
    var r := Constrained(l, selected, req, blk, priorities);
    forall x | x in r ensures x !in c.mustNot {
      assert x in c.mustNot ==> x in blk && x in req;
    }
    assert forall x :: x in c.must ==> x in req;
  }

  lemma PermittedIsUnblocked(l: Limits, c: Constraint)
    requires OneSided(c, l.optionCount)
    ensures Permitted(c, l.optionCount) == Unblocked(l, Listed(c.mustNot, l.optionCount))
  {
    ListedFacts(c.mustNot, l.optionCount);
    hide Normal, Listed;
    SameMembers(AsSet(Listed(c.mustNot, l.optionCount)), c.mustNot);
  }

  lemma SameMembers<T>(a: set<T>, b: set<T>)
    requires forall x :: x in a <==> x in b
    ensures a == b
  {
  }

  /** A masked draft never comes out empty while there is anything to select, so the builder's
      last resort is never needed. */
  lemma WeightedNeverEmpty(l: Limits, c: Constraint, probabilities: seq<real>, mask: seq<bool>, lucky: int)
    requires l.optionCount >= 1 && OneSided(c, l.optionCount)
    requires PositivePositions(Silenced(probabilities, l.optionCount, c.must + c.mustNot)) != [] || c.must != {}
    ensures WeightedSelection(l, c, probabilities, mask, lucky) != []
  {
    hide *;
    var x := SomeOption(l, c, probabilities);
    WeightedIsConstrained(l, c, probabilities, mask, lucky);
    SubsetSize({x}, Permitted(c, l.optionCount));
    MinMaxPositive(l);
  }

  lemma MinMaxPositive(l: Limits)
    ensures forall k: int :: k >= 1 ==> AtMost(l.Max(), AtMost(l.Min(), k)) >= 1
  {
  }

  lemma SomeOption(l: Limits, c: Constraint, probabilities: seq<real>) returns (x: int)
    requires l.optionCount >= 1 && OneSided(c, l.optionCount)
    requires PositivePositions(Silenced(probabilities, l.optionCount, c.must + c.mustNot)) != [] || c.must != {}
    ensures x in Permitted(c, l.optionCount)
  {
    var positive := PositivePositions(Silenced(probabilities, l.optionCount, c.must + c.mustNot));
    hide PositivePositions;
    if positive != [] {
      x := positive[0];
      assert x in positive;
    } else {
      x := Member(c.must);
    }
  }

  lemma WeightedIsConstrained(l: Limits, c: Constraint, probabilities: seq<real>, mask: seq<bool>, lucky: int)
    requires l.optionCount >= 1 && OneSided(c, l.optionCount)
    ensures
      var r := WeightedSelection(l, c, probabilities, mask, lucky);
      var anything := PositivePositions(Silenced(probabilities, l.optionCount, c.must + c.mustNot)) != [] || c.must != {};
      if anything then IsValid(l, c, r) && |r| >= AtMost(l.Max(), AtMost(l.Min(), |Permitted(c, l.optionCount)|)) else r == []
  {
    var w := Silenced(probabilities, l.optionCount, c.must + c.mustNot);
    ConstrainedIsValid(l, c, Marked(w, mask, lucky), PositivePositions(w));
    ListedNothing(c.must, l.optionCount);
    hide Constrained, IsValid, PositivePositions, Listed, Marked, Silenced, Permitted;
  }

  lemma ListedNothing(s: set<int>, n: int)
    requires forall i :: i in s ==> 0 <= i < n
    ensures Listed(s, n) == [] <==> s == {}
  {
    var listed := Listed(s, n);
    hide Listed;
    if s != {} {
      var x := Member(s);
      assert x in listed;
    }
    if listed != [] {
      var x := listed[0];
      assert x in listed;
    }
  }

  // ---- the draft is followed where the limits allow ----

  /** The mask marks option i, which is undecided and has a percentage. */
  predicate Hit(c: Constraint, probabilities: seq<real>, mask: seq<bool>, n: int, i: int) {
    Takes(c, probabilities, n, i) && i < |mask| && mask[i]
  }

  /** The options a masked draft asks for: those marked, or the stand-in when none is. */
  ghost predicate Drafted(c: Constraint, probabilities: seq<real>, mask: seq<bool>, lucky: int, n: int, i: int) {
    if exists j :: Hit(c, probabilities, mask, n, j) then Hit(c, probabilities, mask, n, i)
    else i == lucky && Takes(c, probabilities, n, i)
  }

  /** The selection holds what is asked for when that fits, and nothing else when that is enough. */
  ghost predicate Follows(l: Limits, r: seq<int>, asked: set<int>) {
    && (|asked| <= l.Max() ==> forall x :: x in asked ==> x in r)
    && (|asked| >= l.Min() ==> forall x :: x in r ==> x in asked)
  }

  lemma MarkedIs(c: Constraint, probabilities: seq<real>, mask: seq<bool>, lucky: int, n: nat, i: int)
    ensures i in Marked(Silenced(probabilities, n, c.must + c.mustNot), mask, lucky)
       <==> Drafted(c, probabilities, mask, lucky, n, i)
  {
    var w := Silenced(probabilities, n, c.must + c.mustNot);
    var hits := PositivePositions(MaskedBy(w, mask));
    SilencedTakes(c, probabilities, n);
    hide Silenced, PositivePositions, Takes;
    forall j ensures j in hits <==> Hit(c, probabilities, mask, n, j) {
    }
    hide Hit, MaskedBy;
    if hits != [] {
      assert hits[0] in hits;
      assert Hit(c, probabilities, mask, n, hits[0]);
    }
  }

  lemma SilencedTakes(c: Constraint, probabilities: seq<real>, n: nat)
    ensures forall j :: 0 <= j < n ==>
              (Silenced(probabilities, n, c.must + c.mustNot)[j] > 0.0 <==> Takes(c, probabilities, n, j))
    ensures forall j :: Takes(c, probabilities, n, j) ==> 0 <= j < n && j !in c.must && j !in c.mustNot
  {
  }

  lemma ConstrainedFollows(l: Limits, selected: seq<int>, required: seq<int>, blocked: seq<int>, priorities: seq<int>)
    ensures Follows(l, Constrained(l, selected, required, blocked, priorities), WantedSet(l, selected, required, blocked))
  {
    hide Constrained, WantedSet;
    ConstrainedIsWithinLimits(l, selected, required, blocked, priorities);
    forall x | x in Constrained(l, selected, required, blocked, priorities)
      ensures x !in WantedSet(l, selected, required, blocked) ==> |WantedSet(l, selected, required, blocked)| < l.Min()
    {
      ConstrainedPrefers(l, selected, required, blocked, priorities, x, x);
    }
  }

  lemma WantedIs(l: Limits, c: Constraint, selected: seq<int>, x: int)
    ensures x in WantedSet(l, selected, Listed(c.must, l.optionCount), Listed(c.mustNot, l.optionCount))
       <==> InRange(x, l.optionCount) && ((x in selected && x !in c.mustNot) || x in c.must)
  {
    NormalFacts(selected, l.optionCount);
    NormalFacts(Listed(c.must, l.optionCount), l.optionCount);
    NormalFacts(Listed(c.mustNot, l.optionCount), l.optionCount);
    hide Normal, Listed, Ascending;
  }

  /** A masked draft is followed: its selection holds what the mask and the rules ask for when that fits, and no more
      when that is enough. */
  lemma MaskIsFollowed(l: Limits, c: Constraint, probabilities: seq<real>, mask: seq<bool>, lucky: int)
    requires l.optionCount >= 1 && OneSided(c, l.optionCount)
    ensures
      var n := l.optionCount;
      Follows(l, WeightedSelection(l, c, probabilities, mask, lucky),
              set x | 0 <= x < n && (Drafted(c, probabilities, mask, lucky, n, x) || x in c.must))
  {
    var n := l.optionCount;
    var w := Silenced(probabilities, n, c.must + c.mustNot);
    var req, blk, positive := Listed(c.must, n), Listed(c.mustNot, n), PositivePositions(w);
    var asked := set x | 0 <= x < n && (Drafted(c, probabilities, mask, lucky, n, x) || x in c.must);
    MaskIsWanted(l, c, probabilities, mask, lucky);
    hide Constrained, WantedSet, Marked, Listed, PositivePositions, Silenced, Drafted, Follows, Normal;
    if positive == [] && req == [] {
      NothingMarked(w, mask, lucky);
      NothingWanted(l, Marked(w, mask, lucky), req, blk);
      NothingFollows(l, asked);
    } else {
      ConstrainedFollows(l, Marked(w, mask, lucky), req, blk, positive);
    }
  }

  lemma {:induction false} NonePositive(w: seq<real>)
    ensures PositivePositions(w) == [] <==> forall i :: 0 <= i < |w| ==> w[i] <= 0.0
  {
    if |w| > 0 {
      NonePositive(w[..|w| - 1]);
    }
  }

  lemma NothingMarked(w: seq<real>, mask: seq<bool>, lucky: int)
    requires PositivePositions(w) == []
    ensures Marked(w, mask, lucky) == []
  {
    NonePositive(w);
    NonePositive(MaskedBy(w, mask));
    hide PositivePositions;
  }

  lemma NothingWanted(l: Limits, selected: seq<int>, required: seq<int>, blocked: seq<int>)
    requires selected == [] && required == []
    ensures WantedSet(l, selected, required, blocked) == {}
  {
    NormalFacts(selected, l.optionCount);
    NormalFacts(required, l.optionCount);
    hide Normal;
  }

  lemma MaskIsWanted(l: Limits, c: Constraint, probabilities: seq<real>, mask: seq<bool>, lucky: int)
    requires l.optionCount >= 1 && OneSided(c, l.optionCount)
    ensures
      var n := l.optionCount;
      var marked := Marked(Silenced(probabilities, n, c.must + c.mustNot), mask, lucky);
      WantedSet(l, marked, Listed(c.must, n), Listed(c.mustNot, n))
        == set x | 0 <= x < n && (Drafted(c, probabilities, mask, lucky, n, x) || x in c.must)
  {
    var n := l.optionCount;
    var marked := Marked(Silenced(probabilities, n, c.must + c.mustNot), mask, lucky);
    var asked := set x | 0 <= x < n && (Drafted(c, probabilities, mask, lucky, n, x) || x in c.must);
    SilencedTakes(c, probabilities, n);
    hide WantedSet, Marked, Listed, PositivePositions, Silenced, Drafted;
    forall x ensures x in WantedSet(l, marked, Listed(c.must, n), Listed(c.mustNot, n)) <==> x in asked {
      MarkedIs(c, probabilities, mask, lucky, n, x);
      WantedIs(l, c, marked, x);
    }
  }

  lemma NothingFollows(l: Limits, asked: set<int>)
    requires asked == {}
    ensures Follows(l, [], asked)
  {
  }

  /** A uniform draft is followed in the same way. */
  lemma SampleIsFollowed(l: Limits, c: Constraint, sampled: seq<int>)
    requires OneSided(c, l.optionCount)
    ensures Follows(l, UniformSelection(l, c, sampled),
                    set x | 0 <= x < l.optionCount && ((x in sampled && x !in c.mustNot) || x in c.must))
  {
    var n := l.optionCount;
    var req, blk := Listed(c.must, n), Listed(c.mustNot, n);
    var asked := set x | 0 <= x < n && ((x in sampled && x !in c.mustNot) || x in c.must);
    assert forall x :: x in req ==> x in c.must && x !in c.mustNot;
    hide Constrained, WantedSet, Listed, Follows, Undecided;
    forall x ensures x in WantedSet(l, req + sampled, req, blk) <==> x in asked {
      WantedIs(l, c, req + sampled, x);
    }
    assert WantedSet(l, req + sampled, req, blk) == asked;
    ConstrainedFollows(l, req + sampled, req, blk, Undecided(c, n));
  }

  lemma UniformIsValid(l: Limits, c: Constraint, sampled: seq<int>)
    requires OneSided(c, l.optionCount)
    ensures
      var r := UniformSelection(l, c, sampled);
      IsValid(l, c, r) && |r| >= AtMost(l.Max(), AtMost(l.Min(), |Permitted(c, l.optionCount)|))
  {
    hide Constrained, IsValid, Listed, Undecided, Permitted;
    ConstrainedIsValid(l, c, Listed(c.must, l.optionCount) + sampled, Undecided(c, l.optionCount));
  }

  lemma StrictIsValid(l: Limits, c: Constraint, probabilities: seq<real>, rounding: real, draws: seq<real>)
    requires l.optionCount >= 1 && |draws| >= l.optionCount && OneSided(c, l.optionCount)
    ensures
      var p, r := PlanStrict(l, c, probabilities, rounding), StrictSelection(l, c, probabilities, rounding, draws);
      && IsValid(l, c, r)
      && |r| == p.total >= AtMost(l.Max(), AtMost(l.Min(), |p.required| + |p.optional|))
  {
    hide Listed, StrictSelection;
    var listed := Listed(c.must, l.optionCount);
    ListedAscends(c.must, l.optionCount);
    RequiredOfPlan(l, c, probabilities, rounding);
    StrictIsExact(l, c, probabilities, rounding, draws);
    StrictParts(l, c, probabilities, rounding);
    hide PlanStrict;
    var p, r := PlanStrict(l, c, probabilities, rounding), StrictSelection(l, c, probabilities, rounding, draws);
    if |listed| > l.Max() {
      AscendingPrefix(listed, l.Max());
      SameAscending(p.required, r);
    } else {
      assert p.required == listed;
    }
  }

  lemma RequiredOfPlan(l: Limits, c: Constraint, probabilities: seq<real>, rounding: real)
    requires l.optionCount >= 1
    ensures
      var listed := Listed(c.must, l.optionCount);
      PlanStrict(l, c, probabilities, rounding).required == listed[..AtMost(|listed|, l.Max())]
  {
    hide Listed, Silenced, PositivePositions, WeightsAt, StochasticRound, Sum;
  }

  /** What every answer satisfies: it is valid, and it reaches the lower limit when enough options are permitted,
      or, by strict ratio, when enough of them have weight. */
  ghost predicate IsAnswer(q: Question, c: Constraint, d: Draft, r: seq<int>)
    requires q.optionCount >= 1
  {
    && IsValid(q.Limits(), c, r)
    && match d
       case Strict(probabilities, rounding, _) =>
         var p := PlanStrict(q.Limits(), c, probabilities, rounding);
         |r| == p.total >= AtMost(q.Limits().min, |p.required| + |p.optional|)
       case _ => |r| >= AtMost(q.Limits().min, |Permitted(c, q.optionCount)|)
  }

  lemma LimitsAgree(q: Question)
    requires q.optionCount >= 1
    ensures
      var l := q.Limits();
      l.optionCount == q.optionCount && forall k: int :: AtMost(l.Max(), AtMost(l.Min(), k)) == AtMost(l.min, k)
  {
  }

  lemma SelectionIsAnswer(q: Question, c: Constraint, d: Draft)
    requires q.optionCount >= 1 && (d.Strict? ==> |d.draws| >= q.optionCount)
    requires OneSided(c, q.optionCount)
    ensures Selection(q, c, d) != [] ==> IsAnswer(q, c, d, Selection(q, c, d))
  {
    hide UniformSelection, WeightedSelection, StrictSelection, IsValid, PlanStrict, Permitted, OneSided, AtMost;
    var l := q.Limits();
    LimitsAgree(q);
    match d {
      case Uniform(sampled) => UniformIsValid(l, c, sampled);
      case Weighted(probabilities, mask, lucky) => WeightedIsConstrained(l, c, probabilities, mask, lucky);
      case Strict(probabilities, rounding, draws) => StrictIsValid(l, c, probabilities, rounding, draws);
    }
  }

  /** Whatever the rules, the draft and the draws: an answer is sorted, within range and limits, holds nothing
      that the triggered rule forbids and all it demands as far as that fits. */
  lemma SelectionsAreValid(q: Question, rules: seq<AnswerRule>, answered: map<int, Record>, num: int, d: Draft)
    requires d.Strict? ==> |d.draws| >= q.optionCount
    ensures
      var c := ConstraintOf(Latest(rules, answered, num, None), q.optionCount);
      Selection(q, c, d) != [] ==> q.optionCount >= 1 && IsAnswer(q, c, d, Selection(q, c, d))
  {
    var c := ConstraintOf(Latest(rules, answered, num, None), q.optionCount);
    ConstraintIsOneSided(Latest(rules, answered, num, None), q.optionCount);
    if q.optionCount > 0 {
      hide IsAnswer, Selection, ConstraintOf, Latest;
      SelectionIsAnswer(q, c, d);
    }
  }
}
