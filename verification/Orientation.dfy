/** Main direction of a psychometric dimension and the items scored against it. */
module Orientation {
  import opened Sums
  import opened Quotas

  const LEFT_DIRECTION_THRESHOLD := 0.4
  const RIGHT_DIRECTION_THRESHOLD := 0.6
  const ANCHOR_DOMINANCE_MULTIPLIER := 1.15
  const MIN_ANCHOR_STRENGTH := 0.2

  datatype Direction = Left | Center | Right {
    function Flip(): Direction {
      match this
      case Left => Right
      case Center => Center
      case Right => Left
    }
  }

  /** An item: its target weights, or none, in which case its bias stands in for them. */
  datatype Item = Item(key: string, optionCount: int, weights: seq<Weight>, bias: Direction)

  function OptionCount(item: Item): (n: int)
    ensures n >= 2
  {
    if item.optionCount < 2 then 2 else item.optionCount
  }

  function Abs(x: real): (r: real)
    ensures r >= 0.0
  {
    if x < 0.0 then -x else x
  }

  function Power(x: real, e: nat): real {
    if e == 0 then 1.0 else x * Power(x, e - 1)
  }

  /** The raw weight of option i under a bias: a straight ramp or a tent, raised to a power. */
  function BiasWeight(count: int, bias: Direction, i: int): real
    requires count >= 3
  {
    var center := (count - 1) as real / 2.0;
    var linear := match bias
      case Left => 1.0 - i as real / (count - 1) as real
      case Right => i as real / (count - 1) as real
      case Center => 1.0 - Abs(i as real - center) / center;
    Power(if linear < 0.0 then 0.0 else linear, if bias == Center then 3 else 8)
  }

  function BiasWeights(count: int, bias: Direction): (ws: seq<Weight>)
    requires count >= 3
    ensures |ws| == count
  {
    seq(count, i requires 0 <= i < count => Finite(BiasWeight(count, bias, i)))
  }

  function BiasProbabilities(count: int, bias: Direction): (p: seq<real>)
    requires count >= 2
    ensures |p| == count
  {
    if count == 2 then
      match bias
      case Left => [0.75, 0.25]
      case Right => [0.25, 0.75]
      case Center => [0.5, 0.5]
    else Normalized(BiasWeights(count, bias))
  }

  function TargetProbabilities(item: Item): seq<real> {
    if |item.weights| > 0 then Normalized(item.weights) else BiasProbabilities(OptionCount(item), item.bias)
  }

  function IndexWeighted(p: seq<real>): (r: seq<real>)
    ensures |r| == |p|
    ensures forall i {:trigger r[i]} :: 0 <= i < |p| ==> r[i] == Times(i as real, p[i])
  {
    seq(|p|, i requires 0 <= i < |p| => Times(i as real, p[i]))
  }

  function MeanRatio(p: seq<real>, optionCount: int): real
    requires optionCount >= 2
  {
    if |p| == 0 then 0.5 else UnitRatio(Sum(IndexWeighted(p)), (optionCount - 1) as real)
  }

  /** x / n, kept within [0, 1]. */
  function UnitRatio(x: real, n: real): real
    requires n > 0.0
  {
    var ratio := x / n;
    if ratio < 0.0 then 0.0 else if ratio > 1.0 then 1.0 else ratio
  }

  function DirectionOf(ratio: real): Direction {
    if ratio <= LEFT_DIRECTION_THRESHOLD then Left
    else if ratio >= RIGHT_DIRECTION_THRESHOLD then Right
    else Center
  }

  datatype ItemOrientation = ItemOrientation(key: string, meanRatio: real, direction: Direction, skew: real, optionCount: int)

  function InferItem(item: Item): ItemOrientation {
    var ratio := MeanRatio(TargetProbabilities(item), OptionCount(item));
    ItemOrientation(item.key, ratio, DirectionOf(ratio), Abs(ratio - 0.5), OptionCount(item))
  }

  datatype DimensionOrientation = DimensionOrientation(
    items: map<string, ItemOrientation>,
    anchor: Direction, anchorStrength: real, left: real, right: real,
    reversedKeys: set<string>, ambiguous: bool)

  /** Orientations by key; a repeated key keeps its last item. */
  function ByKey(items: seq<Item>): map<string, ItemOrientation> {
    if |items| == 0 then map[]
    else ByKey(items[..|items| - 1])[items[|items| - 1].key := InferItem(items[|items| - 1])]
  }

  /** Summed skew of the items that point in `direction`. */
  function Strength(items: seq<Item>, direction: Direction): real {
    if |items| == 0 then 0.0
    else
      var last := InferItem(items[|items| - 1]);
      Strength(items[..|items| - 1], direction) + if last.direction == direction then last.skew else 0.0
  }

  /** The verdict drawn from the two strengths. */
  function Anchor(left: real, right: real): Direction {
    if left > right then Left else if right > left then Right else Center
  }

  function Ambiguous(left: real, right: real): bool {
    var strong := if right > left then right else left;
    var weak := if left > right then right else if right > left then left else right;
    Anchor(left, right) == Center || strong < MIN_ANCHOR_STRENGTH || strong <= weak * ANCHOR_DOMINANCE_MULTIPLIER
  }

  function ReversedKeys(items: map<string, ItemOrientation>, anchor: Direction): set<string> {
    set k | k in items && items[k].direction != Center && items[k].direction != anchor :: k
  }

  function Infer(items: seq<Item>): DimensionOrientation {
    var left, right := Strength(items, Left), Strength(items, Right);
    var anchor := Anchor(left, right);
    DimensionOrientation(ByKey(items), anchor, if right > left then right else left, left, right,
      if Ambiguous(left, right) then {} else ReversedKeys(ByKey(items), anchor), Ambiguous(left, right))
  }

  method InferDimensionOrientation(items: seq<Item>) returns (o: DimensionOrientation)
    ensures o == Infer(items)
  {
    var byKey: map<string, ItemOrientation> := map[];
    var left, right := 0.0, 0.0;
    var i := 0;
    while i < |items|
      invariant 0 <= i <= |items|
      invariant byKey == ByKey(items[..i])
      invariant left == Strength(items[..i], Left) && right == Strength(items[..i], Right)
    {
      assert items[..i + 1][..i] == items[..i];
      var orientation := InferItem(items[i]);
      byKey := byKey[items[i].key := orientation];
      if orientation.direction == Left {
        left := left + orientation.skew;
      } else if orientation.direction == Right {
        right := right + orientation.skew;
      }
      i := i + 1;
    }
    assert items[..i] == items;
    var anchor, strength, weaker;
    if left > right {
      anchor, strength, weaker := Left, left, right;
    } else if right > left {
      anchor, strength, weaker := Right, right, left;
    } else {
      anchor, strength, weaker := Center, left, right;
    }
    var ambiguous := anchor == Center || strength < MIN_ANCHOR_STRENGTH || strength <= weaker * ANCHOR_DOMINANCE_MULTIPLIER;
    var reversed := if ambiguous then {} else ReversedKeys(byKey, anchor);
    o := DimensionOrientation(byKey, anchor, strength, left, right, reversed, ambiguous);
  }

  // ---- what the verdict says ----

  function RatioOf(item: Item): real {
    MeanRatio(TargetProbabilities(item), OptionCount(item))
  }

  /** How far each item leans to the left, for those that do: mean ratio at most 0.4. */
  function LeansLeft(items: seq<Item>): (r: seq<real>)
    ensures |r| == |items|
    ensures forall i {:trigger r[i]} :: 0 <= i < |r| ==> r[i] == if RatioOf(items[i]) <= 0.4 then 0.5 - RatioOf(items[i]) else 0.0
  {
    seq(|items|, i requires 0 <= i < |items| => if RatioOf(items[i]) <= 0.4 then 0.5 - RatioOf(items[i]) else 0.0)
  }

  /** How far each item leans to the right, for those that do: mean ratio at least 0.6. */
  function LeansRight(items: seq<Item>): (r: seq<real>)
    ensures |r| == |items|
    ensures forall i {:trigger r[i]} :: 0 <= i < |r| ==> r[i] == if RatioOf(items[i]) >= 0.6 then RatioOf(items[i]) - 0.5 else 0.0
  {
    seq(|items|, i requires 0 <= i < |items| => if RatioOf(items[i]) >= 0.6 then RatioOf(items[i]) - 0.5 else 0.0)
  }

  lemma {:induction false} StrengthsAreLeans(items: seq<Item>)
    ensures Strength(items, Left) == Sum(LeansLeft(items)) && Strength(items, Right) == Sum(LeansRight(items))
  {
    if |items| > 0 {
      var n := |items| - 1;
      StrengthsAreLeans(items[..n]);
      assert LeansLeft(items)[..n] == LeansLeft(items[..n]) && LeansRight(items)[..n] == LeansRight(items[..n]);
      hide MeanRatio, TargetProbabilities;
    }
  }

  ghost predicate LastOfKey(items: seq<Item>, i: nat) {
    i < |items| && forall j :: i < j < |items| ==> items[j].key != items[i].key
  }

  lemma {:induction false} LastDecides(items: seq<Item>, i: nat)
    requires LastOfKey(items, i)
    ensures items[i].key in ByKey(items) && ByKey(items)[items[i].key] == InferItem(items[i])
  {
    var n := |items| - 1;
    hide InferItem;
    if i < n {
      assert items[n].key != items[i].key;
      LastDecides(items[..n], i);
    }
  }

  lemma {:induction false} KeyHasLast(items: seq<Item>, k: string) returns (i: nat)
    requires k in ByKey(items)
    ensures LastOfKey(items, i) && items[i].key == k
  {
    var n := |items| - 1;
    hide InferItem;
    if items[n].key == k {
      i := n;
    } else {
      i := KeyHasLast(items[..n], k);
    }
  }

  lemma ByKeyIsLast(items: seq<Item>)
    ensures forall k :: k in ByKey(items) ==> exists i: nat :: LastOfKey(items, i) && items[i].key == k
    ensures forall i: nat :: LastOfKey(items, i) ==> items[i].key in ByKey(items) && ByKey(items)[items[i].key] == InferItem(items[i])
  {
    hide ByKey, InferItem;
    forall k | k in ByKey(items) ensures exists i: nat :: LastOfKey(items, i) && items[i].key == k {
      var i := KeyHasLast(items, k);
    }
    forall i: nat | LastOfKey(items, i)
      ensures items[i].key in ByKey(items) && ByKey(items)[items[i].key] == InferItem(items[i])
    {
      LastDecides(items, i);
    }
  }

  /** The anchor is the side on which the items lean more in sum. The verdict is ambiguous when neither does, or the
      heavier side stays below 0.2 or within 1.15 times the lighter. Otherwise exactly the items that lean to the
      lighter side are reversed; of several items with one key the last decides. */
  lemma AnchorIsHeavier(items: seq<Item>)
    ensures
      var o, l, r := Infer(items), Sum(LeansLeft(items)), Sum(LeansRight(items));
      && (o.anchor == Left <==> l > r) && (o.anchor == Right <==> r > l)
      && (o.ambiguous <==> l == r || (l < 0.2 && r < 0.2) || (l <= r * 1.15 && r <= l * 1.15))
      && (forall k :: k in o.reversedKeys ==> exists i: nat :: LastOfKey(items, i) && items[i].key == k)
      && (forall i: nat :: LastOfKey(items, i) ==>
            (items[i].key in o.reversedKeys <==>
               !o.ambiguous && ((l > r && RatioOf(items[i]) >= 0.6) || (r > l && RatioOf(items[i]) <= 0.4))))
  {
    StrengthsAreLeans(items);
    ByKeyIsLast(items);
    LeansAreNonnegative(items);
    hide Sum, MeanRatio, TargetProbabilities, ByKey, Strength, LastOfKey, LeansLeft, LeansRight;
  }

  lemma LeansAreNonnegative(items: seq<Item>)
    ensures Sum(LeansLeft(items)) >= 0.0 && Sum(LeansRight(items)) >= 0.0
  {
    hide Sum, MeanRatio, TargetProbabilities;
    SumNonneg(LeansLeft(items));
    SumNonneg(LeansRight(items));
  }

  // ---- the mirror image ----

  /** The same item with its options listed from the other end. */
  function Mirror(item: Item): Item {
    item.(weights := Reverse(item.weights), bias := item.bias.Flip())
  }

  function MirrorAll(items: seq<Item>): (r: seq<Item>)
    ensures |r| == |items|
    ensures forall i :: 0 <= i < |items| ==> r[i] == Mirror(items[i])
  {
    seq(|items|, i requires 0 <= i < |items| => Mirror(items[i]))
  }

  /** The declared option count is the number of weights, when there are weights. */
  predicate CountsItsWeights(item: Item) {
    |item.weights| == 0 || OptionCount(item) == |item.weights|
  }

  lemma NormalizedMirrors(ws: seq<Weight>)
    ensures Normalized(Reverse(ws)) == Reverse(Normalized(ws))
  {
    assert Cleaned(Reverse(ws)) == Reverse(Cleaned(ws));
    SumReverse(Cleaned(ws));
  }

  lemma BiasMirrors(count: int, bias: Direction)
    requires count >= 2
    ensures BiasProbabilities(count, bias.Flip()) == Reverse(BiasProbabilities(count, bias))
  {
    if count >= 3 {
      forall i | 0 <= i < count
        ensures BiasWeights(count, bias.Flip())[i] == Reverse(BiasWeights(count, bias))[i]
      {
        BiasWeightMirrors(count, bias, i);
      }
      hide BiasWeight;
      assert BiasWeights(count, bias.Flip()) == Reverse(BiasWeights(count, bias));
      NormalizedMirrors(BiasWeights(count, bias));
    }
  }

  lemma BiasWeightMirrors(count: int, bias: Direction, i: int)
    requires count >= 3
    ensures BiasWeight(count, bias.Flip(), i) == BiasWeight(count, bias, count - 1 - i)
  {
    hide Power;
    RampMirrors(i as real, (count - 1) as real);
    assert (count - 1 - i) as real == (count - 1) as real - i as real;
  }

  lemma RampMirrors(x: real, n: real)
    requires n > 0.0
    ensures (n - x) / n == 1.0 - x / n
    ensures x / n == 1.0 - (n - x) / n
    ensures Abs((n - x) - n / 2.0) == Abs(x - n / 2.0)
  {
    assert (n - x) / n == n / n - x / n;
  }

  lemma BiasIsDistribution(count: int, bias: Direction)
    requires count >= 2
    ensures Sum(BiasProbabilities(count, bias)) == 1.0
    ensures forall i :: 0 <= i < count ==> BiasProbabilities(count, bias)[i] >= 0.0
  {
    if count == 2 {
      var p := BiasProbabilities(count, bias);
      assert p[..1] == [p[0]] && p[..1][..0] == [];
      assert Sum(p) == Sum(p[..1]) + p[1] && Sum(p[..1]) == p[0];
    } else {
      hide BiasWeight;
      NormalizedIsDistribution(BiasWeights(count, bias));
    }
  }

  // ---- the biases in numbers ----

  /** How high option i stands under a bias, counted in options: from the far end, or from the nearer end. */
  function Height(count: int, bias: Direction, i: int): int {
    match bias
    case Left => count - 1 - i
    case Right => i
    case Center => if 2 * i <= count - 1 then i else count - 1 - i
  }

  lemma {:induction false} PowerOfQuotient(x: real, y: real, e: nat)
    requires y > 0.0
    ensures Power(y, e) > 0.0 && Power(x, e) == Times(Power(x / y, e), Power(y, e))
  {
    if e > 0 {
      PowerOfQuotient(x, y, e - 1);
      var a, q, r := x / y, Power(x / y, e - 1), Power(y, e - 1);
      assert y * r > 0.0;
      assert a * y == x;
      Interchange(a, q, y, r, x);
      hide Times;
      assert Power(x, e) == x * Power(x, e - 1) && Power(a, e) == a * q && Power(y, e) == y * r;
    }
  }

  lemma Interchange(a: real, q: real, y: real, r: real, x: real)
    requires a * y == x
    ensures Times(a * q, y * r) == x * Times(q, r)
  {
    assert (a * q) * (y * r) == (a * y) * (q * r);
  }

  lemma RampIsHeight(count: int, bias: Direction, i: int)
    requires count >= 3 && 0 <= i < count && bias != Center
    ensures BiasWeight(count, bias, i) == Power(Height(count, bias, i) as real / (count - 1) as real, 8)
  {
    hide Power;
    RampMirrors(i as real, (count - 1) as real);
    assert 0.0 <= (count - 1 - i) as real / (count - 1) as real;
    assert 0.0 <= i as real / (count - 1) as real;
  }

  lemma TentIsHeight(count: int, i: int)
    requires count >= 3 && 0 <= i < count
    ensures BiasWeight(count, Center, i) == Power(Height(count, Center, i) as real / ((count - 1) as real / 2.0), 3)
  {
    hide Power;
    var center, h := (count - 1) as real / 2.0, Height(count, Center, i) as real;
    assert Abs(i as real - center) == center - h;
    assert 1.0 - (center - h) / center == h / center by {
      assert (center - h) / center == center / center - h / center;
    }
    assert h / center >= 0.0;
  }

  lemma SharesScale(p: seq<real>, v: seq<real>, w: seq<real>, c: real)
    requires SharesOf(p, v) && c > 0.0 && |w| == |v| && forall i :: 0 <= i < |v| ==> w[i] == Times(v[i], c)
    ensures SharesOf(p, w)
  {
    forall i | 0 <= i < |v| ensures w[i] > 0.0 <==> v[i] > 0.0 {
      SignScales(v[i], c);
    }
    forall i, j | 0 <= i < |v| && 0 <= j < |v| && v[i] > 0.0 && v[j] > 0.0 ensures Times(p[i], w[j]) == Times(p[j], w[i]) {
      CrossScales(p[i], v[j], p[j], v[i], c);
    }
    hide Times, Sum;
    if k :| 0 <= k < |v| && v[k] > 0.0 {
      assert w[k] > 0.0;
    }
    if k :| 0 <= k < |w| && w[k] > 0.0 {
      assert v[k] > 0.0;
    }
  }

  lemma SignScales(x: real, c: real)
    requires c > 0.0
    ensures Times(x, c) > 0.0 <==> x > 0.0
  {
  }

  lemma CrossScales(a: real, x: real, b: real, y: real, c: real)
    requires Times(a, x) == Times(b, y)
    ensures Times(a, Times(x, c)) == Times(b, Times(y, c))
  {
    assert a * (x * c) == (a * x) * c;
    assert b * (y * c) == (b * y) * c;
  }

  function Heights(count: nat, bias: Direction): (v: seq<real>)
    ensures |v| == count
    ensures forall i {:trigger v[i]} :: 0 <= i < count ==>
              v[i] == Power(Height(count, bias, i) as real, if bias == Center then 3 else 8)
  {
    seq(count, i requires 0 <= i < count => Power(Height(count, bias, i) as real, if bias == Center then 3 else 8))
  }

  /** From three options on, a bias to one side gives shares by the eighth power of the distance from the other end, and
      a bias to the centre by the cube of the distance from the nearer end. */
  lemma BiasIsShares(count: nat, bias: Direction)
    requires count >= 3
    ensures SharesOf(BiasProbabilities(count, bias), Heights(count, bias))
  {
    var base := if bias == Center then (count - 1) as real / 2.0 else (count - 1) as real;
    var e: nat := if bias == Center then 3 else 8;
    var ws := BiasWeights(count, bias);
    NormalizedIsProportional(ws);
    PowerOfQuotient(0.0, base, e);
    hide SharesOf, Normalized, Power, Times, BiasWeight;
    forall i | 0 <= i < count ensures Heights(count, bias)[i] == Times(Values(ws)[i], Power(base, e)) {
      if bias == Center {
        TentIsHeight(count, i);
      } else {
        RampIsHeight(count, bias, i);
      }
      PowerOfQuotient(Height(count, bias, i) as real, base, e);
    }
    SharesScale(Normalized(ws), Values(ws), Heights(count, bias), Power(base, e));
  }

  /** Of two options the favoured one gets three quarters; a bias to the centre gives halves. */
  lemma BiasOfTwo(bias: Direction)
    ensures
      var p := BiasProbabilities(2, bias);
      p[0] + p[1] == 1.0 && match bias
        case Left => p[0] == 3.0 * p[1]
        case Right => p[1] == 3.0 * p[0]
        case Center => p[0] == p[1]
  {
  }

  lemma WeightedReverseAt(p: seq<real>, i: nat)
    requires i < |p|
    ensures Reverse(IndexWeighted(Reverse(p)))[i] == Times((|p| - 1) as real - i as real, p[i])
  {
    hide Times;
    assert (|p| - 1 - i) as real == (|p| - 1) as real - i as real;
  }

  lemma WeightedDifferenceAt(p: seq<real>, n: real, i: nat)
    requires i < |p|
    ensures Differences(Scaled(p, n), IndexWeighted(p))[i] == Times(n - i as real, p[i])
  {
    TimesSplit(n, i as real, p[i]);
    hide Times;
  }

  lemma WeightedBackwards(p: seq<real>, n: real)
    requires |p| > 0 && n == (|p| - 1) as real
    ensures Reverse(IndexWeighted(Reverse(p))) == Differences(Scaled(p, n), IndexWeighted(p))
  {
    var a := Reverse(IndexWeighted(Reverse(p)));
    var b := Differences(Scaled(p, n), IndexWeighted(p));
    assert |a| == |b| == |p|;
    hide *;
    forall i: nat | i < |p| ensures a[i] == b[i] {
      WeightedReverseAt(p, i);
      WeightedDifferenceAt(p, n, i);
    }
  }

  /** The index-weighted sums of a list and of its reverse add up to (n - 1) times the plain sum. */
  lemma WeightedReverse(p: seq<real>)
    requires |p| > 0
    ensures Sum(IndexWeighted(Reverse(p))) == Times((|p| - 1) as real, Sum(p)) - Sum(IndexWeighted(p))
  {
    var n := (|p| - 1) as real;
    WeightedBackwards(p, n);
    hide *;
    SumReverse(IndexWeighted(Reverse(p)));
    SumSub(Scaled(p, n), IndexWeighted(p), Differences(Scaled(p, n), IndexWeighted(p)));
    SumScale(p, Scaled(p, n), n);
  }

  lemma TimesSplit(n: real, i: real, x: real)
    ensures Times(n - i, x) == Times(n, x) - Times(i, x)
  {
  }

  /** The mean position of a distribution lies between the first and the last option. */
  lemma WeightedRange(p: seq<real>)
    requires |p| > 0 && forall i :: 0 <= i < |p| ==> p[i] >= 0.0
    ensures 0.0 <= Sum(IndexWeighted(p)) <= Times((|p| - 1) as real, Sum(p))
  {
    hide Times, Sum;
    var n := (|p| - 1) as real;
    forall i | 0 <= i < |p| ensures 0.0 <= IndexWeighted(p)[i] <= Scaled(p, n)[i] {
      TimesBetween(i as real, n, p[i]);
    }
    SumNonneg(IndexWeighted(p));
    SumMonotone(IndexWeighted(p), Scaled(p, n));
    SumScale(p, Scaled(p, n), n);
  }

  lemma TimesBetween(i: real, n: real, x: real)
    requires 0.0 <= i <= n && x >= 0.0
    ensures 0.0 <= Times(i, x) <= Times(n, x)
  {
  }

  lemma RatioMirrors(p: seq<real>, count: int)
    requires count == |p| >= 2 && Sum(p) == 1.0
    requires forall i :: 0 <= i < |p| ==> p[i] >= 0.0
    ensures MeanRatio(Reverse(p), count) == 1.0 - MeanRatio(p, count)
  {
    WeightedReverse(p);
    WeightedRange(p);
    hide Sum, IndexWeighted, UnitRatio;
    UnitRatioMirrors(Sum(IndexWeighted(p)), (count - 1) as real);
  }

  lemma UnitRatioMirrors(w: real, n: real)
    requires n > 0.0 && 0.0 <= w <= Times(n, 1.0)
    ensures UnitRatio(Times(n, 1.0) - w, n) == 1.0 - UnitRatio(w, n)
  {
    RampMirrors(w, n);
    QuotientRange(w, n);
  }

  lemma QuotientRange(w: real, n: real)
    requires n > 0.0 && 0.0 <= w <= n
    ensures 0.0 <= w / n <= 1.0
  {
  }

  lemma TargetMirrors(item: Item)
    requires CountsItsWeights(item)
    ensures TargetProbabilities(Mirror(item)) == Reverse(TargetProbabilities(item))
    ensures |TargetProbabilities(item)| == OptionCount(item) && Sum(TargetProbabilities(item)) == 1.0
    ensures forall i :: 0 <= i < |TargetProbabilities(item)| ==> TargetProbabilities(item)[i] >= 0.0
  {
    if |item.weights| > 0 {
      NormalizedMirrors(item.weights);
      NormalizedIsDistribution(item.weights);
    } else {
      BiasMirrors(OptionCount(item), item.bias);
      BiasIsDistribution(OptionCount(item), item.bias);
    }
  }

  lemma ItemMirrors(item: Item)
    requires CountsItsWeights(item)
    ensures InferItem(Mirror(item)).direction == InferItem(item).direction.Flip()
    ensures InferItem(Mirror(item)).skew == InferItem(item).skew
    ensures InferItem(Mirror(item)).key == InferItem(item).key
  {
    TargetMirrors(item);
    RatioMirrors(TargetProbabilities(item), OptionCount(item));
  }

  lemma MirrorAllSplits(items: seq<Item>)
    requires |items| > 0
    ensures
      var n := |items| - 1;
      |MirrorAll(items)| == n + 1 && MirrorAll(items)[..n] == MirrorAll(items[..n]) && MirrorAll(items)[n] == Mirror(items[n])
      && Mirror(items[n]).key == items[n].key
  {
  }

  lemma {:induction false} StrengthMirrors(items: seq<Item>, direction: Direction)
    requires forall i :: 0 <= i < |items| ==> CountsItsWeights(items[i])
    ensures Strength(MirrorAll(items), direction) == Strength(items, direction.Flip())
  {
    if |items| > 0 {
      var n := |items| - 1;
      StrengthMirrors(items[..n], direction);
      MirrorAllSplits(items);
      ItemMirrors(items[n]);
    }
  }

  lemma {:induction false} ByKeyMirrors(items: seq<Item>)
    requires forall i :: 0 <= i < |items| ==> CountsItsWeights(items[i])
    ensures ByKey(MirrorAll(items)).Keys == ByKey(items).Keys
    ensures forall k :: k in ByKey(items) ==> ByKey(MirrorAll(items))[k].direction == ByKey(items)[k].direction.Flip()
  {
    if |items| > 0 {
      var n := |items| - 1;
      ByKeyMirrors(items[..n]);
      MirrorAllSplits(items);
      ItemMirrors(items[n]);
      hide InferItem, CountsItsWeights, Mirror, MirrorAll;
    }
  }

  /** Listing every item's options from the other end swaps the two strengths and flips the anchor;
      how strong the anchor is, whether it is ambiguous and which items are reversed stay the same. */
  lemma MirrorSymmetry(items: seq<Item>)
    requires forall i :: 0 <= i < |items| ==> CountsItsWeights(items[i])
    ensures
      var o, m := Infer(items), Infer(MirrorAll(items));
      && m.left == o.right && m.right == o.left
      && m.anchor == o.anchor.Flip() && m.anchorStrength == o.anchorStrength
      && m.ambiguous == o.ambiguous && m.reversedKeys == o.reversedKeys
  {
    StrengthMirrors(items, Left);
    StrengthMirrors(items, Right);
    ByKeyMirrors(items);
    hide ByKey, Strength;
    var anchor := Anchor(Strength(items, Left), Strength(items, Right));
    var a := ReversedKeys(ByKey(items), anchor);
    var b := ReversedKeys(ByKey(MirrorAll(items)), anchor.Flip());
    assert forall k :: k in a <==> k in b;
    assert a == b;
  }

  // ---- the count must match ----

  /** n weights that add up to one: 1 - q on the first option, q on the last. */
  function Ends(n: nat, q: real): (ws: seq<Weight>)
    requires n >= 2
    ensures |ws| == n
  {
    seq(n, i requires 0 <= i < n => Finite(if i == 0 then 1.0 - q else if i == n - 1 then q else 0.0))
  }

  lemma SumEnds(xs: seq<real>)
    requires |xs| >= 2 && forall i :: 0 < i < |xs| - 1 ==> xs[i] == 0.0
    ensures Sum(xs) == xs[0] + xs[|xs| - 1]
  {
    SumLone(xs[..|xs| - 1], 0);
  }

  lemma EndsMean(n: nat, q: real)
    requires n >= 2 && 0.0 <= q <= 1.0
    ensures Sum(IndexWeighted(Normalized(Ends(n, q)))) == Times((n - 1) as real, q)
  {
    SumEnds(Cleaned(Ends(n, q)));
    var p := Normalized(Ends(n, q));
    hide Sum;
    assert forall i :: 0 <= i < n ==> p[i] == Ends(n, q)[i].value;
    assert forall i :: 0 <= i < n ==> IndexWeighted(p)[i] == Times(i as real, p[i]);
    SumEnds(IndexWeighted(p));
  }

  lemma EndsMirror(n: nat, q: real)
    requires n >= 2
    ensures Reverse(Ends(n, q)) == Ends(n, 1.0 - q)
  {
  }

  function EndsItem(n: nat, count: int, q: real): Item
    requires n >= 2
  {
    Item("", count, Ends(n, q), Center)
  }

  lemma EndsReads(item: Item, n: nat, q: real)
    requires n >= 2 && 0.0 <= q <= 1.0 && item.weights == Ends(n, q)
    ensures InferItem(item).direction == DirectionOf(UnitRatio(Times((n - 1) as real, q), (OptionCount(item) - 1) as real))
  {
    EndsMean(n, q);
    hide Sum, Ends, Normalized, UnitRatio, IndexWeighted;
  }

  lemma EndsDirection(n: nat, count: int, q: real)
    requires n >= 2 && count >= 2 && 0.0 <= q <= 1.0
    ensures InferItem(EndsItem(n, count, q)).direction == DirectionOf(UnitRatio(Times((n - 1) as real, q), (count - 1) as real))
    ensures InferItem(Mirror(EndsItem(n, count, q))).direction
         == DirectionOf(UnitRatio(Times((n - 1) as real, 1.0 - q), (count - 1) as real))
  {
    EndsMirror(n, q);
    hide Ends, UnitRatio, InferItem, DirectionOf;
    EndsReads(EndsItem(n, count, q), n, q);
    EndsReads(Mirror(EndsItem(n, count, q)), n, 1.0 - q);
  }

  predicate DirectionMirrors(item: Item) {
    InferItem(Mirror(item)).direction == InferItem(item).direction.Flip()
  }

  lemma RatioAtLeast(x: real, n: real, f: real)
    requires n > 0.0 && 0.0 <= f <= 1.0
    ensures UnitRatio(x, n) >= f <==> f == 0.0 || x >= Times(f, n)
    ensures UnitRatio(x, n) <= f <==> f == 1.0 || x <= Times(f, n)
  {
    var ratio := x / n;
    assert ratio * n == x;
    ScalingCompares(ratio, f, n);
  }

  lemma ScalingCompares(x: real, y: real, n: real)
    requires n > 0.0
    ensures x >= y <==> x * n >= y * n
    ensures x <= y <==> x * n <= y * n
  {
    if x > y {
      assert (x - y) * n > 0.0;
    } else if x < y {
      assert (y - x) * n > 0.0;
    }
  }

  /** More weights than options: an item that just reads as right, whose mirror does not read as left. */
  lemma LongListLeans(n: nat, count: int) returns (item: Item)
    requires n > count >= 2
    ensures |item.weights| == n && OptionCount(item) == count && !DirectionMirrors(item)
  {
    var m, c := (n - 1) as real, (count - 1) as real;
    var q := 0.6 * c / m;
    item := EndsItem(n, count, q);
    PartOf(0.6, c, m);
    EndsDirection(n, count, q);
    hide InferItem, UnitRatio, Mirror;
    RatioAtLeast(Times(m, q), c, 0.6);
    RatioAtLeast(Times(m, q), c, 0.4);
    RatioAtLeast(Times(m, 1.0 - q), c, 0.4);
  }

  /** A share f of c, as a part q of the larger m. */
  lemma PartOf(f: real, c: real, m: real)
    requires 0.0 <= f <= 1.0 && 0.0 < c && f * c <= m && 0.0 < m
    ensures 0.0 <= f * c / m <= 1.0
    ensures Times(m, f * c / m) == Times(f, c)
    ensures Times(m, 1.0 - f * c / m) == m - Times(f, c)
  {
    var q := f * c / m;
    assert q * m == f * c;
  }

  /** Fewer weights than options: an item that reads as left, whose mirror does not read as right. */
  lemma ShortListLeans(n: nat, count: int) returns (item: Item)
    requires 2 <= n < count
    ensures |item.weights| == n && OptionCount(item) == count && !DirectionMirrors(item)
  {
    var m, c := (n - 1) as real, (count - 1) as real;
    var q := if 0.4 * c <= m then 0.4 * c / m else 1.0;
    item := EndsItem(n, count, q);
    if 0.4 * c <= m {
      PartOf(0.4, c, m);
    }
    EndsDirection(n, count, q);
    hide InferItem, UnitRatio, Mirror;
    RatioAtLeast(Times(m, q), c, 0.4);
    RatioAtLeast(Times(m, 1.0 - q), c, 0.4);
    RatioAtLeast(Times(m, 1.0 - q), c, 0.6);
  }

  /** A single weight leaves nothing to mirror and reads as left. */
  lemma LoneWeightLeans(count: int) returns (item: Item)
    requires count >= 2
    ensures |item.weights| == 1 && OptionCount(item) == count && !DirectionMirrors(item)
  {
    item := Item("", count, [Finite(1.0)], Center);
    assert Reverse(item.weights) == item.weights;
    var p := TargetProbabilities(item);
    LoneIndexWeight(p);
    hide TargetProbabilities, Sum;
    assert MeanRatio(p, count) == 0.0;
  }

  lemma LoneIndexWeight(p: seq<real>)
    requires |p| == 1
    ensures Sum(IndexWeighted(p)) == 0.0
  {
    SumConst(IndexWeighted(p), 0.0);
  }

  /** Among the items with n weights and a given option count, every direction flips with the mirror exactly when
      the two numbers agree. */
  lemma MirrorsIffCountMatches(n: nat, count: int)
    requires n >= 1 && count >= 2
    ensures (forall item: Item :: |item.weights| == n && OptionCount(item) == count ==> DirectionMirrors(item)) <==> n == count
  {
    if n == count {
      forall item: Item | |item.weights| == n && OptionCount(item) == count ensures DirectionMirrors(item) {
        ItemMirrors(item);
      }
    } else {
      var item;
      if n == 1 {
        item := LoneWeightLeans(count);
      } else if n < count {
        item := ShortListLeans(n, count);
      } else {
        item := LongListLeans(n, count);
      }
      assert !DirectionMirrors(item);
    }
  }
}
