/** The rank clamp: no option may end up above one that its reference puts strictly higher. */
module RankClamp {
  import opened Wrappers
  import opened Sums
  import opened Sorting
  import opened Quotas
  import opened Distribution

  // ---- rank groups ----

  /** The positive weights, each once, in order of first appearance. */
  function Seen(ref: seq<real>): seq<real> {
    if |ref| == 0 then []
    else
      var before, w := Seen(ref[..|ref| - 1]), ref[|ref| - 1];
      if w <= 0.0 || w in before then before else before + [w]
  }

  lemma {:induction false} SeenFacts(ref: seq<real>)
    ensures Distinct(Seen(ref))
    ensures forall w :: w in Seen(ref) <==> w in ref && w > 0.0
  {
    if |ref| > 0 {
      var front, w := ref[..|ref| - 1], ref[|ref| - 1];
      SeenFacts(front);
      assert forall v :: v in ref <==> v in front || v == w;
    }
  }

  /** The positions of a weight, in ascending order. */
  function Members(ref: seq<real>, w: real): seq<nat> {
    if |ref| == 0 then []
    else
      var n := |ref| - 1;
      var before := Members(ref[..n], w);
      if ref[n] == w then before + [n] else before
  }

  lemma {:induction false} MembersFacts(ref: seq<real>, w: real)
    ensures forall i: nat :: i in Members(ref, w) <==> i < |ref| && ref[i] == w
  {
    if |ref| > 0 {
      MembersFacts(ref[..|ref| - 1], w);
    }
  }

  predicate Heavier(x: real, y: real) {
    x >= y
  }

  function Weights(ref: seq<real>): seq<real> {
    Sort(Heavier, Seen(ref))
  }

  function RankGroups(ref: seq<real>): (groups: seq<seq<nat>>)
    ensures |groups| == |Weights(ref)|
    ensures forall g {:trigger groups[g]} :: 0 <= g < |groups| ==> groups[g] == Members(ref, Weights(ref)[g])
  {
    seq(|Weights(ref)|, g requires 0 <= g < |Weights(ref)| => Members(ref, Weights(ref)[g]))
  }

  /** Heaviest first, and every positive weight occurs. */
  lemma WeightsDescend(ref: seq<real>)
    ensures forall i, j :: 0 <= i < j < |Weights(ref)| ==> Weights(ref)[i] > Weights(ref)[j]
    ensures forall w :: w in Weights(ref) <==> w in ref && w > 0.0
  {
    SeenFacts(ref);
    SortSorts(Heavier, Seen(ref));
    DistinctPermutes(Seen(ref), Weights(ref));
    SameElements(Weights(ref), Seen(ref));
    forall i, j | 0 <= i < j < |Weights(ref)| ensures Weights(ref)[i] > Weights(ref)[j] {
      assert Heavier(Weights(ref)[i], Weights(ref)[j]) && Weights(ref)[i] != Weights(ref)[j];
    }
  }

  lemma OneMoreWeight(ref: seq<real>, k: nat)
    requires k < |ref|
    ensures
      var w, keys := ref[k], Seen(ref[..k]);
      Seen(ref[..k + 1]) == if w <= 0.0 || w in keys then keys else keys + [w]
  {
    assert ref[..k + 1][..k] == ref[..k];
  }

  lemma OneMoreMember(ref: seq<real>, k: nat, w: real)
    requires k < |ref|
    ensures Members(ref[..k + 1], w) == if w == ref[k] then Members(ref[..k], w) + [k] else Members(ref[..k], w)
    ensures w > 0.0 && w !in Seen(ref[..k]) ==> Members(ref[..k + 1], w) == if w == ref[k] then [k] else []
  {
    assert ref[..k + 1][..k] == ref[..k];
    SeenFacts(ref[..k]);
    if w > 0.0 && w !in Seen(ref[..k]) {
      NoMembers(ref[..k], w);
      assert Members(ref[..k], w) + [k] == [k];
    }
  }

  ghost predicate AreBuckets(ref: seq<real>, buckets: map<real, seq<nat>>, keys: seq<real>) {
    && keys == Seen(ref)
    && (forall i :: 0 <= i < |keys| ==> keys[i] in buckets)
    && (forall w :: w in buckets ==> w in keys)
    && (forall w :: w in buckets ==> buckets[w] == Members(ref, w))
  }

  /** One weight more, put into its bucket. */
  method AddToBuckets(buckets: map<real, seq<nat>>, keys: seq<real>, w: real, k: nat, ghost ref: seq<real>)
    returns (b: map<real, seq<nat>>, ks: seq<real>)
    requires k < |ref| && w == ref[k] && AreBuckets(ref[..k], buckets, keys)
    ensures AreBuckets(ref[..k + 1], b, ks)
  {
    b, ks := buckets, keys;
    OneMoreWeight(ref, k);
    SeenFacts(ref[..k]);
    hide Seen, Members;
    if w > 0.0 {
      if w in buckets {
        b := buckets[w := buckets[w] + [k]];
      } else {
        b := buckets[w := [k]];
        ks := keys + [w];
      }
    }
    forall v | v in b ensures b[v] == Members(ref[..k + 1], v) {
      OneMoreMember(ref, k, v);
    }
  }

  method BuildRankGroups(ref: seq<real>) returns (groups: seq<seq<nat>>)
    ensures groups == RankGroups(ref)
  {
    var buckets: map<real, seq<nat>> := map[];
    var keys: seq<real> := [];
    for k := 0 to |ref|
      invariant AreBuckets(ref[..k], buckets, keys)
    {
      buckets, keys := AddToBuckets(buckets, keys, ref[k], k, ref);
    }
    assert ref[..|ref|] == ref;
    var sorted := Sort(Heavier, keys);
    SameElements(sorted, keys);
    hide Members, Seen, Sort;
    forall g | 0 <= g < |sorted| ensures sorted[g] in buckets {
      assert sorted[g] in sorted;
      var i :| 0 <= i < |keys| && keys[i] == sorted[g];
    }
    groups := seq(|sorted|, g requires 0 <= g < |sorted| && sorted[g] in buckets => buckets[sorted[g]]);
  }

  lemma {:induction false} NoMembers(ref: seq<real>, w: real)
    requires w !in ref
    ensures Members(ref, w) == []
  {
    if |ref| > 0 {
      NoMembers(ref[..|ref| - 1], w);
    }
  }

  // ---- the clamp, position by position ----

  function Nonnegative(x: real): (r: real)
    ensures r >= 0.0
  {
    if x > 0.0 then x else 0.0
  }

  function Floored(p: seq<real>): (a: seq<real>)
    ensures |a| == |p| && forall i {:trigger a[i]} :: 0 <= i < |p| ==> a[i] == Nonnegative(p[i])
  {
    seq(|p|, i requires 0 <= i < |p| => Nonnegative(p[i]))
  }

  predicate Ranked(ref: seq<real>, i: nat) {
    i < |ref| && ref[i] > 0.0
  }

  /** The reference puts position j strictly above position i. */
  predicate Above(ref: seq<real>, j: nat, i: nat) {
    Ranked(ref, i) && Ranked(ref, j) && ref[j] > ref[i]
  }

  /** The least of `x` and of the values at positions below n that stand above i. */
  function LeastAbove(a: seq<real>, ref: seq<real>, i: nat, x: real, n: nat): (m: real)
    requires n <= |a|
    ensures m <= x && forall j: nat :: j < n && Above(ref, j, i) ==> m <= a[j]
    ensures m == x || exists j: nat :: j < n && Above(ref, j, i) && m == a[j]
  {
    if n == 0 then x
    else
      var m := LeastAbove(a, ref, i, x, n - 1);
      if Above(ref, n - 1, i) then Least(m, a[n - 1]) else m
  }

  function Clamped(a: seq<real>, ref: seq<real>): (c: seq<real>)
    ensures |c| == |a|
    ensures forall i {:trigger c[i]} :: 0 <= i < |a| ==> c[i] == LeastAbove(a, ref, i, a[i], |a|)
  {
    seq(|a|, i requires 0 <= i < |a| => LeastAbove(a, ref, i, a[i], |a|))
  }

  ghost predicate TwoRanks(ref: seq<real>) {
    exists i: nat, j: nat :: Above(ref, i, j)
  }

  ghost function Enforced(p: seq<real>, ref: seq<real>): (r: seq<real>)
    ensures |r| == |p|
  {
    if TwoRanks(ref) then Shares(Clamped(Floored(p), ref)) else Floored(p)
  }

  // ---- the clamp as the program does it, group by group ----

  /** Position i belongs to one of the first g groups. */
  predicate Before(ref: seq<real>, g: nat, i: nat)
    requires g <= |Weights(ref)|
  {
    i < |ref| && ref[i] in Weights(ref)[..g]
  }

  /** The floor after the first g groups: the least value in them. */
  ghost predicate IsFloor(a: seq<real>, ref: seq<real>, g: nat, floor: Option<real>)
    requires g <= |Weights(ref)|
  {
    match floor
    case None => forall i: nat :: i < |a| ==> !Before(ref, g, i)
    case Some(f) =>
      && (forall i: nat :: i < |a| && Before(ref, g, i) ==> f <= a[i])
      && (exists i: nat :: i < |a| && Before(ref, g, i) && f == a[i])
  }

  lemma AboveIsBefore(ref: seq<real>, g: nat, i: nat, j: nat)
    requires g < |Weights(ref)| && i < |ref| && ref[i] == Weights(ref)[g]
    ensures Above(ref, j, i) <==> Before(ref, g, j)
  {
    WeightsDescend(ref);
    assert ref[i] in Weights(ref);
    if Above(ref, j, i) {
      assert ref[j] in ref;
      var h :| 0 <= h < |Weights(ref)| && Weights(ref)[h] == ref[j];
      assert h < g;
      assert Weights(ref)[..g][h] == ref[j];
    }
    if Before(ref, g, j) {
      var h :| 0 <= h < g && Weights(ref)[h] == ref[j];
      assert ref[j] in Weights(ref);
    }
  }

  /** One group: every member is brought down to the floor. */
  method ClampGroup(adjusted: seq<real>, group: seq<nat>, floor: Option<real>) returns (r: seq<real>)
    ensures |r| == |adjusted|
    ensures forall i: nat :: i < |adjusted| ==>
              r[i] == if i in group && floor.Some? then Least(adjusted[i], floor.value) else adjusted[i]
  {
    r := adjusted;
    if floor.Some? {
      for k := 0 to |group|
        invariant |r| == |adjusted|
        invariant forall i: nat :: i < |adjusted| ==>
                    r[i] == if i in group[..k] then Least(adjusted[i], floor.value) else adjusted[i]
      {
        assert forall i: nat :: i in group[..k + 1] <==> i in group[..k] || i == group[k];
        if group[k] < |r| {
          r := r[group[k] := Least(r[group[k]], floor.value)];
        }
      }
      assert group[..|group|] == group;
    }
  }

  /** `m` is the least value of the group's positions in range. */
  ghost predicate IsGroupMin(adjusted: seq<real>, group: seq<nat>, m: Option<real>) {
    match m
    case None => forall i: nat :: i in group ==> i >= |adjusted|
    case Some(v) =>
      && (forall i: nat :: i in group && i < |adjusted| ==> v <= adjusted[i])
      && (exists i: nat :: i in group && i < |adjusted| && v == adjusted[i])
  }

  method GroupMin(adjusted: seq<real>, group: seq<nat>) returns (m: Option<real>)
    ensures IsGroupMin(adjusted, group, m)
  {
    m := None;
    for k := 0 to |group|
      invariant IsGroupMin(adjusted, group[..k], m)
    {
      assert group[..k + 1] == group[..k] + [group[k]];
      assert forall i: nat :: i in group[..k + 1] <==> i in group[..k] || i == group[k];
      if group[k] < |adjusted| && (m.None? || adjusted[group[k]] < m.value) {
        m := Some(adjusted[group[k]]);
      }
    }
    assert group[..|group|] == group;
  }

  /** The first g groups are clamped, everything else is as it was. */
  ghost predicate DoneUpTo(a: seq<real>, ref: seq<real>, g: nat, adjusted: seq<real>)
    requires g <= |Weights(ref)|
  {
    && |adjusted| == |a|
    && forall i: nat :: i < |a| ==> adjusted[i] == if Before(ref, g, i) then Clamped(a, ref)[i] else a[i]
  }

  lemma FewGroups(ref: seq<real>)
    ensures |Weights(ref)| <= 1 <==> !TwoRanks(ref)
  {
    WeightsDescend(ref);
    var ws := Weights(ref);
    if |ws| > 1 {
      assert ws[0] in ws && ws[1] in ws;
      var i: nat :| i < |ref| && ref[i] == ws[0];
      var j: nat :| j < |ref| && ref[j] == ws[1];
      assert Above(ref, i, j);
    }
    if i: nat, j: nat :| Above(ref, i, j) {
      assert ref[i] in ref && ref[j] in ref;
      var k :| 0 <= k < |ws| && ws[k] == ref[i];
      var l :| 0 <= l < |ws| && ws[l] == ref[j];
      assert k != l;
    }
  }

  lemma BeforeGrows(ref: seq<real>, g: nat)
    requires g < |Weights(ref)|
    ensures forall i: nat :: Before(ref, g + 1, i) <==> Before(ref, g, i) || i in Members(ref, Weights(ref)[g])
    ensures forall i: nat :: i in Members(ref, Weights(ref)[g]) ==> !Before(ref, g, i)
  {
    WeightsDescend(ref);
    MembersFacts(ref, Weights(ref)[g]);
    var ws := Weights(ref);
    assert forall w :: w in ws[..g + 1] <==> w in ws[..g] || w == ws[g];
    forall h | 0 <= h < g ensures ws[..g][h] != ws[g] {
    }
    hide Weights;
  }

  lemma GroupClamped(a: seq<real>, ref: seq<real>, g: nat, adjusted: seq<real>, floor: Option<real>, clamped: seq<real>)
    requires g < |Weights(ref)| && DoneUpTo(a, ref, g, adjusted) && IsFloor(a, ref, g, floor)
    requires |clamped| == |adjusted|
    requires forall i: nat :: i < |adjusted| ==>
               clamped[i] == if i in RankGroups(ref)[g] && floor.Some? then Least(adjusted[i], floor.value) else adjusted[i]
    ensures DoneUpTo(a, ref, g + 1, clamped)
    ensures forall i: nat :: i < |a| && i in RankGroups(ref)[g] ==>
              clamped[i] == if floor.Some? then Least(a[i], floor.value) else a[i]
  {
    BeforeGrows(ref, g);
    MembersFacts(ref, Weights(ref)[g]);
    forall i: nat | i < |a| && i in RankGroups(ref)[g]
      ensures clamped[i] == Clamped(a, ref)[i] == if floor.Some? then Least(a[i], floor.value) else a[i]
    {
      forall j: nat ensures Above(ref, j, i) <==> Before(ref, g, j) {
        AboveIsBefore(ref, g, i, j);
      }
      assert adjusted[i] == a[i];
      hide Above, Before, Weights, Members;
      assert LeastAbove(a, ref, i, a[i], |a|) == if floor.Some? then Least(a[i], floor.value) else a[i];
    }
    hide Before, Weights, Members, IsFloor;
  }

  lemma FloorMoves(a: seq<real>, ref: seq<real>, g: nat, floor: Option<real>, clamped: seq<real>, m: Option<real>)
    requires g < |Weights(ref)| && IsFloor(a, ref, g, floor) && |clamped| == |a|
    requires IsGroupMin(clamped, RankGroups(ref)[g], m)
    requires forall i: nat :: i < |a| && i in RankGroups(ref)[g] ==>
               clamped[i] == if floor.Some? then Least(a[i], floor.value) else a[i]
    ensures IsFloor(a, ref, g + 1, if m.None? then floor else if floor.None? then m else Some(Least(floor.value, m.value)))
  {
    BeforeGrows(ref, g);
    MembersFacts(ref, Weights(ref)[g]);
    hide Before, Weights, Members;
  }

  lemma AllDone(a: seq<real>, ref: seq<real>, adjusted: seq<real>)
    requires DoneUpTo(a, ref, |Weights(ref)|, adjusted)
    ensures adjusted == Clamped(a, ref)
  {
    WeightsDescend(ref);
    var ws := Weights(ref);
    assert ws[..|ws|] == ws;
    forall i: nat | i < |a| ensures adjusted[i] == Clamped(a, ref)[i] {
      if !Before(ref, |ws|, i) {
        assert i < |ref| ==> ref[i] in ref;
        assert !Ranked(ref, i);
      }
    }
  }

  method EnforceReferenceRankOrder(p: seq<real>, ref: seq<real>) returns (r: seq<real>)
    ensures r == Enforced(p, ref)
  {
    var adjusted := Floored(p);
    ghost var a := adjusted;
    var groups := BuildRankGroups(ref);
    FewGroups(ref);
    if |groups| <= 1 {
      return adjusted;
    }
    var floor: Option<real> := None;
    hide Weights, Members, Clamped;
    for g := 0 to |groups|
      invariant DoneUpTo(a, ref, g, adjusted) && IsFloor(a, ref, g, floor)
    {
      var clamped := ClampGroup(adjusted, groups[g], floor);
      var m := GroupMin(clamped, groups[g]);
      GroupClamped(a, ref, g, adjusted, floor, clamped);
      FloorMoves(a, ref, g, floor, clamped, m);
      if m.Some? {
        floor := if floor.None? then m else Some(Least(floor.value, m.value));
      }
      adjusted := clamped;
    }
    AllDone(a, ref, adjusted);
    return Shares(adjusted);
  }

  // ---- what the clamp guarantees ----

  /** `v` nowhere exceeds a value that the reference puts strictly above. */
  ghost predicate FollowsOrder(v: seq<real>, ref: seq<real>) {
    forall i: nat, j: nat :: i < |v| && j < |v| && Above(ref, j, i) ==> v[i] <= v[j]
  }

  lemma AboveTransitive(ref: seq<real>, k: nat, j: nat, i: nat)
    requires Above(ref, k, j) && Above(ref, j, i)
    ensures Above(ref, k, i)
  {
  }

  /** The clamp gives the greatest weights that lie below the given ones and follow the reference order. */
  lemma ClampIsGreatest(a: seq<real>, ref: seq<real>)
    ensures FollowsOrder(Clamped(a, ref), ref)
    ensures forall i :: 0 <= i < |a| ==> Clamped(a, ref)[i] <= a[i]
    ensures forall v: seq<real> :: |v| == |a| && FollowsOrder(v, ref) && (forall i :: 0 <= i < |a| ==> v[i] <= a[i]) ==>
              forall i :: 0 <= i < |a| ==> v[i] <= Clamped(a, ref)[i]
  {
    var c := Clamped(a, ref);
    forall i: nat, j: nat | i < |a| && j < |a| && Above(ref, j, i) ensures c[i] <= c[j] {
      if c[j] != a[j] {
        var k: nat :| k < |a| && Above(ref, k, j) && c[j] == a[k];
        AboveTransitive(ref, k, j, i);
      }
    }
    forall v: seq<real>, i: nat | |v| == |a| && FollowsOrder(v, ref) && (forall k :: 0 <= k < |a| ==> v[k] <= a[k]) && i < |a|
      ensures v[i] <= c[i]
    {
      if c[i] != a[i] {
        var k: nat :| k < |a| && Above(ref, k, i) && c[i] == a[k];
      }
    }
  }

  /** Weights that follow the order already are not clamped. */
  lemma ClampRests(a: seq<real>, ref: seq<real>)
    requires FollowsOrder(a, ref)
    ensures Clamped(a, ref) == a
  {
    ClampIsGreatest(a, ref);
  }

  lemma SharesOrder(a: seq<real>, i: nat, j: nat)
    requires i < |a| && j < |a| && a[i] <= a[j]
    ensures Shares(a)[i] <= Shares(a)[j]
  {
    if Sum(a) > 0.0 {
      ShareMonotone(a[i], a[j], Sum(a));
    }
  }

  /** A strictly higher reference weight never ends up below a lower one. */
  lemma EnforcedFollowsOrder(p: seq<real>, ref: seq<real>)
    ensures FollowsOrder(Enforced(p, ref), ref)
  {
    var c := Clamped(Floored(p), ref);
    ClampIsGreatest(Floored(p), ref);
    hide Clamped, Shares, Above;
    if TwoRanks(ref) {
      forall i: nat, j: nat | i < |c| && j < |c| && Above(ref, j, i) ensures Shares(c)[i] <= Shares(c)[j] {
        SharesOrder(c, i, j);
      }
    }
  }

  ghost predicate AllNonnegative(a: seq<real>) {
    forall i :: 0 <= i < |a| ==> a[i] >= 0.0
  }

  lemma ClampedNonnegative(a: seq<real>, ref: seq<real>)
    requires AllNonnegative(a)
    ensures AllNonnegative(Clamped(a, ref))
  {
  }

  lemma SharesNonnegative(a: seq<real>)
    requires AllNonnegative(a)
    ensures AllNonnegative(Shares(a))
    ensures Sum(a) > 0.0 ==> Sum(Shares(a)) == 1.0
    ensures Sum(a) <= 0.0 ==> Shares(a) == a
  {
    if Sum(a) > 0.0 {
      SharesSumToOne(a);
      forall i | 0 <= i < |a| ensures Shares(a)[i] >= 0.0 {
        Undivided(a[i], Sum(a));
      }
    }
  }

  lemma SharesOfDistribution(a: seq<real>)
    requires Sum(a) == 1.0
    ensures Shares(a) == a
  {
  }

  /** Enforcing the order a second time changes nothing. */
  lemma EnforcingIsIdempotent(p: seq<real>, ref: seq<real>)
    ensures Enforced(Enforced(p, ref), ref) == Enforced(p, ref)
  {
    var c := Clamped(Floored(p), ref);
    var out := Enforced(p, ref);
    ClampedNonnegative(Floored(p), ref);
    SharesNonnegative(c);
    EnforcedFollowsOrder(p, ref);
    hide Clamped, Shares, Sum, Above;
    assert AllNonnegative(out);
    assert Floored(out) == out;
    if TwoRanks(ref) {
      ClampRests(out, ref);
      if Sum(c) > 0.0 {
        SharesOfDistribution(out);
      }
    }
  }

  lemma ClampedSupport(a: seq<real>, t: seq<real>)
    requires |a| == |t| && AllNonnegative(a)
    requires forall i :: 0 <= i < |a| ==> (a[i] > 0.0 <==> t[i] > 0.0)
    ensures forall i :: 0 <= i < |a| ==> (Clamped(a, t)[i] > 0.0 <==> t[i] > 0.0)
  {
    ClampedNonnegative(a, t);
    ClampIsGreatest(a, t);
    forall i: nat | i < |a| && t[i] > 0.0 ensures Clamped(a, t)[i] > 0.0 {
      if Clamped(a, t)[i] != a[i] {
        var k: nat :| k < |a| && Above(t, k, i) && Clamped(a, t)[i] == a[k];
      }
    }
  }

  lemma SharesSupport(a: seq<real>)
    requires Sum(a) > 0.0
    ensures forall i :: 0 <= i < |a| ==> (Shares(a)[i] > 0.0 <==> a[i] > 0.0)
  {
    forall i | 0 <= i < |a| ensures Shares(a)[i] > 0.0 <==> a[i] > 0.0 {
      Undivided(a[i], Sum(a));
    }
  }

  /** Some weight of the reference is positive. */
  ghost predicate HasWeight(ref: seq<real>) {
    exists k: nat :: Ranked(ref, k)
  }

  /** The target made from a list has the list's support, or is positive throughout when the list has none. */
  lemma TargetSupport(ref: seq<real>)
    requires |ref| > 0
    ensures
      var t := Target(Many(ref), |ref|);
      IsDistribution(t) && forall i: nat :: i < |ref| ==> (t[i] > 0.0 <==> Ranked(ref, i) || !HasWeight(ref))
  {
    var ws := FitTo(AsWeights(Many(ref)), |ref|);
    NormalizedIsDistribution(ws);
    TargetIsDistribution(Many(ref), |ref|);
    SumZeroIff(Cleaned(ws));
    SumNonneg(Cleaned(ws));
    assert forall i: nat :: i < |ref| ==> (Cleaned(ws)[i] > 0.0 <==> Ranked(ref, i));
    hide Sum;
    forall i: nat | i < |ref| ensures Normalized(ws)[i] > 0.0 <==> Ranked(ref, i) || !HasWeight(ref) {
      if Sum(Cleaned(ws)) > 0.0 {
        Undivided(Cleaned(ws)[i], Sum(Cleaned(ws)));
      }
    }
  }

  lemma ClampOfDistribution(a: seq<real>, ref: seq<real>, k: nat)
    requires |a| == |ref| && IsDistribution(a) && Ranked(ref, k)
    requires forall i: nat :: i < |a| ==> (a[i] > 0.0 <==> Ranked(ref, i))
    ensures
      var out := Shares(Clamped(a, ref));
      IsDistribution(out) && forall i: nat :: i < |a| ==> (out[i] > 0.0 <==> Ranked(ref, i))
  {
    var c := Clamped(a, ref);
    ClampedSupport(a, ref);
    ClampedNonnegative(a, ref);
    hide Clamped, Shares, Sum;
    assert c[k] > 0.0;
    SumAtLeastTerm(c, k);
    SharesSupport(c);
    SharesNonnegative(c);
  }

  /** A list of weights, corrected as a target and then clamped by the list itself, gives a distribution with the
      list's support, or positive throughout when the list has none, and in the order of the list. */
  lemma CorrectThenClamp(ref: seq<real>, history: Option<History>, p: Tuning, exp: real -> real)
    requires |ref| > 0 && p.Valid()
    ensures
      var out := Enforced(Corrected(Target(Many(ref), |ref|), history, p, exp), ref);
      && IsDistribution(out)
      && (forall i: nat :: i < |ref| ==> (out[i] > 0.0 <==> Ranked(ref, i) || !HasWeight(ref)))
      && (forall i, j :: 0 <= i < |ref| && 0 <= j < |ref| && ref[i] > ref[j] > 0.0 ==> out[i] >= out[j])
  {
    var t := Target(Many(ref), |ref|);
    var a := Corrected(t, history, p, exp);
    TargetSupport(ref);
    CorrectedIsDistribution(t, history, p, exp);
    assert Floored(a) == a;
    EnforcedFollowsOrder(a, ref);
    OrderOfAbove(Enforced(a, ref), ref);
    hide Clamped, Shares, Sum, FollowsOrder, Corrected, Target;
    if i: nat, j: nat :| Above(ref, i, j) {
      ClampOfDistribution(a, ref, i);
    }
  }

  lemma OrderOfAbove(v: seq<real>, t: seq<real>)
    requires |v| == |t| && FollowsOrder(v, t)
    ensures forall i, j :: 0 <= i < |t| && 0 <= j < |t| && t[i] > t[j] > 0.0 ==> v[i] >= v[j]
  {
    forall i: nat, j: nat | i < |t| && j < |t| && t[i] > t[j] > 0.0 ensures v[i] >= v[j] {
      assert Above(t, i, j);
    }
  }
}
