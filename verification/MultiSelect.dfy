/** Selections of several options: bringing a draft selection within its limits, and drawing a weighted sample. */
module MultiSelect {
  import opened Wrappers
  import opened Sums
  import opened Sorting
  import opened AnswerRules

  // ---- normalized selections ----

  predicate InRange(i: int, n: int) {
    0 <= i < n
  }

  /** The members in range, each at its first occurrence. */
  function OnceIn(xs: seq<int>, n: int): seq<int> {
    if |xs| == 0 then []
    else
      var before, x := OnceIn(xs[..|xs| - 1], n), xs[|xs| - 1];
      if !InRange(x, n) || x in before then before else before + [x]
  }

  lemma {:induction false} OnceFacts(xs: seq<int>, n: int)
    ensures Distinct(OnceIn(xs, n))
    ensures forall x :: x in OnceIn(xs, n) <==> x in xs && InRange(x, n)
  {
    if |xs| > 0 {
      var front := xs[..|xs| - 1];
      OnceFacts(front, n);
      assert forall x :: x in xs <==> x in front || x == xs[|xs| - 1];
    }
  }

  function Normal(xs: seq<int>, n: int): seq<int> {
    Sort(IntAtMost, OnceIn(xs, n))
  }

  method NormalizeSelectedIndices(xs: seq<int>, n: int) returns (r: seq<int>)
    ensures r == Normal(xs, n)
  {
    var result: seq<int> := [];
    var seen: set<int> := {};
    for k := 0 to |xs|
      invariant result == OnceIn(xs[..k], n)
      invariant forall x :: x in seen <==> x in result
    {
      assert xs[..k + 1][..k] == xs[..k];
      if xs[k] < 0 || xs[k] >= n || xs[k] in seen {
        continue;
      }
      seen := seen + {xs[k]};
      result := result + [xs[k]];
    }
    assert xs[..|xs|] == xs;
    r := Sort(IntAtMost, result);
  }

  lemma NormalFacts(xs: seq<int>, n: int)
    ensures Ascending(Normal(xs, n))
    ensures forall x :: x in Normal(xs, n) <==> x in xs && InRange(x, n)
  {
    OnceFacts(xs, n);
    IntAtMostPreorder();
    SortSorts(IntAtMost, OnceIn(xs, n));
    DistinctPermutes(OnceIn(xs, n), Normal(xs, n));
    SameElements(Normal(xs, n), OnceIn(xs, n));
  }

  lemma AscendingDistinct(xs: seq<int>)
    requires Ascending(xs)
    ensures Distinct(xs)
  {
  }

  lemma {:induction false} SetSize(xs: seq<int>)
    requires Distinct(xs)
    ensures |AsSet(xs)| == |xs|
  {
    if |xs| == 0 {
      assert AsSet(xs) == {};
    } else {
      var front := xs[..|xs| - 1];
      SetSize(front);
      assert AsSet(xs) == AsSet(front) + {xs[|xs| - 1]};
    }
  }

  lemma NormalOfDistinct(xs: seq<int>, n: int)
    requires Distinct(xs) && forall x :: x in xs ==> InRange(x, n)
    ensures |Normal(xs, n)| == |xs|
  {
    NormalFacts(xs, n);
    SetSize(xs);
    SetSize(Normal(xs, n));
    assert AsSet(xs) == AsSet(Normal(xs, n));
  }

  // ---- extending a selection up to a size ----

  /** Appends members of `ys` that are neither banned nor already there, while there are fewer than `limit`. */
  function Extend(xs: seq<int>, ys: seq<int>, banned: set<int>, limit: int): seq<int>
    decreases |ys|
  {
    if |ys| == 0 || |xs| >= limit then xs
    else if ys[0] in banned || ys[0] in xs then Extend(xs, ys[1..], banned, limit)
    else Extend(xs + [ys[0]], ys[1..], banned, limit)
  }

  /** The result keeps `xs` in front, stays within the limit, and stops short of it only when nothing is left. */
  lemma {:induction false} ExtendFacts(xs: seq<int>, ys: seq<int>, banned: set<int>, limit: int)
    requires Distinct(xs)
    ensures
      var r := Extend(xs, ys, banned, limit);
      && xs <= r && Distinct(r)
      && (|xs| <= limit ==> |r| <= limit) && (|xs| >= limit ==> r == xs)
      && (forall x :: x in r ==> x in xs || (x in ys && x !in banned))
      && (|r| < limit ==> forall y :: y in ys && y !in banned ==> y in r)
    decreases |ys|
  {
    if |ys| > 0 && |xs| < limit {
      var more := if ys[0] in banned || ys[0] in xs then xs else xs + [ys[0]];
      ExtendFacts(more, ys[1..], banned, limit);
      assert forall y :: y in ys <==> y == ys[0] || y in ys[1..];
      var r := Extend(more, ys[1..], banned, limit);
      assert xs <= more <= r;
      assert ys[0] in more ==> ys[0] in r by {
        if ys[0] in more {
          var i :| 0 <= i < |more| && more[i] == ys[0];
          assert r[i] == more[i];
        }
      }
    }
  }

  lemma PrefixMembers(xs: seq<int>, r: seq<int>)
    requires xs <= r
    ensures forall x :: x in xs ==> x in r
  {
    forall x | x in xs ensures x in r {
      var i :| 0 <= i < |xs| && xs[i] == x;
      assert r[i] == x;
    }
  }

  lemma SubsetSize(a: set<int>, b: set<int>)
    requires a <= b
    ensures |a| <= |b|
  {
    assert b == a + (b - a);
  }

  /** The size reached: the limit, or everything there is. */
  lemma ExtendSize(xs: seq<int>, ys: seq<int>, banned: set<int>, limit: int)
    requires Distinct(xs)
    ensures |Extend(xs, ys, banned, limit)|
         == if |xs| >= limit then |xs| else AtMost(|AsSet(xs) + (AsSet(ys) - banned)|, limit)
  {
    ExtendFacts(xs, ys, banned, limit);
    var r, all := Extend(xs, ys, banned, limit), AsSet(xs) + (AsSet(ys) - banned);
    hide Extend, AsSet, Distinct;
    if |xs| < limit {
      PrefixMembers(xs, r);
      forall x | |r| < limit && x in all ensures x in AsSet(r) {
        assert x in xs || (x in ys && x !in banned);
      }
      forall x | x in AsSet(r) ensures x in all {
        assert x in r;
      }
      SizeReached(r, AsSet(xs) + (AsSet(ys) - banned), limit);
    }
  }

  lemma SizeReached(r: seq<int>, all: set<int>, limit: int)
    requires Distinct(r) && AsSet(r) <= all && |r| <= limit && (|r| < limit ==> all <= AsSet(r))
    ensures |r| == AtMost(|all|, limit)
  {
    SetSize(r);
    SubsetSize(AsSet(r), all);
    if |r| < limit {
      assert AsSet(r) == all;
    }
  }

  function AtMost(x: int, y: int): (m: int)
    ensures m <= x && m <= y && (m == x || m == y)
  {
    if x <= y then x else y
  }

  function AtLeast(x: int, y: int): (m: int)
    ensures m >= x && m >= y && (m == x || m == y)
  {
    if x >= y then x else y
  }

  method ExtendUpTo(xs: seq<int>, ys: seq<int>, banned: set<int>, limit: int) returns (r: seq<int>)
    ensures r == Extend(xs, ys, banned, limit)
  {
    r := xs;
    var k := 0;
    while k < |ys| && |r| < limit
      invariant k <= |ys|
      invariant Extend(xs, ys, banned, limit) == Extend(r, ys[k..], banned, limit)
    {
      assert ys[k..][1..] == ys[k + 1..];
      if ys[k] !in banned && ys[k] !in r {
        r := r + [ys[k]];
      }
      k := k + 1;
    }
  }

  // ---- the constraints ----

  function Drop(xs: seq<int>, banned: set<int>): (r: seq<int>)
    ensures forall x :: x in r <==> x in xs && x !in banned
  {
    if |xs| == 0 then []
    else
      var before, x := Drop(xs[..|xs| - 1], banned), xs[|xs| - 1];
      assert forall y :: y in xs <==> y in xs[..|xs| - 1] || y == x;
      if x in banned then before else before + [x]
  }

  function Range(n: int): (r: seq<int>)
    ensures forall x :: x in r <==> InRange(x, n)
  {
    if n <= 0 then [] else Range(n - 1) + [n - 1]
  }

  datatype Limits = Limits(optionCount: int, min: int, max: int) {
    /** The limits as the constraints read them. */
    function Max(): (m: int)
      ensures m >= 1
    {
      AtLeast(1, AtMost(max, optionCount))
    }

    function Min(): (m: int)
      ensures m >= 1
    {
      AtLeast(1, AtMost(min, optionCount))
    }
  }

  /** The selection without blocked options and with all required ones. */
  function Wanted(l: Limits, selected: seq<int>, required: seq<int>, blocked: seq<int>): seq<int> {
    var n := l.optionCount;
    var allowed := Drop(Normal(selected, n), AsSet(Normal(blocked, n)));
    Normal(Extend(allowed, Normal(required, n), {}, |allowed| + |required|), n)
  }

  function Trimmed(l: Limits, wanted: seq<int>, required: seq<int>): seq<int> {
    if |wanted| <= l.Max() then wanted
    else
      var r := Normal(required, l.optionCount);
      Normal(Extend(r[..AtMost(|r|, l.Max())], wanted, {}, l.Max()), l.optionCount)
  }

  function Constrained(l: Limits, selected: seq<int>, required: seq<int>, blocked: seq<int>, priorities: seq<int>): seq<int> {
    var n := l.optionCount;
    var trimmed := Trimmed(l, Wanted(l, selected, required, blocked), required);
    var filled := Extend(trimmed, Normal(priorities, n) + Range(n), AsSet(Normal(blocked, n)), l.Min());
    Normal(if |filled| > l.Max() then filled[..l.Max()] else filled, n)
  }

  method ApplyMultipleConstraints(l: Limits, selected: seq<int>, required: seq<int>, blocked: seq<int>, priorities: seq<int>)
    returns (r: seq<int>)
    ensures r == Constrained(l, selected, required, blocked, priorities)
  {
    var n := l.optionCount;
    hide Normal, Extend, Drop, Range;
    var blockedList := NormalizeSelectedIndices(blocked, n);
    var banned := AsSet(blockedList);
    var requiredList := NormalizeSelectedIndices(required, n);
    var preferred := NormalizeSelectedIndices(priorities, n);
    var chosen := NormalizeSelectedIndices(selected, n);
    chosen := Drop(chosen, banned);
    chosen := ExtendUpTo(chosen, requiredList, {}, |chosen| + |required|);
    chosen := NormalizeSelectedIndices(chosen, n);
    if |chosen| > l.Max() {
      var kept := requiredList[..AtMost(|requiredList|, l.Max())];
      kept := ExtendUpTo(kept, chosen, {}, l.Max());
      chosen := NormalizeSelectedIndices(kept, n);
    }
    chosen := ExtendUpTo(chosen, preferred + Range(n), banned, l.Min());
    if |chosen| > l.Max() {
      chosen := chosen[..l.Max()];
    }
    r := NormalizeSelectedIndices(chosen, n);
  }

  // ---- what the constraints guarantee ----

  /** What is wanted, as a set: the selected options that are not blocked, and the required ones. */
  function WantedSet(l: Limits, selected: seq<int>, required: seq<int>, blocked: seq<int>): set<int> {
    AsSet(Normal(selected, l.optionCount)) - AsSet(Normal(blocked, l.optionCount)) + AsSet(Normal(required, l.optionCount))
  }

  function Unblocked(l: Limits, blocked: seq<int>): set<int> {
    AsSet(Range(l.optionCount)) - AsSet(Normal(blocked, l.optionCount))
  }

  lemma AllowedFacts(l: Limits, selected: seq<int>, blocked: seq<int>)
    ensures
      var n := l.optionCount;
      var allowed := Drop(Normal(selected, n), AsSet(Normal(blocked, n)));
      Ascending(allowed) && forall x :: x in allowed <==> x in Normal(selected, n) && x !in Normal(blocked, n)
  {
    NormalFacts(selected, l.optionCount);
    DropDistinct(Normal(selected, l.optionCount), AsSet(Normal(blocked, l.optionCount)));
    hide Normal, Drop;
  }

  lemma UnionFacts(xs: seq<int>, ys: seq<int>, limit: int, n: int)
    requires |xs| + |ys| <= limit && (forall x :: x in xs ==> InRange(x, n)) && (forall y :: y in ys ==> InRange(y, n))
    ensures
      var u := Normal(Extend(xs, ys, {}, limit), n);
      Ascending(u) && forall x :: x in u <==> x in xs || x in ys
  {
    ExtendAll(xs, ys, limit);
    NormalFacts(Extend(xs, ys, {}, limit), n);
    hide Extend, Normal, Ascending;
  }

  lemma WantedMembers(l: Limits, selected: seq<int>, required: seq<int>, blocked: seq<int>)
    ensures
      var n, w := l.optionCount, Wanted(l, selected, required, blocked);
      && Ascending(w)
      && forall x :: x in w <==> (x in Normal(selected, n) && x !in Normal(blocked, n)) || x in Normal(required, n)
  {
    var n := l.optionCount;
    AllowedFacts(l, selected, blocked);
    NormalFacts(selected, n);
    NormalFacts(required, n);
    NormalShorter(required, n);
    hide Extend, Drop, Normal, Ascending, AsSet;
    var allowed := Drop(Normal(selected, n), AsSet(Normal(blocked, n)));
    UnionFacts(allowed, Normal(required, n), |allowed| + |required|, n);
  }

  lemma WantedFacts(l: Limits, selected: seq<int>, required: seq<int>, blocked: seq<int>)
    ensures
      var w := Wanted(l, selected, required, blocked);
      Ascending(w) && AsSet(w) == WantedSet(l, selected, required, blocked) && |w| == |WantedSet(l, selected, required, blocked)|
  {
    var w := Wanted(l, selected, required, blocked);
    WantedMembers(l, selected, required, blocked);
    AscendingDistinct(w);
    SetSize(w);
    hide Wanted, Normal, Ascending, AsSet;
    forall x ensures x in AsSet(w) <==> x in WantedSet(l, selected, required, blocked) {
      assert x in AsSet(w) <==> x in w;
    }
  }

  lemma {:induction false} DropDistinct(xs: seq<int>, banned: set<int>)
    requires Ascending(xs)
    ensures Ascending(Drop(xs, banned))
  {
    if |xs| > 0 {
      var front := xs[..|xs| - 1];
      DropDistinct(front, banned);
      var before := Drop(front, banned);
      forall i | 0 <= i < |before| ensures before[i] < xs[|xs| - 1] {
        assert before[i] in before;
        var j :| 0 <= j < |front| && front[j] == before[i];
      }
    }
  }

  lemma {:induction false} OnceShorter(xs: seq<int>, n: int)
    ensures |OnceIn(xs, n)| <= |xs|
  {
    if |xs| > 0 {
      OnceShorter(xs[..|xs| - 1], n);
    }
  }

  lemma NormalShorter(xs: seq<int>, n: int)
    ensures |Normal(xs, n)| <= |xs|
  {
    OnceShorter(xs, n);
  }

  /** With room for everything, everything is appended. */
  lemma {:induction false} ExtendAll(xs: seq<int>, ys: seq<int>, limit: int)
    requires |xs| + |ys| <= limit
    ensures forall x :: x in Extend(xs, ys, {}, limit) <==> x in xs || x in ys
    decreases |ys|
  {
    if |ys| > 0 {
      var more := if ys[0] in xs then xs else xs + [ys[0]];
      assert forall y :: y in ys <==> y == ys[0] || y in ys[1..];
      assert forall x :: x in more <==> x in xs || x == ys[0];
      if |xs| < limit {
        ExtendAll(more, ys[1..], limit);
      }
    }
  }

  lemma AscendingPrefix(xs: seq<int>, k: nat)
    requires Ascending(xs) && k <= |xs|
    ensures Ascending(xs[..k]) && forall x :: x in xs[..k] ==> x in xs
  {
  }

  lemma TrimmedFacts(l: Limits, wanted: seq<int>, required: seq<int>)
    requires Ascending(wanted) && (forall x :: x in wanted ==> InRange(x, l.optionCount))
    requires forall x :: x in Normal(required, l.optionCount) ==> x in wanted
    ensures
      var t, r := Trimmed(l, wanted, required), Normal(required, l.optionCount);
      && Ascending(t) && |t| == AtMost(|wanted|, l.Max()) && (forall x :: x in t ==> x in wanted)
      && (forall x :: x in r[..AtMost(|r|, l.Max())] ==> x in t)
  {
    var n, r := l.optionCount, Normal(required, l.optionCount);
    NormalFacts(required, n);
    if |wanted| <= l.Max() {
      AscendingPrefix(r, AtMost(|r|, l.Max()));
    } else {
      var kept := r[..AtMost(|r|, l.Max())];
      AscendingPrefix(r, |kept|);
      AscendingDistinct(kept);
      ExtendFacts(kept, wanted, {}, l.Max());
      ExtendSize(kept, wanted, {}, l.Max());
      var e := Extend(kept, wanted, {}, l.Max());
      PrefixMembers(kept, e);
      assert AsSet(kept) + (AsSet(wanted) - {}) == AsSet(wanted);
      AscendingDistinct(wanted);
      SetSize(wanted);
      hide Extend, Normal;
      assert |e| == l.Max();
      NormalOfDistinct(e, n);
      NormalFacts(e, n);
    }
  }

  /** The last two steps, from a trimmed selection on. */
  lemma FilledFacts(l: Limits, t: seq<int>, blocked: seq<int>, priorities: seq<int>)
    requires Ascending(t) && |t| <= l.Max() && forall x :: x in t ==> InRange(x, l.optionCount)
    ensures
      var n, banned := l.optionCount, AsSet(Normal(blocked, l.optionCount));
      var f := Extend(t, Normal(priorities, n) + Range(n), banned, l.Min());
      var r := Normal(if |f| > l.Max() then f[..l.Max()] else f, n);
      && Ascending(r)
      && |r| == AtMost(l.Max(), AtLeast(|t|, AtMost(l.Min(), |AsSet(t) + Unblocked(l, blocked)|)))
      && (forall x :: x in t ==> x in r)
      && (forall x :: x in r ==> InRange(x, n) && (x in t || x !in Normal(blocked, n)))
  {
    var n, banned := l.optionCount, AsSet(Normal(blocked, l.optionCount));
    var more := Normal(priorities, n) + Range(n);
    var f := Extend(t, more, banned, l.Min());
    var c := if |f| > l.Max() then f[..l.Max()] else f;
    NormalFacts(priorities, n);
    AscendingDistinct(t);
    ExtendFacts(t, more, banned, l.Min());
    ExtendSize(t, more, banned, l.Min());
    FillPool(l, t, blocked, priorities);
    hide Extend, Normal, AsSet, Ascending, Unblocked;
    assert Distinct(c) && t <= c && forall x :: x in c ==> x in f;
    PrefixMembers(t, c);
    forall x | x in c ensures InRange(x, n) && (x in t || x !in Normal(blocked, n)) {
    }
    NormalOfDistinct(c, n);
    NormalFacts(c, n);
  }

  /** Everything a selection can be filled up with is everything unblocked. */
  lemma FillPool(l: Limits, t: seq<int>, blocked: seq<int>, priorities: seq<int>)
    ensures
      var n, banned := l.optionCount, AsSet(Normal(blocked, l.optionCount));
      AsSet(t) + (AsSet(Normal(priorities, n) + Range(n)) - banned) == AsSet(t) + Unblocked(l, blocked)
  {
    NormalFacts(priorities, l.optionCount);
    hide Normal;
  }

  /** A constrained selection is sorted and within range and size, avoids what is blocked, and reaches exactly
      the size that the limits and the unblocked options allow. */
  lemma ConstrainedIsWithinLimits(l: Limits, selected: seq<int>, required: seq<int>, blocked: seq<int>, priorities: seq<int>)
    ensures
      var r := Constrained(l, selected, required, blocked, priorities);
      var wanted := WantedSet(l, selected, required, blocked);
      && Ascending(r) && (forall x :: x in r ==> InRange(x, l.optionCount))
      && |r| == AtMost(l.Max(), AtLeast(|wanted|, AtMost(l.Min(), |wanted + Unblocked(l, blocked)|)))
      && (forall x :: x in r && x in Normal(blocked, l.optionCount) ==> x in Normal(required, l.optionCount))
      && (|wanted| <= l.Max() ==> forall x :: x in wanted ==> x in r)
  {
    var n := l.optionCount;
    var w := Wanted(l, selected, required, blocked);
    var t := Trimmed(l, w, required);
    WantedFacts(l, selected, required, blocked);
    WantedMembers(l, selected, required, blocked);
    NormalFacts(selected, n);
    NormalFacts(required, n);
    hide Wanted, Normal, Extend, AsSet, Ascending, Unblocked;
    TrimmedFacts(l, w, required);
    FilledFacts(l, t, blocked, priorities);
    TrimmedSize(l, w, required, Unblocked(l, blocked));
    assert |w| <= l.Max() ==> t == w;
    forall x | x in WantedSet(l, selected, required, blocked) ensures x in w {
      assert x in AsSet(w);
    }
  }

  lemma TrimmedSize(l: Limits, w: seq<int>, required: seq<int>, u: set<int>)
    requires |Trimmed(l, w, required)| == AtMost(|w|, l.Max())
    ensures
      var t := Trimmed(l, w, required);
      AtMost(l.Max(), AtLeast(|t|, AtMost(l.Min(), |AsSet(t) + u|))) == AtMost(l.Max(), AtLeast(|w|, AtMost(l.Min(), |AsSet(w) + u|)))
  {
  }

  /** Required options are all there when they fit; when they do not, the selection is the first of them. */
  lemma RequiredComeFirst(l: Limits, selected: seq<int>, required: seq<int>, blocked: seq<int>, priorities: seq<int>)
    ensures
      var r, req := Constrained(l, selected, required, blocked, priorities), Normal(required, l.optionCount);
      && (|req| <= l.Max() ==> forall x :: x in req ==> x in r)
      && (|req| > l.Max() ==> r == req[..l.Max()])
  {
    var n := l.optionCount;
    var w, req := Wanted(l, selected, required, blocked), Normal(required, l.optionCount);
    var t := Trimmed(l, w, required);
    WantedMembers(l, selected, required, blocked);
    NormalFacts(selected, n);
    NormalFacts(required, n);
    hide Wanted, Normal, Extend, AsSet, Unblocked;
    TrimmedFacts(l, w, required);
    FilledFacts(l, t, blocked, priorities);
    var r := Constrained(l, selected, required, blocked, priorities);
    if |req| > l.Max() {
      var first := req[..l.Max()];
      AscendingDistinct(req);
      AscendingDistinct(w);
      SubseqSize(req, w);
      AscendingDistinct(first);
      SameAscending(first, r);
    }
  }

  lemma SubseqSize(xs: seq<int>, ys: seq<int>)
    requires Distinct(xs) && Distinct(ys) && forall x :: x in xs ==> x in ys
    ensures |xs| <= |ys|
  {
    SetSize(xs);
    SetSize(ys);
    SubsetSize(AsSet(xs), AsSet(ys));
  }

  /** Ascending sequences of the same size, one within the other, are the same. */
  lemma {:induction false} SameAscending(xs: seq<int>, ys: seq<int>)
    requires Ascending(xs) && Ascending(ys) && |ys| <= |xs| && forall x :: x in xs ==> x in ys
    ensures xs == ys
  {
    AscendingDistinct(xs);
    AscendingDistinct(ys);
    SubseqSize(xs, ys);
    if |xs| > 0 {
      var n := |xs| - 1;
      var a, b := xs[..n], ys[..n];
      assert xs[n] in ys;
      if xs[n] != ys[n] {
        SubseqSize(xs, b);
      }
      forall x | x in a ensures x in b {
        assert x in xs;
        var k :| 0 <= k < |ys| && ys[k] == x;
        assert k < n;
      }
      SameAscending(a, b);
    }
  }

  // ---- which options are kept and which are filled in ----

  /** What is appended is a front of the offered options, without the banned ones. */
  lemma {:induction false} ExtendCut(xs: seq<int>, ys: seq<int>, banned: set<int>, limit: int) returns (k: nat)
    ensures k <= |ys|
    ensures forall x :: x in Extend(xs, ys, banned, limit) <==> x in xs || (x in ys[..k] && x !in banned)
    decreases |ys|
  {
    k := 0;
    if |ys| > 0 && |xs| < limit {
      var more := if ys[0] in banned || ys[0] in xs then xs else xs + [ys[0]];
      var m := ExtendCut(more, ys[1..], banned, limit);
      k := m + 1;
      assert ys[..k] == [ys[0]] + ys[1..][..m];
    }
  }

  /** Stopping later and cutting back is stopping earlier. */
  lemma {:induction false} ExtendFront(xs: seq<int>, ys: seq<int>, banned: set<int>, m: int, k: int)
    requires Distinct(xs) && |xs| <= k <= |Extend(xs, ys, banned, m)|
    ensures Extend(xs, ys, banned, m)[..k] == Extend(xs, ys, banned, k)
    decreases |ys|
  {
    ExtendFacts(xs, ys, banned, m);
    if |ys| > 0 && |xs| < m && |xs| < k {
      ExtendFront(if ys[0] in banned || ys[0] in xs then xs else xs + [ys[0]], ys[1..], banned, m, k);
    }
  }

  /** Option x is offered before option y: the preferred ones come first, each group in ascending order. */
  predicate Precedes(preferred: seq<int>, x: int, y: int) {
    if x in preferred then y !in preferred || x < y else y !in preferred && x < y
  }

  lemma {:induction false} RangeAt(n: nat, x: nat)
    requires x < n
    ensures |Range(n)| == n && Range(n)[x] == x
  {
    if x < n - 1 {
      RangeAt(n - 1, x);
    } else if n > 1 {
      RangeAt(n - 1, 0);
    }
  }

  lemma FrontHolds(ys: seq<int>, k: nat, j: nat)
    requires k <= |ys| && j < |ys|
    ensures j < k ==> ys[j] in ys[..k]
  {
    if j < k {
      assert ys[..k][j] == ys[j];
    }
  }

  lemma OfferedBefore(preferred: seq<int>, n: int, k: nat, x: int, y: int)
    requires Ascending(preferred) && k <= |preferred + Range(n)|
    requires x in (preferred + Range(n))[..k] && y !in (preferred + Range(n))[..k] && InRange(y, n) && InRange(x, n)
    ensures Precedes(preferred, x, y)
  {
    var ys := preferred + Range(n);
    RangeAt(n, x);
    RangeAt(n, y);
    assert ys[|preferred| + y] == y && ys[|preferred| + x] == x;
    FrontHolds(ys, k, |preferred| + y);
    if y in preferred {
      var j :| 0 <= j < |preferred| && preferred[j] == y;
      FrontHolds(ys, k, j);
      var i :| 0 <= i < k && ys[..k][i] == x;
      assert preferred[i] == x;
    } else if x !in preferred {
      var i :| 0 <= i < k && ys[..k][i] == x;
      assert i >= |preferred| ==> Range(n)[i - |preferred|] == x;
      RangeAt(n, i - |preferred|);
    }
  }

  /** The last two steps in one: the trimmed selection, extended up to the lower limit or to the upper, if that is less. */
  lemma FilledIsExtended(l: Limits, t: seq<int>, blocked: seq<int>, priorities: seq<int>) returns (limit: int)
    requires Ascending(t) && |t| <= l.Max()
    ensures limit <= l.Min() && limit <= l.Max()
    ensures
      var n, banned := l.optionCount, AsSet(Normal(blocked, l.optionCount));
      var more := Normal(priorities, n) + Range(n);
      var f := Extend(t, more, banned, l.Min());
      (if |f| > l.Max() then f[..l.Max()] else f) == Extend(t, more, banned, limit)
  {
    var n, banned := l.optionCount, AsSet(Normal(blocked, l.optionCount));
    var more := Normal(priorities, n) + Range(n);
    limit := AtMost(l.Min(), l.Max());
    hide Normal, AsSet, Range;
    AscendingDistinct(t);
    ExtendFacts(t, more, banned, l.Min());
    var f := Extend(t, more, banned, l.Min());
    if l.Min() > l.Max() {
      hide Ascending;
      if |f| > l.Max() {
        ExtendFront(t, more, banned, l.Min(), l.Max());
      } else {
        ShortExtension(t, more, banned, l.Min(), l.Max());
      }
    }
  }

  /** An extension that ends before a limit is the same for that limit. */
  lemma {:induction false} ShortExtension(xs: seq<int>, ys: seq<int>, banned: set<int>, m: int, k: int)
    requires Distinct(xs) && k <= m && |Extend(xs, ys, banned, m)| <= k
    ensures Extend(xs, ys, banned, k) == Extend(xs, ys, banned, m)
    decreases |ys|
  {
    ExtendFacts(xs, ys, banned, m);
    if |ys| > 0 && |xs| < k {
      ShortExtension(if ys[0] in banned || ys[0] in xs then xs else xs + [ys[0]], ys[1..], banned, m, k);
    }
  }

  /** Which options fill a selection up: those that nothing left out precedes. */
  lemma FillsInOrder(l: Limits, t: seq<int>, blocked: seq<int>, priorities: seq<int>, x: int, y: int)
    requires Ascending(t) && |t| <= l.Max() && forall z :: z in t ==> InRange(z, l.optionCount)
    requires
      var n, banned := l.optionCount, AsSet(Normal(blocked, l.optionCount));
      var f := Extend(t, Normal(priorities, n) + Range(n), banned, l.Min());
      x in Normal(if |f| > l.Max() then f[..l.Max()] else f, n) && x !in t
    ensures |t| < l.Min() && |t| < l.Max()
    ensures
      var n, banned := l.optionCount, AsSet(Normal(blocked, l.optionCount));
      var f := Extend(t, Normal(priorities, n) + Range(n), banned, l.Min());
      y !in Normal(if |f| > l.Max() then f[..l.Max()] else f, n) && InRange(y, n) && y !in banned ==>
        Precedes(Normal(priorities, n), x, y)
  {
    var n, banned := l.optionCount, AsSet(Normal(blocked, l.optionCount));
    var preferred := Normal(priorities, n);
    var limit := FilledIsExtended(l, t, blocked, priorities);
    AscendingDistinct(t);
    ExtendFacts(t, preferred + Range(n), banned, limit);
    NormalFacts(priorities, n);
    var cut := Extend(t, preferred + Range(n), banned, limit);
    NormalFacts(cut, n);
    var k := ExtendCut(t, preferred + Range(n), banned, limit);
    hide Extend, Normal, AsSet, Ascending, Precedes;
    if y !in cut && InRange(y, n) && y !in banned {
      OfferedBefore(preferred, n, k, x, y);
    }
  }

  lemma AscendingFront(xs: seq<int>, k: nat, x: int, y: int)
    requires Ascending(xs) && k <= |xs| && x in xs && x < y
    ensures y in xs[..k] ==> x in xs[..k]
  {
    var i :| 0 <= i < |xs| && xs[i] == x;
    FrontHolds(xs, k, i);
    if j :| 0 <= j < k && xs[..k][j] == y {
      assert i < j;
    }
  }

  /** Which options survive trimming: the required ones, and the lowest of the others. */
  lemma TrimsFromTheEnd(l: Limits, wanted: seq<int>, required: seq<int>, x: int, y: int)
    requires Ascending(wanted) && forall z :: z in wanted ==> InRange(z, l.optionCount)
    requires x in wanted && y in wanted && x < y && y !in Normal(required, l.optionCount)
    requires y in Trimmed(l, wanted, required)
    ensures x in Trimmed(l, wanted, required)
  {
    var n, r := l.optionCount, Normal(required, l.optionCount);
    if |wanted| > l.Max() {
      var kept := r[..AtMost(|r|, l.Max())];
      var k := ExtendCut(kept, wanted, {}, l.Max());
      NormalFacts(Extend(kept, wanted, {}, l.Max()), n);
      hide Extend, Normal, Ascending;
      AscendingFront(wanted, k, x, y);
      assert y in kept ==> y in r;
    }
  }

  /** What a constrained selection prefers. It goes beyond what is wanted only to reach the lower limit, and then takes
      options in order: preferred ones first, each group from the lowest. What it drops of what is wanted, it drops from
      the end of those that are not required. */
  lemma ConstrainedPrefers(l: Limits, selected: seq<int>, required: seq<int>, blocked: seq<int>, priorities: seq<int>, x: int, y: int)
    ensures
      var r, wanted := Constrained(l, selected, required, blocked, priorities), WantedSet(l, selected, required, blocked);
      && (x in r && x !in wanted ==> |wanted| < l.Min())
      && (x in r && x !in wanted && y !in r && InRange(y, l.optionCount) && y !in Normal(blocked, l.optionCount) ==>
            Precedes(Normal(priorities, l.optionCount), x, y))
      && (x in wanted && y in wanted && x < y && y !in Normal(required, l.optionCount) && y in r ==> x in r)
  {
    var n := l.optionCount;
    var w := Wanted(l, selected, required, blocked);
    var t := Trimmed(l, w, required);
    WantedFacts(l, selected, required, blocked);
    WantedMembers(l, selected, required, blocked);
    NormalFacts(selected, n);
    NormalFacts(required, n);
    hide Wanted, Normal, Extend, AsSet, Ascending, Precedes;
    TrimmedFacts(l, w, required);
    assert x in WantedSet(l, selected, required, blocked) <==> x in w by { assert x in AsSet(w) <==> x in w; }
    assert y in WantedSet(l, selected, required, blocked) <==> y in w by { assert y in AsSet(w) <==> y in w; }
    hide WantedSet;
    assert |w| <= l.Max() ==> t == w;
    hide Trimmed;
    FilledFacts(l, t, blocked, priorities);
    var r := Constrained(l, selected, required, blocked, priorities);
    if x in r && x !in t {
      FillsInOrder(l, t, blocked, priorities, x, y);
    }
    if y in r && y !in t {
      FillsInOrder(l, t, blocked, priorities, y, x);
    }
    if x in w && y in t && x < y && y !in Normal(required, n) {
      TrimsFromTheEnd(l, w, required, x, y);
    }
  }
}
