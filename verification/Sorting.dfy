/** The stable sort behind every `sorted(...)` and `.sort(...)` of the program, as a function
    of the sequence and of the order its key induces. */
module Sorting {

  ghost predicate TotalPreorder<T(!new)>(le: (T, T) -> bool) {
    && (forall x, y :: le(x, y) || le(y, x))
    && (forall x, y, z :: le(x, y) && le(y, z) ==> le(x, z))
  }

  ghost predicate SortedBy<T>(le: (T, T) -> bool, xs: seq<T>) {
    forall i, j :: 0 <= i < j < |xs| ==> le(xs[i], xs[j])
  }

  /** Puts `x` behind every element that may stand before it. */
  function Insert<T>(le: (T, T) -> bool, xs: seq<T>, x: T): (r: seq<T>)
    ensures |r| == |xs| + 1
    ensures multiset(r) == multiset(xs) + multiset{x}
  {
    var n := |xs| - 1;
    if n < 0 || le(xs[n], x) then xs + [x]
    else
      assert xs == xs[..n] + [xs[n]];
      Insert(le, xs[..n], x) + [xs[n]]
  }

  function Sort<T>(le: (T, T) -> bool, xs: seq<T>): (r: seq<T>)
    ensures |r| == |xs|
    ensures multiset(r) == multiset(xs)
  {
    var n := |xs| - 1;
    if n < 0 then []
    else
      assert xs == xs[..n] + [xs[n]];
      Insert(le, Sort(le, xs[..n]), xs[n])
  }

  lemma InsertMembers<T>(le: (T, T) -> bool, xs: seq<T>, x: T)
    ensures forall y :: y in Insert(le, xs, x) <==> y in xs || y == x
  {
    forall y ensures y in Insert(le, xs, x) <==> y in xs || y == x {
      assert y in Insert(le, xs, x) <==> y in multiset(Insert(le, xs, x));
      assert y in xs <==> y in multiset(xs);
    }
  }

  lemma {:induction false} InsertSorted<T(!new)>(le: (T, T) -> bool, xs: seq<T>, x: T)
    requires TotalPreorder(le) && SortedBy(le, xs)
    ensures SortedBy(le, Insert(le, xs, x))
  {
    var n := |xs| - 1;
    if n >= 0 && !le(xs[n], x) {
      var front := Insert(le, xs[..n], x);
      InsertSorted(le, xs[..n], x);
      InsertMembers(le, xs[..n], x);
      assert Insert(le, xs, x) == front + [xs[n]];
      hide Insert;
      forall i | 0 <= i < |front| ensures le(front[i], xs[n]) {
        assert front[i] in front;
      }
    }
  }

  lemma {:induction false} SortSorts<T(!new)>(le: (T, T) -> bool, xs: seq<T>)
    requires TotalPreorder(le)
    ensures SortedBy(le, Sort(le, xs))
  {
    var n := |xs| - 1;
    if n >= 0 {
      SortSorts(le, xs[..n]);
      InsertSorted(le, Sort(le, xs[..n]), xs[n]);
    }
  }

  /** Sorted, and elements the order does not tell apart still satisfy `tie`. */
  ghost predicate StablySorted<T>(le: (T, T) -> bool, tie: (T, T) -> bool, xs: seq<T>) {
    forall i, j :: 0 <= i < j < |xs| ==> le(xs[i], xs[j]) && (le(xs[j], xs[i]) ==> tie(xs[i], xs[j]))
  }

  lemma {:induction false} InsertStable<T(!new)>(le: (T, T) -> bool, tie: (T, T) -> bool, xs: seq<T>, x: T)
    requires TotalPreorder(le) && StablySorted(le, tie, xs)
    requires forall y :: y in xs ==> tie(y, x)
    ensures StablySorted(le, tie, Insert(le, xs, x))
  {
    var n := |xs| - 1;
    if n >= 0 && !le(xs[n], x) {
      var front := Insert(le, xs[..n], x);
      InsertStable(le, tie, xs[..n], x);
      InsertMembers(le, xs[..n], x);
      assert Insert(le, xs, x) == front + [xs[n]];
      hide Insert;
      forall i | 0 <= i < |front| ensures le(front[i], xs[n]) && (le(xs[n], front[i]) ==> tie(front[i], xs[n])) {
        assert front[i] in front;
      }
    }
  }

  /** A sort keeps the relative order of equals: whatever relation every earlier element of `xs`
      has to every later one, equals have it in the result. */
  lemma {:induction false} SortStable<T(!new)>(le: (T, T) -> bool, tie: (T, T) -> bool, xs: seq<T>)
    requires TotalPreorder(le)
    requires forall i, j :: 0 <= i < j < |xs| ==> tie(xs[i], xs[j])
    ensures StablySorted(le, tie, Sort(le, xs))
  {
    var n := |xs| - 1;
    if n >= 0 {
      SortStable(le, tie, xs[..n]);
      SameElements(Sort(le, xs[..n]), xs[..n]);
      InsertStable(le, tie, Sort(le, xs[..n]), xs[n]);
    }
  }

  /** Sorting leaves a sorted sequence as it is. */
  lemma {:induction false} SortedFixed<T>(le: (T, T) -> bool, xs: seq<T>)
    requires SortedBy(le, xs)
    ensures Sort(le, xs) == xs
  {
    var n := |xs| - 1;
    if n >= 0 {
      SortedFixed(le, xs[..n]);
      assert xs == xs[..n] + [xs[n]];
    }
  }

  lemma SameElements<T>(xs: seq<T>, ys: seq<T>)
    requires multiset(xs) == multiset(ys)
    ensures forall x :: x in xs <==> x in ys
  {
    forall x ensures x in xs <==> x in ys {
      assert x in xs <==> x in multiset(xs);
      assert x in ys <==> x in multiset(ys);
    }
  }

  lemma Member<T>(s: set<T>) returns (x: T)
    requires s != {}
    ensures x in s
  {
    x :| x in s;
  }

  ghost predicate Distinct<T>(xs: seq<T>) {
    forall i, j :: 0 <= i < j < |xs| ==> xs[i] != xs[j]
  }

  lemma {:induction false} DistinctMultiplicity<T>(xs: seq<T>)
    ensures Distinct(xs) <==> forall x :: multiset(xs)[x] <= 1
  {
    if |xs| > 0 {
      var n := |xs| - 1;
      var front := xs[..n];
      DistinctMultiplicity(front);
      assert xs == front + [xs[n]];
      assert forall x :: multiset(xs)[x] == multiset(front)[x] + if x == xs[n] then 1 else 0;
      assert xs[n] in front <==> xs[n] in multiset(front);
      assert Distinct(xs) <==> Distinct(front) && xs[n] !in front;
      if forall x :: multiset(xs)[x] <= 1 {
        forall x ensures multiset(front)[x] <= 1 {
          assert multiset(xs)[x] <= 1;
        }
        assert multiset(xs)[xs[n]] <= 1;
      }
    }
  }

  /** A rearrangement of distinct elements is distinct. */
  lemma DistinctPermutes<T>(xs: seq<T>, ys: seq<T>)
    requires multiset(xs) == multiset(ys) && Distinct(xs)
    ensures Distinct(ys)
  {
    DistinctMultiplicity(xs);
    DistinctMultiplicity(ys);
  }

  function Indices(n: nat): (r: seq<nat>)
    ensures |r| == n
    ensures forall i :: 0 <= i < n ==> r[i] == i
  {
    seq(n, i requires 0 <= i < n => i)
  }

  function IntRange(n: nat): (r: seq<int>)
    ensures |r| == n
    ensures forall i :: 0 <= i < n ==> r[i] == i
  {
    seq(n, i requires 0 <= i < n => i)
  }

  function Without<T>(xs: seq<T>, k: nat): (r: seq<T>)
    requires k < |xs|
    ensures |r| == |xs| - 1
  {
    xs[..k] + xs[k + 1..]
  }

  /** Strictly increasing. */
  ghost predicate Ascending(xs: seq<int>) {
    forall i, j :: 0 <= i < j < |xs| ==> xs[i] < xs[j]
  }

  predicate IntAtMost(x: int, y: int) {
    x <= y
  }

  lemma IntAtMostPreorder()
    ensures TotalPreorder(IntAtMost)
  {
  }
}
