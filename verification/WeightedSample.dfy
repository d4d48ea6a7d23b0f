/** Drawing without replacement, by weight. Every random draw is a given number of [0, 1). */
module WeightedSample {
  import opened Wrappers
  import opened Sums
  import opened Sorting

  /** An index with its positive weight. */
  datatype Ticket = Ticket(index: int, weight: real)

  function Tickets(indices: seq<int>, weights: seq<real>): (pool: seq<Ticket>)
    ensures forall t :: t in pool ==> t.weight > 0.0
  {
    if |indices| == 0 || |weights| == 0 then []
    else
      var rest := Tickets(indices[1..], weights[1..]);
      if weights[0] > 0.0 then [Ticket(indices[0], weights[0])] + rest else rest
  }

  function WeightsOf(pool: seq<Ticket>): (ws: seq<real>)
    ensures |ws| == |pool| && forall i {:trigger ws[i]} :: 0 <= i < |ws| ==> ws[i] == pool[i].weight
  {
    seq(|pool|, i requires 0 <= i < |pool| => pool[i].weight)
  }

  function IndicesOf(pool: seq<Ticket>): (r: seq<int>)
    ensures |r| == |pool| && forall i {:trigger r[i]} :: 0 <= i < |r| ==> r[i] == pool[i].index
  {
    seq(|pool|, i requires 0 <= i < |pool| => pool[i].index)
  }

  /** The first position whose running total exceeds the pivot; the last one if there is none. */
  function Pick(ws: seq<real>, pivot: real): (k: nat)
    requires |ws| > 0
    ensures k < |ws|
  {
    if |ws| == 1 || pivot < ws[0] then 0 else 1 + Pick(ws[1..], pivot - ws[0])
  }

  method PickPosition(ws: seq<real>, pivot: real) returns (k: nat)
    requires |ws| > 0
    ensures k == Pick(ws, pivot)
  {
    var running := 0.0;
    k := 0;
    while k < |ws|
      invariant k <= |ws|
      invariant k < |ws| ==> Pick(ws, pivot) == k + Pick(ws[k..], pivot - running)
      invariant k == |ws| ==> Pick(ws, pivot) == |ws| - 1
    {
      assert ws[k..][1..] == ws[k + 1..];
      running := running + ws[k];
      if pivot < running {
        return;
      }
      k := k + 1;
    }
    k := |ws| - 1;
  }

  lemma {:induction false} PrefixOnward(ws: seq<real>, k: nat)
    requires 0 < k <= |ws|
    ensures Sum(ws[..k]) == ws[0] + Sum(ws[1..][..k - 1])
  {
    if k == 1 {
      assert ws[..1] == [ws[0]] && [ws[0]][..0] == [];
    } else {
      PrefixOnward(ws, k - 1);
      assert ws[..k][..k - 1] == ws[..k - 1];
      assert ws[1..][..k - 1][..k - 2] == ws[1..][..k - 2];
    }
  }

  /** A pivot picks exactly the position whose slice of the total it falls into. */
  lemma {:induction false} PickIff(ws: seq<real>, pivot: real, k: nat)
    requires k < |ws| && (forall i :: 0 <= i < |ws| ==> ws[i] > 0.0) && 0.0 <= pivot < Sum(ws)
    ensures Pick(ws, pivot) == k <==> Sum(ws[..k]) <= pivot < Sum(ws[..k + 1])
  {
    assert Sum(ws[..0]) == 0.0;
    SumWhole(ws);
    PrefixOnward(ws, k + 1);
    if |ws| == 1 {
    } else if pivot < ws[0] {
      if k > 0 {
        PrefixOnward(ws, k);
        SumNonneg(ws[1..][..k - 1]);
      } else {
        assert Sum(ws[1..][..0]) == 0.0;
      }
    } else {
      PrefixOnward(ws, |ws|);
      SumWhole(ws[1..]);
      if k == 0 {
        assert Sum(ws[1..][..0]) == 0.0;
      } else {
        PrefixOnward(ws, k);
        PickIff(ws[1..], pivot - ws[0], k - 1);
      }
    }
  }

  /** The ticket a draw selects. */
  function Drawn(pool: seq<Ticket>, draw: real): (k: nat)
    requires |pool| > 0
    ensures k < |pool|
  {
    Pick(WeightsOf(pool), Times(draw, Sum(WeightsOf(pool))))
  }

  /** Draws up to `count` tickets, one after the other, from what is left. */
  function Sample(pool: seq<Ticket>, count: int, draws: seq<real>): seq<int>
    requires count <= |draws|
    decreases |pool|
  {
    if count <= 0 || |pool| == 0 then []
    else
      var k := Drawn(pool, draws[0]);
      [pool[k].index] + Sample(Without(pool, k), count - 1, draws[1..])
  }

  lemma TotalIsPositive(pool: seq<Ticket>)
    requires |pool| > 0 && forall t :: t in pool ==> t.weight > 0.0
    ensures Sum(WeightsOf(pool)) > 0.0
  {
    var ws := WeightsOf(pool);
    forall i | 0 <= i < |ws| ensures ws[i] > 0.0 {
      assert pool[i] in pool;
    }
    SumAtLeastTerm(ws, 0);
  }

  /** One draw from a pool whose total is positive. */
  method DrawOne(pool: seq<Ticket>, draw: real) returns (index: int, rest: seq<Ticket>)
    requires |pool| > 0 && forall t :: t in pool ==> t.weight > 0.0
    ensures index == pool[Drawn(pool, draw)].index && rest == Without(pool, Drawn(pool, draw))
    ensures forall t :: t in rest ==> t.weight > 0.0
  {
    var ws := WeightsOf(pool);
    TotalIsPositive(pool);
    var k := PickPosition(ws, Times(draw, Sum(ws)));
    index := pool[k].index;
    rest := Without(pool, k);
    assert forall t :: t in rest ==> t in pool;
  }

  lemma SampleStep(done: seq<int>, pool: seq<Ticket>, count: int, draws: seq<real>)
    requires 0 < count <= |draws| && |pool| > 0
    ensures
      var k := Drawn(pool, draws[0]);
      done + Sample(pool, count, draws) == done + [pool[k].index] + Sample(Without(pool, k), count - 1, draws[1..])
  {
    hide Drawn, Without;
  }

  lemma SampleStops(pool: seq<Ticket>, count: int, draws: seq<real>)
    requires count <= |draws| && (count <= 0 || |pool| == 0)
    ensures Sample(pool, count, draws) == []
  {
  }

  method WeightedSampleWithoutReplacement(indices: seq<int>, weights: seq<real>, count: int, draws: seq<real>)
    returns (selected: seq<int>)
    requires count <= |draws|
    ensures selected == Sample(Tickets(indices, weights), count, draws)
  {
    selected := [];
    var pool := Tickets(indices, weights);
    ghost var all := pool;
    hide *;
    if count <= 0 {
      SampleStops(all, count, draws);
      return;
    }
    assert draws[0..] == draws;
    while |pool| > 0 && |selected| < count
      invariant |selected| <= count && forall t :: t in pool ==> t.weight > 0.0
      invariant Sample(all, count, draws) == selected + Sample(pool, count - |selected|, draws[|selected|..])
    {
      ghost var left := draws[|selected|..];
      SampleStep(selected, pool, count - |selected|, left);
      assert left[1..] == draws[|selected| + 1..];
      var index, rest := DrawOne(pool, draws[|selected|]);
      selected := selected + [index];
      pool := rest;
    }
    SampleStops(pool, count - |selected|, draws[|selected|..]);
  }

  lemma WithoutFacts(pool: seq<Ticket>, k: nat)
    requires k < |pool| && Distinct(IndicesOf(pool))
    ensures Distinct(IndicesOf(Without(pool, k)))
    ensures pool[k].index !in IndicesOf(Without(pool, k))
    ensures forall x :: x in IndicesOf(Without(pool, k)) ==> x in IndicesOf(pool)
  {
    var all, rest := IndicesOf(pool), IndicesOf(Without(pool, k));
    forall i | 0 <= i < |rest| ensures rest[i] == all[if i < k then i else i + 1] {
    }
    forall i, j | 0 <= i < j < |rest| ensures rest[i] != rest[j] {
      assert all[if i < k then i else i + 1] != all[if j < k then j else j + 1];
    }
    forall i | 0 <= i < |rest| ensures rest[i] != pool[k].index {
      assert all[k] == pool[k].index;
      assert all[if i < k then i else i + 1] != all[k];
    }
  }

  /** The sample has exactly the requested size, as far as there are tickets, and no index twice. */
  lemma {:induction false} SampleIsExact(pool: seq<Ticket>, count: int, draws: seq<real>)
    requires count <= |draws| && Distinct(IndicesOf(pool))
    ensures
      var r := Sample(pool, count, draws);
      && |r| == (if count <= 0 then 0 else if count <= |pool| then count else |pool|)
      && Distinct(r) && forall x :: x in r ==> x in IndicesOf(pool)
    decreases |pool|
  {
    if count > 0 && |pool| > 0 {
      hide Drawn;
      var k := Drawn(pool, draws[0]);
      WithoutFacts(pool, k);
      SampleIsExact(Without(pool, k), count - 1, draws[1..]);
      hide Without;
      assert IndicesOf(pool)[k] == pool[k].index;
    }
  }

  /** Tickets carry exactly the indices of positive weight. */
  lemma {:induction false} TicketsFacts(indices: seq<int>, weights: seq<real>)
    requires |indices| == |weights| && Distinct(indices)
    ensures Distinct(IndicesOf(Tickets(indices, weights)))
    ensures forall x :: x in IndicesOf(Tickets(indices, weights)) <==> exists i :: 0 <= i < |indices| && indices[i] == x && weights[i] > 0.0
  {
    var all := IndicesOf(Tickets(indices, weights));
    if |indices| > 0 {
      TicketsFacts(indices[1..], weights[1..]);
      var rest := IndicesOf(Tickets(indices[1..], weights[1..]));
      assert all == if weights[0] > 0.0 then [indices[0]] + rest else rest;
      assert forall i :: 0 <= i < |indices| - 1 ==> indices[1..][i] == indices[i + 1] && weights[1..][i] == weights[i + 1];
      assert indices[0] !in rest;
      forall x ensures x in all <==> exists i :: 0 <= i < |indices| && indices[i] == x && weights[i] > 0.0 {
        if x in rest {
          var i :| 0 <= i < |indices| - 1 && indices[1..][i] == x && weights[1..][i] > 0.0;
          assert indices[i + 1] == x;
        }
        if i :| 0 <= i < |indices| && indices[i] == x && weights[i] > 0.0 {
          assert i > 0 ==> indices[1..][i - 1] == x;
        }
      }
    }
  }

  /** A ticket carries the weight given for its index. */
  lemma {:induction false} TicketsCarryWeights(indices: seq<int>, weights: seq<real>, t: Ticket)
    requires |indices| == |weights| && t in Tickets(indices, weights)
    ensures exists i :: 0 <= i < |indices| && indices[i] == t.index && weights[i] == t.weight > 0.0
  {
    if t in Tickets(indices[1..], weights[1..]) {
      TicketsCarryWeights(indices[1..], weights[1..], t);
      var i :| 0 <= i < |indices| - 1 && indices[1..][i] == t.index && weights[1..][i] == t.weight;
      assert indices[i + 1] == t.index && weights[i + 1] == t.weight;
    }
  }

  // ---- each draw by itself ----

  /** The tickets whose index is not among those taken. */
  function Left(pool: seq<Ticket>, taken: seq<int>): seq<Ticket> {
    if |pool| == 0 then []
    else
      var front, last := Left(pool[..|pool| - 1], taken), pool[|pool| - 1];
      if last.index in taken then front else front + [last]
  }

  lemma {:induction false} LeftIgnores(pool: seq<Ticket>, x: int, taken: seq<int>)
    requires forall t :: t in pool ==> t.index != x
    ensures Left(pool, [x] + taken) == Left(pool, taken)
  {
    if |pool| > 0 {
      assert pool[|pool| - 1] in pool;
      LeftIgnores(pool[..|pool| - 1], x, taken);
    }
  }

  /** Tickets of positive weight, no index twice. */
  ghost predicate IsPool(pool: seq<Ticket>) {
    Distinct(IndicesOf(pool)) && forall t :: t in pool ==> t.weight > 0.0
  }

  lemma IndexOnce(pool: seq<Ticket>, k: nat)
    requires IsPool(pool) && k < |pool|
    ensures forall i :: 0 <= i < |pool| && i != k ==> pool[i].index != pool[k].index
  {
    assert forall i :: 0 <= i < |pool| ==> IndicesOf(pool)[i] == pool[i].index;
  }

  lemma PoolParts(pool: seq<Ticket>, k: nat)
    requires IsPool(pool) && k < |pool|
    ensures IsPool(Without(pool, k)) && IsPool(pool[..k])
  {
    WithoutFacts(pool, k);
    assert IndicesOf(pool[..k]) == IndicesOf(pool)[..k];
  }

  lemma LeftWithoutLast(pool: seq<Ticket>, taken: seq<int>)
    requires IsPool(pool) && |pool| > 0
    ensures Left(Without(pool, |pool| - 1), taken) == Left(pool, [pool[|pool| - 1].index] + taken)
  {
    var n := |pool| - 1;
    IndexOnce(pool, n);
    assert Without(pool, n) == pool[..n];
    LeftIgnores(pool[..n], pool[n].index, taken);
  }

  lemma LeftSnoc(pool: seq<Ticket>, last: Ticket, taken: seq<int>)
    ensures Left(pool + [last], taken) == if last.index in taken then Left(pool, taken) else Left(pool, taken) + [last]
  {
    assert (pool + [last])[..|pool|] == pool;
  }

  lemma {:induction false} LeftWithout(pool: seq<Ticket>, k: nat, taken: seq<int>)
    requires IsPool(pool) && k < |pool|
    ensures Left(Without(pool, k), taken) == Left(pool, [pool[k].index] + taken)
  {
    var n := |pool| - 1;
    if k == n {
      LeftWithoutLast(pool, taken);
    } else {
      var front := pool[..n];
      PoolParts(pool, n);
      IndexOnce(pool, k);
      assert Without(pool, k) == Without(front, k) + [pool[n]] && pool == front + [pool[n]];
      hide IsPool, Left, Without;
      LeftWithout(front, k, taken);
      LeftSnoc(Without(front, k), pool[n], taken);
      LeftSnoc(front, pool[n], [pool[k].index] + taken);
    }
  }

  /** The position of ticket k covers the draw: its slice of the total weight holds draw times the total. */
  ghost predicate Covers(pool: seq<Ticket>, k: nat, draw: real) {
    k < |pool| && Sum(WeightsOf(pool)[..k]) <= Times(draw, Sum(WeightsOf(pool))) < Sum(WeightsOf(pool)[..k + 1])
  }

  lemma DrawnCovers(pool: seq<Ticket>, draw: real)
    requires |pool| > 0 && 0.0 <= draw < 1.0 && IsPool(pool)
    ensures Covers(pool, Drawn(pool, draw), draw)
  {
    var ws := WeightsOf(pool);
    TotalIsPositive(pool);
    forall i | 0 <= i < |ws| ensures ws[i] > 0.0 {
      assert pool[i] in pool;
    }
    PartOfTotal(draw, Sum(ws));
    PickIff(ws, Times(draw, Sum(ws)), Drawn(pool, draw));
  }

  lemma PartOfTotal(draw: real, total: real)
    requires 0.0 <= draw < 1.0 && total > 0.0
    ensures 0.0 <= Times(draw, total) < total
  {
    assert (1.0 - draw) * total > 0.0;
  }

  lemma {:induction false} NothingTaken(pool: seq<Ticket>)
    ensures Left(pool, []) == pool
  {
    if |pool| > 0 {
      NothingTaken(pool[..|pool| - 1]);
    }
  }

  lemma SampleUnfolds(pool: seq<Ticket>, count: int, draws: seq<real>)
    requires 0 < count <= |draws| && |pool| > 0
    ensures
      var k := Drawn(pool, draws[0]);
      Sample(pool, count, draws) == [pool[k].index] + Sample(Without(pool, k), count - 1, draws[1..])
  {
    SampleStep([], pool, count, draws);
    hide Drawn, Sample, Without;
    assert forall xs: seq<int> :: [] + xs == xs;
  }

  /** After the first j indices of the sample, the draw picks index x, in proportion to the weights that are left. */
  ghost predicate Picks(pool: seq<Ticket>, taken: seq<int>, draw: real, x: int) {
    exists k: nat :: Covers(Left(pool, taken), k, draw) && Left(pool, taken)[k].index == x
  }

  lemma FirstPick(pool: seq<Ticket>, draw: real)
    requires IsPool(pool) && |pool| > 0 && 0.0 <= draw < 1.0
    ensures Picks(pool, [], draw, pool[Drawn(pool, draw)].index)
  {
    NothingTaken(pool);
    DrawnCovers(pool, draw);
    hide Covers, Drawn, Left;
  }

  lemma LaterPick(pool: seq<Ticket>, k: nat, taken: seq<int>, draw: real, x: int)
    requires IsPool(pool) && k < |pool| && Picks(Without(pool, k), taken, draw, x)
    ensures Picks(pool, [pool[k].index] + taken, draw, x)
  {
    LeftWithout(pool, k, taken);
    hide Covers, Left, Without, IsPool;
  }

  /** The j-th index of a sample is drawn by the j-th draw, in proportion to the weights, from the tickets that the
      earlier draws have left. */
  lemma {:induction false} SampleDrawsFromTheRest(pool: seq<Ticket>, count: int, draws: seq<real>, j: nat)
    requires count <= |draws| && IsPool(pool) && j < |draws| && 0.0 <= draws[j] < 1.0
    requires j < |Sample(pool, count, draws)|
    ensures Picks(pool, Sample(pool, count, draws)[..j], draws[j], Sample(pool, count, draws)[j])
    decreases j
  {
    if count <= 0 || |pool| == 0 {
      SampleStops(pool, count, draws);
    } else {
      var first := Drawn(pool, draws[0]);
      var x, rest := pool[first].index, Sample(Without(pool, first), count - 1, draws[1..]);
      SampleUnfolds(pool, count, draws);
      PoolParts(pool, first);
      hide *;
      if j == 0 {
        FirstPick(pool, draws[0]);
        assert ([x] + rest)[..0] == [];
      } else {
        SampleDrawsFromTheRest(Without(pool, first), count - 1, draws[1..], j - 1);
        LaterPick(pool, first, rest[..j - 1], draws[j], rest[j - 1]);
        assert ([x] + rest)[..j] == [x] + rest[..j - 1];
      }
    }
  }
}
