/** The dispatch scheduler: a queue of ready tokens and a heap of tokens that become ready later. */
module Scheduler {
  import opened Sorting

  /** A delayed token; the token id takes no part in the heap order. */
  datatype Scheduled = Scheduled(readyAt: real, order: nat, token: int)

  predicate Sooner(a: Scheduled, b: Scheduled) {
    a.readyAt < b.readyAt || (a.readyAt == b.readyAt && a.order < b.order)
  }

  /** Everything a scheduler holds. The heap is its elements in pop order, which is all that
      looking at the root, pushing and popping can observe. */
  datatype Queue = Queue(ready: seq<int>, delayed: seq<Scheduled>, nextOrder: nat, closed: bool) {
    ghost predicate Valid() {
      && (forall i, j :: 0 <= i < j < |delayed| ==> Sooner(delayed[i], delayed[j]))
      && (forall i :: 0 <= i < |delayed| ==> delayed[i].order < nextOrder)
    }
  }

  datatype Acquired = Closed | Token(id: int) | MustWait

  function Workers(concurrency: int): (n: nat)
    ensures n >= 1
  {
    if concurrency < 1 then 1 else concurrency
  }

  function Fresh(concurrency: int): Queue {
    Queue(IntRange(Workers(concurrency)), [], 0, false)
  }

  function Acquire(q: Queue): Acquired {
    if q.closed then Closed else if |q.ready| > 0 then Token(q.ready[0]) else MustWait
  }

  function AfterAcquire(q: Queue): Queue {
    if Acquire(q).Token? then q.(ready := q.ready[1..]) else q
  }

  /** A push into the heap. */
  function Push(h: seq<Scheduled>, x: Scheduled): (r: seq<Scheduled>)
    ensures |r| == |h| + 1
  {
    if |h| == 0 || Sooner(h[|h| - 1], x) then h + [x] else Push(h[..|h| - 1], x) + [h[|h| - 1]]
  }

  function Release(q: Queue, token: int, requeue: bool, delay: real, now: real): Queue {
    if !requeue || q.closed then q
    else if delay <= 0.0 then q.(ready := q.ready + [token])
    else q.(delayed := Push(q.delayed, Scheduled(now + delay, q.nextOrder, token)), nextOrder := q.nextOrder + 1)
  }

  /** How many tokens at the root of the heap are due. */
  function DueCount(h: seq<Scheduled>, now: real): (n: nat)
    ensures n <= |h|
    ensures forall i :: 0 <= i < n ==> h[i].readyAt <= now
    ensures n < |h| ==> h[n].readyAt > now
  {
    if |h| > 0 && h[0].readyAt <= now then 1 + DueCount(h[1..], now) else 0
  }

  function Tokens(h: seq<Scheduled>): (r: seq<int>)
    ensures |r| == |h|
    ensures forall i :: 0 <= i < |h| ==> r[i] == h[i].token
  {
    seq(|h|, i requires 0 <= i < |h| => h[i].token)
  }

  lemma TokensStep(h: seq<Scheduled>, k: nat)
    requires k < |h|
    ensures Tokens(h[..k + 1]) == Tokens(h[..k]) + [h[k].token]
  {
  }

  /** The tokens one pass of the waker moves, in the order it moves them. */
  function Due(q: Queue, now: real): seq<Scheduled> {
    if q.closed then [] else q.delayed[..DueCount(q.delayed, now)]
  }

  function Wake(q: Queue, now: real): Queue {
    q.(ready := q.ready + Tokens(Due(q, now)), delayed := q.delayed[|Due(q, now)|..])
  }

  function Close(q: Queue): Queue {
    q.(closed := true)
  }

  /** The scheduler object. Each method is one stretch of code without a suspension point. */
  class AsyncScheduler {
    var ready: seq<int>
    var delayed: seq<Scheduled>
    var nextOrder: nat
    var closed: bool

    function View(): Queue
      reads this
    {
      Queue(ready, delayed, nextOrder, closed)
    }

    constructor (concurrency: int)
      ensures View() == Fresh(concurrency)
    {
      var n := if concurrency < 1 then 1 else concurrency;
      ready, delayed, nextOrder, closed := [], [], 0, false;
      new;
      var token := 0;
      while token < n
        invariant 0 <= token <= n
        invariant ready == IntRange(n)[..token]
        invariant delayed == [] && nextOrder == 0 && !closed
      {
        ready := ready + [token];
        token := token + 1;
      }
    }

    /** One pass through the waiting loop of acquire. */
    method TryAcquire() returns (r: Acquired)
      modifies this
      ensures r == Acquire(old(View()))
      ensures View() == AfterAcquire(old(View()))
    {
      if closed {
        return Closed;
      }
      if |ready| > 0 {
        r := Token(ready[0]);
        ready := ready[1..];
        return;
      }
      return MustWait;
    }

    method ReleaseToken(token: int, requeue: bool, delay: real, now: real)
      modifies this
      ensures View() == Release(old(View()), token, requeue, delay, now)
    {
      if !requeue {
        return;
      }
      var wait := if delay < 0.0 then 0.0 else delay;
      if closed {
        return;
      }
      if wait <= 0.0 {
        ready := ready + [token];
        return;
      }
      delayed := Push(delayed, Scheduled(now + wait, nextOrder, token));
      nextOrder := nextOrder + 1;
    }

    /** One pass of the waker: the clock is read once, then every due token is popped. */
    method WakeDelayed(now: real) returns (moved: bool)
      modifies this
      ensures View() == Wake(old(View()), now)
      ensures moved <==> |Due(old(View()), now)| > 0
    {
      moved := false;
      if closed {
        return;
      }
      ghost var heap, issued := delayed, ready;
      ghost var k := 0;
      while |delayed| > 0 && delayed[0].readyAt <= now
        invariant 0 <= k <= DueCount(heap, now)
        invariant delayed == heap[k..]
        invariant ready == issued + Tokens(heap[..k])
        invariant nextOrder == old(nextOrder) && closed == old(closed)
        invariant moved <==> k > 0
        decreases |delayed|
      {
        TokensStep(heap, k);
        ready := ready + [delayed[0].token];
        delayed := delayed[1..];
        moved := true;
        k := k + 1;
      }
      assert k == DueCount(heap, now);
    }

    method CloseScheduler()
      modifies this
      ensures View() == Close(old(View()))
    {
      closed := true;
    }
  }

  // ---- what the operations keep ----

  lemma {:induction false} PushSorted(h: seq<Scheduled>, x: Scheduled)
    requires forall i, j :: 0 <= i < j < |h| ==> Sooner(h[i], h[j])
    requires forall i :: 0 <= i < |h| ==> h[i].order < x.order
    ensures forall i, j :: 0 <= i < j < |h| + 1 ==> Sooner(Push(h, x)[i], Push(h, x)[j])
    ensures forall y :: y in Push(h, x) <==> y in h || y == x
    ensures multiset(Tokens(Push(h, x))) == multiset(Tokens(h)) + multiset{x.token}
  {
    if |h| == 0 || Sooner(h[|h| - 1], x) {
      assert Tokens(h + [x]) == Tokens(h) + [x.token];
    } else {
      var n := |h| - 1;
      var front := Push(h[..n], x);
      PushSorted(h[..n], x);
      assert h == h[..n] + [h[n]];
      forall i | 0 <= i < |front| ensures Sooner(front[i], h[n]) {
        assert front[i] in front;
      }
      assert Tokens(front + [h[n]]) == Tokens(front) + [h[n].token];
      assert Tokens(h) == Tokens(h[..n]) + [h[n].token];
    }
  }

  /** The heap order survives a release ... */
  lemma ReleaseKeepsOrder(q: Queue, token: int, requeue: bool, delay: real, now: real)
    requires q.Valid()
    ensures Release(q, token, requeue, delay, now).Valid()
  {
    if requeue && !q.closed && delay > 0.0 {
      var x := Scheduled(now + delay, q.nextOrder, token);
      PushSorted(q.delayed, x);
      var pushed := Push(q.delayed, x);
      forall i | 0 <= i < |pushed| ensures pushed[i].order < q.nextOrder + 1 {
        assert pushed[i] in pushed;
      }
    }
  }

  /** ... and a waking pass. */
  lemma WakeKeepsOrder(q: Queue, now: real)
    requires q.Valid()
    ensures Wake(q, now).Valid()
  {
    var n := |Due(q, now)|;
    assert forall i :: 0 <= i < |q.delayed| - n ==> q.delayed[n..][i] == q.delayed[n + i];
  }

  /** One waking pass moves exactly the due tokens: nothing due stays behind. */
  lemma WakeMovesExactlyDue(q: Queue, now: real, e: Scheduled)
    requires q.Valid() && !q.closed && e in q.delayed
    ensures e in Due(q, now) <==> e.readyAt <= now
    ensures e in Wake(q, now).delayed <==> e.readyAt > now
  {
    var n := DueCount(q.delayed, now);
    var i :| 0 <= i < |q.delayed| && q.delayed[i] == e;
    if i < n {
      assert Due(q, now)[i] == e;
    } else {
      assert Wake(q, now).delayed[i - n] == e;
      assert n < i ==> Sooner(q.delayed[n], q.delayed[i]);
    }
  }

  /** The tokens a queue holds, ready or delayed. */
  function InQueue(q: Queue): multiset<int> {
    multiset(q.ready) + multiset(Tokens(q.delayed))
  }

  /** Release takes the token back, unless it is not to be requeued or the scheduler is closed. */
  lemma ReleaseAccounts(q: Queue, token: int, requeue: bool, delay: real, now: real)
    requires q.Valid()
    ensures InQueue(Release(q, token, requeue, delay, now))
         == InQueue(q) + if requeue && !q.closed then multiset{token} else multiset{}
  {
    if requeue && !q.closed && delay > 0.0 {
      PushSorted(q.delayed, Scheduled(now + delay, q.nextOrder, token));
    }
  }

  /** Waking neither loses nor doubles a token. */
  lemma WakeAccounts(q: Queue, now: real)
    ensures InQueue(Wake(q, now)) == InQueue(q)
  {
    var n := |Due(q, now)|;
    assert Due(q, now) == q.delayed[..n];
    assert Tokens(q.delayed) == Tokens(q.delayed[..n]) + Tokens(q.delayed[n..]);
  }

  /** Acquire removes exactly the token it hands out. */
  lemma AcquireAccounts(q: Queue)
    requires Acquire(q).Token?
    ensures InQueue(AfterAcquire(q)) + multiset{Acquire(q).id} == InQueue(q)
  {
    assert q.ready == [q.ready[0]] + q.ready[1..];
  }
}
