/** The guarantees of a run, stated for every reachable state. */
module RunTheorems {
  import opened Wrappers
  import opened Sorting
  import opened Scheduler
  import opened StopPolicy
  import opened RunProtocol
  import opened RunInvariants

  /** Ready, delayed, held and retired tokens always partition 0 .. workers - 1. */
  lemma TokensAreConserved(c: Config, s: State)
    requires Reachable(c, s)
    ensures multiset(s.queue.ready) + multiset(Tokens(s.queue.delayed)) + InHand(s.slots) + multiset(s.retired)
         == multiset(IntRange(c.WorkerCount()))
  {
    ReachableInvariant(c, s);
  }

  /** Nobody holds a token twice: no two slots hold the same token, and a held token is in no queue. */
  lemma NoTokenHeldTwice(c: Config, s: State, t: int)
    requires Reachable(c, s)
    ensures multiset(s.queue.ready)[t] + multiset(Tokens(s.queue.delayed))[t] + InHand(s.slots)[t] + multiset(s.retired)[t] <= 1
  {
    ReachableInvariant(c, s);
    RangeOnce(c.WorkerCount(), t);
    var all := multiset(IntRange(c.WorkerCount()));
    assert all[t] == InQueue(s.queue)[t] + InHand(s.slots)[t] + multiset(s.retired)[t];
  }

  lemma {:induction false} RangeOnce(n: nat, t: int)
    ensures multiset(IntRange(n))[t] == if 0 <= t < n then 1 else 0
  {
    if n > 0 {
      RangeOnce(n - 1, t);
      assert IntRange(n) == IntRange(n - 1) + [n - 1];
    }
  }

  /** No slot is stranded: the slots waiting for a token never outnumber the tokens that are ready or delayed. */
  lemma NoStrandedWaiter(c: Config, s: State)
    requires Reachable(c, s)
    ensures Tally(s.slots, AcquiringW) <= |s.queue.ready| + |s.queue.delayed|
  {
    ReachableInvariant(c, s);
    WaitersHaveTokens(c, s);
  }

  /** The success count never passes the target, and at most target + workers - 1 submits return true
      (counting those before the run), however late the stop event is set. */
  lemma OvershootIsBounded(c: Config, s: State)
    requires Reachable(c, s) && Bounded(c)
    ensures s.progress.curNum <= c.policy.targetNum
    ensures c.initial + s.returned <= c.policy.targetNum + c.WorkerCount() - 1
  {
    ReachableInvariant(c, s);
  }

  /** Tokens leave the heap in (ready_at, order) order over the whole run, and never before their time. */
  lemma WakeUpsAreOrdered(c: Config, s: State, i: nat, j: nat)
    requires Reachable(c, s) && i < j < |s.wakeups|
    ensures
      var a, b := s.wakeups[i].entry, s.wakeups[j].entry;
      a.readyAt < b.readyAt || (a.readyAt == b.readyAt && a.order < b.order)
    ensures s.wakeups[i].at <= s.wakeups[j].at
    ensures s.wakeups[i].entry.readyAt <= s.wakeups[i].at && s.wakeups[j].entry.readyAt <= s.wakeups[j].at
  {
    ReachableInvariant(c, s);
  }

  lemma QueueIsValid(c: Config, s: State)
    requires Reachable(c, s)
    ensures s.queue.Valid()
  {
    ReachableInvariant(c, s);
  }

  lemma PushedWithDelay(q: Queue, token: int, delay: real, now: real)
    requires q.Valid() && !q.closed && delay > 0.0
    ensures
      var after := Release(q, token, true, delay, now);
      after.ready == q.ready && exists e :: e in after.delayed && e.token == token && e.readyAt == now + delay
  {
    PushSorted(q.delayed, Scheduled(now + delay, q.nextOrder, token));
  }

  /** A token released with a delay is stamped with the release time plus the delay. */
  lemma DelayIsHonoured(c: Config, s: State, i: nat)
    requires Reachable(c, s) && Enabled(c, s, GiveBack(i))
    requires s.slots[i].requeue && !s.queue.closed && s.slots[i].delay > 0.0
    ensures
      var s' := Apply(c, s, GiveBack(i));
      && s'.queue.ready == s.queue.ready
      && exists e :: e in s'.queue.delayed && e.token == s.slots[i].token && e.readyAt == s.now + s.slots[i].delay
  {
    QueueIsValid(c, s);
    hide Reachable, Release;
    PushedWithDelay(s.queue, s.slots[i].token, s.slots[i].delay, s.now);
  }

  /** A limit that has been reached has the stop scheduled. */
  lemma ReachedLimitsScheduleStop(c: Config, s: State)
    requires Reachable(c, s)
    ensures TargetReached(c.policy, s.progress) && s.progress.curNum > c.initial ==> s.stopScheduled
    ensures c.policy.stopOnFail && s.progress.curFail >= FailureLimit(c) ==> s.stopScheduled
    ensures c.policy.stopOnFail && s.progress.proxyFail >= ProxyUnavailableThreshold(c.policy) ==> s.stopScheduled
  {
    ReachableInvariant(c, s);
  }

  // ---- draining after a stop ----

  function SlotSteps(steps: seq<Step>): nat {
    if |steps| == 0 then 0 else SlotSteps(steps[..|steps| - 1]) + Is(SlotStep(steps[|steps| - 1]))
  }

  lemma EffectRanks(c: Config, s: State, step: Step)
    requires Enabled(c, s, step) && Inner(step) && s.stopSet
    ensures RankW(InnerEffect(c, s, step).slot) < RankW(s.slots[step.i])
    ensures InnerEffect(c, s, step).stopSet
  {
    EffectFrame(c, s, step);
    hide HandleFault;
    match step
    case Gate(i, GateFault(fault, unreachable)) => FaultFrame(c, s, s.slots[i].token, fault, unreachable);
    case Prepare(i, PrepareFault(fault, unreachable)) => FaultFrame(c, s, s.slots[i].token, fault, unreachable);
    case Return(i, SubmitFault(fault, unreachable)) => FaultFrame(c, s, s.slots[i].token, fault, unreachable);
    case _ =>
  }

  lemma StepRanks(c: Config, s: State, step: Step)
    requires Enabled(c, s, step) && s.stopSet
    ensures Apply(c, s, step).stopSet
    ensures Tally(Apply(c, s, step).slots, RankW) + Is(SlotStep(step)) <= Tally(s.slots, RankW)
  {
    if SlotStep(step) {
      var slot := Apply(c, s, step).slots[step.i];
      if Inner(step) {
        EffectRanks(c, s, step);
      }
      hide InnerEffect;
      assert Apply(c, s, step).slots == s.slots[step.i := slot];
      TallyUpdate(s.slots, RankW, step.i, slot);
    }
  }

  lemma {:induction false} DrainSteps(c: Config, s: State, steps: seq<Step>)
    requires s.stopSet && Exec(c, s, steps).Some?
    ensures Exec(c, s, steps).value.stopSet
    ensures Tally(Exec(c, s, steps).value.slots, RankW) + SlotSteps(steps) <= Tally(s.slots, RankW)
  {
    if |steps| > 0 {
      var front := steps[..|steps| - 1];
      DrainSteps(c, s, front);
      StepRanks(c, Exec(c, s, front).value, steps[|steps| - 1]);
    }
  }

  lemma {:induction false} RankBound(slots: seq<Slot>)
    ensures Tally(slots, RankW) <= 4 * |slots|
  {
    if |slots| > 0 {
      RankBound(slots[..|slots| - 1]);
    }
  }

  /** Once the stop event is set, the slots together take at most four more steps per worker,
      whatever else happens in between. */
  lemma RunDrains(c: Config, s: State, steps: seq<Step>)
    requires Reachable(c, s) && s.stopSet && Exec(c, s, steps).Some?
    ensures SlotSteps(steps) <= 4 * c.WorkerCount()
  {
    ReachableInvariant(c, s);
    DrainSteps(c, s, steps);
    RankBound(s.slots);
  }

  lemma QuietSlotsWait(c: Config, s: State, i: nat)
    requires s.stopSet && i < |s.slots| && !s.slots[i].Ended?
    requires forall step :: SlotStep(step) ==> !Enabled(c, s, step)
    ensures s.slots[i].Acquiring? && Acquire(s.queue).MustWait?
  {
    assert !Enabled(c, s, Begin(i, false));
    assert !Enabled(c, s, Decide(i));
    assert !Enabled(c, s, TakeToken(i));
    assert !Enabled(c, s, Gate(i, Wait));
    assert !Enabled(c, s, Prepare(i, Ready));
    assert !Enabled(c, s, Return(i, Unfinished));
    assert !Enabled(c, s, GiveBack(i));
  }

  lemma WaiterIsServed(s: State, i: nat)
    requires WaitersFit(s) && i < |s.slots| && s.slots[i].Acquiring? && Acquire(s.queue).MustWait?
    ensures |s.queue.delayed| > 0 && !s.queue.closed
  {
    TallyUpdate(s.slots, AcquiringW, i, Ended);
  }

  ghost predicate WaitersFit(s: State) {
    Tally(s.slots, AcquiringW) <= |s.queue.ready| + |s.queue.delayed|
  }

  lemma TimeServes(c: Config, s: State, dt: real)
    requires !s.queue.closed && |s.queue.delayed| > 0
    requires dt >= 0.0 && s.queue.delayed[0].readyAt <= s.now + dt
    ensures
      var woken := Apply(c, Apply(c, s, Tick(dt)), WakeUp);
      woken.slots == s.slots && !Acquire(woken.queue).MustWait?
  {
    assert |Due(s.queue, s.now + dt)| > 0;
  }

  /** A stopped run cannot deadlock: while a slot lives, either some slot can step, or every live slot
      waits for a token and one is on its way, so that the clock and the waker release it. */
  lemma StoppedRunProgresses(c: Config, s: State, k: nat) returns (dt: real)
    requires Reachable(c, s) && s.stopSet
    requires k < |s.slots| && !s.slots[k].Ended?
    requires forall step :: SlotStep(step) ==> !Enabled(c, s, step)
    ensures dt >= 0.0
    ensures
      var woken := Apply(c, Apply(c, s, Tick(dt)), WakeUp);
      forall i: nat :: i < |s.slots| && !s.slots[i].Ended? ==> Enabled(c, woken, TakeToken(i))
  {
    NoStrandedWaiter(c, s);
    QuietSlotsWait(c, s, k);
    WaiterIsServed(s, k);
    var first := s.queue.delayed[0];
    dt := if first.readyAt > s.now then first.readyAt - s.now else 0.0;
    TimeServes(c, s, dt);
    forall i: nat | i < |s.slots| && !s.slots[i].Ended? ensures s.slots[i].Acquiring? {
      QuietSlotsWait(c, s, i);
    }
    hide Apply, Tally, Reachable, Acquire;
  }

  // ---- the overshoot bound is attained ----

  ghost predicate AtHead(slot: Slot) {
    slot.Starting? || slot.Deciding?
  }

  /** Nothing stops or holds the run, `count` rounds have been counted and `ready` tokens wait. */
  ghost predicate Flowing(c: Config, s: State, count: nat, ready: nat) {
    && !c.blocked && !s.stopSet && !s.paused && !s.queue.closed && |s.slots| == c.WorkerCount()
    && s.progress.curNum == c.initial + count && s.returned == count && |s.queue.ready| == ready
  }

  /** The first k slots submit and the others are at their loop head. */
  ghost predicate Lined(c: Config, s: State, k: nat, count: nat) {
    && k <= c.WorkerCount() && Flowing(c, s, count, c.WorkerCount() - k)
    && (forall i :: 0 <= i < k ==> s.slots[i].Submitting?)
    && (forall i :: k <= i < c.WorkerCount() ==> AtHead(s.slots[i]))
  }

  lemma ReachStep(c: Config, s: State, step: Step)
    requires Reachable(c, s) && Enabled(c, s, step)
    ensures Reachable(c, Apply(c, s, step))
  {
    var steps :| Exec(c, Init(c), steps) == Some(s);
    assert (steps + [step])[..|steps|] == steps;
    assert Exec(c, Init(c), steps + [step]) == Some(Apply(c, s, step));
  }

  /** A step of slot k that keeps the run flowing and leaves every other slot alone. */
  ghost predicate Passes(c: Config, s: State, k: nat, count: nat, ready: nat, step: Step, next: Slot) {
    && k < |s.slots| && Enabled(c, s, step)
    && Flowing(c, Apply(c, s, step), count, ready) && Apply(c, s, step).slots == s.slots[k := next]
  }

  ghost predicate Below(c: Config, count: nat) {
    0 < c.policy.targetNum && c.initial + count < c.policy.targetNum
  }

  lemma PassBegin(c: Config, s: State, k: nat, count: nat, ready: nat)
    requires Flowing(c, s, count, ready) && k < |s.slots| && s.slots[k].Starting?
    ensures Passes(c, s, k, count, ready, Begin(k, false), Deciding)
  {
  }

  lemma PassDecide(c: Config, s: State, k: nat, count: nat, ready: nat)
    requires Flowing(c, s, count, ready) && Below(c, count) && k < |s.slots| && s.slots[k].Deciding?
    ensures Passes(c, s, k, count, ready, Decide(k), Acquiring)
  {
  }

  lemma PassTake(c: Config, s: State, k: nat, count: nat, ready: nat)
    requires Flowing(c, s, count, ready) && ready > 0 && k < |s.slots| && s.slots[k].Acquiring?
    ensures Passes(c, s, k, count, ready - 1, TakeToken(k), Gated(s.queue.ready[0]))
  {
  }

  lemma PassGate(c: Config, s: State, k: nat, count: nat, ready: nat)
    requires Flowing(c, s, count, ready) && Below(c, count) && k < |s.slots| && s.slots[k].Gated?
    ensures Passes(c, s, k, count, ready, Gate(k, Admit), Preparing(s.slots[k].token))
  {
    hide HandleFault;
  }

  lemma PassPrepare(c: Config, s: State, k: nat, count: nat, ready: nat)
    requires Flowing(c, s, count, ready) && k < |s.slots| && s.slots[k].Preparing?
    ensures Passes(c, s, k, count, ready, Prepare(k, Ready), Submitting(s.slots[k].token))
  {
    hide HandleFault;
  }

  lemma PassReturn(c: Config, s: State, k: nat, count: nat, ready: nat)
    requires Flowing(c, s, count, ready) && Below(c, count + 1) && k < |s.slots| && s.slots[k].Submitting?
    ensures Passes(c, s, k, count + 1, ready, Return(k, Finished(0.0)), Releasing(s.slots[k].token, true, 0.0, false))
  {
    hide HandleFault;
  }

  lemma PassGiveBack(c: Config, s: State, k: nat, count: nat, ready: nat)
    requires Flowing(c, s, count, ready) && k < |s.slots| && s.slots[k].Releasing?
    requires s.slots[k].requeue && s.slots[k].delay == 0.0 && !s.slots[k].leaving
    ensures Passes(c, s, k, count, ready + 1, GiveBack(k), Deciding)
  {
  }

  /** Slot k, at its loop head, comes to submit. */
  lemma Launch(c: Config, s: State, k: nat, count: nat) returns (s': State)
    requires Reachable(c, s) && Lined(c, s, k, count) && k < c.WorkerCount() && Below(c, count)
    ensures Reachable(c, s') && Lined(c, s', k + 1, count)
  {
    var ready := c.WorkerCount() - k;
    s' := s;
    assert |s.slots| == c.WorkerCount();
    hide Enabled, Apply, Reachable, Flowing, Below;
    if s'.slots[k].Starting? {
      PassBegin(c, s', k, count, ready);
      ReachStep(c, s', Begin(k, false));
      s' := Apply(c, s', Begin(k, false));
    }
    PassDecide(c, s', k, count, ready);
    ReachStep(c, s', Decide(k));
    s' := Apply(c, s', Decide(k));
    PassTake(c, s', k, count, ready);
    ReachStep(c, s', TakeToken(k));
    s' := Apply(c, s', TakeToken(k));
    PassGate(c, s', k, count, ready - 1);
    ReachStep(c, s', Gate(k, Admit));
    s' := Apply(c, s', Gate(k, Admit));
    PassPrepare(c, s', k, count, ready - 1);
    ReachStep(c, s', Prepare(k, Ready));
    s' := Apply(c, s', Prepare(k, Ready));
  }

  /** The first slot plays a whole round, which is counted. */
  lemma PlayRound(c: Config, s: State, count: nat) returns (s': State)
    requires Reachable(c, s) && Lined(c, s, 0, count) && Below(c, count + 1)
    ensures Reachable(c, s') && Lined(c, s', 0, count + 1)
  {
    var ready := c.WorkerCount() - 1;
    s' := Launch(c, s, 0, count);
    hide Enabled, Apply, Reachable, Flowing, Below;
    PassReturn(c, s', 0, count, ready);
    ReachStep(c, s', Return(0, Finished(0.0)));
    s' := Apply(c, s', Return(0, Finished(0.0)));
    PassGiveBack(c, s', 0, count + 1, ready);
    ReachStep(c, s', GiveBack(0));
    s' := Apply(c, s', GiveBack(0));
  }

  lemma {:induction false} PlayRounds(c: Config, count: nat) returns (s: State)
    requires !c.blocked && Below(c, count)
    ensures Reachable(c, s) && Lined(c, s, 0, count)
  {
    if count == 0 {
      s := Init(c);
      assert Exec(c, s, []) == Some(s);
    } else {
      s := PlayRounds(c, count - 1);
      s := PlayRound(c, s, count - 1);
    }
  }

  lemma {:induction false} LaunchAll(c: Config, s: State, k: nat, count: nat) returns (s': State)
    requires Reachable(c, s) && Lined(c, s, 0, count) && k <= c.WorkerCount() && Below(c, count)
    ensures Reachable(c, s') && Lined(c, s', k, count)
  {
    s' := s;
    if k > 0 {
      s' := LaunchAll(c, s, k - 1, count);
      s' := Launch(c, s', k - 1, count);
    }
  }

  /** Every slot from k on submits, and k of the submits have returned true since `count`. */
  ghost predicate Returned(c: Config, s: State, count: nat, k: nat) {
    && s.returned == count + k && !s.stopSet && |s.slots| == c.WorkerCount()
    && forall i :: k <= i < c.WorkerCount() ==> s.slots[i].Submitting?
  }

  lemma ReturnNext(c: Config, s: State, count: nat, k: nat)
    requires k < c.WorkerCount() && Returned(c, s, count, k)
    ensures Enabled(c, s, Return(k, Finished(0.0)))
    ensures Returned(c, Apply(c, s, Return(k, Finished(0.0))), count, k + 1)
  {
    hide SuccessStops, AfterSuccess, HandleFault;
  }

  lemma {:induction false} ReturnAll(c: Config, s: State, count: nat, k: nat) returns (s': State)
    requires Reachable(c, s) && Returned(c, s, count, 0) && k <= c.WorkerCount()
    ensures Reachable(c, s') && Returned(c, s', count, k)
  {
    hide Reachable, Returned;
    s' := s;
    if k > 0 {
      s' := ReturnAll(c, s, count, k - 1);
      ReturnNext(c, s', count, k - 1);
      ReachStep(c, s', Return(k - 1, Finished(0.0)));
      s' := Apply(c, s', Return(k - 1, Finished(0.0)));
    }
  }

  /** From every initial count below a positive target some run attains the bound: all rounds but the last are
      played one after the other, then every worker submits at once and each submit returns true. */
  lemma OvershootIsAttained(c: Config) returns (s: State)
    requires !c.blocked && 0 < c.policy.targetNum && c.initial < c.policy.targetNum
    ensures Reachable(c, s)
    ensures c.initial + s.returned == c.policy.targetNum + c.WorkerCount() - 1
  {
    var count := c.policy.targetNum - 1 - c.initial;
    s := PlayRounds(c, count);
    s := LaunchAll(c, s, c.WorkerCount(), count);
    s := ReturnAll(c, s, count, c.WorkerCount());
  }
}
