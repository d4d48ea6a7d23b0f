/** What every run of the engine keeps, in every interleaving. */
module RunInvariants {
  import opened Wrappers
  import opened Sorting
  import opened Scheduler
  import opened StopPolicy
  import opened RunProtocol

  /** A slot that gives its token back has a reason not to requeue it: it leaves, or the stop event is set. */
  predicate WellReleased(slot: Slot, stopSet: bool) {
    slot.Releasing? ==> (slot.leaving ==> !slot.requeue) && (!slot.requeue && !slot.leaving ==> stopSet)
  }

  /** The token stays with the slot and no stop is withdrawn. */
  ghost predicate Frames(s: State, before: Slot, e: Effect) {
    && TokenOf(e.slot) == TokenOf(before)
    && WellReleased(e.slot, e.stopSet)
    && (s.stopScheduled ==> e.stopScheduled) && (s.stopSet ==> e.stopSet)
  }

  /** No stretch of code inside a slot lets go of the token or withdraws a stop. */
  lemma EffectFrame(c: Config, s: State, step: Step)
    requires Enabled(c, s, step) && Inner(step)
    ensures Frames(s, s.slots[step.i], InnerEffect(c, s, step))
  {
    match step
    case Begin(_, unreachable) => BeginFrame(c, s, unreachable);
    case Decide(_) => DecideFrame(c, s);
    case Gate(i, gate) => GateFrame(c, s, s.slots[i].token, gate);
    case Prepare(i, prepared) => PrepareFrame(c, s, s.slots[i].token, prepared);
    case Return(i, outcome) => ReturnFrame(c, s, s.slots[i].token, outcome);
  }

  lemma BeginFrame(c: Config, s: State, unreachable: bool)
    ensures Frames(s, Starting, BeginEffect(c, s, unreachable))
  {
    hide AfterFailure, FailureStops;
  }

  lemma DecideFrame(c: Config, s: State)
    ensures Frames(s, Deciding, DecideEffect(c, s))
  {
  }

  lemma GateFrame(c: Config, s: State, token: int, gate: GateOutcome)
    ensures Frames(s, Gated(token), GateEffect(c, s, token, gate))
  {
    hide HandleFault;
    if gate.GateFault? {
      FaultFrame(c, s, token, gate.fault, gate.unreachable);
    }
  }

  lemma PrepareFrame(c: Config, s: State, token: int, prepared: PrepareOutcome)
    ensures Frames(s, Preparing(token), PrepareEffect(c, s, token, prepared))
  {
    hide HandleFault;
    if prepared.PrepareFault? {
      FaultFrame(c, s, token, prepared.fault, prepared.unreachable);
    }
  }

  lemma ReturnFrame(c: Config, s: State, token: int, outcome: SubmitOutcome)
    ensures Frames(s, Submitting(token), ReturnEffect(c, s, token, outcome))
  {
    hide HandleFault, AfterSuccess, SuccessStops;
    if outcome.SubmitFault? {
      FaultFrame(c, s, token, outcome.fault, outcome.unreachable);
    }
  }

  lemma FaultFrame(c: Config, s: State, token: int, fault: Fault, unreachable: bool)
    ensures
      var e := HandleFault(c, s, token, fault, unreachable);
      && e.slot.Releasing? && e.slot.token == token
      && WellReleased(e.slot, e.stopSet)
      && (s.stopScheduled ==> e.stopScheduled) && (s.stopSet ==> e.stopSet)
      && e.returned == s.returned && e.progress.curNum == s.progress.curNum
  {
  }

  // ---- tokens ----

  /** Ready, delayed, held and retired tokens partition the token range. */
  ghost predicate TokensPartition(c: Config, s: State) {
    && |s.slots| == c.WorkerCount()
    && s.queue.Valid()
    && InQueue(s.queue) + InHand(s.slots) + multiset(s.retired) == multiset(IntRange(c.WorkerCount()))
  }

  lemma TokensPartitionInit(c: Config)
    ensures TokensPartition(c, Init(c))
  {
    NothingInHand(Init(c).slots);
  }

  lemma {:induction false} NothingInHand(slots: seq<Slot>)
    requires forall i :: 0 <= i < |slots| ==> slots[i].Starting?
    ensures InHand(slots) == multiset{}
  {
    if |slots| > 0 {
      NothingInHand(slots[..|slots| - 1]);
    }
  }

  lemma TokensPartitionStep(c: Config, s: State, step: Step)
    requires TokensPartition(c, s) && Enabled(c, s, step)
    ensures TokensPartition(c, Apply(c, s, step))
  {
    if Inner(step) {
      EffectFrame(c, s, step);
      SameInHand(s.slots, step.i, InnerEffect(c, s, step).slot);
    } else if step.TakeToken? {
      TakeTokenAccounts(c, s, step.i);
    } else if step.GiveBack? {
      GiveBackAccounts(c, s, step.i);
    } else if step.WakeUp? {
      WakeAccounts(s.queue, s.now);
      WakeKeepsOrder(s.queue, s.now);
    }
  }

  lemma SameInHand(slots: seq<Slot>, i: nat, x: Slot)
    requires i < |slots| && TokenOf(x) == TokenOf(slots[i])
    ensures InHand(slots[i := x]) == InHand(slots)
  {
    InHandUpdate(slots, i, x);
    Cancel(InHand(slots[i := x]), InHand(slots), TokenOf(x));
  }

  lemma Cancel(a: multiset<int>, b: multiset<int>, m: multiset<int>)
    requires a + m == b + m
    ensures a == b
  {
    assert (a + m) - m == a && (b + m) - m == b;
  }

  lemma TakeTokenAccounts(c: Config, s: State, i: nat)
    requires TokensPartition(c, s) && i < |s.slots| && s.slots[i].Acquiring?
    ensures TokensPartition(c, ApplyTakeToken(s, i))
  {
    var s' := ApplyTakeToken(s, i);
    var slot := s'.slots[i];
    assert s'.slots == s.slots[i := slot];
    assert TokenOf(s.slots[i]) == multiset{};
    if Acquire(s.queue).Token? {
      InHandUpdate(s.slots, i, slot);
      AcquireAccounts(s.queue);
      hide InQueue, InHand;
      Regroup(InQueue(s'.queue), TokenOf(slot), InHand(s.slots), multiset(s.retired));
    } else {
      SameInHand(s.slots, i, slot);
    }
  }

  lemma Regroup(a: multiset<int>, m: multiset<int>, b: multiset<int>, r: multiset<int>)
    ensures (a + m) + b + r == a + (b + m) + r
    ensures a + (b + m) + r == a + b + (r + m)
  {
    assert (a + m) + b == a + (b + m);
    assert (b + m) + r == b + (r + m);
  }

  lemma GiveBackMultisets(c: Config, s: State, i: nat)
    requires TokensPartition(c, s) && i < |s.slots| && s.slots[i].Releasing?
    ensures
      var s' := ApplyGiveBack(s, i);
      && s'.queue.Valid()
      && InQueue(s'.queue) + InHand(s'.slots) + multiset(s'.retired) == InQueue(s.queue) + InHand(s.slots) + multiset(s.retired)
  {
    var s' := ApplyGiveBack(s, i);
    var r := s.slots[i];
    var slot := if r.leaving then Ended else Deciding;
    var m := multiset{r.token};
    ReleaseAccounts(s.queue, r.token, r.requeue, r.delay, s.now);
    ReleaseKeepsOrder(s.queue, r.token, r.requeue, r.delay, s.now);
    InHandUpdate(s.slots, i, slot);
    assert TokenOf(slot) == multiset{} && TokenOf(r) == m;
    hide InQueue, InHand, Release, TokenOf;
    assert InHand(s.slots[i := slot]) + m == InHand(s.slots);
    Regroup(InQueue(s.queue), m, InHand(s.slots[i := slot]), multiset(s.retired));
  }

  lemma GiveBackAccounts(c: Config, s: State, i: nat)
    requires TokensPartition(c, s) && i < |s.slots| && s.slots[i].Releasing?
    ensures TokensPartition(c, ApplyGiveBack(s, i))
  {
    GiveBackMultisets(c, s, i);
    hide InQueue, InHand, Release;
  }

  // ---- retired tokens ----

  function RetireCover(s: State): nat {
    Tally(s.slots, EndedW) + if s.stopSet then Tally(s.slots, BeforeAcquireW) else 0
  }

  /** Every retired token is paired with a slot that has ended or will see the stop at its next check. */
  ghost predicate RetiredCovered(s: State) {
    && (forall i :: 0 <= i < |s.slots| ==> WellReleased(s.slots[i], s.stopSet))
    && (s.queue.closed ==> forall i :: 0 <= i < |s.slots| ==> s.slots[i].Ended?)
    && |s.retired| <= RetireCover(s)
  }

  lemma EffectCovers(c: Config, s: State, step: Step)
    requires Enabled(c, s, step) && Inner(step)
    ensures
      var before, e := s.slots[step.i], InnerEffect(c, s, step);
      EndedW(e.slot) + (if e.stopSet then BeforeAcquireW(e.slot) else 0)
        >= EndedW(before) + (if s.stopSet then BeforeAcquireW(before) else 0)
  {
    hide AfterFailure, FailureStops, AfterSuccess, SuccessStops, HandleFault;
  }

  lemma RetiredCoveredInner(c: Config, s: State, step: Step)
    requires RetiredCovered(s) && Enabled(c, s, step) && Inner(step)
    ensures RetiredCovered(Apply(c, s, step))
  {
    var e := InnerEffect(c, s, step);
    EffectFrame(c, s, step);
    EffectCovers(c, s, step);
    TallyUpdate(s.slots, EndedW, step.i, e.slot);
    TallyUpdate(s.slots, BeforeAcquireW, step.i, e.slot);
    hide InnerEffect, EndedW, BeforeAcquireW, Tally;
    assert Apply(c, s, step) == Commit(s, step.i, e);
  }

  lemma RetiredCoveredStep(c: Config, s: State, step: Step)
    requires RetiredCovered(s) && Enabled(c, s, step)
    ensures RetiredCovered(Apply(c, s, step))
  {
    if Inner(step) {
      RetiredCoveredInner(c, s, step);
    } else if step.TakeToken? || step.GiveBack? {
      var slot := Apply(c, s, step).slots[step.i];
      assert Apply(c, s, step).slots == s.slots[step.i := slot];
      TallyUpdate(s.slots, EndedW, step.i, slot);
      TallyUpdate(s.slots, BeforeAcquireW, step.i, slot);
      hide Tally;
    }
  }

  lemma QueueSizes(c: Config, s: State)
    requires TokensPartition(c, s)
    ensures |s.queue.ready| + |s.queue.delayed| + Tally(s.slots, HoldsW) + |s.retired| == c.WorkerCount()
  {
    InHandSize(s.slots);
    assert |InQueue(s.queue)| == |s.queue.ready| + |s.queue.delayed|;
    assert |InQueue(s.queue) + InHand(s.slots) + multiset(s.retired)| == |multiset(IntRange(c.WorkerCount()))|;
  }

  /** Slots waiting for a token never outnumber the tokens that are ready or will become ready. */
  lemma WaitersHaveTokens(c: Config, s: State)
    requires TokensPartition(c, s) && RetiredCovered(s)
    ensures Tally(s.slots, AcquiringW) <= |s.queue.ready| + |s.queue.delayed|
  {
    QueueSizes(c, s);
    TallySplit(s.slots);
  }

  // ---- the success count and the overshoot ----

  predicate Bounded(c: Config) {
    0 < c.policy.targetNum && c.initial <= c.policy.targetNum
  }

  /** Rounds whose submit returned true without being counted. */
  function Discarded(c: Config, s: State): int {
    s.returned - (s.progress.curNum - c.initial)
  }

  ghost predicate OvershootBounded(c: Config, s: State) {
    && c.initial <= s.progress.curNum <= c.policy.targetNum
    && 0 <= Discarded(c, s)
    && (!s.stopSet && s.progress.curNum < c.policy.targetNum ==> Discarded(c, s) == 0)
    && Discarded(c, s) + Tally(s.slots, InFlightW) <= c.WorkerCount()
    && (s.progress.curNum == c.policy.targetNum ==> Discarded(c, s) + Tally(s.slots, InFlightW) < c.WorkerCount())
  }

  /** What a stretch of code inside a slot does to the counts: only an admission raises the rounds in
      flight, only a finished submit is counted, and each leaves its mark. */
  ghost predicate CountsMove(c: Config, s: State, before: Slot, e: Effect) {
    || (e.progress.curNum == s.progress.curNum && e.returned == s.returned && InFlightW(e.slot) <= InFlightW(before))
    || (e.progress.curNum == s.progress.curNum && e.returned == s.returned
        && !s.stopSet && RoomLeft(c.policy, s.progress) && e.stopSet == s.stopSet)
    || (e.returned == s.returned + 1 && InFlightW(before) == 1 && InFlightW(e.slot) == 0 && e.stopSet == s.stopSet
        && e.progress.curNum == s.progress.curNum + if !s.stopSet && RoomLeft(c.policy, s.progress) then 1 else 0)
  }

  lemma EffectCounts(c: Config, s: State, step: Step)
    requires Enabled(c, s, step) && Inner(step)
    ensures CountsMove(c, s, s.slots[step.i], InnerEffect(c, s, step))
  {
    hide HandleFault, FailureStops;
    match step
    case Gate(i, GateFault(fault, unreachable)) => FaultFrame(c, s, s.slots[i].token, fault, unreachable);
    case Prepare(i, PrepareFault(fault, unreachable)) => FaultFrame(c, s, s.slots[i].token, fault, unreachable);
    case Return(i, SubmitFault(fault, unreachable)) => FaultFrame(c, s, s.slots[i].token, fault, unreachable);
    case _ =>
  }

  lemma OvershootStep(c: Config, s: State, step: Step)
    requires Bounded(c) && |s.slots| == c.WorkerCount() && OvershootBounded(c, s) && Enabled(c, s, step)
    ensures OvershootBounded(c, Apply(c, s, step))
  {
    var s' := Apply(c, s, step);
    if Inner(step) {
      var e := InnerEffect(c, s, step);
      EffectCounts(c, s, step);
      EffectFrame(c, s, step);
      hide InnerEffect;
      assert s' == Commit(s, step.i, e);
      TallyUpdate(s.slots, InFlightW, step.i, e.slot);
      TallySplit(s'.slots);
      hide Tally, InFlightW;
    } else if step.TakeToken? || step.GiveBack? {
      var slot := s'.slots[step.i];
      assert s'.slots == s.slots[step.i := slot];
      TallyUpdate(s.slots, InFlightW, step.i, slot);
      hide Tally;
    }
  }

  // ---- reached limits schedule the stop ----

  function FailureLimit(c: Config): int {
    Max(FailureThreshold(c.policy), AI_FILL_FAIL_THRESHOLD)
  }

  /** A target met during the run, or a failure count at its limit, has the stop scheduled. */
  ghost predicate LimitsStop(c: Config, p: Progress, stopScheduled: bool) {
    && c.initial <= p.curNum
    && (TargetReached(c.policy, p) && p.curNum > c.initial ==> stopScheduled)
    && (c.policy.stopOnFail && p.curFail >= FailureLimit(c) ==> stopScheduled)
    && (c.policy.stopOnFail && p.proxyFail >= ProxyUnavailableThreshold(c.policy) ==> stopScheduled)
  }

  lemma FaultLimits(c: Config, s: State, token: int, fault: Fault, unreachable: bool)
    requires LimitsStop(c, s.progress, s.stopScheduled)
    ensures
      var e := HandleFault(c, s, token, fault, unreachable);
      LimitsStop(c, e.progress, e.stopScheduled)
  {
  }

  lemma LimitsStep(c: Config, s: State, step: Step)
    requires LimitsStop(c, s.progress, s.stopScheduled) && Enabled(c, s, step)
    ensures LimitsStop(c, Apply(c, s, step).progress, Apply(c, s, step).stopScheduled)
  {
    if Inner(step) {
      hide HandleFault;
      match step
      case Gate(i, GateFault(fault, unreachable)) => FaultLimits(c, s, s.slots[i].token, fault, unreachable);
      case Prepare(i, PrepareFault(fault, unreachable)) => FaultLimits(c, s, s.slots[i].token, fault, unreachable);
      case Return(i, SubmitFault(fault, unreachable)) => FaultLimits(c, s, s.slots[i].token, fault, unreachable);
      case _ =>
    }
  }

  // ---- wake-ups ----

  /** The tokens moved so far are sorted by (ready_at, order), none was moved before its time, and
      all of them come before everything still delayed. */
  ghost predicate WakesOrdered(s: State) {
    && s.queue.Valid()
    && (forall i, j :: 0 <= i < j < |s.wakeups| ==>
          Sooner(s.wakeups[i].entry, s.wakeups[j].entry) && s.wakeups[i].at <= s.wakeups[j].at)
    && (forall i :: 0 <= i < |s.wakeups| ==> s.wakeups[i].entry.readyAt <= s.wakeups[i].at <= s.now)
    && (forall i, j :: 0 <= i < |s.wakeups| && 0 <= j < |s.queue.delayed| ==>
          Sooner(s.wakeups[i].entry, s.queue.delayed[j]))
  }

  lemma WakeKeepsWakes(s: State)
    requires WakesOrdered(s)
    ensures WakesOrdered(s.(queue := Wake(s.queue, s.now), wakeups := s.wakeups + Stamp(Due(s.queue, s.now), s.now)))
  {
    WakeKeepsOrder(s.queue, s.now);
    var due := Due(s.queue, s.now);
    var rest := Wake(s.queue, s.now).delayed;
    assert forall i :: 0 <= i < |due| ==> due[i] == s.queue.delayed[i];
    assert forall j :: 0 <= j < |rest| ==> rest[j] == s.queue.delayed[|due| + j];
  }

  lemma ReleaseKeepsWakes(s: State, i: nat)
    requires WakesOrdered(s) && i < |s.slots| && s.slots[i].Releasing?
    ensures WakesOrdered(ApplyGiveBack(s, i))
  {
    var r := s.slots[i];
    ReleaseKeepsOrder(s.queue, r.token, r.requeue, r.delay, s.now);
    if r.requeue && !s.queue.closed && r.delay > 0.0 {
      var x := Scheduled(s.now + r.delay, s.queue.nextOrder, r.token);
      var pushed := Push(s.queue.delayed, x);
      PushSorted(s.queue.delayed, x);
      forall k, j | 0 <= k < |s.wakeups| && 0 <= j < |pushed| ensures Sooner(s.wakeups[k].entry, pushed[j]) {
        assert pushed[j] in pushed;
      }
    }
  }

  lemma WakesOrderedStep(c: Config, s: State, step: Step)
    requires WakesOrdered(s) && Enabled(c, s, step)
    ensures WakesOrdered(Apply(c, s, step))
  {
    if Inner(step) {
      hide InnerEffect;
    } else if step.GiveBack? {
      ReleaseKeepsWakes(s, step.i);
    } else if step.WakeUp? {
      WakeKeepsWakes(s);
    }
  }

  // ---- all of it, over every run ----

  ghost predicate Invariant(c: Config, s: State) {
    && TokensPartition(c, s)
    && RetiredCovered(s)
    && (Bounded(c) ==> OvershootBounded(c, s))
    && LimitsStop(c, s.progress, s.stopScheduled)
    && WakesOrdered(s)
  }

  lemma InvariantInit(c: Config)
    ensures Invariant(c, Init(c))
  {
    TokensPartitionInit(c);
    NobodyTallied(Init(c).slots);
  }

  lemma {:induction false} NobodyTallied(slots: seq<Slot>)
    requires forall i :: 0 <= i < |slots| ==> slots[i].Starting?
    ensures Tally(slots, InFlightW) == 0
  {
    if |slots| > 0 {
      NobodyTallied(slots[..|slots| - 1]);
    }
  }

  lemma InvariantStep(c: Config, s: State, step: Step)
    requires Invariant(c, s) && Enabled(c, s, step)
    ensures Invariant(c, Apply(c, s, step))
  {
    TokensPartitionStep(c, s, step);
    RetiredCoveredStep(c, s, step);
    if Bounded(c) {
      OvershootStep(c, s, step);
    }
    LimitsStep(c, s, step);
    WakesOrderedStep(c, s, step);
    hide *;
  }

  lemma {:induction false} InvariantHolds(c: Config, steps: seq<Step>)
    requires Exec(c, Init(c), steps).Some?
    ensures Invariant(c, Exec(c, Init(c), steps).value)
  {
    if |steps| == 0 {
      InvariantInit(c);
    } else {
      var front := steps[..|steps| - 1];
      InvariantHolds(c, front);
      InvariantStep(c, Exec(c, Init(c), front).value, steps[|steps| - 1]);
    }
  }

  lemma ReachableInvariant(c: Config, s: State)
    requires Reachable(c, s)
    ensures Invariant(c, s)
  {
    var steps :| Exec(c, Init(c), steps) == Some(s);
    InvariantHolds(c, steps);
  }
}
