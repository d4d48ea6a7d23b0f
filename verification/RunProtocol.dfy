/** A run of the engine as a protocol: worker slots pass tokens through the scheduler, play rounds,
    and stop. Every step is one stretch of code between two suspension points; a run is any
    sequence of enabled steps, so every interleaving is covered. */
module RunProtocol {
  import opened Wrappers
  import opened Sorting
  import opened Scheduler
  import opened StopPolicy

  const AI_FILL_FAIL_THRESHOLD := 5
  const ATTEMPT_REQUEUE_DELAY := 0.2

  /** `initial` is the success count the run starts from; `blocked` says that the survey cannot be
      played over plain HTTP at all. */
  datatype Config = Config(policy: PolicyConfig, initial: int, blocked: bool) {
    function WorkerCount(): (n: nat)
      ensures n >= 1
    {
      Workers(policy.numThreads)
    }
  }

  /** Where a slot is suspended. */
  datatype Slot =
    | Starting
    | Deciding                                   // about to evaluate the stop check at the loop head
    | Acquiring                                  // waiting for a token
    | Gated(token: int)                          // in the gate that admits a round
    | Preparing(token: int)                      // admitted; choosing session and proxy
    | Submitting(token: int)
    | Releasing(token: int, requeue: bool, delay: real, leaving: bool)
    | Ended

  datatype Wakeup = Wakeup(entry: Scheduled, at: real)

  /** `stopScheduled` and `stopSet` differ: setting the stop signal only schedules the event.
      `returned` counts the rounds whose submit returned true; `wakeups` lists all tokens the waker moved. */
  datatype State = State(
    queue: Queue, slots: seq<Slot>, retired: seq<int>, progress: Progress,
    stopScheduled: bool, stopSet: bool, paused: bool, now: real,
    returned: nat, wakeups: seq<Wakeup>)

  /** The exceptions a round can end with. */
  datatype Fault =
    | ProxyLost | AiFailed | VerificationRequired(viaProxy: bool) | ProviderUnavailable | TransportFailed | Unexpected

  /** What the bookkeeping behind the gate decides once the stop checks have passed; or it raises, which it may also
      do before them. */
  datatype GateOutcome = Admit | Wait | JointSamplesDone | FillExhausted | GateFault(fault: Fault, unreachable: bool)

  datatype PrepareOutcome = Ready | TimedOut | SampleLost | PrepareFault(fault: Fault, unreachable: bool)

  datatype SubmitOutcome = Finished(delay: real) | Unfinished | SubmitFault(fault: Fault, unreachable: bool)

  datatype Step =
    | Begin(i: nat, unreachable: bool)
    | Decide(i: nat)
    | TakeToken(i: nat)
    | Gate(i: nat, gate: GateOutcome)
    | Prepare(i: nat, prepared: PrepareOutcome)
    | Return(i: nat, outcome: SubmitOutcome)
    | GiveBack(i: nat)
    | FireStop
    | RequestStop
    | SetPause(on: bool)
    | Tick(dt: real)
    | WakeUp
    | Finish

  predicate SlotStep(step: Step) {
    step.Begin? || step.Decide? || step.TakeToken? || step.Gate? || step.Prepare? || step.Return? || step.GiveBack?
  }

  function Init(c: Config): State {
    State(Fresh(c.policy.numThreads), seq(c.WorkerCount(), i => Starting), [],
          Progress(c.initial, 0, 0, 0, false, None), false, false, false, 0.0, 0, [])
  }

  /** The stop check waits while the run is paused and not stopped. */
  predicate Held(s: State) {
    s.paused && !s.stopSet
  }

  predicate Enabled(c: Config, s: State, step: Step) {
    if SlotStep(step) then
      && step.i < |s.slots|
      && match step
         case Begin(i, _) => s.slots[i].Starting?
         case Decide(i) => s.slots[i].Deciding? && !Held(s)
         case TakeToken(i) => s.slots[i].Acquiring? && !Acquire(s.queue).MustWait?
         case Gate(i, g) => s.slots[i].Gated? && (g.GateFault? || !Held(s))
         case Prepare(i, _) => s.slots[i].Preparing?
         case Return(i, _) => s.slots[i].Submitting?
         case GiveBack(i) => s.slots[i].Releasing?
    else
      match step
      case FireStop => s.stopScheduled
      case RequestStop => true
      case SetPause(_) => true
      case Tick(dt) => dt >= 0.0
      case WakeUp => true
      case Finish => forall i :: 0 <= i < |s.slots| ==> s.slots[i].Ended?
  }

  /** What a stretch of code inside one slot does: where the slot goes and what it writes to the shared state. */
  datatype Effect = Effect(slot: Slot, progress: Progress, stopScheduled: bool, stopSet: bool, returned: nat)

  function Stay(s: State, slot: Slot): Effect {
    Effect(slot, s.progress, s.stopScheduled, s.stopSet, s.returned)
  }

  /** The round is over and the slot leaves its loop: the token is not requeued. */
  function Leave(e: Effect, token: int): Effect {
    e.(slot := Releasing(token, false, 0.0, true))
  }

  /** The slot goes round its loop; the token is requeued unless the stop event is set by now. */
  function GoRound(e: Effect, token: int, delay: real): Effect {
    e.(slot := Releasing(token, !e.stopSet, delay, false))
  }

  /** Records a failure; if that stops the run, the signal is scheduled, and set at once if `direct`. */
  function Fail(c: Config, s: State, token: int, call: FailureCall, unreachable: bool, direct: bool): Effect {
    var stops := FailureStops(c.policy, s.progress, call, unreachable);
    var e := Effect(Ended, AfterFailure(c.policy, s.progress, call, unreachable),
                    s.stopScheduled || stops, s.stopSet || (stops && direct), s.returned);
    if stops then Leave(e, token) else GoRound(e, token, 0.0)
  }

  /** A terminal condition: marked, scheduled, and the slot leaves. */
  function Terminate(s: State, token: int, category: string): Effect {
    Leave(Effect(Ended, MarkTerminal(s.progress, category), true, s.stopSet, s.returned), token)
  }

  function ProxyFailure(c: Config): FailureCall {
    FailureCall(Reason.ProxyUnavailable, Some(ProxyUnavailableThreshold(c.policy)), "proxy_unavailable_threshold", false)
  }

  function HandleFault(c: Config, s: State, token: int, fault: Fault, unreachable: bool): Effect {
    match fault
    case ProxyLost => Fail(c, s, token, ProxyFailure(c), unreachable, true)
    case TransportFailed => Fail(c, s, token, ProxyFailure(c), unreachable, true)
    case AiFailed =>
      Fail(c, s, token, FailureCall(OtherFailure, Some(AI_FILL_FAIL_THRESHOLD), "free_ai_unstable", true), unreachable, false)
    case VerificationRequired(viaProxy) =>
      if viaProxy then
        Fail(c, s, token, FailureCall(OtherFailure, None, "submission_verification_threshold", true), unreachable, true)
      else Terminate(s, token, "submission_verification")
    case ProviderUnavailable => Terminate(s, token, "survey_provider_unavailable")
    case Unexpected =>
      if s.stopSet then Leave(Stay(s, Ended), token)
      else Fail(c, s, token, FailureCall(OtherFailure, None, "fail_threshold", false), unreachable, false)
  }

  /** A slot that sees the target reached triggers the stop. */
  function SeeTarget(s: State): Effect {
    Effect(Ended, TriggerTarget(s.progress), true, s.stopSet, s.returned)
  }

  function BeginEffect(c: Config, s: State, unreachable: bool): Effect {
    if !c.blocked then Stay(s, Deciding)
    else
      var call := FailureCall(OtherFailure, None, "http_runtime_only", true);
      var stops := FailureStops(c.policy, s.progress, call, unreachable);
      var p := MarkTerminal(AfterFailure(c.policy, s.progress, call, unreachable), "http_runtime_only");
      Effect(Ended, p, s.stopScheduled || stops, true, s.returned)
  }

  function DecideEffect(c: Config, s: State): Effect {
    if s.stopSet then Stay(s, Ended)
    else if TargetReached(c.policy, s.progress) then SeeTarget(s)
    else Stay(s, Acquiring)
  }

  function GateEffect(c: Config, s: State, token: int, gate: GateOutcome): Effect {
    if gate.GateFault? then HandleFault(c, s, token, gate.fault, gate.unreachable)
    else if s.stopSet then Leave(Stay(s, Ended), token)
    else if TargetReached(c.policy, s.progress) then Leave(SeeTarget(s), token)
    else
      match gate
      case Admit => Stay(s, Preparing(token))
      case Wait => Stay(s, Gated(token))
      case JointSamplesDone =>
        Leave(Effect(Ended, MarkTerminal(s.progress, "target_reached"), s.stopScheduled, true, s.returned), token)
      case FillExhausted =>
        Leave(Effect(Ended, MarkTerminal(s.progress, "reverse_fill_exhausted"), s.stopScheduled, true, s.returned), token)
  }

  function PrepareEffect(c: Config, s: State, token: int, prepared: PrepareOutcome): Effect {
    match prepared
    case TimedOut => GoRound(Stay(s, Ended), token, ATTEMPT_REQUEUE_DELAY)
    case PrepareFault(fault, unreachable) => HandleFault(c, s, token, fault, unreachable)
    case Ready => if s.stopSet then Leave(Stay(s, Ended), token) else Stay(s, Submitting(token))
    case SampleLost =>
      if s.stopSet then Leave(Stay(s, Ended), token) else GoRound(Stay(s, Ended), token, ATTEMPT_REQUEUE_DELAY)
  }

  function ReturnEffect(c: Config, s: State, token: int, outcome: SubmitOutcome): Effect {
    match outcome
    case SubmitFault(fault, unreachable) => HandleFault(c, s, token, fault, unreachable)
    case Unfinished => if s.stopSet then Leave(Stay(s, Ended), token) else GoRound(Stay(s, Ended), token, 0.0)
    case Finished(delay) =>
      var e := Stay(s, Ended).(returned := s.returned + 1);
      if s.stopSet then Leave(e, token)
      else
        var stops := SuccessStops(c.policy, s.progress);
        var counted := e.(progress := AfterSuccess(c.policy, s.progress), stopScheduled := s.stopScheduled || stops);
        if stops then Leave(counted, token) else GoRound(counted, token, delay)
  }

  /** Steps inside a round or at the loop head: no token changes hands. */
  predicate Inner(step: Step) {
    step.Begin? || step.Decide? || step.Gate? || step.Prepare? || step.Return?
  }

  function InnerEffect(c: Config, s: State, step: Step): Effect
    requires Enabled(c, s, step) && Inner(step)
  {
    match step
    case Begin(_, unreachable) => BeginEffect(c, s, unreachable)
    case Decide(_) => DecideEffect(c, s)
    case Gate(i, gate) => GateEffect(c, s, s.slots[i].token, gate)
    case Prepare(i, prepared) => PrepareEffect(c, s, s.slots[i].token, prepared)
    case Return(i, outcome) => ReturnEffect(c, s, s.slots[i].token, outcome)
  }

  function Commit(s: State, i: nat, e: Effect): State
    requires i < |s.slots|
  {
    s.(slots := s.slots[i := e.slot], progress := e.progress,
       stopScheduled := e.stopScheduled, stopSet := e.stopSet, returned := e.returned)
  }

  function ApplyTakeToken(s: State, i: nat): State
    requires i < |s.slots|
  {
    var slot := match Acquire(s.queue) case Token(t) => Gated(t) case _ => Ended;
    s.(queue := AfterAcquire(s.queue), slots := s.slots[i := slot])
  }

  function ApplyGiveBack(s: State, i: nat): State
    requires i < |s.slots| && s.slots[i].Releasing?
  {
    var r := s.slots[i];
    s.(queue := Release(s.queue, r.token, r.requeue, r.delay, s.now),
       retired := if r.requeue && !s.queue.closed then s.retired else s.retired + [r.token],
       slots := s.slots[i := if r.leaving then Ended else Deciding])
  }

  function Stamp(entries: seq<Scheduled>, at: real): (w: seq<Wakeup>)
    ensures |w| == |entries|
    ensures forall k :: 0 <= k < |w| ==> w[k] == Wakeup(entries[k], at)
  {
    seq(|entries|, k requires 0 <= k < |entries| => Wakeup(entries[k], at))
  }

  function Apply(c: Config, s: State, step: Step): State
    requires Enabled(c, s, step)
  {
    if Inner(step) then Commit(s, step.i, InnerEffect(c, s, step))
    else match step
    case TakeToken(i) => ApplyTakeToken(s, i)
    case GiveBack(i) => ApplyGiveBack(s, i)
    case FireStop => s.(stopSet := true)
    case RequestStop => s.(stopScheduled := true)
    case SetPause(on) => s.(paused := on)
    case Tick(dt) => s.(now := s.now + dt)
    case WakeUp => s.(queue := Wake(s.queue, s.now), wakeups := s.wakeups + Stamp(Due(s.queue, s.now), s.now))
    case Finish => s.(queue := Close(s.queue), stopSet := true)
  }

  /** The state after a sequence of steps, or none if one of them is not enabled. */
  function Exec(c: Config, s: State, steps: seq<Step>): Option<State> {
    if |steps| == 0 then Some(s)
    else
      var before := Exec(c, s, steps[..|steps| - 1]);
      var last := steps[|steps| - 1];
      if before.Some? && Enabled(c, before.value, last) then Some(Apply(c, before.value, last)) else None
  }

  /** `s` occurs in some run. */
  ghost predicate Reachable(c: Config, s: State) {
    exists steps :: Exec(c, Init(c), steps) == Some(s)
  }

  // ---- counting slots ----

  function Tally(slots: seq<Slot>, weight: Slot -> nat): nat {
    if |slots| == 0 then 0 else Tally(slots[..|slots| - 1], weight) + weight(slots[|slots| - 1])
  }

  lemma {:induction false} TallyUpdate(slots: seq<Slot>, weight: Slot -> nat, i: nat, x: Slot)
    requires i < |slots|
    ensures Tally(slots[i := x], weight) == Tally(slots, weight) - weight(slots[i]) + weight(x)
    ensures weight(slots[i]) <= Tally(slots, weight)
  {
    var n := |slots| - 1;
    if i < n {
      TallyUpdate(slots[..n], weight, i, x);
      assert slots[i := x][..n] == slots[..n][i := x];
    } else {
      assert slots[i := x][..n] == slots[..n];
    }
  }

  function Is(yes: bool): nat {
    if yes then 1 else 0
  }

  function EndedW(s: Slot): nat { Is(s.Ended?) }
  function BeforeAcquireW(s: Slot): nat { Is(s.Starting? || s.Deciding?) }
  function AcquiringW(s: Slot): nat { Is(s.Acquiring?) }
  function InFlightW(s: Slot): nat { Is(s.Preparing? || s.Submitting?) }
  function HoldsW(s: Slot): nat { Is(s.Gated? || s.Preparing? || s.Submitting? || s.Releasing?) }

  /** How many of its own steps a slot can still take once the stop event is set. */
  function RankW(s: Slot): nat {
    match s
    case Starting => 2
    case Deciding => 1
    case Acquiring => 4
    case Gated(_) => 3
    case Preparing(_) => 3
    case Submitting(_) => 3
    case Releasing(_, _, _, _) => 2
    case Ended => 0
  }

  lemma {:induction false} TallySplit(slots: seq<Slot>)
    ensures Tally(slots, EndedW) + Tally(slots, BeforeAcquireW) + Tally(slots, AcquiringW) + Tally(slots, HoldsW) == |slots|
    ensures Tally(slots, InFlightW) <= Tally(slots, HoldsW)
  {
    if |slots| > 0 {
      TallySplit(slots[..|slots| - 1]);
    }
  }

  /** The tokens in the hands of slots. */
  function InHand(slots: seq<Slot>): multiset<int> {
    if |slots| == 0 then multiset{}
    else InHand(slots[..|slots| - 1]) + TokenOf(slots[|slots| - 1])
  }

  function TokenOf(s: Slot): (m: multiset<int>)
    ensures |m| == HoldsW(s)
  {
    if HoldsW(s) == 1 then multiset{s.token} else multiset{}
  }

  lemma {:induction false} InHandUpdate(slots: seq<Slot>, i: nat, x: Slot)
    requires i < |slots|
    ensures InHand(slots[i := x]) + TokenOf(slots[i]) == InHand(slots) + TokenOf(x)
  {
    hide TokenOf;
    var n := |slots| - 1;
    var after := slots[i := x];
    assert InHand(slots) == InHand(slots[..n]) + TokenOf(slots[n]);
    assert InHand(after) == InHand(after[..n]) + TokenOf(after[n]);
    hide InHand;
    if i < n {
      InHandUpdate(slots[..n], i, x);
      assert after[..n] == slots[..n][i := x];
      assert slots[..n][i] == slots[i] && after[n] == slots[n];
      Shuffle(InHand(after[..n]), TokenOf(slots[i]), InHand(slots[..n]), TokenOf(x), TokenOf(slots[n]));
    } else {
      assert after[..n] == slots[..n];
    }
  }

  lemma Shuffle(a: multiset<int>, b: multiset<int>, c: multiset<int>, d: multiset<int>, e: multiset<int>)
    requires a + b == c + d
    ensures (a + e) + b == (c + e) + d
  {
    assert (a + e) + b == (a + b) + e;
  }

  lemma {:induction false} InHandSize(slots: seq<Slot>)
    ensures |InHand(slots)| == Tally(slots, HoldsW)
  {
    if |slots| > 0 {
      InHandSize(slots[..|slots| - 1]);
    }
  }
}
