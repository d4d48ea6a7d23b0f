/** What the counters and stop flags of a run are, told from the steps it took. */
module RunHistory {
  import opened Wrappers
  import opened StopPolicy
  import opened RunProtocol

  // ---- what a step reports ----

  datatype Trouble = ProxyTrouble | OtherTrouble

  /** The exception a step ends with, and whether the samples cannot reach the target any more. */
  function FaultOf(step: Step): Option<(Fault, bool)> {
    match step
    case Gate(_, GateFault(fault, unreachable)) => Some((fault, unreachable))
    case Prepare(_, PrepareFault(fault, unreachable)) => Some((fault, unreachable))
    case Return(_, SubmitFault(fault, unreachable)) => Some((fault, unreachable))
    case _ => None
  }

  predicate Ends(step: Step, fault: Fault) {
    FaultOf(step).Some? && FaultOf(step).value.0 == fault
  }

  predicate Unreachable(step: Step) {
    (FaultOf(step).Some? && FaultOf(step).value.1) || (step.Begin? && step.unreachable)
  }

  predicate ProxyFault(step: Step) {
    Ends(step, ProxyLost) || Ends(step, TransportFailed)
  }

  /** The failure that a step counts as. Uncounted are an unexpected fault once the stop event is set, an unavailable
      provider and a verification demanded without a proxy. */
  function Counted(c: Config, s: State, step: Step): Option<Trouble> {
    if ProxyFault(step) then Some(ProxyTrouble)
    else if Ends(step, AiFailed) || Ends(step, VerificationRequired(true)) || (Ends(step, Unexpected) && !s.stopSet)
            || (step.Begin? && c.blocked) then Some(OtherTrouble)
    else None
  }

  /** A submit that returned true, was seen before the stop event and found room below the target. */
  predicate Succeeds(c: Config, s: State, step: Step) {
    step.Return? && step.outcome.Finished? && !s.stopSet && (c.policy.targetNum <= 0 || s.progress.curNum < c.policy.targetNum)
  }

  // ---- counts read from the steps ----

  /** The state after the steps of a run. */
  function After(c: Config, steps: seq<Step>): State
    requires Exec(c, Init(c), steps).Some?
  {
    Exec(c, Init(c), steps).value
  }

  /** How many failures of this kind there were since the last counted success. */
  function Streak(c: Config, steps: seq<Step>, kind: Trouble): nat
    requires Exec(c, Init(c), steps).Some?
  {
    if |steps| == 0 then 0
    else
      var front, last := steps[..|steps| - 1], steps[|steps| - 1];
      if Succeeds(c, After(c, front), last) then 0
      else Streak(c, front, kind) + Is(Counted(c, After(c, front), last) == Some(kind))
  }

  function Successes(c: Config, steps: seq<Step>): nat
    requires Exec(c, Init(c), steps).Some?
  {
    if |steps| == 0 then 0
    else
      var front := steps[..|steps| - 1];
      Successes(c, front) + Is(Succeeds(c, After(c, front), steps[|steps| - 1]))
  }

  // ---- what stops a run ----

  /** n consecutive failures are enough without an override. */
  predicate Enough(c: Config, n: int) {
    n >= 1 && ReachesThreshold(c.policy, None, n)
  }

  predicate EnoughForProxy(c: Config, n: int) {
    Enough(c, n) && (c.policy.randomProxy ==> n >= c.policy.numThreads)
  }

  /** The failure ends the run, after `other` and `proxy` failures in a row of the two kinds. */
  predicate FailureEnds(c: Config, s: State, step: Step, other: int, proxy: int) {
    Counted(c, s, step).Some? &&
    (|| Unreachable(step)
     || (ProxyFault(step) && c.policy.stopOnFail && EnoughForProxy(c, proxy + 1))
     || (Ends(step, AiFailed) && other + 1 >= 5)
     || ((Ends(step, VerificationRequired(true)) || step.Begin?) && Enough(c, other + 1))
     || (Ends(step, Unexpected) && c.policy.stopOnFail && Enough(c, other + 1)))
  }

  predicate GivesUp(step: Step) {
    Ends(step, ProviderUnavailable) || Ends(step, VerificationRequired(false))
  }

  predicate MeetsTarget(c: Config, s: State, step: Step) {
    step.Return? && step.outcome.Finished? && !s.stopSet && 0 < c.policy.targetNum <= s.progress.curNum + 1
  }

  /** A stop check, at the loop head or in the gate, finds the target reached. */
  predicate SeesTarget(c: Config, s: State, step: Step) {
    (step.Decide? || (step.Gate? && !step.gate.GateFault?)) && !s.stopSet && 0 < c.policy.targetNum <= s.progress.curNum
  }

  /** The gate finds no sample left for another round. */
  predicate RunsOut(c: Config, s: State, step: Step) {
    step.Gate? && (step.gate.JointSamplesDone? || step.gate.FillExhausted?) && !s.stopSet && !SeesTarget(c, s, step)
  }

  predicate SchedulesStop(c: Config, s: State, step: Step, other: int, proxy: int) {
    step.RequestStop? || FailureEnds(c, s, step, other, proxy) || GivesUp(step) || MeetsTarget(c, s, step) || SeesTarget(c, s, step)
  }

  /** The stop event itself is set: by the event loop, at the end, or at once by the step. */
  predicate SetsStop(c: Config, s: State, step: Step, other: int, proxy: int) {
    || step.FireStop? || step.Finish? || (step.Begin? && c.blocked) || RunsOut(c, s, step)
    || (FailureEnds(c, s, step, other, proxy) && (ProxyFault(step) || Ends(step, VerificationRequired(true))))
  }

  /** The reason a step gives for the end of the run, if it gives one. */
  function Names(c: Config, s: State, step: Step, other: int, proxy: int): Option<string> {
    if step.Begin? && c.blocked then Some(if step.unreachable then "reverse_fill_exhausted" else "http_runtime_only")
    else if FailureEnds(c, s, step, other, proxy) then
      Some(if Unreachable(step) then "reverse_fill_exhausted"
           else if ProxyFault(step) then "proxy_unavailable_threshold"
           else if Ends(step, AiFailed) then "free_ai_unstable"
           else if Ends(step, VerificationRequired(true)) then "submission_verification_threshold"
           else "fail_threshold")
    else if Ends(step, ProviderUnavailable) then Some("survey_provider_unavailable")
    else if Ends(step, VerificationRequired(false)) then Some("submission_verification")
    else if SeesTarget(c, s, step) || (MeetsTarget(c, s, step) && Succeeds(c, s, step)) then Some("target_reached")
    else if RunsOut(c, s, step) then Some(if step.gate.JointSamplesDone? then "target_reached" else "reverse_fill_exhausted")
    else None
  }

  // ---- one step ----

  lemma ThresholdIs(c: Config, n: int)
    ensures n >= FailureThreshold(c.policy) <==> Enough(c, n)
    ensures n >= ProxyUnavailableThreshold(c.policy) <==> EnoughForProxy(c, n)
  {
  }

  /** How progress and stop flags change in a step. */
  ghost predicate Moves(c: Config, s: State, step: Step, p: Progress, stopScheduled: bool, stopSet: bool) {
    var q, counted := s.progress, Counted(c, s, step);
    && p.curFail == (if Succeeds(c, s, step) then 0 else q.curFail + Is(counted == Some(OtherTrouble)))
    && p.proxyFail == (if Succeeds(c, s, step) then 0 else q.proxyFail + Is(counted == Some(ProxyTrouble)))
    && p.curNum == q.curNum + Is(Succeeds(c, s, step))
    && (stopScheduled <==> s.stopScheduled || SchedulesStop(c, s, step, q.curFail, q.proxyFail))
    && (stopSet <==> s.stopSet || SetsStop(c, s, step, q.curFail, q.proxyFail))
    && p.terminal == (if q.terminal.Some? then q.terminal else Names(c, s, step, q.curFail, q.proxyFail))
    && (p.targetTriggered ==> p.terminal.Some?)
  }

  ghost predicate Sane(s: State) {
    s.progress.proxyFail >= 0 && (s.progress.targetTriggered ==> s.progress.terminal.Some?)
  }

  /** What recording a failure does, for a call of either kind. */
  lemma FailMoves(c: Config, s: State, token: int, call: FailureCall, unreachable: bool, direct: bool)
    requires s.progress.proxyFail >= 0 && !call.reason.DeviceQuotaLimit?
    ensures
      var e, q, proxy := Fail(c, s, token, call, unreachable, direct), s.progress, call.reason.ProxyUnavailable?;
      var stops := unreachable || ((c.policy.stopOnFail || call.force)
                                   && (if proxy then q.proxyFail else q.curFail) + 1 >= StopThreshold(c.policy, call.override));
      && e.progress.curFail == q.curFail + Is(!proxy) && e.progress.proxyFail == q.proxyFail + Is(proxy)
      && e.progress.curNum == q.curNum && e.progress.targetTriggered == q.targetTriggered
      && e.progress.terminal == (if q.terminal.Some? || !stops then q.terminal
                                 else Some(if unreachable then "reverse_fill_exhausted" else call.category))
      && (e.stopScheduled <==> s.stopScheduled || stops) && (e.stopSet <==> s.stopSet || (stops && direct))
      && e.slot == Releasing(token, !stops && !e.stopSet, 0.0, stops)
  {
    hide StopThreshold;
  }

  /** The effect of a fault, as a whole. */
  ghost predicate FaultMovesTo(c: Config, s: State, step: Step, token: int, e: Effect) {
    var leaves := || FailureEnds(c, s, step, s.progress.curFail, s.progress.proxyFail) || GivesUp(step)
                  || (Ends(step, Unexpected) && s.stopSet);
    && Moves(c, s, step, e.progress, e.stopScheduled, e.stopSet)
    && e.slot == Releasing(token, !leaves && !e.stopSet, 0.0, leaves)
  }

  lemma ProxyMoves(c: Config, s: State, step: Step, token: int, unreachable: bool)
    requires Sane(s) && (FaultOf(step) == Some((ProxyLost, unreachable)) || FaultOf(step) == Some((TransportFailed, unreachable)))
    ensures FaultMovesTo(c, s, step, token, Fail(c, s, token, ProxyFailure(c), unreachable, true))
  {
    ThresholdIs(c, s.progress.proxyFail + 1);
    FailMoves(c, s, token, ProxyFailure(c), unreachable, true);
    hide FailureThreshold, ProxyUnavailableThreshold, Enough, EnoughForProxy, Fail;
  }

  lemma AiMoves(c: Config, s: State, step: Step, token: int, unreachable: bool)
    requires Sane(s) && FaultOf(step) == Some((AiFailed, unreachable))
    ensures FaultMovesTo(c, s, step, token, HandleFault(c, s, token, AiFailed, unreachable))
  {
    FailMoves(c, s, token, FailureCall(OtherFailure, Some(AI_FILL_FAIL_THRESHOLD), "free_ai_unstable", true), unreachable, false);
    hide FailureThreshold, Enough, EnoughForProxy, Fail;
  }

  lemma VerificationMoves(c: Config, s: State, step: Step, token: int, unreachable: bool)
    requires Sane(s) && FaultOf(step) == Some((VerificationRequired(true), unreachable))
    ensures FaultMovesTo(c, s, step, token, HandleFault(c, s, token, VerificationRequired(true), unreachable))
  {
    ThresholdIs(c, s.progress.curFail + 1);
    FailMoves(c, s, token, FailureCall(OtherFailure, None, "submission_verification_threshold", true), unreachable, true);
    hide FailureThreshold, Enough, EnoughForProxy, Fail;
  }

  lemma GivingUpMoves(c: Config, s: State, step: Step, token: int)
    requires Sane(s) && GivesUp(step)
    ensures FaultMovesTo(c, s, step, token, HandleFault(c, s, token, FaultOf(step).value.0, FaultOf(step).value.1))
  {
    hide Fail, Enough, EnoughForProxy;
  }

  lemma UnexpectedMoves(c: Config, s: State, step: Step, token: int, unreachable: bool)
    requires Sane(s) && FaultOf(step) == Some((Unexpected, unreachable))
    ensures FaultMovesTo(c, s, step, token, HandleFault(c, s, token, Unexpected, unreachable))
  {
    ThresholdIs(c, s.progress.curFail + 1);
    FailMoves(c, s, token, FailureCall(OtherFailure, None, "fail_threshold", false), unreachable, false);
    hide FailureThreshold, Enough, EnoughForProxy, Fail;
  }

  lemma FaultMoves(c: Config, s: State, step: Step, token: int)
    requires Sane(s) && FaultOf(step).Some?
    ensures FaultMovesTo(c, s, step, token, HandleFault(c, s, token, FaultOf(step).value.0, FaultOf(step).value.1))
  {
    var unreachable := FaultOf(step).value.1;
    hide FaultMovesTo, Fail;
    match FaultOf(step).value.0
    case ProxyLost => ProxyMoves(c, s, step, token, unreachable);
    case TransportFailed => ProxyMoves(c, s, step, token, unreachable);
    case AiFailed => AiMoves(c, s, step, token, unreachable);
    case VerificationRequired(viaProxy) =>
      if viaProxy {
        VerificationMoves(c, s, step, token, unreachable);
      } else {
        GivingUpMoves(c, s, step, token);
      }
    case Unexpected => UnexpectedMoves(c, s, step, token, unreachable);
    case ProviderUnavailable => GivingUpMoves(c, s, step, token);
  }

  lemma BeginMoves(c: Config, s: State, i: nat, unreachable: bool)
    requires Sane(s)
    ensures
      var e := BeginEffect(c, s, unreachable);
      Moves(c, s, Begin(i, unreachable), e.progress, e.stopScheduled, e.stopSet)
  {
    ThresholdIs(c, s.progress.curFail + 1);
    hide FailureThreshold, Enough, EnoughForProxy;
  }

  lemma ReturnMoves(c: Config, s: State, i: nat, token: int, outcome: SubmitOutcome)
    requires Sane(s) && !outcome.SubmitFault?
    ensures
      var e := ReturnEffect(c, s, token, outcome);
      Moves(c, s, Return(i, outcome), e.progress, e.stopScheduled, e.stopSet)
  {
    hide HandleFault, Enough, EnoughForProxy;
  }

  lemma GateMoves(c: Config, s: State, i: nat, token: int, gate: GateOutcome)
    requires Sane(s) && !gate.GateFault?
    ensures
      var e := GateEffect(c, s, token, gate);
      Moves(c, s, Gate(i, gate), e.progress, e.stopScheduled, e.stopSet)
  {
    hide HandleFault, Enough, EnoughForProxy;
  }

  lemma DecideMoves(c: Config, s: State, i: nat)
    requires Sane(s)
    ensures Moves(c, s, Decide(i), DecideEffect(c, s).progress, DecideEffect(c, s).stopScheduled, DecideEffect(c, s).stopSet)
  {
    hide Enough, EnoughForProxy;
  }

  lemma PrepareMoves(c: Config, s: State, i: nat, token: int, prepared: PrepareOutcome)
    requires Sane(s) && !prepared.PrepareFault?
    ensures
      var e := PrepareEffect(c, s, token, prepared);
      Moves(c, s, Prepare(i, prepared), e.progress, e.stopScheduled, e.stopSet)
  {
    hide HandleFault, Enough, EnoughForProxy;
  }

  lemma OuterKeeps(c: Config, s: State, step: Step)
    requires Enabled(c, s, step) && !Inner(step)
    ensures
      var s' := Apply(c, s, step);
      && s'.progress == s.progress && (s'.stopScheduled <==> s.stopScheduled || step.RequestStop?)
      && (s'.stopSet <==> s.stopSet || step.FireStop? || step.Finish?)
  {
    hide InnerEffect;
  }

  lemma OuterReports(c: Config, s: State, step: Step, other: int, proxy: int)
    requires !Inner(step)
    ensures Counted(c, s, step).None? && !Succeeds(c, s, step) && Names(c, s, step, other, proxy).None?
    ensures SchedulesStop(c, s, step, other, proxy) <==> step.RequestStop?
    ensures SetsStop(c, s, step, other, proxy) <==> step.FireStop? || step.Finish?
  {
    hide Enough, EnoughForProxy;
  }

  lemma OuterMoves(c: Config, s: State, step: Step)
    requires Sane(s) && Enabled(c, s, step) && !Inner(step)
    ensures Moves(c, s, step, Apply(c, s, step).progress, Apply(c, s, step).stopScheduled, Apply(c, s, step).stopSet)
  {
    OuterKeeps(c, s, step);
    OuterReports(c, s, step, s.progress.curFail, s.progress.proxyFail);
    hide Apply, Enabled, Counted, Succeeds, Names, SchedulesStop, SetsStop;
  }

  lemma InnerMoves(c: Config, s: State, step: Step)
    requires Sane(s) && Enabled(c, s, step) && Inner(step)
    ensures
      var e := InnerEffect(c, s, step);
      Moves(c, s, step, e.progress, e.stopScheduled, e.stopSet)
  {
    if FaultOf(step).Some? {
      FaultMoves(c, s, step, s.slots[step.i].token);
      hide HandleFault, Moves;
    } else {
      hide Moves, BeginEffect, DecideEffect, GateEffect, PrepareEffect, ReturnEffect;
      match step
      case Begin(i, unreachable) => BeginMoves(c, s, i, unreachable);
      case Decide(i) => DecideMoves(c, s, i);
      case Gate(i, gate) => GateMoves(c, s, i, s.slots[i].token, gate);
      case Prepare(i, prepared) => PrepareMoves(c, s, i, s.slots[i].token, prepared);
      case Return(i, outcome) => ReturnMoves(c, s, i, s.slots[i].token, outcome);
    }
  }

  lemma StepMoves(c: Config, s: State, step: Step)
    requires Sane(s) && Enabled(c, s, step)
    ensures Moves(c, s, step, Apply(c, s, step).progress, Apply(c, s, step).stopScheduled, Apply(c, s, step).stopSet)
  {
    hide Moves, InnerEffect;
    if Inner(step) {
      InnerMoves(c, s, step);
    } else {
      OuterMoves(c, s, step);
    }
  }

  // ---- whole runs ----

  lemma {:induction false} CountsFollow(c: Config, steps: seq<Step>)
    requires Exec(c, Init(c), steps).Some?
    ensures
      var s := After(c, steps);
      && Sane(s)
      && s.progress.curFail == Streak(c, steps, OtherTrouble) && s.progress.proxyFail == Streak(c, steps, ProxyTrouble)
      && s.progress.curNum == c.initial + Successes(c, steps)
  {
    if |steps| > 0 {
      var front := steps[..|steps| - 1];
      CountsFollow(c, front);
      StepMoves(c, After(c, front), steps[|steps| - 1]);
      hide Apply, Enabled, Succeeds, Counted, SchedulesStop, SetsStop, Names;
    }
  }

  /** Over every run: the failure counts are the numbers of counted faults since the last counted success, and the
      success count is the initial one and the counted successes. */
  lemma CountsAreHistory(c: Config, steps: seq<Step>, s: State)
    requires Exec(c, Init(c), steps) == Some(s)
    ensures s.progress.curFail == Streak(c, steps, OtherTrouble)
    ensures s.progress.proxyFail == Streak(c, steps, ProxyTrouble)
    ensures s.progress.curNum == c.initial + Successes(c, steps)
  {
    CountsFollow(c, steps);
  }

  /** Step k of the run schedules the stop. */
  ghost predicate ScheduledAt(c: Config, steps: seq<Step>, k: nat)
    requires k < |steps|
  {
    && Exec(c, Init(c), steps[..k]).Some?
    && SchedulesStop(c, After(c, steps[..k]), steps[k], Streak(c, steps[..k], OtherTrouble), Streak(c, steps[..k], ProxyTrouble))
  }

  /** Step k of the run sets the stop event. */
  ghost predicate SetAt(c: Config, steps: seq<Step>, k: nat)
    requires k < |steps|
  {
    && Exec(c, Init(c), steps[..k]).Some?
    && SetsStop(c, After(c, steps[..k]), steps[k], Streak(c, steps[..k], OtherTrouble), Streak(c, steps[..k], ProxyTrouble))
  }

  lemma AtFront(c: Config, steps: seq<Step>, k: nat)
    requires k < |steps| - 1
    ensures ScheduledAt(c, steps[..|steps| - 1], k) <==> ScheduledAt(c, steps, k)
    ensures SetAt(c, steps[..|steps| - 1], k) <==> SetAt(c, steps, k)
  {
    assert steps[..|steps| - 1][..k] == steps[..k];
    hide Exec, SchedulesStop, SetsStop, Streak;
  }

  lemma StopFlagsMove(c: Config, steps: seq<Step>)
    requires |steps| > 0 && Exec(c, Init(c), steps).Some?
    ensures
      var k := |steps| - 1;
      && Exec(c, Init(c), steps[..k]).Some?
      && (After(c, steps).stopScheduled <==> After(c, steps[..k]).stopScheduled || ScheduledAt(c, steps, k))
      && (After(c, steps).stopSet <==> After(c, steps[..k]).stopSet || SetAt(c, steps, k))
  {
    var front := steps[..|steps| - 1];
    CountsFollow(c, front);
    StepMoves(c, After(c, front), steps[|steps| - 1]);
    hide Apply, Enabled, Succeeds, Counted, SchedulesStop, SetsStop, Names, Streak;
  }

  ghost predicate EverScheduled(c: Config, steps: seq<Step>) {
    exists k: nat :: k < |steps| && ScheduledAt(c, steps, k)
  }

  ghost predicate EverSet(c: Config, steps: seq<Step>) {
    exists k: nat :: k < |steps| && SetAt(c, steps, k)
  }

  lemma ScheduledGrows(c: Config, steps: seq<Step>)
    requires |steps| > 0
    ensures EverScheduled(c, steps) <==> EverScheduled(c, steps[..|steps| - 1]) || ScheduledAt(c, steps, |steps| - 1)
  {
    hide ScheduledAt;
    var front := steps[..|steps| - 1];
    if k: nat :| k < |front| && ScheduledAt(c, front, k) {
      AtFront(c, steps, k);
    }
    if k: nat :| k < |steps| && ScheduledAt(c, steps, k) && k != |steps| - 1 {
      AtFront(c, steps, k);
    }
  }

  lemma SetGrows(c: Config, steps: seq<Step>)
    requires |steps| > 0
    ensures EverSet(c, steps) <==> EverSet(c, steps[..|steps| - 1]) || SetAt(c, steps, |steps| - 1)
  {
    hide SetAt;
    var front := steps[..|steps| - 1];
    if k: nat :| k < |front| && SetAt(c, front, k) {
      AtFront(c, steps, k);
    }
    if k: nat :| k < |steps| && SetAt(c, steps, k) && k != |steps| - 1 {
      AtFront(c, steps, k);
    }
  }

  /** Over every run: the stop is scheduled exactly when some step gave cause for it, and the stop event is set
      exactly when some step set it. The causes are read from the step and the streaks before it. */
  lemma {:induction false} StopsHaveCauses(c: Config, steps: seq<Step>, s: State)
    requires Exec(c, Init(c), steps) == Some(s)
    ensures s.stopScheduled <==> EverScheduled(c, steps)
    ensures s.stopSet <==> EverSet(c, steps)
  {
    if |steps| > 0 {
      var n := |steps| - 1;
      StopFlagsMove(c, steps);
      StopsHaveCauses(c, steps[..n], After(c, steps[..n]));
      ScheduledGrows(c, steps);
      SetGrows(c, steps);
      hide Exec, ScheduledAt, SetAt, EverScheduled, EverSet;
    }
  }

  /** The reason given first. */
  function FirstNamed(c: Config, steps: seq<Step>): Option<string>
    requires Exec(c, Init(c), steps).Some?
  {
    if |steps| == 0 then None
    else
      var front := steps[..|steps| - 1];
      if FirstNamed(c, front).Some? then FirstNamed(c, front)
      else Names(c, After(c, front), steps[|steps| - 1], Streak(c, front, OtherTrouble), Streak(c, front, ProxyTrouble))
  }

  /** Over every run: the reason kept for its end is the first one a step gave. */
  lemma {:induction false} FirstReasonIsKept(c: Config, steps: seq<Step>, s: State)
    requires Exec(c, Init(c), steps) == Some(s)
    ensures s.progress.terminal == FirstNamed(c, steps)
  {
    if |steps| > 0 {
      var front := steps[..|steps| - 1];
      FirstReasonIsKept(c, front, After(c, front));
      CountsFollow(c, front);
      StepMoves(c, After(c, front), steps[|steps| - 1]);
      hide Apply, Enabled, Succeeds, Counted, SchedulesStop, SetsStop, Names, Streak;
    }
  }

  /** Unexpected faults since the last counted success, before the stop event. */
  function UnexpectedStreak(c: Config, steps: seq<Step>): nat
    requires Exec(c, Init(c), steps).Some?
  {
    if |steps| == 0 then 0
    else
      var front, last := steps[..|steps| - 1], steps[|steps| - 1];
      if Succeeds(c, After(c, front), last) then 0
      else UnexpectedStreak(c, front) + Is(Ends(last, Unexpected) && !After(c, front).stopSet)
  }

  /** With stopping on failure, as many unexpected faults as the threshold in force, without a counted success in
      between, have the stop scheduled. */
  lemma {:induction false} UnexpectedFaultsStop(c: Config, steps: seq<Step>, s: State)
    requires Exec(c, Init(c), steps) == Some(s) && c.policy.stopOnFail
    ensures UnexpectedStreak(c, steps) <= Streak(c, steps, OtherTrouble)
    ensures Enough(c, UnexpectedStreak(c, steps)) ==> s.stopScheduled
  {
    if |steps| > 0 {
      var n := |steps| - 1;
      UnexpectedFaultsStop(c, steps[..n], After(c, steps[..n]));
      StopFlagsMove(c, steps);
      hide Apply, Enabled, Exec;
    }
  }

  // ---- how a round ends ----

  /** A step of a round after which the slot leaves its loop. */
  predicate Leaves(c: Config, s: State, step: Step, other: int, proxy: int) {
    if FaultOf(step).Some? then
      FailureEnds(c, s, step, other, proxy) || GivesUp(step) || (Ends(step, Unexpected) && s.stopSet)
    else
      match step
      case Gate(_, _) => s.stopSet || SeesTarget(c, s, step) || RunsOut(c, s, step)
      case Prepare(_, prepared) => s.stopSet && !prepared.TimedOut?
      case Return(_, _) => s.stopSet || MeetsTarget(c, s, step)
      case _ => false
  }

  /** How long the token rests when the slot goes round. */
  function Rest(step: Step): real {
    match step
    case Prepare(_, TimedOut) => 0.2
    case Prepare(_, SampleLost) => 0.2
    case Return(_, Finished(delay)) => delay
    case _ => 0.0
  }

  /** How a step of a round leaves its slot, after the given failures in a row. */
  ghost predicate EndsAs(c: Config, s: State, step: Step, other: int, proxy: int, token: int, slot: Slot, stopSet: bool) {
    var leaves := Leaves(c, s, step, other, proxy);
    match slot
    case Releasing(t, requeue, delay, leaving) =>
      t == token && leaving == leaves && requeue == (!leaves && !stopSet) && (!leaves ==> delay == Rest(step))
    case Gated(t) => t == token && step.Gate? && step.gate.Wait? && !leaves
    case Preparing(t) => t == token && step.Gate? && step.gate.Admit? && !leaves
    case Submitting(t) => t == token && step.Prepare? && step.prepared.Ready? && !leaves
    case _ => false
  }

  lemma GateEnds(c: Config, s: State, i: nat, token: int, gate: GateOutcome, other: int, proxy: int)
    requires !gate.GateFault?
    ensures
      var e := GateEffect(c, s, token, gate);
      EndsAs(c, s, Gate(i, gate), other, proxy, token, e.slot, e.stopSet)
  {
    hide HandleFault, FailureEnds, MarkTerminal, TriggerTarget;
  }

  lemma PrepareEnds(c: Config, s: State, i: nat, token: int, prepared: PrepareOutcome, other: int, proxy: int)
    requires !prepared.PrepareFault?
    ensures
      var e := PrepareEffect(c, s, token, prepared);
      EndsAs(c, s, Prepare(i, prepared), other, proxy, token, e.slot, e.stopSet)
  {
    hide HandleFault, FailureEnds;
  }

  lemma ReturnEnds(c: Config, s: State, i: nat, token: int, outcome: SubmitOutcome, other: int, proxy: int)
    requires !outcome.SubmitFault?
    ensures
      var e := ReturnEffect(c, s, token, outcome);
      EndsAs(c, s, Return(i, outcome), other, proxy, token, e.slot, e.stopSet)
  {
    hide HandleFault, FailureEnds, AfterSuccess;
  }

  lemma FaultEnds(c: Config, s: State, step: Step, token: int)
    requires Sane(s) && FaultOf(step).Some?
    ensures
      var e := HandleFault(c, s, token, FaultOf(step).value.0, FaultOf(step).value.1);
      EndsAs(c, s, step, s.progress.curFail, s.progress.proxyFail, token, e.slot, e.stopSet)
  {
    FaultMoves(c, s, step, token);
    hide HandleFault, FailureEnds, GivesUp, Moves;
  }

  lemma EffectEnds(c: Config, s: State, step: Step)
    requires Sane(s) && Enabled(c, s, step) && (step.Gate? || step.Prepare? || step.Return?)
    ensures
      var e := InnerEffect(c, s, step);
      EndsAs(c, s, step, s.progress.curFail, s.progress.proxyFail, s.slots[step.i].token, e.slot, e.stopSet)
  {
    var other, proxy, token := s.progress.curFail, s.progress.proxyFail, s.slots[step.i].token;
    if FaultOf(step).Some? {
      FaultEnds(c, s, step, token);
      hide HandleFault, EndsAs;
    } else {
      hide EndsAs, GateEffect, PrepareEffect, ReturnEffect;
      match step
      case Gate(i, gate) => GateEnds(c, s, i, token, gate, other, proxy);
      case Prepare(i, prepared) => PrepareEnds(c, s, i, token, prepared, other, proxy);
      case Return(i, outcome) => ReturnEnds(c, s, i, token, outcome, other, proxy);
    }
  }

  /** Over every run, a step of a round keeps the token in hand: the round goes on, or the slot gives the token back. It
      leaves its loop for the reasons above and no other, and the token is requeued, after its rest, exactly when the slot
      stays and the stop event is not set. */
  lemma RoundEnds(c: Config, steps: seq<Step>, s: State, step: Step)
    requires Exec(c, Init(c), steps) == Some(s) && Enabled(c, s, step)
    requires step.Gate? || step.Prepare? || step.Return?
    ensures
      var s' := Apply(c, s, step);
      EndsAs(c, s, step, Streak(c, steps, OtherTrouble), Streak(c, steps, ProxyTrouble),
             s.slots[step.i].token, s'.slots[step.i], s'.stopSet)
  {
    CountsFollow(c, steps);
    hide Exec, Streak, EndsAs, InnerEffect;
    EffectEnds(c, s, step);
  }

  /** Where the steps outside a round leave their slot: a run that cannot be played ends its slots at once; the check at
      the loop head ends a slot exactly when it sees the stop or the target; a token is taken in order of the queue. */
  lemma LoopHeads(c: Config, s: State, step: Step)
    requires Enabled(c, s, step)
    ensures
      var s' := Apply(c, s, step);
      match step
      case Begin(i, _) => s'.slots[i] == if c.blocked then Ended else Deciding
      case Decide(i) => s'.slots[i] == if s.stopSet || SeesTarget(c, s, step) then Ended else Acquiring
      case TakeToken(i) =>
        s'.slots[i] == if s.queue.closed then Ended else Gated(s.queue.ready[0])
      case GiveBack(i) => s'.slots[i] == if s.slots[i].leaving then Ended else Deciding
      case _ => true
  {
    hide HandleFault, FailureStops, AfterFailure;
  }
}
