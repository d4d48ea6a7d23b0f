/** When a run stops: counting successes against the target and failures against thresholds. */
module StopPolicy {
  import opened Wrappers

  datatype PolicyConfig = PolicyConfig(
    targetNum: int, failThreshold: int, numThreads: int, stopOnFail: bool, randomProxy: bool)

  datatype Reason = ProxyUnavailable | DeviceQuotaLimit | OtherFailure

  /** The counters of the shared execution state, with the category of the first terminal stop. */
  datatype Progress = Progress(
    curNum: int, curFail: int, proxyFail: int, quotaFail: int,
    targetTriggered: bool, terminal: Option<string>)

  function Max(x: int, y: int): int {
    if x < y then y else x
  }

  function FailureThreshold(c: PolicyConfig): (t: int)
    ensures t >= 1
  {
    var base := Max(1, c.failThreshold);
    var threads := Max(1, c.numThreads);
    if threads > 10 then Max(base, (threads + 1) / 2) else base
  }

  function ProxyUnavailableThreshold(c: PolicyConfig): (t: int)
    ensures t >= FailureThreshold(c)
  {
    if c.randomProxy then Max(FailureThreshold(c), c.numThreads) else FailureThreshold(c)
  }

  /** An override of zero counts as none; a negative one is lifted to one. */
  function StopThreshold(c: PolicyConfig, override: Option<int>): (t: int)
    ensures t >= 1
  {
    if override.Some? && override.value != 0 then Max(1, override.value) else FailureThreshold(c)
  }

  /** The first terminal stop is kept. */
  function MarkTerminal(p: Progress, category: string): Progress {
    if p.terminal.Some? then p else p.(terminal := Some(category))
  }

  function CountFailure(p: Progress, reason: Reason): Progress {
    match reason
    case ProxyUnavailable => p.(proxyFail := Max(0, p.proxyFail) + 1)
    case DeviceQuotaLimit => p.(curFail := p.curFail + 1, quotaFail := Max(0, p.quotaFail) + 1)
    case OtherFailure => p.(curFail := p.curFail + 1)
  }

  /** The consecutive-failure count a reason is judged by. */
  function Consecutive(p: Progress, reason: Reason): int {
    if reason.ProxyUnavailable? then p.proxyFail else p.curFail
  }

  datatype FailureCall = FailureCall(reason: Reason, override: Option<int>, category: string, force: bool)

  /** The verdict on a failure; `unreachable` says that the reverse-fill samples cannot reach the target any more. */
  function FailureStops(c: PolicyConfig, p: Progress, call: FailureCall, unreachable: bool): bool {
    || unreachable
    || ((c.stopOnFail || call.force)
        && Consecutive(CountFailure(p, call.reason), call.reason) >= StopThreshold(c, call.override))
  }

  function AfterFailure(c: PolicyConfig, p: Progress, call: FailureCall, unreachable: bool): Progress {
    var counted := CountFailure(p, call.reason);
    if unreachable then MarkTerminal(counted, "reverse_fill_exhausted")
    else if FailureStops(c, p, call, unreachable) then MarkTerminal(counted, call.category)
    else counted
  }

  predicate RoomLeft(c: PolicyConfig, p: Progress) {
    c.targetNum <= 0 || p.curNum < c.targetNum
  }

  function TriggerTarget(p: Progress): Progress {
    if p.targetTriggered then p else MarkTerminal(p.(targetTriggered := true), "target_reached")
  }

  predicate TargetReached(c: PolicyConfig, p: Progress) {
    c.targetNum > 0 && p.curNum >= c.targetNum
  }

  function AfterSuccess(c: PolicyConfig, p: Progress): Progress {
    if RoomLeft(c, p) then
      var counted := p.(curNum := p.curNum + 1, curFail := 0, proxyFail := 0);
      if TargetReached(c, counted) then TriggerTarget(counted) else counted
    else p
  }

  function SuccessStops(c: PolicyConfig, p: Progress): bool {
    !RoomLeft(c, p) || TargetReached(c, p.(curNum := p.curNum + 1))
  }

  /** The policy object over the shared counters; `signalled` says that the stop signal was set. */
  class RunStopPolicy {
    const config: PolicyConfig
    var curNum: int
    var curFail: int
    var proxyFail: int
    var quotaFail: int
    var targetTriggered: bool
    var terminal: Option<string>
    var signalled: bool

    function View(): Progress
      reads this
    {
      Progress(curNum, curFail, proxyFail, quotaFail, targetTriggered, terminal)
    }

    constructor (config: PolicyConfig, curNum: int)
      ensures this.config == config && View() == Progress(curNum, 0, 0, 0, false, None) && !signalled
    {
      this.config := config;
      this.curNum := curNum;
      curFail, proxyFail, quotaFail, targetTriggered, terminal, signalled := 0, 0, 0, false, None, false;
    }

    method MarkTerminalStop(category: string)
      modifies this`terminal
      ensures View() == MarkTerminal(old(View()), category)
    {
      if terminal.None? {
        terminal := Some(category);
      }
    }

    method RecordFailure(call: FailureCall, unreachable: bool) returns (stopped: bool)
      modifies this
      ensures View() == AfterFailure(config, old(View()), call, unreachable)
      ensures stopped == FailureStops(config, old(View()), call, unreachable)
      ensures signalled == (old(signalled) || stopped)
    {
      var threshold := StopThreshold(config, call.override);
      var consecutive;
      if call.reason.ProxyUnavailable? {
        proxyFail := Max(0, proxyFail) + 1;
        consecutive := proxyFail;
      } else {
        curFail := curFail + 1;
        consecutive := curFail;
      }
      if call.reason.DeviceQuotaLimit? {
        quotaFail := Max(0, quotaFail) + 1;
      }
      if unreachable {
        MarkTerminalStop("reverse_fill_exhausted");
        signalled := true;
        return true;
      }
      if (config.stopOnFail || call.force) && consecutive >= threshold {
        MarkTerminalStop(call.category);
        signalled := true;
        return true;
      }
      return false;
    }

    method TriggerTargetReachedStop()
      modifies this
      ensures View() == TriggerTarget(old(View())) && signalled
    {
      if targetTriggered {
        signalled := true;
        return;
      }
      targetTriggered := true;
      MarkTerminalStop("target_reached");
      signalled := true;
    }

    method RecordSuccess() returns (shouldStop: bool)
      modifies this
      ensures View() == AfterSuccess(config, old(View()))
      ensures shouldStop == SuccessStops(config, old(View()))
      ensures signalled == (old(signalled) || shouldStop)
    {
      var triggerTargetStop, shouldBreak := false, false;
      if config.targetNum <= 0 || curNum < config.targetNum {
        curNum := curNum + 1;
        curFail := 0;
        proxyFail := 0;
        if config.targetNum > 0 && curNum >= config.targetNum {
          triggerTargetStop := true;
        }
      } else {
        shouldBreak := true;
      }
      if shouldBreak {
        signalled := true;
      }
      if triggerTargetStop {
        TriggerTargetReachedStop();
      }
      return shouldBreak || triggerTargetStop;
    }
  }

  // ---- the laws of the policy ----

  /** Counting a success never passes a positive target, and asks to stop exactly when the target is met. */
  lemma SuccessRespectsTarget(c: PolicyConfig, p: Progress)
    ensures c.targetNum > 0 && p.curNum <= c.targetNum ==> AfterSuccess(c, p).curNum <= c.targetNum
    ensures SuccessStops(c, p) <==> TargetReached(c, AfterSuccess(c, p))
    ensures AfterSuccess(c, p).curNum == p.curNum + if RoomLeft(c, p) then 1 else 0
  {
  }

  /** `n` failures in a row of one kind, none of them stopping the run by other means. */
  function AfterFailures(c: PolicyConfig, p: Progress, call: FailureCall, n: nat): Progress {
    if n == 0 then p else AfterFailure(c, AfterFailures(c, p, call, n - 1), call, false)
  }

  /** n failures reach the threshold in force: an override other than zero, or else the configured threshold and, for
      more than ten threads, half of their number. */
  predicate ReachesThreshold(c: PolicyConfig, override: Option<int>, n: int) {
    if override.Some? && override.value != 0 then n >= override.value
    else n >= c.failThreshold && (c.numThreads > 10 ==> 2 * n >= c.numThreads)
  }

  /** Consecutive failures stop the run at the threshold: the n-th failure in a row after a reset asks
      to stop exactly when thresholds are enabled and n has reached the one in force. */
  lemma {:induction false} StopsAtThreshold(c: PolicyConfig, p: Progress, call: FailureCall, n: nat)
    requires p.curFail == 0 && p.proxyFail == 0
    ensures Consecutive(AfterFailures(c, p, call, n), call.reason) == n
    ensures FailureStops(c, AfterFailures(c, p, call, n), call, false)
      <==> (c.stopOnFail || call.force) && ReachesThreshold(c, call.override, n + 1)
  {
    if n > 0 {
      StopsAtThreshold(c, p, call, n - 1);
    }
  }
}
