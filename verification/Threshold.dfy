/**
 The threshold engine as functions on values: what each operation of
 src/engines/threshold.rs computes. The classes in ThresholdEngine.dfy are
 proved against these functions, and the theorems about runs are proved
 about them.

 Times are nanoseconds since an arbitrary origin, utilisation and thresholds
 are reals, poll counts are `u32` with Rust's saturation written out.
 */
module Threshold {
  import opened Common

  // ---------------------------------------------------------------- data

  datatype ScaleAction =
    | NoAction
    | Up(count: u32)
    | Down(count: u32)
    | Revert(count: u32)

  /** The waiting times of the configuration, each in evaluations. */
  datatype Polls = Polls(
    scaleDownSustain: u32,
    validationDelay: u32,
    validationDelayPerThread: u32,
    upGrace: u32,
    upRecovery: u32,
    upBackoffMax: u32,
    downBackoffMax: u32)

  datatype Config = Config(
    scaleUpThreshold: real,
    scaleUpMinGain: real,
    scaleDownRevertDrop: real,
    maxScaleDownStep: u32,
    blockUpWhenThrottled: bool,
    polls: Polls)
  {
    /** What `ThresholdConfig::validate` accepts. */
    ghost predicate Valid() {
      && 0.0 < scaleUpThreshold <= 1.0
      && 0.0 <= scaleUpMinGain <= 1.0
      && 0.0 <= scaleDownRevertDrop <= 1.0
    }
  }

  /** A configuration accepted by `ThresholdConfig::validate`. */
  type ValidConfig = c: Config | c.Valid()
    witness Config(1.0, 0.0, 0.0, 0, true, Polls(0, 0, 0, 0, 0, 0, 0))

  datatype IoSample = IoSample(ioCount: nat, at: nat)

  datatype PendingValidation = PendingValidation(
    action: ScaleAction,
    baselineThreadCount: u32,
    baselineIops: nat,
    validationStart: IoSample,
    pollsRemaining: u32)

  /** The two phases in which no `Up` is decided: settling, then measuring from `windowStart`. */
  datatype UpHold =
    | Grace(pollsRemaining: u32)
    | Recovery(pollsRemaining: u32, windowStart: IoSample)

  /** All that the engine remembers of one VM. */
  datatype VmState = VmState(
    lowUtilPolls: nat,
    pending: Option<PendingValidation>,
    baselineWindowStart: Option<IoSample>,
    currentBaselineIops: nat,
    hold: Option<UpHold>,
    failedUps: u32,
    failedDowns: u32)

  const FRESH: VmState := VmState(0, None, None, 0, None, 0, 0)

  /** What one evaluation reads of a VM's status and of the tick context. */
  datatype Observation = Observation(
    util: real,
    threadCount: u32,
    ioCount: nat,
    throttled: bool,
    now: nat,
    minThreads: u32,
    maxThreads: u32)
  {
    function Sample(): IoSample {
      IoSample(ioCount, now)
    }
  }

  // ---------------------------------------------------------------- pure helpers

  /** The backoff as computed, saturating at every step. */
  function BackoffPolls(base: u32, doublings: u32, max: u32): u32 {
    if max == 0 then base
    else Min(Sat32(base * Sat32(Pow2(doublings))), Max(max, base))
  }

  function RoundDiv(a: nat, b: nat): nat
    requires 0 < b
  {
    (2 * a + b) / (2 * b)
  }

  /** Operations over elapsed seconds, rounded half up; 0 when no time passed. */
  function IopsRate(start: IoSample, end: IoSample): nat {
    if end.at <= start.at then 0
    else Sat64(RoundDiv(SatSub(end.ioCount, start.ioCount) * 1_000_000_000, end.at - start.at))
  }

  function Ceil(x: real): int {
    -((-x).Floor)
  }

  /** Workers' worth of CPU time the pool spends. */
  function TotalLoad(util: real, threadCount: u32): real {
    util * threadCount as real
  }

  /** Workers that carry `load` at the scale-up threshold. */
  function RequiredWorkers(threshold: real, load: real): u32
    requires 0.0 < threshold
  {
    Min(Max(Ceil(load / threshold), 1), U32_MAX)
  }

  /** The pool to shrink to when `required` workers are enough, at most `maxStep` (0: any) smaller. */
  function ShrinkTarget(maxStep: u32, required: u32, threadCount: u32, minThreads: u32): u32 {
    var target := Max(required, minThreads);
    if target >= threadCount then threadCount
    else if maxStep == 0 then target
    else Max(target, Max(SatSub(threadCount, maxStep), minThreads))
  }

  /** Where a shrink of this pool would lead; the pool itself when none is possible. */
  function ScaleDownTarget(cfg: ValidConfig, util: real, threadCount: u32, minThreads: u32): u32 {
    ShrinkTarget(cfg.maxScaleDownStep,
                 RequiredWorkers(cfg.scaleUpThreshold, TotalLoad(util, threadCount)),
                 threadCount, minThreads)
  }

  /** How many evaluations an action that leads to `target` workers is watched. */
  function ValidationPolls(cfg: Config, target: u32): u32 {
    Sat32(cfg.polls.validationDelay + Sat32(cfg.polls.validationDelayPerThread * target))
  }

  /** The part of the backed-off hold that precedes recovery. */
  function UpGracePolls(cfg: Config, failures: u32): u32 {
    SatSub(
      BackoffPolls(Sat32(cfg.polls.upGrace + cfg.polls.upRecovery), SatSub(failures, 1), cfg.polls.upBackoffMax),
      cfg.polls.upRecovery)
  }

  /** Evidence that the next `Down` takes once `failures` in a row were reverted. */
  function SustainPolls(cfg: Config, failures: u32): u32 {
    BackoffPolls(cfg.polls.scaleDownSustain, failures, cfg.polls.downBackoffMax)
  }

  /** Whether a settled action missed the performance it was validated for. */
  predicate Regressed(cfg: Config, pending: PendingValidation, observedIops: nat, util: real) {
    match pending.action
    case Up(_) =>
      && cfg.scaleUpMinGain > 0.0
      && pending.baselineIops > 0
      && (observedIops as real) < pending.baselineIops as real * (1.0 + cfg.scaleUpMinGain)
    case Down(_) =>
      && util > cfg.scaleUpThreshold
      && cfg.scaleDownRevertDrop > 0.0
      && pending.baselineIops > 0
      && (observedIops as real) < pending.baselineIops as real * (1.0 - cfg.scaleDownRevertDrop)
    case _ => false
  }

  /** The count to go back to, if the action is to be undone. */
  function RevertTarget(cfg: Config, pending: PendingValidation, observedIops: nat, util: real): Option<u32> {
    if Regressed(cfg, pending, observedIops, util) then Some(pending.baselineThreadCount) else None
  }

  predicate CanShrink(cfg: ValidConfig, obs: Observation) {
    ScaleDownTarget(cfg, obs.util, obs.threadCount, obs.minThreads) < obs.threadCount
  }

  /** The pool is below its maximum and every worker is busier than the threshold. */
  predicate Saturated(cfg: Config, obs: Observation) {
    obs.threadCount < obs.maxThreads && obs.util > cfg.scaleUpThreshold
  }

  predicate ThrottleBlocks(cfg: Config, obs: Observation) {
    cfg.blockUpWhenThrottled && obs.throttled
  }

  /** Whether an applied action of this kind is checked afterwards. */
  predicate Validated(cfg: Config, action: ScaleAction) {
    (action.Up? && cfg.scaleUpMinGain > 0.0) || (action.Down? && cfg.scaleDownRevertDrop > 0.0)
  }

  // ---------------------------------------------------------------- InstanceState operations

  function ResetBaselineWindow(s: VmState, start: IoSample): VmState {
    s.(baselineWindowStart := Some(start), currentBaselineIops := 0)
  }

  function ResetAfterApplied(s: VmState, action: ScaleAction): VmState {
    match action
    case Up(_) => s.(failedDowns := 0, lowUtilPolls := 0)
    case Down(_) => s.(hold := None, failedUps := 0, lowUtilPolls := 0)
    case _ => s
  }

  function RefreshBaselineRate(s: VmState, end: IoSample): VmState {
    match s.baselineWindowStart
    case None => s.(baselineWindowStart := Some(end), currentBaselineIops := 0)
    case Some(start) => s.(currentBaselineIops := IopsRate(start, end))
  }

  function BeginUpHold(s: VmState, grace: u32): VmState {
    s.(baselineWindowStart := None, currentBaselineIops := 0, hold := Some(Grace(grace)))
  }

  /** Advance grace and recovery by one evaluation; the flag says scale-up stays blocked. */
  function AdvanceUpHold(s: VmState, sample: IoSample, recovery: u32): (VmState, bool) {
    match s.hold
    case None => (s, false)
    case Some(Grace(polls)) =>
      if polls > 0 then (s.(hold := Some(Grace(polls - 1))), true)
      else if recovery == 0 then (ResetBaselineWindow(s.(hold := None), sample), false)
      else (s.(hold := Some(Recovery(recovery, sample))), true)
    case Some(Recovery(polls, start)) =>
      var rate := IopsRate(start, sample);
      if polls > 1 then
        (s.(currentBaselineIops := rate, hold := Some(Recovery(polls - 1, start))), true)
      else
        (s.(currentBaselineIops := rate, hold := None, baselineWindowStart := Some(start)), false)
  }

  // ---------------------------------------------------------------- evaluate and on_applied

  datatype Verdict = Verdict(state: VmState, action: ScaleAction)

  /** The evaluation that compares a settled action with its baseline. */
  function Settle(cfg: Config, s: VmState, obs: Observation): Verdict
    requires s.pending.Some?
  {
    var pending := s.pending.value;
    var observed := IopsRate(pending.validationStart, obs.Sample());
    var cleared := ResetBaselineWindow(s.(pending := None), obs.Sample());
    match RevertTarget(cfg, pending, observed, obs.util)
    case None =>
      Verdict(
        if pending.action.Up? then cleared.(failedUps := 0) else cleared.(failedDowns := 0),
        NoAction)
    case Some(target) =>
      if pending.action.Up? then
        var failures := Sat32(s.failedUps + 1);
        Verdict(BeginUpHold(cleared.(failedUps := failures), UpGracePolls(cfg, failures)), Revert(target))
      else
        Verdict(cleared.(failedDowns := Sat32(s.failedDowns + 1)), Revert(target))
  }

  /** State after the hold, the baseline rate and the low-utilisation counter moved on. */
  function Observe(cfg: ValidConfig, s: VmState, obs: Observation): (VmState, bool) {
    var (held, blocked) := AdvanceUpHold(s, obs.Sample(), cfg.polls.upRecovery);
    var rated := if blocked then held else RefreshBaselineRate(held, obs.Sample());
    var low := if CanShrink(cfg, obs) then (s.lowUtilPolls + 1) % (U32_MAX + 1) else 0;
    (rated.(lowUtilPolls := low), blocked)
  }

  /** The decision of an evaluation with no action under validation. */
  function Decide(cfg: ValidConfig, s: VmState, blocked: bool, obs: Observation): ScaleAction {
    if !blocked && Saturated(cfg, obs) then
      if ThrottleBlocks(cfg, obs) then NoAction
      else Up(Min(obs.threadCount + 1, obs.maxThreads))
    else if CanShrink(cfg, obs) && s.lowUtilPolls >= SustainPolls(cfg, s.failedDowns) then
      Down(ScaleDownTarget(cfg, obs.util, obs.threadCount, obs.minThreads))
    else NoAction
  }

  /** `ThresholdEngine::evaluate` for one VM. */
  function Evaluate(cfg: ValidConfig, s: VmState, obs: Observation): Verdict {
    match s.pending
    case Some(pending) =>
      if pending.pollsRemaining > 0 then
        Verdict(s.(pending := Some(pending.(pollsRemaining := pending.pollsRemaining - 1))), NoAction)
      else Settle(cfg, s, obs)
    case None =>
      var (next, blocked) := Observe(cfg, s, obs);
      Verdict(next, Decide(cfg, next, blocked, obs))
  }

  /** What the controller tells the engine after a decision. */
  datatype Outcome =
    | Success(action: ScaleAction, prevThreadCount: u32, prevIoCount: nat, appliedAt: nat)
    | DryRun(action: ScaleAction, prevThreadCount: u32, prevIoCount: nat, appliedAt: nat)
    | Blocked
    | Failed

  /** `ThresholdEngine::on_applied` for one known VM. */
  function OnApplied(cfg: Config, s: VmState, outcome: Outcome): VmState {
    if outcome.Blocked? || outcome.Failed? || !(outcome.action.Up? || outcome.action.Down?) then s
    else
      var applied := IoSample(outcome.prevIoCount, outcome.appliedAt);
      var reset := ResetAfterApplied(s, outcome.action);
      if Validated(cfg, outcome.action) then
        reset.(pending := Some(PendingValidation(
                                 outcome.action,
                                 outcome.prevThreadCount,
                                 reset.currentBaselineIops,
                                 applied,
                                 ValidationPolls(cfg, outcome.action.count))))
      else ResetBaselineWindow(reset, applied)
  }
}
