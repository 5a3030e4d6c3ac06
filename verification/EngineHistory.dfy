/**
 What the threshold engine remembers of a VM, told from the outside: a history
 lists every evaluation of the VM with the decision taken and whether the
 controller applied it. The observers below read that list only, never the
 engine's state; the theorems say that the engine's state and decisions are
 exactly what the observers say, over every history.
 */
module EngineHistory {
  import opened Common
  import opened Threshold
  import opened Sizing

  datatype Entry =
    | Evaluated(obs: Observation, action: ScaleAction, appliedAt: Option<nat>)
    | Rediscovered
  {
    predicate Applied() {
      Evaluated? && appliedAt.Some?
    }

    predicate AppliedUp() {
      Applied() && action.Up?
    }

    predicate AppliedDown() {
      Applied() && action.Down?
    }

    predicate AppliedScale() {
      AppliedUp() || AppliedDown()
    }
  }

  function Front(h: seq<Entry>): seq<Entry>
    requires 0 < |h|
  {
    h[..|h| - 1]
  }

  function Last(h: seq<Entry>): Entry
    requires 0 < |h|
  {
    h[|h| - 1]
  }

  /** The engine's record after a history; only applied `Up` and `Down` change it on feedback. */
  function StateAfter(cfg: ValidConfig, h: seq<Entry>): VmState {
    if |h| == 0 || Last(h).Rediscovered? then FRESH
    else StateAfterEntry(cfg, StateAfter(cfg, Front(h)), Last(h))
  }

  function StateAfterEntry(cfg: ValidConfig, s: VmState, e: Entry): VmState
    requires e.Evaluated?
  {
    var evaluated := Evaluate(cfg, s, e.obs).state;
    match e.appliedAt
    case None => evaluated
    case Some(at) => OnApplied(cfg, evaluated, Success(e.action, e.obs.threadCount, e.obs.ioCount, at))
  }

  /** Every decision in the history is the engine's, and only decisions are applied. */
  ghost predicate Consistent(cfg: ValidConfig, h: seq<Entry>) {
    |h| == 0
    || (&& Consistent(cfg, Front(h))
        && (Last(h).Evaluated? ==>
              && Last(h).action == Evaluate(cfg, StateAfter(cfg, Front(h)), Last(h).obs).action
              && (Last(h).appliedAt.Some? ==> Last(h).action != NoAction)))
  }

  // ---------------------------------------------------------------- observers

  /** The last applied `Up` or `Down`, if the VM was not rediscovered since. */
  function LastScale(h: seq<Entry>): Option<Entry> {
    if |h| == 0 || Last(h).Rediscovered? then None
    else if Last(h).AppliedScale() then Some(Last(h))
    else LastScale(Front(h))
  }

  /** Evaluations since that action. */
  function SinceScale(h: seq<Entry>): nat {
    if |h| == 0 || Last(h).Rediscovered? || Last(h).AppliedScale() then 0
    else SinceScale(Front(h)) + 1
  }

  /** The configuration has such an action checked. */
  predicate Checked(cfg: Config, action: ScaleAction) {
    match action
    case Up(_) => 0.0 < cfg.scaleUpMinGain
    case Down(_) => 0.0 < cfg.scaleDownRevertDrop
    case _ => false
  }

  /** Evaluations for which an action that leads to `target` workers is watched. */
  function ValidationLength(cfg: Config, target: nat): nat {
    Min(cfg.polls.validationDelay + cfg.polls.validationDelayPerThread * target, U32_MAX)
  }

  /** An applied action is still being validated. */
  predicate UnderValidation(cfg: ValidConfig, h: seq<Entry>) {
    var last := LastScale(h);
    && last.Some?
    && last.value.Evaluated?
    && Checked(cfg, last.value.action)
    && SinceScale(h) <= ValidationLength(cfg, last.value.action.count)
  }

  /** The next evaluation compares the last action with its baseline. */
  predicate SettlesNext(cfg: ValidConfig, h: seq<Entry>) {
    UnderValidation(cfg, h) && SinceScale(h) == ValidationLength(cfg, LastScale(h).value.action.count)
  }

  /** How many scale-ups in a row validation has undone; a kept one, or a scale-down, ends the row. */
  function RevertedUps(cfg: ValidConfig, h: seq<Entry>): nat {
    if |h| == 0 || Last(h).Rediscovered? || Last(h).AppliedDown() then 0
    else if SettlesNext(cfg, Front(h)) && LastScale(Front(h)).value.action.Up? then
      if Last(h).action.Revert? then RevertedUps(cfg, Front(h)) + 1 else 0
    else RevertedUps(cfg, Front(h))
  }

  /** The same row of scale-downs. */
  function RevertedDowns(cfg: ValidConfig, h: seq<Entry>): nat {
    if |h| == 0 || Last(h).Rediscovered? || Last(h).AppliedUp() then 0
    else if SettlesNext(cfg, Front(h)) && LastScale(Front(h)).value.action.Down? then
      if Last(h).action.Revert? then RevertedDowns(cfg, Front(h)) + 1 else 0
    else RevertedDowns(cfg, Front(h))
  }

  /** Length of the current run of evaluations, outside validation, in which a smaller pool was enough. */
  function LowRun(cfg: ValidConfig, h: seq<Entry>): nat {
    if |h| == 0 || Last(h).Rediscovered? || Last(h).AppliedScale() || UnderValidation(cfg, Front(h)) then 0
    else if CanShrink(cfg, Last(h).obs) then LowRun(cfg, Front(h)) + 1
    else 0
  }

  /** What the backoff is meant to be, in unbounded integers. */
  function ExactBackoff(base: nat, doublings: nat, max: nat): nat {
    if max == 0 then base else Min(base * Pow2(doublings), Max(max, base))
  }

  /** Evaluations for which the `k`-th consecutive failed scale-up blocks scale-up. */
  function HoldLength(cfg: Config, k: nat): nat {
    ExactBackoff(Sat32(cfg.polls.upGrace + cfg.polls.upRecovery), SatSub(k, 1), cfg.polls.upBackoffMax)
  }

  /** Evidence for the next `Down` after `k` reverted ones, in unbounded arithmetic. */
  function SustainLength(cfg: Config, k: nat): nat {
    ExactBackoff(cfg.polls.scaleDownSustain, k, cfg.polls.downBackoffMax)
  }

  /** The entry reverts a scale-up. */
  predicate RevertsUp(h: seq<Entry>)
    requires 0 < |h|
  {
    && Last(h).Evaluated?
    && Last(h).action.Revert?
    && LastScale(Front(h)).Some?
    && LastScale(Front(h)).value.AppliedUp()
  }

  /** Evaluations for which scale-up is still held. */
  function HoldLeft(cfg: ValidConfig, h: seq<Entry>): nat {
    if |h| == 0 || Last(h).Rediscovered? || Last(h).AppliedDown() then 0
    else if RevertsUp(h) then HoldLength(cfg, RevertedUps(cfg, h))
    else SatSub(HoldLeft(cfg, Front(h)), 1)
  }

  // ---------------------------------------------------------------- saturating arithmetic loses nothing

  lemma Pow2Word(d: nat)
    ensures d < 32 ==> Pow2(d) <= U32_MAX
    ensures 32 <= d ==> Pow2(d) > U32_MAX
  {
    assert Pow2(8) == 0x100;
    assert Pow2(16) == 0x1_0000;
    assert Pow2(24) == 0x100_0000;
    assert Pow2(32) == 0x1_0000_0000;
    if d < 32 {
      Pow2Monotone(d, 31);
    } else {
      Pow2Monotone(32, d);
    }
  }

  /** Saturating both factors and the product is invisible below a `u32` cap. */
  lemma SaturatedProduct(base: u32, p: nat, q: nat, cap: u32)
    requires p == q || (p > U32_MAX && q > U32_MAX)
    ensures Min(Sat32(base * Sat32(p)), cap) == Min(base * q, cap)
  {
    if base != 0 && p > U32_MAX {
      ProductAtLeast(q, base);
    }
  }

  lemma BackoffExact(base: u32, d: u32, k: nat, max: u32)
    requires d == k || (32 <= d && 32 <= k)
    ensures BackoffPolls(base, d, max) == ExactBackoff(base, k, max)
  {
    if d != k {
      Pow2Word(d);
      Pow2Word(k);
    }
    SaturatedProduct(base, Pow2(d), Pow2(k), Max(max, base));
  }

  lemma GraceExact(cfg: Config, k: nat)
    requires 1 <= k
    ensures UpGracePolls(cfg, Sat32(k)) + cfg.polls.upRecovery == HoldLength(cfg, k) <= U32_MAX
  {
    var base := Sat32(cfg.polls.upGrace + cfg.polls.upRecovery);
    BackoffExact(base, SatSub(Sat32(k), 1), SatSub(k, 1), cfg.polls.upBackoffMax);
    Pow2Monotone(0, k - 1);
    ProductAtLeast(base, Pow2(k - 1));
  }

  lemma SustainExact(cfg: Config, k: nat)
    ensures SustainPolls(cfg, Sat32(k)) == SustainLength(cfg, k)
  {
    BackoffExact(cfg.polls.scaleDownSustain, Sat32(k), k, cfg.polls.downBackoffMax);
  }

  /** Saturating the product and the sum is clipping the exact sum once. */
  lemma ValidationExact(cfg: Config, target: u32)
    ensures ValidationPolls(cfg, target) == ValidationLength(cfg, target)
  {
  }

  /** The actions the engine watches are those the configuration has checked. */
  lemma CheckedExactly(cfg: Config, action: ScaleAction)
    ensures Validated(cfg, action) <==> Checked(cfg, action)
  {
  }

  // ---------------------------------------------------------------- measured rates

  /** Rounding half up picks a nearest integer. */
  lemma RoundDivNearest(a: nat, b: nat)
    requires 0 < b
    ensures 2 * a - b < 2 * b * RoundDiv(a, b) <= 2 * a + b
  {
    var q := RoundDiv(a, b);
    assert 2 * a + b == q * (2 * b) + (2 * a + b) % (2 * b);
    assert q * (2 * b) == 2 * b * q;
  }

  /** The quotient passes the end of a `u64` exactly when the exact figures do. */
  lemma RoundDivFits(a: nat, b: nat)
    requires 0 < b
    ensures RoundDiv(a, b) <= U64_MAX <==> 2 * a + b < 2 * b * (U64_MAX + 1)
  {
    var q := RoundDiv(a, b);
    assert 2 * a + b == q * (2 * b) + (2 * a + b) % (2 * b);
    if q <= U64_MAX {
      assert q * (2 * b) <= U64_MAX * (2 * b);
    } else {
      assert q * (2 * b) >= (U64_MAX + 1) * (2 * b);
    }
  }

  /**
   A rate is a nearest integer to operations over time, clipped where the exact
   figure passes the end of a `u64`; it is 0 over no time or without operations.
   */
  lemma RateIsNearest(start: IoSample, end: IoSample)
    ensures end.at <= start.at || end.ioCount <= start.ioCount ==> IopsRate(start, end) == 0
    ensures start.at < end.at && start.ioCount <= end.ioCount ==>
              var ops, ns := (end.ioCount - start.ioCount) * 1_000_000_000, end.at - start.at;
              if 2 * ops + ns < 2 * ns * (U64_MAX + 1)
              then 2 * ops - ns < 2 * ns * IopsRate(start, end) <= 2 * ops + ns
              else IopsRate(start, end) == U64_MAX
  {
    hide RoundDiv;
    if start.at < end.at {
      var ops, ns := SatSub(end.ioCount, start.ioCount) * 1_000_000_000, end.at - start.at;
      RoundDivNearest(ops, ns);
      RoundDivFits(ops, ns);
      NothingRounds(ns);
    }
  }

  lemma NothingRounds(b: nat)
    requires 0 < b
    ensures RoundDiv(0, b) == 0
  {
    DivUnique(b, 2 * b, 0, b);
  }

  /** What fails a checked action: too little gained, or too much lost by a pool that is busy. */
  predicate Fails(cfg: Config, action: ScaleAction, baseline: nat, observed: nat, util: real) {
    && 0 < baseline
    && match action
       case Up(_) => (observed as real - baseline as real) / baseline as real < cfg.scaleUpMinGain
       case Down(_) =>
         && util > cfg.scaleUpThreshold
         && (baseline as real - observed as real) / baseline as real > cfg.scaleDownRevertDrop
       case _ => false
  }

  lemma FractionBelow(x: real, base: real, f: real)
    requires 0.0 < base
    ensures (x - base) / base < f <==> x < base * (1.0 + f)
    ensures (base - x) / base > f <==> x < base * (1.0 - f)
  {
    QuotientAbove(base - x, base, f);
    QuotientAbove(base * f, base, (x - base) / base);
    assert base * f / base == f;
    assert base * ((x - base) / base) == x - base;
  }

  /** The comparison of a checked action is the relative gain or loss against its bound. */
  lemma RegressedExactly(cfg: Config, pending: PendingValidation, observed: nat, util: real)
    requires Checked(cfg, pending.action)
    ensures Regressed(cfg, pending, observed, util)
       <==> Fails(cfg, pending.action, pending.baselineIops, observed, util)
  {
    if 0 < pending.baselineIops {
      FractionBelow(observed as real, pending.baselineIops as real, cfg.scaleUpMinGain);
      FractionBelow(observed as real, pending.baselineIops as real, cfg.scaleDownRevertDrop);
    }
  }

  /** Without a measured baseline an action is always kept, and more observed IOPS never turns keeping into reverting. */
  lemma RegressionMonotone(cfg: Config, pending: PendingValidation, less: nat, more: nat, util: real)
    requires less <= more
    ensures pending.baselineIops == 0 ==> !Regressed(cfg, pending, less, util)
    ensures Regressed(cfg, pending, more, util) ==> Regressed(cfg, pending, less, util)
    ensures pending.action.Down? && cfg.Valid() && pending.baselineIops <= less ==> !Regressed(cfg, pending, less, util)
    ensures (&& pending.action.Up? && cfg.Valid() && Checked(cfg, pending.action)
             && 0 < pending.baselineIops && less <= pending.baselineIops) ==> Regressed(cfg, pending, less, util)
  {
    var base := pending.baselineIops as real;
    DropKeepsBelow(base, cfg.scaleDownRevertDrop);
    GainRaises(base, cfg.scaleUpMinGain);
  }

  lemma DropKeepsBelow(base: real, drop: real)
    requires 0.0 <= base
    ensures 0.0 <= drop ==> base * (1.0 - drop) <= base
  {
  }

  lemma GainRaises(base: real, gain: real)
    requires 0.0 <= base
    ensures 0.0 < base && 0.0 < gain ==> base < base * (1.0 + gain)
  {
  }

  // ---------------------------------------------------------------- the pending action is the last one applied

  ghost predicate ValidationMatches(cfg: ValidConfig, h: seq<Entry>) {
    var s := StateAfter(cfg, h);
    && (s.pending.Some? <==> UnderValidation(cfg, h))
    && (s.pending.Some? ==>
          var e := LastScale(h).value;
          && e.AppliedScale()
          && s.pending.value.action == e.action
          && s.pending.value.baselineThreadCount == e.obs.threadCount
          && s.pending.value.validationStart == IoSample(e.obs.ioCount, e.appliedAt.value)
          && s.pending.value.pollsRemaining == ValidationLength(cfg, e.action.count) - SinceScale(h)
          && s.hold.None?
          && s.lowUtilPolls == 0)
  }

  lemma {:induction false} LastScaleApplied(h: seq<Entry>)
    ensures LastScale(h).Some? ==> LastScale(h).value.AppliedScale()
  {
    if |h| != 0 {
      LastScaleApplied(Front(h));
    }
  }

  /** A pending validation and a hold never coexist, and a pending action is the last one applied. */
  lemma {:induction false} ValidationFollowsHistory(cfg: ValidConfig, h: seq<Entry>)
    requires Consistent(cfg, h)
    ensures ValidationMatches(cfg, h)
  {
    hide ValidationPolls, ValidationLength;
    if |h| != 0 && Last(h).Evaluated? {
      if Last(h).AppliedScale() {
        ValidationExact(cfg, Last(h).action.count);
      }
      ValidationFollowsHistory(cfg, Front(h));
      LastScaleApplied(Front(h));
    }
  }

  // ---------------------------------------------------------------- counters

  /** A settling evaluation clears the pending action and keeps it or reverts to the count before it. */
  lemma {:induction false} SettlingVerdict(cfg: ValidConfig, h: seq<Entry>)
    requires 0 < |h| && Consistent(cfg, h) && Last(h).Evaluated?
    ensures Last(h).action.Revert? ==> SettlesNext(cfg, Front(h))
    ensures SettlesNext(cfg, Front(h)) ==>
              && (Last(h).action == NoAction
                  || Last(h).action == Revert(LastScale(Front(h)).value.obs.threadCount))
              && !UnderValidation(cfg, h)
    ensures UnderValidation(cfg, Front(h)) && !SettlesNext(cfg, Front(h)) ==> Last(h).action == NoAction
  {
    ValidationFollowsHistory(cfg, Front(h));
    ValidationFollowsHistory(cfg, h);
  }

  /** One entry changes the counters only by settling or by an applied action of the other direction. */
  lemma CounterStep(cfg: ValidConfig, s: VmState, e: Entry)
    requires e.Evaluated? && e.action == Evaluate(cfg, s, e.obs).action
    requires e.AppliedScale() ==> s.pending.None?
    ensures var next := StateAfterEntry(cfg, s, e);
            var settles := s.pending.Some? && s.pending.value.pollsRemaining == 0;
            && next.failedUps ==
               (if e.AppliedDown() then 0
                else if settles && s.pending.value.action.Up? then
                  if e.action.Revert? then Sat32(s.failedUps + 1) else 0
                else s.failedUps)
            && next.failedDowns ==
               (if e.AppliedUp() then 0
                else if settles && !s.pending.value.action.Up? then
                  if e.action.Revert? then Sat32(s.failedDowns + 1) else 0
                else s.failedDowns)
  {
  }

  /** The two failure counters are counts over the history, clipped to `u32`. */
  lemma {:induction false} CountersFollowHistory(cfg: ValidConfig, h: seq<Entry>)
    requires Consistent(cfg, h)
    ensures StateAfter(cfg, h).failedUps == Sat32(RevertedUps(cfg, h))
    ensures StateAfter(cfg, h).failedDowns == Sat32(RevertedDowns(cfg, h))
  {
    if |h| != 0 && Last(h).Evaluated? {
      CountersFollowHistory(cfg, Front(h));
      ValidationFollowsHistory(cfg, Front(h));
      SettlingVerdict(cfg, h);
      CounterStep(cfg, StateAfter(cfg, Front(h)), Last(h));
    }
  }

  // ---------------------------------------------------------------- sustained evidence

  lemma LowStep(cfg: ValidConfig, s: VmState, e: Entry)
    requires e.Evaluated? && e.action == Evaluate(cfg, s, e.obs).action
    requires s.pending.Some? ==> s.lowUtilPolls == 0
    ensures StateAfterEntry(cfg, s, e).lowUtilPolls ==
            if e.AppliedScale() || s.pending.Some? || !CanShrink(cfg, e.obs) then 0
            else (s.lowUtilPolls + 1) % (U32_MAX + 1)
  {
  }

  /** The sustain counter is the run length, in the width of its `u32`. */
  lemma {:induction false} LowRunFollowsHistory(cfg: ValidConfig, h: seq<Entry>)
    requires Consistent(cfg, h)
    ensures StateAfter(cfg, h).lowUtilPolls == LowRun(cfg, h) % (U32_MAX + 1)
  {
    hide Evaluate, StateAfterEntry, CanShrink, UnderValidation;
    if |h| != 0 && Last(h).Evaluated? {
      LowRunFollowsHistory(cfg, Front(h));
      ValidationFollowsHistory(cfg, Front(h));
      LowStep(cfg, StateAfter(cfg, Front(h)), Last(h));
      WrapStep(LowRun(cfg, Front(h)));
    }
  }

  lemma WrapStep(n: nat)
    ensures (n % (U32_MAX + 1) + 1) % (U32_MAX + 1) == (n + 1) % (U32_MAX + 1)
  {
  }

  lemma DownStep(cfg: ValidConfig, s: VmState, obs: Observation)
    ensures Evaluate(cfg, s, obs).action.Down? <==>
              && s.pending.None?
              && CanShrink(cfg, obs)
              && (s.lowUtilPolls + 1) % (U32_MAX + 1) >= SustainPolls(cfg, s.failedDowns)
    ensures Evaluate(cfg, s, obs).action.Down? ==>
              Evaluate(cfg, s, obs).action.count == ScaleDownTarget(cfg, obs.util, obs.threadCount, obs.minThreads)
  {
    if Saturated(cfg, obs) {
      SaturatedCannotShrink(cfg, obs);
    }
  }

  /**
   Scale-down is decided exactly when no action is under validation, a smaller
   pool is enough, and the run of such evaluations has reached the sustain
   length for the scale-downs reverted so far.
   */
  lemma DownExactly(cfg: ValidConfig, h: seq<Entry>)
    requires 0 < |h| && Consistent(cfg, h) && Last(h).Evaluated?
    ensures Last(h).action.Down? <==>
              && !UnderValidation(cfg, Front(h))
              && CanShrink(cfg, Last(h).obs)
              && (LowRun(cfg, Front(h)) + 1) % (U32_MAX + 1) >= SustainLength(cfg, RevertedDowns(cfg, Front(h)))
    ensures Last(h).action.Down? ==>
              var obs := Last(h).obs;
              Last(h).action.count == ScaleDownTarget(cfg, obs.util, obs.threadCount, obs.minThreads)
  {
    hide Evaluate, CanShrink, UnderValidation, SustainPolls, SustainLength, LowRun, StateAfterEntry;
    ValidationFollowsHistory(cfg, Front(h));
    CountersFollowHistory(cfg, Front(h));
    LowRunFollowsHistory(cfg, Front(h));
    SustainExact(cfg, RevertedDowns(cfg, Front(h)));
    WrapStep(LowRun(cfg, Front(h)));
    DownStep(cfg, StateAfter(cfg, Front(h)), Last(h).obs);
  }

  // ---------------------------------------------------------------- the hold after a failed scale-up

  /** Evaluations that a hold still blocks, read off the engine's state. */
  function HoldRemaining(cfg: Config, s: VmState): nat {
    match s.hold
    case None => 0
    case Some(Grace(polls)) => polls + cfg.polls.upRecovery
    case Some(Recovery(polls, _)) => SatSub(polls, 1)
  }

  /** Every worker is busier than the threshold, the maximum is not reached, and throttling does not forbid it. */
  predicate MayGrow(cfg: Config, obs: Observation) {
    && obs.util > cfg.scaleUpThreshold
    && obs.threadCount < obs.maxThreads
    && (cfg.blockUpWhenThrottled ==> !obs.throttled)
  }

  lemma HoldStep(cfg: ValidConfig, s: VmState, e: Entry)
    requires e.Evaluated? && e.action == Evaluate(cfg, s, e.obs).action
    requires s.pending.Some? ==> s.hold.None?
    requires e.Applied() ==> e.action != NoAction
    ensures var next := StateAfterEntry(cfg, s, e);
            var failedUp := s.pending.Some? && s.pending.value.action.Up? && e.action.Revert?;
            HoldRemaining(cfg, next) ==
            if failedUp then UpGracePolls(cfg, Sat32(s.failedUps + 1)) + cfg.polls.upRecovery
            else if e.AppliedDown() then 0
            else SatSub(HoldRemaining(cfg, s), 1)
    ensures e.action.Up? ==>
              s.pending.None? && HoldRemaining(cfg, s) == 0 && e.action.count == e.obs.threadCount + 1
    ensures s.pending.None? && HoldRemaining(cfg, s) == 0 ==>
              (e.action.Up? <==> MayGrow(cfg, e.obs))
  {
  }

  lemma {:induction false} HoldFollowsHistory(cfg: ValidConfig, h: seq<Entry>)
    requires Consistent(cfg, h)
    ensures HoldRemaining(cfg, StateAfter(cfg, h)) == HoldLeft(cfg, h)
  {
    if |h| != 0 && Last(h).Evaluated? {
      HoldFollowsHistory(cfg, Front(h));
      ValidationFollowsHistory(cfg, Front(h));
      CountersFollowHistory(cfg, Front(h));
      LastScaleApplied(Front(h));
      HoldStep(cfg, StateAfter(cfg, Front(h)), Last(h));
      if RevertsUp(h) {
        SettlingVerdict(cfg, h);
        GraceExact(cfg, RevertedUps(cfg, h));
      }
    }
  }

  /** Scale-up is decided exactly when nothing validates or holds it and the pool is saturated. */
  lemma UpExactly(cfg: ValidConfig, h: seq<Entry>)
    requires 0 < |h| && Consistent(cfg, h) && Last(h).Evaluated?
    ensures Last(h).action.Up? <==>
              && !UnderValidation(cfg, Front(h))
              && HoldLeft(cfg, Front(h)) == 0
              && MayGrow(cfg, Last(h).obs)
    ensures Last(h).action.Up? ==> Last(h).action.count == Last(h).obs.threadCount + 1
  {
    ValidationFollowsHistory(cfg, Front(h));
    HoldFollowsHistory(cfg, Front(h));
    HoldStep(cfg, StateAfter(cfg, Front(h)), Last(h));
  }

  /** No scale-down is applied, and the VM stays known, in the entries from `i` on. */
  ghost predicate Undisturbed(h: seq<Entry>, i: nat) {
    forall m :: i <= m < |h| ==> h[m].Evaluated? && !h[m].AppliedDown()
  }

  /**
   The `k`-th consecutive failed scale-up, reverted by the last entry of `h`,
   blocks scale-up in each of the next `HoldLength(cfg, k)` evaluations and
   in no evaluation directly after them.
   */
  lemma HoldBlocksExactly(cfg: ValidConfig, h: seq<Entry>, tail: seq<Entry>, e: Entry)
    requires Consistent(cfg, h + tail + [e])
    requires 0 < |h| && RevertsUp(h)
    requires Undisturbed(tail, 0) && e.Evaluated?
    ensures |tail| < HoldLength(cfg, RevertedUps(cfg, h)) ==> !e.action.Up?
    ensures |tail| == HoldLength(cfg, RevertedUps(cfg, h)) ==>
              (e.action.Up? <==> MayGrow(cfg, e.obs))
  {
    var g := h + tail + [e];
    assert Front(g) == h + tail;
    UpExactly(cfg, g);
    if |tail| <= HoldLength(cfg, RevertedUps(cfg, h)) {
      HoldCountsDown(cfg, h, tail);
    }
  }

  /** During the hold nothing is applied upwards, so nothing is validated and the hold just counts down. */
  lemma {:induction false} HoldCountsDown(cfg: ValidConfig, h: seq<Entry>, tail: seq<Entry>)
    requires Consistent(cfg, h + tail)
    requires 0 < |h| && RevertsUp(h) && Undisturbed(tail, 0)
    requires |tail| <= HoldLength(cfg, RevertedUps(cfg, h))
    ensures HoldLeft(cfg, h + tail) == HoldLength(cfg, RevertedUps(cfg, h)) - |tail|
    ensures !UnderValidation(cfg, h + tail)
  {
    if |tail| == 0 {
      assert h + tail == h;
      SettlingVerdict(cfg, h);
    } else {
      var shorter := Front(tail);
      assert Front(h + tail) == h + shorter;
      assert Last(h + tail) == Last(tail);
      HoldCountsDown(cfg, h, shorter);
      UpExactly(cfg, h + tail);
      NotUnderValidationStays(cfg, h + tail);
      if RevertsUp(h + tail) {
        SettlingVerdict(cfg, h + tail);
      }
    }
  }

  lemma NotUnderValidationStays(cfg: ValidConfig, h: seq<Entry>)
    requires 0 < |h| && Last(h).Evaluated? && !Last(h).AppliedScale()
    requires !UnderValidation(cfg, Front(h))
    ensures !UnderValidation(cfg, h)
  {
  }

  // ---------------------------------------------------------------- validation of an applied action

  ghost predicate AllEvaluated(h: seq<Entry>) {
    forall m :: 0 <= m < |h| ==> h[m].Evaluated?
  }

  /** What is validated once the last entry of `h` was applied. */
  function StartedValidation(cfg: ValidConfig, h: seq<Entry>): PendingValidation
    requires 0 < |h| && Last(h).AppliedScale()
  {
    var e := Last(h);
    PendingValidation(
      e.action,
      e.obs.threadCount,
      Evaluate(cfg, StateAfter(cfg, Front(h)), e.obs).state.currentBaselineIops,
      IoSample(e.obs.ioCount, e.appliedAt.value),
      ValidationLength(cfg, e.action.count))
  }

  lemma {:induction false} StillValidating(cfg: ValidConfig, h: seq<Entry>, tail: seq<Entry>)
    requires Consistent(cfg, h + tail) && AllEvaluated(tail)
    requires 0 < |h| && Last(h).AppliedScale() && Checked(cfg, Last(h).action)
    requires |tail| <= ValidationLength(cfg, Last(h).action.count)
    ensures LastScale(h + tail) == Some(Last(h)) && SinceScale(h + tail) == |tail|
    ensures var started := StartedValidation(cfg, h);
            StateAfter(cfg, h + tail).pending
            == Some(started.(pollsRemaining := started.pollsRemaining - |tail|))
  {
    hide ValidationPolls, ValidationLength;
    ValidationExact(cfg, Last(h).action.count);
    if |tail| == 0 {
      assert h + tail == h;
    } else {
      var shorter := Front(tail);
      assert Front(h + tail) == h + shorter;
      assert Last(h + tail) == Last(tail);
      StillValidating(cfg, h, shorter);
      SettlingVerdict(cfg, h + tail);
    }
  }

  lemma NewestEntry(cfg: ValidConfig, h: seq<Entry>, e: Entry)
    requires Consistent(cfg, h + [e]) && e.Evaluated?
    ensures Consistent(cfg, h) && e.action == Evaluate(cfg, StateAfter(cfg, h), e.obs).action
  {
    hide Evaluate, StateAfter;
    assert Front(h + [e]) == h;
  }

  lemma PendingVerdict(cfg: ValidConfig, s: VmState, started: PendingValidation, left: u32, obs: Observation)
    requires s.pending == Some(started.(pollsRemaining := left))
    ensures left > 0 ==> Evaluate(cfg, s, obs).action == NoAction
    ensures left == 0 ==>
              Evaluate(cfg, s, obs).action ==
              if Regressed(cfg, started, IopsRate(started.validationStart, obs.Sample()), obs.util)
              then Revert(started.baselineThreadCount)
              else NoAction
  {
  }

  /**
   An applied checked action is followed by exactly `ValidationLength`
   evaluations that decide nothing. The next one restores the count before the
   action if and only if the action failed: from the baseline to the rate since
   it was applied it gained too little, or the busy pool lost too much.
   */
  lemma ValidationLasts(cfg: ValidConfig, h: seq<Entry>, tail: seq<Entry>, e: Entry)
    requires Consistent(cfg, h + tail + [e]) && AllEvaluated(tail) && e.Evaluated?
    requires 0 < |h| && Last(h).AppliedScale() && Checked(cfg, Last(h).action)
    ensures |tail| < ValidationLength(cfg, Last(h).action.count) ==> e.action == NoAction
    ensures |tail| == ValidationLength(cfg, Last(h).action.count) ==>
              var started := StartedValidation(cfg, h);
              e.action ==
              if Fails(cfg, Last(h).action, started.baselineIops,
                       IopsRate(started.validationStart, e.obs.Sample()), e.obs.util)
              then Revert(Last(h).obs.threadCount)
              else NoAction
  {
    hide IopsRate, Regressed, Evaluate, StateAfter, Consistent, ValidationLength, Fails, Checked;
    NewestEntry(cfg, h + tail, e);
    if |tail| <= ValidationLength(cfg, Last(h).action.count) {
      StillValidating(cfg, h, tail);
      var started := StartedValidation(cfg, h);
      PendingVerdict(cfg, StateAfter(cfg, h + tail), started, started.pollsRemaining - |tail|, e.obs);
      RegressedExactly(cfg, started, IopsRate(started.validationStart, e.obs.Sample()), e.obs.util);
    }
  }

  // ---------------------------------------------------------------- decisions that were not applied

  lemma {:induction false} NothingValidatedInTail(cfg: ValidConfig, h: seq<Entry>, tail: seq<Entry>)
    requires 0 < |h| && !UnderValidation(cfg, h) && AllEvaluated(tail)
    requires forall m :: 0 <= m < |tail| ==> !tail[m].AppliedScale()
    ensures !UnderValidation(cfg, h + tail)
  {
    if |tail| == 0 {
      assert h + tail == h;
    } else {
      assert Front(h + tail) == h + Front(tail);
      NothingValidatedInTail(cfg, h, Front(tail));
      NotUnderValidationStays(cfg, h + tail);
    }
  }

  /**
   A `Revert` that was capped, blocked or failed is not decided again: until
   another action is applied, no evaluation reverts anything.
   */
  lemma RevertNotRepeated(cfg: ValidConfig, h: seq<Entry>, tail: seq<Entry>, e: Entry)
    requires Consistent(cfg, h + tail + [e]) && Consistent(cfg, h) && AllEvaluated(tail) && e.Evaluated?
    requires 0 < |h| && Last(h).Evaluated? && Last(h).action.Revert?
    requires forall m :: 0 <= m < |tail| ==> !tail[m].AppliedScale()
    ensures !e.action.Revert?
  {
    SettlingVerdict(cfg, h);
    NothingValidatedInTail(cfg, h, tail);
    assert Front(h + tail + [e]) == h + tail;
    SettlingVerdict(cfg, h + tail + [e]);
  }

  /**
   An `Up` or `Down` that was not applied is decided again in the next
   evaluation, exactly as long as its own reason lasts.
   */
  lemma UnappliedReconsidered(cfg: ValidConfig, h: seq<Entry>, e: Entry)
    requires Consistent(cfg, h + [e]) && e.Evaluated?
    requires 0 < |h| && Last(h).Evaluated? && !Last(h).Applied()
    ensures Last(h).action.Up? ==> (e.action.Up? <==> MayGrow(cfg, e.obs))
    ensures Last(h).action.Down? && LowRun(cfg, h) < U32_MAX ==> (e.action.Down? <==> CanShrink(cfg, e.obs))
  {
    hide Evaluate, MayGrow, CanShrink, SustainLength, StateAfter, Consistent;
    hide UnderValidation, RevertedDowns, LowRun, HoldLeft;
    NewestEntry(cfg, h, e);
    assert Front(h + [e]) == h;
    UpExactly(cfg, h);
    DownExactly(cfg, h);
    UpExactly(cfg, h + [e]);
    DownExactly(cfg, h + [e]);
    if Last(h).action.Up? {
      NotUnderValidationStays(cfg, h);
      FreeOfHoldStays(cfg, h);
    } else if Last(h).action.Down? {
      NotUnderValidationStays(cfg, h);
      UnappliedKeepsFailures(cfg, h);
      LowRunGrows(cfg, h);
    }
  }

  lemma FreeOfHoldStays(cfg: ValidConfig, h: seq<Entry>)
    requires 0 < |h| && Last(h).Evaluated? && !Last(h).action.Revert? && HoldLeft(cfg, Front(h)) == 0
    ensures HoldLeft(cfg, h) == 0
  {
  }

  lemma LowRunGrows(cfg: ValidConfig, h: seq<Entry>)
    requires 0 < |h| && Last(h).Evaluated? && !Last(h).Applied()
    requires !UnderValidation(cfg, Front(h)) && CanShrink(cfg, Last(h).obs)
    ensures LowRun(cfg, h) == LowRun(cfg, Front(h)) + 1
    ensures LowRun(cfg, h) < U32_MAX ==> (LowRun(cfg, h) + 1) % (U32_MAX + 1) > LowRun(cfg, h) % (U32_MAX + 1)
  {
    hide CanShrink, UnderValidation;
  }

  lemma UnappliedKeepsFailures(cfg: ValidConfig, h: seq<Entry>)
    requires 0 < |h| && Last(h).Evaluated? && !Last(h).Applied() && !UnderValidation(cfg, Front(h))
    ensures RevertedDowns(cfg, h) == RevertedDowns(cfg, Front(h))
  {
  }

  /** No decision is open beside another: one pending action or one hold, and fresh evidence while pending. */
  lemma SingleOutstanding(cfg: ValidConfig, h: seq<Entry>)
    requires Consistent(cfg, h)
    ensures var s := StateAfter(cfg, h);
            s.pending.Some? ==>
              && s.hold.None?
              && s.lowUtilPolls == 0
              && (s.pending.value.action.Up? || s.pending.value.action.Down?)
  {
    ValidationFollowsHistory(cfg, h);
  }
}
