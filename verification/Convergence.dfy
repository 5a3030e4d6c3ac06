/** Under a constant CPU load the pool walks to one size and never past it, and how long that takes. */
module Convergence {
  import opened Common
  import opened Threshold
  import opened Sizing
  import opened EngineHistory

  /** A VM under constant load, with fixed pool bounds and configuration. */
  datatype Setting = Setting(cfg: ValidConfig, load: real, minThreads: u32, maxThreads: u32)
  {
    ghost predicate Valid() {
      cfg.scaleUpThreshold < 1.0 && 1 <= minThreads <= maxThreads
    }

    function Ideal(): u32
      requires Valid()
    {
      IdealSize(cfg.scaleUpThreshold, load, minThreads, maxThreads)
    }

    /** Actions that separate a pool of `n` workers from the ideal size. */
    function StepsLeft(n: u32): nat
      requires Valid()
    {
      if n <= Ideal() then Ideal() - n
      else if cfg.maxScaleDownStep == 0 then 1
      else (n - Ideal() + cfg.maxScaleDownStep - 1) / cfg.maxScaleDownStep
    }

    /** The evaluation sees a pool of `n` workers sharing the load. */
    ghost predicate Sees(obs: Observation, n: u32) {
      && obs.threadCount == n
      && obs.minThreads == minThreads
      && obs.maxThreads == maxThreads
      && ObservesLoad(obs, load)
    }
  }

  /** The pool after a history that started with `start` workers. */
  function PoolAfter(start: u32, h: seq<Entry>): u32 {
    if |h| == 0 then start
    else if Last(h).Applied() && Last(h).action != NoAction then Last(h).action.count
    else PoolAfter(start, Front(h))
  }

  function AppliedScales(h: seq<Entry>): nat {
    if |h| == 0 then 0
    else AppliedScales(Front(h)) + if Last(h).AppliedScale() then 1 else 0
  }

  function AppliedReverts(h: seq<Entry>): nat {
    if |h| == 0 then 0
    else AppliedReverts(Front(h)) + if Last(h).Applied() && Last(h).action.Revert? then 1 else 0
  }

  /** Every evaluation sees the pool that the applied actions left. */
  ghost predicate Tracks(p: Setting, start: u32, h: seq<Entry>) {
    |h| == 0
    || (&& Tracks(p, start, Front(h))
        && Last(h).Evaluated?
        && p.Sees(Last(h).obs, PoolAfter(start, Front(h))))
  }

  /** One decision: `Up` only below the ideal size, `Down` only above it, each strictly closer and never past it. */
  lemma DecisionApproaches(p: Setting, s: VmState, obs: Observation, n: u32)
    requires p.Valid() && p.Sees(obs, n)
    ensures var action := Evaluate(p.cfg, s, obs).action;
            && (action.Up? ==> n < action.count <= p.Ideal())
            && (action.Down? ==> p.Ideal() <= action.count < n)
            && (action.Up? || action.Down? ==> p.StepsLeft(action.count) == p.StepsLeft(n) - 1)
  {
    hide IdealSize;
    MovesTowardsIdeal(p.cfg, obs, p.load);
    var action := Evaluate(p.cfg, s, obs).action;
    if action.Down? && p.cfg.maxScaleDownStep > 0 && action.count > p.Ideal() {
      DivStep(n - p.Ideal(), p.cfg.maxScaleDownStep);
    } else if action.Down? && p.cfg.maxScaleDownStep > 0 {
      LastStep(n - p.Ideal(), p.cfg.maxScaleDownStep);
    }
  }

  /**
   The largest threshold the configuration accepts, 1.0, never grows a pool:
   below its ideal size, an unheld VM is grown if and only if the threshold is smaller.
   */
  lemma GrowsIffHeadroom(cfg: ValidConfig, s: VmState, obs: Observation, load: real)
    requires ObservesLoad(obs, load) && obs.threadCount < IdealFor(cfg, load, obs)
    requires s.pending.None? && HoldRemaining(cfg, s) == 0 && !(cfg.blockUpWhenThrottled && obs.throttled)
    ensures Evaluate(cfg, s, obs).action.Up? <==> cfg.scaleUpThreshold < 1.0
  {
    if cfg.scaleUpThreshold < 1.0 {
      MovesTowardsIdeal(cfg, obs, load);
    } else {
      NeverBusierThanAll(load, obs.threadCount);
    }
  }

  lemma NeverBusierThanAll(load: real, n: u32)
    requires 0 < n
    ensures SharedUtil(load, n) <= 1.0
  {
    QuotientAbove(load, n as real, 1.0);
  }

  lemma DivStep(d: nat, step: nat)
    requires 0 < step < d
    ensures (d - step + step - 1) / step == (d + step - 1) / step - 1
  {
    DivPlus(d - 1, step);
  }

  lemma LastStep(d: nat, step: nat)
    requires 0 < d <= step
    ensures (d + step - 1) / step == 1
  {
  }

  /** While an action is validated: the pool is what it asked for, one step beyond the count it came from. */
  ghost predicate OneStepOn(p: Setting, start: u32, h: seq<Entry>)
    requires p.Valid()
  {
    UnderValidation(p.cfg, h) ==>
      var e := LastScale(h).value;
      && !e.action.NoAction?
      && PoolAfter(start, h) == e.action.count
      && Between(start, e.obs.threadCount, p.Ideal())
      && p.StepsLeft(e.obs.threadCount) == p.StepsLeft(PoolAfter(start, h)) + 1
  }

  /**
   Over every run under constant load, under any blocked, failed or capped
   decisions and whatever validation reverts: the pool stays between where it
   started and the ideal size, each applied `Up` or `Down` uses up exactly one
   of the steps that separate them, and each applied `Revert` gives one back.
   */
  lemma {:induction false} PoolApproaches(p: Setting, start: u32, h: seq<Entry>)
    requires p.Valid()
    requires p.minThreads <= start <= p.maxThreads
    requires Consistent(p.cfg, h) && Tracks(p, start, h)
    ensures var n := PoolAfter(start, h);
            && Between(start, n, p.Ideal())
            && p.StepsLeft(n) == p.StepsLeft(start) - AppliedScales(h) + AppliedReverts(h)
    ensures OneStepOn(p, start, h)
  {
    hide IdealSize, Evaluate;
    if |h| != 0 {
      PoolApproaches(p, start, Front(h));
      DecisionApproaches(p, StateAfter(p.cfg, Front(h)), Last(h).obs, PoolAfter(start, Front(h)));
      SettlingVerdict(p.cfg, h);
      ValidationFollowsHistory(p.cfg, Front(h));
      LastScaleApplied(Front(h));
    }
  }

  // ---------------------------------------------------------------- how fast

  /** An evaluation that reverts nothing. */
  predicate Forward(e: Entry) {
    e.Evaluated? && !e.action.Revert?
  }

  /** The evaluation could have moved the pool on: its decision was not applied, or throttling kept it from growing. */
  predicate Hindered(p: Setting, h: seq<Entry>, e: Entry, n: u32)
    requires p.Valid() && e.Evaluated?
  {
    || ((e.action.Up? || e.action.Down?) && !e.Applied())
    || (n < p.Ideal() && !UnderValidation(p.cfg, h) && HoldLeft(p.cfg, h) == 0 && p.cfg.blockUpWhenThrottled && e.obs.throttled)
  }

  /** Evaluations for which an applied action decides nothing afterwards. */
  function Wait(cfg: ValidConfig, action: ScaleAction): nat
    requires !action.NoAction?
  {
    if Checked(cfg, action) then ValidationLength(cfg, action.count) + 1 else 0
  }

  /** Evaluations that the validation in progress still takes, its verdict included. */
  function WaitLeft(cfg: ValidConfig, h: seq<Entry>): nat {
    if UnderValidation(cfg, h) && !LastScale(h).value.action.NoAction?
    then SatSub(Wait(cfg, LastScale(h).value.action), SinceScale(h))
    else 0
  }

  /** The action that moves a pool of `n` workers on. */
  function Move(p: Setting, n: u32): ScaleAction
    requires p.Valid() && n != p.Ideal()
  {
    if n < p.Ideal() then Up(n + 1)
    else if p.cfg.maxScaleDownStep == 0 then Down(p.Ideal())
    else Down(Max(p.Ideal(), n - p.cfg.maxScaleDownStep))
  }

  /** Evaluations between the decision at `n` and the ideal size. */
  function Onward(p: Setting, n: u32): nat
    requires p.Valid() && n != p.Ideal()
    decreases if n < p.Ideal() then p.Ideal() - n else n - p.Ideal()
  {
    var next := Move(p, n).count;
    if next == p.Ideal() then 0
    else Wait(p.cfg, Move(p, n)) + Patience(p, next) + Onward(p, next)
  }

  /** Evaluations for the next decision at `n`, with no evidence yet and nothing in the way. */
  function Patience(p: Setting, n: u32): nat
    requires p.Valid()
  {
    if n < p.Ideal() then 1 else Max(1, p.cfg.polls.scaleDownSustain)
  }

  /** Low evaluations that a shrink after `h` still takes; a kept validation starts them anew. */
  function EvidenceLeft(cfg: ValidConfig, h: seq<Entry>): nat {
    Max(1, SustainLength(cfg, if UnderValidation(cfg, h) then 0 else RevertedDowns(cfg, h)) - LowRun(cfg, h))
  }

  /** One move, and what follows it. */
  lemma OnwardStep(p: Setting, n: u32)
    requires p.Valid() && n != p.Ideal()
    ensures Onward(p, n) ==
            var next := Move(p, n).count;
            if next == p.Ideal() then 0 else Wait(p.cfg, Move(p, n)) + Patience(p, next) + Onward(p, next)
  {
    hide IdealSize, Wait;
  }

  /** Unhindered evaluations until a pool of `n` workers, after `h`, has the ideal size. */
  function TimeLeft(p: Setting, h: seq<Entry>, n: u32): nat
    requires p.Valid()
  {
    if n == p.Ideal() then 0
    else WaitLeft(p.cfg, h)
         + (if n < p.Ideal() then HoldLeft(p.cfg, h) + 1 else EvidenceLeft(p.cfg, h))
         + Onward(p, n)
  }

  // ---------------------------------------------------------------- facts about the history

  /** While an action is validated there is no evidence and no hold. */
  lemma {:induction false} ValidatingStartsAnew(cfg: ValidConfig, h: seq<Entry>)
    requires Consistent(cfg, h) && UnderValidation(cfg, h)
    ensures LowRun(cfg, h) == 0 && HoldLeft(cfg, h) == 0
    ensures LastScale(h).value.AppliedScale()
  {
    hide Evaluate, CanShrink;
    ValidationFollowsHistory(cfg, h);
    HoldFollowsHistory(cfg, h);
    LastScaleApplied(h);
  }

  /** Scale-downs count as reverted only where they are validated, and not since an applied scale-up. */
  lemma {:induction false} RevertedDownsMeaning(cfg: ValidConfig, h: seq<Entry>)
    ensures cfg.scaleDownRevertDrop <= 0.0 ==> RevertedDowns(cfg, h) == 0
    ensures LastScale(h).Some? && LastScale(h).value.AppliedUp() ==> RevertedDowns(cfg, h) == 0
  {
    if |h| != 0 {
      RevertedDownsMeaning(cfg, Front(h));
    }
  }

  // ---------------------------------------------------------------- one evaluation

  /** A decision under constant load is the next move. */
  lemma DecisionIsMove(p: Setting, s: VmState, obs: Observation, n: u32)
    requires p.Valid() && p.Sees(obs, n)
    ensures var action := Evaluate(p.cfg, s, obs).action;
            action.Up? || action.Down? ==> n != p.Ideal() && action == Move(p, n)
  {
    hide IdealSize;
    MovesTowardsIdeal(p.cfg, obs, p.load);
  }

  /** What is left of the wait, one evaluation later. */
  lemma WaitStep(cfg: ValidConfig, h: seq<Entry>, e: Entry)
    requires Consistent(cfg, h + [e]) && Forward(e)
    ensures UnderValidation(cfg, h) ==>
              && e.action == NoAction
              && WaitLeft(cfg, h + [e]) == WaitLeft(cfg, h) - 1
    ensures !UnderValidation(cfg, h) ==>
              && WaitLeft(cfg, h) == 0
              && WaitLeft(cfg, h + [e]) == (if e.AppliedScale() then Wait(cfg, e.action) else 0)
              && (UnderValidation(cfg, h + [e]) <==> e.AppliedScale() && Checked(cfg, e.action))
  {
    hide Evaluate, StateAfter, ValidationLength;
    assert Front(h + [e]) == h;
    SettlingVerdict(cfg, h + [e]);
    LastScaleApplied(h);
  }

  /** While an action is validated everything else stands still. */
  lemma ValidatingStep(p: Setting, h: seq<Entry>, e: Entry, n: u32)
    requires p.Valid() && Consistent(p.cfg, h + [e]) && Forward(e) && UnderValidation(p.cfg, h)
    ensures e.action == NoAction && !e.Applied()
    ensures LowRun(p.cfg, h) == 0 && LowRun(p.cfg, h + [e]) == 0
    ensures n != p.Ideal() ==> TimeLeft(p, h + [e], n) == TimeLeft(p, h, n) - 1
  {
    hide Evaluate, StateAfter, SustainLength, Onward, IdealSize, WaitLeft, UnderValidation;
    NewestEntry(p.cfg, h, e);
    assert Front(h + [e]) == h;
    WaitStep(p.cfg, h, e);
    ValidatingStartsAnew(p.cfg, h);
    HeldUnlessReverted(p.cfg, h, e);
    SettledDowns(p.cfg, h, e);
    assert LowRun(p.cfg, h + [e]) == 0;
  }

  /** Without a revert a hold only counts down. */
  lemma HeldUnlessReverted(cfg: ValidConfig, h: seq<Entry>, e: Entry)
    requires e.Evaluated? && !e.action.Revert?
    ensures HoldLeft(cfg, h + [e]) == if e.AppliedDown() then 0 else SatSub(HoldLeft(cfg, h), 1)
  {
    assert Front(h + [e]) == h;
  }

  /** A validation that ends without a revert leaves no reverted scale-down. */
  lemma SettledDowns(cfg: ValidConfig, h: seq<Entry>, e: Entry)
    requires UnderValidation(cfg, h) && e.Evaluated? && e.action == NoAction
    ensures !UnderValidation(cfg, h + [e]) ==> RevertedDowns(cfg, h + [e]) == 0
  {
    assert Front(h + [e]) == h;
    RevertedDownsMeaning(cfg, h);
    LastScaleApplied(h);
  }

  lemma EvidenceStep(cfg: ValidConfig, h: seq<Entry>, e: Entry)
    requires e.Evaluated? && !e.action.Revert? && !UnderValidation(cfg, h)
    ensures LowRun(cfg, h + [e]) == if e.AppliedScale() || !CanShrink(cfg, e.obs) then 0 else LowRun(cfg, h) + 1
    ensures RevertedDowns(cfg, h + [e]) == if e.AppliedUp() then 0 else RevertedDowns(cfg, h)
  {
    hide CanShrink;
    assert Front(h + [e]) == h;
  }

  /** Below the ideal size: the hold counts down, then the pool grows. */
  lemma GrowStep(p: Setting, h: seq<Entry>, e: Entry, n: u32)
    requires p.Valid() && Consistent(p.cfg, h + [e]) && Forward(e) && !UnderValidation(p.cfg, h)
    requires p.Sees(e.obs, n) && n < p.Ideal()
    ensures LowRun(p.cfg, h + [e]) == 0
    ensures var m := if e.Applied() then e.action.count else n;
            TimeLeft(p, h + [e], m) == TimeLeft(p, h, n) - if Hindered(p, h, e, n) then 0 else 1
  {
    hide Evaluate, StateAfter, IdealSize, WaitLeft, HoldLeft, LowRun, RevertedDowns, UnderValidation, SustainLength;
    hide Onward, CanShrink, Wait;
    NewestEntry(p.cfg, h, e);
    assert Front(h + [e]) == h;
    UpExactly(p.cfg, h + [e]);
    DownExactly(p.cfg, h + [e]);
    MovesTowardsIdeal(p.cfg, e.obs, p.load);
    DecisionIsMove(p, StateAfter(p.cfg, h), e.obs, n);
    WaitStep(p.cfg, h, e);
    HeldUnlessReverted(p.cfg, h, e);
    EvidenceStep(p.cfg, h, e);
    OnwardStep(p, n);
  }

  /** Above the ideal size: the evidence grows, then the pool shrinks. */
  lemma ShrinkStep(p: Setting, h: seq<Entry>, e: Entry, n: u32)
    requires p.Valid() && Consistent(p.cfg, h + [e]) && Forward(e) && !UnderValidation(p.cfg, h)
    requires p.Sees(e.obs, n) && p.Ideal() < n && LowRun(p.cfg, h) < U32_MAX
    ensures !Hindered(p, h, e, n) ==> LowRun(p.cfg, h + [e]) < U32_MAX
    ensures var m := if e.Applied() then e.action.count else n;
            TimeLeft(p, h + [e], m) == TimeLeft(p, h, n) - if Hindered(p, h, e, n) then 0 else 1
  {
    hide Evaluate, StateAfter, IdealSize, WaitLeft, HoldLeft, LowRun, RevertedDowns, UnderValidation, SustainLength;
    hide Onward, CanShrink, Wait;
    assert (LowRun(p.cfg, h) + 1) % (U32_MAX + 1) == LowRun(p.cfg, h) + 1;
    NewestEntry(p.cfg, h, e);
    assert Front(h + [e]) == h;
    UpExactly(p.cfg, h + [e]);
    DownExactly(p.cfg, h + [e]);
    MovesTowardsIdeal(p.cfg, e.obs, p.load);
    DecisionIsMove(p, StateAfter(p.cfg, h), e.obs, n);
    WaitStep(p.cfg, h, e);
    EvidenceStep(p.cfg, h, e);
    RevertedDownsMeaning(p.cfg, h);
    SustainFits(p.cfg, RevertedDowns(p.cfg, h));
    OnwardStep(p, n);
  }

  lemma SustainFits(cfg: ValidConfig, k: nat)
    ensures SustainLength(cfg, k) <= U32_MAX
    ensures SustainLength(cfg, 0) == cfg.polls.scaleDownSustain
  {
    SustainExact(cfg, k);
  }

  /** With no failed scale-down the sustain length is the configured one. */
  lemma SustainIs(cfg: ValidConfig)
    ensures SustainPolls(cfg, 0) == cfg.polls.scaleDownSustain
  {
    SustainExact(cfg, 0);
  }

  /** At the ideal size nothing is decided. */
  lemma IdealStays(p: Setting, h: seq<Entry>, e: Entry)
    requires p.Valid() && Consistent(p.cfg, h + [e]) && Forward(e) && p.Sees(e.obs, p.Ideal())
    requires LowRun(p.cfg, h) < U32_MAX
    ensures e.action == NoAction && !e.Applied() && LowRun(p.cfg, h + [e]) < U32_MAX
  {
    hide IdealSize, Evaluate, StateAfter, CanShrink, Saturated, UnderValidation;
    NewestEntry(p.cfg, h, e);
    assert Front(h + [e]) == h;
    DecisionIsMove(p, StateAfter(p.cfg, h), e.obs, p.Ideal());
    MovesTowardsIdeal(p.cfg, e.obs, p.load);
  }

  /**
   Whatever happened before, validation, holds and backed-off evidence
   included: each evaluation that reverts nothing brings the ideal size exactly
   one evaluation closer, unless it is hindered, which costs exactly one.
   */
  lemma OneEvaluationCloser(p: Setting, h: seq<Entry>, e: Entry, n: u32)
    requires p.Valid() && Consistent(p.cfg, h + [e]) && Forward(e) && p.Sees(e.obs, n)
    requires LowRun(p.cfg, h) < U32_MAX
    ensures !Hindered(p, h, e, n) ==> LowRun(p.cfg, h + [e]) < U32_MAX
    ensures n == p.Ideal() ==> !Hindered(p, h, e, n)
    ensures var m := if e.Applied() then e.action.count else n;
            TimeLeft(p, h + [e], m)
            == if Hindered(p, h, e, n) then TimeLeft(p, h, n) else SatSub(TimeLeft(p, h, n), 1)
  {
    hide IdealSize, LowRun, TimeLeft, Consistent, UnderValidation, Evaluate, HoldLeft;
    if n == p.Ideal() {
      IdealStays(p, h, e);
      TimeLeftMeaning(p, h, n);
      TimeLeftMeaning(p, h + [e], n);
    } else if UnderValidation(p.cfg, h) {
      ValidatingStep(p, h, e, n);
      TimeLeftMeaning(p, h, n);
    } else if n < p.Ideal() {
      GrowStep(p, h, e, n);
      TimeLeftMeaning(p, h, n);
    } else {
      ShrinkStep(p, h, e, n);
      TimeLeftMeaning(p, h, n);
    }
  }

  lemma TimeLeftMeaning(p: Setting, h: seq<Entry>, n: u32)
    requires p.Valid()
    ensures TimeLeft(p, h, n) == 0 <==> n == p.Ideal()
  {
    hide IdealSize, LowRun, HoldLeft, WaitLeft, SustainLength, RevertedDowns, UnderValidation, Onward;
  }

  ghost predicate AllForward(h: seq<Entry>) {
    forall m :: 0 <= m < |h| ==> Forward(h[m])
  }

  /** Evaluations of `tail`, after `h` and from a pool of `n`, that were hindered. */
  function HinderedCount(p: Setting, h: seq<Entry>, n: u32, tail: seq<Entry>): nat
    requires p.Valid()
  {
    if |tail| == 0 then 0
    else HinderedCount(p, h, n, Front(tail))
         + if Last(tail).Evaluated? && Hindered(p, h + Front(tail), Last(tail), PoolAfter(n, Front(tail))) then 1 else 0
  }

  /** The sustain counter does not reach the end of its `u32`. */
  ghost predicate NoWrap(cfg: ValidConfig, h: seq<Entry>, tail: seq<Entry>) {
    forall m :: 0 <= m < |tail| ==> LowRun(cfg, h + tail[..m]) < U32_MAX
  }

  lemma NoWrapFront(cfg: ValidConfig, h: seq<Entry>, tail: seq<Entry>)
    requires 0 < |tail| && NoWrap(cfg, h, tail)
    ensures NoWrap(cfg, h, Front(tail)) && LowRun(cfg, h + Front(tail)) < U32_MAX
  {
    hide LowRun;
    assert tail[..|tail| - 1] == Front(tail);
    assert forall m :: 0 <= m < |tail| - 1 ==> Front(tail)[..m] == tail[..m];
  }

  /**
   From any history on, while nothing is reverted: the pool has the ideal size
   from exactly `TimeLeft` unhindered evaluations on, and not before.
   */
  lemma {:induction false} ReachesIdealExactly(p: Setting, h: seq<Entry>, n: u32, tail: seq<Entry>)
    requires p.Valid() && p.minThreads <= n <= p.maxThreads
    requires Consistent(p.cfg, h + tail) && Tracks(p, n, tail) && AllForward(tail) && NoWrap(p.cfg, h, tail)
    ensures var hindered := HinderedCount(p, h, n, tail);
            && TimeLeft(p, h + tail, PoolAfter(n, tail)) == SatSub(TimeLeft(p, h, n) + hindered, |tail|)
            && (PoolAfter(n, tail) == p.Ideal() <==> TimeLeft(p, h, n) + hindered <= |tail|)
  {
    hide IdealSize, LowRun, TimeLeft, Hindered, NoWrap, Evaluate, StateAfter;
    if |tail| == 0 {
      assert h + tail == h;
    } else {
      var front := Front(tail);
      assert Front(h + tail) == h + front;
      assert h + tail == (h + front) + [Last(tail)];
      NoWrapFront(p.cfg, h, tail);
      ReachesIdealExactly(p, h, n, front);
      OneEvaluationCloser(p, h + front, Last(tail), PoolAfter(n, front));
      TimeLeftMeaning(p, h + front, PoolAfter(n, front));
    }
    TimeLeftMeaning(p, h + tail, PoolAfter(n, tail));
  }

  /** Without hindrance the counter cannot wrap, and the time is the number of evaluations. */
  lemma {:induction false} ReachesIdealUnhindered(p: Setting, h: seq<Entry>, n: u32, tail: seq<Entry>)
    requires p.Valid() && p.minThreads <= n <= p.maxThreads
    requires Consistent(p.cfg, h + tail) && Tracks(p, n, tail) && AllForward(tail)
    requires LowRun(p.cfg, h) < U32_MAX && HinderedCount(p, h, n, tail) == 0
    ensures NoWrap(p.cfg, h, tail) && LowRun(p.cfg, h + tail) < U32_MAX
    ensures PoolAfter(n, tail) == p.Ideal() <==> TimeLeft(p, h, n) <= |tail|
  {
    hide IdealSize, LowRun, TimeLeft, Hindered;
    if |tail| == 0 {
      assert h + tail == h;
    } else {
      var front := Front(tail);
      assert Front(h + tail) == h + front;
      assert h + tail == (h + front) + [Last(tail)];
      ReachesIdealUnhindered(p, h, n, front);
      OneEvaluationCloser(p, h + front, Last(tail), PoolAfter(n, front));
      forall m | 0 <= m < |tail|
        ensures LowRun(p.cfg, h + tail[..m]) < U32_MAX
      {
        assert tail[..m] == if m < |front| then front[..m] else front;
      }
    }
    ReachesIdealExactly(p, h, n, tail);
  }

  /** What a `Revert` costs: the next move waits out the hold, or takes the longer evidence. */
  lemma RevertSetsBack(p: Setting, h: seq<Entry>, e: Entry, m: u32)
    requires p.Valid() && Consistent(p.cfg, h + [e]) && e.Evaluated? && e.action.Revert? && m != p.Ideal()
    ensures var g := h + [e];
            TimeLeft(p, g, m)
            == (if m < p.Ideal()
                then 1 + if RevertsUp(g) then HoldLength(p.cfg, RevertedUps(p.cfg, g)) else 0
                else Max(1, SustainLength(p.cfg, RevertedDowns(p.cfg, g))))
               + Onward(p, m)
  {
    hide IdealSize, Onward, Evaluate, StateAfter, SustainLength, HoldLength, RevertedUps, RevertedDowns;
    var g := h + [e];
    assert Front(g) == h;
    SettlingVerdict(p.cfg, g);
    NewestEntry(p.cfg, h, e);
    ValidatingStartsAnew(p.cfg, h);
  }

  // ---------------------------------------------------------------- a new VM without validation

  /** No action is checked afterwards, so none makes the next one wait. */
  ghost predicate Unvalidated(cfg: Config) {
    cfg.scaleUpMinGain == 0.0 && cfg.scaleDownRevertDrop == 0.0
  }

  /** Without validation a new VM needs one evaluation per added worker, or `Patience` for each shrink. */
  lemma TimeWithoutValidation(p: Setting, n: u32)
    requires p.Valid() && Unvalidated(p.cfg)
    ensures TimeLeft(p, [], n) == if n <= p.Ideal() then p.StepsLeft(n) else p.StepsLeft(n) * Patience(p, n)
  {
    hide IdealSize;
    if n != p.Ideal() {
      OnwardWithoutValidation(p, n);
    }
  }

  lemma {:induction false} OnwardWithoutValidation(p: Setting, n: u32)
    requires p.Valid() && Unvalidated(p.cfg) && n != p.Ideal()
    ensures Patience(p, n) + Onward(p, n)
         == if n < p.Ideal() then p.StepsLeft(n) else p.StepsLeft(n) * Patience(p, n)
    decreases if n < p.Ideal() then p.Ideal() - n else n - p.Ideal()
  {
    hide IdealSize;
    var next := Move(p, n).count;
    MoveIsOneStep(p, n);
    if next != p.Ideal() {
      OnwardWithoutValidation(p, next);
      OneMoreTime(p.StepsLeft(next), Patience(p, n));
    }
  }

  lemma OneMoreTime(k: nat, lap: nat)
    ensures (k + 1) * lap == k * lap + lap
  {
  }

  lemma MoveIsOneStep(p: Setting, n: u32)
    requires p.Valid() && n != p.Ideal()
    ensures p.StepsLeft(Move(p, n).count) == p.StepsLeft(n) - 1
  {
    hide IdealSize;
    var step := p.cfg.maxScaleDownStep;
    if p.Ideal() < n && 0 < step {
      if step < n - p.Ideal() {
        DivStep(n - p.Ideal(), step);
      } else {
        LastStep(n - p.Ideal(), step);
        DivUnique(step - 1, step, 0, step - 1);
      }
    }
  }
}
