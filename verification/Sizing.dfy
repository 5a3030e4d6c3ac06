/** The pool size the threshold rule aims at, and how decisions move towards it. */
module Sizing {
  import opened Common
  import opened Threshold

  lemma QuotientAbove(a: real, b: real, c: real)
    requires 0.0 < b
    ensures a > b * c <==> a / b > c
  {
    assert a == (a / b) * b;
    if a / b > c {
      assert (a / b - c) * b > 0.0;
    } else {
      assert (c - a / b) * b >= 0.0;
    }
  }

  lemma CeilBounds(x: real)
    ensures (Ceil(x) - 1) as real < x <= Ceil(x) as real
  {
  }

  lemma RequiredCovers(threshold: real, load: real, n: u32)
    requires 0.0 < threshold && load > threshold * n as real
    ensures RequiredWorkers(threshold, load) >= n
  {
    QuotientAbove(load, threshold, n as real);
    CeilBounds(load / threshold);
  }

  lemma ScaleStrictly(a: real, b: real, c: real)
    requires a < b && 0.0 < c
    ensures a * c < b * c
  {
  }

  lemma BusyLoad(threshold: real, util: real, n: u32)
    requires 0.0 < threshold < util && 0 < n
    ensures TotalLoad(util, n) > threshold * n as real
  {
    ScaleStrictly(threshold, util, n as real);
  }

  lemma RequiredWhenBusy(threshold: real, util: real, n: u32)
    requires 0.0 < threshold < util
    ensures RequiredWorkers(threshold, TotalLoad(util, n)) >= n
  {
    if 0 < n {
      BusyLoad(threshold, util, n);
      RequiredCovers(threshold, TotalLoad(util, n), n);
    }
  }

  lemma CoveredCannotShrink(cfg: ValidConfig, obs: Observation)
    requires RequiredWorkers(cfg.scaleUpThreshold, TotalLoad(obs.util, obs.threadCount)) >= obs.threadCount
    ensures !CanShrink(cfg, obs)
  {
  }

  /** A pool whose workers are busier than the threshold has no smaller feasible size. */
  lemma SaturatedCannotShrink(cfg: ValidConfig, obs: Observation)
    requires Saturated(cfg, obs)
    ensures !CanShrink(cfg, obs)
  {
    RequiredWhenBusy(cfg.scaleUpThreshold, obs.util, obs.threadCount);
    CoveredCannotShrink(cfg, obs);
  }

  // ---------------------------------------------------------------- what a shrink is

  /** A pool of `m` workers carries the load at the threshold. */
  predicate Carries(cfg: ValidConfig, obs: Observation, m: u32) {
    TotalLoad(obs.util, obs.threadCount) <= cfg.scaleUpThreshold * m as real
  }

  lemma RequiredCarries(cfg: ValidConfig, obs: Observation, m: u32)
    requires 1 <= m < U32_MAX
    ensures Carries(cfg, obs, m)
       <==> RequiredWorkers(cfg.scaleUpThreshold, TotalLoad(obs.util, obs.threadCount)) <= m
  {
    hide TotalLoad;
    CeilAbove(cfg.scaleUpThreshold, TotalLoad(obs.util, obs.threadCount), m);
  }

  /** The pool can shrink if and only if some smaller size the bounds allow carries the load. */
  lemma CanShrinkExactly(cfg: ValidConfig, obs: Observation)
    ensures CanShrink(cfg, obs) <==>
              exists m: u32 :: Max(1, obs.minThreads) <= m < obs.threadCount && Carries(cfg, obs, m)
  {
    hide RequiredWorkers, TotalLoad, Carries;
    var required := RequiredWorkers(cfg.scaleUpThreshold, TotalLoad(obs.util, obs.threadCount));
    RequiredPositive(cfg.scaleUpThreshold, TotalLoad(obs.util, obs.threadCount));
    if CanShrink(cfg, obs) {
      RequiredCarries(cfg, obs, Max(required, obs.minThreads));
    }
    if m: u32 :| Max(1, obs.minThreads) <= m < obs.threadCount && Carries(cfg, obs, m) {
      RequiredCarries(cfg, obs, m);
    }
  }

  lemma RequiredPositive(threshold: real, load: real)
    requires 0.0 < threshold
    ensures 1 <= RequiredWorkers(threshold, load)
  {
  }

  /**
   A shrink stays inside the minimum and the step limit and leaves a pool that
   carries the load; without the limit, no smaller pool would.
   */
  lemma ShrinksToSmallestAllowed(cfg: ValidConfig, obs: Observation)
    requires CanShrink(cfg, obs)
    ensures var target := ScaleDownTarget(cfg, obs.util, obs.threadCount, obs.minThreads);
            && Max(1, obs.minThreads) <= target
            && Carries(cfg, obs, target)
            && (0 < cfg.maxScaleDownStep ==> obs.threadCount - target <= cfg.maxScaleDownStep)
            && (|| target == Max(1, obs.minThreads)
                || (0 < cfg.maxScaleDownStep && obs.threadCount - target == cfg.maxScaleDownStep)
                || !Carries(cfg, obs, target - 1))
  {
    hide RequiredWorkers, TotalLoad, Carries;
    var target := ScaleDownTarget(cfg, obs.util, obs.threadCount, obs.minThreads);
    RequiredPositive(cfg.scaleUpThreshold, TotalLoad(obs.util, obs.threadCount));
    RequiredCarries(cfg, obs, target);
    if 1 < target {
      RequiredCarries(cfg, obs, target - 1);
    }
  }

  // ---------------------------------------------------------------- constant load

  /** The size that carries `load` at the threshold, kept inside the bounds. */
  function IdealSize(threshold: real, load: real, minThreads: u32, maxThreads: u32): u32
    requires 0.0 < threshold
    requires minThreads <= maxThreads
  {
    Max(minThreads, Min(Ceil(load / threshold), maxThreads))
  }

  /** Each of `n` workers is busy for its share of the load, or all the time. */
  function SharedUtil(load: real, n: u32): real
    requires 0 < n
  {
    if load >= n as real then 1.0 else load / n as real
  }

  /** The observation of a pool inside its bounds under a constant CPU load. */
  ghost predicate ObservesLoad(obs: Observation, load: real) {
    && 1 <= obs.minThreads <= obs.threadCount <= obs.maxThreads
    && obs.util == SharedUtil(load, obs.threadCount)
  }

  function IdealFor(cfg: ValidConfig, load: real, obs: Observation): u32
    requires ObservesLoad(obs, load)
  {
    IdealSize(cfg.scaleUpThreshold, load, obs.minThreads, obs.maxThreads)
  }

  lemma SharedLoad(load: real, n: u32)
    requires 0 < n
    ensures TotalLoad(SharedUtil(load, n), n) == if load >= n as real then n as real else load
  {
  }

  /** The ceiling of a quotient exceeds `n` exactly when the load exceeds `n` workers' share. */
  lemma CeilAbove(threshold: real, load: real, n: nat)
    requires 0.0 < threshold
    ensures n < Ceil(load / threshold) <==> load > threshold * n as real
  {
    QuotientAbove(load, threshold, n as real);
    CeilBounds(load / threshold);
  }

  lemma ShareAbove(threshold: real, load: real, n: u32)
    requires 0 < n
    ensures load / n as real > threshold <==> load > threshold * n as real
  {
    var x := n as real;
    QuotientAbove(load, x, threshold);
    assert x * threshold == threshold * x;
  }

  lemma FullShareAbove(threshold: real, load: real, n: u32)
    requires threshold < 1.0 && 0 < n && load >= n as real
    ensures load > threshold * n as real
  {
    ScaleStrictly(threshold, 1.0, n as real);
  }

  lemma SharedUtilAbove(threshold: real, load: real, n: u32)
    requires 0.0 < threshold < 1.0 && 0 < n
    ensures SharedUtil(load, n) > threshold <==> load > threshold * n as real
  {
    if load >= n as real {
      FullShareAbove(threshold, load, n);
    } else {
      ShareAbove(threshold, load, n);
    }
  }

  lemma UtilAboveIffSmall(threshold: real, load: real, n: u32)
    requires 0.0 < threshold < 1.0 && 0 < n
    ensures SharedUtil(load, n) > threshold <==> n < Ceil(load / threshold)
  {
    SharedUtilAbove(threshold, load, n);
    CeilAbove(threshold, load, n);
  }

  lemma RequiredUnderLoad(threshold: real, load: real, n: u32)
    requires 0.0 < threshold < 1.0 && 0 < n
    ensures var required := RequiredWorkers(threshold, TotalLoad(SharedUtil(load, n), n));
            if load >= n as real then required >= n
            else required == Min(Max(Ceil(load / threshold), 1), U32_MAX)
  {
    SharedLoad(load, n);
    if load >= n as real {
      ScaleStrictly(threshold, 1.0, n as real);
      RequiredCovers(threshold, n as real, n);
    }
  }

  /** Growing is possible exactly below the ideal size, shrinking exactly above it and never past it. */
  lemma MovesTowardsIdeal(cfg: ValidConfig, obs: Observation, load: real)
    requires cfg.scaleUpThreshold < 1.0
    requires ObservesLoad(obs, load)
    ensures obs.util > cfg.scaleUpThreshold && obs.threadCount < obs.maxThreads
       <==> obs.threadCount < IdealFor(cfg, load, obs)
    ensures CanShrink(cfg, obs) <==> IdealFor(cfg, load, obs) < obs.threadCount
    ensures CanShrink(cfg, obs) ==>
              ScaleDownTarget(cfg, obs.util, obs.threadCount, obs.minThreads)
              == if cfg.maxScaleDownStep == 0 then IdealFor(cfg, load, obs)
                 else Max(IdealFor(cfg, load, obs), obs.threadCount - cfg.maxScaleDownStep)
  {
    UtilAboveIffSmall(cfg.scaleUpThreshold, load, obs.threadCount);
    RequiredUnderLoad(cfg.scaleUpThreshold, load, obs.threadCount);
    if load >= obs.threadCount as real {
      BusyAboveThreshold(cfg.scaleUpThreshold, load, obs.threadCount);
    }
  }

  lemma BusyAboveThreshold(threshold: real, load: real, n: u32)
    requires 0.0 < threshold < 1.0 && 0 < n && load >= n as real
    ensures n < Ceil(load / threshold)
  {
    UtilAboveIffSmall(threshold, load, n);
  }
}
