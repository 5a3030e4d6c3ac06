/** Convergence with the real pool: no resize, not even one that fails partway, overshoots. */
module LoopConvergence {
  import opened Common
  import opened ControlLoop
  import opened ClosedLoop
  import T = Threshold
  import C = Convergence
  import S = Sizing

  function SettingOf(l: Loop, load: real): C.Setting {
    C.Setting(l.tc, load, l.cfg.minThreads, l.cfg.maxThreads)
  }

  /** The tick reads the utilisation of the pool's share of the load. */
  ghost predicate ReadsLoad(s: Site, i: SiteInput, load: real) {
    i.Ticked? ==> 0 < s.pool && Refresh(s.vm.status, i.snap).util == S.SharedUtil(load, s.pool)
  }

  ghost predicate ReadsLoadThroughout(l: Loop, start: Site, ins: seq<SiteInput>, load: real) {
    |ins| == 0
    || (&& ReadsLoadThroughout(l, start, ins[..|ins| - 1], load)
        && ReadsLoad(l.After(start, ins[..|ins| - 1]), ins[|ins| - 1], load))
  }

  /** The pool, and the count a pending action would go back to, lie between `start` and the ideal size. */
  ghost predicate OnTheWay(p: C.Setting, start: u32, s: Site)
    requires p.Valid()
  {
    && Between(start, s.pool, p.Ideal())
    && (s.vm.engine.pending.Some? ==> Between(start, s.vm.engine.pending.value.baselineThreadCount, p.Ideal()))
  }

  lemma StepOnTheWay(l: Loop, load: real, start: u32, s: Site, i: SiteInput)
    requires l.cfg.Valid() && SettingOf(l, load).Valid()
    requires l.Invariant(s) && l.Faithful(s, i) && ReadsLoad(s, i, load)
    requires OnTheWay(SettingOf(l, load), start, s)
    ensures OnTheWay(SettingOf(l, load), start, l.Step(s, i))
  {
    hide T.Evaluate, T.OnApplied, S.IdealSize, S.SharedUtil;
    if i.Ticked? {
      var p := SettingOf(l, load);
      var status := Refresh(s.vm.status, i.snap);
      var obs := Observe(l.cfg, status, i.now);
      var v := T.Evaluate(l.tc, s.vm.engine, obs);
      assert p.Sees(obs, s.pool);
      C.DecisionApproaches(p, s.vm.engine, obs, s.pool);
      VerdictWhenPending(l.tc, s.vm.engine, obs);
      RevertFeedbackIgnored(l.tc, v.state, T.Blocked);
      RevertFeedbackIgnored(l.tc, v.state, T.Failed);
      var success := T.Success(v.action, status.threadCount, status.ioCount, i.attempt.appliedAt);
      var dryRun := T.DryRun(v.action, status.threadCount, status.ioCount, i.attempt.appliedAt);
      if v.action.Revert? {
        RevertFeedbackIgnored(l.tc, v.state, success);
        RevertFeedbackIgnored(l.tc, v.state, dryRun);
      } else if v.state.pending.None? {
        FeedbackPending(l.tc, v.state, success);
        FeedbackPending(l.tc, v.state, dryRun);
      }
    }
  }

  /**
   Under constant load, over every run of ticks, rediscoveries and backend
   failures, validated or not: the real pool never leaves the range between
   where it started and the ideal size.
   */
  lemma {:induction false} NeverOvershoots(l: Loop, load: real, start: Site, ins: seq<SiteInput>)
    requires l.cfg.Valid() && SettingOf(l, load).Valid()
    requires JustDiscovered(l, start) && l.FaithfulRun(start, ins) && ReadsLoadThroughout(l, start, ins, load)
    ensures OnTheWay(SettingOf(l, load), start.pool, l.After(start, ins))
  {
    hide VmTick, S.IdealSize;
    if |ins| != 0 {
      var front := ins[..|ins| - 1];
      NeverOvershoots(l, load, start, front);
      StaysInBounds(l, start, front);
      StepOnTheWay(l, load, start.pool, l.After(start, front), ins[|ins| - 1]);
    }
  }
}
