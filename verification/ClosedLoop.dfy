/**
 Engine, controller and backend together, for one VM over whole runs, and the
 projection that makes every fleet tick such a step for each of its VMs.
 */
module ClosedLoop {
  import opened Common
  import opened ControlLoop
  import opened PlanTheorems
  import T = Threshold
  import H = EngineHistory

  /** What one VM's tick does, given whether the cap admits an attempt. */
  datatype VmOutcome = VmOutcome(vm: Vm, action: T.ScaleAction, disposition: Disposition)

  function VmTick(cfg: Config, tc: T.ValidConfig, vm: Vm, snap: Snapshot, now: nat, hostCpu: real,
                  admitted: bool, a: Attempt): VmOutcome
  {
    var seen := vm.(status := Refresh(vm.status, snap));
    var v := EvaluateVm(cfg, tc, seen, now);
    var next := seen.(engine := v.state);
    if seen.status.sticky then VmOutcome(seen, T.NoAction, NotEvaluated)
    else if v.action.NoAction? || v.action.count == seen.status.threadCount then VmOutcome(next, v.action, NotPlanned)
    else if !admitted then VmOutcome(next, v.action, Capped)
    else
      var (applied, disposition) := ApplyDecision(cfg, tc, next, v.action, hostCpu, a);
      VmOutcome(applied, v.action, disposition)
  }

  // ---------------------------------------------------------------- what a poll sees

  /** The operations a snapshot reports: reads, writes and all others together. */
  function OpsSeen(perf: Option<PerfCounts>): nat {
    match perf
    case None => 0
    case Some(c) => Min(c.readOps + c.writeOps + c.otherOps, U64_MAX)
  }

  /** The utilisation after a reading: the backend's as a fraction, the measured one as it is, the old one without any. */
  function UtilSeen(before: real, reading: UtilReading): real {
    match reading
    case Backend(util) => if 0.0 <= util <= 1.0 then util else if util < 0.0 then 0.0 else 1.0
    case Procfs(util) => util
    case NoReading => before
  }

  /** What the engine is shown of a VM, in terms of its snapshot. */
  function SeenBy(cfg: Config, s: Status, snap: Snapshot, now: nat): T.Observation {
    T.Observation(UtilSeen(s.util, snap.reading), snap.threadCount, OpsSeen(snap.perf), snap.throttled,
                  now, cfg.minThreads, cfg.maxThreads)
  }

  /** A refresh shows the engine exactly that, classifies a VM once, and leaves the rest of its record alone. */
  lemma RefreshShows(cfg: Config, s: Status, snap: Snapshot, now: nat)
    ensures Observe(cfg, Refresh(s, snap), now) == SeenBy(cfg, s, snap, now)
    ensures var after := Refresh(s, snap);
            && after.threadCount == snap.threadCount && after.ioCount == OpsSeen(snap.perf)
            && after.vcpuCount == snap.vcpuCount
            && after.classification == (if s.classification.Some? then s.classification else Some(snap.initiallyManaged))
            && after.handle == s.handle && after.cooldownUntil == s.cooldownUntil && after.sticky == s.sticky
  {
  }

  // ---------------------------------------------------------------- a fleet tick, seen by one VM

  /** Every decision is the evaluation of its own tracked VM. */
  lemma {:induction false} DecisionsEvaluate(cfg: Config, tc: T.ValidConfig, vms: map<string, Vm>,
                                             order: seq<string>, now: nat)
    ensures forall d :: d in Decisions(cfg, tc, vms, order, now) ==>
              d.id in vms && !vms[d.id].status.sticky && d.action == EvaluateVm(cfg, tc, vms[d.id], now).action
  {
    hide EvaluateVm;
    if |order| != 0 {
      DecisionsEvaluate(cfg, tc, vms, order[..|order| - 1], now);
    }
  }

  /** The item carries its VM's own decision, for another size of a pool that may be resized. */
  ghost predicate OwnDecision(cfg: Config, tc: T.ValidConfig, vms: map<string, Vm>, now: nat, item: PlanItem) {
    && item.id in vms && !vms[item.id].status.sticky
    && item.action == EvaluateVm(cfg, tc, vms[item.id], now).action
    && !item.action.NoAction?
    && item.action.count != vms[item.id].status.threadCount
    && item.grows == (item.action.count > vms[item.id].status.threadCount)
  }

  lemma PlannedOwnDecisions(cfg: Config, tc: T.ValidConfig, vms: map<string, Vm>, order: seq<string>, now: nat)
    ensures forall item :: item in PlanOf(EvaluateFleet(cfg, tc, vms, now), Decisions(cfg, tc, vms, order, now)) ==>
              OwnDecision(cfg, tc, vms, now, item)
  {
    hide EvaluateVm, PlanOf, Decisions;
    var evaluated := EvaluateFleet(cfg, tc, vms, now);
    var ds := Decisions(cfg, tc, vms, order, now);
    DecisionsEvaluate(cfg, tc, vms, order, now);
    PlanHoldsFirstDecisions(evaluated, ds);
    forall item | item in PlanOf(evaluated, ds)
      ensures OwnDecision(cfg, tc, vms, now, item)
    {
      assert ds[item.sequence] in ds;
    }
  }

  /** The plan of a tick: runnable, one item per VM, sorted, each item its VM's own decision. */
  lemma PlanForIsSound(cfg: Config, tc: T.ValidConfig, vms: map<string, Vm>, order: seq<string>, now: nat)
    ensures var plan := PlanFor(cfg, tc, vms, order, now);
            && Runnable(EvaluateFleet(cfg, tc, vms, now), plan)
            && OncePerVm(plan) && KeySorted(plan)
            && forall i :: 0 <= i < |plan| ==> OwnDecision(cfg, tc, vms, now, plan[i])
  {
    hide EvaluateVm, PlanOf, Decisions, SortPlan;
    var evaluated := EvaluateFleet(cfg, tc, vms, now);
    var ds := Decisions(cfg, tc, vms, order, now);
    var unsorted := PlanOf(evaluated, ds);
    PlannedOwnDecisions(cfg, tc, vms, order, now);
    PlanHoldsFirstDecisions(evaluated, ds);
    PlanOncePerVm(evaluated, ds);
    SortPlanSorts(unsorted);
    SortPlanOncePerVm(unsorted);
    var plan := SortPlan(unsorted);
    forall i | 0 <= i < |plan|
      ensures OwnDecision(cfg, tc, vms, now, plan[i])
    {
      assert plan[i] in plan;
    }
  }

  /** Something was attempted on `id`. */
  ghost predicate AttemptedOn(tried: seq<Tried>, id: string) {
    exists k :: 0 <= k < |tried| && tried[k].item.id == id
  }

  /** The attempts on `id` are the one that `o` made, if it made any. */
  ghost predicate AttemptsMatch(tried: seq<Tried>, id: string, o: VmOutcome) {
    && (forall k :: 0 <= k < |tried| && tried[k].item.id == id ==>
          tried[k].item.action == o.action && tried[k].disposition == o.disposition)
    && (o.disposition.Attempted() ==> AttemptedOn(tried, id))
  }

  /** An attempt on a VM's own decision is its tick with the attempt admitted. */
  lemma AttemptIsTick(cfg: Config, tc: T.ValidConfig, vm: Vm, snap: Snapshot, now: nat, hostCpu: real,
                      action: T.ScaleAction, a: Attempt)
    requires var seen := vm.(status := Refresh(vm.status, snap));
             && !seen.status.sticky && action == EvaluateVm(cfg, tc, seen, now).action
             && !action.NoAction? && action.count != seen.status.threadCount
    ensures var seen := vm.(status := Refresh(vm.status, snap));
            var r := ApplyDecision(cfg, tc, seen.(engine := EvaluateVm(cfg, tc, seen, now).state), action, hostCpu, a);
            VmTick(cfg, tc, vm, snap, now, hostCpu, true, a) == VmOutcome(r.0, action, r.1)
  {
    hide ApplyDecision, EvaluateVm, Refresh;
  }

  /** Without an attempt a VM's tick is its refresh and evaluation. */
  lemma UnattemptedTick(cfg: Config, tc: T.ValidConfig, vm: Vm, snap: Snapshot, now: nat, hostCpu: real, a: Attempt)
    ensures var seen := vm.(status := Refresh(vm.status, snap));
            var o := VmTick(cfg, tc, vm, snap, now, hostCpu, false, a);
            o.vm == seen.(engine := EvaluateVm(cfg, tc, seen, now).state) && !o.disposition.Attempted()
  {
    hide T.Evaluate, Refresh;
  }

  /** After a completed tick every refreshed VM has made exactly one `VmTick`. */
  lemma TickProjects(cfg: Config, tc: T.ValidConfig, w: World, inp: TickInput, id: string) returns (admitted: bool)
    requires TickWorld(cfg, tc, w, inp).TickDone?
    requires id in w.vms && inp.snaps(id).Some?
    ensures var after := TickWorld(cfg, tc, w, inp);
            var o := VmTick(cfg, tc, w.vms[id], inp.snaps(id).value, inp.now, inp.hostCpu, admitted, inp.env(id));
            && admitted == AttemptedOn(after.tried, id)
            && id in after.world.vms && after.world.vms[id] == o.vm
            && AttemptsMatch(after.tried, id, o)
  {
    hide ApplyDecision, EvaluateVm, Refresh, PlanFor, VmTick, CommitAll, ApplyPlan;
    var fleet := RefreshFleet(w.vms, inp.snaps);
    var evaluated := EvaluateFleet(cfg, tc, fleet, inp.now);
    var plan := PlanFor(cfg, tc, fleet, inp.order, inp.now);
    PlanForIsSound(cfg, tc, fleet, inp.order, inp.now);
    AttemptsAreIndependent(cfg, tc, inp.hostCpu, inp.env, evaluated, plan);
    var p := ApplyPlan(cfg, tc, inp.hostCpu, inp.env, evaluated, plan);
    var vm, snap := w.vms[id], inp.snaps(id).value;
    assert fleet[id] == vm.(status := Refresh(vm.status, snap));
    if i :| 0 <= i < |p.tried| && plan[i].id == id {
      admitted := true;
      assert p.tried[i].item.id == id;
      AttemptIsTick(cfg, tc, vm, snap, inp.now, inp.hostCpu, plan[i].action, inp.env(id));
    } else {
      admitted := false;
      UnattemptedTick(cfg, tc, vm, snap, inp.now, inp.hostCpu, inp.env(id));
    }
  }

  /** An unmanaged VM is evaluated like any other: the tick leaves it the record of its evaluation. */
  lemma UnmanagedIsEvaluated(cfg: Config, tc: T.ValidConfig, w: World, inp: TickInput, id: string)
    requires TickWorld(cfg, tc, w, inp).TickDone?
    requires id in w.vms && inp.snaps(id).Some? && !w.vms[id].status.sticky
    requires Refresh(w.vms[id].status, inp.snaps(id).value).classification == Some(false)
    ensures var after := TickWorld(cfg, tc, w, inp).world;
            && id in after.vms && after.vms[id].status.classification == Some(false)
            && after.vms[id].engine
               == T.Evaluate(tc, w.vms[id].engine,
                             Observe(cfg, Refresh(w.vms[id].status, inp.snaps(id).value), inp.now)).state
  {
    hide T.Evaluate, T.OnApplied, TickWorld;
    var admitted := TickProjects(cfg, tc, w, inp, id);
    var obs := Observe(cfg, Refresh(w.vms[id].status, inp.snaps(id).value), inp.now);
    RevertFeedbackIgnored(tc, T.Evaluate(tc, w.vms[id].engine, obs).state, T.Blocked);
  }

  /**
   One tick of a fleet: no VM is attempted twice, no more than the cap succeed,
   shrinks are attempted before grows, and a grow is attempted only once every
   planned shrink was.
   */
  lemma TickActuations(cfg: Config, tc: T.ValidConfig, w: World, inp: TickInput)
    requires TickWorld(cfg, tc, w, inp).TickDone?
    ensures var tried := TickWorld(cfg, tc, w, inp).tried;
            var plan := PlanFor(cfg, tc, RefreshFleet(w.vms, inp.snaps), inp.order, inp.now);
            && (forall i, j :: 0 <= i < j < |tried| ==> tried[i].item.id != tried[j].item.id)
            && (0 < cfg.maxAdjusted ==> AdjustedCount(tried) <= cfg.maxAdjusted)
            && (forall i, j :: 0 <= i < j < |tried| && tried[i].item.grows ==> tried[j].item.grows)
            && |tried| <= |plan|
            && (forall i, j :: 0 <= i < |tried| && tried[i].item.grows && 0 <= j < |plan| && !plan[j].grows ==>
                  j < |tried| && tried[j].item == plan[j])
  {
    hide ApplyDecision, EvaluateVm, Refresh, PlanFor, AdjustedCount;
    var fleet := RefreshFleet(w.vms, inp.snaps);
    var evaluated := EvaluateFleet(cfg, tc, fleet, inp.now);
    var plan := PlanFor(cfg, tc, fleet, inp.order, inp.now);
    PlanForIsSound(cfg, tc, fleet, inp.order, inp.now);
    AttemptsArePrefix(cfg, tc, inp.hostCpu, inp.env, evaluated, plan);
    var tried := ApplyPlan(cfg, tc, inp.hostCpu, inp.env, evaluated, plan).tried;
    forall i | 0 <= i < |tried|
      ensures tried[i].item == plan[i]
    {
      assert ItemsOf(tried)[i] == plan[i];
    }
    forall i, j | 0 <= i < |tried| && tried[i].item.grows && 0 <= j < |plan| && !plan[j].grows
      ensures j < |tried|
    {
      NoShrinkSkippedForGrow(cfg, tc, inp.hostCpu, inp.env, evaluated, plan, i, j);
    }
  }

  /** A VM whose snapshot failed, or that was not tracked, is not tracked afterwards. */
  lemma TickKeepsOnlyRefreshed(cfg: Config, tc: T.ValidConfig, w: World, inp: TickInput)
    ensures TickWorld(cfg, tc, w, inp).world.vms.Keys == set id | id in w.vms && inp.snaps(id).Some?
  {
    hide ApplyDecision, EvaluateVm, PlanFor, CommitAll;
    var fleet := RefreshFleet(w.vms, inp.snaps);
    var plan := PlanFor(cfg, tc, fleet, inp.order, inp.now);
    PlanForIsSound(cfg, tc, fleet, inp.order, inp.now);
    AttemptsArePrefix(cfg, tc, inp.hostCpu, inp.env, EvaluateFleet(cfg, tc, fleet, inp.now), plan);
  }

  // ---------------------------------------------------------------- guards

  /** The rule that each reason stands for. */
  predicate Violates(cfg: Config, s: Status, action: T.ScaleAction, at: nat, hostCpu: real, reason: BlockedReason)
    requires !action.NoAction?
  {
    match reason
    case ManualOverride => s.sticky
    case UnmanagedVm => s.classification != Some(true)
    case TargetBelowMinimum => action.count < cfg.minThreads
    case TargetExceedsMaximum => action.count > cfg.maxThreads
    case TargetExceedsVcpuCount => action.count > s.vcpuCount
    case Cooldown => !action.Revert? && s.cooldownUntil.Some? && at < s.cooldownUntil.value
    case HostCpuCeiling =>
      action.Up? && action.count > s.threadCount && 0.0 < cfg.hostCpuCeiling <= hostCpu
  }

  /** The order in which violations are reported. */
  function Rank(reason: BlockedReason): nat {
    match reason
    case ManualOverride => 0
    case UnmanagedVm => 1
    case TargetBelowMinimum => 2
    case TargetExceedsMaximum => 3
    case TargetExceedsVcpuCount => 4
    case Cooldown => 5
    case HostCpuCeiling => 6
  }

  /** A decision is attempted if and only if it violates no rule; a blocked one reports the first it violates. */
  lemma GuardReportsFirstViolation(cfg: Config, s: Status, action: T.ScaleAction, at: nat, hostCpu: real)
    requires !action.NoAction?
    ensures var blocked := Guard(cfg, s, action, at, hostCpu);
            && (blocked.None? <==> forall q :: !Violates(cfg, s, action, at, hostCpu, q))
            && (blocked.Some? ==>
                  && Violates(cfg, s, action, at, hostCpu, blocked.value)
                  && forall q :: Rank(q) < Rank(blocked.value) ==> !Violates(cfg, s, action, at, hostCpu, q))
  {
    if Guard(cfg, s, action, at, hostCpu).Some? {
      assert Violates(cfg, s, action, at, hostCpu, Guard(cfg, s, action, at, hostCpu).value);
    }
  }

  // ---------------------------------------------------------------- one VM over a run

  /** A VM as tracked, and the pool it really has. */
  datatype Site = Site(vm: Vm, pool: u32)

  /** A tick of the VM, with the pool a failed resize leaves; or its removal and rediscovery. */
  datatype SiteInput =
    | Ticked(snap: Snapshot, now: nat, hostCpu: real, admitted: bool, attempt: Attempt, poolIfFailed: u32)
    | Rediscovered(handle: nat, classification: Option<bool>)

  /** The pool that a decision leaves. */
  function Resized(disposition: Disposition, action: T.ScaleAction, pool: u32, ifFailed: u32): u32 {
    if disposition.Success? && !action.NoAction? then action.count
    else if disposition.Failed? then ifFailed
    else pool
  }

  datatype Loop = Loop(cfg: Config, tc: T.ValidConfig, vcpus: u32) {

    ghost predicate InBounds(n: u32) {
      cfg.minThreads <= n <= cfg.maxThreads && n <= vcpus
    }

    function Outcome(s: Site, i: SiteInput): VmOutcome
      requires i.Ticked?
    {
      VmTick(cfg, tc, s.vm, i.snap, i.now, i.hostCpu, i.admitted, i.attempt)
    }

    function Step(s: Site, i: SiteInput): Site {
      match i
      case Rediscovered(handle, classification) => s.(vm := Vm(NewStatus(handle, classification), T.FRESH))
      case Ticked(_, _, _, _, _, poolIfFailed) =>
        var o := Outcome(s, i);
        Site(o.vm, Resized(o.disposition, o.action, s.pool, poolIfFailed))
    }

    function After(start: Site, ins: seq<SiteInput>): Site {
      if |ins| == 0 then start else Step(After(start, ins[..|ins| - 1]), ins[|ins| - 1])
    }

    /** Snapshots report the real pool; a failed resize leaves it between the old count and the target. */
    ghost predicate Faithful(s: Site, i: SiteInput) {
      i.Ticked? ==>
        && i.snap.threadCount == s.pool
        && i.snap.vcpuCount == vcpus
        && (Outcome(s, i).disposition.Failed? ==>
              var target := Outcome(s, i).action.count;
              s.pool <= i.poolIfFailed <= target || target <= i.poolIfFailed <= s.pool)
    }

    ghost predicate FaithfulRun(start: Site, ins: seq<SiteInput>) {
      |ins| == 0
      || (FaithfulRun(start, ins[..|ins| - 1]) && Faithful(After(start, ins[..|ins| - 1]), ins[|ins| - 1]))
    }

    /** The inductive invariant of the loop: bounds, and a pending action that is the pool's last change. */
    ghost predicate Invariant(s: Site) {
      var pending := s.vm.engine.pending;
      && InBounds(s.pool)
      && (pending.Some? ==>
            && s.vm.status.ScalingAllowed()
            && InBounds(pending.value.baselineThreadCount)
            && (!cfg.dryRun ==>
                  && !pending.value.action.NoAction?
                  && s.pool == pending.value.action.count
                  && s.pool != pending.value.baselineThreadCount))
    }
  }

  /** A VM just discovered whose pool is inside the bounds. */
  ghost predicate JustDiscovered(l: Loop, s: Site) {
    s.vm.engine == T.FRESH && s.vm.status.cooldownUntil.None? && l.InBounds(s.pool)
  }

  /** A decision restores the pending action's earlier count, or comes with nothing pending. */
  lemma VerdictWhenPending(tc: T.ValidConfig, s: T.VmState, obs: T.Observation)
    ensures var v := T.Evaluate(tc, s, obs);
            && (v.action.Revert? ==> s.pending.Some? && v.action.count == s.pending.value.baselineThreadCount)
            && (v.action.Up? || v.action.Down? ==> s.pending.None?)
            && (v.state.pending.Some? ==>
                  && s.pending.Some? && v.action.NoAction?
                  && v.state.pending.value.action == s.pending.value.action
                  && v.state.pending.value.baselineThreadCount == s.pending.value.baselineThreadCount)
  {
  }

  lemma FeedbackPending(tc: T.ValidConfig, s: T.VmState, outcome: T.Outcome)
    requires s.pending.None?
    ensures T.OnApplied(tc, s, outcome).pending.Some? ==>
              && (outcome.Success? || outcome.DryRun?)
              && T.OnApplied(tc, s, outcome).pending.value.action == outcome.action
              && T.OnApplied(tc, s, outcome).pending.value.baselineThreadCount == outcome.prevThreadCount
  {
  }

  lemma RevertFeedbackIgnored(tc: T.ValidConfig, s: T.VmState, outcome: T.Outcome)
    requires outcome.Blocked? || outcome.Failed? || outcome.action.Revert?
    ensures T.OnApplied(tc, s, outcome) == s
  {
  }

  lemma InvariantStep(l: Loop, s: Site, i: SiteInput)
    requires l.cfg.Valid() && l.Invariant(s) && l.Faithful(s, i)
    ensures l.Invariant(l.Step(s, i))
  {
    hide T.Evaluate, T.OnApplied;
    if i.Ticked? {
      var status := Refresh(s.vm.status, i.snap);
      var v := T.Evaluate(l.tc, s.vm.engine, Observe(l.cfg, status, i.now));
      VerdictWhenPending(l.tc, s.vm.engine, Observe(l.cfg, status, i.now));
      RevertFeedbackIgnored(l.tc, v.state, T.Blocked);
      RevertFeedbackIgnored(l.tc, v.state, T.Failed);
      var success := T.Success(v.action, status.threadCount, status.ioCount, i.attempt.appliedAt);
      var dryRun := T.DryRun(v.action, status.threadCount, status.ioCount, i.attempt.appliedAt);
      if v.state.pending.None? {
        FeedbackPending(l.tc, v.state, success);
        FeedbackPending(l.tc, v.state, dryRun);
      }
    }
  }

  /**
   From a pool inside the bounds, no run of ticks, rediscoveries and backend
   failures takes the pool out of them.
   */
  lemma {:induction false} StaysInBounds(l: Loop, start: Site, ins: seq<SiteInput>)
    requires l.cfg.Valid() && JustDiscovered(l, start) && l.FaithfulRun(start, ins)
    ensures l.Invariant(l.After(start, ins))
    ensures l.InBounds(l.After(start, ins).pool)
  {
    hide VmTick;
    if |ins| != 0 {
      StaysInBounds(l, start, ins[..|ins| - 1]);
      InvariantStep(l, l.After(start, ins[..|ins| - 1]), ins[|ins| - 1]);
    }
  }

  /** Where the invariant holds, a `Revert` passes every guard. */
  lemma RevertPasses(l: Loop, s: Site, i: SiteInput)
    requires l.cfg.Valid() && l.Invariant(s) && l.Faithful(s, i)
    requires i.Ticked? && l.Outcome(s, i).action.Revert?
    ensures var o := l.Outcome(s, i);
            && !o.disposition.Blocked?
            && l.InBounds(o.action.count)
            && (!l.cfg.dryRun ==> o.disposition.Capped? || o.disposition.Failed? || o.disposition.Success?)
  {
    hide T.Evaluate, T.OnApplied;
    VerdictWhenPending(l.tc, s.vm.engine, Observe(l.cfg, Refresh(s.vm.status, i.snap), i.now));
  }

  /**
   In every run, a `Revert` the engine emits is never blocked by a guard; and
   unless the controller only pretends, it is always planned.
   */
  lemma RevertNeverBlocked(l: Loop, start: Site, ins: seq<SiteInput>, i: SiteInput)
    requires l.cfg.Valid() && JustDiscovered(l, start) && l.FaithfulRun(start, ins + [i])
    requires i.Ticked? && l.Outcome(l.After(start, ins), i).action.Revert?
    ensures var o := l.Outcome(l.After(start, ins), i);
            && !o.disposition.Blocked?
            && l.InBounds(o.action.count)
            && (!l.cfg.dryRun ==> o.disposition.Capped? || o.disposition.Failed? || o.disposition.Success?)
  {
    hide VmTick;
    assert (ins + [i])[..|ins|] == ins;
    StaysInBounds(l, start, ins);
    RevertPasses(l, l.After(start, ins), i);
  }

  /** A dry run resizes nothing and shows the size it saw, while the engine is told of a success. */
  lemma DryRunOnlyPretends(l: Loop, s: Site, i: SiteInput)
    requires l.cfg.dryRun && i.Ticked?
    ensures var o := l.Outcome(s, i);
            && !o.disposition.Success? && !o.disposition.Failed?
            && o.vm.status.threadCount == i.snap.threadCount
            && l.Step(s, i).pool == s.pool
  {
    hide T.Evaluate, T.OnApplied;
  }

  /** A VM the backend left to the operator is evaluated, but its pool is never touched and nothing becomes pending. */
  lemma {:induction false} UnmanagedNeverResized(l: Loop, start: Site, ins: seq<SiteInput>)
    requires start.vm.status.classification == Some(false) && start.vm.engine == T.FRESH
    requires forall k :: 0 <= k < |ins| ==> ins[k].Ticked?
    ensures var s := l.After(start, ins);
            s.pool == start.pool && s.vm.status.classification == Some(false) && s.vm.engine.pending.None?
  {
    hide T.Evaluate, T.OnApplied;
    if |ins| != 0 {
      var front, i := ins[..|ins| - 1], ins[|ins| - 1];
      UnmanagedNeverResized(l, start, front);
      var s := l.After(start, front);
      var status := Refresh(s.vm.status, i.snap);
      VerdictWhenPending(l.tc, s.vm.engine, Observe(l.cfg, status, i.now));
      RevertFeedbackIgnored(l.tc, T.Evaluate(l.tc, s.vm.engine, Observe(l.cfg, status, i.now)).state, T.Blocked);
    }
  }

  /** The outcome of tick `k` of a run. */
  function OutcomeAt(l: Loop, start: Site, ins: seq<SiteInput>, k: nat): VmOutcome
    requires k < |ins| && ins[k].Ticked?
  {
    l.Outcome(l.After(start, ins[..k]), ins[k])
  }

  lemma NothingYet(l: Loop, start: Site)
    ensures l.After(start, []) == start && l.FaithfulRun(start, [])
  {
  }

  lemma OneInput(l: Loop, start: Site, ins: seq<SiteInput>, i: SiteInput)
    ensures l.After(start, ins + [i]) == l.Step(l.After(start, ins), i)
    ensures l.FaithfulRun(start, ins + [i]) <==> l.FaithfulRun(start, ins) && l.Faithful(l.After(start, ins), i)
  {
    hide VmTick;
    assert (ins + [i])[..|ins|] == ins;
  }

  // ---------------------------------------------------------------- the engine's history in the loop

  /** The engine's history of the VM: one entry per evaluation, whatever happened to the decision. */
  function HistoryOf(l: Loop, start: Site, ins: seq<SiteInput>): seq<H.Entry> {
    if |ins| == 0 then []
    else
      var front, i := ins[..|ins| - 1], ins[|ins| - 1];
      var s := l.After(start, front);
      HistoryOf(l, start, front) +
      match i
      case Rediscovered(_, _) => [H.Rediscovered]
      case Ticked(snap, now, _, _, attempt, _) =>
        var o := l.Outcome(s, i);
        if o.disposition.NotEvaluated? then []
        else [H.Evaluated(SeenBy(l.cfg, s.vm.status, snap, now), o.action,
                          if o.disposition.Adjusted() then Some(attempt.appliedAt) else None)]
  }

  /** The feedback of a dry run and of a success leave the same record. */
  lemma DryRunLikeSuccess(tc: T.ValidConfig, s: T.VmState, action: T.ScaleAction, prev: u32, io: nat, at: nat)
    ensures T.OnApplied(tc, s, T.DryRun(action, prev, io, at)) == T.OnApplied(tc, s, T.Success(action, prev, io, at))
  {
  }

  /** One evaluated tick is one entry of the history. */
  lemma TickIsEntry(l: Loop, s: Site, i: SiteInput)
    requires i.Ticked? && !l.Outcome(s, i).disposition.NotEvaluated?
    ensures var o := l.Outcome(s, i);
            var obs := SeenBy(l.cfg, s.vm.status, i.snap, i.now);
            var e := H.Evaluated(obs, o.action,
                                 if o.disposition.Adjusted() then Some(i.attempt.appliedAt) else None);
            && o.action == T.Evaluate(l.tc, s.vm.engine, obs).action
            && (o.disposition.Adjusted() ==> o.action != T.NoAction)
            && o.vm.engine == H.StateAfterEntry(l.tc, s.vm.engine, e)
  {
    hide T.Evaluate, T.OnApplied, Refresh, SeenBy;
    RefreshShows(l.cfg, s.vm.status, i.snap, i.now);
    var obs := SeenBy(l.cfg, s.vm.status, i.snap, i.now);
    var v := T.Evaluate(l.tc, s.vm.engine, obs);
    RevertFeedbackIgnored(l.tc, v.state, T.Blocked);
    RevertFeedbackIgnored(l.tc, v.state, T.Failed);
    DryRunLikeSuccess(l.tc, v.state, v.action, obs.threadCount, obs.ioCount, i.attempt.appliedAt);
  }

  lemma SkippedTickKeepsEngine(l: Loop, s: Site, i: SiteInput)
    requires i.Ticked? && l.Outcome(s, i).disposition.NotEvaluated?
    ensures l.Outcome(s, i).vm.engine == s.vm.engine
  {
    hide T.Evaluate, T.OnApplied;
  }

  /** So every theorem about consistent histories holds of the engine inside the loop. */
  lemma {:induction false} LoopFollowsHistory(l: Loop, start: Site, ins: seq<SiteInput>)
    requires start.vm.engine == T.FRESH
    ensures H.Consistent(l.tc, HistoryOf(l, start, ins))
    ensures l.After(start, ins).vm.engine == H.StateAfter(l.tc, HistoryOf(l, start, ins))
  {
    hide T.Evaluate, H.StateAfterEntry, ApplyDecision, Refresh;
    if |ins| != 0 {
      var front, i := ins[..|ins| - 1], ins[|ins| - 1];
      var before := HistoryOf(l, start, front);
      LoopFollowsHistory(l, start, front);
      var h := HistoryOf(l, start, ins);
      if i.Rediscovered? {
        assert H.Front(h) == before;
      } else if !l.Outcome(l.After(start, front), i).disposition.NotEvaluated? {
        TickIsEntry(l, l.After(start, front), i);
        assert H.Front(h) == before;
      } else {
        SkippedTickKeepsEngine(l, l.After(start, front), i);
        assert h == before;
      }
    }
  }
}
