/**
 Progress of a whole fleet under the limit on adjustments per poll: constant
 loads, a backend that accepts, and no validation.
 */
module FleetProgress {
  import opened Common
  import opened ControlLoop
  import opened ClosedLoop
  import P = PlanTheorems
  import C = Convergence
  import S = Sizing
  import T = Threshold

  /** A configuration, and the constant load of every VM. */
  datatype Fleet = Fleet(cfg: Config, tc: T.ValidConfig, loads: string -> real) {

    ghost predicate Valid() {
      cfg.Valid() && !cfg.dryRun && tc.scaleUpThreshold < 1.0 && C.Unvalidated(tc)
    }

    function Setting(id: string): C.Setting {
      C.Setting(tc, loads(id), cfg.minThreads, cfg.maxThreads)
    }

    /** Steps that separate a pool of `n` workers of `id` from its ideal size. */
    function Steps(id: string, n: u32): nat
      requires Valid()
    {
      Setting(id).StepsLeft(n)
    }

    /** Evaluations that a shrink takes. */
    function Patience(): nat {
      Max(1, tc.polls.scaleDownSustain)
    }

    /** Nothing but the load decides the size of the VM. */
    ghost predicate Free(vm: Vm) {
      && vm.status.classification == Some(true) && !vm.status.sticky
      && cfg.minThreads <= vm.status.threadCount <= cfg.maxThreads
      && vm.engine.pending.None? && vm.engine.hold.None? && vm.engine.failedDowns == 0
    }

    /** The poll finds the pool as it was left, under its load; no guard stands in the way and the backend accepts. */
    ghost predicate Sees(id: string, vm: Vm, snap: Snapshot, hostCpu: real, a: Attempt) {
      && snap.threadCount == vm.status.threadCount && cfg.maxThreads <= snap.vcpuCount && !snap.throttled
      && 0 < snap.threadCount && Refresh(vm.status, snap).util == S.SharedUtil(loads(id), snap.threadCount)
      && !(0.0 < cfg.hostCpuCeiling <= hostCpu)
      && a.accepted && (vm.status.cooldownUntil.Some? ==> vm.status.cooldownUntil.value <= a.guardAt)
      && vm.engine.lowUtilPolls < U32_MAX
    }

    ghost predicate AllFree(vms: map<string, Vm>) {
      forall id :: id in vms ==> Free(vms[id])
    }

    ghost predicate Steady(vms: map<string, Vm>, inp: TickInput) {
      forall id :: id in vms ==>
        && id in inp.order
        && inp.snaps(id).Some? && Sees(id, vms[id], inp.snaps(id).value, inp.hostCpu, inp.env(id))
    }
  }

  // ---------------------------------------------------------------- one VM

  /** The VM has its ideal size. */
  predicate IsIdeal(fl: Fleet, id: string, vm: Vm)
    requires fl.Valid()
  {
    vm.status.threadCount == fl.Setting(id).Ideal()
  }

  /** An evaluation of a free VM decides the next move, or still gathers evidence. */
  lemma FreeEvaluation(fl: Fleet, id: string, vm: Vm, obs: T.Observation)
    requires fl.Valid() && fl.Free(vm) && vm.engine.lowUtilPolls < U32_MAX
    requires fl.Setting(id).Sees(obs, vm.status.threadCount) && !obs.throttled
    ensures var v, n := T.Evaluate(fl.tc, vm.engine, obs), vm.status.threadCount;
            && !v.action.Revert?
            && v.state.pending.None? && v.state.hold.None? && v.state.failedDowns == 0
            && (!v.action.NoAction? ==>
                  && fl.cfg.minThreads <= v.action.count <= fl.cfg.maxThreads && v.action.count != n
                  && fl.Steps(id, v.action.count) == fl.Steps(id, n) - 1)
            && (v.action.NoAction? && n != fl.Setting(id).Ideal() ==>
                  v.state.lowUtilPolls == vm.engine.lowUtilPolls + 1 < fl.Patience())
  {
    hide S.IdealSize, T.IopsRate, T.ScaleDownTarget, T.SustainPolls, C.Setting.StepsLeft;
    C.DecisionApproaches(fl.Setting(id), vm.engine, obs, vm.status.threadCount);
    S.MovesTowardsIdeal(fl.tc, obs, fl.loads(id));
    C.SustainFits(fl.tc, 0);
    C.SustainIs(fl.tc);
    IdealInside(fl, id);
  }

  lemma IdealInside(fl: Fleet, id: string)
    requires fl.Valid()
    ensures fl.cfg.minThreads <= fl.Setting(id).Ideal() <= fl.cfg.maxThreads
  {
  }

  /** A tick of a free VM: an admitted decision is one step, anything else leaves the pool. */
  lemma FreeTick(fl: Fleet, id: string, vm: Vm, snap: Snapshot, now: nat, hostCpu: real, admitted: bool, a: Attempt)
    requires fl.Valid() && fl.Free(vm) && fl.Sees(id, vm, snap, hostCpu, a)
    ensures var o := VmTick(fl.cfg, fl.tc, vm, snap, now, hostCpu, admitted, a);
            && fl.Free(o.vm)
            && (if admitted && !o.action.NoAction?
                then o.disposition == Success
                     && fl.Steps(id, o.vm.status.threadCount) == fl.Steps(id, vm.status.threadCount) - 1
                else !o.disposition.Attempted() && o.vm.status.threadCount == vm.status.threadCount)
            && (o.action.NoAction? && !IsIdeal(fl, id, vm) ==>
                  o.vm.engine.lowUtilPolls == vm.engine.lowUtilPolls + 1 < fl.Patience())
  {
    hide S.IdealSize, T.Evaluate, C.Setting.StepsLeft, S.SharedUtil;
    var status := Refresh(vm.status, snap);
    var obs := Observe(fl.cfg, status, now);
    assert fl.Setting(id).Sees(obs, vm.status.threadCount);
    FreeEvaluation(fl, id, vm, obs);
  }

  // ---------------------------------------------------------------- one poll

  /** Each VM of a free fleet makes one step if it was attempted, and none otherwise. */
  lemma PollOfOne(fl: Fleet, w: World, inp: TickInput, id: string)
    requires fl.Valid() && fl.AllFree(w.vms) && fl.Steady(w.vms, inp) && id in w.vms
    requires TickWorld(fl.cfg, fl.tc, w, inp).TickDone?
    ensures var after, tried := TickWorld(fl.cfg, fl.tc, w, inp).world.vms, TickWorld(fl.cfg, fl.tc, w, inp).tried;
            && id in after && fl.Free(after[id])
            && fl.Steps(id, after[id].status.threadCount) + (if AttemptedOn(tried, id) then 1 else 0)
               == fl.Steps(id, w.vms[id].status.threadCount)
            && (!AttemptedOn(tried, id) ==> after[id].status.threadCount == w.vms[id].status.threadCount)
            && (forall k :: 0 <= k < |tried| && tried[k].item.id == id ==> tried[k].disposition == Success)
  {
    hide TickWorld, VmTick, S.IdealSize, C.Setting.StepsLeft, Refresh, S.SharedUtil;
    var tried := TickWorld(fl.cfg, fl.tc, w, inp).tried;
    var admitted := TickProjects(fl.cfg, fl.tc, w, inp, id);
    FreeTick(fl, id, w.vms[id], inp.snaps(id).value, inp.now, inp.hostCpu, admitted, inp.env(id));
    var o := VmTick(fl.cfg, fl.tc, w.vms[id], inp.snaps(id).value, inp.now, inp.hostCpu, admitted, inp.env(id));
    if admitted {
      AttemptsAct(fl.cfg, fl.tc, w, inp);
      var k :| 0 <= k < |tried| && tried[k].item.id == id;
      assert !tried[k].item.action.NoAction?;
    }
  }

  /** Attempts carry actions, and are on VMs that were tracked. */
  lemma AttemptsAct(cfg: Config, tc: T.ValidConfig, w: World, inp: TickInput)
    requires TickWorld(cfg, tc, w, inp).TickDone?
    ensures var tried := TickWorld(cfg, tc, w, inp).tried;
            var plan := PlanFor(cfg, tc, RefreshFleet(w.vms, inp.snaps), inp.order, inp.now);
            && (forall k :: 0 <= k < |tried| ==> !tried[k].item.action.NoAction? && tried[k].item.id in w.vms)
            && |tried| <= |plan|
            && (|tried| < |plan| ==> CapReached(cfg, P.AdjustedCount(tried)))
            && (0 < cfg.maxAdjusted ==> P.AdjustedCount(tried) <= cfg.maxAdjusted)
  {
    hide ApplyDecision, EvaluateVm, PlanFor, Refresh, CommitAll, P.AdjustedCount;
    var fleet := RefreshFleet(w.vms, inp.snaps);
    var plan := PlanFor(cfg, tc, fleet, inp.order, inp.now);
    PlanForIsSound(cfg, tc, fleet, inp.order, inp.now);
    P.AttemptsArePrefix(cfg, tc, inp.hostCpu, inp.env, EvaluateFleet(cfg, tc, fleet, inp.now), plan);
    var tried := TickWorld(cfg, tc, w, inp).tried;
    forall k | 0 <= k < |tried|
      ensures !tried[k].item.action.NoAction? && tried[k].item.id in w.vms
    {
      assert P.ItemsOf(tried)[k] == plan[k];
    }
  }

  lemma {:induction false} AllAdjusted(tried: seq<Tried>)
    requires forall k :: 0 <= k < |tried| ==> tried[k].disposition == Success
    ensures P.AdjustedCount(tried) == |tried|
  {
    if |tried| != 0 {
      AllAdjusted(tried[..|tried| - 1]);
    }
  }

  /** What a poll may adjust of a plan of `planned` items. */
  function Allowed(cfg: Config, planned: nat): nat {
    if cfg.maxAdjusted == 0 then planned else Min(cfg.maxAdjusted, planned)
  }

  /** As many items are attempted as the limit allows, and all of them succeed. */
  lemma LimitIsUsed(fl: Fleet, w: World, inp: TickInput)
    requires fl.Valid() && fl.AllFree(w.vms) && fl.Steady(w.vms, inp)
    requires TickWorld(fl.cfg, fl.tc, w, inp).TickDone?
    ensures var plan := PlanFor(fl.cfg, fl.tc, RefreshFleet(w.vms, inp.snaps), inp.order, inp.now);
            |TickWorld(fl.cfg, fl.tc, w, inp).tried| == Allowed(fl.cfg, |plan|)
  {
    hide TickWorld, PlanFor, Fleet.Free, Fleet.Sees, C.Setting.StepsLeft;
    var tried := TickWorld(fl.cfg, fl.tc, w, inp).tried;
    AttemptsAct(fl.cfg, fl.tc, w, inp);
    forall k | 0 <= k < |tried|
      ensures tried[k].disposition == Success
    {
      PollOfOne(fl, w, inp, tried[k].item.id);
    }
    AllAdjusted(tried);
  }

  // ---------------------------------------------------------------- sums over the fleet

  /** Steps that separate the VMs in `ids` from their ideal sizes, taken together. */
  function TotalSteps(fl: Fleet, vms: map<string, Vm>, ids: seq<string>): nat
    requires fl.Valid() && forall id :: id in ids ==> id in vms
  {
    if |ids| == 0 then 0
    else
      var id := ids[|ids| - 1];
      TotalSteps(fl, vms, ids[..|ids| - 1]) + fl.Steps(id, vms[id].status.threadCount)
  }

  ghost function CountAttempted(tried: seq<Tried>, ids: seq<string>): nat {
    if |ids| == 0 then 0
    else CountAttempted(tried, ids[..|ids| - 1]) + if AttemptedOn(tried, ids[|ids| - 1]) then 1 else 0
  }

  ghost function TriedIds(tried: seq<Tried>): (r: seq<string>)
    ensures |r| == |tried|
  {
    seq(|tried|, k requires 0 <= k < |tried| => tried[k].item.id)
  }

  lemma {:induction false} CountIsSize(tried: seq<Tried>, ids: seq<string>)
    requires Distinct(ids)
    ensures CountAttempted(tried, ids) == |Elements(TriedIds(tried)) * Elements(ids)|
  {
    hide AttemptedOn, Elements, TriedIds;
    var all := Elements(TriedIds(tried));
    if |ids| == 0 {
      assert Elements(ids) == {};
    } else {
      var front, last := ids[..|ids| - 1], ids[|ids| - 1];
      CountIsSize(tried, front);
      ElementsNext(front, last);
      assert ids == front + [last];
      assert last !in front;
      AttemptedIsElement(tried, last);
      OneMoreMember(all, Elements(front), last);
    }
  }

  lemma OneMoreMember(a: set<string>, b: set<string>, x: string)
    requires x !in b
    ensures |a * (b + {x})| == |a * b| + if x in a then 1 else 0
  {
    if x in a {
      assert a * (b + {x}) == a * b + {x};
    } else {
      assert a * (b + {x}) == a * b;
    }
  }

  lemma AttemptedIsElement(tried: seq<Tried>, id: string)
    ensures AttemptedOn(tried, id) <==> id in Elements(TriedIds(tried))
  {
    if k :| 0 <= k < |tried| && tried[k].item.id == id {
      assert TriedIds(tried)[k] == id;
    }
  }

  /** The attempts on the fleet, counted VM by VM, are all attempts. */
  lemma CountIsAll(tried: seq<Tried>, ids: seq<string>)
    requires Distinct(ids)
    requires forall i, j :: 0 <= i < j < |tried| ==> tried[i].item.id != tried[j].item.id
    requires forall k :: 0 <= k < |tried| ==> tried[k].item.id in ids
    ensures CountAttempted(tried, ids) == |tried|
  {
    var names := TriedIds(tried);
    CountIsSize(tried, ids);
    DistinctCount(names);
    assert Elements(names) * Elements(ids) == Elements(names);
  }

  lemma {:induction false} StepsAddUp(fl: Fleet, before: map<string, Vm>, after: map<string, Vm>,
                                      tried: seq<Tried>, ids: seq<string>)
    requires fl.Valid() && forall id :: id in ids ==> id in before && id in after
    requires forall id :: id in ids ==>
               fl.Steps(id, after[id].status.threadCount) + (if AttemptedOn(tried, id) then 1 else 0)
               == fl.Steps(id, before[id].status.threadCount)
    ensures TotalSteps(fl, after, ids) + CountAttempted(tried, ids) == TotalSteps(fl, before, ids)
  {
    hide Fleet.Steps, AttemptedOn;
    if |ids| != 0 {
      StepsAddUp(fl, before, after, tried, ids[..|ids| - 1]);
    }
  }

  /** `ids` lists the tracked VMs, each once. */
  ghost predicate Lists(ids: seq<string>, vms: map<string, Vm>) {
    Distinct(ids) && forall id :: id in vms <==> id in ids
  }

  /**
   Each poll lowers the steps that separate the fleet from its ideal sizes by
   exactly as much as the limit allows of what was planned.
   */
  lemma PollLowersTotal(fl: Fleet, w: World, inp: TickInput, ids: seq<string>)
    requires fl.Valid() && fl.AllFree(w.vms) && fl.Steady(w.vms, inp) && Lists(ids, w.vms)
    requires TickWorld(fl.cfg, fl.tc, w, inp).TickDone?
    ensures var after := TickWorld(fl.cfg, fl.tc, w, inp).world.vms;
            var plan := PlanFor(fl.cfg, fl.tc, RefreshFleet(w.vms, inp.snaps), inp.order, inp.now);
            && fl.AllFree(after) && Lists(ids, after)
            && TotalSteps(fl, after, ids) == TotalSteps(fl, w.vms, ids) - Allowed(fl.cfg, |plan|)
  {
    hide TickWorld, PlanFor, Fleet.Free, Fleet.Sees, Fleet.Steps, AttemptedOn;
    var after, tried := TickWorld(fl.cfg, fl.tc, w, inp).world.vms, TickWorld(fl.cfg, fl.tc, w, inp).tried;
    TickKeepsOnlyRefreshed(fl.cfg, fl.tc, w, inp);
    forall id | id in w.vms
      ensures id in after && fl.Free(after[id])
      ensures fl.Steps(id, after[id].status.threadCount) + (if AttemptedOn(tried, id) then 1 else 0)
           == fl.Steps(id, w.vms[id].status.threadCount)
    {
      PollOfOne(fl, w, inp, id);
    }
    StepsAddUp(fl, w.vms, after, tried, ids);
    LimitIsUsed(fl, w, inp);
    TickActuations(fl.cfg, fl.tc, w, inp);
    AttemptsAct(fl.cfg, fl.tc, w, inp);
    CountIsAll(tried, ids);
  }

  // ---------------------------------------------------------------- what a poll with an empty plan does

  lemma {:induction false} EvaluatedIsDecided(cfg: Config, tc: T.ValidConfig, vms: map<string, Vm>, order: seq<string>,
                                              now: nat, id: string) returns (k: nat)
    requires id in order && id in vms && !vms[id].status.sticky
    ensures k < |Decisions(cfg, tc, vms, order, now)| && Decisions(cfg, tc, vms, order, now)[k].id == id
    ensures !Mentioned(Decisions(cfg, tc, vms, order, now)[..k], id)
  {
    hide EvaluateVm;
    var n := |order| - 1;
    var front := order[..n];
    var before, all := Decisions(cfg, tc, vms, front, now), Decisions(cfg, tc, vms, order, now);
    assert before == all[..|before|];
    if id in front {
      k := EvaluatedIsDecided(cfg, tc, vms, front, now, id);
      assert before[..k] == all[..k];
    } else {
      assert order[n] == id;
      k := |before|;
      if Mentioned(before, id) {
        var i :| 0 <= i < |before| && before[i].id == id;
        DecidedIsListed(cfg, tc, vms, front, now, i);
        assert false;
      }
    }
  }

  lemma {:induction false} DecidedIsListed(cfg: Config, tc: T.ValidConfig, vms: map<string, Vm>, order: seq<string>,
                                           now: nat, i: nat)
    requires i < |Decisions(cfg, tc, vms, order, now)|
    ensures Decisions(cfg, tc, vms, order, now)[i].id in order
  {
    hide EvaluateVm;
    var front := order[..|order| - 1];
    if i < |Decisions(cfg, tc, vms, front, now)| {
      DecidedIsListed(cfg, tc, vms, front, now, i);
    }
  }

  /** A decision for another size is planned. */
  lemma DecidedIsPlanned(cfg: Config, tc: T.ValidConfig, vms: map<string, Vm>, order: seq<string>, now: nat, id: string)
    requires id in order && id in vms && !vms[id].status.sticky
    requires var action := EvaluateVm(cfg, tc, vms[id], now).action;
             !action.NoAction? && action.count != vms[id].status.threadCount
    ensures PlanFor(cfg, tc, vms, order, now) != []
  {
    hide EvaluateVm, PlanOf, Decisions, SortPlan;
    var evaluated := EvaluateFleet(cfg, tc, vms, now);
    var ds := Decisions(cfg, tc, vms, order, now);
    var k := EvaluatedIsDecided(cfg, tc, vms, order, now, id);
    DecisionsEvaluate(cfg, tc, vms, order, now);
    assert ds[k] in ds;
    P.PlanHoldsFirstDecisions(evaluated, ds);
    var item := P.ItemFor(evaluated, ds, k);
    assert item in PlanOf(evaluated, ds);
    P.PlanOncePerVm(evaluated, ds);
    P.SortPlanOncePerVm(PlanOf(evaluated, ds));
    assert item in SortPlan(PlanOf(evaluated, ds));
  }

  /** When a poll plans nothing, every VM that is not ideal has one more evaluation of evidence, and needs more. */
  lemma EmptyPlanGathers(fl: Fleet, w: World, inp: TickInput, id: string)
    requires fl.Valid() && fl.AllFree(w.vms) && fl.Steady(w.vms, inp) && id in w.vms
    requires TickWorld(fl.cfg, fl.tc, w, inp).TickDone?
    requires PlanFor(fl.cfg, fl.tc, RefreshFleet(w.vms, inp.snaps), inp.order, inp.now) == []
    ensures var after := TickWorld(fl.cfg, fl.tc, w, inp).world.vms;
            && id in after && after[id].status.threadCount == w.vms[id].status.threadCount
            && (!IsIdeal(fl, id, w.vms[id]) ==>
                  after[id].engine.lowUtilPolls == w.vms[id].engine.lowUtilPolls + 1 < fl.Patience())
  {
    hide TickWorld, PlanFor, T.Evaluate, T.OnApplied, S.IdealSize, C.Setting.StepsLeft, S.SharedUtil;
    var fleet := RefreshFleet(w.vms, inp.snaps);
    AttemptsAct(fl.cfg, fl.tc, w, inp);
    var admitted := TickProjects(fl.cfg, fl.tc, w, inp, id);
    var snap := inp.snaps(id).value;
    FreeTick(fl, id, w.vms[id], snap, inp.now, inp.hostCpu, admitted, inp.env(id));
    assert fleet[id] == w.vms[id].(status := Refresh(w.vms[id].status, snap));
    var obs := Observe(fl.cfg, fleet[id].status, inp.now);
    FreeEvaluation(fl, id, w.vms[id], obs);
    if !EvaluateVm(fl.cfg, fl.tc, fleet[id], inp.now).action.NoAction? {
      DecidedIsPlanned(fl.cfg, fl.tc, fleet, inp.order, inp.now, id);
    }
  }

  // ---------------------------------------------------------------- how many polls

  /** The most evidence that a VM in `ids` has towards its next shrink. */
  function MostEvidence(fl: Fleet, vms: map<string, Vm>, ids: seq<string>): nat
    requires fl.Valid() && forall id :: id in ids ==> id in vms
    ensures MostEvidence(fl, vms, ids) < fl.Patience()
  {
    if |ids| == 0 then 0
    else
      var id := ids[|ids| - 1];
      Max(MostEvidence(fl, vms, ids[..|ids| - 1]),
          if IsIdeal(fl, id, vms[id]) then 0 else Min(vms[id].engine.lowUtilPolls, fl.Patience() - 1))
  }

  /** Polls until every VM is ideal: at most `Patience` for each step, less the evidence in hand. */
  function PollsLeft(fl: Fleet, vms: map<string, Vm>, ids: seq<string>): nat
    requires fl.Valid() && forall id :: id in ids ==> id in vms
  {
    var total := TotalSteps(fl, vms, ids);
    if total == 0 then 0 else SatSub(fl.Patience() * total, MostEvidence(fl, vms, ids))
  }

  lemma {:induction false} TotalZero(fl: Fleet, vms: map<string, Vm>, ids: seq<string>)
    requires fl.Valid() && forall id :: id in ids ==> id in vms
    ensures TotalSteps(fl, vms, ids) == 0 <==> forall id :: id in ids ==> IsIdeal(fl, id, vms[id])
  {
    hide IsIdeal, Fleet.Steps;
    if |ids| != 0 {
      var front, last := ids[..|ids| - 1], ids[|ids| - 1];
      TotalZero(fl, vms, front);
      StepsZero(fl, last, vms[last]);
      assert ids == front + [last];
      assert last in ids;
    }
  }

  lemma StepsZero(fl: Fleet, id: string, vm: Vm)
    requires fl.Valid()
    ensures fl.Steps(id, vm.status.threadCount) == 0 <==> IsIdeal(fl, id, vm)
  {
    hide S.IdealSize;
    var p, n := fl.Setting(id), vm.status.threadCount;
    if p.Ideal() < n && 0 < fl.tc.maxScaleDownStep {
      C.MoveIsOneStep(p, n);
    }
  }

  /** Evidence grows in every VM that is not ideal, so the most evidence does. */
  lemma {:induction false} EvidenceGrows(fl: Fleet, before: map<string, Vm>, after: map<string, Vm>, ids: seq<string>)
    requires fl.Valid() && forall id :: id in ids ==> id in before && id in after
    requires forall id :: id in ids ==>
               && (IsIdeal(fl, id, before[id]) <==> IsIdeal(fl, id, after[id]))
               && (!IsIdeal(fl, id, before[id]) ==>
                     after[id].engine.lowUtilPolls == before[id].engine.lowUtilPolls + 1 < fl.Patience())
    ensures (forall id :: id in ids ==> IsIdeal(fl, id, before[id]))
            || MostEvidence(fl, after, ids) == MostEvidence(fl, before, ids) + 1
    ensures (forall id :: id in ids ==> IsIdeal(fl, id, before[id])) ==>
              MostEvidence(fl, after, ids) == 0 && MostEvidence(fl, before, ids) == 0
  {
    hide IsIdeal;
    if |ids| != 0 {
      var front, last := ids[..|ids| - 1], ids[|ids| - 1];
      EvidenceGrows(fl, before, after, front);
      assert ids == front + [last];
      assert last in ids;
    }
  }

  lemma FewerSteps(lap: nat, total: nat, fewer: nat, evidence: nat)
    requires evidence < lap && fewer < total
    ensures lap * fewer < lap * total - evidence
  {
    ProductAtLeast(lap, total - fewer);
    Distribute(lap, fewer, total - fewer);
  }

  lemma Distribute(a: nat, b: nat, c: nat)
    ensures a * (b + c) == a * b + a * c
  {
  }

  /** Each poll brings the fleet at least one poll closer. */
  lemma PollCloser(fl: Fleet, w: World, inp: TickInput, ids: seq<string>)
    requires fl.Valid() && fl.AllFree(w.vms) && fl.Steady(w.vms, inp) && Lists(ids, w.vms)
    requires TickWorld(fl.cfg, fl.tc, w, inp).TickDone?
    ensures var after := TickWorld(fl.cfg, fl.tc, w, inp).world.vms;
            && fl.AllFree(after) && Lists(ids, after)
            && PollsLeft(fl, after, ids) <= SatSub(PollsLeft(fl, w.vms, ids), 1)
  {
    hide TickWorld, PlanFor, Fleet.AllFree, Fleet.Steady, TotalSteps, MostEvidence, IsIdeal, Fleet.Patience;
    PollLowersTotal(fl, w, inp, ids);
    var after := TickWorld(fl.cfg, fl.tc, w, inp).world.vms;
    var plan := PlanFor(fl.cfg, fl.tc, RefreshFleet(w.vms, inp.snaps), inp.order, inp.now);
    var before, now := TotalSteps(fl, w.vms, ids), TotalSteps(fl, after, ids);
    if 0 < |plan| {
      FewerSteps(fl.Patience(), before, now, MostEvidence(fl, w.vms, ids));
    } else {
      EmptyPoll(fl, w, inp, ids);
    }
  }

  lemma EmptyPoll(fl: Fleet, w: World, inp: TickInput, ids: seq<string>)
    requires fl.Valid() && fl.AllFree(w.vms) && fl.Steady(w.vms, inp) && Lists(ids, w.vms)
    requires TickWorld(fl.cfg, fl.tc, w, inp).TickDone?
    requires PlanFor(fl.cfg, fl.tc, RefreshFleet(w.vms, inp.snaps), inp.order, inp.now) == []
    requires Lists(ids, TickWorld(fl.cfg, fl.tc, w, inp).world.vms)
    ensures 0 < TotalSteps(fl, w.vms, ids) ==>
              MostEvidence(fl, TickWorld(fl.cfg, fl.tc, w, inp).world.vms, ids) == MostEvidence(fl, w.vms, ids) + 1
  {
    hide TickWorld, PlanFor, Fleet.Free, Fleet.Sees, TotalSteps, MostEvidence, Fleet.Patience;
    var after := TickWorld(fl.cfg, fl.tc, w, inp).world.vms;
    forall id | id in ids
      ensures IsIdeal(fl, id, w.vms[id]) <==> IsIdeal(fl, id, after[id])
      ensures !IsIdeal(fl, id, w.vms[id]) ==>
                after[id].engine.lowUtilPolls == w.vms[id].engine.lowUtilPolls + 1 < fl.Patience()
    {
      EmptyPlanGathers(fl, w, inp, id);
    }
    TotalZero(fl, w.vms, ids);
    EvidenceGrows(fl, w.vms, after, ids);
  }

  /** The fleet after completed polls. */
  function AfterPolls(fl: Fleet, w: World, inps: seq<TickInput>): World {
    if |inps| == 0 then w
    else TickWorld(fl.cfg, fl.tc, AfterPolls(fl, w, inps[..|inps| - 1]), inps[|inps| - 1]).world
  }

  ghost predicate SteadyPolls(fl: Fleet, w: World, inps: seq<TickInput>) {
    |inps| == 0
    || (var front, inp := inps[..|inps| - 1], inps[|inps| - 1];
        && SteadyPolls(fl, w, front)
        && fl.Steady(AfterPolls(fl, w, front).vms, inp)
        && TickWorld(fl.cfg, fl.tc, AfterPolls(fl, w, front), inp).TickDone?)
  }

  lemma {:induction false} PollsBringCloser(fl: Fleet, w: World, inps: seq<TickInput>, ids: seq<string>)
    requires fl.Valid() && fl.AllFree(w.vms) && Lists(ids, w.vms) && SteadyPolls(fl, w, inps)
    ensures var after := AfterPolls(fl, w, inps).vms;
            && fl.AllFree(after) && Lists(ids, after)
            && PollsLeft(fl, after, ids) <= SatSub(PollsLeft(fl, w.vms, ids), |inps|)
  {
    hide TickWorld, PollsLeft, Fleet.AllFree, Fleet.Steady;
    if |inps| != 0 {
      var front := inps[..|inps| - 1];
      PollsBringCloser(fl, w, front, ids);
      PollCloser(fl, AfterPolls(fl, w, front), inps[|inps| - 1], ids);
    }
  }

  /**
   Whatever the limit, no VM starves: after as many polls as the steps of the
   whole fleet take, `Patience` for each, every VM has its ideal size.
   */
  lemma EveryVmBecomesIdeal(fl: Fleet, w: World, inps: seq<TickInput>, ids: seq<string>)
    requires fl.Valid() && fl.AllFree(w.vms) && Lists(ids, w.vms) && SteadyPolls(fl, w, inps)
    requires fl.Patience() * TotalSteps(fl, w.vms, ids) <= |inps|
    ensures var after := AfterPolls(fl, w, inps).vms;
            forall id :: id in w.vms ==> id in after && IsIdeal(fl, id, after[id])
  {
    hide TickWorld, AfterPolls, SteadyPolls, TotalSteps, MostEvidence, Fleet.AllFree, Fleet.Patience, IsIdeal;
    PollsBringCloser(fl, w, inps, ids);
    var after := AfterPolls(fl, w, inps).vms;
    assert PollsLeft(fl, after, ids) == 0;
    NothingLeft(fl, after, ids);
    TotalZero(fl, after, ids);
  }

  lemma NothingLeft(fl: Fleet, vms: map<string, Vm>, ids: seq<string>)
    requires fl.Valid() && forall id :: id in ids ==> id in vms
    requires PollsLeft(fl, vms, ids) == 0
    ensures TotalSteps(fl, vms, ids) == 0
  {
    hide TotalSteps, MostEvidence;
    if 0 < TotalSteps(fl, vms, ids) {
      ProductAtLeast(fl.Patience(), TotalSteps(fl, vms, ids));
    }
  }
}
