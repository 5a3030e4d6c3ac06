/**
 The controller's tick as functions on values (src/controller.rs,
 src/instance.rs): refresh, evaluation, plan, guards and feedback. The class in
 Controller.dfy is proved against them.
 */
module ControlLoop {
  import opened Common
  import opened Ownership
  import T = Threshold

  // ---------------------------------------------------------------- data

  datatype Config = Config(
    minThreads: u32,
    maxThreads: u32,
    hostCpuCeiling: real,
    cooldown: nat,
    maxAdjusted: u32,
    dryRun: bool)
  {
    /** What `validate_config` accepts. */
    ghost predicate Valid() {
      0 < minThreads <= maxThreads
    }
  }

  datatype PerfCounts = PerfCounts(readOps: nat, writeOps: nat, otherOps: nat) {
    function Total(): nat {
      Sat64(Sat64(readOps + writeOps) + otherOps)
    }
  }

  /** Where the utilisation of a snapshot comes from. */
  datatype UtilReading = Backend(util: real) | Procfs(util: real) | NoReading

  /** One successful backend snapshot, with what the controller samples beside it. */
  datatype Snapshot = Snapshot(
    threadCount: u32,
    vcpuCount: u32,
    perf: Option<PerfCounts>,
    reading: UtilReading,
    throttled: bool,
    initiallyManaged: bool)

  /** The tracked record of a VM: its client and its latest state. */
  datatype Status = Status(
    handle: nat,
    threadCount: u32,
    vcpuCount: u32,
    classification: Option<bool>,
    cooldownUntil: Option<nat>,
    sticky: bool,
    ioCount: nat,
    util: real,
    throttled: bool)
  {
    /** `InstanceStatus::scaling_allowed()`. */
    predicate ScalingAllowed() {
      classification == Some(true)
    }
  }

  /** A VM as the controller and the engine see it. */
  datatype Vm = Vm(status: Status, engine: T.VmState)

  /** A record just discovered, classified from the registry. */
  function NewStatus(handle: nat, classification: Option<bool>): Status {
    Status(handle, 0, 0, classification, None, false, 0, 0.0, false)
  }

  /** `apply_thread_pool_snapshot`: the first usable snapshot classifies the VM, for good. */
  function Refresh(s: Status, snap: Snapshot): Status {
    s.(classification := if s.classification.None? then Some(snap.initiallyManaged) else s.classification,
       threadCount := snap.threadCount,
       vcpuCount := snap.vcpuCount,
       ioCount := if snap.perf.Some? then snap.perf.value.Total() else 0,
       util := match snap.reading
               case Backend(util) => Clamp01(util)
               case Procfs(util) => util
               case NoReading => s.util,
       throttled := snap.throttled)
  }

  function Observe(cfg: Config, s: Status, now: nat): T.Observation {
    T.Observation(s.util, s.threadCount, s.ioCount, s.throttled, now, cfg.minThreads, cfg.maxThreads)
  }

  // ---------------------------------------------------------------- one decision

  datatype BlockedReason =
    | ManualOverride
    | UnmanagedVm
    | TargetBelowMinimum
    | TargetExceedsMaximum
    | TargetExceedsVcpuCount
    | Cooldown
    | HostCpuCeiling

  /** Clock readings and the backend's answer while one decision is applied. */
  datatype Attempt = Attempt(guardAt: nat, markAt: nat, appliedAt: nat, accepted: bool)

  datatype Disposition =
    | NotEvaluated
    | NotPlanned
    | Capped
    | Blocked(reason: BlockedReason)
    | DryRun
    | Failed
    | Success
  {
    /** The decision used up one of the adjustments of this tick. */
    predicate Adjusted() {
      DryRun? || Success?
    }

    /** The decision was handed to the guards. */
    predicate Attempted() {
      Blocked? || Failed? || Adjusted()
    }
  }

  /** The first guard that rejects `action`, in the order they are checked. */
  function Guard(cfg: Config, s: Status, action: T.ScaleAction, guardAt: nat, hostCpu: real): Option<BlockedReason>
    requires !action.NoAction?
  {
    var target := action.count;
    if s.sticky then Some(ManualOverride)
    else if !s.ScalingAllowed() then Some(UnmanagedVm)
    else if target < cfg.minThreads then Some(TargetBelowMinimum)
    else if target > cfg.maxThreads then Some(TargetExceedsMaximum)
    else if target > s.vcpuCount then Some(TargetExceedsVcpuCount)
    else if (action.Up? || action.Down?) && s.cooldownUntil.Some? && guardAt < s.cooldownUntil.value then Some(Cooldown)
    else if target > s.threadCount && action.Up? && cfg.hostCpuCeiling > 0.0 && hostCpu >= cfg.hostCpuCeiling then
      Some(HostCpuCeiling)
    else None
  }

  /** `apply_engine_decision`, feedback to the engine included. */
  function ApplyDecision(cfg: Config, tc: T.ValidConfig, vm: Vm, action: T.ScaleAction, hostCpu: real, a: Attempt)
    : (Vm, Disposition)
    requires !action.NoAction?
  {
    var s := vm.status;
    var blocked := Guard(cfg, s, action, a.guardAt, hostCpu);
    if blocked.Some? then
      (vm.(engine := T.OnApplied(tc, vm.engine, T.Blocked)), Blocked(blocked.value))
    else if cfg.dryRun then
      (Vm(s.(cooldownUntil := Some(a.markAt + cfg.cooldown)),
          T.OnApplied(tc, vm.engine, T.DryRun(action, s.threadCount, s.ioCount, a.appliedAt))),
       DryRun)
    else if a.accepted then
      (Vm(s.(threadCount := action.count, cooldownUntil := Some(a.appliedAt + cfg.cooldown)),
          T.OnApplied(tc, vm.engine, T.Success(action, s.threadCount, s.ioCount, a.appliedAt))),
       Success)
    else
      (vm.(engine := T.OnApplied(tc, vm.engine, T.Failed)), Failed)
  }

  // ---------------------------------------------------------------- plan

  datatype Decision = Decision(id: string, action: T.ScaleAction)

  datatype PlanItem = PlanItem(grows: bool, sequence: nat, id: string, action: T.ScaleAction)

  /** The first decision for each tracked VM, when it asks for another size. */
  function PlanOf(vms: map<string, Vm>, ds: seq<Decision>): seq<PlanItem> {
    if |ds| == 0 then []
    else
      var front, d := ds[..|ds| - 1], ds[|ds| - 1];
      PlanOf(vms, front) +
      if Mentioned(front, d.id) || d.id !in vms || d.action.NoAction? || d.action.count == vms[d.id].status.threadCount
      then []
      else [PlanItem(d.action.count > vms[d.id].status.threadCount, |front|, d.id, d.action)]
  }

  predicate Mentioned(ds: seq<Decision>, id: string) {
    exists i :: 0 <= i < |ds| && ds[i].id == id
  }

  function Filter(plan: seq<PlanItem>, grows: bool): seq<PlanItem> {
    if |plan| == 0 then []
    else Filter(plan[..|plan| - 1], grows)
         + if plan[|plan| - 1].grows == grows then [plan[|plan| - 1]] else []
  }

  /** Shrinks before grows, each in the order of the decisions. */
  function SortPlan(plan: seq<PlanItem>): seq<PlanItem> {
    Filter(plan, false) + Filter(plan, true)
  }

  // ---------------------------------------------------------------- applying the plan

  datatype Tried = Tried(item: PlanItem, disposition: Disposition)

  datatype Progress = Progress(vms: map<string, Vm>, adjusted: nat, tried: seq<Tried>)

  /** What the environment answers to an attempt on each VM. */
  type Environment = string -> Attempt

  predicate CapReached(cfg: Config, adjusted: nat) {
    cfg.maxAdjusted > 0 && adjusted >= cfg.maxAdjusted
  }

  /** One plan item: skipped once the cap is reached, attempted otherwise. */
  function ApplyItem(cfg: Config, tc: T.ValidConfig, hostCpu: real, env: Environment, p: Progress, item: PlanItem)
    : Progress
  {
    if CapReached(cfg, p.adjusted) || item.id !in p.vms || item.action.NoAction? then p
    else
      var (vm, disposition) := ApplyDecision(cfg, tc, p.vms[item.id], item.action, hostCpu, env(item.id));
      Progress(p.vms[item.id := vm],
               p.adjusted + if disposition.Adjusted() then 1 else 0,
               p.tried + [Tried(item, disposition)])
  }

  function ApplyPlan(cfg: Config, tc: T.ValidConfig, hostCpu: real, env: Environment,
                     vms: map<string, Vm>, plan: seq<PlanItem>): Progress
  {
    if |plan| == 0 then Progress(vms, 0, [])
    else ApplyItem(cfg, tc, hostCpu, env,
                   ApplyPlan(cfg, tc, hostCpu, env, vms, plan[..|plan| - 1]), plan[|plan| - 1])
  }

  // ---------------------------------------------------------------- whole fleet

  /** Refresh every VM; one whose snapshot fails leaves the inventory and the engine. */
  function RefreshFleet(vms: map<string, Vm>, snaps: string -> Option<Snapshot>): map<string, Vm> {
    map id | id in vms && snaps(id).Some? :: vms[id].(status := Refresh(vms[id].status, snaps(id).value))
  }

  function EvaluateVm(cfg: Config, tc: T.ValidConfig, vm: Vm, now: nat): T.Verdict {
    if vm.status.sticky then T.Verdict(vm.engine, T.NoAction)
    else T.Evaluate(tc, vm.engine, Observe(cfg, vm.status, now))
  }

  /** Evaluate every VM without a manual override. */
  function EvaluateFleet(cfg: Config, tc: T.ValidConfig, vms: map<string, Vm>, now: nat): map<string, Vm> {
    map id | id in vms :: vms[id].(engine := EvaluateVm(cfg, tc, vms[id], now).state)
  }

  /** The decisions, in the order the fleet is enumerated. */
  function Decisions(cfg: Config, tc: T.ValidConfig, vms: map<string, Vm>, order: seq<string>, now: nat): seq<Decision> {
    if |order| == 0 then []
    else
      var id := order[|order| - 1];
      Decisions(cfg, tc, vms, order[..|order| - 1], now)
      + if id !in vms || vms[id].status.sticky then []
        else [Decision(id, EvaluateVm(cfg, tc, vms[id], now).action)]
  }

  /** The registry after committing classifications, up to the first that contradicts it. */
  datatype Commit = Commit(registry: Registry, agreed: bool)

  function CommitOne(c: Commit, vms: map<string, Vm>, id: string): Commit {
    if !c.agreed || id !in vms || vms[id].status.classification.None? then c
    else
      var isManaged := vms[id].status.classification.value;
      match c.registry.Classification(id)
      case Some(known) => c.(agreed := known == isManaged)
      case None => c.(registry := c.registry.Recorded(id, isManaged))
  }

  function CommitAll(r: Registry, vms: map<string, Vm>, order: seq<string>): Commit {
    if |order| == 0 then Commit(r, true)
    else CommitOne(CommitAll(r, vms, order[..|order| - 1]), vms, order[|order| - 1])
  }

  /** Everything a tick reads from outside. */
  datatype TickInput = TickInput(
    now: nat,
    hostCpu: real,
    snaps: string -> Option<Snapshot>,
    order: seq<string>,
    saveOk: bool,
    env: Environment)

  /** Controller, engine and registry state; `running` is false once a tick returned an error. */
  datatype World = World(vms: map<string, Vm>, memory: Registry, disk: Registry, running: bool)

  datatype TickError = OwnershipChanged | SaveFailed

  datatype TickResult = TickDone(world: World, tried: seq<Tried>) | TickFailed(world: World, error: TickError)

  function PlanFor(cfg: Config, tc: T.ValidConfig, vms: map<string, Vm>, order: seq<string>, now: nat): seq<PlanItem> {
    SortPlan(PlanOf(EvaluateFleet(cfg, tc, vms, now), Decisions(cfg, tc, vms, order, now)))
  }

  /** `Controller::tick`. */
  function TickWorld(cfg: Config, tc: T.ValidConfig, w: World, inp: TickInput): TickResult {
    var fleet := RefreshFleet(w.vms, inp.snaps);
    var commit := CommitAll(w.memory, fleet, inp.order);
    var memory := commit.registry;
    var saved := memory == w.memory || (inp.saveOk && memory.Disjoint());
    if !commit.agreed then TickFailed(World(fleet, memory, w.disk, false), OwnershipChanged)
    else if !saved then TickFailed(World(fleet, memory, w.disk, false), SaveFailed)
    else
      var evaluated := EvaluateFleet(cfg, tc, fleet, inp.now);
      var plan := PlanFor(cfg, tc, fleet, inp.order, inp.now);
      var p := ApplyPlan(cfg, tc, inp.hostCpu, inp.env, evaluated, plan);
      TickDone(World(p.vms, memory, if memory == w.memory then w.disk else memory, true), p.tried)
  }

  // ---------------------------------------------------------------- inventory

  datatype Discovered = Discovered(id: string, handle: nat)

  function IdsOf(ds: seq<Discovered>): set<string> {
    set i | 0 <= i < |ds| :: ds[i].id
  }

  /** Inventory after the first loop of `sync_instances`, with the count added and the handles closed. */
  datatype Synced = Synced(vms: map<string, Vm>, added: nat, closed: multiset<nat>)

  function AddOne(s: Synced, r: Registry, d: Discovered): Synced {
    if d.id in s.vms then s.(closed := s.closed + multiset{d.handle})
    else Synced(s.vms[d.id := Vm(NewStatus(d.handle, r.Classification(d.id)), T.FRESH)], s.added + 1, s.closed)
  }

  function AddDiscovered(vms: map<string, Vm>, r: Registry, ds: seq<Discovered>): Synced {
    if |ds| == 0 then Synced(vms, 0, multiset{})
    else AddOne(AddDiscovered(vms, r, ds[..|ds| - 1]), r, ds[|ds| - 1])
  }

  /** `Controller::sync_instances`: add what was discovered, then drop what was not. */
  function SyncWorld(w: World, ds: seq<Discovered>): World {
    var s := AddDiscovered(w.vms, w.memory, ds);
    w.(vms := map id | id in s.vms && id in IdsOf(ds) :: s.vms[id])
  }

  /** Number of VMs that a sync drops. */
  function RemovedBySync(w: World, ds: seq<Discovered>): nat {
    |AddDiscovered(w.vms, w.memory, ds).vms.Keys - IdsOf(ds)|
  }
}
