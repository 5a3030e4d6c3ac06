/** The controller in its own form: an inventory it mutates, and the engine it drives. */
module Controllers {
  import opened Common
  import opened ControlLoop
  import opened FleetRuns
  import opened Ownership
  import opened ThresholdEngines
  import T = Threshold

  /** The order in which a hash map happens to be enumerated: each key once. */
  ghost predicate Enumerates(order: seq<string>, keys: set<string>) {
    Distinct(order) && forall id :: id in keys <==> id in order
  }

  /** The ids that are not in `keep`, in order. */
  function Outside(order: seq<string>, keep: set<string>): seq<string> {
    if |order| == 0 then []
    else Outside(order[..|order| - 1], keep)
         + if order[|order| - 1] in keep then [] else [order[|order| - 1]]
  }

  /** The clients of the listed VMs. */
  function HandlesAt(instances: map<string, Status>, ids: seq<string>): multiset<nat> {
    if |ids| == 0 then multiset{}
    else
      var id := ids[|ids| - 1];
      HandlesAt(instances, ids[..|ids| - 1])
      + if id in instances then multiset{instances[id].handle} else multiset{}
  }

  /** The VMs whose snapshot arrived. */
  function Answered(instances: map<string, Status>, snaps: string -> Option<Snapshot>): set<string> {
    set id | id in instances && snaps(id).Some?
  }

  /** Inventory and engine records side by side. */
  ghost function Zip(instances: map<string, Status>, records: map<string, T.VmState>): map<string, Vm>
    requires instances.Keys == records.Keys
  {
    map id | id in instances :: Vm(instances[id], records[id])
  }

  lemma ZipAt(instances: map<string, Status>, records: map<string, T.VmState>, id: string)
    requires instances.Keys == records.Keys && id in instances
    ensures Zip(instances, records).Keys == instances.Keys
    ensures Zip(instances, records)[id] == Vm(instances[id], records[id])
  {
  }

  lemma ZipKeys(instances: map<string, Status>, records: map<string, T.VmState>)
    requires instances.Keys == records.Keys
    ensures Zip(instances, records).Keys == instances.Keys
  {
  }

  lemma ZipUpdate(instances: map<string, Status>, records: map<string, T.VmState>, id: string,
                  status: Status, record: T.VmState)
    requires instances.Keys == records.Keys
    ensures Zip(instances[id := status], records[id := record])
         == Zip(instances, records)[id := Vm(status, record)]
  {
  }

  lemma ZipRecord(instances: map<string, Status>, records: map<string, T.VmState>, id: string, record: T.VmState)
    requires instances.Keys == records.Keys && id in instances
    ensures Zip(instances, records[id := record])
         == Zip(instances, records)[id := Vm(instances[id], record)]
  {
  }

  lemma ZipDrop(instances: map<string, Status>, records: map<string, T.VmState>, id: string)
    requires instances.Keys == records.Keys
    ensures Zip(instances - {id}, records - {id}) == Zip(instances, records) - {id}
  {
  }

  /** The tracked VMs and the engine that decides for them; every method moves both as `ControlLoop` says. */
  class Controller {
    const cfg: Config
    const engine: ThresholdEngine
    const ownership: VmOwnership
    const store: VmStateStore
    var instances: map<string, Status>
    /** Handles whose client was closed. */
    var closed: multiset<nat>

    /** The engine keeps a record for exactly the tracked VMs. */
    ghost predicate Valid()
      reads this, engine, engine.repr
    {
      && engine.Valid() && engine.records.Keys == instances.Keys
      && {this, engine, ownership, store} !! engine.repr
    }

    /** Every tracked VM with its engine record. */
    ghost function Vms(): map<string, Vm>
      requires engine.records.Keys == instances.Keys
      reads this, engine
    {
      Zip(instances, engine.records)
    }

    constructor (cfg: Config, tc: T.ValidConfig, registry: Registry, store: VmStateStore)
      ensures Valid() && Vms() == map[] && closed == multiset{}
      ensures this.cfg == cfg && engine.cfg == tc && this.store == store && ownership.View() == registry
      ensures fresh(engine) && fresh(ownership)
    {
      this.cfg, this.store, instances, closed := cfg, store, map[], multiset{};
      engine := new ThresholdEngine(tc);
      ownership := new VmOwnership(registry);
    }

    // -------------------------------------------------------------- refresh

    /** Apply every snapshot that arrived; close the clients of the VMs that sent none. */
    method RefreshStatuses(order: seq<string>, snaps: string -> Option<Snapshot>)
      requires Valid() && Enumerates(order, instances.Keys)
      modifies this
      ensures instances.Keys == old(instances).Keys
      ensures forall id :: id in instances ==>
                instances[id] == if snaps(id).Some? then ControlLoop.Refresh(old(instances)[id], snaps(id).value)
                                 else old(instances)[id]
      ensures closed == old(closed) + HandlesAt(old(instances), Outside(order, Answered(old(instances), snaps)))
    {
      hide ControlLoop.Refresh, Zip, RefreshedSome, Outside, HandlesAt;
      ghost var before := instances;
      ghost var answered := Answered(before, snaps);
      NoneRefreshed(before, snaps);
      NothingClosed(before, answered);
      for i := 0 to |order|
        invariant instances == RefreshedSome(before, snaps, order[..i])
        invariant closed == old(closed) + HandlesAt(before, Outside(order[..i], answered))
      {
        var id := order[i];
        ClosedNext(before, answered, order, i);
        RefreshedNext(before, snaps, order, i);
        match snaps(id) {
          case Some(snap) => instances := instances[id := ControlLoop.Refresh(instances[id], snap)];
          case None => closed := closed + multiset{instances[id].handle};
        }
      }
      assert order[..|order|] == order;
      AllRefreshed(before, snaps, order);
    }

    /** Forget the VMs whose snapshot failed, here and in the engine. */
    method DropFailed(order: seq<string>, snaps: string -> Option<Snapshot>)
      requires Valid()
      modifies this`instances, engine
      ensures Valid() && engine.repr == old(engine.repr)
      ensures Vms() == Surviving(old(Vms()), snaps, order)
    {
      hide Zip, Surviving;
      ghost var before := Vms();
      AllSurvive(before, snaps);
      for i := 0 to |order|
        invariant Valid() && engine.repr == old(engine.repr)
        invariant Vms() == Surviving(before, snaps, order[..i])
      {
        var id := order[i];
        SurvivingNext(before, snaps, order, i);
        if snaps(id).None? {
          ZipDrop(instances, engine.records, id);
          instances := instances - {id};
          engine.OnInstanceRemoved(id);
        }
      }
      assert order[..|order|] == order;
    }

    /** Refresh every VM; drop the ones whose snapshot failed. */
    method Refresh(order: seq<string>, snaps: string -> Option<Snapshot>)
      requires Valid() && Enumerates(order, instances.Keys)
      modifies this, engine
      ensures Valid() && engine.repr == old(engine.repr)
      ensures Vms() == RefreshFleet(old(Vms()), snaps)
      ensures closed == old(closed) + HandlesAt(old(instances), Outside(order, Answered(old(instances), snaps)))
    {
      hide ControlLoop.Refresh, Zip, Surviving, RefreshFleet, HandlesAt, Outside, Answered;
      ghost var before := instances;
      RefreshStatuses(order, snaps);
      RefreshZip(before, instances, engine.records, snaps, order);
      DropFailed(order, snaps);
    }

    // -------------------------------------------------------------- ownership

    /** Bring the registry up to date with the statuses, and the file with the registry. */
    method PersistNewClassifications(order: seq<string>, saveOk: bool) returns (error: Option<TickError>)
      requires Valid()
      modifies ownership, store
      ensures Valid() && Vms() == old(Vms())
      ensures var c := CommitAll(old(ownership.View()), Vms(), order);
              && ownership.View() == c.registry
              && error == (if !c.agreed then Some(OwnershipChanged)
                           else if c.registry == old(ownership.View()) || (saveOk && c.registry.Disjoint()) then None
                           else Some(SaveFailed))
              && store.Contents() == (if c.registry != old(ownership.View()) && error.None?
                                      then c.registry else old(store.Contents()))
    {
      hide Zip, ThresholdEngine.Valid, CommitAll;
      var changed := false;
      ghost var before, vms := ownership.View(), Vms();
      ZipKeys(instances, engine.records);
      NothingCommitted(before, vms);
      for i := 0 to |order|
        invariant Valid() && Vms() == vms
        invariant CommitAll(before, vms, order[..i]) == Commit(ownership.View(), true)
        invariant changed <==> ownership.View() != before
        invariant before.managed <= ownership.View().managed && before.unmanaged <= ownership.View().unmanaged
        invariant store.Contents() == old(store.Contents())
      {
        var id := order[i];
        assert order[..i + 1][..i] == order[..i];
        CommitNext(before, vms, order, i);
        CommitStops(before, vms, order, i + 1);
        if id in instances {
          ZipAt(instances, engine.records, id);
        }
        if id in instances && instances[id].classification.Some? {
          var isManaged := instances[id].classification.value;
          var persisted := ownership.Classification(id);
          if persisted.Some? {
            if persisted.value != isManaged {
              return Some(OwnershipChanged);
            }
          } else {
            var _ := ownership.Record(id, isManaged);
            changed := true;
          }
        }
      }
      assert order[..|order|] == order;
      if changed {
        var saved := store.Save(Registry(ownership.managedVms, ownership.unmanagedVms), saveOk);
        return if saved then None else Some(SaveFailed);
      }
      return None;
    }

    // -------------------------------------------------------------- evaluation and plan

    /** Ask the engine about one VM. */
    method EvaluateOne(id: string, now: nat) returns (action: T.ScaleAction)
      requires Valid() && id in instances && !instances[id].sticky
      modifies engine, engine.repr
      ensures Valid() && fresh(engine.repr - old(engine.repr))
      ensures var v := EvaluateVm(cfg, engine.cfg, old(Vms())[id], now);
              action == v.action && Vms() == old(Vms())[id := old(Vms())[id].(engine := v.state)]
    {
      hide T.Evaluate, Zip, ThresholdEngine.Valid;
      var obs := Observe(cfg, instances[id], now);
      ZipAt(instances, engine.records, id);
      ZipRecord(instances, engine.records, id, T.Evaluate(engine.cfg, engine.records[id], obs).state);
      action := engine.Evaluate(id, obs);
    }

    /** Ask the engine about every VM without a manual override. */
    method EvaluateFleet(order: seq<string>, now: nat) returns (ds: seq<Decision>)
      requires Valid() && Enumerates(order, instances.Keys)
      modifies engine, engine.repr
      ensures Valid() && fresh(engine.repr - old(engine.repr))
      ensures Vms() == ControlLoop.EvaluateFleet(cfg, engine.cfg, old(Vms()), now)
      ensures ds == Decisions(cfg, engine.cfg, old(Vms()), order, now)
    {
      hide EvaluateVm, Zip, ThresholdEngine.Valid, EvaluatedSome;
      ds := [];
      ghost var before := Vms();
      ZipKeys(instances, engine.records);
      NoneEvaluated(cfg, engine.cfg, before, now);
      for i := 0 to |order|
        invariant Valid() && fresh(engine.repr - old(engine.repr))
        invariant ds == Decisions(cfg, engine.cfg, before, order[..i], now)
        invariant Vms() == EvaluatedSome(cfg, engine.cfg, before, order[..i], now)
      {
        var id := order[i];
        assert order[..i + 1][..i] == order[..i];
        EvaluatedNext(cfg, engine.cfg, before, order, i, now);
        ZipAt(instances, engine.records, id);
        if !instances[id].sticky {
          var action := EvaluateOne(id, now);
          ds := ds + [Decision(id, action)];
        }
      }
      assert order[..|order|] == order;
      AllEvaluated(cfg, engine.cfg, before, order, now);
    }

    /** Keep the first decision of each tracked VM that asks for another size. */
    method BuildPlan(ds: seq<Decision>) returns (plan: seq<PlanItem>)
      requires Valid()
      ensures plan == PlanOf(Vms(), ds)
    {
      hide Zip, ThresholdEngine.Valid, Mentioned;
      plan := [];
      NothingMentioned();
      ZipKeys(instances, engine.records);
      var plannedIds: set<string> := {};
      for i := 0 to |ds|
        invariant forall id :: id in plannedIds <==> Mentioned(ds[..i], id)
        invariant plan == PlanOf(Vms(), ds[..i])
      {
        var d := ds[i];
        assert ds[..i + 1][..i] == ds[..i];
        MentionedNext(ds, i);
        ZipKeys(instances, engine.records);
        if d.id !in plannedIds {
          plannedIds := plannedIds + {d.id};
          if d.id in instances && !d.action.NoAction? {
            ZipAt(instances, engine.records, d.id);
            var current := instances[d.id].threadCount;
            if d.action.count != current {
              plan := plan + [PlanItem(d.action.count > current, i, d.id, d.action)];
            }
          }
        }
      }
      assert ds[..|ds|] == ds;
    }

    // -------------------------------------------------------------- actuation

    /** Replace one VM's status and report an outcome of its decision to the engine. */
    method Conclude(id: string, status: Status, outcome: T.Outcome)
      requires Valid() && id in instances
      modifies this`instances, engine`records, engine.repr
      ensures Valid()
      ensures Vms() == old(Vms())[id := Vm(status, T.OnApplied(engine.cfg, old(Vms())[id].engine, outcome))]
    {
      hide T.OnApplied, Zip, ThresholdEngine.Valid;
      ZipAt(instances, engine.records, id);
      ZipUpdate(instances, engine.records, id, status, T.OnApplied(engine.cfg, engine.records[id], outcome));
      instances := instances[id := status];
      engine.OnApplied(id, outcome);
    }

    /** One decision from guard to feedback: its VM ends as `ApplyDecision` says, and no other VM changes. */
    method ApplyEngineDecision(id: string, action: T.ScaleAction, hostCpu: real, a: Attempt)
      returns (disposition: Disposition)
      requires Valid()
      modifies this`instances, engine`records, engine.repr
      ensures Valid()
      ensures id in old(instances) && !action.NoAction? ==>
                var r := ApplyDecision(cfg, engine.cfg, old(Vms())[id], action, hostCpu, a);
                Vms() == old(Vms())[id := r.0] && disposition == r.1
      ensures id !in old(instances) || action.NoAction? ==> Vms() == old(Vms()) && disposition == NotPlanned
    {
      hide T.OnApplied, Zip, ThresholdEngine.Valid;
      ZipKeys(instances, engine.records);
      if action.NoAction? || id !in instances {
        return NotPlanned;
      }
      ZipAt(instances, engine.records, id);
      var target := action.count;
      var status := instances[id];
      var blocked: Option<BlockedReason> := None;
      if status.sticky {
        blocked := Some(ManualOverride);
      } else if !status.ScalingAllowed() {
        blocked := Some(UnmanagedVm);
      } else if target < cfg.minThreads {
        blocked := Some(TargetBelowMinimum);
      } else if target > cfg.maxThreads {
        blocked := Some(TargetExceedsMaximum);
      } else if target > status.vcpuCount {
        blocked := Some(TargetExceedsVcpuCount);
      } else if (action.Up? || action.Down?)
                && status.cooldownUntil.Some? && a.guardAt < status.cooldownUntil.value {
        blocked := Some(Cooldown);
      } else if target > status.threadCount && action.Up?
                && cfg.hostCpuCeiling > 0.0 && hostCpu >= cfg.hostCpuCeiling {
        blocked := Some(HostCpuCeiling);
      }
      if blocked.Some? {
        Conclude(id, status, T.Blocked);
        return Blocked(blocked.value);
      }
      if cfg.dryRun {
        Conclude(id, status.(cooldownUntil := Some(a.markAt + cfg.cooldown)),
                 T.DryRun(action, status.threadCount, status.ioCount, a.appliedAt));
        return DryRun;
      }
      if a.accepted {
        Conclude(id, status.(threadCount := target, cooldownUntil := Some(a.appliedAt + cfg.cooldown)),
                 T.Success(action, status.threadCount, status.ioCount, a.appliedAt));
        return Success;
      }
      Conclude(id, status, T.Failed);
      return Failed;
    }

    /** Attempt the plan in order until the cap is reached. */
    method ApplyPlanItems(plan: seq<PlanItem>, hostCpu: real, env: Environment) returns (tried: seq<Tried>)
      requires Valid()
      modifies this`instances, engine`records, engine.repr
      ensures Valid()
      ensures var p := ApplyPlan(cfg, engine.cfg, hostCpu, env, old(Vms()), plan);
              Vms() == p.vms && tried == p.tried
    {
      hide ApplyDecision, Zip, ThresholdEngine.Valid;
      var adjusted := 0;
      tried := [];
      ghost var before := Vms();
      for i := 0 to |plan|
        invariant Valid()
        invariant Progress(Vms(), adjusted, tried) == ApplyPlan(cfg, engine.cfg, hostCpu, env, before, plan[..i])
      {
        var item := plan[i];
        assert plan[..i + 1][..i] == plan[..i];
        if cfg.maxAdjusted > 0 && adjusted >= cfg.maxAdjusted {
          continue;
        }
        ZipKeys(instances, engine.records);
        var known := item.id in instances && !item.action.NoAction?;
        var disposition := ApplyEngineDecision(item.id, item.action, hostCpu, env(item.id));
        if known {
          tried := tried + [Tried(item, disposition)];
          if disposition.Adjusted() {
            adjusted := adjusted + 1;
          }
        }
      }
      assert plan[..|plan|] == plan;
    }

    /** One poll: it ends in the world `TickWorld` computes, with the attempts and the error it lists. */
    method Tick(inp: TickInput, tracked: seq<string>) returns (error: Option<TickError>, tried: seq<Tried>)
      requires Valid() && Enumerates(tracked, instances.Keys)
      requires Enumerates(inp.order, set id | id in instances && inp.snaps(id).Some?)
      modifies this, engine, engine.repr, ownership, store
      ensures Valid()
      ensures var w := World(old(Vms()), old(ownership.View()), old(store.Contents()), true);
              var r := TickWorld(cfg, engine.cfg, w, inp);
              && r.world == World(Vms(), ownership.View(), store.Contents(), error.None?)
              && (match r
                  case TickDone(_, attempts) => error.None? && tried == attempts
                  case TickFailed(_, reason) => error == Some(reason))
      ensures closed == old(closed) + HandlesAt(old(instances), Outside(tracked, Answered(old(instances), inp.snaps)))
    {
      hide Zip, ThresholdEngine.Valid, Enumerates, HandlesAt, Outside, Answered;
      hide ControlLoop.EvaluateFleet, CommitAll, PlanOf, Decisions, SortPlan, ApplyPlan, ControlLoop.Refresh;
      tried := [];
      RefreshFleetKeys(instances, engine.records, inp.snaps);
      Refresh(tracked, inp.snaps);
      error := PersistNewClassifications(inp.order, inp.saveOk);
      if error.Some? {
        return;
      }
      ghost var fleet := Vms();
      ZipKeys(instances, engine.records);
      var ds := EvaluateFleet(inp.order, inp.now);
      var plan := BuildPlan(ds);
      tried := ApplyPlanItems(SortPlan(plan), inp.hostCpu, inp.env);
    }

    // -------------------------------------------------------------- inventory

    /** Put a VM that is not tracked yet into the inventory and the engine. */
    method Track(id: string, status: Status)
      requires Valid() && id !in instances
      modifies this`instances, engine
      ensures Valid() && fresh(engine.repr - old(engine.repr))
      ensures Vms() == old(Vms())[id := Vm(status, T.FRESH)]
    {
      hide Zip, ThresholdEngine.Valid;
      ZipUpdate(instances, engine.records, id, status, T.FRESH);
      engine.OnInstanceAdded(id);
      instances := instances[id := status];
    }

    /** Track every discovered VM that is not tracked yet; close the surplus clients. */
    method AddInstances(discovered: seq<Discovered>) returns (added: nat)
      requires Valid()
      modifies this, engine
      ensures Valid() && fresh(engine.repr - old(engine.repr))
      ensures var s := AddDiscovered(old(Vms()), ownership.View(), discovered);
              Vms() == s.vms && added == s.added && closed == old(closed) + s.closed
    {
      hide Zip, ThresholdEngine.Valid, AddDiscovered, AddOne;
      added := 0;
      ghost var before := Vms();
      NothingAdded(before, ownership.View());
      for i := 0 to |discovered|
        invariant Valid() && fresh(engine.repr - old(engine.repr))
        invariant var s := AddDiscovered(before, ownership.View(), discovered[..i]);
                  Vms() == s.vms && added == s.added && closed == old(closed) + s.closed
      {
        var d := discovered[i];
        AddedNext(before, ownership.View(), discovered, i);
        ZipKeys(instances, engine.records);
        AddedOne(AddDiscovered(before, ownership.View(), discovered[..i]), ownership.View(), d);
        if d.id in instances {
          closed := closed + multiset{d.handle};
          continue;
        }
        var classification := ownership.Classification(d.id);
        Track(d.id, NewStatus(d.handle, classification));
        added := added + 1;
      }
      assert discovered[..|discovered|] == discovered;
    }

    /** Forget the VMs in `stale`, here and in the engine, and close their clients. */
    method RemoveInstances(stale: seq<string>)
      requires Valid() && Distinct(stale)
      modifies this, engine
      ensures Valid() && Vms() == old(Vms()) - Elements(stale)
      ensures closed == old(closed) + HandlesAt(old(instances), stale)
    {
      hide Zip, ThresholdEngine.Valid, HandlesAt;
      ghost var before := Vms();
      ghost var statuses := instances;
      NoHandles(statuses);
      for i := 0 to |stale|
        invariant Valid()
        invariant instances == statuses - Elements(stale[..i])
        invariant Vms() == before - Elements(stale[..i])
        invariant closed == old(closed) + HandlesAt(statuses, stale[..i])
      {
        var id := stale[i];
        HandlesNext(statuses, stale, i);
        DropNext(before, stale, i);
        DropNext(statuses, stale, i);
        ZipKeys(instances, engine.records);
        if id in instances {
          closed := closed + multiset{instances[id].handle};
          ZipDrop(instances, engine.records, id);
          instances := instances - {id};
          engine.OnInstanceRemoved(id);
        }
      }
      assert stale[..|stale|] == stale;
    }

    /** The tracked VMs that were not seen, in the order of the inventory. */
    method FindStale(order: seq<string>, seen: set<string>) returns (stale: seq<string>)
      ensures stale == Outside(order, seen)
    {
      stale := [];
      for i := 0 to |order|
        invariant stale == Outside(order[..i], seen)
      {
        assert order[..i + 1][..i] == order[..i];
        if order[i] !in seen {
          stale := stale + [order[i]];
        }
      }
      assert order[..|order|] == order;
    }

    /** Make the inventory the discovered VMs; count what came and went, and close each client that is dropped. */
    method SyncInstances(discovered: seq<Discovered>, order: seq<string>) returns (added: nat, removed: nat)
      requires Valid() && Enumerates(order, instances.Keys + IdsOf(discovered))
      modifies this, engine
      ensures Valid()
      ensures var w := World(old(Vms()), old(ownership.View()), old(store.Contents()), true);
              var s := AddDiscovered(w.vms, w.memory, discovered);
              && World(Vms(), ownership.View(), store.Contents(), true) == SyncWorld(w, discovered)
              && added == s.added
              && removed == RemovedBySync(w, discovered)
              && closed == old(closed) + s.closed + HandlesAt(old(instances), Outside(order, IdsOf(discovered)))
    {
      hide AddDiscovered, Zip, ThresholdEngine.Valid, Outside, HandlesAt, Enumerates, IdsOf, SyncWorld, RemovedBySync;
      ghost var w := World(Vms(), ownership.View(), store.Contents(), true);
      ghost var before, known := instances, engine.records;
      ZipKeys(instances, engine.records);
      var seen := IdsOf(discovered);
      added := AddInstances(discovered);
      ZipKeys(instances, engine.records);
      KeptStatuses(w, discovered, before, instances, known, engine.records, order);
      var stale := FindStale(order, seen);
      removed := |stale|;
      SyncDropsStale(w, discovered, order);
      RemoveInstances(stale);
    }
  }

  /** The VMs tracked before are tracked with the same clients once the discovered ones were added. */
  lemma KeptStatuses(w: World, ds: seq<Discovered>, before: map<string, Status>, after: map<string, Status>,
                     known: map<string, T.VmState>, records: map<string, T.VmState>, order: seq<string>)
    requires after.Keys == records.Keys && Zip(after, records) == AddDiscovered(w.vms, w.memory, ds).vms
    requires before.Keys == known.Keys && Zip(before, known) == w.vms
    requires Enumerates(order, before.Keys + IdsOf(ds))
    ensures HandlesAt(after, Outside(order, IdsOf(ds))) == HandlesAt(before, Outside(order, IdsOf(ds)))
  {
    hide AddDiscovered, HandlesAt, IdsOf, Zip, Outside;
    var stale := Outside(order, IdsOf(ds));
    AddingKeeps(w.vms, w.memory, ds);
    OutsideIs(order, IdsOf(ds));
    ZipKeys(after, records);
    ZipKeys(before, known);
    forall id | id in stale
      ensures id in after && id in before && after[id] == before[id]
    {
      ZipAt(after, records, id);
      ZipAt(before, known, id);
    }
    SameHandles(before, after, stale);
  }

  lemma {:induction false} SameHandles(before: map<string, Status>, after: map<string, Status>, ids: seq<string>)
    requires forall id :: id in ids ==> id in after && id in before && after[id] == before[id]
    ensures HandlesAt(after, ids) == HandlesAt(before, ids)
  {
    if |ids| != 0 {
      SameHandles(before, after, ids[..|ids| - 1]);
    }
  }

  /** Dropping the unseen VMs, in any order, completes the sync. */
  lemma SyncDropsStale(w: World, ds: seq<Discovered>, order: seq<string>)
    requires Enumerates(order, w.vms.Keys + IdsOf(ds))
    ensures var stale := Outside(order, IdsOf(ds));
            && Distinct(stale)
            && |stale| == RemovedBySync(w, ds)
            && w.(vms := AddDiscovered(w.vms, w.memory, ds).vms - Elements(stale)) == SyncWorld(w, ds)
  {
    hide AddDiscovered, Outside, IdsOf;
    var stale := Outside(order, IdsOf(ds));
    AddingKeeps(w.vms, w.memory, ds);
    OutsideIs(order, IdsOf(ds));
    DistinctCount(stale);
    assert Elements(stale) == AddDiscovered(w.vms, w.memory, ds).vms.Keys - IdsOf(ds);
    assert SyncWorld(w, ds).vms == AddDiscovered(w.vms, w.memory, ds).vms - Elements(stale);
  }

  lemma {:induction false} OutsideIs(order: seq<string>, keep: set<string>)
    requires Distinct(order)
    ensures Distinct(Outside(order, keep))
    ensures forall id :: id in Outside(order, keep) <==> id in order && id !in keep
  {
    if |order| != 0 {
      var front := order[..|order| - 1];
      OutsideIs(front, keep);
      assert order == front + [order[|order| - 1]];
    }
  }

  /** The clients of listed VMs that are tracked: one for each, and no other. */
  lemma {:induction false} HandlesAreTheirs(instances: map<string, Status>, ids: seq<string>)
    requires forall id :: id in ids ==> id in instances
    ensures |HandlesAt(instances, ids)| == |ids|
    ensures forall handle :: handle in HandlesAt(instances, ids) <==>
              exists i :: 0 <= i < |ids| && instances[ids[i]].handle == handle
  {
    if |ids| != 0 {
      var front := ids[..|ids| - 1];
      HandlesAreTheirs(instances, front);
      forall handle
        ensures handle in HandlesAt(instances, ids) <==>
                  exists i :: 0 <= i < |ids| && instances[ids[i]].handle == handle
      {
        if i :| 0 <= i < |ids| && instances[ids[i]].handle == handle {
          assert i < |front| ==> front[i] == ids[i];
        }
        if i :| 0 <= i < |front| && instances[front[i]].handle == handle {
          assert ids[i] == front[i];
        }
      }
    }
  }

  lemma NoHandles(instances: map<string, Status>)
    ensures HandlesAt(instances, []) == multiset{}
  {
  }

  lemma HandlesNext(instances: map<string, Status>, ids: seq<string>, i: nat)
    requires i < |ids|
    ensures HandlesAt(instances, ids[..i + 1])
         == HandlesAt(instances, ids[..i])
            + if ids[i] in instances then multiset{instances[ids[i]].handle} else multiset{}
  {
    assert ids[..i + 1][..i] == ids[..i];
  }

  lemma NothingClosed(instances: map<string, Status>, keep: set<string>)
    ensures HandlesAt(instances, Outside([], keep)) == multiset{}
  {
  }

  lemma ClosedNext(instances: map<string, Status>, keep: set<string>, order: seq<string>, i: nat)
    requires i < |order| && order[i] in instances
    ensures HandlesAt(instances, Outside(order[..i + 1], keep))
         == HandlesAt(instances, Outside(order[..i], keep))
            + if order[i] in keep then multiset{} else multiset{instances[order[i]].handle}
  {
    assert order[..i + 1][..i] == order[..i];
    var before, after := Outside(order[..i], keep), Outside(order[..i + 1], keep);
    if order[i] in keep {
      assert after == before;
    } else {
      assert after[..|after| - 1] == before;
    }
  }

  /** The statuses once the VMs in `order` were refreshed. */
  ghost function RefreshedSome(before: map<string, Status>, snaps: string -> Option<Snapshot>, order: seq<string>)
    : map<string, Status>
  {
    map id | id in before ::
      if id in order && snaps(id).Some? then ControlLoop.Refresh(before[id], snaps(id).value) else before[id]
  }

  lemma NoneRefreshed(before: map<string, Status>, snaps: string -> Option<Snapshot>)
    ensures RefreshedSome(before, snaps, []) == before
  {
  }

  lemma RefreshedNext(before: map<string, Status>, snaps: string -> Option<Snapshot>, order: seq<string>, i: nat)
    requires i < |order| && order[i] in before && order[i] !in order[..i]
    ensures var some := RefreshedSome(before, snaps, order[..i]);
            && order[i] in some && some[order[i]] == before[order[i]]
            && RefreshedSome(before, snaps, order[..i + 1])
               == match snaps(order[i])
                  case None => some
                  case Some(snap) => some[order[i] := ControlLoop.Refresh(before[order[i]], snap)]
  {
    hide ControlLoop.Refresh;
    assert order[..i + 1] == order[..i] + [order[i]];
  }

  lemma AllRefreshed(before: map<string, Status>, snaps: string -> Option<Snapshot>, order: seq<string>)
    requires Enumerates(order, before.Keys)
    ensures var after := RefreshedSome(before, snaps, order);
            && after.Keys == before.Keys
            && forall id :: id in after ==>
                 after[id] == if snaps(id).Some? then ControlLoop.Refresh(before[id], snaps(id).value) else before[id]
  {
    hide ControlLoop.Refresh;
  }

  lemma RefreshFleetKeys(instances: map<string, Status>, records: map<string, T.VmState>,
                         snaps: string -> Option<Snapshot>)
    requires instances.Keys == records.Keys
    ensures RefreshFleet(Zip(instances, records), snaps).Keys == set id | id in instances && snaps(id).Some?
  {
  }

  /** The fleet without those of `order` whose snapshot failed. */
  ghost function Surviving(vms: map<string, Vm>, snaps: string -> Option<Snapshot>, order: seq<string>)
    : map<string, Vm>
  {
    map id | id in vms && (id in order ==> snaps(id).Some?) :: vms[id]
  }

  lemma AllSurvive(vms: map<string, Vm>, snaps: string -> Option<Snapshot>)
    ensures Surviving(vms, snaps, []) == vms
  {
  }

  lemma SurvivingNext(vms: map<string, Vm>, snaps: string -> Option<Snapshot>, order: seq<string>, i: nat)
    requires i < |order|
    ensures Surviving(vms, snaps, order[..i + 1])
         == if snaps(order[i]).None? then Surviving(vms, snaps, order[..i]) - {order[i]}
            else Surviving(vms, snaps, order[..i])
  {
    assert order[..i + 1] == order[..i] + [order[i]];
  }

  /** Refreshing statuses and then dropping failures is the fleet refresh. */
  lemma RefreshZip(before: map<string, Status>, after: map<string, Status>, records: map<string, T.VmState>,
                   snaps: string -> Option<Snapshot>, order: seq<string>)
    requires before.Keys == after.Keys == records.Keys && Enumerates(order, after.Keys)
    requires forall id :: id in after ==>
               after[id] == if snaps(id).Some? then ControlLoop.Refresh(before[id], snaps(id).value) else before[id]
    ensures Surviving(Zip(after, records), snaps, order) == RefreshFleet(Zip(before, records), snaps)
  {
    hide ControlLoop.Refresh;
  }

  /** The fleet once the VMs in `order` were evaluated. */
  ghost function EvaluatedSome(cfg: Config, tc: T.ValidConfig, vms: map<string, Vm>, order: seq<string>, now: nat)
    : map<string, Vm>
  {
    map id | id in vms ::
      if id in order then vms[id].(engine := EvaluateVm(cfg, tc, vms[id], now).state) else vms[id]
  }

  lemma NoneEvaluated(cfg: Config, tc: T.ValidConfig, vms: map<string, Vm>, now: nat)
    ensures EvaluatedSome(cfg, tc, vms, [], now) == vms
  {
  }

  lemma AllEvaluated(cfg: Config, tc: T.ValidConfig, vms: map<string, Vm>, order: seq<string>, now: nat)
    requires Enumerates(order, vms.Keys)
    ensures EvaluatedSome(cfg, tc, vms, order, now) == ControlLoop.EvaluateFleet(cfg, tc, vms, now)
  {
    hide EvaluateVm;
  }

  lemma EvaluatedNext(cfg: Config, tc: T.ValidConfig, vms: map<string, Vm>, order: seq<string>, i: nat, now: nat)
    requires i < |order| && order[i] in vms && order[i] !in order[..i]
    ensures var id := order[i];
            var some := EvaluatedSome(cfg, tc, vms, order[..i], now);
            && some[id] == vms[id]
            && EvaluatedSome(cfg, tc, vms, order[..i + 1], now)
               == some[id := vms[id].(engine := EvaluateVm(cfg, tc, vms[id], now).state)]
            && (vms[id].status.sticky ==> EvaluateVm(cfg, tc, vms[id], now).state == vms[id].engine)
  {
    hide T.Evaluate;
    assert order[..i + 1] == order[..i] + [order[i]];
  }

  lemma DropNext<V>(m: map<string, V>, stale: seq<string>, i: nat)
    requires i < |stale|
    ensures m - Elements(stale[..i + 1]) == (m - Elements(stale[..i])) - {stale[i]}
    ensures stale[i] !in m - Elements(stale[..i]) ==> m - Elements(stale[..i + 1]) == m - Elements(stale[..i])
    ensures Distinct(stale) && stale[i] in m ==> stale[i] in m - Elements(stale[..i])
  {
    assert stale[..i + 1] == stale[..i] + [stale[i]];
    ElementsNext(stale[..i], stale[i]);
  }

  lemma NothingCommitted(r: Registry, vms: map<string, Vm>)
    ensures CommitAll(r, vms, []) == Commit(r, true)
  {
  }

  lemma CommitNext(r: Registry, vms: map<string, Vm>, order: seq<string>, i: nat)
    requires i < |order|
    ensures CommitAll(r, vms, order[..i + 1]) == CommitOne(CommitAll(r, vms, order[..i]), vms, order[i])
  {
    assert order[..i + 1][..i] == order[..i];
  }

  lemma NothingAdded(vms: map<string, Vm>, r: Registry)
    ensures AddDiscovered(vms, r, []) == Synced(vms, 0, multiset{})
  {
  }

  lemma AddedNext(vms: map<string, Vm>, r: Registry, ds: seq<Discovered>, i: nat)
    requires i < |ds|
    ensures AddDiscovered(vms, r, ds[..i + 1]) == AddOne(AddDiscovered(vms, r, ds[..i]), r, ds[i])
  {
    assert ds[..i + 1][..i] == ds[..i];
  }

  lemma AddedOne(s: Synced, r: Registry, d: Discovered)
    ensures d.id in s.vms ==> AddOne(s, r, d) == s.(closed := s.closed + multiset{d.handle})
    ensures d.id !in s.vms ==>
              AddOne(s, r, d)
              == Synced(s.vms[d.id := Vm(NewStatus(d.handle, r.Classification(d.id)), T.FRESH)], s.added + 1, s.closed)
  {
  }

  /** The commit of a prefix decides the rest once it disagreed. */
  lemma {:induction false} CommitStops(r: Registry, vms: map<string, Vm>, order: seq<string>, n: nat)
    requires n <= |order|
    ensures !CommitAll(r, vms, order[..n]).agreed ==> CommitAll(r, vms, order) == CommitAll(r, vms, order[..n])
    decreases |order|
  {
    if n == |order| {
      assert order[..n] == order;
    } else {
      assert order[..|order| - 1][..n] == order[..n];
      CommitStops(r, vms, order[..|order| - 1], n);
    }
  }

  lemma NothingMentioned()
    ensures forall id :: !Mentioned([], id)
  {
  }

  lemma MentionedNext(ds: seq<Decision>, i: nat)
    requires i < |ds|
    ensures forall id :: Mentioned(ds[..i + 1], id) <==> Mentioned(ds[..i], id) || id == ds[i].id
  {
    assert ds[..i + 1][i] == ds[i];
    assert forall k :: 0 <= k < i ==> ds[..i + 1][k] == ds[..i][k];
  }
}
