/** The pool bounds over whole runs of the daemon: the loop of one VM, seen through every fleet tick. */
module FleetBounds {
  import opened Common
  import opened ControlLoop
  import opened ClosedLoop
  import opened FleetRuns
  import P = PlanTheorems
  import T = Threshold

  /** The daemon, and the pool that the VM in question really has. */
  datatype Watch = Watch(world: World, pool: u32)

  /** An event of the daemon, with the pool that a failed resize of the VM would leave. */
  datatype WatchEvent = WatchEvent(event: Event, poolIfFailed: u32)

  /** What a completed tick attempted; nothing in every other event. */
  function Attempts(cfg: Config, tc: T.ValidConfig, w: World, e: Event): seq<Tried> {
    if e.Tick? && w.running && TickWorld(cfg, tc, w, e.inp).TickDone? then TickWorld(cfg, tc, w, e.inp).tried
    else []
  }

  /** The pool of `id` after the attempts on it. */
  function PoolAfterAttempts(tried: seq<Tried>, id: string, pool: u32, ifFailed: u32): u32 {
    if |tried| == 0 then pool
    else
      var before, last := PoolAfterAttempts(tried[..|tried| - 1], id, pool, ifFailed), tried[|tried| - 1];
      if last.item.id == id then Resized(last.disposition, last.item.action, before, ifFailed) else before
  }

  function StepWatch(l: Loop, id: string, f: Watch, e: WatchEvent): Watch {
    Watch(StepWorld(l.cfg, l.tc, f.world, e.event),
          PoolAfterAttempts(Attempts(l.cfg, l.tc, f.world, e.event), id, f.pool, e.poolIfFailed))
  }

  function RunWatch(l: Loop, id: string, f: Watch, es: seq<WatchEvent>): Watch {
    if |es| == 0 then f else StepWatch(l, id, RunWatch(l, id, f, es[..|es| - 1]), es[|es| - 1])
  }

  /** Snapshots of the VM report its real pool; a failed resize leaves it between the old count and the target. */
  ghost predicate FaithfulEvent(l: Loop, id: string, f: Watch, e: WatchEvent) {
    e.event.Tick? && f.world.running ==>
      && (e.event.inp.snaps(id).Some? ==>
            && e.event.inp.snaps(id).value.threadCount == f.pool
            && e.event.inp.snaps(id).value.vcpuCount == l.vcpus)
      && (forall t :: t in Attempts(l.cfg, l.tc, f.world, e.event) && t.item.id == id && t.disposition.Failed? ==>
            && !t.item.action.NoAction?
            && (f.pool <= e.poolIfFailed <= t.item.action.count || t.item.action.count <= e.poolIfFailed <= f.pool))
  }

  ghost predicate FaithfulEvents(l: Loop, id: string, f: Watch, es: seq<WatchEvent>) {
    |es| == 0
    || (FaithfulEvents(l, id, f, es[..|es| - 1])
        && FaithfulEvent(l, id, RunWatch(l, id, f, es[..|es| - 1]), es[|es| - 1]))
  }

  /** In bounds; and while the VM is tracked, with all that the next decision relies on. */
  ghost predicate Kept(l: Loop, id: string, f: Watch) {
    l.InBounds(f.pool) && (id in f.world.vms ==> l.Invariant(Site(f.world.vms[id], f.pool)))
  }

  ghost predicate RevertsUnblocked(tried: seq<Tried>, id: string) {
    forall t :: t in tried && t.item.id == id && t.item.action.Revert? ==> !t.disposition.Blocked?
  }

  // ---------------------------------------------------------------- the only attempt of a tick

  ghost predicate AttemptedOnce(tried: seq<Tried>) {
    forall i, j :: 0 <= i < j < |tried| ==> tried[i].item.id != tried[j].item.id
  }

  lemma {:induction false} PoolOfNoAttempt(tried: seq<Tried>, id: string, pool: u32, ifFailed: u32)
    requires forall k :: 0 <= k < |tried| ==> tried[k].item.id != id
    ensures PoolAfterAttempts(tried, id, pool, ifFailed) == pool
  {
    if |tried| != 0 {
      PoolOfNoAttempt(tried[..|tried| - 1], id, pool, ifFailed);
    }
  }

  lemma {:induction false} PoolOfOnlyAttempt(tried: seq<Tried>, k: nat, pool: u32, ifFailed: u32)
    requires AttemptedOnce(tried) && k < |tried|
    ensures PoolAfterAttempts(tried, tried[k].item.id, pool, ifFailed)
         == Resized(tried[k].disposition, tried[k].item.action, pool, ifFailed)
  {
    if k == |tried| - 1 {
      PoolOfNoAttempt(tried[..k], tried[k].item.id, pool, ifFailed);
    } else {
      PoolOfOnlyAttempt(tried[..|tried| - 1], k, pool, ifFailed);
    }
  }

  /** Attempts that match a VM's tick leave the pool of that tick. */
  lemma PoolMatches(tried: seq<Tried>, id: string, o: VmOutcome, pool: u32, ifFailed: u32)
    requires AttemptedOnce(tried) && AttemptsMatch(tried, id, o)
    ensures PoolAfterAttempts(tried, id, pool, ifFailed) == Resized(o.disposition, o.action, pool, ifFailed)
  {
    if k :| 0 <= k < |tried| && tried[k].item.id == id {
      PoolOfOnlyAttempt(tried, k, pool, ifFailed);
    } else {
      PoolOfNoAttempt(tried, id, pool, ifFailed);
    }
  }

  /** Every attempt is on a VM that was tracked and whose snapshot arrived. */
  lemma AttemptsAreTracked(cfg: Config, tc: T.ValidConfig, w: World, inp: TickInput, k: nat)
    requires TickWorld(cfg, tc, w, inp).TickDone? && k < |TickWorld(cfg, tc, w, inp).tried|
    ensures var id := TickWorld(cfg, tc, w, inp).tried[k].item.id;
            id in w.vms && inp.snaps(id).Some?
  {
    hide ApplyDecision, EvaluateVm, PlanFor, Refresh, CommitAll;
    var fleet := RefreshFleet(w.vms, inp.snaps);
    var plan := PlanFor(cfg, tc, fleet, inp.order, inp.now);
    PlanForIsSound(cfg, tc, fleet, inp.order, inp.now);
    P.AttemptsArePrefix(cfg, tc, inp.hostCpu, inp.env, EvaluateFleet(cfg, tc, fleet, inp.now), plan);
    assert P.ItemsOf(TickWorld(cfg, tc, w, inp).tried)[k] == plan[k];
  }

  // ---------------------------------------------------------------- steps

  /** A completed tick is a step of the loop for each VM it refreshed. */
  lemma TickKeeps(l: Loop, id: string, f: Watch, e: WatchEvent)
    requires l.cfg.Valid() && Kept(l, id, f) && FaithfulEvent(l, id, f, e)
    requires e.event.Tick? && f.world.running && TickWorld(l.cfg, l.tc, f.world, e.event.inp).TickDone?
    requires id in f.world.vms && e.event.inp.snaps(id).Some?
    ensures Kept(l, id, StepWatch(l, id, f, e))
    ensures RevertsUnblocked(Attempts(l.cfg, l.tc, f.world, e.event), id)
  {
    hide TickWorld, VmTick;
    var inp := e.event.inp;
    var tried := Attempts(l.cfg, l.tc, f.world, e.event);
    var admitted := TickProjects(l.cfg, l.tc, f.world, inp, id);
    TickActuations(l.cfg, l.tc, f.world, inp);
    var s := Site(f.world.vms[id], f.pool);
    var i := Ticked(inp.snaps(id).value, inp.now, inp.hostCpu, admitted, inp.env(id), e.poolIfFailed);
    var o := l.Outcome(s, i);
    PoolMatches(tried, id, o, f.pool, e.poolIfFailed);
    if o.disposition.Failed? {
      var k :| 0 <= k < |tried| && tried[k].item.id == id;
      assert tried[k] in tried;
    }
    InvariantStep(l, s, i);
    if o.action.Revert? {
      RevertPasses(l, s, i);
    }
  }

  /** A tick that failed refreshed the statuses and changed nothing else of the VMs. */
  lemma FailedTickKeeps(l: Loop, id: string, f: Watch, e: WatchEvent)
    requires Kept(l, id, f)
    requires e.event.Tick? && f.world.running && TickWorld(l.cfg, l.tc, f.world, e.event.inp).TickFailed?
    ensures Kept(l, id, StepWatch(l, id, f, e))
  {
    hide CommitAll, ApplyPlan, PlanFor;
  }

  lemma SyncKeeps(l: Loop, id: string, f: Watch, ds: seq<Discovered>)
    requires Kept(l, id, f)
    ensures Kept(l, id, Watch(SyncWorld(f.world, ds), f.pool))
  {
    var after := SyncWorld(f.world, ds);
    SyncIsExact(f.world, ds);
    if id in after.vms && id !in f.world.vms {
      var i := FirstOf(ds, id);
      assert FirstNew(f.world.vms, ds, i);
    }
  }

  lemma UnattemptedPool(l: Loop, id: string, f: Watch, e: WatchEvent)
    requires e.event.Tick? ==> id !in f.world.vms || e.event.inp.snaps(id).None?
    ensures StepWatch(l, id, f, e).pool == f.pool
    ensures forall t :: t in Attempts(l.cfg, l.tc, f.world, e.event) ==> t.item.id != id
  {
    hide TickWorld, StepWorld;
    var tried := Attempts(l.cfg, l.tc, f.world, e.event);
    forall k | 0 <= k < |tried|
      ensures tried[k].item.id != id
    {
      AttemptsAreTracked(l.cfg, l.tc, f.world, e.event.inp, k);
    }
    PoolOfNoAttempt(tried, id, f.pool, e.poolIfFailed);
  }

  /** Every event keeps the bounds; and no attempt to revert is blocked. */
  lemma EventKeeps(l: Loop, id: string, f: Watch, e: WatchEvent)
    requires l.cfg.Valid() && Kept(l, id, f) && FaithfulEvent(l, id, f, e)
    ensures Kept(l, id, StepWatch(l, id, f, e))
    ensures RevertsUnblocked(Attempts(l.cfg, l.tc, f.world, e.event), id)
  {
    hide TickWorld, SyncWorld;
    match e.event {
      case Tick(inp) =>
        if f.world.running && TickWorld(l.cfg, l.tc, f.world, inp).TickFailed? {
          FailedTickKeeps(l, id, f, e);
        } else if f.world.running && id in f.world.vms && inp.snaps(id).Some? {
          TickKeeps(l, id, f, e);
        } else if f.world.running {
          UnattemptedPool(l, id, f, e);
          TickKeepsOnlyRefreshed(l.cfg, l.tc, f.world, inp);
        }
      case Sync(ds) => SyncKeeps(l, id, f, ds);
      case Restart =>
    }
  }

  /**
   Whatever the fleet, the discoveries, failed saves, restarts and backend
   failures: a VM whose pool starts inside the bounds keeps it there over every
   run of the daemon, and no attempt to revert it is ever blocked.
   */
  lemma {:induction false} FleetStaysInBounds(l: Loop, id: string, f: Watch, es: seq<WatchEvent>)
    requires l.cfg.Valid() && Started(f.world) && l.InBounds(f.pool) && FaithfulEvents(l, id, f, es)
    ensures Kept(l, id, RunWatch(l, id, f, es))
    ensures forall n :: 0 <= n < |es| ==>
              RevertsUnblocked(Attempts(l.cfg, l.tc, RunWatch(l, id, f, es[..n]).world, es[n].event), id)
  {
    hide StepWatch, Attempts;
    if |es| != 0 {
      var front := es[..|es| - 1];
      FleetStaysInBounds(l, id, f, front);
      EventKeeps(l, id, RunWatch(l, id, f, front), es[|es| - 1]);
      forall n | 0 <= n < |es|
        ensures es[..n] == if n < |front| then front[..n] else front
      {
      }
    }
  }

  // ---------------------------------------------------------------- VMs left to the operator

  /** Whatever was tried came to a verdict. */
  lemma TriedAreAttempted(cfg: Config, tc: T.ValidConfig, w: World, inp: TickInput, k: nat)
    requires TickWorld(cfg, tc, w, inp).TickDone? && k < |TickWorld(cfg, tc, w, inp).tried|
    ensures TickWorld(cfg, tc, w, inp).tried[k].disposition.Attempted()
  {
    hide EvaluateVm, PlanFor, Refresh, CommitAll, T.OnApplied, Guard;
    var fleet := RefreshFleet(w.vms, inp.snaps);
    var evaluated := EvaluateFleet(cfg, tc, fleet, inp.now);
    var plan := PlanFor(cfg, tc, fleet, inp.order, inp.now);
    PlanForIsSound(cfg, tc, fleet, inp.order, inp.now);
    P.AttemptsAreIndependent(cfg, tc, inp.hostCpu, inp.env, evaluated, plan);
    assert TickWorld(cfg, tc, w, inp).tried[k].disposition
        == P.AttemptOn(cfg, tc, inp.hostCpu, inp.env, evaluated, plan[k]).1;
  }

  /** A VM classified as unmanaged is at most proposed, and then blocked. */
  lemma UnmanagedTick(cfg: Config, tc: T.ValidConfig, vm: Vm, snap: Snapshot, now: nat, hostCpu: real,
                      admitted: bool, a: Attempt)
    requires vm.status.classification == Some(false)
    ensures var d := VmTick(cfg, tc, vm, snap, now, hostCpu, admitted, a).disposition;
            d.Attempted() ==> d.Blocked?
  {
    hide T.Evaluate, T.OnApplied;
  }

  /** Attempts on `id` that were all blocked. */
  ghost predicate AllBlocked(tried: seq<Tried>, id: string) {
    forall k :: 0 <= k < |tried| && tried[k].item.id == id ==> tried[k].disposition.Blocked?
  }

  lemma UnmanagedAttempts(l: Loop, id: string, w: World, e: Event)
    requires OwnershipKept(w) && w.disk.Classification(id) == Some(false)
    ensures AllBlocked(Attempts(l.cfg, l.tc, w, e), id)
  {
    hide TickWorld, VmTick;
    var tried := Attempts(l.cfg, l.tc, w, e);
    forall k | 0 <= k < |tried| && tried[k].item.id == id
      ensures tried[k].disposition.Blocked?
    {
      var inp := e.inp;
      AttemptsAreTracked(l.cfg, l.tc, w, inp, k);
      TriedAreAttempted(l.cfg, l.tc, w, inp, k);
      var admitted := TickProjects(l.cfg, l.tc, w, inp, id);
      UnmanagedTick(l.cfg, l.tc, w.vms[id], inp.snaps(id).value, inp.now, inp.hostCpu, admitted, inp.env(id));
    }
  }

  lemma {:induction false} BlockedLeavesPool(tried: seq<Tried>, id: string, pool: u32, ifFailed: u32)
    requires AllBlocked(tried, id)
    ensures PoolAfterAttempts(tried, id, pool, ifFailed) == pool
  {
    if |tried| != 0 {
      BlockedLeavesPool(tried[..|tried| - 1], id, pool, ifFailed);
    }
  }

  /**
   Once saved as unmanaged, at whatever point of a run, a VM is never resized:
   over all that follows, with removals, rediscoveries, failed saves and
   restarts, its pool stays as it was and every attempt on it is blocked.
   */
  lemma {:induction false} UnmanagedOverRuns(l: Loop, id: string, f: Watch, es: seq<WatchEvent>)
    requires OwnershipKept(f.world) && f.world.disk.Classification(id) == Some(false)
    ensures var after := RunWatch(l, id, f, es);
            && after.pool == f.pool
            && OwnershipKept(after.world) && after.world.disk.Classification(id) == Some(false)
    ensures forall n :: 0 <= n < |es| ==>
              AllBlocked(Attempts(l.cfg, l.tc, RunWatch(l, id, f, es[..n]).world, es[n].event), id)
  {
    hide Attempts, StepWorld, AllBlocked;
    if |es| != 0 {
      var front, e := es[..|es| - 1], es[|es| - 1];
      var before := RunWatch(l, id, f, front);
      UnmanagedOverRuns(l, id, f, front);
      UnmanagedAttempts(l, id, before.world, e.event);
      BlockedLeavesPool(Attempts(l.cfg, l.tc, before.world, e.event), id, before.pool, e.poolIfFailed);
      StepKeepsOwnership(l.cfg, l.tc, before.world, e.event);
      forall n | 0 <= n < |es|
        ensures es[..n] == if n < |front| then front[..n] else front
      {
      }
    }
  }
}
