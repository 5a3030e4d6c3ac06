/** The daemon over whole runs: ownership never changes, and the inventory is what was discovered. */
module FleetRuns {
  import opened ControlLoop
  import opened Ownership
  import opened ClosedLoop
  import T = Threshold

  // ---------------------------------------------------------------- inventory

  /** The discovery at `i` is the first of a VM that is not tracked yet. */
  predicate FirstNew(vms: map<string, Vm>, ds: seq<Discovered>, i: nat)
    requires i < |ds|
  {
    ds[i].id !in vms && ds[i].id !in IdsOf(ds[..i])
  }

  /** The handles of all other discoveries: surplus, to be closed. */
  function Surplus(vms: map<string, Vm>, ds: seq<Discovered>, n: nat): multiset<nat>
    requires n <= |ds|
  {
    if n == 0 then multiset{}
    else Surplus(vms, ds, n - 1) + if FirstNew(vms, ds, n - 1) then multiset{} else multiset{ds[n - 1].handle}
  }

  lemma {:induction false} SurplusOfPrefix(vms: map<string, Vm>, ds: seq<Discovered>, m: nat, n: nat)
    requires n <= m <= |ds|
    ensures Surplus(vms, ds[..m], n) == Surplus(vms, ds, n)
  {
    if n != 0 {
      SurplusOfPrefix(vms, ds, m, n - 1);
      assert ds[..m][..n - 1] == ds[..n - 1];
    }
  }

  lemma IdsGrow(ds: seq<Discovered>)
    requires 0 < |ds|
    ensures IdsOf(ds) == IdsOf(ds[..|ds| - 1]) + {ds[|ds| - 1].id}
  {
    var front := ds[..|ds| - 1];
    forall id
      ensures id in IdsOf(ds) <==> id in IdsOf(front) + {ds[|ds| - 1].id}
    {
      if id in IdsOf(front) {
        var i :| 0 <= i < |front| && front[i].id == id;
        assert ds[i].id == id;
      }
      if id in IdsOf(ds) && id != ds[|ds| - 1].id {
        var i :| 0 <= i < |ds| && ds[i].id == id;
        assert front[i].id == id;
      }
    }
  }

  /** Adding keeps every tracked VM, tracks every discovered one and counts the new ones. */
  ghost predicate Added(vms: map<string, Vm>, ids: set<string>, s: Synced) {
    && s.vms.Keys == vms.Keys + ids
    && |s.vms.Keys| == |vms.Keys| + s.added
    && (forall id :: id in vms ==> s.vms[id] == vms[id])
  }

  lemma {:induction false} AddingKeeps(vms: map<string, Vm>, r: Registry, ds: seq<Discovered>)
    ensures Added(vms, IdsOf(ds), AddDiscovered(vms, r, ds))
  {
    hide IdsOf, AddOne;
    if |ds| != 0 {
      var front, d := ds[..|ds| - 1], ds[|ds| - 1];
      AddingKeeps(vms, r, front);
      IdsGrow(ds);
      AddingOneKeeps(vms, r, IdsOf(front), AddDiscovered(vms, r, front), d);
    } else {
      NoIds();
    }
  }

  lemma AddingOneKeeps(vms: map<string, Vm>, r: Registry, ids: set<string>, s: Synced, d: Discovered)
    requires Added(vms, ids, s)
    ensures Added(vms, ids + {d.id}, AddOne(s, r, d))
  {
    hide NewStatus;
    OneMore(s.vms.Keys, vms.Keys, ids, d.id);
    if d.id !in s.vms {
      KeysGrow(s.vms, d.id, Vm(NewStatus(d.handle, r.Classification(d.id)), T.FRESH));
    }
  }

  lemma OneMore(keys: set<string>, a: set<string>, b: set<string>, id: string)
    requires keys == a + b
    ensures keys + {id} == a + (b + {id})
    ensures id in keys ==> keys + {id} == keys
    ensures id !in keys ==> |keys + {id}| == |keys| + 1
    ensures id !in keys ==> id !in a
  {
  }

  lemma KeysGrow(vms: map<string, Vm>, id: string, vm: Vm)
    ensures vms[id := vm].Keys == vms.Keys + {id}
  {
  }

  lemma NoIds()
    ensures IdsOf([]) == {}
  {
  }

  /** Every surplus discovery is closed, once, and nothing else is. */
  lemma {:induction false} AddingClosesSurplus(vms: map<string, Vm>, r: Registry, ds: seq<Discovered>)
    ensures var s := AddDiscovered(vms, r, ds);
            s.closed == Surplus(vms, ds, |ds|) && |s.closed| + s.added == |ds|
  {
    hide IdsOf, AddOne, FirstNew;
    if |ds| != 0 {
      var front := ds[..|ds| - 1];
      AddingClosesSurplus(vms, r, front);
      SurplusOfPrefix(vms, ds, |front|, |front|);
      NewIsUntracked(vms, r, ds);
      AddingOneCounts(AddDiscovered(vms, r, front), r, ds[|ds| - 1]);
    }
  }

  lemma NewIsUntracked(vms: map<string, Vm>, r: Registry, ds: seq<Discovered>)
    requires 0 < |ds|
    ensures ds[|ds| - 1].id in AddDiscovered(vms, r, ds[..|ds| - 1]).vms <==> !FirstNew(vms, ds, |ds| - 1)
  {
    hide IdsOf, AddDiscovered;
    AddingKeeps(vms, r, ds[..|ds| - 1]);
  }

  lemma AddingOneCounts(s: Synced, r: Registry, d: Discovered)
    ensures var after := AddOne(s, r, d);
            && after.closed == s.closed + (if d.id in s.vms then multiset{d.handle} else multiset{})
            && |after.closed| + after.added == |s.closed| + s.added + 1
  {
  }

  /** A new VM is registered with its first handle and its recorded classification. */
  lemma {:induction false} AddingRegistersFirst(vms: map<string, Vm>, r: Registry, ds: seq<Discovered>, i: nat)
    requires i < |ds| && FirstNew(vms, ds, i)
    ensures Registered(AddDiscovered(vms, r, ds), r, ds[i])
  {
    hide IdsOf, AddOne, Registered, AddDiscovered;
    var n := |ds| - 1;
    var front := ds[..n];
    var before := AddDiscovered(vms, r, front);
    AddingNext(vms, r, ds);
    if i < n {
      assert front[i] == ds[i] && front[..i] == ds[..i];
      AddingRegistersFirst(vms, r, front, i);
      StaysRegistered(before, r, ds[i], ds[n]);
    } else {
      assert front == ds[..i];
      AddingKeeps(vms, r, front);
      RegistersNew(before, r, ds[n]);
    }
  }

  lemma AddingNext(vms: map<string, Vm>, r: Registry, ds: seq<Discovered>)
    requires 0 < |ds|
    ensures AddDiscovered(vms, r, ds) == AddOne(AddDiscovered(vms, r, ds[..|ds| - 1]), r, ds[|ds| - 1])
  {
    hide AddOne;
  }

  /** Tracked with the discovered client and what the registry says; otherwise as if never seen before. */
  ghost predicate JustFound(vm: Vm, r: Registry, d: Discovered) {
    && vm.status.handle == d.handle && vm.status.classification == r.Classification(d.id)
    && vm.status.cooldownUntil.None? && !vm.status.sticky && vm.engine == T.FRESH
    && vm.status.util == 0.0 && vm.status.ioCount == 0 && !vm.status.throttled
  }

  ghost predicate Registered(s: Synced, r: Registry, d: Discovered) {
    && d.id in s.vms && JustFound(s.vms[d.id], r, d)
    && s.vms[d.id] == Vm(NewStatus(d.handle, r.Classification(d.id)), T.FRESH)
  }

  lemma StaysRegistered(s: Synced, r: Registry, d: Discovered, next: Discovered)
    requires Registered(s, r, d)
    ensures Registered(AddOne(s, r, next), r, d)
  {
    hide NewStatus, JustFound;
  }

  lemma RegistersNew(s: Synced, r: Registry, d: Discovered)
    requires d.id !in s.vms
    ensures Registered(AddOne(s, r, d), r, d)
  {
  }

  /**
   A sync leaves exactly the discovered VMs: those tracked before keep their
   record and engine state, new ones start fresh, and the counts add up.
   */
  lemma SyncIsExact(w: World, ds: seq<Discovered>)
    ensures var after := SyncWorld(w, ds);
            && after.vms.Keys == IdsOf(ds)
            && (forall id :: id in w.vms && id in IdsOf(ds) ==> after.vms[id] == w.vms[id])
            && (forall i :: 0 <= i < |ds| && FirstNew(w.vms, ds, i) ==>
                  && ds[i].id in after.vms && JustFound(after.vms[ds[i].id], w.memory, ds[i])
                  && after.vms[ds[i].id]
                     == Vm(NewStatus(ds[i].handle, w.memory.Classification(ds[i].id)), T.FRESH))
  {
    hide AddDiscovered;
    AddingKeeps(w.vms, w.memory, ds);
    forall i | 0 <= i < |ds| && FirstNew(w.vms, ds, i)
      ensures ds[i].id in IdsOf(ds) && JustFound(SyncWorld(w, ds).vms[ds[i].id], w.memory, ds[i])
      ensures SyncWorld(w, ds).vms[ds[i].id]
           == Vm(NewStatus(ds[i].handle, w.memory.Classification(ds[i].id)), T.FRESH)
    {
      AddingRegistersFirst(w.vms, w.memory, ds, i);
    }
  }

  /** The counts a sync returns balance: new size = old size + added - removed. */
  lemma SyncCountsBalance(w: World, ds: seq<Discovered>)
    ensures |SyncWorld(w, ds).vms.Keys|
         == |w.vms.Keys| + AddDiscovered(w.vms, w.memory, ds).added - RemovedBySync(w, ds)
    ensures RemovedBySync(w, ds) == |w.vms.Keys - IdsOf(ds)|
  {
    hide AddDiscovered, IdsOf;
    AddingKeeps(w.vms, w.memory, ds);
    var s := AddDiscovered(w.vms, w.memory, ds);
    assert SyncWorld(w, ds).vms.Keys == IdsOf(ds);
    assert s.vms.Keys == (s.vms.Keys - IdsOf(ds)) + IdsOf(ds);
    assert s.vms.Keys - IdsOf(ds) == w.vms.Keys - IdsOf(ds);
  }

  // ---------------------------------------------------------------- ownership

  /** No tracked VM disagrees with the registry. */
  ghost predicate Agreeing(r: Registry, vms: map<string, Vm>) {
    forall id :: id in vms && r.Classification(id).Some? ==>
      vms[id].status.classification == r.Classification(id)
  }

  /** Committing classifications that agree never fails and changes nothing that was recorded. */
  lemma {:induction false} CommitAgrees(r: Registry, vms: map<string, Vm>, order: seq<string>)
    requires r.Disjoint() && Agreeing(r, vms)
    ensures var c := CommitAll(r, vms, order);
            && c.agreed && c.registry.Disjoint() && Agreeing(c.registry, vms) && Extends(r, c.registry)
            && (forall id :: id in order && id in vms && vms[id].status.classification.Some? ==>
                  c.registry.Classification(id) == vms[id].status.classification)
  {
    if |order| != 0 {
      var front := order[..|order| - 1];
      CommitAgrees(r, vms, front);
      CommitOneAgrees(CommitAll(r, vms, front), vms, order[|order| - 1]);
      assert order == front + [order[|order| - 1]];
    }
  }

  /** A commit agrees if and only if no listed VM contradicts what the registry said of it before. */
  lemma {:induction false} CommitDetects(r: Registry, vms: map<string, Vm>, order: seq<string>)
    requires r.Disjoint()
    ensures CommitAll(r, vms, order).agreed <==>
              forall id :: id in order && id in vms && vms[id].status.classification.Some? && r.Classification(id).Some? ==>
                vms[id].status.classification == r.Classification(id)
    ensures var c := CommitAll(r, vms, order);
            && c.registry.Disjoint() && Extends(r, c.registry)
            && (forall id :: r.Classification(id).None? && c.registry.Classification(id).Some? ==>
                  id in vms && vms[id].status.classification == c.registry.Classification(id))
  {
    if |order| != 0 {
      var front := order[..|order| - 1];
      CommitDetects(r, vms, front);
      assert order == front + [order[|order| - 1]];
    }
  }

  lemma CommitOneAgrees(c: Commit, vms: map<string, Vm>, id: string)
    requires c.agreed && c.registry.Disjoint() && Agreeing(c.registry, vms)
    ensures var d := CommitOne(c, vms, id);
            && d.agreed && d.registry.Disjoint() && Agreeing(d.registry, vms) && Extends(c.registry, d.registry)
            && (id in vms && vms[id].status.classification.Some? ==>
                  d.registry.Classification(id) == vms[id].status.classification)
  {
  }

  /** What happens to the daemon: a tick, a discovery result, or a restart from the saved registry. */
  datatype Event = Tick(inp: TickInput) | Sync(ds: seq<Discovered>) | Restart

  /** A daemon whose tick failed does nothing more until it is restarted. */
  function StepWorld(cfg: Config, tc: T.ValidConfig, w: World, e: Event): World {
    match e
    case Restart => World(map[], w.disk, w.disk, true)
    case Tick(inp) => if w.running then TickWorld(cfg, tc, w, inp).world else w
    case Sync(ds) => if w.running then SyncWorld(w, ds) else w
  }

  function RunWorld(cfg: Config, tc: T.ValidConfig, w: World, es: seq<Event>): World {
    if |es| == 0 then w
    else StepWorld(cfg, tc, RunWorld(cfg, tc, w, es[..|es| - 1]), es[|es| - 1])
  }

  /** A daemon just started from a registry file that loads. */
  ghost predicate Started(w: World) {
    w.running && w.vms == map[] && w.memory == w.disk && w.disk.Disjoint()
  }

  ghost predicate OwnershipKept(w: World) {
    && w.disk.managed !! w.disk.unmanaged
    && (w.running ==> w.memory == w.disk && Agreeing(w.memory, w.vms))
  }

  /** A tick keeps every VM's classification, and sets one only where none was. */
  lemma TickKeepsClassification(cfg: Config, tc: T.ValidConfig, vm: Vm, snap: Snapshot, now: nat, hostCpu: real,
                                admitted: bool, a: Attempt)
    ensures VmTick(cfg, tc, vm, snap, now, hostCpu, admitted, a).vm.status.classification
         == Refresh(vm.status, snap).classification
  {
    hide T.Evaluate, T.OnApplied;
  }

  /** The classifications after a completed tick are those the refresh left. */
  lemma TickKeepsClassifications(cfg: Config, tc: T.ValidConfig, w: World, inp: TickInput)
    requires TickWorld(cfg, tc, w, inp).TickDone?
    ensures var fleet, after := RefreshFleet(w.vms, inp.snaps), TickWorld(cfg, tc, w, inp).world.vms;
            && after.Keys == fleet.Keys
            && forall id :: id in fleet ==> after[id].status.classification == fleet[id].status.classification
  {
    hide TickWorld, VmTick, Refresh;
    var fleet := RefreshFleet(w.vms, inp.snaps);
    TickKeepsOnlyRefreshed(cfg, tc, w, inp);
    forall id | id in fleet
      ensures TickWorld(cfg, tc, w, inp).world.vms[id].status.classification == fleet[id].status.classification
    {
      var admitted := TickProjects(cfg, tc, w, inp, id);
      TickKeepsClassification(cfg, tc, w.vms[id], inp.snaps(id).value, inp.now, inp.hostCpu, admitted, inp.env(id));
    }
  }

  /** A tick of a daemon that kept ownership keeps it, and cannot find it changed. */
  lemma TickKeepsOwnership(cfg: Config, tc: T.ValidConfig, w: World, inp: TickInput)
    requires OwnershipKept(w) && w.running
    ensures var r := TickWorld(cfg, tc, w, inp);
            && OwnershipKept(r.world) && Extends(w.disk, r.world.disk)
            && (r.TickFailed? ==> r.error == SaveFailed)
            && (r.TickDone? ==> forall id :: id in r.world.vms && id in inp.order ==>
                  && r.world.vms[id].status.classification.Some?
                  && r.world.disk.Classification(id) == r.world.vms[id].status.classification)
  {
    hide CommitAll, EvaluateFleet, PlanFor, ApplyPlan;
    var fleet := RefreshFleet(w.vms, inp.snaps);
    CommitAgrees(w.memory, fleet, inp.order);
    var r := TickWorld(cfg, tc, w, inp);
    if r.TickDone? {
      TickKeepsClassifications(cfg, tc, w, inp);
    }
  }

  lemma SyncKeepsOwnership(w: World, ds: seq<Discovered>)
    requires OwnershipKept(w) && w.running
    ensures OwnershipKept(SyncWorld(w, ds))
  {
    AddingKeeps(w.vms, w.memory, ds);
    var after := SyncWorld(w, ds);
    forall id | id in after.vms && id !in w.vms
      ensures after.vms[id].status.classification == w.memory.Classification(id)
    {
      var i := FirstOf(ds, id);
      AddingRegistersFirst(w.vms, w.memory, ds, i);
    }
  }

  lemma {:induction false} FirstOf(ds: seq<Discovered>, id: string) returns (i: nat)
    requires id in IdsOf(ds)
    ensures i < |ds| && ds[i].id == id && id !in IdsOf(ds[..i])
  {
    var front := ds[..|ds| - 1];
    if id in IdsOf(front) {
      i := FirstOf(front, id);
      assert front[..i] == ds[..i];
    } else {
      IdsGrow(ds);
      i := |ds| - 1;
    }
  }

  /**
   Over any interleaving of discovery, ticks, removal, rediscovery, failed
   saves and restarts: the registry stays disjoint, memory equals disk while
   the daemon runs, and every tracked VM agrees with it.
   */
  lemma {:induction false} OwnershipOverRuns(cfg: Config, tc: T.ValidConfig, w: World, es: seq<Event>)
    requires Started(w)
    ensures OwnershipKept(RunWorld(cfg, tc, w, es))
  {
    hide TickWorld, SyncWorld;
    if |es| != 0 {
      OwnershipOverRuns(cfg, tc, w, es[..|es| - 1]);
      StepKeepsOwnership(cfg, tc, RunWorld(cfg, tc, w, es[..|es| - 1]), es[|es| - 1]);
    }
  }

  lemma StepKeepsOwnership(cfg: Config, tc: T.ValidConfig, w: World, e: Event)
    requires OwnershipKept(w)
    ensures OwnershipKept(StepWorld(cfg, tc, w, e))
    ensures Extends(w.disk, StepWorld(cfg, tc, w, e).disk)
  {
    hide TickWorld;
    if w.running && e.Tick? {
      TickKeepsOwnership(cfg, tc, w, e.inp);
    } else if w.running && e.Sync? {
      SyncKeepsOwnership(w, e.ds);
    }
  }

  /** A classification once saved is never different afterwards. */
  lemma {:induction false} PersistedForever(cfg: Config, tc: T.ValidConfig, w: World, es: seq<Event>, n: nat)
    requires Started(w) && n <= |es|
    ensures Extends(RunWorld(cfg, tc, w, es[..n]).disk, RunWorld(cfg, tc, w, es).disk)
    decreases |es|
  {
    hide StepWorld;
    if n == |es| {
      assert es[..n] == es;
    } else {
      var front := es[..|es| - 1];
      assert front[..n] == es[..n];
      PersistedForever(cfg, tc, w, front, n);
      OwnershipOverRuns(cfg, tc, w, front);
      StepKeepsOwnership(cfg, tc, RunWorld(cfg, tc, w, front), es[|es| - 1]);
    }
  }

  /** In no run does a tick fail because ownership changed. */
  lemma OwnershipChangedUnreachable(cfg: Config, tc: T.ValidConfig, w: World, es: seq<Event>, inp: TickInput)
    requires Started(w) && RunWorld(cfg, tc, w, es).running
    ensures TickWorld(cfg, tc, RunWorld(cfg, tc, w, es), inp).TickFailed? ==>
              TickWorld(cfg, tc, RunWorld(cfg, tc, w, es), inp).error == SaveFailed
  {
    hide TickWorld, RunWorld;
    OwnershipOverRuns(cfg, tc, w, es);
    TickKeepsOwnership(cfg, tc, RunWorld(cfg, tc, w, es), inp);
  }
}
