/**
 A run of the daemon in which the limit on adjustments per poll loses a
 decision for good. VM "a" grows, its validation fails and a `Revert` is
 decided; in the same tick VM "b" shrinks and uses up the limit of one.
 */
module LostRevert {
  import opened Common
  import opened ControlLoop
  import opened ClosedLoop
  import opened FleetRuns
  import opened Ownership
  import P = PlanTheorems
  import T = Threshold

  // ---------------------------------------------------------------- ticks of two VMs

  /** The plan item of a decision, if it asks for another size. */
  function PlannedItem(id: string, sequence: nat, vm: Vm, action: T.ScaleAction): seq<PlanItem> {
    if action.NoAction? || action.count == vm.status.threadCount then []
    else [PlanItem(action.count > vm.status.threadCount, sequence, id, action)]
  }

  const BOTH: Registry := Registry({"a", "b"}, {})

  /** Both VMs are tracked and managed, and nothing needs saving. */
  ghost predicate Settled(w: World) {
    && w.running && w.memory == w.disk == BOTH && w.vms.Keys == {"a", "b"}
    && forall id :: id in w.vms ==> w.vms[id].status.classification == Some(true) && !w.vms[id].status.sticky
  }

  /** A poll at `secs` seconds that finds the two VMs as in `a` and `b`, and a backend that accepts. */
  function PollOf(secs: nat, a: Snapshot, b: Snapshot): TickInput {
    var at := secs * 1_000_000_000;
    TickInput(at, 0.0, (id: string) => if id == "a" then Some(a) else Some(b), ["b", "a"], true,
              (id: string) => Attempt(at, at, at, true))
  }

  function Seen(vm: Vm, snap: Snapshot): Vm {
    vm.(status := Refresh(vm.status, snap))
  }

  lemma TwoDecisions(cfg: Config, tc: T.ValidConfig, vms: map<string, Vm>, now: nat)
    requires vms.Keys == {"a", "b"} && !vms["a"].status.sticky && !vms["b"].status.sticky
    ensures Decisions(cfg, tc, vms, ["b", "a"], now)
         == [Decision("b", EvaluateVm(cfg, tc, vms["b"], now).action),
             Decision("a", EvaluateVm(cfg, tc, vms["a"], now).action)]
  {
    hide EvaluateVm;
    assert ["b", "a"][..1] == ["b"] && ["b"][..0] == [];
    assert Decisions(cfg, tc, vms, ["b"], now) == [Decision("b", EvaluateVm(cfg, tc, vms["b"], now).action)];
  }

  lemma TwoItems(vms: map<string, Vm>, da: T.ScaleAction, db: T.ScaleAction)
    requires vms.Keys == {"a", "b"}
    ensures PlanOf(vms, [Decision("b", db), Decision("a", da)])
         == PlannedItem("b", 0, vms["b"], db) + PlannedItem("a", 1, vms["a"], da)
  {
    var ds := [Decision("b", db), Decision("a", da)];
    assert ds[..1] == [Decision("b", db)] && ds[..1][..0] == [];
    assert PlanOf(vms, [Decision("b", db)]) == PlannedItem("b", 0, vms["b"], db);
  }

  lemma NothingToCommit(vms: map<string, Vm>)
    requires forall id :: id in vms ==> vms[id].status.classification == Some(true)
    ensures CommitAll(BOTH, vms, ["b", "a"]) == Commit(BOTH, true)
  {
    assert ["b", "a"][..1] == ["b"] && ["b"][..0] == [];
    assert CommitAll(BOTH, vms, ["b"]) == Commit(BOTH, true);
  }

  /** A poll of two settled VMs, given what the engine decides for each. */
  lemma TwoVmTick(cfg: Config, tc: T.ValidConfig, w: World, secs: nat, a: Snapshot, b: Snapshot,
                  va: T.Verdict, vb: T.Verdict)
    requires Settled(w)
    requires va == EvaluateVm(cfg, tc, Seen(w.vms["a"], a), secs * 1_000_000_000)
    requires vb == EvaluateVm(cfg, tc, Seen(w.vms["b"], b), secs * 1_000_000_000)
    ensures var inp, sa, sb := PollOf(secs, a, b), Seen(w.vms["a"], a), Seen(w.vms["b"], b);
            var items := PlannedItem("b", 0, sb, vb.action) + PlannedItem("a", 1, sa, va.action);
            var p := ApplyPlan(cfg, tc, 0.0, inp.env,
                               map["a" := sa.(engine := va.state), "b" := sb.(engine := vb.state)], SortPlan(items));
            && TickWorld(cfg, tc, w, inp) == TickDone(World(p.vms, BOTH, BOTH, true), p.tried)
            && PlanFor(cfg, tc, RefreshFleet(w.vms, inp.snaps), inp.order, inp.now) == SortPlan(items)
  {
    hide EvaluateVm, PlanOf, Decisions, SortPlan, ApplyPlan, CommitAll, PlannedItem;
    var inp := PollOf(secs, a, b);
    var fleet := RefreshFleet(w.vms, inp.snaps);
    assert fleet == map["a" := Seen(w.vms["a"], a), "b" := Seen(w.vms["b"], b)];
    var evaluated := EvaluateFleet(cfg, tc, fleet, inp.now);
    assert evaluated == map["a" := fleet["a"].(engine := va.state), "b" := fleet["b"].(engine := vb.state)];
    NothingToCommit(fleet);
    TwoDecisions(cfg, tc, fleet, inp.now);
    TwoItems(evaluated, va.action, vb.action);
    SameItem("a", 1, fleet["a"], va);
    SameItem("b", 0, fleet["b"], vb);
  }

  lemma SameItem(id: string, sequence: nat, vm: Vm, v: T.Verdict)
    ensures PlannedItem(id, sequence, vm.(engine := v.state), v.action) == PlannedItem(id, sequence, vm, v.action)
  {
  }

  // ---------------------------------------------------------------- plans of at most two items

  lemma FilterPush(plan: seq<PlanItem>, item: PlanItem, grows: bool)
    ensures Filter(plan + [item], grows) == Filter(plan, grows) + if item.grows == grows then [item] else []
  {
    assert (plan + [item])[..|plan|] == plan;
  }

  lemma ApplyPush(cfg: Config, tc: T.ValidConfig, vms: map<string, Vm>, env: Environment,
                  plan: seq<PlanItem>, item: PlanItem)
    ensures ApplyPlan(cfg, tc, 0.0, env, vms, plan + [item])
         == ApplyItem(cfg, tc, 0.0, env, ApplyPlan(cfg, tc, 0.0, env, vms, plan), item)
  {
    hide ApplyItem;
    assert (plan + [item])[..|plan|] == plan;
  }

  lemma NothingPlanned(cfg: Config, tc: T.ValidConfig, vms: map<string, Vm>, env: Environment)
    ensures ApplyPlan(cfg, tc, 0.0, env, vms, SortPlan([])) == Progress(vms, 0, [])
    ensures SortPlan([]) == []
  {
  }

  lemma OnePlanned(cfg: Config, tc: T.ValidConfig, vms: map<string, Vm>, env: Environment, item: PlanItem)
    requires item.id in vms && !item.action.NoAction?
    ensures var r := ApplyDecision(cfg, tc, vms[item.id], item.action, 0.0, env(item.id));
            ApplyPlan(cfg, tc, 0.0, env, vms, SortPlan([item]))
            == Progress(vms[item.id := r.0], if r.1.Adjusted() then 1 else 0, [Tried(item, r.1)])
  {
    hide ApplyDecision, Filter, ApplyPlan;
    NothingPlanned(cfg, tc, vms, env);
    assert [item] == [] + [item];
    FilterPush([], item, false);
    FilterPush([], item, true);
    P.NothingFiltered();
    assert SortPlan([item]) == [item];
    ApplyPush(cfg, tc, vms, env, [], item);
  }

  /** Of two shrinks, the first that is applied uses up a limit of one. */
  lemma SecondIsCapped(cfg: Config, tc: T.ValidConfig, vms: map<string, Vm>, env: Environment,
                       first: PlanItem, second: PlanItem)
    requires cfg.maxAdjusted == 1 && !first.grows && !second.grows
    requires first.id in vms && !first.action.NoAction?
    requires ApplyDecision(cfg, tc, vms[first.id], first.action, 0.0, env(first.id)).1.Adjusted()
    ensures var r := ApplyDecision(cfg, tc, vms[first.id], first.action, 0.0, env(first.id));
            ApplyPlan(cfg, tc, 0.0, env, vms, SortPlan([first, second]))
            == Progress(vms[first.id := r.0], 1, [Tried(first, r.1)])
    ensures second in SortPlan([first, second])
  {
    hide ApplyDecision, Filter, ApplyPlan;
    NothingPlanned(cfg, tc, vms, env);
    OnePlanned(cfg, tc, vms, env, first);
    assert [first] == [] + [first] && [first, second] == [first] + [second];
    P.NothingFiltered();
    FilterPush([], first, false);
    FilterPush([], first, true);
    FilterPush([first], second, false);
    FilterPush([first], second, true);
    assert SortPlan([first]) == [first] && SortPlan([first, second]) == [first] + [second];
    ApplyPush(cfg, tc, vms, env, [first], second);
  }

  // ---------------------------------------------------------------- the two VMs

  const CFG: Config := ControlLoop.Config(1, 4, 0.0, 0, 1, false)
  const TC: T.ValidConfig := T.Config(0.5, 0.05, 0.05, 0, true, T.Polls(3, 0, 0, 1, 1, 0, 0))

  function Reading(n: u32, util: real, ios: nat): Snapshot {
    Snapshot(n, 4, Some(PerfCounts(ios, 0, 0)), Backend(util), false, true)
  }

  function StatusOf(handle: nat, n: u32, until: Option<nat>, ios: nat, util: real): Status {
    Status(handle, n, 4, Some(true), until, false, ios, util, false)
  }

  const A0: Vm := Vm(NewStatus(0, Some(true)), T.FRESH)
  const B0: Vm := Vm(NewStatus(1, Some(true)), T.FRESH)

  const OPENED: Option<T.IoSample> := Some(T.IoSample(0, 1_000_000_000))

  const A1: Vm := Vm(StatusOf(0, 1, None, 0, 0.5), T.VmState(0, None, OPENED, 0, None, 0, 0))
  const B1: Vm := Vm(StatusOf(1, 2, None, 0, 0.1), T.VmState(1, None, OPENED, 0, None, 0, 0))
  const B2: Vm := Vm(StatusOf(1, 2, None, 0, 0.1), T.VmState(2, None, OPENED, 0, None, 0, 0))
  const B3: Vm := Vm(StatusOf(1, 2, None, 0, 0.1), T.VmState(3, None, OPENED, 0, None, 0, 0))

  /** "a" after it grew to two workers, with that action pending. */
  const A2: Vm :=
    Vm(StatusOf(0, 2, Some(2_000_000_000), 100, 1.0),
       T.VmState(0, Some(T.PendingValidation(T.Up(2), 1, 100, T.IoSample(100, 2_000_000_000), 0)), OPENED, 100, None, 0, 0))

  /** "a" after its `Revert` was decided. */
  const A3: Vm :=
    Vm(StatusOf(0, 2, Some(2_000_000_000), 100, 1.0), T.VmState(0, None, None, 0, Some(T.Grace(1)), 1, 0))

  lemma FirstPollOfA()
    ensures EvaluateVm(CFG, TC, Seen(A0, Reading(1, 0.5, 0)), 1_000_000_000) == T.Verdict(A1.engine, T.NoAction)
    ensures Seen(A0, Reading(1, 0.5, 0)).(engine := A1.engine) == A1
  {
  }

  lemma PollsOfB()
    ensures EvaluateVm(CFG, TC, Seen(B0, Reading(2, 0.1, 0)), 1_000_000_000) == T.Verdict(B1.engine, T.NoAction)
    ensures EvaluateVm(CFG, TC, Seen(B1, Reading(2, 0.1, 0)), 2_000_000_000) == T.Verdict(B2.engine, T.NoAction)
    ensures EvaluateVm(CFG, TC, Seen(B2, Reading(2, 0.1, 0)), 3_000_000_000) == T.Verdict(B3.engine, T.Down(1))
    ensures Seen(B0, Reading(2, 0.1, 0)).(engine := B1.engine) == B1
    ensures Seen(B1, Reading(2, 0.1, 0)).(engine := B2.engine) == B2
    ensures Seen(B2, Reading(2, 0.1, 0)).(engine := B3.engine) == B3
  {
    hide T.IopsRate;
    NoRate(2);
    NoRate(3);
  }

  lemma NoRate(secs: nat)
    requires secs == 2 || secs == 3
    ensures T.IopsRate(T.IoSample(0, 1_000_000_000), T.IoSample(0, secs * 1_000_000_000)) == 0
  {
  }

  /** "a" as evaluated in its second poll. */
  function Grown(): T.VmState {
    T.VmState(0, None, OPENED, 100, None, 0, 0)
  }

  lemma SecondPollOfA()
    ensures EvaluateVm(CFG, TC, Seen(A1, Reading(1, 1.0, 100)), 2_000_000_000) == T.Verdict(Grown(), T.Up(2))
  {
    assert T.IopsRate(T.IoSample(0, 1_000_000_000), T.IoSample(100, 2_000_000_000)) == 100;
  }

  lemma GrowthOfA()
    ensures ApplyDecision(CFG, TC, Seen(A1, Reading(1, 1.0, 100)).(engine := Grown()), T.Up(2), 0.0,
                          Attempt(2_000_000_000, 2_000_000_000, 2_000_000_000, true)) == (A2, Success)
  {
  }

  lemma ThirdPollOfA()
    ensures EvaluateVm(CFG, TC, Seen(A2, Reading(2, 1.0, 100)), 3_000_000_000) == T.Verdict(A3.engine, T.Revert(1))
    ensures Seen(A2, Reading(2, 1.0, 100)).(engine := A3.engine) == A3
  {
    assert T.IopsRate(T.IoSample(100, 2_000_000_000), T.IoSample(100, 3_000_000_000)) == 0;
  }

  lemma FourthPollOfA()
    ensures EvaluateVm(CFG, TC, Seen(A3, Reading(2, 1.0, 100)), 4_000_000_000).action == T.NoAction
  {
  }

  /** "b" once its shrink was applied. */
  function Shrunk(): Vm {
    ApplyDecision(CFG, TC, B3, T.Down(1), 0.0, Attempt(3_000_000_000, 3_000_000_000, 3_000_000_000, true)).0
  }

  lemma ShrinkOfB()
    ensures ApplyDecision(CFG, TC, B3, T.Down(1), 0.0, Attempt(3_000_000_000, 3_000_000_000, 3_000_000_000, true)).1
         == Success
    ensures !Shrunk().status.sticky && Shrunk().status.classification == Some(true)
    ensures EvaluateVm(CFG, TC, Seen(Shrunk(), Reading(1, 0.1, 0)), 4_000_000_000).action == T.NoAction
  {
    hide T.IopsRate;
  }

  // ---------------------------------------------------------------- the run

  function WorldOf(a: Vm, b: Vm): World {
    World(map["a" := a, "b" := b], BOTH, BOTH, true)
  }

  const START: World := World(map[], BOTH, BOTH, true)
  const SYNC: Event := Sync([Discovered.Discovered("a", 0), Discovered.Discovered("b", 1)])
  const POLL1: Event := Tick(PollOf(1, Reading(1, 0.5, 0), Reading(2, 0.1, 0)))
  const POLL2: Event := Tick(PollOf(2, Reading(1, 1.0, 100), Reading(2, 0.1, 0)))
  const POLL3: Event := Tick(PollOf(3, Reading(2, 1.0, 100), Reading(2, 0.1, 0)))
  const POLL4: Event := Tick(PollOf(4, Reading(2, 1.0, 100), Reading(1, 0.1, 0)))

  lemma FoundBoth()
    ensures StepWorld(CFG, TC, START, SYNC) == WorldOf(A0, B0)
  {
    var a, b := Discovered.Discovered("a", 0), Discovered.Discovered("b", 1);
    assert [a, b][..1] == [a] && [a][..0] == [];
    assert AddDiscovered(map[], BOTH, [a]) == ControlLoop.Synced(map["a" := A0], 1, multiset{});
    assert AddDiscovered(map[], BOTH, [a, b]).vms == map["a" := A0, "b" := B0];
    assert [a, b][0].id in IdsOf([a, b]) && [a, b][1].id in IdsOf([a, b]);
  }

  lemma Polled1()
    ensures StepWorld(CFG, TC, WorldOf(A0, B0), POLL1) == WorldOf(A1, B1)
  {
    hide EvaluateVm, TickWorld, ApplyPlan, SortPlan, Seen;
    FirstPollOfA();
    PollsOfB();
    TwoVmTick(CFG, TC, WorldOf(A0, B0), 1, Reading(1, 0.5, 0), Reading(2, 0.1, 0),
              T.Verdict(A1.engine, T.NoAction), T.Verdict(B1.engine, T.NoAction));
    assert PlannedItem("b", 0, Seen(B0, Reading(2, 0.1, 0)), T.NoAction)
         + PlannedItem("a", 1, Seen(A0, Reading(1, 0.5, 0)), T.NoAction) == [];
    NothingPlanned(CFG, TC, map["a" := A1, "b" := B1], POLL1.inp.env);
  }

  lemma Polled2()
    ensures StepWorld(CFG, TC, WorldOf(A1, B1), POLL2) == WorldOf(A2, B2)
  {
    hide EvaluateVm, TickWorld, ApplyPlan, SortPlan, ApplyDecision;
    SecondPollOfA();
    PollsOfB();
    GrowthOfA();
    TwoVmTick(CFG, TC, WorldOf(A1, B1), 2, Reading(1, 1.0, 100), Reading(2, 0.1, 0),
              T.Verdict(Grown(), T.Up(2)), T.Verdict(B2.engine, T.NoAction));
    var item, vms := PlanItem(true, 1, "a", T.Up(2)),
                     map["a" := Seen(A1, Reading(1, 1.0, 100)).(engine := Grown()), "b" := B2];
    OnePlanned(CFG, TC, vms, POLL2.inp.env, item);
    assert [] + [item] == [item];
    assert vms["a" := A2] == map["a" := A2, "b" := B2];
  }

  /** The third poll: "a" is to be reverted and "b" to shrink, and only "b" is attempted. */
  lemma Polled3()
    ensures StepWorld(CFG, TC, WorldOf(A2, B2), POLL3) == WorldOf(A3, Shrunk())
    ensures TickWorld(CFG, TC, WorldOf(A2, B2), POLL3.inp).TickDone?
    ensures TickWorld(CFG, TC, WorldOf(A2, B2), POLL3.inp).tried
         == [Tried(PlanItem(false, 0, "b", T.Down(1)), Success)]
    ensures PlanItem(false, 1, "a", T.Revert(1))
         in PlanFor(CFG, TC, RefreshFleet(WorldOf(A2, B2).vms, POLL3.inp.snaps), POLL3.inp.order, POLL3.inp.now)
  {
    hide EvaluateVm, TickWorld, ApplyPlan, SortPlan, ApplyDecision, PlanFor;
    ThirdPollOfA();
    PollsOfB();
    ShrinkOfB();
    TwoVmTick(CFG, TC, WorldOf(A2, B2), 3, Reading(2, 1.0, 100), Reading(2, 0.1, 0),
              T.Verdict(A3.engine, T.Revert(1)), T.Verdict(B3.engine, T.Down(1)));
    var first, second := PlanItem(false, 0, "b", T.Down(1)), PlanItem(false, 1, "a", T.Revert(1));
    var vms := map["a" := A3, "b" := B3];
    SecondIsCapped(CFG, TC, vms, POLL3.inp.env, first, second);
    assert [first] + [second] == [first, second];
    assert vms["b" := Shrunk()] == map["a" := A3, "b" := Shrunk()];
  }

  lemma Polled4()
    ensures TickWorld(CFG, TC, WorldOf(A3, Shrunk()), POLL4.inp).TickDone?
    ensures TickWorld(CFG, TC, WorldOf(A3, Shrunk()), POLL4.inp).tried == []
  {
    hide EvaluateVm, TickWorld, ApplyPlan, SortPlan, Shrunk;
    ShrinkOfB();
    FourthPollOfA();
    var sa, sb := Seen(A3, Reading(2, 1.0, 100)), Seen(Shrunk(), Reading(1, 0.1, 0));
    var va, vb := EvaluateVm(CFG, TC, sa, 4_000_000_000), EvaluateVm(CFG, TC, sb, 4_000_000_000);
    TwoVmTick(CFG, TC, WorldOf(A3, Shrunk()), 4, Reading(2, 1.0, 100), Reading(1, 0.1, 0), va, vb);
    assert PlannedItem("b", 0, sb, T.NoAction) + PlannedItem("a", 1, sa, T.NoAction) == [];
    NothingPlanned(CFG, TC, map["a" := sa.(engine := va.state), "b" := sb.(engine := vb.state)], POLL4.inp.env);
  }

  /** The first three events and the fourth, one by one. */
  lemma RunOfEvents(s1: World, s2: World, s3: World, s4: World)
    requires StepWorld(CFG, TC, START, SYNC) == s1 && StepWorld(CFG, TC, s1, POLL1) == s2
    requires StepWorld(CFG, TC, s2, POLL2) == s3 && StepWorld(CFG, TC, s3, POLL3) == s4
    ensures RunWorld(CFG, TC, START, [SYNC, POLL1, POLL2]) == s3
    ensures RunWorld(CFG, TC, START, [SYNC, POLL1, POLL2, POLL3]) == s4
  {
    hide *;
    NothingRun(CFG, TC, START);
    OneEvent(CFG, TC, START, [], SYNC);
    OneEvent(CFG, TC, START, [SYNC], POLL1);
    OneEvent(CFG, TC, START, [SYNC, POLL1], POLL2);
    OneEvent(CFG, TC, START, [SYNC, POLL1, POLL2], POLL3);
    assert [] + [SYNC] == [SYNC] && [SYNC] + [POLL1] == [SYNC, POLL1];
    assert [SYNC, POLL1] + [POLL2] == [SYNC, POLL1, POLL2];
    assert [SYNC, POLL1, POLL2] + [POLL3] == [SYNC, POLL1, POLL2, POLL3];
  }

  /**
   From a daemon just started: after three polls a `Revert` of "a" to one
   worker was planned and not attempted, its validation is gone, and the next
   poll finds "a" still at two workers and attempts nothing.
   */
  lemma RevertLostToCap()
    ensures Started(START) && CFG.maxAdjusted == 1
    ensures RunWorld(CFG, TC, START, [SYNC, POLL1, POLL2]) == WorldOf(A2, B2)
    ensures RunWorld(CFG, TC, START, [SYNC, POLL1, POLL2, POLL3]) == WorldOf(A3, Shrunk())
    ensures PlanItem(false, 1, "a", T.Revert(1))
         in PlanFor(CFG, TC, RefreshFleet(WorldOf(A2, B2).vms, POLL3.inp.snaps), POLL3.inp.order, POLL3.inp.now)
    ensures TickWorld(CFG, TC, WorldOf(A2, B2), POLL3.inp).TickDone?
    ensures TickWorld(CFG, TC, WorldOf(A2, B2), POLL3.inp).tried
         == [Tried(PlanItem(false, 0, "b", T.Down(1)), Success)]
    ensures A3.engine.pending.None? && POLL4.inp.snaps("a").value.threadCount == 2
    ensures TickWorld(CFG, TC, WorldOf(A3, Shrunk()), POLL4.inp).TickDone?
    ensures TickWorld(CFG, TC, WorldOf(A3, Shrunk()), POLL4.inp).tried == []
  {
    hide StepWorld, TickWorld, PlanFor, Shrunk, RunWorld, RefreshFleet;
    FoundBoth();
    Polled1();
    Polled2();
    Polled3();
    Polled4();
    RunOfEvents(WorldOf(A0, B0), WorldOf(A1, B1), WorldOf(A2, B2), WorldOf(A3, Shrunk()));
  }

  lemma NothingRun(cfg: Config, tc: T.ValidConfig, w: World)
    ensures RunWorld(cfg, tc, w, []) == w
  {
  }

  lemma OneEvent(cfg: Config, tc: T.ValidConfig, w: World, es: seq<Event>, e: Event)
    ensures RunWorld(cfg, tc, w, es + [e]) == StepWorld(cfg, tc, RunWorld(cfg, tc, w, es), e)
  {
    hide StepWorld;
    assert (es + [e])[..|es|] == es;
  }
}
