/**
 The daemon simulates the loop: what a run of the whole daemon does to one VM
 is a run of `ClosedLoop` on inputs read off the events, so every theorem about
 loops, histories, holds, baselines and cooldowns holds of the daemon.
 */
module FleetLoops {
  import opened Common
  import opened ControlLoop
  import opened ClosedLoop
  import opened FleetRuns
  import opened FleetBounds
  import C = Cooldowns
  import H = EngineHistory
  import T = Threshold

  /** What one event is to the VM: its tick, its discovery, or nothing. */
  ghost function InputOf(l: Loop, id: string, f: Watch, e: WatchEvent): seq<SiteInput> {
    if !f.world.running then []
    else
      match e.event
      case Restart => []
      case Sync(ds) =>
        var after := SyncWorld(f.world, ds);
        if id in after.vms && id !in f.world.vms
        then [Rediscovered(after.vms[id].status.handle, after.vms[id].status.classification)]
        else []
      case Tick(inp) =>
        if TickWorld(l.cfg, l.tc, f.world, inp).TickDone? && id in f.world.vms && inp.snaps(id).Some?
        then [Ticked(inp.snaps(id).value, inp.now, inp.hostCpu,
                     AttemptedOn(TickWorld(l.cfg, l.tc, f.world, inp).tried, id), inp.env(id), e.poolIfFailed)]
        else []
  }

  ghost function InputsOf(l: Loop, id: string, f: Watch, es: seq<WatchEvent>): seq<SiteInput> {
    if |es| == 0 then []
    else InputsOf(l, id, f, es[..|es| - 1]) + InputOf(l, id, RunWatch(l, id, f, es[..|es| - 1]), es[|es| - 1])
  }

  /** Where the loop of a VM starts that is not discovered yet. */
  function Undiscovered(f: Watch): Site {
    Site(Vm(NewStatus(0, None), T.FRESH), f.pool)
  }

  /** The loop has the real pool, and the VM as the running daemon tracks it. */
  ghost predicate Simulates(id: string, f: Watch, s: Site) {
    s.pool == f.pool && (f.world.running && id in f.world.vms ==> s.vm == f.world.vms[id])
  }

  function StepAll(l: Loop, s: Site, ins: seq<SiteInput>): Site {
    if |ins| == 0 then s else l.Step(s, ins[0])
  }

  /** A completed tick of a VM that was refreshed. */
  lemma TickSimulates(l: Loop, id: string, f: Watch, e: WatchEvent, s: Site)
    requires Simulates(id, f, s) && f.world.running
    requires e.event.Tick? && TickWorld(l.cfg, l.tc, f.world, e.event.inp).TickDone?
    requires id in f.world.vms && e.event.inp.snaps(id).Some?
    ensures Simulates(id, StepWatch(l, id, f, e), l.Step(s, InputOf(l, id, f, e)[0]))
  {
    hide TickWorld, VmTick;
    var inp := e.event.inp;
    var admitted := TickProjects(l.cfg, l.tc, f.world, inp, id);
    TickActuations(l.cfg, l.tc, f.world, inp);
    PoolMatches(Attempts(l.cfg, l.tc, f.world, e.event), id, l.Outcome(s, InputOf(l, id, f, e)[0]),
                f.pool, e.poolIfFailed);
  }

  lemma SyncSimulates(l: Loop, id: string, f: Watch, e: WatchEvent, s: Site)
    requires Simulates(id, f, s) && f.world.running && e.event.Sync?
    ensures Simulates(id, StepWatch(l, id, f, e), StepAll(l, s, InputOf(l, id, f, e)))
  {
    hide SyncWorld;
    var ds := e.event.ds;
    SyncIsExact(f.world, ds);
    if id in SyncWorld(f.world, ds).vms && id !in f.world.vms {
      var i := FirstOf(ds, id);
      assert FirstNew(f.world.vms, ds, i);
    }
  }

  /** Any other tick does not touch the pool, and leaves nothing tracked that is running. */
  lemma MissedTickSimulates(l: Loop, id: string, f: Watch, e: WatchEvent, s: Site)
    requires Simulates(id, f, s) && f.world.running && e.event.Tick?
    requires TickWorld(l.cfg, l.tc, f.world, e.event.inp).TickFailed? || id !in f.world.vms
             || e.event.inp.snaps(id).None?
    ensures Simulates(id, StepWatch(l, id, f, e), s)
  {
    hide CommitAll, PlanFor, ApplyPlan;
    if TickWorld(l.cfg, l.tc, f.world, e.event.inp).TickDone? {
      UnattemptedPool(l, id, f, e);
      TickKeepsOnlyRefreshed(l.cfg, l.tc, f.world, e.event.inp);
    }
  }

  lemma EventSimulates(l: Loop, id: string, f: Watch, e: WatchEvent, s: Site)
    requires Simulates(id, f, s)
    ensures |InputOf(l, id, f, e)| <= 1
    ensures Simulates(id, StepWatch(l, id, f, e), StepAll(l, s, InputOf(l, id, f, e)))
  {
    hide TickWorld, SyncWorld, VmTick;
    if f.world.running {
      match e.event {
        case Restart =>
        case Sync(_) => SyncSimulates(l, id, f, e, s);
        case Tick(inp) =>
          if |InputOf(l, id, f, e)| == 1 {
            TickSimulates(l, id, f, e, s);
          } else {
            MissedTickSimulates(l, id, f, e, s);
          }
      }
    }
  }

  lemma AfterAll(l: Loop, start: Site, ins: seq<SiteInput>, more: seq<SiteInput>)
    requires |more| <= 1
    ensures l.After(start, ins + more) == StepAll(l, l.After(start, ins), more)
    ensures l.FaithfulRun(start, ins + more) <==>
              l.FaithfulRun(start, ins) && (|more| == 1 ==> l.Faithful(l.After(start, ins), more[0]))
  {
    hide VmTick;
    if |more| == 0 {
      assert ins + more == ins;
    } else {
      assert more == [more[0]];
      OneInput(l, start, ins, more[0]);
    }
  }

  /**
   Over every run of the daemon, whatever the fleet, failed saves and restarts:
   the VM as tracked and its real pool are those of its loop.
   */
  lemma {:induction false} DaemonSimulatesLoop(l: Loop, id: string, f: Watch, es: seq<WatchEvent>)
    requires Started(f.world)
    ensures Simulates(id, RunWatch(l, id, f, es), l.After(Undiscovered(f), InputsOf(l, id, f, es)))
  {
    hide StepWatch, InputOf, Loop.Step;
    if |es| != 0 {
      var front, e := es[..|es| - 1], es[|es| - 1];
      DaemonSimulatesLoop(l, id, f, front);
      var ins := InputsOf(l, id, f, front);
      EventSimulates(l, id, RunWatch(l, id, f, front), e, l.After(Undiscovered(f), ins));
      AfterAll(l, Undiscovered(f), ins, InputOf(l, id, RunWatch(l, id, f, front), e));
    }
  }

  // ---------------------------------------------------------------- what the loop's theorems ask for

  lemma FaithfulInput(l: Loop, id: string, f: Watch, e: WatchEvent, s: Site)
    requires Simulates(id, f, s) && FaithfulEvent(l, id, f, e) && |InputOf(l, id, f, e)| == 1
    ensures l.Faithful(s, InputOf(l, id, f, e)[0])
  {
    hide TickWorld, SyncWorld, VmTick;
    if e.event.Tick? {
      var inp := e.event.inp;
      var tried := Attempts(l.cfg, l.tc, f.world, e.event);
      var admitted := TickProjects(l.cfg, l.tc, f.world, inp, id);
      var o := l.Outcome(s, InputOf(l, id, f, e)[0]);
      if o.disposition.Failed? {
        var k :| 0 <= k < |tried| && tried[k].item.id == id;
        assert tried[k] in tried;
      }
    }
  }

  /** Faithful events make a faithful run of the loop. */
  lemma {:induction false} DaemonIsFaithful(l: Loop, id: string, f: Watch, es: seq<WatchEvent>)
    requires Started(f.world) && FaithfulEvents(l, id, f, es)
    ensures l.FaithfulRun(Undiscovered(f), InputsOf(l, id, f, es))
  {
    hide StepWatch, InputOf, FaithfulEvent, Loop.Step, Loop.Faithful;
    if |es| != 0 {
      var front, e := es[..|es| - 1], es[|es| - 1];
      var before, ins := RunWatch(l, id, f, front), InputsOf(l, id, f, front);
      DaemonIsFaithful(l, id, f, front);
      DaemonSimulatesLoop(l, id, f, front);
      EventSimulates(l, id, before, e, l.After(Undiscovered(f), ins));
      AfterAll(l, Undiscovered(f), ins, InputOf(l, id, before, e));
      if |InputOf(l, id, before, e)| == 1 {
        FaithfulInput(l, id, before, e, l.After(Undiscovered(f), ins));
      }
    }
  }

  /** The engine record of a tracked VM is the one its history determines. */
  lemma DaemonFollowsHistory(l: Loop, id: string, f: Watch, es: seq<WatchEvent>)
    requires Started(f.world)
    ensures var h := HistoryOf(l, Undiscovered(f), InputsOf(l, id, f, es));
            var w := RunWatch(l, id, f, es).world;
            && H.Consistent(l.tc, h)
            && (w.running && id in w.vms ==> w.vms[id].engine == H.StateAfter(l.tc, h))
  {
    hide RunWatch, InputsOf, HistoryOf, Loop.After;
    DaemonSimulatesLoop(l, id, f, es);
    LoopFollowsHistory(l, Undiscovered(f), InputsOf(l, id, f, es));
  }

  /** The clock readings of ticks never go back. */
  ghost predicate ClockedEvents(id: string, es: seq<WatchEvent>) {
    && (forall k :: 0 <= k < |es| && es[k].event.Tick? ==>
          es[k].event.inp.env(id).guardAt <= es[k].event.inp.env(id).markAt <= es[k].event.inp.env(id).appliedAt)
    && (forall j, k :: 0 <= j < k < |es| && es[j].event.Tick? && es[k].event.Tick? ==>
          es[j].event.inp.env(id).appliedAt <= es[k].event.inp.env(id).guardAt)
  }

  /** A tick among the inputs has the clock readings of a tick among the events. */
  lemma {:induction false} InputIsEvent(l: Loop, id: string, f: Watch, es: seq<WatchEvent>, k: nat) returns (m: nat)
    requires k < |InputsOf(l, id, f, es)| && InputsOf(l, id, f, es)[k].Ticked?
    ensures m < |es| && es[m].event.Tick? && InputsOf(l, id, f, es)[k].attempt == es[m].event.inp.env(id)
  {
    hide TickWorld, SyncWorld, RunWatch;
    var front := es[..|es| - 1];
    if k < |InputsOf(l, id, f, front)| {
      m := InputIsEvent(l, id, f, front, k);
    } else {
      m := |es| - 1;
    }
  }

  /** Under a clock that never goes back the inputs are clocked, so the cooldown theorems hold of the daemon. */
  lemma {:induction false} DaemonIsClocked(l: Loop, id: string, f: Watch, es: seq<WatchEvent>)
    requires ClockedEvents(id, es)
    ensures C.Clocked(InputsOf(l, id, f, es))
  {
    hide InputOf, RunWatch;
    if |es| != 0 {
      var front, e := es[..|es| - 1], es[|es| - 1];
      var ins, all := InputsOf(l, id, f, front), InputsOf(l, id, f, es);
      DaemonIsClocked(l, id, f, front);
      LastInput(l, id, f, es);
      forall j | 0 <= j < |ins| && ins[j].Ticked?
        ensures |ins| < |all| && all[|ins|].Ticked? ==> ins[j].attempt.appliedAt <= all[|ins|].attempt.guardAt
      {
        var m := InputIsEvent(l, id, f, front, j);
        assert es[m] == front[m];
      }
    }
  }

  lemma LastInput(l: Loop, id: string, f: Watch, es: seq<WatchEvent>)
    requires 0 < |es|
    ensures var before, all := InputsOf(l, id, f, es[..|es| - 1]), InputsOf(l, id, f, es);
            && |before| <= |all| <= |before| + 1 && all[..|before|] == before
            && (|before| < |all| && all[|before|].Ticked? ==>
                  es[|es| - 1].event.Tick? && all[|before|].attempt == es[|es| - 1].event.inp.env(id))
  {
    hide TickWorld, SyncWorld, RunWatch;
  }
}
