/**
 What a failed refresh costs: the VM is dropped, and once rediscovered it has
 neither the hold of a reverted scale-up nor a validation in progress.
 */
module Rediscovery {
  import opened Common
  import opened ControlLoop
  import opened ClosedLoop
  import T = Threshold

  /** A failed scale-up holds the next one for six evaluations. */
  const PATIENT: Loop :=
    Loop(ControlLoop.Config(1, 8, 0.0, 0, 0, false),
         T.Config(0.5, 0.05, 0.05, 0, true, T.Polls(2, 0, 0, 5, 1, 0, 0)), 8)

  const FOUND: Site := Site(Vm(NewStatus(0, Some(true)), T.FRESH), 1)
  const AGAIN: SiteInput := Rediscovered(0, Some(true))

  /** A poll at `secs` seconds: a pool of `n` at `util`, after `ios` operations; resizes are accepted. */
  function Poll(n: u32, util: real, ios: nat, secs: nat): SiteInput {
    var at := secs * 1_000_000_000;
    Ticked(Snapshot(n, 8, Some(PerfCounts(ios, 0, 0)), Backend(util), false, true), at, 0.0, true,
           Attempt(at, at, at, true), n)
  }

  const QUIET: SiteInput := Poll(1, 0.5, 0, 1)
  const BUSY: SiteInput := Poll(1, 1.0, 100, 2)
  const STALLED: SiteInput := Poll(2, 1.0, 100, 3)
  const BUSY_AGAIN: SiteInput := Poll(1, 1.0, 100, 4)

  function StatusOf(n: u32, until: Option<nat>, ios: nat, util: real): Status {
    Status(0, n, 8, Some(true), until, false, ios, util, false)
  }

  const OPENED: Option<T.IoSample> := Some(T.IoSample(0, 1_000_000_000))

  const WATCHED: Vm := Vm(StatusOf(1, None, 0, 0.5), T.VmState(0, None, OPENED, 0, None, 0, 0))

  const GROWN: Vm :=
    Vm(StatusOf(2, Some(2_000_000_000), 100, 1.0),
       T.VmState(0, Some(T.PendingValidation(T.Up(2), 1, 100, T.IoSample(100, 2_000_000_000), 0)), OPENED, 100, None, 0, 0))

  const HELD: Vm :=
    Vm(StatusOf(1, Some(3_000_000_000), 100, 1.0), T.VmState(0, None, None, 0, Some(T.Grace(5)), 1, 0))

  lemma QuietPoll()
    ensures PATIENT.Step(FOUND, QUIET) == Site(WATCHED, 1)
  {
  }

  lemma BusyPoll()
    ensures PATIENT.Step(Site(WATCHED, 1), BUSY) == Site(GROWN, 2)
  {
    assert T.IopsRate(T.IoSample(0, 1_000_000_000), T.IoSample(100, 2_000_000_000)) == 100;
  }

  lemma StalledPoll()
    ensures PATIENT.Outcome(Site(GROWN, 2), STALLED) == VmOutcome(HELD, T.Revert(1), Success)
  {
    assert T.IopsRate(T.IoSample(100, 2_000_000_000), T.IoSample(100, 3_000_000_000)) == 0;
  }

  lemma HeldPoll()
    ensures PATIENT.Outcome(Site(HELD, 1), BUSY_AGAIN).action == T.NoAction
  {
  }

  lemma NewPoll(n: u32, secs: nat)
    requires 1 <= n < 8
    ensures var o := PATIENT.Outcome(Site(FOUND.vm, n), Poll(n, 1.0, 100, secs));
            o.action == T.Up(n + 1) && o.disposition == Success
  {
  }

  /** The first three polls: the pool grows, gains nothing, and is reverted; scale-up is held. */
  lemma Reverted() returns (ins: seq<SiteInput>)
    ensures ins == [QUIET, BUSY, STALLED]
    ensures PATIENT.FaithfulRun(FOUND, ins) && PATIENT.After(FOUND, ins) == Site(HELD, 1)
    ensures PATIENT.FaithfulRun(FOUND, ins[..2]) && PATIENT.After(FOUND, ins[..2]) == Site(GROWN, 2)
  {
    hide VmTick, Loop.After, Loop.FaithfulRun;
    ins := [QUIET, BUSY, STALLED];
    assert ins[..0] == [] && ins[..1] == [] + [QUIET] && ins[..2] == ins[..1] + [BUSY] && ins == ins[..2] + [STALLED];
    NothingYet(PATIENT, FOUND);
    OneInput(PATIENT, FOUND, [], QUIET);
    QuietPoll();
    OneInput(PATIENT, FOUND, ins[..1], BUSY);
    BusyPoll();
    OneInput(PATIENT, FOUND, ins[..2], STALLED);
    StalledPoll();
  }

  /**
   A scale-up that was reverted a second ago is applied again in a VM that was
   rediscovered between, and would have been held in one that was not.
   */
  lemma RediscoveryForgetsHold() returns (ins: seq<SiteInput>)
    ensures PATIENT.FaithfulRun(FOUND, ins + [AGAIN, BUSY_AGAIN])
    ensures PATIENT.After(FOUND, ins).vm.engine.hold == Some(T.Grace(5))
    ensures PATIENT.After(FOUND, ins).vm.engine.failedUps == 1
    ensures PATIENT.Outcome(PATIENT.After(FOUND, ins), BUSY_AGAIN).action == T.NoAction
    ensures PATIENT.After(FOUND, ins + [AGAIN]).vm.engine == T.FRESH
    ensures var o := PATIENT.Outcome(PATIENT.After(FOUND, ins + [AGAIN]), BUSY_AGAIN);
            o.action == T.Up(2) && o.disposition == Success
  {
    hide VmTick, Loop.After, Loop.FaithfulRun;
    ins := Reverted();
    HeldPoll();
    OneInput(PATIENT, FOUND, ins, AGAIN);
    NewPoll(1, 4);
    OneInput(PATIENT, FOUND, ins + [AGAIN], BUSY_AGAIN);
    assert ins + [AGAIN, BUSY_AGAIN] == (ins + [AGAIN]) + [BUSY_AGAIN];
  }

  /**
   A scale-up that gained nothing is not reverted but followed by another in a
   VM that was rediscovered before the verdict.
   */
  lemma RediscoveryForgetsValidation() returns (ins: seq<SiteInput>)
    ensures PATIENT.FaithfulRun(FOUND, ins + [AGAIN, STALLED])
    ensures PATIENT.After(FOUND, ins).vm.engine.pending.Some?
    ensures PATIENT.Outcome(PATIENT.After(FOUND, ins), STALLED).action == T.Revert(1)
    ensures PATIENT.After(FOUND, ins + [AGAIN]).vm.engine == T.FRESH
    ensures var o := PATIENT.Outcome(PATIENT.After(FOUND, ins + [AGAIN]), STALLED);
            o.action == T.Up(3) && o.disposition == Success
  {
    hide VmTick, Loop.After, Loop.FaithfulRun;
    var all := Reverted();
    ins := all[..2];
    StalledPoll();
    OneInput(PATIENT, FOUND, ins, AGAIN);
    NewPoll(2, 3);
    OneInput(PATIENT, FOUND, ins + [AGAIN], STALLED);
    assert ins + [AGAIN, STALLED] == (ins + [AGAIN]) + [STALLED];
  }
}
