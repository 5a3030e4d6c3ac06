/** The cooldown over whole runs of one VM: what it covers, and what a rediscovery makes of it. */
module Cooldowns {
  import opened Common
  import opened ControlLoop
  import opened ClosedLoop
  import T = Threshold

  /** When the cooldown of an adjusting tick starts. */
  function MarkOf(l: Loop, i: SiteInput): nat
    requires i.Ticked?
  {
    if l.cfg.dryRun then i.attempt.markAt else i.attempt.appliedAt
  }

  /** Clock readings never go back, within a tick and from tick to tick. */
  ghost predicate Clocked(ins: seq<SiteInput>) {
    && (forall k :: 0 <= k < |ins| && ins[k].Ticked? ==>
          ins[k].attempt.guardAt <= ins[k].attempt.markAt <= ins[k].attempt.appliedAt)
    && (forall j, k :: 0 <= j < k < |ins| && ins[j].Ticked? && ins[k].Ticked? ==>
          ins[j].attempt.appliedAt <= ins[k].attempt.guardAt)
  }

  /** Tick `k` applied a decision, or pretended to. */
  predicate AdjustsAt(l: Loop, start: Site, ins: seq<SiteInput>, k: nat) {
    k < |ins| && ins[k].Ticked? && OutcomeAt(l, start, ins, k).disposition.Adjusted()
  }

  /** The VM was not rediscovered after tick `j`. */
  predicate TrackedSince(ins: seq<SiteInput>, j: nat) {
    forall m :: j < m < |ins| ==> ins[m].Ticked?
  }

  /** One tick: an adjustment starts the cooldown, anything else leaves it; `Up` and `Down` wait for it. */
  lemma CooldownStep(l: Loop, s: Site, i: SiteInput)
    requires i.Ticked?
    ensures var o := l.Outcome(s, i);
            && o.vm.status.cooldownUntil
               == (if o.disposition.Adjusted() then Some(MarkOf(l, i) + l.cfg.cooldown)
                   else s.vm.status.cooldownUntil)
            && (o.disposition.Adjusted() && (o.action.Up? || o.action.Down?)
                && s.vm.status.cooldownUntil.Some? ==>
                  s.vm.status.cooldownUntil.value <= i.attempt.guardAt)
            && (o.disposition == Blocked(Cooldown) ==> o.action.Up? || o.action.Down?)
  {
    hide T.Evaluate, T.OnApplied;
  }

  /** The cooldown in force covers every adjustment since the VM was discovered, not just the last. */
  lemma {:induction false} CooldownCovers(l: Loop, start: Site, ins: seq<SiteInput>, j: nat)
    requires Clocked(ins) && AdjustsAt(l, start, ins, j) && TrackedSince(ins, j)
    ensures var until := l.After(start, ins).vm.status.cooldownUntil;
            until.Some? && MarkOf(l, ins[j]) + l.cfg.cooldown <= until.value
  {
    hide VmTick;
    var front := ins[..|ins| - 1];
    assert ins[..|ins|] == ins;
    CooldownStep(l, l.After(start, front), ins[|ins| - 1]);
    if j < |front| {
      assert front[..j] == ins[..j];
      CooldownCovers(l, start, front, j);
    }
  }

  /** A cooldown in force comes from the last adjustment, and the VM was not rediscovered since. */
  lemma {:induction false} CooldownSource(l: Loop, start: Site, ins: seq<SiteInput>) returns (i: nat)
    requires start.vm.status.cooldownUntil.None? && l.After(start, ins).vm.status.cooldownUntil.Some?
    ensures AdjustsAt(l, start, ins, i) && TrackedSince(ins, i)
    ensures l.After(start, ins).vm.status.cooldownUntil == Some(MarkOf(l, ins[i]) + l.cfg.cooldown)
    ensures forall j :: i < j ==> !AdjustsAt(l, start, ins, j)
  {
    hide VmTick;
    var n := |ins| - 1;
    var front := ins[..n];
    if ins[n].Ticked? {
      CooldownStep(l, l.After(start, front), ins[n]);
    }
    if AdjustsAt(l, start, ins, n) {
      i := n;
    } else {
      i := CooldownSource(l, start, front);
      assert front[..i] == ins[..i];
      forall j | i < j
        ensures !AdjustsAt(l, start, ins, j)
      {
        if j < n {
          assert front[..j] == ins[..j];
          assert !AdjustsAt(l, start, front, j);
        }
      }
    }
  }

  /** The cooldown of an adjustment is in force if and only if some adjustment since was not followed by a rediscovery. */
  lemma CooldownCoversExactly(l: Loop, start: Site, ins: seq<SiteInput>, j: nat)
    requires start.vm.status.cooldownUntil.None? && Clocked(ins) && AdjustsAt(l, start, ins, j)
    ensures (exists i :: j <= i && AdjustsAt(l, start, ins, i) && TrackedSince(ins, i))
       <==> var until := l.After(start, ins).vm.status.cooldownUntil;
            until.Some? && MarkOf(l, ins[j]) + l.cfg.cooldown <= until.value
  {
    hide VmTick, Loop.After;
    if l.After(start, ins).vm.status.cooldownUntil.Some? {
      var i := CooldownSource(l, start, ins);
      assert j <= i;
    }
    if i :| j <= i && AdjustsAt(l, start, ins, i) && TrackedSince(ins, i) {
      CooldownCovers(l, start, ins, i);
    }
  }

  /**
   While the VM stays tracked, an applied `Up` or `Down` comes at least the
   cooldown after every earlier applied action; a `Revert` is never delayed.
   */
  lemma CooldownHolds(l: Loop, start: Site, ins: seq<SiteInput>, j: nat, k: nat)
    requires Clocked(ins) && j < k < |ins| && ins[k].Ticked?
    ensures var o := OutcomeAt(l, start, ins, k);
            && (AdjustsAt(l, start, ins, j) && TrackedSince(ins[..k], j)
                && o.disposition.Adjusted() && (o.action.Up? || o.action.Down?) ==>
                  MarkOf(l, ins[j]) + l.cfg.cooldown <= MarkOf(l, ins[k]))
            && (o.action.Revert? ==> o.disposition != Blocked(Cooldown))
  {
    hide VmTick;
    CooldownStep(l, l.After(start, ins[..k]), ins[k]);
    if AdjustsAt(l, start, ins, j) && TrackedSince(ins[..k], j) {
      assert ins[..k][..j] == ins[..j];
      CooldownCovers(l, start, ins[..k], j);
    }
  }

  // ---------------------------------------------------------------- a rediscovery forgets the cooldown

  const EAGER: Loop :=
    Loop(ControlLoop.Config(1, 8, 0.0, 30_000_000_000, 0, false),
         T.Config(0.5, 0.0, 0.0, 0, true, T.Polls(0, 0, 0, 0, 0, 0, 0)), 8)

  const FOUND: Site := Site(Vm(NewStatus(0, Some(true)), T.FRESH), 1)

  /** A poll at `secs` seconds that finds every worker of a pool of `n` busy. */
  function Busy(n: u32, secs: nat): SiteInput {
    var at := secs * 1_000_000_000;
    Ticked(Snapshot(n, 8, None, Backend(1.0), false, true), at, 0.0, true, Attempt(at, at, at, true), n)
  }

  lemma BusyPoll(n: u32, secs: nat)
    requires 1 <= n < 8
    ensures var s := Site(FOUND.vm, n);
            var o := EAGER.Outcome(s, Busy(n, secs));
            o.action == T.Up(n + 1) && o.disposition == Success && EAGER.Step(s, Busy(n, secs)).pool == n + 1
  {
  }

  /**
   A run against the promise: a scale-up, a failed refresh that ends in a
   rediscovery, and another scale-up one second after the first, with a
   cooldown of 30 seconds.
   */
  lemma RediscoveryForgetsCooldown() returns (ins: seq<SiteInput>)
    ensures Clocked(ins) && EAGER.FaithfulRun(FOUND, ins) && |ins| == 3 && ins[0].Ticked? && ins[2].Ticked?
    ensures AdjustsAt(EAGER, FOUND, ins, 0) && AdjustsAt(EAGER, FOUND, ins, 2)
    ensures OutcomeAt(EAGER, FOUND, ins, 0).action.Up? && OutcomeAt(EAGER, FOUND, ins, 2).action.Up?
    ensures MarkOf(EAGER, ins[2]) < MarkOf(EAGER, ins[0]) + EAGER.cfg.cooldown
    ensures !TrackedSince(ins, 0)
  {
    hide VmTick, Loop.After, Loop.FaithfulRun;
    ins := [Busy(1, 1), Rediscovered(0, Some(true)), Busy(2, 2)];
    assert ins[..0] == [] && ins[..1] == [] + [ins[0]] && ins[..2] == ins[..1] + [ins[1]];
    assert ins == ins[..2] + [ins[2]];
    NothingYet(EAGER, FOUND);
    OneInput(EAGER, FOUND, [], ins[0]);
    BusyPoll(1, 1);
    OneInput(EAGER, FOUND, ins[..1], ins[1]);
    OneInput(EAGER, FOUND, ins[..2], ins[2]);
    BusyPoll(2, 2);
  }
}
