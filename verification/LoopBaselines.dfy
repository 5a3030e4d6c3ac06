/**
 The baselines of `BaselineHistory` against the real pool: which resizes the
 measured window can contain, and exactly when it saw one pool size only.
 */
module LoopBaselines {
  import opened Common
  import opened ControlLoop
  import opened ClosedLoop
  import T = Threshold
  import H = EngineHistory
  import B = BaselineHistory

  // ---------------------------------------------------------------- samples and the ticks they come from

  /** The I/O counter that tick `j` reads. */
  function CountAt(ins: seq<SiteInput>, j: nat): nat
    requires j < |ins| && ins[j].Ticked?
  {
    OpsSeen(ins[j].snap.perf)
  }

  /** `s` was sampled in tick `j`: by its evaluation, or when its decision was applied. */
  ghost predicate TickSampled(l: Loop, start: Site, ins: seq<SiteInput>, j: nat, s: T.IoSample)
    requires j < |ins|
  {
    && ins[j].Ticked?
    && !OutcomeAt(l, start, ins, j).disposition.NotEvaluated?
    && (|| s == T.IoSample(CountAt(ins, j), ins[j].now)
        || (&& OutcomeAt(l, start, ins, j).disposition.Adjusted()
            && s == T.IoSample(CountAt(ins, j), ins[j].attempt.appliedAt)))
  }

  /** No tick after `j` applied anything, and the VM stayed tracked. */
  ghost predicate NothingAppliedAfter(l: Loop, start: Site, ins: seq<SiteInput>, j: nat) {
    forall m :: j < m < |ins| ==> ins[m].Ticked? && !OutcomeAt(l, start, ins, m).disposition.Adjusted()
  }

  lemma PrefixAgrees(l: Loop, start: Site, ins: seq<SiteInput>, j: nat)
    requires 0 < |ins| && j < |ins| - 1
    ensures var front := ins[..|ins| - 1];
            && front[j] == ins[j]
            && (ins[j].Ticked? ==>
                  && OutcomeAt(l, start, front, j) == OutcomeAt(l, start, ins, j)
                  && CountAt(front, j) == CountAt(ins, j))
  {
    hide VmTick;
    assert ins[..|ins| - 1][..j] == ins[..j];
  }

  /** A sample anchored in the VM's history was taken in a tick after which nothing was applied. */
  lemma {:induction false} AnchoredTick(l: Loop, start: Site, ins: seq<SiteInput>, s: T.IoSample) returns (j: nat)
    requires B.Anchored(HistoryOf(l, start, ins), s)
    ensures j < |ins| && TickSampled(l, start, ins, j, s) && NothingAppliedAfter(l, start, ins, j)
  {
    hide VmTick, Refresh;
    var h := HistoryOf(l, start, ins);
    var k :| 0 <= k < |h| && B.SampledIn(h[k], s) && B.QuietAfter(h, k);
    var n := |ins| - 1;
    var front := ins[..n];
    var before := HistoryOf(l, start, front);
    assert ins[..n] == front;
    assert |before| < |h| ==> h[|before|] == h[|h| - 1] && |h| == |before| + 1;
    if k == |before| {
      j := n;
    } else {
      assert B.SampledIn(before[k], s);
      assert B.QuietAfter(before, k) by {
        assert forall m :: k < m < |before| ==> before[m] == h[m];
      }
      j := AnchoredTick(l, start, front, s);
      PrefixAgrees(l, start, ins, j);
      forall m | j < m < |ins|
        ensures ins[m].Ticked? && !OutcomeAt(l, start, ins, m).disposition.Adjusted()
      {
        if m < n {
          PrefixAgrees(l, start, ins, m);
        } else {
          QuietEntry(l, start, ins, k);
        }
      }
    }
  }

  /** When the history stays quiet, so does the last tick. */
  lemma QuietEntry(l: Loop, start: Site, ins: seq<SiteInput>, k: nat)
    requires 0 < |ins| && k < |HistoryOf(l, start, ins[..|ins| - 1])|
    requires B.QuietAfter(HistoryOf(l, start, ins), k)
    ensures ins[|ins| - 1].Ticked? && !OutcomeAt(l, start, ins, |ins| - 1).disposition.Adjusted()
  {
    hide VmTick, Refresh;
    var h, before := HistoryOf(l, start, ins), HistoryOf(l, start, ins[..|ins| - 1]);
    if |before| < |h| {
      assert h[|before|].Evaluated? && !h[|before|].Applied();
    }
  }

  // ---------------------------------------------------------------- the pools a window sees

  function PoolAt(l: Loop, start: Site, ins: seq<SiteInput>, m: nat): u32
    requires m <= |ins|
  {
    l.After(start, ins[..m]).pool
  }

  /** The ticks from `a` to the last see the same pool. */
  ghost predicate SeesOnePool(l: Loop, start: Site, ins: seq<SiteInput>, a: nat) {
    forall m :: a <= m < |ins| ==> a < |ins| && PoolAt(l, start, ins, m) == PoolAt(l, start, ins, a)
  }

  /** Tick `m` resized nothing: it applied no new count, and a resize that failed left the count as it was. */
  ghost predicate LeavesPool(l: Loop, start: Site, ins: seq<SiteInput>, m: nat)
    requires m < |ins|
  {
    ins[m].Ticked? ==>
      var d := OutcomeAt(l, start, ins, m).disposition;
      !d.Success? && (d.Failed? ==> ins[m].poolIfFailed == PoolAt(l, start, ins, m))
  }

  /** Every resize that failed from tick `a` to the last left the count as it was. */
  ghost predicate FailuresLeavePool(l: Loop, start: Site, ins: seq<SiteInput>, a: nat) {
    forall m :: a <= m < |ins| - 1 && ins[m].Ticked? && OutcomeAt(l, start, ins, m).disposition.Failed? ==>
      ins[m].poolIfFailed == PoolAt(l, start, ins, m)
  }

  /** An applied decision asks for another count than the one it saw. */
  lemma SuccessResizes(l: Loop, s: Site, i: SiteInput)
    requires i.Ticked? && i.snap.threadCount == s.pool && l.Outcome(s, i).disposition.Success?
    ensures !l.Outcome(s, i).action.NoAction? && l.Outcome(s, i).action.count != s.pool
  {
    hide T.Evaluate, T.OnApplied, Guard;
  }

  lemma {:induction false} FaithfulAt(l: Loop, start: Site, ins: seq<SiteInput>, m: nat)
    requires l.FaithfulRun(start, ins) && m < |ins|
    ensures l.Faithful(l.After(start, ins[..m]), ins[m])
  {
    hide VmTick;
    if m < |ins| - 1 {
      FaithfulAt(l, start, ins[..|ins| - 1], m);
      assert ins[..|ins| - 1][..m] == ins[..m];
    }
  }

  lemma NextPool(l: Loop, start: Site, ins: seq<SiteInput>, m: nat)
    requires l.FaithfulRun(start, ins) && m < |ins| - 1
    ensures PoolAt(l, start, ins, m + 1) == PoolAt(l, start, ins, m) <==> LeavesPool(l, start, ins, m)
  {
    hide VmTick;
    assert ins[..m + 1][..m] == ins[..m];
    FaithfulAt(l, start, ins, m);
    var s := l.After(start, ins[..m]);
    if ins[m].Ticked? && l.Outcome(s, ins[m]).disposition.Success? {
      SuccessResizes(l, s, ins[m]);
    }
  }

  /** A stretch of ticks sees one pool size if and only if none of them but the last resized it. */
  lemma OnePoolExactly(l: Loop, start: Site, ins: seq<SiteInput>, a: nat)
    requires l.FaithfulRun(start, ins) && a < |ins|
    ensures SeesOnePool(l, start, ins, a) <==> forall m :: a <= m < |ins| - 1 ==> LeavesPool(l, start, ins, m)
  {
    hide LeavesPool, PoolAt;
    forall m | a <= m < |ins| - 1
      ensures PoolAt(l, start, ins, m + 1) == PoolAt(l, start, ins, m) <==> LeavesPool(l, start, ins, m)
    {
      NextPool(l, start, ins, m);
    }
    if SeesOnePool(l, start, ins, a) {
      forall m | a <= m < |ins| - 1
        ensures LeavesPool(l, start, ins, m)
      {
        assert PoolAt(l, start, ins, m + 1) == PoolAt(l, start, ins, a);
      }
    }
    if forall m :: a <= m < |ins| - 1 ==> LeavesPool(l, start, ins, m) {
      forall m | a <= m < |ins|
        ensures PoolAt(l, start, ins, m) == PoolAt(l, start, ins, a)
      {
        SamePoolUpTo(l, start, ins, a, m);
      }
    }
  }

  lemma {:induction false} SamePoolUpTo(l: Loop, start: Site, ins: seq<SiteInput>, a: nat, m: nat)
    requires l.FaithfulRun(start, ins) && a <= m < |ins|
    requires forall k :: a <= k < |ins| - 1 ==> LeavesPool(l, start, ins, k)
    ensures PoolAt(l, start, ins, m) == PoolAt(l, start, ins, a)
    decreases m
  {
    hide LeavesPool, PoolAt;
    if a < m {
      SamePoolUpTo(l, start, ins, a, m - 1);
      NextPool(l, start, ins, m - 1);
    }
  }

  // ---------------------------------------------------------------- the baseline of an applied action

  /** `n` is the last tick; what it applied is validated. */
  ghost predicate AppliesValidated(l: Loop, start: Site, ins: seq<SiteInput>) {
    && 0 < |ins| && ins[|ins| - 1].Ticked?
    && var o := OutcomeAt(l, start, ins, |ins| - 1);
       o.disposition.Adjusted() && H.Checked(l.tc, o.action)
  }

  /** The baseline is the rate from a sample of tick `j` to the last tick, and nothing was applied between. */
  ghost predicate MeasuredFrom(l: Loop, start: Site, ins: seq<SiteInput>, baseline: nat, j: nat, s: T.IoSample)
    requires AppliesValidated(l, start, ins)
  {
    var n := |ins| - 1;
    && j < n && TickSampled(l, start, ins, j, s)
    && NothingAppliedAfter(l, start, ins[..n], j)
    && baseline == T.IopsRate(s, T.IoSample(CountAt(ins, n), ins[n].now))
  }

  /** Nothing had been measured when the last tick came: the VM was new, or in the grace after a reverted scale-up. */
  predicate UnmeasuredBefore(l: Loop, start: Site, ins: seq<SiteInput>)
    requires 0 < |ins|
  {
    B.Unmeasured(l.tc, HistoryOf(l, start, ins[..|ins| - 1]))
  }

  /**
   A baseline is 0 if nothing had been measured. In every other case it is the
   rate of a window that opens with a sample of some tick `j`, after which
   nothing was applied. After tick `j` the window sees one pool size if and only
   if every resize that failed since left the count as it was; from tick `j` on,
   if and only if that tick resized nothing either.
   */
  lemma BaselineSeesOnePoolExactly(l: Loop, start: Site, ins: seq<SiteInput>) returns (j: nat, s: T.IoSample)
    requires start.vm.engine == T.FRESH && l.FaithfulRun(start, ins) && AppliesValidated(l, start, ins)
    ensures l.After(start, ins).vm.engine.pending.Some?
    ensures UnmeasuredBefore(l, start, ins) ==> l.After(start, ins).vm.engine.pending.value.baselineIops == 0
    ensures !UnmeasuredBefore(l, start, ins) ==>
              && MeasuredFrom(l, start, ins, l.After(start, ins).vm.engine.pending.value.baselineIops, j, s)
              && (SeesOnePool(l, start, ins, j + 1) <==> FailuresLeavePool(l, start, ins, j + 1))
              && (SeesOnePool(l, start, ins, j) <==>
                    LeavesPool(l, start, ins, j) && FailuresLeavePool(l, start, ins, j + 1))
  {
    hide VmTick, Refresh, T.IopsRate, H.Consistent, H.StateAfter, B.Anchored, T.Evaluate, PoolAt;
    hide B.Unmeasured, B.WindowOpen, SeesOnePool, FailuresLeavePool, LeavesPool;
    var n := |ins| - 1;
    var front, h := ins[..n], HistoryOf(l, start, ins);
    LoopFollowsHistory(l, start, ins);
    LastEntry(l, start, ins);
    B.IsolatedBaseline(l.tc, h);
    j, s := 0, T.IoSample(0, 0);
    if !UnmeasuredBefore(l, start, ins) {
      s := B.WindowOpen(l.tc, H.Front(h)).value;
      j := AnchoredTick(l, start, front, s);
      PrefixAgrees(l, start, ins, j);
      QuietWindow(l, start, ins, j);
    }
  }

  /** The last tick is the last entry of the history. */
  lemma LastEntry(l: Loop, start: Site, ins: seq<SiteInput>)
    requires AppliesValidated(l, start, ins)
    ensures var n, h := |ins| - 1, HistoryOf(l, start, ins);
            && 0 < |h| && H.Last(h).AppliedScale() && H.Checked(l.tc, H.Last(h).action)
            && H.Front(h) == HistoryOf(l, start, ins[..n])
            && H.Last(h).obs.Sample() == T.IoSample(CountAt(ins, n), ins[n].now)
  {
    hide VmTick, Refresh;
    assert H.Front(HistoryOf(l, start, ins)) == HistoryOf(l, start, ins[..|ins| - 1]);
  }

  /** In a window without applied actions only failed resizes can change the pool. */
  lemma QuietWindow(l: Loop, start: Site, ins: seq<SiteInput>, j: nat)
    requires l.FaithfulRun(start, ins) && j < |ins| - 1
    requires NothingAppliedAfter(l, start, ins[..|ins| - 1], j)
    ensures SeesOnePool(l, start, ins, j + 1) <==> FailuresLeavePool(l, start, ins, j + 1)
    ensures SeesOnePool(l, start, ins, j) <==>
              LeavesPool(l, start, ins, j) && FailuresLeavePool(l, start, ins, j + 1)
  {
    hide VmTick, PoolAt, SeesOnePool;
    OnePoolExactly(l, start, ins, j + 1);
    OnePoolExactly(l, start, ins, j);
    forall m | j < m < |ins| - 1
      ensures LeavesPool(l, start, ins, m) <==>
                (ins[m].Ticked? && OutcomeAt(l, start, ins, m).disposition.Failed? ==>
                   ins[m].poolIfFailed == PoolAt(l, start, ins, m))
    {
      PrefixAgrees(l, start, ins, m);
    }
    if FailuresLeavePool(l, start, ins, j + 1) {
      assert forall m :: j < m < |ins| - 1 ==> LeavesPool(l, start, ins, m);
    }
  }

  // ---------------------------------------------------------------- a window across a failed shrink

  const SHARP: T.ValidConfig := T.Config(0.5, 0.05, 0.05, 0, true, T.Polls(2, 0, 0, 0, 0, 0, 0))

  const NARROW: Loop := Loop(ControlLoop.Config(1, 8, 0.0, 0, 0, false), SHARP, 8)

  /** A poll at `secs` seconds: a pool of `n` at `util`, after `ios` operations. */
  function Poll(n: u32, util: real, ios: nat, secs: nat, accepted: bool, poolIfFailed: u32): SiteInput {
    var at := secs * 1_000_000_000;
    Ticked(Snapshot(n, 8, Some(PerfCounts(ios, 0, 0)), Backend(util), false, true), at, 0.0, true,
           Attempt(at, at, at, accepted), poolIfFailed)
  }

  const FOUND: Site := Site(Vm(NewStatus(0, None), T.FRESH), 4)
  const IDLE: SiteInput := Poll(4, 0.1, 0, 1, true, 4)
  const SHRINK: SiteInput := Poll(4, 0.1, 0, 2, false, 3)
  const GROW: SiteInput := Poll(3, 0.9, 300, 3, true, 3)

  /** What the engine keeps after two idle polls: evidence, and a window that opened at the first. */
  function Watching(polls: nat): T.VmState {
    T.VmState(polls, None, Some(T.IoSample(0, 1_000_000_000)), 0, None, 0, 0)
  }

  function SeenStatus(n: u32, util: real, ios: nat): Status {
    Status(0, n, 8, Some(true), None, false, ios, util, false)
  }

  lemma IdlePoll()
    ensures NARROW.Outcome(FOUND, IDLE)
         == VmOutcome(Vm(SeenStatus(4, 0.1, 0), Watching(1)), T.NoAction, NotPlanned)
  {
  }

  lemma ShrinkPoll()
    ensures NARROW.Outcome(Site(Vm(SeenStatus(4, 0.1, 0), Watching(1)), 4), SHRINK)
         == VmOutcome(Vm(SeenStatus(4, 0.1, 0), Watching(2)), T.Down(1), Failed)
  {
  }

  lemma GrowPoll()
    ensures T.IopsRate(T.IoSample(0, 1_000_000_000), T.IoSample(300, 3_000_000_000)) == 150
    ensures var o := NARROW.Outcome(Site(Vm(SeenStatus(4, 0.1, 0), Watching(2)), 3), GROW);
            && o.action == T.Up(4) && o.disposition == Success
            && o.vm.engine.pending.Some? && o.vm.engine.pending.value.baselineIops == 150
  {
  }

  /**
   A run in which isolation fails: a shrink from 4 to 1 fails with 3 workers
   left, and the next applied action is validated against 150 operations per
   second, measured from a sample of 4 workers to a sample of 3.
   */
  lemma FailedShrinkInsideWindow() returns (ins: seq<SiteInput>)
    ensures JustDiscovered(NARROW, FOUND) && NARROW.FaithfulRun(FOUND, ins) && AppliesValidated(NARROW, FOUND, ins)
    ensures NARROW.After(FOUND, ins).vm.engine.pending.Some?
    ensures MeasuredFrom(NARROW, FOUND, ins, NARROW.After(FOUND, ins).vm.engine.pending.value.baselineIops,
                         0, T.IoSample(0, 1_000_000_000))
    ensures NARROW.After(FOUND, ins).vm.engine.pending.value.baselineIops == 150
    ensures |ins| == 3 && PoolAt(NARROW, FOUND, ins, 0) == 4 && PoolAt(NARROW, FOUND, ins, 2) == 3
    ensures !SeesOnePool(NARROW, FOUND, ins, 0) && !FailuresLeavePool(NARROW, FOUND, ins, 1)
  {
    hide VmTick, T.IopsRate, Loop.After, Loop.FaithfulRun;
    ins := [IDLE, SHRINK, GROW];
    assert ins[..0] == [] && ins[..1] == [] + [IDLE] && ins[..2] == [IDLE] + [SHRINK] && ins == ins[..2] + [GROW];
    NothingYet(NARROW, FOUND);
    OneInput(NARROW, FOUND, [], IDLE);
    IdlePoll();
    OneInput(NARROW, FOUND, ins[..1], SHRINK);
    ShrinkPoll();
    OneInput(NARROW, FOUND, ins[..2], GROW);
    GrowPoll();
    assert PoolAt(NARROW, FOUND, ins, 1) == 4 && ins[1].poolIfFailed == 3;
    assert OutcomeAt(NARROW, FOUND, ins, 1).disposition.Failed?;
    assert ins[..2][..0] == [] && ins[..2][..1] == ins[..1];
  }

  // ---------------------------------------------------------------- a scale-up that nothing measured

  const FIRST: SiteInput := Poll(4, 0.9, 100_000, 1, true, 4)
  const STALLED: SiteInput := Poll(5, 0.9, 100_000, 2, true, 5)

  /** The VM once its first poll grew it: the action is pending, with a baseline of 0. */
  function Unproven(): Vm {
    Vm(SeenStatus(5, 0.9, 100_000).(cooldownUntil := Some(1_000_000_000)),
       T.VmState(0, Some(T.PendingValidation(T.Up(5), 4, 0, T.IoSample(100_000, 1_000_000_000), 0)),
                 Some(T.IoSample(100_000, 1_000_000_000)), 0, None, 0, 0))
  }

  lemma FirstPoll()
    ensures NARROW.Outcome(FOUND, FIRST) == VmOutcome(Unproven(), T.Up(5), Success)
  {
    B.NoTimeNoRate(T.IoSample(100_000, 1_000_000_000));
  }

  lemma StalledPoll()
    ensures var o := NARROW.Outcome(Site(Unproven(), 5), STALLED);
            o.action == T.NoAction && o.vm.engine.pending.None? && o.vm.engine.failedUps == 0
  {
  }

  /**
   A run against the promised gain: the first poll of a busy VM adds a worker,
   not one operation completes until its validation, and the worker is kept.
   */
  lemma UnmeasuredGrowthIsKept() returns (ins: seq<SiteInput>)
    ensures JustDiscovered(NARROW, FOUND) && NARROW.FaithfulRun(FOUND, ins) && |ins| == 2
    ensures AppliesValidated(NARROW, FOUND, ins[..1]) && UnmeasuredBefore(NARROW, FOUND, ins[..1])
    ensures OutcomeAt(NARROW, FOUND, ins, 0).action == T.Up(5)
    ensures ins[1].Ticked? && CountAt(ins, 1) == CountAt(ins, 0)
    ensures OutcomeAt(NARROW, FOUND, ins, 1).action == T.NoAction
    ensures var after := NARROW.After(FOUND, ins);
            after.pool == 5 && after.vm.engine.pending.None? && after.vm.engine.failedUps == 0
  {
    hide VmTick, Loop.After, Loop.FaithfulRun;
    ins := [FIRST, STALLED];
    assert ins[..0] == [] && ins[..1] == [] + [FIRST] && ins == ins[..1] + [STALLED];
    assert ins[..1][..0] == [];
    NothingYet(NARROW, FOUND);
    OneInput(NARROW, FOUND, [], FIRST);
    FirstPoll();
    OneInput(NARROW, FOUND, ins[..1], STALLED);
    StalledPoll();
  }
}
