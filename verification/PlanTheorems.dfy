/** What one tick's plan guarantees, whatever the engine decided and whatever the backend answers. */
module PlanTheorems {
  import opened ControlLoop
  import T = Threshold

  // ---------------------------------------------------------------- contents

  /** The decision at `k` is the first one for its VM. */
  predicate FirstFor(ds: seq<Decision>, k: nat)
    requires k < |ds|
  {
    !Mentioned(ds[..k], ds[k].id)
  }

  /** The decision asks a tracked VM for another size. */
  predicate Resizes(vms: map<string, Vm>, d: Decision) {
    d.id in vms && !d.action.NoAction? && d.action.count != vms[d.id].status.threadCount
  }

  function ItemFor(vms: map<string, Vm>, ds: seq<Decision>, k: nat): PlanItem
    requires k < |ds| && Resizes(vms, ds[k])
  {
    PlanItem(ds[k].action.count > vms[ds[k].id].status.threadCount, k, ds[k].id, ds[k].action)
  }

  /** The plan holds exactly the first decision of each VM that asks for another size, in order. */
  lemma {:induction false} PlanHoldsFirstDecisions(vms: map<string, Vm>, ds: seq<Decision>)
    ensures forall item :: item in PlanOf(vms, ds) <==>
              && item.sequence < |ds|
              && FirstFor(ds, item.sequence)
              && Resizes(vms, ds[item.sequence])
              && item == ItemFor(vms, ds, item.sequence)
    ensures Ordered(PlanOf(vms, ds))
  {
    if |ds| != 0 {
      var front := ds[..|ds| - 1];
      PlanHoldsFirstDecisions(vms, front);
      forall k | 0 <= k < |front|
        ensures ds[..k] == front[..k]
      {
      }
    }
  }

  ghost predicate Ordered(plan: seq<PlanItem>) {
    forall i, j :: 0 <= i < j < |plan| ==> plan[i].sequence < plan[j].sequence
  }

  /** No VM is planned twice. */
  ghost predicate OncePerVm(plan: seq<PlanItem>) {
    forall i, j :: 0 <= i < j < |plan| ==> plan[i].id != plan[j].id
  }

  lemma MentionedBefore(ds: seq<Decision>, i: nat, j: nat)
    requires i < j < |ds| && FirstFor(ds, j)
    ensures ds[i].id != ds[j].id
  {
    assert ds[..j][i] == ds[i];
  }

  lemma PlanOncePerVm(vms: map<string, Vm>, ds: seq<Decision>)
    ensures OncePerVm(PlanOf(vms, ds))
  {
    PlanHoldsFirstDecisions(vms, ds);
    var plan := PlanOf(vms, ds);
    forall i, j | 0 <= i < j < |plan|
      ensures plan[i].id != plan[j].id
    {
      assert plan[i] in plan && plan[j] in plan;
      MentionedBefore(ds, plan[i].sequence, plan[j].sequence);
    }
  }

  // ---------------------------------------------------------------- order

  /** The key order of the plan: shrinks first, then by decision order. */
  predicate Precedes(a: PlanItem, b: PlanItem) {
    if a.grows == b.grows then a.sequence < b.sequence else b.grows
  }

  ghost predicate KeySorted(plan: seq<PlanItem>) {
    forall i, j :: 0 <= i < j < |plan| ==> Precedes(plan[i], plan[j])
  }

  lemma {:induction false} FilterKeeps(plan: seq<PlanItem>, grows: bool)
    ensures forall item :: item in Filter(plan, grows) <==> item in plan && item.grows == grows
    ensures Ordered(plan) ==> Ordered(Filter(plan, grows))
  {
    if |plan| != 0 {
      var front := plan[..|plan| - 1];
      FilterKeeps(front, grows);
      assert plan == front + [plan[|plan| - 1]];
    }
  }

  lemma {:induction false} FilterSplits(plan: seq<PlanItem>)
    ensures multiset(Filter(plan, false)) + multiset(Filter(plan, true)) == multiset(plan)
  {
    hide Filter;
    if |plan| == 0 {
      NothingFiltered();
    }
    if |plan| != 0 {
      var front, last := plan[..|plan| - 1], plan[|plan| - 1];
      FilterSplits(front);
      FilterNext(plan);
      SplitNext(Filter(front, false), Filter(front, true), front, last);
      assert plan == front + [last];
    }
  }

  lemma NothingFiltered()
    ensures forall grows :: Filter([], grows) == []
  {
  }

  lemma FilterNext(plan: seq<PlanItem>)
    requires 0 < |plan|
    ensures var front, last := plan[..|plan| - 1], plan[|plan| - 1];
            && Filter(plan, last.grows) == Filter(front, last.grows) + [last]
            && Filter(plan, !last.grows) == Filter(front, !last.grows)
  {
  }

  /** Appending to one part of a split appends to the whole. */
  lemma SplitNext(a: seq<PlanItem>, b: seq<PlanItem>, whole: seq<PlanItem>, item: PlanItem)
    requires multiset(a) + multiset(b) == multiset(whole)
    ensures multiset(a + [item]) + multiset(b) == multiset(whole + [item])
    ensures multiset(a) + multiset(b + [item]) == multiset(whole + [item])
  {
  }

  /** The attempted order is the plan sorted by key, and a permutation of it. */
  lemma SortPlanSorts(plan: seq<PlanItem>)
    requires Ordered(plan)
    ensures KeySorted(SortPlan(plan))
    ensures multiset(SortPlan(plan)) == multiset(plan)
  {
    FilterKeeps(plan, false);
    FilterKeeps(plan, true);
    FilterSplits(plan);
    var shrinks, grows := Filter(plan, false), Filter(plan, true);
    forall i, j | 0 <= i < j < |shrinks + grows|
      ensures Precedes((shrinks + grows)[i], (shrinks + grows)[j])
    {
      assert i < |shrinks| ==> (shrinks + grows)[i] in shrinks;
      assert i >= |shrinks| ==> (shrinks + grows)[i] in grows;
      assert j < |shrinks| ==> (shrinks + grows)[j] in shrinks;
      assert j >= |shrinks| ==> (shrinks + grows)[j] in grows;
    }
  }

  lemma SortPlanOncePerVm(plan: seq<PlanItem>)
    requires Ordered(plan) && OncePerVm(plan)
    ensures OncePerVm(SortPlan(plan))
    ensures forall item :: item in SortPlan(plan) <==> item in plan
  {
    SortPlanSorts(plan);
    var sorted := SortPlan(plan);
    forall item
      ensures item in sorted <==> item in plan
    {
      assert item in sorted <==> item in multiset(sorted);
      assert item in plan <==> item in multiset(plan);
    }
    forall i, j | 0 <= i < j < |sorted|
      ensures sorted[i].id != sorted[j].id
    {
      assert sorted[i] in plan && sorted[j] in plan;
      assert sorted[i] != sorted[j];
    }
  }

  // ---------------------------------------------------------------- cap and attempts

  /** Every item names a tracked VM and a size. */
  ghost predicate Runnable(vms: map<string, Vm>, plan: seq<PlanItem>) {
    forall i :: 0 <= i < |plan| ==> plan[i].id in vms && !plan[i].action.NoAction?
  }

  function ItemsOf(tried: seq<Tried>): seq<PlanItem> {
    seq(|tried|, i requires 0 <= i < |tried| => tried[i].item)
  }

  function AdjustedCount(tried: seq<Tried>): nat {
    if |tried| == 0 then 0
    else AdjustedCount(tried[..|tried| - 1]) + if tried[|tried| - 1].disposition.Adjusted() then 1 else 0
  }

  /** The attempts are a prefix of the plan, cut only where the cap is reached. */
  ghost predicate PrefixAttempted(cfg: Config, vms: map<string, Vm>, plan: seq<PlanItem>, p: Progress) {
    && p.vms.Keys == vms.Keys
    && |p.tried| <= |plan| && ItemsOf(p.tried) == plan[..|p.tried|]
    && p.adjusted == AdjustedCount(p.tried)
    && (0 < cfg.maxAdjusted ==> p.adjusted <= cfg.maxAdjusted)
    && (|p.tried| < |plan| ==> CapReached(cfg, p.adjusted))
  }

  lemma {:induction false} AttemptsArePrefix(cfg: Config, tc: T.ValidConfig, hostCpu: real, env: Environment,
                                             vms: map<string, Vm>, plan: seq<PlanItem>)
    requires Runnable(vms, plan)
    ensures PrefixAttempted(cfg, vms, plan, ApplyPlan(cfg, tc, hostCpu, env, vms, plan))
  {
    hide ApplyItem;
    if |plan| != 0 {
      var front := plan[..|plan| - 1];
      AttemptsArePrefix(cfg, tc, hostCpu, env, vms, front);
      PrefixNext(cfg, tc, hostCpu, env, vms, plan, ApplyPlan(cfg, tc, hostCpu, env, vms, front));
    }
  }

  lemma PrefixNext(cfg: Config, tc: T.ValidConfig, hostCpu: real, env: Environment,
                   vms: map<string, Vm>, plan: seq<PlanItem>, before: Progress)
    requires 0 < |plan| && Runnable(vms, plan)
    requires PrefixAttempted(cfg, vms, plan[..|plan| - 1], before)
    ensures PrefixAttempted(cfg, vms, plan, ApplyItem(cfg, tc, hostCpu, env, before, plan[|plan| - 1]))
  {
    hide ApplyDecision;
    var p := ApplyItem(cfg, tc, hostCpu, env, before, plan[|plan| - 1]);
    if !CapReached(cfg, before.adjusted) {
      assert p.tried[..|p.tried| - 1] == before.tried;
      assert ItemsOf(p.tried) == ItemsOf(before.tried) + [plan[|plan| - 1]];
    }
  }

  lemma ShrinkBeforeGrow(plan: seq<PlanItem>, i: nat, j: nat)
    requires KeySorted(plan) && i < |plan| && j < |plan|
    requires plan[i].grows && !plan[j].grows
    ensures j < i
  {
  }

  /** If any grow is attempted, no shrink was skipped by the cap. */
  lemma NoShrinkSkippedForGrow(cfg: Config, tc: T.ValidConfig, hostCpu: real, env: Environment,
                               vms: map<string, Vm>, plan: seq<PlanItem>, i: nat, j: nat)
    requires Runnable(vms, plan) && KeySorted(plan)
    requires i < |ApplyPlan(cfg, tc, hostCpu, env, vms, plan).tried|
    requires ApplyPlan(cfg, tc, hostCpu, env, vms, plan).tried[i].item.grows
    requires j < |plan| && !plan[j].grows
    ensures j < |ApplyPlan(cfg, tc, hostCpu, env, vms, plan).tried|
  {
    AttemptsArePrefix(cfg, tc, hostCpu, env, vms, plan);
    var tried := ApplyPlan(cfg, tc, hostCpu, env, vms, plan).tried;
    assert ItemsOf(tried)[i] == plan[i];
    ShrinkBeforeGrow(plan, i, j);
  }

  /** What an attempt on `item` makes of its VM, taken from `vms`. */
  function AttemptOn(cfg: Config, tc: T.ValidConfig, hostCpu: real, env: Environment,
                     vms: map<string, Vm>, item: PlanItem): (Vm, Disposition)
    requires item.id in vms && !item.action.NoAction?
  {
    ApplyDecision(cfg, tc, vms[item.id], item.action, hostCpu, env(item.id))
  }

  /** After the attempts of `p`: each acted on its own VM as it stood in `vms`; all others are untouched. */
  ghost predicate Independent(cfg: Config, tc: T.ValidConfig, hostCpu: real, env: Environment,
                              vms: map<string, Vm>, plan: seq<PlanItem>, p: Progress)
    requires Runnable(vms, plan)
  {
    && p.vms.Keys == vms.Keys && |p.tried| <= |plan|
    && (forall i :: 0 <= i < |p.tried| ==>
          && p.vms[plan[i].id] == AttemptOn(cfg, tc, hostCpu, env, vms, plan[i]).0
          && p.tried[i] == Tried(plan[i], AttemptOn(cfg, tc, hostCpu, env, vms, plan[i]).1))
    && (forall id :: id in vms && (forall i :: 0 <= i < |p.tried| ==> plan[i].id != id) ==>
          p.vms[id] == vms[id])
  }

  lemma {:induction false} AttemptsAreIndependent(cfg: Config, tc: T.ValidConfig, hostCpu: real, env: Environment,
                                                  vms: map<string, Vm>, plan: seq<PlanItem>)
    requires Runnable(vms, plan) && OncePerVm(plan)
    ensures Independent(cfg, tc, hostCpu, env, vms, plan, ApplyPlan(cfg, tc, hostCpu, env, vms, plan))
  {
    hide ApplyDecision;
    if |plan| != 0 {
      var front := plan[..|plan| - 1];
      AttemptsAreIndependent(cfg, tc, hostCpu, env, vms, front);
      AttemptsArePrefix(cfg, tc, hostCpu, env, vms, front);
      IndependentStep(cfg, tc, hostCpu, env, vms, plan, ApplyPlan(cfg, tc, hostCpu, env, vms, front));
    }
  }

  lemma IndependentStep(cfg: Config, tc: T.ValidConfig, hostCpu: real, env: Environment,
                        vms: map<string, Vm>, plan: seq<PlanItem>, before: Progress)
    requires 0 < |plan| && Runnable(vms, plan) && OncePerVm(plan)
    requires Independent(cfg, tc, hostCpu, env, vms, plan[..|plan| - 1], before)
    requires |before.tried| < |plan| - 1 ==> CapReached(cfg, before.adjusted)
    ensures Independent(cfg, tc, hostCpu, env, vms, plan,
                        ApplyItem(cfg, tc, hostCpu, env, before, plan[|plan| - 1]))
  {
    hide ApplyDecision, CapReached;
    var front, last := plan[..|plan| - 1], plan[|plan| - 1];
    assert forall i :: 0 <= i < |front| ==> front[i] == plan[i];
    if !CapReached(cfg, before.adjusted) {
      assert before.vms[last.id] == vms[last.id];
      assert AttemptOn(cfg, tc, hostCpu, env, before.vms, last) == AttemptOn(cfg, tc, hostCpu, env, vms, last);
    }
  }
}
