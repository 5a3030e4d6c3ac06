/**
 The threshold engine in its own form: one mutable record per VM, in a table
 keyed by VM id. Every method is proved against its counterpart in `Threshold`.
 */
module ThresholdEngines {
  import opened Common
  import T = Threshold

  /** The record of one VM, updated in place; `View` is its value. */
  class InstanceState {
    /** The VM this record belongs to. */
    const id: string
    var lowUtilPolls: nat
    var pendingValidation: Option<T.PendingValidation>
    var baselineWindowStart: Option<T.IoSample>
    var currentBaselineIops: nat
    var postRevertUpHold: Option<T.UpHold>
    var consecutiveFailedUps: u32
    var consecutiveFailedDowns: u32

    ghost function View(): T.VmState
      reads this
    {
      T.VmState(lowUtilPolls, pendingValidation, baselineWindowStart, currentBaselineIops,
                postRevertUpHold, consecutiveFailedUps, consecutiveFailedDowns)
    }

    constructor (id: string)
      ensures this.id == id && View() == T.FRESH
    {
      this.id := id;
      lowUtilPolls, pendingValidation, baselineWindowStart := 0, None, None;
      currentBaselineIops, postRevertUpHold := 0, None;
      consecutiveFailedUps, consecutiveFailedDowns := 0, 0;
    }

    /** Make an applied action pending, with all its verdict will need. */
    method StartValidation(action: T.ScaleAction, previousThreadCount: u32, baselineIops: nat,
                           validationStart: T.IoSample, pollsRemaining: u32)
      modifies this`pendingValidation
      ensures pendingValidation
           == Some(T.PendingValidation(action, previousThreadCount, baselineIops, validationStart, pollsRemaining))
    {
      pendingValidation :=
        Some(T.PendingValidation(action, previousThreadCount, baselineIops, validationStart, pollsRemaining));
    }

    /** Measure from `start` on; no rate is known yet. */
    method ResetBaselineWindow(start: T.IoSample)
      modifies this`baselineWindowStart, this`currentBaselineIops
      ensures View() == T.ResetBaselineWindow(old(View()), start)
    {
      baselineWindowStart := Some(start);
      currentBaselineIops := 0;
    }

    /** Reset what an applied `Up` or `Down` uses up, and what its opposite had built up. */
    method ResetAfterApplied(action: T.ScaleAction)
      modifies this
      ensures View() == T.ResetAfterApplied(old(View()), action)
    {
      match action {
        case Up(_) => consecutiveFailedDowns := 0;
        case Down(_) =>
          postRevertUpHold := None;
          consecutiveFailedUps := 0;
        case NoAction => return;
        case Revert(_) => return;
      }
      lowUtilPolls := 0;
    }

    /** Measure up to `end`, or start there when nothing is being measured. */
    method RefreshBaselineRate(end: T.IoSample)
      modifies this`baselineWindowStart, this`currentBaselineIops
      ensures View() == T.RefreshBaselineRate(old(View()), end)
    {
      var rate := 0;
      match baselineWindowStart {
        case None => baselineWindowStart := Some(end);
        case Some(start) => rate := T.IopsRate(start, end);
      }
      currentBaselineIops := rate;
    }

    /** Enter grace; the window and its rate are void. */
    method BeginPostRevertUpHold(gracePolls: u32)
      modifies this
      ensures View() == T.BeginUpHold(old(View()), gracePolls)
    {
      baselineWindowStart := None;
      currentBaselineIops := 0;
      postRevertUpHold := Some(T.Grace(gracePolls));
    }

    /** One evaluation of the hold; `blocked` says that it is not over. */
    method AdvancePostRevertUpHold(sample: T.IoSample, recoveryPolls: u32) returns (blocked: bool)
      modifies this
      ensures (View(), blocked) == T.AdvanceUpHold(old(View()), sample, recoveryPolls)
    {
      if postRevertUpHold.None? {
        return false;
      }
      var hold := postRevertUpHold.value;
      postRevertUpHold := None;
      match hold {
        case Grace(polls) =>
          if polls > 0 {
            postRevertUpHold := Some(T.Grace(polls - 1));
            return true;
          }
          if recoveryPolls == 0 {
            ResetBaselineWindow(sample);
            return false;
          }
          postRevertUpHold := Some(T.Recovery(recoveryPolls, sample));
          return true;
        case Recovery(polls, windowStart) =>
          var rate := T.IopsRate(windowStart, sample);
          currentBaselineIops := rate;
          if polls > 1 {
            postRevertUpHold := Some(T.Recovery(polls - 1, windowStart));
            return true;
          }
          baselineWindowStart := Some(windowStart);
          currentBaselineIops := rate;
          return false;
      }
    }
  }

  /** The table of records; each method touches the record of its own VM only. */
  class ThresholdEngine {
    const cfg: T.ValidConfig
    var state: map<string, InstanceState>
    /** The table as a value. */
    ghost var records: map<string, T.VmState>

    /** The records this engine owns. */
    ghost var repr: set<object>

    /** Every record is filed under its own VM, so no two VMs share one. */
    ghost predicate Valid()
      reads this, repr
    {
      && this !in repr
      && records.Keys == state.Keys
      && forall id :: id in state ==>
           state[id] in repr && state[id].id == id && records[id] == state[id].View()
    }

    /** The record of `id` as a value, whether or not it exists yet. */
    ghost function Known(id: string): T.VmState
      reads this
    {
      if id in records then records[id] else T.FRESH
    }

    lemma KeysAgree()
      requires Valid()
      ensures records.Keys == state.Keys && this !in repr
    {
    }

    lemma EntryAt(id: string)
      requires Valid() && id in state
      ensures id in records && records[id] == state[id].View()
      ensures state[id] in repr
    {
    }

    /** Changing one VM's record, and filing its new value, keeps the table valid. */
    twostate lemma RecordReplaced(id: string)
      requires old(Valid()) && state == old(state) && repr == old(repr)
      requires id in state && records == old(records)[id := state[id].View()]
      requires forall o :: o in repr && o != state[id] ==> unchanged(o)
      ensures Valid()
    {
      hide InstanceState.View;
      forall other | other in state && other != id
        ensures records[other] == state[other].View()
      {
        assert state[other] != state[id];
      }
    }

    constructor (cfg: T.ValidConfig)
      ensures Valid() && this.cfg == cfg && records == map[] && repr == {}
    {
      this.cfg := cfg;
      state := map[];
      records, repr := map[], {};
    }

    /** The record of `id`, created on first use. */
    method Entry(id: string) returns (entry: InstanceState)
      requires Valid()
      modifies this
      ensures Valid() && id in state && state[id] == entry
      ensures fresh(repr - old(repr)) && entry in repr
      ensures id in old(state) || fresh(entry)
      ensures records == old(records)[id := old(Known(id))]
    {
      if id !in state {
        var created := new InstanceState(id);
        state := state[id := created];
        records, repr := records[id := T.FRESH], repr + {created};
      }
      entry := state[id];
    }

    /** Evaluate `id`, creating its record on first use. */
    method Evaluate(id: string, obs: T.Observation) returns (action: T.ScaleAction)
      requires Valid()
      modifies this, repr
      ensures Valid() && fresh(repr - old(repr))
      ensures action == T.Evaluate(cfg, old(Known(id)), obs).action
      ensures records == old(records)[id := T.Evaluate(cfg, old(Known(id)), obs).state]
    {
      hide T.Evaluate, InstanceState.View, Valid;
      var entry := Entry(id);
      assert entry.View() == records[id] by { EntryAt(id); }
      label entered:
      action := EvaluateEntry(entry, obs);
      records := records[id := entry.View()];
      RecordReplaced@entered(id);
    }

    /** The body of `evaluate` on the record it looked up. */
    method EvaluateEntry(entry: InstanceState, obs: T.Observation) returns (action: T.ScaleAction)
      modifies entry
      ensures action == T.Evaluate(cfg, old(entry.View()), obs).action
      ensures entry.View() == T.Evaluate(cfg, old(entry.View()), obs).state
    {
      var downTarget := T.ScaleDownTarget(cfg, obs.util, obs.threadCount, obs.minThreads);
      var sample := obs.Sample();
      if entry.pendingValidation.Some? {
        var pending := entry.pendingValidation.value;
        entry.pendingValidation := None;
        if pending.pollsRemaining > 0 {
          entry.pendingValidation := Some(pending.(pollsRemaining := pending.pollsRemaining - 1));
          return T.NoAction;
        }
        action := SettleEntry(entry, pending, obs);
        return;
      }
      var blockScaleUp := entry.AdvancePostRevertUpHold(sample, cfg.polls.upRecovery);
      if !blockScaleUp {
        entry.RefreshBaselineRate(sample);
      }
      if downTarget < obs.threadCount {
        entry.lowUtilPolls := (entry.lowUtilPolls + 1) % (U32_MAX + 1);
      } else {
        entry.lowUtilPolls := 0;
      }
      if !blockScaleUp && obs.threadCount < obs.maxThreads && obs.util > cfg.scaleUpThreshold {
        if cfg.blockUpWhenThrottled && obs.throttled {
          return T.NoAction;
        }
        return T.Up(Min(obs.threadCount + 1, obs.maxThreads));
      }
      if downTarget < obs.threadCount
         && entry.lowUtilPolls >= T.SustainPolls(cfg, entry.consecutiveFailedDowns) {
        return T.Down(downTarget);
      }
      return T.NoAction;
    }

    /** The verdict on a pending action whose polls have run out. */
    method SettleEntry(entry: InstanceState, pending: T.PendingValidation, obs: T.Observation)
      returns (action: T.ScaleAction)
      requires entry.pendingValidation.None?
      modifies entry
      ensures var before := old(entry.View()).(pending := Some(pending));
              T.Verdict(entry.View(), action) == T.Settle(cfg, before, obs)
    {
      var observed := T.IopsRate(pending.validationStart, obs.Sample());
      var revertTarget := T.RevertTarget(cfg, pending, observed, obs.util);
      entry.ResetBaselineWindow(obs.Sample());
      if revertTarget.None? {
        if pending.action.Up? {
          entry.consecutiveFailedUps := 0;
        } else {
          entry.consecutiveFailedDowns := 0;
        }
        return T.NoAction;
      }
      if pending.action.Up? {
        entry.consecutiveFailedUps := Sat32(entry.consecutiveFailedUps + 1);
        var gracePolls := T.UpGracePolls(cfg, entry.consecutiveFailedUps);
        entry.BeginPostRevertUpHold(gracePolls);
      } else {
        entry.consecutiveFailedDowns := Sat32(entry.consecutiveFailedDowns + 1);
      }
      return T.Revert(revertTarget.value);
    }

    /** Feedback on a decision; the table changes as `Threshold.OnApplied` says, or not at all. */
    method OnApplied(id: string, outcome: T.Outcome)
      requires Valid()
      modifies this`records, repr
      ensures Valid() && state == old(state) && repr == old(repr)
      ensures records == if id in old(records)
                         then old(records)[id := T.OnApplied(cfg, old(records)[id], outcome)]
                         else old(records)
    {
      hide Valid;
      assert records.Keys == state.Keys && this !in repr by { KeysAgree(); }
      if outcome.Blocked? || outcome.Failed? || id !in state {
        return;
      }
      EntryAt(id);
      var entry := state[id];
      var action := outcome.action;
      if action.NoAction? || action.Revert? {
        return;
      }
      var applied := T.IoSample(outcome.prevIoCount, outcome.appliedAt);
      entry.ResetAfterApplied(action);
      if T.Validated(cfg, action) {
        entry.StartValidation(action, outcome.prevThreadCount, entry.currentBaselineIops, applied,
                              T.ValidationPolls(cfg, action.count));
      } else {
        entry.ResetBaselineWindow(applied);
      }
      records := records[id := entry.View()];
      RecordReplaced(id);
    }

    method OnInstanceAdded(id: string)
      requires Valid()
      modifies this
      ensures Valid() && fresh(repr - old(repr))
      ensures records == old(records)[id := old(Known(id))]
    {
      var _ := Entry(id);
    }

    method OnInstanceRemoved(id: string)
      requires Valid()
      modifies this
      ensures Valid() && repr == old(repr)
      ensures records == old(records) - {id}
    {
      state := state - {id};
      records := records - {id};
    }
  }
}
