/** Where the baseline rate stored for validation comes from, over every history. */
module BaselineHistory {
  import opened Common
  import opened Threshold
  import opened EngineHistory

  /** `s` was sampled in entry `e`: by the evaluation itself, or as the counter carried by its feedback. */
  predicate SampledIn(e: Entry, s: IoSample) {
    && e.Evaluated?
    && (s == e.obs.Sample() || (e.appliedAt.Some? && s == IoSample(e.obs.ioCount, e.appliedAt.value)))
  }

  /** No action was applied and the VM was not rediscovered after entry `j`. */
  ghost predicate QuietAfter(h: seq<Entry>, j: nat) {
    forall m :: j < m < |h| ==> h[m].Evaluated? && !h[m].Applied()
  }

  /** `s` was sampled in an entry after which no action was applied. */
  ghost predicate Anchored(h: seq<Entry>, s: IoSample) {
    exists j :: 0 <= j < |h| && SampledIn(h[j], s) && QuietAfter(h, j)
  }

  /** The windows open in state `s` are anchored; grace keeps no rate at all. */
  ghost predicate WindowsAnchored(h: seq<Entry>, s: VmState) {
    && (s.baselineWindowStart.Some? ==> Anchored(h, s.baselineWindowStart.value))
    && (s.hold.Some? ==> s.baselineWindowStart.None?)
    && (s.hold.Some? && s.hold.value.Grace? ==> s.currentBaselineIops == 0)
    && (s.hold.Some? && s.hold.value.Recovery? ==> Anchored(h, s.hold.value.windowStart))
  }

  lemma AnchoredExtends(h: seq<Entry>, e: Entry, s: IoSample)
    requires Anchored(h, s) && e.Evaluated? && !e.Applied()
    ensures Anchored(h + [e], s)
  {
    var j :| 0 <= j < |h| && SampledIn(h[j], s) && QuietAfter(h, j);
    assert SampledIn((h + [e])[j], s) && QuietAfter(h + [e], j);
  }

  lemma AnchoredNow(h: seq<Entry>, e: Entry, s: IoSample)
    requires SampledIn(e, s)
    ensures Anchored(h + [e], s)
  {
    assert SampledIn((h + [e])[|h|], s) && QuietAfter(h + [e], |h|);
  }

  /** How one evaluation outside validation moves the windows. */
  lemma ObserveWindows(cfg: ValidConfig, s: VmState, obs: Observation)
    requires s.pending.None?
    requires s.hold.Some? ==> s.baselineWindowStart.None?
    requires s.hold.Some? && s.hold.value.Grace? ==> s.currentBaselineIops == 0
    ensures var next := Evaluate(cfg, s, obs).state;
            && next.pending.None?
            && (next.hold.Some? ==> next.baselineWindowStart.None?)
            && (next.hold.Some? && next.hold.value.Grace? ==> next.currentBaselineIops == 0)
            && (next.baselineWindowStart.Some? ==>
                  || next.baselineWindowStart.value == obs.Sample()
                  || next.baselineWindowStart == s.baselineWindowStart
                  || RecoversFrom(s, next.baselineWindowStart.value))
            && (forall start :: RecoversFrom(next, start) ==> start == obs.Sample() || RecoversFrom(s, start))
            && (|| next.currentBaselineIops == 0
                || (s.baselineWindowStart.Some?
                    && next.currentBaselineIops == IopsRate(s.baselineWindowStart.value, obs.Sample()))
                || exists start :: RecoversFrom(s, start)
                                   && next.currentBaselineIops == IopsRate(start, obs.Sample()))
    ensures Evaluate(cfg, s, obs).action.Up? ==> Evaluate(cfg, s, obs).state.hold.None?
  {
    if s.hold.Some? && s.hold.value.Recovery? {
      assert RecoversFrom(s, s.hold.value.windowStart);
    }
  }

  predicate RecoversFrom(s: VmState, start: IoSample) {
    s.hold.Some? && s.hold.value.Recovery? && s.hold.value.windowStart == start
  }

  lemma {:induction false} WindowsStayAnchored(cfg: ValidConfig, h: seq<Entry>)
    requires Consistent(cfg, h)
    ensures StateAfter(cfg, h).pending.None? ==> WindowsAnchored(h, StateAfter(cfg, h))
  {
    if |h| != 0 && Last(h).Evaluated? {
      var before := StateAfter(cfg, Front(h));
      WindowsStayAnchored(cfg, Front(h));
      ValidationFollowsHistory(cfg, Front(h));
      assert h == Front(h) + [Last(h)];
      if before.pending.Some? {
        AnchoredNow(Front(h), Last(h), Last(h).obs.Sample());
      } else {
        WindowStep(cfg, Front(h), Last(h));
      }
    }
  }

  lemma WindowStep(cfg: ValidConfig, h: seq<Entry>, e: Entry)
    requires StateAfter(cfg, h).pending.None? && WindowsAnchored(h, StateAfter(cfg, h))
    requires e.Evaluated? && e.action == Evaluate(cfg, StateAfter(cfg, h), e.obs).action
    requires e.appliedAt.Some? ==> e.action != NoAction
    ensures var next := StateAfterEntry(cfg, StateAfter(cfg, h), e);
            next.pending.None? ==> WindowsAnchored(h + [e], next)
  {
    var before := StateAfter(cfg, h);
    ObserveWindows(cfg, before, e.obs);
    AnchoredNow(h, e, e.obs.Sample());
    if e.appliedAt.Some? {
      AnchoredNow(h, e, IoSample(e.obs.ioCount, e.appliedAt.value));
    } else {
      if before.baselineWindowStart.Some? {
        AnchoredExtends(h, e, before.baselineWindowStart.value);
      }
      if before.hold.Some? && before.hold.value.Recovery? {
        AnchoredExtends(h, e, before.hold.value.windowStart);
      }
    }
  }

  // ---------------------------------------------------------------- which window is open

  /** Evaluations that grace still takes after `h`; none when no reverted scale-up is in its grace. */
  function GraceLeft(cfg: ValidConfig, h: seq<Entry>): Option<nat> {
    if |h| == 0 || Last(h).Rediscovered? || Last(h).AppliedDown() then None
    else if RevertsUp(h) then Some(SatSub(HoldLength(cfg, RevertedUps(cfg, h)), cfg.polls.upRecovery))
    else
      match GraceLeft(cfg, Front(h))
      case None => None
      case Some(left) => if left == 0 then None else Some(left - 1)
  }

  /** The sample from which an evaluation after `h` measures; none while nothing is being measured. */
  function WindowOpen(cfg: ValidConfig, h: seq<Entry>): Option<IoSample> {
    if |h| == 0 || Last(h).Rediscovered? then None
    else
      var e := Last(h);
      if e.AppliedScale() then
        if Checked(cfg, e.action) then None else Some(IoSample(e.obs.ioCount, e.appliedAt.value))
      else if SettlesNext(cfg, Front(h)) then
        if RevertsUp(h) then None else Some(e.obs.Sample())
      else if UnderValidation(cfg, Front(h)) then None
      else if GraceLeft(cfg, Front(h)).Some? then
        if GraceLeft(cfg, Front(h)).value == 0 then Some(e.obs.Sample()) else None
      else if WindowOpen(cfg, Front(h)).None? then Some(e.obs.Sample())
      else WindowOpen(cfg, Front(h))
  }

  /** What the engine's record holds open. */
  function OpenIn(s: VmState): Option<IoSample> {
    match s.hold
    case None => s.baselineWindowStart
    case Some(Grace(_)) => None
    case Some(Recovery(_, start)) => Some(start)
  }

  function GraceIn(s: VmState): Option<nat> {
    if s.hold.Some? && s.hold.value.Grace? then Some(s.hold.value.pollsRemaining) else None
  }

  lemma GraceStep(cfg: ValidConfig, s: VmState, e: Entry)
    requires e.Evaluated? && e.action == Evaluate(cfg, s, e.obs).action
    requires s.pending.Some? ==> s.hold.None?
    requires e.Applied() ==> e.action != NoAction
    ensures var failedUp := s.pending.Some? && s.pending.value.action.Up? && e.action.Revert?;
            GraceIn(StateAfterEntry(cfg, s, e)) ==
            if failedUp then Some(UpGracePolls(cfg, Sat32(s.failedUps + 1)))
            else if e.AppliedDown() || GraceIn(s).None? || GraceIn(s).value == 0 then None
            else Some(GraceIn(s).value - 1)
  {
  }

  /** The grace in the record is the one the history says. */
  lemma {:induction false} GraceFollowsHistory(cfg: ValidConfig, h: seq<Entry>)
    requires Consistent(cfg, h)
    ensures GraceIn(StateAfter(cfg, h)) == GraceLeft(cfg, h)
  {
    hide Evaluate, StateAfterEntry, HoldLength, UpGracePolls, RevertedUps;
    if |h| != 0 && Last(h).Evaluated? {
      GraceFollowsHistory(cfg, Front(h));
      ValidationFollowsHistory(cfg, Front(h));
      LastScaleApplied(Front(h));
      GraceStep(cfg, StateAfter(cfg, Front(h)), Last(h));
      SettlingVerdict(cfg, h);
      if RevertsUp(h) {
        RevertedUpsGrow(cfg, h);
        CountersFollowHistory(cfg, Front(h));
        GraceExact(cfg, RevertedUps(cfg, h));
      }
    }
  }

  lemma RevertedUpsGrow(cfg: ValidConfig, h: seq<Entry>)
    requires 0 < |h| && RevertsUp(h) && SettlesNext(cfg, Front(h))
    ensures RevertedUps(cfg, h) == RevertedUps(cfg, Front(h)) + 1
  {
    hide UnderValidation;
  }

  lemma WindowStepOpen(cfg: ValidConfig, s: VmState, e: Entry)
    requires e.Evaluated? && e.action == Evaluate(cfg, s, e.obs).action
    requires s.pending.Some? ==> s.hold.None?
    requires s.hold.Some? ==> s.baselineWindowStart.None?
    requires e.Applied() ==> e.action != NoAction
    ensures var next := StateAfterEntry(cfg, s, e);
            next.pending.None? ==>
              && (next.hold.Some? ==> next.baselineWindowStart.None?)
              && OpenIn(next) ==
                 if e.AppliedScale() then Some(IoSample(e.obs.ioCount, e.appliedAt.value))
                 else if s.pending.Some? then
                   if s.pending.value.action.Up? && e.action.Revert? then None else Some(e.obs.Sample())
                 else if GraceIn(s).Some? then
                   if GraceIn(s).value == 0 then Some(e.obs.Sample()) else None
                 else if OpenIn(s).None? then Some(e.obs.Sample())
                 else OpenIn(s)
  {
  }

  /** Outside validation the window in the record is the one the history says. */
  lemma {:induction false} WindowFollowsHistory(cfg: ValidConfig, h: seq<Entry>)
    requires Consistent(cfg, h)
    ensures StateAfter(cfg, h).pending.None? ==> OpenIn(StateAfter(cfg, h)) == WindowOpen(cfg, h)
    ensures UnderValidation(cfg, h) ==> WindowOpen(cfg, h).None?
  {
    hide Evaluate, StateAfterEntry, GraceLeft, HoldLength, UpGracePolls, RevertedUps;
    if |h| != 0 && Last(h).Evaluated? {
      WindowFollowsHistory(cfg, Front(h));
      ValidationFollowsHistory(cfg, Front(h));
      ValidationFollowsHistory(cfg, h);
      LastScaleApplied(Front(h));
      SettlingVerdict(cfg, h);
      GraceFollowsHistory(cfg, Front(h));
      if StateAfter(cfg, Front(h)).pending.None? {
        WindowsStayAnchored(cfg, Front(h));
      }
      PendingWindow(cfg, Front(h));
      WindowStepOpen(cfg, StateAfter(cfg, Front(h)), Last(h));
    }
  }

  lemma PendingWindow(cfg: ValidConfig, h: seq<Entry>)
    requires Consistent(cfg, h)
    ensures StateAfter(cfg, h).pending.Some? ==> StateAfter(cfg, h).hold.None?
  {
    ValidationFollowsHistory(cfg, h);
  }

  // ---------------------------------------------------------------- the baseline of an applied action

  /** An evaluation after `h` has nothing to measure from: the VM is new, or a reverted scale-up is in its grace. */
  predicate Unmeasured(cfg: ValidConfig, h: seq<Entry>) {
    |h| == 0 || Last(h).Rediscovered? || GraceLeft(cfg, h).Some?
  }

  /** While an action is validated no grace runs. */
  lemma NoGraceWhileValidating(cfg: ValidConfig, h: seq<Entry>)
    requires Consistent(cfg, h) && UnderValidation(cfg, h)
    ensures GraceLeft(cfg, h).None?
  {
    hide GraceLeft, Evaluate;
    ValidationFollowsHistory(cfg, h);
    GraceFollowsHistory(cfg, h);
  }

  /** Outside validation a window is open if and only if there is something to measure from. */
  lemma OpenExactly(cfg: ValidConfig, h: seq<Entry>)
    requires Consistent(cfg, h) && !UnderValidation(cfg, h)
    ensures WindowOpen(cfg, h).None? <==> Unmeasured(cfg, h)
  {
    hide HoldLength, RevertedUps, Checked, ValidationLength, Evaluate, StateAfter;
    if |h| != 0 && Last(h).Evaluated? {
      SettlingVerdict(cfg, h);
      LastScaleApplied(Front(h));
      if UnderValidation(cfg, Front(h)) {
        NoGraceWhileValidating(cfg, Front(h));
      }
      if Last(h).AppliedScale() {
        ScaleLeavesNoGrace(cfg, h);
      }
    }
  }

  /** No `Up` is decided in grace, and an applied `Down` ends it. */
  lemma ScaleLeavesNoGrace(cfg: ValidConfig, h: seq<Entry>)
    requires 0 < |h| && Consistent(cfg, h) && Last(h).AppliedScale()
    ensures GraceLeft(cfg, h).None?
  {
    hide Evaluate, CanShrink;
    GraceFollowsHistory(cfg, h);
    HoldFollowsHistory(cfg, Front(h));
    ValidationFollowsHistory(cfg, Front(h));
    HoldStep(cfg, StateAfter(cfg, Front(h)), Last(h));
    GraceStep(cfg, StateAfter(cfg, Front(h)), Last(h));
  }

  /** The rate that an evaluation outside validation leaves, if it decides an `Up` or `Down`. */
  lemma RateStep(cfg: ValidConfig, s: VmState, obs: Observation)
    requires s.pending.None?
    requires s.hold.Some? ==> s.baselineWindowStart.None?
    requires s.hold.Some? && s.hold.value.Grace? ==> s.currentBaselineIops == 0
    ensures Evaluate(cfg, s, obs).state.currentBaselineIops ==
            match OpenIn(s)
            case None => 0
            case Some(start) => IopsRate(start, obs.Sample())
  {
    hide CanShrink;
    NoTimeNoRate(obs.Sample());
  }

  lemma NoTimeNoRate(s: IoSample)
    ensures IopsRate(s, s) == 0
  {
  }

  /**
   The rate an applied action is validated against is measured from exactly the
   window that the history leaves open, in which nothing was applied; it is 0,
   whatever the I/O was, if and only if there was nothing to measure from.
   */
  lemma IsolatedBaseline(cfg: ValidConfig, h: seq<Entry>)
    requires 0 < |h| && Consistent(cfg, h)
    requires Last(h).AppliedScale() && Checked(cfg, Last(h).action)
    ensures StateAfter(cfg, h).pending.Some?
    ensures StateAfter(cfg, h).pending.value.baselineIops ==
            match WindowOpen(cfg, Front(h))
            case None => 0
            case Some(start) => IopsRate(start, Last(h).obs.Sample())
    ensures WindowOpen(cfg, Front(h)).None? <==> Unmeasured(cfg, Front(h))
    ensures WindowOpen(cfg, Front(h)).Some? ==> Anchored(Front(h), WindowOpen(cfg, Front(h)).value)
  {
    hide Evaluate, WindowOpen, GraceLeft, IopsRate, Unmeasured, Anchored, UnderValidation;
    var before := StateAfter(cfg, Front(h));
    ValidationFollowsHistory(cfg, Front(h));
    SettlingVerdict(cfg, h);
    WindowsStayAnchored(cfg, Front(h));
    WindowFollowsHistory(cfg, Front(h));
    OpenExactly(cfg, Front(h));
    RateStep(cfg, before, Last(h).obs);
  }

  /** Without a baseline there is no verdict: an unmeasured action is kept, whatever became of the I/O. */
  lemma UnmeasuredIsKept(cfg: ValidConfig, h: seq<Entry>, tail: seq<Entry>, e: Entry)
    requires Consistent(cfg, h + tail + [e]) && AllEvaluated(tail) && e.Evaluated?
    requires 0 < |h| && Consistent(cfg, h) && Last(h).AppliedScale() && Checked(cfg, Last(h).action)
    requires Unmeasured(cfg, Front(h)) && |tail| <= ValidationLength(cfg, Last(h).action.count)
    ensures e.action == NoAction
  {
    hide Evaluate, StateAfter, IopsRate, Unmeasured, WindowOpen, ValidationLength;
    ValidationLasts(cfg, h, tail, e);
    IsolatedBaseline(cfg, h);
    StartedBaseline(cfg, h);
  }

  lemma StartedBaseline(cfg: ValidConfig, h: seq<Entry>)
    requires 0 < |h| && Consistent(cfg, h) && Last(h).AppliedScale() && Checked(cfg, Last(h).action)
    ensures StateAfter(cfg, h).pending == Some(StartedValidation(cfg, h))
  {
    assert h + [] == h;
    StillValidating(cfg, h, []);
  }

  // ---------------------------------------------------------------- the recovery window

  /** The hold after `seen` of its `length` evaluations; `start` is the first sample after grace. */
  function HoldAfter(length: nat, recovery: u32, seen: nat, start: IoSample): Option<UpHold>
    requires recovery <= length <= U32_MAX && seen <= length
  {
    Some(if seen + recovery <= length then Grace(length - recovery - seen)
         else Recovery(length - seen + 1, start))
  }

  lemma HoldAfterStep(cfg: ValidConfig, s: VmState, e: Entry, length: nat, seen: nat, start: IoSample)
    requires 0 < cfg.polls.upRecovery <= length <= U32_MAX && seen < length
    requires s.pending.None? && s.hold == HoldAfter(length, cfg.polls.upRecovery, seen, start)
    requires e.Evaluated? && e.action == Evaluate(cfg, s, e.obs).action && !e.AppliedDown()
    requires e.Applied() ==> e.action != NoAction
    ensures var next := StateAfterEntry(cfg, s, e);
            var from := if seen + cfg.polls.upRecovery == length then e.obs.Sample() else start;
            && next.pending.None?
            && next.hold == HoldAfter(length, cfg.polls.upRecovery, seen + 1, from)
  {
  }

  /** During the hold: grace while it lasts, then a window that starts at the first evaluation after it. */
  lemma {:induction false} HoldShape(cfg: ValidConfig, h: seq<Entry>, tail: seq<Entry>, length: nat)
    requires Consistent(cfg, h + tail)
    requires 0 < |h| && RevertsUp(h) && Undisturbed(tail, 0)
    requires |tail| <= length == HoldLength(cfg, RevertedUps(cfg, h))
    requires 0 < cfg.polls.upRecovery
    ensures StateAfter(cfg, h + tail).pending.None?
    ensures cfg.polls.upRecovery <= length <= U32_MAX
    ensures var start := if |tail| <= length - cfg.polls.upRecovery then IoSample(0, 0)
                         else tail[length - cfg.polls.upRecovery].obs.Sample();
            StateAfter(cfg, h + tail).hold == HoldAfter(length, cfg.polls.upRecovery, |tail|, start)
  {
    hide HoldLength, UpGracePolls, Evaluate, RevertedUps;
    if |tail| == 0 {
      assert h + tail == h;
      RevertStartsGrace(cfg, h);
      GraceExact(cfg, RevertedUps(cfg, h));
    } else {
      var shorter := Front(tail);
      assert Front(h + tail) == h + shorter;
      assert Last(h + tail) == Last(tail);
      HoldShape(cfg, h, shorter, length);
      var start := if |shorter| <= length - cfg.polls.upRecovery then IoSample(0, 0)
                   else shorter[length - cfg.polls.upRecovery].obs.Sample();
      HoldAfterStep(cfg, StateAfter(cfg, h + shorter), Last(tail), length, |shorter|, start);
    }
  }

  lemma RevertStartsGrace(cfg: ValidConfig, h: seq<Entry>)
    requires 0 < |h| && Consistent(cfg, h) && RevertsUp(h)
    ensures 1 <= RevertedUps(cfg, h)
    ensures StateAfter(cfg, h).pending.None?
    ensures StateAfter(cfg, h).hold == Some(Grace(UpGracePolls(cfg, Sat32(RevertedUps(cfg, h)))))
  {
    hide Evaluate, StateAfter, UpGracePolls, HoldLength, RevertedUps, UnderValidation;
    SettlingVerdict(cfg, h);
    RevertedUpsGrow(cfg, h);
    ValidationFollowsHistory(cfg, h);
    GraceFollowsHistory(cfg, h);
    GraceExact(cfg, RevertedUps(cfg, h));
  }

  lemma RecoveryEnds(cfg: ValidConfig, s: VmState, obs: Observation, length: nat, start: IoSample)
    requires 0 < cfg.polls.upRecovery <= length <= U32_MAX
    requires s.pending.None? && s.hold == HoldAfter(length, cfg.polls.upRecovery, length, start)
    ensures var published := Evaluate(cfg, s, obs).state;
            && published.baselineWindowStart == Some(start)
            && published.currentBaselineIops == IopsRate(start, obs.Sample())
  {
  }

  /**
   The evaluation that ends an undisturbed hold publishes a rate over exactly
   the last `upRecovery` evaluation intervals: the window starts at the first
   evaluation after grace.
   */
  lemma RecoveryBaseline(cfg: ValidConfig, h: seq<Entry>, tail: seq<Entry>, obs: Observation)
    requires Consistent(cfg, h + tail)
    requires 0 < |h| && RevertsUp(h) && Undisturbed(tail, 0)
    requires |tail| == HoldLength(cfg, RevertedUps(cfg, h))
    requires 0 < cfg.polls.upRecovery
    ensures cfg.polls.upRecovery <= |tail|
    ensures var start := tail[|tail| - cfg.polls.upRecovery].obs.Sample();
            var published := Evaluate(cfg, StateAfter(cfg, h + tail), obs).state;
            && published.baselineWindowStart == Some(start)
            && published.currentBaselineIops == IopsRate(start, obs.Sample())
  {
    hide HoldLength, StateAfter, Evaluate, Consistent, RevertedUps, IopsRate;
    HoldShape(cfg, h, tail, |tail|);
    RecoveryEnds(cfg, StateAfter(cfg, h + tail), obs, |tail|, tail[|tail| - cfg.polls.upRecovery].obs.Sample());
  }
}
