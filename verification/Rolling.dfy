/**
 The sample history of a VM (src/rolling.rs): the deque that forgets old samples
 gives the same figures as one that never does.
 */
module Rolling {
  import opened Common

  /** No figure looks back further than 15 minutes. */
  const MAX_WINDOW: nat := 15 * 60 * 1_000_000_000

  const NS_PER_SEC: nat := 1_000_000_000

  /** An interval that ends at `wallTs`: what happened in it and how long it took. */
  datatype TickSample = TickSample(wallTs: nat, ioOps: nat, cpuNs: nat, wallDt: nat)

  datatype History = History(
    samples: seq<TickSample>,
    previousWallTs: Option<nat>,
    previousIoOps: Option<nat>,
    previousCpuTicks: Option<nat>)

  const EMPTY: History := History([], None, None, None)

  /** One call of the three pushes. */
  datatype Push =
    | Procfs(now: nat, ioOps: nat, cpuTicks: nat)
    | BackendUtil(now: nat, ioOps: nat, util: real, threads: u32)
    | Delta(now: nat, ioDelta: nat, cpuDelta: nat)

  /** `checked_duration_since` and `checked_sub`. */
  function CheckedSub(a: nat, b: nat): Option<nat> {
    if b <= a then Some(a - b) else None
  }

  function Truncate(x: real): nat {
    if x <= 0.0 then 0 else Sat64(x.Floor)
  }

  type Rate = r: real | 0.0 < r witness 100.0

  function TicksToNs(ticks: nat, ticksPerSecond: Rate): nat {
    Truncate(ticks as real * 1_000_000_000.0 / ticksPerSecond)
  }

  /** Time that `threads` workers spend when each is busy for `share` of `wallDt`. */
  function ShareToNs(wallDt: nat, share: real, threads: u32): nat {
    Truncate(wallDt as real * share * threads as real)
  }

  function UtilToNs(wallDt: nat, util: real, threads: u32): nat {
    ShareToNs(wallDt, Clamp01(util), threads)
  }

  /** The interval a push appends, if it does not merely replace the baseline. */
  function Interval(h: History, p: Push, tps: Rate): Option<TickSample> {
    match p
    case Procfs(now, io, cpu) =>
      if h.previousWallTs.None? || h.previousIoOps.None? || h.previousCpuTicks.None? then None
      else if now < h.previousWallTs.value then None
      else if io < h.previousIoOps.value || cpu < h.previousCpuTicks.value then None
      else Some(TickSample(now, io - h.previousIoOps.value,
                           TicksToNs(cpu - h.previousCpuTicks.value, tps),
                           Sat64(now - h.previousWallTs.value)))
    case BackendUtil(now, io, util, threads) =>
      if h.previousWallTs.None? || h.previousIoOps.None? then None
      else if now < h.previousWallTs.value || io < h.previousIoOps.value then None
      else
        var wallDt := Sat64(now - h.previousWallTs.value);
        Some(TickSample(now, io - h.previousIoOps.value, UtilToNs(wallDt, util, threads), wallDt))
    case Delta(now, io, cpu) =>
      if h.previousWallTs.None? || now < h.previousWallTs.value then None
      else Some(TickSample(now, io, cpu, Sat64(now - h.previousWallTs.value)))
  }

  /** The baseline every push leaves for the next one. */
  function Rebased(h: History, p: Push): History {
    match p
    case Procfs(now, io, cpu) =>
      h.(previousWallTs := Some(now), previousIoOps := Some(io), previousCpuTicks := Some(cpu))
    case BackendUtil(now, io, _, _) =>
      h.(previousWallTs := Some(now), previousIoOps := Some(io), previousCpuTicks := None)
    case Delta(now, _, _) =>
      h.(previousWallTs := Some(now))
  }

  /** Drop the samples in front that are older than the longest window. */
  function Trimmed(samples: seq<TickSample>, now: nat): seq<TickSample> {
    if now < MAX_WINDOW || |samples| == 0 || samples[0].wallTs >= now - MAX_WINDOW then samples
    else Trimmed(samples[1..], now)
  }

  function Apply(h: History, p: Push, tps: Rate): History {
    match Interval(h, p, tps)
    case None => Rebased(h, p)
    case Some(sample) => Rebased(h, p).(samples := Trimmed(h.samples + [sample], p.now))
  }

  /** The same push into a history that forgets nothing. */
  function ApplyUntrimmed(h: History, p: Push, tps: Rate): History {
    match Interval(h, p, tps)
    case None => Rebased(h, p)
    case Some(sample) => Rebased(h, p).(samples := h.samples + [sample])
  }

  // ---------------------------------------------------------------- totals

  datatype Totals = Totals(ioOps: nat, cpuNs: nat, wallNs: nat)

  function Add(t: Totals, s: TickSample): Totals {
    Totals(t.ioOps + s.ioOps, t.cpuNs + s.cpuNs, t.wallNs + s.wallDt)
  }

  predicate InWindow(s: TickSample, cutoff: Option<nat>) {
    cutoff.None? || s.wallTs >= cutoff.value
  }

  /** Exact sums over the samples at or after the cutoff. */
  function SumWindow(samples: seq<TickSample>, cutoff: Option<nat>): Totals {
    if |samples| == 0 then Totals(0, 0, 0)
    else
      var rest := SumWindow(samples[..|samples| - 1], cutoff);
      var last := samples[|samples| - 1];
      if InWindow(last, cutoff) then Add(rest, last) else rest
  }

  function Clip(t: Totals): Totals {
    Totals(Sat64(t.ioOps), Sat64(t.cpuNs), Sat64(t.wallNs))
  }

  function TotalsOver(samples: seq<TickSample>, window: nat): Option<Totals> {
    if |samples| == 0 then None
    else Some(Clip(SumWindow(samples, CheckedSub(samples[|samples| - 1].wallTs, window))))
  }

  /** Operations per second, rounded down and clipped. */
  function PerSecond(ops: nat, ns: nat): nat
    requires 0 < ns
  {
    Sat64(ops * NS_PER_SEC / ns)
  }

  function IopsOver(samples: seq<TickSample>, window: nat): Option<nat> {
    match TotalsOver(samples, window)
    case None => None
    case Some(t) => if t.wallNs == 0 then None else Some(PerSecond(t.ioOps, t.wallNs))
  }

  function CpuUsPerIoOver(samples: seq<TickSample>, window: nat): Option<nat> {
    match TotalsOver(samples, window)
    case None => None
    case Some(t) => if t.ioOps == 0 then None else Some(t.cpuNs / t.ioOps / 1_000)
  }

  /** The history in place; `View` is its value, and every push is `Apply`. */
  class RollingMetrics {
    const ticksPerSecond: Rate
    var samples: seq<TickSample>
    var previousWallTs: Option<nat>
    var previousIoOps: Option<nat>
    var previousCpuTicks: Option<nat>

    ghost function View(): History
      reads this
    {
      History(samples, previousWallTs, previousIoOps, previousCpuTicks)
    }

    constructor (ticksPerSecond: Rate)
      ensures View() == EMPTY && this.ticksPerSecond == ticksPerSecond
    {
      this.ticksPerSecond := ticksPerSecond;
      samples, previousWallTs, previousIoOps, previousCpuTicks := [], None, None, None;
    }

    method SetBaseline(now: nat, ioOps: nat, cpuTicks: nat)
      modifies this
      ensures View() == Rebased(old(View()), Procfs(now, ioOps, cpuTicks))
    {
      previousWallTs, previousIoOps, previousCpuTicks := Some(now), Some(ioOps), Some(cpuTicks);
    }

    method SetBackendBaseline(now: nat, ioOps: nat)
      modifies this
      ensures View() == old(View()).(previousWallTs := Some(now), previousIoOps := Some(ioOps), previousCpuTicks := None)
    {
      previousWallTs, previousIoOps, previousCpuTicks := Some(now), Some(ioOps), None;
    }

    /** Exactly the outdated samples at the front go. */
    method Trim(now: nat)
      modifies this`samples
      ensures samples == Trimmed(old(samples), now)
    {
      if now < MAX_WINDOW {
        return;
      }
      var cutoff := now - MAX_WINDOW;
      while |samples| > 0 && samples[0].wallTs < cutoff
        invariant Trimmed(samples, now) == Trimmed(old(samples), now)
        decreases |samples|
      {
        samples := samples[1..];
      }
    }

    /** A push whose CPU time comes from ticks. */
    method PushFromProcfsDelta(now: nat, ioOps: nat, cpuTicks: nat)
      modifies this
      ensures View() == Apply(old(View()), Procfs(now, ioOps, cpuTicks), ticksPerSecond)
    {
      if previousWallTs.None? || previousIoOps.None? || previousCpuTicks.None?
         || now < previousWallTs.value
         || ioOps < previousIoOps.value || cpuTicks < previousCpuTicks.value {
        SetBaseline(now, ioOps, cpuTicks);
        return;
      }
      var elapsed := now - previousWallTs.value;
      var cpuNs := TicksToNs(cpuTicks - previousCpuTicks.value, ticksPerSecond);
      samples := samples + [TickSample(now, ioOps - previousIoOps.value, cpuNs, Sat64(elapsed))];
      SetBaseline(now, ioOps, cpuTicks);
      Trim(now);
    }

    /** A push whose CPU time comes from a utilisation; it forgets the tick counter. */
    method PushFromBackendUtil(now: nat, ioOps: nat, util: real, threads: u32)
      modifies this
      ensures View() == Apply(old(View()), BackendUtil(now, ioOps, util, threads), ticksPerSecond)
    {
      if previousWallTs.None? || previousIoOps.None?
         || now < previousWallTs.value || ioOps < previousIoOps.value {
        SetBackendBaseline(now, ioOps);
        return;
      }
      var wallDt := Sat64(now - previousWallTs.value);
      samples := samples + [TickSample(now, ioOps - previousIoOps.value, UtilToNs(wallDt, util, threads), wallDt)];
      SetBackendBaseline(now, ioOps);
      Trim(now);
    }

    /** A push that leaves the operation and tick counters alone. */
    method PushDelta(now: nat, ioDelta: nat, cpuDelta: nat)
      modifies this
      ensures View() == Apply(old(View()), Delta(now, ioDelta, cpuDelta), ticksPerSecond)
    {
      if previousWallTs.None? || now < previousWallTs.value {
        previousWallTs := Some(now);
        return;
      }
      samples := samples + [TickSample(now, ioDelta, cpuDelta, Sat64(now - previousWallTs.value))];
      previousWallTs := Some(now);
      Trim(now);
    }

    /** Saturating sums over the samples inside the window. */
    method ComputeTotals(window: nat) returns (r: Option<Totals>)
      ensures r == TotalsOver(samples, window)
    {
      if |samples| == 0 {
        return None;
      }
      var cutoff := CheckedSub(samples[|samples| - 1].wallTs, window);
      var io: nat, cpu: nat, wall: nat := 0, 0, 0;
      for i := 0 to |samples|
        invariant Totals(io, cpu, wall) == Clip(SumWindow(samples[..i], cutoff))
      {
        assert samples[..i + 1][..i] == samples[..i];
        var s := samples[i];
        if cutoff.None? || s.wallTs >= cutoff.value {
          io, cpu, wall := Sat64(io + s.ioOps), Sat64(cpu + s.cpuNs), Sat64(wall + s.wallDt);
        }
      }
      assert samples[..|samples|] == samples;
      return Some(Totals(io, cpu, wall));
    }
  }

  // ---------------------------------------------------------------- trimming is invisible

  function Run(ps: seq<Push>, tps: Rate): History {
    if |ps| == 0 then EMPTY else Apply(Run(ps[..|ps| - 1], tps), ps[|ps| - 1], tps)
  }

  function RunUntrimmed(ps: seq<Push>, tps: Rate): History {
    if |ps| == 0 then EMPTY else ApplyUntrimmed(RunUntrimmed(ps[..|ps| - 1], tps), ps[|ps| - 1], tps)
  }

  /** The clock never goes back. */
  ghost predicate Monotone(ps: seq<Push>) {
    forall i, j :: 0 <= i < j < |ps| ==> ps[i].now <= ps[j].now
  }

  ghost predicate Ascending(samples: seq<TickSample>) {
    forall i, j :: 0 <= i < j < |samples| ==> samples[i].wallTs <= samples[j].wallTs
  }

  lemma {:induction false} TrimmedIsSuffix(samples: seq<TickSample>, now: nat) returns (k: nat)
    ensures k <= |samples| && Trimmed(samples, now) == samples[k..]
    ensures forall i :: 0 <= i < k ==> samples[i].wallTs + MAX_WINDOW < now
    ensures k < |samples| && MAX_WINDOW <= now ==> samples[k].wallTs + MAX_WINDOW >= now
  {
    if now < MAX_WINDOW || |samples| == 0 || samples[0].wallTs >= now - MAX_WINDOW {
      k := 0;
    } else {
      var m := TrimmedIsSuffix(samples[1..], now);
      k := m + 1;
      assert samples[1..][m..] == samples[k..];
      forall i | 0 <= i < k
        ensures samples[i].wallTs + MAX_WINDOW < now
      {
        assert i > 0 ==> samples[i] == samples[1..][i - 1];
      }
    }
  }

  /** The trimmed history lacks only a prefix, all of it older than the longest window. */
  ghost predicate Forgets(h: History, full: History, k: nat) {
    && h == full.(samples := h.samples)
    && k <= |full.samples| && h.samples == full.samples[k..]
    && Ascending(full.samples)
    && (|full.samples| > 0 ==>
          && k < |full.samples|
          && full.previousWallTs.Some?
          && full.samples[|full.samples| - 1].wallTs <= full.previousWallTs.value)
    && forall i :: 0 <= i < k ==>
         full.samples[i].wallTs + MAX_WINDOW < full.samples[|full.samples| - 1].wallTs
  }

  /** Every push after the first finds the time of the one before. */
  lemma {:induction false} BaselineTime(ps: seq<Push>, tps: Rate)
    ensures RunUntrimmed(ps, tps).previousWallTs
         == if |ps| == 0 then None else Some(ps[|ps| - 1].now)
  {
  }

  lemma {:induction false} RunForgets(ps: seq<Push>, tps: Rate) returns (k: nat)
    requires Monotone(ps)
    ensures Forgets(Run(ps, tps), RunUntrimmed(ps, tps), k)
  {
    if |ps| == 0 {
      k := 0;
    } else {
      var front := ps[..|ps| - 1];
      var p := ps[|ps| - 1];
      k := RunForgets(front, tps);
      BaselineTime(front, tps);
      var h, full := Run(front, tps), RunUntrimmed(front, tps);
      if Interval(h, p, tps).Some? {
        k := ForgetStep(h, full, k, p, tps);
      }
    }
  }

  /** Appending a newest sample and trimming forgets a prefix of the full list, never the new sample. */
  lemma TrimGrown(full: seq<TickSample>, k: nat, sample: TickSample) returns (k': nat)
    requires k <= |full| && Ascending(full)
    requires |full| > 0 ==> k < |full| && full[|full| - 1].wallTs <= sample.wallTs
    requires forall i :: 0 <= i < k ==> full[i].wallTs + MAX_WINDOW < full[|full| - 1].wallTs
    ensures var grown := full + [sample];
            && k' <= |full|
            && Trimmed(full[k..] + [sample], sample.wallTs) == grown[k'..]
            && Ascending(grown)
            && forall i :: 0 <= i < k' ==> grown[i].wallTs + MAX_WINDOW < sample.wallTs
  {
    hide Trimmed, Ascending;
    var grown := full + [sample];
    var kept := grown[k..];
    AscendingPush(full, sample);
    assert full[k..] + [sample] == kept;
    assert kept[|full| - k] == sample;
    var m := TrimmedIsSuffix(kept, sample.wallTs);
    k' := k + m;
    assert kept[m..] == grown[k'..];
    forall i | 0 <= i < k'
      ensures grown[i].wallTs + MAX_WINDOW < sample.wallTs
    {
      if i < k {
        assert grown[i] == full[i];
      } else {
        assert grown[i] == kept[i - k];
      }
    }
  }

  lemma AscendingPush(full: seq<TickSample>, sample: TickSample)
    requires Ascending(full)
    requires |full| > 0 ==> full[|full| - 1].wallTs <= sample.wallTs
    ensures Ascending(full + [sample])
  {
  }

  /** A push reads the baseline only. */
  lemma IntervalIgnoresSamples(h: History, full: History, p: Push, tps: Rate)
    requires h == full.(samples := h.samples)
    ensures Interval(h, p, tps) == Interval(full, p, tps)
    ensures Rebased(h, p) == Rebased(full, p).(samples := h.samples)
    ensures Rebased(full, p).samples == full.samples && Rebased(full, p).previousWallTs == Some(p.now)
    ensures Interval(h, p, tps).Some? ==> Interval(h, p, tps).value.wallTs == p.now
  {
  }

  lemma ForgetStep(h: History, full: History, k: nat, p: Push, tps: Rate) returns (k': nat)
    requires Forgets(h, full, k) && Interval(h, p, tps).Some?
    requires full.previousWallTs.Some? && full.previousWallTs.value <= p.now
    ensures Forgets(Apply(h, p, tps), ApplyUntrimmed(full, p, tps), k')
  {
    hide Interval, Rebased, Trimmed, Ascending;
    IntervalIgnoresSamples(h, full, p, tps);
    k' := TrimGrown(full.samples, k, Interval(h, p, tps).value);
  }

  lemma {:induction false} OldSamplesAddNothing(samples: seq<TickSample>, k: nat, cutoff: nat)
    requires k <= |samples|
    requires forall i :: 0 <= i < k ==> samples[i].wallTs < cutoff
    ensures SumWindow(samples, Some(cutoff)) == SumWindow(samples[k..], Some(cutoff))
  {
    if |samples| != 0 {
      var front := samples[..|samples| - 1];
      if k == |samples| {
        OldSamplesAddNothing(front, k - 1, cutoff);
        assert front[k - 1..] == [] == samples[k..];
      } else {
        OldSamplesAddNothing(front, k, cutoff);
        assert samples[k..][..|samples| - k - 1] == front[k..];
      }
    }
  }

  /**
   For any pushes under a clock that never goes back and any window of at most
   15 minutes, the trimmed history and the full one give the same totals, IOPS
   and CPU per I/O.
   */
  lemma TrimIsInvisible(ps: seq<Push>, tps: Rate, window: nat)
    requires Monotone(ps) && window <= 15 * 60 * 1_000_000_000
    ensures var kept, all := Run(ps, tps).samples, RunUntrimmed(ps, tps).samples;
            && TotalsOver(kept, window) == TotalsOver(all, window)
            && IopsOver(kept, window) == IopsOver(all, window)
            && CpuUsPerIoOver(kept, window) == CpuUsPerIoOver(all, window)
  {
    hide Run, RunUntrimmed, SumWindow;
    var k := RunForgets(ps, tps);
    var all := RunUntrimmed(ps, tps).samples;
    if |all| > 0 {
      var newest := all[|all| - 1].wallTs;
      assert all[k..][|all| - k - 1] == all[|all| - 1];
      if k == 0 {
        assert all[k..] == all;
      } else {
        assert all[0].wallTs + MAX_WINDOW < newest;
        OldSamplesAddNothing(all, k, newest - window);
      }
    }
  }

  ghost predicate Recent(kept: seq<TickSample>) {
    forall i :: 0 <= i < |kept| ==> kept[|kept| - 1].wallTs <= kept[i].wallTs + 15 * 60 * 1_000_000_000
  }

  /** Nothing is retained that is more than 15 minutes older than the newest sample. */
  lemma {:induction false} HistoryIsBounded(ps: seq<Push>, tps: Rate)
    requires Monotone(ps)
    ensures Recent(Run(ps, tps).samples)
  {
    hide Interval, Rebased, Trimmed;
    if |ps| != 0 {
      var front, p := ps[..|ps| - 1], ps[|ps| - 1];
      HistoryIsBounded(front, tps);
      var h := Run(front, tps);
      var k := RunForgets(front, tps);
      IntervalIgnoresSamples(h, RunUntrimmed(front, tps), p, tps);
      BaselineTime(front, tps);
      if Interval(h, p, tps).Some? {
        var sample := Interval(h, p, tps).value;
        RetainedIsRecent(h.samples, sample);
        assert Run(ps, tps).samples == Trimmed(h.samples + [sample], sample.wallTs);
      } else {
        assert Run(ps, tps).samples == h.samples;
      }
    }
  }

  /** What is kept beside a newest sample is at most 15 minutes older. */
  lemma RetainedIsRecent(samples: seq<TickSample>, newest: TickSample)
    requires Ascending(samples)
    requires 0 < |samples| ==> samples[|samples| - 1].wallTs <= newest.wallTs
    ensures var kept := Trimmed(samples + [newest], newest.wallTs);
            0 < |kept| && kept[|kept| - 1] == newest && Recent(kept)
  {
    hide Trimmed, Ascending;
    var grown := samples + [newest];
    AscendingPush(samples, newest);
    var k := TrimmedIsSuffix(grown, newest.wallTs);
    assert grown[|samples|] == newest;
    var kept := grown[k..];
    forall i | 0 <= i < |kept|
      ensures newest.wallTs <= kept[i].wallTs + 15 * 60 * 1_000_000_000
    {
      AscendingAt(grown, k, k + i);
      assert kept[i] == grown[k + i];
    }
  }

  lemma AscendingAt(samples: seq<TickSample>, i: nat, j: nat)
    requires Ascending(samples) && i <= j < |samples|
    ensures samples[i].wallTs <= samples[j].wallTs
  {
  }

  // ---------------------------------------------------------------- what a push appends

  /** The operations counted by the last cumulative push. */
  function LastOps(ps: seq<Push>): Option<nat> {
    if |ps| == 0 then None
    else
      match ps[|ps| - 1]
      case Delta(_, _, _) => LastOps(ps[..|ps| - 1])
      case Procfs(_, io, _) => Some(io)
      case BackendUtil(_, io, _, _) => Some(io)
  }

  /** The ticks counted by the last cumulative push, if it counted any. */
  function LastTicks(ps: seq<Push>): Option<nat> {
    if |ps| == 0 then None
    else
      match ps[|ps| - 1]
      case Delta(_, _, _) => LastTicks(ps[..|ps| - 1])
      case Procfs(_, _, cpu) => Some(cpu)
      case BackendUtil(_, _, _, _) => None
  }

  predicate AtLeast(known: Option<nat>, now: nat) {
    known.Some? && known.value <= now
  }

  /**
   A push appends an interval if and only if it can be measured: there was a
   push before it, the clock did not go back, and each counter it brings was
   known and did not fall. It measures from exactly those readings.
   */
  lemma {:induction false} AppendsExactly(ps: seq<Push>, p: Push, tps: Rate)
    ensures var h := RunUntrimmed(ps, tps);
            && h.previousIoOps == LastOps(ps) && h.previousCpuTicks == LastTicks(ps)
            && h.previousWallTs == (if |ps| == 0 then None else Some(ps[|ps| - 1].now))
            && (Interval(h, p, tps).Some? <==>
                  && 0 < |ps| && ps[|ps| - 1].now <= p.now
                  && (!p.Delta? ==> AtLeast(LastOps(ps), p.ioOps))
                  && (p.Procfs? ==> AtLeast(LastTicks(ps), p.cpuTicks)))
            && (Interval(h, p, tps).Some? ==>
                  var s := Interval(h, p, tps).value;
                  && s.wallTs == p.now && s.wallDt == Min(p.now - ps[|ps| - 1].now, U64_MAX)
                  && s.ioOps == (if p.Delta? then p.ioDelta else p.ioOps - LastOps(ps).value))
  {
    hide TicksToNs, UtilToNs;
    if |ps| != 0 {
      AppendsExactly(ps[..|ps| - 1], ps[|ps| - 1], tps);
    }
  }

  // ---------------------------------------------------------------- telescoping

  /** Counters are cumulative: no precomputed deltas. */
  ghost predicate Cumulative(ps: seq<Push>) {
    forall i :: 0 <= i < |ps| ==> !ps[i].Delta?
  }

  /** After `a`, every push of `b` appends an interval: no baseline reset. */
  ghost predicate NoReset(a: seq<Push>, b: seq<Push>, tps: Rate) {
    forall m :: 0 <= m < |b| ==> Interval(RunUntrimmed(a + b[..m], tps), b[m], tps).Some?
  }

  /** The intervals that the pushes of `b` appended after `a`. */
  function Appended(a: seq<Push>, b: seq<Push>, tps: Rate): seq<TickSample>
    requires |RunUntrimmed(a, tps).samples| <= |RunUntrimmed(a + b, tps).samples|
  {
    RunUntrimmed(a + b, tps).samples[|RunUntrimmed(a, tps).samples|..]
  }

  /** A known baseline: the counter and time of the last cumulative push. */
  ghost predicate BaselineAt(h: History, io: nat, at: nat) {
    h.previousIoOps == Some(io) && h.previousWallTs == Some(at)
  }

  /**
   Without a baseline reset the appended intervals add up to the difference of
   the two baselines around them, in operations and in time.
   */
  lemma {:induction false} IntervalsTelescope(a: seq<Push>, b: seq<Push>, tps: Rate)
    returns (io0: nat, at0: nat, io1: nat, at1: nat)
    requires 0 < |b| && Cumulative(b) && NoReset(a, b, tps)
    ensures BaselineAt(RunUntrimmed(a, tps), io0, at0) && BaselineAt(RunUntrimmed(a + b, tps), io1, at1)
    ensures io0 <= io1 && at0 <= at1
    ensures |RunUntrimmed(a + b, tps).samples| == |RunUntrimmed(a, tps).samples| + |b|
    ensures SumWindow(Appended(a, b, tps), None).ioOps == io1 - io0
    ensures at1 - at0 <= U64_MAX ==> SumWindow(Appended(a, b, tps), None).wallNs == at1 - at0
  {
    hide Interval, Rebased, SumWindow, RunUntrimmed, Appended;
    var c, p := b[..|b| - 1], b[|b| - 1];
    var before := RunUntrimmed(a + c, tps);
    assert (a + b)[..|a + b| - 1] == a + c;
    assert Interval(before, p, tps).Some?;
    var ioC, atC;
    if |c| == 0 {
      assert a + c == a;
      AppendedNothing(a, tps);
      IntervalOfCumulative(before, p, tps);
      ioC, atC := before.previousIoOps.value, before.previousWallTs.value;
      io0, at0 := ioC, atC;
    } else {
      forall m | 0 <= m < |c|
        ensures Interval(RunUntrimmed(a + c[..m], tps), c[m], tps).Some?
      {
        assert c[..m] == b[..m];
      }
      io0, at0, ioC, atC := IntervalsTelescope(a, c, tps);
    }
    io1, at1 := p.ioOps, p.now;
    IntervalOfCumulative(before, p, tps);
    AppendedNext(a, c, p, tps);
    assert c + [p] == b;
  }

  /** A cumulative interval measures from the baseline to the push. */
  lemma IntervalOfCumulative(h: History, p: Push, tps: Rate)
    requires !p.Delta? && Interval(h, p, tps).Some?
    ensures h.previousIoOps.Some? && h.previousWallTs.Some?
    ensures h.previousIoOps.value <= p.ioOps && h.previousWallTs.value <= p.now
    ensures var s := Interval(h, p, tps).value;
            && s.ioOps == p.ioOps - h.previousIoOps.value
            && s.wallDt == Sat64(p.now - h.previousWallTs.value)
            && s.wallTs == p.now
    ensures BaselineAt(Rebased(h, p), p.ioOps, p.now)
  {
  }

  lemma AppendedNothing(a: seq<Push>, tps: Rate)
    ensures a + [] == a && SumWindow(Appended(a, [], tps), None) == Totals(0, 0, 0)
  {
    assert a + [] == a;
  }

  lemma AppendedNext(a: seq<Push>, c: seq<Push>, p: Push, tps: Rate)
    requires |RunUntrimmed(a, tps).samples| <= |RunUntrimmed(a + c, tps).samples|
    requires Interval(RunUntrimmed(a + c, tps), p, tps).Some?
    ensures RunUntrimmed(a + (c + [p]), tps) == ApplyUntrimmed(RunUntrimmed(a + c, tps), p, tps)
    ensures |RunUntrimmed(a, tps).samples| <= |RunUntrimmed(a + (c + [p]), tps).samples|
    ensures Appended(a, c + [p], tps)
         == Appended(a, c, tps) + [Interval(RunUntrimmed(a + c, tps), p, tps).value]
    ensures SumWindow(Appended(a, c + [p], tps), None)
         == Add(SumWindow(Appended(a, c, tps), None), Interval(RunUntrimmed(a + c, tps), p, tps).value)
  {
    hide Interval, Rebased;
    var all := a + (c + [p]);
    assert all[..|all| - 1] == a + c;
    var shorter, longer := Appended(a, c, tps), Appended(a, c + [p], tps);
    assert longer[..|longer| - 1] == shorter;
  }

  lemma {:induction false} AppendedAt(a: seq<Push>, b: seq<Push>, tps: Rate, m: nat)
    requires m < |b| && Cumulative(b) && NoReset(a, b, tps)
    ensures |RunUntrimmed(a + b, tps).samples| == |RunUntrimmed(a, tps).samples| + |b|
    ensures Appended(a, b, tps)[m] == Interval(RunUntrimmed(a + b[..m], tps), b[m], tps).value
  {
    hide RunUntrimmed, Interval, SumWindow, Rebased, ApplyUntrimmed;
    var _, _, _, _ := IntervalsTelescope(a, b, tps);
    var c := b[..|b| - 1];
    assert c + [b[|b| - 1]] == b;
    if |c| == 0 {
      AppendedNothing(a, tps);
      assert b[..m] == [];
    } else {
      forall i | 0 <= i < |c|
        ensures Interval(RunUntrimmed(a + c[..i], tps), c[i], tps).Some?
      {
        assert c[..i] == b[..i];
      }
      var _, _, _, _ := IntervalsTelescope(a, c, tps);
      if m < |c| {
        AppendedAt(a, c, tps, m);
        assert c[..m] == b[..m];
      }
    }
    AppendedNext(a, c, b[|b| - 1], tps);
  }

  /** Between baseline resets each interval starts where the one before it ended. */
  lemma IntervalsContiguous(a: seq<Push>, b: seq<Push>, tps: Rate, m: nat)
    requires 0 < m < |b| && Cumulative(b) && NoReset(a, b, tps)
    ensures |RunUntrimmed(a + b, tps).samples| == |RunUntrimmed(a, tps).samples| + |b|
    ensures var s, t := Appended(a, b, tps)[m - 1], Appended(a, b, tps)[m];
            s.wallTs <= t.wallTs && t.wallDt == Sat64(t.wallTs - s.wallTs)
  {
    hide RunUntrimmed, Interval, SumWindow, Rebased, ApplyUntrimmed, Appended;
    AppendedAt(a, b, tps, m - 1);
    AppendedAt(a, b, tps, m);
    IntervalOfCumulative(RunUntrimmed(a + b[..m - 1], tps), b[m - 1], tps);
    IntervalOfCumulative(RunUntrimmed(a + b[..m], tps), b[m], tps);
    BaselineTime(a + b[..m], tps);
    assert (a + b[..m])[|a + b[..m]| - 1] == b[m - 1];
  }

  /** Intervals are ordered and disjoint: each starts no earlier than the one before it ends. */
  lemma {:induction false} IntervalsDisjoint(ps: seq<Push>, tps: Rate)
    requires Monotone(ps)
    ensures var all := RunUntrimmed(ps, tps).samples;
            && (forall i :: 0 <= i < |all| ==> all[i].wallDt <= all[i].wallTs)
            && (forall i, j :: 0 <= i < j < |all| ==> all[i].wallTs <= all[j].wallTs - all[j].wallDt)
            && (forall i :: 0 <= i < |all| ==> 0 < |ps| && all[i].wallTs <= ps[|ps| - 1].now)
  {
    if |ps| != 0 {
      IntervalsDisjoint(ps[..|ps| - 1], tps);
      BaselineTime(ps[..|ps| - 1], tps);
      hide TicksToNs, UtilToNs;
    }
  }

  /** Samples that lie all inside, or all outside, a window. */
  lemma {:induction false} WindowOfSuffix(samples: seq<TickSample>, k: nat, cutoff: Option<nat>)
    requires k <= |samples|
    requires forall i :: 0 <= i < k ==> !InWindow(samples[i], cutoff)
    requires forall i :: k <= i < |samples| ==> InWindow(samples[i], cutoff)
    ensures SumWindow(samples, cutoff) == SumWindow(samples[k..], None)
  {
    if |samples| != 0 {
      var front := samples[..|samples| - 1];
      if k == |samples| {
        WindowOfSuffix(front, k - 1, cutoff);
        assert front[k - 1..] == [] == samples[k..];
      } else {
        WindowOfSuffix(front, k, cutoff);
        assert samples[k..][..|samples| - k - 1] == front[k..];
      }
    }
  }

  /** A sample is in the window unless it is older than the newest by more. */
  lemma InWindowMeans(s: TickSample, newest: nat, window: nat)
    ensures InWindow(s, CheckedSub(newest, window)) <==> newest <= s.wallTs + window
  {
  }

  /** The window over the history of `a + b` holds exactly the intervals that `b` appended. */
  ghost predicate WindowIs(a: seq<Push>, b: seq<Push>, tps: Rate, window: nat) {
    var all := RunUntrimmed(a + b, tps).samples;
    && 0 < |all|
    && forall i :: 0 <= i < |all| ==>
         (all[|all| - 1].wallTs <= all[i].wallTs + window <==> |RunUntrimmed(a, tps).samples| <= i)
  }

  /** `q` is the floor of `ops` per `ns` nanoseconds as a rate per second, clipped where the exact rate passes a `u64`. */
  predicate FlooredRate(q: nat, ops: nat, ns: nat) {
    if ops * 1_000_000_000 < (U64_MAX + 1) * ns
    then q * ns <= ops * 1_000_000_000 < (q + 1) * ns
    else q == U64_MAX
  }

  lemma FloorMeans(x: nat, d: nat)
    requires 0 < d
    ensures x / d * d <= x < (x / d + 1) * d
  {
    assert x == x / d * d + x % d;
  }

  lemma PerSecondFloors(ops: nat, ns: nat)
    requires 0 < ns
    ensures FlooredRate(PerSecond(ops, ns), ops, ns)
  {
    var x := ops * 1_000_000_000;
    FloorMeans(x, ns);
    var q := x / ns;
    if q <= U64_MAX {
      assert q * ns <= U64_MAX * ns;
      assert (q + 1) * ns <= (U64_MAX + 1) * ns;
    } else {
      assert q * ns >= (U64_MAX + 1) * ns;
    }
  }

  /** Operations in the intervals that end at `from` or later. */
  function OpsSince(samples: seq<TickSample>, from: int): nat {
    if |samples| == 0 then 0
    else
      var last := samples[|samples| - 1];
      OpsSince(samples[..|samples| - 1], from) + if from <= last.wallTs then last.ioOps else 0
  }

  /** CPU nanoseconds in those intervals. */
  function CpuSince(samples: seq<TickSample>, from: int): nat {
    if |samples| == 0 then 0
    else
      var last := samples[|samples| - 1];
      CpuSince(samples[..|samples| - 1], from) + if from <= last.wallTs then last.cpuNs else 0
  }

  /** Elapsed nanoseconds in those intervals. */
  function WallSince(samples: seq<TickSample>, from: int): nat {
    if |samples| == 0 then 0
    else
      var last := samples[|samples| - 1];
      WallSince(samples[..|samples| - 1], from) + if from <= last.wallTs then last.wallDt else 0
  }

  /** The totals over a window are the three sums since its start. */
  lemma {:induction false} TotalsAreSums(samples: seq<TickSample>, newest: nat, window: nat)
    ensures SumWindow(samples, CheckedSub(newest, window))
         == Totals(OpsSince(samples, newest - window), CpuSince(samples, newest - window),
                   WallSince(samples, newest - window))
  {
    if |samples| != 0 {
      TotalsAreSums(samples[..|samples| - 1], newest, window);
      InWindowMeans(samples[|samples| - 1], newest, window);
    }
  }

  /** The figure for CPU time per operation is the floor of the exact quotient, in microseconds. */
  lemma CpuPerIoFloors(samples: seq<TickSample>, window: nat)
    requires 0 < |samples|
    ensures var from := samples[|samples| - 1].wallTs - window;
            var ops, cpu := OpsSince(samples, from), CpuSince(samples, from);
            && (CpuUsPerIoOver(samples, window).None? <==> ops == 0)
            && (0 < ops <= U64_MAX && cpu <= U64_MAX ==>
                  var q := CpuUsPerIoOver(samples, window).value;
                  q * (ops * 1_000) <= cpu < (q + 1) * (ops * 1_000))
  {
    hide SumWindow, OpsSince, CpuSince, WallSince;
    var newest := samples[|samples| - 1].wallTs;
    TotalsAreSums(samples, newest, window);
    var ops, cpu := OpsSince(samples, newest - window), CpuSince(samples, newest - window);
    if 0 < ops <= U64_MAX && cpu <= U64_MAX {
      NestedFloor(cpu, ops, 1_000);
    }
  }

  /** Dividing twice floors like dividing by the product. */
  lemma NestedFloor(x: nat, a: nat, b: nat)
    requires 0 < a && 0 < b
    ensures var q := x / a / b;
            0 <= q && q * (a * b) <= x < (q + 1) * (a * b)
  {
    DivNonNegative(x, a);
    DivNonNegative(x / a, b);
    NestedParts(x, a, b, x / a / b, x / a % b, x % a);
  }

  lemma DivNonNegative(x: nat, d: nat)
    requires 0 < d
    ensures 0 <= x / d && x == x / d * d + x % d
  {
  }

  lemma NestedParts(x: nat, a: nat, b: nat, q: nat, s: nat, r: nat)
    requires s < b && r < a && x == (q * b + s) * a + r
    ensures q * (a * b) <= x < (q + 1) * (a * b)
  {
    MulOrder(s, b - 1, a);
    MulOrder(0, s, a);
    assert (q * b + s) * a == q * (a * b) + s * a;
    assert (b - 1) * a == a * b - a;
    assert (q + 1) * (a * b) == q * (a * b) + a * b;
  }

  lemma MulOrder(x: int, y: int, a: nat)
    requires x <= y
    ensures x * a <= y * a
  {
  }

  /** What a whole number of nanoseconds is taken of `exact`: the part before the point, within a `u64`. */
  predicate Truncated(n: nat, exact: real) {
    if exact <= 0.0 then n == 0
    else if exact < (U64_MAX + 1) as real then n as real <= exact < (n + 1) as real
    else n == U64_MAX
  }

  /** `n` nanoseconds are what `threads` workers spend when each is busy for `share` of `wallDt`. */
  predicate IsBusyTime(n: nat, wallDt: nat, share: real, threads: u32) {
    Truncated(n, wallDt as real * share * threads as real)
  }

  /** The CPU time of an interval: ticks at their rate, or the busy share of all workers over the elapsed time. */
  lemma IntervalCpuTime(h: History, p: Push, tps: Rate)
    requires Interval(h, p, tps).Some?
    ensures p.Procfs? ==>
              h.previousCpuTicks.Some? && h.previousCpuTicks.value <= p.cpuTicks
              && Truncated(Interval(h, p, tps).value.cpuNs,
                           (p.cpuTicks - h.previousCpuTicks.value) as real * 1_000_000_000.0 / tps)
    ensures p.BackendUtil? ==>
              var s := Interval(h, p, tps).value;
              && (0.0 <= p.util <= 1.0 ==> IsBusyTime(s.cpuNs, s.wallDt, p.util, p.threads))
              && (1.0 < p.util ==> IsBusyTime(s.cpuNs, s.wallDt, 1.0, p.threads))
              && (p.util < 0.0 ==> s.cpuNs == 0)
    ensures p.Delta? ==> Interval(h, p, tps).value.cpuNs == p.cpuDelta && Interval(h, p, tps).value.ioOps == p.ioDelta
  {
    hide Interval, Truncated, UtilToNs, TicksToNs, IsBusyTime;
    IntervalCpu(h, p, tps);
    if p.Procfs? {
      TicksTruncate(p.cpuTicks - h.previousCpuTicks.value, tps);
    } else if p.BackendUtil? {
      UtilTruncates(Interval(h, p, tps).value.wallDt, p.util, p.threads);
    }
  }

  lemma IntervalCpu(h: History, p: Push, tps: Rate)
    requires Interval(h, p, tps).Some?
    ensures var s := Interval(h, p, tps).value;
            match p
            case Procfs(_, _, cpu) =>
              h.previousCpuTicks.Some? && h.previousCpuTicks.value <= cpu
              && s.cpuNs == TicksToNs(cpu - h.previousCpuTicks.value, tps)
            case BackendUtil(_, _, util, threads) => s.cpuNs == UtilToNs(s.wallDt, util, threads)
            case Delta(_, io, cpu) => s.ioOps == io && s.cpuNs == cpu
  {
    hide UtilToNs, TicksToNs;
  }

  lemma TicksTruncate(ticks: nat, tps: Rate)
    ensures Truncated(TicksToNs(ticks, tps), ticks as real * 1_000_000_000.0 / tps)
  {
    hide Truncate, Truncated;
    TruncateIs(ticks as real * 1_000_000_000.0 / tps);
  }

  lemma UtilTruncates(dt: nat, util: real, threads: u32)
    ensures 0.0 <= util <= 1.0 ==> IsBusyTime(UtilToNs(dt, util, threads), dt, util, threads)
    ensures 1.0 < util ==> IsBusyTime(UtilToNs(dt, util, threads), dt, 1.0, threads)
    ensures util < 0.0 ==> UtilToNs(dt, util, threads) == 0
  {
    hide ShareToNs, IsBusyTime;
    ShareTruncates(dt, Clamp01(util), threads);
    if util < 0.0 {
      NoShare(UtilToNs(dt, util, threads), dt, threads);
    }
  }

  lemma ShareTruncates(dt: nat, share: real, threads: u32)
    ensures IsBusyTime(ShareToNs(dt, share, threads), dt, share, threads)
  {
    hide Truncate, Truncated;
    TruncateIs(dt as real * share * threads as real);
  }

  lemma NoShare(n: nat, dt: nat, threads: u32)
    requires IsBusyTime(n, dt, 0.0, threads)
    ensures n == 0
  {
    assert dt as real * 0.0 * threads as real == 0.0;
  }

  lemma TruncateIs(x: real)
    ensures Truncated(Truncate(x), x)
  {
    if 0.0 < x {
      var n := x.Floor;
      assert n as real <= x < (n + 1) as real;
    }
  }

  /**
   When no baseline reset falls inside the window and no difference exceeds a
   `u64`, IOPS over the window of the trimmed history is the floored average
   between the oldest and the newest cumulative reading around it.
   */
  lemma IopsIsExactAverage(a: seq<Push>, b: seq<Push>, tps: Rate, window: nat)
    returns (io0: nat, at0: nat, io1: nat, at1: nat)
    requires Monotone(a + b) && window <= 15 * 60 * 1_000_000_000
    requires 0 < |b| && Cumulative(b) && NoReset(a, b, tps) && WindowIs(a, b, tps, window)
    ensures BaselineAt(RunUntrimmed(a, tps), io0, at0) && io1 == b[|b| - 1].ioOps && at1 == b[|b| - 1].now
    ensures io0 <= io1 && at0 <= at1
    ensures io1 - io0 <= U64_MAX && 0 < at1 - at0 <= U64_MAX ==>
              && IopsOver(Run(a + b, tps).samples, window).Some?
              && FlooredRate(IopsOver(Run(a + b, tps).samples, window).value, io1 - io0, at1 - at0)
  {
    hide Interval, Rebased, SumWindow, Run, RunUntrimmed, NoReset, Monotone, InWindow, PerSecond, FlooredRate;
    io0, at0, io1, at1 := IntervalsTelescope(a, b, tps);
    TrimIsInvisible(a + b, tps, window);
    LastBaseline(a, b, tps);
    var all := RunUntrimmed(a + b, tps).samples;
    var k := |RunUntrimmed(a, tps).samples|;
    forall i | 0 <= i < |all|
      ensures InWindow(all[i], CheckedSub(all[|all| - 1].wallTs, window)) <==> k <= i
    {
      InWindowMeans(all[i], all[|all| - 1].wallTs, window);
    }
    WindowOfSuffix(all, k, CheckedSub(all[|all| - 1].wallTs, window));
    if at0 < at1 {
      PerSecondFloors(io1 - io0, at1 - at0);
    }
  }

  lemma LastBaseline(a: seq<Push>, b: seq<Push>, tps: Rate)
    requires 0 < |b| && Cumulative(b)
    ensures BaselineAt(RunUntrimmed(a + b, tps), b[|b| - 1].ioOps, b[|b| - 1].now)
  {
    assert (a + b)[|a + b| - 1] == b[|b| - 1];
  }
}
