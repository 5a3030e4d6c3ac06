/**
 The QEMU resize protocol (src/backends/qemu/client.rs): one IOThread at a
 time, with object-add, set-mapping and object-del, each of which may fail.
 */
module QemuClient {
  import opened Common
  import opened RoundRobin
  import opened IothreadIds

  // ---------------------------------------------------------------- sorting ids

  /** The order of Rust's `String`: by code, a prefix first. */
  predicate IdLeq(a: string, b: string) {
    if |a| == 0 then true
    else if |b| == 0 then false
    else if a[0] == b[0] then IdLeq(a[1..], b[1..])
    else a[0] < b[0]
  }

  ghost predicate Sorted(s: seq<string>) {
    forall i, j :: 0 <= i < j < |s| ==> IdLeq(s[i], s[j])
  }

  lemma {:induction false} IdLeqTotal(a: string, b: string)
    ensures IdLeq(a, b) || IdLeq(b, a)
  {
    if |a| != 0 && |b| != 0 {
      IdLeqTotal(a[1..], b[1..]);
    }
  }

  lemma {:induction false} IdLeqTransitive(a: string, b: string, c: string)
    requires IdLeq(a, b) && IdLeq(b, c)
    ensures IdLeq(a, c)
  {
    if |a| != 0 && |b| != 0 && |c| != 0 && a[0] == b[0] == c[0] {
      IdLeqTransitive(a[1..], b[1..], c[1..]);
    }
  }

  /** That order: `a` is a prefix of `b`, or smaller at the first place where they differ. */
  lemma {:induction false} IdLeqIsLexicographic(a: string, b: string)
    ensures IdLeq(a, b) <==>
              exists k :: 0 <= k <= |a| && k <= |b| && AgreeUpTo(a, b, k) && (k == |a| || (k < |b| && a[k] < b[k]))
  {
    if |a| != 0 && |b| != 0 && a[0] == b[0] {
      IdLeqIsLexicographic(a[1..], b[1..]);
      if k :| 0 <= k <= |a| && k <= |b| && AgreeUpTo(a, b, k) && (k == |a| || (k < |b| && a[k] < b[k])) {
        assert k != 0;
        assert AgreeUpTo(a[1..], b[1..], k - 1);
      }
      if k :| 0 <= k <= |a[1..]| && k <= |b[1..]| && AgreeUpTo(a[1..], b[1..], k)
              && (k == |a[1..]| || (k < |b[1..]| && a[1..][k] < b[1..][k])) {
        assert AgreeUpTo(a, b, k + 1) by {
          assert forall i :: 0 <= i < k ==> a[i + 1] == a[1..][i] && b[i + 1] == b[1..][i];
        }
      }
    } else if |a| == 0 || |b| != 0 {
      assert AgreeUpTo(a, b, 0);
    }
  }

  predicate AgreeUpTo(a: string, b: string, k: nat)
    requires k <= |a| && k <= |b|
  {
    forall i :: 0 <= i < k ==> a[i] == b[i]
  }

  /** Put `id` into a list at its place. */
  function Insert(s: seq<string>, id: string): seq<string> {
    if |s| == 0 || IdLeq(id, s[0]) then [id] + s else [s[0]] + Insert(s[1..], id)
  }

  function SortIds(s: seq<string>): seq<string> {
    if |s| == 0 then [] else Insert(SortIds(s[1..]), s[0])
  }

  lemma {:induction false} InsertKeeps(s: seq<string>, id: string)
    ensures multiset(Insert(s, id)) == multiset(s) + multiset{id}
    ensures |Insert(s, id)| == |s| + 1
  {
    if |s| == 0 || IdLeq(id, s[0]) {
    } else {
      InsertKeeps(s[1..], id);
      assert s == [s[0]] + s[1..];
    }
  }

  lemma {:induction false} InsertSorts(s: seq<string>, id: string)
    requires Sorted(s)
    ensures Sorted(Insert(s, id))
  {
    if |s| == 0 {
    } else if IdLeq(id, s[0]) {
      forall j | 0 <= j < |s|
        ensures IdLeq(id, s[j])
      {
        if 0 < j {
          IdLeqTransitive(id, s[0], s[j]);
        }
      }
    } else {
      IdLeqTotal(id, s[0]);
      InsertSorts(s[1..], id);
      InsertKeeps(s[1..], id);
      var rest := Insert(s[1..], id);
      forall j | 0 <= j < |rest|
        ensures IdLeq(s[0], rest[j])
      {
        assert rest[j] in multiset(rest);
        if rest[j] != id {
          assert rest[j] in s[1..];
        }
      }
    }
  }

  /** `sort` permutes and sorts. */
  lemma {:induction false} SortIdsSorts(s: seq<string>)
    ensures Sorted(SortIds(s)) && multiset(SortIds(s)) == multiset(s) && |SortIds(s)| == |s|
  {
    if |s| != 0 {
      SortIdsSorts(s[1..]);
      InsertSorts(SortIds(s[1..]), s[0]);
      InsertKeeps(SortIds(s[1..]), s[0]);
      assert s == [s[0]] + s[1..];
    }
  }

  lemma DistinctMultiset(s: seq<string>, t: seq<string>)
    requires Distinct(s) && multiset(s) == multiset(t) && |s| == |t|
    ensures Distinct(t)
    ensures Elements(s) == Elements(t)
  {
    forall i, j | 0 <= i < j < |t|
      ensures t[i] != t[j]
    {
      if t[i] == t[j] {
        TwiceInMultiset(t, i, j);
        OnceInMultiset(s, t[i]);
        assert false;
      }
    }
    forall x
      ensures x in Elements(s) <==> x in Elements(t)
    {
      assert x in s <==> x in multiset(s);
      assert x in t <==> x in multiset(t);
    }
  }

  lemma TwiceInMultiset(t: seq<string>, i: nat, j: nat)
    requires i < j < |t| && t[i] == t[j]
    ensures multiset(t)[t[i]] >= 2
  {
    assert t == t[..j] + [t[j]] + t[j + 1..];
    assert t[i] in t[..j];
  }

  lemma {:induction false} OnceInMultiset(s: seq<string>, x: string)
    requires Distinct(s)
    ensures multiset(s)[x] <= 1
  {
    if |s| != 0 {
      OnceInMultiset(s[1..], x);
      assert s == [s[0]] + s[1..];
      if x == s[0] {
        assert x !in s[1..];
      }
    }
  }

  // ---------------------------------------------------------------- the VM

  /** IOThread objects of a VM and the queue mapping of its device. */
  datatype Device = Device(objects: set<string>, mapping: seq<VqMapping>)

  /** The mapping names only existing IOThreads and assigns each queue once. */
  ghost predicate Safe(d: Device, vqCount: nat) {
    && (forall i :: 0 <= i < |d.mapping| ==> d.mapping[i].iothread in d.objects)
    && AssignsEachOnce(d.mapping, vqCount)
  }

  /** The managed IOThreads of a VM. */
  function ManagedOf(objects: set<string>): set<string> {
    set id | id in objects && IsManaged(id)
  }

  /**
   The monitor of one VM. A call fails without effect as often as `faults`
   says; otherwise it does what it is told, however unsafe, except that no two
   objects have one id. `trace` records the device after every call.
   */
  class QemuMonitor {
    var objects: set<string>
    var mapping: seq<VqMapping>
    const faults: nat -> bool
    var calls: nat
    ghost var trace: seq<Device>

    ghost function View(): Device
      reads this
    {
      Device(objects, mapping)
    }

    constructor (objects: set<string>, mapping: seq<VqMapping>, faults: nat -> bool)
      ensures View() == Device(objects, mapping) && trace == [] && this.faults == faults
    {
      this.objects, this.mapping, this.faults := objects, mapping, faults;
      calls, trace := 0, [];
    }

    /** `object-add`. */
    method AddIoThread(id: string) returns (ok: bool)
      modifies this
      ensures ok == (!faults(old(calls)) && id !in old(objects)) && calls == old(calls) + 1
      ensures View() == if ok then old(View()).(objects := old(objects) + {id}) else old(View())
      ensures trace == old(trace) + [View()]
    {
      ok := !faults(calls) && id !in objects;
      calls := calls + 1;
      if ok {
        objects := objects + {id};
      }
      trace := trace + [View()];
    }

    /** `object-del`. */
    method DelIoThread(id: string) returns (ok: bool)
      modifies this
      ensures ok == !faults(old(calls)) && calls == old(calls) + 1
      ensures View() == if ok then old(View()).(objects := old(objects) - {id}) else old(View())
      ensures trace == old(trace) + [View()]
    {
      ok := !faults(calls);
      calls := calls + 1;
      if ok {
        objects := objects - {id};
      }
      trace := trace + [View()];
    }

    /** Replace the device's mapping; an empty one is refused before it is sent. */
    method SetVqMapping(newMapping: seq<VqMapping>) returns (ok: bool)
      modifies this
      ensures ok == (newMapping != [] && !faults(old(calls)))
      ensures View() == if ok then old(View()).(mapping := newMapping) else old(View())
      ensures trace == old(trace) + [View()]
    {
      if newMapping == [] {
        ok := false;
      } else {
        ok := !faults(calls);
        calls := calls + 1;
        if ok {
          mapping := newMapping;
        }
      }
      trace := trace + [View()];
    }
  }

  // ---------------------------------------------------------------- the client

  /** The cache lists threads that exist, each once. */
  ghost predicate Tracks(d: Device, cache: seq<string>) {
    Distinct(cache) && forall id :: id in cache ==> id in d.objects
  }

  /** The mapping is still the one of `start`, and no thread that existed then is missing. */
  ghost predicate Untouched(start: Device, d: Device) {
    d.mapping == start.mapping && start.objects <= d.objects
  }

  /** After each of these calls the device was safe, or still as `start` left it. */
  ghost predicate NeverWorse(start: Device, calls: seq<Device>, vqCount: nat) {
    forall d :: d in calls ==> Safe(d, vqCount) || Untouched(start, d)
  }

  ghost predicate AllSafe(calls: seq<Device>, vqCount: nat) {
    forall d :: d in calls ==> Safe(d, vqCount)
  }

  /** What was safe stays safe. */
  lemma SafeThroughout(start: Device, calls: seq<Device>, vqCount: nat)
    requires Safe(start, vqCount) && NeverWorse(start, calls, vqCount)
    ensures AllSafe(calls, vqCount)
  {
    forall d | d in calls
      ensures Safe(d, vqCount)
    {
      if Untouched(start, d) {
        UntouchedStaysSafe(start, d, vqCount);
      }
    }
  }

  /** A step from the start, or from a safe device, makes nothing worse. */
  lemma NeverWorseStep(start: Device, trace: seq<Device>, from: nat, before: Device, longer: seq<Device>, vqCount: nat)
    requires from <= |trace| && trace <= longer
    requires NeverWorse(start, trace[from..], vqCount) && (before == start || Safe(before, vqCount))
    requires NeverWorse(before, longer[|trace|..], vqCount)
    ensures NeverWorse(start, longer[from..], vqCount)
  {
    hide Safe;
    if Safe(before, vqCount) {
      SafeThroughout(before, longer[|trace|..], vqCount);
    }
    assert longer[from..] == trace[from..] + longer[|trace|..];
  }

  lemma UntouchedStaysSafe(start: Device, d: Device, vqCount: nat)
    requires Safe(start, vqCount) && Untouched(start, d)
    ensures Safe(d, vqCount)
  {
  }

  /** The cache is the sorted list of the VM's managed IOThreads. */
  ghost predicate Agrees(d: Device, cache: seq<string>) {
    Sorted(cache) && Distinct(cache) && Elements(cache) == ManagedOf(d.objects)
  }

  /** With fewer than 1024 threads, all of them cached, the next id is accepted: no object has it. */
  lemma NextIdAccepted(d: Device, cache: seq<string>, extra: nat)
    requires Agrees(d, cache) && |cache| < 1024
    ensures NextId(cache, extra) !in d.objects && IsManaged(NextId(cache, extra))
  {
    FreeBelowLimit(cache);
    LowestFreeMeaning(cache, 0);
    var n := LowestFree(cache, 0).value;
    NamesManaged(n);
    assert IotName(n) !in Elements(cache);
  }

  /** A mapping dealt over existing threads is safe. */
  lemma DealtIsSafe(d: Device, ids: seq<string>, vqCount: nat)
    requires 0 < |ids| && 0 < vqCount
    requires forall id :: id in ids ==> id in d.objects
    requires d.mapping == RoundRobinOf(ids, vqCount)
    ensures Safe(d, vqCount)
    ensures forall i :: 0 <= i < |d.mapping| ==> d.mapping[i].iothread in ids
  {
    RoundRobinPartitions(ids, vqCount);
    forall i | 0 <= i < |d.mapping|
      ensures d.mapping[i].iothread in ids
    {
      RoundRobinEntry(ids, vqCount, i);
    }
  }

  lemma PushSorted(cache: seq<string>, id: string)
    requires Distinct(cache) && id !in cache
    ensures var grown := SortIds(cache + [id]);
            && Sorted(grown) && Distinct(grown) && |grown| == |cache| + 1
            && Elements(grown) == Elements(cache) + {id}
  {
    var pushed := cache + [id];
    SortIdsSorts(pushed);
    DistinctMultiset(pushed, SortIds(pushed));
    assert Elements(pushed) == Elements(cache) + {id};
  }

  /** The client of one VM: the threads it believes in, and the monitor it drives. */
  class QemuInstanceClient {
    const monitor: QemuMonitor
    const vqCount: nat
    var iothreads: seq<string>
    var extra: nat

    ghost predicate Valid()
      reads this, monitor
    {
      Tracks(monitor.View(), iothreads)
    }

    constructor (monitor: QemuMonitor, iothreads: seq<string>, vqCount: nat, extra: nat)
      ensures this.monitor == monitor && this.iothreads == iothreads && this.vqCount == vqCount && this.extra == extra
    {
      this.monitor, this.iothreads, this.vqCount, this.extra := monitor, iothreads, vqCount, extra;
    }

    /** The monitor failed the last call by itself. */
    ghost predicate LastCallFailed()
      reads monitor
    {
      0 < monitor.calls && monitor.faults(monitor.calls - 1)
    }

    /** Nothing fails by itself, and there are queues to deal. */
    ghost predicate Faultless() {
      0 < vqCount && forall k :: !monitor.faults(k)
    }

    /**
     One thread more: add, remap, and delete again if the remap fails. A failure
     leaves the thread behind only if its deletion, the last call, failed too.
     */
    method ScaleUp() returns (ok: bool)
      requires Valid()
      modifies this, monitor
      ensures Valid() && old(monitor.trace) <= monitor.trace
      ensures NeverWorse(old(monitor.View()), monitor.trace[|old(monitor.trace)|..], vqCount)
      ensures if ok then Safe(monitor.View(), vqCount) else Untouched(old(monitor.View()), monitor.View())
      ensures Faultless() && NextId(old(iothreads), old(extra)) !in old(monitor.objects) ==> ok
      ensures var id := NextId(old(iothreads), old(extra));
              && (ok ==>
                    && id !in old(monitor.objects)
                    && iothreads == SortIds(old(iothreads) + [id])
                    && monitor.objects == old(monitor.objects) + {id}
                    && monitor.mapping == RoundRobinOf(iothreads, vqCount))
              && (!ok ==>
                    && iothreads == old(iothreads)
                    && (|| monitor.objects == old(monitor.objects)
                        || (monitor.objects == old(monitor.objects) + {id} && LastCallFailed())))
    {
      hide Safe, RoundRobinOf, NextId, LowestFree, SortIds;
      var newId;
      newId, extra := NextQemuIothreadId(iothreads, extra);
      ok := monitor.AddIoThread(newId);
      if !ok {
        return;
      }
      var newSet := SortIds(iothreads + [newId]);
      PushSorted(iothreads, newId);
      var mapping := RoundRobinVqMapping(newSet, vqCount);
      MappedOverThreads(newSet, vqCount);
      ok := monitor.SetVqMapping(mapping);
      if !ok {
        var _ := monitor.DelIoThread(newId);
        return;
      }
      DealtIsSafe(monitor.View(), newSet, vqCount);
      iothreads := newSet;
    }

    /** One thread less: remap first, so that the deleted one carries nothing. */
    method ScaleDown() returns (ok: bool)
      requires Valid()
      modifies this`iothreads, monitor
      ensures Valid() && old(monitor.trace) <= monitor.trace
      ensures NeverWorse(old(monitor.View()), monitor.trace[|old(monitor.trace)|..], vqCount)
      ensures Safe(monitor.View(), vqCount) || (!ok && monitor.View() == old(monitor.View()))
      ensures Faultless() && 1 < |old(iothreads)| ==> ok
      ensures ok ==>
                && 1 < |old(iothreads)|
                && iothreads == old(iothreads)[..|old(iothreads)| - 1]
                && monitor.objects == old(monitor.objects) - {old(iothreads)[|old(iothreads)| - 1]}
                && monitor.mapping == RoundRobinOf(iothreads, vqCount)
      ensures !ok ==> iothreads == old(iothreads) && monitor.objects == old(monitor.objects)
    {
      hide Safe, RoundRobinOf;
      if |iothreads| <= 1 {
        return false;
      }
      var doomed := iothreads[|iothreads| - 1];
      var remaining := iothreads[..|iothreads| - 1];
      var mapping := RoundRobinVqMapping(remaining, vqCount);
      MappedOverThreads(remaining, vqCount);
      ok := monitor.SetVqMapping(mapping);
      if !ok {
        return;
      }
      DealtIsSafe(monitor.View(), remaining, vqCount);
      ok := monitor.DelIoThread(doomed);
      DealtIsSafe(monitor.View(), remaining, vqCount);
      if !ok {
        return;
      }
      iothreads := remaining;
    }

    /**
     Walk the pool to `target`, one IOThread at a time. Whatever fails, the
     device is safe after every call from the first remap on, and before it no
     thread is missing that was there; so a device that was safe is safe after
     every call. A cache that agreed with the VM ends at the target, or on an
     error leaves the VM between the two counts and still agrees, unless a
     rollback failed on the way up; without faults there is no error.
     */
    method SetThreadCount(target: nat) returns (ok: bool)
      requires Valid()
      modifies this, monitor
      ensures Valid() && old(monitor.trace) <= monitor.trace
      ensures NeverWorse(old(monitor.View()), monitor.trace[|old(monitor.trace)|..], vqCount)
      ensures old(Safe(monitor.View(), vqCount)) ==>
                Safe(monitor.View(), vqCount) && AllSafe(monitor.trace[|old(monitor.trace)|..], vqCount)
      ensures ok ==> |iothreads| == target
      ensures ok ==> |old(iothreads)| == target
                     || (monitor.mapping == RoundRobinOf(iothreads, vqCount) && Safe(monitor.View(), vqCount))
      ensures old(Agrees(monitor.View(), iothreads)) && (target <= 1024 || target <= |old(iothreads)|) ==>
                && (ok ==> Agrees(monitor.View(), iothreads) && ManagedCount(monitor.objects) == target)
                && (!ok ==> Between(ManagedCount(old(monitor.objects)), ManagedCount(monitor.objects), target))
                && (!ok && !Agrees(monitor.View(), iothreads) ==> |old(iothreads)| < target && LastCallFailed())
                && monitor.objects - ManagedOf(monitor.objects)
                   == old(monitor.objects) - ManagedOf(old(monitor.objects))
                && (Faultless() && 0 < target ==> ok)
    {
      hide Safe, RoundRobinOf, NextId, LowestFree, SortIds, Agrees, ManagedCount, ManagedOf, NeverWorse, AllSafe;
      hide Untouched;
      ghost var device, from := monitor.View(), |monitor.trace|;
      ghost var agreed := Agrees(monitor.View(), iothreads) && (target <= 1024 || target <= |iothreads|);
      AgreedCount(device, iothreads);
      NothingCalled(device, monitor.trace, vqCount);
      while true
        invariant Valid() && old(monitor.trace) <= monitor.trace
        invariant NeverWorse(device, monitor.trace[from..], vqCount)
        invariant if iothreads == old(iothreads) then monitor.View() == device else Safe(monitor.View(), vqCount)
        invariant |old(iothreads)| <= |iothreads| <= Max(|old(iothreads)|, target)
        invariant iothreads == old(iothreads) || monitor.mapping == RoundRobinOf(iothreads, vqCount)
        invariant agreed ==> Agrees(monitor.View(), iothreads) && SameUnmanaged(device.objects, monitor.objects)
        decreases target - |iothreads|
      {
        var cur := |iothreads|;
        if cur >= target {
          break;
        }
        ghost var before, cached, extraBefore, trace := monitor.View(), iothreads, extra, monitor.trace;
        if agreed {
          NextIdAccepted(before, cached, extraBefore);
        }
        var stepped := ScaleUp();
        NeverWorseStep(device, trace, from, before, monitor.trace, vqCount);
        GrownLength(cached, NextId(cached, extraBefore));
        if agreed {
          GrowKeepsAgreement(before, cached, extraBefore, monitor.View(), iothreads, stepped);
        }
        if !stepped {
          if agreed && monitor.objects == before.objects {
            SameObjectsAgree(before, monitor.View(), iothreads);
          }
          SafeAtEnd(device, before, monitor.View(), monitor.trace[from..], vqCount);
          return false;
        }
        if |iothreads| == cur {
          break;
        }
      }
      while true
        invariant Valid() && old(monitor.trace) <= monitor.trace
        invariant NeverWorse(device, monitor.trace[from..], vqCount)
        invariant if iothreads == old(iothreads) then monitor.View() == device else Safe(monitor.View(), vqCount)
        invariant |iothreads| >= target
        invariant |iothreads| <= Max(|old(iothreads)|, target)
        invariant iothreads == old(iothreads) || monitor.mapping == RoundRobinOf(iothreads, vqCount)
        invariant agreed ==> Agrees(monitor.View(), iothreads) && SameUnmanaged(device.objects, monitor.objects)
        decreases |iothreads|
      {
        var cur := |iothreads|;
        if cur <= target {
          break;
        }
        ghost var before, cached, trace := monitor.View(), iothreads, monitor.trace;
        var stepped := ScaleDown();
        NeverWorseStep(device, trace, from, before, monitor.trace, vqCount);
        AgreedCount(before, cached);
        if agreed && stepped {
          ShrinkKeepsAgreement(before, cached, monitor.View(), iothreads);
        }
        if !stepped {
          if agreed {
            SameObjectsAgree(before, monitor.View(), iothreads);
          }
          if !Safe(monitor.View(), vqCount) {
            SameIsUntouched(before);
          }
          SafeAtEnd(device, before, monitor.View(), monitor.trace[from..], vqCount);
          return false;
        }
        if |iothreads| == cur {
          break;
        }
      }
      AgreedCount(monitor.View(), iothreads);
      if Safe(device, vqCount) {
        SafeThroughout(device, monitor.trace[from..], vqCount);
      }
      return true;
    }
  }

  lemma SameObjectsAgree(d: Device, after: Device, cache: seq<string>)
    requires Agrees(d, cache) && d.objects == after.objects
    ensures Agrees(after, cache)
  {
  }

  lemma NothingCalled(start: Device, trace: seq<Device>, vqCount: nat)
    ensures NeverWorse(start, trace[|trace|..], vqCount)
  {
  }

  lemma SameIsUntouched(d: Device)
    ensures Untouched(d, d)
  {
  }

  /** A failed step leaves a device safe that was safe at the start. */
  lemma SafeAtEnd(start: Device, before: Device, after: Device, calls: seq<Device>, vqCount: nat)
    requires before == start || Safe(before, vqCount)
    requires Safe(after, vqCount) || Untouched(before, after)
    requires NeverWorse(start, calls, vqCount)
    ensures Safe(start, vqCount) ==> Safe(after, vqCount) && AllSafe(calls, vqCount)
  {
    hide Safe, Untouched, NeverWorse, AllSafe;
    if Safe(start, vqCount) {
      SafeThroughout(start, calls, vqCount);
      if !Safe(after, vqCount) {
        UntouchedStaysSafe(before, after, vqCount);
      }
    }
  }

  // ---------------------------------------------------------------- agreement of cache and VM

  /** The number of managed IOThreads of a VM. */
  function ManagedCount(objects: set<string>): nat {
    |ManagedOf(objects)|
  }

  predicate SameUnmanaged(before: set<string>, after: set<string>) {
    after - ManagedOf(after) == before - ManagedOf(before)
  }

  lemma AgreedCount(d: Device, cache: seq<string>)
    ensures Agrees(d, cache) ==> ManagedCount(d.objects) == |cache|
  {
    if Agrees(d, cache) {
      DistinctCount(cache);
    }
  }

  lemma GrownLength(cache: seq<string>, id: string)
    ensures |SortIds(cache + [id])| == |cache| + 1
  {
    SortIdsSorts(cache + [id]);
  }

  /** What one step up does to a VM that agreed with the cache. */
  lemma GrowKeepsAgreement(d: Device, cache: seq<string>, extra: nat, after: Device, cacheAfter: seq<string>, ok: bool)
    requires Agrees(d, cache) && |cache| < 1024
    requires var id := NextId(cache, extra);
             && (ok ==> cacheAfter == SortIds(cache + [id]) && after.objects == d.objects + {id})
             && (!ok ==> d.objects <= after.objects <= d.objects + {id})
    ensures SameUnmanaged(d.objects, after.objects)
    ensures ok ==> Agrees(after, cacheAfter)
    ensures !ok ==> |cache| <= ManagedCount(after.objects) <= |cache| + 1
  {
    hide SortIds;
    var id := NextId(cache, extra);
    FreeBelowLimit(cache);
    LowestFreeMeaning(cache, 0);
    NamesManaged(LowestFree(cache, 0).value);
    assert id !in cache && IsManaged(id);
    assert id !in Elements(cache);
    assert id !in d.objects;
    PushSorted(cache, id);
    DistinctCount(cache);
    assert ManagedOf(d.objects + {id}) == ManagedOf(d.objects) + {id};
    assert after.objects == d.objects || after.objects == d.objects + {id};
  }

  lemma ShrinkKeepsAgreement(d: Device, cache: seq<string>, after: Device, cacheAfter: seq<string>)
    requires Agrees(d, cache) && 1 < |cache|
    requires cacheAfter == cache[..|cache| - 1]
    requires after.objects == d.objects - {cache[|cache| - 1]}
    ensures SameUnmanaged(d.objects, after.objects) && Agrees(after, cacheAfter)
  {
    var doomed := cache[|cache| - 1];
    assert cache == cacheAfter + [doomed];
    assert doomed in Elements(cache);
    assert Elements(cacheAfter) == Elements(cache) - {doomed};
    assert ManagedOf(after.objects) == ManagedOf(d.objects) - {doomed};
  }

  /** A mapping worth sending has queues to deal and threads to deal them to. */
  lemma MappedOverThreads(ids: seq<string>, vqCount: nat)
    ensures RoundRobinOf(ids, vqCount) != [] <==> 0 < |ids| && 0 < vqCount
  {
  }
}
