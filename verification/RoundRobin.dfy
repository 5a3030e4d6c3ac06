/** Spreading virtqueues over IOThreads (src/backends/qemu/helpers.rs). */
module RoundRobin {
  import opened Common

  datatype VqMapping = VqMapping(iothread: string, vqs: seq<nat>)

  /** The queues below `count` that are congruent to `i` modulo `n`, ascending. */
  function Residues(i: nat, n: nat, count: nat): seq<nat>
    requires 0 < n
  {
    if count == 0 then []
    else Residues(i, n, count - 1) + if (count - 1) % n == i then [count - 1] else []
  }

  /** Entry `i` names the `i`-th thread and holds the queues congruent to `i`. */
  function RoundRobinOf(ids: seq<string>, count: nat): seq<VqMapping> {
    if |ids| == 0 || count == 0 then []
    else Dealt(ids, count)
  }

  function Dealt(ids: seq<string>, count: nat): seq<VqMapping>
    requires 0 < |ids|
  {
    seq(|ids|, i requires 0 <= i < |ids| => VqMapping(ids[i], Residues(i, |ids|, count)))
  }

  /** Deal the queues out one by one; the result is `RoundRobinOf`. */
  method RoundRobinVqMapping(ids: seq<string>, vqCount: nat) returns (mapping: seq<VqMapping>)
    ensures mapping == RoundRobinOf(ids, vqCount)
  {
    if |ids| == 0 || vqCount == 0 {
      return [];
    }
    hide Residues;
    NothingDealt(ids);
    mapping := seq(|ids|, i requires 0 <= i < |ids| => VqMapping(ids[i], []));
    for vq := 0 to vqCount
      invariant mapping == Dealt(ids, vq)
    {
      var idx := vq % |ids|;
      DealtNext(ids, vq);
      mapping := mapping[idx := mapping[idx].(vqs := mapping[idx].vqs + [vq])];
    }
  }

  lemma NothingDealt(ids: seq<string>)
    requires 0 < |ids|
    ensures Dealt(ids, 0) == seq(|ids|, i requires 0 <= i < |ids| => VqMapping(ids[i], []))
  {
  }

  lemma DealtNext(ids: seq<string>, vq: nat)
    requires 0 < |ids|
    ensures var idx := vq % |ids|;
            var mapping := Dealt(ids, vq);
            Dealt(ids, vq + 1) == mapping[idx := mapping[idx].(vqs := mapping[idx].vqs + [vq])]
  {
    var idx := vq % |ids|;
    var mapping := Dealt(ids, vq);
    var next := mapping[idx := mapping[idx].(vqs := mapping[idx].vqs + [vq])];
    forall i | 0 <= i < |ids|
      ensures Dealt(ids, vq + 1)[i] == next[i]
    {
      assert Residues(i, |ids|, vq + 1) == Residues(i, |ids|, vq) + if i == idx then [vq] else [];
    }
  }

  predicate Lists(m: VqMapping, q: nat) {
    q in m.vqs
  }

  ghost predicate Listed(mapping: seq<VqMapping>, q: nat) {
    exists i :: 0 <= i < |mapping| && Lists(mapping[i], q)
  }

  ghost predicate NoDuplicates(s: seq<nat>) {
    forall k, l :: 0 <= k < l < |s| ==> s[k] != s[l]
  }

  /** Every queue below `count`, and nothing else, is listed, in one entry and once in it. */
  ghost predicate AssignsEachOnce(mapping: seq<VqMapping>, count: nat) {
    && (forall q: nat :: Listed(mapping, q) <==> q < count)
    && (forall i, j, q: nat {:trigger Lists(mapping[i], q), Lists(mapping[j], q)} ::
          0 <= i < |mapping| && 0 <= j < |mapping| && Lists(mapping[i], q) && Lists(mapping[j], q) ==> i == j)
    && (forall i :: 0 <= i < |mapping| ==> NoDuplicates(mapping[i].vqs))
  }

  lemma {:induction false} ResiduesExact(i: nat, n: nat, count: nat, q: nat)
    requires i < n
    ensures q in Residues(i, n, count) <==> q < count && q % n == i
  {
    if count != 0 {
      ResiduesExact(i, n, count - 1, q);
    }
  }

  lemma {:induction false} ResiduesAscend(i: nat, n: nat, count: nat, k: nat, l: nat)
    requires i < n && k < l < |Residues(i, n, count)|
    ensures Residues(i, n, count)[k] < Residues(i, n, count)[l]
  {
    var shorter := Residues(i, n, count - 1);
    if l < |shorter| {
      ResiduesAscend(i, n, count - 1, k, l);
    } else {
      ResiduesExact(i, n, count - 1, shorter[k]);
    }
  }

  lemma {:induction false} ResiduesSize(i: nat, n: nat, count: nat)
    requires i < n
    ensures |Residues(i, n, count)| == count / n + if i < count % n then 1 else 0
  {
    if count == 0 {
      DivUnique(0, n, 0, 0);
    } else {
      ResiduesSize(i, n, count - 1);
      NextResidue(count - 1, n);
    }
  }

  lemma NextResidue(c: nat, n: nat)
    requires 0 < n
    ensures c % n == n - 1 ==> (c + 1) / n == c / n + 1 && (c + 1) % n == 0
    ensures c % n != n - 1 ==> (c + 1) / n == c / n && (c + 1) % n == c % n + 1
  {
    if c % n == n - 1 {
      assert (c / n + 1) * n == c / n * n + n;
      DivUnique(c + 1, n, c / n + 1, 0);
    } else {
      DivUnique(c + 1, n, c / n, c % n + 1);
    }
  }

  /** Entry `i` of the mapping names thread `i` and lists, in ascending order, the queues congruent to `i`. */
  lemma RoundRobinEntry(ids: seq<string>, count: nat, i: nat)
    requires i < |ids| && 0 < count
    ensures |RoundRobinOf(ids, count)| == |ids|
    ensures var entry := RoundRobinOf(ids, count)[i];
            && entry.iothread == ids[i]
            && (forall q: nat :: Lists(entry, q) <==> q < count && q % |ids| == i)
            && (forall k, l :: 0 <= k < l < |entry.vqs| ==> entry.vqs[k] < entry.vqs[l])
  {
    hide Residues;
    var entry := RoundRobinOf(ids, count)[i];
    forall q: nat
      ensures Lists(entry, q) <==> q < count && q % |ids| == i
    {
      ResiduesExact(i, |ids|, count, q);
    }
    forall k, l | 0 <= k < l < |entry.vqs|
      ensures entry.vqs[k] < entry.vqs[l]
    {
      ResiduesAscend(i, |ids|, count, k, l);
    }
  }

  /** For any threads and any queues the mapping is a partition of the queues. */
  lemma RoundRobinPartitions(ids: seq<string>, count: nat)
    requires 0 < |ids|
    ensures AssignsEachOnce(RoundRobinOf(ids, count), count)
  {
    var mapping := RoundRobinOf(ids, count);
    if 0 < count {
      forall i | 0 <= i < |ids|
        ensures mapping[i].iothread == ids[i]
        ensures forall q: nat :: Lists(mapping[i], q) <==> q < count && q % |ids| == i
        ensures NoDuplicates(mapping[i].vqs)
      {
        RoundRobinEntry(ids, count, i);
      }
      forall q: nat
        ensures Listed(mapping, q) <==> q < count
      {
        assert q < count ==> Lists(mapping[q % |ids|], q);
      }
    }
  }

  /** List sizes differ by at most one, the larger lists first. */
  lemma RoundRobinBalanced(ids: seq<string>, count: nat, i: nat, j: nat)
    requires i <= j < |ids| && 0 < count
    ensures var mapping := RoundRobinOf(ids, count);
            |mapping[i].vqs| - 1 <= |mapping[j].vqs| <= |mapping[i].vqs|
  {
    ResiduesSize(i, |ids|, count);
    ResiduesSize(j, |ids|, count);
  }
}
