// The snapshot worker's passes over the registered metrics: processing one
// shard into the accumulator, merging a list of shards (the ones the worker
// may take over), and resetting the accumulator after a report. Each pass is
// a function on array contents, and the worker's loops are methods proved
// equal to it.
module SnapshotMerge {
  import opened Metrics
  import opened MetricDataInstances

  /** Every metric is well formed and its slots lie below `n`. */
  predicate Fits(ms: seq<Metric>, n: nat)
  {
    forall k :: 0 <= k < |ms| ==> ms[k].WellFormed() && ms[k].MaxIndex() < n
  }

  /** No slot belongs to two of the metrics. */
  ghost predicate Disjoint(ms: seq<Metric>)
  {
    forall j, k, x :: 0 <= j < k < |ms| ==> !(ms[j].IsSlot(x) && ms[k].IsSlot(x))
  }

  lemma FitsPrefix(ms: seq<Metric>, n: nat, i: nat)
    requires Fits(ms, n) && i <= |ms|
    ensures Fits(ms[..i], n)
  {
    assert forall k :: 0 <= k < i ==> ms[..i][k] == ms[k];
  }

  /** `processData(snapshot, m)` for every metric in order, on one shard. */
  function ProcessAll(ms: seq<Metric>, snap: seq<int>, inst: seq<int>): (r: (seq<int>, seq<int>))
    requires Fits(ms, |snap|)
    ensures |r.0| == |snap| && |r.1| == |inst|
    decreases |ms|
  {
    if ms == [] then (snap, inst)
    else
      FitsPrefix(ms, |snap|, |ms| - 1);
      var p := ProcessAll(ms[..|ms| - 1], snap, inst);
      Processed(ms[|ms| - 1], p.0, p.1)
  }

  /** The shards in `datas`, processed one after the other into `snap`. */
  function MergeAll(ms: seq<Metric>, snap: seq<int>, datas: seq<seq<int>>): (r: seq<int>)
    requires Fits(ms, |snap|)
    ensures |r| == |snap|
    decreases |datas|
  {
    if datas == [] then snap
    else ProcessAll(ms, MergeAll(ms, snap, datas[..|datas| - 1]), datas[|datas| - 1]).0
  }

  lemma MergeAllSnoc(ms: seq<Metric>, snap: seq<int>, datas: seq<seq<int>>, d: seq<int>)
    requires Fits(ms, |snap|)
    ensures MergeAll(ms, snap, datas + [d]) == ProcessAll(ms, MergeAll(ms, snap, datas), d).0
  {
    assert (datas + [d])[..|datas|] == datas;
  }

  /** `resetDataForNextSnapshot` for every metric in order. */
  function ResetAll(ms: seq<Metric>, snap: seq<int>): (r: seq<int>)
    requires Fits(ms, |snap|)
    ensures |r| == |snap|
    decreases |ms|
  {
    if ms == [] then snap
    else
      FitsPrefix(ms, |snap|, |ms| - 1);
      Reset(ms[|ms| - 1], ResetAll(ms[..|ms| - 1], snap))
  }

  /** Every metric's `report`, in registration order. */
  function ReportAll(ms: seq<Metric>, snap: seq<int>, durationMS: int): (r: seq<Pair>)
    requires Fits(ms, |snap|)
    decreases |ms|
  {
    if ms == [] then []
    else
      FitsPrefix(ms, |snap|, |ms| - 1);
      ReportAll(ms[..|ms| - 1], snap, durationMS) + Report(ms[|ms| - 1], snap, durationMS)
  }

  /** The total of slot `x` over the shards; a shard too short for it counts 0. */
  function SlotSum(datas: seq<seq<int>>, x: nat): int
    decreases |datas|
  {
    if datas == [] then 0
    else
      var d := datas[|datas| - 1];
      SlotSum(datas[..|datas| - 1], x) + (if x < |d| then d[x] else 0)
  }

  // ---- What the passes do to one metric's slots ----

  /** A slot that no metric owns is left alone by processing, in both arrays. */
  lemma {:induction false} ProcessAllElsewhere(ms: seq<Metric>, snap: seq<int>, inst: seq<int>, x: nat)
    requires Fits(ms, |snap|) && x < |snap|
    requires forall k :: 0 <= k < |ms| ==> !ms[k].IsSlot(x)
    ensures ProcessAll(ms, snap, inst).0[x] == snap[x]
    ensures x < |inst| ==> ProcessAll(ms, snap, inst).1[x] == inst[x]
    decreases |ms|
  {
    if ms != [] {
      FitsPrefix(ms, |snap|, |ms| - 1);
      ProcessAllElsewhere(ms[..|ms| - 1], snap, inst, x);
    }
  }

  /** Processing one shard adds the shard's value to the slot of a single-slot
      metric, and nothing when the shard predates that metric's registration. */
  lemma {:induction false} ProcessAllSingle(ms: seq<Metric>, snap: seq<int>, inst: seq<int>, k: nat)
    requires Fits(ms, |snap|) && Disjoint(ms) && k < |ms| && ms[k].SingleIndex()
    ensures var x := ms[k].index;
      ProcessAll(ms, snap, inst).0[x] == snap[x] + (if x < |inst| then inst[x] else 0)
    ensures var x := ms[k].index;
      x < |inst| ==> ProcessAll(ms, snap, inst).1[x] == inst[x]
    decreases |ms|
  {
    var x := ms[k].index;
    var n := |ms| - 1;
    FitsPrefix(ms, |snap|, n);
    assert ms[k].IsSlot(x);
    if k == n {
      forall j | 0 <= j < n
        ensures !ms[..n][j].IsSlot(x)
      {
        assert ms[..n][j] == ms[j];
      }
      ProcessAllElsewhere(ms[..n], snap, inst, x);
    } else {
      assert ms[..n][k] == ms[k];
      assert Disjoint(ms[..n]) by {
        forall j, l, y | 0 <= j < l < n
          ensures !(ms[..n][j].IsSlot(y) && ms[..n][l].IsSlot(y))
        {
          assert ms[..n][j] == ms[j] && ms[..n][l] == ms[l];
        }
      }
      ProcessAllSingle(ms[..n], snap, inst, k);
      assert !ms[n].IsSlot(x);
    }
  }

  /** Merging adds up a single-slot metric across all the shards merged. */
  lemma {:induction false} MergeAllSingle(ms: seq<Metric>, snap: seq<int>, datas: seq<seq<int>>, k: nat)
    requires Fits(ms, |snap|) && Disjoint(ms) && k < |ms| && ms[k].SingleIndex()
    ensures MergeAll(ms, snap, datas)[ms[k].index] == snap[ms[k].index] + SlotSum(datas, ms[k].index)
    decreases |datas|
  {
    if datas != [] {
      MergeAllSingle(ms, snap, datas[..|datas| - 1], k);
      ProcessAllSingle(ms, MergeAll(ms, snap, datas[..|datas| - 1]), datas[|datas| - 1], k);
    }
  }

  /** Resetting zeroes every single-slot metric's slot except a running total's. */
  lemma {:induction false} ResetAllSingle(ms: seq<Metric>, snap: seq<int>, k: nat)
    requires Fits(ms, |snap|) && Disjoint(ms) && k < |ms| && ms[k].SingleIndex()
    ensures ResetAll(ms, snap)[ms[k].index] == if ms[k].TotalCounter? then snap[ms[k].index] else 0
    decreases |ms|
  {
    var x := ms[k].index;
    var n := |ms| - 1;
    FitsPrefix(ms, |snap|, n);
    assert ms[k].IsSlot(x);
    if k == n {
      ResetAllElsewhere(ms[..n], snap, x);
    } else {
      assert ms[..n][k] == ms[k];
      assert Disjoint(ms[..n]) by {
        forall j, l, y | 0 <= j < l < n
          ensures !(ms[..n][j].IsSlot(y) && ms[..n][l].IsSlot(y))
        {
          assert ms[..n][j] == ms[j] && ms[..n][l] == ms[l];
        }
      }
      ResetAllSingle(ms[..n], snap, k);
      assert !ms[n].IsSlot(x);
    }
  }

  lemma {:induction false} ResetAllElsewhere(ms: seq<Metric>, snap: seq<int>, x: nat)
    requires Fits(ms, |snap|) && x < |snap|
    requires forall k :: 0 <= k < |ms| ==> !ms[k].IsSlot(x)
    ensures ResetAll(ms, snap)[x] == snap[x]
    decreases |ms|
  {
    if ms != [] {
      FitsPrefix(ms, |snap|, |ms| - 1);
      ResetAllElsewhere(ms[..|ms| - 1], snap, x);
    }
  }

  // ---- The worker's loops ----

  /** `for (i...) inst.processData(m_snapshotData, m_snapshotMetrics.get(i))`. */
  method ProcessInstance(ms: seq<Metric>, snap: array<int>, inst: MetricDataInstance)
    requires Fits(ms, snap.Length) && snap != inst.data
    modifies snap, inst.data
    ensures (snap[..], inst.data[..]) == ProcessAll(ms, old(snap[..]), old(inst.data[..]))
  {
    var i := 0;
    while i < |ms|
      invariant 0 <= i <= |ms|
      invariant Fits(ms[..i], snap.Length)
      invariant (snap[..], inst.data[..]) == ProcessAll(ms[..i], old(snap[..]), old(inst.data[..]))
    {
      assert ms[..i + 1][..i] == ms[..i];
      FitsPrefix(ms, snap.Length, i + 1);
      inst.ProcessData(snap, ms[i]);
      i := i + 1;
    }
    assert ms[..|ms|] == ms;
  }

  /** `for (i...) m_snapshotMetrics.get(i).resetDataForNextSnapshot(m_snapshotData)`. */
  method ResetAllInPlace(ms: seq<Metric>, snap: array<int>)
    requires Fits(ms, snap.Length)
    modifies snap
    ensures snap[..] == ResetAll(ms, old(snap[..]))
  {
    var i := 0;
    while i < |ms|
      invariant 0 <= i <= |ms|
      invariant Fits(ms[..i], snap.Length)
      invariant snap[..] == ResetAll(ms[..i], old(snap[..]))
    {
      assert ms[..i + 1][..i] == ms[..i];
      FitsPrefix(ms, snap.Length, i + 1);
      ResetDataForNextSnapshot(ms[i], snap);
      i := i + 1;
    }
    assert ms[..|ms|] == ms;
  }

  /** The pairs every metric's `report` hands the consumer, in order. */
  method ReportInOrder(ms: seq<Metric>, snap: array<int>, durationMS: int) returns (r: seq<Pair>)
    requires Fits(ms, snap.Length)
    ensures r == ReportAll(ms, snap[..], durationMS)
  {
    r := [];
    var i := 0;
    while i < |ms|
      invariant 0 <= i <= |ms|
      invariant Fits(ms[..i], snap.Length)
      invariant r == ReportAll(ms[..i], snap[..], durationMS)
    {
      assert ms[..i + 1][..i] == ms[..i];
      FitsPrefix(ms, snap.Length, i + 1);
      r := r + Report(ms[i], snap[..], durationMS);
      i := i + 1;
    }
    assert ms[..|ms|] == ms;
  }

  // ---- Lists of shards ----

  function Shards(list: seq<MetricDataInstance>): set<object>
  {
    set x | x in list
  }

  ghost function ShardArrays(list: seq<MetricDataInstance>): set<object>
    reads Shards(list)
  {
    set x | x in list :: x.data
  }

  /** No shard is listed twice, no two share an array, and none shares the
      accumulator's. */
  ghost predicate Separate(list: seq<MetricDataInstance>, snap: array<int>)
    reads Shards(list)
  {
    && (forall j, k :: 0 <= j < k < |list| ==> list[j] != list[k] && list[j].data != list[k].data)
    && (forall j :: 0 <= j < |list| ==> list[j].data != snap)
  }

  /** The contents of every listed shard, in order. */
  ghost function AllData(list: seq<MetricDataInstance>): (r: seq<seq<int>>)
    reads Shards(list), ShardArrays(list)
    ensures |r| == |list|
    decreases |list|
  {
    if list == [] then []
    else AllData(list[..|list| - 1]) + [list[|list| - 1].data[..]]
  }

  /** The lock word of every listed shard, in order. */
  function Flags(list: seq<MetricDataInstance>): (r: seq<int>)
    reads Shards(list)
    ensures |r| == |list|
    decreases |list|
  {
    if list == [] then [] else Flags(list[..|list| - 1]) + [list[|list| - 1].lockFlag]
  }

  /** The first `n` entries of `datas` whose flag is 0. */
  function Pick(datas: seq<seq<int>>, flags: seq<int>, n: nat): seq<seq<int>>
    requires n <= |datas| == |flags|
  {
    if n == 0 then []
    else Pick(datas, flags, n - 1) + (if flags[n - 1] == 0 then [datas[n - 1]] else [])
  }

  /** The first `n` entries of `list` whose flag is not 0. */
  function PickHeld(list: seq<MetricDataInstance>, flags: seq<int>, n: nat): seq<MetricDataInstance>
    requires n <= |list| == |flags|
  {
    if n == 0 then []
    else PickHeld(list, flags, n - 1) + (if flags[n - 1] != 0 then [list[n - 1]] else [])
  }

  /** The first `n` shards merged, skipping those whose flag is set. */
  function MergeUpTo(ms: seq<Metric>, snap: seq<int>, datas: seq<seq<int>>, flags: seq<int>, n: nat): (r: seq<int>)
    requires Fits(ms, |snap|) && n <= |datas| == |flags|
    ensures |r| == |snap|
  {
    if n == 0 then snap
    else
      var prev := MergeUpTo(ms, snap, datas, flags, n - 1);
      if flags[n - 1] == 0 then ProcessAll(ms, prev, datas[n - 1]).0 else prev
  }

  lemma {:induction false} MergeUpToPick(ms: seq<Metric>, snap: seq<int>, datas: seq<seq<int>>, flags: seq<int>, n: nat)
    requires Fits(ms, |snap|) && n <= |datas| == |flags|
    ensures MergeUpTo(ms, snap, datas, flags, n) == MergeAll(ms, snap, Pick(datas, flags, n))
  {
    if n > 0 {
      MergeUpToPick(ms, snap, datas, flags, n - 1);
      if flags[n - 1] == 0 {
        MergeAllSnoc(ms, snap, Pick(datas, flags, n - 1), datas[n - 1]);
      } else {
        assert Pick(datas, flags, n) == Pick(datas, flags, n - 1) + [];
        assert Pick(datas, flags, n - 1) + [] == Pick(datas, flags, n - 1);
      }
    }
  }

  /** The takeover pass: every shard whose lock is free is marked old and
      processed; the ones whose lock is held stay for the next attempt.
      `datas` and `flags` are the shards' contents and lock words on entry. */
  method MergePass(ms: seq<Metric>, snap: array<int>, list: seq<MetricDataInstance>, ghost datas: seq<seq<int>>, ghost flags: seq<int>)
    returns (remaining: seq<MetricDataInstance>)
    requires Fits(ms, snap.Length) && Separate(list, snap) && |datas| == |flags| == |list|
    requires forall j :: 0 <= j < |list| ==> list[j].data[..] == datas[j] && list[j].lockFlag == flags[j]
    modifies Shards(list), ShardArrays(list), snap
    ensures snap[..] == MergeAll(ms, old(snap[..]), Pick(datas, flags, |list|))
    ensures remaining == PickHeld(list, flags, |list|)
    ensures forall j :: 0 <= j < |list| ==> list[j].data == old(list[j].data) && list[j].lockFlag == flags[j]
    ensures forall j :: 0 <= j < |list| ==> (list[j].isOld <==> old(list[j].isOld) || flags[j] == 0)
  {
    ghost var arrays := seq(|list|, j requires 0 <= j < |list| reads Shards(list) => list[j].data);
    ghost var olds := seq(|list|, j requires 0 <= j < |list| reads Shards(list) => list[j].isOld);
    assert ArraysOf(arrays) <= ShardArrays(list);
    remaining := PassAll(ms, snap, list, arrays, olds, datas, flags);
    MergeUpToPick(ms, old(snap[..]), datas, flags, |list|);
  }

  /** The arrays recorded in `arrays`, as a set. */
  ghost function ArraysOf(arrays: seq<array<int>>): set<object>
  {
    set j | 0 <= j < |arrays| :: arrays[j]
  }

  /** The loop of the takeover pass, stated against the shards' state on
      entry as `PassedUpTo` records it. */
  method PassAll(ms: seq<Metric>, snap: array<int>, list: seq<MetricDataInstance>, ghost arrays: seq<array<int>>,
                 ghost olds: seq<bool>, ghost datas: seq<seq<int>>, ghost flags: seq<int>)
    returns (remaining: seq<MetricDataInstance>)
    requires Fits(ms, snap.Length) && Apart(list, arrays, snap) && |olds| == |datas| == |flags| == |list|
    requires PassedUpTo(list, arrays, olds, datas, flags, 0)
    modifies Shards(list), ArraysOf(arrays), snap
    ensures snap[..] == MergeUpTo(ms, old(snap[..]), datas, flags, |list|)
    ensures remaining == PickHeld(list, flags, |list|)
    ensures PassedUpTo(list, arrays, olds, datas, flags, |list|)
  {
    ghost var snap0 := snap[..];
    remaining := [];
    var i := 0;
    while i < |list|
      invariant 0 <= i <= |list|
      invariant snap[..] == MergeUpTo(ms, snap0, datas, flags, i)
      invariant remaining == PickHeld(list, flags, i)
      invariant PassedUpTo(list, arrays, olds, datas, flags, i)
    {
      var ok := TakeOverAt(ms, snap, list, i, arrays, olds, datas, flags, snap0);
      if !ok {
        remaining := remaining + [list[i]];
      }
      i := i + 1;
    }
  }

  /** No shard is listed twice, and the shards' arrays, as recorded in
      `arrays`, are distinct and apart from the accumulator. */
  predicate Apart(list: seq<MetricDataInstance>, arrays: seq<array<int>>, snap: array<int>)
  {
    && |arrays| == |list|
    && (forall j, k :: 0 <= j < k < |list| ==> list[j] != list[k] && arrays[j] != arrays[k])
    && (forall j :: 0 <= j < |list| ==> arrays[j] != snap)
  }

  /** The state of the takeover pass after its first `i` shards, against the
      arrays, old marks, contents and lock words the shards had on entry:
      the shards before `i` are marked old when their lock was free, the
      others are untouched. */
  ghost predicate PassedUpTo(list: seq<MetricDataInstance>, arrays: seq<array<int>>, olds: seq<bool>,
                             datas: seq<seq<int>>, flags: seq<int>, i: nat)
    requires |arrays| == |olds| == |datas| == |flags| == |list| && i <= |list|
    reads Shards(list), ArraysOf(arrays)
  {
    forall j :: 0 <= j < |list| ==>
      && list[j].data == arrays[j] && list[j].lockFlag == flags[j]
      && (if j < i then (list[j].isOld <==> olds[j] || flags[j] == 0)
          else list[j].isOld == olds[j] && arrays[j][..] == datas[j])
  }

  /** One turn of the takeover pass: `TakeOver` on the `i`th shard carries
      the pass from its first `i` shards to its first `i + 1`. */
  method TakeOverAt(ms: seq<Metric>, snap: array<int>, list: seq<MetricDataInstance>, i: nat,
                    ghost arrays: seq<array<int>>, ghost olds: seq<bool>, ghost datas: seq<seq<int>>,
                    ghost flags: seq<int>, ghost snap0: seq<int>) returns (ok: bool)
    requires Fits(ms, snap.Length) && |snap0| == snap.Length && Apart(list, arrays, snap)
    requires |olds| == |datas| == |flags| == |list| && i < |list|
    requires PassedUpTo(list, arrays, olds, datas, flags, i) && snap[..] == MergeUpTo(ms, snap0, datas, flags, i)
    modifies list[i], arrays[i], snap
    ensures ok <==> flags[i] == 0
    ensures PassedUpTo(list, arrays, olds, datas, flags, i + 1) && snap[..] == MergeUpTo(ms, snap0, datas, flags, i + 1)
  {
    ok := TakeOver(ms, snap, list[i]);
  }

  lemma {:induction false} AllDataAt(list: seq<MetricDataInstance>)
    ensures forall j :: 0 <= j < |list| ==> AllData(list)[j] == list[j].data[..] && Flags(list)[j] == list[j].lockFlag
    decreases |list|
  {
    if list != [] {
      var n := |list| - 1;
      AllDataAt(list[..n]);
      assert forall j :: 0 <= j < n ==> list[..n][j] == list[j];
    }
  }

  /** `markOld()` on one shard, and its processing when that succeeds. */
  method TakeOver(ms: seq<Metric>, snap: array<int>, inst: MetricDataInstance) returns (ok: bool)
    requires Fits(ms, snap.Length) && snap != inst.data
    modifies inst, inst.data, snap
    ensures ok <==> old(inst.lockFlag) == 0
    ensures inst.data == old(inst.data) && inst.lockFlag == old(inst.lockFlag) && (inst.isOld <==> old(inst.isOld) || ok)
    ensures ok ==> snap[..] == ProcessAll(ms, old(snap[..]), old(inst.data[..])).0
    ensures !ok ==> snap[..] == old(snap[..])
  {
    ok := inst.MarkOld();
    if ok {
      ProcessInstance(ms, snap, inst);
    }
  }

  /** The dead-owner pass: every listed shard is processed, lock or not. */
  method ProcessList(ms: seq<Metric>, snap: array<int>, list: seq<MetricDataInstance>)
    requires Fits(ms, snap.Length) && Separate(list, snap)
    modifies ShardArrays(list), snap
    ensures snap[..] == MergeAll(ms, old(snap[..]), old(AllData(list)))
  {
    var i := 0;
    while i < |list|
      invariant 0 <= i <= |list|
      invariant snap[..] == MergeAll(ms, old(snap[..]), old(AllData(list[..i])))
      invariant forall j :: i <= j < |list| ==> list[j].data[..] == old(list[j].data[..])
    {
      assert list[..i + 1][..i] == list[..i];
      ProcessInstance(ms, snap, list[i]);
      i := i + 1;
    }
    assert list[..|list|] == list;
  }
}
