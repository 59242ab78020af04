// One thread's shard of the metric slots (MetricDataInstance): a slot array
// guarded by a try-lock flag and an "old" flag that the snapshot worker sets
// when it takes the shard over. Writers that find the lock held or the shard
// old are refused and go to a fresh shard; a write past the end of the array
// first grows it to the current slot count.
module MetricDataInstances {
  import opened JavaInt
  import opened Metrics

  /** The array a shard of length |d| is grown to by `resizeData`: the old
      slots first, then zeros up to `size`. */
  function Grown(d: seq<int>, size: nat): (r: seq<int>)
    requires |d| <= size
    ensures |r| == size && r[..|d|] == d
    ensures forall j :: |d| <= j < size ==> r[j] == 0
  {
    d + seq(size - |d|, _ => 0)
  }

  /** The array a write to `index` sees: grown first if the index is past its end. */
  function Covering(d: seq<int>, index: nat, maxDataIndex: nat): (r: seq<int>)
    requires index < |d| || (|d| <= maxDataIndex && index < maxDataIndex)
    ensures index < |r| && |d| <= |r|
    ensures r[..|d|] == d
    ensures forall j :: |d| <= j < |r| ==> r[j] == 0
  {
    if index >= |d| then Grown(d, maxDataIndex) else d
  }

  /** What `add` does to the slots: `value` is added at `index` and nowhere else. */
  function AddAt(d: seq<int>, index: nat, value: int, maxDataIndex: nat): seq<int>
    requires index < |d| || (|d| <= maxDataIndex && index < maxDataIndex)
  {
    var e := Covering(d, index, maxDataIndex);
    e[index := e[index] + value]
  }

  /** The statistics kinds a shard records into: `record` takes a duration
      metric and `set` a min/max/avg value metric; both use the same rule. */
  predicate IsStats(m: Metric)
  {
    (m.DurationRate? || m.MinMaxAvg?) && m.WellFormed() && m.DistinctSlots()
  }

  /** One observation into an array that covers the metric: reset if the
      init slot is still 0, then min, max, count + 1 and total + v. */
  function Observe(m: Metric, d: seq<int>, v: int): (r: seq<int>)
    requires IsStats(m) && m.MaxIndex() < |d|
    ensures |r| == |d|
    ensures forall j :: 0 <= j < |d| && !m.IsSlot(j) ==> r[j] == d[j]
  {
    Accumulate(m, if d[m.initIndex] == 0 then Reset(m, d) else d, v)
  }

  /** The part of an observation after the init check. */
  function Accumulate(m: Metric, e: seq<int>, v: int): (r: seq<int>)
    requires IsStats(m) && m.MaxIndex() < |e|
    ensures |r| == |e|
    ensures forall j :: 0 <= j < |e| && !m.IsSlot(j) ==> r[j] == e[j]
  {
    var e1 := if v < e[m.indexOfMin] then e[m.indexOfMin := v] else e;
    var e2 := if v > e1[m.indexOfMax] then e1[m.indexOfMax := v] else e1;
    var e3 := e2[m.indexOfCount := e2[m.indexOfCount] + 1];
    e3[m.indexOfTotal := e3[m.indexOfTotal] + v]
  }

  /** The observations `vs`, in order. */
  function ObserveAll(m: Metric, d: seq<int>, vs: seq<int>): (r: seq<int>)
    requires IsStats(m) && m.MaxIndex() < |d|
    ensures |r| == |d|
    decreases |vs|
  {
    if vs == [] then d else ObserveAll(m, Observe(m, d, vs[0]), vs[1..])
  }

  function Min(a: int, b: int): int { if b < a then b else a }
  function Max(a: int, b: int): int { if b > a then b else a }

  /** Reference statistics of `vs` on top of a running min, max and sum. */
  function MinOf(x: int, vs: seq<int>): int
    decreases |vs|
  {
    if vs == [] then x else MinOf(Min(x, vs[0]), vs[1..])
  }

  function MaxOf(x: int, vs: seq<int>): int
    decreases |vs|
  {
    if vs == [] then x else MaxOf(Max(x, vs[0]), vs[1..])
  }

  function Sum(vs: seq<int>): int
    decreases |vs|
  {
    if vs == [] then 0 else vs[0] + Sum(vs[1..])
  }

  /** A shard whose init slot is set holds the count, sum, minimum and maximum
      of everything recorded into it, and no other slot moves. */
  lemma {:induction false} ObserveAllStatistics(m: Metric, d: seq<int>, vs: seq<int>)
    requires IsStats(m) && m.MaxIndex() < |d| && d[m.initIndex] != 0
    ensures var r := ObserveAll(m, d, vs);
      && r[m.initIndex] == d[m.initIndex]
      && r[m.indexOfCount] == d[m.indexOfCount] + |vs|
      && r[m.indexOfTotal] == d[m.indexOfTotal] + Sum(vs)
      && r[m.indexOfMin] == MinOf(d[m.indexOfMin], vs)
      && r[m.indexOfMax] == MaxOf(d[m.indexOfMax], vs)
      && forall j :: 0 <= j < |d| && !m.IsSlot(j) ==> r[j] == d[j]
    decreases |vs|
  {
    if vs != [] {
      var d1 := Observe(m, d, vs[0]);
      assert d1[m.initIndex] == d[m.initIndex];
      assert d1[m.indexOfCount] == d[m.indexOfCount] + 1;
      assert d1[m.indexOfTotal] == d[m.indexOfTotal] + vs[0];
      assert d1[m.indexOfMin] == Min(d[m.indexOfMin], vs[0]);
      assert d1[m.indexOfMax] == Max(d[m.indexOfMax], vs[0]);
      ObserveAllStatistics(m, d1, vs[1..]);
    }
  }

  /** The first observation into a never-initialised shard starts from the
      metric's reset state. */
  lemma ObserveStartsFromReset(m: Metric, d: seq<int>, v: int)
    requires IsStats(m) && m.MaxIndex() < |d| && d[m.initIndex] == 0
    ensures Observe(m, d, v) == Observe(m, Reset(m, d), v)
    ensures Reset(m, d)[m.initIndex] == 1
  {
  }

  lemma {:induction false} SumAppend(xs: seq<int>, ys: seq<int>)
    ensures Sum(xs + ys) == Sum(xs) + Sum(ys)
    decreases |xs|
  {
    if xs == [] {
      assert xs + ys == ys;
    } else {
      assert (xs + ys)[1..] == xs[1..] + ys;
      SumAppend(xs[1..], ys);
    }
  }

  lemma {:induction false} MinOfShift(x: int, y: int, vs: seq<int>)
    ensures MinOf(Min(x, y), vs) == Min(x, MinOf(y, vs))
    decreases |vs|
  {
    if vs != [] {
      MinOfShift(x, Min(y, vs[0]), vs[1..]);
    }
  }

  lemma {:induction false} MaxOfShift(x: int, y: int, vs: seq<int>)
    ensures MaxOf(Max(x, y), vs) == Max(x, MaxOf(y, vs))
    decreases |vs|
  {
    if vs != [] {
      MaxOfShift(x, Max(y, vs[0]), vs[1..]);
    }
  }

  lemma {:induction false} MinOfAppend(x: int, xs: seq<int>, ys: seq<int>)
    ensures MinOf(x, xs + ys) == MinOf(MinOf(x, xs), ys)
    decreases |xs|
  {
    if xs == [] {
      assert xs + ys == ys;
    } else {
      assert (xs + ys)[1..] == xs[1..] + ys;
      MinOfAppend(Min(x, xs[0]), xs[1..], ys);
    }
  }

  lemma {:induction false} MaxOfAppend(x: int, xs: seq<int>, ys: seq<int>)
    ensures MaxOf(x, xs + ys) == MaxOf(MaxOf(x, xs), ys)
    decreases |xs|
  {
    if xs == [] {
      assert xs + ys == ys;
    } else {
      assert (xs + ys)[1..] == xs[1..] + ys;
      MaxOfAppend(Max(x, xs[0]), xs[1..], ys);
    }
  }

  /** Min of two running minima over two batches is the running minimum of
      both batches from the smaller start. */
  lemma MinOfMerge(a: int, b: int, xs: seq<int>, ys: seq<int>)
    ensures Min(MinOf(a, xs), MinOf(b, ys)) == MinOf(Min(a, b), xs + ys)
  {
    MinOfAppend(Min(a, b), xs, ys);
    assert Min(a, b) == Min(b, a);
    MinOfShift(b, a, xs);
    MinOfShift(MinOf(a, xs), b, ys);
  }

  lemma MaxOfMerge(a: int, b: int, xs: seq<int>, ys: seq<int>)
    ensures Max(MaxOf(a, xs), MaxOf(b, ys)) == MaxOf(Max(a, b), xs + ys)
  {
    MaxOfAppend(Max(a, b), xs, ys);
    assert Max(a, b) == Max(b, a);
    MaxOfShift(b, a, xs);
    MaxOfShift(MaxOf(a, xs), b, ys);
  }

  /** Sharding loses nothing: recording `xs` on one thread and `ys` on
      another and merging the second shard into the first gives the same
      statistics as merging first and recording everything in one place. */
  lemma ShardingIsExact(m: Metric, a: seq<int>, b: seq<int>, xs: seq<int>, ys: seq<int>)
    requires IsStats(m) && m.MaxIndex() < |a| && m.MaxIndex() < |b|
    requires a[m.initIndex] != 0 && b[m.initIndex] != 0
    ensures AddData(m, ObserveAll(m, a, xs), ObserveAll(m, b, ys)) == ObserveAll(m, AddData(m, a, b), xs + ys)
  {
    var ra := ObserveAll(m, a, xs);
    var rb := ObserveAll(m, b, ys);
    var ab := AddData(m, a, b);
    ObserveAllStatistics(m, a, xs);
    ObserveAllStatistics(m, b, ys);
    FoldStatsSlots(m, a, b);
    ObserveAllStatistics(m, ab, xs + ys);
    FoldStatsSlots(m, ra, rb);
    SumAppend(xs, ys);
    MinOfMerge(a[m.indexOfMin], b[m.indexOfMin], xs, ys);
    MaxOfMerge(a[m.indexOfMax], b[m.indexOfMax], xs, ys);
    SameSlots(m, AddData(m, ra, rb), ObserveAll(m, ab, xs + ys));
  }

  /** What `processData` does to the snapshot and the shard for one metric:
      both arrays are initialised for it, then the shard is folded in. */
  function Processed(m: Metric, snap: seq<int>, inst: seq<int>): (r: (seq<int>, seq<int>))
    requires m.WellFormed() && m.MaxIndex() < |snap|
    ensures |r.0| == |snap| && |r.1| == |inst|
    ensures forall j :: 0 <= j < |snap| && !m.IsSlot(j) ==> r.0[j] == snap[j]
    ensures r.1 == Initialized(m, inst)
  {
    (AddData(m, Initialized(m, snap), Initialized(m, inst)), Initialized(m, inst))
  }

  /** A shard that never saw the metric adds nothing to an initialised snapshot. */
  lemma ProcessUntouchedShard(m: Metric, snap: seq<int>, inst: seq<int>)
    requires m.WellFormed() && m.DistinctSlots() && !m.TotalCounter? && m.MaxIndex() < |snap| && m.MaxIndex() < |inst|
    requires !m.SingleIndex() && inst[m.initIndex] == 0 && snap[m.initIndex] != 0
    requires IsLong(snap[m.indexOfMin]) && IsLong(snap[m.indexOfMax])
    ensures Processed(m, snap, inst).0 == snap
  {
    AddDataOfEmpty(m, snap, inst);
  }

  /** The in-place form of one observation. */
  method ObserveInPlace(m: Metric, d: array<int>, v: int)
    requires IsStats(m) && m.MaxIndex() < d.Length
    modifies d
    ensures d[..] == Observe(m, old(d[..]), v)
  {
    if d[m.initIndex] == 0 {
      ResetDataForNextSnapshot(m, d);
    }
    AccumulateInPlace(m, d, v);
  }

  method AccumulateInPlace(m: Metric, d: array<int>, v: int)
    requires IsStats(m) && m.MaxIndex() < d.Length
    modifies d
    ensures d[..] == Accumulate(m, old(d[..]), v)
  {
    if v < d[m.indexOfMin] {
      d[m.indexOfMin] := v;
    }
    if v > d[m.indexOfMax] {
      d[m.indexOfMax] := v;
    }
    d[m.indexOfCount] := d[m.indexOfCount] + 1;
    d[m.indexOfTotal] := d[m.indexOfTotal] + v;
  }

  /** Two arrays agree when every statistics slot and every other slot does. */
  lemma SameSlots(m: Metric, l: seq<int>, r: seq<int>)
    requires IsStats(m) && m.MaxIndex() < |l| && |l| == |r|
    requires l[m.initIndex] == r[m.initIndex] && l[m.indexOfCount] == r[m.indexOfCount] && l[m.indexOfTotal] == r[m.indexOfTotal]
    requires l[m.indexOfMin] == r[m.indexOfMin] && l[m.indexOfMax] == r[m.indexOfMax]
    requires forall j :: 0 <= j < |l| && !m.IsSlot(j) ==> l[j] == r[j]
    ensures l == r
  {
    forall j | 0 <= j < |l|
      ensures l[j] == r[j]
    {
      if !m.IsSlot(j) {
      }
    }
  }

  /** The merge rule of the statistics kinds, slot by slot. */
  lemma FoldStatsSlots(m: Metric, s: seq<int>, i: seq<int>)
    requires IsStats(m) && m.MaxIndex() < |s| && m.MaxIndex() < |i|
    ensures var r := AddData(m, s, i);
      && r[m.initIndex] == s[m.initIndex]
      && r[m.indexOfCount] == s[m.indexOfCount] + i[m.indexOfCount]
      && r[m.indexOfTotal] == s[m.indexOfTotal] + i[m.indexOfTotal]
      && r[m.indexOfMin] == Min(s[m.indexOfMin], i[m.indexOfMin])
      && r[m.indexOfMax] == Max(s[m.indexOfMax], i[m.indexOfMax])
      && forall j :: 0 <= j < |s| && !m.IsSlot(j) ==> r[j] == s[j]
  {
  }

  class MetricDataInstance {
    /** `m_lock`: 0 free, 1 held. */
    var lockFlag: int
    /** `m_isOld`: the snapshot worker has taken this shard over. */
    var isOld: bool
    var data: array<int>
    const snapshotNumber: int
    /** The thread that created the shard (`m_owner`, held weakly in the source). */
    const owner: nat

    constructor(numDataElements: nat, snapshotNumber: int, owner: nat)
      ensures lockFlag == 0 && !isOld && this.snapshotNumber == snapshotNumber && this.owner == owner
      ensures fresh(data) && data[..] == seq(numDataElements, _ => 0)
    {
      lockFlag := 0;
      isOld := false;
      data := new int[numDataElements](_ => 0);
      this.snapshotNumber := snapshotNumber;
      this.owner := owner;
    }

    /** The try-lock: it succeeds only on a free, current shard; a refused
        attempt leaves the flag as it found it. */
    method Lock() returns (ok: bool)
      modifies this
      ensures ok <==> old(lockFlag) == 0 && !old(isOld)
      ensures lockFlag == (if ok then 1 else old(lockFlag))
      ensures isOld == old(isOld) && data == old(data)
    {
      if lockFlag != 0 {
        return false;
      }
      lockFlag := 1;
      if isOld {
        lockFlag := 0;
        return false;
      }
      return true;
    }

    method Unlock()
      modifies this
      ensures lockFlag == 0 && isOld == old(isOld) && data == old(data)
    {
      lockFlag := 0;
    }

    /** Succeeds iff no writer holds the lock; then the shard is old and free. */
    method MarkOld() returns (ok: bool)
      modifies this
      ensures ok <==> old(lockFlag) == 0
      ensures ok ==> isOld && lockFlag == 0
      ensures !ok ==> isOld == old(isOld) && lockFlag == old(lockFlag)
      ensures data == old(data)
    {
      if lockFlag != 0 {
        return false;
      }
      lockFlag := 1;
      isOld := true;
      lockFlag := 0;
      return true;
    }

    /** A fresh array of the current slot count holding the old slots. */
    method ResizeData(maxDataIndex: nat)
      requires data.Length <= maxDataIndex
      modifies this
      ensures fresh(data) && data[..] == Grown(old(data[..]), maxDataIndex)
      ensures lockFlag == old(lockFlag) && isOld == old(isOld)
    {
      var src := data;
      var newData := new int[maxDataIndex](_ => 0);
      var k := 0;
      while k < src.Length
        modifies newData
        invariant 0 <= k <= src.Length
        invariant newData[..k] == src[..k]
        invariant forall j :: src.Length <= j < maxDataIndex ==> newData[j] == 0
      {
        newData[k] := src[k];
        k := k + 1;
      }
      assert newData[..] == Grown(src[..], maxDataIndex) by {
        assert newData[..src.Length] == src[..];
      }
      data := newData;
    }

    /** The slot array `index` is written into, grown when needed. */
    method Cover(index: nat, maxDataIndex: nat)
      requires index < data.Length || (data.Length <= maxDataIndex && index < maxDataIndex)
      modifies this
      ensures data[..] == Covering(old(data[..]), index, maxDataIndex)
      ensures data == old(data) || fresh(data)
      ensures lockFlag == old(lockFlag) && isOld == old(isOld)
    {
      if index >= data.Length {
        ResizeData(maxDataIndex);
      }
    }

    /** `add`: refused on a held or old shard, otherwise `value` lands at
        `index`; either way the lock ends as it started. */
    method Add(index: nat, value: int, maxDataIndex: nat) returns (ok: bool)
      requires index < data.Length || (data.Length <= maxDataIndex && index < maxDataIndex)
      modifies this, data
      ensures ok <==> old(lockFlag) == 0 && !old(isOld)
      ensures lockFlag == old(lockFlag) && isOld == old(isOld)
      ensures !ok ==> data == old(data) && data[..] == old(data[..])
      ensures ok ==> data[..] == AddAt(old(data[..]), index, value, maxDataIndex)
      ensures data == old(data) || fresh(data)
    {
      ok := Lock();
      if !ok {
        return;
      }
      Cover(index, maxDataIndex);
      data[index] := data[index] + value;
      Unlock();
    }

    /** `increment` is `add` of 1. */
    method Increment(index: nat, maxDataIndex: nat) returns (ok: bool)
      requires index < data.Length || (data.Length <= maxDataIndex && index < maxDataIndex)
      modifies this, data
      ensures ok <==> old(lockFlag) == 0 && !old(isOld)
      ensures lockFlag == old(lockFlag) && isOld == old(isOld)
      ensures !ok ==> data == old(data) && data[..] == old(data[..])
      ensures ok ==> data[..] == AddAt(old(data[..]), index, 1, maxDataIndex)
      ensures data == old(data) || fresh(data)
    {
      ok := Add(index, 1, maxDataIndex);
    }

    /** `decrement` is `add` of -1. */
    method Decrement(index: nat, maxDataIndex: nat) returns (ok: bool)
      requires index < data.Length || (data.Length <= maxDataIndex && index < maxDataIndex)
      modifies this, data
      ensures ok <==> old(lockFlag) == 0 && !old(isOld)
      ensures lockFlag == old(lockFlag) && isOld == old(isOld)
      ensures !ok ==> data == old(data) && data[..] == old(data[..])
      ensures ok ==> data[..] == AddAt(old(data[..]), index, -1, maxDataIndex)
      ensures data == old(data) || fresh(data)
    {
      ok := Add(index, -1, maxDataIndex);
    }

    /** `record` (a duration metric) and `set` (a min/max/avg value metric):
        refused on a held or old shard, otherwise one observation of `v`. */
    method Record(m: Metric, v: int, maxDataIndex: nat) returns (ok: bool)
      requires IsStats(m)
      requires m.indexOfMax < data.Length || (data.Length <= maxDataIndex && m.indexOfMax < maxDataIndex)
      modifies this, data
      ensures ok <==> old(lockFlag) == 0 && !old(isOld)
      ensures lockFlag == old(lockFlag) && isOld == old(isOld)
      ensures !ok ==> data == old(data) && data[..] == old(data[..])
      ensures ok ==> data[..] == Observe(m, Covering(old(data[..]), m.indexOfMax, maxDataIndex), v)
      ensures data == old(data) || fresh(data)
    {
      ok := Lock();
      if !ok {
        return;
      }
      Cover(m.indexOfMax, maxDataIndex);
      ObserveInPlace(m, data, v);
      Unlock();
    }

    /** `processData` for one metric: initialise both arrays, then fold this
        shard into the snapshot. */
    method ProcessData(snapshot: array<int>, m: Metric)
      requires m.WellFormed() && m.MaxIndex() < snapshot.Length && snapshot != data
      modifies snapshot, data
      ensures (snapshot[..], data[..]) == Processed(m, old(snapshot[..]), old(data[..]))
    {
      EnsureInitialized(m, snapshot);
      EnsureInitialized(m, data);
      AddDataToSnapshot(m, snapshot, data);
    }
  }
}
