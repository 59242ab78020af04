// MetricsEngine: slot allocation at registration, the per-thread shards with
// their write-and-retry protocol, and the snapshot worker that collects the
// shards, merges them into one accumulator, reports every metric and resets
// it. The engine's static state and its private SnapshotWorker singleton are
// one class here; every step is one atomic action of the source.
module MetricsEngine {
  import opened JavaInt
  import opened Metrics
  import opened MetricDataInstances
  import opened SnapshotMerge

  type ThreadId = nat
  type ConsumerId = nat

  /** The thread the snapshot worker runs on. */
  const WORKER: ThreadId := 0

  /** Slots of the engine's own counters, registered first. */
  const TRANSIENT_THREADS: nat := 0
  const NEW_DATA_INSTANCES: nat := 1
  const SNAPSHOT_RETRIES: nat := 2

  /** What the message queue carries: a snapshot consumer, or a new shard. */
  datatype Msg = ConsumerMsg(consumer: ConsumerId) | InstanceMsg(inst: MetricDataInstance)

  /** What a snapshot consumer is told, in order. */
  datatype Event = Apply(consumer: ConsumerId, key: string, value: int) | Done(consumer: ConsumerId)

  // ---- Slot allocation ----

  /** How many slots a registration takes: one, or five for a duration rate. */
  function Width(m: Metric): nat
  {
    if m.SingleIndex() then 1 else if m.DurationRate? then 5 else 0
  }

  /** `m` sits on the consecutive slots starting at `from`, in constructor order. */
  predicate Occupies(m: Metric, from: nat)
  {
    match m
    case DurationRate(_, i, c, t, mn, mx) => i == from && c == from + 1 && t == from + 2 && mn == from + 3 && mx == from + 4
    case MinMaxAvg(_, _, _, _, _, _) => false
    case MinMax(_, _, _, _) => false
    case _ => m.index == from
  }

  /** The registered metrics, each on the slots right after its predecessor's. */
  predicate Laid(ms: seq<Metric>, from: nat)
    decreases |ms|
  {
    ms == [] || (Occupies(ms[0], from) && Laid(ms[1..], from + Width(ms[0])))
  }

  function SlotCount(ms: seq<Metric>): nat
    decreases |ms|
  {
    if ms == [] then 0 else Width(ms[0]) + SlotCount(ms[1..])
  }

  lemma {:induction false} SlotCountSnoc(ms: seq<Metric>, m: Metric)
    ensures SlotCount(ms + [m]) == SlotCount(ms) + Width(m)
    decreases |ms|
  {
    if ms == [] {
      assert ms + [m] == [m];
    } else {
      assert (ms + [m])[1..] == ms[1..] + [m];
      SlotCountSnoc(ms[1..], m);
    }
  }

  lemma {:induction false} LaidSnoc(ms: seq<Metric>, from: nat, m: Metric)
    requires Laid(ms, from) && Occupies(m, from + SlotCount(ms))
    ensures Laid(ms + [m], from)
    decreases |ms|
  {
    if ms == [] {
      assert ms + [m] == [m];
      assert [m][1..] == [];
    } else {
      assert (ms + [m])[1..] == ms[1..] + [m];
      LaidSnoc(ms[1..], from + Width(ms[0]), m);
    }
  }

  /** Every slot of the j-th registered metric lies in its own allocation
      [from + SlotCount(ms[..j]), from + SlotCount(ms[..j+1])). */
  lemma {:induction false} LaidSlots(ms: seq<Metric>, from: nat, j: nat, x: nat)
    requires Laid(ms, from) && j < |ms|
    ensures ms[j].WellFormed() && ms[j].DistinctSlots()
    ensures SlotCount(ms[..j + 1]) == SlotCount(ms[..j]) + Width(ms[j])
    ensures ms[j].IsSlot(x) ==> from + SlotCount(ms[..j]) <= x < from + SlotCount(ms[..j + 1])
    ensures ms[j].MaxIndex() < from + SlotCount(ms[..j + 1])
    decreases j
  {
    if j == 0 {
      assert ms[..1] == [ms[0]];
      assert ms[..1][1..] == [];
      assert ms[..0] == [];
    } else {
      assert ms[..j][1..] == ms[1..][..j - 1];
      assert ms[..j + 1][1..] == ms[1..][..j];
      LaidSlots(ms[1..], from + Width(ms[0]), j - 1, x);
    }
  }

  lemma {:induction false} SlotCountMonotone(ms: seq<Metric>, a: nat, b: nat)
    requires a <= b <= |ms|
    ensures SlotCount(ms[..a]) <= SlotCount(ms[..b])
    decreases b - a
  {
    if a < b {
      SlotCountMonotone(ms, a, b - 1);
      assert ms[..b] == ms[..b - 1] + [ms[b - 1]];
      SlotCountSnoc(ms[..b - 1], ms[b - 1]);
    }
  }

  /** Registration never hands out a slot twice: two different registered
      metrics share no slot, and every slot is below the slot count. */
  lemma SlotsDisjoint(ms: seq<Metric>, j: nat, k: nat, x: nat)
    requires Laid(ms, 0) && j < k < |ms|
    ensures !(ms[j].IsSlot(x) && ms[k].IsSlot(x))
    ensures ms[k].MaxIndex() < SlotCount(ms)
  {
    LaidSlots(ms, 0, j, x);
    LaidSlots(ms, 0, k, x);
    SlotCountMonotone(ms, j + 1, k);
    SlotCountMonotone(ms, k + 1, |ms|);
    assert ms[..|ms|] == ms;
  }

  lemma LaidMaxIndex(ms: seq<Metric>, k: nat)
    requires Laid(ms, 0) && k < |ms|
    ensures ms[k].WellFormed() && ms[k].DistinctSlots() && ms[k].MaxIndex() < SlotCount(ms)
  {
    LaidSlots(ms, 0, k, 0);
    SlotCountMonotone(ms, k + 1, |ms|);
    assert ms[..|ms|] == ms;
  }

  lemma LaidPrefix(ms: seq<Metric>, n: nat)
    requires Laid(ms, 0) && n <= |ms|
    ensures forall k :: 0 <= k < n ==> ms[..n][k] == ms[k]
    ensures forall k :: 0 <= k < n ==> ms[k].WellFormed() && ms[k].MaxIndex() < SlotCount(ms)
  {
    forall k | 0 <= k < n
      ensures ms[k].WellFormed() && ms[k].MaxIndex() < SlotCount(ms)
    {
      LaidMaxIndex(ms, k);
    }
  }

  function Zeros(n: nat): seq<int> { seq(n, _ => 0) }

  function InstancesOf(q: seq<Msg>): seq<MetricDataInstance>
    decreases |q|
  {
    if q == [] then []
    else if q[0].InstanceMsg? then [q[0].inst] + InstancesOf(q[1..])
    else InstancesOf(q[1..])
  }

  lemma {:induction false} InstancesOfSnoc(q: seq<Msg>, m: Msg)
    ensures InstancesOf(q + [m]) == InstancesOf(q) + (if m.InstanceMsg? then [m.inst] else [])
    decreases |q|
  {
    if q == [] {
      assert q + [m] == [m];
      assert [m][1..] == [];
    } else {
      assert (q + [m])[1..] == q[1..] + [m];
      InstancesOfSnoc(q[1..], m);
    }
  }

  /** No shard occurs twice. */
  predicate Distinct(s: seq<MetricDataInstance>)
  {
    forall i, j :: 0 <= i < j < |s| ==> s[i] != s[j]
  }

  lemma DistinctSnoc(s: seq<MetricDataInstance>, x: MetricDataInstance)
    requires Distinct(s) && x !in s
    ensures Distinct(s + [x])
  {
    forall i, j | 0 <= i < j < |s| + 1
      ensures (s + [x])[i] != (s + [x])[j]
    {
      if j == |s| {
        assert s[i] in s;
      }
    }
  }

  /** Every thread's shard is known and owned by that thread, and the
      worker's own shard is never left locked. */
  ghost predicate CurrentValid(current: map<ThreadId, MetricDataInstance>, insts: set<MetricDataInstance>)
    reads if WORKER in current then {current[WORKER]} else {}
  {
    && (forall t :: t in current ==> current[t] in insts && current[t].owner == t)
    && (WORKER in current ==> current[WORKER].lockFlag == 0)
  }

  /** Every queued or collected shard is known and is in exactly one place. */
  predicate TrackedValid(s: seq<MetricDataInstance>, insts: set<MetricDataInstance>)
  {
    (forall i :: 0 <= i < |s| ==> s[i] in insts) && Distinct(s)
  }

  /** No shard outgrows the slot count, no two shards, nor a shard and the
      accumulator, share an array, and `repr` holds every shard, its array and
      the accumulator. */
  ghost predicate ArraysValid(insts: set<MetricDataInstance>, snap: array<int>, dataIndex: nat, repr: set<object>)
    reads insts
  {
    && snap in repr
    && (forall a :: a in insts ==> a in repr && a.data in repr && a.data.Length <= dataIndex && a.data != snap)
    && (forall a, b :: a in insts && b in insts && a != b ==> a.data != b.data)
  }

  /** One write by a recording thread: `add`, `increment` and `decrement`
      bump one slot; `record` folds one duration into a rate metric. */
  datatype Write = Bump(index: nat, delta: int) | Time(m: Metric, nanos: int)

  /** The write fits a shard of length `len` once grown to `size` slots. */
  predicate WriteFits(w: Write, len: nat, size: nat)
  {
    len <= size &&
    match w
    case Bump(i, _) => i < size
    case Time(m, _) => IsStats(m) && m.DurationRate? && m.indexOfMax < size
  }

  /** What a shard holds after a write it accepted. */
  function Written(w: Write, d: seq<int>, size: nat): (r: seq<int>)
    requires WriteFits(w, |d|, size)
    ensures |r| == if w.Bump? then (if w.index < |d| then |d| else size) else (if w.m.indexOfMax < |d| then |d| else size)
  {
    match w
    case Bump(i, v) => AddAt(d, i, v, size)
    case Time(m, v) => Observe(m, Covering(d, m.indexOfMax, size), v)
  }

  /** One attempt of a write on one shard (`data.add`, `data.increment`,
      `data.decrement` or `data.record`). */
  method WriteTo(inst: MetricDataInstance, w: Write, size: nat) returns (ok: bool)
    requires WriteFits(w, inst.data.Length, size)
    modifies inst, inst.data
    ensures ok <==> old(inst.lockFlag) == 0 && !old(inst.isOld)
    ensures inst.lockFlag == old(inst.lockFlag) && inst.isOld == old(inst.isOld)
    ensures !ok ==> inst.data == old(inst.data) && inst.data[..] == old(inst.data[..])
    ensures ok ==> inst.data[..] == Written(w, old(inst.data[..]), size)
    ensures inst.data == old(inst.data) || fresh(inst.data)
  {
    match w
    case Bump(i, v) =>
      if v == 1 {
        ok := inst.Increment(i, size);
      } else if v == -1 {
        ok := inst.Decrement(i, size);
      } else {
        ok := inst.Add(i, v, size);
      }
    case Time(m, v) =>
      ok := inst.Record(m, v, size);
  }

  /** The snapshot consumers queued in `q`, in queue order. */
  function Consumers(q: seq<Msg>): seq<ConsumerId>
    decreases |q|
  {
    if q == [] then []
    else if q[0].ConsumerMsg? then [q[0].consumer] + Consumers(q[1..])
    else Consumers(q[1..])
  }

  lemma {:induction false} ConsumersSnoc(q: seq<Msg>, m: Msg)
    ensures Consumers(q + [m]) == Consumers(q) + (if m.ConsumerMsg? then [m.consumer] else [])
    decreases |q|
  {
    if q == [] {
      assert q + [m] == [m];
      assert [m][1..] == [];
    } else {
      assert (q + [m])[1..] == q[1..] + [m];
      ConsumersSnoc(q[1..], m);
    }
  }

  /** The requests among `cs` that are answered at once with `done()`: all of
      them while a snapshot runs; otherwise all but the first, which starts one. */
  function Late(cs: seq<ConsumerId>, running: bool): seq<ConsumerId>
  {
    if running || cs == [] then cs else cs[1..]
  }

  lemma LateSnoc(cs: seq<ConsumerId>, running: bool, c: ConsumerId)
    ensures Late(cs + [c], running) == Late(cs, running) + (if running || cs != [] then [c] else [])
  {
    if !running && cs != [] {
      assert (cs + [c])[1..] == cs[1..] + [c];
    }
  }

  /** One `done()` per consumer, in order. */
  function Dones(cs: seq<ConsumerId>): (r: seq<Event>)
    ensures |r| == |cs| && forall k :: 0 <= k < |cs| ==> r[k] == Done(cs[k])
    decreases |cs|
  {
    if cs == [] then [] else Dones(cs[..|cs| - 1]) + [Done(cs[|cs| - 1])]
  }

  lemma DonesLateSnoc(cs: seq<ConsumerId>, running: bool, c: ConsumerId)
    ensures Dones(Late(cs + [c], running)) == Dones(Late(cs, running)) + (if running || cs != [] then [Done(c)] else [])
  {
    LateSnoc(cs, running, c);
    var l := Late(cs, running);
    if running || cs != [] {
      assert (l + [c])[..|l|] == l;
    }
  }

  /** The shards of `list` whose owner has exited (`gone`) or is still alive
      (`!gone`), in list order. */
  function Owned(list: seq<MetricDataInstance>, dead: set<ThreadId>, gone: bool): (r: seq<MetricDataInstance>)
    ensures forall i :: 0 <= i < |r| ==> r[i] in list && (r[i].owner in dead) == gone
    ensures forall i :: 0 <= i < |list| && (list[i].owner in dead) == gone ==> list[i] in r
    decreases |list|
  {
    if list == [] then []
    else
      var last := list[|list| - 1];
      assert list == list[..|list| - 1] + [last];
      Owned(list[..|list| - 1], dead, gone) + (if (last.owner in dead) == gone then [last] else [])
  }

  /** Splitting by owner loses and duplicates nothing: the two parts
      together are `list`. */
  lemma {:induction false} OwnedPartition(list: seq<MetricDataInstance>, dead: set<ThreadId>)
    ensures multiset(Owned(list, dead, true)) + multiset(Owned(list, dead, false)) == multiset(list)
    decreases |list|
  {
    if list != [] {
      var init, last := list[..|list| - 1], list[|list| - 1];
      assert list == init + [last];
      OwnedPartition(init, dead);
      var g := last.owner in dead;
      assert Owned(list, dead, g) == Owned(init, dead, g) + [last];
      assert Owned(list, dead, !g) == Owned(init, dead, !g);
    }
  }

  /** Each part of the split keeps `list`'s distinctness. */
  lemma {:induction false} OwnedDistinct(list: seq<MetricDataInstance>, dead: set<ThreadId>, gone: bool)
    requires Distinct(list)
    ensures Distinct(Owned(list, dead, gone))
    decreases |list|
  {
    if list != [] {
      var init, last := list[..|list| - 1], list[|list| - 1];
      assert Distinct(init) by {
        forall i, j | 0 <= i < j < |init| ensures init[i] != init[j] {
          assert init[i] == list[i] && init[j] == list[j];
        }
      }
      OwnedDistinct(init, dead, gone);
      if (last.owner in dead) == gone {
        assert last !in init by {
          forall i | 0 <= i < |init| ensures init[i] != last {
            assert init[i] == list[i];
          }
        }
        DistinctSnoc(Owned(init, dead, gone), last);
      }
    }
  }

  /** Replacing the front of a tracked list by a list without duplicates
      drawn from that front keeps it tracked. */
  lemma TrackedSublist(a: seq<MetricDataInstance>, b: seq<MetricDataInstance>, c: seq<MetricDataInstance>, insts: set<MetricDataInstance>)
    requires TrackedValid(a + c, insts) && Distinct(b) && forall i :: 0 <= i < |b| ==> b[i] in a
    ensures TrackedValid(b + c, insts)
  {
    forall i | 0 <= i < |b + c|
      ensures (b + c)[i] in insts
      ensures forall j :: i < j < |b + c| ==> (b + c)[i] != (b + c)[j]
    {
      if i < |b| {
        var k :| 0 <= k < |a| && a[k] == b[i];
        assert (a + c)[k] == b[i];
        forall j | |b| <= j < |b + c| ensures (b + c)[i] != (b + c)[j] {
          assert (a + c)[|a| + j - |b|] == (b + c)[j];
        }
      } else {
        assert (a + c)[|a| + i - |b|] == (b + c)[i];
        forall j | i < j < |b + c| ensures (b + c)[i] != (b + c)[j] {
          assert (a + c)[|a| + j - |b|] == (b + c)[j];
        }
      }
    }
  }

  /** The front of a tracked list is tracked. */
  lemma EmptyFront(a: seq<MetricDataInstance>, b: seq<MetricDataInstance>, c: seq<MetricDataInstance>)
    requires a == []
    ensures a + b + c == b + c
  {
  }

  lemma TrackedFront(a: seq<MetricDataInstance>, c: seq<MetricDataInstance>, insts: set<MetricDataInstance>)
    requires TrackedValid(a + c, insts)
    ensures TrackedValid(a, insts)
  {
    assert forall i :: 0 <= i < |a| ==> a[i] == (a + c)[i];
  }

  /** The shards a takeover pass leaves behind come from the list and are
      distinct when the list is. */
  lemma {:induction false} PickHeldSublist(list: seq<MetricDataInstance>, flags: seq<int>, n: nat)
    requires n <= |list| == |flags| && Distinct(list)
    ensures Distinct(PickHeld(list, flags, n))
    ensures forall i :: 0 <= i < |PickHeld(list, flags, n)| ==> PickHeld(list, flags, n)[i] in list[..n]
    decreases n
  {
    if n > 0 {
      PickHeldSublist(list, flags, n - 1);
      assert list[..n] == list[..n - 1] + [list[n - 1]];
      if flags[n - 1] != 0 {
        var front := list[..n - 1];
        assert list[n - 1] !in front by {
          forall i | 0 <= i < |front| ensures front[i] != list[n - 1] {
            assert front[i] == list[i];
          }
        }
        DistinctSnoc(PickHeld(list, flags, n - 1), list[n - 1]);
      }
    }
  }

  /** `ensureSnapshotData`: the accumulator grown to `n` slots, its contents
      kept and the new slots zero. */
  function Ensured(d: seq<int>, n: nat): (r: seq<int>)
    ensures |r| == if |d| >= n then |d| else n
    ensures r[..|d|] == d && forall i :: |d| <= i < |r| ==> r[i] == 0
  {
    if |d| >= n then d else d + Zeros(n - |d|)
  }

  /** `new long[size]` with `System.arraycopy` of the shorter `prev` into it. */
  method CopyGrown(prev: array<int>, size: nat) returns (grown: array<int>)
    requires prev.Length < size
    ensures fresh(grown) && grown[..] == Ensured(prev[..], size)
  {
    grown := new int[size](_ => 0);
    var i := 0;
    while i < prev.Length
      invariant 0 <= i <= prev.Length
      invariant grown[..i] == prev[..i] && forall j :: prev.Length <= j < size ==> grown[j] == 0
    {
      grown[i] := prev[i];
      i := i + 1;
    }
    assert grown[..] == prev[..] + Zeros(size - prev.Length) by {
      assert grown[..prev.Length] == prev[..];
    }
  }

  /** The accumulator after a takeover pass: grown to `size`, with the
      shards whose lock word was free merged in, in list order. */
  function AfterTakeover(ms: seq<Metric>, snap: seq<int>, size: nat, datas: seq<seq<int>>, flags: seq<int>): seq<int>
    requires Fits(ms, size) && |datas| == |flags|
  {
    MergeAll(ms, Ensured(snap, size), Pick(datas, flags, |datas|))
  }

  /** The pairs of a report, each told to `c` with `apply`. */
  function Applies(c: ConsumerId, pairs: seq<Pair>): (r: seq<Event>)
    ensures |r| == |pairs| && forall k :: 0 <= k < |r| ==> r[k] == Apply(c, pairs[k].key, pairs[k].value)
  {
    seq(|pairs|, k requires 0 <= k < |pairs| => Apply(c, pairs[k].key, pairs[k].value))
  }

  /** Nanoseconds to milliseconds, as the worker divides: by 1000, then by 1000. */
  function Millis(nanos: int): int
  {
    JDiv(JDiv(nanos, 1000), 1000)
  }

  /** What the consumer is told when a snapshot completes: the start and the
      duration of the period in milliseconds, the report's pairs in order,
      and last of all `done()`. */
  function Told(c: ConsumerId, startMS: int, durationMS: int, pairs: seq<Pair>): (r: seq<Event>)
    ensures |r| == |pairs| + 3
    ensures r[0] == Apply(c, "snapshot-start-ms", startMS) && r[1] == Apply(c, "snapshot-duration-ms", durationMS)
    ensures forall k :: 0 <= k < |pairs| ==> r[k + 2] == Apply(c, pairs[k].key, pairs[k].value)
    ensures r[|r| - 1] == Done(c)
    ensures forall k :: 0 <= k < |r| ==> r[k].consumer == c && (r[k].Done? <==> k == |r| - 1)
  {
    var mid := Applies(c, pairs);
    var r := [Apply(c, "snapshot-start-ms", startMS), Apply(c, "snapshot-duration-ms", durationMS)] + mid + [Done(c)];
    assert forall k :: 0 <= k < |mid| ==> r[k + 2] == mid[k];
    r
  }

  /** The closing of a snapshot that started at `start` and lasted `dur`
      nanoseconds, over the metrics `ms` and the merged accumulator `snap`. */
  function Closing(c: ConsumerId, start: int, dur: int, ms: seq<Metric>, snap: seq<int>): seq<Event>
    requires Fits(ms, |snap|)
  {
    Told(c, Millis(start), Millis(dur), ReportAll(ms, snap, Millis(dur)))
  }

  /** The worker-side state a poll of the queue can change: whether a
      snapshot runs, the snapshot number, the consumer served, the shards and
      metrics handed to the snapshot, and what has been reported. */
  datatype Round = Round(running: bool, snapshotNumber: int, consumer: ConsumerId,
                         handedOver: seq<MetricDataInstance>, metrics: seq<Metric>, events: seq<Event>)

  /** Polling `m` starts a snapshot: it is a request and none is running. */
  predicate Starts(m: Msg, running: bool)
  {
    m.ConsumerMsg? && !running
  }

  /** What polling `m` reports at once: a request while a snapshot runs is
      answered with `done()`; anything else reports nothing yet. */
  function Answer(m: Msg, running: bool): (r: seq<Event>)
    ensures r != [] <==> m.ConsumerMsg? && running
    ensures r != [] ==> r == [Done(m.consumer)]
  {
    if m.ConsumerMsg? && running then [Done(m.consumer)] else []
  }

  /** `currentMetrics(prev)`: the registered metrics, copied only when the
      count changed; since metrics are only ever appended, the answer is
      always the full registration list. */
  function CurrentMetrics(prev: seq<Metric>, metrics: seq<Metric>): (r: seq<Metric>)
    ensures |prev| <= |metrics| && prev == metrics[..|prev|] ==> r == metrics
  {
    if |prev| != |metrics| then metrics else prev
  }

  /** The registration state (`m_dataIndex`, `m_metrics`), updated by the
      synchronized `new*Metric` methods. */
  class Registry {
    /** `m_dataIndex`: the next free slot. */
    var dataIndex: nat
    /** `m_metrics`, in registration order. */
    var metrics: seq<Metric>

    /** Slots are handed out in registration order, one allocation after another. */
    ghost predicate Valid()
      reads this
    {
      Laid(metrics, 0) && dataIndex == SlotCount(metrics) && 3 <= dataIndex
    }

    /** The static initialisation: the three built-in counters take slots 0-2. */
    constructor()
      ensures Valid()
      ensures metrics == [Counter("transient-threads", TRANSIENT_THREADS), Counter("new-data-instances", NEW_DATA_INSTANCES),
                          Counter("snapshot-retries", SNAPSHOT_RETRIES)]
      ensures dataIndex == 3
    {
      // The three static registrations, in declaration order.
      metrics := [Counter("transient-threads", TRANSIENT_THREADS), Counter("new-data-instances", NEW_DATA_INSTANCES),
                  Counter("snapshot-retries", SNAPSHOT_RETRIES)];
      dataIndex := 3;
      new;
      assert metrics[1..][1..][1..] == [];
      assert Laid(metrics[1..][1..], 2) && SlotCount(metrics[1..][1..]) == 1;
      assert Laid(metrics[1..], 1) && SlotCount(metrics[1..]) == 2;
    }

    /** `newCounterMetric`, `newValueMetric`, `newCounterAndRateMetric` and
        `newTotalCounterMetric`: the kind given by `proto`, on the next free slot. */
    method NewSingleMetric(proto: Metric) returns (m: Metric)
      requires Valid() && proto.SingleIndex()
      modifies this
      ensures Valid() && m == proto.(index := old(dataIndex))
      ensures dataIndex == old(dataIndex) + 1 && metrics == old(metrics) + [m]
    {
      m := proto.(index := dataIndex);
      LaidSnoc(metrics, 0, m);
      SlotCountSnoc(metrics, m);
      metrics := metrics + [m];
      dataIndex := dataIndex + 1;
    }

    /** `newRateMetric`: five consecutive slots for init, count, total, min and max. */
    method NewRateMetric(name: string) returns (m: Metric)
      requires Valid()
      modifies this
      ensures Valid()
      ensures m == DurationRate(name, old(dataIndex), old(dataIndex) + 1, old(dataIndex) + 2, old(dataIndex) + 3, old(dataIndex) + 4)
      ensures dataIndex == old(dataIndex) + 5 && metrics == old(metrics) + [m]
    {
      var d := dataIndex;
      var r := NewDurationRate(name, d, d + 1, d + 2, d + 3, d + 4);
      m := r.value;
      LaidSnoc(metrics, 0, m);
      SlotCountSnoc(metrics, m);
      metrics := metrics + [m];
      dataIndex := dataIndex + 5;
    }

    /** Every registered metric lies below any size of at least the slot count. */
    lemma Fitting(n: nat)
      requires Valid() && dataIndex <= n
      ensures Fits(metrics, n)
    {
      LaidPrefix(metrics, |metrics|);
    }
  }

  /** The `SnapshotWorker` singleton: the shards collected since the last
      snapshot, and the state of the snapshot in progress. */
  class SnapshotWorker {
    var periodStart: int
    var currentThreadData: seq<MetricDataInstance>
    var running: bool
    var consumer: ConsumerId
    var snapshotDuration: int
    var snapshotStart: int
    var snapshotThreadInstances: seq<MetricDataInstance>
    /** The accumulator; the source's initial `null` is an empty array. */
    var snapshotData: array<int>
    var snapshotMetrics: seq<Metric>
    /** Everything the consumers have been told so far. */
    var events: seq<Event>

    constructor(now: int)
      ensures periodStart == now && currentThreadData == [] && !running && snapshotThreadInstances == []
      ensures fresh(snapshotData) && snapshotData.Length == 0 && snapshotMetrics == [] && events == []
    {
      periodStart := now;
      currentThreadData := [];
      running := false;
      consumer := 0;
      snapshotDuration := 0;
      snapshotStart := 0;
      snapshotThreadInstances := [];
      snapshotData := new int[0];
      snapshotMetrics := [];
      events := [];
    }

    /** The metrics in use are a prefix of the registrations, and shards are
        handed over only while a snapshot runs. */
    ghost predicate Consistent(metrics: seq<Metric>)
      reads this
    {
      && |snapshotMetrics| <= |metrics| && snapshotMetrics == metrics[..|snapshotMetrics|]
      && (!running ==> snapshotThreadInstances == [])
    }

    /** Everything but the consumers' view stays put. */
    twostate predicate SameRound()
      reads this
    {
      && periodStart == old(periodStart) && currentThreadData == old(currentThreadData)
      && running == old(running) && consumer == old(consumer)
      && snapshotDuration == old(snapshotDuration) && snapshotStart == old(snapshotStart)
      && snapshotThreadInstances == old(snapshotThreadInstances) && snapshotData == old(snapshotData)
      && snapshotMetrics == old(snapshotMetrics)
    }

    /** The period and the snapshot in progress stay put, and nobody is told
        anything: only the shard lists and the accumulator may change. */
    twostate predicate SamePeriod()
      reads this
    {
      && periodStart == old(periodStart) && running == old(running) && consumer == old(consumer)
      && snapshotDuration == old(snapshotDuration) && snapshotStart == old(snapshotStart)
      && snapshotMetrics == old(snapshotMetrics) && events == old(events)
    }

    /** The worker's half of starting a snapshot. */
    method Begin(c: ConsumerId, now: int, metrics: seq<Metric>)
      requires Consistent(metrics) && !running
      modifies this
      ensures Consistent(metrics) && running && consumer == c
      ensures snapshotDuration == now - old(periodStart) && snapshotStart == old(periodStart) && periodStart == now
      ensures snapshotThreadInstances == old(currentThreadData) && currentThreadData == []
      ensures snapshotMetrics == metrics && snapshotData == old(snapshotData) && events == old(events)
    {
      running := true;
      consumer := c;
      snapshotDuration := now - periodStart;
      snapshotStart := periodStart;
      snapshotThreadInstances := currentThreadData;
      currentThreadData := [];
      periodStart := now;
      snapshotMetrics := CurrentMetrics(snapshotMetrics, metrics);
    }

    /** The scan of `m_currentThreadData` with no snapshot running: the shards
        whose owner has exited are moved out, in order, and returned. */
    method SplitDeparted(dead: set<ThreadId>) returns (gone: seq<MetricDataInstance>)
      modifies this
      ensures gone == Owned(old(currentThreadData), dead, true)
      ensures currentThreadData == Owned(old(currentThreadData), dead, false)
      ensures SamePeriod() && snapshotThreadInstances == old(snapshotThreadInstances) && snapshotData == old(snapshotData)
      ensures AllData(gone) == old(AllData(gone))
    {
      var list := currentThreadData;
      var kept := [];
      gone := [];
      var i := 0;
      while i < |list|
        invariant 0 <= i <= |list|
        invariant gone == Owned(list[..i], dead, true) && kept == Owned(list[..i], dead, false)
      {
        assert list[..i + 1][..i] == list[..i];
        if list[i].owner in dead {
          gone := gone + [list[i]];
        } else {
          kept := kept + [list[i]];
        }
        i := i + 1;
      }
      assert list[..|list|] == list;
      assert this !in Shards(gone) && this !in ShardArrays(gone);
      currentThreadData := kept;
    }

    /** `ensureSnapshotData`: a missing accumulator is created, a short one is
        replaced by a longer copy, and one long enough is kept. */
    method EnsureSnapshotData(size: nat)
      modifies this
      ensures snapshotData[..] == Ensured(old(snapshotData[..]), size)
      ensures snapshotData == old(snapshotData) || fresh(snapshotData)
      ensures SamePeriod() && currentThreadData == old(currentThreadData) && snapshotThreadInstances == old(snapshotThreadInstances)
    {
      var prev := snapshotData;
      if prev.Length == 0 {
        snapshotData := new int[size](_ => 0);
        assert snapshotData[..] == prev[..] + Zeros(size);
        return;
      }
      if prev.Length >= size {
        return;
      }
      snapshotData := CopyGrown(prev, size);
    }

    /** `currentMetrics` and `ensureSnapshotData` ahead of a merge of departed
        shards: the metric list is brought up to date and the accumulator
        grown to the slot count; nothing else changes. */
    method Prepare(metrics: seq<Metric>, size: nat)
      requires Consistent(metrics)
      modifies this
      ensures snapshotMetrics == metrics && (snapshotData == old(snapshotData) || fresh(snapshotData))
      ensures snapshotData[..] == Ensured(old(snapshotData[..]), size)
      ensures periodStart == old(periodStart) && running == old(running) && consumer == old(consumer) && events == old(events)
      ensures snapshotDuration == old(snapshotDuration) && snapshotStart == old(snapshotStart)
      ensures currentThreadData == old(currentThreadData) && snapshotThreadInstances == old(snapshotThreadInstances)
    {
      snapshotMetrics := CurrentMetrics(snapshotMetrics, metrics);
      EnsureSnapshotData(size);
    }

    /** With no snapshot running, the departed shards are processed into the
        accumulator, after `currentMetrics` and `ensureSnapshotData`. */
    method FoldIn(gone: seq<MetricDataInstance>, metrics: seq<Metric>, size: nat)
      requires Consistent(metrics) && Fits(metrics, size) && Separate(gone, snapshotData)
      modifies this, ShardArrays(gone), snapshotData
      ensures snapshotMetrics == metrics && (snapshotData == old(snapshotData) || fresh(snapshotData))
      ensures snapshotData[..] == MergeAll(metrics, Ensured(old(snapshotData[..]), size), old(AllData(gone)))
      ensures periodStart == old(periodStart) && running == old(running) && consumer == old(consumer) && events == old(events)
      ensures snapshotDuration == old(snapshotDuration) && snapshotStart == old(snapshotStart)
      ensures currentThreadData == old(currentThreadData) && snapshotThreadInstances == old(snapshotThreadInstances)
    {
      ghost var datas := AllData(gone);
      assert this !in Shards(gone) && this !in ShardArrays(gone);
      Prepare(metrics, size);
      assert AllData(gone) == datas && Separate(gone, snapshotData) && Fits(metrics, snapshotData.Length);
      ProcessList(metrics, snapshotData, gone);
    }

    /** The takeover pass over the handed-over shards: every one whose lock
        is free is marked old and merged into the accumulator, and the
        others stay handed over, in order. */
    method MergeHanded()
      requires Fits(snapshotMetrics, snapshotData.Length) && Separate(snapshotThreadInstances, snapshotData)
      modifies this, Shards(snapshotThreadInstances), ShardArrays(snapshotThreadInstances), snapshotData
      ensures SamePeriod() && currentThreadData == old(currentThreadData) && snapshotData == old(snapshotData)
      ensures var list := old(snapshotThreadInstances);
              var flags := old(Flags(snapshotThreadInstances));
              && snapshotThreadInstances == PickHeld(list, flags, |list|)
              && snapshotData[..] == MergeAll(snapshotMetrics, old(snapshotData[..]), Pick(old(AllData(snapshotThreadInstances)), flags, |list|))
              && forall j :: 0 <= j < |list| ==> list[j].data == old(list[j].data) && list[j].lockFlag == old(list[j].lockFlag)
    {
      var list := snapshotThreadInstances;
      ghost var datas, flags := AllData(list), Flags(list);
      AllDataAt(list);
      assert this !in Shards(list) && this !in ShardArrays(list);
      snapshotThreadInstances := MergePass(snapshotMetrics, snapshotData, list, datas, flags);
    }

    /** A snapshot with every shard merged is reported, then closed: the
        consumer hears the start, the duration and every metric's report,
        then `done()`; each metric is reset and the worker is idle again. */
    method Finish()
      requires running && snapshotThreadInstances == [] && Fits(snapshotMetrics, snapshotData.Length)
      modifies this, snapshotData
      ensures events == old(events) + Closing(old(consumer), old(snapshotStart), old(snapshotDuration), old(snapshotMetrics), old(snapshotData[..]))
      ensures snapshotData[..] == ResetAll(old(snapshotMetrics), old(snapshotData[..]))
      ensures !running && snapshotMetrics == [] && snapshotThreadInstances == [] && snapshotDuration == 0
      ensures periodStart == old(periodStart) && currentThreadData == old(currentThreadData)
      ensures consumer == old(consumer) && snapshotStart == old(snapshotStart) && snapshotData == old(snapshotData)
    {
      var durationMS := Millis(snapshotDuration);
      var pairs := ReportInOrder(snapshotMetrics, snapshotData, durationMS);
      events := events + Told(consumer, Millis(snapshotStart), durationMS, pairs);
      snapshotDuration := 0;
      snapshotThreadInstances := [];
      ResetAllInPlace(snapshotMetrics, snapshotData);
      snapshotMetrics := [];
      running := false;
    }
  }

  class Engine {
    const registry: Registry
    const worker: SnapshotWorker
    /** `m_snapshotNumber`. */
    var snapshotNumber: int
    /** `m_msgQueue`. */
    var msgQueue: seq<Msg>
    /** The thread-local `m_currentMetricData`, per thread. */
    var current: map<ThreadId, MetricDataInstance>
    /** Threads whose weak owner reference has been cleared. */
    var deadThreads: set<ThreadId>

    /** Every shard created so far. */
    ghost var instances: set<MetricDataInstance>
    /** Every shard, every shard's array and the accumulator: what the worker
        may touch. */
    ghost var Repr: set<object>

    /** The shards handed to the running snapshot, then those collected in
        this period, then those still queued. */
    ghost function Tracked(): seq<MetricDataInstance>
      reads this, worker
    {
      worker.snapshotThreadInstances + worker.currentThreadData + InstancesOf(msgQueue)
    }

    ghost predicate Valid()
      reads this, registry, worker, instances, if WORKER in current then {current[WORKER]} else {}
    {
      && registry.Valid()
      && worker.Consistent(registry.metrics)
      && WORKER !in deadThreads
      && CurrentValid(current, instances)
      && TrackedValid(Tracked(), instances)
      && ArraysValid(instances, worker.snapshotData, registry.dataIndex, Repr)
    }

    /** The worker's state and the set of exited threads stay put. */
    twostate predicate WorkerUnchanged()
      reads this
    {
      snapshotNumber == old(snapshotNumber) && deadThreads == old(deadThreads)
    }

    constructor(now: int)
      ensures Valid() && fresh(instances) && fresh(registry) && fresh(worker)
      ensures snapshotNumber == 1 && msgQueue == [] && current == map[] && !worker.running && worker.events == []
    {
      registry := new Registry();
      var w := new SnapshotWorker(now);
      worker := w;
      snapshotNumber := 1;
      msgQueue := [];
      current := map[];
      deadThreads := {};
      instances := {};
      Repr := {w.snapshotData};
    }

    /** Registration touches only the registry, and the slot count only grows. */
    twostate lemma RegistrationKeepsValid()
      requires old(Valid()) && unchanged(this) && unchanged(worker) && unchanged(instances) && registry.Valid()
      requires old(registry.dataIndex) <= registry.dataIndex
      requires |old(registry.metrics)| <= |registry.metrics| && old(registry.metrics) == registry.metrics[..|old(registry.metrics)|]
      ensures Valid()
    {
    }

    /** The thread's shard would take a write right now. */
    ghost predicate Accepts(t: ThreadId)
      reads this, if t in current then {current[t]} else {}
    {
      t in current && current[t].lockFlag == 0 && !current[t].isOld
    }

    ghost function Footprint(t: ThreadId): set<object>
      reads this, if t in current then {current[t]} else {}
    {
      if t in current then {current[t], current[t].data} else {}
    }

    /** A brand-new shard keeps the invariant. */
    twostate lemma NewShardKeepsValid(new inst: MetricDataInstance)
      requires old(Valid()) && unchanged(registry) && old(allocated(this))
      requires fresh(inst) && fresh(inst.data) && inst.data.Length == registry.dataIndex && inst.lockFlag == 0
      requires instances == old(instances) + {inst} && unchanged(old(instances))
      requires current.Keys == old(current.Keys) + {inst.owner} && current[inst.owner] == inst
      requires forall u :: u in old(current) && u != inst.owner ==> current[u] == old(current[u])
      requires msgQueue == old(msgQueue) + [InstanceMsg(inst)] && WorkerUnchanged() && unchanged(worker)
      requires Repr == old(Repr) + {inst, inst.data}
      ensures Valid() && Tracked() == old(Tracked()) + [inst]
    {
      InstancesOfSnoc(old(msgQueue), InstanceMsg(inst));
      assert Tracked() == old(Tracked()) + [inst];
      assert inst !in old(Tracked());
      DistinctSnoc(old(Tracked()), inst);
      assert TrackedValid(Tracked(), instances);
      assert CurrentValid(current, instances);
      assert ArraysValid(instances, worker.snapshotData, registry.dataIndex, Repr);
    }

    /** A write to one shard keeps the invariant: its array is the old one or a
        fresh one of at most the slot count, and its lock ends where it began. */
    twostate lemma ShardWriteKeepsValid(inst: MetricDataInstance)
      requires old(Valid()) && unchanged(registry) && unchanged(worker) && inst in instances
      requires WorkerUnchanged() && msgQueue == old(msgQueue) && current == old(current) && instances == old(instances)
      requires Repr == old(Repr) + {inst.data}
      requires forall a :: a in instances && a != inst ==> unchanged(a)
      requires inst.data == old(inst.data) || fresh(inst.data)
      requires inst.data.Length <= registry.dataIndex && inst.lockFlag == old(inst.lockFlag)
      ensures Valid()
    {
    }

    /** `newDataInstance`: a fresh shard of the current slot count becomes the
        thread's shard and is queued for the worker. The wake-up of the
        worker that follows is not modelled. */
    method NewDataInstance(t: ThreadId) returns (inst: MetricDataInstance)
      requires Valid()
      modifies this
      ensures Valid() && WorkerUnchanged()
      ensures fresh(inst) && fresh(inst.data) && inst.data[..] == Zeros(registry.dataIndex)
      ensures inst.lockFlag == 0 && !inst.isOld && inst.owner == t && inst.snapshotNumber == snapshotNumber
      ensures current == old(current)[t := inst] && instances == old(instances) + {inst}
      ensures msgQueue == old(msgQueue) + [InstanceMsg(inst)] && Repr == old(Repr) + {inst, inst.data}
    {
      inst := new MetricDataInstance(registry.dataIndex, snapshotNumber, t);
      current := current[t := inst];
      instances := instances + {inst};
      Repr := Repr + {inst, inst.data};
      msgQueue := msgQueue + [InstanceMsg(inst)];
      NewShardKeepsValid(inst);
    }

    /** `current()`: the thread's shard, created on first use. */
    method Current(t: ThreadId) returns (inst: MetricDataInstance)
      requires Valid()
      modifies this
      ensures Valid() && WorkerUnchanged()
      ensures t in current && inst == current[t]
      ensures t in old(current) ==> inst == old(current[t]) && current == old(current) && msgQueue == old(msgQueue) && instances == old(instances)
      ensures t !in old(current) ==> fresh(inst) && fresh(inst.data) && inst.data[..] == Zeros(registry.dataIndex) && inst.lockFlag == 0 && !inst.isOld
      ensures t !in old(current) ==> current == old(current)[t := inst] && msgQueue == old(msgQueue) + [InstanceMsg(inst)] && instances == old(instances) + {inst}
      ensures fresh(Repr - old(Repr))
    {
      if t in current {
        inst := current[t];
      } else {
        inst := NewDataInstance(t);
      }
    }

    /** The outcome of one write by thread `t`: an accepting shard takes it in
        place; otherwise a new shard, queued for the worker, holds only it. */
    twostate predicate Wrote(t: ThreadId, w: Write, size: nat)
      reads this, if t in current then {current[t], current[t].data} else {}
    {
      && WriteFits(w, 0, size) && old(t in current ==> current[t].data.Length <= size)
      && t in current && current[t].lockFlag == 0 && !current[t].isOld
      && (old(Accepts(t)) ==>
            current == old(current) && msgQueue == old(msgQueue) && instances == old(instances)
            && (current[t].data == old(current[t].data) || fresh(current[t].data))
            && current[t].data[..] == Written(w, old(current[t].data[..]), size))
      && (!old(Accepts(t)) ==>
            fresh(current[t]) && fresh(current[t].data)
            && current == old(current)[t := current[t]] && instances == old(instances) + {current[t]}
            && msgQueue == old(msgQueue) + [InstanceMsg(current[t])]
            && current[t].data[..] == Written(w, Zeros(size), size))
    }

    /** One attempt of a write on the thread's current shard (`data.add`,
        `data.increment`, `data.decrement` or `data.record`): a shard that is
        free and not old takes it, and a refused attempt changes nothing. The
        second attempt of `add` after `newDataInstance` is this step too, and
        when it is refused the write is dropped with "Failed to lock new
        instance!". */
    method TryWrite(t: ThreadId, w: Write) returns (ok: bool)
      requires Valid() && WriteFits(w, 0, registry.dataIndex) && t in current
      modifies this, current[t], current[t].data
      ensures Valid() && WorkerUnchanged() && current == old(current) && msgQueue == old(msgQueue) && instances == old(instances)
      ensures ok <==> old(Accepts(t))
      ensures current[t].lockFlag == old(current[t].lockFlag) && current[t].isOld == old(current[t].isOld)
      ensures ok ==> (current[t].data == old(current[t].data) || fresh(current[t].data))
                     && current[t].data[..] == Written(w, old(current[t].data[..]), registry.dataIndex)
      ensures !ok ==> current[t].data == old(current[t].data) && current[t].data[..] == old(current[t].data[..])
      ensures fresh(Repr - old(Repr))
    {
      var inst := current[t];
      ok := WriteTo(inst, w, registry.dataIndex);
      Repr := Repr + {inst.data};
      ShardWriteKeepsValid(inst);
    }

    /** `MetricsEngine.add`, `increment`, `decrement` and `record` when no
        other thread's step falls between `newDataInstance` and the second
        attempt: the write goes to the thread's shard, and a refused write is
        retried once on a new shard, which then always takes it. */
    method Apply(t: ThreadId, w: Write)
      requires Valid() && WriteFits(w, 0, registry.dataIndex)
      modifies this, Footprint(t)
      ensures Valid() && WorkerUnchanged() && unchanged(registry) && Wrote(t, w, registry.dataIndex)
      ensures fresh(Repr - old(Repr))
    {
      var inst := Current(t);
      WriteOrRetry(t, inst, w);
    }

    /** The write on the shard `current()` returned, then the retry on a new one. */
    method WriteOrRetry(t: ThreadId, inst: MetricDataInstance, w: Write)
      requires Valid() && WriteFits(w, 0, registry.dataIndex) && t in current && inst == current[t]
      modifies this, inst, inst.data
      ensures Valid() && WorkerUnchanged() && t in current && current[t].lockFlag == 0 && !current[t].isOld
      ensures old(inst.lockFlag == 0 && !inst.isOld) ==>
                current == old(current) && msgQueue == old(msgQueue) && instances == old(instances)
                && (inst.data == old(inst.data) || fresh(inst.data))
                && inst.data[..] == Written(w, old(inst.data[..]), registry.dataIndex)
      ensures !old(inst.lockFlag == 0 && !inst.isOld) ==>
                fresh(current[t]) && fresh(current[t].data)
                && current == old(current)[t := current[t]] && instances == old(instances) + {current[t]}
                && msgQueue == old(msgQueue) + [InstanceMsg(current[t])]
                && current[t].data[..] == Written(w, Zeros(registry.dataIndex), registry.dataIndex)
      ensures fresh(Repr - old(Repr))
    {
      var ok := TryWrite(t, w);
      if !ok {
        Retry(t, w);
      }
    }

    /** `newDataInstance` and the second attempt, with no other step between
        them: nobody else can have locked or taken over the new shard. */
    method Retry(t: ThreadId, w: Write)
      requires Valid() && WriteFits(w, 0, registry.dataIndex)
      modifies this
      ensures Valid() && WorkerUnchanged() && t in current && current[t].lockFlag == 0 && !current[t].isOld
      ensures fresh(current[t]) && fresh(current[t].data)
      ensures current == old(current)[t := current[t]] && instances == old(instances) + {current[t]}
      ensures msgQueue == old(msgQueue) + [InstanceMsg(current[t])]
      ensures current[t].data[..] == Written(w, Zeros(registry.dataIndex), registry.dataIndex)
      ensures fresh(Repr - old(Repr))
    {
      var spare := NewDataInstance(t);
      var ok := TryWrite(t, w);
      assert ok;
    }

    /** A registered metric's slots are all below the slot count. */
    lemma Registered(m: Metric)
      requires Valid() && m in registry.metrics
      ensures m.WellFormed() && m.DistinctSlots() && m.MaxIndex() < registry.dataIndex
    {
      var k :| 0 <= k < |registry.metrics| && registry.metrics[k] == m;
      LaidMaxIndex(registry.metrics, k);
    }

    /** `increment()` of a counter, a counter-and-rate or a total counter. */
    method IncrementMetric(t: ThreadId, m: Metric)
      requires Valid() && m in registry.metrics && (m.Counter? || m.CounterAndRate? || m.TotalCounter?)
      modifies this, Footprint(t)
      ensures Valid() && WorkerUnchanged() && unchanged(registry) && Wrote(t, Bump(m.index, 1), registry.dataIndex)
    {
      Registered(m);
      Apply(t, Bump(m.index, 1));
    }

    /** `TotalCounterMetric.decrement()`. */
    method DecrementMetric(t: ThreadId, m: Metric)
      requires Valid() && m in registry.metrics && m.TotalCounter?
      modifies this, Footprint(t)
      ensures Valid() && WorkerUnchanged() && unchanged(registry) && Wrote(t, Bump(m.index, -1), registry.dataIndex)
    {
      Registered(m);
      Apply(t, Bump(m.index, -1));
    }

    /** `add(value)` of a value metric or a total counter adds the value; a
        plain counter's `add` ignores it and counts one. */
    method AddToMetric(t: ThreadId, m: Metric, value: int)
      requires Valid() && m in registry.metrics && (m.Counter? || m.TotalCounter? || m.Value?)
      modifies this, Footprint(t)
      ensures Valid() && WorkerUnchanged() && unchanged(registry)
      ensures Wrote(t, Bump(m.index, if m.Counter? then 1 else value), registry.dataIndex)
    {
      Registered(m);
      if m.Counter? {
        Apply(t, Bump(m.index, 1));
      } else {
        Apply(t, Bump(m.index, value));
      }
    }

    /** `MetricsEngine.record` of one duration. */
    method RecordDuration(t: ThreadId, m: Metric, dur: int)
      requires Valid() && m in registry.metrics && m.DurationRate?
      modifies this, Footprint(t)
      ensures Valid() && WorkerUnchanged() && unchanged(registry)
      ensures Wrote(t, Time(m, dur), registry.dataIndex)
    {
      Registered(m);
      Apply(t, Time(m, dur));
    }

    // ---- The snapshot worker ----

    /** A worker step that moves shards between the queue and the worker's
        lists, or drops some of them, and changes no shard's array or lock,
        keeps the invariant. */
    twostate lemma WorkerStepKeepsValid()
      requires old(Valid()) && unchanged(registry) && instances == old(instances) && current == old(current)
      requires deadThreads == old(deadThreads) && worker.snapshotData == old(worker.snapshotData)
      requires forall a :: a in instances ==> a.data == old(a.data) && a.lockFlag == old(a.lockFlag)
      requires Tracked() == old(Tracked()) || TrackedValid(Tracked(), instances)
      requires worker.Consistent(registry.metrics) && Repr == old(Repr)
      ensures Valid()
    {
      assert CurrentValid(current, instances);
      assert TrackedValid(Tracked(), instances);
      assert ArraysValid(instances, worker.snapshotData, registry.dataIndex, Repr);
    }

    /** Valid survives a step of the worker that may swap in a fresh
        accumulator, which joins `Repr`. */
    twostate lemma AccumulatorKeepsValid()
      requires old(Valid()) && unchanged(registry) && instances == old(instances) && current == old(current)
      requires deadThreads == old(deadThreads) && msgQueue == old(msgQueue)
      requires worker.snapshotData == old(worker.snapshotData) || fresh(worker.snapshotData)
      requires forall a :: a in instances ==> a.data == old(a.data) && a.lockFlag == old(a.lockFlag)
      requires worker.snapshotThreadInstances == old(worker.snapshotThreadInstances)
      requires worker.currentThreadData == old(worker.currentThreadData)
      requires worker.Consistent(registry.metrics) && Repr == old(Repr) + {worker.snapshotData}
      ensures Valid()
    {
      assert CurrentValid(current, instances);
      assert Tracked() == old(Tracked());
      assert ArraysValid(instances, worker.snapshotData, registry.dataIndex, Repr);
    }

    /** `snapshot(consumer)`: the request is queued for the worker. The
        wake-up of the worker that follows is not modelled. */
    method Snapshot(c: ConsumerId)
      requires Valid()
      modifies this
      ensures Valid() && WorkerUnchanged() && current == old(current) && instances == old(instances)
      ensures msgQueue == old(msgQueue) + [ConsumerMsg(c)]
    {
      InstancesOfSnoc(msgQueue, ConsumerMsg(c));
      msgQueue := msgQueue + [ConsumerMsg(c)];
      assert InstancesOf(msgQueue) == old(InstancesOf(msgQueue));
    }

    /** A recording thread ends between writes: its thread-local shard is gone
        and its shard's weak owner reference reads as cleared. */
    method ThreadExits(t: ThreadId)
      requires Valid() && t != WORKER
      modifies this
      ensures Valid() && deadThreads == old(deadThreads) + {t} && current == old(current) - {t}
      ensures msgQueue == old(msgQueue) && instances == old(instances) && snapshotNumber == old(snapshotNumber)
    {
      deadThreads := deadThreads + {t};
      current := current - {t};
    }

    /** Thread `t` is inside a write: it has taken its shard's try-lock. */
    method HoldLock(t: ThreadId) returns (ok: bool)
      requires Valid() && t != WORKER && t in current
      modifies current[t]
      ensures Valid() && (ok <==> old(current[t].lockFlag) == 0 && !old(current[t].isOld))
      ensures current[t].lockFlag == (if ok then 1 else old(current[t].lockFlag))
    {
      ok := current[t].Lock();
    }

    /** Thread `t` leaves its write: the lock is free again. */
    method ReleaseLock(t: ThreadId)
      requires Valid() && t in current
      modifies current[t]
      ensures Valid() && current[t].lockFlag == 0
    {
      current[t].Unlock();
    }

    /** A polled snapshot request while a snapshot runs is answered at once
        with `done()` and nothing else. */
    method Decline()
      requires Valid() && msgQueue != [] && msgQueue[0].ConsumerMsg? && worker.running
      modifies this, worker
      ensures Valid() && msgQueue == old(msgQueue[1..]) && current == old(current) && instances == old(instances)
      ensures WorkerUnchanged() && worker.SameRound() && Tracked() == old(Tracked()) && Repr == old(Repr)
      ensures worker.events == old(worker.events) + [Done(old(msgQueue[0].consumer))]
    {
      var c := msgQueue[0].consumer;
      assert InstancesOf(msgQueue) == InstancesOf(msgQueue[1..]);
      msgQueue := msgQueue[1..];
      worker.events := worker.events + [Done(c)];
      WorkerStepKeepsValid();
    }

    /** A polled snapshot request with no snapshot running starts one: the
        period ends now, and the shards collected in it are handed over. */
    method StartSnapshot(now: int)
      requires Valid() && msgQueue != [] && msgQueue[0].ConsumerMsg? && !worker.running
      modifies this, worker
      ensures Valid() && msgQueue == old(msgQueue[1..]) && current == old(current) && instances == old(instances)
      ensures deadThreads == old(deadThreads) && Tracked() == old(Tracked()) && Repr == old(Repr)
      ensures worker.running && snapshotNumber == old(snapshotNumber) + 1 && worker.consumer == old(msgQueue[0].consumer)
      ensures worker.snapshotDuration == now - old(worker.periodStart) && worker.snapshotStart == old(worker.periodStart)
      ensures worker.periodStart == now && worker.currentThreadData == []
      ensures worker.snapshotThreadInstances == old(worker.currentThreadData)
      ensures worker.snapshotMetrics == registry.metrics && worker.events == old(worker.events)
      ensures worker.snapshotData == old(worker.snapshotData)
    {
      var c := msgQueue[0].consumer;
      assert InstancesOf(msgQueue) == InstancesOf(msgQueue[1..]);
      msgQueue := msgQueue[1..];
      snapshotNumber := snapshotNumber + 1;
      worker.Begin(c, now, registry.metrics);
      WorkerStepKeepsValid();
    }

    /** A polled new shard joins `m_currentThreadData`. */
    method CollectShard()
      requires Valid() && msgQueue != [] && msgQueue[0].InstanceMsg?
      modifies this, worker
      ensures Valid() && msgQueue == old(msgQueue[1..]) && current == old(current) && instances == old(instances)
      ensures WorkerUnchanged() && Tracked() == old(Tracked()) && Repr == old(Repr)
      ensures worker.currentThreadData == old(worker.currentThreadData) + [old(msgQueue[0].inst)]
      ensures worker.running == old(worker.running) && worker.consumer == old(worker.consumer)
      ensures worker.snapshotThreadInstances == old(worker.snapshotThreadInstances)
      ensures worker.snapshotMetrics == old(worker.snapshotMetrics) && worker.snapshotData == old(worker.snapshotData)
      ensures worker.events == old(worker.events)
    {
      var x := msgQueue[0].inst;
      assert InstancesOf(msgQueue) == [x] + InstancesOf(msgQueue[1..]);
      msgQueue := msgQueue[1..];
      worker.currentThreadData := worker.currentThreadData + [x];
      WorkerStepKeepsValid();
    }

    /** The worker counts one event in one of the engine's own counters; a
        new shard it needs for that goes to the back of the queue. */
    method Count(slot: nat)
      requires Valid() && slot < 3
      modifies this, Footprint(WORKER)
      ensures Valid() && unchanged(registry, worker) && WorkerUnchanged() && Wrote(WORKER, Bump(slot, 1), registry.dataIndex)
      ensures worker.snapshotData[..] == old(worker.snapshotData[..])
      ensures Accepts(WORKER) && old(Tracked()) <= Tracked() && Consumers(msgQueue) == Consumers(old(msgQueue))
      ensures |msgQueue| == old(|msgQueue|) + (if old(Accepts(WORKER)) then 0 else 1)
      ensures instances == old(instances) || instances == old(instances) + {current[WORKER]}
      ensures fresh(Repr - old(Repr))
    {
      ghost var q := msgQueue;
      assert worker.snapshotData !in Footprint(WORKER);
      Apply(WORKER, Bump(slot, 1));
      if msgQueue != q {
        InstancesOfSnoc(q, msgQueue[|q|]);
        ConsumersSnoc(q, msgQueue[|q|]);
        assert msgQueue == q + [msgQueue[|q|]];
      }
    }

    /** One poll of `m_msgQueue`. */
    method PollOne(now: int)
      requires Valid() && msgQueue != []
      modifies this, worker, Repr
      ensures Valid() && unchanged(registry) && deadThreads == old(deadThreads)
      ensures worker.snapshotData == old(worker.snapshotData) && old(Tracked()) <= Tracked()
      ensures fresh(Repr - old(Repr))
      ensures |msgQueue| + (if Accepts(WORKER) then 0 else 1) < old(|msgQueue| + (if Accepts(WORKER) then 0 else 1))
      ensures Consumers(old(msgQueue)) == (if old(msgQueue[0]).ConsumerMsg? then [old(msgQueue[0]).consumer] else []) + Consumers(msgQueue)
      ensures worker.events == old(worker.events) + Answer(old(msgQueue[0]), old(worker.running))
      ensures worker.running == (old(worker.running) || old(msgQueue[0]).ConsumerMsg?)
      ensures Starts(old(msgQueue[0]), old(worker.running)) ==>
                && snapshotNumber == old(snapshotNumber) + 1 && worker.consumer == old(msgQueue[0]).consumer
                && worker.snapshotMetrics == registry.metrics
      ensures !Starts(old(msgQueue[0]), old(worker.running)) ==>
                && snapshotNumber == old(snapshotNumber) && worker.consumer == old(worker.consumer)
                && worker.snapshotMetrics == old(worker.snapshotMetrics)
                && worker.snapshotThreadInstances == old(worker.snapshotThreadInstances)
    {
      var msg := msgQueue[0];
      if msg.ConsumerMsg? {
        assert Consumers(msgQueue) == [msg.consumer] + Consumers(msgQueue[1..]);
        if worker.running {
          Decline();
        } else {
          StartSnapshot(now);
        }
      } else {
        assert Consumers(msgQueue) == Consumers(msgQueue[1..]);
        CollectShard();
        Count(NEW_DATA_INSTANCES);
      }
    }

    /** The worker-side state a poll can change. */
    ghost function RoundOf(): Round
      reads this, worker
    {
      Round(worker.running, snapshotNumber, worker.consumer, worker.snapshotThreadInstances, worker.snapshotMetrics, worker.events)
    }

    /** Since `start`, the requests `seen` have been polled: the first one
        started a snapshot unless one was running, and every other one was
        answered with `done()`. */
    ghost predicate PolledSince(start: Round, seen: seq<ConsumerId>)
      reads this, worker, registry
    {
      && worker.events == start.events + Dones(Late(seen, start.running))
      && worker.running == (start.running || seen != [])
      && (start.running || seen == [] ==>
            && snapshotNumber == start.snapshotNumber && worker.consumer == start.consumer
            && worker.snapshotThreadInstances == start.handedOver && worker.snapshotMetrics == start.metrics)
      && (!start.running && seen != [] ==>
            snapshotNumber == start.snapshotNumber + 1 && worker.consumer == seen[0] && worker.snapshotMetrics == registry.metrics)
    }

    /** One turn of the poll loop, with the requests polled before it. */
    method PollNext(now: int, ghost start: Round, ghost seen: seq<ConsumerId>) returns (ghost seen': seq<ConsumerId>)
      requires Valid() && msgQueue != [] && PolledSince(start, seen)
      modifies this, worker, Repr
      ensures Valid() && unchanged(registry) && deadThreads == old(deadThreads)
      ensures worker.snapshotData == old(worker.snapshotData) && old(Tracked()) <= Tracked()
      ensures fresh(Repr - old(Repr))
      ensures |msgQueue| + (if Accepts(WORKER) then 0 else 1) < old(|msgQueue| + (if Accepts(WORKER) then 0 else 1))
      ensures seen + Consumers(old(msgQueue)) == seen' + Consumers(msgQueue)
      ensures PolledSince(start, seen')
    {
      var msg := msgQueue[0];
      ghost var q, ev := msgQueue, worker.events;
      PollOne(now);
      if msg.ConsumerMsg? {
        DonesLateSnoc(seen, start.running, msg.consumer);
        assert worker.events == start.events + (Dones(Late(seen, start.running)) + Answer(msg, start.running || seen != []));
        assert seen + Consumers(q) == (seen + [msg.consumer]) + Consumers(msgQueue);
        assert (seen + [msg.consumer])[0] == if seen == [] then msg.consumer else seen[0];
        seen' := seen + [msg.consumer];
      } else {
        assert Consumers(q) == Consumers(msgQueue);
        seen' := seen;
      }
    }

    /** The worker's poll loop: the queue is emptied; a new shard is collected
        and counted in new-data-instances; a request while a snapshot runs, or
        after one was started in this loop, is answered at once. */
    method DrainQueue(now: int)
      requires Valid()
      modifies this, worker, Repr
      ensures Valid() && unchanged(registry) && msgQueue == [] && deadThreads == old(deadThreads)
      ensures worker.snapshotData == old(worker.snapshotData) && old(Tracked()) <= Tracked()
      ensures PolledSince(old(RoundOf()), Consumers(old(msgQueue))) && fresh(Repr - old(Repr))
    {
      ghost var start, seen := RoundOf(), [];
      while msgQueue != []
        invariant Valid() && unchanged(registry) && deadThreads == old(deadThreads)
        invariant worker.snapshotData == old(worker.snapshotData) && old(Tracked()) <= Tracked()
        invariant fresh(Repr - old(Repr))
        invariant Consumers(old(msgQueue)) == seen + Consumers(msgQueue)
        invariant PolledSince(start, seen)
        decreases |msgQueue| + (if Accepts(WORKER) then 0 else 1)
      {
        seen := PollNext(now, start, seen);
      }
      assert seen == Consumers(old(msgQueue)) && start == old(RoundOf());
    }

    /** `ensureSnapshotData` on the slot count; a new accumulator joins `Repr`. */
    method EnsureData()
      requires Valid()
      modifies this, worker
      ensures Valid() && unchanged(registry) && WorkerUnchanged() && worker.SamePeriod()
      ensures msgQueue == old(msgQueue) && current == old(current) && instances == old(instances)
      ensures worker.currentThreadData == old(worker.currentThreadData)
      ensures worker.snapshotThreadInstances == old(worker.snapshotThreadInstances)
      ensures worker.snapshotData[..] == Ensured(old(worker.snapshotData[..]), registry.dataIndex)
      ensures fresh(Repr - old(Repr))
    {
      worker.EnsureSnapshotData(registry.dataIndex);
      Repr := Repr + {worker.snapshotData};
      assert TrackedValid(Tracked(), instances);
      assert ArraysValid(instances, worker.snapshotData, registry.dataIndex, Repr);
    }

    /** The scan of the collected shards with no snapshot running: those of
        exited threads leave the worker's lists. */
    method SplitThreads() returns (gone: seq<MetricDataInstance>)
      requires Valid() && !worker.running
      modifies worker
      ensures Valid() && worker.SamePeriod()
      ensures worker.snapshotThreadInstances == old(worker.snapshotThreadInstances) && worker.snapshotData == old(worker.snapshotData)
      ensures gone == Owned(old(worker.currentThreadData), deadThreads, true)
      ensures worker.currentThreadData == Owned(old(worker.currentThreadData), deadThreads, false)
      ensures Distinct(gone) && (forall i :: 0 <= i < |gone| ==> gone[i] in instances) && AllData(gone) == old(AllData(gone))
    {
      ghost var list := worker.currentThreadData;
      EmptyFront(worker.snapshotThreadInstances, list, InstancesOf(msgQueue));
      gone := worker.SplitDeparted(deadThreads);
      TrackedFront(list, InstancesOf(msgQueue), instances);
      OwnedDistinct(list, deadThreads, true);
      OwnedDistinct(list, deadThreads, false);
      TrackedSublist(list, worker.currentThreadData, InstancesOf(msgQueue), instances);
      EmptyFront(worker.snapshotThreadInstances, worker.currentThreadData, InstancesOf(msgQueue));
      WorkerStepKeepsValid();
    }

    /** `m_numShutdownThreads.increment()` once per departed shard. */
    method CountDeparted(n: nat)
      requires Valid()
      modifies this, Footprint(WORKER)
      ensures Valid() && unchanged(registry, worker) && WorkerUnchanged()
      ensures worker.snapshotData[..] == old(worker.snapshotData[..])
      ensures old(Tracked()) <= Tracked() && Consumers(msgQueue) == Consumers(old(msgQueue)) && old(instances) <= instances
      ensures fresh(Repr - old(Repr))
    {
      var i := 0;
      while i < n
        invariant Valid() && unchanged(registry) && WorkerUnchanged()
        invariant worker.snapshotData[..] == old(worker.snapshotData[..])
        invariant old(Tracked()) <= Tracked() && Consumers(msgQueue) == Consumers(old(msgQueue))
        invariant fresh(Repr - old(Repr)) && old(instances) <= instances
        invariant fresh(Footprint(WORKER) - old(Footprint(WORKER)))
      {
        Count(TRANSIENT_THREADS);
        i := i + 1;
      }
    }

    /** With no snapshot running, the shards of exited threads leave the
        worker's list, each is counted in transient-threads, and they are
        merged into the accumulator now, to be reported with the next
        snapshot. */
    method FoldDeparted()
      requires Valid() && !worker.running
      modifies this, worker, Repr
      ensures Valid() && unchanged(registry) && deadThreads == old(deadThreads)
      ensures !worker.running && worker.events == old(worker.events)
      ensures worker.currentThreadData == Owned(old(worker.currentThreadData), deadThreads, false)
      ensures Consumers(msgQueue) == Consumers(old(msgQueue))
      ensures Owned(old(worker.currentThreadData), deadThreads, true) == [] ==>
                worker.snapshotMetrics == old(worker.snapshotMetrics) && worker.snapshotData[..] == old(worker.snapshotData[..])
      ensures Owned(old(worker.currentThreadData), deadThreads, true) != [] ==>
                && worker.snapshotMetrics == registry.metrics && Fits(registry.metrics, registry.dataIndex)
                && worker.snapshotData[..] == MergeAll(registry.metrics, Ensured(old(worker.snapshotData[..]), registry.dataIndex),
                                                       old(AllData(Owned(worker.currentThreadData, deadThreads, true))))
    {
      var gone := SplitAndCount();
      if gone != [] {
        FoldGone(gone);
      }
    }

    /** The scan of the collected shards with no snapshot running: those of
        exited threads are moved out and each is counted in transient-threads. */
    method SplitAndCount() returns (gone: seq<MetricDataInstance>)
      requires Valid() && !worker.running
      modifies this, worker, Repr
      ensures Valid() && unchanged(registry) && deadThreads == old(deadThreads) && fresh(Repr - old(Repr))
      ensures !worker.running && worker.events == old(worker.events) && worker.snapshotMetrics == old(worker.snapshotMetrics)
      ensures worker.snapshotData[..] == old(worker.snapshotData[..])
      ensures gone == Owned(old(worker.currentThreadData), deadThreads, true)
      ensures worker.currentThreadData == Owned(old(worker.currentThreadData), deadThreads, false)
      ensures Consumers(msgQueue) == Consumers(old(msgQueue))
      ensures Distinct(gone) && (forall i :: 0 <= i < |gone| ==> gone[i] in instances) && AllData(gone) == old(AllData(gone))
    {
      gone := SplitThreads();
      CountGone(gone);
    }

    /** `m_numShutdownThreads.increment()` for each departed shard; the
        departed shards themselves are left alone. */
    method CountGone(gone: seq<MetricDataInstance>)
      requires Valid() && Distinct(gone)
      requires forall i :: 0 <= i < |gone| ==> gone[i] in instances && gone[i].owner in deadThreads
      modifies this, Footprint(WORKER)
      ensures Valid() && unchanged(registry, worker) && WorkerUnchanged() && fresh(Repr - old(Repr))
      ensures worker.snapshotData[..] == old(worker.snapshotData[..]) && Consumers(msgQueue) == Consumers(old(msgQueue))
      ensures (forall i :: 0 <= i < |gone| ==> gone[i] in instances) && AllData(gone) == old(AllData(gone))
    {
      assert Shards(gone) !! Footprint(WORKER) && ShardArrays(gone) !! Footprint(WORKER);
      ghost var datas := AllData(gone);
      CountDeparted(|gone|);
      assert AllData(gone) == datas;
    }

    /** `currentMetrics`, `ensureSnapshotData` and the processing of every
        departed shard. */
    method FoldGone(gone: seq<MetricDataInstance>)
      requires Valid() && !worker.running && Distinct(gone) && forall i :: 0 <= i < |gone| ==> gone[i] in instances
      modifies this, worker, Repr
      ensures Valid() && unchanged(registry) && WorkerUnchanged()
      ensures msgQueue == old(msgQueue) && !worker.running && worker.events == old(worker.events)
      ensures worker.currentThreadData == old(worker.currentThreadData)
      ensures worker.snapshotMetrics == registry.metrics && Fits(registry.metrics, registry.dataIndex)
      ensures worker.snapshotData[..] == MergeAll(registry.metrics, Ensured(old(worker.snapshotData[..]), registry.dataIndex), old(AllData(gone)))
    {
      assert Separate(gone, worker.snapshotData);
      registry.Fitting(registry.dataIndex);
      worker.FoldIn(gone, registry.metrics, registry.dataIndex);
      Repr := Repr + {worker.snapshotData};
      AccumulatorKeepsValid();
    }

    /** The takeover pass of a running snapshot over the handed-over shards:
        the accumulator is made to fit, every shard whose lock is free is
        marked old and merged, and the others stay handed over. */
    method TakeOverAll()
      requires Valid() && worker.running
      modifies this, worker, Repr
      ensures Valid() && unchanged(registry) && WorkerUnchanged() && fresh(Repr - old(Repr))
      ensures msgQueue == old(msgQueue) && worker.SamePeriod() && worker.currentThreadData == old(worker.currentThreadData)
      ensures Fits(worker.snapshotMetrics, registry.dataIndex) && Fits(worker.snapshotMetrics, worker.snapshotData.Length)
      ensures var list := old(worker.snapshotThreadInstances);
              var flags := old(Flags(worker.snapshotThreadInstances));
              && worker.snapshotThreadInstances == PickHeld(list, flags, |list|)
              && worker.snapshotData[..] == AfterTakeover(worker.snapshotMetrics, old(worker.snapshotData[..]), registry.dataIndex,
                                                          old(AllData(worker.snapshotThreadInstances)), flags)
    {
      ghost var list := worker.snapshotThreadInstances;
      ghost var datas, flags, before := AllData(list), Flags(list), worker.snapshotData[..];
      assert worker !in Shards(list) && worker !in ShardArrays(list);
      EnsureData();
      assert AllData(list) == datas && Flags(list) == flags;
      ghost var grown := worker.snapshotData[..];
      registry.Fitting(registry.dataIndex);
      FitsPrefix(registry.metrics, registry.dataIndex, |worker.snapshotMetrics|);
      PassOver();
      assert worker.snapshotData[..] == MergeAll(worker.snapshotMetrics, grown, Pick(datas, flags, |list|));
    }

    /** The merge of every handed-over shard whose lock is free into an
        accumulator that fits; the locked ones stay handed over. */
    method PassOver()
      requires Valid() && worker.running && Fits(worker.snapshotMetrics, worker.snapshotData.Length)
      modifies worker, Repr
      ensures Valid() && unchanged(this, registry) && worker.SamePeriod() && worker.currentThreadData == old(worker.currentThreadData)
      ensures worker.snapshotData == old(worker.snapshotData)
      ensures var list := old(worker.snapshotThreadInstances);
              var flags := old(Flags(worker.snapshotThreadInstances));
              && worker.snapshotThreadInstances == PickHeld(list, flags, |list|)
              && worker.snapshotData[..] == MergeAll(worker.snapshotMetrics, old(worker.snapshotData[..]),
                                                     Pick(old(AllData(worker.snapshotThreadInstances)), flags, |list|))
    {
      ghost var list, rest := worker.snapshotThreadInstances, worker.currentThreadData + InstancesOf(msgQueue);
      ghost var flags := Flags(list);
      assert Tracked() == list + rest;
      TrackedFront(list, rest, instances);
      assert Separate(list, worker.snapshotData);
      worker.MergeHanded();
      PickHeldSublist(list, flags, |list|);
      TrackedSublist(list, worker.snapshotThreadInstances, rest, instances);
      assert Tracked() == worker.snapshotThreadInstances + rest;
      WorkerStepKeepsValid();
    }

    /** One pass of a running snapshot: if a shard was still locked, the
        attempt is counted in snapshot-retries and more work is requested;
        otherwise the snapshot is reported and closed. */
    method MergeStep() returns (more: bool)
      requires Valid() && worker.running
      modifies this, worker, Repr
      ensures Valid() && unchanged(registry) && deadThreads == old(deadThreads)
      ensures Consumers(msgQueue) == Consumers(old(msgQueue)) && (more <==> worker.running)
      ensures Fits(old(worker.snapshotMetrics), registry.dataIndex)
      ensures var list := old(worker.snapshotThreadInstances);
              var flags := old(Flags(worker.snapshotThreadInstances));
              var merged := AfterTakeover(old(worker.snapshotMetrics), old(worker.snapshotData[..]), registry.dataIndex,
                                          old(AllData(worker.snapshotThreadInstances)), flags);
              && (more <==> PickHeld(list, flags, |list|) != [])
              && (more ==> && worker.snapshotThreadInstances == PickHeld(list, flags, |list|)
                           && worker.snapshotData[..] == merged && worker.events == old(worker.events))
              && (!more ==> && worker.snapshotData[..] == ResetAll(old(worker.snapshotMetrics), merged)
                            && worker.events == old(worker.events) + Closing(old(worker.consumer), old(worker.snapshotStart),
                                                                             old(worker.snapshotDuration), old(worker.snapshotMetrics), merged))
    {
      ghost var list, flags, datas := worker.snapshotThreadInstances, Flags(worker.snapshotThreadInstances), AllData(worker.snapshotThreadInstances);
      ghost var ms, before, c, ev := worker.snapshotMetrics, worker.snapshotData[..], worker.consumer, worker.events;
      ghost var start, dur := worker.snapshotStart, worker.snapshotDuration;
      TakeOverAll();
      ghost var merged := worker.snapshotData[..];
      assert merged == AfterTakeover(ms, before, registry.dataIndex, datas, flags);
      if worker.snapshotThreadInstances != [] {
        Count(SNAPSHOT_RETRIES);
        more := true;
      } else {
        CloseSnapshot();
        assert worker.events == ev + Closing(c, start, dur, ms, merged);
        more := false;
      }
    }

    /** The report of a snapshot whose every shard is merged, then the reset. */
    method CloseSnapshot()
      requires Valid() && worker.running && worker.snapshotThreadInstances == [] && Fits(worker.snapshotMetrics, worker.snapshotData.Length)
      modifies worker, worker.snapshotData
      ensures Valid() && !worker.running && worker.snapshotData == old(worker.snapshotData)
      ensures worker.events == old(worker.events) + Closing(old(worker.consumer), old(worker.snapshotStart),
                                                            old(worker.snapshotDuration), old(worker.snapshotMetrics), old(worker.snapshotData[..]))
      ensures worker.snapshotData[..] == ResetAll(old(worker.snapshotMetrics), old(worker.snapshotData[..]))
    {
      worker.Finish();
      WorkerStepKeepsValid();
    }

    /** `internal_doWork`: the queue is drained; then, with no snapshot
        running, the shards of exited threads are folded in; with one
        running, a takeover pass is made and the snapshot closed if it
        succeeded. `more` is the pass's `requestMoreWork()`. */
    method DoWork(now: int) returns (more: bool)
      requires Valid()
      modifies this, worker, Repr
      ensures Valid() && unchanged(registry) && deadThreads == old(deadThreads)
      ensures Consumers(msgQueue) == [] && (more <==> worker.running)
      ensures old(worker.events) + Dones(Late(Consumers(old(msgQueue)), old(worker.running))) <= worker.events
      ensures !old(worker.running) && Consumers(old(msgQueue)) == [] ==> !more && worker.events == old(worker.events)
      ensures !more && (old(worker.running) || Consumers(old(msgQueue)) != []) ==>
                |worker.events| > 0 && worker.events[|worker.events| - 1] == Done(if old(worker.running) then old(worker.consumer) else Consumers(old(msgQueue))[0])
    {
      DrainQueue(now);
      if !worker.running {
        FoldDeparted();
        more := false;
      } else {
        more := MergeStep();
      }
    }
  }
}
