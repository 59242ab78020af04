// The metric kinds and their per-kind rules over a slot array: which slots a
// metric owns, how a per-thread instance is folded into the snapshot, how the
// snapshot is reset for the next period, and which (key, value) pairs a
// snapshot reports. Each rule is a function on the array's contents, and the
// source's in-place array updates are methods proved equal to it.
module Metrics {
  import opened Wrappers
  import opened JavaInt

  /** The closed set of metric kinds (MetricBase and its subclasses). */
  datatype Metric =
    | Counter(name: string, index: nat)
    | CounterAndRate(name: string, index: nat)
    | TotalCounter(name: string, index: nat)
    | Value(name: string, index: nat)
    | DurationRate(name: string, initIndex: nat, indexOfCount: nat, indexOfTotal: nat, indexOfMin: nat, indexOfMax: nat)
    | MinMaxAvg(name: string, initIndex: nat, indexOfCount: nat, indexOfTotal: nat, indexOfMin: nat, indexOfMax: nat)
    | MinMax(name: string, initIndex: nat, indexOfMin: nat, indexOfMax: nat)
  {
    predicate SingleIndex() { Counter? || CounterAndRate? || TotalCounter? || Value? }

    /** The largest slot the metric uses. */
    function MaxIndex(): nat
    {
      if SingleIndex() then index else indexOfMax
    }

    predicate IsSlot(j: nat)
    {
      if SingleIndex() then j == index
      else if MinMax? then j == initIndex || j == indexOfMin || j == indexOfMax
      else j == initIndex || j == indexOfCount || j == indexOfTotal || j == indexOfMin || j == indexOfMax
    }

    /** What the kind's constructor checks before it accepts the indices. */
    predicate WellFormed()
    {
      match this
      case DurationRate(_, i, c, t, mn, mx) => i <= mx && c <= mx && t <= mx && mn <= mx
      case MinMaxAvg(_, i, c, t, mn, mx) => i <= mx && c <= mx && t <= mx && mn <= mx
      case MinMax(_, i, mn, mx) => i < mn < mx
      case _ => true
    }

    /** No two roles share a slot (true of every metric the engine registers). */
    predicate DistinctSlots()
    {
      match this
      case DurationRate(_, i, c, t, mn, mx) => Distinct5(i, c, t, mn, mx)
      case MinMaxAvg(_, i, c, t, mn, mx) => Distinct5(i, c, t, mn, mx)
      case MinMax(_, i, mn, mx) => i != mn && i != mx && mn != mx
      case _ => true
    }
  }

  predicate Distinct5(i: nat, c: nat, t: nat, mn: nat, mx: nat)
  {
    i != c && i != t && i != mn && i != mx && c != t && c != mn && c != mx && t != mn && t != mx && mn != mx
  }

  datatype IndexError = IndexError(message: string)
  const INDEX_MESSAGE := "indexOfMax must be the largest index passed in"

  /** The DurationRateMetric constructor. */
  function NewDurationRate(name: string, initIndex: nat, indexOfCount: nat, indexOfTotal: nat, indexOfMin: nat, indexOfMax: nat): (r: Result<Metric, IndexError>)
    ensures r.Ok? <==> initIndex <= indexOfMax && indexOfCount <= indexOfMax && indexOfTotal <= indexOfMax && indexOfMin <= indexOfMax
    ensures r.Ok? ==> r.value.WellFormed() && r.value.DurationRate? && r.value.MaxIndex() == indexOfMax
    ensures r.Err? ==> r.error.message == INDEX_MESSAGE
  {
    if initIndex > indexOfMax || indexOfCount > indexOfMax || indexOfTotal > indexOfMax || indexOfMin > indexOfMax
    then Err(IndexError(INDEX_MESSAGE))
    else Ok(DurationRate(name, initIndex, indexOfCount, indexOfTotal, indexOfMin, indexOfMax))
  }

  /** The MinMaxAvgValueMetric constructor. */
  function NewMinMaxAvg(name: string, initIndex: nat, indexOfCount: nat, indexOfTotal: nat, indexOfMin: nat, indexOfMax: nat): (r: Result<Metric, IndexError>)
    ensures r.Ok? <==> initIndex <= indexOfMax && indexOfCount <= indexOfMax && indexOfTotal <= indexOfMax && indexOfMin <= indexOfMax
    ensures r.Ok? ==> r.value.WellFormed() && r.value.MinMaxAvg? && r.value.MaxIndex() == indexOfMax
  {
    if initIndex > indexOfMax || indexOfCount > indexOfMax || indexOfTotal > indexOfMax || indexOfMin > indexOfMax
    then Err(IndexError(INDEX_MESSAGE))
    else Ok(MinMaxAvg(name, initIndex, indexOfCount, indexOfTotal, indexOfMin, indexOfMax))
  }

  /** The MinMaxValueMetric constructor: the order must be strict. */
  function NewMinMax(name: string, initIndex: nat, indexOfMin: nat, indexOfMax: nat): (r: Result<Metric, IndexError>)
    ensures r.Ok? <==> initIndex < indexOfMin < indexOfMax
    ensures r.Ok? ==> r.value.WellFormed() && r.value.DistinctSlots() && r.value.MaxIndex() == indexOfMax
  {
    if initIndex >= indexOfMin || indexOfMin >= indexOfMax then Err(IndexError(INDEX_MESSAGE))
    else Ok(MinMax(name, initIndex, indexOfMin, indexOfMax))
  }

  // ---- MetricsEngine.toRatePerMinute ----

  const MS_PER_MINUTE: int := 1000 * 60

  /** `datum * (MS_PER_MINUTE * 1000 / durationMS) / 1000` in long arithmetic;
      a zero duration is Java's ArithmeticException. */
  function ToRatePerMinute(durationMS: int, datum: int): (r: Option<int>)
    ensures r.None? <==> durationMS == 0
  {
    if durationMS == 0 then None
    else Some(JDiv(datum * JDiv(MS_PER_MINUTE * 1000, durationMS), 1000))
  }

  lemma RateOverOneMinute(datum: int)
    ensures ToRatePerMinute(MS_PER_MINUTE, datum) == Some(datum)
  {
    assert JDiv(MS_PER_MINUTE * 1000, MS_PER_MINUTE) == 1000;
  }

  lemma RateOfZero(durationMS: int)
    requires durationMS != 0
    ensures ToRatePerMinute(durationMS, 0) == Some(0)
  {
  }

  /** For a positive period the rate never overstates the per-minute count. */
  lemma RateNeverOverstates(durationMS: int, datum: nat)
    requires durationMS > 0
    ensures ToRatePerMinute(durationMS, datum).value >= 0
    ensures ToRatePerMinute(durationMS, datum).value * durationMS <= datum * MS_PER_MINUTE
  {
    var mult := (MS_PER_MINUTE * 1000) / durationMS;
    assert JDiv(MS_PER_MINUTE * 1000, durationMS) == mult;
    assert mult * durationMS <= MS_PER_MINUTE * 1000;
    var p := datum * mult;
    assert p >= 0 by { MulNonNegative(datum, mult); }
    assert JDiv(p, 1000) == p / 1000;
    var r := p / 1000;
    assert r * 1000 <= p;
    calc {
      r * durationMS * 1000;
      == { MulComm3(r, durationMS, 1000); }
      r * 1000 * durationMS;
      <= { MulMonotone(r * 1000, p, durationMS); }
      p * durationMS;
      == { assert p * durationMS == datum * (mult * durationMS); }
      datum * (mult * durationMS);
      <= { MulMonotone(mult * durationMS, MS_PER_MINUTE * 1000, datum); }
      datum * (MS_PER_MINUTE * 1000);
    }
    assert r * durationMS <= datum * MS_PER_MINUTE;
  }

  lemma MulNonNegative(a: nat, b: nat)
    ensures a * b >= 0
  {
  }

  lemma MulComm3(a: int, b: int, c: int)
    ensures a * b * c == a * c * b
  {
  }

  lemma MulMonotone(a: int, b: int, c: nat)
    requires a <= b
    ensures a * c <= b * c && c * a <= c * b
  {
  }

  // ---- The per-kind rules on the contents of a slot array ----

  /** `resetDataForNextSnapshot`: single-slot kinds zero their slot, except the
      running total, which keeps it; the statistics kinds mark the set
      initialised and empty, in the source's assignment order. */
  function Reset(m: Metric, snap: seq<int>): (r: seq<int>)
    requires m.MaxIndex() < |snap| && m.WellFormed()
    ensures |r| == |snap|
    ensures forall j :: 0 <= j < |snap| && !m.IsSlot(j) ==> r[j] == snap[j]
  {
    match m
    case TotalCounter(_, _) => snap
    case DurationRate(_, i, c, t, mn, mx) => snap[i := 1][mn := LONG_MAX][mx := LONG_MIN][t := 0][c := 0]
    case MinMaxAvg(_, i, c, t, mn, mx) => snap[i := 1][mn := LONG_MAX][mx := LONG_MIN][t := 0][c := 0]
    case MinMax(_, i, mn, mx) => snap[i := 1][mn := LONG_MAX][mx := LONG_MIN]
    case _ => snap[m.index := 0]
  }

  /** `ensureInitialized`: a statistics kind resets an array that covers its
      slots and whose init slot is still 0; everything else is left alone. */
  function Initialized(m: Metric, data: seq<int>): (r: seq<int>)
    requires m.WellFormed()
    ensures |r| == |data|
    ensures forall j :: 0 <= j < |data| && !m.IsSlot(j) ==> r[j] == data[j]
    ensures r != data <==> !m.SingleIndex() && m.MaxIndex() < |data| && data[m.initIndex] == 0 && Reset(m, data) != data
  {
    if m.SingleIndex() || m.MaxIndex() >= |data| then data
    else if data[m.initIndex] == 0 then Reset(m, data)
    else data
  }

  /** `addDataToSnapshot`: folds one instance's slots into the snapshot. An
      instance too short to hold the metric's slots contributes nothing, and
      so does a min/max instance holding no value (init slot other than 2). */
  function AddData(m: Metric, snap: seq<int>, inst: seq<int>): (r: seq<int>)
    requires m.MaxIndex() < |snap| && m.WellFormed()
    ensures |r| == |snap|
    ensures forall j :: 0 <= j < |snap| && !m.IsSlot(j) ==> r[j] == snap[j]
    ensures m.MaxIndex() >= |inst| ==> r == snap
  {
    if m.MaxIndex() >= |inst| then snap
    else match m
      case DurationRate(_, _, c, t, mn, mx) => FoldStats(snap, inst, c, t, mn, mx)
      case MinMaxAvg(_, _, c, t, mn, mx) => FoldStats(snap, inst, c, t, mn, mx)
      case MinMax(_, i, mn, mx) =>
        if inst[i] != 2 then snap else FoldMinMax(snap[i := 2], inst, mn, mx)
      case _ => snap[m.index := snap[m.index] + inst[m.index]]
  }

  function FoldMinMax(snap: seq<int>, inst: seq<int>, mn: nat, mx: nat): (r: seq<int>)
    requires mn < |snap| && mx < |snap| && mn < |inst| && mx < |inst|
    ensures |r| == |snap|
    ensures forall j :: 0 <= j < |snap| && j != mn && j != mx ==> r[j] == snap[j]
  {
    var s1 := if inst[mn] < snap[mn] then snap[mn := inst[mn]] else snap;
    if inst[mx] > s1[mx] then s1[mx := inst[mx]] else s1
  }

  function FoldStats(snap: seq<int>, inst: seq<int>, c: nat, t: nat, mn: nat, mx: nat): (r: seq<int>)
    requires c < |snap| && t < |snap| && mn < |snap| && mx < |snap|
    requires c < |inst| && t < |inst| && mn < |inst| && mx < |inst|
    ensures |r| == |snap|
    ensures forall j :: 0 <= j < |snap| && j != c && j != t && j != mn && j != mx ==> r[j] == snap[j]
  {
    var s2 := FoldMinMax(snap, inst, mn, mx);
    var s3 := s2[t := s2[t] + inst[t]];
    s3[c := s3[c] + inst[c]]
  }

  // ---- report ----

  datatype Pair = Pair(key: string, value: int)

  function Key(m: Metric, suffix: string): string { m.name + suffix }

  /** The pairs `report` hands to the consumer, in order. A zero snapshot
      duration makes toRatePerMinute throw; the engine catches that around
      the whole `report` call, so the pairs after it are never emitted. */
  function Report(m: Metric, snap: seq<int>, durationMS: int): (r: seq<Pair>)
    requires m.MaxIndex() < |snap| && m.WellFormed()
  {
    match m
    case Counter(_, i) => [Pair(Key(m, ".count"), snap[i])]
    case TotalCounter(_, i) => [Pair(Key(m, ".count"), snap[i])]
    case Value(_, i) => [Pair(Key(m, ".value"), snap[i])]
    case CounterAndRate(_, i) =>
      [Pair(Key(m, ".count"), snap[i])] +
      (match ToRatePerMinute(durationMS, snap[i])
       case None => []
       case Some(rate) => [Pair(Key(m, ".rate-per-minute"), rate)])
    case DurationRate(_, _, c, t, mn, mx) =>
      [Pair(Key(m, ".count"), snap[c])] +
      (match ToRatePerMinute(durationMS, snap[c])
       case None => []
       case Some(rate) =>
         [Pair(Key(m, ".rate-per-minute"), rate)] +
         (if snap[c] == 0 then
            [Pair(Key(m, ".avg-duration-ms"), 0), Pair(Key(m, ".min-duration-ms"), 0), Pair(Key(m, ".max-duration-ms"), 0)]
          else
            [Pair(Key(m, ".avg-duration-ms"), NanosToMillis(JDiv(snap[t], snap[c]))),
             Pair(Key(m, ".min-duration-ms"), NanosToMillis(snap[mn])),
             Pair(Key(m, ".max-duration-ms"), NanosToMillis(snap[mx]))]))
    case MinMaxAvg(_, _, c, t, mn, mx) =>
      if snap[c] == 0 then
        [Pair(Key(m, ".avg"), 0), Pair(Key(m, ".min"), 0), Pair(Key(m, ".max"), 0)]
      else
        [Pair(Key(m, ".avg"), JDiv(snap[t], snap[c])), Pair(Key(m, ".min"), snap[mn]), Pair(Key(m, ".max"), snap[mx])]
    case MinMax(_, i, mn, mx) =>
      if snap[i] != 2 then [Pair(Key(m, ".min"), 0), Pair(Key(m, ".max"), 0)]
      else [Pair(Key(m, ".min"), snap[mn]), Pair(Key(m, ".max"), snap[mx])]
  }

  /** `x / 1000 / 1000` in long arithmetic. */
  function NanosToMillis(x: int): int
  {
    JDiv(JDiv(x, 1000), 1000)
  }

  function Keys(ps: seq<Pair>): (ks: seq<string>)
    ensures |ks| == |ps| && forall i :: 0 <= i < |ps| ==> ks[i] == ps[i].key
  {
    seq(|ps|, i requires 0 <= i < |ps| => ps[i].key)
  }

  /** The report emits its keys in the documented order; only a zero period
      cuts it short, right after the count. */
  lemma ReportKeyOrder(m: Metric, snap: seq<int>, durationMS: int)
    requires m.MaxIndex() < |snap| && m.WellFormed() && durationMS != 0
    ensures m.DurationRate? ==> (Keys(Report(m, snap, durationMS)) ==
      [m.name + ".count", m.name + ".rate-per-minute", m.name + ".avg-duration-ms", m.name + ".min-duration-ms", m.name + ".max-duration-ms"])
    ensures m.CounterAndRate? ==> Keys(Report(m, snap, durationMS)) == [m.name + ".count", m.name + ".rate-per-minute"]
    ensures m.MinMaxAvg? ==> Keys(Report(m, snap, durationMS)) == [m.name + ".avg", m.name + ".min", m.name + ".max"]
    ensures m.MinMax? ==> Keys(Report(m, snap, durationMS)) == [m.name + ".min", m.name + ".max"]
    ensures m.Counter? || m.TotalCounter? ==> Keys(Report(m, snap, durationMS)) == [m.name + ".count"]
    ensures m.Value? ==> Keys(Report(m, snap, durationMS)) == [m.name + ".value"]
  {
  }

  lemma ZeroPeriodCutsReport(m: Metric, snap: seq<int>)
    requires m.MaxIndex() < |snap| && m.WellFormed() && (m.DurationRate? || m.CounterAndRate?)
    ensures Keys(Report(m, snap, 0)) == [m.name + ".count"]
  {
  }

  /** A DurationRate report of a non-empty snapshot: the average of the
      nanosecond durations, and the extremes, in whole milliseconds. */
  lemma DurationReportValues(m: Metric, snap: seq<int>, durationMS: int)
    requires m.DurationRate? && m.MaxIndex() < |snap| && m.WellFormed() && durationMS != 0
    requires snap[m.indexOfCount] > 0 && snap[m.indexOfTotal] >= 0 && snap[m.indexOfMin] >= 0 && snap[m.indexOfMax] >= 0
    ensures var r := Report(m, snap, durationMS);
      |r| == 5 &&
      r[2].value == snap[m.indexOfTotal] / snap[m.indexOfCount] / 1_000_000 &&
      r[3].value == snap[m.indexOfMin] / 1_000_000 &&
      r[4].value == snap[m.indexOfMax] / 1_000_000
  {
    var c, t := snap[m.indexOfCount], snap[m.indexOfTotal];
    assert JDiv(t, c) == t / c;
    DivDiv(t / c);
    DivDiv(snap[m.indexOfMin]);
    DivDiv(snap[m.indexOfMax]);
  }

  lemma DivDiv(x: nat)
    ensures NanosToMillis(x) == x / 1_000_000
  {
    assert JDiv(x, 1000) == x / 1000;
    assert JDiv(x / 1000, 1000) == x / 1000 / 1000;
  }

  /** After a reset every reported value is 0, except the running total,
      which survives the reset. */
  lemma ReportAfterReset(m: Metric, snap: seq<int>, durationMS: int, k: nat)
    requires m.MaxIndex() < |snap| && m.WellFormed() && m.DistinctSlots() && !m.TotalCounter?
    requires k < |Report(m, Reset(m, snap), durationMS)|
    ensures Report(m, Reset(m, snap), durationMS)[k].value == 0
  {
  }

  lemma TotalSurvivesReset(m: Metric, snap: seq<int>, durationMS: int)
    requires m.TotalCounter? && m.index < |snap|
    ensures Report(m, Reset(m, snap), durationMS) == Report(m, snap, durationMS)
  {
  }

  // ---- Properties of the fold ----

  lemma FoldMinMaxCommutes(snap: seq<int>, a: seq<int>, b: seq<int>, mn: nat, mx: nat)
    requires mn != mx && mn < |snap| && mx < |snap| && mn < |a| && mx < |a| && mn < |b| && mx < |b|
    ensures FoldMinMax(FoldMinMax(snap, a, mn, mx), b, mn, mx) == FoldMinMax(FoldMinMax(snap, b, mn, mx), a, mn, mx)
  {
    var l := FoldMinMax(FoldMinMax(snap, a, mn, mx), b, mn, mx);
    var r := FoldMinMax(FoldMinMax(snap, b, mn, mx), a, mn, mx);
    assert l[mn] == r[mn] && l[mx] == r[mx];
    assert forall j :: 0 <= j < |snap| ==> l[j] == r[j];
  }

  lemma FoldStatsCommutes(snap: seq<int>, a: seq<int>, b: seq<int>, c: nat, t: nat, mn: nat, mx: nat)
    requires c != t && c != mn && c != mx && t != mn && t != mx && mn != mx
    requires c < |snap| && t < |snap| && mn < |snap| && mx < |snap|
    requires c < |a| && t < |a| && mn < |a| && mx < |a| && c < |b| && t < |b| && mn < |b| && mx < |b|
    ensures FoldStats(FoldStats(snap, a, c, t, mn, mx), b, c, t, mn, mx) == FoldStats(FoldStats(snap, b, c, t, mn, mx), a, c, t, mn, mx)
  {
    var l := FoldStats(FoldStats(snap, a, c, t, mn, mx), b, c, t, mn, mx);
    var r := FoldStats(FoldStats(snap, b, c, t, mn, mx), a, c, t, mn, mx);
    var la := FoldStats(snap, a, c, t, mn, mx);
    var rb := FoldStats(snap, b, c, t, mn, mx);
    assert la[mn] == FoldMinMax(snap, a, mn, mx)[mn] && la[mx] == FoldMinMax(snap, a, mn, mx)[mx];
    assert rb[mn] == FoldMinMax(snap, b, mn, mx)[mn] && rb[mx] == FoldMinMax(snap, b, mn, mx)[mx];
    assert l[mn] == FoldMinMax(la, b, mn, mx)[mn] && l[mx] == FoldMinMax(la, b, mn, mx)[mx];
    assert r[mn] == FoldMinMax(rb, a, mn, mx)[mn] && r[mx] == FoldMinMax(rb, a, mn, mx)[mx];
    assert l[mn] == r[mn] && l[mx] == r[mx];
    assert l[c] == r[c] && l[t] == r[t];
    assert forall j :: 0 <= j < |snap| ==> l[j] == r[j];
  }

  /** Instances may be folded into the snapshot in any order. */
  lemma AddDataCommutes(m: Metric, snap: seq<int>, a: seq<int>, b: seq<int>)
    requires m.MaxIndex() < |snap| && m.WellFormed() && m.DistinctSlots()
    ensures AddData(m, AddData(m, snap, a), b) == AddData(m, AddData(m, snap, b), a)
  {
    if m.MaxIndex() < |a| && m.MaxIndex() < |b| {
      match m
      case DurationRate(_, i, c, t, mn, mx) =>
        FoldStatsCommutes(snap, a, b, c, t, mn, mx);
      case MinMaxAvg(_, i, c, t, mn, mx) =>
        FoldStatsCommutes(snap, a, b, c, t, mn, mx);
      case MinMax(_, i, mn, mx) =>
        if a[i] == 2 && b[i] == 2 {
          var sa := FoldMinMax(snap[i := 2], a, mn, mx);
          var sb := FoldMinMax(snap[i := 2], b, mn, mx);
          assert sa[i := 2] == sa && sb[i := 2] == sb;
          FoldMinMaxCommutes(snap[i := 2], a, b, mn, mx);
        } else if a[i] == 2 {
          assert AddData(m, AddData(m, snap, a), b) == AddData(m, snap, a);
        }
      case _ =>
    }
  }

  /** An instance reset to "no data" contributes nothing to the snapshot
      (the running total is the exception: its reset keeps the slot). */
  lemma AddDataOfEmpty(m: Metric, snap: seq<int>, inst: seq<int>)
    requires m.MaxIndex() < |snap| && m.WellFormed() && m.DistinctSlots() && !m.TotalCounter?
    requires m.MaxIndex() < |inst|
    requires !m.SingleIndex() ==> IsLong(snap[m.indexOfMin]) && IsLong(snap[m.indexOfMax])
    ensures AddData(m, snap, Reset(m, inst)) == snap
  {
    if m.SingleIndex() {
      assert snap[m.index := snap[m.index]] == snap;
    } else {
      match m
      case DurationRate(_, i, c, t, mn, mx) =>
        var e := Reset(m, inst);
        assert e[mn] == LONG_MAX && e[mx] == LONG_MIN && e[t] == 0 && e[c] == 0;
        assert FoldMinMax(snap, e, mn, mx) == snap;
      case MinMaxAvg(_, i, c, t, mn, mx) =>
        var e := Reset(m, inst);
        assert e[mn] == LONG_MAX && e[mx] == LONG_MIN && e[t] == 0 && e[c] == 0;
        assert FoldMinMax(snap, e, mn, mx) == snap;
      case MinMax(_, i, mn, mx) =>
        assert Reset(m, inst)[i] == 1;
    }
  }

  /** Initialising twice is initialising once. */
  lemma InitializedIdempotent(m: Metric, data: seq<int>)
    requires m.WellFormed() && m.DistinctSlots()
    ensures Initialized(m, Initialized(m, data)) == Initialized(m, data)
  {
    if !m.SingleIndex() && m.MaxIndex() < |data| && data[m.initIndex] == 0 {
      match m
      case DurationRate(_, _, _, _, _, _) =>
      case MinMaxAvg(_, _, _, _, _, _) =>
      case MinMax(_, _, _, _) =>
    }
  }

  // ---- The in-place forms the snapshot worker and the instances run ----

  method ResetDataForNextSnapshot(m: Metric, snap: array<int>)
    requires m.MaxIndex() < snap.Length && m.WellFormed()
    modifies snap
    ensures snap[..] == Reset(m, old(snap[..]))
  {
    match m {
      case TotalCounter(_, _) =>
      case DurationRate(_, i, c, t, mn, mx) =>
        snap[i] := 1; snap[mn] := LONG_MAX; snap[mx] := LONG_MIN; snap[t] := 0; snap[c] := 0;
      case MinMaxAvg(_, i, c, t, mn, mx) =>
        snap[i] := 1; snap[mn] := LONG_MAX; snap[mx] := LONG_MIN; snap[t] := 0; snap[c] := 0;
      case MinMax(_, i, mn, mx) =>
        snap[i] := 1; snap[mn] := LONG_MAX; snap[mx] := LONG_MIN;
      case _ =>
        snap[m.index] := 0;
    }
  }

  method EnsureInitialized(m: Metric, data: array<int>)
    requires m.WellFormed()
    modifies data
    ensures data[..] == Initialized(m, old(data[..]))
  {
    if m.SingleIndex() || m.MaxIndex() >= data.Length {
      return;
    }
    if data[m.initIndex] == 0 {
      ResetDataForNextSnapshot(m, data);
    }
  }

  method AddDataToSnapshot(m: Metric, snap: array<int>, inst: array<int>)
    requires m.MaxIndex() < snap.Length && m.WellFormed() && snap != inst
    modifies snap
    ensures snap[..] == AddData(m, old(snap[..]), inst[..])
  {
    if m.MaxIndex() >= inst.Length {
      return;
    }
    match m {
      case DurationRate(_, _, c, t, mn, mx) => FoldStatsInPlace(snap, inst, c, t, mn, mx);
      case MinMaxAvg(_, _, c, t, mn, mx) => FoldStatsInPlace(snap, inst, c, t, mn, mx);
      case MinMax(_, i, mn, mx) =>
        if inst[i] != 2 {
          return;
        }
        snap[i] := 2;
        FoldMinMaxInPlace(snap, inst, mn, mx);
      case _ =>
        snap[m.index] := snap[m.index] + inst[m.index];
    }
  }

  method FoldMinMaxInPlace(snap: array<int>, inst: array<int>, mn: nat, mx: nat)
    requires mn < snap.Length && mx < snap.Length && mn < inst.Length && mx < inst.Length && snap != inst
    modifies snap
    ensures snap[..] == FoldMinMax(old(snap[..]), inst[..], mn, mx)
  {
    if inst[mn] < snap[mn] {
      snap[mn] := inst[mn];
    }
    if inst[mx] > snap[mx] {
      snap[mx] := inst[mx];
    }
  }

  method FoldStatsInPlace(snap: array<int>, inst: array<int>, c: nat, t: nat, mn: nat, mx: nat)
    requires c < snap.Length && t < snap.Length && mn < snap.Length && mx < snap.Length
    requires c < inst.Length && t < inst.Length && mn < inst.Length && mx < inst.Length && snap != inst
    modifies snap
    ensures snap[..] == FoldStats(old(snap[..]), inst[..], c, t, mn, mx)
  {
    FoldMinMaxInPlace(snap, inst, mn, mx);
    snap[t] := snap[t] + inst[t];
    snap[c] := snap[c] + inst[c];
  }
}
