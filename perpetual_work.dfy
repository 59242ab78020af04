// The work coalescer: an atomic tick that only has to change to keep a single
// runner going. Each compare-and-set and each runner's turn is a method of the
// class, one atomic step of the protocol; the task pool is the count of runner
// submissions it has not started yet.
module PerpetualWork {
  import opened Wrappers

  type Thread = nat

  /** One `requestMoreWork` call: who makes it and the tick value it read before its compare-and-sets. */
  datatype Request = Request(caller: Thread, seen: nat)

  /** The tick after one request's two compare-and-sets, when the tick is `t`. */
  function Bump(t: nat, r: Request): (u: nat)
    ensures u != 0
    ensures r.seen == t ==> u == t + 1
    ensures r.seen != t && t != 0 ==> u == t
    ensures t == 0 ==> u == r.seen + 1
  {
    if r.seen == t then t + 1
    else if t == 0 then r.seen + 1
    else t
  }

  /** The tick after the requests `reqs`, made one after the other while a runner owns the tick `t`. */
  function AfterRequests(t: nat, reqs: seq<Request>): (u: nat)
    requires t != 0
    ensures u >= t
    ensures u == t <==> forall i | 0 <= i < |reqs| :: reqs[i].seen != t
  {
    if reqs == [] then t
    else Bump(AfterRequests(t, reqs[..|reqs| - 1]), reqs[|reqs| - 1])
  }

  /**
   * What a runner that starts on tick `t` with `numProcessed == k` does when the
   * requests of `windows[i]` arrive during its i-th `_doWork`: the number of
   * `_doWork` calls it makes in the end, and the tick it leaves behind (0 when it
   * stopped, otherwise it has resubmitted itself). Missing windows have no requests.
   */
  function RunOf(t: nat, windows: seq<seq<Request>>, k: nat, maxPerRun: int): (r: (nat, nat))
    requires t != 0
    decreases |windows|
  {
    var w := if windows == [] then [] else windows[0];
    var after := AfterRequests(t, w);
    if after == t then (k, 0)
    else if k >= maxPerRun then (k, after)
    else RunOf(after, windows[1..], k + 1, maxPerRun)
  }

  function Max(a: int, b: int): int { if a < b then b else a }

  /** From version `from` on, every write raised the tick by at least one. */
  ghost predicate Rising(ts: seq<nat>, from: nat)
    requires from < |ts|
  {
    forall j | from <= j < |ts| :: ts[j] >= ts[from] + (j - from)
  }

  /**
   * A run makes at least one `_doWork`, never more than `maxPerRun` (or one), never
   * more than one per window plus one, and it only leaves the tick non-zero (and
   * resubmits itself) once it reached `maxPerRun`.
   */
  lemma {:induction false} RunBounds(t: nat, windows: seq<seq<Request>>, k: nat, maxPerRun: int)
    requires t != 0 && k >= 1 && k <= Max(1, maxPerRun)
    ensures var (n, u) := RunOf(t, windows, k, maxPerRun);
      k <= n <= Max(1, maxPerRun) && n <= k + |windows| && (u != 0 ==> n >= maxPerRun)
    decreases |windows|
  {
    var w := if windows == [] then [] else windows[0];
    var after := AfterRequests(t, w);
    if after != t && k < maxPerRun {
      RunBounds(after, windows[1..], k + 1, maxPerRun);
    }
  }

  /**
   * Coalescing: a run goes on after its first `_doWork` exactly when some request
   * during that `_doWork` won its compare-and-set, however many did; and one run
   * stops without resubmitting exactly when a window passes with no winner.
   */
  lemma FirstWindow(t: nat, w: seq<Request>, rest: seq<seq<Request>>, maxPerRun: int)
    requires t != 0
    ensures RunOf(t, [w] + rest, 1, maxPerRun).0 == 1 && RunOf(t, [w] + rest, 1, maxPerRun).1 == 0
        <==> forall i | 0 <= i < |w| :: w[i].seen != t
  {
    assert ([w] + rest)[0] == w && ([w] + rest)[1..] == rest;
    var after := AfterRequests(t, w);
    if after != t && 1 < maxPerRun {
      RunBounds(after, rest, 2, maxPerRun);
    }
  }

  class PerpetualWork {
    /** `m_currentWorkTick` */
    var tick: nat
    /** `m_currentWorker`: the thread inside the runner loop, if it set itself there */
    var currentWorker: Option<Thread>
    const maxNumWorkPerRun: int
    /** runner submissions waiting in the task pool */
    var pending: nat
    /** a runner is inside `Runner.run` */
    var active: bool
    /** `_doWork` calls made so far */
    var workDone: nat
    /** every value the tick has held, oldest first: one entry per write, ending with `tick` */
    ghost var ticks: seq<nat>
    /** the version, an index into `ticks`, at which the running `run0` read `lastRequestTick` */
    ghost var lastAt: nat

    /**
     * The protocol's invariant: the tick is non-zero exactly when one runner is
     * owed (waiting in the pool or running), there is never more than one, and
     * only a running runner names itself as the current worker.
     */
    ghost predicate Valid()
      reads this
    {
      (tick == 0 <==> pending == 0 && !active) &&
      pending + (if active then 1 else 0) <= 1 &&
      (currentWorker.Some? ==> active) &&
      |ticks| > 0 && ticks[|ticks| - 1] == tick &&
      (active ==> lastAt < |ticks| && Rising(ticks, lastAt))
    }

    /**
     * A request's two compare-and-sets lose only to a write made after its read,
     * so a request that read the tick at version `v` is never lost: a runner is
     * waiting in the pool, or the running `_doWork` began after version `v`, or
     * its `run0` will find the tick changed and do another `_doWork`.
     */
    ghost predicate Noticed(v: nat)
      reads this
      requires Valid()
    {
      pending > 0 || (active && (lastAt >= v || tick != ticks[lastAt]))
    }

    constructor(maxNumWorkPerRun: int)
      ensures Valid() && tick == 0 && pending == 0 && !active && workDone == 0
      ensures currentWorker == None && this.maxNumWorkPerRun == maxNumWorkPerRun
    {
      tick := 0;
      currentWorker := None;
      this.maxNumWorkPerRun := maxNumWorkPerRun;
      pending := 0;
      active := false;
      workDone := 0;
      ticks := [0];
      lastAt := 0;
    }

    /** The guard against the current worker never holds while the tick is 0. */
    lemma IdleHasNoWorker()
      requires Valid() && tick == 0
      ensures currentWorker == None && pending == 0
    {
    }

    /**
     * Under the invariant a non-zero tick owes a `_doWork` to every version read
     * so far: a runner waits in the pool, or the running one has read the last
     * version already, or the tick has risen since the version it read.
     */
    lemma AllNoticed()
      requires Valid() && tick != 0
      ensures forall v | 0 <= v < |ticks| :: Noticed(v)
    {
      if pending == 0 {
        var last := |ticks| - 1;
        if lastAt < last {
          assert ticks[last] >= ticks[lastAt] + (last - lastAt);
        }
      }
    }

    /**
     * The first compare-and-set of `requestMoreWork` and `runMoreWork`, by
     * `caller` who read the tick as `seen`: `seen` to `seen + 1`. When it moves
     * the tick off 0 a runner is `owed` and counted in the pool, for the caller to
     * submit or to run itself; when it moves a non-zero tick, the runner already
     * owed absorbs the request.
     */
    method FirstCas(caller: Thread, seen: nat) returns (won: bool, owed: bool)
      requires Valid()
      modifies this
      ensures Valid()
      ensures won <==> old(tick) == seen
      ensures owed <==> won && seen == 0
      ensures won ==> tick == seen + 1 && ticks == old(ticks) + [tick]
      ensures !won ==> tick == old(tick) && ticks == old(ticks)
      ensures won ==> forall v | 0 <= v < |ticks| :: Noticed(v)
      ensures pending == old(pending) + (if owed then 1 else 0)
      ensures lastAt == old(lastAt) && active == old(active)
      ensures currentWorker == old(currentWorker) && workDone == old(workDone)
    {
      won := false;
      owed := false;
      if tick == seen {
        won := true;
        if seen == 0 {
          IdleHasNoWorker();
        }
        tick := seen + 1;
        ticks := ticks + [tick];
        if seen == 0 && currentWorker != Some(caller) {
          pending := pending + 1;
          owed := true;
        }
        AllNoticed();
      }
    }

    /**
     * The second compare-and-set, `0` to `seen + 1`: it wins only when the tick
     * is 0, and then a runner is owed. Whether it wins or not, and whatever other
     * steps ran since the caller read `seen`, the tick is non-zero afterwards, so
     * a `_doWork` is owed to every version read so far.
     */
    method SecondCas(caller: Thread, seen: nat) returns (won: bool, owed: bool)
      requires Valid()
      modifies this
      ensures Valid() && tick != 0
      ensures won <==> old(tick) == 0
      ensures owed <==> won
      ensures won ==> tick == seen + 1 && ticks == old(ticks) + [tick]
      ensures !won ==> tick == old(tick) && ticks == old(ticks)
      ensures forall v | 0 <= v < |ticks| :: Noticed(v)
      ensures pending == old(pending) + (if owed then 1 else 0)
      ensures lastAt == old(lastAt) && active == old(active)
      ensures currentWorker == old(currentWorker) && workDone == old(workDone)
    {
      won := false;
      owed := false;
      if tick == 0 {
        IdleHasNoWorker();
        won := true;
        tick := seen + 1;
        ticks := ticks + [tick];
        if currentWorker != Some(caller) {
          pending := pending + 1;
          owed := true;
        }
      }
      AllNoticed();
    }

    /**
     * `requestMoreWork` by `caller`, who read the tick as `seen`, on the schedule
     * where no other step falls between its two compare-and-sets. Afterwards the
     * tick is never 0, so a runner is always owed; a runner is submitted exactly
     * when the tick was 0, and otherwise the request is absorbed by the runner
     * already owed: whatever version of the tick `seen` was read at, a
     * `_doWork` that begins after that read is owed.
     */
    method RequestMoreWork(caller: Thread, seen: nat) returns (submitted: bool)
      requires Valid()
      modifies this
      ensures Valid() && tick != 0
      ensures forall v | 0 <= v < |old(ticks)| && old(ticks)[v] == seen :: Noticed(v)
      ensures lastAt == old(lastAt) && old(ticks) <= ticks
      ensures submitted <==> old(tick) == 0
      ensures pending == old(pending) + (if submitted then 1 else 0)
      ensures old(tick) == seen ==> tick == seen + 1
      ensures old(tick) == 0 ==> tick == seen + 1
      ensures old(tick) != seen && old(tick) != 0 ==> tick == old(tick)
      ensures active == old(active) && currentWorker == old(currentWorker) && workDone == old(workDone)
    {
      var won, owed := FirstCas(caller, seen);
      if !won {
        won, owed := SecondCas(caller, seen);
      }
      submitted := owed;
    }

    /**
     * `runMoreWork`: the same two compare-and-sets, on the same schedule, but the
     * caller runs the runner itself instead of submitting it, through the
     * requests `windows`.
     */
    method RunMoreWork(caller: Thread, seen: nat, windows: seq<seq<Request>>) returns (ran: bool, n: nat)
      requires Valid()
      modifies this
      ensures Valid()
      ensures !ran ==> forall v | 0 <= v < |old(ticks)| && old(ticks)[v] == seen :: Noticed(v)
      ensures ran <==> old(tick) == 0
      ensures ran ==> workDone == old(workDone) + n && (n, tick) == RunOf(seen + 1, windows, 1, maxNumWorkPerRun)
      ensures ran ==> !active && currentWorker == None
      ensures !ran ==> tick != 0 && pending == old(pending) && workDone == old(workDone) && n == 0
    {
      var won, owed := FirstCas(caller, seen);
      if !won {
        won, owed := SecondCas(caller, seen);
      }
      ran := owed;
      n := 0;
      if owed {
        n := Run(caller, windows);
      }
    }

    /**
     * `Runner.run` on thread `me`, taking the owed runner: it loops over `run0`
     * while that asks to go on, counting `numProcessed` from 1, and comes back with
     * the number of `_doWork` calls it made.
     */
    method Run(me: Thread, windows: seq<seq<Request>>) returns (n: nat)
      requires Valid() && pending == 1
      modifies this
      ensures Valid() && !active && currentWorker == None
      ensures workDone == old(workDone) + n
      ensures (n, tick) == RunOf(old(tick), windows, 1, maxNumWorkPerRun)
      ensures pending == if tick == 0 then 0 else 1
    {
      pending := 0;
      active := true;
      lastAt := |ticks| - 1;
      currentWorker := Some(me);
      var numProcessed: nat := 1;
      var i := 0;
      ghost var t0 := tick;
      while true
        invariant Valid() && active && pending == 0 && currentWorker == Some(me)
        invariant i <= |windows|
        invariant numProcessed == i + 1
        invariant workDone == old(workDone) + i
        invariant RunOf(t0, windows, 1, maxNumWorkPerRun) == RunOf(tick, windows[i..], numProcessed, maxNumWorkPerRun)
        decreases |windows| - i
      {
        var w := if i < |windows| then windows[i] else [];
        var again := Run0(me, numProcessed, w);
        if !again {
          break;
        }
        if i == |windows| {
          assert false;
        }
        assert windows[i..][1..] == windows[i + 1..];
        numProcessed := numProcessed + 1;
        i := i + 1;
      }
      n := numProcessed;
    }

    /**
     * `Runner.run0`: reads the tick, runs `_doWork` while the requests `window`
     * arrive, clears the current worker, and resets the tick to 0 only if it is
     * unchanged. Otherwise it goes on inline, restoring the current worker, below
     * `maxNumWorkPerRun`, or resubmits the runner from there on. `_doWork`'s
     * exceptions do not matter: the `return` in `finally` discards them.
     */
    method Run0(me: Thread, numProcessed: nat, window: seq<Request>) returns (again: bool)
      requires Valid() && active && pending == 0 && currentWorker == Some(me)
      modifies this
      ensures Valid()
      ensures workDone == old(workDone) + 1
      ensures var after := AfterRequests(old(tick), window);
        if after == old(tick) then !again && tick == 0 && !active && currentWorker == None
        else if numProcessed >= maxNumWorkPerRun then
          !again && tick == after && !active && pending == 1 && currentWorker == None
        else again && tick == after && active && pending == 0 && currentWorker == Some(me)
    {
      var saveWorker := currentWorker;
      var last := tick;
      lastAt := |ticks| - 1;
      workDone := workDone + 1;
      Interleave(window);
      currentWorker := None;
      if tick == last {
        tick := 0;
        ticks := ticks + [0];
        active := false;
        again := false;
      } else if numProcessed >= maxNumWorkPerRun {
        pending := pending + 1;
        active := false;
        again := false;
      } else {
        currentWorker := saveWorker;
        again := true;
      }
    }

    /** The requests of `window`, made by other threads (or by `_doWork` itself) one after the other. */
    method Interleave(window: seq<Request>)
      requires Valid() && active && pending == 0
      modifies this
      ensures Valid() && active && pending == 0
      ensures tick == AfterRequests(old(tick), window)
      ensures currentWorker == old(currentWorker) && workDone == old(workDone)
    {
      var i := 0;
      while i < |window|
        invariant 0 <= i <= |window|
        invariant Valid() && active && pending == 0
        invariant tick == AfterRequests(old(tick), window[..i])
        invariant currentWorker == old(currentWorker) && workDone == old(workDone)
      {
        var _ := RequestMoreWork(window[i].caller, window[i].seen);
        assert window[..i + 1][..i] == window[..i];
        i := i + 1;
      }
      assert window[..i] == window;
    }
  }
}
