// A reference-counted promise: a single-assignment result, a FIFO queue of
// listeners, a ticket that elects one thread to drain that queue, and a per-thread
// depth counter that decides whether listeners run on the caller or go to the
// executor.
module RCPromises {
  import opened Wrappers
  import JavaInt

  /** The `max-notify-depth` system property's default. */
  const MAX_NOTIFY_DEPTH: int := 8

  type ListenerId = nat
  type Throwable = nat

  /** What `m_result` holds once set: the `SUCCESS_NULL_RESULT` sentinel, a value, or a `CauseWrapper`. */
  datatype Stored<T> = SuccessNull | Value(v: T) | Failed(cause: Option<Throwable>)

  /** `setSuccess0`: a null success is stored as the sentinel. */
  function Encode<T>(v: Option<T>): (s: Stored<T>)
    ensures !s.Failed?
    ensures s.SuccessNull? <==> v.None?
  {
    if v.None? then SuccessNull else Value(v.value)
  }

  /** `isDone` */
  predicate IsDone<T>(r: Option<Stored<T>>)
  {
    r.Some?
  }

  /** `isSuccess`: set, and not to a failure. */
  predicate IsSuccess<T>(r: Option<Stored<T>>)
  {
    r.Some? && !r.value.Failed?
  }

  /** `cause`: the wrapped cause of a failure, null otherwise. */
  function Cause<T>(r: Option<Stored<T>>): (c: Option<Throwable>)
    ensures c.Some? ==> IsDone(r) && !IsSuccess(r)
    ensures IsSuccess(r) || !IsDone(r) ==> c.None?
  {
    if r.Some? && r.value.Failed? then r.value.cause else None
  }

  /**
   * What `get` is meant to do: block while there is no result, return the value (null for
   * the sentinel), throw the cause of a failure, or, for a failure with a null
   * cause, return the wrapper itself through the unchecked cast.
   */
  datatype Got<T> = Blocks | Returns(value: Option<T>) | Throws(cause: Throwable) | ReturnsWrapper

  function Get<T>(r: Option<Stored<T>>): (g: Got<T>)
    ensures g.Blocks? <==> !IsDone(r)
    ensures g.Returns? <==> IsSuccess(r)
    ensures g.Throws? <==> Cause(r).Some?
    ensures g.Throws? ==> g.cause == Cause(r).value
  {
    if r.None? then Blocks
    else match r.value
      case SuccessNull => Returns(None)
      case Value(v) => Returns(Some(v))
      case Failed(c) => if c.None? then ReturnsWrapper else Throws(c.value)
  }

  /**
   * `await(timeoutInMS)` up to its wait loop: the timeout in nanoseconds is the
   * `long` product `timeoutInMS * 1000`; when that is not positive, or the result
   * is already set, it returns `isDone()` at once; otherwise it `Waits`.
   */
  datatype Waited = Done(done: bool) | Waits

  function AwaitEntry<T>(r: Option<Stored<T>>, timeoutInMS: int): (w: Waited)
    requires JavaInt.IsLong(timeoutInMS)
    ensures w.Waits? <==> !IsDone(r) && JavaInt.WrapLong(timeoutInMS * 1000) > 0
    ensures w.Done? ==> w.done == IsDone(r)
  {
    var timeoutNanos := JavaInt.WrapLong(timeoutInMS * 1000);
    if timeoutNanos <= 0 then Done(IsDone(r))
    else if IsDone(r) then Done(true)
    else Waits
  }

  /**
   * `await(Long.MAX_VALUE)` does not wait: `Long.MAX_VALUE * 1000` wraps to
   * -1000, so it returns `isDone()` straight away.
   */
  lemma MaxTimeoutReturnsAtOnce<T>(r: Option<Stored<T>>)
    ensures JavaInt.WrapLong(JavaInt.LONG_MAX * 1000) == -1000
    ensures AwaitEntry(r, JavaInt.LONG_MAX) == Done(IsDone(r))
  {
  }

  /**
   * `get` as written: with no result it calls `await(Long.MAX_VALUE)` and reads
   * `m_result` again, as `reread`. `Blocks` would stand for the wait loop, but
   * the wrapped timeout never reaches it, so a `get` on a promise still without
   * a result returns null instead of blocking.
   */
  function GetAsWritten<T>(r: Option<Stored<T>>, reread: Option<Stored<T>>): (g: Got<T>)
    ensures !g.Blocks?
    ensures r.Some? ==> g == Get(r)
    ensures r.None? && reread.None? ==> g == Returns(None)
    ensures r.None? && reread.Some? ==> g == Get(reread)
  {
    if r.Some? then Get(r)
    else match AwaitEntry(r, JavaInt.LONG_MAX)
      case Waits => Blocks
      case Done(_) => if reread.None? then Returns(None) else Get(reread)
  }

  /** The discrepancy: on a promise without a result `get` as written returns null, where `Get` blocks. */
  lemma IncompleteGetReturnsNullAsWritten<T>()
    ensures GetAsWritten<T>(None, None) == Returns(None)
    ensures Get<T>(None) == Blocks
  {
  }

  /** A success, null or not, reads back as exactly what was passed in. */
  lemma SuccessReadsBack<T>(v: Option<T>)
    ensures var r := Some(Encode(v));
      IsDone(r) && IsSuccess(r) && Cause(r) == None && Get(r) == Returns(v)
  {
  }

  // ---------------------------------------------------------------------------
  // The thread-local depth counter (`m_notifyDepth`, lines 238-245 and 265-268).

  /**
   * A `notifyListeners` call that owns a queue on this thread; the listeners it
   * runs inline complete the promises of `children`, in order, and each of those
   * notifies on the same thread.
   */
  datatype Nest = Nest(children: seq<Nest>)

  /**
   * The thread's depth counters: the one `m_notifyDepth` holds (an index into
   * `counters`), and the values of every `RCInteger` counter created so far.
   */
  datatype DepthState = DepthState(local: Option<nat>, counters: seq<int>)

  predicate Good(s: DepthState)
  {
    s.local.Some? ==> s.local.value < |s.counters|
  }

  function Max(a: int, b: int): int { if a < b then b else a }

  /** Entering: a new counter at 0 if the thread has none, else the thread's counter incremented. */
  function Enter(s: DepthState): (r: (nat, DepthState))
    requires Good(s)
    ensures Good(r.1) && r.1.local == Some(r.0) && |r.1.counters| >= |s.counters|
  {
    if s.local.None? then (|s.counters|, DepthState(Some(|s.counters|), s.counters + [0]))
    else
      var c := s.local.value;
      (c, DepthState(s.local, s.counters[c := s.counters[c] + 1]))
  }

  /** Leaving, as written: decrement this call's counter; at 0, drop the thread's counter. */
  function ExitAsWritten(s: DepthState, mine: nat): (r: DepthState)
    requires Good(s) && mine < |s.counters|
    ensures Good(r) && |r.counters| == |s.counters|
  {
    var v := s.counters[mine] - 1;
    if v == 0 then DepthState(None, s.counters[mine := v])
    else DepthState(s.local, s.counters[mine := v])
  }

  /**
   * One notification as written, starting `level` calls deep on the thread: the
   * final counters, and the deepest level at which listeners ran inline (-1 if none).
   */
  function NotifyAsWritten(s: DepthState, t: Nest, level: nat): (r: (DepthState, int))
    requires Good(s)
    ensures Good(r.0) && |r.0.counters| >= |s.counters|
    ensures r.1 == -1 || r.1 >= level
    decreases t, 1
  {
    var (mine, s1) := Enter(s);
    if s1.counters[mine] < MAX_NOTIFY_DEPTH then
      var (s2, deep) := NotifyAllAsWritten(s1, t.children, level + 1);
      (ExitAsWritten(s2, mine), Max(level, deep))
    else (ExitAsWritten(s1, mine), -1)
  }

  function NotifyAllAsWritten(s: DepthState, ts: seq<Nest>, level: nat): (r: (DepthState, int))
    requires Good(s)
    ensures Good(r.0) && |r.0.counters| >= |s.counters|
    ensures r.1 == -1 || r.1 >= level
    decreases ts, 0
  {
    if ts == [] then (s, -1)
    else
      var (s1, d1) := NotifyAsWritten(s, ts[0], level);
      var (s2, d2) := NotifyAllAsWritten(s1, ts[1..], level);
      (s2, Max(d1, d2))
  }

  /** Leaving, corrected: the call that holds the counter at 0 is the outermost one, and drops it. */
  function Exit(s: DepthState, mine: nat): (r: DepthState)
    requires Good(s) && mine < |s.counters|
    ensures Good(r) && |r.counters| == |s.counters|
  {
    if s.counters[mine] == 0 then DepthState(None, s.counters)
    else DepthState(s.local, s.counters[mine := s.counters[mine] - 1])
  }

  function Notify(s: DepthState, t: Nest, level: nat): (r: (DepthState, int))
    requires Good(s)
    ensures Good(r.0) && |r.0.counters| >= |s.counters|
    decreases t, 1
  {
    var (mine, s1) := Enter(s);
    if s1.counters[mine] < MAX_NOTIFY_DEPTH then
      var (s2, deep) := NotifyAll(s1, t.children, level + 1);
      (Exit(s2, mine), Max(level, deep))
    else (Exit(s1, mine), -1)
  }

  function NotifyAll(s: DepthState, ts: seq<Nest>, level: nat): (r: (DepthState, int))
    requires Good(s)
    ensures Good(r.0) && |r.0.counters| >= |s.counters|
    decreases ts, 0
  {
    if ts == [] then (s, -1)
    else
      var (s1, d1) := Notify(s, ts[0], level);
      var (s2, d2) := NotifyAll(s1, ts[1..], level);
      (s2, Max(d1, d2))
  }

  /**
   * What the depth rule promises: listeners run inline exactly at the levels below
   * `MAX_NOTIFY_DEPTH`; below that level a nested call hands its listeners to the
   * executor, so nothing under it runs on this thread.
   */
  function InlineDepth(t: Nest, level: nat): (d: int)
    ensures d < MAX_NOTIFY_DEPTH
    decreases t, 1
  {
    if level >= MAX_NOTIFY_DEPTH then -1 else Max(level, InlineDepthAll(t.children, level + 1))
  }

  function InlineDepthAll(ts: seq<Nest>, level: nat): (d: int)
    ensures d < MAX_NOTIFY_DEPTH
    decreases ts, 0
  {
    if ts == [] then -1 else Max(InlineDepth(ts[0], level), InlineDepthAll(ts[1..], level))
  }

  /** The thread's counter holds `level - 1` for a call `level` deep, and nothing at the top. */
  predicate AtLevel(s: DepthState, level: nat)
  {
    Good(s) && (level == 0 <==> s.local.None?) && (level > 0 ==> s.counters[s.local.value] == level - 1)
  }

  /**
   * With the corrected exit, the counter is the nesting level: a notification
   * runs inline to exactly the depth `InlineDepth` says, and leaves the thread's
   * counter as it found it.
   */
  lemma {:induction false} NotifyFollowsDepthRule(s: DepthState, t: Nest, level: nat)
    requires AtLevel(s, level)
    ensures Notify(s, t, level).1 == InlineDepth(t, level)
    ensures Notify(s, t, level).0.local == s.local && AtLevel(Notify(s, t, level).0, level)
    decreases t, 1
  {
    var (mine, s1) := Enter(s);
    assert s1.counters[mine] == level;
    if level < MAX_NOTIFY_DEPTH {
      NotifyAllFollowsDepthRule(s1, t.children, level + 1);
    }
  }

  lemma {:induction false} NotifyAllFollowsDepthRule(s: DepthState, ts: seq<Nest>, level: nat)
    requires AtLevel(s, level)
    ensures NotifyAll(s, ts, level).1 == InlineDepthAll(ts, level)
    ensures NotifyAll(s, ts, level).0.local == s.local && AtLevel(NotifyAll(s, ts, level).0, level)
    decreases ts, 0
  {
    if ts != [] {
      NotifyFollowsDepthRule(s, ts[0], level);
      var (s1, d1) := Notify(s, ts[0], level);
      NotifyAllFollowsDepthRule(s1, ts[1..], level);
    }
  }

  /**
   * A listener at each level first completes a promise with no listeners of its
   * own, and then one that goes on the same way, `n` levels down.
   */
  function Chain(n: nat): Nest
  {
    if n == 0 then Nest([]) else Nest([Nest([]), Chain(n - 1)])
  }

  /**
   * As written, the first nested call drops the thread's counter on its way out
   * (it decrements its value from 1 to 0), so the next one starts a new counter at
   * level 0 again: a chain of any length runs inline, all the way down.
   */
  lemma {:induction false} ChainRunsInlineAsWritten(s: DepthState, n: nat, level: nat)
    requires Good(s) && s.local.None?
    ensures NotifyAsWritten(s, Chain(n), level).1 == level + n
    decreases n
  {
    var (mine, s1) := Enter(s);
    assert s1.counters[mine] == 0;
    if n > 0 {
      var kids := Chain(n).children;
      assert kids == [Nest([]), Chain(n - 1)];
      var (s2, d2) := NotifyAsWritten(s1, kids[0], level + 1);
      assert s2.local.None? && d2 == level + 1;
      ChainRunsInlineAsWritten(s2, n - 1, level + 1);
      assert kids[1..] == [Chain(n - 1)];
      var (s3, d3) := NotifyAsWritten(s2, kids[1], level + 1);
      assert NotifyAllAsWritten(s2, kids[1..], level + 1) == (s3, Max(d3, -1));
    }
  }

  /** The chain that shows it: `MAX_NOTIFY_DEPTH` levels deep it still runs inline, where the rule stops at one less. */
  lemma DepthRuleBrokenAsWritten()
    ensures NotifyAsWritten(DepthState(None, []), Chain(MAX_NOTIFY_DEPTH), 0).1 == MAX_NOTIFY_DEPTH
    ensures InlineDepth(Chain(MAX_NOTIFY_DEPTH), 0) < MAX_NOTIFY_DEPTH
  {
    ChainRunsInlineAsWritten(DepthState(None, []), MAX_NOTIFY_DEPTH, 0);
  }

  // ---------------------------------------------------------------------------
  // The promise object.

  /** One invocation of `operationComplete`: on the notifying thread itself, or from the executor. */
  datatype Call = Call(listener: ListenerId, onCaller: bool)

  function OnCaller(ls: seq<ListenerId>): (cs: seq<Call>)
    ensures |cs| == |ls|
  {
    if ls == [] then [] else OnCaller(ls[..|ls| - 1]) + [Call(ls[|ls| - 1], true)]
  }

  function Join(ss: seq<seq<ListenerId>>): seq<ListenerId>
  {
    if ss == [] then [] else Join(ss[..|ss| - 1]) + ss[|ss| - 1]
  }

  function Min(a: int, b: int): int { if a < b then a else b }

  datatype Error = IllegalState

  class RCPromise<T> {
    /** `m_result` */
    var result: Option<Stored<T>>
    /** `m_listeners`, oldest first */
    var queue: seq<ListenerId>
    /** `m_notifyingListeners` */
    var tick: nat
    /** every listener invocation so far, in order */
    var calls: seq<Call>
    /** `ListenerWrapper`s handed to the event group and not run yet, oldest first */
    var executor: seq<ListenerId>
    var refCnt: int

    /**
     * Between steps nobody owns the queue, a completed promise has no listener
     * left waiting, and every wrapper on the executor holds a reference.
     */
    ghost predicate Valid()
      reads this
    {
      tick == 0 && (result.Some? ==> queue == []) && refCnt >= |executor|
    }

    /** The listeners `got` were taken from the queue in order and run on the caller, or handed to the executor each with a reference of its own. */
    twostate predicate Handed(got: seq<ListenerId>, callDirect: bool)
      reads this
    {
      calls == old(calls) + OnCallerIf(got, callDirect) &&
      executor == old(executor) + Deferred(got, callDirect) &&
      refCnt == old(refCnt) + |Deferred(got, callDirect)|
    }

    constructor Create()
      ensures Valid() && result == None && queue == [] && calls == [] && executor == [] && refCnt == 1
    {
      result := None;
      queue := [];
      tick := 0;
      calls := [];
      executor := [];
      refCnt := 1;
    }

    /** `setValue0`: the result is set once, from null; the setter then notifies. */
    method SetValue0(s: Stored<T>, depth: int, arrivals: seq<seq<ListenerId>>) returns (stored: bool, landed: nat)
      requires Valid()
      modifies this
      ensures Valid()
      ensures stored <==> old(result).None?
      ensures stored ==> (result == Some(s) && landed >= 1 &&
        Handed(old(queue) + Join(arrivals[..Min(landed, |arrivals|)]), depth < MAX_NOTIFY_DEPTH))
      ensures !stored ==> result == old(result) && calls == old(calls) && executor == old(executor) && refCnt == old(refCnt)
    {
      landed := 0;
      if result.None? {
        result := Some(s);
        landed := NotifyListeners(depth, arrivals);
        stored := true;
      } else {
        stored := false;
      }
    }

    /** `setSuccess`: throws on a second completion. */
    method SetSuccess(v: Option<T>, depth: int, arrivals: seq<seq<ListenerId>>) returns (r: Result<(), Error>, landed: nat)
      requires Valid()
      modifies this
      ensures Valid()
      ensures r.Ok? <==> old(result).None?
      ensures r.Ok? ==> result == Some(Encode(v)) && Get(result) == Returns(v)
      ensures r.Err? ==> result == old(result) && calls == old(calls)
    {
      var stored;
      stored, landed := SetValue0(Encode(v), depth, arrivals);
      r := if stored then Ok(()) else Err(IllegalState);
    }

    /** `trySuccess`: reports a second completion instead of throwing. */
    method TrySuccess(v: Option<T>, depth: int, arrivals: seq<seq<ListenerId>>) returns (stored: bool, landed: nat)
      requires Valid()
      modifies this
      ensures Valid()
      ensures stored <==> old(result).None?
      ensures stored ==> result == Some(Encode(v)) && IsSuccess(result)
      ensures !stored ==> result == old(result) && calls == old(calls)
    {
      stored, landed := SetValue0(Encode(v), depth, arrivals);
    }

    /** `setFailure`: the cause goes into a wrapper; a second completion throws. */
    method SetFailure(cause: Option<Throwable>, depth: int, arrivals: seq<seq<ListenerId>>) returns (r: Result<(), Error>, landed: nat)
      requires Valid()
      modifies this
      ensures Valid()
      ensures r.Ok? <==> old(result).None?
      ensures r.Ok? ==> result == Some(Failed(cause)) && !IsSuccess(result) && Cause(result) == cause
      ensures r.Err? ==> result == old(result) && calls == old(calls)
    {
      var stored;
      stored, landed := SetValue0(Failed(cause), depth, arrivals);
      r := if stored then Ok(()) else Err(IllegalState);
    }

    /**
     * `addListener`: on a completed promise the listener runs at once on the
     * caller; otherwise it is queued.
     */
    method AddListener(l: ListenerId, depth: int, arrivals: seq<seq<ListenerId>>) returns (landed: nat)
      requires Valid()
      modifies this
      ensures Valid() && result == old(result) && executor == old(executor) && refCnt == old(refCnt)
      ensures old(result).Some? ==> calls == old(calls) + [Call(l, true)]
      ensures old(result).None? ==> queue == old(queue) + [l] && calls == old(calls)
    {
      if result.Some? {
        calls := calls + [Call(l, true)];
        landed := 0;
      } else {
        landed := AddListenerEnqueue(l, depth, arrivals);
      }
    }

    /**
     * Lines 97-104 of `addListener` on their own, for a caller whose first check
     * saw no result: queue the listener, and if the promise completed in the
     * meantime, notify so that it is not left behind.
     */
    method AddListenerEnqueue(l: ListenerId, depth: int, arrivals: seq<seq<ListenerId>>) returns (landed: nat)
      requires Valid()
      modifies this
      ensures Valid() && result == old(result)
      ensures old(result).None? ==> (queue == old(queue) + [l] && calls == old(calls) &&
        executor == old(executor) && refCnt == old(refCnt))
      ensures old(result).Some? ==> (landed >= 1 &&
        Handed([l] + Join(arrivals[..Min(landed, |arrivals|)]), depth < MAX_NOTIFY_DEPTH))
    {
      queue := queue + [l];
      landed := 0;
      if result.Some? {
        assert queue == [l];
        landed := NotifyListeners(depth, arrivals);
      }
    }

    /**
     * `notifyListeners` by a thread whose depth counter reads `depth` once entered.
     * The tick is 0 between steps, so its first compare-and-set makes it the owner;
     * it drains while `arrivals` land.
     */
    method NotifyListeners(depth: int, arrivals: seq<seq<ListenerId>>) returns (landed: nat)
      requires tick == 0 && refCnt >= |executor|
      modifies this
      ensures tick == 0 && queue == [] && result == old(result) && landed >= 1
      ensures Handed(old(queue) + Join(arrivals[..Min(landed, |arrivals|)]), depth < MAX_NOTIFY_DEPTH)
      ensures landed < |arrivals| ==> arrivals[landed - 1] == []
    {
      var startTick := tick;
      tick := startTick + 1;
      var callDirect := depth < MAX_NOTIFY_DEPTH;
      landed := Drain(startTick, callDirect, arrivals);
    }

    /**
     * The owner's loop: poll the oldest listener and run it or hand it on; on an
     * empty queue give up ownership only if the tick still has the value last read,
     * else read it again and go on. After the i-th poll the listeners of
     * `arrivals[i]` are queued by other threads, each bumping the tick. Ownership is
     * given up in iteration `landed`, on an empty queue with nothing arriving.
     */
    method Drain(startTick0: nat, callDirect: bool, arrivals: seq<seq<ListenerId>>) returns (landed: nat)
      requires tick > startTick0 && refCnt >= |executor|
      modifies this
      ensures tick == 0 && queue == [] && result == old(result) && landed >= 1
      ensures Handed(old(queue) + Join(arrivals[..Min(landed, |arrivals|)]), callDirect)
      ensures landed < |arrivals| ==> arrivals[landed - 1] == []
    {
      var startTick: nat := startTick0;
      var i := 0;
      ghost var done: seq<ListenerId> := [];
      while true
        invariant tick != 0 && startTick <= tick
        invariant done + queue == old(queue) + Join(arrivals[..Min(i, |arrivals|)])
        invariant Handed(done, callDirect)
        invariant result == old(result)
        decreases if i < |arrivals| then |arrivals| - i else 0, |queue|, if tick == startTick then 0 else 1
      {
        var arr := if i < |arrivals| then arrivals[i] else [];
        JoinStep(arrivals, i);
        ghost var qpre, c1, e1, r1 := queue, calls, executor, refCnt;
        var released;
        ghost var w;
        released, startTick, w := Turn(startTick, callDirect, arr);
        HandedSteps(old(calls), c1, calls, old(executor), e1, executor, old(refCnt), r1, refCnt, done, w, callDirect);
        Regroup(done, w, queue, qpre, arr, old(queue), Join(arrivals[..Min(i, |arrivals|)]));
        done := done + w;
        assert done + queue == old(queue) + Join(arrivals[..Min(i + 1, |arrivals|)]);
        if released {
          assert queue == [] && done == old(queue) + Join(arrivals[..Min(i + 1, |arrivals|)]);
          landed := i + 1;
          break;
        }
        i := i + 1;
      }
    }

    /**
     * One turn of the owner's loop: poll, then let `arr` arrive; on an empty queue
     * try to give up ownership, and on failure read the tick again.
     */
    method Turn(startTick: nat, callDirect: bool, arr: seq<ListenerId>) returns (released: bool, newStart: nat, ghost w: seq<ListenerId>)
      requires tick != 0 && startTick <= tick
      modifies this
      ensures result == old(result) && Handed(w, callDirect)
      ensures w == if old(queue) == [] then [] else [old(queue)[0]]
      ensures w + queue == old(queue) + arr
      ensures released <==> old(queue) == [] && arr == [] && old(tick) == startTick
      ensures released ==> tick == 0
      ensures !released ==> tick == old(tick) + |arr| && newStart <= tick
      ensures !released && old(queue) == [] ==> newStart == tick
      ensures old(queue) != [] ==> newStart == startTick
    {
      newStart := startTick;
      released := false;
      if queue == [] {
        w := [];
        Arrive(arr);
        if tick == startTick {
          tick := 0;
          released := true;
        } else {
          newStart := tick;
        }
      } else {
        var first := queue[0];
        w := [first];
        queue := queue[1..];
        if callDirect {
          calls := calls + [Call(first, true)];
        } else {
          refCnt := refCnt + 1;
          executor := executor + [first];
        }
        Arrive(arr);
      }
    }

    /**
     * Other threads' `addListener` calls that saw no result at first: each queues
     * its listener and, finding the promise completed, bumps the tick the owner holds.
     */
    method Arrive(ls: seq<ListenerId>)
      requires tick != 0
      modifies this
      ensures queue == old(queue) + ls && tick == old(tick) + |ls|
      ensures calls == old(calls) && executor == old(executor) && refCnt == old(refCnt) && result == old(result)
    {
      var i := 0;
      while i < |ls|
        invariant 0 <= i <= |ls|
        invariant queue == old(queue) + ls[..i] && tick == old(tick) + i
        invariant calls == old(calls) && executor == old(executor) && refCnt == old(refCnt) && result == old(result)
      {
        queue := queue + [ls[i]];
        var startTick := tick;
        tick := startTick + 1;
        assert ls[..i + 1] == ls[..i] + [ls[i]];
        i := i + 1;
      }
      assert ls[..i] == ls;
    }

    /** `ListenerWrapper.run` on the executor: runs the oldest handed-on listener, then releases its reference. */
    method RunTask() returns (deallocated: bool)
      requires Valid() && executor != []
      modifies this
      ensures Valid() && queue == old(queue)
      ensures calls == old(calls) + [Call(old(executor)[0], false)] && executor == old(executor)[1..]
      ensures deallocated <==> old(refCnt) == 1
      ensures deallocated ==> result == None && refCnt == 1
      ensures !deallocated ==> result == old(result) && refCnt == old(refCnt) - 1
    {
      calls := calls + [Call(executor[0], false)];
      executor := executor[1..];
      deallocated := Release();
    }

    /** `retain` */
    method Retain()
      requires Valid() && refCnt > 0
      modifies this
      ensures Valid() && refCnt == old(refCnt) + 1
      ensures result == old(result) && queue == old(queue) && calls == old(calls) && executor == old(executor)
    {
      refCnt := refCnt + 1;
    }

    /**
     * `release` by a holder of a reference: the last one deallocates, which clears
     * the result and resets the count to 1 for the recycler (the listener queue is
     * left as it is).
     */
    method Release() returns (deallocated: bool)
      requires tick == 0 && (result.Some? ==> queue == []) && refCnt > |executor|
      modifies this
      ensures Valid() && queue == old(queue) && calls == old(calls) && executor == old(executor)
      ensures deallocated <==> old(refCnt) == 1
      ensures deallocated ==> result == None && refCnt == 1
      ensures !deallocated ==> result == old(result) && refCnt == old(refCnt) - 1
    {
      refCnt := refCnt - 1;
      deallocated := refCnt == 0;
      if deallocated {
        result := None;
        refCnt := 1;
      }
    }
  }

  lemma Regroup(done: seq<ListenerId>, w: seq<ListenerId>, q: seq<ListenerId>, qpre: seq<ListenerId>,
                arr: seq<ListenerId>, q0: seq<ListenerId>, joined: seq<ListenerId>)
    requires w + q == qpre + arr && done + qpre == q0 + joined
    ensures (done + w) + q == q0 + (joined + arr)
  {
    calc {
      (done + w) + q;
      done + (qpre + arr);
      (q0 + joined) + arr;
    }
  }

  lemma {:induction false} OnCallerConcat(a: seq<ListenerId>, b: seq<ListenerId>)
    ensures OnCaller(a + b) == OnCaller(a) + OnCaller(b)
    decreases |b|
  {
    if b == [] {
      assert a + b == a;
    } else {
      var b' := b[..|b| - 1];
      assert (a + b)[..|a + b| - 1] == a + b';
      OnCallerConcat(a, b');
    }
  }

  /** The listeners run on the caller, when they are. */
  function OnCallerIf(ls: seq<ListenerId>, callDirect: bool): seq<Call>
  {
    if callDirect then OnCaller(ls) else []
  }

  /** The listeners handed to the executor, when they are. */
  function Deferred(ls: seq<ListenerId>, callDirect: bool): seq<ListenerId>
  {
    if callDirect then [] else ls
  }

  /** Handing on `done` and then `w` is handing on `done + w`. */
  lemma HandedSteps(c0: seq<Call>, c1: seq<Call>, c2: seq<Call>,
                    e0: seq<ListenerId>, e1: seq<ListenerId>, e2: seq<ListenerId>,
                    r0: int, r1: int, r2: int, done: seq<ListenerId>, w: seq<ListenerId>, callDirect: bool)
    requires c1 == c0 + OnCallerIf(done, callDirect) && c2 == c1 + OnCallerIf(w, callDirect)
    requires e1 == e0 + Deferred(done, callDirect) && e2 == e1 + Deferred(w, callDirect)
    requires r1 == r0 + |Deferred(done, callDirect)| && r2 == r1 + |Deferred(w, callDirect)|
    ensures c2 == c0 + OnCallerIf(done + w, callDirect)
    ensures e2 == e0 + Deferred(done + w, callDirect)
    ensures r2 == r0 + |Deferred(done + w, callDirect)|
  {
    if callDirect {
      OnCallerConcat(done, w);
      SeqAssoc(c0, OnCaller(done), OnCaller(w));
    } else {
      SeqAssoc(e0, done, w);
    }
  }

  lemma SeqAssoc<X>(a: seq<X>, b: seq<X>, c: seq<X>)
    ensures (a + b) + c == a + (b + c)
  {
  }

  lemma JoinStep(ss: seq<seq<ListenerId>>, i: nat)
    ensures Join(ss[..Min(i + 1, |ss|)]) == Join(ss[..Min(i, |ss|)]) + (if i < |ss| then ss[i] else [])
  {
    if i < |ss| {
      assert ss[..i + 1][..i] == ss[..i];
    }
  }
}
