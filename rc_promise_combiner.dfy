// The reference-counted promise combiner: the counting protocol of the plain
// combiner, plus one reference per outstanding listener, and a `deallocate`
// that releases the round's futures and leaves the slot chain for reuse.
module RCPromiseCombiners {
  import opened Wrappers
  import opened PromiseCombiners

  /** The number of slots from the front that hold a future: where `deallocate`'s loop stops. */
  function LeadingUsed(slots: seq<Slot>): (n: nat)
    ensures n <= |slots|
    ensures forall k | 0 <= k < n :: slots[k].future.Some?
    ensures n < |slots| ==> slots[n].future.None?
  {
    if slots == [] || slots[0].future.None? then 0 else 1 + LeadingUsed(slots[1..])
  }

  /** `slots` with the first `n` cleared. */
  function Cleared(slots: seq<Slot>, n: nat): (r: seq<Slot>)
    ensures |r| == |slots|
    ensures forall k | 0 <= k < |slots| :: r[k] == if k < n then Slot(None, None) else slots[k]
  {
    seq(|slots|, k requires 0 <= k < |slots| => if k < n then Slot(None, None) else slots[k])
  }

  /** The futures held by `slots`, in chain order. */
  function FuturesOf(slots: seq<Slot>): seq<FutureId>
  {
    if slots == [] then []
    else FuturesOf(slots[..|slots| - 1]) + (if slots[|slots| - 1].future.Some? then [slots[|slots| - 1].future.value] else [])
  }

  /** `deallocate`'s loop: it releases and clears the slots from the front up to the first one without a future. */
  function DeallocSlots(slots: seq<Slot>): (seq<Slot>, seq<FutureId>)
  {
    var n := LeadingUsed(slots);
    (Cleared(slots, n), FuturesOf(slots[..n]))
  }

  /** Where `deallocate` leaves `m_current`, as written: at the front slot. */
  function RestartAsWritten(slots: seq<Slot>): (c: int)
    ensures Chain(slots, c)
    ensures slots != [] ==> c == 0
  {
    if slots == [] then -1 else 0
  }

  /** Where `deallocate` should leave `m_current`: before the front, so the next `add` reuses the front slot. */
  function Restart(slots: seq<Slot>): (c: int)
    ensures Chain(slots, c) && c == -1
  {
    -1
  }

  /** `add` of each of `fs` in turn. */
  function AddAll(slots: seq<Slot>, current: int, fs: seq<FutureId>): (r: (seq<Slot>, int))
    requires Chain(slots, current)
    ensures Chain(r.0, r.1) && r.1 == current + |fs|
    decreases |fs|
  {
    if fs == [] then (slots, current)
    else
      var p := AddAll(slots, current, fs[..|fs| - 1]);
      AddSlot(p.0, p.1, fs[|fs| - 1])
  }

  /** No slot holds a future: the chain of a fresh or properly recycled combiner. */
  predicate Free(slots: seq<Slot>)
  {
    forall k | 0 <= k < |slots| :: slots[k].future.None?
  }

  /**
   * As written: after a round that used the front slot, `deallocate` leaves the
   * front current, so the next `add` skips it. The front stays without a future,
   * the iterator yields its null before the one real result, and the next
   * `deallocate` stops at the front, so the added future is never released.
   */
  lemma FrontSlotSkippedAsWritten(slots: seq<Slot>, f: FutureId)
    requires slots != [] && slots[0].future.Some?
    ensures var s1 := DeallocSlots(slots).0;
      var (s2, c2) := AddSlot(s1, RestartAsWritten(s1), f);
      c2 == 1 && s2[0] == Slot(None, None) && s2[1].future == Some(f) &&
      IterYields(s2, c2, 0) == [None, s2[1].result] &&
      DeallocSlots(s2).1 == []
  {
    var s1 := DeallocSlots(slots).0;
    assert s1[0] == Slot(None, None);
    var (s2, c2) := AddSlot(s1, RestartAsWritten(s1), f);
    assert IterYields(s2, c2, 2) == [];
    assert LeadingUsed(s2) == 0;
  }

  /** Adding `fs` to a free chain from before its front fills slots 0 to |fs| - 1 in order and leaves the rest alone. */
  lemma {:induction false} AddAllFromFront(slots: seq<Slot>, fs: seq<FutureId>)
    requires Free(slots)
    ensures var (s, c) := AddAll(slots, -1, fs);
      c == |fs| - 1 && |s| == (if |fs| < |slots| then |slots| else |fs|) &&
      (forall j | 0 <= j < |fs| :: s[j].future == Some(fs[j])) &&
      (forall j | |fs| <= j < |s| :: s[j] == slots[j])
    decreases |fs|
  {
    if fs != [] {
      var init := fs[..|fs| - 1];
      AddAllFromFront(slots, init);
      var (p, pc) := AddAll(slots, -1, init);
      var (s, c) := AddSlot(p, pc, fs[|fs| - 1]);
      assert forall j | 0 <= j < |init| :: init[j] == fs[j];
    }
  }

  /** The futures of slots holding `fs` in order are `fs`. */
  lemma {:induction false} FuturesOfInOrder(slots: seq<Slot>, fs: seq<FutureId>)
    requires |slots| == |fs| && forall j | 0 <= j < |fs| :: slots[j].future == Some(fs[j])
    ensures FuturesOf(slots) == fs
    decreases |fs|
  {
    if fs != [] {
      FuturesOfInOrder(slots[..|slots| - 1], fs[..|fs| - 1]);
      assert fs == fs[..|fs| - 1] + [fs[|fs| - 1]];
    }
  }

  /**
   * With the corrected restart, a round of adds on a recycled chain reuses the
   * slots from the front, the iterator yields one result per added future, and
   * `deallocate` releases exactly the round's futures and frees the chain again.
   */
  lemma RoundReleasesItsFutures(slots: seq<Slot>, fs: seq<FutureId>)
    requires Free(slots)
    ensures var (s, c) := AddAll(slots, Restart(slots), fs);
      IterYields(s, c, 0) == Results(s[..|fs|]) &&
      DeallocSlots(s).1 == fs && Free(DeallocSlots(s).0)
  {
    AddAllFromFront(slots, fs);
    var p := AddAll(slots, -1, fs);
    RoundIterates(p.0, p.1, fs);
    RoundReleases(slots, p.0, fs);
  }

  lemma RoundIterates(s: seq<Slot>, c: int, fs: seq<FutureId>)
    requires Chain(s, c) && c == |fs| - 1
    ensures IterYields(s, c, 0) == Results(s[..|fs|])
  {
    IterYieldsUpToCurrent(s, c, 0);
    assert s[0..c + 1] == s[..|fs|];
  }

  lemma RoundReleases(slots: seq<Slot>, s: seq<Slot>, fs: seq<FutureId>)
    requires Free(slots) && |s| == (if |fs| < |slots| then |slots| else |fs|)
    requires forall j | 0 <= j < |fs| :: s[j].future == Some(fs[j])
    requires forall j | |fs| <= j < |s| :: s[j] == slots[j]
    ensures DeallocSlots(s).1 == fs && Free(DeallocSlots(s).0)
  {
    LeadingUsedIs(s, |fs|);
    FuturesOfInOrder(s[..|fs|], fs);
  }

  /** `LeadingUsed` is the one length whose prefix holds futures and whose next slot (if any) does not. */
  lemma LeadingUsedIs(slots: seq<Slot>, n: nat)
    requires n <= |slots| && (forall k | 0 <= k < n :: slots[k].future.Some?)
    requires n < |slots| ==> slots[n].future.None?
    ensures LeadingUsed(slots) == n
  {
  }

  /**
   * The slots up to the current one hold the round's futures in add order, and
   * the slots after it hold none.
   */
  predicate SlotsHold(slots: seq<Slot>, current: int, added: seq<FutureId>)
  {
    Chain(slots, current) &&
    |added| == current + 1 && (forall j | 0 <= j < |added| :: slots[j].future == Some(added[j])) &&
    (forall j | current < j < |slots| :: slots[j].future.None?)
  }

  /** `add` keeps the slots in step with the futures added. */
  lemma AddSlotHolds(slots: seq<Slot>, current: int, added: seq<FutureId>, f: FutureId)
    requires SlotsHold(slots, current, added)
    ensures var (s, c) := AddSlot(slots, current, f); SlotsHold(s, c, added + [f])
  {
    var (s, c) := AddSlot(slots, current, f);
    assert forall j | 0 <= j < |added| :: (added + [f])[j] == added[j];
  }

  /** `deallocate`'s loop clears exactly the round's slots, and frees the chain. */
  lemma DeallocHolds(slots: seq<Slot>, current: int, added: seq<FutureId>)
    requires SlotsHold(slots, current, added)
    ensures DeallocSlots(slots) == (Cleared(slots, |added|), added)
    ensures Free(Cleared(slots, |added|))
  {
    LeadingUsedIs(slots, |added|);
    FuturesOfInOrder(slots[..|added|], added);
  }

  class RCPromiseCombiner {
    var slots: seq<Slot>
    /** `m_current` */
    var current: int
    /** `m_expectedCount` */
    var expectedCount: int
    /** `m_doneAdding` */
    var doneAdding: bool
    /** `m_numDone` */
    var numDone: int
    /** `m_callback` */
    var callback: Option<CallbackId>
    /** `m_callbackBag` */
    var callbackBag: Option<BagId>
    /** the `allDone` calls made so far, over every use of this object */
    var fired: seq<Fire>
    /** the futures `deallocate` has released, in order */
    var released: seq<FutureId>
    /** the reference count kept by Netty's `AbstractReferenceCounted` */
    var refCnt: int
    /** the futures added since the last `deallocate`, in order */
    ghost var added: seq<FutureId>
    /** the slots whose listener has not run yet */
    ghost var waiting: set<nat>
    /** how many `allDone` calls came before the current use */
    ghost var roundStart: nat

    /**
     * The plain combiner's counting invariant, plus: the slots after the current
     * one hold no future, and every outstanding listener holds a reference.
     */
    ghost predicate Valid()
      reads this
    {
      SlotsHold(slots, current, added) &&
      (forall i | i in waiting :: i <= current) &&
      expectedCount == numDone + |waiting| &&
      roundStart <= |fired| &&
      |fired| - roundStart == (if doneAdding && waiting == {} then 1 else 0) &&
      (doneAdding ==> callback.Some?) &&
      refCnt >= |waiting|
    }

    /** A combiner ready for a new round: nothing added, one reference. */
    ghost predicate Idle()
      reads this
    {
      current == -1 && expectedCount == 0 && numDone == 0 && !doneAdding &&
      callback == None && callbackBag == None && added == [] && waiting == {} &&
      roundStart == |fired| && refCnt == 1 && Free(slots)
    }

    /** Nothing but the reference count changed. */
    twostate predicate SameRound()
      reads this
    {
      slots == old(slots) && current == old(current) && expectedCount == old(expectedCount) &&
      doneAdding == old(doneAdding) && numDone == old(numDone) && callback == old(callback) &&
      callbackBag == old(callbackBag) && fired == old(fired) && released == old(released) &&
      added == old(added) && waiting == old(waiting) && roundStart == old(roundStart)
    }

    /** `create` */
    constructor Create()
      ensures Valid() && Idle() && slots == [] && fired == [] && released == []
    {
      slots := [];
      current := -1;
      expectedCount := 0;
      doneAdding := false;
      numDone := 0;
      callback := None;
      callbackBag := None;
      fired := [];
      released := [];
      refCnt := 1;
      added := [];
      waiting := {};
      roundStart := 0;
    }

    /**
     * `add(f)`: the slot after the current one, appended if need be, receives `f`;
     * the combiner is retained for the listener, which gets the slot in its bag.
     */
    method Add(f: FutureId)
      requires Valid() && !doneAdding && refCnt > 0
      modifies this
      ensures Valid()
      ensures (slots, current) == AddSlot(old(slots), old(current), f)
      ensures added == old(added) + [f] && waiting == old(waiting) + {current}
      ensures expectedCount == old(expectedCount) + 1 && refCnt == old(refCnt) + 1
      ensures numDone == old(numDone) && doneAdding == old(doneAdding) && callback == old(callback)
      ensures callbackBag == old(callbackBag) && fired == old(fired) && released == old(released)
      ensures roundStart == old(roundStart)
    {
      AdvanceSlot(f);
      AddSlotHolds(old(slots), old(current), added, f);
      expectedCount := expectedCount + 1;
      refCnt := refCnt + 1;
      added := added + [f];
      waiting := waiting + {current};
    }

    /** The slot step of `add`: moves to the next slot, appending one at the end of the chain, and stores `f` there. */
    method AdvanceSlot(f: FutureId)
      requires Chain(slots, current)
      modifies this
      ensures (slots, current) == AddSlot(old(slots), old(current), f)
      ensures expectedCount == old(expectedCount) && doneAdding == old(doneAdding) && numDone == old(numDone)
      ensures callback == old(callback) && callbackBag == old(callbackBag) && fired == old(fired)
      ensures released == old(released) && refCnt == old(refCnt) && added == old(added) && waiting == old(waiting)
      ensures roundStart == old(roundStart)
    {
      if slots == [] {
        slots := [Slot(None, None)];
        current := 0;
      } else if current + 1 == |slots| {
        slots := slots + [Slot(None, None)];
        current := current + 1;
      } else {
        current := current + 1;
      }
      slots := slots[current := slots[current].(future := Some(f))];
      assert old(slots) == [] ==> slots == [Slot(Some(f), None)];
      assert old(slots) != [] && current == |old(slots)| ==> slots == old(slots) + [Slot(Some(f), None)];
    }

    /**
     * `finished(callback, bag)`: as in the plain combiner; the bag goes to the
     * callback, and is dropped once the callback has run.
     */
    method Finished(cb: CallbackId, bag: Option<BagId>)
      requires Valid() && !doneAdding
      modifies this
      ensures Valid() && doneAdding && callback == Some(cb)
      ensures expectedCount == old(expectedCount) + 1 && numDone == old(numDone) + 1
      ensures fired == old(fired) + (if waiting == {} then [Fire(cb, bag, Results(slots[..current + 1]))] else [])
      ensures callbackBag == if waiting == {} then None else bag
      ensures slots == old(slots) && current == old(current) && added == old(added) && waiting == old(waiting)
      ensures refCnt == old(refCnt) && released == old(released) && roundStart == old(roundStart)
    {
      callbackBag := bag;
      callback := Some(cb);
      expectedCount := expectedCount + 1;
      doneAdding := true;
      IterYieldsUpToCurrent(slots, current, 0);
      assert slots[0..current + 1] == slots[..current + 1];
      OperationComplete();
    }

    /** `operationComplete` */
    method OperationComplete()
      requires Chain(slots, current) && (doneAdding ==> callback.Some?)
      modifies this
      ensures numDone == old(numDone) + 1
      ensures expectedCount == old(expectedCount) && doneAdding == old(doneAdding) && callback == old(callback)
      ensures var fires := doneAdding && numDone == expectedCount;
        fired == old(fired) + (if fires then [Fire(callback.value, old(callbackBag), IterYields(slots, current, 0))] else []) &&
        callbackBag == if fires then None else old(callbackBag)
      ensures slots == old(slots) && current == old(current) && added == old(added) && waiting == old(waiting)
      ensures refCnt == old(refCnt) && released == old(released) && roundStart == old(roundStart)
    {
      numDone := numDone + 1;
      if doneAdding && numDone == expectedCount {
        var iter := new ThisIter();
        iter.Reset();
        fired := fired + [Fire(callback.value, callbackBag, IterYields(slots, current, iter.item))];
        callbackBag := None;
      }
    }

    /**
     * The listener of slot `i`, on its future's completion `o`: stores the value or
     * the cause, counts the completion (running the callback if it was the last
     * one), then gives up the listener's reference.
     */
    method Complete(i: nat, o: Outcome) returns (deallocated: bool)
      requires Valid() && i in waiting
      modifies this
      ensures Valid()
      ensures var stored := old(slots)[i := old(slots)[i].(result := ResultOf(o))];
        fired == old(fired) + (if old(doneAdding) && old(waiting) == {i}
          then [Fire(old(callback).value, old(callbackBag), Results(stored[..old(current) + 1]))] else [])
      ensures deallocated <==> old(refCnt) == 1
      ensures !deallocated ==> (slots == old(slots)[i := old(slots)[i].(result := ResultOf(o))] &&
        waiting == old(waiting) - {i} && numDone == old(numDone) + 1 && refCnt == old(refCnt) - 1 &&
        current == old(current) && added == old(added) && released == old(released))
      ensures deallocated ==> (Idle() && released == old(released) + old(added) &&
        slots == Cleared(old(slots), old(current) + 1))
    {
      slots := slots[i := slots[i].(result := ResultOf(o))];
      waiting := waiting - {i};
      IterYieldsUpToCurrent(slots, current, 0);
      assert slots[0..current + 1] == slots[..current + 1];
      OperationComplete();
      deallocated := Release();
    }

    /** `retain` */
    method Retain()
      requires refCnt > 0
      modifies this
      ensures refCnt == old(refCnt) + 1 && SameRound()
    {
      refCnt := refCnt + 1;
    }

    /** `release` by a holder of one of the references no listener holds; the last runs `deallocate`. */
    method Release() returns (deallocated: bool)
      requires Valid() && refCnt > |waiting|
      modifies this
      ensures Valid()
      ensures deallocated <==> old(refCnt) == 1
      ensures !deallocated ==> refCnt == old(refCnt) - 1 && SameRound()
      ensures deallocated ==> (Idle() && fired == old(fired) && released == old(released) + old(added) &&
        slots == Cleared(old(slots), old(current) + 1))
    {
      refCnt := refCnt - 1;
      deallocated := refCnt == 0;
      if deallocated {
        Deallocate();
      }
    }

    /**
     * `deallocate`, with the restart corrected: resets the counters and flags,
     * releases and clears every slot from the front that holds a future (exactly
     * the futures added since the last one), and leaves one reference.
     */
    method Deallocate()
      requires Valid() && waiting == {}
      modifies this
      ensures Valid() && Idle()
      ensures fired == old(fired) && released == old(released) + old(added)
      ensures slots == Cleared(old(slots), old(current) + 1)
    {
      ghost var fs := added;
      DeallocHolds(slots, current, fs);
      ResetRound();
      ClearRound(fs);
      refCnt := 1;
    }

    /** The resets `deallocate` makes before its loop: counters, flags, current slot, callback and bag. */
    method ResetRound()
      modifies this
      ensures current == Restart(slots) && expectedCount == 0 && numDone == 0 && !doneAdding
      ensures callback == None && callbackBag == None && added == [] && waiting == old(waiting)
      ensures roundStart == |fired|
      ensures slots == old(slots) && released == old(released) && fired == old(fired) && refCnt == old(refCnt)
    {
      expectedCount := 0;
      numDone := 0;
      doneAdding := false;
      current := Restart(slots);
      callback := None;
      callbackBag := None;
      added := [];
      roundStart := |fired|;
    }

    /** The clearing loop of `deallocate`: `FutureSlot.clear` on each slot from the front until one has no future. */
    method ClearRound(ghost fs: seq<FutureId>)
      requires |fs| <= |slots| && (forall k | 0 <= k < |fs| :: slots[k].future == Some(fs[k]))
      requires |fs| < |slots| ==> slots[|fs|].future.None?
      modifies this
      ensures slots == Cleared(old(slots), |fs|) && released == old(released) + fs
      ensures current == old(current) && expectedCount == old(expectedCount) && doneAdding == old(doneAdding)
      ensures numDone == old(numDone) && callback == old(callback) && callbackBag == old(callbackBag)
      ensures fired == old(fired) && refCnt == old(refCnt) && added == old(added) && waiting == old(waiting)
      ensures roundStart == old(roundStart)
    {
      var j := 0;
      while j < |slots|
        invariant 0 <= j <= |fs| && |slots| == |old(slots)|
        invariant forall k | 0 <= k < |slots| :: slots[k] == if k < j then Slot(None, None) else old(slots)[k]
        invariant released == old(released) + fs[..j]
        invariant current == old(current) && expectedCount == old(expectedCount) && doneAdding == old(doneAdding)
        invariant numDone == old(numDone) && callback == old(callback) && callbackBag == old(callbackBag)
        invariant fired == old(fired) && refCnt == old(refCnt) && added == old(added) && waiting == old(waiting)
        invariant roundStart == old(roundStart)
      {
        if slots[j].future.None? {
          break;
        }
        if j == |fs| {
          assert false;
        }
        assert fs[..j + 1] == fs[..j] + [fs[j]];
        released := released + [slots[j].future.value];
        slots := slots[j := Slot(None, None)];
        j := j + 1;
      }
      assert j == |fs|;
      assert fs[..j] == fs;
      assert slots == Cleared(old(slots), |fs|);
    }
  }
}
