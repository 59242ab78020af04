// The promise combiner: futures are added one by one into a chain of slots, and
// once `finished` has been called the callback runs exactly once, on the last
// completion, with an iterator over the slots' results in add order.
//
// The linked `FutureSlot` chain is a sequence from the front slot on, and a slot
// reference is its index; `current == -1` is a null `m_current`. Each method is
// one atomic step: `add`, `finished`, or one future's listener running.
module PromiseCombiners {
  import opened Wrappers

  type FutureId = nat
  type Value = nat
  type Throwable = nat
  type CallbackId = nat
  type BagId = nat

  /** The object a slot's `result` holds: a future's value, or its failure cause. */
  datatype Obj = Val(v: Value) | Exn(t: Throwable)

  /** A completed future as its listener sees it. */
  datatype Outcome = Succeeded(value: Option<Value>) | FailedWith(cause: Option<Throwable>)

  /** What the listener stores: `get()` on success, `cause()` otherwise; null stays null. */
  function ResultOf(o: Outcome): Option<Obj>
  {
    match o
    case Succeeded(v) => if v.Some? then Some(Val(v.value)) else None
    case FailedWith(c) => if c.Some? then Some(Exn(c.value)) else None
  }

  datatype Slot = Slot(future: Option<FutureId>, result: Option<Obj>)

  /** One `allDone` call: the callback, its bag, and what the reset iterator yields. */
  datatype Fire = Fire(callback: CallbackId, bag: Option<BagId>, results: seq<Option<Obj>>)

  /** `m_current` is null or a slot of the chain, and with no chain it is null. */
  predicate Chain(slots: seq<Slot>, current: int)
  {
    -1 <= current < |slots| && (slots == [] ==> current == -1)
  }

  /**
   * The slot step of `add(f)`: the slot after the current one becomes current,
   * appended when there is none, and receives `f`; its old result stays until the
   * listener overwrites it. A current of -1 on a non-empty chain means "before the
   * front": the front slot is reused.
   */
  function AddSlot(slots: seq<Slot>, current: int, f: FutureId): (r: (seq<Slot>, int))
    requires Chain(slots, current)
    ensures Chain(r.0, r.1) && r.1 == current + 1
    ensures |r.0| == if current + 1 < |slots| then |slots| else |slots| + 1
    ensures r.0[r.1] == Slot(Some(f), if r.1 < |slots| then slots[r.1].result else None)
    ensures forall j | 0 <= j < |slots| && j != r.1 :: r.0[j] == slots[j]
  {
    if slots == [] then ([Slot(Some(f), None)], 0)
    else if current + 1 == |slots| then (slots + [Slot(Some(f), None)], current + 1)
    else (slots[current + 1 := slots[current + 1].(future := Some(f))], current + 1)
  }

  /** The results held by `slots`, in chain order. */
  function Results(slots: seq<Slot>): (r: seq<Option<Obj>>)
    ensures |r| == |slots|
    ensures forall j | 0 <= j < |slots| :: r[j] == slots[j].result
  {
    seq(|slots|, j requires 0 <= j < |slots| => slots[j].result)
  }

  /**
   * What `ThisIter` yields from slot `item` on: it goes on while the item is a slot
   * (not null) and is not the slot after the current one.
   */
  function IterYields(slots: seq<Slot>, current: int, item: nat): seq<Option<Obj>>
    decreases |slots| - item
  {
    if item < |slots| && item != current + 1 then [slots[item].result] + IterYields(slots, current, item + 1)
    else []
  }

  /** The iterator yields exactly the results from `item` up to the current slot, in order. */
  lemma {:induction false} IterYieldsUpToCurrent(slots: seq<Slot>, current: int, item: nat)
    requires Chain(slots, current) && item <= current + 1
    ensures IterYields(slots, current, item) == Results(slots[item..current + 1])
    decreases current + 1 - item
  {
    if item <= current {
      IterYieldsUpToCurrent(slots, current, item + 1);
      assert slots[item..current + 1] == [slots[item]] + slots[item + 1..current + 1];
    }
  }

  /** `ThisIter`, given the chain and `m_current` of the combiner it belongs to. */
  class ThisIter {
    /** `m_iterItem` as an index; an index past the chain is null */
    var item: nat

    constructor ()
      ensures item == 0
    {
      item := 0;
    }

    /** `reset(m_front)` */
    method Reset()
      modifies this
      ensures item == 0
    {
      item := 0;
    }

    /** `hasNext` */
    function HasNext(slots: seq<Slot>, current: int): (b: bool)
      reads this
      ensures b ==> item < |slots|
    {
      item < |slots| && item != current + 1
    }

    /** `next`: the item's result, moving on to the next slot; on a null item it fails. */
    method Next(slots: seq<Slot>, current: int) returns (r: Option<Obj>)
      requires item < |slots|
      modifies this
      ensures r == slots[old(item)].result && item == old(item) + 1
      ensures old(HasNext(slots, current)) ==> old(IterYields(slots, current, item)) == [r] + IterYields(slots, current, item)
    {
      r := slots[item].result;
      item := item + 1;
    }
  }

  class PromiseCombiner {
    var slots: seq<Slot>
    /** `m_current` */
    var current: int
    /** `m_expectedCount` */
    var expectedCount: int
    /** `m_doneAdding` */
    var doneAdding: bool
    /** `m_numDone` */
    var numDone: int
    /** `m_callback` */
    var callback: Option<CallbackId>
    /** the `allDone` calls made so far */
    var fired: seq<Fire>
    /** the futures added, in order */
    ghost var added: seq<FutureId>
    /** the slots whose listener has not run yet */
    ghost var waiting: set<nat>

    /**
     * The counting invariant: every added future whose listener has not run
     * accounts for the gap between the expected and the done count (and
     * `finished` adds one to each), so the callback has run exactly when adding
     * is done and no listener is outstanding, and at most once.
     */
    ghost predicate Valid()
      reads this
    {
      Chain(slots, current) &&
      |added| == current + 1 && (forall j | 0 <= j < |added| :: slots[j].future == Some(added[j])) &&
      (forall i | i in waiting :: i <= current) &&
      expectedCount == numDone + |waiting| &&
      |fired| == (if doneAdding && waiting == {} then 1 else 0) &&
      (doneAdding ==> callback.Some?)
    }

    constructor ()
      ensures Valid() && slots == [] && expectedCount == 0 && numDone == 0 && !doneAdding && fired == []
    {
      slots := [];
      current := -1;
      expectedCount := 0;
      doneAdding := false;
      numDone := 0;
      callback := None;
      fired := [];
      added := [];
      waiting := {};
    }

    /**
     * `add(f)`: the slot after the current one, appended if need be, receives `f`
     * and becomes current; its listener is now outstanding, and the expected count
     * goes up by one.
     */
    method Add(f: FutureId)
      requires Valid() && !doneAdding
      modifies this
      ensures Valid()
      ensures (slots, current) == AddSlot(old(slots), old(current), f)
      ensures added == old(added) + [f]
      ensures waiting == old(waiting) + {current} && expectedCount == old(expectedCount) + 1
      ensures numDone == old(numDone) && doneAdding == old(doneAdding) && callback == old(callback) && fired == old(fired)
    {
      AdvanceSlot(f);
      expectedCount := expectedCount + 1;
      added := added + [f];
      waiting := waiting + {current};
    }

    /** The slot step of `add`: moves to the next slot, appending one at the end of the chain, and stores `f` there. */
    method AdvanceSlot(f: FutureId)
      requires Chain(slots, current)
      modifies this
      ensures (slots, current) == AddSlot(old(slots), old(current), f)
      ensures expectedCount == old(expectedCount) && doneAdding == old(doneAdding) && numDone == old(numDone)
      ensures callback == old(callback) && fired == old(fired) && added == old(added) && waiting == old(waiting)
    {
      if slots == [] {
        slots := [Slot(None, None)];
        current := 0;
      } else if current + 1 == |slots| {
        slots := slots + [Slot(None, None)];
        current := current + 1;
      } else {
        current := current + 1;
      }
      slots := slots[current := slots[current].(future := Some(f))];
      assert old(slots) == [] ==> slots == [Slot(Some(f), None)];
      assert old(slots) != [] && current == |old(slots)| ==> slots == old(slots) + [Slot(Some(f), None)];
    }

    /**
     * The listener of slot `i`, on its future's completion `o`: stores the value or
     * the cause, then counts the completion. The callback runs when this was the
     * last outstanding listener after `finished`, with the results of the slots up
     * to the current one: one per added future, in add order.
     */
    method Complete(i: nat, o: Outcome)
      requires Valid() && i in waiting
      modifies this
      ensures Valid()
      ensures slots == old(slots)[i := old(slots)[i].(result := ResultOf(o))]
      ensures waiting == old(waiting) - {i} && numDone == old(numDone) + 1
      ensures fired == old(fired) + (if doneAdding && waiting == {} then [Fire(callback.value, None, Results(slots[..current + 1]))] else [])
      ensures current == old(current) && added == old(added) && expectedCount == old(expectedCount)
      ensures doneAdding == old(doneAdding) && callback == old(callback)
    {
      slots := slots[i := slots[i].(result := ResultOf(o))];
      waiting := waiting - {i};
      IterYieldsUpToCurrent(slots, current, 0);
      assert slots[0..current + 1] == slots[..current + 1];
      OperationComplete();
    }

    /**
     * `finished(callback)`: one more expected count, adding is done, and the call
     * counts itself complete; with no listener outstanding the callback runs now.
     */
    method Finished(cb: CallbackId)
      requires Valid() && !doneAdding
      modifies this
      ensures Valid() && doneAdding && callback == Some(cb)
      ensures expectedCount == old(expectedCount) + 1 && numDone == old(numDone) + 1
      ensures fired == old(fired) + (if waiting == {} then [Fire(cb, None, Results(slots[..current + 1]))] else [])
      ensures slots == old(slots) && current == old(current) && added == old(added) && waiting == old(waiting)
    {
      callback := Some(cb);
      expectedCount := expectedCount + 1;
      doneAdding := true;
      IterYieldsUpToCurrent(slots, current, 0);
      assert slots[0..current + 1] == slots[..current + 1];
      OperationComplete();
    }

    /** `operationComplete`: counts one completion; the one that reaches the expected count after `finished` runs the callback. */
    method OperationComplete()
      requires Chain(slots, current) && (doneAdding ==> callback.Some?)
      modifies this
      ensures numDone == old(numDone) + 1
      ensures expectedCount == old(expectedCount) && doneAdding == old(doneAdding) && callback == old(callback)
      ensures fired == old(fired) + (if doneAdding && numDone == expectedCount then [Fire(callback.value, None, IterYields(slots, current, 0))] else [])
      ensures slots == old(slots) && current == old(current) && added == old(added) && waiting == old(waiting)
    {
      numDone := numDone + 1;
      if doneAdding && numDone == expectedCount {
        var iter := new ThisIter();
        iter.Reset();
        fired := fired + [Fire(callback.value, None, IterYields(slots, current, iter.item))];
      }
    }

    /** The callback runs at most once, and it has run exactly when adding is done and every listener has run. */
    lemma FiresOnce()
      requires Valid()
      ensures |fired| <= 1
      ensures |fired| == 1 <==> doneAdding && numDone == expectedCount
    {
      if numDone == expectedCount {
        assert |waiting| == 0;
      }
    }
  }
}
