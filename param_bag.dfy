// A recyclable bag of callback parameters: three fixed-size stacks (ints, longs
// and objects) that share one stack pointer, so pushes and pops of any type
// interleave as one LIFO stack.
module ParamBags {
  import opened Wrappers

  /** The `max-num-params` system property's default. */
  const MAX_NUM_PARAMS: nat := 24

  type ObjRef = nat
  /** a `ParameterizedCallback` */
  type CallbackId = nat

  datatype Error = IndexOutOfBounds | NullCallback

  class ParamBag {
    const ints: array<int>
    const longs: array<int>
    const objs: array<Option<ObjRef>>
    /** `m_stackTop`: the next free position */
    var stackTop: int
    /** objects released by `deallocate`, in order */
    var released: seq<ObjRef>
    /** `m_callback` */
    var callback: Option<CallbackId>
    /** the callbacks `run` has invoked with this bag, in order */
    var invoked: seq<CallbackId>
    /** the reference count kept by Netty's `AbstractReferenceCounted` */
    var refCnt: int

    ghost predicate Valid()
      reads this
    {
      ints.Length == MAX_NUM_PARAMS && longs.Length == MAX_NUM_PARAMS && objs.Length == MAX_NUM_PARAMS &&
      ints != longs
    }

    /** `create(callback)` or, with `None`, `create()`: an empty bag with one reference. */
    constructor Create(callback: Option<CallbackId>)
      ensures Valid() && stackTop == 0 && released == [] && fresh(ints) && fresh(longs) && fresh(objs)
      ensures forall k | 0 <= k < MAX_NUM_PARAMS :: objs[k] == None
      ensures this.callback == callback && invoked == [] && refCnt == 1
    {
      this.callback := callback;
      invoked := [];
      refCnt := 1;
      ints := new int[MAX_NUM_PARAMS];
      longs := new int[MAX_NUM_PARAMS];
      objs := new Option<ObjRef>[MAX_NUM_PARAMS](_ => None);
      stackTop := 0;
      released := [];
    }

    /** Everything but the pointer and the arrays is as before. */
    twostate predicate Unmoved()
      reads this
    {
      released == old(released) && callback == old(callback) && invoked == old(invoked) && refCnt == old(refCnt)
    }

    /** `setCallback` */
    method SetCallback(c: Option<CallbackId>)
      modifies this
      ensures callback == c && stackTop == old(stackTop) && released == old(released)
      ensures invoked == old(invoked) && refCnt == old(refCnt)
    {
      callback := c;
    }

    /** `run`: hands this bag to the callback; with none set the call fails. */
    method Run() returns (r: Result<(), Error>)
      modifies this
      ensures r.Ok? <==> old(callback).Some?
      ensures invoked == old(invoked) + (if r.Ok? then [old(callback).value] else [])
      ensures callback == old(callback) && stackTop == old(stackTop) && released == old(released) && refCnt == old(refCnt)
    {
      if callback.Some? {
        invoked := invoked + [callback.value];
        r := Ok(());
      } else {
        r := Err(NullCallback);
      }
    }

    /**
     * `pi(v)`: stores at the pointer and moves it up. The pointer moves even when
     * the store then fails past the end of the array.
     */
    method PushInt(v: int) returns (r: Result<(), Error>)
      requires Valid()
      modifies this, ints
      ensures Valid() && stackTop == old(stackTop) + 1 && Unmoved()
      ensures r.Ok? <==> 0 <= old(stackTop) < MAX_NUM_PARAMS
      ensures r.Ok? ==> ints[..] == old(ints[..])[old(stackTop) := v]
      ensures r.Err? ==> ints[..] == old(ints[..])
    {
      var k := stackTop;
      stackTop := stackTop + 1;
      if 0 <= k < ints.Length {
        ints[k] := v;
        r := Ok(());
      } else {
        r := Err(IndexOutOfBounds);
      }
    }

    /** `pi()`: moves the pointer down and reads there; below 0 the read fails, the pointer moved all the same. */
    method PopInt() returns (r: Result<int, Error>)
      requires Valid()
      modifies this
      ensures Valid() && stackTop == old(stackTop) - 1 && Unmoved()
      ensures r.Ok? <==> 0 <= stackTop < MAX_NUM_PARAMS
      ensures r.Ok? ==> r.value == ints[stackTop]
    {
      stackTop := stackTop - 1;
      if 0 <= stackTop < ints.Length {
        r := Ok(ints[stackTop]);
      } else {
        r := Err(IndexOutOfBounds);
      }
    }

    /** `pl(v)` */
    method PushLong(v: int) returns (r: Result<(), Error>)
      requires Valid()
      modifies this, longs
      ensures Valid() && stackTop == old(stackTop) + 1 && Unmoved()
      ensures r.Ok? <==> 0 <= old(stackTop) < MAX_NUM_PARAMS
      ensures r.Ok? ==> longs[..] == old(longs[..])[old(stackTop) := v]
      ensures r.Err? ==> longs[..] == old(longs[..])
    {
      var k := stackTop;
      stackTop := stackTop + 1;
      if 0 <= k < longs.Length {
        longs[k] := v;
        r := Ok(());
      } else {
        r := Err(IndexOutOfBounds);
      }
    }

    /** `pl()` */
    method PopLong() returns (r: Result<int, Error>)
      requires Valid()
      modifies this
      ensures Valid() && stackTop == old(stackTop) - 1 && Unmoved()
      ensures r.Ok? <==> 0 <= stackTop < MAX_NUM_PARAMS
      ensures r.Ok? ==> r.value == longs[stackTop]
    {
      stackTop := stackTop - 1;
      if 0 <= stackTop < longs.Length {
        r := Ok(longs[stackTop]);
      } else {
        r := Err(IndexOutOfBounds);
      }
    }

    /** `po(v)` */
    method PushObj(v: Option<ObjRef>) returns (r: Result<(), Error>)
      requires Valid()
      modifies this, objs
      ensures Valid() && stackTop == old(stackTop) + 1 && Unmoved()
      ensures r.Ok? <==> 0 <= old(stackTop) < MAX_NUM_PARAMS
      ensures r.Ok? ==> objs[..] == old(objs[..])[old(stackTop) := v]
      ensures r.Err? ==> objs[..] == old(objs[..])
    {
      var k := stackTop;
      stackTop := stackTop + 1;
      if 0 <= k < objs.Length {
        objs[k] := v;
        r := Ok(());
      } else {
        r := Err(IndexOutOfBounds);
      }
    }

    /** `po()` */
    method PopObj() returns (r: Result<Option<ObjRef>, Error>)
      requires Valid()
      modifies this
      ensures Valid() && stackTop == old(stackTop) - 1 && Unmoved()
      ensures r.Ok? <==> 0 <= stackTop < MAX_NUM_PARAMS
      ensures r.Ok? ==> r.value == objs[stackTop]
    {
      stackTop := stackTop - 1;
      if 0 <= stackTop < objs.Length {
        r := Ok(objs[stackTop]);
      } else {
        r := Err(IndexOutOfBounds);
      }
    }

    /**
     * `deallocate`: releases and clears every object below the pointer, bottom
     * up, then resets the pointer. A pointer past the end makes the loop fail at
     * the end of the array, after clearing what it could.
     */
    method Deallocate() returns (r: Result<(), Error>)
      requires Valid()
      modifies this, objs
      ensures Valid()
      ensures r.Ok? <==> old(stackTop) <= MAX_NUM_PARAMS
      ensures r.Ok? ==> stackTop == 0 && callback == None && refCnt == 1
      ensures r.Err? ==> stackTop == old(stackTop) && callback == old(callback) && refCnt == old(refCnt)
      ensures invoked == old(invoked)
      ensures released == old(released) + Present(old(objs[..])[..Clamp(old(stackTop))])
      ensures forall k | 0 <= k < objs.Length :: objs[k] == if k < Clamp(old(stackTop)) then None else old(objs[k])
    {
      ghost var os := objs[..];
      var i := 0;
      while i < stackTop && i < objs.Length
        invariant 0 <= i <= Clamp(old(stackTop)) && stackTop == old(stackTop)
        invariant callback == old(callback) && refCnt == old(refCnt) && invoked == old(invoked)
        invariant released == old(released) + Present(os[..i])
        invariant forall k | 0 <= k < objs.Length :: objs[k] == if k < i then None else os[k]
      {
        var o := objs[i];
        assert os[..i + 1] == os[..i] + [o];
        PresentAppend(os[..i], o);
        if o.Some? {
          released := released + [o.value];
          objs[i] := None;
        }
        i := i + 1;
      }
      if i < stackTop {
        r := Err(IndexOutOfBounds);
      } else {
        stackTop := 0;
        callback := None;
        refCnt := 1;
        r := Ok(());
      }
    }

    /** `retain` */
    method Retain()
      requires refCnt > 0
      modifies this
      ensures refCnt == old(refCnt) + 1
      ensures stackTop == old(stackTop) && released == old(released) && callback == old(callback) && invoked == old(invoked)
    {
      refCnt := refCnt + 1;
    }

    /** `release`: the last reference runs `deallocate`. */
    method Release() returns (deallocated: bool, r: Result<(), Error>)
      requires Valid() && refCnt > 0
      modifies this, objs
      ensures Valid() && invoked == old(invoked)
      ensures deallocated <==> old(refCnt) == 1
      ensures !deallocated ==> (r.Ok? && refCnt == old(refCnt) - 1 && stackTop == old(stackTop) &&
        released == old(released) && callback == old(callback) && objs[..] == old(objs[..]))
      ensures deallocated ==> (r.Ok? <==> old(stackTop) <= MAX_NUM_PARAMS)
      ensures deallocated && r.Ok? ==> (stackTop == 0 && callback == None && refCnt == 1 &&
        released == old(released) + Present(old(objs[..])[..Clamp(old(stackTop))]) &&
        forall k | 0 <= k < objs.Length :: objs[k] == if k < old(stackTop) then None else old(objs[k]))
    {
      refCnt := refCnt - 1;
      deallocated := refCnt == 0;
      r := Ok(());
      if deallocated {
        r := Deallocate();
      }
    }

    /** `pi(v)` then `pi()`: the value comes back and the pointer is where it was. */
    method PushPopInt(v: int) returns (r: Result<int, Error>)
      requires Valid() && 0 <= stackTop < MAX_NUM_PARAMS
      modifies this, ints
      ensures Valid() && r == Ok(v) && stackTop == old(stackTop) && Unmoved()
      ensures ints[..] == old(ints[..])[old(stackTop) := v]
    {
      var pushed := PushInt(v);
      r := PopInt();
    }

    /**
     * `po(a)`, `pi(v)`, `pi()`, `po()`: the pushes of the two kinds share one
     * pointer, so they come back in reverse order.
     */
    method Interleaved(a: Option<ObjRef>, v: int) returns (x: Result<int, Error>, y: Result<Option<ObjRef>, Error>)
      requires Valid() && 0 <= stackTop && stackTop + 2 <= MAX_NUM_PARAMS
      modifies this, ints, objs
      ensures Valid() && x == Ok(v) && y == Ok(a) && stackTop == old(stackTop) && Unmoved()
    {
      var pushedObj := PushObj(a);
      var pushedInt := PushInt(v);
      x := PopInt();
      y := PopObj();
    }
  }

  /** How far `deallocate`'s loop gets: up to the pointer, and never past the array. */
  function Clamp(top: int): (n: nat)
    ensures n <= MAX_NUM_PARAMS
    ensures 0 <= top <= MAX_NUM_PARAMS ==> n == top
  {
    if top < 0 then 0 else if top > MAX_NUM_PARAMS then MAX_NUM_PARAMS else top
  }

  /** The non-null objects of `os`, in order. */
  function Present(os: seq<Option<ObjRef>>): seq<ObjRef>
  {
    if os == [] then [] else Present(os[..|os| - 1]) + (if os[|os| - 1].Some? then [os[|os| - 1].value] else [])
  }

  lemma PresentAppend(os: seq<Option<ObjRef>>, o: Option<ObjRef>)
    ensures Present(os + [o]) == Present(os) + (if o.Some? then [o.value] else [])
  {
    assert (os + [o])[..|os|] == os;
  }
}
