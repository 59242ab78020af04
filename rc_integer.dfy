// A reference-counted, recyclable mutable int. Its arithmetic is Java int
// arithmetic, so it wraps at the 32-bit bounds.
module RCIntegers {
  import opened JavaInt

  class RCInteger {
    var value: int
    /** the reference count kept by Netty's `AbstractReferenceCounted` */
    var refCnt: int

    ghost predicate Valid()
      reads this
    {
      IsInt(value) && refCnt >= 0
    }

    /** `create(v)`: a counter holding `v`, with one reference. */
    constructor Create(v: int)
      requires IsInt(v)
      ensures Valid() && value == v && refCnt == 1
    {
      value := v;
      refCnt := 1;
    }

    /** `value()` */
    function Value(): (v: int)
      reads this
      requires Valid()
      ensures IsInt(v)
    {
      value
    }

    /** `increment`: stores the old value plus one and returns it. */
    method Increment() returns (v: int)
      requires Valid()
      modifies this
      ensures Valid() && value == v && refCnt == old(refCnt)
      ensures v == WrapInt(old(value) + 1)
      ensures old(value) < INT_MAX ==> v == old(value) + 1
      ensures old(value) == INT_MAX ==> v == INT_MIN
    {
      value := WrapInt(value + 1);
      v := value;
    }

    /** `decrement`: stores the old value minus one and returns it. */
    method Decrement() returns (v: int)
      requires Valid()
      modifies this
      ensures Valid() && value == v && refCnt == old(refCnt)
      ensures v == WrapInt(old(value) - 1)
      ensures old(value) > INT_MIN ==> v == old(value) - 1
      ensures old(value) == INT_MIN ==> v == INT_MAX
    {
      value := WrapInt(value - 1);
      v := value;
    }

    /** `value(v)`: overwrites the value and nothing else. */
    method SetValue(v: int)
      requires Valid() && IsInt(v)
      modifies this
      ensures Valid() && value == v && refCnt == old(refCnt)
    {
      value := v;
    }

    /** `retain` */
    method Retain()
      requires Valid() && refCnt > 0
      modifies this
      ensures Valid() && refCnt == old(refCnt) + 1 && value == old(value)
    {
      refCnt := refCnt + 1;
    }

    /**
     * `release`: drops one reference; the last one runs `deallocate`, which
     * resets the count to 1 so the recycler can hand the object out again.
     */
    method Release() returns (deallocated: bool)
      requires Valid() && refCnt > 0
      modifies this
      ensures Valid() && value == old(value)
      ensures deallocated <==> old(refCnt) == 1
      ensures refCnt == if deallocated then 1 else old(refCnt) - 1
    {
      refCnt := refCnt - 1;
      deallocated := refCnt == 0;
      if deallocated {
        refCnt := 1;
      }
    }
  }

  /** Wrapping: an increment undoes a decrement, on every int. */
  lemma IncrementUndoesDecrement(x: int)
    requires IsInt(x)
    ensures WrapInt(WrapInt(x - 1) + 1) == x
  {
    if x == INT_MIN {
      assert WrapInt(x - 1) == INT_MAX;
    } else {
      assert WrapInt(x - 1) == x - 1;
    }
  }
}
