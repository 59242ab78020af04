// A reference-counted future that is created already succeeded: every query
// answers at once, and listeners run on the caller's thread as they are added.
module RCSucceededFutures {
  import opened Wrappers
  import RCPromises

  type ListenerId = nat
  /** a `ParamBag` handed to a listener; `None` is the null bag */
  type BagId = nat

  /** One `operationComplete(this, params)` made by `addListener`. */
  datatype Call = Call(listener: ListenerId, params: Option<BagId>)

  class RCSucceededFuture<T> {
    /** `m_result`; `None` is null */
    var result: Option<T>
    /** the reference count kept by Netty's `AbstractReferenceCounted` */
    var refCnt: int
    /** the listener invocations made so far, in order */
    var calls: seq<Call>

    /** `create(v)`: a future holding `v`, with one reference. */
    constructor Create(v: Option<T>)
      ensures result == v && refCnt == 1 && calls == []
    {
      result := v;
      refCnt := 1;
      calls := [];
    }

    /** `get`: never blocks and never throws. */
    function Get(): (v: Option<T>)
      reads this
      ensures v == result
    {
      result
    }

    /** `isDone` */
    function IsDone(): (b: bool)
      ensures b
    {
      true
    }

    /** `isSuccess` */
    function IsSuccess(): (b: bool)
      ensures b
    {
      true
    }

    /** `cause` */
    function Cause(): (c: Option<RCPromises.Throwable>)
      ensures c.None?
    {
      None
    }

    /** `await(timeoutInMS)`: done already, whatever the timeout. */
    function Await(timeoutInMS: int): (b: bool)
      ensures b
    {
      true
    }

    /**
     * A succeeded future answers every query as a promise completed by
     * `setSuccess` with the same value does.
     */
    lemma AgreesWithSucceededPromise()
      ensures var s := Some(RCPromises.Encode(Get()));
        RCPromises.IsDone(s) == IsDone() && RCPromises.IsSuccess(s) == IsSuccess() &&
        RCPromises.Cause(s) == Cause() && RCPromises.Get(s) == RCPromises.Returns(Get())
    {
      RCPromises.SuccessReadsBack(result);
    }

    /**
     * `addListener(listener, params)` and, with `None`, `addListener(listener)`:
     * the listener is called exactly once, before this returns.
     */
    method AddListener(listener: ListenerId, params: Option<BagId>)
      modifies this
      ensures calls == old(calls) + [Call(listener, params)]
      ensures result == old(result) && refCnt == old(refCnt)
    {
      calls := calls + [Call(listener, params)];
    }

    /** `retain` */
    method Retain()
      requires refCnt > 0
      modifies this
      ensures refCnt == old(refCnt) + 1 && result == old(result) && calls == old(calls)
    {
      refCnt := refCnt + 1;
    }

    /**
     * `release`: the last reference runs `deallocate`, which clears the result and
     * resets the count to 1 for the recycler.
     */
    method Release() returns (deallocated: bool)
      requires refCnt > 0
      modifies this
      ensures deallocated <==> old(refCnt) == 1
      ensures refCnt == if deallocated then 1 else old(refCnt) - 1
      ensures result == if deallocated then None else old(result)
      ensures calls == old(calls)
    {
      refCnt := refCnt - 1;
      deallocated := refCnt == 0;
      if deallocated {
        result := None;
        refCnt := 1;
      }
    }
  }
}
