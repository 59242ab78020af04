// A one-producer, one-consumer pipe of buffers. The pipe counts its open ends;
// the close of the last one drains and releases whatever is still queued.
module Pipes {
  import opened Wrappers

  type BufId = nat
  type RunnableId = nat

  datatype Error = ProducerClosed | ConsumerClosed | NullPipe

  class Pipe {
    /** `m_queue`, oldest first */
    var queue: seq<BufId>
    /** `m_refCount`: the ends not yet closed */
    var refCount: int
    /** `m_readNotify` */
    var readNotify: Option<RunnableId>
    /** the `readNotify.run()` calls made so far */
    var notified: seq<RunnableId>
    /** buffers released by the final close, in order */
    var released: seq<BufId>
    /** every buffer submitted, in order */
    ghost var submitted: seq<BufId>
    /** every buffer polled, in order */
    ghost var polled: seq<BufId>
    /** every buffer taken off the queue, by a poll or by the final close, in order */
    ghost var taken: seq<BufId>

    /** First in, first out: the buffers taken off the queue, then the queued ones, are exactly those submitted, in order. */
    ghost predicate Valid()
      reads this
    {
      submitted == taken + queue
    }

    /** `create(readNotify)`, or `create()` with `None`: empty, with one reference per end. */
    constructor Create(readNotify: Option<RunnableId>)
      ensures Valid() && queue == [] && refCount == 2 && this.readNotify == readNotify
      ensures notified == [] && released == [] && submitted == [] && polled == []
    {
      queue := [];
      refCount := 2;
      this.readNotify := readNotify;
      notified := [];
      released := [];
      submitted := [];
      polled := [];
      taken := [];
    }

    /**
     * `close`, by either end: drops one reference. The last one releases every
     * queued buffer, oldest first, and clears the read notification.
     */
    method Close()
      requires Valid()
      modifies this
      ensures Valid()
      ensures refCount == old(refCount) - 1
      ensures refCount == 0 ==> (queue == [] && released == old(released) + old(queue) && readNotify == None)
      ensures refCount != 0 ==> (queue == old(queue) && released == old(released) && readNotify == old(readNotify))
      ensures notified == old(notified) && submitted == old(submitted) && polled == old(polled)
    {
      refCount := refCount - 1;
      if refCount == 0 {
        while true
          invariant Valid() && refCount == 0
          invariant released + queue == old(released) + old(queue)
          invariant taken + queue == old(taken) + old(queue)
          invariant notified == old(notified) && submitted == old(submitted) && polled == old(polled)
          invariant readNotify == old(readNotify)
          decreases |queue|
        {
          if queue == [] {
            break;
          }
          var buf := queue[0];
          assert queue == [buf] + queue[1..];
          assert released + queue == (released + [buf]) + queue[1..];
          assert taken + queue == (taken + [buf]) + queue[1..];
          queue := queue[1..];
          released := released + [buf];
          taken := taken + [buf];
        }
        readNotify := None;
      }
    }

    /** `m_queue.add(buf)` then the read notification, if set. */
    method Enqueue(buf: BufId)
      requires Valid()
      modifies this
      ensures Valid()
      ensures queue == old(queue) + [buf] && submitted == old(submitted) + [buf]
      ensures notified == old(notified) + (if readNotify.Some? then [readNotify.value] else [])
      ensures refCount == old(refCount) && readNotify == old(readNotify)
      ensures released == old(released) && polled == old(polled) && taken == old(taken)
    {
      queue := queue + [buf];
      submitted := submitted + [buf];
      if readNotify.Some? {
        notified := notified + [readNotify.value];
      }
    }

    /** `m_queue.poll()`: the oldest buffer, or null when empty. */
    method Dequeue() returns (buf: Option<BufId>)
      requires Valid()
      modifies this
      ensures Valid()
      ensures buf.None? <==> old(queue) == []
      ensures buf.Some? ==> [buf.value] + queue == old(queue) && polled == old(polled) + [buf.value] && taken == old(taken) + [buf.value]
      ensures buf.None? ==> queue == old(queue) && polled == old(polled) && taken == old(taken)
      ensures refCount == old(refCount) && readNotify == old(readNotify) && notified == old(notified)
      ensures released == old(released) && submitted == old(submitted)
    {
      if queue == [] {
        buf := None;
      } else {
        buf := Some(queue[0]);
        assert queue == [queue[0]] + queue[1..];
        assert taken + queue == (taken + [queue[0]]) + queue[1..];
        queue := queue[1..];
        polled := polled + [buf.value];
        taken := taken + [buf.value];
      }
    }
  }

  /** The producer end; it forgets the pipe when closed. */
  class Producer {
    /** `m_pipe` */
    var pipe: Pipe?
    /** buffers released because the producer was closed */
    var rejected: seq<BufId>

    constructor (p: Pipe)
      ensures pipe == p && rejected == []
    {
      pipe := p;
      rejected := [];
    }

    /** `submit(buf)`: queues the buffer, or, once closed, releases it and fails. */
    method Submit(buf: BufId) returns (r: Result<(), Error>)
      requires pipe != null ==> pipe.Valid()
      modifies this, pipe
      ensures pipe == old(pipe)
      ensures r.Err? <==> pipe == null
      ensures r.Err? ==> r.error == ProducerClosed && rejected == old(rejected) + [buf]
      ensures r.Ok? ==> (pipe.Valid() && pipe.queue == old(pipe.queue) + [buf] &&
        pipe.submitted == old(pipe.submitted) + [buf] && rejected == old(rejected) &&
        pipe.notified == old(pipe.notified) + (if pipe.readNotify.Some? then [pipe.readNotify.value] else []) &&
        pipe.refCount == old(pipe.refCount) && pipe.polled == old(pipe.polled) && pipe.released == old(pipe.released) &&
        pipe.readNotify == old(pipe.readNotify) && pipe.taken == old(pipe.taken))
    {
      if pipe == null {
        rejected := rejected + [buf];
        r := Err(ProducerClosed);
      } else {
        pipe.Enqueue(buf);
        r := Ok(());
      }
    }

    /** `close`: closes this end of the pipe; a second close finds no pipe. */
    method Close() returns (r: Result<(), Error>)
      requires pipe != null ==> pipe.Valid()
      modifies this, pipe
      ensures r.Err? <==> old(pipe) == null
      ensures pipe == null && rejected == old(rejected)
      ensures r.Ok? ==> (old(pipe).Valid() && old(pipe).refCount == old(pipe.refCount) - 1 &&
        (old(pipe).refCount == 0 ==> old(pipe).queue == [] && old(pipe).released == old(pipe.released) + old(pipe.queue) &&
                                     old(pipe).readNotify == None) &&
        (old(pipe).refCount != 0 ==> old(pipe).queue == old(pipe.queue) && old(pipe).released == old(pipe.released) &&
                                     old(pipe).readNotify == old(pipe.readNotify)) &&
        old(pipe).notified == old(pipe.notified) && old(pipe).submitted == old(pipe.submitted) &&
        old(pipe).polled == old(pipe.polled))
    {
      if pipe == null {
        r := Err(NullPipe);
      } else {
        pipe.Close();
        pipe := null;
        r := Ok(());
      }
    }
  }

  /** The consumer end; it forgets the pipe when closed. */
  class Consumer {
    /** `m_pipe` */
    var pipe: Pipe?

    constructor (p: Pipe)
      ensures pipe == p
    {
      pipe := p;
    }

    /** `poll`: the oldest queued buffer or null; once closed it fails. */
    method Poll() returns (r: Result<Option<BufId>, Error>)
      requires pipe != null ==> pipe.Valid()
      modifies pipe
      ensures r.Err? <==> pipe == null
      ensures r.Err? ==> r.error == ConsumerClosed
      ensures r.Ok? ==> (pipe.Valid() && (r.value.None? <==> old(pipe.queue) == []) &&
        (r.value.Some? ==> ([r.value.value] + pipe.queue == old(pipe.queue) && pipe.polled == old(pipe.polled) + [r.value.value] &&
                            pipe.taken == old(pipe.taken) + [r.value.value])) &&
        (r.value.None? ==> pipe.queue == old(pipe.queue) && pipe.polled == old(pipe.polled) && pipe.taken == old(pipe.taken)) &&
        pipe.refCount == old(pipe.refCount) && pipe.submitted == old(pipe.submitted) && pipe.released == old(pipe.released) &&
        pipe.readNotify == old(pipe.readNotify) && pipe.notified == old(pipe.notified))
    {
      if pipe == null {
        r := Err(ConsumerClosed);
      } else {
        var buf := pipe.Dequeue();
        r := Ok(buf);
      }
    }

    /** `close` */
    method Close() returns (r: Result<(), Error>)
      requires pipe != null ==> pipe.Valid()
      modifies this, pipe
      ensures r.Err? <==> old(pipe) == null
      ensures pipe == null
      ensures r.Ok? ==> (old(pipe).Valid() && old(pipe).refCount == old(pipe.refCount) - 1 &&
        (old(pipe).refCount == 0 ==> old(pipe).queue == [] && old(pipe).released == old(pipe.released) + old(pipe.queue) &&
                                     old(pipe).readNotify == None) &&
        (old(pipe).refCount != 0 ==> old(pipe).queue == old(pipe.queue) && old(pipe).released == old(pipe.released) &&
                                     old(pipe).readNotify == old(pipe.readNotify)) &&
        old(pipe).notified == old(pipe.notified) && old(pipe).submitted == old(pipe.submitted) &&
        old(pipe).polled == old(pipe.polled))
    {
      if pipe == null {
        r := Err(NullPipe);
      } else {
        pipe.Close();
        pipe := null;
        r := Ok(());
      }
    }
  }

  /** No buffer leaves the queue out of turn: what was taken off it came first in submission order. */
  lemma TakenInOrder(p: Pipe)
    requires p.Valid()
    ensures p.taken <= p.submitted
    ensures |p.submitted| == |p.taken| + |p.queue|
  {
  }
}
