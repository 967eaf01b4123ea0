/** The batching handler as an object: the sections that batch.go runs under its mutex, its
    channel operations and its loops, each performing one step of `BatchProtocol`. */
module BatchHandler {
  import opened Domain
  import P = BatchProtocol

  datatype SendResult = Sent | Blocks | Panics

  class Handler {
    const max: nat
    const hasDlq: bool
    var buffer: seq<P.Item>
    var ch: seq<P.Item>
    var closed: bool
    var dlq: seq<P.Item>          // what the queue was handed
    ghost var sys: P.System       // the whole system this object is part of

    ghost predicate Valid()
      reads this
    {
      && P.Inv(sys) && !sys.panicked
      && sys.max == max && sys.hasDlq == hasDlq
      && sys.buffer == buffer && sys.ch == ch && sys.closed == closed && sys.dead == dlq
    }

    constructor (maxSize: int, hasDlq: bool)
      ensures Valid() && sys == P.New(maxSize, hasDlq)
    {
      this.max := if maxSize <= 0 then 10 else maxSize;
      this.hasDlq := hasDlq;
      buffer, ch, closed, dlq := [], [], false, [];
      sys := P.New(maxSize, hasDlq);
    }

    /** Handle up to the unlock: refused once closed. */
    method Check(ghost p: nat, ghost item: P.Item) returns (refused: bool)
      requires Valid() && p !in sys.sending
      modifies this`sys
      ensures Valid() && sys == P.Next(old(sys), P.Check(p, item)) && refused == closed
    {
      refused := closed;
      P.StepKeepsInv(sys, P.Check(p, item));
      sys := P.Next(sys, P.Check(p, item));
    }

    /** The send on the channel: it panics once the channel is closed and blocks while it is full. */
    method Send(ghost p: nat, item: P.Item) returns (r: SendResult)
      requires Valid() && p in sys.sending && sys.sending[p] == item
      modifies this`ch, this`sys
      ensures r == if closed then Panics else if |old(ch)| >= 2 * max then Blocks else Sent
      ensures r.Blocks? <==> !P.Enabled(old(sys), P.Send(p))
      ensures sys == if r.Blocks? then old(sys) else P.Next(old(sys), P.Send(p))
      ensures r.Panics? <==> sys.panicked
      ensures !r.Panics? ==> Valid()
    {
      if closed {
        sys := P.Next(sys, P.Send(p));
        return Panics;
      }
      if |ch| >= 2 * max {
        return Blocks;
      }
      P.StepKeepsInv(sys, P.Send(p));
      sys := P.Next(sys, P.Send(p));
      ch := ch + [item];
      r := Sent;
    }

    method Receive() returns (item: P.Item)
      requires Valid() && sys.worker.Selecting? && ch != []
      modifies this`ch, this`sys
      ensures Valid() && sys == P.Next(old(sys), P.Receive) && sys.worker == P.Received(item)
    {
      P.StepKeepsInv(sys, P.Receive);
      sys := P.Next(sys, P.Receive);
      item, ch := ch[0], ch[1..];
    }

    method Append(item: P.Item) returns (shouldFlush: bool)
      requires Valid() && sys.worker == P.Received(item)
      modifies this`buffer, this`sys
      ensures Valid() && sys == P.Next(old(sys), P.Append) && shouldFlush == sys.worker.Draining?
    {
      P.StepKeepsInv(sys, P.Append);
      sys := P.Next(sys, P.Append);
      buffer := buffer + [item];
      shouldFlush := |buffer| >= max;
    }

    /** drainBuffer, reached by size or by the ticker. */
    method DrainBuffer(ghost l: P.Label) returns (batch: seq<P.Item>)
      requires Valid() && (l.Drain? || l.Tick?) && P.Enabled(sys, l)
      modifies this`buffer, this`sys
      ensures Valid() && sys == P.Next(old(sys), l)
      ensures batch == old(buffer) && P.InFlight(sys.worker) == batch
    {
      P.StepKeepsInv(sys, l);
      sys := P.Next(sys, l);
      batch, buffer := buffer, [];
    }

    /** What the worker does when inner.Flush returns: a failed batch goes to the queue, whole. */
    method FlushReturned(batch: seq<P.Item>, ok: bool)
      requires Valid() && sys.worker == P.Flushing(batch)
      modifies this`dlq, this`sys
      ensures Valid() && sys == P.Next(old(sys), P.FlushEnds(ok))
    {
      P.StepKeepsInv(sys, P.FlushEnds(ok));
      sys := P.Next(sys, P.FlushEnds(ok));
      if !ok {
        EnqueueFailed(batch);
      }
    }

    /** enqueueFailed: a queue error is logged and the loop goes on. */
    method EnqueueFailed(batch: seq<P.Item>)
      modifies this`dlq
      ensures dlq == old(dlq) + (if hasDlq then batch else [])
    {
      if !hasDlq { return; }
      for i := 0 to |batch|
        invariant dlq == old(dlq) + batch[..i]
      {
        dlq := dlq + [batch[i]];
      }
    }

    /** The locked part of Close; false when an earlier call already closed the handler. */
    method Close() returns (first: bool)
      requires Valid()
      modifies this`closed, this`sys
      ensures Valid() && first == !old(closed)
      ensures sys == P.Next(old(sys), if first then P.Close else P.CloseAgain)
    {
      first := !closed;
      if first {
        P.StepKeepsInv(sys, P.Close);
        sys := P.Next(sys, P.Close);
        closed := true;
      }
    }

    /** The end of the first Close, once `done` is closed. */
    method FinishClose(flushOk: bool) returns (failed: bool)
      requires Valid() && sys.closer.Waiting? && sys.worker.Stopped?
      modifies this`buffer, this`sys
      ensures Valid() && sys == P.Next(old(sys), P.FinalFlush(flushOk))
      ensures failed == sys.closer.failed && (failed <==> old(buffer) != [] && !flushOk)
      ensures P.Delivered(sys.flushed) == sys.accepted
    {
      P.StepKeepsInv(sys, P.FinalFlush(flushOk));
      sys := P.Next(sys, P.FinalFlush(flushOk));
      P.ReturnedMeansDelivered(sys);
      failed := buffer != [] && !flushOk;
      buffer := [];
    }
  }

  /** extractEvents */
  method ExtractEvents(batch: seq<P.Item>) returns (events: seq<Event>)
    ensures |events| == |batch|
    ensures forall i :: 0 <= i < |batch| ==> events[i] == batch[i].event
  {
    events := [];
    for i := 0 to |batch|
      invariant |events| == i
      invariant forall j :: 0 <= j < i ==> events[j] == batch[j].event
    {
      events := events + [batch[i].event];
    }
  }
}
