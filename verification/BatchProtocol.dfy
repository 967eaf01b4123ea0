/** The batching handler as interleaved steps (internal/notifier/batch/batch.go:111-261).

    Producers call Handle, one worker runs the select loop, a ticker fires at any moment and
    Close may come at any time. Each section under the mutex is one step; so is each channel
    operation and each call of inner.Flush. */
module BatchProtocol {
  import opened Domain

  /** bufferedEvent */
  datatype Item = Item(ceId: string, event: Event)

  datatype Worker =
    | Selecting
    | Received(item: Item)              // taken from the channel, not yet in the buffer
    | Draining                          // shouldFlush was true, buffer not yet drained
    | Flushing(batch: seq<Item>)        // inside inner.Flush
    | Stopped                           // run returned, done is closed

  /** The first Close; later ones find `closed` set and return at once. */
  datatype Closer = NotCalled | Waiting | Returned(failed: bool)

  /** One call of inner.Flush and its outcome; `final` marks the one made by Close. */
  datatype Batch = Batch(items: seq<Item>, ok: bool, final: bool)

  datatype System = System(
    max: nat,
    hasDlq: bool,
    closed: bool,
    ch: seq<Item>,
    buffer: seq<Item>,
    worker: Worker,
    sending: map<nat, Item>,            // Handle calls past the check, not yet sent
    closer: Closer,
    panicked: bool,
    accepted: seq<Item>,                // history: what was sent on the channel
    flushed: seq<Batch>,                // history: calls of inner.Flush
    dead: seq<Item>)                    // history: hand-offs to the dead letter queue

  /** ApplyDefaults and New. */
  function New(maxSize: int, hasDlq: bool): (s: System)
    ensures (maxSize > 0 ==> s.max == maxSize) && (maxSize <= 0 ==> s.max == 10)
  {
    var max := if maxSize <= 0 then 10 else maxSize;
    System(max, hasDlq, false, [], [], Selecting, map[], NotCalled, false, [], [], [])
  }

  datatype Label =
    | Check(p: nat, item: Item)   // Handle: lock, look at closed, unlock
    | Send(p: nat)                // Handle: send on the channel
    | Receive
    | Append
    | Drain
    | Tick
    | FlushEnds(ok: bool)
    | Stop
    | Close
    | CloseAgain
    | FinalFlush(ok: bool)

  predicate Enabled(s: System, l: Label) {
    && !s.panicked
    && match l
       case Check(p, _) => p !in s.sending
       case Send(p) => p in s.sending && (s.closed || |s.ch| < 2 * s.max)
       case Receive => s.worker.Selecting? && s.ch != []
       case Append => s.worker.Received?
       case Drain => s.worker.Draining?
       case Tick => s.worker.Selecting?
       case FlushEnds(_) => s.worker.Flushing?
       case Stop => s.worker.Selecting? && s.closed && s.ch == []
       case Close => !s.closed
       case CloseAgain => s.closed
       case FinalFlush(_) => s.closer.Waiting? && s.worker.Stopped?
  }

  /** drainBuffer followed by the `len(batch) > 0` test. */
  function DrainBuffer(s: System): System {
    s.(buffer := [], worker := if s.buffer == [] then Selecting else Flushing(s.buffer))
  }

  function Next(s: System, l: Label): System
    requires Enabled(s, l)
  {
    match l
    case Check(p, item) => if s.closed then s else s.(sending := s.sending[p := item])
    case Send(p) =>
      if s.closed then s.(panicked := true)   // send on a closed channel
      else s.(sending := s.sending - {p}, ch := s.ch + [s.sending[p]], accepted := s.accepted + [s.sending[p]])
    case Receive => s.(worker := Received(s.ch[0]), ch := s.ch[1..])
    case Append =>
      var buffer := s.buffer + [s.worker.item];
      s.(buffer := buffer, worker := if |buffer| >= s.max then Draining else Selecting)
    case Drain => DrainBuffer(s)
    case Tick => DrainBuffer(s)
    case FlushEnds(ok) =>
      s.(flushed := s.flushed + [Batch(s.worker.batch, ok, false)],
         dead := if ok || !s.hasDlq then s.dead else s.dead + s.worker.batch,
         worker := Selecting)
    case Stop => s.(worker := Stopped)
    case Close => s.(closed := true, closer := Waiting)
    case CloseAgain => s
    case FinalFlush(ok) =>
      if s.buffer == [] then s.(closer := Returned(false))
      else s.(flushed := s.flushed + [Batch(s.buffer, ok, true)], buffer := [], closer := Returned(!ok))
  }

  ghost predicate Leads(s: System, steps: seq<Label>, t: System)
    decreases |steps|
  {
    if steps == [] then s == t
    else Enabled(s, steps[0]) && Leads(Next(s, steps[0]), steps[1..], t)
  }

  // ---- What every step keeps ------------------------------------------------------------

  /** What the batches delivered, in order. */
  function Delivered(bs: seq<Batch>): seq<Item> {
    if bs == [] then [] else Delivered(bs[..|bs| - 1]) + bs[|bs| - 1].items
  }

  /** The failed batches of the worker; Close's own batch is not among them. */
  function FailedByWorker(bs: seq<Batch>): seq<Item> {
    if bs == [] then [] else
    var b := bs[|bs| - 1];
    FailedByWorker(bs[..|bs| - 1]) + (if b.ok || b.final then [] else b.items)
  }

  function InFlight(w: Worker): seq<Item> { if w.Flushing? then w.batch else [] }

  function InHand(w: Worker): seq<Item> { if w.Received? then [w.item] else [] }

  ghost predicate Ordered(s: System) {
    s.accepted == Line(Delivered(s.flushed), InFlight(s.worker), s.buffer, InHand(s.worker), s.ch)
  }

  ghost predicate Bounded(s: System) {
    && s.max > 0 && |s.ch| <= 2 * s.max
    && (if s.worker.Draining? then |s.buffer| == s.max else |s.buffer| < s.max)
    && (s.worker.Flushing? ==> s.buffer == [] && 0 < |s.worker.batch| <= s.max)
    && forall i :: 0 <= i < |s.flushed| ==> 0 < |s.flushed[i].items| <= s.max
  }

  ghost predicate Shutdown(s: System) {
    && (s.closer.NotCalled? <==> !s.closed)
    && (s.worker.Stopped? ==> s.closed && s.ch == [])
    && (s.closer.Returned? ==> s.worker.Stopped? && s.buffer == [])
    && forall i :: 0 <= i < |s.flushed| && s.flushed[i].final ==> s.closer.Returned? && i == |s.flushed| - 1
  }

  ghost predicate DeadLetters(s: System) {
    s.dead == if s.hasDlq then FailedByWorker(s.flushed) else []
  }

  ghost predicate Inv(s: System) {
    Ordered(s) && Bounded(s) && Shutdown(s) && DeadLetters(s)
  }

  lemma HistoryAppend(bs: seq<Batch>, b: Batch)
    ensures Delivered(bs + [b]) == Delivered(bs) + b.items
    ensures FailedByWorker(bs + [b]) == FailedByWorker(bs) + (if b.ok || b.final then [] else b.items)
  {
    assert (bs + [b])[..|bs|] == bs;
  }

  /** The five places an accepted item can be, oldest first. */
  function Line(done: seq<Item>, flight: seq<Item>, buffer: seq<Item>, hand: seq<Item>, ch: seq<Item>): seq<Item> {
    done + flight + buffer + hand + ch
  }

  lemma LineShifts(d: seq<Item>, b: seq<Item>, x: Item, c: seq<Item>)
    ensures Line(d, [], b, [], [x] + c) == Line(d, [], b, [x], c) == Line(d, [], b + [x], [], c)
  {
    assert d + [] + b + [] + ([x] + c) == d + b + [x] + c;
    assert d + [] + (b + [x]) + [] + c == d + b + [x] + c;
  }

  lemma LineDrains(d: seq<Item>, b: seq<Item>, c: seq<Item>)
    ensures Line(d, [], b, [], c) == Line(d, b, [], [], c) == Line(d + b, [], [], [], c)
  {}

  lemma LineGrows(d: seq<Item>, f: seq<Item>, b: seq<Item>, h: seq<Item>, c: seq<Item>, x: Item)
    ensures Line(d, f, b, h, c + [x]) == Line(d, f, b, h, c) + [x]
  {}

  lemma TakingKeepsOrder(s: System, l: Label)
    requires Ordered(s) && Bounded(s) && Enabled(s, l) && (l.Receive? || l.Append?)
    ensures Ordered(Next(s, l))
  {
    if l.Receive? {
      LineShifts(Delivered(s.flushed), s.buffer, s.ch[0], s.ch[1..]);
      assert s.ch == [s.ch[0]] + s.ch[1..];
    } else {
      LineShifts(Delivered(s.flushed), s.buffer, s.worker.item, s.ch);
    }
  }

  lemma FlushKeepsOrder(s: System, l: Label)
    requires Ordered(s) && Bounded(s) && Shutdown(s) && Enabled(s, l) && (l.FlushEnds? || l.FinalFlush?)
    ensures Ordered(Next(s, l))
  {
    if l.FlushEnds? {
      HistoryAppend(s.flushed, Batch(s.worker.batch, l.ok, false));
      LineDrains(Delivered(s.flushed), s.worker.batch, s.ch);
    } else {
      HistoryAppend(s.flushed, Batch(s.buffer, l.ok, true));
      LineDrains(Delivered(s.flushed), s.buffer, s.ch);
    }
  }

  lemma StepKeepsOrder(s: System, l: Label)
    requires Ordered(s) && Bounded(s) && Shutdown(s) && Enabled(s, l)
    ensures Ordered(Next(s, l))
  {
    if l.Receive? || l.Append? {
      TakingKeepsOrder(s, l);
    } else if l.FlushEnds? || l.FinalFlush? {
      FlushKeepsOrder(s, l);
    } else if l.Drain? || l.Tick? {
      LineDrains(Delivered(s.flushed), s.buffer, s.ch);
    } else if l.Send? {
      LineGrows(Delivered(s.flushed), InFlight(s.worker), s.buffer, InHand(s.worker), s.ch, s.sending[l.p]);
    }
  }

  lemma StepKeepsBounds(s: System, l: Label)
    requires Bounded(s) && Shutdown(s) && Enabled(s, l)
    ensures Bounded(Next(s, l))
  {}

  lemma StepKeepsShutdown(s: System, l: Label)
    requires Bounded(s) && Shutdown(s) && DeadLetters(s) && Enabled(s, l)
    ensures Shutdown(Next(s, l)) && DeadLetters(Next(s, l))
  {
    if l.FlushEnds? {
      HistoryAppend(s.flushed, Batch(s.worker.batch, l.ok, false));
    } else if l.FinalFlush? {
      HistoryAppend(s.flushed, Batch(s.buffer, l.ok, true));
    }
  }

  lemma StepKeepsInv(s: System, l: Label)
    requires Inv(s) && Enabled(s, l)
    ensures Inv(Next(s, l))
  {
    StepKeepsOrder(s, l);
    StepKeepsBounds(s, l);
    StepKeepsShutdown(s, l);
  }

  lemma {:induction false} RunKeepsInv(s: System, steps: seq<Label>, t: System)
    requires Inv(s) && Leads(s, steps, t)
    ensures Inv(t) && t.max == s.max && t.hasDlq == s.hasDlq
    decreases |steps|
  {
    if steps != [] {
      StepKeepsInv(s, steps[0]);
      RunKeepsInv(Next(s, steps[0]), steps[1..], t);
    }
  }

  /** In every reachable state nothing accepted is lost, duplicated or reordered, and every
      batch handed to inner.Flush has between one and MaxSize events. */
  lemma NothingLostInOrder(maxSize: int, hasDlq: bool, steps: seq<Label>, s: System)
    requires Leads(New(maxSize, hasDlq), steps, s)
    ensures s.accepted == Delivered(s.flushed) + InFlight(s.worker) + s.buffer + InHand(s.worker) + s.ch
    ensures forall i :: 0 <= i < |s.flushed| ==> 0 < |s.flushed[i].items| <= New(maxSize, hasDlq).max
  {
    RunKeepsInv(New(maxSize, hasDlq), steps, s);
  }

  lemma ReturnedMeansDelivered(s: System)
    requires Inv(s) && s.closer.Returned?
    ensures Delivered(s.flushed) == s.accepted
  {
    assert s.accepted == Line(Delivered(s.flushed), [], [], [], []);
  }

  /** Once the first Close has returned, inner.Flush has received every accepted event exactly
      once, in order; every failed batch but Close's own went to the dead letter queue, whole. */
  lemma CloseDeliversEverything(maxSize: int, hasDlq: bool, steps: seq<Label>, s: System)
    requires Leads(New(maxSize, hasDlq), steps, s) && s.closer.Returned?
    ensures Delivered(s.flushed) == s.accepted
    ensures s.dead == if hasDlq then FailedByWorker(s.flushed) else []
  {
    RunKeepsInv(New(maxSize, hasDlq), steps, s);
    ReturnedMeansDelivered(s);
  }

  /** Close's answer tells how its own flush went. */
  ghost predicate Reports(s: System) {
    s.closer.Returned? ==>
      (s.closer.failed <==> exists i :: 0 <= i < |s.flushed| && s.flushed[i].final && !s.flushed[i].ok)
  }

  lemma StepReports(s: System, l: Label)
    requires Shutdown(s) && Reports(s) && Enabled(s, l)
    ensures Reports(Next(s, l))
  {
    if l.FinalFlush? && s.buffer != [] {
      assert Next(s, l).flushed[|s.flushed|] == Batch(s.buffer, l.ok, true);
    }
  }

  lemma {:induction false} RunReports(s: System, steps: seq<Label>, t: System)
    requires Inv(s) && Reports(s) && Leads(s, steps, t)
    ensures Reports(t)
    decreases |steps|
  {
    if steps != [] {
      StepKeepsInv(s, steps[0]);
      StepReports(s, steps[0]);
      RunReports(Next(s, steps[0]), steps[1..], t);
    }
  }

  /** The first Close returns an error exactly when the flush it made itself failed. That batch is
      handed to no queue, so the error is all that tells of it. */
  lemma CloseReports(maxSize: int, hasDlq: bool, steps: seq<Label>, s: System)
    requires Leads(New(maxSize, hasDlq), steps, s) && s.closer.Returned?
    ensures s.closer.failed <==> exists i :: 0 <= i < |s.flushed| && s.flushed[i].final && !s.flushed[i].ok
  {
    RunReports(New(maxSize, hasDlq), steps, s);
  }

  // ---- What was accepted, read off the steps alone --------------------------------------

  /** The item of the last check of `p`. */
  function LastChecked(steps: seq<Label>, p: nat): seq<Item> {
    if steps == [] then [] else
    var l := steps[|steps| - 1];
    if l.Check? && l.p == p then [l.item] else LastChecked(steps[..|steps| - 1], p)
  }

  /** The items of the sends before the first Close, in order. */
  function SentIn(steps: seq<Label>): seq<Item> {
    if steps == [] then [] else
    var front, l := steps[..|steps| - 1], steps[|steps| - 1];
    SentIn(front) + (if l.Send? && Close !in front then LastChecked(front, l.p) else [])
  }

  /** The state agrees with the steps taken. */
  ghost predicate Recalls(s: System, steps: seq<Label>) {
    && (s.closed <==> Close in steps) && s.accepted == SentIn(steps)
    && forall p :: p in s.sending ==> LastChecked(steps, p) == [s.sending[p]]
  }

  lemma RecallsNext(s: System, steps: seq<Label>, l: Label)
    requires Recalls(s, steps) && Enabled(s, l)
    ensures Recalls(Next(s, l), steps + [l])
  {
    LabelsSnoc(steps, l);
    forall p ensures LastChecked(steps + [l], p) == if l.Check? && l.p == p then [l.item] else LastChecked(steps, p) {
      CheckedSnoc(steps, l, p);
    }
  }

  lemma LabelsSnoc(steps: seq<Label>, l: Label)
    ensures SentIn(steps + [l]) ==
      SentIn(steps) + (if l.Send? && Close !in steps then LastChecked(steps, l.p) else [])
    ensures Close in steps + [l] <==> Close in steps || l.Close?
  {
    assert (steps + [l])[..|steps|] == steps;
  }

  lemma CheckedSnoc(steps: seq<Label>, l: Label, p: nat)
    ensures LastChecked(steps + [l], p) == if l.Check? && l.p == p then [l.item] else LastChecked(steps, p)
  {
    assert (steps + [l])[..|steps|] == steps;
  }

  lemma {:induction false} RunRecalls(s: System, before: seq<Label>, steps: seq<Label>, t: System)
    requires Recalls(s, before) && Leads(s, steps, t)
    ensures Recalls(t, before + steps)
    decreases |steps|
  {
    if steps == [] {
      assert before + steps == before;
    } else {
      var l, rest := steps[0], steps[1..];
      RecallsNext(s, before, l);
      RunRecalls(Next(s, l), before + [l], rest, t);
      assert steps == [l] + rest;
      assert before + [l] + rest == before + steps;
    }
  }

  /** In every run what was accepted is what the Handle calls sent before Close, each the event its
      call was made with. */
  lemma AcceptedIsSent(maxSize: int, hasDlq: bool, steps: seq<Label>, s: System)
    requires Leads(New(maxSize, hasDlq), steps, s)
    ensures s.accepted == SentIn(steps) && (s.closed <==> Close in steps)
  {
    RunRecalls(New(maxSize, hasDlq), [], steps, s);
    assert [] + steps == steps;
  }

  // ---- Handle against Close -------------------------------------------------------------

  ghost predicate CanPanic(s: System) {
    exists steps, t :: Leads(s, steps, t) && t.panicked
  }

  lemma {:induction false} SafeOnceNobodySends(s: System, steps: seq<Label>, t: System)
    requires s.closed && s.sending == map[] && !s.panicked && Leads(s, steps, t)
    ensures !t.panicked
    decreases |steps|
  {
    if steps != [] {
      SafeOnceNobodySends(Next(s, steps[0]), steps[1..], t);
    }
  }

  /** After Close has closed the channel, the handler can still panic exactly when some Handle
      was caught between its check and its send. */
  lemma PanicsIffHandleCaught(s: System)
    requires s.closed && !s.panicked
    ensures CanPanic(s) <==> s.sending != map[]
  {
    if s.sending == map[] {
      forall steps, t | Leads(s, steps, t) { SafeOnceNobodySends(s, steps, t); }
    } else {
      var p :| p in s.sending;
      var l := Send(p);
      assert Leads(Next(s, l), [][..], Next(s, l));
      assert Leads(s, [l], Next(s, l)) by { assert [l][1..] == []; }
    }
  }

  /** Such a state is reachable: a check, then Close, then the send. */
  lemma HandleCanBeCaught(item: Item)
    ensures exists s, steps :: Leads(New(1, false), steps, s) && s.panicked
  {
    var s0 := New(1, false);
    var s1 := Next(s0, Check(0, item));
    var s2 := Next(s1, Close);
    var s3 := Next(s2, Send(0));
    assert Leads(s3, [], s3);
    assert [Send(0)][1..] == [];
    assert Leads(s2, [Send(0)], s3);
    assert [Close, Send(0)][1..] == [Send(0)];
    assert Leads(s1, [Close, Send(0)], s3);
    var steps := [Check(0, item), Close, Send(0)];
    assert steps[1..] == [Close, Send(0)];
    assert Leads(s0, steps, s3);
  }

  // ---- Close comes to an end ------------------------------------------------------------

  predicate IsWorkerStep(l: Label) {
    l.Receive? || l.Append? || l.Drain? || l.Tick? || l.FlushEnds? || l.Stop?
  }

  /** A tick on an empty buffer changes nothing; every other step of the worker is progress. */
  predicate IsProgress(s: System, l: Label) { IsWorkerStep(l) && !(l.Tick? && s.buffer == []) }

  /** How much the worker can still do once the channel is closed. */
  function Remaining(s: System): nat {
    8 * |s.ch| + (if s.buffer == [] then 0 else 2) +
    match s.worker
    case Stopped => 0
    case Selecting => 1
    case Flushing(_) => 2
    case Draining => 3
    case Received(_) => 7
  }

  /** Progress lowers it, whatever a flush answers, and nothing raises it. */
  lemma ProgressLowers(s: System, l: Label)
    requires Bounded(s) && s.closed && Enabled(s, l)
    ensures Remaining(Next(s, l)) + (if IsProgress(s, l) then 1 else 0) <= Remaining(s)
    ensures Next(s, l).closed
  {}

  /** As long as the worker has not stopped it can make progress. */
  lemma WorkerIsNeverStuck(s: System) returns (l: Label)
    requires Bounded(s) && s.closed && !s.panicked && !s.worker.Stopped?
    ensures Enabled(s, l) && IsProgress(s, l)
  {
    match s.worker
    case Selecting => l := if s.ch == [] then Stop else Receive;
    case Flushing(_) => l := FlushEnds(false);
    case Draining => l := Drain;
    case Received(_) => l := Append;
  }

  /** The steps of a run that are progress of the worker. */
  ghost function ProgressIn(s: System, steps: seq<Label>): nat
    decreases |steps|
  {
    if steps == [] || !Enabled(s, steps[0]) then 0
    else (if IsProgress(s, steps[0]) then 1 else 0) + ProgressIn(Next(s, steps[0]), steps[1..])
  }

  /** What can happen next while Close waits. */
  ghost predicate GoesOn(t: System) {
    && (!t.worker.Stopped? ==> exists l :: Enabled(t, l) && IsProgress(t, l))
    && (t.closer.Waiting? && t.worker.Stopped? ==>
          forall ok :: Enabled(t, FinalFlush(ok)) && Next(t, FinalFlush(ok)).closer.Returned?)
  }

  lemma ClosedGoesOn(t: System)
    requires Bounded(t) && t.closed && !t.panicked
    ensures GoesOn(t)
  {
    if !t.worker.Stopped? {
      var l := WorkerIsNeverStuck(t);
    }
  }

  /** Close returns under every schedule: from the moment it waits the worker makes at most
      `Remaining` steps of progress, with any answers of inner.Flush, any ticks and any other
      steps between them; it is never stuck before it stops; and once it has stopped, Close's own
      flush can be made and ends the wait, whatever it answers. */
  lemma {:induction false} WaitingCloseReturns(s: System, steps: seq<Label>, t: System)
    requires Inv(s) && s.closed && Leads(s, steps, t)
    ensures ProgressIn(s, steps) + Remaining(t) <= Remaining(s)
    ensures !t.panicked ==> GoesOn(t)
    decreases |steps|
  {
    if steps == [] {
      if !t.panicked { ClosedGoesOn(t); }
    } else {
      ProgressLowers(s, steps[0]);
      StepKeepsInv(s, steps[0]);
      WaitingCloseReturns(Next(s, steps[0]), steps[1..], t);
    }
  }
}
