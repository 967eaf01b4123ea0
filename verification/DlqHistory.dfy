/** The dead letter queue over whole histories of Enqueue, Remove and retention
    (internal/dlq/file.go:73-136, 215-293). */
module DlqHistory {
  import opened Common
  import opened Domain
  import opened DlqFormat

  datatype Op =
    | Enqueue(env: Envelope, cause: string, now: int)
    | Remove(id: string)
    | Purge(cutoff: int)

  /** Position of the first entry with the identifier, or the length. */
  function Find(es: seq<DeadEvent>, id: string): (i: nat)
    ensures i <= |es| && (i < |es| ==> es[i].id == id)
    ensures forall j :: 0 <= j < i ==> es[j].id != id
  {
    if es == [] || es[0].id == id then 0 else 1 + Find(es[1..], id)
  }

  predicate Has(es: seq<DeadEvent>, id: string) { Find(es, id) < |es| }

  function NewEntry(op: Op): DeadEvent
    requires op.Enqueue?
  {
    DeadEvent(op.env.id, op.now, op.cause, 0, Some(op.env))
  }

  /** Replace in place and count the retry, or append. */
  function Upserted(es: seq<DeadEvent>, e: DeadEvent): seq<DeadEvent> {
    var i := Find(es, e.id);
    if i < |es| then es[i := e.(retryCount := es[i].retryCount + 1)] else es + [e]
  }

  /** The entries an operation asks writeAll to store. */
  function Target(es: seq<DeadEvent>, op: Op): seq<DeadEvent> {
    match op
    case Enqueue(_, _, _) => Upserted(es, NewEntry(op))
    case Remove(id) => Select((e: DeadEvent) => e.id != id, es)
    case Purge(cutoff) => Select((e: DeadEvent) => e.failedAt >= cutoff, es)
  }

  /** The file can be read and the new entries can be encoded. */
  predicate Succeeds(c: Codec, es: seq<DeadEvent>, op: Op)
    requires Encodable(c, es)
  {
    Scannable(c, es) && Encodable(c, Target(es, op))
  }

  /** A failed operation leaves the file alone. */
  function Step(c: Codec, max: int, es: seq<DeadEvent>, op: Op): (r: seq<DeadEvent>)
    requires Encodable(c, es)
    ensures Encodable(c, r)
  {
    if Succeeds(c, es, op) then Keep(c, max, Target(es, op)) else es
  }

  /** A history from an empty file: the operations, the queue between them, and which succeeded. */
  datatype Run = Run(ops: seq<Op>, queue: seq<seq<DeadEvent>>, ok: seq<bool>)

  ghost predicate Shaped(r: Run) {
    |r.queue| == |r.ops| + 1 && |r.ok| == |r.ops| && r.queue[0] == []
  }

  /** An operation can fail at any time, by I/O for instance; only a possible one can succeed. */
  ghost predicate StepsTo(c: Codec, max: int, es: seq<DeadEvent>, op: Op, es': seq<DeadEvent>, ok: bool) {
    && Encodable(c, es) && (ok ==> Succeeds(c, es, op))
    && es' == if ok then Step(c, max, es, op) else es
  }

  ghost predicate StepsAt(c: Codec, max: int, r: Run, n: int)
    requires Shaped(r)
  {
    0 <= n < |r.ops| ==> StepsTo(c, max, r.queue[n], r.ops[n], r.queue[n + 1], r.ok[n])
  }

  ghost predicate IsRun(c: Codec, max: int, r: Run) {
    Shaped(r) && forall n :: StepsAt(c, max, r, n)
  }

  /** Every sequence of operations has its run, whichever of them meet an I/O failure. */
  lemma {:induction false} EveryHistoryRuns(c: Codec, max: int, ops: seq<Op>, io: seq<bool>) returns (r: Run)
    requires |io| == |ops|
    ensures IsRun(c, max, r) && r.ops == ops
    ensures forall n :: 0 <= n < |ops| ==> OkAt(c, r, n, io[n])
    ensures Encodable(c, r.queue[|ops|])
  {
    if ops == [] {
      r := Run([], [[]], []);
    } else {
      var n := |ops| - 1;
      var q := EveryHistoryRuns(c, max, ops[..n], io[..n]);
      assert ops == ops[..n] + [ops[n]];
      r := OneMore(c, max, q, ops[n], io[n]);
      forall k | 0 <= k < |ops| ensures OkAt(c, r, k, io[k]) {
        assert k < n ==> OkAt(c, q, k, io[..n][k]);
      }
    }
  }

  lemma OneMore(c: Codec, max: int, q: Run, op: Op, io: bool) returns (r: Run)
    requires IsRun(c, max, q) && Encodable(c, q.queue[|q.ops|])
    ensures IsRun(c, max, r) && r.ops == q.ops + [op] && Encodable(c, r.queue[|r.ops|])
    ensures OkAt(c, r, |q.ops|, io) && forall k, b :: OkAt(c, q, k, b) ==> OkAt(c, r, k, b)
  {
    var es := q.queue[|q.ops|];
    var ok := io && Succeeds(c, es, op);
    var es' := if ok then Step(c, max, es, op) else es;
    r := Extended(q, op, es', ok);
    ExtendedIsRun(c, max, q, op, es', ok);
    forall k, b | OkAt(c, q, k, b) ensures OkAt(c, r, k, b) {
      ExtendedSame(c, q, op, es', ok, k, b);
    }
  }

  function Extended(r: Run, op: Op, es: seq<DeadEvent>, ok: bool): Run {
    Run(r.ops + [op], r.queue + [es], r.ok + [ok])
  }

  lemma ExtendedIsRun(c: Codec, max: int, r: Run, op: Op, es': seq<DeadEvent>, ok: bool)
    requires IsRun(c, max, r) && StepsTo(c, max, r.queue[|r.ops|], op, es', ok)
    ensures IsRun(c, max, Extended(r, op, es', ok))
  {
    forall k ensures StepsAt(c, max, Extended(r, op, es', ok), k) {
      assert StepsAt(c, max, r, k);
    }
  }

  lemma ExtendedSame(c: Codec, r: Run, op: Op, es: seq<DeadEvent>, ok: bool, k: int, io: bool)
    requires OkAt(c, r, k, io)
    ensures OkAt(c, Extended(r, op, es, ok), k, io)
  {}

  /** Operation `n` succeeds exactly when it is possible and its I/O works. */
  ghost predicate OkAt(c: Codec, r: Run, n: int, io: bool) {
    && 0 <= n < |r.ops| && n < |r.queue| && n < |r.ok| && Encodable(c, r.queue[n])
    && r.ok[n] == (io && Succeeds(c, r.queue[n], r.ops[n]))
  }

  /** What a step does to the entries, whatever the codec and the bound: a suffix of the target. */
  ghost predicate Moves(es: seq<DeadEvent>, op: Op, es': seq<DeadEvent>, ok: bool) {
    var t := Target(es, op);
    if ok then |es'| <= |t| && es' == t[|t| - |es'|..] else es' == es
  }

  ghost predicate MovesAt(r: Run, n: int)
    requires Shaped(r)
  {
    0 <= n < |r.ops| ==> Moves(r.queue[n], r.ops[n], r.queue[n + 1], r.ok[n])
  }

  ghost predicate Moving(r: Run) {
    Shaped(r) && forall n :: MovesAt(r, n)
  }

  lemma StepMoves(c: Codec, max: int, es: seq<DeadEvent>, op: Op, es': seq<DeadEvent>, ok: bool)
    requires StepsTo(c, max, es, op, es', ok)
    ensures Moves(es, op, es', ok)
  {}

  lemma RunMoves(c: Codec, max: int, r: Run)
    requires IsRun(c, max, r)
    ensures Moving(r)
  {
    forall n ensures MovesAt(r, n) {
      assert StepsAt(c, max, r, n);
      if 0 <= n < |r.ops| {
        StepMoves(c, max, r.queue[n], r.ops[n], r.queue[n + 1], r.ok[n]);
      }
    }
  }

  lemma MovingStep(r: Run, n: nat)
    requires Moving(r) && 0 < n <= |r.ops|
    ensures Moves(r.queue[n - 1], r.ops[n - 1], r.queue[n], r.ok[n - 1])
  {
    assert MovesAt(r, n - 1);
  }

  lemma RunStep(c: Codec, max: int, r: Run, n: nat)
    requires IsRun(c, max, r) && 0 < n <= |r.ops|
    ensures StepsTo(c, max, r.queue[n - 1], r.ops[n - 1], r.queue[n], r.ok[n - 1])
  {
    assert StepsAt(c, max, r, n - 1);
  }

  // ---- Reading a history ----------------------------------------------------------------

  /** For an identifier in the queue: when it entered, and how often it was enqueued since. */
  datatype Note = Note(enteredAt: nat, again: nat)

  type Notes = map<string, Note>

  /** A successful enqueue of `id` starts its note or counts in it; nothing else matters. */
  function NotesAfter(notes: Notes, time: nat, es: seq<DeadEvent>, op: Op, ok: bool): Notes {
    if !op.Enqueue? || !ok then notes
    else if Has(es, op.env.id) && op.env.id in notes then
      notes[op.env.id := notes[op.env.id].(again := notes[op.env.id].again + 1)]
    else notes[op.env.id := Note(time, 0)]
  }

  /** Entries stand in the order in which they entered, and retry counts are as noted. */
  ghost predicate Explains(notes: Notes, es: seq<DeadEvent>) {
    && (forall i :: 0 <= i < |es| ==> es[i].id in notes && es[i].retryCount == notes[es[i].id].again)
    && (forall i, j :: 0 <= i < j < |es| ==> notes[es[i].id].enteredAt < notes[es[j].id].enteredAt)
  }

  ghost predicate BeforeTime(notes: Notes, time: nat) {
    forall id :: id in notes ==> notes[id].enteredAt < time
  }

  lemma {:induction false} SelectIsExplained(notes: Notes, es: seq<DeadEvent>, keep: DeadEvent -> bool)
    requires Explains(notes, es)
    ensures Explains(notes, Select(keep, es))
  {
    if es != [] {
      var front := es[..|es| - 1];
      SelectIsExplained(notes, front, keep);
      var r := Select(keep, front);
      forall i | 0 <= i < |r| ensures notes[r[i].id].enteredAt < notes[es[|es| - 1].id].enteredAt {
        assert r[i] in front;
      }
    }
  }

  lemma UpsertIsExplained(notes: Notes, time: nat, es: seq<DeadEvent>, op: Op)
    requires Explains(notes, es) && op.Enqueue? && BeforeTime(notes, time)
    ensures Explains(NotesAfter(notes, time, es, op, true), Target(es, op))
  {}

  lemma StepIsExplained(notes: Notes, time: nat, es: seq<DeadEvent>, op: Op, r: seq<DeadEvent>, ok: bool)
    requires Moves(es, op, r, ok) && Explains(notes, es) && BeforeTime(notes, time)
    ensures Explains(NotesAfter(notes, time, es, op, ok), r)
  {
    if ok {
      var t := Target(es, op);
      if op.Enqueue? {
        UpsertIsExplained(notes, time, es, op);
      } else if op.Remove? {
        SelectIsExplained(notes, es, (e: DeadEvent) => e.id != op.id);
      } else {
        SelectIsExplained(notes, es, (e: DeadEvent) => e.failedAt >= op.cutoff);
      }
    }
  }

  /** The notes after the first n operations. */
  function NotesAt(r: Run, n: nat): (notes: Notes)
    requires Shaped(r) && n <= |r.ops|
    ensures BeforeTime(notes, n)
  {
    if n == 0 then map[] else NotesAfter(NotesAt(r, n - 1), n - 1, r.queue[n - 1], r.ops[n - 1], r.ok[n - 1])
  }

  lemma {:induction false} RunIsExplained(r: Run, n: nat)
    requires Moving(r) && n <= |r.ops|
    ensures Explains(NotesAt(r, n), r.queue[n])
  {
    if n > 0 {
      RunIsExplained(r, n - 1);
      MovingStep(r, n);
      StepIsExplained(NotesAt(r, n - 1), n - 1, r.queue[n - 1], r.ops[n - 1], r.queue[n], r.ok[n - 1]);
    }
  }

  /** Operation `i` is an enqueue of `id` that succeeded. */
  predicate EnqueuesOk(r: Run, i: int, id: string) {
    0 <= i < |r.ops| == |r.ok| && r.ok[i] && r.ops[i].Enqueue? && r.ops[i].env.id == id
  }

  /** How many of the operations from `from` up to `n` are successful enqueues of `id`. */
  function EnqueuesBetween(r: Run, from: nat, n: nat, id: string): nat {
    if n <= from then 0 else
    EnqueuesBetween(r, from, n - 1, id) + (if EnqueuesOk(r, n - 1, id) then 1 else 0)
  }

  /** Operation `t` put `id` into the queue, and after n operations it is still there. */
  ghost predicate Entered(r: Run, n: nat, id: string, t: nat) {
    && t < n < |r.queue| && EnqueuesOk(r, t, id)
    && !Has(r.queue[t], id)
    && forall j :: t < j <= n ==> Has(r.queue[j], id)
  }

  lemma UpsertMembers(es: seq<DeadEvent>, x: DeadEvent, e: DeadEvent)
    requires e in Upserted(es, x)
    ensures e in es || e.id == x.id
  {}

  lemma OnlyEnqueueAdds(es: seq<DeadEvent>, op: Op, r: seq<DeadEvent>, ok: bool, id: string)
    requires Moves(es, op, r, ok) && Has(r, id) && !Has(es, id)
    ensures op.Enqueue? && op.env.id == id && ok
  {
    var e := r[Find(r, id)];
    assert e !in es;
    assert e in Target(es, op);
    if op.Enqueue? {
      UpsertMembers(es, NewEntry(op), e);
    }
  }

  ghost predicate NoteIsTrue(r: Run, n: nat, id: string, note: Note) {
    Entered(r, n, id, note.enteredAt) && note.again == EnqueuesBetween(r, note.enteredAt + 1, n, id)
  }

  lemma NoteStartsTrue(r: Run, n: nat, id: string)
    requires Shaped(r) && 0 < n <= |r.ops| && Has(r.queue[n], id) && !Has(r.queue[n - 1], id)
    requires EnqueuesOk(r, n - 1, id)
    ensures NoteIsTrue(r, n, id, Note(n - 1, 0))
  {}

  /** For what is in the queue, the notes are what the history says. */
  lemma {:induction false} NotesReadHistory(r: Run, n: nat, id: string)
    requires Moving(r) && n <= |r.ops| && Has(r.queue[n], id)
    ensures id in NotesAt(r, n) && NoteIsTrue(r, n, id, NotesAt(r, n)[id])
  {
    if n > 0 {
      if Has(r.queue[n - 1], id) {
        NotesReadHistory(r, n - 1, id);
      } else {
        MovingStep(r, n);
        OnlyEnqueueAdds(r.queue[n - 1], r.ops[n - 1], r.queue[n], r.ok[n - 1], id);
        NoteStartsTrue(r, n, id);
      }
    }
  }

  lemma StepFits(c: Codec, max: nat, es: seq<DeadEvent>, op: Op)
    requires Encodable(c, es) && |ImageOf(c, es)| <= max
    ensures |ImageOf(c, Step(c, max, es, op))| <= max
  {
    if Succeeds(c, es, op) {
      var t := Target(es, op);
      KeepIsLongestSuffix(c, max, t, |t| - |Keep(c, max, t)|);
    }
  }

  /** The file never outgrows its bound. */
  lemma {:induction false} RunFits(c: Codec, max: nat, r: Run, n: nat)
    requires IsRun(c, max, r) && n <= |r.ops|
    ensures Encodable(c, r.queue[n]) && |ImageOf(c, r.queue[n])| <= max
  {
    if n > 0 {
      RunFits(c, max, r, n - 1);
      RunStep(c, max, r, n);
      StepFits(c, max, r.queue[n - 1], r.ops[n - 1]);
    }
  }

  /** Every entry of every run entered by an enqueue that is still in force, and its retry count
      is the number of successful enqueues since. */
  lemma EntryHasEntered(c: Codec, max: nat, r: Run, n: nat, i: nat) returns (t: nat)
    requires IsRun(c, max, r) && n <= |r.ops| && i < |r.queue[n]|
    ensures Entered(r, n, r.queue[n][i].id, t)
    ensures r.queue[n][i].retryCount == EnqueuesBetween(r, t + 1, n, r.queue[n][i].id)
  {
    RunMoves(c, max, r);
    RunIsExplained(r, n);
    NotesReadHistory(r, n, r.queue[n][i].id);
    t := NotesAt(r, n)[r.queue[n][i].id].enteredAt;
  }

  /** Two entries stand in the order in which they entered, so their identifiers differ. */
  lemma EntriesInOrder(c: Codec, max: nat, r: Run, n: nat, i: nat, j: nat, s: nat, t: nat)
    requires IsRun(c, max, r) && n <= |r.ops| && i < j < |r.queue[n]|
    requires Entered(r, n, r.queue[n][i].id, s) && Entered(r, n, r.queue[n][j].id, t)
    ensures s < t && r.queue[n][i].id != r.queue[n][j].id
  {
    RunMoves(c, max, r);
    RunIsExplained(r, n);
    NotesReadHistory(r, n, r.queue[n][i].id);
    NotesReadHistory(r, n, r.queue[n][j].id);
  }

  // ---- What an enqueue keeps ------------------------------------------------------------

  /** When a suffix alone does not fit, the entries before it do not matter. */
  lemma {:induction false} KeepSkips(c: Codec, max: nat, es: seq<DeadEvent>, k: nat)
    requires Encodable(c, es) && k <= |es|
    requires k > 0 ==> |ImageOf(c, es[k - 1..])| > max
    ensures Keep(c, max, es) == Keep(c, max, es[k..])
  {
    if k > 0 {
      SuffixIsSmaller(c, es, k - 1);
      assert es[1..][k - 1..] == es[k..];
      if k > 1 {
        assert es[1..][k - 2..] == es[k - 1..];
      }
      KeepSkips(c, max, es[1..], k - 1);
    } else {
      assert es[0..] == es;
    }
  }

  lemma SuffixHasIff(t: seq<DeadEvent>, k: nat, at: nat)
    requires k <= |t| && at < |t|
    requires forall i :: at < i < |t| ==> t[i].id != t[at].id
    ensures Has(t[k..], t[at].id) <==> k <= at
  {
    if k <= at {
      assert t[k..][at - k] == t[at];
    }
  }

  lemma UpsertedAt(es: seq<DeadEvent>, e: DeadEvent)
    ensures var t, at := Upserted(es, e), Find(es, e.id);
      && at < |t| && t[at].id == e.id
      && forall i :: 0 <= i < |t| && i != at ==> i < |es| && t[i] == es[i]
  {}

  /** A successful step keeps a suffix, and that suffix reaches back to `at` exactly when the rest
      from there fits. */
  lemma StepKeeps(c: Codec, max: nat, es: seq<DeadEvent>, op: Op, at: nat) returns (k: nat)
    requires Encodable(c, es) && Succeeds(c, es, op) && at <= |Target(es, op)|
    ensures k <= |Target(es, op)| && Step(c, max, es, op) == Target(es, op)[k..]
    ensures |ImageOf(c, Target(es, op)[at..])| <= max <==> k <= at
  {
    var t := Target(es, op);
    KeepIsLongestSuffix(c, max, t, at);
    k := |t| - |Keep(c, max, t)|;
  }

  /** A successful enqueue keeps its own event exactly when that event and everything behind it
      in the queue fit into the bound. */
  lemma EnqueueKeepsItselfIff(c: Codec, max: nat, es: seq<DeadEvent>, op: Op)
    requires Encodable(c, es) && op.Enqueue? && Succeeds(c, es, op)
    requires forall i :: Find(es, op.env.id) < i < |es| ==> es[i].id != op.env.id
    ensures Has(Step(c, max, es, op), op.env.id) <==>
      |ImageOf(c, Target(es, op)[Find(es, op.env.id)..])| <= max
  {
    var t, at := Target(es, op), Find(es, op.env.id);
    UpsertedAt(es, NewEntry(op));
    var k := StepKeeps(c, max, es, op, at);
    SuffixHasIff(t, k, at);
  }

  /** A new event larger than the bound is not stored, reports success and empties the queue. */
  lemma OversizedEventEmptiesQueue(c: Codec, max: nat, es: seq<DeadEvent>, op: Op)
    requires Encodable(c, es) && op.Enqueue? && Succeeds(c, es, op)
    requires !Has(es, op.env.id) && c.enc(NewEntry(op)).Some? && |c.enc(NewEntry(op)).value| >= max
    ensures Step(c, max, es, op) == []
  {
    var t := Target(es, op);
    assert t[|es|..] == [NewEntry(op)] && t[|es| + 1..] == [];
    ImageOfSplit(c, t[|es|..]);
    KeepSkips(c, max, t, |t|);
  }

  // ---- The scanner limit ----------------------------------------------------------------

  lemma SuffixScannableIff(c: Codec, t: seq<DeadEvent>, k: nat, at: nat)
    requires Encodable(c, t) && k <= |t| && at < |t|
    requires forall i :: 0 <= i < |t| && i != at ==> |c.enc(t[i]).value| < LINE_LIMIT
    ensures Scannable(c, t[k..]) <==> k > at || |c.enc(t[at]).value| < LINE_LIMIT
  {
    if k <= at {
      assert t[k..][at - k] == t[at];
    }
  }

  /** A successful enqueue leaves the file readable unless it stores a line the scanner refuses. */
  lemma EnqueueLeavesReadableIff(c: Codec, max: nat, es: seq<DeadEvent>, op: Op)
    requires Encodable(c, es) && op.Enqueue? && Succeeds(c, es, op)
    ensures Scannable(c, Step(c, max, es, op)) <==>
      || |ImageOf(c, Target(es, op)[Find(es, op.env.id)..])| > max
      || |c.enc(Target(es, op)[Find(es, op.env.id)]).value| < LINE_LIMIT
  {
    var t, at := Target(es, op), Find(es, op.env.id);
    UpsertedAt(es, NewEntry(op));
    var k := StepKeeps(c, max, es, op, at);
    SuffixScannableIff(c, t, k, at);
  }

  /** Once unreadable, the queue is stuck: every later operation fails and nothing changes. */
  lemma {:induction false} UnreadableIsForever(c: Codec, max: int, r: Run, m: nat, n: nat)
    requires IsRun(c, max, r) && m <= n <= |r.ops| && Encodable(c, r.queue[m]) && !Scannable(c, r.queue[m])
    ensures r.queue[n] == r.queue[m]
    ensures forall k :: m <= k < n ==> !r.ok[k]
  {
    if m < n {
      UnreadableIsForever(c, max, r, m, n - 1);
      RunStep(c, max, r, n);
    }
  }

  /** A bound no larger than the scanner's rules this out. */
  lemma SmallQueuesStayReadable(c: Codec, max: nat, r: Run, n: nat)
    requires IsRun(c, max, r) && n <= |r.ops| && max <= LINE_LIMIT
    ensures Encodable(c, r.queue[n]) && Scannable(c, r.queue[n])
  {
    var es := r.queue[n];
    RunFits(c, max, r, n);
    forall i | 0 <= i < |es| ensures |c.enc(es[i]).value| < LINE_LIMIT {
      SuffixIsSmaller(c, es, i);
      ImageOfSplit(c, es[i..]);
    }
  }
}
