/** What the queue holds after any history, read off the operations alone: which identifiers, and for
    each the event of its last enqueue (internal/dlq/file.go:73-136, 215-244). */
module DlqContents {
  import opened Common
  import opened Domain
  import opened DlqFormat
  import opened DlqHistory

  ghost predicate Distinct(es: seq<DeadEvent>) { forall i, j :: 0 <= i < j < |es| ==> es[i].id != es[j].id }

  lemma RunIsDistinct(r: Run, n: nat)
    requires Moving(r) && n <= |r.ops|
    ensures Distinct(r.queue[n])
  {
    RunIsExplained(r, n);
  }

  // ---- What an entry holds --------------------------------------------------------------------

  /** The entry carries the event, the cause and the time of the enqueue. */
  predicate Carries(e: DeadEvent, op: Op) {
    op.Enqueue? && e.id == op.env.id && e.envelope == Some(op.env) && e.cause == op.cause && e.failedAt == op.now
  }

  /** After a step an entry carries the event just enqueued under its identifier, or is an old one. */
  lemma StepCarries(es: seq<DeadEvent>, op: Op, es': seq<DeadEvent>, ok: bool, e: DeadEvent)
    requires Moves(es, op, es', ok) && Distinct(es) && e in es'
    ensures if ok && op.Enqueue? && op.env.id == e.id then Carries(e, op) else e in es
  {
    if ok {
      assert e in Target(es, op);
      if op.Enqueue? {
        UpsertCarries(es, op, e);
      }
    }
  }

  lemma UpsertCarries(es: seq<DeadEvent>, op: Op, e: DeadEvent)
    requires op.Enqueue? && Distinct(es) && e in Upserted(es, NewEntry(op))
    ensures if op.env.id == e.id then Carries(e, op) else e in es
  {
    var t, at := Upserted(es, NewEntry(op)), Find(es, op.env.id);
    var i :| 0 <= i < |t| && t[i] == e;
    if i != at {
      assert i < |es| && t[i] == es[i];
    }
  }

  lemma {:induction false} LastEnqueueOf(r: Run, n: nat, e: DeadEvent) returns (t: nat)
    requires Moving(r) && n <= |r.ops| && e in r.queue[n]
    ensures t < n && EnqueuesOk(r, t, e.id) && Carries(e, r.ops[t])
    ensures forall u :: t < u < n ==> !EnqueuesOk(r, u, e.id)
  {
    StepCarriesAt(r, n, e);
    if EnqueuesOk(r, n - 1, e.id) {
      t := n - 1;
    } else {
      t := LastEnqueueOf(r, n - 1, e);
    }
  }

  lemma StepCarriesAt(r: Run, n: nat, e: DeadEvent)
    requires Moving(r) && n <= |r.ops| && e in r.queue[n]
    ensures n > 0
    ensures EnqueuesOk(r, n - 1, e.id) ==> Carries(e, r.ops[n - 1])
    ensures !EnqueuesOk(r, n - 1, e.id) ==> e in r.queue[n - 1]
  {
    assert n > 0;
    RunIsDistinct(r, n - 1);
    MovingStep(r, n);
    StepCarries(r.queue[n - 1], r.ops[n - 1], r.queue[n], r.ok[n - 1], e);
  }

  /** In every run an entry holds the envelope, the cause and the time of the last successful enqueue
      of its identifier. */
  lemma EntryHoldsLastEnqueue(c: Codec, max: nat, r: Run, n: nat, i: nat) returns (t: nat)
    requires IsRun(c, max, r) && n <= |r.ops| && i < |r.queue[n]|
    ensures var e := r.queue[n][i];
      && t < n && r.ok[t] && r.ops[t].Enqueue? && r.ops[t].env.id == e.id
      && (forall u :: t < u < n && r.ok[u] && r.ops[u].Enqueue? ==> r.ops[u].env.id != e.id)
      && e.envelope == Some(r.ops[t].env) && e.cause == r.ops[t].cause && e.failedAt == r.ops[t].now
  {
    RunMoves(c, max, r);
    t := LastEnqueueOf(r, n, r.queue[n][i]);
    forall u | t < u < n && r.ok[u] && r.ops[u].Enqueue? ensures r.ops[u].env.id != r.queue[n][i].id {
      assert !EnqueuesOk(r, u, r.queue[n][i].id);
    }
  }

  // ---- What an operation takes away ---------------------------------------------------------------

  lemma {:induction false} ImageOfSnoc(c: Codec, es: seq<DeadEvent>, e: DeadEvent)
    requires Encodable(c, es) && c.enc(e).Some?
    ensures Encodable(c, es + [e]) && |ImageOf(c, es + [e])| == |ImageOf(c, es)| + |c.enc(e).value| + 1
  {
    ImageOfSplit(c, es + [e]);
    if es == [] {
      assert (es + [e])[1..] == [];
    } else {
      ImageOfSplit(c, es);
      assert (es + [e])[1..] == es[1..] + [e];
      ImageOfSnoc(c, es[1..], e);
    }
  }

  lemma {:induction false} SelectionIsSmaller(c: Codec, es: seq<DeadEvent>, keep: DeadEvent -> bool)
    requires Encodable(c, es)
    ensures Encodable(c, Select(keep, es)) && |ImageOf(c, Select(keep, es))| <= |ImageOf(c, es)|
  {
    if es != [] {
      var front, last := es[..|es| - 1], es[|es| - 1];
      SelectionIsSmaller(c, front, keep);
      assert es == front + [last];
      SelectAppend(keep, front, last);
      assert Select(keep, front) + [] == Select(keep, front);
      ImageOfSnoc(c, front, last);
      if keep(last) {
        ImageOfSnoc(c, Select(keep, front), last);
      }
    }
  }

  /** Taking entries away never makes the queue too large, so nothing else goes. */
  lemma SelectionIsKept(c: Codec, max: nat, es: seq<DeadEvent>, keep: DeadEvent -> bool) returns (f: seq<nat>)
    requires Encodable(c, es) && |ImageOf(c, es)| <= max
    ensures Encodable(c, Select(keep, es))
    ensures Picks(f, es, Keep(c, max, Select(keep, es))) && forall i: nat :: i in f <==> i < |es| && keep(es[i])
  {
    SelectionIsSmaller(c, es, keep);
    f := SelectPicks(keep, es);
  }

  /** A successful removal, in any run: no entry has the identifier any more, every other entry is
      there, and they stand in their order. */
  lemma RemoveIsExact(c: Codec, max: nat, r: Run, n: nat, id: string) returns (f: seq<nat>)
    requires IsRun(c, max, r) && n < |r.ops| && r.ok[n] && r.ops[n] == Remove(id)
    ensures Picks(f, r.queue[n], r.queue[n + 1])
    ensures forall i: nat :: i in f <==> i < |r.queue[n]| && r.queue[n][i].id != id
  {
    RunFits(c, max, r, n);
    RunStep(c, max, r, n + 1);
    f := SelectionIsKept(c, max, r.queue[n], (e: DeadEvent) => e.id != id);
  }

  /** A successful retention pass: exactly the entries not older than the cutoff stay, in order. */
  lemma PurgeIsExact(c: Codec, max: nat, r: Run, n: nat, cutoff: int) returns (f: seq<nat>)
    requires IsRun(c, max, r) && n < |r.ops| && r.ok[n] && r.ops[n] == Purge(cutoff)
    ensures Picks(f, r.queue[n], r.queue[n + 1])
    ensures forall i: nat :: i in f <==> i < |r.queue[n]| && r.queue[n][i].failedAt >= cutoff
  {
    RunFits(c, max, r, n);
    RunStep(c, max, r, n + 1);
    f := SelectionIsKept(c, max, r.queue[n], (e: DeadEvent) => e.failedAt >= cutoff);
  }

  /** The queue with the event of an enqueue in it: in the place of the old entry, with one retry more,
      or at the end, with none. */
  ghost predicate WithEvent(es: seq<DeadEvent>, op: Op, u: seq<DeadEvent>)
    requires op.Enqueue?
  {
    if exists i :: 0 <= i < |es| && es[i].id == op.env.id
    then
      && |u| == |es|
      && forall i :: 0 <= i < |es| ==>
           u[i] == (if es[i].id == op.env.id
                    then DeadEvent(op.env.id, op.now, op.cause, es[i].retryCount + 1, Some(op.env)) else es[i])
    else u == es + [DeadEvent(op.env.id, op.now, op.cause, 0, Some(op.env))]
  }

  lemma TargetIsWithEvent(es: seq<DeadEvent>, op: Op)
    requires op.Enqueue? && Distinct(es)
    ensures WithEvent(es, op, Target(es, op))
  {
    var at := Find(es, op.env.id);
    if i :| 0 <= i < |es| && es[i].id == op.env.id {
      assert at <= i;
    }
  }

  /** A successful enqueue, in any run: the event takes its place, and of the result the longest suffix
      that fits the bound is stored. */
  lemma EnqueueIsExact(c: Codec, max: nat, r: Run, n: nat) returns (u: seq<DeadEvent>, k: nat)
    requires IsRun(c, max, r) && n < |r.ops| && r.ok[n] && r.ops[n].Enqueue?
    ensures WithEvent(r.queue[n], r.ops[n], u) && Encodable(c, u)
    ensures k <= |u| && r.queue[n + 1] == u[k..] && |ImageOf(c, u[k..])| <= max
    ensures k > 0 ==> |ImageOf(c, u[k - 1..])| > max
  {
    RunMoves(c, max, r);
    RunIsDistinct(r, n);
    RunStep(c, max, r, n + 1);
    TargetIsWithEvent(r.queue[n], r.ops[n]);
    u := Target(r.queue[n], r.ops[n]);
    k := StepKeeps(c, max, r.queue[n], r.ops[n], 0);
    LongestFrom(c, max, u, k);
  }

  lemma LongestFrom(c: Codec, max: nat, u: seq<DeadEvent>, k: nat)
    requires Encodable(c, u) && k <= |u| && Keep(c, max, u) == u[k..]
    ensures |ImageOf(c, u[k..])| <= max && (k > 0 ==> |ImageOf(c, u[k - 1..])| > max)
  {
    KeepIsLongestSuffix(c, max, u, k);
    if k > 0 {
      KeepIsLongestSuffix(c, max, u, k - 1);
    }
  }

  // ---- Which identifiers are there ----------------------------------------------------------------

  ghost predicate Present(es: seq<DeadEvent>, id: string) { exists i :: 0 <= i < |es| && es[i].id == id }

  /** Operation `u` took `id` away: a removal, or a retention pass beyond its time. */
  ghost predicate TakesAway(r: Run, u: int, id: string, time: int) {
    && 0 <= u < |r.ops| == |r.ok| && r.ok[u]
    && ((r.ops[u].Remove? && r.ops[u].id == id) || (r.ops[u].Purge? && r.ops[u].cutoff > time))
  }

  /** The last successful enqueue of `id` before `n` was at `t`, and nothing took it away since. */
  ghost predicate Lasts(r: Run, n: nat, id: string, t: int) {
    && 0 <= t < n && EnqueuesOk(r, t, id)
    && forall u :: t < u < n ==> !EnqueuesOk(r, u, id) && !TakesAway(r, u, id, r.ops[t].now)
  }

  /** The enqueue at `u` lost nothing to compaction: it added one entry, or replaced one. */
  ghost predicate Uncompacted(r: Run, u: nat)
    requires u + 1 < |r.queue| && u < |r.ops|
  {
    r.ops[u].Enqueue? ==>
      |r.queue[u + 1]| == |r.queue[u]| + if Present(r.queue[u], r.ops[u].env.id) then 0 else 1
  }

  lemma PresentIsHas(es: seq<DeadEvent>, id: string)
    ensures Present(es, id) <==> Has(es, id)
  {
    if i :| 0 <= i < |es| && es[i].id == id {
      assert Find(es, id) <= i;
    }
  }

  /** An uncompacted enqueue: its identifier is there afterwards, and the others as before. */
  lemma EnqueuePresence(es: seq<DeadEvent>, op: Op, es': seq<DeadEvent>, id: string)
    requires op.Enqueue? && Moves(es, op, es', true)
    requires |es'| == |es| + if Present(es, op.env.id) then 0 else 1
    ensures Present(es', id) <==> Present(es, id) || id == op.env.id
  {
    PresentIsHas(es, op.env.id);
    var t, at := Target(es, op), Find(es, op.env.id);
    UpsertedAt(es, NewEntry(op));
    assert es' == t;
    if i :| 0 <= i < |es| && es[i].id == id {
      assert t[i].id == id;
    }
    if id == op.env.id {
      assert t[at].id == id;
    }
  }

  lemma PickedPresence(f: seq<nat>, es: seq<DeadEvent>, es': seq<DeadEvent>, id: string, i: nat)
    requires Picks(f, es, es') && Distinct(es) && i < |es| && es[i].id == id
    ensures Present(es', id) <==> i in f
  {
    if i in f {
      var k :| 0 <= k < |f| && f[k] == i;
      assert es'[k].id == id;
    }
    if k :| 0 <= k < |es'| && es'[k].id == id {
      assert f[k] in f;
      assert f[k] == i;
    }
  }

  lemma PickedAbsence(f: seq<nat>, es: seq<DeadEvent>, es': seq<DeadEvent>, id: string)
    requires Picks(f, es, es') && !Present(es, id)
    ensures !Present(es', id)
  {
    forall k | 0 <= k < |es'| ensures Present(es, es'[k].id) {
      assert es[f[k]].id == es'[k].id;
    }
  }

  /** A removal or a retention pass at `n`: what was there stays unless it is taken away. */
  lemma DropPresence(c: Codec, max: nat, r: Run, n: nat, id: string)
    requires IsRun(c, max, r) && n < |r.ops| && r.ok[n] && !r.ops[n].Enqueue?
    ensures !Present(r.queue[n], id) ==> !Present(r.queue[n + 1], id)
    ensures forall t :: Lasts(r, n, id, t) && Present(r.queue[n], id) ==>
      (Present(r.queue[n + 1], id) <==> !TakesAway(r, n, id, r.ops[t].now))
  {
    RunMoves(c, max, r);
    RunIsDistinct(r, n);
    var f;
    if r.ops[n].Remove? {
      f := RemoveIsExact(c, max, r, n, r.ops[n].id);
    } else {
      f := PurgeIsExact(c, max, r, n, r.ops[n].cutoff);
    }
    if i :| 0 <= i < |r.queue[n]| && r.queue[n][i].id == id {
      PickedPresence(f, r.queue[n], r.queue[n + 1], id, i);
      var t := LastEnqueueOf(r, n, r.queue[n][i]);
      forall t' | Lasts(r, n, id, t') ensures t' == t {
        assert EnqueuesOk(r, t', id) && EnqueuesOk(r, t, id);
      }
    } else {
      PickedAbsence(f, r.queue[n], r.queue[n + 1], id);
    }
  }

  lemma LastsNext(r: Run, n: nat, id: string, t: int)
    requires n < |r.ops| == |r.ok|
    ensures Lasts(r, n + 1, id, t) <==>
      if EnqueuesOk(r, n, id) then t == n else Lasts(r, n, id, t) && !TakesAway(r, n, id, r.ops[t].now)
  {}

  /** The exact presence law: in a run whose enqueues lose nothing to compaction, an identifier is in
      the queue if and only if its last successful enqueue came after every successful removal of it
      and after every retention pass beyond its time. */
  lemma {:induction false} PresentIff(c: Codec, max: nat, r: Run, n: nat, id: string)
    requires IsRun(c, max, r) && n <= |r.ops|
    requires forall u :: 0 <= u < n && r.ok[u] ==> Uncompacted(r, u)
    ensures Present(r.queue[n], id) <==> exists t :: Lasts(r, n, id, t)
  {
    if n > 0 {
      var m := n - 1;
      PresentIff(c, max, r, m, id);
      RunMoves(c, max, r);
      MovingStep(r, n);
      forall t ensures Lasts(r, n, id, t) <==>
        if EnqueuesOk(r, m, id) then t == m else Lasts(r, m, id, t) && !TakesAway(r, m, id, r.ops[t].now)
      {
        LastsNext(r, m, id, t);
      }
      if r.ok[m] && r.ops[m].Enqueue? {
        assert Uncompacted(r, m);
        EnqueuePresence(r.queue[m], r.ops[m], r.queue[n], id);
      } else if r.ok[m] {
        DropPresence(c, max, r, m, id);
      }
    }
  }
}
