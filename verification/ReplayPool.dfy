/** The worker pool of one replay request (internal/http/dlq.go:240-295), as interleaved steps.

    The main loop removes entries without an envelope itself and starts one worker for every
    other entry, at most ten at a time. The counters are updated under a mutex, so each update
    is one step. Nothing is enqueued meanwhile. */
module ReplayPool {
  import opened Common
  import opened Lru

  const WORKERS := 10

  /** An entry as listed: its original ID, and whether it has an envelope. */
  datatype Entry = Entry(id: string, hasEnvelope: bool)

  datatype Verdict = Replayed | Failed | RemoveFailed

  datatype Phase =
    | Running                     // applyOverride and the chain
    | Removing                    // the chain returned nil
    | Removed                     // the entry is gone, not yet counted
    | Reported(verdict: Verdict)  // counted, the slot not yet given back
    | Gone(verdict: Verdict)

  datatype World = World(
    next: nat,                    // position of the main loop
    phase: map<nat, Phase>,       // the workers started, by position of their entry
    queue: seq<string>,           // IDs in the queue, in order
    replayed: nat, failed: nat, removeFailed: nat, failedIds: seq<string>,
    failedAt: seq<nat>,           // positions behind failedIds
    dropped: set<nat>)            // envelope-less entries whose removal succeeded

  function Initial(queue: seq<string>): World { World(0, map[], queue, 0, 0, 0, [], [], {}) }

  datatype Label =
    | Start
    | DropEmpty(ok: bool)
    | Fails(i: nat)
    | Succeeds(i: nat)
    | Removes(i: nat)
    | CannotRemove(i: nat)
    | Counts(i: nat)
    | Exits(i: nat)

  predicate At(w: World, i: nat, p: Phase) { i in w.phase && w.phase[i] == p }

  function Busy(phase: map<nat, Phase>): set<nat> { set i | i in phase && !phase[i].Gone? }

  predicate Enabled(es: seq<Entry>, w: World, l: Label) {
    match l
    case Start => w.next < |es| && es[w.next].hasEnvelope && |Busy(w.phase)| < WORKERS
    case DropEmpty(_) => w.next < |es| && !es[w.next].hasEnvelope
    case Fails(i) => At(w, i, Running)
    case Succeeds(i) => At(w, i, Running)
    case Removes(i) => At(w, i, Removing)
    case CannotRemove(i) => At(w, i, Removing)
    case Counts(i) => At(w, i, Removed)
    case Exits(i) => i in w.phase && w.phase[i].Reported?
  }

  function Goto(w: World, i: nat, p: Phase): World { w.(phase := w.phase[i := p]) }

  function Next(es: seq<Entry>, w: World, l: Label): World
    requires Enabled(es, w, l) && forall i :: i in w.phase ==> i < |es|
  {
    match l
    case Start => Goto(w, w.next, Running).(next := w.next + 1)
    case DropEmpty(ok) =>
      if ok then w.(next := w.next + 1, queue := Without(w.queue, es[w.next].id), dropped := w.dropped + {w.next})
      else w.(next := w.next + 1)
    case Fails(i) =>
      Goto(w, i, Reported(Failed)).(
        failed := w.failed + 1, failedIds := w.failedIds + [es[i].id], failedAt := w.failedAt + [i])
    case Succeeds(i) => Goto(w, i, Removing)
    case Removes(i) => Goto(w, i, Removed).(queue := Without(w.queue, es[i].id))
    case CannotRemove(i) => Goto(w, i, Reported(RemoveFailed)).(removeFailed := w.removeFailed + 1)
    case Counts(i) => Goto(w, i, Reported(Replayed)).(replayed := w.replayed + 1)
    case Exits(i) => Goto(w, i, Gone(w.phase[i].verdict))
  }

  // ---- Invariants ---------------------------------------------------------------------------

  predicate HasVerdict(p: Phase, v: Verdict) { (p.Reported? || p.Gone?) && p.verdict == v }

  function With(phase: map<nat, Phase>, v: Verdict): set<nat> { set i | i in phase && HasVerdict(phase[i], v) }

  /** A worker exists for exactly the enveloped entries the main loop has passed. */
  ghost predicate Started(es: seq<Entry>, w: World) {
    w.next <= |es| && forall i: nat :: i in w.phase <==> i < w.next && es[i].hasEnvelope
  }

  ghost predicate Counted(w: World) {
    && w.replayed == |With(w.phase, Replayed)| && w.failed == |With(w.phase, Failed)|
    && w.removeFailed == |With(w.phase, RemoveFailed)|
  }

  ghost predicate Listed(es: seq<Entry>, w: World) {
    && |w.failedIds| == |w.failedAt| && NoDup(w.failedAt)
    && (forall i :: i in w.failedAt <==> i in w.phase && HasVerdict(w.phase[i], Failed))
    && (forall k :: 0 <= k < |w.failedAt| ==> w.failedAt[k] < |es| && w.failedIds[k] == es[w.failedAt[k]].id)
  }

  /** Entry `i` has been taken out of the queue. */
  predicate TakenOut(w: World, i: nat) {
    i in w.dropped || (i in w.phase && (w.phase[i].Removed? || HasVerdict(w.phase[i], Replayed)))
  }

  predicate IsTaken(es: seq<Entry>, w: World, id: string) {
    exists i :: 0 <= i < |es| && es[i].id == id && TakenOut(w, i)
  }

  /** What is left is the old queue without the entries taken out, in its old order. */
  ghost predicate Remains(es: seq<Entry>, w: World, queue: seq<string>) {
    && w.queue == Select((id: string) => !IsTaken(es, w, id), queue)
    && forall i :: i in w.dropped ==> i < |es| && !es[i].hasEnvelope
  }

  ghost predicate Inv(es: seq<Entry>, w: World, queue: seq<string>) {
    Started(es, w) && Counted(w) && Listed(es, w) && Remains(es, w, queue) && |Busy(w.phase)| <= WORKERS
  }

  lemma BusySize(phase: map<nat, Phase>, i: nat, p: Phase)
    ensures p.Gone? || i in Busy(phase) ==> |Busy(phase[i := p])| <= |Busy(phase)|
    ensures |Busy(phase[i := p])| <= |Busy(phase)| + 1
  {
    assert Busy(phase[i := p]) == if p.Gone? then Busy(phase) - {i} else Busy(phase) + {i};
  }

  predicate Had(phase: map<nat, Phase>, i: nat, v: Verdict) { i in phase && HasVerdict(phase[i], v) }

  /** A verdict, once given, is kept. */
  lemma WithSize(phase: map<nat, Phase>, i: nat, p: Phase, v: Verdict)
    requires Had(phase, i, v) ==> HasVerdict(p, v)
    ensures |With(phase[i := p], v)| == |With(phase, v)| + if HasVerdict(p, v) && !Had(phase, i, v) then 1 else 0
  {
    assert With(phase[i := p], v) == if HasVerdict(p, v) then With(phase, v) + {i} else With(phase, v);
  }

  lemma StartedNext(es: seq<Entry>, w: World, l: Label)
    requires Started(es, w) && Enabled(es, w, l)
    ensures Started(es, Next(es, w, l))
  {}

  lemma CountedNext(es: seq<Entry>, w: World, l: Label)
    requires Started(es, w) && Counted(w) && Enabled(es, w, l)
    ensures Counted(Next(es, w, l))
  {
    if !l.DropEmpty? {
      var i := if l.Start? then w.next else l.i;
      var p := Next(es, w, l).phase[i];
      forall v
        ensures |With(w.phase[i := p], v)| ==
          |With(w.phase, v)| + if HasVerdict(p, v) && !Had(w.phase, i, v) then 1 else 0
      {
        WithSize(w.phase, i, p, v);
      }
    }
  }

  lemma BusyNext(es: seq<Entry>, w: World, l: Label)
    requires Started(es, w) && |Busy(w.phase)| <= WORKERS && Enabled(es, w, l)
    ensures |Busy(Next(es, w, l).phase)| <= WORKERS
  {
    if !l.DropEmpty? {
      var i := if l.Start? then w.next else l.i;
      BusySize(w.phase, i, Next(es, w, l).phase[i]);
    }
  }

  lemma ListedNext(es: seq<Entry>, w: World, l: Label)
    requires Started(es, w) && Listed(es, w) && Enabled(es, w, l)
    ensures Listed(es, Next(es, w, l))
  {
    if l.Fails? {
      assert l.i !in w.failedAt;
    }
  }

  lemma {:induction false} SelectWithout(keep: string -> bool, keep': string -> bool, s: seq<string>, x: string)
    requires forall y :: keep'(y) <==> keep(y) && y != x
    ensures Select(keep', s) == Without(Select(keep, s), x)
  {
    if s != [] {
      var front, last := s[..|s| - 1], s[|s| - 1];
      SelectWithout(keep, keep', front, x);
      WithoutConcat(Select(keep, front), if keep(last) then [last] else [], x);
      assert Without([last], x) == if last == x then [] else [last];
    }
  }

  lemma {:induction false} SelectSame(keep: string -> bool, keep': string -> bool, s: seq<string>)
    requires forall y :: keep'(y) <==> keep(y)
    ensures Select(keep', s) == Select(keep, s)
  {
    if s != [] {
      SelectSame(keep, keep', s[..|s| - 1]);
    }
  }

  lemma TakesNothing(es: seq<Entry>, w: World, w': World, queue: seq<string>)
    requires Remains(es, w, queue) && w'.queue == w.queue && w'.dropped == w.dropped
    requires forall i: nat :: TakenOut(w', i) <==> TakenOut(w, i)
    ensures Remains(es, w', queue)
  {
    SelectSame((id: string) => !IsTaken(es, w, id), (id: string) => !IsTaken(es, w', id), queue);
  }

  lemma TakesOne(es: seq<Entry>, w: World, w': World, queue: seq<string>, i: nat)
    requires Remains(es, w, queue) && i < |es| && w'.queue == Without(w.queue, es[i].id)
    requires forall j: nat :: TakenOut(w', j) <==> TakenOut(w, j) || j == i
    requires forall j :: j in w'.dropped ==> j in w.dropped || (j == i && !es[i].hasEnvelope)
    ensures Remains(es, w', queue)
  {
    forall id ensures IsTaken(es, w', id) <==> IsTaken(es, w, id) || id == es[i].id {
      if IsTaken(es, w, id) {
        var j :| 0 <= j < |es| && es[j].id == id && TakenOut(w, j);
        assert TakenOut(w', j);
      }
      assert TakenOut(w', i);
    }
    SelectWithout((id: string) => !IsTaken(es, w, id), (id: string) => !IsTaken(es, w', id), queue, es[i].id);
  }

  lemma RemainsNext(es: seq<Entry>, w: World, l: Label, queue: seq<string>)
    requires Started(es, w) && Remains(es, w, queue) && Enabled(es, w, l)
    ensures Remains(es, Next(es, w, l), queue)
  {
    var w' := Next(es, w, l);
    if l.Removes? {
      TakesOne(es, w, w', queue, l.i);
    } else if l == DropEmpty(true) {
      TakesOne(es, w, w', queue, w.next);
    } else {
      TakesNothing(es, w, w', queue);
    }
  }

  lemma NextKeepsInv(es: seq<Entry>, w: World, l: Label, queue: seq<string>)
    requires Inv(es, w, queue) && Enabled(es, w, l)
    ensures Inv(es, Next(es, w, l), queue)
  {
    StartedNext(es, w, l);
    CountedNext(es, w, l);
    BusyNext(es, w, l);
    ListedNext(es, w, l);
    RemainsNext(es, w, l, queue);
  }

  lemma {:induction false} KeepAll(keep: string -> bool, s: seq<string>)
    requires forall y :: keep(y)
    ensures Select(keep, s) == s
  {
    if s != [] {
      var front, last := s[..|s| - 1], s[|s| - 1];
      KeepAll(keep, front);
      assert s == front + [last];
    }
  }

  lemma InitialInv(es: seq<Entry>, queue: seq<string>)
    ensures Inv(es, Initial(queue), queue)
  {
    KeepAll((id: string) => !IsTaken(es, Initial(queue), id), queue);
  }

  /** A run: the steps, and the states between them. */
  ghost predicate IsRun(es: seq<Entry>, queue: seq<string>, ws: seq<World>, ls: seq<Label>) {
    && |ws| == |ls| + 1 && ws[0] == Initial(queue)
    && forall n :: 0 <= n < |ls| ==> StepAt(es, ws[n], ls[n], ws[n + 1])
  }

  ghost predicate StepAt(es: seq<Entry>, w: World, l: Label, w': World) {
    Started(es, w) && Enabled(es, w, l) && w' == Next(es, w, l)
  }

  lemma {:induction false} RunKeepsInv(es: seq<Entry>, queue: seq<string>, ws: seq<World>, ls: seq<Label>, n: nat)
    requires IsRun(es, queue, ws, ls) && n <= |ls|
    ensures Inv(es, ws[n], queue) && |Busy(ws[n].phase)| <= 10
  {
    if n == 0 {
      InitialInv(es, queue);
    } else {
      RunKeepsInv(es, queue, ws, ls, n - 1);
      assert StepAt(es, ws[n - 1], ls[n - 1], ws[n]);
      NextKeepsInv(es, ws[n - 1], ls[n - 1], queue);
    }
  }

  // ---- The state, read off the steps ----------------------------------------------------------

  /** How many entries the main loop has passed. */
  function Passed(ls: seq<Label>): nat {
    if ls == [] then 0 else
    Passed(ls[..|ls| - 1]) + (if ls[|ls| - 1].Start? || ls[|ls| - 1].DropEmpty? then 1 else 0)
  }

  /** The main loop removed entry `i`, which has no envelope. */
  ghost predicate Drops(ls: seq<Label>, i: nat) {
    exists t :: 0 <= t < |ls| && ls[t] == DropEmpty(true) && Passed(ls[..t]) == i
  }

  ghost predicate Chained(p: Phase) {
    p.Removing? || p.Removed? || HasVerdict(p, Replayed) || HasVerdict(p, RemoveFailed)
  }

  /** What became of worker `i` is what its steps decided. */
  ghost predicate TellsOf(phase: map<nat, Phase>, ls: seq<Label>, i: nat) {
    && (Had(phase, i, Failed) <==> Fails(i) in ls)
    && (Had(phase, i, RemoveFailed) <==> CannotRemove(i) in ls)
    && (Had(phase, i, Replayed) <==> Counts(i) in ls)
    && (i in phase && Chained(phase[i]) <==> Succeeds(i) in ls)
    && (i in phase && (phase[i].Removed? || HasVerdict(phase[i], Replayed)) <==> Removes(i) in ls)
  }

  ghost predicate Tells(w: World, ls: seq<Label>) {
    && w.next == Passed(ls)
    && (forall i :: TellsOf(w.phase, ls, i))
    && (forall i :: i in w.dropped <==> Drops(ls, i))
  }

  lemma TellsOfNext(es: seq<Entry>, w: World, ls: seq<Label>, l: Label, i: nat)
    requires Started(es, w) && TellsOf(w.phase, ls, i) && Enabled(es, w, l)
    ensures TellsOf(Next(es, w, l).phase, ls + [l], i)
  {
    LabelsSnoc(ls, l);
    if l.DropEmpty? || i != (if l.Start? then w.next else l.i) {
      OtherTells(w.phase, Next(es, w, l).phase, ls, l, i);
    }
  }

  /** A step of another worker. */
  lemma OtherTells(phase: map<nat, Phase>, phase': map<nat, Phase>, ls: seq<Label>, l: Label, i: nat)
    requires TellsOf(phase, ls, i) && (l.Start? || l.DropEmpty? || l.i != i)
    requires (i in phase' <==> i in phase) && (i in phase ==> phase'[i] == phase[i])
    ensures TellsOf(phase', ls + [l], i)
  {
    LabelsSnoc(ls, l);
  }

  lemma LabelsSnoc(ls: seq<Label>, l: Label)
    ensures forall k :: k in ls + [l] <==> k in ls || k == l
  {}

  lemma DropsSnoc(ls: seq<Label>, l: Label, i: nat)
    ensures Drops(ls + [l], i) <==> Drops(ls, i) || (l == DropEmpty(true) && Passed(ls) == i)
  {
    var more := ls + [l];
    assert forall t :: 0 <= t <= |ls| ==> more[..t] == ls[..t];
    assert ls[..|ls|] == ls;
    if Drops(ls, i) {
      var t :| 0 <= t < |ls| && ls[t] == DropEmpty(true) && Passed(ls[..t]) == i;
      assert more[t] == ls[t];
    }
    if l == DropEmpty(true) && Passed(ls) == i {
      assert more[|ls|] == l;
    }
  }

  lemma TellsNext(es: seq<Entry>, w: World, ls: seq<Label>, l: Label)
    requires Started(es, w) && Tells(w, ls) && Enabled(es, w, l)
    ensures Tells(Next(es, w, l), ls + [l])
  {
    assert (ls + [l])[..|ls|] == ls;
    forall i: nat ensures TellsOf(Next(es, w, l).phase, ls + [l], i) {
      TellsOfNext(es, w, ls, l, i);
    }
    forall i: nat ensures i in Next(es, w, l).dropped <==> Drops(ls + [l], i) {
      DropsSnoc(ls, l, i);
    }
  }

  lemma {:induction false} RunTells(es: seq<Entry>, queue: seq<string>, ws: seq<World>, ls: seq<Label>, n: nat)
    requires IsRun(es, queue, ws, ls) && n <= |ls|
    ensures Tells(ws[n], ls[..n])
  {
    if n > 0 {
      RunTells(es, queue, ws, ls, n - 1);
      assert StepAt(es, ws[n - 1], ls[n - 1], ws[n]);
      TellsNext(es, ws[n - 1], ls[..n - 1], ls[n - 1]);
      PrefixSnoc(ls, n - 1);
    }
  }

  /** The main loop is through and wg.Wait has returned. */
  ghost predicate Finished(es: seq<Entry>, w: World) {
    w.next == |es| && forall i :: i in w.phase ==> w.phase[i].Gone?
  }

  function Enveloped(es: seq<Entry>, n: nat): set<nat>
    requires n <= |es|
  {
    if n == 0 then {} else Enveloped(es, n - 1) + if es[n - 1].hasEnvelope then {n - 1} else {}
  }

  lemma {:induction false} EnvelopedIff(es: seq<Entry>, n: nat, i: nat)
    requires n <= |es|
    ensures i in Enveloped(es, n) <==> i < n && es[i].hasEnvelope
  {
    if n > 0 {
      EnvelopedIff(es, n - 1, i);
    }
  }

  /** Every enveloped entry has been counted exactly once. */
  lemma CountsAddUp(es: seq<Entry>, queue: seq<string>, w: World)
    requires Inv(es, w, queue) && Finished(es, w)
    ensures w.replayed + w.failed + w.removeFailed == |Enveloped(es, |es|)|
  {
    var r, f, m := With(w.phase, Replayed), With(w.phase, Failed), With(w.phase, RemoveFailed);
    forall i: nat ensures i in Enveloped(es, |es|) <==> i in r || i in f || i in m {
      EnvelopedIff(es, |es|, i);
    }
    assert r !! f && r !! m && f !! m;
    ThreeParts(Enveloped(es, |es|), r, f, m);
  }

  lemma ThreeParts(all: set<nat>, r: set<nat>, f: set<nat>, m: set<nat>)
    requires r !! f && r !! m && f !! m && forall i :: i in all <==> i in r || i in f || i in m
    ensures |all| == |r| + |f| + |m|
  {
    assert all == (r + f) + m;
  }

  /** What the steps say about entry `i` once its worker is gone. */
  ghost predicate EndsAs(es: seq<Entry>, w: World, ls: seq<Label>, i: nat) {
    && (i in With(w.phase, Failed) <==> Fails(i) in ls)
    && (i in With(w.phase, Replayed) <==> Removes(i) in ls)
    && (i in With(w.phase, RemoveFailed) <==> CannotRemove(i) in ls)
    && (i in Enveloped(es, |es|) && Fails(i) !in ls ==> Succeeds(i) in ls)
    && (TakenOut(w, i) <==> Removes(i) in ls || Drops(ls, i))
  }

  /** When a request is done, in every interleaving: the three counters add up to the entries with
      an envelope, and each counts the workers that took that way; the failed IDs are the original IDs
      of the entries whose chain failed, one each; and the queue has lost exactly the entries that some
      step removed, in its old order. */
  lemma ReplayOutcome(es: seq<Entry>, queue: seq<string>, ws: seq<World>, ls: seq<Label>)
    requires IsRun(es, queue, ws, ls) && Finished(es, ws[|ls|])
    ensures var w := ws[|ls|];
      && w.replayed + w.failed + w.removeFailed == |Enveloped(es, |es|)|
      && |w.failedIds| == |w.failedAt| == w.failed && NoDup(w.failedAt)
      && (forall i :: i in w.failedAt <==> i in With(w.phase, Failed))
      && (forall k :: 0 <= k < |w.failedAt| ==> w.failedAt[k] < |es| && w.failedIds[k] == es[w.failedAt[k]].id)
      && w.replayed == |With(w.phase, Replayed)| && w.removeFailed == |With(w.phase, RemoveFailed)|
      && (forall i: nat :: EndsAs(es, w, ls, i))
      && w.queue == Select((id: string) => !IsTaken(es, w, id), queue)
  {
    var w := ws[|ls|];
    RunKeepsInv(es, queue, ws, ls, |ls|);
    RunTells(es, queue, ws, ls, |ls|);
    assert ls[..|ls|] == ls;
    CountsAddUp(es, queue, w);
    NoDupCount(w.failedAt);
    assert Elems(w.failedAt) == With(w.phase, Failed);
    forall i: nat ensures EndsAs(es, w, ls, i) {
      assert TellsOf(w.phase, ls, i);
      EnvelopedIff(es, |es|, i);
    }
  }

  /** With the distinct IDs of the queue, an entry stays exactly when no step removed it: neither its
      worker, after the chain returned nil, nor the main loop. */
  lemma EntryStaysIff(es: seq<Entry>, queue: seq<string>, ws: seq<World>, ls: seq<Label>, i: nat)
    requires IsRun(es, queue, ws, ls) && Finished(es, ws[|ls|])
    requires forall j, k :: 0 <= j < k < |es| ==> es[j].id != es[k].id
    requires i < |es| && es[i].id in queue
    ensures es[i].id in ws[|ls|].queue <==> Removes(i) !in ls && !Drops(ls, i)
  {
    ReplayOutcome(es, queue, ws, ls);
    var w := ws[|ls|];
    assert IsTaken(es, w, es[i].id) <==> TakenOut(w, i);
    assert EndsAs(es, w, ls, i);
  }

  /** The pool never gets stuck: until the request is done some step is possible. */
  lemma NeverStuck(es: seq<Entry>, queue: seq<string>, w: World) returns (l: Label)
    requires Inv(es, w, queue) && !Finished(es, w)
    ensures Enabled(es, w, l)
  {
    if i :| i in w.phase && !w.phase[i].Gone? {
      match w.phase[i]
      case Running => l := Fails(i);
      case Removing => l := Removes(i);
      case Removed => l := Counts(i);
      case Reported(_) => l := Exits(i);
    } else {
      assert Busy(w.phase) == {};
      l := if es[w.next].hasEnvelope then Start else DropEmpty(true);
    }
  }
}
