/** Deliveries, retransmissions and replays over time: the dedupe record, the fan-outs and the
    dead letter queue together (internal/pipeline/deduper.go, internal/http/handler.go:181-218,
    internal/http/dlq.go:240-295), on a bounded or an unbounded store. */
module Delivery {
  import opened Common
  import opened Domain
  import opened Errors
  import opened SharedStore
  import opened Chain
  import M = MemoryDedupe

  /** `capacity` None is a store that evicts nothing. */
  datatype Setup = Setup(filter: FilterConfig, dashboard: string, link: Event -> string, capacity: Option<nat>)

  /** The order of buildChain. */
  function Standard(s: Setup): seq<Stage> {
    [Validator, EventFilter(s.filter), Deduper, Enricher(s.dashboard, s.link), Dispatch]
  }

  /** The event is valid and wanted, so it reaches the deduper. */
  ghost predicate Wanted(s: Setup, env: Option<Envelope>) { Validates(env) && Passes(s.filter, env.value) }

  /** The whole chain in one piece. */
  ghost function Handled(s: Setup, recall: Recall, env: Option<Envelope>, x: Env): Outcome {
    if !Validates(env) then Outcome(recall, env, Some(Plain("invalid")), 0)
    else if !Wanted(s, env) then Outcome(recall, env, None, 0)
    else
      var recall' := if x.store.Refused? then recall else recall.Present(env.value.id);
      if x.store.NoFault? && recall.Knows(env.value.id) then Outcome(recall', env, None, 0)
      else Outcome(recall', Some(Enrich(s.dashboard, s.link, env.value)), x.answer, 1)
  }

  lemma StandardFlow(s: Setup, recall: Recall, env: Option<Envelope>, x: Env)
    ensures Flow(Standard(s), recall, env, x) == Handled(s, recall, env, x)
  {
    var all := Standard(s);
    assert all[1..] == [EventFilter(s.filter)] + Tail(s);
    assert all[1..][1..] == Tail(s);
    if env.Some? {
      TailFlow(s, recall, env.value, x);
    }
  }

  /** From the deduper on. */
  function Tail(s: Setup): seq<Stage> { [Deduper, Enricher(s.dashboard, s.link), Dispatch] }

  lemma TailFlow(s: Setup, recall: Recall, env: Envelope, x: Env)
    ensures var recall' := if x.store.Refused? then recall else recall.Present(env.id);
      Flow(Tail(s), recall, Some(env), x) ==
        if x.store.NoFault? && recall.Knows(env.id) then Outcome(recall', Some(env), None, 0)
        else Outcome(recall', Some(Enrich(s.dashboard, s.link, env)), x.answer, 1)
  {
    assert Tail(s)[1..] == [Enricher(s.dashboard, s.link), Dispatch];
    EndFlow(s, recall, env, x);
    EndFlow(s, recall.Present(env.id), env, x);
  }

  lemma EndFlow(s: Setup, recall: Recall, env: Envelope, x: Env)
    ensures Flow([Enricher(s.dashboard, s.link), Dispatch], recall, Some(env), x) ==
      Outcome(recall, Some(Enrich(s.dashboard, s.link, env)), x.answer, 1)
  {
    var end := [Enricher(s.dashboard, s.link), Dispatch];
    assert end[1..] == [Dispatch] && end[1..][1..] == [];
    var e := Some(Enrich(s.dashboard, s.link, env));
    assert Flow([], recall, e, x) == Outcome(recall, e, None, 0);
    assert Flow([Dispatch], recall, e, x) == Outcome(recall, e, x.answer, 1);
  }

  // ---- The receiver over time -----------------------------------------------------------------

  datatype Act =
    | Deliver(env: Option<Envelope>, x: Env)                   // first delivery or retransmission
    | Replay(id: string, override: Option<Envelope>, x: Env)   // one entry of a replay request
    | Forget(id: string)                                       // retention, compaction or manual removal
    | Present(key: string)                                     // another user of the store

  /** A call of the chain, or a key another user presented to the store. */
  datatype Record =
    | Called(env: Option<Envelope>, store: Fault, answer: Option<Err>, fanned: bool, err: Option<Err>)
    | Other(key: string)

  datatype World = World(recall: Recall, queue: map<string, Envelope>, log: seq<Record>)

  function Start(s: Setup): World { World(Recall(s.capacity, []), map[], []) }

  ghost function Call(s: Setup, w: World, env: Option<Envelope>, x: Env): (Outcome, World) {
    var o := Handled(s, w.recall, env, x);
    (o, w.(recall := o.recall, log := w.log + [Called(env, x.store, x.answer, o.fanOuts > 0, o.err)]))
  }

  ghost function Do(s: Setup, w: World, act: Act): World {
    match act
    case Deliver(env, x) =>
      var (o, w') := Call(s, w, env, x);
      if o.err.Some? && !IsRetryable(o.err) && o.env.Some? && !x.queueFails
      then w'.(queue := w.queue[o.env.value.id := o.env.value]) else w'
    case Replay(id, override, x) =>
      if id !in w.queue then w
      else
        var (o, w') := Call(s, w, if override.Some? then override else Some(w.queue[id]), x);
        if o.err.None? && !x.queueFails then w'.(queue := w.queue - {id}) else w'
    case Forget(id) => w.(queue := w.queue - {id})
    case Present(key) => w.(recall := w.recall.Present(key), log := w.log + [Other(key)])
  }

  ghost function After(s: Setup, acts: seq<Act>): World {
    if acts == [] then Start(s) else Do(s, After(s, acts[..|acts| - 1]), acts[|acts| - 1])
  }

  // ---- What the log of calls looks like ---------------------------------------------------------

  /** The record presented the key to the store: a wanted call unless the store refused it. */
  ghost predicate Presents(s: Setup, c: Record, key: string) {
    match c
    case Other(k) => k == key
    case Called(env, store, _, _, _) => Wanted(s, env) && env.value.id == key && !store.Refused?
  }

  /** What one record adds to the keys presented. */
  ghost function PresentedBy(s: Setup, c: Record): seq<string> {
    match c
    case Other(k) => [k]
    case Called(env, store, _, _, _) => if Wanted(s, env) && !store.Refused? then [env.value.id] else []
  }

  ghost function Presented(s: Setup, log: seq<Record>): (r: seq<string>)
    ensures forall k :: k in r <==> exists i :: 0 <= i < |log| && Presents(s, log[i], k)
  {
    if log == [] then []
    else
      var n := |log| - 1;
      var r := Presented(s, log[..n]);
      assert log == log[..n] + [log[n]];
      r + PresentedBy(s, log[n])
  }

  /** What the store knew before record `n`. */
  ghost function RecallAt(s: Setup, log: seq<Record>, n: nat): Recall
    requires n <= |log|
  {
    Recall(s.capacity, Presented(s, log[..n]))
  }

  /** Call `n` behaved as the records before it demand: a wanted event is fanned out if and only if
      the store failed or did not know its ID, and the call then returns what the handlers answered;
      an invalid event is a permanent error, anything else is dropped with nil. */
  ghost predicate Explained(s: Setup, log: seq<Record>, n: nat)
    requires n < |log|
  {
    var c := log[n];
    c.Called? ==>
      && (c.fanned <==> Wanted(s, c.env) && (!c.store.NoFault? || !RecallAt(s, log, n).Knows(c.env.value.id)))
      && (!Validates(c.env) ==> c.err.Some? && !IsRetryable(c.err))
      && (Validates(c.env) && !c.fanned ==> c.err.None?)
      && (c.fanned ==> c.err == c.answer)
  }

  ghost predicate Sound(s: Setup, w: World) {
    && w.recall == Recall(s.capacity, Presented(s, w.log))
    && forall n :: 0 <= n < |w.log| ==> Explained(s, w.log, n)
  }

  lemma ExplainedSnoc(s: Setup, log: seq<Record>, c: Record, n: nat)
    requires n < |log| && Explained(s, log, n)
    ensures Explained(s, log + [c], n)
  {
    assert (log + [c])[..n] == log[..n] && (log + [c])[n] == log[n];
  }

  lemma SoundSnoc(s: Setup, w: World, c: Record, w': World)
    requires Sound(s, w) && w'.log == w.log + [c]
    requires w'.recall == Recall(s.capacity, w.recall.history + PresentedBy(s, c))
    requires Explained(s, w'.log, |w.log|)
    ensures Sound(s, w')
  {
    forall n | 0 <= n < |w'.log| ensures Explained(s, w'.log, n) {
      if n < |w.log| {
        ExplainedSnoc(s, w.log, c, n);
      }
    }
  }

  lemma CallKeepsSound(s: Setup, w: World, env: Option<Envelope>, x: Env)
    requires Sound(s, w)
    ensures Sound(s, Call(s, w, env, x).1)
  {
    var (o, w') := Call(s, w, env, x);
    var c := Called(env, x.store, x.answer, o.fanOuts > 0, o.err);
    assert w'.log[..|w.log|] == w.log;
    assert w.recall.history + [] == w.recall.history;
    SoundSnoc(s, w, c, w');
  }

  lemma QueueIsApart(s: Setup, w: World, w': World)
    requires Sound(s, w) && w'.recall == w.recall && w'.log == w.log
    ensures Sound(s, w')
  {}

  lemma DoKeepsSound(s: Setup, w: World, act: Act)
    requires Sound(s, w)
    ensures Sound(s, Do(s, w, act))
  {
    match act
    case Deliver(env, x) =>
      CallKeepsSound(s, w, env, x);
      QueueIsApart(s, Call(s, w, env, x).1, Do(s, w, act));
    case Replay(id, override, x) =>
      if id in w.queue {
        var env := if override.Some? then override else Some(w.queue[id]);
        CallKeepsSound(s, w, env, x);
        QueueIsApart(s, Call(s, w, env, x).1, Do(s, w, act));
      }
    case Forget(id) =>
    case Present(key) =>
      SoundSnoc(s, w, Other(key), Do(s, w, act));
  }

  /** In every history the store and the log explain each other. */
  lemma {:induction false} HistoriesAreSound(s: Setup, acts: seq<Act>)
    ensures Sound(s, After(s, acts))
  {
    if acts != [] {
      HistoriesAreSound(s, acts[..|acts| - 1]);
      DoKeepsSound(s, After(s, acts[..|acts| - 1]), acts[|acts| - 1]);
    }
  }

  /** A key has been presented to the store exactly when a wanted call with it was not refused, or
      another user presented it. */
  lemma RecordedIff(s: Setup, acts: seq<Act>, id: string)
    ensures id in After(s, acts).recall.history <==>
      exists i :: 0 <= i < |After(s, acts).log| && Presents(s, After(s, acts).log[i], id)
  {
    HistoriesAreSound(s, acts);
  }

  /** On a memory store of capacity `n`, in every history: a wanted call is fanned out if and only if
      the store failed, its ID was never presented, or at least `n` distinct other keys were since. */
  lemma FansOutIff(s: Setup, acts: seq<Act>, k: nat)
    requires s.capacity.Some? && k < |After(s, acts).log|
    requires var c := After(s, acts).log[k]; c.Called? && Wanted(s, c.env)
    ensures var log := After(s, acts).log;
      var id, before := log[k].env.value.id, Presented(s, log[..k]);
      log[k].fanned <==>
        !log[k].store.NoFault? || id !in before || |M.OthersSince(before, id)| >= s.capacity.value
  {
    HistoriesAreSound(s, acts);
    assert Explained(s, After(s, acts).log, k);
  }

  ghost predicate FansOut(log: seq<Record>, i: int, id: string) {
    0 <= i < |log| && log[i].Called? && log[i].fanned && log[i].env.Some? && log[i].env.value.id == id
  }

  /** On a store that neither evicts nor refuses, an identifier that has been fanned out is known: every
      later valid call with it that meets no error returns nil and runs no handler. */
  lemma FansOutAtMostOnce(s: Setup, acts: seq<Act>, id: string, i: int, j: int)
    requires s.capacity.None?
    requires var log := After(s, acts).log;
      && FansOut(log, i, id) && !log[i].store.Refused? && i < j < |log|
      && log[j].Called? && log[j].store.NoFault? && log[j].env.Some? && log[j].env.value.id == id
    ensures var c := After(s, acts).log[j]; !c.fanned && (Validates(c.env) ==> c.err.None?)
  {
    HistoriesAreSound(s, acts);
    var log := After(s, acts).log;
    assert Explained(s, log, i) && Explained(s, log, j);
    assert Presents(s, log[..j][i], id);
  }

  // ---- Counting the fan-outs --------------------------------------------------------------------

  ghost function FanOuts(log: seq<Record>, id: string): nat {
    if log == [] then 0
    else FanOuts(log[..|log| - 1], id) + if FansOut(log, |log| - 1, id) then 1 else 0
  }

  /** A wanted call with the identifier that met a failing store. */
  ghost predicate IsBlind(s: Setup, c: Record, id: string) {
    c.Called? && Wanted(s, c.env) && c.env.value.id == id && !c.store.NoFault?
  }

  ghost function Blind(s: Setup, log: seq<Record>, id: string): nat {
    if log == [] then 0 else Blind(s, log[..|log| - 1], id) + if IsBlind(s, log[|log| - 1], id) then 1 else 0
  }

  /** The first time the identifier was presented, at `i`, was a call that met no error. */
  ghost predicate FirstIsClean(s: Setup, log: seq<Record>, id: string, i: int) {
    && 0 <= i < |log| && log[i].Called? && Presents(s, log[i], id) && log[i].store.NoFault?
    && forall j :: 0 <= j < i ==> !Presents(s, log[j], id)
  }

  ghost predicate StartsClean(s: Setup, log: seq<Record>, id: string) { exists i :: FirstIsClean(s, log, id, i) }

  lemma StartsCleanSnoc(s: Setup, log: seq<Record>, c: Record, id: string)
    ensures StartsClean(s, log + [c], id) <==>
      || StartsClean(s, log, id)
      || (c.Called? && Presents(s, c, id) && c.store.NoFault? && id !in Presented(s, log))
  {
    var all := log + [c];
    assert forall j :: 0 <= j < |log| ==> all[j] == log[j];
    assert all[|log|] == c;
    if i :| FirstIsClean(s, log, id, i) {
      assert FirstIsClean(s, all, id, i);
    }
    if c.Called? && Presents(s, c, id) && c.store.NoFault? && id !in Presented(s, log) {
      assert FirstIsClean(s, all, id, |log|);
    }
    if i :| FirstIsClean(s, all, id, i) {
      assert i < |log| ==> FirstIsClean(s, log, id, i);
    }
  }

  lemma {:induction false} FanOutsCounted(s: Setup, log: seq<Record>, id: string)
    requires s.capacity.None? && forall n :: 0 <= n < |log| ==> Explained(s, log, n)
    ensures FanOuts(log, id) == Blind(s, log, id) + if StartsClean(s, log, id) then 1 else 0
  {
    if log != [] {
      var n := |log| - 1;
      var front, c := log[..n], log[n];
      assert log == front + [c];
      forall k | 0 <= k < n ensures Explained(s, front, k) {
        assert Explained(s, log, k);
        assert log[..k] == front[..k];
      }
      FanOutsCounted(s, front, id);
      StartsCleanSnoc(s, front, c, id);
      LastFansOutIff(s, log, id);
    }
  }

  lemma LastFansOutIff(s: Setup, log: seq<Record>, id: string)
    requires s.capacity.None? && log != [] && Explained(s, log, |log| - 1)
    ensures var c, before := log[|log| - 1], Presented(s, log[..|log| - 1]);
      FansOut(log, |log| - 1, id) <==>
        IsBlind(s, c, id) || (c.Called? && Presents(s, c, id) && c.store.NoFault? && id !in before)
  {}

  /** Fail open, exactly, on a store that evicts nothing: the fan-outs of an identifier are the wanted
      calls that met a failing store, plus one if the first to be recorded met none. */
  lemma FanOutsOfHistory(s: Setup, acts: seq<Act>, id: string)
    requires s.capacity.None?
    ensures var log := After(s, acts).log;
      FanOuts(log, id) == Blind(s, log, id) + if StartsClean(s, log, id) then 1 else 0
  {
    HistoriesAreSound(s, acts);
    FanOutsCounted(s, After(s, acts).log, id);
  }

  // ---- What the dead letter queue holds ---------------------------------------------------------

  /** The call of the chain that act `k` made, if it made one. */
  ghost function CallAt(s: Setup, acts: seq<Act>, k: nat): Option<Record>
    requires k < |acts|
  {
    var before, after := After(s, acts[..k]).log, After(s, acts[..k + 1]).log;
    if |after| > |before| && after[|before|].Called? then Some(after[|before|]) else None
  }

  /** Act `k` was a delivery of the identifier that ended in a permanent error while the queue worked. */
  ghost predicate Keeps(s: Setup, acts: seq<Act>, k: nat, id: string)
    requires k < |acts|
  {
    && acts[k].Deliver? && acts[k].env.Some? && acts[k].env.value.id == id && !acts[k].x.queueFails
    && var call := CallAt(s, acts, k); call.Some? && call.value.err.Some? && !IsRetryable(call.value.err)
  }

  /** Act `k` took the entry out: it was forgotten, or replayed with nil while the queue worked. */
  ghost predicate TakesOut(s: Setup, acts: seq<Act>, k: nat, id: string)
    requires k < |acts|
  {
    || acts[k] == Forget(id)
    || (acts[k].Replay? && acts[k].id == id && !acts[k].x.queueFails
        && var call := CallAt(s, acts, k); call.Some? && call.value.err.None?)
  }

  /** Act `k` was the last delivery to keep the identifier, and nothing took it out since. */
  ghost predicate LastKept(s: Setup, acts: seq<Act>, id: string, k: int) {
    && 0 <= k < |acts| && Keeps(s, acts, k, id)
    && forall j :: k < j < |acts| ==> !Keeps(s, acts, j, id) && !TakesOut(s, acts, j, id)
  }

  lemma CallAtPrefix(s: Setup, acts: seq<Act>, act: Act, k: nat)
    requires k < |acts|
    ensures CallAt(s, acts + [act], k) == CallAt(s, acts, k)
  {
    assert (acts + [act])[..k] == acts[..k] && (acts + [act])[..k + 1] == acts[..k + 1];
  }

  /** The last act's call. */
  lemma CallAtLast(s: Setup, acts: seq<Act>, act: Act)
    ensures After(s, acts + [act]) == Do(s, After(s, acts), act)
    ensures var w, w' := After(s, acts), Do(s, After(s, acts), act);
      CallAt(s, acts + [act], |acts|) ==
        if |w'.log| > |w.log| && w'.log[|w.log|].Called? then Some(w'.log[|w.log|]) else None
  {
    var all := acts + [act];
    assert all[..|acts|] == acts && all[..|acts| + 1] == all;
  }

  lemma LastKeptSnoc(s: Setup, acts: seq<Act>, act: Act, id: string, k: int)
    ensures var all := acts + [act];
      LastKept(s, all, id, k) <==>
        if k == |acts| then Keeps(s, all, k, id)
        else LastKept(s, acts, id, k) && !Keeps(s, all, |acts|, id) && !TakesOut(s, all, |acts|, id)
  {
    var all := acts + [act];
    forall j: nat | j < |acts|
      ensures Keeps(s, all, j, id) <==> Keeps(s, acts, j, id)
      ensures TakesOut(s, all, j, id) <==> TakesOut(s, acts, j, id)
    {
      CallAtPrefix(s, acts, act, j);
      assert all[j] == acts[j];
    }
  }

  /** One act, as far as the queue is concerned. */
  lemma QueueNext(s: Setup, acts: seq<Act>, act: Act, id: string)
    ensures var all, q, q' := acts + [act], After(s, acts).queue, After(s, acts + [act]).queue;
      && (Keeps(s, all, |acts|, id) ==>
            id in q' && q'[id] == Arrived(s, act.env.value, CallAt(s, all, |acts|).value.fanned))
      && (!Keeps(s, all, |acts|, id) && TakesOut(s, all, |acts|, id) ==> id !in q')
      && (!Keeps(s, all, |acts|, id) && !TakesOut(s, all, |acts|, id) ==>
            (id in q' <==> id in q) && (id in q ==> q'[id] == q[id]))
  {
    CallAtLast(s, acts, act);
    assert (acts + [act])[|acts|] == act;
    DoesToQueue(s, After(s, acts), act, id);
  }

  /** What one act does to one identifier of the queue, by the record it adds to the log. */
  lemma DoesToQueue(s: Setup, w: World, act: Act, id: string)
    ensures var w' := Do(s, w, act);
      var c := if |w'.log| > |w.log| && w'.log[|w.log|].Called? then Some(w'.log[|w.log|]) else None;
      var kept := act.Deliver? && act.env.Some? && act.env.value.id == id && !act.x.queueFails
        && c.Some? && c.value.err.Some? && !IsRetryable(c.value.err);
      var taken := act == Forget(id)
        || (act.Replay? && act.id == id && !act.x.queueFails && c.Some? && c.value.err.None?);
      && (kept ==> id in w'.queue && w'.queue[id] == Arrived(s, act.env.value, c.value.fanned))
      && (!kept && taken ==> id !in w'.queue)
      && (!kept && !taken ==> (id in w'.queue <==> id in w.queue) && (id in w.queue ==> w'.queue[id] == w.queue[id]))
  {}

  /** Which calls of the chain a history makes: every delivery one, with its own envelope, and a replay
      one exactly when the entry is queued, with the override or else with the entry's envelope. */
  lemma CallsMade(s: Setup, acts: seq<Act>, k: nat)
    requires k < |acts|
    ensures var act, c, queue := acts[k], CallAt(s, acts, k), After(s, acts[..k]).queue;
      && (c.Some? <==> act.Deliver? || (act.Replay? && act.id in queue))
      && (c.Some? ==> c.value.Called? && c.value.store == act.x.store && c.value.answer == act.x.answer)
      && (act.Deliver? ==> c.value.env == act.env)
      && (act.Replay? && act.id in queue ==>
            c.value.env == if act.override.Some? then act.override else Some(queue[act.id]))
  {
    CallAtLast(s, acts[..k], acts[k]);
    PrefixSnoc(acts, k);
    if k + 1 < |acts| {
      assert acts[..k + 1][..k] == acts[..k] && acts[..k + 1][..k + 1] == acts[..k + 1];
    }
  }

  /** The envelope as the chain leaves it: the enricher comes right before the handlers. */
  function Arrived(s: Setup, env: Envelope, fanned: bool): Envelope {
    if fanned then Enrich(s.dashboard, s.link, env) else env
  }

  /** In every history an identifier is in the dead letter queue if and only if its last delivery that
      ended in a permanent error, with the queue working, was not followed by a replay that returned
      nil nor by a removal; and the entry holds that delivery's envelope. */
  lemma {:induction false} QueuedIff(s: Setup, acts: seq<Act>, id: string)
    ensures id in After(s, acts).queue <==> exists k :: LastKept(s, acts, id, k)
    ensures forall k :: LastKept(s, acts, id, k) ==>
      && id in After(s, acts).queue
      && After(s, acts).queue[id] == Arrived(s, acts[k].env.value, CallAt(s, acts, k).value.fanned)
  {
    if acts != [] {
      var front, act := acts[..|acts| - 1], acts[|acts| - 1];
      assert acts == front + [act];
      QueuedIff(s, front, id);
      QueueNext(s, front, act, id);
      forall k ensures LastKept(s, acts, id, k) <==>
        if k == |front| then Keeps(s, acts, k, id)
        else LastKept(s, front, id, k) && !Keeps(s, acts, |front|, id) && !TakesOut(s, acts, |front|, id)
      {
        LastKeptSnoc(s, front, act, id, k);
      }
      forall k: nat | k < |front| ensures CallAt(s, acts, k) == CallAt(s, front, k) {
        CallAtPrefix(s, front, act, k);
      }
    }
  }

  // ---- What replay can do ---------------------------------------------------------------------

  /** In every history, on any store: a replay without override runs the handlers if and only if the
      event is wanted and the store fails or does not know its ID. */
  lemma ReplayRunsIff(s: Setup, acts: seq<Act>, id: string, x: Env)
    requires id in After(s, acts).queue
    ensures var w := After(s, acts);
      var w' := Do(s, w, Replay(id, None, x));
      && |w'.log| == |w.log| + 1 && w'.log[|w.log|].Called?
      && (w'.log[|w.log|].fanned <==>
            Wanted(s, Some(w.queue[id])) && (!x.store.NoFault? || !w.recall.Knows(w.queue[id].id)))
  {}

  /** Every queued event has been presented already, or will not pass the validator. */
  ghost predicate Spent(w: World) {
    forall id :: id in w.queue ==>
      w.queue[id].id == id && (id in w.recall.history || !Validates(Some(w.queue[id])))
  }

  /** The store records what it is asked, whether or not the reply arrives. */
  ghost predicate StoreRecords(act: Act) { act.Forget? || act.Present? || !act.x.store.Refused? }

  lemma {:induction false} DoKeepsSpent(s: Setup, w: World, act: Act)
    requires Spent(w) && StoreRecords(act)
    ensures Spent(Do(s, w, act))
  {
    match act
    case Deliver(env, x) =>
      var o := Handled(s, w.recall, env, x);
      assert o.env.Some? && o.err.Some? ==> o.env.value.id in o.recall.history || !Validates(o.env);
    case Replay(id, override, x) =>
    case Forget(id) =>
    case Present(key) =>
  }

  lemma {:induction false} HistoriesAreSpent(s: Setup, acts: seq<Act>)
    requires forall i :: 0 <= i < |acts| ==> StoreRecords(acts[i])
    ensures Spent(After(s, acts))
  {
    if acts != [] {
      var front, act := acts[..|acts| - 1], acts[|acts| - 1];
      HistoriesAreSpent(s, front);
      DoKeepsSpent(s, After(s, front), act);
    }
  }

  /** On a store that neither evicts nor refuses, a replay without override that meets no error never
      runs a handler, in any history: a valid event is dropped as a duplicate and its entry removed
      unless the queue fails, an invalid one stays in the queue. */
  lemma {:induction false} ReplayRunsNothing(s: Setup, acts: seq<Act>, id: string, x: Env)
    requires s.capacity.None? && forall i :: 0 <= i < |acts| ==> StoreRecords(acts[i])
    requires id in After(s, acts).queue && x.store.NoFault?
    ensures var w := After(s, acts);
      var w' := Do(s, w, Replay(id, None, x));
      && |w'.log| == |w.log| + 1 && w'.log[|w.log|].Called? && !w'.log[|w.log|].fanned
      && w'.queue == if Validates(Some(w.queue[id])) && !x.queueFails then w.queue - {id} else w.queue
  {
    HistoriesAreSpent(s, acts);
    HistoriesAreSound(s, acts);
  }

  ghost function DoAll(s: Setup, w: World, acts: seq<Act>): World
    decreases |acts|
  {
    if acts == [] then w else DoAll(s, Do(s, w, acts[0]), acts[1..])
  }

  /** A replay under the identifier `o`, as a timestamp override makes it. */
  ghost predicate ReplayAs(act: Act, o: string) {
    && act.Replay? && act.x.store.NoFault? && !act.x.queueFails
    && act.override.Some? && act.override.value.id == o && Validates(act.override)
  }

  predicate Targets(act: Act, id: string) { act.Replay? && act.id == id }

  /** One such replay, once the identifier is recorded. */
  lemma DropsOne(s: Setup, w: World, act: Act, o: string)
    requires w.recall.cap.None? && o in w.recall.history && ReplayAs(act, o)
    ensures var w' := Do(s, w, act);
      && w'.recall.cap.None? && o in w'.recall.history && w'.queue == w.queue - {act.id}
      && w.log <= w'.log && (forall n :: |w.log| <= n < |w'.log| ==> w'.log[n].Called? && !w'.log[n].fanned)
  {}

  /** A timestamp override gives every entry of the request the same identifier: once that is
      recorded, all remaining entries are removed without any handler having seen them. */
  lemma {:induction false} SharedOverrideDropsTheRest(s: Setup, w: World, acts: seq<Act>, o: string)
    requires w.recall.cap.None? && o in w.recall.history && forall i :: 0 <= i < |acts| ==> ReplayAs(acts[i], o)
    ensures var w' := DoAll(s, w, acts);
      && (forall id :: id in w'.queue <==> id in w.queue && forall i :: 0 <= i < |acts| ==> !Targets(acts[i], id))
      && w.log <= w'.log && (forall n :: |w.log| <= n < |w'.log| ==> w'.log[n].Called? && !w'.log[n].fanned)
    decreases |acts|
  {
    if acts != [] {
      assert ReplayAs(acts[0], o);
      var w1 := Do(s, w, acts[0]);
      DropsOne(s, w, acts[0], o);
      SharedOverrideDropsTheRest(s, w1, acts[1..], o);
      assert acts == [acts[0]] + acts[1..];
    }
  }

  // ---- The receiver as code --------------------------------------------------------------------

  /** buildChain */
  method BuildChain(s: Setup) returns (first: Link?, ghost links: seq<Link>)
    ensures Linked(first, links) && Stages(links) == Standard(s)
  {
    var a := new Link(Validator);
    var b := new Link(EventFilter(s.filter));
    var c := new Link(Deduper);
    var d := new Link(Enricher(s.dashboard, s.link));
    var e := new Link(Dispatch);
    links := [a, b, c, d, e];
    first := Build([a, b, c, d, e]);
  }

  class Receiver {
    const setup: Setup
    const store: DedupeStore
    const first: Link?
    ghost const links: seq<Link>
    var queue: map<string, Envelope>
    ghost var world: World

    ghost predicate Valid()
      reads this, store, store.memory, links
    {
      && Linked(first, links) && Stages(links) == Standard(setup)
      && store.Valid() && world.recall == store.recall && world.queue == queue
    }

    constructor (s: Setup)
      requires s.capacity.Some? ==> s.capacity.value > 0
      ensures Valid() && world == Start(s) && setup == s
    {
      var f; ghost var ls;
      f, ls := BuildChain(s);
      var st := new DedupeStore(if s.capacity.None? then None else Some(s.capacity.value));
      first, links, setup, store := f, ls, s, st;
      queue, world := map[], Start(s);
    }

    /** chain.Handle */
    method RunChain(env: Option<Envelope>, x: Env) returns (err: Option<Err>, env': Option<Envelope>)
      requires Valid()
      modifies this`world, store, store.memory
      ensures Valid() && world == Call(setup, old(world), env, x).1
      ensures var o := Handled(setup, old(world).recall, env, x); err == o.err && env' == o.env
    {
      StandardFlow(setup, store.recall, env, x);
      world := Call(setup, world, env, x).1;
      ghost var n;
      err, env', n := Next(first, links, store, env, x);
    }

    /** handleChainResult and preserveInDLQ. */
    method Deliver(env: Option<Envelope>, x: Env) returns (status: int)
      requires Valid()
      modifies this, store, store.memory
      ensures Valid() && world == Do(setup, old(world), Act.Deliver(env, x))
      ensures |world.log| == |old(world).log| + 1
      ensures var err := world.log[|old(world).log|].err;
        && status == (if IsRetryable(err) then 503 else 200)
        && (env.Some? && err.Some? && !IsRetryable(err) && !x.queueFails ==> env.value.id in queue)
    {
      var err, env' := RunChain(env, x);
      if err.Some? {
        if IsRetryable(err) {
          return 503;
        }
        if env'.Some? && !x.queueFails {
          queue := queue[env'.value.id := env'.value];
          world := world.(queue := queue);
        }
      }
      status := 200;
    }

    /** One entry of a replay request. */
    method Replay(id: string, override: Option<Envelope>, x: Env) returns (err: Option<Err>)
      requires Valid() && id in queue
      modifies this, store, store.memory
      ensures Valid() && world == Do(setup, old(world), Act.Replay(id, override, x))
      ensures |world.log| == |old(world).log| + 1 && err == world.log[|old(world).log|].err
      ensures queue == if err.None? && !x.queueFails then old(queue) - {id} else old(queue)
    {
      var env := if override.Some? then override else Some(queue[id]);
      var env';
      err, env' := RunChain(env, x);
      if err.None? && !x.queueFails {
        queue := queue - {id};
        world := world.(queue := queue);
      }
    }
  }
}
