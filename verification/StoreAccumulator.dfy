/** The accumulator over a store backend (internal/accumulator/storebuffer.go). */
module StoreAccumulator {
  import opened Common
  import opened Domain
  import opened RunStore
  import opened RunBuffers
  import opened GroupMerge
  import opened SummarySpec
  import R = AccumulatorRuns
  import O = OlricProtocol

  datatype Backend =
    | Memory(memory: MemoryBuffer)
    | Valkey(valkey: ValkeyBuffer)
    | Olric(olric: OlricBuffer)

  /** HGETALL lists the hash in some order. */
  method HGetAll(hash: map<string, string>) returns (flat: seq<string>)
    ensures IsReplyOf(flat, hash)
  {
    flat := [];
    var left := hash.Keys;
    ghost var done := map[];
    while left != {}
      invariant left <= hash.Keys && done.Keys == hash.Keys - left
      invariant forall f :: f in done ==> done[f] == hash[f]
      invariant IsReplyOf(flat, done)
    {
      var f :| f in left;
      ReplyNext(flat, done, f, hash[f]);
      flat := flat + [f, hash[f]];
      left, done := left - {f}, done[f := hash[f]];
    }
    assert done == hash;
  }

  lemma ReplyNext(flat: seq<string>, hash: map<string, string>, f: string, v: string)
    requires IsReplyOf(flat, hash) && f !in hash
    ensures IsReplyOf(flat + [f, v], hash[f := v])
  {
    var flat', hash' := flat + [f, v], hash[f := v];
    var n := |flat| / 2;
    assert Field(flat', n) == f && Value(flat', n) == v;
    assert forall k :: 0 <= k < n ==> Field(flat', k) == Field(flat, k) && Value(flat', k) == Value(flat, k);
    forall g | g in hash' ensures exists k :: 0 <= k < |flat'| / 2 && Field(flat', k) == g {
      if g != f {
        var k :| 0 <= k < n && Field(flat, k) == g;
        assert Field(flat', k) == g;
      }
    }
  }

  class StoreBuffer {
    const backend: Backend

    ghost const repr: set<object>

    ghost predicate Valid()
      reads this, repr
    {
      match backend
      case Memory(m) => repr == {m} && m.Valid()
      case Valkey(v) => repr == {v} && v.Valid()
      case Olric(o) => repr == {o} && o.Valid() && o.leases == {}
    }

    ghost function Held(): Runs
      requires Valid()
      reads this, repr
    {
      match backend
      case Memory(m) => m.cache.data
      case Valkey(v) => v.runs
      case Olric(o) => o.runs
    }

    /** The operation reports an error: a remote fault, or a lock Olric cannot take. Memory has none. */
    ghost predicate Errs(uid: string, fault: Fault)
      requires Valid()
      reads this, repr
    {
      || (backend.Valkey? && !fault.NoFault?)
      || (backend.Olric? && (!fault.NoFault? || O.LockKey(uid) in Held()))
    }

    /** Memory need not evict another run to store this one. */
    ghost predicate Roomy(uid: string)
      requires Valid()
      reads this, repr
    {
      backend.Memory? ==> uid in Held() || |Held()| < Capacity()
    }

    constructor (backend: Backend)
      requires backend.Memory? ==> backend.memory.Valid()
      requires backend.Valkey? ==> backend.valkey.Valid()
      requires backend.Olric? ==> backend.olric.Valid() && backend.olric.leases == {}
      ensures Valid() && this.backend == backend
      ensures repr == match backend case Memory(m) => {m} case Valkey(v) => {v} case Olric(o) => {o}
    {
      this.backend := backend;
      this.repr := match backend case Memory(m) => {m} case Valkey(v) => {v} case Olric(o) => {o};
    }

    /** Task events only. An error is swallowed: the event is dropped, or was stored all the same. */
    method Add(uid: string, e: Event, fault: Fault)
      requires Valid()
      modifies repr
      ensures Valid() && Capacity() == old(Capacity())
      ensures e.resource.TaskRun? && !old(Errs(uid, fault)) && old(Roomy(uid)) ==>
        Held() == AddTo(old(Held()), uid, e.runName, e)
      ensures e.resource.TaskRun? && old(Errs(uid, fault)) ==>
        Held() == old(Held()) || (fault.ReplyLost? && Held() == AddTo(old(Held()), uid, e.runName, e))
      ensures !e.resource.TaskRun? ==> Held() == old(Held())
    {
      if !e.resource.TaskRun? {
        return;
      }
      var ok;
      match backend
      case Memory(m) => m.Add(uid, e.runName, e);
      case Valkey(v) => ok := v.Add(uid, e.runName, e, fault);
      case Olric(o) => ok := o.Add(uid, e.runName, e, !fault.NoFault?, false);
    }

    ghost function Capacity(): nat
      requires Valid()
      reads this, repr
    {
      if backend.Memory? then backend.memory.cache.cap else 0
    }

    /** An error is swallowed: nothing is answered, and the run stays or is lost. */
    method Flush(uid: string, now: nat, fault: Fault) returns (r: Option<RunState>)
      requires Valid()
      modifies repr
      ensures Valid() && Capacity() == old(Capacity())
      ensures old(Errs(uid, fault)) ==>
        r == None && (Held() == old(Held()) || (fault.ReplyLost? && Held() == old(Held()) - {uid}))
      ensures !old(Errs(uid, fault)) ==> Held() == old(Held()) - {uid}
      ensures !old(Errs(uid, fault)) ==> r == var answer := FlushOf(old(Held()), uid);
        if answer.None? then None else Some(RunState(uid, answer.value, now))
    {
      var ok, answer := true, None;
      match backend {
        case Memory(m) =>
          answer := m.Flush(uid);
        case Valkey(v) =>
          var key := RunKey(v.prefix, uid);
          var flat := [];
          if key in v.hashes {
            flat := HGetAll(v.hashes[key]);
          }
          ok, answer := v.Flush(uid, flat, fault);
        case Olric(o) =>
          ok, answer := o.Flush(uid, !fault.NoFault?, false);
      }
      r := if !ok || answer.None? then None else Some(RunState(uid, answer.value, now));
    }
  }

  /** The event adds to or flushes its run. */
  predicate Stores(e: Event) { e.runId != "" && e.groupId == "" && (e.resource.TaskRun? || EndsRun(e)) }

  /** Handle over a store: grouped events are dropped, the rest is one step of the specification
      as long as the backend neither errs nor evicts; when it errs nothing is posted. */
  method Handle(buffer: StoreBuffer, e: Event, now: nat, fault: Fault) returns (post: Option<Summary>)
    requires buffer.Valid()
    modifies buffer.repr
    ensures buffer.Valid() && buffer.Capacity() == old(buffer.Capacity())
    ensures !Stores(e) ==> post == None && buffer.Held() == old(buffer.Held())
    ensures Stores(e) && old(buffer.Errs(e.runId, fault)) ==>
      post == None && (!fault.ReplyLost? ==> buffer.Held() == old(buffer.Held()))
    ensures !(Stores(e) && old(buffer.Errs(e.runId, fault))) && (e.resource.TaskRun? ==> old(buffer.Roomy(e.runId))) ==>
      buffer.Held() == StepRuns(old(buffer.Held()), e) && post == StepPost(old(buffer.Held()), e)
  {
    if e.runId == "" || e.groupId != "" {
      return None;
    }
    if e.resource.TaskRun? || e.resource.PipelineRun? {
      buffer.Add(e.runId, e, fault);
    }
    if e.resource.PipelineRun? && IsTerminal(e.state) {
      var state := buffer.Flush(e.runId, now, fault);
      if state.None? || |state.value.tasks| == 0 {
        return None;
      }
      return Some(Summary(e, state.value.tasks));
    }
    return None;
  }

  /** How the store is configured. */
  datatype Config = UseMemory(capacity: int) | UseValkey(prefix: string, codec: EventCodec) | UseOlric

  function CapacityOf(config: Config): nat
    requires config.UseMemory?
  {
    if config.capacity <= 0 then 1000 else config.capacity
  }

  /** The event meets no eviction and no store error: memory has the run or room for it; a remote
      backend has no fault, and Olric holds no run under the key of the event's lock. */
  ghost predicate WorksFor(config: Config, held: Runs, e: Event, fault: Fault) {
    match config
    case UseMemory(_) => e.resource.TaskRun? ==> e.runId in held || |held| < CapacityOf(config)
    case UseValkey(_, _) => Stores(e) ==> fault.NoFault?
    case UseOlric => Stores(e) ==> fault.NoFault? && O.LockKey(e.runId) !in held
  }

  ghost predicate SuitsAt(config: Config, es: seq<Event>, faults: seq<Fault>, k: nat)
    requires k < |es| == |faults|
  {
    WorksFor(config, RunsAfter(es[..k]), es[k], faults[k])
  }

  ghost predicate Suits(config: Config, es: seq<Event>, faults: seq<Fault>)
    requires |es| == |faults|
  {
    forall k :: 0 <= k < |es| ==> SuitsAt(config, es, faults, k)
  }

  /** The buffer is over the backend the configuration names. */
  ghost predicate Configured(buffer: StoreBuffer, config: Config)
    requires buffer.Valid()
    reads buffer, buffer.repr
  {
    && (config.UseMemory? <==> buffer.backend.Memory?) && (config.UseOlric? <==> buffer.backend.Olric?)
    && (config.UseMemory? ==> buffer.Capacity() == CapacityOf(config))
  }

  /** One event on a configured buffer. */
  method HandleNext(buffer: StoreBuffer, e: Event, now: nat, fault: Fault, ghost config: Config)
    returns (post: Option<Summary>)
    requires buffer.Valid() && Configured(buffer, config)
    modifies buffer.repr
    ensures buffer.Valid() && Configured(buffer, config)
    ensures WorksFor(config, old(buffer.Held()), e, fault) ==>
      buffer.Held() == StepRuns(old(buffer.Held()), e) && post == StepPost(old(buffer.Held()), e)
  {
    post := Handle(buffer, e, now, fault);
  }

  method Open(config: Config) returns (buffer: StoreBuffer)
    requires config.UseValkey? ==> Lossless(config.codec)
    ensures fresh(buffer) && fresh(buffer.repr) && buffer.Valid() && buffer.Held() == map[]
    ensures Configured(buffer, config)
  {
    match config
    case UseMemory(n) =>
      var m := new MemoryBuffer(n);
      buffer := new StoreBuffer(Memory(m));
    case UseValkey(prefix, codec) =>
      var v := new ValkeyBuffer(prefix, codec);
      buffer := new StoreBuffer(Valkey(v));
    case UseOlric =>
      var o := new OlricBuffer();
      buffer := new StoreBuffer(Olric(o));
  }

  /** The backend holds what the specification holds. */
  ghost predicate Tracks(held: Runs, es: seq<Event>, k: nat, posts: seq<Option<Summary>>)
    requires k <= |es|
  {
    held == RunsAfter(es[..k]) && posts == Posts(es[..k])
  }

  lemma TracksNext(held: Runs, es: seq<Event>, k: nat, posts: seq<Option<Summary>>)
    requires k < |es| && Tracks(held, es, k, posts)
    ensures Tracks(StepRuns(held, es[k]), es, k + 1, posts + [StepPost(held, es[k])])
  {
    PrefixSnoc(es, k);
  }

  /** Whatever the backend and whatever the events, the posts are those of the specification. */
  method HandleAll(es: seq<Event>, times: seq<nat>, faults: seq<Fault>, config: Config)
    returns (posts: seq<Option<Summary>>)
    requires |times| == |faults| == |es| && (config.UseValkey? ==> Lossless(config.codec))
    ensures |posts| == |es|
    ensures Suits(config, es, faults) ==> posts == Posts(es)
  {
    var buffer := Open(config);
    posts := [];
    ghost var exact := Suits(config, es, faults);
    for k := 0 to |es|
      invariant buffer.Valid() && fresh(buffer.repr) && |posts| == k
      invariant Configured(buffer, config)
      invariant exact ==> Tracks(buffer.Held(), es, k, posts)
    {
      if exact {
        assert SuitsAt(config, es, faults, k);
        TracksNext(buffer.Held(), es, k, posts);
      }
      var post := HandleNext(buffer, es[k], times[k], faults[k], config);
      posts := posts + [post];
    }
    assert es[..|es|] == es;
  }

  /** So the in-memory accumulator and every store-backed one post the same summaries at ungrouped
      events, grouped ones in between or not. */
  method PostsAgree(es: seq<Event>, times: seq<nat>, faults: seq<Fault>, config: Config, maxSize: int)
    returns (lru: seq<Option<Summary>>, store: seq<Option<Summary>>)
    requires |times| == |faults| == |es| && (config.UseValkey? ==> Lossless(config.codec))
    ensures |lru| == |store| == |es|
    ensures R.Apart(es) && R.Lossless(es, if maxSize <= 0 then 1000 else maxSize, []) && Suits(config, es, faults) ==>
      forall k :: 0 <= k < |es| && es[k].groupId == "" ==> lru[k] == store[k]
  {
    var expired := seq(|es|, _ => []);
    lru := R.HandleAll(es, times, expired, maxSize);
    store := HandleAll(es, times, faults, config);
    if R.AllOk(es, lru) {
      forall k | 0 <= k < |es| && es[k].groupId == "" ensures |Posts(es)| == |es| && lru[k] == Posts(es)[k] {
        R.PlainPostsAreSpecified(es, lru, k);
      }
    }
  }
}
