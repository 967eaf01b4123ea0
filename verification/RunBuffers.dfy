/** The three run-buffer backends as objects, each refining the abstract map of `RunStore`
    (internal/store/memory.go:78-115, internal/store/valkey.go:87-131, internal/store/olric.go:154-216). */
module RunBuffers {
  import opened Common
  import opened Domain
  import opened RunStore
  import opened Lru
  import O = OlricProtocol

  /** What every backend keeps: a run that is present has at least one task. */
  ghost predicate NoEmptyRuns(runs: Runs) { forall u :: u in runs ==> runs[u] != map[] }

  lemma AddToKeeps(runs: Runs, uid: string, task: string, ev: Event)
    requires NoEmptyRuns(runs)
    ensures NoEmptyRuns(AddTo(runs, uid, task, ev))
  {
    assert task in AddTo(runs, uid, task, ev)[uid];
  }

  /** Memory: an LRU of task maps; exact as long as nothing has to be evicted. */
  class MemoryBuffer {
    var cache: Cache<string, Tasks>

    ghost predicate Valid()
      reads this
    {
      cache.Valid() && NoEmptyRuns(cache.data)
    }

    constructor (capacity: int)
      ensures Valid() && cache.data == map[]
      ensures cache.cap == if capacity <= 0 then 1000 else capacity
    {
      cache := Cache(if capacity <= 0 then 1000 else capacity, [], map[]);
    }

    method Add(uid: string, task: string, ev: Event)
      requires Valid()
      modifies this
      ensures Valid() && cache.cap == old(cache.cap)
      ensures uid in cache.data && cache.data[uid] == TasksOf(old(cache.data), uid)[task := ev]
      ensures uid in old(cache.data) || |old(cache.data)| < cache.cap ==>
        cache.data == AddTo(old(cache.data), uid, task, ev)
      ensures uid !in old(cache.data) && |old(cache.data)| >= cache.cap ==>
        var oldest := old(cache.order)[|old(cache.order)| - 1];
        cache.data == AddTo(old(cache.data) - {oldest}, uid, task, ev)
    {
      PutKeeps(cache, uid, task, ev);
      var tasks := if uid in cache.data then cache.data[uid] else map[];
      cache := cache.Get(uid).Add(uid, tasks[task := ev]);
    }

    method Flush(uid: string) returns (answer: Option<Tasks>)
      requires Valid()
      modifies this
      ensures Valid() && cache.cap == old(cache.cap)
      ensures answer == FlushOf(old(cache.data), uid) && cache.data == old(cache.data) - {uid}
    {
      if uid !in cache.data {
        assert cache.data - {uid} == cache.data;
        return None;
      }
      GetKeepsValid(cache, uid);
      var touched := cache.Get(uid);
      RemoveKeepsValid(touched, uid);
      var tasks := touched.data[uid];
      cache := touched.Remove(uid);
      answer := Some(tasks);
    }

    /** The time to live of a run is over. */
    method Expire(uid: string)
      requires Valid()
      modifies this
      ensures Valid() && cache.cap == old(cache.cap) && cache.data == old(cache.data) - {uid}
    {
      RemoveKeepsValid(cache, uid);
      cache := cache.Remove(uid);
    }
  }

  /** The body of memory Add. */
  lemma PutKeeps(c: Cache<string, Tasks>, uid: string, task: string, ev: Event)
    requires c.Valid() && NoEmptyRuns(c.data)
    ensures var tasks := TasksOf(c.data, uid)[task := ev];
      var c' := c.Get(uid).Add(uid, tasks);
      && c'.Valid() && c'.cap == c.cap && uid in c'.data && c'.data[uid] == tasks && NoEmptyRuns(c'.data)
      && (uid in c.data || |c.data| < c.cap ==> c'.data == AddTo(c.data, uid, task, ev))
      && (uid !in c.data && |c.data| >= c.cap ==>
            c'.data == AddTo(c.data - {c.order[|c.order| - 1]}, uid, task, ev))
  {
    var tasks := TasksOf(c.data, uid)[task := ev];
    GetKeepsValid(c, uid);
    AddKeepsValid(c.Get(uid), uid, tasks);
    var c' := c.Get(uid).Add(uid, tasks);
    forall u | u in c'.data ensures c'.data[u] != map[] {
      assert u == uid ==> task in c'.data[u];
    }
  }

  /** json.Marshal and json.Unmarshal of events, unspecified but for being lossless. */
  datatype EventCodec = EventCodec(enc: Event -> string, dec: string -> Option<Event>)

  ghost predicate Lossless(c: EventCodec) { forall e :: c.dec(c.enc(e)) == Some(e) }

  function Field(flat: seq<string>, k: nat): string
    requires 2 * k + 1 < |flat|
  {
    flat[2 * k]
  }

  function Value(flat: seq<string>, k: nat): string
    requires 2 * k + 1 < |flat|
  {
    flat[2 * k + 1]
  }

  /** The flat reply of HGETALL: field, value, field, value, in any order. */
  ghost predicate IsReplyOf(flat: seq<string>, hash: map<string, string>) {
    && |flat| % 2 == 0
    && (forall k :: 0 <= k < |flat| / 2 ==> Field(flat, k) in hash && Value(flat, k) == hash[Field(flat, k)])
    && (forall f :: f in hash ==> exists k :: 0 <= k < |flat| / 2 && Field(flat, k) == f)
  }

  /** The pair-stepping loop of valkey Flush; None is the unmarshal error. */
  method DecodeFlat(codec: EventCodec, flat: seq<string>, ghost hash: map<string, string>) returns (out: Option<Tasks>)
    requires IsReplyOf(flat, hash)
    ensures out.Some? <==> forall f :: f in hash ==> codec.dec(hash[f]).Some?
    ensures out.Some? ==> out.value.Keys == hash.Keys
    ensures out.Some? ==> forall f :: f in hash ==> codec.dec(hash[f]) == Some(out.value[f])
  {
    var tasks: Tasks := map[];
    var i := 0;
    ghost var n := 0;
    while i + 1 < |flat|
      invariant i == 2 * n && 0 <= n <= |flat| / 2
      invariant forall f :: f in tasks ==> f in hash && codec.dec(hash[f]) == Some(tasks[f])
      invariant forall k :: 0 <= k < n ==> Field(flat, k) in tasks
    {
      assert Field(flat, n) == flat[i] && Value(flat, n) == flat[i + 1];
      var ev := codec.dec(flat[i + 1]);
      if ev.None? {
        return None;
      }
      tasks := tasks[flat[i] := ev.value];
      i, n := i + 2, n + 1;
    }
    forall f | f in hash ensures f in tasks {
      var k :| 0 <= k < |flat| / 2 && Field(flat, k) == f;
    }
    assert tasks.Keys == hash.Keys;
    return Some(tasks);
  }

  function RunKey(prefix: string, uid: string): string { prefix + ":run:" + uid }

  lemma RunKeyInjective(prefix: string, u: string, v: string)
    ensures RunKey(prefix, u) == RunKey(prefix, v) ==> u == v
  {
    var n := |prefix + ":run:"|;
    assert RunKey(prefix, u)[n..] == u && RunKey(prefix, v)[n..] == v;
  }

  ghost predicate Stores(codec: EventCodec, hash: map<string, string>, tasks: Tasks) {
    hash.Keys == tasks.Keys && forall t :: t in tasks ==> hash[t] == codec.enc(tasks[t])
  }

  type Hashes = map<string, map<string, string>>

  ghost predicate StoresAt(prefix: string, codec: EventCodec, hashes: Hashes, runs: Runs, u: string) {
    && (RunKey(prefix, u) in hashes <==> u in runs)
    && (u in runs ==> runs[u] != map[] && Stores(codec, hashes[RunKey(prefix, u)], runs[u]))
  }

  lemma HSetStores(prefix: string, codec: EventCodec, hashes: Hashes, runs: Runs, uid: string, task: string, ev: Event,
                   u: string)
    requires StoresAt(prefix, codec, hashes, runs, uid) && StoresAt(prefix, codec, hashes, runs, u)
    ensures var key := RunKey(prefix, uid);
      var hash := if key in hashes then hashes[key] else map[];
      StoresAt(prefix, codec, hashes[key := hash[task := codec.enc(ev)]], AddTo(runs, uid, task, ev), u)
  {
    RunKeyInjective(prefix, u, uid);
    if u == uid {
      assert task in AddTo(runs, uid, task, ev)[uid];
    }
  }

  lemma DelStores(prefix: string, codec: EventCodec, hashes: Hashes, runs: Runs, uid: string, u: string)
    requires StoresAt(prefix, codec, hashes, runs, u)
    ensures StoresAt(prefix, codec, hashes - {RunKey(prefix, uid)}, runs - {uid}, u)
  {
    RunKeyInjective(prefix, u, uid);
  }

  lemma ReplyIsNotEmpty(codec: EventCodec, flat: seq<string>, hash: map<string, string>, tasks: Tasks)
    requires Stores(codec, hash, tasks) && tasks != map[] && IsReplyOf(flat, hash)
    ensures flat != []
  {
    var t :| t in tasks;
    assert t in hash;
  }

  /** Valkey: one hash per run, written by HSET and read and deleted by one script. */
  class ValkeyBuffer {
    const prefix: string
    const codec: EventCodec
    var hashes: Hashes
    ghost var runs: Runs

    ghost predicate Valid()
      reads this
    {
      Lossless(codec) && forall u :: StoresAt(prefix, codec, hashes, runs, u)
    }

    constructor (prefix: string, codec: EventCodec)
      requires Lossless(codec)
      ensures Valid() && runs == map[] && this.codec == codec
    {
      this.prefix := if prefix == "" then "tekton-events-relay" else prefix;
      this.codec := codec;
      hashes, runs := map[], map[];
    }

    /** One transaction: it is applied as a whole or not at all, whatever the caller learns. */
    method Add(uid: string, task: string, ev: Event, fault: Fault) returns (ok: bool)
      requires Valid()
      modifies this
      ensures Valid() && (ok <==> fault.NoFault?)
      ensures runs == if fault.Refused? then old(runs) else AddTo(old(runs), uid, task, ev)
    {
      if fault.Refused? { return false; }
      var key := RunKey(prefix, uid);
      var hash := if key in hashes then hashes[key] else map[];
      var hashes' := hashes[key := hash[task := codec.enc(ev)]];
      ghost var runs' := AddTo(runs, uid, task, ev);
      forall u ensures StoresAt(prefix, codec, hashes', runs', u) {
        HSetStores(prefix, codec, hashes, runs, uid, task, ev, u);
      }
      hashes, runs := hashes', runs';
      ok := fault.NoFault?;
    }

    /** The script has deleted the hash before the reply is decoded, or lost: then its tasks are gone. */
    method Flush(uid: string, flat: seq<string>, fault: Fault) returns (ok: bool, answer: Option<Tasks>)
      requires Valid()
      requires var key := RunKey(prefix, uid); if key in hashes then IsReplyOf(flat, hashes[key]) else flat == []
      modifies this
      ensures Valid() && (ok <==> fault.NoFault?)
      ensures answer == if ok then FlushOf(old(runs), uid) else None
      ensures runs == if fault.Refused? then old(runs) else old(runs) - {uid}
    {
      if fault.Refused? { return false, None; }
      var key := RunKey(prefix, uid);
      ghost var before, stored := runs, hashes;
      assert StoresAt(prefix, codec, hashes, runs, uid);
      Delete(uid);
      if fault.ReplyLost? { return false, None; }
      ok := true;
      if uid in before {
        ReplyIsNotEmpty(codec, flat, stored[key], before[uid]);
      }
      if |flat| == 0 {
        return true, None;
      }
      answer := DecodeFlat(codec, flat, stored[key]);
      assert answer.value == before[uid];
    }

    /** The hash of a run goes away: flushed, or expired. */
    method Delete(uid: string)
      requires Valid()
      modifies this
      ensures Valid() && runs == old(runs) - {uid}
    {
      var key := RunKey(prefix, uid);
      forall u ensures StoresAt(prefix, codec, hashes - {key}, runs - {uid}, u) {
        DelStores(prefix, codec, hashes, runs, uid, u);
      }
      hashes := hashes - {key};
      runs := runs - {uid};
    }
  }

  type DMap = map<string, O.Value>

  /** Outside the locked sections the DMap holds the runs, and leases whose unlock failed. */
  ghost predicate Mirrors(dmap: DMap, runs: Runs, leases: set<string>) {
    && NoEmptyRuns(runs) && dmap.Keys == runs.Keys + leases && runs.Keys !! leases
    && (forall u :: u in runs ==> dmap[u] == O.Stored(runs[u]))
    && (forall k :: k in leases ==> dmap[k].Lease?)
  }

  lemma PutMirrors(dmap: DMap, runs: Runs, leases: set<string>, uid: string, task: string, ev: Event)
    requires Mirrors(dmap, runs, leases) && uid !in leases
    ensures Mirrors(dmap[uid := O.Stored(TasksOf(runs, uid)[task := ev])], AddTo(runs, uid, task, ev), leases)
  {
    AddToKeeps(runs, uid, task, ev);
  }

  lemma LeaseMirrors(dmap: DMap, runs: Runs, leases: set<string>, key: string)
    requires Mirrors(dmap, runs, leases) && key !in dmap
    ensures Mirrors(dmap[key := O.Lease(0)], runs, leases + {key})
  {}

  lemma ExpireMirrors(dmap: DMap, runs: Runs, leases: set<string>, key: string)
    requires Mirrors(dmap, runs, leases) && key in leases
    ensures Mirrors(dmap - {key}, runs, leases - {key})
  {}

  /** Olric, called by one caller at a time: lock, get, put or delete, unlock. */
  class OlricBuffer {
    var dmap: DMap
    ghost var runs: Runs
    ghost var leases: set<string>

    ghost predicate Valid()
      reads this
    {
      Mirrors(dmap, runs, leases)
    }

    /** Something stands under the key of the run's lock, or a lease under the run's own key. */
    ghost predicate Blocked(uid: string)
      reads this
    {
      O.LockKey(uid) in runs || O.LockKey(uid) in leases || uid in leases
    }

    constructor ()
      ensures Valid() && runs == map[] && leases == {}
    {
      dmap, runs, leases := map[], map[], {};
    }

    method Lock(uid: string) returns (ok: bool)
      requires Valid()
      modifies this`dmap, this`leases
      ensures Valid() && (ok <==> O.LockKey(uid) !in old(runs) && O.LockKey(uid) !in old(leases))
      ensures leases == if ok then old(leases) + {O.LockKey(uid)} else old(leases)
    {
      if O.LockKey(uid) in dmap { return false; }
      LeaseMirrors(dmap, runs, leases, O.LockKey(uid));
      dmap := dmap[O.LockKey(uid) := O.Lease(0)];
      leases := leases + {O.LockKey(uid)};
      ok := true;
    }

    /** The deferred Unlock, whose error is ignored; an expiring lease goes the same way. */
    method Unlock(key: string, fails: bool)
      requires Valid() && key in leases
      modifies this`dmap, this`leases
      ensures Valid() && leases == if fails then old(leases) else old(leases) - {key}
    {
      if !fails {
        ExpireMirrors(dmap, runs, leases, key);
        dmap := dmap - {key};
        leases := leases - {key};
      }
    }

    /** The lock cannot be had while anything is stored under its key, and a lease under the run's own
        key does not decode. A read or write that fails leaves the run as it was. */
    method Add(uid: string, task: string, ev: Event, fails: bool, unlockFails: bool) returns (ok: bool)
      requires Valid()
      modifies this
      ensures Valid() && (ok <==> !fails && !old(Blocked(uid)))
      ensures runs == if ok then AddTo(old(runs), uid, task, ev) else old(runs)
      ensures !unlockFails ==> leases == old(leases)
    {
      O.LockKeyInjective(uid, uid);
      var locked := Lock(uid);
      if !locked { return false; }
      ok := !fails && !(uid in dmap && dmap[uid].Lease?);
      if ok {
        PutMirrors(dmap, runs, leases, uid, task, ev);
        var tasks := if uid in dmap then dmap[uid].tasks else map[];
        dmap := dmap[uid := O.Stored(tasks[task := ev])];
        runs := AddTo(runs, uid, task, ev);
      }
      Unlock(O.LockKey(uid), unlockFails);
    }

    method Flush(uid: string, fails: bool, unlockFails: bool) returns (ok: bool, answer: Option<Tasks>)
      requires Valid()
      modifies this
      ensures Valid() && (ok <==> !fails && !old(Blocked(uid)))
      ensures answer == if ok then FlushOf(old(runs), uid) else None
      ensures runs == if ok then old(runs) - {uid} else old(runs)
      ensures !unlockFails ==> leases == old(leases)
    {
      O.LockKeyInjective(uid, uid);
      answer := None;
      var locked := Lock(uid);
      if !locked { return false, None; }
      ok := !fails && !(uid in dmap && dmap[uid].Lease?);
      if ok {
        if uid in dmap {
          answer := Some(dmap[uid].tasks);
          dmap := dmap - {uid};
        } else {
          assert dmap - {uid} == dmap;
        }
        runs := runs - {uid};
      }
      Unlock(O.LockKey(uid), unlockFails);
    }
  }
}
