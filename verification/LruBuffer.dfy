/** The in-memory accumulator buffer with its groups (internal/accumulator/buffer.go). */
module LruBuffer {
  import opened Common
  import opened Domain
  import opened Lru
  import opened GroupMerge

  /** compositeKey */
  function CompositeKey(groupId: string, uid: string): string {
    if groupId == "" then uid else groupId + ":" + uid
  }

  /** With colon-free run identifiers a key determines the group and the run; an ungrouped run
      has the key without a colon. */
  lemma KeyRoundTrip(g: string, u: string)
    requires ColonFree(u)
    ensures Unkey(CompositeKey(g, u)) == (g, u)
  {
    if g == "" {
      LastColonOf("", u);
      assert "" + u == u;
    } else {
      LastColonOf(g + ":", u);
      assert LastColon(g + ":") == |g|;
      assert (g + ":" + u)[..|g|] == g && (g + ":" + u)[|g| + 1..] == u;
    }
  }

  type Data = map<string, RunState>
  type Groups = map<string, map<string, bool>>

  /** The tasks held under a key: none when the entry is absent. */
  function TasksAt(data: Data, key: string): map<string, Event> { if key in data then data[key].tasks else map[] }

  /** The same entry, or none in both. */
  predicate SameAt(data: Data, data': Data, key: string) {
    (key in data <==> key in data') && (key in data ==> data[key] == data'[key])
  }

  /** The state Add and AddWithGroup store under a key. */
  function Updated(data: Data, key: string, uid: string, e: Event, now: nat): RunState {
    var s := if key in data then data[key] else RunState(uid, map[], 0);
    RunState(s.uid, if e.resource.TaskRun? then s.tasks[e.runName := e] else s.tasks, now)
  }

  /** The group bookkeeping of AddWithGroup. */
  function Joined(groups: Groups, g: string, uid: string, e: Event): Groups {
    var gs := if g in groups then groups[g] else map[];
    var gs' := if uid in gs then gs else gs[uid := false];
    groups[g := if EndsRun(e) then gs'[uid := true] else gs']
  }

  predicate Complete(groups: Groups, g: string) {
    g in groups && groups[g] != map[] && forall u :: u in groups[g] ==> groups[g][u]
  }

  /** The run a key of group `g` would stand for. */
  function UidIn(g: string, key: string): string {
    if g == "" then key else if |key| > |g| then key[|g| + 1..] else ""
  }

  predicate IsMemberKey(g: string, members: set<string>, key: string) {
    UidIn(g, key) in members && key == CompositeKey(g, UidIn(g, key))
  }

  lemma MemberKeyIff(g: string, members: set<string>, u: string)
    ensures UidIn(g, CompositeKey(g, u)) == u
    ensures IsMemberKey(g, members, CompositeKey(g, u)) <==> u in members
  {
    if g != "" {
      assert (g + ":" + u)[|g| + 1..] == u;
    }
  }

  /** Exactly the entries of the members are gone. */
  ghost predicate Drops(now: Data, before: Data, g: string, members: set<string>) {
    && (forall k :: k in now <==> k in before && !IsMemberKey(g, members, k))
    && (forall k :: k in now ==> now[k] == before[k])
  }

  lemma DropsNext(now: Data, before: Data, g: string, done: set<string>, uid: string)
    requires Drops(now, before, g, done) && uid !in done
    ensures Drops(now - {CompositeKey(g, uid)}, before, g, done + {uid})
    ensures CompositeKey(g, uid) in now <==> CompositeKey(g, uid) in before
  {
    MemberKeyIff(g, done, uid);
    forall k ensures IsMemberKey(g, done + {uid}, k) <==> IsMemberKey(g, done, k) || k == CompositeKey(g, uid) {
      MemberKeyIff(g, done, UidIn(g, k));
    }
  }

  /** `visited` lists the members that are still cached, each once, and `order` their states. */
  ghost predicate Visits(data: Data, g: string, members: set<string>, visited: seq<string>, order: seq<RunState>) {
    && |visited| == |order| && NoDup(visited)
    && (forall u :: u in visited <==> u in members && CompositeKey(g, u) in data)
    && (forall i :: 0 <= i < |visited| ==> visited[i] in visited && order[i] == data[CompositeKey(g, visited[i])])
  }

  lemma VisitsNext(data: Data, g: string, done: set<string>, visited: seq<string>, order: seq<RunState>, uid: string)
    requires Visits(data, g, done, visited, order) && uid !in done
    ensures var key := CompositeKey(g, uid);
      if key in data then Visits(data, g, done + {uid}, visited + [uid], order + [data[key]])
      else Visits(data, g, done + {uid}, visited, order)
  {
    assert uid !in visited;
  }

  /** A task of the member being merged replaces the merged one only when it is new or newer. */
  predicate Takes(m: Merged, s: RunState, name: string) {
    name in s.tasks && (name !in m.tasks || s.lastUpdate > m.lastUpdate)
  }

  /** The merged tasks once the names outside `left` have been looked at. */
  ghost predicate MergedSoFar(m: Merged, s: RunState, left: set<string>, tasks: map<string, Event>) {
    && tasks.Keys == m.tasks.Keys + (s.tasks.Keys - left)
    && forall t :: t in tasks ==>
         if t !in left && Takes(m, s, t) then tasks[t] == s.tasks[t] else t in m.tasks && tasks[t] == m.tasks[t]
  }

  lemma MergedAll(m: Merged, s: RunState, tasks: map<string, Event>)
    requires MergedSoFar(m, s, {}, tasks)
    ensures tasks == MergeOne(m, s).tasks
  {}

  /** The inner loop of FlushGroup, over the tasks of one member in any order. */
  method MergeTasks(m: Merged, s: RunState) returns (r: Merged)
    ensures r == MergeOne(m, s)
  {
    var tasks := m.tasks;
    var left := s.tasks.Keys;
    while left != {}
      invariant left <= s.tasks.Keys && MergedSoFar(m, s, left, tasks)
    {
      var name :| name in left;
      if name !in tasks || s.lastUpdate > m.lastUpdate {
        tasks := tasks[name := s.tasks[name]];
      }
      left := left - {name};
    }
    MergedAll(m, s, tasks);
    r := Merged(tasks, if s.lastUpdate > m.lastUpdate then s.lastUpdate else m.lastUpdate);
  }

  /** A put into the cache: exact when there is room, and otherwise only a loss of others. */
  ghost predicate Puts(before: Cache<string, RunState>, after: Cache<string, RunState>, key: string, s: RunState) {
    && after.Valid() && after.cap == before.cap && key in after.data && after.data[key] == s
    && (key in before.data || |before.data| < before.cap ==> after.data == before.data[key := s])
    && forall k :: k in after.data && k != key ==> k in before.data && after.data[k] == before.data[k]
  }

  /** A put that finds no room: the least recently used entry goes. */
  ghost predicate Evicts(before: Cache<string, RunState>, after: Cache<string, RunState>, key: string, s: RunState) {
    before.Valid() && key !in before.data && |before.data| >= before.cap ==>
      after.data == (before.data - {before.order[|before.order| - 1]})[key := s]
  }

  lemma GetAddEvicts(c: Cache<string, RunState>, key: string, s: RunState)
    ensures Evicts(c, c.Get(key).Add(key, s), key, s)
  {}

  lemma GetAddPuts(c: Cache<string, RunState>, key: string, s: RunState)
    requires c.Valid()
    ensures Puts(c, c.Get(key).Add(key, s), key, s)
  {
    GetKeepsValid(c, key);
    AddKeepsValid(c.Get(key), key, s);
  }

  class Buffer {
    var cache: Cache<string, RunState>
    var groups: Groups

    ghost predicate Valid()
      reads this
    {
      cache.Valid()
    }

    constructor (maxSize: int)
      ensures Valid() && cache.data == map[] && groups == map[]
      ensures cache.cap == if maxSize <= 0 then 1000 else maxSize
    {
      cache := Cache(if maxSize <= 0 then 1000 else maxSize, [], map[]);
      groups := map[];
    }

    method Add(uid: string, e: Event, now: nat)
      requires Valid()
      modifies this`cache
      ensures Valid() && Puts(old(cache), cache, uid, Updated(old(cache.data), uid, uid, e, now))
      ensures Evicts(old(cache), cache, uid, Updated(old(cache.data), uid, uid, e, now))
    {
      var s := Updated(cache.data, uid, uid, e, now);
      GetAddEvicts(cache, uid, s);
      GetAddPuts(cache, uid, s);
      cache := cache.Get(uid).Add(uid, s);
    }

    method Flush(uid: string) returns (r: Option<RunState>)
      requires Valid()
      modifies this`cache
      ensures Valid() && cache.cap == old(cache.cap) && cache.data == old(cache.data) - {uid}
      ensures r == if uid in old(cache.data) then Some(old(cache.data)[uid]) else None
    {
      if uid !in cache.data {
        assert cache.data - {uid} == cache.data;
        return None;
      }
      r := Some(cache.data[uid]);
      Evict(uid);
    }

    /** An entry expires; groups are not told. */
    method Expire(key: string)
      requires Valid()
      modifies this`cache
      ensures Valid() && cache.cap == old(cache.cap) && cache.data == old(cache.data) - {key}
    {
      RemoveKeepsValid(cache, key);
      cache := cache.Remove(key);
    }

    method Close()
      requires Valid()
      modifies this
      ensures Valid() && cache.data == map[] && groups == map[]
    {
      cache := Cache(cache.cap, [], map[]);
      groups := map[];
    }

    method AddWithGroup(g: string, uid: string, e: Event, now: nat)
      requires Valid()
      modifies this
      ensures Valid() && groups == Joined(old(groups), g, uid, e)
      ensures var key := CompositeKey(g, uid);
        && Puts(old(cache), cache, key, Updated(old(cache.data), key, uid, e, now))
        && Evicts(old(cache), cache, key, Updated(old(cache.data), key, uid, e, now))
    {
      var key := CompositeKey(g, uid);
      var s := Updated(cache.data, key, uid, e, now);
      GetAddEvicts(cache, key, s);
      GetAddPuts(cache, key, s);
      cache := cache.Get(key).Add(key, s);
      Join(g, uid, e);
    }

    method Join(g: string, uid: string, e: Event)
      modifies this`groups
      ensures groups == Joined(old(groups), g, uid, e)
    {
      var gs := if g in groups then groups[g] else map[];
      if uid !in gs {
        gs := gs[uid := false];
      }
      if e.resource.PipelineRun? && IsTerminal(e.state) {
        gs := gs[uid := true];
      }
      groups := groups[g := gs];
    }

    method IsGroupComplete(g: string) returns (complete: bool)
      ensures complete == Complete(groups, g)
      ensures complete <==> g in groups && groups[g] != map[] && forall u :: u in groups[g] ==> groups[g][u]
    {
      if g !in groups || |groups[g]| == 0 {
        return false;
      }
      var left := groups[g].Keys;
      while left != {}
        invariant left <= groups[g].Keys
        invariant forall u :: u in groups[g] && u !in left ==> groups[g][u]
      {
        var u :| u in left;
        if !groups[g][u] {
          return false;
        }
        left := left - {u};
      }
      return true;
    }

    /** One member in the outer loop of FlushGroup. */
    method Visit(g: string, uid: string, merged: Merged, ghost data: Data, ghost done: set<string>,
                 ghost visited: seq<string>, ghost order: seq<RunState>)
      returns (merged': Merged, ghost visited': seq<string>, ghost order': seq<RunState>)
      requires Valid() && uid !in done && merged == Merge(order)
      requires Visits(data, g, done, visited, order) && Drops(cache.data, data, g, done)
      modifies this`cache
      ensures Valid() && cache.cap == old(cache.cap) && merged' == Merge(order')
      ensures Visits(data, g, done + {uid}, visited', order') && Drops(cache.data, data, g, done + {uid})
    {
      var key := CompositeKey(g, uid);
      VisitsNext(data, g, done, visited, order, uid);
      DropsNext(cache.data, data, g, done, uid);
      merged', visited', order' := merged, visited, order;
      if key in cache.data {
        var state := cache.data[key];
        MergeSnoc(order, state);
        visited', order' := visited + [uid], order + [state];
        merged' := MergeTasks(merged, state);
        Evict(key);
      } else {
        assert cache.data - {key} == cache.data;
      }
    }

    method VisitAll(g: string, members: set<string>)
      returns (merged: Merged, ghost visited: seq<string>, ghost order: seq<RunState>)
      requires Valid()
      modifies this`cache
      ensures Valid() && cache.cap == old(cache.cap) && merged == Merge(order)
      ensures Visits(old(cache.data), g, members, visited, order) && Drops(cache.data, old(cache.data), g, members)
    {
      visited, order, merged := [], [], Merged(map[], 0);
      ghost var data, done := cache.data, {};
      var left := members;
      while left != {}
        invariant Valid() && cache.cap == old(cache.cap) && merged == Merge(order)
        invariant done !! left && done + left == members
        invariant Visits(data, g, done, visited, order)
        invariant Drops(cache.data, data, g, done)
      {
        var uid :| uid in left;
        merged, visited, order := Visit(g, uid, merged, data, done, visited, order);
        left, done := left - {uid}, done + {uid};
      }
      assert done == members;
    }

    /** FlushGroup: some order of visiting the cached members, merged; the members' entries and
        the group are gone afterwards, everything else stays. */
    method FlushGroup(g: string) returns (r: Option<RunState>, ghost visited: seq<string>, ghost order: seq<RunState>)
      requires Valid()
      modifies this
      ensures Valid() && cache.cap == old(cache.cap) && groups == old(groups) - {g}
      ensures var members := if g in old(groups) then old(groups)[g].Keys else {};
        && Visits(old(cache.data), g, members, visited, order)
        && Drops(cache.data, old(cache.data), g, members)
      ensures r == if Merge(order).tasks == map[] then None
                   else Some(RunState(g, Merge(order).tasks, Merge(order).lastUpdate))
    {
      if g !in groups {
        assert groups - {g} == groups;
        return None, [], [];
      }
      var merged;
      merged, visited, order := VisitAll(g, groups[g].Keys);
      groups := groups - {g};
      r := if |merged.tasks| == 0 then None else Some(RunState(g, merged.tasks, merged.lastUpdate));
    }

    method Evict(key: string)
      requires Valid() && key in cache.data
      modifies this`cache
      ensures Valid() && cache.cap == old(cache.cap) && cache.data == old(cache.data) - {key}
    {
      GetKeepsValid(cache, key);
      RemoveKeepsValid(cache.Get(key), key);
      cache := cache.Get(key).Remove(key);
    }
  }
}
