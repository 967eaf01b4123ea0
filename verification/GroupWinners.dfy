/** Whose event a grouped summary lists (internal/accumulator/buffer.go:199-215), when the clock moves
    on from event to event: the run whose end completes the group is then strictly the newest. */
module GroupWinners {
  import opened Common
  import opened Domain
  import opened Lru
  import opened GroupMerge
  import opened LruBuffer
  import opened GroupPosts
  import H = GroupHistory

  /** The entry under `key` is strictly the newest. */
  ghost predicate Freshest(data: Data, key: string, now: nat) {
    && now > 0 && key in data && data[key].lastUpdate == now
    && forall k :: k in data && k != key ==> data[k].lastUpdate < now
  }

  /** A flush of group `g` after `ops` visits its cached members in this order. */
  ghost predicate Flushes(data: Data, ops: seq<H.Op>, g: string, visited: seq<string>, order: seq<RunState>) {
    && AllCached(data, ops) && H.PlainUids(H.After(ops)) && g != "" && g in H.After(ops)
    && Visits(data, g, H.After(ops)[g].Keys, visited, order)
  }

  /** The run has an event of the task since the group's last flush. */
  ghost predicate HoldsTask(ops: seq<H.Op>, g: string, u: string, name: string) {
    exists i :: Latest(ops, g, u, name, i)
  }

  lemma HolderIsVisited(data: Data, ops: seq<H.Op>, g: string, visited: seq<string>, order: seq<RunState>, u: string)
    requires Flushes(data, ops, g, visited, order) && H.HasJoined(ops, g, u)
    ensures CompositeKey(g, u) in data && data[CompositeKey(g, u)] in order && ColonFree(u)
  {
    H.MembersReadHistory(ops, g, u);
    assert H.IsMember(H.After(ops), g, u);
    assert Cached(data, ops, g, u);
    assert u in visited;
    var k :| 0 <= k < |visited| && visited[k] == u;
    assert order[k] == data[CompositeKey(g, u)];
  }

  lemma VisitedIsMember(data: Data, ops: seq<H.Op>, g: string, visited: seq<string>, order: seq<RunState>, s: RunState)
    returns (u: string)
    requires Flushes(data, ops, g, visited, order) && s in order
    ensures ColonFree(u) && H.HasJoined(ops, g, u) && CompositeKey(g, u) in data && s == data[CompositeKey(g, u)]
  {
    var k :| 0 <= k < |order| && order[k] == s;
    u := visited[k];
    assert u in visited;
    H.MembersReadHistory(ops, g, u);
    assert H.IsMember(H.After(ops), g, u);
  }

  /** The tasks of an entry, read off the history. */
  lemma EntryHolds(data: Data, ops: seq<H.Op>, g: string, u: string, name: string)
    requires AllCached(data, ops) && g != "" && ColonFree(u) && CompositeKey(g, u) in data
    ensures name in data[CompositeKey(g, u)].tasks <==> HoldsTask(ops, g, u, name)
    ensures forall i :: Latest(ops, g, u, name, i) ==>
      name in data[CompositeKey(g, u)].tasks && data[CompositeKey(g, u)].tasks[name] == ops[i].e
  {
    assert Cached(data, ops, g, u);
    assert HoldsLatest(TasksAt(data, CompositeKey(g, u)), ops, g, u, name);
  }

  /** In every order the summary lists the newest run's own events ... */
  lemma NewestRunWins(data: Data, ops: seq<H.Op>, g: string, visited: seq<string>, order: seq<RunState>, r: string,
                      now: nat, name: string, i: int)
    requires Flushes(data, ops, g, visited, order)
    requires Freshest(data, CompositeKey(g, r), now) && Latest(ops, g, r, name, i)
    ensures name in Merge(order).tasks && Merge(order).tasks[name] == ops[i].e
  {
    assert H.HasJoined(ops, g, r);
    HolderIsVisited(data, ops, g, visited, order, r);
    EntryHolds(data, ops, g, r, name);
    var m := data[CompositeKey(g, r)];
    forall s | s in order && s != m ensures s.lastUpdate < m.lastUpdate {
      var u := VisitedIsMember(data, ops, g, visited, order, s);
    }
    NewestWins(order, m, name);
  }

  /** ... and the event of a task that only one run has. */
  lemma SoleRunWins(data: Data, ops: seq<H.Op>, g: string, visited: seq<string>, order: seq<RunState>, u: string,
                    name: string, i: int)
    requires Flushes(data, ops, g, visited, order) && Latest(ops, g, u, name, i)
    requires forall v :: HoldsTask(ops, g, v, name) ==> v == u
    ensures name in Merge(order).tasks && Merge(order).tasks[name] == ops[i].e
  {
    assert H.HasJoined(ops, g, u);
    HolderIsVisited(data, ops, g, visited, order, u);
    EntryHolds(data, ops, g, u, name);
    var m := data[CompositeKey(g, u)];
    forall s | s in order && name in s.tasks ensures s == m {
      var v := VisitedIsMember(data, ops, g, visited, order, s);
      EntryHolds(data, ops, g, v, name);
    }
    OnlyHolderWins(order, m, name);
  }

  // ---- When the map order does not matter -----------------------------------------------------

  /** Every order of visiting gives the same tasks. */
  ghost predicate OrderFree(data: Data, g: string, members: set<string>) {
    forall v1, o1, v2, o2 :: Visits(data, g, members, v1, o1) && Visits(data, g, members, v2, o2) ==>
      Merge(o1).tasks == Merge(o2).tasks
  }

  /** No two runs other than the newest compete for a task the newest does not have. */
  ghost predicate Uncontested(ops: seq<H.Op>, g: string, r: string) {
    forall name, u, v :: HoldsTask(ops, g, u, name) && HoldsTask(ops, g, v, name) ==>
      u == v || HoldsTask(ops, g, r, name)
  }

  /** Events are filed under their own run. */
  ghost predicate OwnEvents(ops: seq<H.Op>) {
    forall i :: 0 <= i < |ops| && ops[i].Add? ==> ops[i].e.runId == ops[i].uid
  }

  /** Once a member at least as new as all that follow has been merged, a task stays as it is. */
  lemma {:induction false} TaskStays(front: seq<RunState>, rest: seq<RunState>, name: string)
    requires name in Merge(front).tasks && forall s :: s in rest ==> s.lastUpdate <= Merge(front).lastUpdate
    ensures Merge(front + rest).lastUpdate == Merge(front).lastUpdate
    ensures name in Merge(front + rest).tasks && Merge(front + rest).tasks[name] == Merge(front).tasks[name]
  {
    if rest == [] {
      assert front + rest == front;
    } else {
      var body, last := rest[..|rest| - 1], rest[|rest| - 1];
      assert rest == body + [last];
      TaskStays(front, body, name);
      assert front + rest == (front + body) + [last];
      MergeSnoc(front + body, last);
    }
  }

  lemma {:induction false} SomeVisit(members: set<string>) returns (visited: seq<string>)
    ensures NoDup(visited) && forall u :: u in visited <==> u in members
  {
    if members == {} {
      visited := [];
    } else {
      var u :| u in members;
      var rest := SomeVisit(members - {u});
      visited := rest + [u];
    }
  }

  /** The states visited, when all members are cached. */
  ghost function StatesOf(data: Data, g: string, visited: seq<string>): seq<RunState>
    requires forall u :: u in visited ==> CompositeKey(g, u) in data
  {
    seq(|visited|, i requires 0 <= i < |visited| => assert visited[i] in visited; data[CompositeKey(g, visited[i])])
  }

  /** Visiting `u` first and the newest run, which has no such task, second: the event of `u` wins. */
  lemma FirstVisitedWins(data: Data, g: string, members: set<string>, u: string, r: string, now: nat, name: string)
    returns (visited: seq<string>, order: seq<RunState>)
    requires forall v :: v in members ==> ColonFree(v) && CompositeKey(g, v) in data
    requires u in members && r in members && u != r && Freshest(data, CompositeKey(g, r), now)
    requires name in data[CompositeKey(g, u)].tasks && name !in data[CompositeKey(g, r)].tasks
    ensures Visits(data, g, members, visited, order)
    ensures name in Merge(order).tasks && Merge(order).tasks[name] == data[CompositeKey(g, u)].tasks[name]
  {
    var rest := TwoFirst(members, u, r);
    visited := [u, r] + rest;
    order := StatesOf(data, g, visited);
    var su, sr, tail := data[CompositeKey(g, u)], data[CompositeKey(g, r)], StatesOf(data, g, rest);
    H.KeysApart(g, u, g, r);
    StatesSplit(data, g, u, r, rest);
    FirstTwo(su, sr, name);
    TaskStays([su, sr], tail, name);
  }

  lemma TwoFirst(members: set<string>, u: string, r: string) returns (rest: seq<string>)
    requires u in members && r in members && u != r
    ensures NoDup([u, r] + rest) && (forall v :: v in rest ==> v in members)
    ensures forall v :: v in [u, r] + rest <==> v in members
  {
    rest := SomeVisit(members - {u, r});
    assert u !in rest && r !in rest;
  }

  lemma StatesSplit(data: Data, g: string, u: string, r: string, rest: seq<string>)
    requires forall v :: v in [u, r] + rest ==> CompositeKey(g, v) in data
    requires forall v :: v in rest ==> CompositeKey(g, v) in data
    requires CompositeKey(g, u) in data && CompositeKey(g, r) in data
    ensures StatesOf(data, g, [u, r] + rest) ==
      [data[CompositeKey(g, u)], data[CompositeKey(g, r)]] + StatesOf(data, g, rest)
  {
    var all := [u, r] + rest;
    assert forall i :: 0 <= i < |rest| ==> all[i + 2] == rest[i];
  }

  lemma FirstTwo(su: RunState, sr: RunState, name: string)
    requires name in su.tasks && name !in sr.tasks && su.lastUpdate < sr.lastUpdate
    ensures Merge([su, sr]).lastUpdate == sr.lastUpdate
    ensures name in Merge([su, sr]).tasks && Merge([su, sr]).tasks[name] == su.tasks[name]
  {
    MergeSnoc([], su);
    MergeSnoc([] + [su], sr);
    assert [] + [su] + [sr] == [su, sr];
  }

  /** Everything a flush could need about its members. */
  lemma MembersAreCached(data: Data, ops: seq<H.Op>, g: string, u: string)
    requires AllCached(data, ops) && H.PlainUids(H.After(ops)) && g != "" && g in H.After(ops)
    ensures u in H.After(ops)[g] <==> H.HasJoined(ops, g, u)
    ensures u in H.After(ops)[g] ==> ColonFree(u) && CompositeKey(g, u) in data
  {
    H.MembersReadHistory(ops, g, u);
    if u in H.After(ops)[g] {
      assert H.IsMember(H.After(ops), g, u);
      assert Cached(data, ops, g, u);
    }
  }

  lemma ContestedDiffers(data: Data, ops: seq<H.Op>, g: string, r: string, now: nat, name: string, u: string, v: string)
    requires AllCached(data, ops) && H.PlainUids(H.After(ops)) && g != "" && g in H.After(ops) && OwnEvents(ops)
    requires Freshest(data, CompositeKey(g, r), now) && H.HasJoined(ops, g, r)
    requires HoldsTask(ops, g, u, name) && HoldsTask(ops, g, v, name) && u != v && !HoldsTask(ops, g, r, name)
    ensures !OrderFree(data, g, H.After(ops)[g].Keys)
  {
    var members := H.After(ops)[g].Keys;
    forall m ensures m in members <==> H.HasJoined(ops, g, m) { MembersAreCached(data, ops, g, m); }
    forall m | m in members ensures ColonFree(m) && CompositeKey(g, m) in data { MembersAreCached(data, ops, g, m); }
    var i :| Latest(ops, g, u, name, i);
    var j :| Latest(ops, g, v, name, j);
    assert H.HasJoined(ops, g, u) && H.HasJoined(ops, g, v);
    EntryHolds(data, ops, g, u, name);
    EntryHolds(data, ops, g, v, name);
    EntryHolds(data, ops, g, r, name);
    var v1, o1 := FirstVisitedWins(data, g, members, u, r, now, name);
    var v2, o2 := FirstVisitedWins(data, g, members, v, r, now, name);
    assert Merge(o1).tasks[name].runId == u && Merge(o2).tasks[name].runId == v;
  }

  lemma SameTaskInAnyOrder(data: Data, ops: seq<H.Op>, g: string, r: string, now: nat, v1: seq<string>,
                           o1: seq<RunState>, v2: seq<string>, o2: seq<RunState>, name: string)
    requires Flushes(data, ops, g, v1, o1) && Flushes(data, ops, g, v2, o2)
    requires Freshest(data, CompositeKey(g, r), now) && Uncontested(ops, g, r) && name in Merge(o1).tasks
    ensures name in Merge(o2).tasks && Merge(o1).tasks[name] == Merge(o2).tasks[name]
  {
    var u, i := MergedIsLatest(data, ops, g, v1, o1, name);
    if j :| Latest(ops, g, r, name, j) {
      NewestRunWins(data, ops, g, v1, o1, r, now, name, j);
      NewestRunWins(data, ops, g, v2, o2, r, now, name, j);
    } else {
      assert HoldsTask(ops, g, u, name) && !HoldsTask(ops, g, r, name);
      SoleRunWins(data, ops, g, v1, o1, u, name, i);
      SoleRunWins(data, ops, g, v2, o2, u, name, i);
    }
  }

  /** The whole summary is the same in every map order if and only if no two runs compete for a task
      that the newest run does not have. */
  lemma OrderFreeIff(data: Data, ops: seq<H.Op>, g: string, r: string, now: nat)
    requires AllCached(data, ops) && H.PlainUids(H.After(ops)) && g != "" && g in H.After(ops) && OwnEvents(ops)
    requires Freshest(data, CompositeKey(g, r), now) && H.HasJoined(ops, g, r)
    ensures OrderFree(data, g, H.After(ops)[g].Keys) <==> Uncontested(ops, g, r)
  {
    var members := H.After(ops)[g].Keys;
    if Uncontested(ops, g, r) {
      forall v1, o1, v2, o2 | Visits(data, g, members, v1, o1) && Visits(data, g, members, v2, o2)
        ensures Merge(o1).tasks == Merge(o2).tasks
      {
        forall name | name in Merge(o1).tasks
          ensures name in Merge(o2).tasks && Merge(o1).tasks[name] == Merge(o2).tasks[name]
        {
          SameTaskInAnyOrder(data, ops, g, r, now, v1, o1, v2, o2, name);
        }
        forall name | name in Merge(o2).tasks ensures name in Merge(o1).tasks {
          SameTaskInAnyOrder(data, ops, g, r, now, v2, o2, v1, o1, name);
        }
      }
    } else {
      var name, u, v :|
        HoldsTask(ops, g, u, name) && HoldsTask(ops, g, v, name) && u != v && !HoldsTask(ops, g, r, name);
      ContestedDiffers(data, ops, g, r, now, name, u, v);
    }
  }
}
