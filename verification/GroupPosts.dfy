/** What a complete group posts, read off the history of its events
    (internal/accumulator/handler.go:86-103 and 163-196, internal/accumulator/buffer.go:135-223). */
module GroupPosts {
  import opened Common
  import opened Domain
  import opened RunStore
  import opened GroupMerge
  import opened LruBuffer
  import opened SummarySpec
  import opened Accumulator
  import H = GroupHistory

  predicate IsTaskAdd(op: H.Op, g: string, u: string, name: string) {
    op.Add? && op.g == g && op.uid == u && op.e.resource.TaskRun? && op.e.runName == name
  }

  /** Operation `i` is the last event of the task in run `u` of group `g`, and the group has not
      been flushed since. */
  ghost predicate Latest(ops: seq<H.Op>, g: string, u: string, name: string, i: int) {
    && H.Joins(ops, g, u, i) && IsTaskAdd(ops[i], g, u, name)
    && forall j :: i < j < |ops| ==> !IsTaskAdd(ops[j], g, u, name)
  }

  /** The tasks cached for a run, for one name. */
  ghost predicate HoldsLatest(tasks: Tasks, ops: seq<H.Op>, g: string, u: string, name: string) {
    && (name in tasks <==> exists i :: Latest(ops, g, u, name, i))
    && (forall i :: Latest(ops, g, u, name, i) ==> name in tasks && tasks[name] == ops[i].e)
  }

  /** The entry of a run: there exactly when an event of it was added since the group's last flush,
      with the last event of every task. */
  ghost predicate Cached(data: Data, ops: seq<H.Op>, g: string, u: string) {
    && (CompositeKey(g, u) in data <==> H.HasJoined(ops, g, u))
    && forall name :: HoldsLatest(TasksAt(data, CompositeKey(g, u)), ops, g, u, name)
  }

  ghost predicate AllCached(data: Data, ops: seq<H.Op>) {
    forall g, u :: g != "" && ColonFree(u) ==> Cached(data, ops, g, u)
  }

  lemma LatestSnoc(ops: seq<H.Op>, op: H.Op, g: string, u: string, name: string, i: int)
    ensures Latest(ops + [op], g, u, name, i) <==>
      if i == |ops| then IsTaskAdd(op, g, u, name)
      else Latest(ops, g, u, name, i) && !H.Resets(op, g) && !IsTaskAdd(op, g, u, name)
  {
    var all := ops + [op];
    H.JoinsSnoc(ops, op, g, u, i);
    assert forall j :: 0 <= j < |ops| ==> all[j] == ops[j];
    assert all[|ops|] == op;
  }

  /** What one more operation does to the tasks of a run. */
  ghost predicate TaskFollows(tasks: Tasks, op: H.Op, g: string, u: string, name: string, tasks': Tasks) {
    if IsTaskAdd(op, g, u, name) then name in tasks' && tasks'[name] == op.e
    else if H.Resets(op, g) then name !in tasks'
    else (name in tasks' <==> name in tasks) && (name in tasks ==> tasks'[name] == tasks[name])
  }

  lemma HoldsLatestSnoc(tasks: Tasks, tasks': Tasks, ops: seq<H.Op>, op: H.Op, g: string, u: string, name: string)
    requires HoldsLatest(tasks, ops, g, u, name) && TaskFollows(tasks, op, g, u, name, tasks')
    ensures HoldsLatest(tasks', ops + [op], g, u, name)
  {
    var all := ops + [op];
    forall i ensures Latest(all, g, u, name, i) <==>
      if i == |ops| then IsTaskAdd(op, g, u, name)
      else Latest(ops, g, u, name, i) && !H.Resets(op, g) && !IsTaskAdd(op, g, u, name)
    {
      LatestSnoc(ops, op, g, u, name, i);
    }
    forall i | Latest(all, g, u, name, i) ensures name in tasks' && tasks'[name] == all[i].e {}
    if name in tasks' {
      if IsTaskAdd(op, g, u, name) {
        assert Latest(all, g, u, name, |ops|);
      } else {
        var i :| Latest(ops, g, u, name, i);
        assert Latest(all, g, u, name, i);
      }
    }
  }

  lemma CachedSnoc(data: Data, data': Data, ops: seq<H.Op>, op: H.Op, g: string, u: string)
    requires Cached(data, ops, g, u)
    requires CompositeKey(g, u) in data' <==> H.HasJoined(ops + [op], g, u)
    requires var key := CompositeKey(g, u);
      forall name :: TaskFollows(TasksAt(data, key), op, g, u, name, TasksAt(data', key))
    ensures Cached(data', ops + [op], g, u)
  {
    var key := CompositeKey(g, u);
    forall name ensures HoldsLatest(TasksAt(data', key), ops + [op], g, u, name) {
      assert HoldsLatest(TasksAt(data, key), ops, g, u, name);
      assert TaskFollows(TasksAt(data, key), op, g, u, name, TasksAt(data', key));
      HoldsLatestSnoc(TasksAt(data, key), TasksAt(data', key), ops, op, g, u, name);
    }
  }

  /** An operation that concerns neither the run nor its entry. */
  lemma CachedElsewhere(data: Data, data': Data, ops: seq<H.Op>, op: H.Op, g: string, u: string)
    requires Cached(data, ops, g, u) && SameAt(data, data', CompositeKey(g, u))
    requires !H.Resets(op, g) && !(op.Add? && op.g == g && op.uid == u)
    ensures Cached(data', ops + [op], g, u)
  {
    H.HistorySnoc(ops, op, g, u);
    CachedSnoc(data, data', ops, op, g, u);
  }

  /** An ungrouped event leaves every group's entries alone. */
  lemma PlainKeepsAll(data: Data, data': Data, ops: seq<H.Op>, uid: string)
    requires AllCached(data, ops) && ColonFree(uid) && forall k :: k != uid ==> SameAt(data, data', k)
    ensures AllCached(data', ops)
  {
    forall g, u | g != "" && ColonFree(u) ensures Cached(data', ops, g, u) {
      H.KeysApart(g, u, "", uid);
      assert Cached(data, ops, g, u);
      SameIsCached(data, data', ops, g, u);
    }
  }

  lemma SameIsCached(data: Data, data': Data, ops: seq<H.Op>, g: string, u: string)
    requires Cached(data, ops, g, u) && SameAt(data, data', CompositeKey(g, u))
    ensures Cached(data', ops, g, u)
  {
    var key := CompositeKey(g, u);
    assert TasksAt(data', key) == TasksAt(data, key);
    forall name ensures HoldsLatest(TasksAt(data', key), ops, g, u, name) {
      assert HoldsLatest(TasksAt(data, key), ops, g, u, name);
    }
  }

  lemma AddKeepsAll(data: Data, ops: seq<H.Op>, g: string, uid: string, e: Event, now: nat)
    requires AllCached(data, ops) && g != "" && ColonFree(uid)
    ensures var key := CompositeKey(g, uid);
      AllCached(data[key := Updated(data, key, uid, e, now)], ops + [H.Add(g, uid, e)])
  {
    var key, op := CompositeKey(g, uid), H.Add(g, uid, e);
    var data' := data[key := Updated(data, key, uid, e, now)];
    forall h, v | h != "" && ColonFree(v) ensures Cached(data', ops + [op], h, v) {
      assert Cached(data, ops, h, v);
      if h == g && v == uid {
        H.HistorySnoc(ops, op, g, uid);
        CachedSnoc(data, data', ops, op, g, uid);
      } else {
        H.KeysApart(g, uid, h, v);
        CachedElsewhere(data, data', ops, op, h, v);
      }
    }
  }

  lemma FlushKeepsAll(data: Data, data': Data, ops: seq<H.Op>, g: string)
    requires AllCached(data, ops) && H.PlainUids(H.After(ops))
    requires Drops(data', data, g, if g in H.After(ops) then H.After(ops)[g].Keys else {})
    ensures AllCached(data', ops + [H.Flush(g)])
  {
    var op, members := H.Flush(g), if g in H.After(ops) then H.After(ops)[g].Keys else {};
    forall h, v | h != "" && ColonFree(v) ensures Cached(data', ops + [op], h, v) {
      assert Cached(data, ops, h, v);
      H.HistorySnoc(ops, op, h, v);
      if h == g {
        H.MembersReadHistory(ops, g, v);
        MemberKeyIff(g, members, v);
        CachedSnoc(data, data', ops, op, h, v);
      } else {
        H.FlushIsolated(data, H.After(ops), data', g, h, v);
        CachedElsewhere(data, data', ops, op, h, v);
      }
    }
  }

  // ---- The post -----------------------------------------------------------------------------

  /** Operation `i` added an event of the task to group `g`, in whatever run, since its last flush. */
  ghost predicate TaskIn(ops: seq<H.Op>, g: string, name: string, i: int) {
    0 <= i < |ops| && ops[i].Add? && H.Joins(ops, g, ops[i].uid, i) && IsTaskAdd(ops[i], g, ops[i].uid, name)
  }

  lemma {:induction false} TaskHasLatest(ops: seq<H.Op>, g: string, name: string, i: int) returns (l: int)
    requires TaskIn(ops, g, name, i)
    ensures i <= l < |ops| && Latest(ops, g, ops[i].uid, name, l)
    decreases |ops| - i
  {
    if j :| i < j < |ops| && IsTaskAdd(ops[j], g, ops[i].uid, name) {
      l := TaskHasLatest(ops, g, name, j);
    } else {
      l := i;
    }
  }

  /** Every member of a group is cached, so a flush visits all of them. */
  lemma VisitsHolder(data: Data, ops: seq<H.Op>, g: string, visited: seq<string>, order: seq<RunState>,
                     u: string, name: string, i: int) returns (s: RunState)
    requires AllCached(data, ops) && H.PlainUids(H.After(ops)) && g != "" && g in H.After(ops)
    requires Visits(data, g, H.After(ops)[g].Keys, visited, order) && Latest(ops, g, u, name, i)
    ensures s in order && name in s.tasks
  {
    H.MembersReadHistory(ops, g, u);
    assert H.HasJoined(ops, g, u);
    assert H.IsMember(H.After(ops), g, u);
    assert Cached(data, ops, g, u);
    assert HoldsLatest(TasksAt(data, CompositeKey(g, u)), ops, g, u, name);
    assert u in visited;
    var k :| 0 <= k < |visited| && visited[k] == u;
    s := order[k];
  }

  /** A merged event is the last one of its task in some run of the group. */
  lemma MergedIsLatest(data: Data, ops: seq<H.Op>, g: string, visited: seq<string>, order: seq<RunState>, name: string)
    returns (u: string, i: int)
    requires AllCached(data, ops) && H.PlainUids(H.After(ops)) && g != "" && g in H.After(ops)
    requires Visits(data, g, H.After(ops)[g].Keys, visited, order) && name in Merge(order).tasks
    ensures Latest(ops, g, u, name, i) && Merge(order).tasks[name] == ops[i].e
  {
    var s := MergedEventHasHolder(order, name);
    var k :| 0 <= k < |order| && order[k] == s;
    u := visited[k];
    assert u in visited;
    assert H.IsMember(H.After(ops), g, u);
    assert Cached(data, ops, g, u);
    assert HoldsLatest(TasksAt(data, CompositeKey(g, u)), ops, g, u, name);
    i :| Latest(ops, g, u, name, i);
  }

  ghost predicate IsLatestOf(ops: seq<H.Op>, g: string, name: string, e: Event) {
    exists u, i :: Latest(ops, g, u, name, i) && ops[i].e == e
  }

  ghost predicate HasTask(ops: seq<H.Op>, g: string, name: string) { exists i :: TaskIn(ops, g, name, i) }

  /** The merged tasks of a flush: the names seen since the last flush, each with the last event of
      its task in some run. */
  ghost predicate Merges(ops: seq<H.Op>, g: string, tasks: Tasks) {
    forall name :: MergesAt(ops, g, tasks, name)
  }

  ghost predicate MergesAt(ops: seq<H.Op>, g: string, tasks: Tasks, name: string) {
    (name in tasks <==> HasTask(ops, g, name)) && (name in tasks ==> IsLatestOf(ops, g, name, tasks[name]))
  }

  lemma FlushMerges(data: Data, ops: seq<H.Op>, g: string, visited: seq<string>, order: seq<RunState>)
    requires AllCached(data, ops) && H.PlainUids(H.After(ops)) && g != "" && g in H.After(ops)
    requires Visits(data, g, H.After(ops)[g].Keys, visited, order)
    ensures Merges(ops, g, Merge(order).tasks)
  {
    var tasks := Merge(order).tasks;
    forall name ensures MergesAt(ops, g, tasks, name) {
      if name in tasks {
        var u, i := MergedIsLatest(data, ops, g, visited, order, name);
        assert TaskIn(ops, g, name, i);
      }
      if HasTask(ops, g, name) {
        var i :| TaskIn(ops, g, name, i);
        var l := TaskHasLatest(ops, g, name, i);
        var s := VisitsHolder(data, ops, g, visited, order, ops[i].uid, name, l);
        MergedNames(order, name);
      }
    }
  }

  ghost predicate AllEnded(ops: seq<H.Op>, g: string) {
    forall u :: H.HasJoined(ops, g, u) ==> H.HasEnded(ops, g, u)
  }

  /** What an event of a group posts, `ops` being the history with the event itself: a summary if
      and only if it ends a run, every run that joined since the group's last flush has ended and
      some task event of the group arrived since; and then exactly those tasks. */
  ghost predicate PostsAs(ops: seq<H.Op>, e: Event, post: Option<Summary>) {
    && (post.Some? <==> EndsRun(e) && AllEnded(ops, e.groupId) && exists name :: HasTask(ops, e.groupId, name))
    && (post.Some? ==> post.value.final == e && Merges(ops, e.groupId, post.value.tasks))
  }

  lemma FlushPosts(data: Data, ops: seq<H.Op>, e: Event, visited: seq<string>, order: seq<RunState>)
    requires AllCached(data, ops) && H.PlainUids(H.After(ops)) && e.groupId != "" && EndsRun(e)
    requires Complete(H.After(ops), e.groupId)
    requires Visits(data, e.groupId, H.After(ops)[e.groupId].Keys, visited, order)
    ensures PostsAs(ops, e, SummaryOf(e, Merge(order).tasks))
  {
    var g, tasks := e.groupId, Merge(order).tasks;
    H.GroupCompleteIff(ops, g);
    FlushMerges(data, ops, g, visited, order);
    if tasks != map[] {
      var name :| name in tasks;
      assert MergesAt(ops, g, tasks, name);
    }
    if name :| HasTask(ops, g, name) {
      assert MergesAt(ops, g, tasks, name);
    }
  }
}
