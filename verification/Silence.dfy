/** Runs whose task events and pipeline events carry different identifiers, as decoded Tekton events
    do (internal/event/tekton/decoder_shared.go:36): the accumulator has nothing to post. */
module Silence {
  import opened Common
  import opened Domain
  import opened Lru
  import opened GroupMerge
  import opened LruBuffer
  import opened SummarySpec
  import opened Accumulator
  import H = GroupHistory

  /** Tasks are cached only under runs in `taskIds`, only runs in `pipelineIds` have ended. */
  ghost predicate Attributed(data: Data, groups: Groups, taskIds: set<string>, pipelineIds: set<string>) {
    && (forall k :: k in data && data[k].tasks != map[] ==> Unkey(k).1 in taskIds)
    && (forall g, u :: H.IsMember(groups, g, u) ==> ColonFree(u) && (groups[g][u] ==> u in pipelineIds))
  }

  predicate Declared(e: Event, taskIds: set<string>, pipelineIds: set<string>) {
    && ColonFree(e.runId)
    && (e.resource.TaskRun? ==> e.runId in taskIds) && (e.resource.PipelineRun? ==> e.runId in pipelineIds)
  }

  lemma PutAttributed(before: Cache<string, RunState>, after: Cache<string, RunState>, groups: Groups,
                      g: string, e: Event, now: nat, taskIds: set<string>, pipelineIds: set<string>)
    requires Attributed(before.data, groups, taskIds, pipelineIds) && Declared(e, taskIds, pipelineIds)
    requires var key := CompositeKey(g, e.runId); Puts(before, after, key, Updated(before.data, key, e.runId, e, now))
    ensures Attributed(after.data, groups, taskIds, pipelineIds)
    ensures Attributed(after.data, Joined(groups, g, e.runId, e), taskIds, pipelineIds)
  {
    KeyRoundTrip(g, e.runId);
    var groups' := Joined(groups, g, e.runId, e);
    forall h, u | H.IsMember(groups', h, u) ensures ColonFree(u) && (groups'[h][u] ==> u in pipelineIds) {
      assert H.IsMember(groups, h, u) || (h == g && u == e.runId);
    }
  }

  /** A group all of whose runs have ended holds no task. */
  lemma CompleteIsTaskless(data: Data, groups: Groups, g: string, visited: seq<string>, order: seq<RunState>,
                           taskIds: set<string>, pipelineIds: set<string>)
    requires Attributed(data, groups, taskIds, pipelineIds) && taskIds !! pipelineIds
    requires Complete(groups, g) && Visits(data, g, groups[g].Keys, visited, order)
    ensures Merge(order).tasks == map[]
  {
    if Merge(order).tasks != map[] {
      var name :| name in Merge(order).tasks;
      var s := MergedEventHasHolder(order, name);
      var i :| 0 <= i < |order| && order[i] == s;
      assert visited[i] in visited;
      assert H.IsMember(groups, g, visited[i]);
      KeyRoundTrip(g, visited[i]);
      assert false;
    }
  }

  ghost predicate Shrinks(now: Data, before: Data) {
    forall k :: k in now ==> k in before && now[k] == before[k]
  }

  lemma ShrinkKeepsAttributed(now: Data, before: Data, groups: Groups, groups': Groups, t: set<string>, p: set<string>)
    requires Attributed(before, groups, t, p) && Shrinks(now, before)
    requires forall g :: g in groups' ==> g in groups && groups'[g] == groups[g]
    ensures Attributed(now, groups', t, p)
  {
    assert forall g, u :: H.IsMember(groups', g, u) ==> H.IsMember(groups, g, u);
  }

  lemma SingleStaysSilent(before: Cache<string, RunState>, groups: Groups, after: Cache<string, RunState>,
                          e: Event, now: nat, post: Option<Summary>, what: Step, t: set<string>, p: set<string>)
    requires Attributed(before.data, groups, t, p) && t !! p && Declared(e, t, p)
    requires Single(before, what.mid, after, e, now, post)
    ensures Attributed(after.data, groups, t, p) && post.None?
  {
    if e.resource.TaskRun? || e.resource.PipelineRun? {
      PutAttributed(before, what.mid, groups, "", e, now, t, p);
    }
    if EndsRun(e) {
      KeyRoundTrip("", e.runId);
      ShrinkKeepsAttributed(after.data, what.mid.data, groups, groups, t, p);
    }
  }

  lemma GroupedStaysSilent(before: Cache<string, RunState>, groups: Groups, after: Cache<string, RunState>,
                           e: Event, now: nat, post: Option<Summary>, what: Step, t: set<string>, p: set<string>)
    requires Attributed(before.data, groups, t, p) && t !! p && Declared(e, t, p)
    requires Grouped(before, groups, what.mid, after, e, now, post, what.visited, what.order)
    ensures Attributed(after.data, NextGroups(groups, e), t, p) && post.None?
  {
    var g := e.groupId;
    var joined := Joined(groups, g, e.runId, e);
    if e.resource.TaskRun? || e.resource.PipelineRun? {
      PutAttributed(before, what.mid, groups, g, e, now, t, p);
    }
    if EndsRun(e) && Complete(joined, g) {
      CompleteIsTaskless(what.mid.data, joined, g, what.visited, what.order, t, p);
      ShrinkKeepsAttributed(after.data, what.mid.data, joined, joined - {g}, t, p);
    }
  }

  /** As long as no run identifier is used by both task and pipeline events, nothing is posted. */
  lemma StaysSilent(before: Cache<string, RunState>, groups: Groups, after: Cache<string, RunState>, groups': Groups,
                    e: Event, now: nat, post: Option<Summary>, what: Step, t: set<string>, p: set<string>)
    requires Attributed(before.data, groups, t, p) && t !! p && Declared(e, t, p)
    requires Handles(before, groups, after, groups', e, now, post, what)
    ensures Attributed(after.data, groups', t, p) && post.None?
  {
    if e.runId != "" {
      if e.groupId == "" {
        SingleStaysSilent(before, groups, after, e, now, post, what, t, p);
      } else {
        GroupedStaysSilent(before, groups, after, e, now, post, what, t, p);
      }
    }
  }

  function TaskIds(es: seq<Event>): set<string> { set i | 0 <= i < |es| && es[i].resource.TaskRun? :: es[i].runId }

  function PipelineIds(es: seq<Event>): set<string> {
    set i | 0 <= i < |es| && es[i].resource.PipelineRun? :: es[i].runId
  }

  /** Decoded Tekton events: every object carries its own colon-free identifier. */
  ghost predicate OwnIds(es: seq<Event>) {
    TaskIds(es) !! PipelineIds(es) && forall i :: 0 <= i < |es| ==> ColonFree(es[i].runId)
  }
}
