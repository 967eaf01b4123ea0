/** The accumulator over its in-memory buffer (internal/accumulator/handler.go:60-103 and
    128-196). */
module Accumulator {
  import opened Common
  import opened Domain
  import opened Lru
  import opened GroupMerge
  import opened LruBuffer
  import opened SummarySpec

  /** Storing the run does not evict another one. */
  predicate HasRoom(c: Cache<string, RunState>, key: string) { key in c.data || |c.data| < c.cap }

  /** Events of other resources are not stored. */
  predicate IsStored(e: Event) { e.resource.TaskRun? || e.resource.PipelineRun? }

  // ---- One call -------------------------------------------------------------------------

  ghost predicate Removes(before: Cache<string, RunState>, after: Cache<string, RunState>, key: string) {
    after.cap == before.cap && after.data == before.data - {key}
  }

  /** handleSingle: add, then flush and post when the event ends the run. */
  ghost predicate Single(before: Cache<string, RunState>, mid: Cache<string, RunState>, after: Cache<string, RunState>,
                         e: Event, now: nat, post: Option<Summary>)
  {
    && (if IsStored(e)
        then Puts(before, mid, e.runId, Updated(before.data, e.runId, e.runId, e, now))
        else mid == before)
    && if EndsRun(e)
       then Removes(mid, after, e.runId) && post == SummaryOf(e, TasksAt(mid.data, e.runId))
       else after == mid && post == None
  }

  /** Nothing is posted without tasks. */
  function SummaryOf(e: Event, tasks: map<string, Event>): Option<Summary> {
    if tasks == map[] then None else Some(Summary(e, tasks))
  }

  /** A put that finds room changes one entry. */
  lemma PutExact(before: Cache<string, RunState>, after: Cache<string, RunState>, key: string, s: RunState)
    requires Puts(before, after, key, s) && HasRoom(before, key)
    ensures after.data == before.data[key := s] && after.cap == before.cap
  {}

  /** The entries after an ungrouped event that evicts nothing. */
  ghost predicate Affects(before: Data, after: Data, e: Event) {
    && TasksAt(after, e.runId) ==
         (if e.resource.TaskRun? then TasksAt(before, e.runId)[e.runName := e]
          else if EndsRun(e) then map[] else TasksAt(before, e.runId))
    && (forall k :: k != e.runId ==> SameAt(before, after, k))
    && (e.runId in after <==> if IsStored(e) then !EndsRun(e) else e.runId in before)
  }

  /** Without eviction: what is posted, what becomes of the run, and that nothing else changes. */
  lemma SingleEffect(before: Cache<string, RunState>, mid: Cache<string, RunState>, after: Cache<string, RunState>,
                     e: Event, now: nat, post: Option<Summary>)
    requires Single(before, mid, after, e, now, post) && (IsStored(e) ==> HasRoom(before, e.runId))
    ensures post == if EndsRun(e) then SummaryOf(e, TasksAt(before.data, e.runId)) else None
    ensures Affects(before.data, after.data, e) && after.cap == before.cap
  {
    if IsStored(e) {
      PutExact(before, mid, e.runId, Updated(before.data, e.runId, e.runId, e, now));
    }
  }

  ghost predicate GroupFlush(before: Cache<string, RunState>, groups: Groups, after: Cache<string, RunState>,
                             g: string, visited: seq<string>, order: seq<RunState>)
    requires g in groups
  {
    && after.cap == before.cap && Drops(after.data, before.data, g, groups[g].Keys)
    && Visits(before.data, g, groups[g].Keys, visited, order)
  }

  /** handleGrouped: add and join, then flush and post when the event ends the last open run. */
  ghost predicate Grouped(before: Cache<string, RunState>, groups: Groups, mid: Cache<string, RunState>,
                          after: Cache<string, RunState>, e: Event, now: nat, post: Option<Summary>,
                          visited: seq<string>, order: seq<RunState>)
  {
    var g, key := e.groupId, CompositeKey(e.groupId, e.runId);
    var joined := Joined(groups, g, e.runId, e);
    && (if IsStored(e)
        then Puts(before, mid, key, Updated(before.data, key, e.runId, e, now))
        else mid == before)
    && if EndsRun(e) && Complete(joined, g)
       then
         GroupFlush(mid, joined, after, g, visited, order) && post == SummaryOf(e, Merge(order).tasks)
       else after == mid && post == None
  }

  function NextGroups(groups: Groups, e: Event): Groups {
    if !IsStored(e) then groups
    else
      var joined := Joined(groups, e.groupId, e.runId, e);
      if EndsRun(e) && Complete(joined, e.groupId) then joined - {e.groupId} else joined
  }

  /** The cache between the two halves of a call, and the order in which a group was visited. */
  datatype Step = Step(mid: Cache<string, RunState>, visited: seq<string>, order: seq<RunState>)

  ghost predicate Handles(before: Cache<string, RunState>, groups: Groups, after: Cache<string, RunState>,
                          groups': Groups, e: Event, now: nat, post: Option<Summary>, what: Step)
  {
    if e.runId == "" then after == before && groups' == groups && post == None
    else if e.groupId == "" then groups' == groups && Single(before, what.mid, after, e, now, post)
    else
      && groups' == NextGroups(groups, e)
      && Grouped(before, groups, what.mid, after, e, now, post, what.visited, what.order)
  }

  class Handler {
    const buffer: Buffer

    ghost predicate Valid()
      reads this, buffer
    {
      buffer.Valid()
    }

    constructor (maxSize: int)
      ensures Valid() && fresh(buffer) && buffer.cache.data == map[] && buffer.groups == map[]
      ensures buffer.cache.cap == if maxSize <= 0 then 1000 else maxSize
    {
      buffer := new Buffer(maxSize);
    }

    method FlushAndPost(uid: string, final: Event) returns (post: Option<Summary>)
      requires buffer.Valid()
      modifies buffer`cache
      ensures buffer.Valid() && buffer.cache.cap == old(buffer.cache.cap)
      ensures buffer.cache.data == old(buffer.cache.data) - {uid}
      ensures post == SummaryOf(final, TasksAt(old(buffer.cache.data), uid))
    {
      var state := buffer.Flush(uid);
      if state.None? || |state.value.tasks| == 0 {
        return None;
      }
      return Some(Summary(final, state.value.tasks));
    }

    method HandleSingle(e: Event, now: nat) returns (post: Option<Summary>, ghost mid: Cache<string, RunState>)
      requires buffer.Valid() && e.runId != ""
      modifies buffer`cache
      ensures buffer.Valid() && Single(old(buffer.cache), mid, buffer.cache, e, now, post)
    {
      post := None;
      if e.resource.TaskRun? || e.resource.PipelineRun? {
        buffer.Add(e.runId, e, now);
      }
      mid := buffer.cache;
      if e.resource.PipelineRun? && IsTerminal(e.state) {
        post := FlushAndPost(e.runId, e);
      }
    }

    method FlushGroupAndPost(g: string, final: Event)
      returns (post: Option<Summary>, ghost visited: seq<string>, ghost order: seq<RunState>)
      requires buffer.Valid() && g in buffer.groups
      modifies buffer
      ensures buffer.Valid() && GroupFlush(old(buffer.cache), old(buffer.groups), buffer.cache, g, visited, order)
      ensures buffer.groups == old(buffer.groups) - {g}
      ensures post == SummaryOf(final, Merge(order).tasks)
    {
      var state;
      state, visited, order := buffer.FlushGroup(g);
      post := if state.None? || |state.value.tasks| == 0 then None else Some(Summary(final, state.value.tasks));
    }

    /** The three steps of one call, when no other call comes between them. */
    method HandleGrouped(e: Event, now: nat)
      returns (post: Option<Summary>, ghost mid: Cache<string, RunState>, ghost visited: seq<string>,
               ghost order: seq<RunState>)
      requires Valid() && e.runId != "" && e.groupId != ""
      modifies buffer
      ensures Valid() && Grouped(old(buffer.cache), old(buffer.groups), mid, buffer.cache, e, now, post, visited, order)
      ensures buffer.groups == NextGroups(old(buffer.groups), e)
    {
      post, visited, order := None, [], [];
      if e.resource.TaskRun? || e.resource.PipelineRun? {
        buffer.AddWithGroup(e.groupId, e.runId, e, now);
      }
      mid := buffer.cache;
      if e.resource.PipelineRun? && IsTerminal(e.state) {
        var complete := buffer.IsGroupComplete(e.groupId);
        if complete {
          post, visited, order := FlushGroupAndPost(e.groupId, e);
        }
      }
    }

    /** Events without a run identifier are ignored. */
    method Handle(e: Event, now: nat) returns (post: Option<Summary>, ghost what: Step)
      requires Valid()
      modifies buffer
      ensures Valid() && Handles(old(buffer.cache), old(buffer.groups), buffer.cache, buffer.groups, e, now, post, what)
    {
      ghost var mid, visited, order := buffer.cache, [], [];
      post := None;
      if e.runId != "" && e.groupId != "" {
        post, mid, visited, order := HandleGrouped(e, now);
      } else if e.runId != "" {
        post, mid := HandleSingle(e, now);
      }
      what := Step(mid, visited, order);
    }
  }
}
