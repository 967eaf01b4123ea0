/** Whole event sequences, grouped and ungrouped, through the accumulator. */
module AccumulatorRuns {
  import opened Common
  import opened Domain
  import opened RunStore
  import opened Lru
  import opened GroupMerge
  import opened LruBuffer
  import opened SummarySpec
  import opened Accumulator
  import opened Silence
  import opened GroupPosts
  import opened GroupWinners
  import H = GroupHistory

  // ---- Groups ---------------------------------------------------------------------------

  function AddOf(e: Event): H.Op { H.Add(e.groupId, e.runId, e) }

  /** What one event does to the groups, as operations. */
  ghost function OpsOf(groups: Groups, e: Event): seq<H.Op> {
    if e.runId == "" || e.groupId == "" || !IsStored(e) then []
    else if EndsRun(e) && Complete(Joined(groups, e.groupId, e.runId, e), e.groupId) then [AddOf(e), H.Flush(e.groupId)]
    else [AddOf(e)]
  }

  /** One call at a time, an event flushes its group exactly when it ends a run and, counting it,
      every run added to the group since its last flush or Close has ended: no group is flushed early
      and none is kept waiting, whatever the cache has lost. Concurrent calls are the subject of
      GroupProtocol. */
  lemma FlushesIff(ops: seq<H.Op>, e: Event)
    requires e.runId != "" && e.groupId != "" && IsStored(e)
    ensures H.After(ops + OpsOf(H.After(ops), e)) == NextGroups(H.After(ops), e)
    ensures H.Flush(e.groupId) in OpsOf(H.After(ops), e) <==> EndsRun(e) && AllEnded(ops + [AddOf(e)], e.groupId)
  {
    var g, add := e.groupId, AddOf(e);
    assert ops + [add] + [H.Flush(g)] == ops + [add, H.Flush(g)];
    H.GroupCompleteIff(ops + [add], g);
    assert H.HasJoined(ops + [add], g, e.runId) by { H.HistorySnoc(ops, add, g, e.runId); }
  }

  // ---- What an event does when nothing is lost -------------------------------------------------

  ghost predicate Ungrouped(es: seq<Event>) { forall i :: 0 <= i < |es| ==> es[i].groupId == "" }

  /** Either there are no groups, or no run identifier has a colon: runs never share an entry. */
  ghost predicate Apart(es: seq<Event>) { Ungrouped(es) || forall i :: 0 <= i < |es| ==> ColonFree(es[i].runId) }

  function KeyOf(e: Event): string { CompositeKey(e.groupId, e.runId) }

  /** The keys cached after an event. */
  ghost function StepKeys(keys: set<string>, groups: Groups, e: Event): set<string> {
    if e.runId == "" || !IsStored(e) then keys
    else if e.groupId == "" then if EndsRun(e) then keys - {e.runId} else keys + {e.runId}
    else
      var joined := Joined(groups, e.groupId, e.runId, e);
      if EndsRun(e) && Complete(joined, e.groupId)
      then set k | k in keys + {KeyOf(e)} && !IsMemberKey(e.groupId, joined[e.groupId].Keys, k)
      else keys + {KeyOf(e)}
  }

  /** What the events so far say: the runs without a group, the operations on groups and what they
      leave of the groups, and the keys cached. */
  datatype Spec = Spec(runs: Runs, ops: seq<H.Op>, groups: Groups, keys: set<string>)

  const NOTHING := Spec(map[], [], map[], {})

  ghost function StepSpec(sp: Spec, e: Event): Spec {
    Spec(StepRuns(sp.runs, e), sp.ops + OpsOf(sp.groups, e),
         if e.runId == "" || e.groupId == "" then sp.groups else NextGroups(sp.groups, e),
         StepKeys(sp.keys, sp.groups, e))
  }

  ghost function SpecAfter(es: seq<Event>): Spec {
    if es == [] then NOTHING else StepSpec(SpecAfter(es[..|es| - 1]), es[|es| - 1])
  }

  lemma SpecSnoc(es: seq<Event>, k: nat)
    requires k < |es|
    ensures SpecAfter(es[..k + 1]) == StepSpec(SpecAfter(es[..k]), es[k])
  {
    assert es[..k + 1][..k] == es[..k];
  }

  /** Its operations file every event under its own run. */
  lemma {:induction false} SpecOwnEvents(es: seq<Event>)
    ensures OwnEvents(SpecAfter(es).ops)
  {
    if es != [] {
      SpecOwnEvents(es[..|es| - 1]);
    }
  }

  /** Its runs are those of the specification for ungrouped events. */
  lemma {:induction false} SpecRuns(es: seq<Event>)
    ensures SpecAfter(es).runs == RunsAfter(es)
  {
    if es != [] {
      SpecRuns(es[..|es| - 1]);
    }
  }

  /** The cached tasks of every run without a group are those of the specification. */
  ghost predicate PlainPart(apart: bool, runs: Runs, data: Data) {
    forall u :: (apart ==> ColonFree(u)) ==> TasksAt(data, u) == TasksOf(runs, u)
  }

  ghost predicate GroupPart(ops: seq<H.Op>, data: Data) { AllCached(data, ops) && H.PlainUids(H.After(ops)) }

  lemma PlainStep(c: Cache<string, RunState>, c': Cache<string, RunState>, e: Event, now: nat, post: Option<Summary>,
                  what: Step, apart: bool, runs: Runs)
    requires e.runId != "" && e.groupId == "" && Single(c, what.mid, c', e, now, post)
    requires (IsStored(e) ==> HasRoom(c, e.runId)) && (apart ==> ColonFree(e.runId)) && PlainPart(apart, runs, c.data)
    ensures PlainPart(apart, StepRuns(runs, e), c'.data) && post == StepPost(runs, e)
  {
    SingleEffect(c, what.mid, c', e, now, post);
    StepAt(runs, e, e.runId);
    forall u | apart ==> ColonFree(u) ensures TasksAt(c'.data, u) == TasksOf(StepRuns(runs, e), u) {
      StepAt(runs, e, u);
      assert u != e.runId ==> SameAt(c.data, c'.data, u);
    }
  }

  lemma PlainStepKeys(c: Cache<string, RunState>, c': Cache<string, RunState>, groups: Groups, e: Event, now: nat,
                      post: Option<Summary>, what: Step)
    requires e.runId != "" && e.groupId == "" && Single(c, what.mid, c', e, now, post)
    requires IsStored(e) ==> HasRoom(c, e.runId)
    ensures c'.data.Keys == StepKeys(c.data.Keys, groups, e) && c'.cap == c.cap
  {
    SingleEffect(c, what.mid, c', e, now, post);
    AffectedKeys(c.data, c'.data, e);
  }

  lemma AffectedKeys(before: Data, after: Data, e: Event)
    requires Affects(before, after, e)
    ensures after.Keys ==
      if !IsStored(e) then before.Keys else if EndsRun(e) then before.Keys - {e.runId} else before.Keys + {e.runId}
  {
    forall k | k != e.runId ensures k in before.Keys <==> k in after.Keys {
      assert SameAt(before, after, k);
    }
  }

  /** A grouped event, as far as runs without a group are concerned. */
  lemma GroupStepPlain(c: Cache<string, RunState>, c': Cache<string, RunState>, groups: Groups, e: Event, now: nat,
                       post: Option<Summary>, what: Step, runs: Runs)
    requires e.runId != "" && e.groupId != ""
    requires Grouped(c, groups, what.mid, c', e, now, post, what.visited, what.order)
    requires (IsStored(e) ==> HasRoom(c, KeyOf(e))) && ColonFree(e.runId)
    requires H.PlainUids(groups) && PlainPart(true, runs, c.data)
    ensures PlainPart(true, runs, c'.data)
  {
    var g := e.groupId;
    var s := Updated(c.data, KeyOf(e), e.runId, e, now);
    if IsStored(e) {
      PutExact(c, what.mid, KeyOf(e), s);
    }
    forall u | ColonFree(u) ensures SameAt(c.data, c'.data, u) {
      H.AddIsolated(c.data, groups, g, e.runId, e, s, "", u);
      var joined := Joined(groups, g, e.runId, e);
      if EndsRun(e) && Complete(joined, g) {
        H.FlushIsolated(what.mid.data, joined, c'.data, g, "", u);
      }
    }
  }

  lemma DropsKeys(now: Data, before: Data, g: string, members: set<string>)
    requires Drops(now, before, g, members)
    ensures now.Keys == set k | k in before.Keys && !IsMemberKey(g, members, k)
  {}

  lemma PutKeys(c: Cache<string, RunState>, mid: Cache<string, RunState>, key: string, s: RunState)
    requires Puts(c, mid, key, s) && HasRoom(c, key)
    ensures mid.data.Keys == c.data.Keys + {key} && mid.cap == c.cap
  {
    PutExact(c, mid, key, s);
  }

  lemma GroupStepKeys(c: Cache<string, RunState>, c': Cache<string, RunState>, groups: Groups, e: Event, now: nat,
                      post: Option<Summary>, what: Step)
    requires e.runId != "" && e.groupId != ""
    requires Grouped(c, groups, what.mid, c', e, now, post, what.visited, what.order)
    requires IsStored(e) ==> HasRoom(c, KeyOf(e))
    ensures c'.data.Keys == StepKeys(c.data.Keys, groups, e) && c'.cap == c.cap
  {
    if IsStored(e) {
      PutKeys(c, what.mid, KeyOf(e), Updated(c.data, KeyOf(e), e.runId, e, now));
      var joined := Joined(groups, e.groupId, e.runId, e);
      if EndsRun(e) && Complete(joined, e.groupId) {
        DropsKeys(c'.data, what.mid.data, e.groupId, joined[e.groupId].Keys);
      }
    }
  }

  /** A grouped event joins ... */
  lemma JoinStep(c: Cache<string, RunState>, mid: Cache<string, RunState>, ops: seq<H.Op>, e: Event, now: nat)
    requires e.groupId != "" && ColonFree(e.runId) && HasRoom(c, KeyOf(e)) && GroupPart(ops, c.data)
    requires Puts(c, mid, KeyOf(e), Updated(c.data, KeyOf(e), e.runId, e, now))
    ensures GroupPart(ops + [AddOf(e)], mid.data)
    ensures H.After(ops + [AddOf(e)]) == Joined(H.After(ops), e.groupId, e.runId, e)
  {
    PutExact(c, mid, KeyOf(e), Updated(c.data, KeyOf(e), e.runId, e, now));
    AddKeepsAll(c.data, ops, e.groupId, e.runId, e, now);
    H.AddIsolated(c.data, H.After(ops), e.groupId, e.runId, e, RunState("", map[], 0), "", "");
  }

  /** ... and its group is flushed, or not. */
  lemma FlushStep(data: Data, data': Data, ops: seq<H.Op>, g: string)
    requires GroupPart(ops, data) && g in H.After(ops) && Drops(data', data, g, H.After(ops)[g].Keys)
    ensures GroupPart(ops + [H.Flush(g)], data')
  {
    FlushKeepsAll(data, data', ops, g);
    assert forall h, u :: H.IsMember(H.After(ops) - {g}, h, u) ==> H.IsMember(H.After(ops), h, u);
  }

  /** The end of the last open run of a group; `groups` is what the history leaves. */
  lemma LastEndStep(mid: Data, after: Data, groups: Groups, ops: seq<H.Op>, e: Event,
                    visited: seq<string>, order: seq<RunState>)
    requires e.groupId != "" && EndsRun(e) && GroupPart(ops + [AddOf(e)], mid)
    requires groups == H.After(ops + [AddOf(e)]) && Complete(groups, e.groupId)
    requires Drops(after, mid, e.groupId, groups[e.groupId].Keys)
    requires Visits(mid, e.groupId, groups[e.groupId].Keys, visited, order)
    ensures GroupPart(ops + [AddOf(e), H.Flush(e.groupId)], after)
    ensures PostsAs(ops + [AddOf(e)], e, SummaryOf(e, Merge(order).tasks))
  {
    var ops' := ops + [AddOf(e)];
    FlushPosts(mid, ops', e, visited, order);
    FlushStep(mid, after, ops', e.groupId);
    assert ops' + [H.Flush(e.groupId)] == ops + [AddOf(e), H.Flush(e.groupId)];
  }

  /** Any other event of a group posts nothing. */
  lemma OpenStep(groups: Groups, ops: seq<H.Op>, e: Event)
    requires groups == H.After(ops + [AddOf(e)]) && !(EndsRun(e) && Complete(groups, e.groupId))
    ensures PostsAs(ops + [AddOf(e)], e, None)
  {
    CompleteIffEnded(ops, e);
  }

  /** A grouped event handled by itself, as far as the groups are concerned. */
  lemma GroupStep(c: Cache<string, RunState>, c': Cache<string, RunState>, groups: Groups, ops: seq<H.Op>, e: Event,
                  now: nat, post: Option<Summary>, what: Step)
    requires e.runId != "" && e.groupId != "" && IsStored(e) && groups == H.After(ops)
    requires Grouped(c, groups, what.mid, c', e, now, post, what.visited, what.order)
    requires HasRoom(c, KeyOf(e)) && ColonFree(e.runId) && GroupPart(ops, c.data)
    ensures GroupPart(ops + OpsOf(groups, e), c'.data) && PostsAs(ops + [AddOf(e)], e, post)
  {
    var groups' := Joined(groups, e.groupId, e.runId, e);
    JoinStep(c, what.mid, ops, e, now);
    if EndsRun(e) && Complete(groups', e.groupId) {
      LastEndStep(what.mid.data, c'.data, groups', ops, e, what.visited, what.order);
    } else {
      OpenStep(groups', ops, e);
    }
  }

  // ---- Whose event is listed, when the clock moves on --------------------------------------------

  /** No entry is newer than `clock`. */
  ghost predicate Aged(data: Data, clock: nat) { forall k :: k in data ==> data[k].lastUpdate <= clock }

  /** The summary of a group lists the events of the run that ended it, and those of a task that one
      run alone has; in every map order. */
  ghost predicate Settles(ops: seq<H.Op>, e: Event, post: Option<Summary>) {
    post.Some? ==> forall name, u, i :: Latest(ops, e.groupId, u, name, i) && Wins(ops, e.groupId, e.runId, u, name) ==>
      name in post.value.tasks && post.value.tasks[name] == ops[i].e
  }

  ghost predicate Wins(ops: seq<H.Op>, g: string, r: string, u: string, name: string) {
    u == r || forall v :: HoldsTask(ops, g, v, name) ==> v == u
  }

  lemma HandledAges(c: Cache<string, RunState>, groups: Groups, c': Cache<string, RunState>, groups': Groups, e: Event,
                    now: nat, post: Option<Summary>, what: Step, clock: nat)
    requires Handles(c, groups, c', groups', e, now, post, what) && Aged(c.data, clock) && clock <= now
    ensures Aged(c'.data, now)
  {
    if e.runId != "" {
      if IsStored(e) {
        PutAges(c, what.mid, KeyOf(e), Updated(c.data, KeyOf(e), e.runId, e, now), clock);
      }
      assert Aged(what.mid.data, now);
      if e.groupId != "" {
        GroupedShrinks(c, groups, what.mid, c', e, now, post, what.visited, what.order);
      }
    }
  }

  lemma GroupedShrinks(c: Cache<string, RunState>, groups: Groups, mid: Cache<string, RunState>,
                       c': Cache<string, RunState>, e: Event, now: nat, post: Option<Summary>, visited: seq<string>,
                       order: seq<RunState>)
    requires Grouped(c, groups, mid, c', e, now, post, visited, order)
    ensures Shrinks(c'.data, mid.data)
  {}

  lemma PutAges(c: Cache<string, RunState>, mid: Cache<string, RunState>, key: string, s: RunState, clock: nat)
    requires Puts(c, mid, key, s) && Aged(c.data, clock) && clock <= s.lastUpdate
    ensures Aged(mid.data, s.lastUpdate)
  {}

  lemma LastEndSettles(mid: Data, ops: seq<H.Op>, e: Event, now: nat, visited: seq<string>, order: seq<RunState>)
    requires Flushes(mid, ops, e.groupId, visited, order) && Freshest(mid, CompositeKey(e.groupId, e.runId), now)
    ensures Settles(ops, e, SummaryOf(e, Merge(order).tasks))
  {
    var g, tasks := e.groupId, Merge(order).tasks;
    forall name, u, i | Latest(ops, g, u, name, i) && Wins(ops, g, e.runId, u, name)
      ensures name in tasks && tasks[name] == ops[i].e
    {
      if u == e.runId {
        NewestRunWins(mid, ops, g, visited, order, u, now, name, i);
      } else {
        SoleRunWins(mid, ops, g, visited, order, u, name, i);
      }
    }
  }

  lemma GroupStepSettles(c: Cache<string, RunState>, c': Cache<string, RunState>, groups: Groups, ops: seq<H.Op>,
                         e: Event, now: nat, post: Option<Summary>, what: Step, clock: nat)
    requires e.runId != "" && e.groupId != "" && IsStored(e) && groups == H.After(ops)
    requires Grouped(c, groups, what.mid, c', e, now, post, what.visited, what.order)
    requires HasRoom(c, KeyOf(e)) && ColonFree(e.runId) && GroupPart(ops, c.data) && Aged(c.data, clock) && clock < now
    ensures Settles(ops + [AddOf(e)], e, post)
  {
    var groups' := Joined(groups, e.groupId, e.runId, e);
    JoinStep(c, what.mid, ops, e, now);
    if EndsRun(e) && Complete(groups', e.groupId) {
      LastEndSettles(what.mid.data, ops + [AddOf(e)], e, now, what.visited, what.order);
    }
  }

  /** When the whole summary does not depend on map order. */
  lemma GroupOrderFreeIff(c: Cache<string, RunState>, mid: Cache<string, RunState>, ops: seq<H.Op>, e: Event, now: nat,
                          clock: nat)
    requires e.groupId != "" && ColonFree(e.runId) && HasRoom(c, KeyOf(e)) && GroupPart(ops, c.data)
    requires Puts(c, mid, KeyOf(e), Updated(c.data, KeyOf(e), e.runId, e, now))
    requires Aged(c.data, clock) && clock < now && OwnEvents(ops)
    ensures e.groupId in H.After(ops + [AddOf(e)])
    ensures OrderFree(mid.data, e.groupId, H.After(ops + [AddOf(e)])[e.groupId].Keys) <==>
      Uncontested(ops + [AddOf(e)], e.groupId, e.runId)
  {
    var ops' := ops + [AddOf(e)];
    JoinStep(c, mid, ops, e, now);
    H.HistorySnoc(ops, AddOf(e), e.groupId, e.runId);
    assert OwnEvents(ops');
    OrderFreeIff(mid.data, ops', e.groupId, e.runId, now);
  }

  lemma CompleteIffEnded(ops: seq<H.Op>, e: Event)
    ensures Complete(H.After(ops + [AddOf(e)]), e.groupId) <==> AllEnded(ops + [AddOf(e)], e.groupId)
  {
    H.GroupCompleteIff(ops + [AddOf(e)], e.groupId);
    H.HistorySnoc(ops, AddOf(e), e.groupId, e.runId);
  }

  // ---- The run of a handler ----------------------------------------------------------------

  /** The event finds its run cached or room for it. */
  ghost predicate RoomFor(sp: Spec, e: Event, cap: nat) {
    e.runId != "" && IsStored(e) ==> KeyOf(e) in sp.keys || |sp.keys| < cap
  }

  /** What an event posts: at a run's end its tasks, at a group's end those of the group. */
  ghost predicate PostOk(sp: Spec, e: Event, post: Option<Summary>) {
    if e.groupId == "" || e.runId == "" then post == StepPost(sp.runs, e)
    else PostsAs(sp.ops + [AddOf(e)], e, post)
  }

  /** The cache and the groups are what the events say; `mixed` when there are groups. */
  ghost predicate Tracks(mixed: bool, sp: Spec, c: Cache<string, RunState>, groups: Groups, cap: nat) {
    && c.cap == cap && c.data.Keys == sp.keys && groups == sp.groups
    && PlainPart(mixed, sp.runs, c.data)
    && (mixed ==> sp.groups == H.After(sp.ops) && GroupPart(sp.ops, c.data))
  }

  /** An event that may occur: without groups any ungrouped one, with groups any colon-free run. */
  predicate Fits(mixed: bool, e: Event) { if mixed then ColonFree(e.runId) else e.groupId == "" }

  lemma TracksPlain(mixed: bool, sp: Spec, e: Event, c: Cache<string, RunState>, c': Cache<string, RunState>,
                    groups: Groups, now: nat, post: Option<Summary>, what: Step, cap: nat)
    requires Fits(mixed, e) && Tracks(mixed, sp, c, groups, cap) && RoomFor(sp, e, cap)
    requires e.runId != "" && e.groupId == "" && Single(c, what.mid, c', e, now, post)
    ensures Tracks(mixed, StepSpec(sp, e), c', groups, cap) && PostOk(sp, e, post)
  {
    PlainStep(c, c', e, now, post, what, mixed, sp.runs);
    PlainStepKeys(c, c', groups, e, now, post, what);
    if mixed {
      SingleEffect(c, what.mid, c', e, now, post);
      PlainKeepsAll(c.data, c'.data, sp.ops, e.runId);
      assert sp.ops + [] == sp.ops;
    }
  }

  lemma TracksGrouped(sp: Spec, e: Event, c: Cache<string, RunState>, c': Cache<string, RunState>, groups: Groups,
                      now: nat, post: Option<Summary>, what: Step, cap: nat)
    requires Fits(true, e) && Tracks(true, sp, c, groups, cap) && RoomFor(sp, e, cap)
    requires e.runId != "" && e.groupId != ""
    requires Grouped(c, groups, what.mid, c', e, now, post, what.visited, what.order)
    ensures Tracks(true, StepSpec(sp, e), c', NextGroups(groups, e), cap) && PostOk(sp, e, post)
  {
    GroupStepPlain(c, c', groups, e, now, post, what, sp.runs);
    GroupStepKeys(c, c', groups, e, now, post, what);
    if IsStored(e) {
      GroupStep(c, c', groups, sp.ops, e, now, post, what);
      FlushesIff(sp.ops, e);
    } else {
      assert sp.ops + [] == sp.ops;
    }
  }

  lemma TracksNext(mixed: bool, sp: Spec, e: Event, c: Cache<string, RunState>, c': Cache<string, RunState>,
                   groups: Groups, groups': Groups, now: nat, post: Option<Summary>, what: Step, cap: nat)
    requires Fits(mixed, e) && Tracks(mixed, sp, c, groups, cap) && RoomFor(sp, e, cap)
    requires Handles(c, groups, c', groups', e, now, post, what)
    ensures Tracks(mixed, StepSpec(sp, e), c', groups', cap) && PostOk(sp, e, post)
  {
    if e.runId == "" {
      assert sp.ops + [] == sp.ops;
    } else if e.groupId == "" {
      TracksPlain(mixed, sp, e, c, c', groups, now, post, what, cap);
    } else {
      TracksGrouped(sp, e, c, c', groups, now, post, what, cap);
    }
  }

  ghost predicate SettledOk(sp: Spec, e: Event, post: Option<Summary>) {
    e.groupId != "" && e.runId != "" ==> Settles(sp.ops + [AddOf(e)], e, post)
  }

  lemma SettlesNext(sp: Spec, e: Event, c: Cache<string, RunState>, c': Cache<string, RunState>, groups: Groups,
                    groups': Groups, now: nat, post: Option<Summary>, what: Step, cap: nat, clock: nat)
    requires Fits(true, e) && Tracks(true, sp, c, groups, cap) && RoomFor(sp, e, cap)
    requires Handles(c, groups, c', groups', e, now, post, what) && Aged(c.data, clock) && clock < now
    ensures SettledOk(sp, e, post)
  {
    if e.groupId != "" && e.runId != "" && IsStored(e) {
      GroupStepSettles(c, c', groups, sp.ops, e, now, post, what, clock);
    }
  }

  /** Nothing expires and nothing is evicted. */
  ghost predicate Lossless(es: seq<Event>, cap: nat, expired: seq<seq<string>>) {
    && (forall k :: 0 <= k < |es| ==> RoomAt(es, k, cap))
    && (forall i :: 0 <= i < |expired| ==> expired[i] == [])
  }

  ghost predicate RoomAt(es: seq<Event>, k: nat, cap: nat)
    requires k < |es|
  {
    RoomFor(SpecAfter(es[..k]), es[k], cap)
  }

  ghost predicate PostAtOk(es: seq<Event>, k: nat, post: Option<Summary>)
    requires k < |es|
  {
    PostOk(SpecAfter(es[..k]), es[k], post)
  }

  ghost predicate AllOk(es: seq<Event>, posts: seq<Option<Summary>>)
    requires |posts| <= |es|
  {
    forall i :: 0 <= i < |posts| ==> PostAtOk(es, i, posts[i])
  }

  ghost predicate SettledAt(es: seq<Event>, k: nat, post: Option<Summary>)
    requires k < |es|
  {
    SettledOk(SpecAfter(es[..k]), es[k], post)
  }

  ghost predicate AllSettled(es: seq<Event>, posts: seq<Option<Summary>>)
    requires |posts| <= |es|
  {
    forall i :: 0 <= i < |posts| ==> SettledAt(es, i, posts[i])
  }

  /** Every event is later than the one before. */
  ghost predicate Ticking(times: seq<nat>) {
    (forall i :: 0 <= i < |times| ==> times[i] > 0) && forall i, j :: 0 <= i < j < |times| ==> times[i] < times[j]
  }

  /** The time of the last event before `k`. */
  function ClockAt(times: seq<nat>, k: nat): nat
    requires k <= |times|
  {
    if k == 0 then 0 else times[k - 1]
  }

  /** At ungrouped events these are the posts of the specification. */
  lemma PlainPostsAreSpecified(es: seq<Event>, posts: seq<Option<Summary>>, k: nat)
    requires |posts| == |es| && AllOk(es, posts) && k < |es| && es[k].groupId == ""
    ensures |Posts(es)| == |es| && posts[k] == Posts(es)[k]
  {
    PostAt(es, k);
    SpecRuns(es[..k]);
    assert PostAtOk(es, k, posts[k]);
  }

  ghost predicate Silent(posts: seq<Option<Summary>>) { forall i :: 0 <= i < |posts| ==> posts[i].None? }

  lemma ExactNext(es: seq<Event>, k: nat, sp: Spec, c: Cache<string, RunState>, c': Cache<string, RunState>,
                  groups: Groups, groups': Groups, now: nat, posts: seq<Option<Summary>>, post: Option<Summary>,
                  what: Step, cap: nat)
    requires k == |posts| < |es| && sp == SpecAfter(es[..k]) && Apart(es) && RoomAt(es, k, cap)
    requires Tracks(!Ungrouped(es), sp, c, groups, cap) && AllOk(es, posts)
    requires Handles(c, groups, c', groups', es[k], now, post, what)
    ensures Tracks(!Ungrouped(es), StepSpec(sp, es[k]), c', groups', cap) && AllOk(es, posts + [post])
  {
    TracksNext(!Ungrouped(es), sp, es[k], c, c', groups, groups', now, post, what, cap);
    AllOkSnoc(es, posts, post);
  }

  lemma AllOkSnoc(es: seq<Event>, posts: seq<Option<Summary>>, post: Option<Summary>)
    requires |posts| < |es| && AllOk(es, posts) && PostAtOk(es, |posts|, post)
    ensures AllOk(es, posts + [post])
  {
    var all := posts + [post];
    forall i | 0 <= i < |all| ensures PostAtOk(es, i, all[i]) {
      if i < |posts| {
        assert all[i] == posts[i] && PostAtOk(es, i, posts[i]);
      } else {
        assert i == |posts| && all[i] == post;
      }
    }
  }

  method ExpireAll(buffer: Buffer, keys: seq<string>)
    requires buffer.Valid()
    modifies buffer`cache
    ensures buffer.Valid() && buffer.cache.cap == old(buffer.cache.cap)
    ensures Shrinks(buffer.cache.data, old(buffer.cache.data))
    ensures keys == [] ==> buffer.cache == old(buffer.cache)
  {
    for i := 0 to |keys|
      invariant buffer.Valid() && buffer.cache.cap == old(buffer.cache.cap)
      invariant Shrinks(buffer.cache.data, old(buffer.cache.data))
      invariant i == 0 ==> buffer.cache == old(buffer.cache)
    {
      buffer.Expire(keys[i]);
    }
  }

  /** What a moving clock adds. */
  ghost predicate Clocked(es: seq<Event>, times: seq<nat>, k: nat, c: Cache<string, RunState>,
                          posts: seq<Option<Summary>>)
    requires |times| == |es|
  {
    k == |posts| <= |es| && Aged(c.data, ClockAt(times, k)) && AllSettled(es, posts)
  }

  lemma ClockedNext(es: seq<Event>, times: seq<nat>, k: nat, sp: Spec, c: Cache<string, RunState>,
                    c': Cache<string, RunState>, groups: Groups, groups': Groups, posts: seq<Option<Summary>>,
                    post: Option<Summary>, what: Step, cap: nat)
    requires |times| == |es| && k < |es| && Ticking(times) && Clocked(es, times, k, c, posts)
    requires sp == SpecAfter(es[..k]) && Apart(es) && RoomAt(es, k, cap) && Tracks(!Ungrouped(es), sp, c, groups, cap)
    requires Handles(c, groups, c', groups', es[k], times[k], post, what)
    ensures Clocked(es, times, k + 1, c', posts + [post])
  {
    var clock := ClockAt(times, k);
    HandledAges(c, groups, c', groups', es[k], times[k], post, what, clock);
    if !Ungrouped(es) {
      SettlesNext(sp, es[k], c, c', groups, groups', times[k], post, what, cap, clock);
    }
    assert SettledAt(es, k, post);
    AllSettledSnoc(es, posts, post);
  }

  lemma AllSettledSnoc(es: seq<Event>, posts: seq<Option<Summary>>, post: Option<Summary>)
    requires |posts| < |es| && AllSettled(es, posts) && SettledAt(es, |posts|, post)
    ensures AllSettled(es, posts + [post])
  {
    var all := posts + [post];
    forall i | 0 <= i < |all| ensures SettledAt(es, i, all[i]) {
      if i < |posts| {
        assert all[i] == posts[i] && SettledAt(es, i, posts[i]);
      } else {
        assert i == |posts| && all[i] == post;
      }
    }
  }

  /** The invariant of the whole run; `sp` stands for the events before `k`. */
  ghost predicate Steady(es: seq<Event>, times: seq<nat>, k: nat, sp: Spec, c: Cache<string, RunState>, groups: Groups,
                         posts: seq<Option<Summary>>, exact: bool, cap: nat)
    requires |times| == |es|
  {
    && |posts| == k <= |es| && sp == SpecAfter(es[..k])
    && (exact ==> Tracks(!Ungrouped(es), sp, c, groups, cap) && AllOk(es, posts))
    && (exact && Ticking(times) ==> Clocked(es, times, k, c, posts))
    && (OwnIds(es) ==> Attributed(c.data, groups, TaskIds(es), PipelineIds(es)) && Silent(posts))
  }

  lemma SteadyNext(es: seq<Event>, times: seq<nat>, k: nat, sp: Spec, d: Cache<string, RunState>,
                   c: Cache<string, RunState>, c': Cache<string, RunState>, groups: Groups, groups': Groups,
                   posts: seq<Option<Summary>>, post: Option<Summary>, what: Step, exact: bool, cap: nat)
    requires |times| == |es| && k < |es| && Steady(es, times, k, sp, d, groups, posts, exact, cap)
    requires Shrinks(c.data, d.data) && (exact ==> Apart(es) && c == d && RoomAt(es, k, cap))
    requires Handles(c, groups, c', groups', es[k], times[k], post, what)
    ensures Steady(es, times, k + 1, StepSpec(sp, es[k]), c', groups', posts + [post], exact, cap)
  {
    SpecSnoc(es, k);
    if exact {
      ExactNext(es, k, sp, c, c', groups, groups', times[k], posts, post, what, cap);
      if Ticking(times) {
        ClockedNext(es, times, k, sp, c, c', groups, groups', posts, post, what, cap);
      }
    }
    if OwnIds(es) {
      var t, p := TaskIds(es), PipelineIds(es);
      ShrinkKeepsAttributed(c.data, d.data, groups, groups, t, p);
      StaysSilent(c, groups, c', groups', es[k], times[k], post, what, t, p);
    }
  }

  /** Some entries expire, then one event is handled. */
  method HandleNext(h: Handler, e: Event, now: nat, expired: seq<string>)
    returns (post: Option<Summary>, ghost c: Cache<string, RunState>, ghost what: Step)
    requires h.Valid()
    modifies h.buffer
    ensures h.Valid() && Shrinks(c.data, old(h.buffer.cache.data)) && (expired == [] ==> c == old(h.buffer.cache))
    ensures Handles(c, old(h.buffer.groups), h.buffer.cache, h.buffer.groups, e, now, post, what)
  {
    ExpireAll(h.buffer, expired);
    c := h.buffer.cache;
    post, what := h.Handle(e, now);
  }

  /** All events, one call at a time, with any entries expiring before each of them.

      With nothing lost and runs that cannot share entries, every post is as specified: a run's
      summary at its end, a group's at the end of its last open run; and with a clock that moves on,
      a group's summary lists the events of the run that ended it. Whatever is lost, if no identifier
      is shared by task and pipeline events there is no post at all. */
  method HandleAll(es: seq<Event>, times: seq<nat>, expired: seq<seq<string>>, maxSize: int)
    returns (posts: seq<Option<Summary>>)
    requires |times| == |expired| == |es|
    ensures |posts| == |es|
    ensures Apart(es) && Lossless(es, if maxSize <= 0 then 1000 else maxSize, expired) ==>
      AllOk(es, posts) && (Ticking(times) ==> AllSettled(es, posts))
    ensures OwnIds(es) ==> Silent(posts)
  {
    var h := new Handler(maxSize);
    posts := [];
    ghost var cap := h.buffer.cache.cap;
    ghost var exact := Apart(es) && Lossless(es, cap, expired);
    ghost var sp := NOTHING;
    for k := 0 to |es|
      invariant h.Valid() && fresh(h.buffer)
      invariant Steady(es, times, k, sp, h.buffer.cache, h.buffer.groups, posts, exact, cap)
    {
      ghost var d, g := h.buffer.cache, h.buffer.groups;
      assert exact ==> RoomAt(es, k, cap);
      var post; ghost var c, what;
      post, c, what := HandleNext(h, es[k], times[k], expired[k]);
      SteadyNext(es, times, k, sp, d, c, h.buffer.cache, g, h.buffer.groups, posts, post, what, exact, cap);
      posts, sp := posts + [post], StepSpec(sp, es[k]);
    }
  }
}
