/** Concurrent callers of the grouped path (internal/accumulator/handler.go:86-103).

    AddWithGroup, IsGroupComplete and FlushGroup lock the buffer one after the other
    (internal/accumulator/buffer.go:135-223), so each is a step of its own and other callers can come
    between them. Nothing is evicted or expires here. */
module GroupProtocol {
  import opened Common
  import opened Domain
  import opened Lru
  import opened GroupMerge
  import opened LruBuffer
  import opened SummarySpec
  import opened Accumulator
  import opened GroupPosts
  import H = GroupHistory

  /** Where a caller stands inside handleGrouped; `at` is when it found the group complete. */
  datatype Pc = Idle | Added(e: Event) | Tested(e: Event, at: nat)

  /** One call of FlushGroup: the event it was made for, when the group was found complete, when it
      was flushed, and what was posted. */
  datatype Flushed = Flushed(e: Event, testedAt: nat, at: nat, post: Option<Summary>)

  datatype World = World(data: Data, ops: seq<H.Op>, pcs: map<nat, Pc>, flushes: seq<Flushed>)

  const START := World(map[], [], map[], [])

  datatype Label =
    | Add(c: nat, e: Event, now: nat)
    | Test(c: nat)
    | Flush(c: nat, visited: seq<string>, order: seq<RunState>)
    | Close

  function PcOf(pcs: map<nat, Pc>, c: nat): Pc { if c in pcs then pcs[c] else Idle }

  function Move(pcs: map<nat, Pc>, c: nat, pc: Pc): (r: map<nat, Pc>)
    ensures forall d: nat :: PcOf(r, d) == if d == c then pc else PcOf(pcs, d)
  {
    pcs[c := pc]
  }

  function MembersOf(ops: seq<H.Op>, g: string): set<string> {
    if g in H.After(ops) then H.After(ops)[g].Keys else {}
  }

  ghost predicate Enabled(w: World, l: Label) {
    match l
    case Add(c, e, _) => PcOf(w.pcs, c).Idle? && e.runId != "" && e.groupId != "" && IsStored(e)
    case Test(c) => PcOf(w.pcs, c).Added?
    case Flush(c, visited, order) =>
      && PcOf(w.pcs, c).Tested?
      && var g := PcOf(w.pcs, c).e.groupId; Visits(w.data, g, MembersOf(w.ops, g), visited, order)
    case Close => true
  }

  function AddStep(w: World, c: nat, e: Event, now: nat): World {
    var key := CompositeKey(e.groupId, e.runId);
    World(w.data[key := Updated(w.data, key, e.runId, e, now)], w.ops + [H.Add(e.groupId, e.runId, e)],
          Move(w.pcs, c, if EndsRun(e) then Added(e) else Idle), w.flushes)
  }

  function TestStep(w: World, c: nat, e: Event): World {
    w.(pcs := Move(w.pcs, c, if Complete(H.After(w.ops), e.groupId) then Tested(e, |w.ops|) else Idle))
  }

  function FlushStep(w: World, c: nat, e: Event, testedAt: nat, order: seq<RunState>): World {
    var g := e.groupId;
    World(Dropped(w.data, g, MembersOf(w.ops, g)), w.ops + [H.Flush(g)], Move(w.pcs, c, Idle),
          w.flushes + [Flushed(e, testedAt, |w.ops|, SummaryOf(e, Merge(order).tasks))])
  }

  function Dropped(data: Data, g: string, members: set<string>): Data {
    map k | k in data && !IsMemberKey(g, members, k) :: data[k]
  }

  ghost function Next(w: World, l: Label): World
    requires Enabled(w, l)
  {
    match l
    case Add(c, e, now) => AddStep(w, c, e, now)
    case Test(c) => TestStep(w, c, PcOf(w.pcs, c).e)
    case Flush(c, _, order) => FlushStep(w, c, PcOf(w.pcs, c).e, PcOf(w.pcs, c).at, order)
    case Close => World(map[], w.ops + [H.Close], w.pcs, w.flushes)
  }

  /** An interleaving: its steps and the states between them. */
  datatype Trace = Trace(steps: seq<Label>, worlds: seq<World>)

  ghost predicate StepAt(t: Trace, n: int)
    requires |t.worlds| == |t.steps| + 1
  {
    0 <= n < |t.steps| ==> Enabled(t.worlds[n], t.steps[n]) && t.worlds[n + 1] == Next(t.worlds[n], t.steps[n])
  }

  ghost predicate IsTrace(t: Trace) {
    |t.worlds| == |t.steps| + 1 && t.worlds[0] == START && forall n :: StepAt(t, n)
  }

  /** All run identifiers are free of colons. */
  ghost predicate IsPlain(t: Trace) {
    forall n :: 0 <= n < |t.steps| && t.steps[n].Add? ==> ColonFree(t.steps[n].e.runId)
  }

  // ---- What every step keeps ----------------------------------------------------------------

  /** The group was complete when the caller looked. */
  ghost predicate WasComplete(ops: seq<H.Op>, e: Event, at: nat) {
    at <= |ops| && EndsRun(e) && Complete(H.After(ops[..at]), e.groupId)
  }

  ghost predicate TestedFirst(ops: seq<H.Op>, f: Flushed) {
    f.testedAt <= f.at < |ops| && ops[f.at] == H.Flush(f.e.groupId) && WasComplete(ops[..f.at], f.e, f.testedAt)
  }

  ghost predicate Tests(ops: seq<H.Op>, pcs: map<nat, Pc>, flushes: seq<Flushed>) {
    && (forall c :: PcOf(pcs, c).Added? ==> EndsRun(PcOf(pcs, c).e))
    && (forall c :: PcOf(pcs, c).Tested? ==> WasComplete(ops, PcOf(pcs, c).e, PcOf(pcs, c).at))
    && (forall i :: 0 <= i < |flushes| ==> TestedFirst(ops, flushes[i]))
  }

  lemma StillComplete(ops: seq<H.Op>, op: H.Op, e: Event, at: nat)
    requires WasComplete(ops, e, at)
    ensures WasComplete(ops + [op], e, at)
  {
    assert (ops + [op])[..at] == ops[..at];
  }

  lemma StillTested(ops: seq<H.Op>, op: H.Op, f: Flushed)
    requires TestedFirst(ops, f)
    ensures TestedFirst(ops + [op], f)
  {
    assert (ops + [op])[..f.at] == ops[..f.at] && (ops + [op])[f.at] == ops[f.at];
  }

  lemma TestsGrow(ops: seq<H.Op>, op: H.Op, pcs: map<nat, Pc>, flushes: seq<Flushed>)
    requires Tests(ops, pcs, flushes)
    ensures Tests(ops + [op], pcs, flushes)
  {
    forall c | PcOf(pcs, c).Tested? ensures WasComplete(ops + [op], PcOf(pcs, c).e, PcOf(pcs, c).at) {
      StillComplete(ops, op, PcOf(pcs, c).e, PcOf(pcs, c).at);
    }
    forall i | 0 <= i < |flushes| ensures TestedFirst(ops + [op], flushes[i]) {
      StillTested(ops, op, flushes[i]);
    }
  }

  lemma TestsMove(ops: seq<H.Op>, pcs: map<nat, Pc>, flushes: seq<Flushed>, c: nat, pc: Pc)
    requires Tests(ops, pcs, flushes) && (pc.Added? ==> EndsRun(pc.e)) && (pc.Tested? ==> WasComplete(ops, pc.e, pc.at))
    ensures Tests(ops, Move(pcs, c, pc), flushes)
  {}

  lemma FlushTests(w: World, c: nat, order: seq<RunState>)
    requires Tests(w.ops, w.pcs, w.flushes) && PcOf(w.pcs, c).Tested?
    ensures var w' := FlushStep(w, c, PcOf(w.pcs, c).e, PcOf(w.pcs, c).at, order); Tests(w'.ops, w'.pcs, w'.flushes)
  {
    var Tested(e, at) := PcOf(w.pcs, c);
    var ops := w.ops + [H.Flush(e.groupId)];
    TestsGrow(w.ops, H.Flush(e.groupId), w.pcs, w.flushes);
    TestsMove(ops, w.pcs, w.flushes, c, Idle);
    var f := Flushed(e, at, |w.ops|, SummaryOf(e, Merge(order).tasks));
    assert ops[..|w.ops|] == w.ops;
    assert TestedFirst(ops, f);
  }

  lemma TestsNext(w: World, l: Label)
    requires Tests(w.ops, w.pcs, w.flushes) && Enabled(w, l)
    ensures var w' := Next(w, l); Tests(w'.ops, w'.pcs, w'.flushes)
  {
    match l
    case Add(c, e, now) =>
      var op := H.Add(e.groupId, e.runId, e);
      TestsGrow(w.ops, op, w.pcs, w.flushes);
      TestsMove(w.ops + [op], w.pcs, w.flushes, c, if EndsRun(e) then Added(e) else Idle);
    case Test(c) =>
      var e := PcOf(w.pcs, c).e;
      assert w.ops[..|w.ops|] == w.ops;
      TestsMove(w.ops, w.pcs, w.flushes, c, if Complete(H.After(w.ops), e.groupId) then Tested(e, |w.ops|) else Idle);
    case Flush(c, visited, order) =>
      FlushTests(w, c, order);
    case Close =>
      TestsGrow(w.ops, H.Close, w.pcs, w.flushes);
  }

  lemma {:induction false} TraceTests(t: Trace, n: nat)
    requires IsTrace(t) && n < |t.worlds|
    ensures Tests(t.worlds[n].ops, t.worlds[n].pcs, t.worlds[n].flushes)
  {
    if n > 0 {
      TraceTests(t, n - 1);
      assert StepAt(t, n - 1);
      TestsNext(t.worlds[n - 1], t.steps[n - 1]);
    }
  }

  // ---- What the callers did, read off the steps ----------------------------------------------

  /** The event caller `c` added last. */
  function LastAdded(steps: seq<Label>, c: nat): Option<Event> {
    if steps == [] then None else
    var l := steps[|steps| - 1];
    if l.Add? && l.c == c then Some(l.e) else LastAdded(steps[..|steps| - 1], c)
  }

  /** What one step does to the buffer: an add adds the caller's own event to its group and run, a
      flush flushes the group of the event the caller added last. */
  ghost predicate Does(l: Label, last: Option<Event>, ops: seq<H.Op>, ops': seq<H.Op>) {
    match l
    case Add(_, e, _) => ops' == ops + [H.Add(e.groupId, e.runId, e)]
    case Test(_) => ops' == ops
    case Flush(_, _, _) => last.Some? && ops' == ops + [H.Flush(last.value.groupId)]
    case Close => ops' == ops + [H.Close]
  }

  lemma StepKeepsEvent(w: World, l: Label, c: nat)
    requires Enabled(w, l) && !PcOf(Next(w, l).pcs, c).Idle?
    ensures if l.Add? && l.c == c then PcOf(Next(w, l).pcs, c).e == l.e
            else !PcOf(w.pcs, c).Idle? && PcOf(Next(w, l).pcs, c).e == PcOf(w.pcs, c).e
  {}

  lemma {:induction false} BusyWithLast(t: Trace, n: nat, c: nat)
    requires IsTrace(t) && n <= |t.steps| && !PcOf(t.worlds[n].pcs, c).Idle?
    ensures LastAdded(t.steps[..n], c) == Some(PcOf(t.worlds[n].pcs, c).e)
  {
    assert n > 0;
    assert StepAt(t, n - 1);
    var l := t.steps[n - 1];
    PrefixSnoc(t.steps, n - 1);
    StepKeepsEvent(t.worlds[n - 1], l, c);
    if !(l.Add? && l.c == c) {
      BusyWithLast(t, n - 1, c);
    }
  }

  /** In every interleaving the operations on the buffer are those the steps call for, and each flush
      is recorded with the event its caller added. */
  lemma OperationsAreOfSteps(t: Trace, n: nat)
    requires IsTrace(t) && n < |t.steps|
    ensures var l, w, w' := t.steps[n], t.worlds[n], t.worlds[n + 1];
      && Does(l, if l.Flush? then LastAdded(t.steps[..n], l.c) else None, w.ops, w'.ops)
      && (!l.Flush? ==> w'.flushes == w.flushes)
      && (l.Flush? ==> |w'.flushes| == |w.flushes| + 1 && w'.flushes[..|w.flushes|] == w.flushes)
      && (l.Flush? ==> Some(w'.flushes[|w.flushes|].e) == LastAdded(t.steps[..n], l.c))
  {
    assert StepAt(t, n);
    if t.steps[n].Flush? {
      BusyWithLast(t, n, t.steps[n].c);
    }
  }

  /** A caller whose event ends its run looks at the group next, and flushes it exactly when it then
      finds the group complete. */
  lemma CallerGoesOn(t: Trace, n: nat)
    requires IsTrace(t) && n < |t.steps|
    ensures var l, w, w' := t.steps[n], t.worlds[n], t.worlds[n + 1];
      && (l.Add? ==> (PcOf(w'.pcs, l.c).Added? <==> EndsRun(l.e)) && !PcOf(w'.pcs, l.c).Tested?)
      && (l.Test? ==> var e := LastAdded(t.steps[..n], l.c);
            && e.Some? && !PcOf(w'.pcs, l.c).Added?
            && (PcOf(w'.pcs, l.c).Tested? <==> Complete(H.After(w.ops), e.value.groupId)))
      && (l.Flush? ==> PcOf(w'.pcs, l.c).Idle?)
  {
    assert StepAt(t, n);
    if t.steps[n].Test? {
      BusyWithLast(t, n, t.steps[n].c);
    }
  }

  // ---- When a flush is early ----------------------------------------------------------------

  /** Something has joined the group and not all of it has ended. */
  ghost predicate Open(ops: seq<H.Op>, g: string) {
    (exists u :: H.HasJoined(ops, g, u)) && !Complete(H.After(ops), g)
  }

  /** Run `u` joined between `from` and now, and has not ended. */
  ghost predicate JoinedOpen(ops: seq<H.Op>, g: string, from: nat, u: string, i: int) {
    from <= i && H.Joins(ops, g, u, i) && !H.HasEnded(ops, g, u)
  }

  /** What had ended by `p` has ended, as long as the group was not reset. */
  lemma EndsPersist(ops: seq<H.Op>, p: nat, g: string, u: string, i: int)
    requires p <= |ops| && H.Joins(ops, g, u, i) && i < p && H.HasEnded(ops[..p], g, u)
    ensures H.HasEnded(ops, g, u) || exists k :: p <= k < |ops| && H.Resets(ops[k], g)
  {
    var j :| H.Joins(ops[..p], g, u, j) && EndsRun(ops[..p][j].e);
    if forall k :: p <= k < |ops| ==> !H.Resets(ops[k], g) {
      assert forall k :: 0 <= k < p ==> ops[..p][k] == ops[k];
      assert H.Joins(ops, g, u, j);
    }
  }

  lemma JoinsBefore(ops: seq<H.Op>, p: nat, g: string, u: string, i: int)
    requires p <= |ops| && H.Joins(ops, g, u, i) && i < p
    ensures H.Joins(ops[..p], g, u, i) && forall k :: p <= k < |ops| ==> !H.Resets(ops[k], g)
  {
    assert forall k :: 0 <= k < p ==> ops[..p][k] == ops[k];
  }

  /** A group found complete at `p` is open later if and only if a run has joined it since that has
      not ended. */
  lemma OpenIff(ops: seq<H.Op>, p: nat, g: string)
    requires p <= |ops| && Complete(H.After(ops[..p]), g)
    ensures Open(ops, g) <==> exists u, i :: JoinedOpen(ops, g, p, u, i)
  {
    H.GroupCompleteIff(ops[..p], g);
    H.GroupCompleteIff(ops, g);
    if Open(ops, g) {
      var u :| H.HasJoined(ops, g, u) && !H.HasEnded(ops, g, u);
      var i :| H.Joins(ops, g, u, i);
      if i < p {
        JoinsBefore(ops, p, g, u, i);
        assert H.HasJoined(ops[..p], g, u);
        EndsPersist(ops, p, g, u, i);
        assert false;
      }
      assert JoinedOpen(ops, g, p, u, i);
    }
    if u, i :| JoinedOpen(ops, g, p, u, i) {
      assert H.HasJoined(ops, g, u);
    }
  }

  /** The flush `f` was early: its group was open again. */
  ghost predicate IsEarly(ops: seq<H.Op>, f: Flushed)
    requires f.at <= |ops|
  {
    Open(ops[..f.at], f.e.groupId)
  }

  /** In every interleaving a group is flushed early if and only if a run joined it between the
      caller's test and its flush and has not ended; so a caller that is left alone between its
      steps never flushes early. */
  lemma EarlyIff(t: Trace, n: nat, i: nat)
    requires IsTrace(t) && n < |t.worlds| && i < |t.worlds[n].flushes|
    ensures var ops, f := t.worlds[n].ops, t.worlds[n].flushes[i];
      && f.testedAt <= f.at < |ops|
      && (IsEarly(ops, f) <==> exists u, k :: JoinedOpen(ops[..f.at], f.e.groupId, f.testedAt, u, k))
      && (f.testedAt == f.at ==> !IsEarly(ops, f))
  {
    TraceTests(t, n);
    var ops, f := t.worlds[n].ops, t.worlds[n].flushes[i];
    assert TestedFirst(ops, f);
    OpenIff(ops[..f.at], f.testedAt, f.e.groupId);
  }

  // ---- What a flush posts -------------------------------------------------------------------

  /** The summary lists the tasks seen in the group since its last flush, up to this one. */
  ghost predicate PostsAll(ops: seq<H.Op>, f: Flushed) {
    && f.at <= |ops|
    && (f.post.Some? <==> exists name :: HasTask(ops[..f.at], f.e.groupId, name))
    && (f.post.Some? ==> f.post.value.final == f.e && Merges(ops[..f.at], f.e.groupId, f.post.value.tasks))
  }

  /** The cache holds what the operations say. */
  ghost predicate Mirrors(data: Data, ops: seq<H.Op>) { AllCached(data, ops) && H.PlainUids(H.After(ops)) }

  ghost predicate Posts(ops: seq<H.Op>, flushes: seq<Flushed>) {
    forall i :: 0 <= i < |flushes| ==> PostsAll(ops, flushes[i])
  }

  lemma PostsGrow(ops: seq<H.Op>, op: H.Op, flushes: seq<Flushed>)
    requires Posts(ops, flushes)
    ensures Posts(ops + [op], flushes)
  {
    forall i | 0 <= i < |flushes| ensures PostsAll(ops + [op], flushes[i]) {
      assert PostsAll(ops, flushes[i]);
      assert (ops + [op])[..flushes[i].at] == ops[..flushes[i].at];
    }
  }

  lemma AddMirrors(data: Data, ops: seq<H.Op>, e: Event, now: nat)
    requires Mirrors(data, ops) && e.groupId != "" && ColonFree(e.runId)
    ensures var key := CompositeKey(e.groupId, e.runId);
      Mirrors(data[key := Updated(data, key, e.runId, e, now)], ops + [H.Add(e.groupId, e.runId, e)])
  {
    AddKeepsAll(data, ops, e.groupId, e.runId, e, now);
    H.AfterSnoc(ops, H.Add(e.groupId, e.runId, e));
    H.AddIsolated(data, H.After(ops), e.groupId, e.runId, e, RunState("", map[], 0), "", "");
  }

  /** A flush of a group that another caller has flushed already finds nothing and changes nothing. */
  lemma AbsentGroup(data: Data, ops: seq<H.Op>, g: string, name: string, visited: seq<string>, order: seq<RunState>)
    requires g !in H.After(ops) && Visits(data, g, {}, visited, order)
    ensures order == [] && !HasTask(ops, g, name)
  {
    NoDupCount(visited);
    assert Elems(visited) == {};
    TaskHasGroup(ops, g, name);
  }

  lemma TaskHasGroup(ops: seq<H.Op>, g: string, name: string)
    ensures HasTask(ops, g, name) ==> g in H.After(ops)
  {
    if i :| TaskIn(ops, g, name, i) {
      TaskIsMember(ops, g, name, i);
    }
  }

  lemma TaskIsMember(ops: seq<H.Op>, g: string, name: string, i: int)
    requires TaskIn(ops, g, name, i)
    ensures H.IsMember(H.After(ops), g, ops[i].uid)
  {
    H.MembersReadHistory(ops, g, ops[i].uid);
    assert H.HasJoined(ops, g, ops[i].uid);
  }

  lemma FlushMirrors(data: Data, ops: seq<H.Op>, g: string)
    requires Mirrors(data, ops)
    ensures Mirrors(Dropped(data, g, MembersOf(ops, g)), ops + [H.Flush(g)])
  {
    var data' := Dropped(data, g, MembersOf(ops, g));
    H.AfterSnoc(ops, H.Flush(g));
    assert forall h, u :: H.IsMember(H.After(ops) - {g}, h, u) ==> H.IsMember(H.After(ops), h, u);
    FlushKeepsAll(data, data', ops, g);
  }

  lemma CloseMirrors(ops: seq<H.Op>)
    ensures Mirrors(map[], ops + [H.Close])
  {
    H.AfterSnoc(ops, H.Close);
    forall g, u ensures Cached(map[], ops + [H.Close], g, u) {
      NothingCached(ops, g, u);
    }
  }

  lemma NothingCached(ops: seq<H.Op>, g: string, u: string)
    ensures Cached(map[], ops + [H.Close], g, u)
  {
    H.HistorySnoc(ops, H.Close, g, u);
    forall name ensures HoldsLatest(map[], ops + [H.Close], g, u, name) {
      forall i ensures !Latest(ops + [H.Close], g, u, name, i) {
        LatestSnoc(ops, H.Close, g, u, name, i);
      }
    }
  }

  lemma FlushPostsAll(data: Data, ops: seq<H.Op>, e: Event, testedAt: nat, visited: seq<string>, order: seq<RunState>)
    requires Mirrors(data, ops) && e.groupId != "" && Visits(data, e.groupId, MembersOf(ops, e.groupId), visited, order)
    ensures PostsAll(ops + [H.Flush(e.groupId)], Flushed(e, testedAt, |ops|, SummaryOf(e, Merge(order).tasks)))
  {
    var g, tasks := e.groupId, Merge(order).tasks;
    assert (ops + [H.Flush(g)])[..|ops|] == ops;
    if g in H.After(ops) {
      FlushMerges(data, ops, g, visited, order);
    } else {
      forall name ensures order == [] && !HasTask(ops, g, name) {
        AbsentGroup(data, ops, g, name, visited, order);
      }
    }
    assert forall name :: MergesAt(ops, g, tasks, name);
    if tasks != map[] {
      var name :| name in tasks;
      assert MergesAt(ops, g, tasks, name);
    }
    if name :| HasTask(ops, g, name) {
      assert MergesAt(ops, g, tasks, name);
    }
  }

  /** Callers past their test wait on a group that has a name. */
  ghost predicate Named(pcs: map<nat, Pc>) { forall c :: !PcOf(pcs, c).Idle? ==> PcOf(pcs, c).e.groupId != "" }

  lemma PostsNext(w: World, l: Label)
    requires Mirrors(w.data, w.ops) && Posts(w.ops, w.flushes) && Enabled(w, l)
    requires l.Add? ==> ColonFree(l.e.runId)
    requires Named(w.pcs)
    ensures var w' := Next(w, l); Mirrors(w'.data, w'.ops) && Posts(w'.ops, w'.flushes) && Named(w'.pcs)
  {
    match l
    case Add(c, e, now) =>
      AddMirrors(w.data, w.ops, e, now);
      PostsGrow(w.ops, H.Add(e.groupId, e.runId, e), w.flushes);
    case Test(c) =>
    case Flush(c, visited, order) =>
      var e := PcOf(w.pcs, c).e;
      FlushMirrors(w.data, w.ops, e.groupId);
      PostsGrow(w.ops, H.Flush(e.groupId), w.flushes);
      FlushPostsAll(w.data, w.ops, e, PcOf(w.pcs, c).at, visited, order);
    case Close =>
      CloseMirrors(w.ops);
      PostsGrow(w.ops, H.Close, w.flushes);
  }

  lemma {:induction false} TracePosts(t: Trace, n: nat)
    requires IsTrace(t) && IsPlain(t) && n < |t.worlds|
    ensures var w := t.worlds[n]; Mirrors(w.data, w.ops) && Posts(w.ops, w.flushes) && Named(w.pcs)
  {
    if n > 0 {
      TracePosts(t, n - 1);
      assert StepAt(t, n - 1);
      PostsNext(t.worlds[n - 1], t.steps[n - 1]);
    } else {
      NothingMirrors();
    }
  }

  lemma NothingMirrors()
    ensures Mirrors(map[], [])
  {
    forall g, u ensures Cached(map[], [], g, u) {
      forall name ensures HoldsLatest(map[], [], g, u, name) {}
    }
  }

  /** In every interleaving without loss, early or not, a flush posts if and only if some task event
      of the group arrived since its last flush, and lists exactly those tasks, each with the last
      event of some run. */
  lemma EveryFlushPosts(t: Trace, n: nat, i: nat)
    requires IsTrace(t) && IsPlain(t) && n < |t.worlds| && i < |t.worlds[n].flushes|
    ensures PostsAll(t.worlds[n].ops, t.worlds[n].flushes[i])
  {
    TracePosts(t, n);
  }

  // ---- It happens -----------------------------------------------------------------------------

  lemma AfterEnd(end: Event)
    requires EndsRun(end)
    ensures H.After([H.Add(end.groupId, end.runId, end)]) == map[end.groupId := map[end.runId := true]]
  {
    var none: map<string, bool> := map[];
    H.AfterSnoc([], H.Add(end.groupId, end.runId, end));
    assert H.After([]) == map[];
    assert none[end.runId := false][end.runId := true] == map[end.runId := true];
    assert [] + [H.Add(end.groupId, end.runId, end)] == [H.Add(end.groupId, end.runId, end)];
  }

  lemma AfterTask(end: Event, task: Event)
    requires EndsRun(end) && task.resource.TaskRun? && end.groupId == task.groupId && end.runId != task.runId
    ensures H.After([H.Add(end.groupId, end.runId, end)] + [H.Add(end.groupId, task.runId, task)]) ==
      map[end.groupId := map[end.runId := true, task.runId := false]]
  {
    AfterEnd(end);
    H.AfterSnoc([H.Add(end.groupId, end.runId, end)], H.Add(end.groupId, task.runId, task));
  }

  lemma MergeTwo(a: string, b: string, name: string, task: Event, now: nat)
    ensures Merge([RunState(a, map[], now), RunState(b, map[name := task], now)]).tasks == map[name := task]
  {
    var sa, sb := RunState(a, map[], now), RunState(b, map[name := task], now);
    MergeSnoc([], sa);
    MergeSnoc([] + [sa], sb);
    assert [] + [sa] + [sb] == [sa, sb];
  }

  lemma VisitTwo(g: string, a: string, b: string, sa: RunState, sb: RunState)
    requires a != b && CompositeKey(g, a) != CompositeKey(g, b)
    ensures Visits(map[CompositeKey(g, a) := sa, CompositeKey(g, b) := sb], g, {a, b}, [a, b], [sa, sb])
  {
    assert NoDup([a, b]);
    assert forall u :: u in [a, b] <==> u == a || u == b;
  }

  /** The world in which caller 1 has overtaken caller 0. */
  lemma Overtaken(end: Event, task: Event, now: nat) returns (t: Trace)
    requires end.groupId == task.groupId != "" && EndsRun(end) && task.resource.TaskRun?
    requires end.runId != "" && task.runId != "" && end.runId != task.runId
    requires ColonFree(end.runId) && ColonFree(task.runId)
    ensures IsTrace(t) && IsPlain(t) && |t.worlds| == 4
    ensures var w, g := t.worlds[3], end.groupId;
      && w.ops == [H.Add(g, end.runId, end)] + [H.Add(g, task.runId, task)] && w.flushes == []
      && PcOf(w.pcs, 0) == Tested(end, 1)
      && w.data == map[CompositeKey(g, end.runId) := RunState(end.runId, map[], now),
                       CompositeKey(g, task.runId) := RunState(task.runId, map[task.runName := task], now)]
  {
    AfterEnd(end);
    H.KeysApart(end.groupId, end.runId, task.groupId, task.runId);
    var w1 := AddStep(START, 0, end, now);
    assert w1.ops == [H.Add(end.groupId, end.runId, end)];
    var w2 := TestStep(w1, 0, end);
    var w3 := AddStep(w2, 1, task, now);
    t := Trace([Add(0, end, now), Test(0), Add(1, task, now)], [START, w1, w2, w3]);
    forall n ensures StepAt(t, n) {}
  }

  lemma Extends(t: Trace, l: Label) returns (t': Trace)
    requires IsTrace(t) && IsPlain(t) && !l.Add? && Enabled(t.worlds[|t.worlds| - 1], l)
    ensures t' == Trace(t.steps + [l], t.worlds + [Next(t.worlds[|t.worlds| - 1], l)])
    ensures IsTrace(t') && IsPlain(t')
  {
    t' := Trace(t.steps + [l], t.worlds + [Next(t.worlds[|t.worlds| - 1], l)]);
    forall n ensures StepAt(t', n) {
      assert StepAt(t, n);
    }
  }

  lemma OpenAgain(end: Event, task: Event)
    requires EndsRun(end) && task.resource.TaskRun? && end.groupId == task.groupId && end.runId != task.runId
    ensures Open([H.Add(end.groupId, end.runId, end)] + [H.Add(end.groupId, task.runId, task)], end.groupId)
  {
    var g, ops := end.groupId, [H.Add(end.groupId, end.runId, end)] + [H.Add(end.groupId, task.runId, task)];
    AfterTask(end, task);
    H.MembersReadHistory(ops, g, task.runId);
    assert H.IsMember(H.After(ops), g, task.runId);
  }

  /** Caller 0 ends run `a`, finds the group complete, and is overtaken by caller 1 adding a task of
      run `b`: the flush is early, the open run's task is posted at the end of `a`, and the group and
      with it the task are gone. */
  lemma EarlyFlushHappens(end: Event, task: Event, now: nat) returns (t: Trace)
    requires end.groupId == task.groupId != "" && EndsRun(end) && task.resource.TaskRun?
    requires end.runId != "" && task.runId != "" && end.runId != task.runId
    requires ColonFree(end.runId) && ColonFree(task.runId)
    ensures IsTrace(t) && IsPlain(t) && |t.worlds| == 5
    ensures var w := t.worlds[4];
      && |w.flushes| == 1 && w.flushes[0].e == end && w.flushes[0].at <= |w.ops| && IsEarly(w.ops, w.flushes[0])
      && w.flushes[0].post == Some(Summary(end, map[task.runName := task]))
      && end.groupId !in H.After(w.ops)
  {
    var g, a, b := end.groupId, end.runId, task.runId;
    var sa, sb := RunState(a, map[], now), RunState(b, map[task.runName := task], now);
    var t3 := Overtaken(end, task, now);
    var w := t3.worlds[3];
    AfterTask(end, task);
    OpenAgain(end, task);
    H.KeysApart(g, a, g, b);
    VisitTwo(g, a, b, sa, sb);
    MergeTwo(a, b, task.runName, task, now);
    assert MembersOf(w.ops, g) == {a, b};
    t := Extends(t3, Flush(0, [a, b], [sa, sb]));
    H.AfterSnoc(w.ops, H.Flush(g));
    assert (w.ops + [H.Flush(g)])[..2] == w.ops;
    assert task.runName in map[task.runName := task];
  }
}
