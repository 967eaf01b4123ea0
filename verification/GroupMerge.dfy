/** Merging the members of an accumulator group (internal/accumulator/buffer.go:182-223).

    Go visits a map in no fixed order, so the result is studied for every order of visiting. */
module GroupMerge {
  import opened Domain
  import opened RunStore

  /** RunState; time is a number and zero is the zero time. */
  datatype RunState = RunState(uid: string, tasks: Tasks, lastUpdate: nat)

  datatype Merged = Merged(tasks: Tasks, lastUpdate: nat)

  /** One member: its events win over the merged ones only when it is newer than all before it. */
  function MergeOne(m: Merged, s: RunState): Merged {
    if s.lastUpdate > m.lastUpdate
    then Merged(m.tasks + s.tasks, s.lastUpdate)
    else Merged(s.tasks + m.tasks, m.lastUpdate)
  }

  function Merge(order: seq<RunState>): Merged {
    if order == [] then Merged(map[], 0) else MergeOne(Merge(order[..|order| - 1]), order[|order| - 1])
  }

  /** The members before the last, so that order[..n] facts carry over. */
  lemma MergeSnoc(order: seq<RunState>, s: RunState)
    ensures Merge(order + [s]) == MergeOne(Merge(order), s)
  {
    assert (order + [s])[..|order|] == order;
  }

  /** The merged names are exactly those of the members. */
  lemma {:induction false} MergedNames(order: seq<RunState>, name: string)
    ensures name in Merge(order).tasks <==> exists s :: s in order && name in s.tasks
  {
    if order != [] {
      var front, last := order[..|order| - 1], order[|order| - 1];
      assert order == front + [last];
      MergedNames(front, name);
      assert last in order;
    }
  }

  /** Every merged event is that of a member holding the task. */
  lemma {:induction false} MergedEventHasHolder(order: seq<RunState>, name: string) returns (s: RunState)
    requires name in Merge(order).tasks
    ensures s in order && name in s.tasks && Merge(order).tasks[name] == s.tasks[name]
  {
    var front, last := order[..|order| - 1], order[|order| - 1];
    assert order == front + [last];
    var m := Merge(front);
    if name in last.tasks && (last.lastUpdate > m.lastUpdate || name !in m.tasks) {
      s := last;
    } else {
      s := MergedEventHasHolder(front, name);
    }
  }

  /** The merged time is the latest of the members'. */
  lemma {:induction false} MergedTimeIsMaximum(order: seq<RunState>)
    ensures forall s :: s in order ==> s.lastUpdate <= Merge(order).lastUpdate
    ensures Merge(order).lastUpdate > 0 ==> exists s :: s in order && s.lastUpdate == Merge(order).lastUpdate
  {
    if order != [] {
      var front, last := order[..|order| - 1], order[|order| - 1];
      assert order == front + [last];
      MergedTimeIsMaximum(front);
      assert last in order;
    }
  }

  ghost predicate Newest(order: seq<RunState>, m: RunState) {
    m in order && forall s :: s in order && s != m ==> s.lastUpdate < m.lastUpdate
  }

  ghost predicate OnlyHolder(order: seq<RunState>, m: RunState, name: string) {
    m in order && name in m.tasks && forall s :: s in order && name in s.tasks ==> s == m
  }

  /** Once the strictly newest member has been merged, its events stay. */
  lemma {:induction false} NewestWins(order: seq<RunState>, m: RunState, name: string)
    requires Newest(order, m) && m.lastUpdate > 0 && name in m.tasks
    ensures name in Merge(order).tasks && Merge(order).tasks[name] == m.tasks[name]
    ensures Merge(order).lastUpdate == m.lastUpdate
  {
    var front, last := order[..|order| - 1], order[|order| - 1];
    assert order == front + [last];
    MergedTimeIsMaximum(front);
    if m in front {
      NewestWins(front, m, name);
      assert last.lastUpdate <= m.lastUpdate;
    } else {
      assert last == m;
      assert Merge(front).lastUpdate < m.lastUpdate;
    }
  }

  lemma OnlyHolderWins(order: seq<RunState>, m: RunState, name: string)
    requires OnlyHolder(order, m, name)
    ensures name in Merge(order).tasks && Merge(order).tasks[name] == m.tasks[name]
  {
    MergedNames(order, name);
    var s := MergedEventHasHolder(order, name);
  }

  // ---- When the order of visiting does not matter ---------------------------------------

  /** Both sequences list the same distinct members. */
  ghost predicate Reorders(p: seq<RunState>, members: set<RunState>) {
    && (forall s :: s in p <==> s in members)
    && (forall i, j :: 0 <= i < j < |p| ==> p[i] != p[j])
  }

  ghost predicate AlwaysTakes(members: set<RunState>, m: RunState, name: string)
    requires name in m.tasks
  {
    forall p :: Reorders(p, members) ==> name in Merge(p).tasks && Merge(p).tasks[name] == m.tasks[name]
  }

  lemma {:induction false} SomeOrder(members: set<RunState>) returns (p: seq<RunState>)
    ensures Reorders(p, members)
  {
    if members == {} {
      p := [];
    } else {
      var s :| s in members;
      var q := SomeOrder(members - {s});
      p := q + [s];
    }
  }

  /** Visiting `m` last, after another holder and a member at least as new, its event loses. */
  lemma LateVisitLoses(q: seq<RunState>, m: RunState, name: string, h: RunState, n: RunState)
    requires h in q && n in q && name in m.tasks && name in h.tasks && n.lastUpdate >= m.lastUpdate
    requires forall s :: s in q && name in s.tasks ==> s.tasks[name] != m.tasks[name]
    ensures name in Merge(q + [m]).tasks && Merge(q + [m]).tasks[name] != m.tasks[name]
  {
    MergeSnoc(q, m);
    MergedNames(q, name);
    MergedTimeIsMaximum(q);
    var s := MergedEventHasHolder(q, name);
  }

  lemma WinnerTakesInEveryOrder(members: set<RunState>, m: RunState, name: string)
    requires m in members && name in m.tasks && m.lastUpdate > 0
    requires || (forall s :: s in members && name in s.tasks ==> s == m)
             || (forall s :: s in members && s != m ==> s.lastUpdate < m.lastUpdate)
    ensures AlwaysTakes(members, m, name)
  {
    forall p | Reorders(p, members) ensures name in Merge(p).tasks && Merge(p).tasks[name] == m.tasks[name] {
      if OnlyHolder(p, m, name) {
        OnlyHolderWins(p, m, name);
      } else {
        NewestWins(p, m, name);
      }
    }
  }

  lemma SomeOrderEndsWith(members: set<RunState>, m: RunState) returns (q: seq<RunState>)
    requires m in members
    ensures Reorders(q + [m], members) && forall s :: s in q <==> s in members && s != m
  {
    q := SomeOrder(members - {m});
  }

  /** When the holders of a task disagree, the result is `m`'s event in every order exactly when
      `m` is the only holder or strictly newer than every other member of the group, holder of
      the task or not. */
  lemma OrderIrrelevantIff(members: set<RunState>, m: RunState, name: string)
    requires m in members && name in m.tasks && m.lastUpdate > 0
    requires forall s :: s in members && s != m && name in s.tasks ==> s.tasks[name] != m.tasks[name]
    ensures AlwaysTakes(members, m, name) <==>
      || (forall s :: s in members && name in s.tasks ==> s == m)
      || (forall s :: s in members && s != m ==> s.lastUpdate < m.lastUpdate)
  {
    if h, n :| h in members && name in h.tasks && h != m && n in members && n != m && n.lastUpdate >= m.lastUpdate {
      var q := SomeOrderEndsWith(members, m);
      LateVisitLoses(q, m, name, h, n);
    } else {
      WinnerTakesInEveryOrder(members, m, name);
    }
  }

  /** Three members suffice: in the first order the older event of the task wins. */
  lemma LatestEventCanLose(first: Event, latest: Event)
    ensures var a, b := RunState("a", map["t" := first], 1), RunState("b", map[], 3);
      var c := RunState("c", map["t" := latest], 2);
      Merge([a, b, c]).tasks == map["t" := first] && Merge([a, c, b]).tasks == map["t" := latest]
  {
    var a, b, c := RunState("a", map["t" := first], 1), RunState("b", map[], 3), RunState("c", map["t" := latest], 2);
    assert [a, b, c] == [] + [a] + [b] + [c] && [a, c, b] == [] + [a] + [c] + [b];
    MergeSnoc([], a);
    MergeSnoc([] + [a], b);
    MergeSnoc([] + [a] + [b], c);
    MergeSnoc([] + [a], c);
    MergeSnoc([] + [a] + [c], b);
  }
}
