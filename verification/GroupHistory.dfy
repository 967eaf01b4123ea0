/** Accumulator groups over whole histories (internal/accumulator/buffer.go:113-180). */
module GroupHistory {
  import opened Common
  import opened Domain
  import opened GroupMerge
  import opened LruBuffer

  /** What can happen to a buffer, as far as its groups are concerned. */
  datatype Op =
    | Add(g: string, uid: string, e: Event)
    | Flush(g: string)
    | Close
    | Lose(key: string)   // eviction or expiry of a cache entry

  function Step(groups: Groups, op: Op): Groups {
    match op
    case Add(g, uid, e) => Joined(groups, g, uid, e)
    case Flush(g) => groups - {g}
    case Close => map[]
    case Lose(_) => groups
  }

  function After(ops: seq<Op>): Groups {
    if ops == [] then map[] else Step(After(ops[..|ops| - 1]), ops[|ops| - 1])
  }

  lemma AfterSnoc(ops: seq<Op>, op: Op)
    ensures After(ops + [op]) == Step(After(ops), op)
  {
    assert (ops + [op])[..|ops|] == ops;
  }

  predicate Resets(op: Op, g: string) { op.Close? || (op.Flush? && op.g == g) }

  /** Operation `i` added an event of run `uid` to group `g`, and the group has lived since. */
  ghost predicate Joins(ops: seq<Op>, g: string, uid: string, i: int) {
    && 0 <= i < |ops| && ops[i].Add? && ops[i].g == g && ops[i].uid == uid
    && forall j :: i < j < |ops| ==> !Resets(ops[j], g)
  }

  ghost predicate HasJoined(ops: seq<Op>, g: string, uid: string) { exists i :: Joins(ops, g, uid, i) }

  ghost predicate HasEnded(ops: seq<Op>, g: string, uid: string) {
    exists i :: Joins(ops, g, uid, i) && EndsRun(ops[i].e)
  }

  predicate IsMember(groups: Groups, g: string, uid: string) { g in groups && uid in groups[g] }

  lemma JoinsSnoc(ops: seq<Op>, op: Op, g: string, uid: string, i: int)
    ensures Joins(ops + [op], g, uid, i) <==>
      if i == |ops| then op.Add? && op.g == g && op.uid == uid
      else Joins(ops, g, uid, i) && !Resets(op, g)
  {
    var all := ops + [op];
    assert forall j :: 0 <= j < |ops| ==> all[j] == ops[j];
    assert all[|ops|] == op;
  }

  lemma HistorySnoc(ops: seq<Op>, op: Op, g: string, uid: string)
    ensures var here := op.Add? && op.g == g && op.uid == uid;
      && (HasJoined(ops + [op], g, uid) <==> here || (HasJoined(ops, g, uid) && !Resets(op, g)))
      && (HasEnded(ops + [op], g, uid) <==>
            (here && EndsRun(op.e)) || (HasEnded(ops, g, uid) && !Resets(op, g)))
  {
    var all := ops + [op];
    forall i ensures Joins(all, g, uid, i) <==>
      if i == |ops| then op.Add? && op.g == g && op.uid == uid
      else Joins(ops, g, uid, i) && !Resets(op, g)
    {
      JoinsSnoc(ops, op, g, uid, i);
    }
    if HasJoined(ops, g, uid) && !Resets(op, g) {
      var i :| Joins(ops, g, uid, i);
      assert Joins(all, g, uid, i);
    }
    if HasEnded(ops, g, uid) && !Resets(op, g) {
      var i :| Joins(ops, g, uid, i) && EndsRun(ops[i].e);
      assert Joins(all, g, uid, i) && all[i] == ops[i];
    }
    if HasEnded(all, g, uid) {
      var i :| Joins(all, g, uid, i) && EndsRun(all[i].e);
      assert i < |ops| ==> all[i] == ops[i];
    }
    if op.Add? && op.g == g && op.uid == uid {
      assert Joins(all, g, uid, |ops|);
    }
  }

  /** A run is a member exactly when an event of it was added since the last reset, and marked
      terminal exactly when one of those events ended it. */
  lemma {:induction false} MembersReadHistory(ops: seq<Op>, g: string, uid: string)
    ensures IsMember(After(ops), g, uid) <==> HasJoined(ops, g, uid)
    ensures IsMember(After(ops), g, uid) ==> (After(ops)[g][uid] <==> HasEnded(ops, g, uid))
  {
    if ops != [] {
      var before, op := ops[..|ops| - 1], ops[|ops| - 1];
      assert ops == before + [op];
      MembersReadHistory(before, g, uid);
      HistorySnoc(before, op, g, uid);
      EndedJoined(before, g, uid);
    }
  }

  lemma EndedJoined(ops: seq<Op>, g: string, uid: string)
    ensures HasEnded(ops, g, uid) ==> HasJoined(ops, g, uid)
  {}

  lemma {:induction false} NoEmptyGroups(ops: seq<Op>, g: string)
    ensures g in After(ops) ==> After(ops)[g] != map[]
  {
    if ops != [] {
      var before, op := ops[..|ops| - 1], ops[|ops| - 1];
      NoEmptyGroups(before, g);
      if op.Add? && op.g == g {
        assert op.uid in After(ops)[g];
      }
    }
  }

  /** In every history, whatever the cache lost, a group is complete exactly when something has
      been added to it since its last flush or the last Close and every run added since then has
      ended since then. */
  lemma GroupCompleteIff(ops: seq<Op>, g: string)
    ensures Complete(After(ops), g) <==>
      (exists u :: HasJoined(ops, g, u)) && (forall u :: HasJoined(ops, g, u) ==> HasEnded(ops, g, u))
  {
    forall u ensures IsMember(After(ops), g, u) <==> HasJoined(ops, g, u) {
      MembersReadHistory(ops, g, u);
    }
    forall u | HasJoined(ops, g, u) ensures After(ops)[g][u] <==> HasEnded(ops, g, u) {
      MembersReadHistory(ops, g, u);
    }
    NoEmptyGroups(ops, g);
    if g in After(ops) {
      var u :| u in After(ops)[g];
      assert IsMember(After(ops), g, u);
    }
    forall u | HasJoined(ops, g, u) ensures u in After(ops)[g] {
      assert IsMember(After(ops), g, u);
    }
    if Complete(After(ops), g) {
      forall u | HasJoined(ops, g, u) ensures HasEnded(ops, g, u) {}
    }
    if (exists u :: HasJoined(ops, g, u)) && (forall u :: HasJoined(ops, g, u) ==> HasEnded(ops, g, u)) {
      forall u | u in After(ops)[g] ensures After(ops)[g][u] {
        assert IsMember(After(ops), g, u);
      }
    }
  }

  /** A run that only ever sends events other than its own end keeps its group open. */
  lemma UnendedRunKeepsGroupOpen(ops: seq<Op>, g: string, uid: string, i: int)
    requires Joins(ops, g, uid, i)
    requires forall j :: 0 <= j < |ops| && ops[j].Add? && ops[j].uid == uid ==> !ops[j].e.resource.PipelineRun?
    ensures !Complete(After(ops), g)
  {
    GroupCompleteIff(ops, g);
    assert HasJoined(ops, g, uid);
  }

  // ---- Isolation ------------------------------------------------------------------------

  /** All a flush of group `g` depends on: its members and their entries. */
  ghost predicate SameView(data: Data, groups: Groups, data': Data, groups': Groups, g: string) {
    && (g in groups <==> g in groups') && (g in groups ==> groups[g] == groups'[g])
    && forall u :: IsMember(groups, g, u) ==> SameAt(data, data', CompositeKey(g, u))
  }

  /** With the same view a flush has the same possible results. */
  lemma SameViewSameFlush(data: Data, groups: Groups, data': Data, groups': Groups, g: string,
                          visited: seq<string>, order: seq<RunState>)
    requires SameView(data, groups, data', groups', g) && g in groups
    ensures Visits(data, g, groups[g].Keys, visited, order) <==>
      Visits(data', g, groups'[g].Keys, visited, order)
  {
    forall u | u in groups[g] ensures SameAt(data, data', CompositeKey(g, u)) {
      assert IsMember(groups, g, u);
    }
  }

  ghost predicate PlainUids(groups: Groups) { forall g, u :: IsMember(groups, g, u) ==> ColonFree(u) }

  lemma KeysApart(g: string, u: string, h: string, v: string)
    requires ColonFree(u) && ColonFree(v) && (g != h || u != v)
    ensures CompositeKey(g, u) != CompositeKey(h, v)
  {
    KeyRoundTrip(g, u);
    KeyRoundTrip(h, v);
  }

  /** Adding to a run of one group leaves every other group's flush, and every ungrouped run
      and every other run of the group, as it was. */
  lemma AddIsolated(data: Data, groups: Groups, g: string, uid: string, e: Event, s: RunState, h: string, v: string)
    requires PlainUids(groups) && ColonFree(uid) && ColonFree(v)
    ensures PlainUids(Joined(groups, g, uid, e))
    ensures h != g ==> SameView(data, groups, data[CompositeKey(g, uid) := s], Joined(groups, g, uid, e), h)
    ensures h != g || v != uid ==> SameAt(data, data[CompositeKey(g, uid) := s], CompositeKey(h, v))
  {
    var groups' := Joined(groups, g, uid, e);
    assert forall k, u :: IsMember(groups', k, u) ==> IsMember(groups, k, u) || u == uid;
    if h != g || v != uid {
      KeysApart(g, uid, h, v);
    }
    if h != g {
      forall u | IsMember(groups, h, u) ensures SameAt(data, data[CompositeKey(g, uid) := s], CompositeKey(h, u)) {
        KeysApart(g, uid, h, u);
      }
    }
  }

  /** So does flushing one group, and flushing an ungrouped run. */
  lemma FlushIsolated(data: Data, groups: Groups, data': Data, g: string, h: string, v: string)
    requires PlainUids(groups) && ColonFree(v) && h != g
    requires Drops(data', data, g, if g in groups then groups[g].Keys else {})
    ensures PlainUids(groups - {g})
    ensures SameView(data, groups, data', groups - {g}, h)
    ensures SameAt(data, data', CompositeKey(h, v))
  {
    var members := if g in groups then groups[g].Keys else {};
    forall u | ColonFree(u) ensures SameAt(data, data', CompositeKey(h, u)) {
      NotMemberKey(groups, g, h, u);
    }
    assert forall k, u :: IsMember(groups - {g}, k, u) ==> IsMember(groups, k, u);
  }

  lemma NotMemberKey(groups: Groups, g: string, h: string, u: string)
    requires PlainUids(groups) && ColonFree(u) && h != g
    ensures !IsMemberKey(g, if g in groups then groups[g].Keys else {}, CompositeKey(h, u))
  {
    var members := if g in groups then groups[g].Keys else {};
    var key := CompositeKey(h, u);
    if IsMemberKey(g, members, key) {
      assert IsMember(groups, g, UidIn(g, key));
      KeysApart(g, UidIn(g, key), h, u);
    }
  }

  lemma RunFlushIsolated(data: Data, groups: Groups, uid: string, h: string, v: string)
    requires PlainUids(groups) && ColonFree(uid) && ColonFree(v)
    ensures h != "" ==> SameView(data, groups, data - {uid}, groups, h)
    ensures h != "" || v != uid ==> SameAt(data, data - {uid}, CompositeKey(h, v))
  {
    if h != "" || v != uid {
      KeysApart("", uid, h, v);
    }
    if h != "" {
      forall u | IsMember(groups, h, u) ensures SameAt(data, data - {uid}, CompositeKey(h, u)) {
        KeysApart("", uid, h, u);
      }
    }
  }

  /** With colons in run identifiers: the run of the shorter group name spells out the rest of
      the longer one. */
  predicate Shadows(g: string, u: string, h: string, v: string) {
    if g == "" then h != "" && u == h + ":" + v
    else |h| > |g| && h[..|g| + 1] == g + ":" && u == h[|g| + 1..] + ":" + v
  }

  /** Two runs share an entry exactly when they are the same run of the same group or one of
      them shadows the other. */
  lemma KeysCollideIff(g: string, u: string, h: string, v: string)
    ensures CompositeKey(g, u) == CompositeKey(h, v) <==>
      (g == h && u == v) || Shadows(g, u, h, v) || Shadows(h, v, g, u)
  {
    if |g| == |h| {
      if g != "" && CompositeKey(g, u) == CompositeKey(h, v) {
        assert CompositeKey(g, u)[..|g|] == g && CompositeKey(h, v)[..|g|] == h;
        assert CompositeKey(g, u)[|g| + 1..] == u && CompositeKey(h, v)[|g| + 1..] == v;
      }
    } else if |g| < |h| {
      ShadowsIff(g, u, h, v);
    } else {
      ShadowsIff(h, v, g, u);
    }
  }

  lemma ShadowsIff(g: string, u: string, h: string, v: string)
    requires |g| < |h|
    ensures CompositeKey(g, u) == CompositeKey(h, v) <==> Shadows(g, u, h, v)
  {
    if g != "" {
      var n := |g| + 1;
      var a, b := CompositeKey(g, u), CompositeKey(h, v);
      assert a[..n] == g + ":" && a[n..] == u;
      assert b[..n] == h[..n] && b[n..] == h[n..] + ":" + v;
      assert a == a[..n] + a[n..] && b == b[..n] + b[n..];
    }
  }
}
