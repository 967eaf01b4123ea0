/** The Olric backend as interleaved steps (internal/store/olric.go:154-216).

    Any number of callers on any number of replicas share one DMap. A lock is an entry of the
    same DMap under "lock:" + uid, set only if absent and removed only by its owner. A failed
    operation has no effect, run data does not expire, and a lease expires only when its owner
    has left the critical section. JSON is lossless, so a value is the task map itself. */
module OlricProtocol {
  import opened Common
  import opened Domain
  import opened RunStore

  datatype Value = Lease(owner: nat) | Stored(tasks: Tasks)

  datatype Call = AddCall(uid: string, task: string, ev: Event) | FlushCall(uid: string)

  /** Where a caller stands inside `Add` or `Flush`. */
  datatype Pc =
    | Idle
    | Wanting(call: Call)                  // in LockWithTimeout
    | Holding(call: Call)                  // lock taken, before getTasks
    | Merging(call: Call, tasks: Tasks)    // task map read, before Put or Delete
    | Releasing(call: Call)                // before the deferred Unlock

  datatype World = World(dmap: map<string, Value>, pcs: map<nat, Pc>, log: seq<Entry>)

  const START := World(map[], map[], [])

  function LockKey(uid: string): string { "lock:" + uid }

  function PcOf(pcs: map<nat, Pc>, c: nat): Pc {
    if c in pcs then pcs[c] else Idle
  }

  function Move(pcs: map<nat, Pc>, c: nat, pc: Pc): (r: map<nat, Pc>)
    ensures forall d :: PcOf(r, d) == if d == c then pc else PcOf(pcs, d)
  {
    pcs[c := pc]
  }

  function Goto(w: World, c: nat, pc: Pc): World { w.(pcs := Move(w.pcs, c, pc)) }

  predicate InSection(pc: Pc, uid: string) {
    (pc.Holding? || pc.Merging? || pc.Releasing?) && pc.call.uid == uid
  }

  datatype Label =
    | Invoke(c: nat, call: Call)
    | Acquire(c: nat)
    | LockTimeout(c: nat)
    | Read(c: nat)
    | ReadFails(c: nat)
    | Commit(c: nat)
    | CommitFails(c: nat)
    | Release(c: nat)
    | ReleaseFails(c: nat)
    | LeaseExpires(key: string)

  predicate Enabled(w: World, l: Label) {
    match l
    case Invoke(c, _) => PcOf(w.pcs, c).Idle?
    case Acquire(c) => PcOf(w.pcs, c).Wanting? && LockKey(PcOf(w.pcs, c).call.uid) !in w.dmap
    case LockTimeout(c) => PcOf(w.pcs, c).Wanting?
    case Read(c) => PcOf(w.pcs, c).Holding?
    case ReadFails(c) => PcOf(w.pcs, c).Holding?
    case Commit(c) => PcOf(w.pcs, c).Merging?
    case CommitFails(c) => PcOf(w.pcs, c).Merging?
    case Release(c) => PcOf(w.pcs, c).Releasing?
    case ReleaseFails(c) => PcOf(w.pcs, c).Releasing?
    case LeaseExpires(key) =>
      && key in w.dmap && w.dmap[key].Lease?
      && var pc := PcOf(w.pcs, w.dmap[key].owner);
         !(InSection(pc, if pc.Idle? then "" else pc.call.uid) && LockKey(pc.call.uid) == key)
  }

  /** getTasks: a missing key is an empty map, a lease is not JSON and fails to decode. */
  function ReadStep(w: World, c: nat, call: Call): World {
    if call.uid in w.dmap && w.dmap[call.uid].Lease? then
      Goto(w, c, Releasing(call))
    else
      var tasks := if call.uid in w.dmap then w.dmap[call.uid].tasks else map[];
      if call.FlushCall? && tasks == map[] then
        Goto(w, c, Releasing(call)).(log := w.log + [Flushed(call.uid, None)])
      else
        Goto(w, c, Merging(call, tasks))
  }

  function CommitStep(w: World, c: nat, call: Call, tasks: Tasks): World {
    var w' := Goto(w, c, Releasing(call));
    match call
    case AddCall(uid, task, ev) =>
      w'.(dmap := w.dmap[uid := Stored(tasks[task := ev])], log := w.log + [Added(uid, task, ev)])
    case FlushCall(uid) =>
      w'.(dmap := w.dmap - {uid}, log := w.log + [Flushed(uid, Some(tasks))])
  }

  function Next(w: World, l: Label): World
    requires Enabled(w, l)
  {
    match l
    case Invoke(c, call) => Goto(w, c, Wanting(call))
    case Acquire(c) =>
      var call := PcOf(w.pcs, c).call;
      Goto(w, c, Holding(call)).(dmap := w.dmap[LockKey(call.uid) := Lease(c)])
    case LockTimeout(c) => Goto(w, c, Idle)
    case Read(c) => ReadStep(w, c, PcOf(w.pcs, c).call)
    case ReadFails(c) => Goto(w, c, Releasing(PcOf(w.pcs, c).call))
    case Commit(c) => CommitStep(w, c, PcOf(w.pcs, c).call, PcOf(w.pcs, c).tasks)
    case CommitFails(c) => Goto(w, c, Releasing(PcOf(w.pcs, c).call))
    case Release(c) =>
      var key := LockKey(PcOf(w.pcs, c).call.uid);
      if key in w.dmap && w.dmap[key] == Lease(c)
      then Goto(w, c, Idle).(dmap := w.dmap - {key})
      else Goto(w, c, Idle)
    case ReleaseFails(c) => Goto(w, c, Idle)
    case LeaseExpires(key) => w.(dmap := w.dmap - {key})
  }

  /** An interleaving: its steps and the states between them. */
  datatype Trace = Trace(steps: seq<Label>, worlds: seq<World>)

  /** Step `n` is enabled where it happens, and only runs in `uids` are added to or flushed. */
  ghost predicate StepAt(t: Trace, uids: set<string>, n: int)
    requires |t.worlds| == |t.steps| + 1
  {
    0 <= n < |t.steps| ==>
      && Enabled(t.worlds[n], t.steps[n]) && t.worlds[n + 1] == Next(t.worlds[n], t.steps[n])
      && (t.steps[n].Invoke? ==> t.steps[n].call.uid in uids)
  }

  ghost predicate IsTrace(t: Trace, uids: set<string>) {
    |t.worlds| == |t.steps| + 1 && t.worlds[0] == START && forall n :: StepAt(t, uids, n)
  }

  ghost predicate EndsIn(t: Trace, w: World) { t.worlds != [] && t.worlds[|t.worlds| - 1] == w }

  /** Some interleaving leads to `w`. */
  ghost predicate Reachable(w: World, uids: set<string>) { exists t :: IsTrace(t, uids) && EndsIn(t, w) }

  /** No run identifier is the lock key of another: what a caller can check beforehand. */
  predicate Separate(uids: set<string>) {
    forall u :: u in uids ==> LockKey(u) !in uids
  }

  // ---- What every step keeps ------------------------------------------------------------

  ghost predicate CallsIn(w: World, uids: set<string>) {
    forall c :: !PcOf(w.pcs, c).Idle? ==> PcOf(w.pcs, c).call.uid in uids
  }

  ghost predicate Exclusive(w: World) {
    forall c, uid :: InSection(PcOf(w.pcs, c), uid) ==>
      LockKey(uid) in w.dmap && w.dmap[LockKey(uid)] == Lease(c)
  }

  ghost predicate DataIsReplay(w: World, uids: set<string>) {
    forall u :: u in uids ==>
      && (u in w.dmap <==> u in Replay(w.log))
      && (u in w.dmap ==> w.dmap[u] == Stored(Replay(w.log)[u]) && Replay(w.log)[u] != map[])
  }

  ghost predicate ReadsAreFresh(w: World) {
    forall c :: PcOf(w.pcs, c).Merging? ==>
      && PcOf(w.pcs, c).tasks == TasksOf(Replay(w.log), PcOf(w.pcs, c).call.uid)
      && (PcOf(w.pcs, c).call.FlushCall? ==> PcOf(w.pcs, c).tasks != map[])
  }

  ghost predicate LocksHoldLeases(w: World, uids: set<string>) {
    forall u :: u in uids && LockKey(u) in w.dmap ==> w.dmap[LockKey(u)].Lease?
  }

  ghost predicate Inv(w: World, uids: set<string>) {
    && Separate(uids)
    && CallsIn(w, uids)
    && Exclusive(w)
    && LocksHoldLeases(w, uids)
    && DataIsReplay(w, uids)
    && ReadsAreFresh(w)
    && Legal(w.log)
  }

  lemma LockKeyInjective(u: string, v: string)
    ensures LockKey(u) == LockKey(v) ==> u == v
    ensures LockKey(u) != u
  {
    assert LockKey(u)[5..] == u && LockKey(v)[5..] == v;
    assert |LockKey(u)| == |u| + 5;
  }

  lemma LockKeysDiffer()
    ensures forall u, v :: LockKey(u) == LockKey(v) ==> u == v
  {
    forall u, v ensures LockKey(u) == LockKey(v) ==> u == v { LockKeyInjective(u, v); }
  }

  lemma AcquireKeepsInv(w: World, uids: set<string>, c: nat)
    requires Inv(w, uids) && Enabled(w, Acquire(c))
    ensures Inv(Next(w, Acquire(c)), uids)
  {
    LockKeysDiffer();
  }

  /** A flush of an absent run changes nothing but the history. */
  lemma EmptyFlushKeepsLog(log: seq<Entry>, uid: string)
    requires Legal(log) && uid !in Replay(log)
    ensures Legal(log + [Flushed(uid, None)]) && Replay(log + [Flushed(uid, None)]) == Replay(log)
  {
    LegalAppend(log, Flushed(uid, None));
    assert Replay(log) - {uid} == Replay(log);
  }

  lemma SameReplayKeepsInv(w: World, uids: set<string>, log: seq<Entry>)
    requires Inv(w, uids) && Legal(log) && Replay(log) == Replay(w.log)
    ensures Inv(w.(log := log), uids)
  {
    var w' := w.(log := log);
    assert Exclusive(w') && CallsIn(w', uids) && LocksHoldLeases(w', uids);
    assert DataIsReplay(w', uids);
    assert ReadsAreFresh(w');
  }

  lemma ReleasingKeepsInv(w: World, uids: set<string>, c: nat, call: Call)
    requires Inv(w, uids) && PcOf(w.pcs, c) == Holding(call)
    ensures Inv(Goto(w, c, Releasing(call)), uids)
  {
    assert InSection(PcOf(w.pcs, c), call.uid);
  }

  lemma EmptyFlushKeepsInv(w: World, uids: set<string>, c: nat)
    requires Inv(w, uids) && Enabled(w, Read(c))
    requires var call := PcOf(w.pcs, c).call; call.FlushCall? && call.uid !in w.dmap
    ensures Inv(Next(w, Read(c)), uids)
  {
    var call := PcOf(w.pcs, c).call;
    assert InSection(PcOf(w.pcs, c), call.uid);
    EmptyFlushKeepsLog(w.log, call.uid);
    ReleasingKeepsInv(w, uids, c, call);
    SameReplayKeepsInv(Goto(w, c, Releasing(call)), uids, w.log + [Flushed(call.uid, None)]);
  }

  lemma ReadKeepsInv(w: World, uids: set<string>, c: nat)
    requires Inv(w, uids) && Enabled(w, Read(c))
    ensures Inv(Next(w, Read(c)), uids)
  {
    var call := PcOf(w.pcs, c).call;
    assert InSection(PcOf(w.pcs, c), call.uid);
    if call.FlushCall? && call.uid !in w.dmap {
      EmptyFlushKeepsInv(w, uids, c);
    } else {
      assert Next(w, Read(c)) == Goto(w, c, Merging(call, TasksOf(Replay(w.log), call.uid)));
    }
  }

  lemma CommitKeepsLog(w: World, uids: set<string>, c: nat)
    requires Inv(w, uids) && Enabled(w, Commit(c))
    ensures Legal(Next(w, Commit(c)).log) && DataIsReplay(Next(w, Commit(c)), uids)
  {
    var Merging(call, tasks) := PcOf(w.pcs, c);
    var w' := Next(w, Commit(c));
    var e := if call.AddCall? then Added(call.uid, call.task, call.ev) else Flushed(call.uid, Some(tasks));
    LegalAppend(w.log, e);
    forall u | u in uids
      ensures u in w'.dmap <==> u in Replay(w'.log)
      ensures u in w'.dmap ==> w'.dmap[u] == Stored(Replay(w'.log)[u]) && Replay(w'.log)[u] != map[]
    {
      ReplayAt(w.log, e, u);
    }
  }

  lemma CommitKeepsLocks(w: World, uids: set<string>, c: nat)
    requires Inv(w, uids) && Enabled(w, Commit(c))
    ensures Exclusive(Next(w, Commit(c))) && LocksHoldLeases(Next(w, Commit(c)), uids)
  {
    var w' := Next(w, Commit(c));
    forall d, uid | InSection(PcOf(w'.pcs, d), uid)
      ensures LockKey(uid) in w'.dmap && w'.dmap[LockKey(uid)] == Lease(d)
    {
      assert InSection(PcOf(w.pcs, d), uid);
    }
  }

  lemma CommitKeepsReads(w: World, uids: set<string>, c: nat)
    requires Inv(w, uids) && Enabled(w, Commit(c))
    ensures CallsIn(Next(w, Commit(c)), uids) && ReadsAreFresh(Next(w, Commit(c)))
  {
    var Merging(call, tasks) := PcOf(w.pcs, c);
    var e := if call.AddCall? then Added(call.uid, call.task, call.ev) else Flushed(call.uid, Some(tasks));
    assert InSection(PcOf(w.pcs, c), call.uid);
    forall d | d != c && PcOf(w.pcs, d).Merging?
      ensures PcOf(w.pcs, d).tasks == TasksOf(Replay(w.log + [e]), PcOf(w.pcs, d).call.uid)
    {
      assert InSection(PcOf(w.pcs, d), PcOf(w.pcs, d).call.uid);
      ReplayAt(w.log, e, PcOf(w.pcs, d).call.uid);
    }
  }

  lemma CommitKeepsInv(w: World, uids: set<string>, c: nat)
    requires Inv(w, uids) && Enabled(w, Commit(c))
    ensures Inv(Next(w, Commit(c)), uids)
  {
    CommitKeepsLog(w, uids, c);
    CommitKeepsLocks(w, uids, c);
    CommitKeepsReads(w, uids, c);
  }

  lemma ReleaseKeepsInv(w: World, uids: set<string>, c: nat)
    requires Inv(w, uids) && Enabled(w, Release(c))
    ensures Inv(Next(w, Release(c)), uids)
  {
    LockKeysDiffer();
    assert InSection(PcOf(w.pcs, c), PcOf(w.pcs, c).call.uid);
  }

  lemma ExpiryKeepsInv(w: World, uids: set<string>, key: string)
    requires Inv(w, uids) && Enabled(w, LeaseExpires(key))
    ensures Inv(Next(w, LeaseExpires(key)), uids)
  {
    LockKeysDiffer();
  }

  lemma StepKeepsInv(w: World, l: Label, uids: set<string>)
    requires Inv(w, uids) && Enabled(w, l)
    requires l.Invoke? ==> l.call.uid in uids
    ensures Inv(Next(w, l), uids)
  {
    match l
    case Acquire(c) => AcquireKeepsInv(w, uids, c);
    case Read(c) => ReadKeepsInv(w, uids, c);
    case Commit(c) => CommitKeepsInv(w, uids, c);
    case Release(c) => ReleaseKeepsInv(w, uids, c);
    case LeaseExpires(key) => ExpiryKeepsInv(w, uids, key);
    case Invoke(c, call) =>
      assert forall d :: d != c ==> PcOf(Next(w, l).pcs, d) == PcOf(w.pcs, d);
    case _ =>
  }

  lemma {:induction false} TraceKeepsInv(t: Trace, uids: set<string>, n: nat)
    requires IsTrace(t, uids) && Separate(uids) && n < |t.worlds|
    ensures Inv(t.worlds[n], uids)
  {
    if n > 0 {
      TraceKeepsInv(t, uids, n - 1);
      assert StepAt(t, uids, n - 1);
      StepKeepsInv(t.worlds[n - 1], t.steps[n - 1], uids);
    } else {
      StartInv(uids);
    }
  }

  lemma StartInv(uids: set<string>)
    requires Separate(uids)
    ensures Inv(START, uids)
  {}

  lemma RunKeepsInv(w: World, uids: set<string>)
    requires Reachable(w, uids) && Separate(uids)
    ensures Inv(w, uids)
  {
    var t :| IsTrace(t, uids) && EndsIn(t, w);
    TraceKeepsInv(t, uids, |t.worlds| - 1);
  }

  /** No add is lost: after any interleaving the completed operations form a legal history of
      the abstract buffer, and the DMap holds exactly what that history leaves. */
  lemma NoAddIsLost(w: World, uids: set<string>)
    requires Reachable(w, uids) && Separate(uids)
    ensures Legal(w.log)
    ensures forall u :: u in uids ==>
      (if u in Replay(w.log) then u in w.dmap && w.dmap[u] == Stored(Replay(w.log)[u]) else u !in w.dmap)
  {
    RunKeepsInv(w, uids);
  }

  /** The lock entry names its only holder. */
  lemma OneHolder(w: World, c: nat, d: nat, uid: string)
    requires Exclusive(w) && InSection(PcOf(w.pcs, c), uid) && InSection(PcOf(w.pcs, d), uid)
    ensures c == d
  {
    assert w.dmap[LockKey(uid)] == Lease(c);
    assert w.dmap[LockKey(uid)] == Lease(d);
  }

  /** Two callers are never inside the section of one run at once. */
  lemma MutualExclusion(w: World, uids: set<string>, c: nat, d: nat, uid: string)
    requires Reachable(w, uids) && Separate(uids)
    requires InSection(PcOf(w.pcs, c), uid) && InSection(PcOf(w.pcs, d), uid)
    ensures c == d
  {
    RunKeepsInv(w, uids);
    OneHolder(w, c, d, uid);
  }

  // ---- What is in the history, read off the steps -----------------------------------------

  /** The call that caller `c` made last. */
  function LastInvoked(steps: seq<Label>, c: nat): seq<Call> {
    if steps == [] then [] else
    var l := steps[|steps| - 1];
    if l.Invoke? && l.c == c then [l.call] else LastInvoked(steps[..|steps| - 1], c)
  }

  lemma StepKeepsCall(w: World, l: Label, c: nat)
    requires Enabled(w, l) && !PcOf(Next(w, l).pcs, c).Idle?
    ensures if l.Invoke? && l.c == c then PcOf(Next(w, l).pcs, c).call == l.call
            else !PcOf(w.pcs, c).Idle? && PcOf(Next(w, l).pcs, c).call == PcOf(w.pcs, c).call
  {}

  /** A caller that is busy is busy with the call it made last. */
  lemma {:induction false} BusyWithLast(t: Trace, uids: set<string>, n: nat, c: nat)
    requires IsTrace(t, uids) && n <= |t.steps| && !PcOf(t.worlds[n].pcs, c).Idle?
    ensures LastInvoked(t.steps[..n], c) == [PcOf(t.worlds[n].pcs, c).call]
  {
    assert n > 0;
    assert StepAt(t, uids, n - 1);
    var l := t.steps[n - 1];
    PrefixSnoc(t.steps, n - 1);
    StepKeepsCall(t.worlds[n - 1], l, c);
    if !(l.Invoke? && l.c == c) {
      BusyWithLast(t, uids, n - 1, c);
    }
  }

  /** The entry is that of a call: an add as it was made, or a flush of that run. */
  predicate IsEntryOf(e: Entry, call: Call) {
    match call
    case AddCall(uid, task, ev) => e == Added(uid, task, ev)
    case FlushCall(uid) => e.Flushed? && e.uid == uid
  }

  /** What step `l` adds to the history. */
  ghost predicate Logs(log: seq<Entry>, log': seq<Entry>, l: Label, last: seq<Call>) {
    if log' == log then !l.Commit?
    else
      && |log'| == |log| + 1 && log' == log + [log'[|log|]] && |last| == 1 && IsEntryOf(log'[|log|], last[0])
      && (l.Commit? || (l.Read? && log'[|log|] == Flushed(last[0].uid, None)))
  }

  predicate HasCaller(l: Label) { !l.LeaseExpires? && !l.Invoke? }

  lemma StepLogs(w: World, l: Label)
    requires Enabled(w, l)
    ensures Logs(w.log, Next(w, l).log, l, if HasCaller(l) then [PcOf(w.pcs, l.c).call] else [])
  {}

  /** In every interleaving the history grows by exactly one entry at each commit, that of the call the
      caller made last, and at a read that finds nothing to flush; a step that fails adds none. */
  lemma HistoryIsOfCalls(t: Trace, uids: set<string>, n: nat)
    requires IsTrace(t, uids) && n < |t.steps|
    ensures var l := t.steps[n];
      Logs(t.worlds[n].log, t.worlds[n + 1].log, l, if HasCaller(l) then LastInvoked(t.steps[..n], l.c) else [])
  {
    assert StepAt(t, uids, n);
    var l := t.steps[n];
    StepLogs(t.worlds[n], l);
    if HasCaller(l) {
      BusyWithLast(t, uids, n, l.c);
    }
  }

  /** At step `m` the call of `c` failed, or was entered in the history. */
  ghost predicate Settles(t: Trace, c: nat, call: Call, m: nat)
    requires |t.worlds| == |t.steps| + 1 && m < |t.steps|
  {
    || t.steps[m] == ReadFails(c) || t.steps[m] == CommitFails(c)
    || (&& (t.steps[m] == Commit(c) || t.steps[m] == Read(c))
        && exists e :: IsEntryOf(e, call) && t.worlds[m + 1].log == t.worlds[m].log + [e])
  }

  lemma StepSettles(w: World, uids: set<string>, l: Label, c: nat)
    requires Inv(w, uids) && Enabled(w, l) && PcOf(Next(w, l).pcs, c).Releasing? && !PcOf(w.pcs, c).Releasing?
    ensures var call := PcOf(Next(w, l).pcs, c).call;
      || l == ReadFails(c) || l == CommitFails(c)
      || ((l == Commit(c) || l == Read(c)) && exists e :: IsEntryOf(e, call) && Next(w, l).log == w.log + [e])
  {
    if l == Read(c) {
      var call := PcOf(w.pcs, c).call;
      assert call.uid in uids;
      assert IsEntryOf(Flushed(call.uid, None), call);
    } else if l == Commit(c) {
      var Merging(call, tasks) := PcOf(w.pcs, c);
      assert call.FlushCall? ==> IsEntryOf(Flushed(call.uid, Some(tasks)), call);
    }
  }

  /** No call vanishes: whoever is about to unlock has, since making the call, met an error or had the
      call entered in the history. */
  lemma {:induction false} EveryCallSettles(t: Trace, uids: set<string>, n: nat, c: nat) returns (m: nat)
    requires IsTrace(t, uids) && Separate(uids) && n <= |t.steps| && PcOf(t.worlds[n].pcs, c).Releasing?
    ensures m < n && Settles(t, c, PcOf(t.worlds[n].pcs, c).call, m)
    ensures forall k, call :: m < k < n ==> t.steps[k] != Invoke(c, call)
  {
    assert n > 0;
    m := n - 1;
    assert StepAt(t, uids, m);
    var w, l := t.worlds[m], t.steps[m];
    StepKeepsCall(w, l, c);
    if PcOf(w.pcs, c).Releasing? {
      m := EveryCallSettles(t, uids, n - 1, c);
    } else {
      TraceKeepsInv(t, uids, m);
      StepSettles(w, uids, l, c);
    }
  }

  /** A lease goes away in three ways only, whatever the run names: its owner unlocks, it expires, or a
      commit on a run whose key it occupies replaces or deletes it. */
  lemma LeaseGoes(t: Trace, uids: set<string>, n: nat, key: string)
    requires IsTrace(t, uids) && n < |t.steps|
    requires key in t.worlds[n].dmap && t.worlds[n].dmap[key].Lease?
    requires !(key in t.worlds[n + 1].dmap && t.worlds[n + 1].dmap[key] == t.worlds[n].dmap[key])
    ensures var l := t.steps[n];
      var last := if HasCaller(l) then LastInvoked(t.steps[..n], l.c) else [];
      || l == LeaseExpires(key)
      || (l == Release(t.worlds[n].dmap[key].owner) && |last| == 1 && key == LockKey(last[0].uid))
      || (l.Commit? && |last| == 1 && key == last[0].uid)
  {
    assert StepAt(t, uids, n);
    if HasCaller(t.steps[n]) {
      BusyWithLast(t, uids, n, t.steps[n].c);
    }
  }

  // ---- The condition is needed ----------------------------------------------------------

  ghost predicate LosesAdds(uids: set<string>) {
    exists w :: Reachable(w, uids) && !Legal(w.log)
  }

  lemma StartIsReachable(uids: set<string>)
    ensures Reachable(START, uids)
  {
    var t := Trace([], [START]);
    assert forall n :: StepAt(t, uids, n);
    assert IsTrace(t, uids) && EndsIn(t, START);
  }

  lemma Extends(t: Trace, w: World, l: Label, w': World, uids: set<string>)
    requires IsTrace(t, uids) && EndsIn(t, w) && Enabled(w, l) && w' == Next(w, l)
    requires l.Invoke? ==> l.call.uid in uids
    ensures IsTrace(Trace(t.steps + [l], t.worlds + [w']), uids)
  {
    var t' := Trace(t.steps + [l], t.worlds + [w']);
    forall n ensures StepAt(t', uids, n) {
      assert StepAt(t, uids, n);
    }
  }

  lemma Steps(w: World, l: Label, uids: set<string>) returns (w': World)
    requires Reachable(w, uids) && Enabled(w, l)
    requires l.Invoke? ==> l.call.uid in uids
    ensures w' == Next(w, l) && Reachable(w', uids)
  {
    var t :| IsTrace(t, uids) && EndsIn(t, w);
    w' := Next(w, l);
    Extends(t, w, l, w', uids);
    assert EndsIn(Trace(t.steps + [l], t.worlds + [w']), w');
  }

  /** A caller that takes the lock and reads the task map without interruption. */
  lemma Enters(w: World, c: nat, call: Call, tasks: Tasks, uids: set<string>) returns (w': World)
    requires Reachable(w, uids) && call.uid in uids
    requires PcOf(w.pcs, c).Idle? && LockKey(call.uid) !in w.dmap
    requires if call.uid in w.dmap then w.dmap[call.uid] == Stored(tasks) else tasks == map[]
    requires call.FlushCall? ==> tasks != map[]
    ensures Reachable(w', uids) && w'.log == w.log
    ensures w'.dmap == w.dmap[LockKey(call.uid) := Lease(c)]
    ensures w'.pcs == w.pcs[c := Merging(call, tasks)]
  {
    LockKeyInjective(call.uid, call.uid);
    w' := Steps(w, Invoke(c, call), uids);
    w' := Steps(w', Acquire(c), uids);
    w' := Steps(w', Read(c), uids);
  }

  lemma CommitsAdd(w: World, c: nat, call: Call, tasks: Tasks, uids: set<string>) returns (w': World)
    requires Reachable(w, uids) && PcOf(w.pcs, c) == Merging(call, tasks) && call.AddCall?
    ensures Reachable(w', uids) && w'.dmap == w.dmap[call.uid := Stored(tasks[call.task := call.ev])]
    ensures w'.pcs == w.pcs[c := Releasing(call)]
    ensures w'.log == w.log + [Added(call.uid, call.task, call.ev)]
  {
    w' := Steps(w, Commit(c), uids);
  }

  lemma CommitsFlush(w: World, c: nat, call: Call, tasks: Tasks, uids: set<string>) returns (w': World)
    requires Reachable(w, uids) && PcOf(w.pcs, c) == Merging(call, tasks) && call.FlushCall?
    ensures Reachable(w', uids) && w'.dmap == w.dmap - {call.uid}
    ensures w'.pcs == w.pcs[c := Releasing(call)]
    ensures w'.log == w.log + [Flushed(call.uid, Some(tasks))]
  {
    w' := Steps(w, Commit(c), uids);
  }

  lemma Releases(w: World, c: nat, call: Call, uids: set<string>) returns (w': World)
    requires Reachable(w, uids) && PcOf(w.pcs, c) == Releasing(call)
    requires LockKey(call.uid) in w.dmap && w.dmap[LockKey(call.uid)] == Lease(c)
    ensures Reachable(w', uids) && w'.dmap == w.dmap - {LockKey(call.uid)}
    ensures w'.pcs == w.pcs[c := Idle] && w'.log == w.log
  {
    w' := Steps(w, Release(c), uids);
  }

  /** Enters and puts, still holding the lock. */
  lemma AddsInside(w: World, c: nat, call: Call, tasks: Tasks, uids: set<string>) returns (w': World)
    requires Reachable(w, uids) && call.AddCall? && call.uid in uids
    requires PcOf(w.pcs, c).Idle? && LockKey(call.uid) !in w.dmap
    requires if call.uid in w.dmap then w.dmap[call.uid] == Stored(tasks) else tasks == map[]
    ensures Reachable(w', uids) && w'.log == w.log + [Added(call.uid, call.task, call.ev)]
    ensures w'.dmap == w.dmap[LockKey(call.uid) := Lease(c)][call.uid := Stored(tasks[call.task := call.ev])]
    ensures w'.pcs == w.pcs[c := Releasing(call)]
  {
    var w1 := Enters(w, c, call, tasks, uids);
    w' := CommitsAdd(w1, c, call, tasks, uids);
    assert w.pcs[c := Merging(call, tasks)][c := Releasing(call)] == w.pcs[c := Releasing(call)];
  }

  /** An add that nobody interrupts. */
  lemma AddsAlone(w: World, c: nat, call: Call, tasks: Tasks, uids: set<string>) returns (w': World)
    requires Reachable(w, uids) && call.AddCall? && call.uid in uids
    requires PcOf(w.pcs, c).Idle? && LockKey(call.uid) !in w.dmap && LockKey(call.uid) != call.uid
    requires if call.uid in w.dmap then w.dmap[call.uid] == Stored(tasks) else tasks == map[]
    ensures Reachable(w', uids) && w'.dmap == w.dmap[call.uid := Stored(tasks[call.task := call.ev])]
    ensures w'.pcs == w.pcs[c := Idle]
    ensures w'.log == w.log + [Added(call.uid, call.task, call.ev)]
  {
    var w1 := AddsInside(w, c, call, tasks, uids);
    w' := Releases(w1, c, call, uids);
    assert w.pcs[c := Releasing(call)][c := Idle] == w.pcs[c := Idle];
    assert w'.dmap == w.dmap[call.uid := Stored(tasks[call.task := call.ev])];
  }

  /** Runs `u` and `k` = "lock:" + `u` used together: while caller 0 is inside `k`, caller 1 takes
      the lock on `u` ... */
  lemma BothEnter(u: string, k: string, kk: string, a: string, ev: Event, uids: set<string>) returns (w: World)
    requires k == LockKey(u) && kk == LockKey(k) && k != u && kk != k && kk != u && {u, k} <= uids
    ensures Reachable(w, uids) && w.log == [] && w.dmap == map[kk := Lease(0), k := Lease(1)]
    ensures w.pcs == map[0 := Merging(AddCall(k, a, ev), map[]), 1 := Merging(AddCall(u, a, ev), map[])]
  {
    StartIsReachable(uids);
    var w0 := Enters(START, 0, AddCall(k, a, ev), map[], uids);
    w := Enters(w0, 1, AddCall(u, a, ev), map[], uids);
  }

  /** ... which caller 0's put on `k` overwrites ... */
  lemma LeaseIsOverwritten(u: string, k: string, kk: string, a: string, ev: Event, uids: set<string>)
    returns (w: World)
    requires k == LockKey(u) && kk == LockKey(k) && k != u && kk != k && kk != u && {u, k} <= uids
    ensures Reachable(w, uids) && |w.log| == 1
    ensures w.dmap == map[k := Stored(map[a := ev])]
    ensures w.pcs == map[0 := Idle, 1 := Merging(AddCall(u, a, ev), map[])]
  {
    var w0 := BothEnter(u, k, kk, a, ev, uids);
    var w1 := CommitsAdd(w0, 0, AddCall(k, a, ev), map[], uids);
    assert w1.dmap == map[kk := Lease(0), k := Stored(map[a := ev])];
    w := Releases(w1, 0, AddCall(k, a, ev), uids);
  }

  /** ... a flush of `k` deletes it ... */
  lemma LeaseIsLost(u: string, k: string, kk: string, a: string, ev: Event, uids: set<string>)
    returns (w: World)
    requires k == LockKey(u) && kk == LockKey(k) && k != u && kk != k && kk != u && {u, k} <= uids
    ensures Reachable(w, uids) && |w.log| == 2
    ensures w.dmap == map[]
    ensures PcOf(w.pcs, 1) == Merging(AddCall(u, a, ev), map[])
    ensures PcOf(w.pcs, 3).Idle? && PcOf(w.pcs, 4).Idle?
  {
    w := LeaseIsOverwritten(u, k, kk, a, ev, uids);
    assert a in map[a := ev];
    w := Enters(w, 2, FlushCall(k), map[a := ev], uids);
    w := CommitsFlush(w, 2, FlushCall(k), map[a := ev], uids);
    w := Releases(w, 2, FlushCall(k), uids);
  }

  /** ... so caller 3 adds to `u` while caller 1 is still inside ... */
  lemma AddersOverlap(u: string, k: string, kk: string, a: string, b: string, ev: Event, uids: set<string>)
    returns (w: World)
    requires k == LockKey(u) && kk == LockKey(k) && k != u && kk != k && kk != u && {u, k} <= uids
    ensures Reachable(w, uids) && w.dmap == map[u := Stored(map[a := ev])]
    ensures PcOf(w.pcs, 4).Idle? && |w.log| == 4
    ensures w.log[2] == Added(u, b, ev) && w.log[3] == Added(u, a, ev)
  {
    w := LeaseIsLost(u, k, kk, a, ev, uids);
    w := AddsAlone(w, 3, AddCall(u, b, ev), map[], uids);
    w := CommitsAdd(w, 1, AddCall(u, a, ev), map[], uids);
  }

  /** ... and the next flush of `u` misses task `b`. */
  lemma AddIsLost(u: string, a: string, b: string, ev: Event, uids: set<string>) returns (w: World)
    requires {u, LockKey(u)} <= uids
    ensures Reachable(w, uids) && |w.log| == 5
    ensures w.log[2] == Added(u, b, ev) && w.log[3] == Added(u, a, ev)
    ensures w.log[4] == Flushed(u, Some(map[a := ev]))
  {
    var k := LockKey(u);
    assert |LockKey(k)| == |k| + 5 == |u| + 10;
    w := AddersOverlap(u, k, LockKey(k), a, b, ev, uids);
    assert a in map[a := ev];
    w := Enters(w, 4, FlushCall(u), map[a := ev], uids);
    w := CommitsFlush(w, 4, FlushCall(u), map[a := ev], uids);
  }

  lemma LostAddIsIllegal(log: seq<Entry>, n: nat, u: string, a: string, b: string, ev: Event)
    requires a != b && n + 2 < |log| && log[n] == Added(u, b, ev) && log[n + 1] == Added(u, a, ev)
    requires log[n + 2] == Flushed(u, Some(map[a := ev]))
    ensures !Legal(log)
  {
    assert IsCurrent(log[..n + 2], u, b, n);
    ReplayHoldsLastPerTask(log[..n + 2], u, b);
    assert b !in log[n + 2].answer.value;
    assert !LegalAt(log, n + 2);
  }

  /** Exactly when adds can be lost. */
  lemma AddsAreSafeIffSeparate(uids: set<string>)
    ensures LosesAdds(uids) <==> !Separate(uids)
  {
    if Separate(uids) {
      forall w | Reachable(w, uids) ensures Legal(w.log) { NoAddIsLost(w, uids); }
    } else {
      var u :| u in uids && LockKey(u) in uids;
      var ev := Event("", TaskRun, "", "", "", Running, "", "", "");
      var w := AddIsLost(u, "a", "b", ev, uids);
      LostAddIsIllegal(w.log, 2, u, "a", "b", ev);
    }
  }
}
