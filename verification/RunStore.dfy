/** The abstract run buffer every backend refines: `uid -> task -> event`,
    with the history of its operations (internal/store/store.go). */
module RunStore {
  import opened Common
  import opened Domain

  type Tasks = map<string, Event>
  type Runs = map<string, Tasks>

  function TasksOf(runs: Runs, uid: string): Tasks {
    if uid in runs then runs[uid] else map[]
  }

  function AddTo(runs: Runs, uid: string, task: string, ev: Event): Runs {
    runs[uid := TasksOf(runs, uid)[task := ev]]
  }

  /** What a flush of `uid` answers; an empty run answers nothing. */
  function FlushOf(runs: Runs, uid: string): Option<Tasks> {
    if uid in runs && runs[uid] != map[] then Some(runs[uid]) else None
  }

  /** One completed operation, with the answer it gave. */
  datatype Entry =
    | Added(uid: string, task: string, ev: Event)
    | Flushed(uid: string, answer: Option<Tasks>)

  function Apply(runs: Runs, e: Entry): Runs {
    match e
    case Added(uid, task, ev) => AddTo(runs, uid, task, ev)
    case Flushed(uid, _) => runs - {uid}
  }

  function Replay(log: seq<Entry>): Runs {
    if log == [] then map[] else Apply(Replay(log[..|log| - 1]), log[|log| - 1])
  }

  /** An entry touches its own run only. */
  lemma ReplayAt(log: seq<Entry>, e: Entry, u: string)
    ensures u != e.uid ==> (u in Replay(log + [e]) <==> u in Replay(log))
    ensures u != e.uid ==> TasksOf(Replay(log + [e]), u) == TasksOf(Replay(log), u)
    ensures e.Added? && u == e.uid ==>
      u in Replay(log + [e]) && Replay(log + [e])[u] == TasksOf(Replay(log), u)[e.task := e.ev] != map[]
    ensures e.Flushed? && u == e.uid ==> u !in Replay(log + [e])
  {
    assert e.Added? ==> e.task in TasksOf(Replay(log), u)[e.task := e.ev];
  }

  /** Every flush in the history answered what the operations before it left. */
  ghost predicate Legal(log: seq<Entry>) { forall i :: 0 <= i < |log| ==> LegalAt(log, i) }

  ghost predicate LegalAt(log: seq<Entry>, i: int)
    requires 0 <= i < |log|
  {
    log[i].Flushed? ==> log[i].answer == FlushOf(Replay(log[..i]), log[i].uid)
  }

  lemma LegalAppend(log: seq<Entry>, e: Entry)
    requires Legal(log)
    requires e.Flushed? ==> e.answer == FlushOf(Replay(log), e.uid)
    ensures Legal(log + [e])
  {
    var all := log + [e];
    forall i | 0 <= i < |all| ensures LegalAt(all, i) {
      assert all[..i] == log[..i];
      assert i < |log| ==> LegalAt(log, i);
      assert log[..|log|] == log;
    }
  }

  /** Entry `i` is the last event stored for `task` of `uid`, and no flush of `uid` came after it. */
  ghost predicate IsCurrent(log: seq<Entry>, uid: string, task: string, i: int) {
    && 0 <= i < |log|
    && log[i].Added? && log[i].uid == uid && log[i].task == task
    && forall j :: i < j < |log| ==> !Supersedes(log[j], uid, task)
  }

  predicate Supersedes(e: Entry, uid: string, task: string) {
    e.uid == uid && (e.Flushed? || e.task == task)
  }

  /** The replayed map read off the history alone: a task is present exactly when some add of
      it is still current, and it then carries that add's event. */
  lemma {:induction false} ReplayHoldsLastPerTask(log: seq<Entry>, uid: string, task: string)
    ensures task in TasksOf(Replay(log), uid) <==> exists i :: IsCurrent(log, uid, task, i)
    ensures forall i :: IsCurrent(log, uid, task, i) ==> TasksOf(Replay(log), uid)[task] == log[i].ev
  {
    if log != [] {
      var n := |log| - 1;
      var before := log[..n];
      ReplayHoldsLastPerTask(before, uid, task);
      if Supersedes(log[n], uid, task) {
        assert log[n].Added? ==> IsCurrent(log, uid, task, n);
      } else {
        forall i ensures IsCurrent(log, uid, task, i) <==> IsCurrent(before, uid, task, i) {
          if IsCurrent(before, uid, task, i) {
            assert forall j :: i < j < n ==> log[j] == before[j];
          }
          if IsCurrent(log, uid, task, i) {
            assert forall j :: i < j < n ==> before[j] == log[j];
          }
        }
      }
    }
  }

  /** So a flush answers exactly the last event per task stored since the previous flush. */
  lemma LegalFlushAnswersLastPerTask(log: seq<Entry>, k: int, task: string)
    requires Legal(log) && 0 <= k < |log| && log[k].Flushed?
    ensures log[k].answer.Some? ==>
      (task in log[k].answer.value <==> exists i :: IsCurrent(log[..k], log[k].uid, task, i))
    ensures forall i :: IsCurrent(log[..k], log[k].uid, task, i) ==>
      log[k].answer.Some? && task in log[k].answer.value && log[k].answer.value[task] == log[i].ev
  {
    assert LegalAt(log, k);
    ReplayHoldsLastPerTask(log[..k], log[k].uid, task);
  }
}
