/** What the accumulator posts at ungrouped events, whatever buffer it uses
    (internal/accumulator/handler.go:60-84 and 128-161). Grouped events do not touch it. */
module SummarySpec {
  import opened Common
  import opened Domain
  import opened RunStore

  /** The aggregate event handed to the provider: the event that ended the run, and the tasks
      the summary lists. */
  datatype Summary = Summary(final: Event, tasks: Tasks)

  function StepRuns(runs: Runs, e: Event): Runs {
    if e.runId == "" || e.groupId != "" then runs
    else if e.resource.TaskRun? then AddTo(runs, e.runId, e.runName, e)
    else if EndsRun(e) then runs - {e.runId}
    else runs
  }

  function StepPost(runs: Runs, e: Event): Option<Summary> {
    if e.runId != "" && e.groupId == "" && EndsRun(e) && FlushOf(runs, e.runId).Some?
    then Some(Summary(e, runs[e.runId]))
    else None
  }

  function RunsAfter(es: seq<Event>): Runs {
    if es == [] then map[] else StepRuns(RunsAfter(es[..|es| - 1]), es[|es| - 1])
  }

  function Posts(es: seq<Event>): seq<Option<Summary>> {
    if es == [] then [] else Posts(es[..|es| - 1]) + [StepPost(RunsAfter(es[..|es| - 1]), es[|es| - 1])]
  }

  /** A step in terms of the tasks held for one run. */
  lemma StepAt(runs: Runs, e: Event, u: string)
    requires e.runId != "" && e.groupId == ""
    ensures StepPost(runs, e) ==
      if EndsRun(e) && TasksOf(runs, e.runId) != map[] then Some(Summary(e, TasksOf(runs, e.runId))) else None
    ensures TasksOf(StepRuns(runs, e), u) ==
      if u != e.runId then TasksOf(runs, u)
      else if e.resource.TaskRun? then TasksOf(runs, u)[e.runName := e]
      else if EndsRun(e) then map[] else TasksOf(runs, u)
  {}

  lemma {:induction false} PostAt(es: seq<Event>, k: nat)
    requires k < |es|
    ensures |Posts(es)| == |es| && Posts(es)[k] == StepPost(RunsAfter(es[..k]), es[k])
  {
    var n := |es| - 1;
    assert Posts(es) == Posts(es[..n]) + [StepPost(RunsAfter(es[..n]), es[n])];
    if k < n {
      PostAt(es[..n], k);
      assert es[..n][..k] == es[..k];
    } else if n > 0 {
      PostAt(es[..n], n - 1);
    }
  }

  predicate IsTask(e: Event, uid: string) { e.groupId == "" && e.resource.TaskRun? && e.runId == uid }

  predicate Ends(e: Event, uid: string) { e.groupId == "" && EndsRun(e) && e.runId == uid }

  /** Event `i` is the last one of `task` in run `uid`, and the run has not been flushed since. */
  ghost predicate IsLatest(es: seq<Event>, uid: string, task: string, i: int) {
    && 0 <= i < |es| && IsTask(es[i], uid) && es[i].runName == task
    && forall j :: i < j < |es| ==> !Overtakes(es[j], uid, task)
  }

  predicate Overtakes(e: Event, uid: string, task: string) {
    Ends(e, uid) || (IsTask(e, uid) && e.runName == task)
  }

  /** The accumulated state read off the events alone. */
  lemma {:induction false} RunsHoldLatest(es: seq<Event>, uid: string, task: string)
    requires uid != ""
    ensures task in TasksOf(RunsAfter(es), uid) <==> exists i :: IsLatest(es, uid, task, i)
    ensures forall i :: IsLatest(es, uid, task, i) ==> TasksOf(RunsAfter(es), uid)[task] == es[i]
  {
    if es != [] {
      var n := |es| - 1;
      var before := es[..n];
      RunsHoldLatest(before, uid, task);
      if Overtakes(es[n], uid, task) {
        assert IsTask(es[n], uid) ==> IsLatest(es, uid, task, n);
      } else {
        forall i ensures IsLatest(es, uid, task, i) <==> IsLatest(before, uid, task, i) {
          if IsLatest(before, uid, task, i) {
            assert forall j :: i < j < n ==> es[j] == before[j];
          }
          if IsLatest(es, uid, task, i) {
            assert forall j :: i < j < n ==> before[j] == es[j];
          }
        }
      }
    }
  }

  /** A task event of the run with no end of the run after it. */
  ghost predicate Pends(es: seq<Event>, uid: string, i: int) {
    0 <= i < |es| && IsTask(es[i], uid) && forall j :: i < j < |es| ==> !Ends(es[j], uid)
  }

  /** Any pending task event is, or is followed by, the latest one of its task. */
  lemma {:induction false} PendingHasLatest(es: seq<Event>, uid: string, i: int) returns (l: int)
    requires Pends(es, uid, i)
    ensures IsLatest(es, uid, es[i].runName, l)
    decreases |es| - i
  {
    if j :| i < j < |es| && Overtakes(es[j], uid, es[i].runName) {
      l := PendingHasLatest(es, uid, j);
    } else {
      l := i;
    }
  }

  /** A summary is posted at event `k` exactly when that event ends a run some task event of
      which has arrived since the run was last flushed. */
  lemma PostIff(es: seq<Event>, k: nat)
    requires k < |es|
    ensures |Posts(es)| == |es|
    ensures Posts(es)[k].Some? <==>
      es[k].runId != "" && es[k].groupId == "" && EndsRun(es[k]) && exists i :: Pends(es[..k], es[k].runId, i)
  {
    PostAt(es, k);
    var uid, before := es[k].runId, es[..k];
    if uid != "" && es[k].groupId == "" && EndsRun(es[k]) {
      if i :| Pends(before, uid, i) {
        var l := PendingHasLatest(before, uid, i);
        RunsHoldLatest(before, uid, before[i].runName);
      }
      if FlushOf(RunsAfter(before), uid).Some? {
        var t :| t in RunsAfter(before)[uid];
        RunsHoldLatest(before, uid, t);
        var l :| IsLatest(before, uid, t, l);
        assert Pends(before, uid, l);
      }
    }
  }

  /** And it lists exactly the last event of every task since then. */
  lemma PostLists(es: seq<Event>, k: nat, task: string)
    requires k < |es| && |Posts(es)| == |es| && Posts(es)[k].Some?
    ensures var uid, tasks := es[k].runId, Posts(es)[k].value.tasks;
      && Posts(es)[k].value.final == es[k]
      && (task in tasks <==> exists i :: IsLatest(es[..k], uid, task, i))
      && (forall i :: IsLatest(es[..k], uid, task, i) ==> tasks[task] == es[i])
  {
    PostAt(es, k);
    RunsHoldLatest(es[..k], es[k].runId, task);
  }
}
