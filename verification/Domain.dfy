/** The neutral event model (internal/domain/status.go, internal/event/event.go),
    restricted to the fields the delivery core reads. `payload` stands for the rest. */
module Domain {

  datatype Resource = TaskRun | PipelineRun | CustomRun | EventListener | OtherResource(name: string)

  datatype State =
    | Pending | Running | Success | Failure | Error | Canceled | Done
    | OtherState(name: string)

  datatype Event = Event(
    provider: string,
    resource: Resource,
    runName: string,
    runId: string,
    ns: string,
    state: State,
    groupId: string,
    targetUrl: string,
    payload: string)

  datatype Envelope = Envelope(id: string, ceType: string, report: Event)

  /** isTerminalState of the accumulator. */
  predicate IsTerminal(s: State) {
    s.Success? || s.Failure? || s.Canceled? || s.Error?
  }

  predicate EndsRun(e: Event) {
    e.resource.PipelineRun? && IsTerminal(e.state)
  }

  /** The states by the text an event carries. */
  function StateOf(text: string): State {
    match text
    case "pending" => Pending
    case "running" => Running
    case "success" => Success
    case "failure" => Failure
    case "error" => Error
    case "canceled" => Canceled
    case "done" => Done
    case _ => OtherState(text)
  }

  function ResourceOf(text: string): Resource {
    match text
    case "taskrun" => TaskRun
    case "pipelinerun" => PipelineRun
    case "customrun" => CustomRun
    case "eventlistener" => EventListener
    case _ => OtherResource(text)
  }

  /** A run ends with a pipeline run's event in one of four states; "done" is none of them. */
  lemma EndsRunIff(e: Event, resource: string, state: string)
    requires e.resource == ResourceOf(resource) && e.state == StateOf(state)
    ensures EndsRun(e) <==>
      resource == "pipelinerun" && state in {"success", "failure", "canceled", "error"}
  {}
}
