/** The processing chain: validator, filter, deduper, enricher, dispatcher
    (internal/pipeline, cmd/receiver/main.go:320-344). */
module Chain {
  import opened Common
  import opened Domain
  import opened Errors
  import opened SharedStore

  // ---- The links ------------------------------------------------------------------------

  /** `matches` is path.Match, false on a malformed pattern. */
  datatype FilterConfig = FilterConfig(
    allowTaskRun: bool, allowPipelineRun: bool, allowCustomRun: bool, allowEventListener: bool,
    ignoreUnknown: bool, allowNamespaces: seq<string>, denyNamespaces: seq<string>,
    matches: (string, string) -> bool)

  predicate Negated(p: string) { p != "" && p[0] == '!' }

  predicate Hits(cfg: FilterConfig, p: string, ns: string) {
    cfg.matches(if Negated(p) then p[1..] else p, ns)
  }

  /** A leading exclamation mark turns the rest of a pattern around; any other pattern is taken whole. */
  lemma NegatedPattern(cfg: FilterConfig, p: string, ns: string)
    ensures Negated("!" + p) && (Hits(cfg, "!" + p, ns) <==> cfg.matches(p, ns))
    ensures !("!" <= p) ==> !Negated(p) && (Hits(cfg, p, ns) <==> cfg.matches(p, ns))
  {
    assert ("!" + p)[1..] == p;
  }

  /** The last pattern that matches decides, and it must not be a negated one. */
  ghost predicate Selected(cfg: FilterConfig, ns: string, patterns: seq<string>) {
    exists i :: 0 <= i < |patterns| && Hits(cfg, patterns[i], ns) && !Negated(patterns[i])
      && forall j :: i < j < |patterns| ==> !Hits(cfg, patterns[j], ns)
  }

  method MatchNamespace(cfg: FilterConfig, ns: string, patterns: seq<string>) returns (matched: bool)
    ensures matched <==> Selected(cfg, ns, patterns)
  {
    matched := false;
    ghost var last := -1;
    for k := 0 to |patterns|
      invariant -1 <= last < k
      invariant forall j :: last < j < k ==> !Hits(cfg, patterns[j], ns)
      invariant last >= 0 ==> Hits(cfg, patterns[last], ns)
      invariant matched <==> last >= 0 && !Negated(patterns[last])
    {
      var p := patterns[k];
      var negate := |p| > 0 && p[0] == '!';
      if negate {
        p := p[1..];
      }
      if cfg.matches(p, ns) {
        matched, last := !negate, k;
      }
    }
  }

  ghost predicate NamespaceAllowed(cfg: FilterConfig, ns: string) {
    !Selected(cfg, ns, cfg.denyNamespaces) && (cfg.allowNamespaces == [] || Selected(cfg, ns, cfg.allowNamespaces))
  }

  predicate ResourceAllowed(cfg: FilterConfig, r: Resource) {
    match r
    case TaskRun => cfg.allowTaskRun
    case PipelineRun => cfg.allowPipelineRun
    case CustomRun => cfg.allowCustomRun
    case EventListener => cfg.allowEventListener
    case OtherResource(_) => !cfg.ignoreUnknown
  }

  const UNKNOWN := ".unknown.v1"

  predicate IsUnknown(ceType: string) {
    |ceType| >= |UNKNOWN| && ceType[|ceType| - |UNKNOWN|..] == UNKNOWN
  }

  lemma UnknownIff(ceType: string)
    ensures IsUnknown(ceType) <==> exists kind :: ceType == kind + ".unknown.v1"
  {
    if IsUnknown(ceType) {
      assert ceType == ceType[..|ceType| - 11] + ".unknown.v1";
    }
  }

  ghost predicate Passes(cfg: FilterConfig, env: Envelope) {
    && !(cfg.ignoreUnknown && IsUnknown(env.ceType))
    && ResourceAllowed(cfg, env.report.resource) && NamespaceAllowed(cfg, env.report.ns)
  }

  method Filter(cfg: FilterConfig, env: Envelope) returns (pass: bool)
    ensures pass <==> Passes(cfg, env)
    ensures pass <==> var r := env.report.resource;
      && !(cfg.ignoreUnknown && exists kind :: env.ceType == kind + ".unknown.v1")
      && (r.TaskRun? ==> cfg.allowTaskRun) && (r.PipelineRun? ==> cfg.allowPipelineRun)
      && (r.CustomRun? ==> cfg.allowCustomRun) && (r.EventListener? ==> cfg.allowEventListener)
      && (r.OtherResource? ==> !cfg.ignoreUnknown)
      && !Selected(cfg, env.report.ns, cfg.denyNamespaces)
      && (cfg.allowNamespaces == [] || Selected(cfg, env.report.ns, cfg.allowNamespaces))
  {
    UnknownIff(env.ceType);
    if (cfg.ignoreUnknown && IsUnknown(env.ceType)) || !ResourceAllowed(cfg, env.report.resource) {
      return false;
    }
    var denied := MatchNamespace(cfg, env.report.ns, cfg.denyNamespaces);
    if denied {
      return false;
    }
    if |cfg.allowNamespaces| == 0 {
      return true;
    }
    pass := MatchNamespace(cfg, env.report.ns, cfg.allowNamespaces);
  }

  predicate Validates(env: Option<Envelope>) {
    && env.Some? && env.value.id != ""
    && (env.value.report.resource.EventListener? || env.value.report.provider != "")
    && env.value.report.runName != ""
  }

  method Validate(env: Option<Envelope>) returns (valid: bool)
    ensures valid <==> Validates(env)
    ensures !valid <==>
      || env.None? || env.value.id == "" || env.value.report.runName == ""
      || (!env.value.report.resource.EventListener? && env.value.report.provider == "")
  {
    if env.None? || env.value.id == "" {
      return false;
    }
    if !env.value.report.resource.EventListener? {
      if env.value.report.provider == "" {
        return false;
      }
    }
    valid := env.value.report.runName != "";
  }

  /** `link` is the dashboard link of a report. It takes the place of an empty target and of nothing
      else, when there is a dashboard. */
  function Enrich(dashboard: string, link: Event -> string, env: Envelope): (r: Envelope)
    ensures r.id == env.id && r.ceType == env.ceType && r.report.(targetUrl := "") == env.report.(targetUrl := "")
    ensures dashboard == "" || env.report.targetUrl != "" ==> r.report.targetUrl == env.report.targetUrl
    ensures dashboard != "" && env.report.targetUrl == "" ==> r.report.targetUrl == link(env.report)
  {
    if dashboard != "" && env.report.targetUrl == ""
    then env.(report := env.report.(targetUrl := link(env.report)))
    else env
  }

  // ---- The linked chain -------------------------------------------------------------------

  datatype Stage =
    | Validator
    | EventFilter(cfg: FilterConfig)
    | Deduper
    | Enricher(dashboard: string, link: Event -> string)
    | Dispatch

  /** What the outside does during one call: the dedupe store may fail, the handlers answer, and
      the dead letter queue may fail to store or to remove an entry. */
  datatype Env = Env(store: Fault, answer: Option<Err>, queueFails: bool)

  /** What the store remembers, the envelope as the links left it, the error, and the fan-outs. */
  datatype Outcome = Outcome(recall: Recall, env: Option<Envelope>, err: Option<Err>, fanOuts: nat)

  /** What one link does: the outcome so far, and whether it calls the next one. */
  ghost function Pass(stage: Stage, recall: Recall, env: Option<Envelope>, x: Env): (Outcome, bool) {
    match stage
    case Validator =>
      if Validates(env) then (Outcome(recall, env, None, 0), true)
      else (Outcome(recall, env, Some(Plain("invalid")), 0), false)
    case EventFilter(cfg) => (Outcome(recall, env, None, 0), env.Some? && Passes(cfg, env.value))
    case Deduper =>
      if x.store.Refused? || env.None? then (Outcome(recall, env, None, 0), true)
      else (Outcome(recall.Present(env.value.id), env, None, 0), !(x.store.NoFault? && recall.Knows(env.value.id)))
    case Enricher(dashboard, link) =>
      (Outcome(recall, if env.Some? then Some(Enrich(dashboard, link, env.value)) else env, None, 0), true)
    case Dispatch => (Outcome(recall, env, x.answer, 1), x.answer.None?)
  }

  /** What a chain of stages does, one after the other. */
  ghost function Flow(stages: seq<Stage>, recall: Recall, env: Option<Envelope>, x: Env): Outcome {
    if stages == [] then Outcome(recall, env, None, 0)
    else
      var (o, goesOn) := Pass(stages[0], recall, env, x);
      if !goesOn then o
      else
        var rest := Flow(stages[1..], o.recall, o.env, x);
        rest.(fanOuts := o.fanOuts + rest.fanOuts)
  }

  class Link {
    const stage: Stage
    var next: Link?

    constructor (stage: Stage)
      ensures this.stage == stage && next == null
    {
      this.stage := stage;
      next := null;
    }
  }

  /** From `first` on, the links are exactly these. */
  ghost predicate Linked(first: Link?, links: seq<Link>)
    reads links
  {
    if links == [] then first == null else first == links[0] && Linked(links[0].next, links[1..])
  }

  lemma {:induction false} LinkedFrom(links: seq<Link>, i: nat)
    requires i < |links| && links[|links| - 1].next == null
    requires forall k :: i <= k < |links| - 1 ==> links[k].next == links[k + 1]
    ensures Linked(links[i], links[i..])
    decreases |links| - i
  {
    assert links[i..][1..] == links[i + 1..];
    if i + 1 < |links| {
      LinkedFrom(links, i + 1);
    }
  }

  /** The successors given to the first `n` links; a link mentioned twice has the later one. */
  ghost function Successors(links: seq<Link>, n: nat): map<Link, Link>
    requires n < |links| || n == 0
  {
    if n == 0 then map[] else Successors(links, n - 1)[links[n - 1] := links[n]]
  }

  ghost predicate Distinct(links: seq<Link>) { forall i, j :: 0 <= i < j < |links| ==> links[i] != links[j] }

  lemma {:induction false} SuccessorsOfDistinct(links: seq<Link>, n: nat, k: nat)
    requires Distinct(links) && n < |links| && k < |links|
    ensures links[k] in Successors(links, n) <==> k < n
    ensures k < n ==> Successors(links, n)[links[k]] == links[k + 1]
  {
    if n > 0 {
      SuccessorsOfDistinct(links, n - 1, k);
    }
  }

  /** Build gives every link but the last its successor and changes nothing else; distinct links
      with an open end then form the chain. */
  method Build(links: seq<Link>) returns (first: Link?)
    modifies links
    ensures first == if links == [] then null else links[0]
    ensures links != [] ==> var given := Successors(links, |links| - 1);
      forall l :: l in links ==> l.next == if l in given then given[l] else old(l.next)
    ensures Distinct(links) && (links != [] ==> old(links[|links| - 1].next) == null) ==> Linked(first, links)
  {
    if |links| == 0 {
      return null;
    }
    for i := 0 to |links| - 1
      invariant forall l :: l in links ==>
        l.next == if l in Successors(links, i) then Successors(links, i)[l] else old(l.next)
    {
      links[i].next := links[i + 1];
    }
    first := links[0];
    if Distinct(links) && old(links[|links| - 1].next) == null {
      SuccessorsOfDistinct(links, |links| - 1, |links| - 1);
      assert links[|links| - 1] in links;
      forall k | 0 <= k < |links| - 1 ensures links[k].next == links[k + 1] {
        SuccessorsOfDistinct(links, |links| - 1, k);
        assert links[k] in links;
      }
      LinkedFrom(links, 0);
      assert links[0..] == links;
    }
  }

  function Stages(links: seq<Link>): seq<Stage> {
    seq(|links|, i requires 0 <= i < |links| => links[i].stage)
  }

  /** Deduper: records the ID and drops a known one; any error of the store lets the event pass. */
  method Dedupe(store: DedupeStore, id: string, fault: Fault) returns (drop: bool)
    requires store.Valid()
    modifies store, store.memory
    ensures store.Valid() && (drop <==> fault.NoFault? && old(store.recall).Knows(id))
    ensures store.recall == if fault.Refused? then old(store.recall) else old(store.recall).Present(id)
  {
    drop := false;
    if !fault.Refused? {
      var first := store.FirstSeen(id);
      drop := fault.NoFault? && !first;
    }
  }

  /** The Handle of one link, up to its call of the next. */
  method HandleStage(stage: Stage, store: DedupeStore, env: Option<Envelope>, x: Env)
    returns (err: Option<Err>, env': Option<Envelope>, ghost fanOuts: nat, goesOn: bool)
    requires store.Valid()
    modifies store, store.memory
    ensures store.Valid()
    ensures (Outcome(store.recall, env', err, fanOuts), goesOn) == Pass(stage, old(store.recall), env, x)
  {
    err, env', fanOuts, goesOn := None, env, 0, true;
    match stage
    case Validator =>
      var valid := Validate(env);
      if !valid { err, goesOn := Some(Plain("invalid")), false; }
    case EventFilter(cfg) =>
      if env.None? { goesOn := false; return; }
      goesOn := Filter(cfg, env.value);
    case Deduper =>
      if env.Some? {
        var drop := Dedupe(store, env.value.id, x.store);
        goesOn := !drop;
      }
    case Enricher(dashboard, link) =>
      env' := if env.Some? then Some(Enrich(dashboard, link, env.value)) else env;
    case Dispatch =>
      err, fanOuts, goesOn := x.answer, 1, x.answer.None?;
  }

  /** Next, and the handlers it calls. */
  method Next(first: Link?, ghost links: seq<Link>, store: DedupeStore, env: Option<Envelope>, x: Env)
    returns (err: Option<Err>, env': Option<Envelope>, ghost fanOuts: nat)
    requires Linked(first, links) && store.Valid()
    modifies store, store.memory
    ensures store.Valid() && Outcome(store.recall, env', err, fanOuts) == Flow(Stages(links), old(store.recall), env, x)
    decreases |links|
  {
    if first == null {
      return None, env, 0;
    }
    ghost var rest := links[1..];
    assert Stages(links)[1..] == Stages(rest);
    var goesOn;
    err, env', fanOuts, goesOn := HandleStage(first.stage, store, env, x);
    if goesOn {
      ghost var more;
      err, env', more := Next(first.next, rest, store, env', x);
      fanOuts := fanOuts + more;
    }
  }
}
