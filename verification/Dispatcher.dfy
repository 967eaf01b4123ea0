/** Fan-out, fallbacks and the answer to the sender (internal/pipeline/dispatcher.go:88-301,
    internal/http/handler.go:181-218). */
module Dispatcher {
  import opened Common
  import opened Errors
  import opened Registry

  /** `fallbacks` None is the nil map: fallbacks are then not even looked at. */
  datatype Config = Config(
    handlers: seq<ActionHandler>, fallbacks: Option<map<string, string>>, fallbackOnly: set<string>)

  predicate Matches(cfg: Config, provider: string, h: ActionHandler) {
    h.name !in cfg.fallbackOnly && (provider == "" || provider == h.provider || h.action == NOTIFY)
  }

  function Matched(cfg: Config, provider: string): seq<ActionHandler> {
    Select((h: ActionHandler) => Matches(cfg, provider, h), cfg.handlers)
  }

  /** The handlers that may take an event, each at its own place in the registered order. */
  method MatchHandlers(cfg: Config, provider: string) returns (matched: seq<ActionHandler>)
    ensures matched == Matched(cfg, provider)
    ensures exists f :: Picks(f, cfg.handlers, matched) && forall i: nat :: i in f <==>
      && i < |cfg.handlers| && cfg.handlers[i].name !in cfg.fallbackOnly
      && (provider == "" || provider == cfg.handlers[i].provider || cfg.handlers[i].action == "notify")
  {
    ghost var f := SelectPicks((h: ActionHandler) => Matches(cfg, provider, h), cfg.handlers);
    matched := [];
    for i := 0 to |cfg.handlers|
      invariant matched == Select((h: ActionHandler) => Matches(cfg, provider, h), cfg.handlers[..i])
    {
      var h := cfg.handlers[i];
      PrefixSnoc(cfg.handlers, i);
      if h.name in cfg.fallbackOnly { continue; }
      if provider != "" && provider != h.provider && h.action != NOTIFY { continue; }
      matched := matched + [h];
    }
    assert cfg.handlers[..|cfg.handlers|] == cfg.handlers;
  }

  /** What happens to one handler: its goroutine finds the context done, or it runs. */
  datatype Answer = Skipped | Ran(err: Option<Err>)

  datatype Result = Result(index: nat, err: Option<Err>)

  function Indices(n: nat): (r: set<nat>)
    ensures forall i: nat :: i in r <==> i < n
  {
    if n == 0 then {} else Indices(n - 1) + {n - 1}
  }

  /** Every handler that ran has one result, in some order of completion. */
  ghost predicate Completed(answers: seq<Answer>, done: set<nat>, results: seq<Result>) {
    && (forall j, k :: 0 <= j < k < |results| ==> results[j].index != results[k].index)
    && (forall r :: r in results ==> r.index < |answers| && r.index in done && answers[r.index] == Ran(r.err))
    && (forall i :: i in done && i < |answers| && answers[i].Ran? ==> Result(i, answers[i].err) in results)
  }

  function Label(h: ActionHandler): string { h.provider + "/" + h.name + "/" + h.action + ": " }

  /** The collected errors: none without a failed result, and a retryable one exactly with one. */
  ghost predicate Collects(errs: seq<Err>, results: seq<Result>) {
    && (errs != [] <==> exists r :: r in results && r.err.Some?)
    && (SearchAll(errs) <==> exists r :: r in results && IsRetryable(r.err))
  }

  lemma SearchAllSnoc(errs: seq<Err>, e: Err)
    ensures SearchAll(errs + [e]) <==> SearchAll(errs) || Search(e)
  {
    SearchAllIff(errs);
    SearchAllIff(errs + [e]);
    assert e in errs + [e];
    assert forall x :: x in errs + [e] <==> x in errs || x == e;
  }

  lemma SearchAllConcat(a: seq<Err>, b: seq<Err>)
    ensures SearchAll(a + b) <==> SearchAll(a) || SearchAll(b)
  {
    SearchAllIff(a);
    SearchAllIff(b);
    SearchAllIff(a + b);
  }

  lemma CollectsNext(errs: seq<Err>, results: seq<Result>, r: Result, prefix: string)
    requires Collects(errs, results)
    ensures Collects(if r.err.Some? then errs + [Wrap(prefix, r.err.value)] else errs, results + [r])
  {
    assert forall x :: x in results + [r] <==> x in results || x == r;
    if r.err.Some? {
      SearchAllSnoc(errs, Wrap(prefix, r.err.value));
    }
  }

  lemma CompletedNext(answers: seq<Answer>, done: set<nat>, results: seq<Result>, i: nat)
    requires Completed(answers, done, results) && i !in done && i < |answers|
    ensures Completed(answers, done + {i}, if answers[i].Ran? then results + [Result(i, answers[i].err)] else results)
  {
    assert forall k :: 0 <= k < |results| ==> results[k] in results;
  }

  /** The goroutines, finishing in any order. */
  method FanOut(matched: seq<ActionHandler>, answers: seq<Answer>)
    returns (errs: seq<Err>, results: seq<Result>, waitErr: Option<Err>)
    requires |answers| == |matched|
    ensures Completed(answers, Indices(|answers|), results) && Collects(errs, results)
    ensures waitErr == if Skipped in answers then Some(Plain("context canceled")) else None
  {
    errs, results, waitErr := [], [], None;
    ghost var all := Indices(|answers|);
    var left := Indices(|answers|);
    while left != {}
      invariant left <= all && Completed(answers, all - left, results) && Collects(errs, results)
      invariant waitErr ==
        if exists i :: i in all - left && answers[i].Skipped? then Some(Plain("context canceled")) else None
    {
      var i :| i in left;
      CompletedNext(answers, all - left, results, i);
      assert all - (left - {i}) == (all - left) + {i};
      left := left - {i};
      match answers[i]
      case Skipped => waitErr := Some(Plain("context canceled"));
      case Ran(err) =>
        CollectsNext(errs, results, Result(i, err), Label(matched[i]));
        if err.Some? {
          errs := errs + [Wrap(Label(matched[i]), err.value)];
        }
        results := results + [Result(i, err)];
    }
    assert all - {} == all;
  }

  /** The handler at `k` is the fallback of the handler called `name`. */
  ghost predicate StandsIn(cfg: Config, name: string, k: nat) {
    && cfg.fallbacks.Some? && name in cfg.fallbacks.value && cfg.fallbacks.value[name] != ""
    && IsFirst(cfg.handlers, cfg.fallbacks.value[name], k)
  }

  function FallbackFor(cfg: Config, name: string): Option<ActionHandler> {
    if cfg.fallbacks.Some? && name in cfg.fallbacks.value && cfg.fallbacks.value[name] != ""
    then FirstNamed(cfg.handlers, cfg.fallbacks.value[name])
    else None
  }

  lemma NoFallback(cfg: Config, name: string)
    requires FallbackFor(cfg, name).None?
    ensures forall k: nat :: !StandsIn(cfg, name, k)
  {}

  lemma FallbackIs(cfg: Config, name: string) returns (k: nat)
    requires FallbackFor(cfg, name).Some?
    ensures StandsIn(cfg, name, k) && FallbackFor(cfg, name).value == cfg.handlers[k]
    ensures forall j: nat :: StandsIn(cfg, name, j) ==> j == k
  {
    k :| IsFirst(cfg.handlers, cfg.fallbacks.value[name], k) && FallbackFor(cfg, name).value == cfg.handlers[k];
  }

  predicate Permanent(err: Option<Err>) { err.Some? && !IsRetryable(err) }

  datatype Call = Call(primary: nat, handler: ActionHandler)

  ghost predicate CalledFor(cfg: Config, matched: seq<ActionHandler>, results: seq<Result>, calls: seq<Call>) {
    && (forall r :: r in results ==> r.index < |matched|)
    && (forall j, k :: 0 <= j < k < |calls| ==> calls[j].primary != calls[k].primary)
    && (forall r, k: nat :: r in results && Permanent(r.err) && StandsIn(cfg, matched[r.index].name, k) ==>
          Call(r.index, cfg.handlers[k]) in calls)
    && (forall c :: c in calls ==> Served(cfg, matched, results, c))
  }

  /** Some result accounts for the call. */
  ghost predicate Served(cfg: Config, matched: seq<ActionHandler>, results: seq<Result>, c: Call)
    requires forall r :: r in results ==> r.index < |matched|
  {
    exists r, k: nat :: r in results && r.index == c.primary && Permanent(r.err)
      && StandsIn(cfg, matched[r.index].name, k) && c.handler == cfg.handlers[k]
  }

  ghost predicate FallbackErrs(errs: seq<Err>, calls: seq<Call>, answer: nat -> Option<Err>) {
    && (errs != [] ==> calls != [])
    && (SearchAll(errs) <==> exists c :: c in calls && IsRetryable(answer(c.primary)))
  }

  lemma CalledForSkip(cfg: Config, matched: seq<ActionHandler>, results: seq<Result>, calls: seq<Call>, r: Result)
    requires CalledFor(cfg, matched, results, calls) && r.index < |matched|
    requires !Permanent(r.err) || forall k: nat :: !StandsIn(cfg, matched[r.index].name, k)
    ensures CalledFor(cfg, matched, results + [r], calls)
  {
    forall c | c in calls ensures Served(cfg, matched, results + [r], c) {
      assert Served(cfg, matched, results, c);
    }
  }

  lemma CalledForNext(cfg: Config, matched: seq<ActionHandler>, results: seq<Result>, calls: seq<Call>, r: Result)
    requires CalledFor(cfg, matched, results, calls) && r.index < |matched|
    requires forall q :: q in results ==> q.index != r.index
    requires Permanent(r.err) && FallbackFor(cfg, matched[r.index].name).Some?
    ensures var next := Call(r.index, FallbackFor(cfg, matched[r.index].name).value);
      CalledFor(cfg, matched, results + [r], calls + [next])
  {
    var next := Call(r.index, FallbackFor(cfg, matched[r.index].name).value);
    var k := FallbackIs(cfg, matched[r.index].name);
    forall k | 0 <= k < |calls| ensures calls[k].primary != r.index {
      assert calls[k] in calls;
    }
    forall c | c in calls + [next] ensures Served(cfg, matched, results + [r], c) {
      if c in calls {
        assert Served(cfg, matched, results, c);
      } else {
        assert r in results + [r];
      }
    }
  }

  lemma FallbackErrsNext(errs: seq<Err>, calls: seq<Call>, answer: nat -> Option<Err>, c: Call, primary: Err,
                         prefix: string)
    requires FallbackErrs(errs, calls, answer) && !Search(primary)
    ensures FallbackErrs(
      if answer(c.primary).Some? then errs + [Wrap(prefix, Join([primary, answer(c.primary).value]))] else errs,
      calls + [c], answer)
  {
    assert forall x :: x in calls + [c] <==> x in calls || x == c;
    if answer(c.primary).Some? {
      var e := answer(c.primary).value;
      assert SearchAll([e]) <==> Search(e);
      assert [primary, e][1..] == [e];
      assert SearchAll([primary, e]) <==> Search(e);
      SearchAllSnoc(errs, Wrap(prefix, Join([primary, e])));
    }
  }

  /** Fallbacks run one after another over the results; `answer` is what the fallback called for
      a primary returns. The errors of fallbacks are not looked at again. */
  method ExecuteFallbacks(cfg: Config, matched: seq<ActionHandler>, results: seq<Result>, answer: nat -> Option<Err>)
    returns (errs: seq<Err>, calls: seq<Call>)
    requires forall r :: r in results ==> r.index < |matched|
    requires forall j, k :: 0 <= j < k < |results| ==> results[j].index != results[k].index
    ensures CalledFor(cfg, matched, results, calls) && FallbackErrs(errs, calls, answer)
  {
    errs, calls := [], [];
    for k := 0 to |results|
      invariant CalledFor(cfg, matched, results[..k], calls) && FallbackErrs(errs, calls, answer)
    {
      var r := results[k];
      PrefixSnoc(results, k);
      assert r in results;
      var fb := FallbackFor(cfg, matched[r.index].name);
      if r.err.None? || IsRetryable(r.err) || fb.None? {
        if fb.None? { NoFallback(cfg, matched[r.index].name); }
        CalledForSkip(cfg, matched, results[..k], calls, r);
        continue;
      }
      var call := Call(r.index, fb.value);
      var prefix := "fallback " + fb.value.name + " for " + matched[r.index].name + ": ";
      CalledForNext(cfg, matched, results[..k], calls, r);
      FallbackErrsNext(errs, calls, answer, call, r.err.value, prefix);
      calls := calls + [call];
      if answer(r.index).Some? {
        errs := errs + [Wrap(prefix, Join([r.err.value, answer(r.index).value]))];
      }
    }
    assert results[..|results|] == results;
  }

  // ---- One event -----------------------------------------------------------------------

  ghost predicate SomeFails(answers: seq<Answer>) {
    exists i :: 0 <= i < |answers| && answers[i].Ran? && answers[i].err.Some?
  }

  ghost predicate SomeRetryable(answers: seq<Answer>, calls: seq<Call>, answer: nat -> Option<Err>) {
    || (exists i :: 0 <= i < |answers| && answers[i].Ran? && IsRetryable(answers[i].err))
    || (exists c :: c in calls && IsRetryable(answer(c.primary)))
  }

  /** Exactly one call for each primary that failed permanently and whose name the map sends to the
      name of some handler, to the first handler so named; a failed fallback triggers nothing. */
  ghost predicate OneCallEach(cfg: Config, matched: seq<ActionHandler>, answers: seq<Answer>, calls: seq<Call>)
    requires |answers| == |matched|
  {
    && (forall j, k :: 0 <= j < k < |calls| ==> calls[j].primary != calls[k].primary)
    && (forall c :: c in calls ==>
          && c.primary < |matched| && answers[c.primary].Ran?
          && answers[c.primary].err.Some? && !IsRetryable(answers[c.primary].err)
          && cfg.fallbacks.Some? && matched[c.primary].name in cfg.fallbacks.value
          && cfg.fallbacks.value[matched[c.primary].name] != ""
          && exists k :: && IsFirst(cfg.handlers, cfg.fallbacks.value[matched[c.primary].name], k)
                         && c.handler == cfg.handlers[k])
    && (forall i: nat, k ::
          && i < |matched| && answers[i].Ran? && answers[i].err.Some? && !IsRetryable(answers[i].err)
          && cfg.fallbacks.Some? && matched[i].name in cfg.fallbacks.value
          && cfg.fallbacks.value[matched[i].name] != ""
          && IsFirst(cfg.handlers, cfg.fallbacks.value[matched[i].name], k)
          ==> Call(i, cfg.handlers[k]) in calls)
  }

  /** The dispatcher, last in the chain. */
  method Handle(cfg: Config, provider: string, answers: seq<Answer>, answer: nat -> Option<Err>)
    returns (err: Option<Err>, calls: seq<Call>)
    requires |answers| == |Matched(cfg, provider)|
    ensures err.Some? <==> SomeFails(answers) || Skipped in answers
    ensures IsRetryable(err) <==> SomeRetryable(answers, calls, answer)
    ensures OneCallEach(cfg, Matched(cfg, provider), answers, calls)
  {
    var matched := MatchHandlers(cfg, provider);
    var errs, results, waitErr := FanOut(matched, answers);
    var fallbackErrs;
    fallbackErrs, calls := RunFallbacks(cfg, matched, answers, results, answer);
    Tally(answers, answer, errs, results, fallbackErrs, calls, waitErr);
    var all := errs + fallbackErrs + Listed(waitErr);
    err := if |all| > 0 then Some(Join(all)) else None;
  }

  /** A nil fallback map means no fallback. */
  method RunFallbacks(cfg: Config, matched: seq<ActionHandler>, answers: seq<Answer>, results: seq<Result>,
                      answer: nat -> Option<Err>)
    returns (errs: seq<Err>, calls: seq<Call>)
    requires |answers| == |matched| && Completed(answers, Indices(|answers|), results)
    ensures OneCallEach(cfg, matched, answers, calls) && FallbackErrs(errs, calls, answer)
    ensures calls != [] ==> SomeFails(answers)
  {
    errs, calls := [], [];
    if cfg.fallbacks.Some? {
      errs, calls := ExecuteFallbacks(cfg, matched, results, answer);
    }
    FailuresBehindCalls(cfg, matched, answers, calls);
  }

  function Listed(e: Option<Err>): seq<Err> { if e.Some? then [e.value] else [] }

  lemma Tally(answers: seq<Answer>, answer: nat -> Option<Err>, errs: seq<Err>, results: seq<Result>,
              fallbackErrs: seq<Err>, calls: seq<Call>, waitErr: Option<Err>)
    requires Completed(answers, Indices(|answers|), results) && Collects(errs, results)
    requires FallbackErrs(fallbackErrs, calls, answer) && (calls != [] ==> SomeFails(answers))
    requires waitErr.Some? ==> waitErr.value.Plain?
    ensures errs + fallbackErrs + Listed(waitErr) != [] <==> SomeFails(answers) || waitErr.Some?
    ensures SearchAll(errs + fallbackErrs + Listed(waitErr)) <==> SomeRetryable(answers, calls, answer)
  {
    SearchAllConcat(errs, fallbackErrs);
    SearchAllConcat(errs + fallbackErrs, Listed(waitErr));
    SearchAllIff(Listed(waitErr));
  }

  lemma FailuresBehindCalls(cfg: Config, matched: seq<ActionHandler>, answers: seq<Answer>, calls: seq<Call>)
    requires |answers| == |matched| && OneCallEach(cfg, matched, answers, calls)
    ensures calls != [] ==> SomeFails(answers)
  {
    if calls != [] {
      assert calls[0] in calls;
    }
  }

  /** handleChainResult and preserveInDLQ: the status and whether the queue is handed the event. */
  method HandleChainResult(err: Option<Err>, hasQueue: bool) returns (status: int, enqueued: bool)
    ensures status == if IsRetryable(err) then 503 else 200
    ensures enqueued <==> hasQueue && err.Some? && !IsRetryable(err)
  {
    enqueued := false;
    if err.Some? {
      if IsRetryable(err) {
        return 503, false;
      }
      enqueued := hasQueue;
    }
    status := 200;
  }

  ghost predicate HoldsRetryable(e: Option<Err>) { e.Some? && exists path :: Holds(e.value, path) }

  /** An event that reaches the dispatcher with a live context, in any order of completion: 503
      exactly when some handler or invoked fallback error holds a RetryableError anywhere in its
      tree; otherwise 200, with the event kept for replay exactly when some handler failed, even if its
      fallback succeeded. */
  method Deliver(cfg: Config, provider: string, answers: seq<Answer>, answer: nat -> Option<Err>, hasQueue: bool)
    returns (status: int, enqueued: bool, calls: seq<Call>)
    requires |answers| == |Matched(cfg, provider)| && Skipped !in answers
    ensures status == 503 || status == 200
    ensures status == 503 <==>
      || (exists i :: 0 <= i < |answers| && HoldsRetryable(answers[i].err))
      || (exists c :: c in calls && HoldsRetryable(answer(c.primary)))
    ensures enqueued <==> hasQueue && status == 200 && exists i :: 0 <= i < |answers| && answers[i].err.Some?
    ensures OneCallEach(cfg, Matched(cfg, provider), answers, calls)
  {
    var err;
    err, calls := Handle(cfg, provider, answers, answer);
    status, enqueued := HandleChainResult(err, hasQueue);
    forall e: Option<Err> ensures HoldsRetryable(e) <==> IsRetryable(e) {
      if e.Some? { IsRetryableIff(e.value); }
    }
    assert forall i :: 0 <= i < |answers| ==> answers[i].Ran? by {
      assert forall i :: 0 <= i < |answers| ==> answers[i] in answers;
    }
  }
}
