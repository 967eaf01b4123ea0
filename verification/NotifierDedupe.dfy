/** Per-handler deduplication on the store shared with the pipeline
    (internal/notifier/dedupestore.go:46-53, internal/notifier/dedupe_handler.go:43-80). */
module NotifierDedupe {
  import opened Common
  import opened SharedStore

  const NOTIF := "notif:"

  function Key(handler: string, event: string): string { NOTIF + handler + ":" + event }

  /** The longer handler name goes on where the shorter one ends and its event begins. */
  predicate Overlaps(h: string, e: string, h': string, e': string) {
    |h'| > |h| && h'[..|h| + 1] == h + ":" && e == h'[|h| + 1..] + ":" + e'
  }

  lemma KeyCutAt(h: string, e: string, n: nat)
    requires n <= |h|
    ensures |Key(h, e)| >= |NOTIF| + n && Key(h, e)[..|NOTIF|] == NOTIF
    ensures Key(h, e)[|NOTIF|..|NOTIF| + n] == h[..n]
    ensures Key(h, e)[|NOTIF| + n..] == h[n..] + ":" + e
  {
    assert Key(h, e) == NOTIF + (h + ":" + e);
  }

  /** Two keys are equal exactly when the pairs are, or one pair overlaps the other. */
  lemma KeysEqualIff(h: string, e: string, h': string, e': string)
    ensures Key(h, e) == Key(h', e') <==> (h == h' && e == e') || Overlaps(h, e, h', e') || Overlaps(h', e', h, e)
  {
    if |h| <= |h'| {
      ShorterFirst(h, e, h', e');
    } else {
      ShorterFirst(h', e', h, e);
    }
  }

  lemma ShorterFirst(h: string, e: string, h': string, e': string)
    requires |h| <= |h'|
    ensures Key(h, e) == Key(h', e') <==> (h == h' && e == e') || Overlaps(h, e, h', e')
  {
    var n := |h|;
    KeyCutAt(h, e, n);
    KeyCutAt(h', e', n);
    var rest := h'[n..] + ":" + e';
    assert h[n..] == "" && "" + ":" + e == ":" + e;
    assert Key(h, e) == Key(h', e') <==> h == h'[..n] && ":" + e == rest;
    TailsEqualIff(h, e, h', e');
  }

  lemma TailsEqualIff(h: string, e: string, h': string, e': string)
    requires |h| <= |h'|
    ensures (h == h'[..|h|] && ":" + e == h'[|h|..] + ":" + e') <==> (h == h' && e == e') || Overlaps(h, e, h', e')
  {
    var n := |h|;
    if |h'| == n {
      assert h'[..n] == h' && h'[n..] + ":" + e' == ":" + e';
      assert (":" + e)[1..] == e && (":" + e')[1..] == e';
    } else {
      var m := h'[n + 1..] + ":" + e';
      assert h'[n..] + ":" + e' == [h'[n]] + m;
      assert (":" + e)[1..] == e && ([h'[n]] + m)[1..] == m;
      assert h'[..n + 1] == h'[..n] + [h'[n]];
      assert (h + ":")[..n] == h && (h'[..n] + [h'[n]])[..n] == h'[..n];
    }
  }

  /** So keys of handlers with colon-free names are distinct. */
  lemma KeyInjective(h: string, e: string, h': string, e': string)
    requires ColonFree(h) && ColonFree(h')
    ensures Key(h, e) == Key(h', e') <==> h == h' && e == e'
  {
    KeysEqualIff(h, e, h', e');
    OverlapHasColon(h, e, h', e');
    OverlapHasColon(h', e', h, e);
  }

  lemma OverlapHasColon(h: string, e: string, h': string, e': string)
    ensures Overlaps(h, e, h', e') ==> ':' in h'
  {
    if Overlaps(h, e, h', e') {
      assert h'[|h|] == h'[..|h| + 1][|h|] == ':';
    }
  }

  predicate Reserved(id: string) { |id| >= |NOTIF| && id[..|NOTIF|] == NOTIF }

  lemma KeyIsReserved(h: string, e: string)
    ensures Reserved(Key(h, e))
  {
    assert Key(h, e) == NOTIF + (h + ":" + e);
  }

  // ---- The shared store over time --------------------------------------------------------------

  /** A pipeline event, or a call of a wrapped handler. Handlers are known by name only: distinct
      handlers may share one. An empty event ID stands for none in the context. */
  datatype Op =
    | Pipeline(id: string)
    | Notify(name: string, event: string)

  function KeyOf(op: Op): string { if op.Pipeline? then op.id else Key(op.name, op.event) }

  predicate Touches(op: Op) { op.Pipeline? || op.event != "" }

  /** The keys presented to the store, in order. */
  function KeysAfter(ops: seq<Op>): (r: seq<string>)
    ensures forall k :: k in r <==> exists i :: 0 <= i < |ops| && Touches(ops[i]) && KeyOf(ops[i]) == k
  {
    if ops == [] then []
    else
      var n := |ops| - 1;
      var r := KeysAfter(ops[..n]);
      assert ops == ops[..n] + [ops[n]];
      if Touches(ops[n]) then r + [KeyOf(ops[n])] else r
  }

  /** The handlers and the pipeline around one store. */
  class Dedupers {
    const store: DedupeStore
    ghost var ops: seq<Op>

    ghost predicate Valid()
      reads this, store, store.memory
    {
      store.Valid() && store.recall.history == KeysAfter(ops)
    }

    constructor (capacity: Option<int>)
      ensures Valid() && fresh(store) && (store.memory != null ==> fresh(store.memory)) && ops == []
    {
      store := new DedupeStore(capacity);
      ops := [];
    }

    /** The pipeline deduper on the same store. */
    method Dedupe(id: string) returns (first: bool)
      requires Valid()
      modifies this, store, store.memory
      ensures Valid() && ops == old(ops) + [Pipeline(id)] && store.recall.cap == old(store.recall.cap)
      ensures first == !old(store.recall).Knows(id)
    {
      first := store.FirstSeen(id);
      assert (ops + [Pipeline(id)])[..|ops|] == ops;
      ops := ops + [Pipeline(id)];
    }

    /** DedupeHandler.Handle: whether the inner handler runs. An error of the store lets it run,
        whether or not the pair was recorded. */
    method Handle(name: string, event: string, fault: Fault) returns (runs: bool)
      requires Valid()
      modifies this, store, store.memory
      ensures Valid() && store.recall.cap == old(store.recall.cap)
      ensures ops == if event == "" || fault.Refused? then old(ops) else old(ops) + [Notify(name, event)]
      ensures runs <==> event == "" || !fault.NoFault? || !old(store.recall).Knows(Key(name, event))
    {
      if event == "" || fault.Refused? {
        return true;
      }
      var first := store.FirstSeen(Key(name, event));
      assert (ops + [Notify(name, event)])[..|ops|] == ops;
      ops := ops + [Notify(name, event)];
      runs := first || !fault.NoFault?;
    }
  }

  ghost predicate PlainOp(op: Op) { if op.Pipeline? then !Reserved(op.id) else ColonFree(op.name) }

  /** With colon-free names, no reserved event ID and a store that evicts nothing, a handler runs for
      an event exactly when no call under the same name has come before, by this or any other handler
      of that name; and the pipeline sees an event exactly when it has not come before. */
  lemma RunsExactlyOnce(ops: seq<Op>, op: Op)
    requires PlainOp(op) && Touches(op) && forall i :: 0 <= i < |ops| ==> PlainOp(ops[i])
    ensures Recall(None, KeysAfter(ops)).Knows(KeyOf(op)) <==> op in ops
  {
    forall i | 0 <= i < |ops| ensures KeyOf(ops[i]) == KeyOf(op) <==> ops[i] == op {
      SameKeySameOp(ops[i], op);
    }
  }

  lemma SameKeySameOp(a: Op, b: Op)
    requires PlainOp(a) && PlainOp(b)
    ensures KeyOf(a) == KeyOf(b) <==> a == b
  {
    if a.Notify? {
      KeyIsReserved(a.name, a.event);
    }
    if b.Notify? {
      KeyIsReserved(b.name, b.event);
    }
    if a.Notify? && b.Notify? {
      KeyInjective(a.name, a.event, b.name, b.event);
    }
  }
}
