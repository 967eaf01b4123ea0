/** The dedupe store shared by the pipeline and the notifiers (internal/store/store.go:27-32): the LRU
    of the memory backend, or a remote set that evicts nothing. Recording is one atomic step. */
module SharedStore {
  import opened Common
  import opened Lru
  import M = MemoryDedupe

  /** What a store remembers: all keys ever presented, in order, and how many it can hold. */
  datatype Recall = Recall(cap: Option<nat>, history: seq<string>) {

    /** The key came before and, in a bounded store, fewer than `cap` distinct others came since. */
    ghost predicate Knows(key: string) {
      key in history && (cap.Some? ==> |M.OthersSince(history, key)| < cap.value)
    }

    function Present(key: string): Recall { Recall(cap, history + [key]) }
  }

  class DedupeStore {
    const memory: M.Store?   // null for a remote set
    var seen: set<string>
    ghost var recall: Recall

    ghost predicate Valid()
      reads this, memory
    {
      if memory == null then recall.cap == None && seen == Elems(recall.history)
      else memory.Valid() && recall == Recall(Some(memory.cache.cap), memory.history)
    }

    /** A remote set, or the memory backend with its capacity. */
    constructor (capacity: Option<int>)
      ensures Valid() && recall.history == [] && (memory != null ==> fresh(memory))
      ensures recall.cap == if capacity.None? then None
                            else Some(if capacity.value <= 0 then 10000 else capacity.value)
    {
      var m: M.Store? := null;
      if capacity.Some? {
        m := new M.Store(capacity.value);
      }
      memory, seen := m, {};
      recall := Recall(if m == null then None else Some(m.cache.cap), []);
    }

    method FirstSeen(key: string) returns (first: bool)
      requires Valid()
      modifies this, memory
      ensures Valid() && first == !old(recall).Knows(key) && recall == old(recall).Present(key)
    {
      if memory != null {
        first := memory.FirstSeen(key);
      } else {
        first := key !in seen;
        seen := seen + {key};
      }
      recall := recall.Present(key);
    }
  }
}
