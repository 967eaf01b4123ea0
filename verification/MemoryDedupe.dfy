/** The in-memory dedupe store (internal/store/memory.go:28-76) over whole call histories. */
module MemoryDedupe {
  import opened Lru

  /** All identifiers of a history, the most recently presented first. */
  function Recency<K(==,!new)>(h: seq<K>): seq<K> {
    if h == [] then [] else Touch(Recency(h[..|h| - 1]), h[|h| - 1])
  }

  lemma {:induction false} RecencyElems<K(!new)>(h: seq<K>)
    ensures NoDup(Recency(h)) && forall x :: x in Recency(h) <==> x in h
  {
    if h != [] {
      var h', z := h[..|h| - 1], h[|h| - 1];
      RecencyElems(h');
      TouchKeeps(Recency(h'), z);
      assert h == h' + [z];
    }
  }

  function LastIndex<K(==,!new)>(h: seq<K>, x: K): (i: int)
    ensures -1 <= i < |h|
    ensures i >= 0 <==> x in h
    ensures i >= 0 ==> h[i] == x && x !in h[i + 1..]
  {
    if h == [] then -1
    else if h[|h| - 1] == x then |h| - 1
    else LastIndex(h[..|h| - 1], x)
  }

  /** The distinct identifiers presented after the last occurrence of `x`. */
  function OthersSince<K(==,!new)>(h: seq<K>, x: K): set<K> { Elems(h[LastIndex(h, x) + 1..]) }

  /** What stands before `x` in order of recency is what was presented since. */
  lemma {:induction false} RecencySplitsAt<K(!new)>(h: seq<K>, x: K) returns (a: seq<K>, b: seq<K>)
    requires x in h
    ensures Recency(h) == a + [x] + b && Elems(a) == OthersSince(h, x)
  {
    var h', z := h[..|h| - 1], h[|h| - 1];
    assert h == h' + [z];
    if z == x {
      assert h[LastIndex(h, x) + 1..] == [];
      a, b := [], Without(Recency(h'), x);
    } else {
      a, b := RecencySplitsAt(h', x);
      TouchBehind(a, x, b, z);
      OthersGrow(h', x, z);
      ElemsTouched(a, z);
      a, b := Touch(a, z), Without(b, z);
    }
  }

  /** Touching another element does not move what stands behind `x` in front of it. */
  lemma TouchBehind<K(!new)>(a: seq<K>, x: K, b: seq<K>, z: K)
    requires z != x
    ensures Touch(a + [x] + b, z) == Touch(a, z) + [x] + Without(b, z)
  {
    WithoutConcat(a + [x], b, z);
    WithoutConcat(a, [x], z);
    assert Without([x], z) == [x];
  }

  lemma OthersGrow<K(!new)>(h: seq<K>, x: K, z: K)
    requires x in h && z != x
    ensures OthersSince(h + [z], x) == OthersSince(h, x) + {z}
  {
    var i := LastIndex(h, x);
    assert (h + [z])[..|h|] == h;
    assert LastIndex(h + [z], x) == i;
    assert (h + [z])[i + 1..] == h[i + 1..] + [z];
    ElemsConcat(h[i + 1..], z);
  }

  lemma ElemsConcat<K(!new)>(s: seq<K>, z: K)
    ensures Elems(s + [z]) == Elems(s) + {z}
  {}

  lemma ElemsTouched<K(!new)>(a: seq<K>, z: K)
    ensures Elems(Touch(a, z)) == Elems(a) + {z}
  {}

  /** The cache after a history: FirstSeen is Get, and Add when absent. */
  function Resident<K(==,!new)>(h: seq<K>, cap: nat): seq<K> {
    if h == [] then [] else
    var before, id := Resident(h[..|h| - 1], cap), h[|h| - 1];
    if id in before then Touch(before, id) else Take([id] + before, cap)
  }

  /** The cache holds exactly the `cap` most recent identifiers. */
  lemma {:induction false} ResidentIsRecent<K(!new)>(h: seq<K>, cap: nat)
    requires cap > 0
    ensures Resident(h, cap) == Take(Recency(h), cap)
  {
    if h != [] {
      var h', z := h[..|h| - 1], h[|h| - 1];
      ResidentIsRecent(h', cap);
      RecencyElems(h');
      TouchTake(Recency(h'), z, cap);
    }
  }

  lemma TouchTake<K(!new)>(r: seq<K>, z: K, cap: nat)
    requires NoDup(r) && cap > 0
    ensures Take(Touch(r, z), cap) ==
      if z in Take(r, cap) then Touch(Take(r, cap), z) else Take([z] + Take(r, cap), cap)
  {
    var front := Take(r, cap);
    TouchSplit(r, front, r[|front|..], z);
    WithoutOne(front, z);
    if z in front {
      assert |Touch(front, z)| == |front|;
    } else if |front| == cap {
      assert Take([z] + front, cap) == [z] + front[..cap - 1];
    }
  }

  lemma TouchSplit<K(!new)>(r: seq<K>, front: seq<K>, back: seq<K>, z: K)
    requires NoDup(r) && r == front + back
    ensures NoDup(front)
    ensures z in front ==> Touch(r, z) == Touch(front, z) + back
    ensures z !in front ==> Touch(r, z) == [z] + front + Without(back, z)
  {
    WithoutConcat(front, back, z);
    HalvesApart(r, front, back, z);
    if z in front {
      WithoutAbsent(back, z);
      assert [z] + (Without(front, z) + back) == [z] + Without(front, z) + back;
    } else {
      WithoutAbsent(front, z);
      assert [z] + (front + Without(back, z)) == [z] + front + Without(back, z);
    }
  }

  lemma HalvesApart<K(!new)>(r: seq<K>, front: seq<K>, back: seq<K>, z: K)
    requires NoDup(r) && r == front + back
    ensures NoDup(front) && (z in front ==> z !in back)
  {
    assert forall i :: 0 <= i < |front| ==> front[i] == r[i];
    assert forall j :: 0 <= j < |back| ==> back[j] == r[|front| + j];
  }

  /** An identifier is resident exactly when it occurred and fewer than `cap` distinct others
      were presented since. */
  lemma ResidentIff<K(!new)>(h: seq<K>, cap: nat, id: K)
    requires cap > 0
    ensures id in Resident(h, cap) <==> id in h && |OthersSince(h, id)| < cap
  {
    ResidentIsRecent(h, cap);
    RecencyElems(h);
    var r := Recency(h);
    if id in h {
      var a, b := RecencySplitsAt(h, id);
      assert NoDup(a) by { assert forall i :: 0 <= i < |a| ==> a[i] == r[i]; }
      NoDupCount(a);
      assert r[|a|] == id;
      if |a| < cap {
        assert Take(r, cap)[|a|] == id;
      }
    }
  }

  lemma ResidentAppend<K(!new)>(h: seq<K>, cap: nat, id: K)
    ensures var before := Resident(h, cap);
      Resident(h + [id], cap) == if id in before then Touch(before, id) else Take([id] + before, cap)
  {
    assert (h + [id])[..|h|] == h;
  }

  lemma AddOrder<K(!new), V>(c: Cache<K, V>, k: K, v: V)
    requires c.Valid() && k !in c.data
    ensures c.Add(k, v).order == Take([k] + c.order, c.cap)
  {}

  /** One FirstSeen on a cache that stands for a history. */
  lemma CacheFollowsHistory(c: Cache<string, ()>, h: seq<string>, id: string)
    requires c.Valid() && c.order == Resident(h, c.cap)
    ensures var c' := if id in c.data then c.Get(id) else c.Add(id, ());
      c'.Valid() && c'.cap == c.cap && c'.order == Resident(h + [id], c.cap)
  {
    ResidentAppend(h, c.cap, id);
    if id in c.data {
      GetKeepsValid(c, id);
    } else {
      AddKeepsValid(c, id, ());
      AddOrder(c, id, ());
    }
  }

  class Store {
    var cache: Cache<string, ()>
    ghost var history: seq<string>

    ghost predicate Valid()
      reads this
    {
      cache.Valid() && cache.order == Resident(history, cache.cap)
    }

    constructor (capacity: int)
      ensures Valid() && history == []
      ensures cache.cap == if capacity <= 0 then 10000 else capacity
    {
      cache := Cache(if capacity <= 0 then 10000 else capacity, [], map[]);
      history := [];
    }

    /** First sight or forgotten: false exactly when `id` came before and fewer than `cap`
        distinct other identifiers came since. */
    method FirstSeen(id: string) returns (first: bool)
      requires Valid()
      modifies this
      ensures Valid() && cache.cap == old(cache.cap) && history == old(history) + [id]
      ensures first <==> !(id in old(history) && |OthersSince(old(history), id)| < cache.cap)
    {
      ResidentIff(history, cache.cap, id);
      CacheFollowsHistory(cache, history, id);
      first := id !in cache.data;
      cache := if first then cache.Add(id, ()) else cache.Get(id);
      history := history + [id];
    }
  }
}
