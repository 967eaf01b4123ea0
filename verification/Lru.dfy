/** The ordinary LRU contract of hashicorp/golang-lru, which the memory backends rely on. */
module Lru {

  function Elems<K(==)>(s: seq<K>): set<K> { set x | x in s }

  function Without<K(==,!new)>(s: seq<K>, x: K): (r: seq<K>)
    ensures |r| <= |s|
    ensures forall y :: y in r <==> y in s && y != x
  {
    if s == [] then [] else (if s[0] == x then [] else [s[0]]) + Without(s[1..], x)
  }

  lemma {:induction false} WithoutConcat<K(!new)>(a: seq<K>, b: seq<K>, x: K)
    ensures Without(a + b, x) == Without(a, x) + Without(b, x)
  {
    if a == [] {
      assert a + b == b;
    } else {
      assert (a + b)[1..] == a[1..] + b;
      WithoutConcat(a[1..], b, x);
    }
  }

  lemma {:induction false} WithoutAbsent<K(!new)>(s: seq<K>, x: K)
    requires x !in s
    ensures Without(s, x) == s
  {
    if s != [] {
      WithoutAbsent(s[1..], x);
    }
  }

  predicate NoDup<K(==)>(s: seq<K>) { forall i, j :: 0 <= i < j < |s| ==> s[i] != s[j] }

  lemma {:induction false} WithoutNoDup<K(!new)>(s: seq<K>, x: K)
    requires NoDup(s)
    ensures NoDup(Without(s, x))
  {
    if s != [] {
      WithoutNoDup(s[1..], x);
      var r := Without(s[1..], x);
      assert s[0] !in s[1..];
      assert s[0] !in r;
    }
  }

  lemma {:induction false} NoDupCount<K(!new)>(s: seq<K>)
    requires NoDup(s)
    ensures |Elems(s)| == |s|
  {
    if s != [] {
      NoDupCount(s[1..]);
      assert s[0] !in s[1..];
      assert Elems(s) == {s[0]} + Elems(s[1..]);
    }
  }

  /** Move to the front. */
  function Touch<K(==,!new)>(order: seq<K>, k: K): seq<K> { [k] + Without(order, k) }

  function Take<K>(s: seq<K>, n: nat): seq<K> { if |s| <= n then s else s[..n] }

  /** Keys in order of use, most recent first, with their values. */
  datatype Cache<K(==,!new), V> = Cache(cap: nat, order: seq<K>, data: map<K, V>) {

    ghost predicate Valid() {
      && cap > 0 && |order| <= cap && NoDup(order) && |data| == |order|
      && forall k :: k in order <==> k in data
    }

    /** Get of a resident key makes it the most recent one. */
    function Get(k: K): Cache<K, V> {
      if k in data then this.(order := Touch(order, k)) else this
    }

    /** Add puts the key in front and evicts the least recent one when over capacity. */
    function Add(k: K, v: V): Cache<K, V> {
      if k in data then Cache(cap, Touch(order, k), data[k := v])
      else if |order| < cap then Cache(cap, [k] + order, data[k := v])
      else if order == [] then this
      else Cache(cap, [k] + order[..|order| - 1], (data - {order[|order| - 1]})[k := v])
    }

    /** Remove, and also the expiry of one entry. */
    function Remove(k: K): Cache<K, V> {
      Cache(cap, Without(order, k), data - {k})
    }
  }

  lemma {:induction false} WithoutOne<K(!new)>(s: seq<K>, x: K)
    requires NoDup(s)
    ensures |Without(s, x)| == if x in s then |s| - 1 else |s|
  {
    if s != [] {
      WithoutOne(s[1..], x);
      assert s[0] !in s[1..];
    }
  }

  lemma TouchKeeps<K(!new)>(order: seq<K>, k: K)
    requires NoDup(order)
    ensures NoDup(Touch(order, k)) && forall x :: x in Touch(order, k) <==> x in order || x == k
    ensures |Touch(order, k)| == if k in order then |order| else |order| + 1
  {
    WithoutNoDup(order, k);
    WithoutOne(order, k);
    assert k !in Without(order, k);
  }

  /** Every cache operation keeps the cache well formed. */
  lemma GetKeepsValid<K(!new), V>(c: Cache<K, V>, k: K)
    requires c.Valid()
    ensures c.Get(k).Valid() && c.Get(k).data == c.data
  {
    TouchKeeps(c.order, k);
  }

  lemma EvictingAddKeepsValid<K(!new), V>(c: Cache<K, V>, k: K, v: V)
    requires c.Valid() && k !in c.data && |c.order| >= c.cap
    ensures c.Add(k, v).Valid()
  {
    var last := c.order[|c.order| - 1];
    assert last in c.data;
    assert |c.data - {last}| == |c.data| - 1 by { assert (c.data - {last}).Keys == c.data.Keys - {last}; }
    assert k !in c.order;
  }

  lemma AddKeepsValid<K(!new), V>(c: Cache<K, V>, k: K, v: V)
    requires c.Valid()
    ensures c.Add(k, v).Valid() && c.Add(k, v).cap == c.cap
    ensures k in c.Add(k, v).data && c.Add(k, v).data[k] == v
    ensures k in c.data || |c.data| < c.cap ==> c.Add(k, v).data == c.data[k := v]
  {
    if k in c.data {
      TouchKeeps(c.order, k);
      assert c.data[k := v].Keys == c.data.Keys;
    } else if |c.order| >= c.cap {
      EvictingAddKeepsValid(c, k, v);
    } else {
      assert k !in c.order;
    }
  }

  lemma RemoveKeepsValid<K(!new), V>(c: Cache<K, V>, k: K)
    requires c.Valid()
    ensures c.Remove(k).Valid()
  {
    WithoutNoDup(c.order, k);
    WithoutOne(c.order, k);
    assert (c.data - {k}).Keys == c.data.Keys - {k};
  }
}
