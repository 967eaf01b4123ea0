/** Handler outcomes and degradation (internal/pipeline/status.go). */
module Status {
  import opened Common

  const SIZE := 100

  function Fails(s: seq<bool>): nat {
    if s == [] then 0 else Fails(s[..|s| - 1]) + if s[|s| - 1] then 0 else 1
  }

  lemma {:induction false} FailsConcat(a: seq<bool>, b: seq<bool>)
    ensures Fails(a + b) == Fails(a) + Fails(b)
  {
    if b == [] {
      assert a + b == a;
    } else {
      var front := b[..|b| - 1];
      assert (a + b)[..|a + b| - 1] == a + front;
      FailsConcat(a, front);
    }
  }

  /** The last outcomes, at most as many as the ring holds. */
  function Recent(hist: seq<bool>): seq<bool> { if |hist| <= 100 then hist else hist[|hist| - 100..] }

  /** The ring's slots, oldest outcome first. */
  function Window(slots: seq<bool>, index: nat, count: nat): seq<bool>
    requires index <= |slots| && count <= |slots|
  {
    if count < SIZE then slots[..count] else slots[index..] + slots[..index]
  }

  ghost predicate Holds(slots: seq<bool>, index: nat, count: nat, hist: seq<bool>) {
    && |slots| == SIZE && index < SIZE && count <= SIZE && (count < SIZE ==> index == count)
    && Window(slots, index, count) == Recent(hist)
  }

  lemma RecentNext(hist: seq<bool>, x: bool)
    ensures Recent(hist + [x]) == (if |hist| < SIZE then Recent(hist) else Recent(hist)[1..]) + [x]
  {}

  lemma WriteAt(slots: seq<bool>, i: nat, x: bool)
    requires i < |slots|
    ensures slots[i := x][..i + 1] == slots[..i] + [x] && slots[i := x][i + 1..] == slots[i + 1..]
    ensures (slots[i..] + slots[..i])[1..] == slots[i + 1..] + slots[..i]
  {
    assert slots[i..] == [slots[i]] + slots[i + 1..];
    assert (slots[i..] + slots[..i]) == [slots[i]] + (slots[i + 1..] + slots[..i]);
  }

  lemma Unturned(slots: seq<bool>)
    ensures slots[0..] + slots[..0] == slots[..|slots|] == slots
  {}

  lemma FilledIsHistory(slots: seq<bool>, count: nat, hist: seq<bool>)
    requires |slots| == SIZE && count < SIZE && slots[..count] == Recent(hist)
    ensures slots[..count] == hist
  {
    assert |Recent(hist)| == count;
  }

  lemma FillNext(slots: seq<bool>, count: nat, hist: seq<bool>, x: bool)
    requires |slots| == SIZE && count + 1 < SIZE && slots[..count] == hist
    ensures slots[count := x][..count + 1] == Recent(hist + [x])
  {
    WriteAt(slots, count, x);
  }

  lemma FillLast(slots: seq<bool>, hist: seq<bool>, x: bool)
    requires |slots| == SIZE && slots[..SIZE - 1] == hist
    ensures slots[SIZE - 1 := x][0..] + slots[SIZE - 1 := x][..0] == Recent(hist + [x])
  {
    WriteAt(slots, SIZE - 1, x);
    Unturned(slots[SIZE - 1 := x]);
  }

  lemma TurnNext(slots: seq<bool>, i: nat, x: bool)
    requires i + 1 < |slots|
    ensures slots[i := x][i + 1..] + slots[i := x][..i + 1] == (slots[i..] + slots[..i])[1..] + [x]
  {
    WriteAt(slots, i, x);
  }

  lemma TurnLast(slots: seq<bool>, i: nat, x: bool)
    requires i + 1 == |slots|
    ensures slots[i := x][0..] + slots[i := x][..0] == (slots[i..] + slots[..i])[1..] + [x]
  {
    WriteAt(slots, i, x);
    Unturned(slots[i := x]);
  }

  lemma HoldsNext(slots: seq<bool>, index: nat, count: nat, hist: seq<bool>, x: bool)
    requires Holds(slots, index, count, hist)
    ensures Holds(slots[index := x], (index + 1) % SIZE, if count < SIZE then count + 1 else count, hist + [x])
  {
    if count + 1 < SIZE {
      FilledIsHistory(slots, count, hist);
      FillNext(slots, count, hist, x);
    } else if count < SIZE {
      FilledIsHistory(slots, count, hist);
      FillLast(slots, hist, x);
    } else {
      RecentNext(hist, x);
      if index + 1 < SIZE { TurnNext(slots, index, x); } else { TurnLast(slots, index, x); }
    }
  }

  /** Counting over the filled slots counts over the recent outcomes. */
  lemma SlotsCountRecent(slots: seq<bool>, index: nat, count: nat, hist: seq<bool>)
    requires Holds(slots, index, count, hist)
    ensures count == |Recent(hist)| && Fails(slots[..count]) == Fails(Recent(hist))
  {
    if count == SIZE {
      FailsConcat(slots[index..], slots[..index]);
      FailsConcat(slots[..index], slots[index..]);
      assert slots[..count] == slots[..index] + slots[index..];
    }
  }

  lemma {:induction false} FailsAll(s: seq<bool>)
    ensures Fails(s) <= |s| && (Fails(s) < |s| <==> exists i :: 0 <= i < |s| && s[i])
  {
    if s != [] {
      var n := |s| - 1;
      FailsAll(s[..n]);
      if i :| 0 <= i < |s| && s[i] {
        assert i < n ==> s[..n][i];
      }
      if i :| 0 <= i < n && s[..n][i] {
        assert s[i];
      }
    }
  }

  method Put(a: array<bool>, i: nat, x: bool)
    requires i < a.Length
    modifies a
    ensures a[..] == old(a[..])[i := x]
  {
    a[i] := x;
  }

  class Ring {
    const entries: array<bool>
    var index: nat
    var count: nat
    ghost var hist: seq<bool>

    ghost predicate Valid()
      reads this, entries
    {
      entries.Length == SIZE && Holds(entries[..], index, count, hist)
    }

    constructor ()
      ensures Valid() && hist == [] && fresh(entries)
    {
      entries := new bool[SIZE](_ => false);
      index, count, hist := 0, 0, [];
    }

    method Record(success: bool)
      requires Valid()
      modifies this, entries
      ensures Valid() && hist == old(hist) + [success]
    {
      ghost var before, i, c, h := entries[..], index, count, hist;
      Put(entries, index, success);
      index := (index + 1) % SIZE;
      if count < SIZE {
        count := count + 1;
      }
      hist := hist + [success];
      HoldsNext(before, i, c, h, success);
    }

    method ErrorRate() returns (rate: real)
      requires Valid()
      ensures rate == Rate(hist)
    {
      SlotsCountRecent(entries[..], index, count, hist);
      if count == 0 {
        return 0.0;
      }
      var failed := 0;
      for i := 0 to count
        invariant failed == Fails(entries[..i])
      {
        assert entries[..i + 1][..i] == entries[..i];
        if !entries[i] {
          failed := failed + 1;
        }
      }
      assert entries[..][..count] == entries[..count];
      rate := failed as real / count as real;
    }

    method HasRecentSuccess() returns (some: bool)
      requires Valid()
      ensures some <==> Fails(Recent(hist)) < |Recent(hist)|
    {
      SlotsCountRecent(entries[..], index, count, hist);
      assert entries[..][..count] == entries[..count];
      FailsAll(entries[..count]);
      for i := 0 to count
        invariant forall k :: 0 <= k < i ==> !entries[k]
      {
        if entries[i] {
          assert entries[..count][i];
          return true;
        }
      }
      assert forall k :: 0 <= k < count ==> !entries[..count][k];
      return false;
    }
  }

  /** The error rate of the recent outcomes. */
  function Rate(hist: seq<bool>): real {
    if hist == [] then 0.0 else Fails(Recent(hist)) as real / |Recent(hist)| as real
  }

  /** At least a tenth of the recent outcomes failed, and one of them succeeded. */
  ghost predicate Degraded(hist: seq<bool>) {
    10 * Fails(Recent(hist)) >= |Recent(hist)| && exists i :: 0 <= i < |Recent(hist)| && Recent(hist)[i]
  }

  lemma DegradedIff(hist: seq<bool>)
    ensures Degraded(hist) <==> hist != [] && Rate(hist) >= 0.1 && Fails(Recent(hist)) < |Recent(hist)|
  {
    FailsAll(Recent(hist));
    if hist != [] {
      var f, n := Fails(Recent(hist)) as real, |Recent(hist)| as real;
      assert n > 0.0;
      TenthIff(f, n);
    }
  }

  lemma TenthIff(f: real, n: real)
    requires n > 0.0
    ensures f / n >= 0.1 <==> 10.0 * f >= n
  {
    assert f == (f / n) * n;
  }

  // ---- The tracker ---------------------------------------------------------------------------

  datatype Outcome = Outcome(at: nat, err: Option<string>)

  datatype HandlerStatus = HandlerStatus(
    lastEventAt: nat, lastError: string, lastErrorAt: nat, succeeded: nat, failed: nat)

  const NO_STATUS := HandlerStatus(0, "", 0, 0, 0)

  function Observed(s: HandlerStatus, o: Outcome): HandlerStatus {
    if o.err.Some? then HandlerStatus(o.at, o.err.value, o.at, s.succeeded, s.failed + 1)
    else s.(lastEventAt := o.at, succeeded := s.succeeded + 1)
  }

  function StatusOf(hist: seq<Outcome>): HandlerStatus {
    if hist == [] then NO_STATUS else Observed(StatusOf(hist[..|hist| - 1]), hist[|hist| - 1])
  }

  function Successes(hist: seq<Outcome>): (r: seq<bool>)
    ensures |r| == |hist| && forall i :: 0 <= i < |hist| ==> r[i] == hist[i].err.None?
  {
    seq(|hist|, i requires 0 <= i < |hist| => hist[i].err.None?)
  }

  /** `i` is the last failure. */
  ghost predicate IsLastFailure(hist: seq<Outcome>, i: int) {
    0 <= i < |hist| && hist[i].err.Some? && forall j :: i < j < |hist| ==> hist[j].err.None?
  }

  /** Every outcome is counted once, as what it was, and the last failure is remembered. */
  lemma {:induction false} StatusReadsHistory(hist: seq<Outcome>, i: int)
    ensures var s := StatusOf(hist);
      && s.succeeded + s.failed == |hist| && s.failed == Fails(Successes(hist))
      && (hist != [] ==> s.lastEventAt == hist[|hist| - 1].at)
      && (IsLastFailure(hist, i) ==> s.lastErrorAt == hist[i].at && Some(s.lastError) == hist[i].err)
      && ((forall j :: 0 <= j < |hist| ==> hist[j].err.None?) ==> s.lastErrorAt == 0 && s.lastError == "")
  {
    if hist != [] {
      var front := hist[..|hist| - 1];
      StatusReadsHistory(front, i);
      assert Successes(hist)[..|front|] == Successes(front);
      assert i < |front| && IsLastFailure(hist, i) ==> IsLastFailure(front, i);
    }
  }

  /** One ring per handler name. */
  class Rings {
    var rings: map<string, Ring>
    ghost var repr: set<object>

    ghost predicate Apart()
      reads this
    {
      && this !in repr
      && (forall k :: k in rings ==> rings[k] in repr && rings[k].entries in repr)
      && (forall j, k :: j in rings && k in rings && j != k ==>
            rings[j] != rings[k] && rings[j].entries != rings[k].entries)
    }

    ghost predicate Valid()
      reads this, repr
    {
      Apart() && forall k :: k in rings ==> rings[k].Valid()
    }

    ghost function HistoryOf(name: string): seq<bool>
      requires Apart()
      reads this, repr
    {
      if name in rings then rings[name].hist else []
    }

    constructor ()
      ensures Valid() && rings == map[] && fresh(repr)
    {
      rings, repr := map[], {};
    }

    method Ensure(name: string)
      requires Valid()
      modifies this
      ensures Valid() && rings.Keys == old(rings).Keys + {name}
      ensures forall k :: HistoryOf(k) == old(HistoryOf(k))
      ensures old(repr) <= repr && fresh(repr - old(repr))
    {
      if name !in rings {
        var r := new Ring();
        Insert(name, r);
      }
    }

    method Insert(name: string, r: Ring)
      requires Valid() && name !in rings && r.Valid() && r.hist == []
      requires r !in repr && r.entries !in repr
      modifies this
      ensures Valid() && rings == old(rings)[name := r] && repr == old(repr) + {r, r.entries}
      ensures forall k :: HistoryOf(k) == old(HistoryOf(k))
    {
      rings := rings[name := r];
      repr := repr + {r, r.entries};
    }

    /** One ring advances; the others are left alone. */
    method Advance(name: string, success: bool)
      requires Valid() && name in rings
      modifies repr
      ensures Valid() && HistoryOf(name) == old(HistoryOf(name)) + [success]
      ensures forall k :: k != name ==> HistoryOf(k) == old(HistoryOf(k))
    {
      rings[name].Record(success);
      assert forall k :: k in rings && k != name ==> rings[k].Valid() && rings[k].hist == old(rings[k].hist);
    }

    method Record(name: string, success: bool)
      requires Valid()
      modifies this, repr
      ensures Valid() && rings.Keys == old(rings).Keys + {name} && fresh(repr - old(repr))
      ensures HistoryOf(name) == old(HistoryOf(name)) + [success]
      ensures forall k :: k != name ==> HistoryOf(k) == old(HistoryOf(k))
    {
      Ensure(name);
      Advance(name, success);
    }

    /** The degraded handlers, each with the error rate of its recent outcomes. */
    method DegradedHandlers() returns (out: map<string, real>)
      requires Valid()
      ensures forall k :: k in out <==> k in rings && Degraded(HistoryOf(k))
      ensures forall k :: k in out ==> out[k] == Rate(HistoryOf(k))
    {
      out := map[];
      var left := rings.Keys;
      while left != {}
        invariant left <= rings.Keys
        invariant forall k :: k in out <==> k in rings && k !in left && Degraded(HistoryOf(k))
        invariant forall k :: k in out ==> out[k] == Rate(HistoryOf(k))
      {
        var k :| k in left;
        left := left - {k};
        var rate := Verdict(rings[k]);
        if rate.Some? {
          out := out[k := rate.value];
        }
      }
    }
  }

  method Verdict(r: Ring) returns (rate: Option<real>)
    requires r.Valid()
    ensures rate == if Degraded(r.hist) then Some(Rate(r.hist)) else None
  {
    DegradedIff(r.hist);
    var e := r.ErrorRate();
    var some := r.HasRecentSuccess();
    rate := if r.count > 0 && e >= 0.1 && some then Some(e) else None;
  }

  lemma StatusSnoc(log: seq<Outcome>, o: Outcome)
    ensures StatusOf(log + [o]) == Observed(StatusOf(log), o)
    ensures Successes(log + [o]) == Successes(log) + [o.err.None?]
  {
    assert (log + [o])[..|log|] == log;
  }

  /** The status map, against the outcomes observed for each handler. */
  class Statuses {
    var statuses: map<string, HandlerStatus>
    ghost var log: map<string, seq<Outcome>>

    ghost predicate Valid()
      reads this
    {
      statuses.Keys == log.Keys && forall k :: k in log ==> statuses[k] == StatusOf(log[k])
    }

    ghost function LogOf(name: string): seq<Outcome>
      reads this
    {
      if name in log then log[name] else []
    }

    constructor ()
      ensures Valid() && log == map[]
    {
      statuses, log := map[], map[];
    }

    method Update(name: string, o: Outcome)
      requires Valid()
      modifies this
      ensures Valid() && log == old(log)[name := old(LogOf(name)) + [o]]
    {
      StatusSnoc(LogOf(name), o);
      var s := if name in statuses then statuses[name] else NO_STATUS;
      statuses := statuses[name := Observed(s, o)];
      log := log[name := LogOf(name) + [o]];
    }
  }

  /** The ring of a handler has seen what its status has. */
  ghost predicate Agree(hist: seq<bool>, log: seq<Outcome>) { hist == Successes(log) }

  /** StatusTracker.Observe: both maps move on together. */
  method Observe(statuses: Statuses, rings: Rings, name: string, o: Outcome)
    requires statuses.Valid() && rings.Valid() && statuses !in rings.repr
    requires Agree(rings.HistoryOf(name), statuses.LogOf(name))
    modifies statuses, rings, rings.repr
    ensures statuses.Valid() && statuses.log == old(statuses.log)[name := old(statuses.LogOf(name)) + [o]]
    ensures rings.Valid() && fresh(rings.repr - old(rings.repr))
    ensures Agree(rings.HistoryOf(name), statuses.LogOf(name))
    ensures forall k :: k != name ==> rings.HistoryOf(k) == old(rings.HistoryOf(k))
  {
    ghost var h, l := rings.HistoryOf(name), statuses.LogOf(name);
    rings.Record(name, o.err.None?);
    assert rings.HistoryOf(name) == h + [o.err.None?];
    statuses.Update(name, o);
    StatusSnoc(l, o);
    assert rings.HistoryOf(name) == h + [o.err.None?] && statuses.LogOf(name) == l + [o];
  }
}
