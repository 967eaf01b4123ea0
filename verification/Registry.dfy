/** The handler registry with its indexes (internal/notifier/notifier.go:60-151). */
module Registry {
  import opened Common

  datatype ActionHandler = ActionHandler(name: string, provider: string, action: string)

  const NOTIFY := "notify"

  function Named(handlers: seq<ActionHandler>, name: string): seq<ActionHandler> {
    Select((h: ActionHandler) => h.name == name, handlers)
  }

  function Typed(handlers: seq<ActionHandler>, action: string): seq<ActionHandler> {
    Select((h: ActionHandler) => h.action == action, handlers)
  }

  /** `i` is the first handler with the name. */
  ghost predicate IsFirst(handlers: seq<ActionHandler>, name: string, i: int) {
    0 <= i < |handlers| && handlers[i].name == name && forall j :: 0 <= j < i ==> handlers[j].name != name
  }

  lemma {:induction false} NamedStartsWithFirst(handlers: seq<ActionHandler>, name: string, i: int)
    requires IsFirst(handlers, name, i)
    ensures |Named(handlers, name)| > 0 && Named(handlers, name)[0] == handlers[i]
  {
    var n := |handlers| - 1;
    var front := handlers[..n];
    if i < n {
      assert IsFirst(front, name, i);
      NamedStartsWithFirst(front, name, i);
    } else {
      NoneNamed(front, name);
    }
  }

  lemma {:induction false} NoneNamed(handlers: seq<ActionHandler>, name: string)
    requires forall h :: h in handlers ==> h.name != name
    ensures Named(handlers, name) == []
  {
    if handlers != [] {
      NoneNamed(handlers[..|handlers| - 1], name);
    }
  }

  function FirstNamed(handlers: seq<ActionHandler>, name: string): (r: Option<ActionHandler>)
    ensures r.None? <==> forall h :: h in handlers ==> h.name != name
    ensures r.Some? ==> exists i :: IsFirst(handlers, name, i) && r.value == handlers[i]
  {
    if handlers == [] then None
    else
      var front, last := handlers[..|handlers| - 1], handlers[|handlers| - 1];
      var r := FirstNamed(front, name);
      assert handlers == front + [last];
      assert r.None? && last.name == name ==> IsFirst(handlers, name, |front|);
      assert forall i :: IsFirst(front, name, i) ==> IsFirst(handlers, name, i) && front[i] == handlers[i];
      if r.Some? then r else if last.name == name then Some(last) else None
  }

  lemma FirstNamedIsHead(handlers: seq<ActionHandler>, name: string)
    ensures FirstNamed(handlers, name) == if Named(handlers, name) == [] then None else Some(Named(handlers, name)[0])
  {
    if FirstNamed(handlers, name).Some? {
      var i :| IsFirst(handlers, name, i) && FirstNamed(handlers, name).value == handlers[i];
      NamedStartsWithFirst(handlers, name, i);
    } else {
      NoneNamed(handlers, name);
    }
  }

  /** sort.Strings compares byte by byte. */
  predicate Less(a: string, b: string) {
    if b == "" then false
    else if a == "" then true
    else a[0] < b[0] || (a[0] == b[0] && Less(a[1..], b[1..]))
  }

  /** One name is less than another when it is a proper prefix of it or has the smaller character at
      the first difference. */
  lemma {:induction false} LessIff(a: string, b: string)
    ensures Less(a, b) <==> exists k :: FirstDifference(a, b, k) && (k == |a| || a[k] < b[k])
  {
    if a == "" {
      assert b != "" ==> FirstDifference(a, b, 0);
    } else if b != "" {
      if a[0] != b[0] {
        assert a[0] < b[0] ==> FirstDifference(a, b, 0);
      } else {
        LessIff(a[1..], b[1..]);
        if k :| FirstDifference(a[1..], b[1..], k) && (k == |a[1..]| || a[1..][k] < b[1..][k]) {
          assert forall i :: 0 < i < k + 1 ==> a[i] == a[1..][i - 1] && b[i] == b[1..][i - 1];
          assert FirstDifference(a, b, k + 1);
        }
        if k :| FirstDifference(a, b, k) && (k == |a| || a[k] < b[k]) {
          assert FirstDifference(a[1..], b[1..], k - 1);
        }
      }
    }
  }

  /** The texts agree before `k`, and there the first one ends or they differ. */
  ghost predicate FirstDifference(a: string, b: string, k: int) {
    0 <= k <= |a| && k < |b| && (forall i :: 0 <= i < k ==> a[i] == b[i]) && (k < |a| ==> a[k] != b[k])
  }

  lemma {:induction false} LessTotal(a: string, b: string)
    ensures Less(a, b) || a == b || Less(b, a)
  {
    if a != "" && b != "" && a[0] == b[0] {
      LessTotal(a[1..], b[1..]);
      assert a == [a[0]] + a[1..] && b == [b[0]] + b[1..];
    }
  }

  lemma {:induction false} LessTrans(a: string, b: string, c: string)
    requires Less(a, b) && Less(b, c)
    ensures Less(a, c)
  {
    if a != "" && a[0] == b[0] == c[0] {
      LessTrans(a[1..], b[1..], c[1..]);
    }
  }

  /** Sorted and free of duplicates. */
  ghost predicate Ascending(s: seq<string>) { forall i, j :: 0 <= i < j < |s| ==> Less(s[i], s[j]) }

  ghost predicate NamesOf(handlers: seq<ActionHandler>, names: seq<string>) {
    Ascending(names) && forall n :: n in names <==> exists h :: h in handlers && h.name == n
  }

  lemma {:induction false} LessIrreflexive(a: string)
    ensures !Less(a, a)
  {
    if a != "" {
      LessIrreflexive(a[1..]);
    }
  }

  /** There is only one such sequence, so a cached answer is the answer. */
  lemma {:induction false} AscendingUnique(s: seq<string>, t: seq<string>)
    requires Ascending(s) && Ascending(t) && forall n :: n in s <==> n in t
    ensures s == t
  {
    EmptyTogether(s, t);
    if s != [] {
      HeadsAgree(s, t);
      TailsAgree(s, t);
      AscendingUnique(s[1..], t[1..]);
      assert s == [s[0]] + s[1..] && t == [t[0]] + t[1..];
    }
  }

  lemma EmptyTogether(s: seq<string>, t: seq<string>)
    requires forall n :: n in s <==> n in t
    ensures s == [] <==> t == []
  {
    assert s != [] ==> s[0] in s;
    assert t != [] ==> t[0] in t;
  }

  lemma HeadsAgree(s: seq<string>, t: seq<string>)
    requires Ascending(s) && Ascending(t) && s != [] && t != [] && forall n :: n in s <==> n in t
    ensures s[0] == t[0]
  {
    assert s[0] in t && t[0] in s;
    var i :| 0 <= i < |t| && t[i] == s[0];
    var j :| 0 <= j < |s| && s[j] == t[0];
    if i > 0 && j > 0 {
      LessTrans(s[0], t[0], s[0]);
      LessIrreflexive(s[0]);
    }
  }

  lemma TailsAgree(s: seq<string>, t: seq<string>)
    requires Ascending(s) && Ascending(t) && s != [] && t != [] && s[0] == t[0] && forall n :: n in s <==> n in t
    ensures forall n :: n in s[1..] <==> n in t[1..]
  {
    LessIrreflexive(s[0]);
    assert s[0] !in s[1..] && t[0] !in t[1..];
    assert forall n :: n in s <==> n == s[0] || n in s[1..];
    assert forall n :: n in t <==> n == t[0] || n in t[1..];
  }

  lemma InsertedAscending(s: seq<string>, i: nat, name: string)
    requires Ascending(s) && i <= |s|
    requires (forall j :: 0 <= j < i ==> Less(s[j], name)) && (forall j :: i <= j < |s| ==> Less(name, s[j]))
    ensures Ascending(s[..i] + [name] + s[i..])
    ensures forall n :: n in s[..i] + [name] + s[i..] <==> n in s || n == name
  {
    assert s == s[..i] + s[i..];
  }

  /** Insertion of a name that is not there yet. */
  method InsertName(s: seq<string>, name: string) returns (r: seq<string>)
    requires Ascending(s) && name !in s
    ensures Ascending(r) && forall n :: n in r <==> n in s || n == name
  {
    var i := 0;
    while i < |s| && Less(s[i], name)
      invariant 0 <= i <= |s| && forall j :: 0 <= j < i ==> Less(s[j], name)
    {
      i := i + 1;
    }
    forall j | i <= j < |s| ensures Less(name, s[j]) {
      LessTotal(s[i], name);
      if j > i { LessTrans(name, s[i], s[j]); }
    }
    InsertedAscending(s, i, name);
    r := s[..i] + [name] + s[i..];
  }

  /** The keys of the index in any order, sorted. */
  method SortedKeys(keys: set<string>) returns (r: seq<string>)
    ensures Ascending(r) && forall n :: n in r <==> n in keys
  {
    r := [];
    var left := keys;
    while left != {}
      invariant left <= keys && Ascending(r) && forall n :: n in r <==> n in keys && n !in left
    {
      var n :| n in left;
      r := InsertName(r, n);
      left := left - {n};
    }
  }

  ghost predicate Indexes(index: Index, key: string, listed: seq<ActionHandler>) {
    (key in index <==> listed != []) && (key in index ==> index[key] == listed)
  }

  type Index = map<string, seq<ActionHandler>>

  /** Appending to the list under a key; a missing list is empty. */
  function Entered(index: Index, key: string, h: ActionHandler): Index {
    index[key := (if key in index then index[key] else []) + [h]]
  }

  lemma EnteredIndexes(index: Index, key: string, h: ActionHandler, k: string, listed: seq<ActionHandler>)
    requires Indexes(index, k, listed)
    ensures Indexes(Entered(index, key, h), k, listed + if key == k then [h] else [])
  {}

  class HandlerRegistry {
    var handlers: seq<ActionHandler>
    var byName: Index
    var byType: Index
    var names: Option<seq<string>>

    ghost predicate Valid()
      reads this
    {
      && (forall n :: Indexes(byName, n, Named(handlers, n)))
      && (forall a :: Indexes(byType, a, Typed(handlers, a)))
      && (names.Some? ==> NamesOf(handlers, names.value))
    }

    constructor ()
      ensures Valid() && handlers == []
    {
      handlers, byName, byType, names := [], map[], map[], None;
    }

    method Register(h: ActionHandler)
      requires Valid()
      modifies this
      ensures Valid() && handlers == old(handlers) + [h]
    {
      forall n ensures Indexes(Entered(byName, h.name, h), n, Named(handlers + [h], n)) {
        SelectAppend((k: ActionHandler) => k.name == n, handlers, h);
        EnteredIndexes(byName, h.name, h, n, Named(handlers, n));
      }
      forall a ensures Indexes(Entered(byType, h.action, h), a, Typed(handlers + [h], a)) {
        SelectAppend((k: ActionHandler) => k.action == a, handlers, h);
        EnteredIndexes(byType, h.action, h, a, Typed(handlers, a));
      }
      byName := Entered(byName, h.name, h);
      byType := Entered(byType, h.action, h);
      handlers := handlers + [h];
      names := None;
    }

    method FindByName(name: string) returns (r: seq<ActionHandler>)
      requires Valid()
      ensures r == Named(handlers, name)
      ensures exists f :: (&& Picks(f, handlers, r)
                           && forall i: nat :: i in f <==> i < |handlers| && handlers[i].name == name)
    {
      ghost var f := SelectPicks((h: ActionHandler) => h.name == name, handlers);
      assert Indexes(byName, name, Named(handlers, name));
      r := if name in byName then byName[name] else [];
    }

    method FindByType(action: string) returns (r: seq<ActionHandler>)
      requires Valid()
      ensures r == Typed(handlers, action)
      ensures exists f :: (&& Picks(f, handlers, r)
                           && forall i: nat :: i in f <==> i < |handlers| && handlers[i].action == action)
    {
      ghost var f := SelectPicks((h: ActionHandler) => h.action == action, handlers);
      assert Indexes(byType, action, Typed(handlers, action));
      r := if action in byType then byType[action] else [];
    }

    /** The first registered handler with the name. */
    method Lookup(name: string) returns (r: Option<ActionHandler>)
      requires Valid()
      ensures r == FirstNamed(handlers, name)
      ensures r.None? <==> forall i :: 0 <= i < |handlers| ==> handlers[i].name != name
      ensures r.Some? ==> exists i :: (&& 0 <= i < |handlers| && handlers[i].name == name && r.value == handlers[i]
                                       && forall j :: 0 <= j < i ==> handlers[j].name != name)
    {
      assert Indexes(byName, name, Named(handlers, name));
      FirstNamedIsHead(handlers, name);
      r := if name in byName then Some(byName[name][0]) else None;
    }

    method Names() returns (r: seq<string>)
      requires Valid()
      modifies this`names
      ensures Valid() && NamesOf(handlers, r)
    {
      if names.Some? {
        return names.value;
      }
      r := SortedKeys(byName.Keys);
      forall n ensures n in byName <==> exists h :: h in handlers && h.name == n {
        assert Indexes(byName, n, Named(handlers, n));
        if h :| h in handlers && h.name == n {
          assert h in Named(handlers, n);
        }
        if Named(handlers, n) != [] {
          assert Named(handlers, n)[0] in Named(handlers, n);
        }
      }
      names := Some(r);
    }
  }
}
