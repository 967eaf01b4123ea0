/** Small vocabulary shared by every module. */
module Common {

  datatype Option<+T> = None | Some(value: T)

  /** How a remote call can go wrong: it is refused and has no effect, or it takes effect and only
      the reply is lost. */
  datatype Fault = NoFault | Refused | ReplyLost

  /** The elements satisfying `keep`, in order. */
  function Select<T(!new)>(keep: T -> bool, s: seq<T>): (r: seq<T>)
    ensures forall x :: x in r <==> x in s && keep(x)
  {
    if s == [] then [] else
    Select(keep, s[..|s| - 1]) + (if keep(s[|s| - 1]) then [s[|s| - 1]] else [])
  }

  lemma SelectAppend<T(!new)>(keep: T -> bool, s: seq<T>, x: T)
    ensures Select(keep, s + [x]) == Select(keep, s) + (if keep(x) then [x] else [])
  {
    assert (s + [x])[..|s|] == s;
  }

  lemma {:induction false} SelectConcat<T(!new)>(keep: T -> bool, s: seq<T>, t: seq<T>)
    ensures Select(keep, s + t) == Select(keep, s) + Select(keep, t)
  {
    if t == [] {
      assert s + t == s;
    } else {
      var n := |t| - 1;
      assert s + t == (s + t[..n]) + [t[n]];
      SelectConcat(keep, s, t[..n]);
      SelectAppend(keep, s + t[..n], t[n]);
    }
  }

  /** `r` consists of the elements of `s` at the positions `f`, in their order. */
  ghost predicate Picks<T(!new)>(f: seq<nat>, s: seq<T>, r: seq<T>) {
    && |f| == |r| && (forall k :: 0 <= k < |f| ==> f[k] < |s| && r[k] == s[f[k]])
    && (forall j, k :: 0 <= j < k < |f| ==> f[j] < f[k])
  }

  /** A selection keeps the order, and keeps exactly the positions that satisfy `keep`. */
  lemma {:induction false} SelectPicks<T(!new)>(keep: T -> bool, s: seq<T>) returns (f: seq<nat>)
    ensures Picks(f, s, Select(keep, s)) && forall i: nat :: i in f <==> i < |s| && keep(s[i])
  {
    if s == [] {
      f := [];
    } else {
      var n := |s| - 1;
      var front := SelectPicks(keep, s[..n]);
      PicksSnoc(front, s[..n], Select(keep, s[..n]), s[n]);
      assert s == s[..n] + [s[n]];
      f := if keep(s[n]) then front + [n] else front;
      assert Select(keep, s) == Select(keep, s[..n]) + (if keep(s[n]) then [s[n]] else []);
    }
  }

  lemma PicksSnoc<T(!new)>(f: seq<nat>, s: seq<T>, r: seq<T>, x: T)
    requires Picks(f, s, r)
    ensures Picks(f, s + [x], r) && Picks(f + [|s|], s + [x], r + [x])
  {}

  /** A selection of full length is everything. */
  lemma {:induction false} SelectAll<T(!new)>(keep: T -> bool, s: seq<T>)
    ensures |Select(keep, s)| <= |s|
    ensures |Select(keep, s)| == |s| ==> Select(keep, s) == s
  {
    if s != [] {
      var front, last := s[..|s| - 1], s[|s| - 1];
      SelectAll(keep, front);
      assert s == front + [last];
      SelectAppend(keep, front, last);
    }
  }

  lemma PrefixSnoc<T>(s: seq<T>, i: nat)
    requires i < |s|
    ensures s[..i + 1] == s[..i] + [s[i]]
  {}

  // ---- Texts joined by a colon ----------------------------------------------------------

  predicate ColonFree(s: string) { ':' !in s }

  function LastColon(s: string): (i: int)
    ensures -1 <= i < |s|
  {
    if s == "" then -1 else if s[|s| - 1] == ':' then |s| - 1 else LastColon(s[..|s| - 1])
  }

  lemma {:induction false} LastColonOf(a: string, u: string)
    requires ColonFree(u)
    ensures LastColon(a + u) == LastColon(a)
  {
    if u == "" {
      assert a + u == a;
    } else {
      var front := u[..|u| - 1];
      assert u[|u| - 1] in u;
      assert (a + u)[..|a + u| - 1] == a + front;
      LastColonOf(a, front);
    }
  }

  /** Splitting at the last colon; without one there is no first part. */
  function Unkey(key: string): (string, string) {
    var i := LastColon(key);
    if i < 0 then ("", key) else (key[..i], key[i + 1..])
  }
}
