/** Posting and upserting comments on one issue or pull request
    (internal/notifier/scm/github/comment_common.go:15-63).

    A comment is identified by its position: comments are only edited or appended. */
module Comments {
  import opened Common
  import opened Markers

  const PAGE := 100

  datatype Upsert = Upsert(run: string, action: string, body: string, listFails: bool)

  function MarkerOf(u: Upsert): string { Marker(u.run, u.action) }

  function TextOf(u: Upsert): string { WithMarker(MarkerOf(u), u.body) }

  function Page(cs: seq<string>): seq<string> { if |cs| <= PAGE then cs else cs[..PAGE] }

  /** `k` is the first comment that carries the marker. */
  predicate IsHit(cs: seq<string>, marker: string, k: int) {
    0 <= k < |cs| && HasMarker(cs[k], marker) && forall j :: 0 <= j < k ==> !HasMarker(cs[j], marker)
  }

  function FirstMarked(cs: seq<string>, marker: string): (r: Option<nat>)
    ensures r.Some? ==> IsHit(cs, marker, r.value)
    ensures r.None? ==> forall j :: 0 <= j < |cs| ==> !HasMarker(cs[j], marker)
  {
    if cs == [] then None
    else
      var n := |cs| - 1;
      var r := FirstMarked(cs[..n], marker);
      if r.Some? then r else if HasMarker(cs[n], marker) then Some(n) else None
  }

  /** findMarkedComment */
  method FindMarked(cs: seq<string>, marker: string, listFails: bool) returns (r: Option<nat>)
    ensures r == if listFails then None else FirstMarked(Page(cs), marker)
    ensures r.Some? ==> r.value < |cs| && r.value < 100 && HasMarker(cs[r.value], marker)
    ensures !listFails ==> forall j ::
      0 <= j < |cs| && j < (if r.Some? then r.value else 100) ==> !HasMarker(cs[j], marker)
  {
    if listFails {
      return None;
    }
    var page := Page(cs);
    for i := 0 to |page|
      invariant forall j :: 0 <= j < i ==> !HasMarker(page[j], marker)
    {
      if HasMarker(page[i], marker) {
        return Some(i);
      }
    }
    return None;
  }

  function Step(cs: seq<string>, u: Upsert): seq<string> {
    var hit := if u.listFails then None else FirstMarked(Page(cs), MarkerOf(u));
    if hit.Some? then cs[hit.value := TextOf(u)] else cs + [TextOf(u)]
  }

  /** The longest body GitHub takes (internal/notifier/scm/limits.go:19-24). */
  const COMMENT_LIMIT := 65000

  class Thread {
    var comments: seq<string>

    /** postIssueComment: a template that does not render, a body over the limit and a failing write
        leave the thread alone. */
    method Post(run: string, action: string, rendered: Option<string>, upsert: bool, listFails: bool, writeFails: bool)
      returns (ok: bool)
      modifies this
      ensures ok <==>
        && rendered.Some? && !writeFails
        && |if upsert then WithMarker(Marker(run, action), rendered.value) else rendered.value| <= 65000
      ensures !ok ==> comments == old(comments)
      ensures ok && upsert ==> comments == Step(old(comments), Upsert(run, action, rendered.value, listFails))
      ensures ok && !upsert ==> comments == old(comments) + [rendered.value]
    {
      if rendered.None? {
        return false;
      }
      var body := rendered.value;
      if upsert {
        var marker := Marker(run, action);
        body := WithMarker(marker, body);
        if |body| > COMMENT_LIMIT {
          return false;
        }
        var hit := FindMarked(comments, marker, listFails);
        if writeFails {
          return false;
        }
        comments := if hit.Some? then comments[hit.value := body] else comments + [body];
        return true;
      }
      if |body| > COMMENT_LIMIT || writeFails {
        return false;
      }
      comments := comments + [body];
      ok := true;
    }
  }

  // ---- One comment per run and action ------------------------------------------------------------

  predicate PlainUpsert(u: Upsert) { PlainPair(u.run, u.action) && !HasMarker(u.body, PREFIX) }

  /** `k` is the one comment that carries the marker. */
  ghost predicate IsOnly(cs: seq<string>, marker: string, k: int) {
    0 <= k < |cs| && forall j :: 0 <= j < |cs| ==> (HasMarker(cs[j], marker) <==> j == k)
  }

  /** Without a body: no comment of the pair. With one: exactly one, with that body. */
  ghost predicate OneFor(cs: seq<string>, run: string, action: string, body: Option<string>) {
    if body.None? then forall j :: 0 <= j < |cs| ==> !HasMarker(cs[j], Marker(run, action))
    else
      && !HasMarker(body.value, PREFIX)
      && exists k :: IsOnly(cs, Marker(run, action), k) && cs[k] == WithMarker(Marker(run, action), body.value)
  }

  /** The listing works and shows the pair's comment if there is one. */
  ghost predicate Shown(cs: seq<string>, u: Upsert) {
    !u.listFails && forall j :: PAGE <= j < |cs| ==> !HasMarker(cs[j], MarkerOf(u))
  }

  lemma PageShows(cs: seq<string>, u: Upsert, body: Option<string>)
    requires OneFor(cs, u.run, u.action, body) && Shown(cs, u)
    ensures body.None? ==> Step(cs, u) == cs + [TextOf(u)]
    ensures body.Some? ==> exists k :: IsOnly(cs, MarkerOf(u), k) && Step(cs, u) == cs[k := TextOf(u)]
  {
    var hit := FirstMarked(Page(cs), MarkerOf(u));
    assert forall j :: 0 <= j < |Page(cs)| ==> Page(cs)[j] == cs[j];
    if body.Some? {
      var k :| IsOnly(cs, MarkerOf(u), k);
      assert k < PAGE && k < |Page(cs)| && Page(cs)[k] == cs[k];
      assert hit.Some? && hit.value == k;
    }
  }

  /** The upserted pair afterwards. */
  lemma OwnPair(cs: seq<string>, u: Upsert, body: Option<string>)
    requires PlainUpsert(u) && OneFor(cs, u.run, u.action, body) && Shown(cs, u)
    ensures OneFor(Step(cs, u), u.run, u.action, Some(u.body))
  {
    PageShows(cs, u, body);
    OwnMarker(MarkerOf(u), u.body);
    if body.None? {
      assert IsOnly(cs + [TextOf(u)], MarkerOf(u), |cs|);
    } else {
      var k :| IsOnly(cs, MarkerOf(u), k) && Step(cs, u) == cs[k := TextOf(u)];
      assert IsOnly(cs[k := TextOf(u)], MarkerOf(u), k);
    }
  }

  /** Every other pair afterwards. */
  lemma OtherPair(cs: seq<string>, u: Upsert, own: Option<string>, run: string, action: string, body: Option<string>)
    requires PlainUpsert(u) && PlainPair(run, action) && (run != u.run || action != u.action)
    requires OneFor(cs, u.run, u.action, own) && Shown(cs, u) && OneFor(cs, run, action, body)
    ensures OneFor(Step(cs, u), run, action, body)
  {
    PageShows(cs, u, own);
    ForeignMarker(u.run, u.action, u.body, run, action);
    var m, cs' := Marker(run, action), Step(cs, u);
    if body.Some? {
      var k' :| IsOnly(cs, m, k') && cs[k'] == WithMarker(m, body.value);
      ForeignMarker(run, action, body.value, u.run, u.action);
      assert !HasMarker(cs[k'], MarkerOf(u));
      assert cs'[k'] == cs[k'];
      if own.Some? {
        var k :| IsOnly(cs, MarkerOf(u), k) && cs' == cs[k := TextOf(u)];
        assert k != k';
      }
      assert IsOnly(cs', m, k');
    }
  }

  function After(start: seq<string>, us: seq<Upsert>): seq<string> {
    if us == [] then start else Step(After(start, us[..|us| - 1]), us[|us| - 1])
  }

  function Latest(us: seq<Upsert>, run: string, action: string): (r: Option<string>)
    ensures r.None? <==> forall i :: 0 <= i < |us| ==> us[i].run != run || us[i].action != action
  {
    if us == [] then None
    else
      var u := us[|us| - 1];
      if u.run == run && u.action == action then Some(u.body) else Latest(us[..|us| - 1], run, action)
  }

  ghost predicate Fair(start: seq<string>, us: seq<Upsert>, n: nat)
    requires n < |us|
  {
    PlainUpsert(us[n]) && Shown(After(start, us[..n]), us[n])
  }

  /** Over any upserts, on a thread whose other comments carry no marker prefix: each run and
      action that was upserted has exactly one comment, with the latest body, and every comment
      that was there before is unchanged. */
  lemma {:induction false} OneCommentEach(start: seq<string>, us: seq<Upsert>, run: string, action: string)
    requires forall j :: 0 <= j < |start| ==> !HasMarker(start[j], PREFIX)
    requires forall n :: 0 <= n < |us| ==> Fair(start, us, n)
    requires PlainPair(run, action)
    ensures OneFor(After(start, us), run, action, Latest(us, run, action))
    ensures start <= After(start, us)
    decreases |us|
  {
    if us == [] {
      forall j | 0 <= j < |start| ensures !HasMarker(start[j], Marker(run, action)) {
        NoPrefixNoMarker(start[j], run, action);
      }
    } else {
      var n := |us| - 1;
      var front, u := us[..n], us[n];
      FairPrefix(start, us);
      assert Fair(start, us, n);
      OneCommentEach(start, front, run, action);
      OneCommentEach(start, front, u.run, u.action);
      var cs, own := After(start, front), Latest(front, u.run, u.action);
      if run == u.run && action == u.action {
        OwnPair(cs, u, own);
      } else {
        OtherPair(cs, u, own, run, action, Latest(front, run, action));
      }
      StartUntouched(start, cs, u, own);
    }
  }

  lemma FairPrefix(start: seq<string>, us: seq<Upsert>)
    requires us != [] && forall n :: 0 <= n < |us| ==> Fair(start, us, n)
    ensures var front := us[..|us| - 1]; forall n :: 0 <= n < |front| ==> Fair(start, front, n)
  {
    var front := us[..|us| - 1];
    forall n | 0 <= n < |front| ensures Fair(start, front, n) {
      assert Fair(start, us, n);
      assert front[..n] == us[..n];
    }
  }

  lemma StartUntouched(start: seq<string>, cs: seq<string>, u: Upsert, own: Option<string>)
    requires forall j :: 0 <= j < |start| ==> !HasMarker(start[j], PREFIX)
    requires start <= cs && OneFor(cs, u.run, u.action, own) && Shown(cs, u)
    ensures start <= Step(cs, u)
  {
    PageShows(cs, u, own);
    if own.Some? {
      var k :| IsOnly(cs, MarkerOf(u), k) && Step(cs, u) == cs[k := TextOf(u)];
      forall j | 0 <= j < |start| ensures !HasMarker(cs[j], MarkerOf(u)) {
        assert cs[j] == start[j];
        NoPrefixNoMarker(start[j], u.run, u.action);
      }
    }
  }

  /** A pair that has its comment keeps exactly one through the next upsert if and only if the
      listing succeeds and the comment is on the first page. */
  lemma DuplicatesUnless(cs: seq<string>, u: Upsert, k: int)
    requires PlainUpsert(u) && IsOnly(cs, MarkerOf(u), k)
    ensures (exists n :: IsOnly(Step(cs, u), MarkerOf(u), n)) <==> !u.listFails && k < PAGE
  {
    OwnMarker(MarkerOf(u), u.body);
    assert forall j :: 0 <= j < |Page(cs)| ==> Page(cs)[j] == cs[j];
    var hit := if u.listFails then None else FirstMarked(Page(cs), MarkerOf(u));
    if !u.listFails && k < PAGE {
      assert Page(cs)[k] == cs[k];
      assert hit.Some? && hit.value == k;
      assert IsOnly(Step(cs, u), MarkerOf(u), k);
    } else {
      assert hit.None?;
      var cs' := cs + [TextOf(u)];
      assert HasMarker(cs'[k], MarkerOf(u)) && HasMarker(cs'[|cs|], MarkerOf(u));
    }
  }
}
