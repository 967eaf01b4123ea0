/** Hidden comment markers (internal/notifier/scm/upsert.go:33-45). */
module Markers {
  import opened Common

  const PREFIX := "<!-- tekton-events-relay:"
  const SUFFIX := " -->"

  function Marker(run: string, action: string): string { PREFIX + run + ":" + action + SUFFIX }

  function WithMarker(marker: string, body: string): string { marker + "\n" + body }

  predicate OccursAt(s: string, t: string, i: int) { 0 <= i && i + |t| <= |s| && s[i..i + |t|] == t }

  predicate HasMarker(s: string, t: string) { exists i :: 0 <= i <= |s| && OccursAt(s, t, i) }

  predicate SpaceFree(s: string) { ' ' !in s }

  /** A run ID without spaces and an action without spaces and colons. */
  predicate PlainPair(run: string, action: string) { SpaceFree(run) && SpaceFree(action) && ColonFree(action) }

  // ---- A marked comment carries its own marker and no other -------------------------------------

  lemma OwnMarker(marker: string, body: string)
    ensures var text := WithMarker(marker, body);
      HasMarker(text, marker) && text[..|marker|] == marker && text[|marker|..] == ['\n'] + body
  {
    assert OccursAt(WithMarker(marker, body), marker, 0);
  }

  /** Everything before the first space. */
  function Word(s: string): string {
    if s == "" || s[0] == ' ' then "" else [s[0]] + Word(s[1..])
  }

  lemma {:induction false} WordOf(x: string, u: string)
    requires SpaceFree(x) && u != "" && u[0] == ' '
    ensures Word(x + u) == x
  {
    if x == "" {
      assert x + u == u;
    } else {
      assert x[0] in x;
      assert (x + u)[1..] == x[1..] + u;
      WordOf(x[1..], u);
      assert x == [x[0]] + x[1..];
    }
  }

  /** Run and action are read back from what stands between prefix and suffix. */
  lemma PairRoundTrip(run: string, action: string)
    requires ColonFree(action)
    ensures Unkey(run + ":" + action) == (run, action)
  {
    LastColonOf(run + ":", action);
    assert LastColon(run + ":") == |run|;
    assert run + ":" + action == (run + ":") + action;
    assert (run + ":" + action)[..|run|] == run && (run + ":" + action)[|run| + 1..] == action;
  }

  lemma Layout(pair: string, body: string)
    requires SpaceFree(pair)
    ensures var s, q := PREFIX + pair + SUFFIX + "\n" + body, 25 + |pair|;
      && |s| == q + 5 + |body| && s[q..q + 5] == " -->\n" && s[q + 5..] == body
      && (forall k :: 5 <= k < q ==> s[k] != ' ') && (forall k :: 0 <= k < 4 ==> s[k] != ' ')
  {
    var s, q := PREFIX + pair + SUFFIX + "\n" + body, 25 + |pair|;
    assert s == (PREFIX + pair) + (" -->\n" + body);
    forall k | 25 <= k < q ensures s[k] != ' ' {
      assert s[k] == pair[k - 25];
    }
    forall k | 0 <= k < 25 ensures s[k] == PREFIX[k] {}
  }

  lemma PrefixChars(s: string, i: int)
    requires OccursAt(s, PREFIX, i)
    ensures i + 25 <= |s| && s[i] == '<' && s[i + 4] == ' ' && s[i + 5] == 't'
  {
    var found := s[i..i + 25];
    assert found == PREFIX;
    assert found[0] == s[i] && found[4] == s[i + 4] && found[5] == s[i + 5];
  }

  /** Where the marker prefix can stand in a marked comment: at the start, or in the body. */
  lemma PrefixPlaces(pair: string, body: string, i: int)
    requires SpaceFree(pair)
    requires OccursAt(PREFIX + pair + SUFFIX + "\n" + body, PREFIX, i)
    ensures i == 0 || OccursAt(body, PREFIX, i - 25 - |pair| - 5)
  {
    var s, q := PREFIX + pair + SUFFIX + "\n" + body, 25 + |pair|;
    Layout(pair, body);
    PrefixChars(s, i);
    if i != 0 {
      assert s[i..i + 25] == s[q + 5..][i - q - 5..i - q - 5 + 25];
    }
  }

  lemma PrefixOfMarker(s: string, run: string, action: string, i: int)
    requires OccursAt(s, Marker(run, action), i)
    ensures OccursAt(s, PREFIX, i)
  {
    var m := Marker(run, action);
    assert m[..|PREFIX|] == PREFIX;
    assert s[i..i + |PREFIX|] == s[i..i + |m|][..|PREFIX|];
  }

  /** A marker at the start of a marked comment is that comment's own. */
  lemma MarkerAtStart(run: string, action: string, body: string, run': string, action': string)
    requires PlainPair(run, action) && PlainPair(run', action')
    requires OccursAt(WithMarker(Marker(run, action), body), Marker(run', action'), 0)
    ensures run == run' && action == action'
  {
    var s, m := WithMarker(Marker(run, action), body), Marker(run', action');
    var pair, pair' := run + ":" + action, run' + ":" + action';
    var after, after' := SUFFIX + "\n" + body, SUFFIX + s[|m|..];
    assert s == PREFIX + (pair + after);
    assert s == m + s[|m|..] == PREFIX + (pair' + after');
    assert s[|PREFIX|..] == pair + after == pair' + after';
    WordOf(pair, after);
    WordOf(pair', after');
    PairRoundTrip(run, action);
    PairRoundTrip(run', action');
  }

  lemma MarkerPlace(run: string, action: string, body: string, i: int)
    requires PlainPair(run, action) && !HasMarker(body, PREFIX)
    requires OccursAt(WithMarker(Marker(run, action), body), PREFIX, i)
    ensures i == 0
  {
    var pair := run + ":" + action;
    assert WithMarker(Marker(run, action), body) == PREFIX + pair + SUFFIX + "\n" + body;
    PrefixPlaces(pair, body, i);
  }

  /** A marked comment contains another pair's marker only if run and action are equal. */
  lemma ForeignMarker(run: string, action: string, body: string, run': string, action': string)
    requires PlainPair(run, action) && PlainPair(run', action') && !HasMarker(body, PREFIX)
    ensures HasMarker(WithMarker(Marker(run, action), body), Marker(run', action')) <==>
      run == run' && action == action'
  {
    var s := WithMarker(Marker(run, action), body);
    OwnMarker(Marker(run, action), body);
    if HasMarker(s, Marker(run', action')) {
      var i :| 0 <= i <= |s| && OccursAt(s, Marker(run', action'), i);
      PrefixOfMarker(s, run', action', i);
      MarkerPlace(run, action, body, i);
      MarkerAtStart(run, action, body, run', action');
    }
  }

  /** Text without the prefix carries no marker. */
  lemma NoPrefixNoMarker(s: string, run: string, action: string)
    requires !HasMarker(s, PREFIX)
    ensures !HasMarker(s, Marker(run, action))
  {
    if i :| 0 <= i <= |s| && OccursAt(s, Marker(run, action), i) {
      PrefixOfMarker(s, run, action, i);
    }
  }

  // ---- Arbitrary identifiers ---------------------------------------------------------------------

  predicate LineFree(s: string) { '\n' !in s }

  /** A text without line breaks occurs in two lines exactly when it occurs in one of them. */
  lemma OccursInOneLine(a: string, b: string, t: string)
    requires LineFree(t)
    ensures HasMarker(a + "\n" + b, t) <==> HasMarker(a, t) || HasMarker(b, t)
  {
    var s := a + "\n" + b;
    if i :| 0 <= i <= |s| && OccursAt(s, t, i) {
      InFirstOrSecond(a, b, t, i);
    }
    if i :| 0 <= i <= |a| && OccursAt(a, t, i) {
      assert s[i..i + |t|] == a[i..i + |t|];
      assert OccursAt(s, t, i);
    }
    if i :| 0 <= i <= |b| && OccursAt(b, t, i) {
      var k := |a| + 1 + i;
      assert s[k..k + |t|] == b[i..i + |t|];
      assert OccursAt(s, t, k);
    }
  }

  lemma InFirstOrSecond(a: string, b: string, t: string, i: int)
    requires LineFree(t) && OccursAt(a + "\n" + b, t, i)
    ensures HasMarker(a, t) || HasMarker(b, t)
  {
    var s := a + "\n" + b;
    var n := |a|;
    assert s[n] == '\n';
    forall j | i <= j < i + |t| ensures s[j] != '\n' {
      assert s[j] == s[i..i + |t|][j - i] == t[j - i];
    }
    if i + |t| <= n {
      assert a[i..i + |t|] == s[i..i + |t|];
      assert OccursAt(a, t, i);
    } else {
      assert i > n;
      assert b[i - n - 1..i - n - 1 + |t|] == s[i..i + |t|];
      assert OccursAt(b, t, i - n - 1);
    }
  }

  /** For any identifiers without line breaks: a marked comment carries a pair's marker if and only
      if its own marker text does. */
  lemma CarriesMarkerIff(run: string, action: string, body: string, run': string, action': string)
    requires LineFree(run') && LineFree(action') && !HasMarker(body, PREFIX)
    ensures HasMarker(WithMarker(Marker(run, action), body), Marker(run', action')) <==>
      HasMarker(Marker(run, action), Marker(run', action'))
  {
    OccursInOneLine(Marker(run, action), body, Marker(run', action'));
    NoPrefixNoMarker(body, run', action');
  }

  /** With a space in the run ID it can be another pair's. */
  lemma SpacesCollide(body: string)
    requires !HasMarker(body, PREFIX)
    ensures HasMarker(WithMarker(Marker("a:b --> " + Marker("c", "d"), "e"), body), Marker("c", "d"))
  {
    var m := Marker("c", "d");
    var own := Marker("a:b --> " + m, "e");
    assert own == (PREFIX + "a:b --> ") + m + (":" + "e" + SUFFIX);
    assert OccursAt(own, m, |PREFIX + "a:b --> "|);
    CarriesMarkerIff("a:b --> " + m, "e", body, "c", "d");
  }
}
