/** applyOverride (internal/http/dlq.go:127-171) on the heap: json.Unmarshal decodes into the
    storage its target already has, and the copied report shares that storage with the original.

    The report's references are the three optional numbers and the slice of results; `plain` holds
    the fields that are plain values, by name. */
module Override {
  import opened Common

  class Cell {
    var n: int

    constructor (n: int)
      ensures this.n == n
    {
      this.n := n;
    }
  }

  datatype Result = Result(name: string, value: string)

  const ZERO := Result("", "")

  /** A struct value: copying it copies the references. */
  datatype Report = Report(
    issue: Cell?, pr: Cell?, discussion: Cell?, items: array<Result>, count: nat, plain: map<string, string>)

  datatype Envelope = Envelope(id: string, report: Report)

  datatype DeadEvent = DeadEvent(id: string, failedAt: int, envelope: Option<Envelope>)

  /** What the override's payload says about a number: nothing, null, a number, or junk. */
  datatype NumberPatch = Keep | Null | Number(n: int) | Junk

  /** Absent fields of an element keep what the element had. */
  datatype ItemPatch = ItemPatch(name: Option<string>, value: Option<string>)

  datatype Patch = Patch(issue: NumberPatch, pr: NumberPatch, discussion: NumberPatch,
                         items: Option<seq<ItemPatch>>, plain: map<string, string>)

  /** A parsed timestamp: its nanoseconds as text, and the time itself. */
  datatype Stamp = Stamp(nanos: string, at: int)

  // ---- Contents -------------------------------------------------------------------------------

  /** What a reader of the report sees. */
  datatype View = View(
    issue: Option<int>, pr: Option<int>, discussion: Option<int>, items: seq<Result>, plain: map<string, string>)

  ghost function NumberOf(c: Cell?): Option<int>
    reads c
  {
    if c == null then None else Some(c.n)
  }

  ghost predicate Valid(r: Report)
    reads r.items
  {
    && r.count <= r.items.Length
    && (forall k :: r.count <= k < r.items.Length ==> r.items[k] == ZERO)
    && (r.issue != null ==> r.issue != r.pr && r.issue != r.discussion)
    && (r.pr != null ==> r.pr != r.discussion)
  }

  ghost function ViewOf(r: Report): View
    requires r.count <= r.items.Length
    reads r.issue, r.pr, r.discussion, r.items
  {
    View(NumberOf(r.issue), NumberOf(r.pr), NumberOf(r.discussion), r.items[..r.count], r.plain)
  }

  function PatchNumber(v: Option<int>, p: NumberPatch): Option<int> {
    match p
    case Keep => v
    case Null => None
    case Number(n) => Some(n)
    case Junk => v
  }

  function PatchItem(v: Result, p: ItemPatch): Result {
    Result(if p.name.Some? then p.name.value else v.name, if p.value.Some? then p.value.value else v.value)
  }

  function ItemAt(items: seq<Result>, k: nat): Result { if k < |items| then items[k] else ZERO }

  function PatchItems(items: seq<Result>, p: Option<seq<ItemPatch>>): seq<Result> {
    if p.None? then items
    else seq(|p.value|, k requires 0 <= k < |p.value| => PatchItem(ItemAt(items, k), p.value[k]))
  }

  /** Keys that are no field of the report are ignored. */
  function PatchPlain(fields: map<string, string>, p: map<string, string>): map<string, string> {
    map k | k in fields :: if k in p then p[k] else fields[k]
  }

  /** The report the override asks for. */
  function Patched(v: View, p: Patch): View {
    View(PatchNumber(v.issue, p.issue), PatchNumber(v.pr, p.pr), PatchNumber(v.discussion, p.discussion),
         PatchItems(v.items, p.items), PatchPlain(v.plain, p.plain))
  }

  ghost predicate NumberIs(v: Option<int>, p: NumberPatch, w: Option<int>) {
    && (p.Number? ==> w == Some(p.n)) && (p.Null? ==> w == None) && (p.Keep? || p.Junk? ==> w == v)
  }

  ghost predicate ItemIs(v: Result, p: ItemPatch, w: Result) {
    && (p.name.Some? ==> w.name == p.name.value) && (p.name.None? ==> w.name == v.name)
    && (p.value.Some? ==> w.value == p.value.value) && (p.value.None? ==> w.value == v.value)
  }

  /** Field by field: what the payload gives replaces what the report had, an absent part keeps it, an
      element beyond the old list starts empty, and no field comes or goes. */
  lemma PatchedReads(v: View, p: Patch)
    ensures var w := Patched(v, p);
      && NumberIs(v.issue, p.issue, w.issue) && NumberIs(v.pr, p.pr, w.pr)
      && NumberIs(v.discussion, p.discussion, w.discussion)
      && (p.items.None? ==> w.items == v.items)
      && (p.items.Some? ==> |w.items| == |p.items.value|)
      && (p.items.Some? ==> forall k :: 0 <= k < |w.items| ==>
            ItemIs(if k < |v.items| then v.items[k] else Result("", ""), p.items.value[k], w.items[k]))
      && w.plain.Keys == v.plain.Keys
      && (forall k :: k in w.plain && k in p.plain ==> w.plain[k] == p.plain[k])
      && (forall k :: k in w.plain && k !in p.plain ==> w.plain[k] == v.plain[k])
  {}

  // ---- Numbers travel as doubles ------------------------------------------------------------------

  const TWO53 := 0x20_0000_0000_0000
  const TWO63 := 0x8000_0000_0000_0000

  /** The distance between neighbouring doubles around a number of at most 63 bits. */
  function Spacing(n: nat): (u: nat)
    ensures 1 <= u <= 1024
  {
    if n < TWO53 then 1
    else if n < 2 * TWO53 then 2
    else if n < 4 * TWO53 then 4
    else if n < 8 * TWO53 then 8
    else if n < 16 * TWO53 then 16
    else if n < 32 * TWO53 then 32
    else if n < 64 * TWO53 then 64
    else if n < 128 * TWO53 then 128
    else if n < 256 * TWO53 then 256
    else if n < 512 * TWO53 then 512
    else 1024
  }

  /** The nearest double, ties to even; beyond 63 bits no number fits a report anyway. */
  function NearestNat(n: nat): int {
    var u := Spacing(n);
    var r := n % u;
    if 2 * r < u || (2 * r == u && (n / u) % 2 == 0) then n - r else n - r + u
  }

  function Nearest(n: int): int { if n >= 0 then NearestNat(n) else -NearestNat(-n) }

  /** What reaches the decoder: the base report and the payload are merged in a generic map, which
      holds numbers as doubles; one that no longer fits 64 bits cannot be decoded. */
  function AsDouble(n: int): NumberPatch {
    if -TWO63 <= Nearest(n) < TWO63 then Number(Nearest(n)) else Junk
  }

  function Resolve(v: Option<int>, p: NumberPatch): NumberPatch {
    match p
    case Keep => if v.Some? then AsDouble(v.value) else Keep
    case Null => Null
    case Number(n) => AsDouble(n)
    case Junk => Junk
  }

  function Resolved(v: View, p: Patch): Patch {
    p.(issue := Resolve(v.issue, p.issue), pr := Resolve(v.pr, p.pr), discussion := Resolve(v.discussion, p.discussion))
  }

  /** A number of the report or of the payload reaches the decoder rounded, or as junk when it no longer
      fits; a number neither of them has stays away. */
  lemma ResolveReads(v: Option<int>, p: NumberPatch)
    ensures var q := Resolve(v, p);
      && (q.Null? <==> p.Null?) && (q.Keep? <==> p.Keep? && v.None?)
      && (q.Number? ==> -0x8000_0000_0000_0000 <= q.n < 0x8000_0000_0000_0000)
      && (p.Number? ==> q == Number(Nearest(p.n)) || (q == Junk && !(-TWO63 <= Nearest(p.n) < TWO63)))
      && (p.Keep? && v.Some? ==>
            q == Number(Nearest(v.value)) || (q == Junk && !(-TWO63 <= Nearest(v.value) < TWO63)))
  {}

  /** A number is a double up to 2^53 at least. */
  lemma SmallIsExact(n: int)
    requires -TWO53 < n < TWO53
    ensures Nearest(n) == n
  {}

  /** The first that is not: its neighbour takes its place. */
  lemma FirstInexact()
    ensures Nearest(TWO53 + 1) == TWO53
  {
    assert Spacing(TWO53 + 1) == 2;
  }

  /** What rounding does: the result is a multiple of the spacing, within half of it, and of two such
      multiples the even one. */
  lemma NearestIs(n: nat) returns (q: nat)
    ensures var u, r := Spacing(n), Nearest(n);
      && r == q * u && 2 * (r - n) <= u && 2 * (n - r) <= u
      && (2 * (r - n) == u || 2 * (n - r) == u ==> q % 2 == 0)
      && Nearest(0 - n) == -r
  {
    var u := Spacing(n);
    q := n / u;
    assert n == q * u + n % u;
    if Nearest(n) != n - n % u {
      assert (q + 1) * u == q * u + u;
      q := q + 1;
    }
  }

  /** The spacing is the power of two that leaves 53 bits. */
  lemma SpacingIs(n: nat)
    requires n < TWO63
    ensures Spacing(n) in {1, 2, 4, 8, 16, 32, 64, 128, 256, 512, 1024}
    ensures n < Spacing(n) * TWO53 && (Spacing(n) > 1 ==> Spacing(n) * TWO53 <= 2 * n)
  {}

  predicate IsJunk(p: Patch) { p.issue.Junk? || p.pr.Junk? || p.discussion.Junk? }

  // ---- When the original survives -----------------------------------------------------------------

  predicate SparesNumber(v: Option<int>, p: NumberPatch) { p.Number? && v.Some? ==> p.n == v.value }

  predicate SparesItems(items: seq<Result>, p: Option<seq<ItemPatch>>) {
    p.Some? ==> forall k :: 0 <= k < |p.value| && k < |items| ==> PatchItem(items[k], p.value[k]) == items[k]
  }

  /** The payload changes no number the original has and no element it has. */
  predicate Spares(v: View, p: Patch) {
    && SparesNumber(v.issue, p.issue) && SparesNumber(v.pr, p.pr) && SparesNumber(v.discussion, p.discussion)
    && SparesItems(v.items, p.items)
  }

  /** What a number the original had becomes. */
  function Leftover(v: Option<int>, p: NumberPatch): Option<int> {
    if v.Some? && p.Number? then Some(p.n) else v
  }

  // ---- The code -----------------------------------------------------------------------------------

  method DecodeNumber(c: Cell?, p: NumberPatch) returns (r: Cell?)
    modifies c
    ensures NumberOf(r) == PatchNumber(old(NumberOf(c)), p)
    ensures NumberOf(c) == Leftover(old(NumberOf(c)), p)
    ensures r == null || r == c || fresh(r)
  {
    r := c;
    match p
    case Keep =>
    case Null => r := null;
    case Number(n) =>
      if c == null {
        r := new Cell(n);
      } else {
        c.n := n;
      }
    case Junk =>
  }

  /** Element `k` after the first `i` patches. */
  ghost function Element(items: seq<Result>, p: seq<ItemPatch>, i: nat, k: nat): Result {
    if k < i && k < |p| then PatchItem(ItemAt(items, k), p[k]) else ItemAt(items, k)
  }

  method Grown(a: array<Result>) returns (b: array<Result>)
    ensures fresh(b) && b.Length > a.Length
    ensures forall k :: 0 <= k < b.Length ==> b[k] == if k < a.Length then a[k] else ZERO
  {
    b := new Result[2 * a.Length + 1](_ => ZERO);
    for i := 0 to a.Length
      invariant forall k :: 0 <= k < b.Length ==> b[k] == if k < i then a[k] else ZERO
    {
      b[i] := a[i];
    }
  }

  /** Decoding a list into a slice: in place up to the capacity, then in a grown copy. */
  method DecodeItems(items: array<Result>, p: seq<ItemPatch>, ghost had: seq<Result>) returns (a: array<Result>)
    requires |had| <= items.Length && forall k :: 0 <= k < items.Length ==> items[k] == ItemAt(had, k)
    modifies items
    ensures a.Length >= |p| && (a == items || fresh(a))
    ensures forall k :: 0 <= k < a.Length ==> a[k] == Element(had, p, |p|, k)
    ensures forall k :: 0 <= k < items.Length ==> items[k] == Element(had, p, |p|, k)
  {
    a := items;
    for i := 0 to |p|
      invariant a.Length >= i && a.Length >= items.Length && (a == items || fresh(a))
      invariant a != items ==> items.Length <= i
      invariant forall k :: 0 <= k < a.Length ==> a[k] == Element(had, p, i, k)
      invariant forall k :: 0 <= k < items.Length ==> items[k] == Element(had, p, i, k)
    {
      if i >= a.Length {
        a := Grown(a);
      }
      a[i] := PatchItem(a[i], p[i]);
    }
  }

  /** What a reader of the original sees afterwards. */
  function Left(v: View, p: Patch): View {
    View(Leftover(v.issue, p.issue), Leftover(v.pr, p.pr), Leftover(v.discussion, p.discussion),
         LeftItems(v.items, p.items), v.plain)
  }

  function LeftItems(items: seq<Result>, p: Option<seq<ItemPatch>>): seq<Result> {
    if p.None? then items
    else
      seq(|items|, k requires 0 <= k < |items| =>
        if k < |p.value| then PatchItem(items[k], p.value[k]) else items[k])
  }

  /** What the shared storage does to the original: a number it had is renumbered, its first elements are
      patched, and it keeps its length, its missing numbers and its plain fields. */
  lemma LeftReads(v: View, p: Patch)
    ensures var w := Left(v, p);
      && (v.issue.None? ==> w.issue.None?) && (v.pr.None? ==> w.pr.None?)
      && (v.discussion.None? ==> w.discussion.None?)
      && (v.issue.Some? ==> w.issue == Some(if p.issue.Number? then p.issue.n else v.issue.value))
      && (v.pr.Some? ==> w.pr == Some(if p.pr.Number? then p.pr.n else v.pr.value))
      && (v.discussion.Some? ==>
            w.discussion == Some(if p.discussion.Number? then p.discussion.n else v.discussion.value))
      && |w.items| == |v.items| && w.plain == v.plain
      && (forall k :: 0 <= k < |v.items| && p.items.Some? && k < |p.items.value| ==>
            ItemIs(v.items[k], p.items.value[k], w.items[k]))
      && (forall k :: 0 <= k < |v.items| && (p.items.None? || k >= |p.items.value|) ==> w.items[k] == v.items[k])
  {}

  lemma LeftIffSpared(v: View, p: Patch)
    ensures Left(v, p) == v <==> Spares(v, p)
  {
    if p.items.Some? {
      var left := LeftItems(v.items, p.items);
      assert left == v.items <==> SparesItems(v.items, p.items) by {
        assert forall k :: 0 <= k < |v.items| ==>
          left[k] == if k < |p.items.value| then PatchItem(v.items[k], p.items.value[k]) else v.items[k];
        if left == v.items {
          assert forall k :: 0 <= k < |v.items| ==> left[k] == v.items[k];
        }
      }
    }
  }

  lemma ElementsArePatched(had: seq<Result>, p: seq<ItemPatch>, a: seq<Result>, items: seq<Result>)
    requires |a| == |p| && |items| == |had|
    requires forall k :: 0 <= k < |a| ==> a[k] == Element(had, p, |p|, k)
    requires forall k :: 0 <= k < |items| ==> items[k] == Element(had, p, |p|, k)
    ensures a == PatchItems(had, Some(p)) && items == LeftItems(had, Some(p))
  {}

  method DecodeList(items: array<Result>, count: nat, p: Option<seq<ItemPatch>>) returns (a: array<Result>, n: nat)
    requires count <= items.Length && forall k :: count <= k < items.Length ==> items[k] == ZERO
    modifies items
    ensures n <= a.Length && (a == items || fresh(a))
    ensures a[..n] == PatchItems(old(items[..count]), p)
    ensures items[..count] == LeftItems(old(items[..count]), p)
  {
    a, n := items, count;
    if p.Some? {
      ghost var had := items[..count];
      a := DecodeItems(items, p.value, had);
      n := |p.value|;
      ElementsArePatched(had, p.value, a[..n], items[..count]);
    }
  }

  /** json.Unmarshal of the merged report into the copy; junk does not stop the other fields. */
  method Decode(r: Report, p: Patch) returns (r': Report)
    requires Valid(r)
    modifies r.issue, r.pr, r.discussion, r.items
    ensures r'.count <= r'.items.Length
    ensures ViewOf(r') == Patched(old(ViewOf(r)), p) && ViewOf(r) == Left(old(ViewOf(r)), p)
  {
    var issue := DecodeNumber(r.issue, p.issue);
    var pr := DecodeNumber(r.pr, p.pr);
    var discussion := DecodeNumber(r.discussion, p.discussion);
    var items, count := DecodeList(r.items, r.count, p.items);
    r' := Report(issue, pr, discussion, items, count, PatchPlain(r.plain, p.plain));
  }

  /** The storage a dead event's report refers to. */
  ghost function Footprint(entry: DeadEvent): set<object> {
    if entry.envelope.None? then {}
    else
      var r := entry.envelope.value.report;
      {r.items} + (if r.issue == null then {} else {r.issue}) + (if r.pr == null then {} else {r.pr})
        + (if r.discussion == null then {} else {r.discussion})
  }

  ghost predicate ValidEntry(entry: DeadEvent)
    reads Footprint(entry)
  {
    entry.envelope.Some? ==> Valid(entry.envelope.value.report)
  }

  /** What a reader of the entry's report sees, if there is one. */
  ghost function ReportOf(entry: DeadEvent): Option<View>
    requires entry.envelope.Some? ==> entry.envelope.value.report.count <= entry.envelope.value.report.items.Length
    reads Footprint(entry)
  {
    if entry.envelope.Some? then Some(ViewOf(entry.envelope.value.report)) else None
  }

  method ReadNumber(c: Cell?) returns (v: Option<int>)
    ensures v == NumberOf(c)
  {
    v := if c == null then None else Some(c.n);
  }

  /** The payload half: the envelope is copied, report and payload are merged, and the merged report
      is decoded into the copy. */
  method ApplyPayload(env: Envelope, p: Patch) returns (ok: bool, out: Envelope)
    requires Valid(env.report)
    modifies env.report.issue, env.report.pr, env.report.discussion, env.report.items
    ensures var p' := Resolved(old(ViewOf(env.report)), p);
      && (ok <==> !IsJunk(p'))
      && out.id == env.id && out.report.count <= out.report.items.Length
      && (ok ==> ViewOf(out.report) == Patched(old(ViewOf(env.report)), p'))
      && (!ok ==> out == env)
      && ViewOf(env.report) == Left(old(ViewOf(env.report)), p')
  {
    var issue := ReadNumber(env.report.issue);
    var pr := ReadNumber(env.report.pr);
    var discussion := ReadNumber(env.report.discussion);
    var p' := p.(issue := Resolve(issue, p.issue), pr := Resolve(pr, p.pr),
                 discussion := Resolve(discussion, p.discussion));
    var report := Decode(env.report, p');
    ok := !IsJunk(p');
    out := if ok then env.(report := report) else env;
  }

  /** The override as asked for, under the identifier and time the stamp gives, with its numbers as
      doubles. The original reads as before exactly when the merged payload changes no number and no
      result it already has; an override that fails can have changed it too. */
  method ApplyOverride(entry: DeadEvent, payload: Option<Patch>, stamp: Option<Stamp>)
    returns (ok: bool, out: DeadEvent)
    requires ValidEntry(entry)
    modifies Footprint(entry)
    ensures ok <==>
      payload.None? || entry.envelope.None? || !IsJunk(Resolved(old(ReportOf(entry)).value, payload.value))
    ensures out.envelope.Some? <==> entry.envelope.Some?
    ensures out.envelope.Some? ==> out.envelope.value.report.count <= out.envelope.value.report.items.Length
    ensures ok ==> out.id == (if stamp.Some? then "override-" + stamp.value.nanos else entry.id)
    ensures ok ==> out.failedAt == (if stamp.Some? then stamp.value.at else entry.failedAt)
    ensures ok && out.envelope.Some? ==>
      out.envelope.value.id == (if stamp.Some? then out.id else entry.envelope.value.id)
    ensures ok && out.envelope.Some? && payload.Some? ==>
      var v := old(ReportOf(entry)).value; ReportOf(out) == Some(Patched(v, Resolved(v, payload.value)))
    ensures ok && payload.None? ==> ReportOf(out) == old(ReportOf(entry))
    ensures ReportOf(entry) == old(ReportOf(entry)) <==>
      || payload.None? || entry.envelope.None?
      || Spares(old(ReportOf(entry)).value, Resolved(old(ReportOf(entry)).value, payload.value))
  {
    out, ok := entry, true;
    if payload.Some? && entry.envelope.Some? {
      ghost var v := ViewOf(entry.envelope.value.report);
      LeftIffSpared(v, Resolved(v, payload.value));
      var env;
      ok, env := ApplyPayload(entry.envelope.value, payload.value);
      if !ok {
        return;
      }
      out := out.(envelope := Some(env));
    }
    if stamp.Some? {
      var id := "override-" + stamp.value.nanos;
      out := out.(id := id, failedAt := stamp.value.at);
      if out.envelope.Some? {
        out := out.(envelope := Some(out.envelope.value.(id := id)));
      }
    }
  }

  predicate SmallNumber(v: Option<int>) { v.Some? ==> -TWO53 < v.value < TWO53 }

  predicate SmallPatch(p: NumberPatch) { p.Number? ==> -TWO53 < p.n < TWO53 }

  predicate SmallNumbers(v: View, p: Patch) {
    && SmallNumber(v.issue) && SmallNumber(v.pr) && SmallNumber(v.discussion)
    && SmallPatch(p.issue) && SmallPatch(p.pr) && SmallPatch(p.discussion)
  }

  lemma SmallResolves(v: Option<int>, p: NumberPatch)
    requires SmallNumber(v) && SmallPatch(p)
    ensures PatchNumber(v, Resolve(v, p)) == PatchNumber(v, p) && (Resolve(v, p).Junk? <==> p.Junk?)
    ensures SparesNumber(v, Resolve(v, p)) <==> SparesNumber(v, p)
  {
    if v.Some? { SmallIsExact(v.value); }
    if p.Number? { SmallIsExact(p.n); }
  }

  /** With numbers below 2^53 the merge is exact: the payload as given decides everything. */
  lemma SmallNumbersAreExact(v: View, p: Patch)
    requires SmallNumbers(v, p)
    ensures Patched(v, Resolved(v, p)) == Patched(v, p) && (IsJunk(Resolved(v, p)) <==> IsJunk(p))
    ensures Spares(v, Resolved(v, p)) <==> Spares(v, p)
  {
    SmallResolves(v.issue, p.issue);
    SmallResolves(v.pr, p.pr);
    SmallResolves(v.discussion, p.discussion);
  }

  /** A payload that renumbers the pull request renumbers the original's as well. */
  lemma RenumberingLeaks(v: View, n: int, m: int)
    requires v.pr == Some(n) && -TWO53 < m < TWO53 && n != m
    ensures var p := Resolved(v, Patch(Keep, Number(m), Keep, None, map[]));
      Left(v, p).pr == Some(m) && !Spares(v, p)
  {
    SmallIsExact(m);
  }

  /** A number beyond 2^53 is changed by a payload that does not mention it. */
  lemma LargeNumberLeaks(v: View)
    requires v.pr == Some(TWO53 + 1)
    ensures var p := Resolved(v, Patch(Keep, Keep, Keep, None, map[]));
      Left(v, p).pr == Some(TWO53) && !Spares(v, p)
  {
    FirstInexact();
  }
}
