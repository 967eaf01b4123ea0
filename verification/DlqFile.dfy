/** The file-backed queue as an object (internal/dlq/file.go): every mutator reads the whole
    file, changes the list and rewrites the file through a temporary one. */
module DlqFile {
  import opened Common
  import opened Domain
  import opened DlqFormat
  import opened DlqHistory

  const DEFAULT_MAX_BYTES := 10 * 1024 * 1024

  /** Contents of a file and whether they have reached the disk. */
  datatype File = File(bytes: string, synced: bool)

  lemma {:induction false} ImageAppend(raws: seq<string>, raw: string)
    ensures Image(raws + [raw]) == Image(raws) + raw + "\n"
  {
    if raws == [] {
      assert raws + [raw] == [raw] && [raw][1..] == [];
    } else {
      assert (raws + [raw])[1..] == raws[1..] + [raw];
      ImageAppend(raws[1..], raw);
    }
  }

  lemma KeepOne(c: Codec, max: int, es: seq<DeadEvent>)
    requires Encodable(c, es) && es != []
    ensures |ImageOf(c, es[1..])| == |ImageOf(c, es)| - (|c.enc(es[0]).value| + 1)
    ensures |ImageOf(c, es)| > max ==> Keep(c, max, es) == Keep(c, max, es[1..])
    ensures |ImageOf(c, es)| <= max ==> Keep(c, max, es) == es
  {
    ImageOfSplit(c, es);
  }

  /** The replacement loop of Enqueue: the first entry with the identifier, or a new one. */
  method Upsert(es: seq<DeadEvent>, e: DeadEvent) returns (out: seq<DeadEvent>)
    ensures out == Upserted(es, e)
    ensures (forall i :: 0 <= i < |es| ==> es[i].id != e.id) ==> out == es + [e]
    ensures forall i :: 0 <= i < |es| && es[i].id == e.id && (forall j :: 0 <= j < i ==> es[j].id != e.id) ==>
      out == es[..i] + [DeadEvent(e.id, e.failedAt, e.cause, es[i].retryCount + 1, e.envelope)] + es[i + 1..]
  {
    for i := 0 to |es|
      invariant forall j :: 0 <= j < i ==> es[j].id != e.id
    {
      if es[i].id == e.id {
        assert i == Find(es, e.id);
        return es[i := e.(retryCount := es[i].retryCount + 1)];
      }
    }
    return es + [e];
  }

  method Without(es: seq<DeadEvent>, id: string) returns (out: seq<DeadEvent>)
    ensures out == Target(es, Op.Remove(id))
    ensures exists f :: Picks(f, es, out) && forall i: nat :: i in f <==> i < |es| && es[i].id != id
  {
    out := [];
    ghost var keep := (e: DeadEvent) => e.id != id;
    ghost var f := SelectPicks(keep, es);
    for i := 0 to |es|
      invariant out == Select(keep, es[..i])
    {
      PrefixSnoc(es, i);
      if es[i].id != id {
        out := out + [es[i]];
      }
    }
    assert es[..|es|] == es;
  }

  method Unexpired(es: seq<DeadEvent>, cutoff: int) returns (kept: seq<DeadEvent>)
    ensures kept == Target(es, Purge(cutoff))
  {
    kept := [];
    ghost var keep := (e: DeadEvent) => e.failedAt >= cutoff;
    for i := 0 to |es|
      invariant kept == Select(keep, es[..i])
    {
      PrefixSnoc(es, i);
      if !(es[i].failedAt < cutoff) {
        kept := kept + [es[i]];
      }
    }
    assert es[..|es|] == es;
  }

  /** What the callback of Scan returns: nil, ErrStopScan or another error. */
  datatype Signal = Continue | StopScan | Abort

  function Last(fn: DeadEvent -> Signal, visited: seq<DeadEvent>): Signal {
    if visited == [] then Continue else fn(visited[|visited| - 1])
  }

  /** The callback goes on after each of the first `n`. */
  ghost predicate GoesOn(fn: DeadEvent -> Signal, visited: seq<DeadEvent>, n: int)
    requires n <= |visited|
  {
    forall i :: 0 <= i < n ==> fn(visited[i]) == Continue
  }

  /** One line off the front of what is left ... */
  lemma InnerLine(c: Codec, rest: string, i: nat)
    requires i == IndexOf(rest, '\n') < LINE_LIMIT && i < |rest|
    ensures Readable(c, rest) == Decoded(c, rest[..i]) + Readable(c, rest[i + 1..])
    ensures Parse(c, rest).Some? <==> Parse(c, rest[i + 1..]).Some?
  {}

  lemma VisitNext(fn: DeadEvent -> Signal, visited: seq<DeadEvent>, line: seq<DeadEvent>)
    requires GoesOn(fn, visited, |visited|) && |line| <= 1
    ensures GoesOn(fn, visited + line, |visited|)
    ensures line != [] ==> Last(fn, visited + line) == fn(line[0])
    ensures line == [] || fn(line[0]) == Continue ==> GoesOn(fn, visited + line, |visited + line|)
  {}

  /** The next line: what it holds and what is left, unless it is too long. */
  method ScanLine(c: Codec, rest: string) returns (fits: bool, line: seq<DeadEvent>, tail: string)
    requires rest != ""
    ensures !fits ==> Readable(c, rest) == [] && Parse(c, rest).None?
    ensures fits ==> |tail| < |rest| && |line| <= 1 && Readable(c, rest) == line + Readable(c, tail)
    ensures fits ==> (Parse(c, rest).Some? <==> Parse(c, tail).Some?)
  {
    var i := IndexOf(rest, '\n');
    if i >= LINE_LIMIT {
      return false, [], "";
    }
    fits := true;
    if i == |rest| {
      line, tail := Decoded(c, rest), "";
      assert line + [] == line;
    } else {
      InnerLine(c, rest, i);
      line, tail := Decoded(c, rest[..i]), rest[i + 1..];
    }
  }

  lemma Regroup(all: seq<DeadEvent>, visited: seq<DeadEvent>, line: seq<DeadEvent>, more: seq<DeadEvent>)
    requires all == visited + (line + more)
    ensures all == visited + line + more && visited + line <= all
  {}

  /** The loop of Scan. */
  method ScanText(c: Codec, file: string, fn: DeadEvent -> Signal) returns (ok: bool, visited: seq<DeadEvent>)
    ensures visited <= Readable(c, file) && GoesOn(fn, visited, |visited| - 1)
    ensures ok ==>
      || Last(fn, visited) == StopScan
      || (Parse(c, file).Some? && visited == Readable(c, file) && GoesOn(fn, visited, |visited|))
    ensures !ok ==> Last(fn, visited) == Abort || (Parse(c, file).None? && visited == Readable(c, file))
  {
    visited := [];
    var rest := file;
    while rest != ""
      invariant Readable(c, file) == visited + Readable(c, rest) && GoesOn(fn, visited, |visited|)
      invariant Parse(c, file).Some? <==> Parse(c, rest).Some?
      decreases |rest|
    {
      var fits, line, tail := ScanLine(c, rest);
      if !fits { return false, visited; }
      VisitNext(fn, visited, line);
      Regroup(Readable(c, file), visited, line, Readable(c, tail));
      visited, rest := visited + line, tail;
      if |line| > 0 {
        match fn(line[0])
        case Continue =>
        case StopScan => return true, visited;
        case Abort => return false, visited;
      }
    }
    ok := true;
  }

  lemma UnchangedIsStep(c: Codec, max: int, es: seq<DeadEvent>, op: Op)
    requires Encodable(c, es) && Scannable(c, es) && Target(es, op) == es && |ImageOf(c, es)| <= max
    ensures StepsTo(c, max, es, op, es, true)
  {}

  /** On a regular file the outcome is a step of the history. */
  lemma OutcomeIsStep(c: Codec, max: int, es: seq<DeadEvent>, op: Op, es': seq<DeadEvent>, ok: bool)
    requires Encodable(c, es) && (ok ==> Scannable(c, es) && Encodable(c, Target(es, op)))
    requires es' == if ok then Keep(c, max, Target(es, op)) else es
    ensures StepsTo(c, max, es, op, es', ok)
  {}

  /** The trail has grown, and at every new point the queue's file was the same. */
  ghost predicate Untouched(before: seq<File>, after: seq<File>, file: File) {
    before <= after && forall i :: |before| <= i < |after| ==> after[i] == file
  }

  class FileQueue {
    const codec: Codec
    const max: nat
    var file: File
    var tmp: Option<File>
    ghost var entries: seq<DeadEvent>   // what the file stands for
    ghost var trail: seq<File>          // `file` after every file-system operation

    ghost predicate Valid()
      reads this
    {
      && Faithful(codec) && file.synced && Encodable(codec, entries)
      && (CanRead() ==> Parse(codec, file.bytes).value == entries)
    }

    ghost predicate CanRead()
      reads this
    {
      Parse(codec, file.bytes).Some?
    }

    /** The file reads as if the queue had written it. */
    ghost predicate IsRegular()
      reads this
    {
      Encodable(codec, entries) && (CanRead() <==> Scannable(codec, entries))
    }

    /** The operation can be carried out: the file can be read and the result encoded. */
    ghost predicate Possible(op: Op)
      reads this
    {
      CanRead() && Encodable(codec, Target(entries, op))
    }

    /** NewFileQueue creates the file or reopens what is there, whoever wrote it. */
    constructor (codec: Codec, maxBytes: int, left: string)
      requires Faithful(codec)
      ensures Valid() && file.bytes == left && this.codec == codec && max > 0
      ensures max == if maxBytes <= 0 then 10485760 else maxBytes
      ensures left == "" ==> entries == [] && IsRegular()
    {
      ParseIsReadable(codec, left);
      ReadableIsEncodable(codec, left);
      this.codec := codec;
      this.max := if maxBytes <= 0 then DEFAULT_MAX_BYTES else maxBytes;
      file, tmp, entries, trail := File(left, true), None, Readable(codec, left), [];
    }

    /** readAll: line by line, skipping empty and corrupt lines. */
    method ReadAll(io: bool) returns (r: Option<seq<DeadEvent>>)
      ensures r.Some? ==> r == Parse(codec, file.bytes)
      ensures io ==> r == Parse(codec, file.bytes)
    {
      var fails: bool := *;
      if fails && !io { return None; }
      var rest, acc := file.bytes, [];
      assert Parse(codec, rest).Some? ==> [] + Parse(codec, rest).value == Parse(codec, rest).value;
      while rest != ""
        invariant Parse(codec, file.bytes) == Prepend(acc, Parse(codec, rest))
        decreases |rest|
      {
        var i := IndexOf(rest, '\n');
        if i >= LINE_LIMIT { return None; }
        if i == |rest| {
          return Some(acc + Decoded(codec, rest));
        }
        PrependTwice(acc, Decoded(codec, rest[..i]), Parse(codec, rest[i + 1..]));
        acc := acc + Decoded(codec, rest[..i]);
        rest := rest[i + 1..];
      }
      assert acc + [] == acc;
      return Some(acc);
    }

    method Note()
      modifies this`trail
      ensures trail == old(trail) + [file]
    {
      trail := trail + [file];
    }

    /** One write(2) to the temporary file; a failure may leave any part of it behind. */
    method WriteTmp(bytes: string, io: bool) returns (ok: bool)
      requires tmp.Some?
      modifies this`tmp, this`trail
      ensures trail == old(trail) + [file] && tmp.Some? && (io ==> ok)
      ensures ok ==> tmp == Some(File(old(tmp.value.bytes) + bytes, false))
    {
      var fails: bool := *;
      ok := io || !fails;
      var n: int := *;
      var written := if ok || n < 0 || n > |bytes| then bytes else bytes[..n];
      tmp := Some(File(tmp.value.bytes + written, false));
      Note();
    }

    /** The buffered writer: it hands any part of what is pending to the file, at any time. */
    method Spill(pending: string, io: bool) returns (ok: bool, left: string)
      requires tmp.Some?
      modifies this`tmp, this`trail
      ensures tmp.Some? && (io ==> ok)
      ensures ok ==> tmp.value.bytes + left == old(tmp.value.bytes) + pending
      ensures Untouched(old(trail), trail, file)
    {
      var n: int := *;
      if 0 < n <= |pending| {
        ok := WriteTmp(pending[..n], io);
        left := pending[n..];
        assert pending[..n] + left == pending;
      } else {
        ok, left := true, pending;
      }
    }

    /** json.Marshal every entry; false when one cannot be encoded. */
    method EncodeAll(es: seq<DeadEvent>) returns (ok: bool, raws: seq<string>, total: int)
      ensures ok <==> Encodable(codec, es)
      ensures ok ==> raws == Encode(codec, es) && total == |Image(raws)|
    {
      raws, total := [], 0;
      for i := 0 to |es|
        invariant Encodable(codec, es[..i]) && raws == Encode(codec, es[..i]) && total == |Image(raws)|
      {
        var raw := codec.enc(es[i]);
        if raw.None? { return false, [], 0; }
        ImageAppend(raws, raw.value);
        raws := raws + [raw.value];
        total := total + |raw.value| + 1;
      }
      assert es[..|es|] == es;
      ok := true;
    }

    /** The compaction loop of writeAll: drop from the front while the total exceeds the bound. */
    method Compact(es: seq<DeadEvent>, raws0: seq<string>, total0: int) returns (raws: seq<string>)
      requires Encodable(codec, es) && raws0 == Encode(codec, es) && total0 == |Image(raws0)|
      ensures raws == Encode(codec, Keep(codec, max, es))
    {
      raws := raws0;
      var total := total0;
      ghost var left := es;
      while |raws| > 0 && total > max
        invariant Encodable(codec, left) && raws == Encode(codec, left) && total == |ImageOf(codec, left)|
        invariant Keep(codec, max, left) == Keep(codec, max, es)
        decreases |raws|
      {
        KeepOne(codec, max, left);
        total := total - (|raws[0]| + 1);
        raws := raws[1..];
        left := left[1..];
      }
    }

    /** One entry and its line break. */
    method WriteLine(pending: string, raw: string, io: bool) returns (ok: bool, left: string)
      requires tmp.Some?
      modifies this`tmp, this`trail
      ensures tmp.Some? && (io ==> ok)
      ensures ok ==> tmp.value.bytes + left == old(tmp.value.bytes) + pending + raw + "\n"
      ensures Untouched(old(trail), trail, file)
    {
      ghost var bytes, first := tmp.value.bytes, trail;
      assert bytes + (pending + raw) == bytes + pending + raw;
      ok, left := Spill(pending + raw, io);
      if !ok { return; }
      ghost var bytes', left' := tmp.value.bytes, left;
      assert bytes' + (left' + "\n") == bytes' + left' + "\n";
      ok, left := Spill(left + "\n", io);
    }

    /** Write the temporary file completely and sync it. */
    method FillTmp(raws: seq<string>, io: bool) returns (ok: bool)
      modifies this`tmp, this`trail
      ensures io ==> ok
      ensures ok ==> tmp == Some(File(Image(raws), true))
      ensures Untouched(old(trail), trail, file)
    {
      var fails: bool := *;
      if fails && !io { return false; }
      tmp := Some(File("", false));
      Note();
      var pending := "";
      for i := 0 to |raws|
        invariant tmp.Some? && tmp.value.bytes + pending == Image(raws[..i])
        invariant Untouched(old(trail), trail, file)
      {
        ImageAppend(raws[..i], raws[i]);
        assert raws[..i + 1] == raws[..i] + [raws[i]];
        var done: bool;
        ghost var before := tmp.value.bytes + pending;
        done, pending := WriteLine(pending, raws[i], io);
        if !done { return false; }
        assert tmp.value.bytes + pending == before + raws[i] + "\n";
      }
      assert raws[..|raws|] == raws;
      ok := WriteTmp(pending, io);       // w.Flush
      if !ok { return; }
      fails := *;
      if fails && !io { return false; }  // f.Sync
      tmp := Some(File(tmp.value.bytes, true));
      Note();
      fails := *;
      if fails && !io { return false; }  // f.Close
    }

    /** Fill the temporary file and rename it over the queue. */
    method Replace(raws: seq<string>, ghost kept: seq<DeadEvent>, io: bool) returns (ok: bool)
      requires Valid() && Encodable(codec, kept) && raws == Encode(codec, kept)
      modifies this
      ensures Valid() && (io ==> ok)
      ensures !ok ==> entries == old(entries) && file == old(file)
      ensures ok ==> entries == kept && file == File(ImageOf(codec, kept), true) && IsRegular()
      ensures |old(trail)| <= |trail| && trail[..|old(trail)|] == old(trail)
      ensures forall i :: |old(trail)| <= i < |trail| ==> trail[i] == old(file) || (ok && trail[i] == file)
    {
      ok := FillTmp(raws, io);
      if !ok { return; }
      var fails: bool := *;
      if fails && !io { return false; }  // os.Rename
      file, tmp := tmp.value, None;
      entries := kept;
      ParseImage(codec, kept);
      Note();
    }

    /** writeAll. At every file-system operation `file` holds the old contents or the complete,
        synced image of the longest suffix that fits; an error means the old contents. */
    method WriteAll(es: seq<DeadEvent>, io: bool) returns (ok: bool)
      requires Valid()
      modifies this
      ensures Valid() && (ok ==> Encodable(codec, es)) && (io && Encodable(codec, es) ==> ok)
      ensures ok ==> entries == Keep(codec, max, es) && IsRegular()
      ensures !ok ==> entries == old(entries) && file == old(file)
      ensures |old(trail)| <= |trail| && trail[..|old(trail)|] == old(trail)
      ensures forall i :: |old(trail)| <= i < |trail| ==> trail[i] == old(file) || (ok && trail[i] == file)
    {
      var raws, total;
      ok, raws, total := EncodeAll(es);
      if !ok { return; }
      raws := Compact(es, raws, total);
      ghost var kept := Keep(codec, max, es);
      ok := Replace(raws, kept, io);
    }

    /** Enqueue. On a file the queue wrote this is a step of its history; on any file it keeps the
        longest suffix that fits of what was read and upserted. */
    method Enqueue(env: Envelope, cause: string, now: int, io: bool) returns (ok: bool)
      requires Valid()
      modifies this
      ensures var op := Op.Enqueue(env, cause, now);
        && Valid() && (ok ==> old(Possible(op))) && (io && old(Possible(op)) ==> ok)
        && Outcome(old(entries), op, ok) && (old(IsRegular()) || ok ==> IsRegular())
        && (old(IsRegular()) ==> StepsTo(codec, max, old(entries), op, entries, ok))
    {
      var read := ReadAll(io);
      if read.None? { return false; }
      var es := read.value;
      es := Upsert(es, DeadEvent(env.id, now, cause, 0, Some(env)));
      ghost var before := entries;
      ok := WriteAll(es, io);
      if old(IsRegular()) {
        OutcomeIsStep(codec, max, before, Op.Enqueue(env, cause, now), entries, ok);
      }
    }

    /** Remove, likewise. */
    method Remove(id: string, io: bool) returns (ok: bool)
      requires Valid()
      modifies this
      ensures Valid() && (ok ==> old(Possible(Op.Remove(id)))) && (io && old(Possible(Op.Remove(id))) ==> ok)
      ensures Outcome(old(entries), Op.Remove(id), ok) && (old(IsRegular()) || ok ==> IsRegular())
      ensures old(IsRegular()) ==> StepsTo(codec, max, old(entries), Op.Remove(id), entries, ok)
    {
      var read := ReadAll(io);
      if read.None? { return false; }
      var es := read.value;
      var out := Without(es, id);
      ghost var before := entries;
      ok := WriteAll(out, io);
      if old(IsRegular()) {
        OutcomeIsStep(codec, max, before, Op.Remove(id), entries, ok);
      }
    }

    /** The new contents, or the old ones. */
    ghost predicate Outcome(before: seq<DeadEvent>, op: Op, ok: bool)
      reads this
    {
      && (ok ==> Encodable(codec, Target(before, op)))
      && entries == if ok then Keep(codec, max, Target(before, op)) else before
    }

    /** purgeExpired: nothing is written when nothing has expired, so a file that is over a smaller
        bound, or written by others, stays as it is. */
    method PurgeExpired(cutoff: int, io: bool) returns (ok: bool)
      requires Valid()
      modifies this
      ensures Valid() && (ok ==> old(Possible(Purge(cutoff)))) && (io && old(Possible(Purge(cutoff))) ==> ok)
      ensures if ok && Target(old(entries), Purge(cutoff)) == old(entries)
              then entries == old(entries) && file == old(file)
              else Outcome(old(entries), Purge(cutoff), ok)
      ensures old(IsRegular()) ==> IsRegular()
      ensures old(IsRegular()) && |ImageOf(codec, old(entries))| <= max ==>
        StepsTo(codec, max, old(entries), Purge(cutoff), entries, ok)
    {
      var read := ReadAll(io);
      if read.None? { return false; }
      var es := read.value;
      var kept := Unexpired(es, cutoff);
      SelectAll((e: DeadEvent) => e.failedAt >= cutoff, es);
      ghost var before := entries;
      if |es| - |kept| == 0 {
        if IsRegular() && |ImageOf(codec, entries)| <= max {
          UnchangedIsStep(codec, max, entries, Purge(cutoff));
        }
        return true;
      }
      ok := WriteAll(kept, io);
      if old(IsRegular()) {
        OutcomeIsStep(codec, max, before, Purge(cutoff), entries, ok);
      }
    }

    /** List: the oldest `limit` entries, or all of them when the limit is not positive. */
    method List(limit: int, io: bool) returns (r: Option<seq<DeadEvent>>)
      requires Valid()
      ensures io ==> (r.Some? <==> CanRead())
      ensures r.Some? ==> r.value == if 0 < limit < |entries| then entries[..limit] else entries
    {
      r := ReadAll(io);
      if r.Some? && limit > 0 && |r.value| > limit {
        r := Some(r.value[..limit]);
      }
    }

    /** Scan: the callback sees the entries in file order until it stops the scan, or fails, or a line
        is too long to get past. The result is an error exactly when one of the last two happened. */
    method Scan(fn: DeadEvent -> Signal, io: bool) returns (ok: bool, visited: seq<DeadEvent>)
      requires Valid()
      ensures visited <= Readable(codec, file.bytes) && GoesOn(fn, visited, |visited| - 1)
      ensures ok ==>
        || Last(fn, visited) == StopScan
        || (CanRead() && visited == entries && GoesOn(fn, visited, |visited|))
      ensures !ok && io ==> Last(fn, visited) == Abort || (!CanRead() && visited == Readable(codec, file.bytes))
    {
      var fails: bool := *;
      if fails && !io { return false, []; }
      ParseIsReadable(codec, file.bytes);
      ok, visited := ScanText(codec, file.bytes, fn);
    }

    /** collectReplayEntries: all entries, or those that match the filter, in file order. */
    method CollectReplayEntries(filter: Option<DeadEvent -> bool>, io: bool) returns (ok: bool, found: seq<DeadEvent>)
      requires Valid()
      ensures io ==> (ok <==> CanRead())
      ensures ok ==> found == if filter.None? then entries else Select(filter.value, entries)
    {
      if filter.None? {
        var all := List(0, io);
        return all.Some?, if all.Some? then all.value else [];
      }
      var visited;
      ok, visited := Scan(_ => Continue, io);
      found := [];
      for i := 0 to |visited|
        invariant found == Select(filter.value, visited[..i])
      {
        PrefixSnoc(visited, i);
        if filter.value(visited[i]) {
          found := found + [visited[i]];
        }
      }
      assert visited[..|visited|] == visited;
    }
  }
}
