/** The JSON-lines image of the dead letter queue: encoding, scanning and size compaction
    (internal/dlq/file.go:164-197, 246-293). Bytes are modelled as characters. */
module DlqFormat {
  import opened Common
  import opened Domain

  datatype DeadEvent = DeadEvent(
    id: string,
    failedAt: int,
    cause: string,
    retryCount: nat,
    envelope: Option<Envelope>)

  /** json.Marshal and json.Unmarshal, unspecified but for `Faithful`. */
  datatype Codec = Codec(enc: DeadEvent -> Option<string>, dec: string -> Option<DeadEvent>)

  /** JSON objects are non-empty, carry no raw line break and decode to what was encoded; and what was
      decoded can be encoded. */
  ghost predicate Faithful(c: Codec) {
    && (forall e :: c.enc(e).Some? ==>
          var raw := c.enc(e).value;
          && raw != "" && '\n' !in raw && raw[|raw| - 1] != '\r'
          && c.dec(raw) == Some(e))
    && (forall raw :: c.dec(raw).Some? ==> c.enc(c.dec(raw).value).Some?)
  }

  /** The scanner's buffer limit: a line of this length or more is ErrTooLong. */
  const LINE_LIMIT := 4 * 1024 * 1024

  function IndexOf(s: string, ch: char): (i: nat)
    ensures i <= |s| && (i < |s| ==> s[i] == ch) && forall j :: 0 <= j < i ==> s[j] != ch
  {
    if s == "" || s[0] == ch then 0 else 1 + IndexOf(s[1..], ch)
  }

  lemma IndexOfAfter(prefix: string, ch: char, rest: string)
    requires ch !in prefix
    ensures IndexOf(prefix + [ch] + rest, ch) == |prefix|
  {
    var s := prefix + [ch] + rest;
    assert s[|prefix|] == ch;
    assert forall j :: 0 <= j < |prefix| ==> s[j] == prefix[j] && prefix[j] in prefix;
  }

  function DropCR(line: string): string {
    if line != "" && line[|line| - 1] == '\r' then line[..|line| - 1] else line
  }

  /** Of a line that ends in a carriage return it takes that one, and otherwise nothing. */
  lemma DropsOneCR(line: string)
    ensures DropCR(line + "\r") == line
    ensures (forall x :: line != x + "\r") ==> DropCR(line) == line
  {
    assert (line + "\r")[..|line|] == line;
    if line != "" && line[|line| - 1] == '\r' {
      assert line == line[..|line| - 1] + "\r";
    }
  }

  /** What one line contributes: nothing when empty or corrupt. */
  function Decoded(c: Codec, line: string): seq<DeadEvent> {
    var l := DropCR(line);
    if l == "" then [] else match c.dec(l) case Some(e) => [e] case None => []
  }

  function Prepend(first: seq<DeadEvent>, rest: Option<seq<DeadEvent>>): Option<seq<DeadEvent>> {
    if rest.Some? then Some(first + rest.value) else None
  }

  lemma PrependTwice(a: seq<DeadEvent>, b: seq<DeadEvent>, rest: Option<seq<DeadEvent>>)
    ensures Prepend(a, Prepend(b, rest)) == Prepend(a + b, rest)
  {
    if rest.Some? {
      assert a + (b + rest.value) == a + b + rest.value;
    }
  }

  /** readAll: None is the scanner's error. */
  function Parse(c: Codec, file: string): Option<seq<DeadEvent>>
    decreases |file|
  {
    if file == "" then Some([])
    else
      var i := IndexOf(file, '\n');
      if i >= LINE_LIMIT then None
      else if i == |file| then Some(Decoded(c, file))
      else Prepend(Decoded(c, file[..i]), Parse(c, file[i + 1..]))
  }

  /** The entries before the first line that is too long. */
  function Readable(c: Codec, file: string): seq<DeadEvent>
    decreases |file|
  {
    if file == "" then []
    else
      var i := IndexOf(file, '\n');
      if i >= LINE_LIMIT then []
      else if i == |file| then Decoded(c, file)
      else Decoded(c, file[..i]) + Readable(c, file[i + 1..])
  }

  /** A file that can be read at all is read whole. */
  lemma {:induction false} ParseIsReadable(c: Codec, file: string)
    ensures Parse(c, file).Some? ==> Parse(c, file).value == Readable(c, file)
    decreases |file|
  {
    if file != "" {
      var i := IndexOf(file, '\n');
      if i < LINE_LIMIT && i < |file| {
        ParseIsReadable(c, file[i + 1..]);
      }
    }
  }

  lemma LineIsEncodable(c: Codec, line: string)
    requires Faithful(c)
    ensures Encodable(c, Decoded(c, line))
  {}

  lemma EncodableConcat(c: Codec, a: seq<DeadEvent>, b: seq<DeadEvent>)
    requires Encodable(c, a) && Encodable(c, b)
    ensures Encodable(c, a + b)
  {}

  /** What was read can be written. */
  lemma {:induction false} ReadableIsEncodable(c: Codec, file: string)
    requires Faithful(c)
    ensures Encodable(c, Readable(c, file))
    decreases |file|
  {
    if file != "" {
      var i := IndexOf(file, '\n');
      if i == |file| {
        LineIsEncodable(c, file);
      } else if i < LINE_LIMIT {
        ReadableIsEncodable(c, file[i + 1..]);
        LineIsEncodable(c, file[..i]);
        EncodableConcat(c, Decoded(c, file[..i]), Readable(c, file[i + 1..]));
      }
    }
  }

  /** The file written for the given encodings. */
  function Image(raws: seq<string>): string {
    if raws == [] then "" else raws[0] + "\n" + Image(raws[1..])
  }

  predicate Encodable(c: Codec, es: seq<DeadEvent>) {
    forall i :: 0 <= i < |es| ==> c.enc(es[i]).Some?
  }

  // ---- Any file, line by line ------------------------------------------------------------------

  predicate HoldsEntry(c: Codec, line: string) { DropCR(line) != "" && c.dec(DropCR(line)).Some? }

  /** The lines that hold an entry, in their order. */
  ghost function Held(c: Codec, lines: seq<string>): seq<string> {
    Select((l: string) => HoldsEntry(c, l), lines)
  }

  /** `es` are the entries of the lines. */
  ghost predicate Reads(c: Codec, lines: seq<string>, es: seq<DeadEvent>) {
    |es| == |Held(c, lines)| && forall k :: 0 <= k < |es| ==> c.dec(DropCR(Held(c, lines)[k])) == Some(es[k])
  }

  lemma ReadsOne(c: Codec, line: string)
    ensures Reads(c, [line], Decoded(c, line))
  {
    SelectAppend((l: string) => HoldsEntry(c, l), [], line);
    assert [] + [line] == [line];
  }

  lemma ReadsConcat(c: Codec, a: seq<string>, b: seq<string>, es: seq<DeadEvent>, fs: seq<DeadEvent>)
    requires Reads(c, a, es) && Reads(c, b, fs)
    ensures Reads(c, a + b, es + fs)
  {
    SelectConcat((l: string) => HoldsEntry(c, l), a, b);
  }

  ghost predicate TooLong(lines: seq<string>) { exists i :: 0 <= i < |lines| && |lines[i]| >= 4194304 }

  ghost predicate IsLine(line: string) { '\n' !in line }

  lemma ParseLine(c: Codec, line: string, rest: string)
    requires IsLine(line)
    ensures Parse(c, line + "\n" + rest) ==
      if |line| >= LINE_LIMIT then None else Prepend(Decoded(c, line), Parse(c, rest))
  {
    var file := line + "\n" + rest;
    IndexOfAfter(line, '\n', rest);
    assert file[..|line|] == line && file[|line| + 1..] == rest;
  }

  lemma ParseLast(c: Codec, line: string)
    requires IsLine(line)
    ensures Parse(c, line) == if |line| >= LINE_LIMIT then None else Some(Decoded(c, line))
  {
    assert IndexOf(line, '\n') == |line|;
  }

  lemma TooLongCons(line: string, lines: seq<string>)
    ensures TooLong([line] + lines) <==> |line| >= LINE_LIMIT || TooLong(lines)
  {
    if i :| 0 <= i < |lines| && |lines[i]| >= LINE_LIMIT {
      assert ([line] + lines)[i + 1] == lines[i];
    }
    assert ([line] + lines)[0] == line;
  }

  /** Every file, whoever wrote it: it cannot be read exactly when some line is too long, and otherwise
      each line that decodes gives its entry, in order; empty and corrupt ones give none. */
  lemma {:induction false} ParseLines(c: Codec, lines: seq<string>, last: string)
    requires (forall i :: 0 <= i < |lines| ==> IsLine(lines[i])) && IsLine(last)
    ensures var r := Parse(c, Image(lines) + last);
      && (r.None? <==> TooLong(lines + [last]))
      && (r.Some? ==> Reads(c, lines + [last], r.value))
    decreases |lines|
  {
    if lines == [] {
      assert Image(lines) + last == last && lines + [last] == [last];
      ParseLast(c, last);
      ReadsOne(c, last);
    } else {
      var rest, more := Image(lines[1..]) + last, lines[1..] + [last];
      ParseLines(c, lines[1..], last);
      assert Image(lines) + last == lines[0] + "\n" + rest && lines + [last] == [lines[0]] + more;
      ParseLine(c, lines[0], rest);
      TooLongCons(lines[0], more);
      ReadsOne(c, lines[0]);
      if Parse(c, rest).Some? {
        ReadsConcat(c, [lines[0]], more, Decoded(c, lines[0]), Parse(c, rest).value);
      }
    }
  }

  function Encode(c: Codec, es: seq<DeadEvent>): (raws: seq<string>)
    requires Encodable(c, es)
    ensures |raws| == |es| && forall i :: 0 <= i < |es| ==> raws[i] == c.enc(es[i]).value
  {
    seq(|es|, i requires 0 <= i < |es| => c.enc(es[i]).value)
  }

  function ImageOf(c: Codec, es: seq<DeadEvent>): string
    requires Encodable(c, es)
  {
    Image(Encode(c, es))
  }

  predicate Scannable(c: Codec, es: seq<DeadEvent>)
    requires Encodable(c, es)
  {
    forall i :: 0 <= i < |es| ==> |c.enc(es[i]).value| < LINE_LIMIT
  }

  lemma ImageOfSplit(c: Codec, es: seq<DeadEvent>)
    requires Encodable(c, es) && es != []
    ensures ImageOf(c, es) == c.enc(es[0]).value + "\n" + ImageOf(c, es[1..])
  {
    assert Encode(c, es)[1..] == Encode(c, es[1..]);
  }

  /** Reading one terminated line. */
  /** Round trip: what was written is read back, unless a line reaches the scanner's limit, and
      then reading fails as a whole. */
  lemma {:induction false} ParseImage(c: Codec, es: seq<DeadEvent>)
    requires Faithful(c) && Encodable(c, es)
    ensures Parse(c, ImageOf(c, es)) == if Scannable(c, es) then Some(es) else None
  {
    if es == [] {
      assert Scannable(c, es);
    } else {
      var raw, rest := c.enc(es[0]).value, es[1..];
      ImageOfSplit(c, es);
      ParseLine(c, raw, ImageOf(c, rest));
      ParseImage(c, rest);
      assert Decoded(c, raw) == [es[0]];
      assert es == [es[0]] + rest;
      ScannableCons(c, es);
    }
  }

  lemma ScannableCons(c: Codec, es: seq<DeadEvent>)
    requires Encodable(c, es) && es != []
    ensures Scannable(c, es) <==> |c.enc(es[0]).value| < LINE_LIMIT && Scannable(c, es[1..])
  {
    assert es == [es[0]] + es[1..];
  }

  // ---- Size compaction ------------------------------------------------------------------

  /** writeAll drops the oldest entry while the image exceeds the bound. */
  function Keep(c: Codec, max: int, es: seq<DeadEvent>): (kept: seq<DeadEvent>)
    requires Encodable(c, es)
    ensures |kept| <= |es| && kept == es[|es| - |kept|..]
  {
    if es == [] || |ImageOf(c, es)| <= max then es else Keep(c, max, es[1..])
  }

  lemma {:induction false} SuffixIsSmaller(c: Codec, es: seq<DeadEvent>, k: nat)
    requires Encodable(c, es) && k <= |es|
    ensures |ImageOf(c, es[k..])| <= |ImageOf(c, es)|
    ensures k > 0 ==> |ImageOf(c, es[k..])| < |ImageOf(c, es)|
  {
    if k > 0 {
      ImageOfSplit(c, es);
      assert es[1..][k - 1..] == es[k..];
      SuffixIsSmaller(c, es[1..], k - 1);
    } else {
      assert es[0..] == es;
    }
  }

  /** Keep is the longest suffix that fits: it fits, and a suffix fits exactly when it is no
      longer than the kept one. */
  lemma {:induction false} KeepIsLongestSuffix(c: Codec, max: nat, es: seq<DeadEvent>, k: nat)
    requires Encodable(c, es) && k <= |es|
    ensures |ImageOf(c, es[k..])| <= max <==> |es| - k <= |Keep(c, max, es)|
  {
    if es == [] {
    } else if |ImageOf(c, es)| <= max {
      SuffixIsSmaller(c, es, k);
    } else if k == 0 {
      assert es[0..] == es;
    } else {
      KeepIsLongestSuffix(c, max, es[1..], k - 1);
      assert es[1..][k - 1..] == es[k..];
    }
  }
}
