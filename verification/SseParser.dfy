/**
 The parser of the batch endpoint's event stream (section 9.2.5 of the WHATWG HTML
 standard), with the JSON decoding of payloads left as an oracle.
 */
module SseParser {
  import opened Prelude

  /** Years, scores and counts are 32 bits wide. */
  type U32 = n: nat | n < 0x1_0000_0000

  datatype Movie = Movie(
    imdbId: string,
    rtUrl: string,
    title: string,
    year: Option<U32>,
    criticScore: Option<U32>,
    audienceScore: Option<U32>)

  datatype BatchError = BatchError(imdbId: string, error: string, message: string)

  datatype Totals = Totals(total: U32, cached: U32, fetched: U32, errors: U32)

  datatype BatchEvent = MovieEvent(movie: Movie) | ErrorEvent(error: BatchError) | DoneEvent(totals: Totals)

  /** The three JSON decoders; `None` is a payload that does not decode. */
  datatype Codec = Codec(
    movie: string -> Option<Movie>,
    error: string -> Option<BatchError>,
    done: string -> Option<Totals>)

  // ── Blocks and lines ────────────────────────────────────────────────────

  predicate BlankLineNext(s: string) {
    2 <= |s| && s[0] == '\n' && s[1] == '\n'
  }

  /** The pieces of `p + s` between blank lines, leftmost and without overlap, where `p` is the
      piece being read. */
  function BlocksFrom(p: string, s: string): seq<string>
    decreases |s|
  {
    if s == "" then [p]
    else if BlankLineNext(s) then [p] + BlocksFrom("", s[2..])
    else BlocksFrom(p + [s[0]], s[1..])
  }

  function DropCarriageReturn(line: string): string {
    if line != "" && line[|line| - 1] == '\r' then line[..|line| - 1] else line
  }

  /** Lines of `p + s`; a final line break does not start another line. */
  function LinesFrom(p: string, s: string): seq<string>
    decreases |s|
  {
    if s == "" then (if p == "" then [] else [p])
    else if s[0] == '\n' then [DropCarriageReturn(p)] + LinesFrom("", s[1..])
    else LinesFrom(p + [s[0]], s[1..])
  }

  /** The last `event:` and `data:` fields of a block. */
  datatype Fields = Fields(event: Option<string>, data: Option<string>)

  function ReadLine(f: Fields, line: string): Fields {
    if StartsWith(line, "event:") then f.(event := Some(Trim(line[6..])))
    else if StartsWith(line, "data:") then f.(data := Some(Trim(line[5..])))
    else f
  }

  function ReadLines(f: Fields, lines: seq<string>): Fields
    decreases lines
  {
    if lines == [] then f else ReadLines(ReadLine(f, lines[0]), lines[1..])
  }

  function Decode(codec: Codec, name: string, payload: string): Option<BatchEvent> {
    if name == "movie" then
      match codec.movie(payload) case Some(m) => Some(MovieEvent(m)) case None => None
    else if name == "error" then
      match codec.error(payload) case Some(e) => Some(ErrorEvent(e)) case None => None
    else if name == "done" then
      match codec.done(payload) case Some(t) => Some(DoneEvent(t)) case None => None
    else None
  }

  /** The event of one block, if it has one. */
  function BlockEvent(codec: Codec, block: string): seq<BatchEvent> {
    var trimmed := Trim(block);
    if trimmed == "" then []
    else
      var f := ReadLines(Fields(None, None), LinesFrom("", trimmed));
      if f.event.Some? && f.data.Some? then
        match Decode(codec, f.event.value, f.data.value) case Some(e) => [e] case None => []
      else []
  }

  function BlockEvents(codec: Codec, blocks: seq<string>): seq<BatchEvent> {
    if blocks == [] then [] else BlockEvent(codec, blocks[0]) + BlockEvents(codec, blocks[1..])
  }

  function ParseBody(codec: Codec, body: string): seq<BatchEvent> {
    BlockEvents(codec, BlocksFrom("", body))
  }

  method ReadFields(trimmed: string) returns (f: Fields)
    ensures f == ReadLines(Fields(None, None), LinesFrom("", trimmed))
  {
    f := Fields(None, None);
    var lines := LinesFrom("", trimmed);
    for i := 0 to |lines|
      invariant ReadLines(Fields(None, None), lines) == ReadLines(f, lines[i..])
    {
      if StartsWith(lines[i], "event:") {
        f := f.(event := Some(Trim(lines[i][6..])));
      } else if StartsWith(lines[i], "data:") {
        f := f.(data := Some(Trim(lines[i][5..])));
      }
      assert lines[i..][1..] == lines[i + 1..];
    }
  }

  method ReadBlock(codec: Codec, block: string) returns (found: seq<BatchEvent>)
    ensures found == BlockEvent(codec, block)
  {
    found := [];
    var trimmed := Trim(block);
    if trimmed != "" {
      var f := ReadFields(trimmed);
      if f.event.Some? && f.data.Some? {
        match Decode(codec, f.event.value, f.data.value) {
          case Some(e) => found := [e];
          case None =>
        }
      }
    }
  }

  /** `parse_sse` */
  method ParseSse(codec: Codec, body: string) returns (out: seq<BatchEvent>)
    ensures out == ParseBody(codec, body)
  {
    out := [];
    var blocks := BlocksFrom("", body);
    for i := 0 to |blocks|
      invariant ParseBody(codec, body) == out + BlockEvents(codec, blocks[i..])
    {
      assert blocks[i..][1..] == blocks[i + 1..];
      var found := ReadBlock(codec, blocks[i]);
      out := out + found;
    }
  }

  // ── Joining bodies ──────────────────────────────────────────────────────

  lemma {:induction false} TrimStartOfLineEnd(s: string)
    ensures TrimStart(s + "\n") == if TrimStart(s) == "" then "" else TrimStart(s) + "\n"
  {
    if s == "" {
      assert TrimStart("\n"[1..]) == "";
      assert s + "\n" == "\n";
    } else if IsWhitespace(s[0]) {
      assert (s + "\n")[1..] == s[1..] + "\n";
      TrimStartOfLineEnd(s[1..]);
    }
  }

  /** A line break at the end of a block is trimmed away. */
  lemma TrimLineEnd(s: string)
    ensures Trim(s + "\n") == Trim(s)
  {
    TrimStartOfLineEnd(s);
    var t := TrimStart(s);
    if t != "" {
      assert (t + "\n")[..|t + "\n"| - 1] == t;
    }
  }

  lemma TrimLineStart(s: string)
    ensures Trim("\n" + s) == Trim(s)
  {
  }

  /** A line break in front of a piece of text changes none of its events. */
  lemma {:induction false} LeadingBreakIsIgnored(codec: Codec, p: string, q: string, s: string)
    requires Trim(p) == Trim(q)
    requires forall t :: Trim(p + t) == Trim(q + t)
    ensures BlockEvents(codec, BlocksFrom(p, s)) == BlockEvents(codec, BlocksFrom(q, s))
    decreases |s|
  {
    if s == "" {
    } else if BlankLineNext(s) {
      assert ([p] + BlocksFrom("", s[2..]))[1..] == BlocksFrom("", s[2..]);
      assert ([q] + BlocksFrom("", s[2..]))[1..] == BlocksFrom("", s[2..]);
    } else {
      forall t
        ensures Trim(p + [s[0]] + t) == Trim(q + [s[0]] + t)
      {
        assert p + [s[0]] + t == p + ([s[0]] + t);
        assert q + [s[0]] + t == q + ([s[0]] + t);
      }
      LeadingBreakIsIgnored(codec, p + [s[0]], q + [s[0]], s[1..]);
    }
  }

  lemma {:induction false} BreakBeforeBody(codec: Codec, s: string)
    ensures ParseBody(codec, "\n" + s) == ParseBody(codec, s)
    decreases |s|
  {
    if s != "" && s[0] == '\n' {
      assert BlankLineNext("\n" + s) && ("\n" + s)[2..] == s[1..];
      assert BlockEvents(codec, [""] + BlocksFrom("", s[1..])) == BlockEvents(codec, BlocksFrom("", s[1..])) by {
        assert ([""] + BlocksFrom("", s[1..]))[1..] == BlocksFrom("", s[1..]);
      }
      BreakBeforeBody(codec, s[1..]);
      assert "\n" + s[1..] == s;
    } else {
      assert !BlankLineNext("\n" + s);
      assert ("\n" + s)[1..] == s && "" + [("\n" + s)[0]] == "\n";
      forall t
        ensures Trim("\n" + t) == Trim("" + t)
      {
        TrimLineStart(t);
        assert "" + t == t;
      }
      TrimLineStart("");
      assert "\n" + "" == "\n";
      LeadingBreakIsIgnored(codec, "\n", "", s);
    }
  }

  lemma ConsBlock(codec: Codec, block: string, rest: seq<string>)
    ensures BlockEvents(codec, [block] + rest) == BlockEvent(codec, block) + BlockEvents(codec, rest)
    ensures BlockEvents(codec, [block]) == BlockEvent(codec, block)
  {
  }

  /** The body before the join is used up, or down to a single line break. */
  lemma JoinAtEnd(codec: Codec, p: string, a: string, b: string)
    requires a == "" || a == "\n"
    ensures BlockEvents(codec, BlocksFrom(p, a + "\n\n" + b)) == BlockEvent(codec, p) + ParseBody(codec, b)
    ensures BlockEvents(codec, BlocksFrom(p, a)) == BlockEvent(codec, p)
  {
    var s := a + "\n\n" + b;
    assert BlankLineNext(s);
    if a == "" {
      assert s[2..] == b;
      ConsBlock(codec, p, BlocksFrom("", b));
    } else {
      assert s[2..] == "\n" + b;
      ConsBlock(codec, p, BlocksFrom("", "\n" + b));
      BreakBeforeBody(codec, b);
      assert a[1..] == "" && p + [a[0]] == p + "\n";
      assert BlocksFrom(p, a) == [p + "\n"];
      TrimLineEnd(p);
      ConsBlock(codec, p + "\n", []);
    }
  }

  lemma {:induction false} JoinFrom(codec: Codec, p: string, a: string, b: string)
    ensures BlockEvents(codec, BlocksFrom(p, a + "\n\n" + b))
         == BlockEvents(codec, BlocksFrom(p, a)) + ParseBody(codec, b)
    decreases |a|
  {
    var s := a + "\n\n" + b;
    if a == "" || a == "\n" {
      JoinAtEnd(codec, p, a, b);
    } else if BlankLineNext(a) {
      assert s[0] == a[0] && s[1] == a[1] && s[2..] == a[2..] + "\n\n" + b;
      JoinFrom(codec, "", a[2..], b);
      ConsBlock(codec, p, BlocksFrom("", a[2..]));
      ConsBlock(codec, p, BlocksFrom("", s[2..]));
    } else {
      assert s[1..] == a[1..] + "\n\n" + b && s[0] == a[0];
      assert |a| >= 2 ==> s[1] == a[1];
      assert !BlankLineNext(s);
      JoinFrom(codec, p + [a[0]], a[1..], b);
    }
  }

  /** Parsing any two bodies joined by a blank line is parsing each and concatenating. */
  lemma JoinedBodiesConcatenate(codec: Codec, a: string, b: string)
    ensures ParseBody(codec, a + "\n\n" + b) == ParseBody(codec, a) + ParseBody(codec, b)
  {
    JoinFrom(codec, "", a, b);
  }

  // ── Round trip ──────────────────────────────────────────────────────────

  function NameOf(e: BatchEvent): string {
    match e
    case MovieEvent(_) => "movie"
    case ErrorEvent(_) => "error"
    case DoneEvent(_) => "done"
  }

  predicate SingleLine(payload: string) {
    payload != "" && Trimmed(payload) && '\n' !in payload
  }

  /** `encode` prints this event on one line that the decoders read back. */
  predicate Printable(codec: Codec, encode: BatchEvent -> string, e: BatchEvent) {
    SingleLine(encode(e)) && Decode(codec, NameOf(e), encode(e)) == Some(e)
  }

  predicate AllPrintable(codec: Codec, encode: BatchEvent -> string, events: seq<BatchEvent>) {
    forall i :: 0 <= i < |events| ==> Printable(codec, encode, events[i])
  }

  /** A block of one `event:` line and one `data:` line. */
  function NamedBlock(name: string, payload: string): string {
    "event: " + name + "\n" + ("data: " + payload)
  }

  function RenderBlock(encode: BatchEvent -> string, e: BatchEvent): string {
    NamedBlock(NameOf(e), encode(e))
  }

  function Render(encode: BatchEvent -> string, events: seq<BatchEvent>): string {
    if events == [] then "" else RenderBlock(encode, events[0]) + "\n\n" + Render(encode, events[1..])
  }

  lemma {:induction false} OneBlock(p: string, s: string)
    requires forall k :: 0 <= k < |s| - 1 ==> !(s[k] == '\n' && s[k + 1] == '\n')
    ensures BlocksFrom(p, s) == [p + s]
    decreases |s|
  {
    if s == "" {
      assert p + s == p;
    } else {
      assert !BlankLineNext(s);
      OneBlock(p + [s[0]], s[1..]);
      assert p + [s[0]] + s[1..] == p + s;
    }
  }

  lemma {:induction false} OneLine(p: string, s: string)
    requires '\n' !in s && p + s != ""
    ensures LinesFrom(p, s) == [p + s]
    decreases |s|
  {
    if s == "" {
      assert p + s == p;
    } else {
      assert p + [s[0]] + s[1..] == p + s;
      OneLine(p + [s[0]], s[1..]);
    }
  }

  lemma {:induction false} FirstLine(p: string, a: string, b: string)
    requires '\n' !in a
    ensures LinesFrom(p, a + "\n" + b) == [DropCarriageReturn(p + a)] + LinesFrom("", b)
    decreases |a|
  {
    var s := a + "\n" + b;
    if a == "" {
      assert s[0] == '\n' && s[1..] == b && p + a == p;
    } else {
      assert s[0] == a[0] && s[1..] == a[1..] + "\n" + b;
      assert p + [a[0]] + a[1..] == p + a;
      FirstLine(p + [a[0]], a[1..], b);
    }
  }

  lemma TrimOneSpace(s: string)
    requires Trimmed(s)
    ensures Trim(" " + s) == s
  {
    assert (" " + s)[1..] == s;
    TrimOfTrimmed(s);
  }

  lemma OneBreakOnly(head: string, tail: string)
    requires '\n' !in head && '\n' !in tail
    ensures var s := head + "\n" + tail; forall k :: 0 <= k < |s| - 1 ==> !(s[k] == '\n' && s[k + 1] == '\n')
  {
  }

  lemma NamedIsOneBlock(name: string, payload: string)
    requires '\n' !in name && SingleLine(payload)
    ensures BlocksFrom("", NamedBlock(name, payload)) == [NamedBlock(name, payload)]
  {
    OneBreakOnly("event: " + name, "data: " + payload);
    OneBlock("", NamedBlock(name, payload));
    EmptyPrefix(NamedBlock(name, payload));
  }

  lemma EmptyPrefix(s: string)
    ensures "" + s == s
  {
  }

  lemma NamedIsTrimmed(name: string, payload: string)
    requires SingleLine(payload)
    ensures Trimmed(NamedBlock(name, payload))
  {
  }

  lemma NamedLines(name: string, payload: string)
    requires '\n' !in name && Trimmed(name) && SingleLine(payload)
    ensures LinesFrom("", NamedBlock(name, payload)) == ["event: " + name] + ["data: " + payload]
  {
    var head, tail := "event: " + name, "data: " + payload;
    FirstLine("", head, tail);
    assert "" + head == head && DropCarriageReturn(head) == head;
    OneLine("", tail);
    assert "" + tail == tail;
  }

  lemma ReadNamed(name: string, payload: string)
    requires Trimmed(name) && Trimmed(payload)
    ensures ReadLines(Fields(None, None), ["event: " + name] + ["data: " + payload]) == Fields(Some(name), Some(payload))
  {
    var head, tail := "event: " + name, "data: " + payload;
    assert head[..6] == "event:" && head[6..] == " " + name;
    assert tail[..5] == "data:" && tail[5..] == " " + payload;
    TrimOneSpace(name);
    TrimOneSpace(payload);
    StartsAlike(tail, "event:");
    assert tail[0] == 'd';
    assert ([head] + [tail])[1..] == [tail] && [tail][1..] == [];
    assert ReadLines(Fields(Some(name), None), [tail]) == Fields(Some(name), Some(payload));
  }

  lemma NamedBlockEvent(codec: Codec, name: string, payload: string)
    requires '\n' !in name && Trimmed(name) && SingleLine(payload)
    ensures ParseBody(codec, NamedBlock(name, payload)) ==
              match Decode(codec, name, payload) case Some(e) => [e] case None => []
  {
    var block := NamedBlock(name, payload);
    NamedIsOneBlock(name, payload);
    NamedIsTrimmed(name, payload);
    TrimOfTrimmed(block);
    NamedLines(name, payload);
    ReadNamed(name, payload);
    assert block != "";
    ConsBlock(codec, block, []);
  }

  /** Each event name has its own decoder; other names and payloads that do not decode are skipped. */
  lemma NamesChooseDecoders(codec: Codec, name: string, payload: string)
    requires '\n' !in name && Trimmed(name) && SingleLine(payload)
    ensures ParseBody(codec, "event: " + name + "\n" + ("data: " + payload)) ==
              if name == "movie" then (match codec.movie(payload) case Some(m) => [MovieEvent(m)] case None => [])
              else if name == "error" then (match codec.error(payload) case Some(b) => [ErrorEvent(b)] case None => [])
              else if name == "done" then (match codec.done(payload) case Some(t) => [DoneEvent(t)] case None => [])
              else []
  {
    NamedBlockEvent(codec, name, payload);
  }

  /** The field read is that of the last line with its prefix, and no other line matters. */
  lemma {:induction false} LastFieldWins(f: Fields, lines: seq<string>)
    ensures ReadLines(f, lines).event == LastField(lines, "event:", f.event)
    ensures ReadLines(f, lines).data == LastField(lines, "data:", f.data)
    decreases |lines|
  {
    if lines != [] {
      LastFieldWins(ReadLine(f, lines[0]), lines[1..]);
      StartsAlike(lines[0], "event:");
      StartsAlike(lines[0], "data:");
    }
  }

  /** What follows `prefix` in the last line that starts with it, trimmed. */
  function LastField(lines: seq<string>, prefix: string, none: Option<string>): Option<string>
    decreases |lines|
  {
    if lines == [] then none
    else LastField(lines[1..], prefix, if StartsWith(lines[0], prefix) then Some(Trim(lines[0][|prefix|..])) else none)
  }

  predicate NoneStartsWith(lines: seq<string>, prefix: string) {
    forall i :: 0 <= i < |lines| ==> !StartsWith(lines[i], prefix)
  }

  lemma {:induction false} NoSuchField(lines: seq<string>, prefix: string, none: Option<string>)
    requires NoneStartsWith(lines, prefix)
    ensures LastField(lines, prefix, none) == none
    decreases |lines|
  {
    if lines != [] {
      NoSuchField(lines[1..], prefix, none);
    }
  }

  /** A block in which no line names the event, or none carries data, is skipped. */
  lemma BlockNeedsBothFields(codec: Codec, block: string)
    requires var lines := LinesFrom("", Trim(block)); NoneStartsWith(lines, "event:") || NoneStartsWith(lines, "data:")
    ensures BlockEvent(codec, block) == []
  {
    var lines := LinesFrom("", Trim(block));
    LastFieldWins(Fields(None, None), lines);
    if NoneStartsWith(lines, "event:") {
      NoSuchField(lines, "event:", None);
    } else {
      NoSuchField(lines, "data:", None);
    }
  }

  /** A rendered block is read as its event. */
  lemma BlockRoundTrip(codec: Codec, encode: BatchEvent -> string, e: BatchEvent)
    requires Printable(codec, encode, e)
    ensures ParseBody(codec, RenderBlock(encode, e)) == [e]
  {
    NamedBlockEvent(codec, NameOf(e), encode(e));
  }

  /** Round trip: parsing the rendering of any list of events whose payloads fit on a line gives
      the list back. */
  lemma {:induction false} SseRoundTrip(codec: Codec, encode: BatchEvent -> string, events: seq<BatchEvent>)
    requires AllPrintable(codec, encode, events)
    ensures ParseBody(codec, Render(encode, events)) == events
  {
    if events == [] {
      ConsBlock(codec, "", []);
    } else {
      var e, rest := events[0], events[1..];
      assert Printable(codec, encode, e) && AllPrintable(codec, encode, rest);
      assert Render(encode, events) == RenderBlock(encode, e) + "\n\n" + Render(encode, rest);
      JoinedBodiesConcatenate(codec, RenderBlock(encode, e), Render(encode, rest));
      BlockRoundTrip(codec, encode, e);
      SseRoundTrip(codec, encode, rest);
      assert events == [e] + rest;
    }
  }
}
