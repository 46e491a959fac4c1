/**
 Bulk enrichment: the ids of a batch of partial entries are sent in chunks, the events that
 come back fill a result map, and the map is drained in input order.
 */
module BulkEnrich {
  import opened Prelude
  import opened SseParser

  const BULK_CHUNK_SIZE := 50

  datatype PluginError = PluginError(code: string, message: string)

  /** An enrichment result; a movie stands for the response projected from it. */
  datatype Outcome = Enriched(movie: Movie) | Failure(error: PluginError)

  datatype Partial = Partial(id: string, imdbId: Option<string>, externalIds: map<string, string>)

  datatype BulkEntry = BulkEntry(id: string, result: Outcome)

  type Fetched = Result<seq<BatchEvent>, PluginError>

  /** `fetch_batch` as an oracle: the number of the call and the ids asked give what comes back. */
  type Server = (nat, seq<string>) -> Fetched

  const NO_RESPONSE := Failure(PluginError("transient", "rt-api: no response event for this id"))
  const NO_IMDB_ID := Failure(PluginError("unknown_id", "rt-provider: imdb_id is required"))

  /** The id of a partial: its own field, or failing that its external id; never empty. */
  function ImdbOf(p: Partial): Option<string> {
    var id := if p.imdbId.Some? then p.imdbId
              else if "imdb" in p.externalIds then Some(p.externalIds["imdb"]) else None;
    if id.Some? && id.value != "" then id else None
  }

  function ErrorCode(error: string): string {
    if error == "not_found" then "unknown_id"
    else if error == "scrape_failed" then "transient"
    else if error == "invalid_id" then "invalid_request"
    else "remote_error"
  }

  /** The id an event is about, and the outcome it carries. */
  function About(e: BatchEvent): Option<string> {
    match e
    case MovieEvent(m) => Some(m.imdbId)
    case ErrorEvent(b) => Some(b.imdbId)
    case DoneEvent(_) => None
  }

  function OutcomeOf(e: BatchEvent): Outcome
    requires About(e).Some?
  {
    match e
    case MovieEvent(m) => Enriched(m)
    case ErrorEvent(b) => Failure(PluginError(ErrorCode(b.error), b.message))
  }

  type Results = map<string, Outcome>

  function StoreAll(found: Results, events: seq<BatchEvent>): Results {
    if events == [] then found
    else
      var before, e := StoreAll(found, events[..|events| - 1]), events[|events| - 1];
      if About(e).Some? then before[About(e).value := OutcomeOf(e)] else before
  }

  function FailAll(found: Results, ids: seq<string>, e: PluginError): Results {
    if ids == [] then found else FailAll(found, ids[..|ids| - 1], e)[ids[|ids| - 1] := Failure(e)]
  }

  function Wanted(partials: seq<Partial>): seq<string> {
    if partials == [] then []
    else Wanted(partials[..|partials| - 1])
         + (match ImdbOf(partials[|partials| - 1]) case Some(id) => [id] case None => [])
  }

  function ChunkCount(ids: seq<string>): nat {
    (|ids| + BULK_CHUNK_SIZE - 1) / BULK_CHUNK_SIZE
  }

  function Chunk(ids: seq<string>, k: nat): seq<string>
    requires k < ChunkCount(ids)
  {
    ids[k * BULK_CHUNK_SIZE..Min((k + 1) * BULK_CHUNK_SIZE, |ids|)]
  }

  function StoreChunk(found: Results, chunk: seq<string>, fetched: Fetched): Results {
    match fetched
    case Ok(events) => StoreAll(found, events)
    case Err(e) => FailAll(found, chunk, e)
  }

  /** The result map after the first `n` chunks. */
  function Collect(server: Server, ids: seq<string>, n: nat): Results
    requires n <= ChunkCount(ids)
  {
    if n == 0 then map[]
    else StoreChunk(Collect(server, ids, n - 1), Chunk(ids, n - 1), server(n - 1, Chunk(ids, n - 1)))
  }

  /** Drain the map in input order. */
  function Emit(found: Results, partials: seq<Partial>): seq<BulkEntry> {
    if partials == [] then []
    else match ImdbOf(partials[0])
      case None => [BulkEntry(partials[0].id, NO_IMDB_ID)] + Emit(found, partials[1..])
      case Some(id) =>
        if id in found then [BulkEntry(partials[0].id, found[id])] + Emit(found - {id}, partials[1..])
        else [BulkEntry(partials[0].id, NO_RESPONSE)] + Emit(found, partials[1..])
  }

  function Bulk(server: Server, partials: seq<Partial>): seq<BulkEntry> {
    var ids := Wanted(partials);
    Emit(Collect(server, ids, ChunkCount(ids)), partials)
  }

  // ── The method ──────────────────────────────────────────────────────────

  method StoreEvents(start: Results, events: seq<BatchEvent>) returns (found: Results)
    ensures found == StoreAll(start, events)
  {
    found := start;
    for i := 0 to |events|
      invariant found == StoreAll(start, events[..i])
    {
      assert events[..i + 1][..i] == events[..i];
      match events[i] {
        case MovieEvent(m) => found := found[m.imdbId := Enriched(m)];
        case ErrorEvent(b) => found := found[b.imdbId := Failure(PluginError(ErrorCode(b.error), b.message))];
        case DoneEvent(_) =>
      }
    }
    assert events[..|events|] == events;
  }

  method StoreFailures(start: Results, chunk: seq<string>, e: PluginError) returns (found: Results)
    ensures found == FailAll(start, chunk, e)
  {
    found := start;
    for i := 0 to |chunk|
      invariant found == FailAll(start, chunk[..i], e)
    {
      assert chunk[..i + 1][..i] == chunk[..i];
      found := found[chunk[i] := Failure(e)];
    }
    assert chunk[..|chunk|] == chunk;
  }

  method DrainInOrder(results: Results, partials: seq<Partial>) returns (entries: seq<BulkEntry>)
    ensures entries == Emit(results, partials)
  {
    var found := results;
    entries := [];
    for i := 0 to |partials|
      invariant Emit(results, partials) == entries + Emit(found, partials[i..])
    {
      assert partials[i..][1..] == partials[i + 1..];
      var result := NO_IMDB_ID;
      match ImdbOf(partials[i]) {
        case None =>
        case Some(id) =>
          if id in found {
            result := found[id];
            found := found - {id};
          } else {
            result := NO_RESPONSE;
          }
      }
      entries := entries + [BulkEntry(partials[i].id, result)];
    }
  }

  /** `bulk_enrich` */
  method BulkEnrich(server: Server, partials: seq<Partial>) returns (entries: seq<BulkEntry>)
    ensures entries == Bulk(server, partials)
  {
    var ids: seq<string> := [];
    for i := 0 to |partials|
      invariant ids == Wanted(partials[..i])
    {
      assert partials[..i + 1][..i] == partials[..i];
      match ImdbOf(partials[i]) {
        case Some(id) => ids := ids + [id];
        case None =>
      }
    }
    assert partials[..|partials|] == partials;
    if partials == [] {
      return [];
    }
    var found: Results := map[];
    for k := 0 to ChunkCount(ids)
      invariant found == Collect(server, ids, k)
    {
      var chunk := Chunk(ids, k);
      match server(k, chunk) {
        case Ok(events) => found := StoreEvents(found, events);
        case Err(e) => found := StoreFailures(found, chunk, e);
      }
    }
    entries := DrainInOrder(found, partials);
  }

  // ── Every input ─────────────────────────────────────────────────────────

  /** An earlier partial has the same imdb id. */
  predicate Repeats(partials: seq<Partial>, i: nat)
    requires i < |partials|
  {
    exists h :: 0 <= h < i && ImdbOf(partials[h]) == ImdbOf(partials[i])
  }

  function Verdict(found: Results, partials: seq<Partial>, i: nat): Outcome
    requires i < |partials|
  {
    match ImdbOf(partials[i])
    case None => NO_IMDB_ID
    case Some(id) => if id in found && !Repeats(partials, i) then found[id] else NO_RESPONSE
  }

  lemma {:induction false} EmitInOrder(found: Results, partials: seq<Partial>, i: nat)
    requires i < |partials|
    ensures |Emit(found, partials)| == |partials|
    ensures Emit(found, partials)[i] == BulkEntry(partials[i].id, Verdict(found, partials, i))
  {
    var rest := partials[1..];
    var first := ImdbOf(partials[0]);
    var found' := if first.Some? then found - {first.value} else found;
    EmitLength(found', rest);
    assert first.Some? && first.value !in found ==> found' == found;
    assert Emit(found, partials)[1..] == Emit(found', rest);
    if i > 0 {
      EmitInOrder(found', rest, i - 1);
      if Repeats(rest, i - 1) {
        var h :| 0 <= h < i - 1 && ImdbOf(rest[h]) == ImdbOf(rest[i - 1]);
        assert partials[h + 1] == rest[h];
        assert Repeats(partials, i);
      }
      if Repeats(partials, i) {
        var h :| 0 <= h < i && ImdbOf(partials[h]) == ImdbOf(partials[i]);
        if h > 0 {
          assert ImdbOf(rest[h - 1]) == ImdbOf(rest[i - 1]);
          assert Repeats(rest, i - 1);
        }
      }
    } else {
      assert !Repeats(partials, 0);
    }
  }

  lemma {:induction false} EmitLength(found: Results, partials: seq<Partial>)
    ensures |Emit(found, partials)| == |partials|
  {
    if partials != [] {
      EmitLength(found, partials[1..]);
      match ImdbOf(partials[0]) {
        case None =>
        case Some(id) => EmitLength(found - {id}, partials[1..]);
      }
    }
  }

  /** Whatever the input and the server: one entry per partial, in order, with that partial's id;
      and of the partials with one imdb id only the first can consume a fetched result. */
  lemma OneEntryPerPartial(server: Server, partials: seq<Partial>)
    ensures |Bulk(server, partials)| == |partials|
    ensures forall i :: 0 <= i < |partials| ==> Bulk(server, partials)[i].id == partials[i].id
    ensures forall i :: 0 <= i < |partials| && ImdbOf(partials[i]).Some? && Repeats(partials, i) ==>
                          Bulk(server, partials)[i].result == NO_RESPONSE
  {
    var found := Collect(server, Wanted(partials), ChunkCount(Wanted(partials)));
    EmitLength(found, partials);
    forall i | 0 <= i < |partials|
      ensures Bulk(server, partials)[i] == BulkEntry(partials[i].id, Verdict(found, partials, i))
    {
      EmitInOrder(found, partials, i);
    }
  }

  // ── Which id a partial is asked under ───────────────────────────────────

  lemma {:induction false} SameIdsSameBulk(server: Server, ps: seq<Partial>, qs: seq<Partial>)
    requires |ps| == |qs|
    requires forall i :: 0 <= i < |ps| ==> ps[i].id == qs[i].id && ImdbOf(ps[i]) == ImdbOf(qs[i])
    ensures Bulk(server, ps) == Bulk(server, qs)
  {
    SameIdsSameWanted(ps, qs);
    SameIdsSameEmit(Collect(server, Wanted(ps), ChunkCount(Wanted(ps))), ps, qs);
  }

  lemma {:induction false} SameIdsSameWanted(ps: seq<Partial>, qs: seq<Partial>)
    requires |ps| == |qs| && forall i :: 0 <= i < |ps| ==> ImdbOf(ps[i]) == ImdbOf(qs[i])
    ensures Wanted(ps) == Wanted(qs)
  {
    if ps != [] {
      SameIdsSameWanted(ps[..|ps| - 1], qs[..|qs| - 1]);
    }
  }

  lemma {:induction false} SameIdsSameEmit(found: Results, ps: seq<Partial>, qs: seq<Partial>)
    requires |ps| == |qs|
    requires forall i :: 0 <= i < |ps| ==> ps[i].id == qs[i].id && ImdbOf(ps[i]) == ImdbOf(qs[i])
    ensures Emit(found, ps) == Emit(found, qs)
  {
    if ps != [] {
      var first := ImdbOf(ps[0]);
      SameIdsSameEmit(if first.Some? then found - {first.value} else found, ps[1..], qs[1..]);
      SameIdsSameEmit(found, ps[1..], qs[1..]);
    }
  }

  /** The external id stands in for a missing own field: moving it there changes no result. */
  lemma ExternalIdStandsIn(server: Server, ps: seq<Partial>, i: nat)
    requires i < |ps| && ps[i].imdbId.None? && "imdb" in ps[i].externalIds && ps[i].externalIds["imdb"] != ""
    ensures Bulk(server, ps[i := ps[i].(imdbId := Some(ps[i].externalIds["imdb"]))]) == Bulk(server, ps)
  {
    SameIdsSameBulk(server, ps[i := ps[i].(imdbId := Some(ps[i].externalIds["imdb"]))], ps);
  }

  /** An own field, empty or not, overrides the external ids: they may be anything. */
  lemma OwnFieldOverrides(server: Server, ps: seq<Partial>, i: nat, ids: map<string, string>)
    requires i < |ps| && ps[i].imdbId.Some?
    ensures Bulk(server, ps[i := ps[i].(externalIds := ids)]) == Bulk(server, ps)
  {
    SameIdsSameBulk(server, ps[i := ps[i].(externalIds := ids)], ps);
  }

  /** The server never itself gives the error of a partial without id, neither for a chunk nor an id. */
  ghost predicate NeverMissesIds(server: Server) {
    forall k, chunk :: SaysNoMissingId(server(k, chunk))
  }

  predicate SaysNoMissingId(fetched: Fetched) {
    match fetched
    case Err(e) => e != PluginError("unknown_id", "rt-provider: imdb_id is required")
    case Ok(events) => forall i :: 0 <= i < |events| && events[i].ErrorEvent? && events[i].error.error == "not_found" ==>
                                     events[i].error.message != "rt-provider: imdb_id is required"
  }

  predicate NoMissingId(found: Results) { forall id :: id in found ==> found[id] != NO_IMDB_ID }

  lemma {:induction false} StoredIsNoMissingId(found: Results, events: seq<BatchEvent>)
    requires NoMissingId(found) && SaysNoMissingId(Ok(events))
    ensures NoMissingId(StoreAll(found, events))
  {
    if events != [] {
      StoredIsNoMissingId(found, events[..|events| - 1]);
    }
  }

  lemma {:induction false} FailedIsNoMissingId(found: Results, ids: seq<string>, e: PluginError)
    requires NoMissingId(found) && SaysNoMissingId(Err(e))
    ensures NoMissingId(FailAll(found, ids, e))
  {
    if ids != [] {
      FailedIsNoMissingId(found, ids[..|ids| - 1], e);
    }
  }

  lemma {:induction false} CollectedIsNoMissingId(server: Server, ids: seq<string>, n: nat)
    requires NeverMissesIds(server) && n <= ChunkCount(ids)
    ensures NoMissingId(Collect(server, ids, n))
  {
    if n > 0 {
      var before, chunk := Collect(server, ids, n - 1), Chunk(ids, n - 1);
      CollectedIsNoMissingId(server, ids, n - 1);
      assert SaysNoMissingId(server(n - 1, chunk));
      match server(n - 1, chunk) {
        case Ok(events) => StoredIsNoMissingId(before, events);
        case Err(e) => FailedIsNoMissingId(before, chunk, e);
      }
    }
  }

  /** Exactly which partials are told that an imdb id is required: those whose own field is empty, or
      missing with no external id or an empty one. */
  lemma IdIsRequiredExactlyWhen(server: Server, ps: seq<Partial>, i: nat)
    requires NeverMissesIds(server) && i < |ps|
    ensures |Bulk(server, ps)| == |ps|
    ensures Bulk(server, ps)[i].result == Failure(PluginError("unknown_id", "rt-provider: imdb_id is required")) <==>
              match ps[i].imdbId
              case Some(own) => own == ""
              case None => "imdb" !in ps[i].externalIds || ps[i].externalIds["imdb"] == ""
  {
    var ids := Wanted(ps);
    CollectedIsNoMissingId(server, ids, ChunkCount(ids));
    EmitInOrder(Collect(server, ids, ChunkCount(ids)), ps, i);
  }

  /** What one partial gets from a server that answers with one event about its id: the movie, or the
      error with the code of its kind; and without an event that there was no response. */
  lemma AnswersAreReported(server: Server, p: Partial, id: string)
    requires p.imdbId == Some(id) && id != ""
    ensures forall m :: server(0, [id]) == Ok([MovieEvent(m)]) && m.imdbId == id ==>
              Bulk(server, [p]) == [BulkEntry(p.id, Enriched(m))]
    ensures forall b :: server(0, [id]) == Ok([ErrorEvent(b)]) && b.imdbId == id ==>
              Bulk(server, [p]) == [BulkEntry(p.id, Failure(PluginError(
                if b.error == "not_found" then "unknown_id"
                else if b.error == "scrape_failed" then "transient"
                else if b.error == "invalid_id" then "invalid_request"
                else "remote_error", b.message)))]
    ensures forall t :: server(0, [id]) == Ok([DoneEvent(t)]) ==>
              Bulk(server, [p]) == [BulkEntry(p.id, Failure(PluginError("transient", "rt-api: no response event for this id")))]
  {
    AloneIsSingletonBulk(server, p);
    assert forall e: BatchEvent :: [e][..0] == [];
    assert LastAbout([], id) == None;
    forall e: BatchEvent
      ensures LastAbout([e], id) == if About(e) == Some(id) then Some(OutcomeOf(e)) else None
    {
      assert [e][..|[e]| - 1] == [];
    }
  }

  // ── What a fetch asks for ───────────────────────────────────────────────

  /** The chunks are the wanted ids cut into pieces of fifty: each fetch but the last asks for exactly
      fifty of them, the last for at most that and at least one, and the `j`-th id of the `k`-th
      fetch is wanted id number 50 k + j. */
  lemma ChunksAreFifties(ids: seq<string>, k: nat)
    requires k < ChunkCount(ids)
    ensures 1 <= |Chunk(ids, k)| <= 50
    ensures k < ChunkCount(ids) - 1 ==> |Chunk(ids, k)| == 50
    ensures k == ChunkCount(ids) - 1 ==> 50 * k + |Chunk(ids, k)| == |ids|
    ensures forall j :: 0 <= j < |Chunk(ids, k)| ==> 50 * k + j < |ids| && Chunk(ids, k)[j] == ids[50 * k + j]
  {
  }

  // ── What a chunk contributes ────────────────────────────────────────────

  /** The outcome of the last event about `id`. */
  function LastAbout(events: seq<BatchEvent>, id: string): Option<Outcome> {
    if events == [] then None
    else if About(events[|events| - 1]) == Some(id) then Some(OutcomeOf(events[|events| - 1]))
    else LastAbout(events[..|events| - 1], id)
  }

  function Contribution(chunk: seq<string>, fetched: Fetched, id: string): Option<Outcome> {
    match fetched
    case Ok(events) => LastAbout(events, id)
    case Err(e) => if id in chunk then Some(Failure(e)) else None
  }

  function Find(found: Results, id: string): Option<Outcome> {
    if id in found then Some(found[id]) else None
  }

  lemma {:induction false} StoreAllFinds(found: Results, events: seq<BatchEvent>, id: string)
    ensures Find(StoreAll(found, events), id) ==
              if LastAbout(events, id).Some? then LastAbout(events, id) else Find(found, id)
  {
    if events != [] {
      StoreAllFinds(found, events[..|events| - 1], id);
    }
  }

  lemma {:induction false} FailAllFinds(found: Results, ids: seq<string>, e: PluginError, id: string)
    ensures Find(FailAll(found, ids, e), id) == if id in ids then Some(Failure(e)) else Find(found, id)
  {
    if ids != [] {
      FailAllFinds(found, ids[..|ids| - 1], e, id);
      assert ids == ids[..|ids| - 1] + [ids[|ids| - 1]];
    }
  }

  lemma StoreChunkFinds(found: Results, chunk: seq<string>, fetched: Fetched, id: string)
    ensures Find(StoreChunk(found, chunk, fetched), id) ==
              if Contribution(chunk, fetched, id).Some? then Contribution(chunk, fetched, id) else Find(found, id)
  {
    match fetched {
      case Ok(events) => StoreAllFinds(found, events, id);
      case Err(e) => FailAllFinds(found, chunk, e, id);
    }
  }

  lemma {:induction false} CollectFindsOnly(server: Server, ids: seq<string>, n: nat, k: nat, id: string)
    requires n <= ChunkCount(ids) && k < n
    requires forall l :: 0 <= l < n && l != k ==> Contribution(Chunk(ids, l), server(l, Chunk(ids, l)), id).None?
    ensures Find(Collect(server, ids, n), id) == Contribution(Chunk(ids, k), server(k, Chunk(ids, k)), id)
  {
    var chunk := Chunk(ids, n - 1);
    StoreChunkFinds(Collect(server, ids, n - 1), chunk, server(n - 1, chunk), id);
    if k < n - 1 {
      CollectFindsOnly(server, ids, n - 1, k, id);
    } else {
      CollectFindsNothing(server, ids, n - 1, id);
    }
  }

  lemma {:induction false} CollectFindsNothing(server: Server, ids: seq<string>, n: nat, id: string)
    requires n <= ChunkCount(ids)
    requires forall l :: 0 <= l < n ==> Contribution(Chunk(ids, l), server(l, Chunk(ids, l)), id).None?
    ensures id !in Collect(server, ids, n)
  {
    if n > 0 {
      CollectFindsNothing(server, ids, n - 1, id);
      StoreChunkFinds(Collect(server, ids, n - 1), Chunk(ids, n - 1), server(n - 1, Chunk(ids, n - 1)), id);
    }
  }

  // ── Chunking is transparent ─────────────────────────────────────────────

  /** The events about one id, in order. */
  function Only(events: seq<BatchEvent>, id: string): seq<BatchEvent> {
    if events == [] then []
    else Only(events[..|events| - 1], id)
         + (if About(events[|events| - 1]) == Some(id) then [events[|events| - 1]] else [])
  }

  /** The server answers only the ids asked, each independently of the rest of the chunk: whenever
      a chunk succeeds, the events about an id are `answer(id)` if it was asked and none otherwise. */
  ghost predicate Independent(server: Server, answer: string -> seq<BatchEvent>) {
    forall k, chunk, id :: Answers(server(k, chunk), answer, chunk, id)
  }

  predicate Answers(fetched: Fetched, answer: string -> seq<BatchEvent>, chunk: seq<string>, id: string) {
    fetched.Ok? ==> Only(fetched.ok, id) == if id in chunk then answer(id) else []
  }

  lemma {:induction false} LastAboutOnly(events: seq<BatchEvent>, id: string)
    ensures LastAbout(Only(events, id), id) == LastAbout(events, id)
    ensures forall e :: e in Only(events, id) ==> About(e) == Some(id)
  {
    if events != [] {
      var init, last := events[..|events| - 1], events[|events| - 1];
      LastAboutOnly(init, id);
      if About(last) == Some(id) {
        var only := Only(events, id);
        assert only[|only| - 1] == last;
      } else {
        assert Only(events, id) == Only(init, id);
      }
    }
  }

  lemma IndependentContribution(server: Server, answer: string -> seq<BatchEvent>, k: nat, chunk: seq<string>, id: string)
    requires Independent(server, answer)
    ensures Contribution(chunk, server(k, chunk), id) ==
              if id !in chunk then None
              else match server(k, chunk) case Ok(_) => LastAbout(answer(id), id) case Err(e) => Some(Failure(e))
  {
    assert Answers(server(k, chunk), answer, chunk, id);
    if server(k, chunk).Ok? {
      LastAboutOnly(server(k, chunk).ok, id);
    }
  }

  lemma {:induction false} WantedHas(partials: seq<Partial>, id: string)
    ensures id in Wanted(partials) <==> exists i :: 0 <= i < |partials| && ImdbOf(partials[i]) == Some(id)
  {
    if partials != [] {
      var init := partials[..|partials| - 1];
      WantedHas(init, id);
      forall i | 0 <= i < |partials| && ImdbOf(partials[i]) == Some(id)
        ensures id in Wanted(partials)
      {
        assert i < |init| ==> init[i] == partials[i];
      }
      if id in Wanted(init) {
        var i :| 0 <= i < |init| && ImdbOf(init[i]) == Some(id);
        assert partials[i] == init[i];
      }
    }
  }

  /** Pairwise distinct imdb ids (partials without one aside). */
  predicate DistinctImdb(partials: seq<Partial>) {
    forall i, j :: 0 <= i < j < |partials| && ImdbOf(partials[i]).Some? ==> ImdbOf(partials[i]) != ImdbOf(partials[j])
  }

  lemma {:induction false} WantedIsDistinct(partials: seq<Partial>)
    requires DistinctImdb(partials)
    ensures Distinct(Wanted(partials))
  {
    if partials != [] {
      var init, last := partials[..|partials| - 1], ImdbOf(partials[|partials| - 1]);
      assert DistinctImdb(init) by {
        assert forall i :: 0 <= i < |init| ==> init[i] == partials[i];
      }
      WantedIsDistinct(init);
      if last.Some? {
        WantedHas(init, last.value);
        assert last.value !in Wanted(init);
      }
    }
  }

  /** The chunk that holds position `q`. */
  lemma ChunkOf(ids: seq<string>, q: nat) returns (k: nat)
    requires q < |ids|
    ensures k == q / BULK_CHUNK_SIZE && k < ChunkCount(ids) && ids[q] in Chunk(ids, k)
  {
    k := q / BULK_CHUNK_SIZE;
    assert k * BULK_CHUNK_SIZE <= q < (k + 1) * BULK_CHUNK_SIZE;
    assert Chunk(ids, k)[q - k * BULK_CHUNK_SIZE] == ids[q];
  }

  lemma ChunksAreDisjoint(ids: seq<string>, q: nat, l: nat)
    requires Distinct(ids) && q < |ids| && l < ChunkCount(ids) && l != q / BULK_CHUNK_SIZE
    ensures ids[q] !in Chunk(ids, l)
  {
  }

  /** With distinct ids the result of an id is decided by its own chunk alone: the error of that
      chunk if it failed, otherwise the last event about the id, otherwise "no response". So a
      failed chunk marks exactly its own ids. */
  lemma DecidedByOwnChunk(server: Server, answer: string -> seq<BatchEvent>, partials: seq<Partial>, i: nat, q: nat)
    requires Independent(server, answer) && DistinctImdb(partials)
    requires i < |partials| && q < |Wanted(partials)| && ImdbOf(partials[i]) == Some(Wanted(partials)[q])
    ensures |Bulk(server, partials)| == |partials|
    ensures q / BULK_CHUNK_SIZE < ChunkCount(Wanted(partials))
    ensures var ids := Wanted(partials);
            var k := q / BULK_CHUNK_SIZE;
            Bulk(server, partials)[i].result ==
              match server(k, Chunk(ids, k))
              case Err(e) => Failure(e)
              case Ok(_) => match LastAbout(answer(ids[q]), ids[q]) case Some(o) => o case None => NO_RESPONSE
  {
    var ids := Wanted(partials);
    var n := ChunkCount(ids);
    WantedIsDistinct(partials);
    var k := ChunkOf(ids, q);
    forall l | 0 <= l < n && l != k
      ensures Contribution(Chunk(ids, l), server(l, Chunk(ids, l)), ids[q]).None?
    {
      ChunksAreDisjoint(ids, q, l);
      IndependentContribution(server, answer, l, Chunk(ids, l), ids[q]);
    }
    CollectFindsOnly(server, ids, n, k, ids[q]);
    IndependentContribution(server, answer, k, Chunk(ids, k), ids[q]);
    EmitInOrder(Collect(server, ids, n), partials, i);
    assert !Repeats(partials, i);
  }

  /** Asking for one partial by itself. */
  function Alone(server: Server, p: Partial): Outcome {
    match ImdbOf(p)
    case None => NO_IMDB_ID
    case Some(id) =>
      match Contribution([id], server(0, [id]), id) case Some(o) => o case None => NO_RESPONSE
  }

  /** `Alone` is what `bulk_enrich` gives for the partial as its whole input. */
  lemma AloneIsSingletonBulk(server: Server, p: Partial)
    ensures Bulk(server, [p]) == [BulkEntry(p.id, Alone(server, p))]
  {
    var ids := Wanted([p]);
    assert [p][..|[p]| - 1] == [] && [p][1..] == [];
    assert Wanted([]) == [];
    EmitInOrder(Collect(server, ids, ChunkCount(ids)), [p], 0);
    assert !Repeats([p], 0);
    if ImdbOf(p).Some? {
      assert ids == [ImdbOf(p).value] && ChunkCount(ids) == 1 && Chunk(ids, 0) == ids;
      StoreChunkFinds(map[], ids, server(0, ids), ids[0]);
      assert Find(Collect(server, ids, 1), ids[0]) == Contribution(ids, server(0, ids), ids[0]);
    }
  }

  ghost predicate NeverFails(server: Server) {
    forall k, chunk :: server(k, chunk).Ok?
  }

  /** Without failures the first partial of an imdb id gets what it would get alone. */
  lemma FirstGetsItsAnswer(server: Server, answer: string -> seq<BatchEvent>, partials: seq<Partial>, i: nat)
    requires Independent(server, answer) && NeverFails(server) && i < |partials|
    ensures |Bulk(server, partials)| == |partials|
    ensures Bulk(server, partials)[i].result ==
              if ImdbOf(partials[i]).Some? && Repeats(partials, i) then NO_RESPONSE else Alone(server, partials[i])
  {
    var ids := Wanted(partials);
    var n := ChunkCount(ids);
    EmitInOrder(Collect(server, ids, n), partials, i);
    if ImdbOf(partials[i]).Some? {
      var id := ImdbOf(partials[i]).value;
      WantedHas(partials, id);
      var q :| 0 <= q < |ids| && ids[q] == id;
      var k := ChunkOf(ids, q);
      forall l | 0 <= l < n
        ensures Contribution(Chunk(ids, l), server(l, Chunk(ids, l)), id)
             == if id in Chunk(ids, l) then LastAbout(answer(id), id) else None
      {
        IndependentContribution(server, answer, l, Chunk(ids, l), id);
      }
      CollectFindsSame(server, ids, n, id, LastAbout(answer(id), id));
      IndependentContribution(server, answer, 0, [id], id);
    }
  }

  lemma {:induction false} CollectFindsSame(server: Server, ids: seq<string>, n: nat, id: string, r: Option<Outcome>)
    requires n <= ChunkCount(ids)
    requires forall l :: 0 <= l < n ==>
               Contribution(Chunk(ids, l), server(l, Chunk(ids, l)), id) == if id in Chunk(ids, l) then r else None
    ensures Find(Collect(server, ids, n), id) ==
              if exists l :: 0 <= l < n && id in Chunk(ids, l) then r else None
  {
    if n > 0 {
      CollectFindsSame(server, ids, n - 1, id, r);
      StoreChunkFinds(Collect(server, ids, n - 1), Chunk(ids, n - 1), server(n - 1, Chunk(ids, n - 1)), id);
    }
  }

  /** Chunking is transparent: for distinct imdb ids and a server that answers independently and
      does not fail, the bulk result is every partial asked by itself. */
  lemma ChunkingIsTransparent(server: Server, answer: string -> seq<BatchEvent>, partials: seq<Partial>)
    requires Independent(server, answer) && NeverFails(server) && DistinctImdb(partials)
    ensures Bulk(server, partials) ==
              seq(|partials|, i requires 0 <= i < |partials| => BulkEntry(partials[i].id, Alone(server, partials[i])))
  {
    OneEntryPerPartial(server, partials);
    forall i | 0 <= i < |partials|
      ensures Bulk(server, partials)[i] == BulkEntry(partials[i].id, Alone(server, partials[i]))
    {
      FirstGetsItsAnswer(server, answer, partials, i);
      assert ImdbOf(partials[i]).Some? ==> !Repeats(partials, i);
    }
  }

  /** And exactly for those: if the server has a real answer for every id asked, a repeated imdb id
      is always told apart, since its second partial is told there was no response. */
  lemma TransparentExactlyWhen(server: Server, answer: string -> seq<BatchEvent>, partials: seq<Partial>)
    requires Independent(server, answer) && NeverFails(server)
    requires forall i :: 0 <= i < |partials| ==> Alone(server, partials[i]) != NO_RESPONSE
    ensures |Bulk(server, partials)| == |partials|
    ensures (forall i :: 0 <= i < |partials| ==> Bulk(server, partials)[i].result == Alone(server, partials[i]))
            <==> DistinctImdb(partials)
  {
    OneEntryPerPartial(server, partials);
    forall i | 0 <= i < |partials|
      ensures Bulk(server, partials)[i].result == Alone(server, partials[i])
              <==> !(ImdbOf(partials[i]).Some? && Repeats(partials, i))
    {
      FirstGetsItsAnswer(server, answer, partials, i);
    }
    if !DistinctImdb(partials) {
      var i, j :| 0 <= i < j < |partials| && ImdbOf(partials[i]).Some? && ImdbOf(partials[i]) == ImdbOf(partials[j]);
      assert Repeats(partials, j);
    }
  }

  /** `fetch_batch` over response bodies: each is the rendering of some events, and is parsed. */
  function BodyServer(codec: Codec, encode: BatchEvent -> string, events: (nat, seq<string>) -> seq<BatchEvent>): Server {
    (k: nat, chunk: seq<string>) => Ok(ParseBody(codec, Render(encode, events(k, chunk))))
  }

  /** A server whose response bodies render independent events is independent through the parser. */
  lemma RenderedServerIsIndependent(codec: Codec, encode: BatchEvent -> string,
                                    events: (nat, seq<string>) -> seq<BatchEvent>, answer: string -> seq<BatchEvent>)
    requires forall k, chunk :: AllPrintable(codec, encode, events(k, chunk))
    requires forall k, chunk, id :: Answers(Ok(events(k, chunk)), answer, chunk, id)
    ensures Independent(BodyServer(codec, encode, events), answer)
    ensures NeverFails(BodyServer(codec, encode, events))
  {
    var server := BodyServer(codec, encode, events);
    forall k, chunk
      ensures server(k, chunk) == Ok(events(k, chunk))
    {
      SseRoundTrip(codec, encode, events(k, chunk));
    }
    forall k, chunk, id
      ensures Answers(server(k, chunk), answer, chunk, id)
    {
      assert Answers(Ok(events(k, chunk)), answer, chunk, id);
    }
  }
}
