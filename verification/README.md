# Verified models of the media runtime's protocols and loops

The runtime serves media grids to a terminal client, fills them from plugins, and
talks to a few outside services. This project models the parts of it whose
correctness depends on several steps or functions agreeing with each other, and
proves what each is for.

| module | what it models |
|---|---|
| `ReadyGate` | tab tasks that wait for the plugin registry: the flag, the notification, and `mark_plugins_ready` |
| `CatalogReplay` | publishing a grid ("insert, then broadcast") against joining ("subscribe, then snapshot") |
| `IpcBatcher` | the batcher between the broadcast channel and one client |
| `RoonCorrelation` | requests and responses of the Roon client over a shared `pending` map |
| `SseParser`, `BulkEnrich` | the batch endpoint's event stream, and bulk enrichment in chunks of 50 |
| `ChainWalk` | the prequel/sequel walk that lists an anime's seasons |
| `AnimeBridge`, `DedupKeys` | filling missing ids from the id index, and the key that decides which entries become one card |
| `UrlText`, `Descriptions` | percent-encoding, scrubbing URLs for the log, cleaning provider descriptions |
| `Paging`, `TagAggregate` | collecting episode pages; merging the album lists of several tags |

## How the protocols are modelled

A protocol is a deterministic `Step(world, event)`, with `Run` over a sequence of
events. The events are the atomic sections of the source (what happens under one
lock, or one atomic access), each performed by any task at any time. An event that
is not enabled leaves the world unchanged, so a lemma about every event sequence is
a lemma about every interleaving, and it holds at every moment because every prefix
of a run is a run. Beside each protocol stands a class with the same fields whose
methods change them in place; each method's contract equates its new state with a
`Step` of the old one.

Loops over data are methods proved equal to a recursive specification function, and
the properties are lemmas about that function.

Network calls, JSON decoding, the server's behaviour, clocks and Unicode tables are
parameters: a function (`Graph`, `Server`, `Pages`, `Codec`, `Text`) or a value in an
event. Where a result depends on one of them the lemma says on which condition.

## Where the code differs from what is said about it

- `enrich_entry` is documented as idempotent. It is not for every index:
  `AnimeBridge.SharedImdbIdIsNotIdempotent` is an index of two rows and an entry on
  which a second pass adds an id. `AnimeBridge.IdempotentExactlyWhen` gives the exact
  condition on the index.
- Enrichment can split entries that were merged. `DedupKeys.StayMergedExactlyWhen` says for
  any two entries with one key when they stay together: when their records fill their gaps
  with the same outranking id, or neither does. Among the ways to fail that are an
  empty-string id (`DedupKeys.EmptyIdSplitsMergedFilms`), ids that lead to different records
  (`DedupKeys.ConflictingIdsSplitMergedFilms`), a shared key the index does not know while
  one entry alone has an id that hits (`DedupKeys.KnownIdSplitsTitleMerge`, where the
  shared key is the title), and different media types
  (`DedupKeys.TmdbIdSplitsSeriesFromFilm`).
- A `GridUpdate` carries a whole grid, but the batcher merges two of one tab and source
  by appending their entries (`IpcBatcher.BatchDeliversOldEntriesToo`), and a batch with a
  cached and a live grid of one tab reaches the client in arbitrary order.
  `IpcBatcher.MergedIsNewestExactlyWhen` and `IpcBatcher.BatchShowsNewestExactlyWhen` say
  in which runs the client still ends on the newest grid. The replay results of
  `CatalogReplay` are about the updates of the broadcast channel, before the batcher.
- The batcher flushes at an interval, but every call of `recv` sets its timer anew, and the
  client loop drops `recv` at each request. Requests less than a millisecond apart can hold
  an update back for any length of time (`IpcBatcher.ReturnsStarveTheTimer`);
  `IpcBatcher.NothingWaitsPastTheTimer` and `IpcBatcher.OverdueOnlyAfterReturn` bound the wait.
- The Roon read task truncates the server's request id to 32 bits, so a wider id is
  delivered to the call it is congruent to (`RoonCorrelation.WideIdIsMisrouted`); an answer
  carries the caller's own id exactly when it fits (`RoonCorrelation.OkCarriesOwnId`).
- Two Roon calls can draw one id, and then both can fail
  (`RoonCorrelation.CollidingIdsDropBoth`); `RoonCorrelation.DroppedExactlyWhen` says which
  calls do.
- A Roon call dropped half-way can leave its sender in the map
  (`RoonCorrelation.DroppedFutureLeaksItsKey`); `RoonCorrelation.DropLeaksExactlyWhen` and
  `RoonCorrelation.LeakLastsExactlyWhile` say when, and for how long.
- The key of the tag aggregation separates artist and album by `|`; two albums whose
  names contain it can conflate (`TagAggregate.BarsConflateAlbums`), and
  `TagAggregate.KeysEqualExactlyWhen` says which pairs do.
- The comment at `sdk/src/lib.rs:741-743` says a stray `<` in the text survives; the code
  discards everything after it up to the next `>` (`Descriptions.TagIsDropped`), so
  stripping keeps exactly the texts without `<` (`Descriptions.StripUnchangedExactlyWhen`).
- The comment at `runtime/src/catalog.rs:319-326` explains why a waiter registers before
  it loads the flag. `ReadyGate` models both orders as that comment describes them; the
  library's own notification type is not part of this model.

## Model

| member | source | states |
|---|---|---|
| ReadyGate.NoLostWakeup | runtime/src/catalog.rs:313-340 | in every interleaving, once one `mark_plugins_ready` has returned, no task that is awaiting or about to await is left without its wake-up |
| ReadyGate.EveryTaskGetsThrough | runtime/src/catalog.rs:366-427 | liveness: after that, in every continuation, five turns of its own bring any task to its end, wherever it stood; it rests if and only if at its first turn it found a cached grid whose age plus one second, doubled, fits into the time to live, and refreshes otherwise |
| ReadyGate.OneStepCloser | runtime/src/catalog.rs:328-340 | after the signal each turn of a task brings it closer to passing the gate and nothing any other task or caller does sets it back |
| ReadyGate.TurnsLeadToRefresh | runtime/src/catalog.rs:328-340 | the distance left after any events is at most the distance before less the task's own turns |
| ReadyGate.NoEarlyRefresh | runtime/src/catalog.rs:366-427 | a start-up refresh has begun only if the flag was stored before and the cache was missing or at least half its time to live old at the task's first turn, by the clock; it is skipped only if the cached grid was younger |
| ReadyGate.LateRegistrationHangs | runtime/src/catalog.rs:319-326 | with registration after the load there is a run in which the only signal has returned and the task stays parked under every continuation |
| ReadyGate.StepKeepsInv | runtime/src/catalog.rs:313-340 | every atomic action keeps: flag stored iff some caller stored it, woken tasks follow the flag, unwoken waiters are registered and no call has finished |
| ReadyGate.RunKeepsInv | runtime/src/catalog.rs:313-340 | that invariant holds in every reachable world, for any number of tasks, caches and callers |
| ReadyGate.Gate.StoreFlag | runtime/src/catalog.rs:314-315 | the first half of the signal is the `Mark` step of a caller that has not stored yet |
| ReadyGate.Gate.NotifyWaiters | runtime/src/catalog.rs:316 | wakes exactly the tasks registered at that moment, takes them off the list, and leaves every other task alone |
| ReadyGate.Gate.MarkPluginsReady | runtime/src/catalog.rs:313-317 | with any turns of other tasks between its two halves, when it returns every waiting task is woken |
| CatalogReplay.LateJoinerMissesNothing | runtime/src/main.rs:582-607 | for every client with a snapshot and every publication in every interleaving: its broadcast is still to come, or came after the subscription, or the snapshot holds that publication or a later one of its tab |
| CatalogReplay.SubscriptionBeginsHere | runtime/src/catalog.rs:343-345 | in every run a client receives nothing broadcast before it subscribed, and once a receive brings nothing more it has received everything broadcast since, but for what 64 or more later broadcasts pushed out |
| CatalogReplay.SnapshotGridStays | runtime/src/main.rs:582-607 | no broadcast made before the subscription ever replaces a snapshot grid: while nothing of the tab is broadcast after it, the client shows what the catalog held at its snapshot |
| CatalogReplay.LaggedReceiverSkips | runtime/src/catalog.rs:292 | a client more than 64 messages behind gets nothing by its next receive and the oldest of the last 64 by the one after |
| CatalogReplay.ShowsLatestExactlyWhen | runtime/src/main.rs:582-607 | a client that has caught up, lagged or not, shows the grid the catalog holds for a tab if and only if nothing of that tab was broadcast since it subscribed, or it received the last broadcast of the tab and that carries the grid, or the channel dropped that broadcast and the publication still shown has the same grid |
| CatalogReplay.RecentBroadcastsAreReceived | runtime/src/catalog.rs:292 | a client that has caught up received each of the last 64 broadcasts since it subscribed |
| CatalogReplay.SnapshotPlusUpdatesIsFinal | runtime/src/catalog.rs:433-443 | with one writer per tab, snapshot plus received updates are the final grids of all tabs, unless the channel dropped the last broadcast of one |
| CatalogReplay.FinalWithoutLag | runtime/src/catalog.rs:433-443 | with one writer per tab, a client that never lagged and has caught up shows exactly the final grids |
| CatalogReplay.FinalAfterLag | runtime/src/catalog.rs:433-443 | so does one that lagged, if every tab broadcast since it subscribed is among the last 64 broadcasts |
| CatalogReplay.OwnTabsNeverOverlap | runtime/src/catalog.rs:347-365 | writers that each keep to a tab of their own satisfy "one writer per tab" under every interleaving |
| CatalogReplay.RunKeepsTabOrdered | runtime/src/catalog.rs:478-489 | with one writer per tab the last insertion of a tab was broadcast last or is still held by its writer |
| CatalogReplay.OverlappingWritersLeaveStaleGrid | runtime/src/catalog.rs:521-536 | two overlapping publications of one tab can leave a client for good on the older grid, nothing skipped and nothing pending |
| CatalogReplay.AllBeforeSnapshot | runtime/src/catalog.rs:433-443 | if nothing of a tab was broadcast after the subscription, the latest insertion the snapshot saw is the latest of all |
| CatalogReplay.StepKeepsInv | runtime/src/catalog.rs:386-392 | every step keeps: the grids are the latest insertions, each publication is broadcast once or still held, each client's screen is its snapshot overlaid with what it received |
| CatalogReplay.RunKeepsInv | runtime/src/catalog.rs:478-489 | that invariant holds in every reachable world |
| CatalogReplay.Catalog.InsertGrid | runtime/src/catalog.rs:478-481 | the insertion is the first step of a publication and nothing else changes |
| CatalogReplay.Catalog.EmitUpdate | runtime/src/catalog.rs:561-573 | broadcasts the inserted grid and frees the writer |
| CatalogReplay.Catalog.SnapshotAll | runtime/src/catalog.rs:433-443 | one update per tab, and applied to an empty screen in the map's arbitrary order they are the grids of that moment |
| CatalogReplay.Catalog.Subscribe | runtime/src/catalog.rs:343-345 | the subscription is the `Subscribe` step, whose beginning `SubscriptionBeginsHere` fixes over all runs |
| CatalogReplay.Catalog.Replay | runtime/src/main.rs:591-607 | showing the snapshot's updates one after the other gives a screen equal to the grids |
| IpcBatcher.EntriesAreConserved | runtime/src/ipc_batcher.rs:61-109 | for every run and each tab and source, the entries received since the last lag are those delivered since then followed by those buffered, in order |
| IpcBatcher.RespondConserves | runtime/src/ipc_batcher.rs:61-109 | one wake-up that is not a lag hands over or keeps exactly what it had and got, in order |
| IpcBatcher.CancellationIsHarmless | runtime/src/ipc_batcher.rs:61-97 | dropping `recv` while it waits and calling it again gives the reply, the state and the inputs used of one uninterrupted call; what it does change, the timer, is the subject of the next rows |
| IpcBatcher.DropsKeepTheRun | runtime/src/ipc_batcher.rs:61-97 | however often `recv` is dropped and called again, the batcher goes through the run of its wake-ups and only the time its timer was set changes |
| IpcBatcher.ReceiveFollowsRun | runtime/src/ipc_batcher.rs:61-97 | a call of `recv` advances the run by exactly the inputs it took, replies at the last of them, and waited at all earlier ones |
| IpcBatcher.BatchesAreBounded | runtime/src/ipc_batcher.rs:24-54 | every batch has at most ten updates, each under its own key, and fewer than ten stay buffered |
| IpcBatcher.BufferedUpdatesAreRecent | runtime/src/ipc_batcher.rs:52-96 | in every run what is buffered came in updates after the last flush, each read less than one flush interval later; the first update read later hands everything over |
| IpcBatcher.NothingWaitsPastTheTimer | runtime/src/ipc_batcher.rs:89-94 | over every run with drops and returns, until the timer fires every buffered update is at most one flush interval old or the timer was set no more than its least delay ago |
| IpcBatcher.OverdueOnlyAfterReturn | runtime/src/ipc_batcher.rs:89-94 | something is still buffered one flush interval and the least delay after the last flush only if the last event is a new call of `recv` after the interval was over |
| IpcBatcher.ReturnsStarveTheTimer | runtime/src/ipc_batcher.rs:89-94 | for every length of time there is such a run that holds one update back that long, `recv` being called anew more often than the least delay |
| IpcBatcher.KeySeparates | runtime/src/ipc_batcher.rs:99-100 | the composed string keys are equal if and only if tab and source are, whatever the tab's name |
| IpcBatcher.InsertedExtends | runtime/src/ipc_batcher.rs:99-109 | an insertion appends to its own tab and source and changes no other |
| IpcBatcher.BatchMergesWhatArrived | runtime/src/ipc_batcher.rs:56-109 | in every run the buffer is the merge of the updates since it was last emptied, and a batch the merge of all that arrived since the one before |
| IpcBatcher.BatchIsDueExactlyWhen | runtime/src/ipc_batcher.rs:52-97 | in every run an update makes a batch if and only if the updates arrived since the buffer was last emptied are for ten tabs and sources or more, or it is read one interval or more after the last flush; a timer or a closed channel if and only if something arrived; a lag always, an empty one |
| IpcBatcher.BufferCountsOrigins | runtime/src/ipc_batcher.rs:99-109 | the buffer holds one update for each tab and source that any arrived for |
| IpcBatcher.MergedIsNewestExactlyWhen | runtime/src/ipc_batcher.rs:99-109 | in every run, what a batch delivers for a tab and source is the newest grid that arrived for it if and only if all earlier ones since the previous batch were empty; it delivers something exactly when a grid arrived |
| IpcBatcher.BatchDeliversOldEntriesToo | runtime/src/ipc_batcher.rs:99-109 | a run of two live grids of one tab whose batch delivers the entries of both |
| IpcBatcher.EveryOrderShowsExactlyWhen | runtime/src/main.rs:771-790 | a client that replaces the grid of a tab per message ends on a given grid in every drain order if and only if the batch has an update of the tab and each source's update carries that grid |
| IpcBatcher.BatchShowsNewestExactlyWhen | runtime/src/main.rs:771-790 | in every run a batch is sure to leave the client on the newest grid of a tab if and only if all earlier grids of its source were empty and the other source brought nothing or the same |
| IpcBatcher.IpcBatcher.BufferInsert | runtime/src/ipc_batcher.rs:99-109 | the new buffer is the old one with the update merged in, the flush time untouched |
| IpcBatcher.IpcBatcher.DrainBuffer | runtime/src/ipc_batcher.rs:56-59 | returns every buffered update exactly once, in some order, and leaves an empty buffer and a new flush time |
| IpcBatcher.IpcBatcher.WakeUp | runtime/src/ipc_batcher.rs:62-96 | one turn of the loop gives the reply and the state of the specification and keeps the buffer well keyed and below ten |
| IpcBatcher.IpcBatcher.Recv | runtime/src/ipc_batcher.rs:61-97 | answer, inputs used and new state are those of the specification; buffered updates stay well keyed and fewer than ten |
| RoonCorrelation.OkCarriesOwnId | runtime/src/roon.rs:421-459 | in every interleaving an `Ok` answers the caller's own id modulo 2^32, and carries exactly that id if and only if the server's id fits in 32 bits; no distinctness needed |
| RoonCorrelation.WideIdIsMisrouted | runtime/src/roon.rs:356-359 | a run in which a response with a 33-bit id is delivered to the call whose id it is congruent to |
| RoonCorrelation.AnsweredAtMostOnce | runtime/src/roon.rs:351-364 | over every run the read task hands each call at most one response, exactly one when its channel is filled |
| RoonCorrelation.OnlyRoutingFills | runtime/src/roon.rs:356-359 | a call's channel becomes filled by a response routed to it and by nothing else, and never a second time |
| RoonCorrelation.ResponseReachesItsCaller | runtime/src/roon.rs:356-359 | while a call still expects its answer on an intact channel, a response with its id fills that channel and no other |
| RoonCorrelation.PendingBelongsToRunningCalls | runtime/src/roon.rs:437-457 | every key of `pending` is the id of a call that has not returned, so the map is empty when all have; no distinctness needed |
| RoonCorrelation.DropLeaksExactlyWhen | runtime/src/roon.rs:432-457 | dropping a call in flight leaves its sender in `pending` if and only if the call has inserted it and its channel is still undecided |
| RoonCorrelation.LeakEndsExactlyWhen | runtime/src/roon.rs:356-457 | the sender a dropped call left behind goes away in a step if and only if a response with its id is routed or another call with its id inserts or cleans up |
| RoonCorrelation.LeakLastsExactlyWhile | runtime/src/roon.rs:351-459 | over any continuation the leaked sender is still in `pending` if and only if no event so far ended the leak |
| RoonCorrelation.DroppedFutureLeaksItsKey | runtime/src/roon.rs:421-459 | a run in which a caller dropped at its await leaves its sender behind |
| RoonCorrelation.SenderDroppedExactlyWhen | runtime/src/roon.rs:432-457 | a call that expects an answer loses its sender if and only if another call in flight with the same id inserts its own or cleans up |
| RoonCorrelation.DroppedExactlyWhen | runtime/src/roon.rs:421-459 | in every interleaving, a call whose send went through returns "Response channel dropped" if and only if another call with its id inserted or cleaned up while it waited on an open channel |
| RoonCorrelation.DistinctIdsAreNeverDropped | runtime/src/roon.rs:421-459 | if ids in flight are always distinct, no call ever returns "Response channel dropped" |
| RoonCorrelation.SameIdExactlyWhen | runtime/src/roon.rs:617-624 | two draws give one id if and only if their clocks are a multiple of 2^32 - 1 nanoseconds apart |
| RoonCorrelation.ClocksKeepIdsApart | runtime/src/roon.rs:421-422 | in every run whose calls draw at distinct clocks less than 2^32 - 1 nanoseconds apart, ids in flight are always distinct |
| RoonCorrelation.ClocksApartAreNeverDropped | runtime/src/roon.rs:421-459 | so no call of such a run ever returns "Response channel dropped" |
| RoonCorrelation.NotConnectedExactlyWhen | runtime/src/roon.rs:425-430 | in every run a call returns "not connected" if and only if the last connect or disconnect before it reads the socket sender was not a connect |
| RoonCorrelation.CollidingIdsDropBoth | runtime/src/roon.rs:617-624 | a run in which two calls draw one id from clocks a multiple of `u32::MAX` nanoseconds apart, and both fail |
| RoonCorrelation.StepKeepsInv | runtime/src/roon.rs:351-459 | every step keeps: `pending` maps a key to a registered call with that id and an open channel, and a call still expecting its answer with an open channel is in `pending` |
| RoonCorrelation.RunKeepsInv | runtime/src/roon.rs:351-459 | that invariant holds in every reachable world, for any number of calls |
| RoonCorrelation.RoonClient.InsertPending | runtime/src/roon.rs:432 | registers the call and closes the channel of a sender it displaces |
| RoonCorrelation.RoonClient.RemovePending | runtime/src/roon.rs:442-457 | removes whatever sender is under the call's id, closing its channel, and the call returns |
| RoonCorrelation.RoonClient.RouteResponse | runtime/src/roon.rs:356-359 | takes the sender out under the truncated id and fills its channel; an unknown id changes nothing |
| RoonCorrelation.RoonClient.Perform | runtime/src/roon.rs:351-459 | one atomic section of any caller or task is one step of the protocol |
| RoonCorrelation.RoonClient.ReadSocketSender | runtime/src/roon.rs:425-430 | without a connection the call returns "not connected", otherwise it goes on to insert |
| RoonCorrelation.RoonClient.SendMessage | runtime/src/roon.rs:441-446 | an accepted send leads to the await, a failed one to the clean-up |
| RoonCorrelation.RoonClient.PollReceiver | runtime/src/roon.rs:446-453 | a filled channel returns its answer, a dropped one leads to the clean-up, an open one changes nothing |
| RoonCorrelation.RoonClient.Act | runtime/src/roon.rs:421-459 | an own action and any actions of others are that run of the protocol, keep the invariant, and leave the call where its own action put it |
| RoonCorrelation.RoonClient.Register | runtime/src/roon.rs:421-432 | up to the insertion a call draws the clock modulo 2^32 - 1 and is registered under that id, or returns "not connected", exactly as the connection was when it read it |
| RoonCorrelation.RoonClient.SendAndAwait | runtime/src/roon.rs:441-458 | from the send on the call returns: a send failure exactly when the send failed, otherwise what its channel holds once others have run, and a timeout only if that is nothing |
| RoonCorrelation.RoonClient.Request | runtime/src/roon.rs:421-459 | whatever others do at its await points, the call returns under the id its clock gives, "not connected" exactly if the connection was down, an answer is to that id modulo 2^32, and no sender of its own stays in `pending` |
| SseParser.ParseSse | plugins/rt-provider/src/lib.rs:530-579 | the loop gives the events of the blocks in order, malformed and unknown ones skipped |
| SseParser.ReadBlock | plugins/rt-provider/src/lib.rs:533-576 | one block gives its event if its last `event:` and `data:` lines decode, and nothing otherwise |
| SseParser.ReadFields | plugins/rt-provider/src/lib.rs:538-546 | the last `event:` and `data:` lines of a block win, trimmed |
| SseParser.JoinedBodiesConcatenate | plugins/rt-provider/src/lib.rs:530-579 | parsing any two bodies joined by a blank line is the concatenation of parsing each |
| SseParser.BreakBeforeBody | plugins/rt-provider/src/lib.rs:532-536 | a newline before a body changes nothing that is parsed |
| SseParser.BlockRoundTrip | plugins/rt-provider/src/lib.rs:533-576 | an event whose payload is one line that decodes back to it is parsed back from its rendering |
| SseParser.NamesChooseDecoders | plugins/rt-provider/src/lib.rs:550-576 | a block named `movie`, `error` or `done` gives what its own decoder gives; other names and payloads that do not decode are skipped |
| SseParser.LastFieldWins | plugins/rt-provider/src/lib.rs:538-546 | each field is what follows its prefix in the last line that starts with it, trimmed, and no other line matters |
| SseParser.BlockNeedsBothFields | plugins/rt-provider/src/lib.rs:547-549 | a block in which no line names the event, or none carries data, is skipped |
| SseParser.SseRoundTrip | plugins/rt-provider/src/lib.rs:530-579 | for any list of such events, and whatever other events the codec cannot print, parsing the rendering gives the list back |
| BulkEnrich.BulkEnrich | plugins/rt-provider/src/lib.rs:222-356 | the method that fills and drains the map equals its specification on every input and server |
| BulkEnrich.StoreEvents | plugins/rt-provider/src/lib.rs:250-296 | events are stored in order, an error under its code, the last one about an id winning |
| BulkEnrich.StoreFailures | plugins/rt-provider/src/lib.rs:297-310 | a failed chunk stores its error under each of its ids |
| BulkEnrich.DrainInOrder | plugins/rt-provider/src/lib.rs:314-353 | entries come out in input order while the map is emptied |
| BulkEnrich.OneEntryPerPartial | plugins/rt-provider/src/lib.rs:314-356 | for every input and server: one entry per partial, in order, with its id; a partial whose imdb id appeared before gets "no response", so at most one consumes a result |
| BulkEnrich.EmitInOrder | plugins/rt-provider/src/lib.rs:314-353 | the entry at a position is decided by the map and by whether its imdb id appeared before, in closed form |
| BulkEnrich.ExternalIdStandsIn | plugins/rt-provider/src/lib.rs:228-233 | giving a partial without own field its non-empty external imdb id as its own changes no result |
| BulkEnrich.OwnFieldOverrides | plugins/rt-provider/src/lib.rs:228-233 | with an own field, empty or not, the external ids may be anything |
| BulkEnrich.IdIsRequiredExactlyWhen | plugins/rt-provider/src/lib.rs:343-351 | over a server that never gives that error itself, a partial is told that an imdb id is required if and only if its own field is empty, or missing with no external id or an empty one |
| BulkEnrich.AnswersAreReported | plugins/rt-provider/src/lib.rs:250-295 | a movie event is reported as enrichment, an error event under the code of its kind, and no event as "no response" |
| BulkEnrich.ChunksAreFifties | plugins/rt-provider/src/lib.rs:431 | each fetch but the last asks for exactly fifty of the wanted ids, the last for the rest, all of them in order |
| BulkEnrich.DecidedByOwnChunk | plugins/rt-provider/src/lib.rs:247-311 | with distinct ids a result is the error of its own chunk, or the last event about its id, or "no response": a failed chunk marks exactly its own ids |
| BulkEnrich.AloneIsSingletonBulk | plugins/rt-provider/src/lib.rs:222-356 | asking for one partial by itself is bulk enrichment of that partial alone |
| BulkEnrich.FirstGetsItsAnswer | plugins/rt-provider/src/lib.rs:222-356 | without failures the first partial of an imdb id gets what it would get alone and the later ones "no response" |
| BulkEnrich.ChunkingIsTransparent | plugins/rt-provider/src/lib.rs:222-356 | for distinct imdb ids and a server that answers only the ids asked, each independently of its chunk, the bulk result is each partial asked separately |
| BulkEnrich.TransparentExactlyWhen | plugins/rt-provider/src/lib.rs:222-356 | with such a server that answers every id, bulk equals asking separately if and only if the imdb ids are distinct |
| BulkEnrich.RenderedServerIsIndependent | plugins/rt-provider/src/lib.rs:119-142 | a server whose response bodies render independent answers is independent after parsing, so the transparency results hold down to the response text |
| ChainWalk.WalkBack | plugins/anilist-provider/src/lib.rs:1138-1171 | the prequel loop equals its specification and fetches exactly the ids it pushes, at most 20 |
| ChainWalk.WalkForward | plugins/anilist-provider/src/lib.rs:1173-1207 | the same for the sequel loop, which also stops at anything found before |
| ChainWalk.WalkChain | plugins/anilist-provider/src/lib.rs:1138-1213 | the list is prequels, anchor, sequels; it ends on every graph after at most 40 hops, one per id besides the anchor |
| ChainWalk.FirstEdgeIsFirst | plugins/anilist-provider/src/lib.rs:1106-1117 | the relation followed is the first edge of that kind, in any letter case, that names a media, and there is none exactly when no edge does |
| ChainWalk.EdgeLeadsExactlyWhen | plugins/anilist-provider/src/lib.rs:1106-1117 | an edge is followed if and only if it has a kind, which spells the wanted one in any letter case, and names a media |
| ChainWalk.WalkIsGood | plugins/anilist-provider/src/lib.rs:1157-1170 | on any graph one direction gives at most 20 distinct ids outside the ids it must avoid, each the first link of the one before, and stops for one of the four reasons |
| ChainWalk.ChainIsDistinct | plugins/anilist-provider/src/lib.rs:1138-1213 | on any graph each direction has at most 20 ids and all ids of the chain, the anchor among them, are pairwise distinct |
| ChainWalk.BackwardLinks | plugins/anilist-provider/src/lib.rs:1157-1170 | each member before the anchor is the first PREQUEL of its right neighbour |
| ChainWalk.ForwardLinks | plugins/anilist-provider/src/lib.rs:1191-1206 | each member after the anchor is the first SEQUEL of its left neighbour |
| ChainWalk.ChainIsSound | plugins/anilist-provider/src/lib.rs:1138-1213 | on any graph: length at most 41, ids distinct, the anchor at its place, every neighbouring pair a first PREQUEL or first SEQUEL link |
| ChainWalk.ChainIsComplete | plugins/anilist-provider/src/lib.rs:1157-1206 | each direction ends only at a missing edge, a failed hop, a repeat or the depth cap |
| ChainWalk.ChainIsWindow | plugins/anilist-provider/src/lib.rs:1138-1213 | on a simple chain of any length the result is the window of 20 members either side of the anchor |
| ChainWalk.AnchorIndependentExactlyWhen | plugins/anilist-provider/src/lib.rs:1138-1213 | every member of a simple chain gives the same list if and only if the chain has at most 21 members, and then the list is the chain |
| ChainWalk.FillSeasons | plugins/anilist-provider/src/lib.rs:263-279 | movies report one season and no ids; others report the length of the chain, and its ids when it is longer than one |
| ChainWalk.SeasonIdReads | plugins/anilist-provider/src/lib.rs:271-274 | a season id is `anilist-` and decimal digits that read as the number of the media |
| ChainWalk.SeasonsAreDistinct | plugins/anilist-provider/src/lib.rs:268-274 | on any graph the reported season ids are distinct strings, as many as the count, with the entry's own among them |
| ChainWalk.CoursReportTheSameSeasons | plugins/anilist-provider/src/lib.rs:263-279 | every cour of a simple chain of at most 21 reports the same count and the same season ids, all of them in order |
| AnimeBridge.MediaEntry.EnrichEntry | runtime/src/anime_bridge/enrich.rs:40-90 | fills the ids in place, and nothing but the ids, to the result of the specification |
| AnimeBridge.ResolveIsFirstHit | runtime/src/anime_bridge/enrich.rs:41-69 | the record is that of the first hit in the order mal, anilist, kitsu, imdb, tmdb, and there is none exactly when no id hits |
| AnimeBridge.LookupOrder | runtime/src/anime_bridge/enrich.rs:41-69 | the ids are looked up in the order mal, anilist, kitsu, imdb, tmdb, each in its own table |
| AnimeBridge.PresentIdsStay | runtime/src/anime_bridge/enrich.rs:73-89 | a present id, even an empty one, never changes; a missing one is the record's |
| AnimeBridge.SecondPassResolves | runtime/src/anime_bridge/enrich.rs:40-90 | a second pass finds the first pass's record again or one that a higher-ranked id of that record leads to |
| AnimeBridge.SecondPassFillsNothing | runtime/src/anime_bridge/enrich.rs:40-90 | if no record can learn from a higher-ranked one, a second pass changes no id |
| AnimeBridge.ProbeLearns | runtime/src/anime_bridge/enrich.rs:40-90 | whenever some record can learn, an entry exists that a second pass changes |
| AnimeBridge.IdempotentExactlyWhen | runtime/src/anime_bridge/enrich.rs:20-40 | enrichment is idempotent on every entry if and only if following a record's higher-ranked ids never fills an id that record lacks |
| AnimeBridge.CoherentIsIdempotent | runtime/src/anime_bridge/enrich.rs:40-90 | an index whose records' mal, anilist, kitsu and imdb ids lead back to them is such an index, however many records share a tmdb id |
| AnimeBridge.IndexHoldsLast | runtime/src/anime_bridge/index.rs:91-148 | a table holds under an id the last row with that id that has an anime id, and nothing if there is none |
| AnimeBridge.RowsKeptExactlyWhen | runtime/src/anime_bridge/index.rs:105-109 | a row whose id no other row has is in the index if and only if it has a mal, anilist or kitsu id |
| AnimeBridge.UniqueRowsAreCoherent | runtime/src/anime_bridge/index.rs:91-148 | a dataset without repeated mal, anilist, kitsu or imdb ids gives a coherent index, hence idempotent enrichment |
| AnimeBridge.SharedImdbIdIsNotIdempotent | runtime/src/anime_bridge/enrich.rs:20-40 | two rows sharing an imdb id and an entry that a second pass changes |
| DedupKeys.NormalizeJoinsWords | runtime/src/catalog.rs:243-258 | normalising is splitting the lower-cased title into words first, cleaning each, and joining the rest by `-` |
| DedupKeys.NormalizeAgreesExactlyWhen | runtime/src/catalog.rs:243-258 | two titles normalise alike if and only if their lower-cased word lists with non-alphanumerics dropped are equal |
| DedupKeys.QuoteStyleIsIgnored | runtime/src/catalog.rs:245-251 | titles that differ only in the style of their quotes normalise alike, whatever the character tables say |
| DedupKeys.PlainTitleIsLowered | runtime/src/catalog.rs:244-257 | a title without typographic quotes is lower-cased and nothing else before its letters, digits and white space are kept |
| DedupKeys.SplitIntoWords | runtime/src/catalog.rs:257 | words are the longest runs without white space |
| DedupKeys.KeyTiers | runtime/src/catalog.rs:200-230 | series and episodes are keyed by tmdb, imdb, mal in that order, everything else by mal, imdb, and without one by title and year or `?`; an empty id counts as none |
| DedupKeys.KeyRendersIdentity | runtime/src/catalog.rs:200-230 | the key renders the tier and id, or the words and year, that the entry falls to |
| DedupKeys.RenderedIsInjective | runtime/src/catalog.rs:195-199 | no two different tiers, ids, word lists or years render alike |
| DedupKeys.KeysEqualExactlyWhen | runtime/src/catalog.rs:200-230 | keys are equal if and only if the entries fall in one tier with one id, or both in the title tier with equal words and equal year-or-`?` |
| DedupKeys.KeyAfterEnrichment | runtime/src/catalog.rs:200-230 | for every entry: enrichment raises its key, title keys included, to the first outranking id with which its record fills a gap, and otherwise keeps it |
| DedupKeys.StayMergedExactlyWhen | runtime/src/catalog.rs:200-230 | any two entries with one key, merged on an id or on title and year and of whatever media types, stay merged after enrichment if and only if their records fill their gaps with the same outranking id, or neither does |
| DedupKeys.EnrichmentNeverSplits | runtime/src/anime_bridge/enrich.rs:40-90 | without empty ids and with ids that hit one record, entries sharing a foreign key the index knows still share a key afterwards |
| DedupKeys.CoursCollapseOnTmdb | runtime/src/catalog.rs:201-210 | every series entry that brings no tmdb id and resolves to a record with one gets that `tmdb:` key |
| DedupKeys.EmptyIdSplitsMergedFilms | runtime/src/catalog.rs:195-226 | an empty id blocks filling but not keying, and splits two merged films |
| DedupKeys.ConflictingIdsSplitMergedFilms | runtime/src/anime_bridge/enrich.rs:41-69 | even over a coherent index, an id that leads elsewhere splits two merged films |
| DedupKeys.KnownIdSplitsTitleMerge | runtime/src/anime_bridge/enrich.rs:1-12 | two films merged on their title come apart when only one has an id the index knows, with no empty id, no conflict and a coherent index |
| DedupKeys.TmdbIdSplitsSeriesFromFilm | runtime/src/catalog.rs:206-230 | a series and a film sharing an imdb id come apart when the record adds a tmdb id |
| Prelude.TrimDrops | sdk/src/lib.rs:781 | trimming drops white space at the two ends and nothing else |
| Prelude.WhitespaceIs | sdk/src/lib.rs:781 | in ASCII white space is the blank and the controls from tab to carriage return; no-break and ideographic spaces count, zero-width characters do not |
| Prelude.IgnoringCaseMeans | sdk/src/lib.rs:650 | ignoring case means character by character the same, or the two cases of one ASCII letter |
| UrlText.UrlEncode | sdk/src/lib.rs:1296-1310 | the loop equals its specification on every string |
| UrlText.EncodeBytes | sdk/src/lib.rs:1303-1305 | the inner loop writes one `%XX` per byte |
| UrlText.UrlRoundTrip | sdk/src/lib.rs:1296-1310 | percent-decoding the output gives the UTF-8 bytes of any string |
| UrlText.EncodingIsInjective | sdk/src/lib.rs:1296-1310 | two strings encode alike if and only if they are equal |
| UrlText.Utf8IsInjective | sdk/src/lib.rs:1303 | strings with the same UTF-8 bytes are equal |
| UrlText.EncodingIsSafe | sdk/src/lib.rs:1294-1310 | the output consists of unreserved characters and `%XX` with upper-case digits |
| UrlText.KeptExactlyWhen | sdk/src/lib.rs:1299-1306 | a character stays as it is if and only if it is an ASCII letter or digit or one of dash, underscore, full stop, tilde; a blank becomes `%20` |
| UrlText.Utf8Lengths | sdk/src/lib.rs:1303-1305 | one character of each length has its UTF-8 bytes and its escapes |
| UrlText.EncodeDistributes | sdk/src/lib.rs:1296-1310 | encoding a concatenation is concatenating the encodings |
| UrlText.ParsePrint | sdk/src/lib.rs:639-660 | a URL split at the first `?`, at the first `#` after it and at every `&` between is read back after printing |
| UrlText.LogUrlScrubsParametersOnly | sdk/src/lib.rs:630-661 | the logged URL has the same base, fragment and number and order of parameters; each parameter is scrubbed and nothing else changes |
| UrlText.LogUrlIsIdempotent | sdk/src/lib.rs:630-661 | logging a logged URL changes nothing |
| UrlText.ScrubHides | sdk/src/lib.rs:649-654 | two parameters scrub alike if and only if they are equal or have the same sensitive key |
| UrlText.HiddenExactlyWhen | sdk/src/lib.rs:631-654 | the value of a parameter is hidden if and only if its key is one of the six sensitive ones in any letter case |
| UrlText.LogUrlEqualExactlyWhen | sdk/src/lib.rs:630-661 | two URLs log alike if and only if they differ at most in values of sensitive parameters |
| Descriptions.ApplyRules | sdk/src/lib.rs:737-739 | the replacement loop applies the rules one after the other |
| Descriptions.BreakTagsBreak | sdk/src/lib.rs:737-739 | each of the six spellings of a line break becomes one newline |
| Descriptions.MixedCaseIsNoBreak | sdk/src/lib.rs:737-739 | a break tag in mixed letter cases does not |
| Descriptions.EntitiesStandFor | sdk/src/lib.rs:761-769 | each entity among plain text becomes its character |
| Descriptions.AmpersandComesFirst | sdk/src/lib.rs:761-763 | `&amp;` is decoded first, so an entity it completes is decoded as well |
| Descriptions.LoneAmpersandStays | sdk/src/lib.rs:761-763 | one that completes no entity becomes an ampersand |
| Descriptions.DropTags | sdk/src/lib.rs:744-756 | the character loop drops everything between angle brackets |
| Descriptions.TagIsDropped | sdk/src/lib.rs:741-756 | a tag disappears and the text on both sides stays; after a `<` without a `>` the rest of the text is lost |
| Descriptions.FindTrailingSource | sdk/src/lib.rs:788-814 | walking right to left finds the last `(source` whose rest is one line of at most 200 bytes, or none exists |
| Descriptions.LastOccurrenceDecides | sdk/src/lib.rs:794-812 | only the last `(source` of the text matters: if it is not an attribution no earlier one is, and nothing is cut |
| Descriptions.TailIsCutExactlyWhen | sdk/src/lib.rs:788-814 | the last tail that starts with `(source` in any letter case is cut if and only if it is at most 200 bytes long and one line |
| Descriptions.CollapseNewlines | sdk/src/lib.rs:776-779 | the repeated replacement ends and turns every maximal run of k newlines into min(k, 2) |
| Descriptions.RunsAreCut | sdk/src/lib.rs:776-779 | a run of newlines between other text is cut to two and a shorter one stays |
| Descriptions.ReplaceKeepsCollapsed | sdk/src/lib.rs:778 | one pass of non-overlapping replacement does not change what the text collapses to |
| Descriptions.ReplaceShortens | sdk/src/lib.rs:777-778 | a pass over a text with three newlines in a row makes it shorter |
| Descriptions.CollapsedHasNoTriple | sdk/src/lib.rs:776-779 | a collapsed text never has three newlines in a row |
| Descriptions.CollapsedOfFlat | sdk/src/lib.rs:776-779 | a text without three newlines in a row is left as it is |
| Descriptions.CleanDescription | sdk/src/lib.rs:733-782 | the whole pipeline equals its specification |
| Descriptions.EscapedMarkupSurvives | sdk/src/lib.rs:744-769 | tags are stripped before entities are decoded, so escaped markup stays in the text |
| Descriptions.BreaksAreNotStripped | sdk/src/lib.rs:736-757 | breaks are made before tags are stripped |
| Descriptions.CutComesLast | sdk/src/lib.rs:771-774 | an attribution that only stripping a tag brings together is cut |
| Descriptions.TripleMeans | sdk/src/lib.rs:777 | the loop goes on exactly while three newlines follow each other somewhere |
| Descriptions.CleanedIsTidy | sdk/src/lib.rs:776-781 | its result never has three newlines in a row and is trimmed, for every input |
| Descriptions.StripUnchangedExactlyWhen | sdk/src/lib.rs:741-756 | stripping tags returns a text unchanged if and only if it has no `<` |
| Descriptions.CleanTextIsUnchanged | sdk/src/lib.rs:731-782 | exactly the texts without `<`, without one of the eight entities, without a trailing attribution, without three newlines in a row and with nothing to trim are returned unchanged |
| Paging.CollectPages | plugins/kitsu/src/lib.rs:384-406 | the loop equals its specification and makes at most 25 requests |
| Paging.CollectsTheRest | plugins/kitsu/src/lib.rs:385-406 | from any page on, the loop appends exactly the rows still missing up to 500 |
| Paging.PagingIsLossless | plugins/kitsu/src/lib.rs:384-420 | against a server of a fixed list the result is its first min(length, 500) rows in min(25, length/20 + 1) requests, multiples of 20 included |
| Paging.FailsExactlyWhen | plugins/kitsu/src/lib.rs:393-400 | for every server the loop fails if and only if a page fails before a short one, and then with the error of the first such page |
| TagAggregate.AggregateTopAlbums | plugins/lastfm-provider/src/lib.rs:704-743 | the nested loops give the first occurrence of each key over the concatenated lists of the tags that succeeded |
| TagAggregate.PushUnseen | plugins/lastfm-provider/src/lib.rs:732-740 | the inner loop extends first occurrences and the keys seen by one tag's list |
| TagAggregate.FirstsAreTheFirsts | plugins/lastfm-provider/src/lib.rs:732-740 | the output is, in input order, exactly the albums at positions whose key no earlier album has |
| TagAggregate.OutputKeysAreDistinct | plugins/lastfm-provider/src/lib.rs:711-742 | output keys are pairwise distinct and every input key is among them |
| TagAggregate.FailedTagsContributeNothing | plugins/lastfm-provider/src/lib.rs:718-731 | removing the failed tags from the list changes nothing |
| TagAggregate.ListsFollowTags | plugins/lastfm-provider/src/lib.rs:712-731 | the lists aggregated for two lists of tags are those of the first followed by those of the second |
| TagAggregate.ListOfOneTag | plugins/lastfm-provider/src/lib.rs:712-731 | a tag contributes its own list as it is, or nothing if it fails |
| TagAggregate.CaseIsIgnored | plugins/lastfm-provider/src/lib.rs:733-736 | letter case never tells albums apart, and the title counts only where a name is missing |
| TagAggregate.KeysEqualExactlyWhen | plugins/lastfm-provider/src/lib.rs:733-736 | two albums share a key if and only if they are named alike up to case, or the artist of one runs on past a bar into the album name of the other, or a title-only name splits at a bar into the other's names |
| TagAggregate.KeptExactlyWhen | plugins/lastfm-provider/src/lib.rs:732-740 | an album is kept if and only if no earlier one is conflated with it in that sense |
| TagAggregate.BarsConflateAlbums | plugins/lastfm-provider/src/lib.rs:733-736 | two different albums with a bar in their names share a key |

## Left out

- Network, files, databases, sockets and JSON: every fetch is a parameter that may fail or answer anything its lemma allows.
- Merging entries under one key (`CatalogAggregator::merge`, `merge_dedupe`) and `provider_priority_for_key`: the key is modelled, the merge of the fields is not.
- `project_movie`: an enriched result is represented by the movie it is projected from.
- `parse_rt_slug`, `classify_http`, `kind_from_rt_url`, `thousands`, `build_episodes` of both providers, the mapping join of the Kitsu search and the default `bulk_enrich`: only easy members.
- tvdb ids of the id index: no lookup in `enrich_entry` uses them.
- Lower-casing and the alphanumeric class of Unicode: parameters of `DedupKeys` and `TagAggregate`; the lemmas need only that `-`, `:` and white space are not alphanumeric.
- The write task, registration handshake and shutdown channel of the Roon client: a send is accepted or fails, a connection is there or not.
- The ten seconds of a Roon request: the timeout may fire at any moment at which the channel is still open, since the receiver is polled before the timer.
- The flush timer of the batcher: except in the lemmas about how long an update waits it may fire at any moment, so the statements hold whatever the clock does.
- IpcBatcher.IpcBatcher.Recv: the clock readings of one wake-up (the flush test, the drain) are one value; cancellation happens between wake-ups, where the await points are.
- IpcBatcher.IpcBatcher.DrainBuffer: the order in which a hash map drains is arbitrary, so only the contents of a batch are fixed.
- CatalogReplay.Catalog.Subscribe: one kind of subscriber is modelled; the media-cache subscriber and the stale-refresh channel are left out.
- ReadyGate: spurious wake-ups and the clean-up of dropped notifications are left out, since a waiting tab task is never cancelled.
- Descriptions.FindTrailingSource: positions count characters instead of bytes; the 200-byte limit is measured in UTF-8 bytes.
- Scores, request dispatch, wire encoding, plugin discovery and command-line tools: no property that spans operations.
