/**
 Grid publication and late joiners.  A writer publishes in two steps, "insert into the
 grids, then broadcast"; a client joins in two steps, "subscribe, then snapshot", and
 then receives.  Any number of each interleave freely; an event that is not enabled
 leaves the world unchanged.
 */
module CatalogReplay {
  import opened Prelude

  /** Slots the broadcast channel retains; a receiver further behind has lagged. */
  const CAPACITY := 64

  type Grid = seq<string>

  datatype Publication = Publication(tab: string, entries: Grid)

  /** Between its two steps a writer holds the number of the publication it has inserted. */
  datatype Writer = Idle | Holding(pub: nat)

  /** `from` is where in the broadcast history the subscription began, `cursor` the next
      message to receive, `got` the positions of the messages received so far, `shown` the grids on
      the client's screen; `snapAt` counts the insertions its snapshot saw. */
  datatype Client =
    | Away
    | Subscribed(from: nat)
    | Live(from: nat, snapAt: nat, cursor: nat, shown: map<string, Grid>, got: seq<nat>)

  /** `log` numbers every insertion, `sent` every broadcast (by publication number). */
  datatype World = World(
    grids: map<string, Grid>,
    log: seq<Publication>,
    sent: seq<nat>,
    writers: seq<Writer>,
    clients: seq<Client>)

  datatype Event =
    | Insert(writer: nat, what: Publication)
    | Broadcast(writer: nat)
    | Subscribe(client: nat)
    | Snapshot(client: nat)
    | Receive(client: nat)

  function Init(writers: nat, clients: nat): World {
    World(map[], [], [], seq(writers, _ => Idle), seq(clients, _ => Away))
  }

  function ReceiveOne(w: World, c: Client): Client
    requires c.Live?
    requires forall k :: 0 <= k < |w.sent| ==> w.sent[k] < |w.log|
  {
    if |w.sent| <= c.cursor then c
    else if CAPACITY < |w.sent| - c.cursor then c.(cursor := |w.sent| - CAPACITY)
    else
      var p := w.log[w.sent[c.cursor]];
      c.(cursor := c.cursor + 1, shown := c.shown[p.tab := p.entries], got := c.got + [c.cursor])
  }

  /** Broadcasts refer to insertions that have happened. */
  predicate WellFormed(w: World) {
    && (forall k :: 0 <= k < |w.sent| ==> w.sent[k] < |w.log|)
    && (forall i :: 0 <= i < |w.writers| && w.writers[i].Holding? ==> w.writers[i].pub < |w.log|)
  }

  function Step(w: World, e: Event): (w': World)
    requires WellFormed(w)
    ensures WellFormed(w')
  {
    match e
    case Insert(i, p) =>
      if i < |w.writers| && w.writers[i].Idle?
      then w.(grids := w.grids[p.tab := p.entries], log := w.log + [p],
              writers := w.writers[i := Holding(|w.log|)])
      else w
    case Broadcast(i) =>
      if i < |w.writers| && w.writers[i].Holding?
      then w.(sent := w.sent + [w.writers[i].pub], writers := w.writers[i := Idle])
      else w
    case Subscribe(c) =>
      if c < |w.clients| && w.clients[c].Away?
      then w.(clients := w.clients[c := Subscribed(|w.sent|)])
      else w
    case Snapshot(c) =>
      if c < |w.clients| && w.clients[c].Subscribed?
      then var from := w.clients[c].from;
           w.(clients := w.clients[c := Live(from, |w.log|, from, w.grids, [])])
      else w
    case Receive(c) =>
      if c < |w.clients| && w.clients[c].Live?
      then w.(clients := w.clients[c := ReceiveOne(w, w.clients[c])])
      else w
  }

  function Run(w: World, events: seq<Event>): (w': World)
    requires WellFormed(w)
    ensures WellFormed(w')
  {
    if events == [] then w else Step(Run(w, events[..|events| - 1]), events[|events| - 1])
  }

  // ── Where a grid comes from ─────────────────────────────────────────────

  /** The number of the last publication for `tab` in `log`. */
  function Latest(log: seq<Publication>, tab: string): (r: Option<nat>)
    ensures r.Some? ==> r.value < |log| && log[r.value].tab == tab
  {
    if log == [] then None
    else if log[|log| - 1].tab == tab then Some(|log| - 1)
    else Latest(log[..|log| - 1], tab)
  }

  lemma {:induction false} LatestIsLast(log: seq<Publication>, tab: string)
    ensures Latest(log, tab).None? ==> forall p :: 0 <= p < |log| ==> log[p].tab != tab
    ensures Latest(log, tab).Some? ==> forall p :: Latest(log, tab).value < p < |log| ==> log[p].tab != tab
  {
    if log != [] && log[|log| - 1].tab != tab {
      LatestIsLast(log[..|log| - 1], tab);
    }
  }

  /** The last publication for `tab` among the broadcasts `sent`. */
  function LastSent(log: seq<Publication>, sent: seq<nat>, tab: string): (r: Option<nat>)
    requires forall k :: 0 <= k < |sent| ==> sent[k] < |log|
    ensures r.Some? ==> r.value in sent && r.value < |log| && log[r.value].tab == tab
  {
    if sent == [] then None
    else if log[sent[|sent| - 1]].tab == tab then Some(sent[|sent| - 1])
    else LastSent(log, sent[..|sent| - 1], tab)
  }

  lemma {:induction false} LastSentGrows(log: seq<Publication>, more: seq<Publication>, sent: seq<nat>, tab: string)
    requires forall k :: 0 <= k < |sent| ==> sent[k] < |log|
    ensures LastSent(log + more, sent, tab) == LastSent(log, sent, tab)
  {
    if sent != [] {
      LastSentGrows(log, more, sent[..|sent| - 1], tab);
    }
  }

  /** The grids are exactly the latest publication of every tab. */
  ghost predicate GridsAre(grids: map<string, Grid>, log: seq<Publication>) {
    forall tab :: match Latest(log, tab)
                  case None => tab !in grids
                  case Some(p) => tab in grids && grids[tab] == log[p].entries
  }

  // ── Invariant ───────────────────────────────────────────────────────────

  /** Every publication is either broadcast or still held by its writer, never both or twice. */
  ghost predicate EachPublishedOnce(w: World) {
    && Distinct(w.sent)
    && (forall i, j :: 0 <= i < j < |w.writers| && w.writers[i].Holding? && w.writers[j].Holding? ==>
                         w.writers[i].pub != w.writers[j].pub)
    && (forall i :: 0 <= i < |w.writers| && w.writers[i].Holding? ==> w.writers[i].pub !in w.sent)
    && (forall p {:trigger Sent(w, p)} {:trigger Held(w, p)} :: 0 <= p < |w.log| ==> Sent(w, p) || Held(w, p))
  }

  predicate Sent(w: World, p: nat) { p in w.sent }

  ghost predicate Held(w: World, p: nat) {
    exists i :: 0 <= i < |w.writers| && w.writers[i] == Holding(p)
  }

  /** The last of the positions `got` that holds a message for `tab`. */
  function LastGot(w: World, got: seq<nat>, tab: string): (r: Option<nat>)
    requires WellFormed(w) && forall i :: 0 <= i < |got| ==> got[i] < |w.sent|
    ensures r.Some? ==> r.value in got && w.log[w.sent[r.value]].tab == tab
  {
    if got == [] then None
    else if w.log[w.sent[got[|got| - 1]]].tab == tab then Some(got[|got| - 1])
    else LastGot(w, got[..|got| - 1], tab)
  }

  lemma {:induction false} LastGotIsLast(w: World, got: seq<nat>, tab: string)
    requires WellFormed(w) && forall i :: 0 <= i < |got| ==> got[i] < |w.sent|
    requires forall i, j :: 0 <= i < j < |got| ==> got[i] < got[j]
    ensures LastGot(w, got, tab).None? ==> forall i :: 0 <= i < |got| ==> w.log[w.sent[got[i]]].tab != tab
    ensures LastGot(w, got, tab).Some? ==>
              forall i :: 0 <= i < |got| && LastGot(w, got, tab).value < got[i] ==> w.log[w.sent[got[i]]].tab != tab
  {
    if got != [] && w.log[w.sent[got[|got| - 1]]].tab != tab {
      LastGotIsLast(w, got[..|got| - 1], tab);
    }
  }

  lemma {:induction false} LastGotGrows(w: World, w': World, got: seq<nat>, tab: string)
    requires WellFormed(w) && WellFormed(w') && w.log <= w'.log && w.sent <= w'.sent
    requires forall i :: 0 <= i < |got| ==> got[i] < |w.sent|
    ensures LastGot(w', got, tab) == LastGot(w, got, tab)
  {
    if got != [] {
      LastGotGrows(w, w', got[..|got| - 1], tab);
    }
  }

  /** Positions received are in order, after the subscription and before the cursor; and none of the
      last messages the channel retains was skipped. */
  predicate Positions(w: World, c: Client)
    requires c.Live?
  {
    && c.from <= c.cursor <= |w.sent| && c.snapAt <= |w.log|
    && (forall i :: 0 <= i < |c.got| ==> c.from <= c.got[i] < c.cursor)
    && (forall i, j :: 0 <= i < j < |c.got| ==> c.got[i] < c.got[j])
    && (forall k :: c.from <= k < c.cursor && |w.sent| - CAPACITY <= k ==> k in c.got)
  }

  /** The publication whose grid a live client shows for `tab`: the last one received, or else the
      latest one its snapshot saw. */
  function ShownPub(w: World, c: Client, tab: string): Option<nat>
    requires WellFormed(w) && c.Live? && Positions(w, c)
  {
    match LastGot(w, c.got, tab)
    case Some(k) => Some(w.sent[k])
    case None => Latest(w.log[..c.snapAt], tab)
  }

  ghost predicate Shows(w: World, c: Client)
    requires WellFormed(w) && c.Live? && Positions(w, c)
  {
    forall tab :: match ShownPub(w, c, tab)
                  case None => tab !in c.shown
                  case Some(p) => tab in c.shown && p < |w.log| && c.shown[tab] == w.log[p].entries
  }

  ghost predicate ClientInv(w: World, c: Client)
    requires WellFormed(w)
  {
    match c
    case Away => true
    case Subscribed(from) => from <= |w.sent|
    case Live(from, snapAt, cursor, shown, got) =>
      && Positions(w, c)
      && (forall k :: 0 <= k < from ==> w.sent[k] < snapAt)
      && Shows(w, c)
  }

  ghost predicate Inv(w: World) {
    && WellFormed(w)
    && GridsAre(w.grids, w.log)
    && EachPublishedOnce(w)
    && (forall c :: 0 <= c < |w.clients| ==> ClientInv(w, w.clients[c]))
  }

  lemma InsertKeepsOnce(w: World, i: nat, p: Publication)
    requires Inv(w) && i < |w.writers| && w.writers[i].Idle?
    ensures EachPublishedOnce(Step(w, Insert(i, p)))
  {
    var w' := Step(w, Insert(i, p));
    assert w'.writers[i] == Holding(|w.log|);
    forall q | 0 <= q < |w'.log|
      ensures Sent(w', q) || Held(w', q)
    {
      if q == |w.log| {
        assert Held(w', q);
      } else if Held(w, q) {
        var j :| 0 <= j < |w.writers| && w.writers[j] == Holding(q);
        assert w'.writers[j] == Holding(q);
      } else {
        assert Sent(w, q);
      }
    }
  }

  lemma BroadcastKeepsOnce(w: World, i: nat)
    requires Inv(w) && i < |w.writers| && w.writers[i].Holding?
    ensures EachPublishedOnce(Step(w, Broadcast(i)))
  {
    var w' := Step(w, Broadcast(i));
    forall q | 0 <= q < |w'.log|
      ensures Sent(w', q) || Held(w', q)
    {
      if Sent(w, q) {
        assert w'.sent[..|w.sent|] == w.sent;
      } else {
        assert Held(w, q);
        var j :| 0 <= j < |w.writers| && w.writers[j] == Holding(q);
        if j == i {
          assert w'.sent[|w.sent|] == q;
        } else {
          assert w'.writers[j] == Holding(q);
        }
      }
    }
  }

  /** Growing the histories does not change what a client is showing. */
  lemma GrowthKeepsClient(w: World, w': World, c: Client)
    requires WellFormed(w) && WellFormed(w') && ClientInv(w, c)
    requires w.log <= w'.log && w.sent <= w'.sent
    ensures ClientInv(w', c)
  {
    if c.Live? {
      assert w'.log[..c.snapAt] == w.log[..c.snapAt];
      forall tab
        ensures ShownPub(w', c, tab) == ShownPub(w, c, tab)
      {
        LastGotGrows(w, w', c.got, tab);
      }
    }
  }

  lemma SnapshotShows(w: World, from: nat)
    requires Inv(w) && from <= |w.sent|
    ensures ClientInv(w, Live(from, |w.log|, from, w.grids, []))
  {
    var c := Live(from, |w.log|, from, w.grids, []);
    assert w.log[..|w.log|] == w.log;
  }

  lemma ReceiveKeepsPositions(w: World, c: Client)
    requires WellFormed(w) && c.Live? && Positions(w, c)
    ensures Positions(w, ReceiveOne(w, c))
  {
    var c' := ReceiveOne(w, c);
    forall k | c'.from <= k < c'.cursor && |w.sent| - CAPACITY <= k
      ensures k in c'.got
    {
      if c'.got != c.got {
        assert c'.got[|c.got|] == c.cursor;
        assert k < c.cursor ==> k in c.got;
      }
    }
  }

  lemma LastGotOfSnoc(w: World, got: seq<nat>, k: nat, tab: string)
    requires WellFormed(w) && k < |w.sent| && forall i :: 0 <= i < |got| ==> got[i] < |w.sent|
    ensures forall i :: 0 <= i < |got + [k]| ==> (got + [k])[i] < |w.sent|
    ensures LastGot(w, got + [k], tab) == if w.log[w.sent[k]].tab == tab then Some(k) else LastGot(w, got, tab)
  {
    assert (got + [k])[..|got|] == got;
  }

  lemma ReceiveShowsLast(w: World, c: Client, tab: string)
    requires WellFormed(w) && c.Live? && Positions(w, c)
    ensures var c' := ReceiveOne(w, c);
            && Positions(w, c')
            && ShownPub(w, c', tab) == if c'.got != c.got && w.log[w.sent[c.cursor]].tab == tab then Some(w.sent[c.cursor])
                                       else ShownPub(w, c, tab)
  {
    ReceiveKeepsPositions(w, c);
    if ReceiveOne(w, c).got != c.got {
      LastGotOfSnoc(w, c.got, c.cursor, tab);
    }
  }

  lemma ReceiveShows(w: World, c: Client)
    requires Inv(w) && c.Live? && ClientInv(w, c)
    ensures ClientInv(w, ReceiveOne(w, c))
  {
    ReceiveKeepsPositions(w, c);
    forall tab { ReceiveShowsLast(w, c, tab); }
    assert ReceiveOne(w, c).got != c.got ==> |c.got| < |ReceiveOne(w, c).got|;
  }

  lemma StepKeepsInv(w: World, e: Event)
    requires Inv(w)
    ensures Inv(Step(w, e))
  {
    var w' := Step(w, e);
    match e {
      case Insert(i, p) =>
        if i < |w.writers| && w.writers[i].Idle? {
          InsertKeepsOnce(w, i, p);
          assert w'.log[..|w.log|] == w.log;
        }
      case Broadcast(i) =>
        if i < |w.writers| && w.writers[i].Holding? {
          BroadcastKeepsOnce(w, i);
        }
      case Subscribe(_) =>
      case Snapshot(c) =>
        if c < |w.clients| && w.clients[c].Subscribed? {
          SnapshotShows(w, w.clients[c].from);
        }
      case Receive(c) =>
        if c < |w.clients| && w.clients[c].Live? {
          ReceiveShows(w, w.clients[c]);
        }
    }
    assert e.Subscribe? || e.Snapshot? || e.Receive? ==> EachPublishedOnce(w') by {
      if e.Subscribe? || e.Snapshot? || e.Receive? {
        SameHistories(w, w');
      }
    }
    forall c | 0 <= c < |w'.clients|
      ensures ClientInv(w', w'.clients[c])
    {
      if w'.clients[c] == w.clients[c] {
        GrowthKeepsClient(w, w', w.clients[c]);
      } else {
        GrowthKeepsClient(w, w', w'.clients[c]);
      }
    }
  }

  lemma SameHistories(w: World, w': World)
    requires EachPublishedOnce(w) && w'.log == w.log && w'.sent == w.sent && w'.writers == w.writers
    ensures EachPublishedOnce(w')
  {
    forall q | 0 <= q < |w'.log|
      ensures Sent(w', q) || Held(w', q)
    {
      assert Sent(w, q) || Held(w, q);
    }
  }

  lemma {:induction false} RunKeepsInv(writers: nat, clients: nat, events: seq<Event>)
    ensures Inv(Run(Init(writers, clients), events))
  {
    if events != [] {
      RunKeepsInv(writers, clients, events[..|events| - 1]);
      StepKeepsInv(Run(Init(writers, clients), events[..|events| - 1]), events[|events| - 1]);
    }
  }

  // ── Late joiners ────────────────────────────────────────────────────────

  /** A late joiner misses nothing.  For every client with a snapshot and every publication
      made so far, one of three holds: its broadcast is still to come; its broadcast came
      after the subscription, so it is (or was) in the client's receiver; or the snapshot
      was taken after the insertion and holds that publication or a later one of its tab. */
  lemma LateJoinerMissesNothing(writers: nat, clients: nat, events: seq<Event>, c: nat, p: nat)
    requires c < |Run(Init(writers, clients), events).clients|
    requires Run(Init(writers, clients), events).clients[c].Live?
    requires p < |Run(Init(writers, clients), events).log|
    ensures var w := Run(Init(writers, clients), events);
            var client := w.clients[c];
            && client.from <= |w.sent| && client.snapAt <= |w.log|
            && (|| (Held(w, p) && !Sent(w, p))
                || p in w.sent[client.from..]
                || (&& p < client.snapAt
                    && Latest(w.log[..client.snapAt], w.log[p].tab).Some?
                    && p <= Latest(w.log[..client.snapAt], w.log[p].tab).value))
  {
    var w := Run(Init(writers, clients), events);
    var client := w.clients[c];
    RunKeepsInv(writers, clients, events);
    if Sent(w, p) {
      var k :| 0 <= k < |w.sent| && w.sent[k] == p;
      if client.from <= k {
        assert w.sent[client.from..][k - client.from] == p;
      } else {
        assert w.log[..client.snapAt][p] == w.log[p];
        LatestIsLast(w.log[..client.snapAt], w.log[p].tab);
      }
    } else {
      assert Held(w, p);
    }
  }

  /** Everything published is broadcast, and the client has received all that the channel kept for it. */
  predicate Quiet(w: World, c: nat) {
    && (forall i :: 0 <= i < |w.writers| ==> w.writers[i].Idle?)
    && c < |w.clients|
    && w.clients[c].Live? && w.clients[c].cursor == |w.sent|
  }

  /** The last broadcast for `tab` carries its last insertion. */
  predicate InOrderAtTheEnd(w: World, tab: string)
    requires WellFormed(w)
  {
    LastSent(w.log, w.sent, tab) == Latest(w.log, tab)
  }

  /** The position of the last broadcast for `tab`. */
  function LastAt(log: seq<Publication>, sent: seq<nat>, tab: string): (r: Option<nat>)
    requires forall k :: 0 <= k < |sent| ==> sent[k] < |log|
    ensures r.Some? ==> r.value < |sent| && log[sent[r.value]].tab == tab
    ensures LastSent(log, sent, tab) == if r.Some? then Some(sent[r.value]) else None
    ensures forall k :: (r.None? || r.value < k) && 0 <= k < |sent| ==> log[sent[k]].tab != tab
  {
    if sent == [] then None
    else if log[sent[|sent| - 1]].tab == tab then Some(|sent| - 1)
    else LastAt(log, sent[..|sent| - 1], tab)
  }

  /** The client's screen and the catalog have the same grid for `tab`, or neither has one. */
  predicate Agree(shown: map<string, Grid>, grids: map<string, Grid>, tab: string) {
    && (tab in shown <==> tab in grids)
    && (tab in grids ==> shown[tab] == grids[tab])
  }

  /** Exactly when a client that has caught up shows the grid of the catalog, whether it ever lagged
      or not: nothing of that tab was broadcast since it subscribed; or it received the last
      broadcast of the tab, and that carries the grid the catalog holds; or the channel dropped
      that broadcast, and the grid of the publication it still shows is the same. */
  lemma ShowsLatestExactlyWhen(writers: nat, clients: nat, events: seq<Event>, c: nat, tab: string)
    requires Quiet(Run(Init(writers, clients), events), c)
    ensures var w := Run(Init(writers, clients), events);
            var client := w.clients[c];
            var last := LastAt(w.log, w.sent, tab);
            && Positions(w, client)
            && (Agree(client.shown, w.grids, tab) <==>
                  || last.None? || last.value < client.from
                  || (&& tab in w.grids
                      && if last.value in client.got then w.log[w.sent[last.value]].entries == w.grids[tab]
                         else
                           var stale := ShownPub(w, client, tab);
                           stale.Some? && stale.value < |w.log| && w.log[stale.value].entries == w.grids[tab]))
  {
    var w := Run(Init(writers, clients), events);
    var client := w.clients[c];
    var last := LastAt(w.log, w.sent, tab);
    RunKeepsInv(writers, clients, events);
    assert ClientInv(w, client);
    LatestIsLast(w.log, tab);
    if last.None? || last.value < client.from {
      AllBeforeSnapshot(w, client, tab);
    }
    LastReceivedIsShown(w, client, tab);
  }

  lemma LastReceivedIsShown(w: World, client: Client, tab: string)
    requires WellFormed(w) && client.Live? && Positions(w, client)
    ensures var last := LastAt(w.log, w.sent, tab);
            && (last.None? || last.value < client.from ==> ShownPub(w, client, tab) == Latest(w.log[..client.snapAt], tab))
            && (last.Some? && last.value in client.got ==> ShownPub(w, client, tab) == Some(w.sent[last.value]))
  {
    LastGotIsLast(w, client.got, tab);
  }

  /** The channel drops nothing that fewer than 64 later broadcasts follow: a client that has caught up
      has received every one of the last 64 since it subscribed. */
  lemma RecentBroadcastsAreReceived(writers: nat, clients: nat, events: seq<Event>, c: nat, k: nat)
    requires Quiet(Run(Init(writers, clients), events), c)
    requires var w := Run(Init(writers, clients), events);
             w.clients[c].from <= k < |w.sent| && |w.sent| - 64 <= k
    ensures k in Run(Init(writers, clients), events).clients[c].got
  {
    RunKeepsInv(writers, clients, events);
    assert ClientInv(Run(Init(writers, clients), events), Run(Init(writers, clients), events).clients[c]);
  }

  /** And it drops the rest: a client that is more than 64 messages behind gets nothing by its next
      receive, and the oldest of the last 64 by the one after. */
  lemma LaggedReceiverSkips(w: World, c: nat)
    requires WellFormed(w) && c < |w.clients| && w.clients[c].Live?
    requires 64 < |w.sent| - w.clients[c].cursor
    ensures var w' := Step(w, Receive(c));
            var w'' := Step(w', Receive(c));
            var p := w.log[w.sent[|w.sent| - 64]];
            && |w'.clients| == |w''.clients| == |w.clients|
            && w'.clients[c].Live? && w''.clients[c].Live?
            && w'.clients[c].got == w.clients[c].got && w'.clients[c].shown == w.clients[c].shown
            && w''.clients[c].got == w.clients[c].got + [|w.sent| - 64]
            && w''.clients[c].shown == w.clients[c].shown[p.tab := p.entries]
  {
    assert CAPACITY == 64;
  }

  // ── Where a subscription begins ─────────────────────────────────────────

  /** The client subscribed when `n` messages had been broadcast, and has received none of those. */
  predicate SubscribedAt(client: Client, n: nat) {
    match client
    case Away => false
    case Subscribed(from) => from == n
    case Live(from, _, cursor, _, got) => from == n <= cursor && forall i :: 0 <= i < |got| ==> n <= got[i]
  }

  lemma {:induction false} StaysSubscribedAt(w: World, events: seq<Event>, c: nat, n: nat)
    requires WellFormed(w) && c < |w.clients| && SubscribedAt(w.clients[c], n)
    ensures |Run(w, events).clients| == |w.clients| && SubscribedAt(Run(w, events).clients[c], n)
    ensures w.clients[c].Live? ==> Run(w, events).clients[c].Live?
    ensures w.log <= Run(w, events).log && w.sent <= Run(w, events).sent
  {
    if events != [] {
      StaysSubscribedAt(w, events[..|events| - 1], c, n);
    }
  }

  lemma {:induction false} RunOn(w: World, events: seq<Event>, e: Event, after: seq<Event>)
    requires WellFormed(w)
    ensures Run(w, events + [e] + after) == Run(Step(Run(w, events), e), after)
  {
    assert (events + [e])[..|events|] == events;
    RunConcat(w, events + [e], after);
  }

  /** A subscription begins where the broadcast history ends: in every run, a client receives nothing
      that was broadcast before it subscribed; and once a receive brings nothing more, it has
      received everything broadcast since, but for what 64 or more later broadcasts pushed out. */
  lemma SubscriptionBeginsHere(writers: nat, clients: nat, before: seq<Event>, after: seq<Event>, c: nat)
    requires c < |Run(Init(writers, clients), before).clients|
    requires Run(Init(writers, clients), before).clients[c] == Away
    ensures var n := |Run(Init(writers, clients), before).sent|;
            var w := Run(Init(writers, clients), before + [Subscribe(c)] + after);
            && c < |w.clients| && w.clients[c] != Away
            && (w.clients[c].Live? ==>
                  && (forall i :: 0 <= i < |w.clients[c].got| ==> n <= w.clients[c].got[i] < |w.sent|)
                  && (Step(w, Receive(c)) == w ==>
                        forall k :: n <= k < |w.sent| && |w.sent| - 64 <= k ==> k in w.clients[c].got))
  {
    var v := Run(Init(writers, clients), before);
    var w := Run(Init(writers, clients), before + [Subscribe(c)] + after);
    RunOn(Init(writers, clients), before, Subscribe(c), after);
    StaysSubscribedAt(Step(v, Subscribe(c)), after, c, |v.sent|);
    RunKeepsInv(writers, clients, before + [Subscribe(c)] + after);
    assert ClientInv(w, w.clients[c]);
    if w.clients[c].Live? && Step(w, Receive(c)) == w {
      assert ReceiveOne(w, w.clients[c]) == w.clients[c];
    }
  }

  lemma {:induction false} ShownStays(w: World, events: seq<Event>, c: nat, tab: string, n: nat)
    requires WellFormed(w) && c < |w.clients| && w.clients[c].Live? && SubscribedAt(w.clients[c], n)
    requires var w' := Run(w, events); forall k :: n <= k < |w'.sent| ==> w'.log[w'.sent[k]].tab != tab
    ensures |Run(w, events).clients| == |w.clients| && Run(w, events).clients[c].Live?
    ensures Agree(Run(w, events).clients[c].shown, w.clients[c].shown, tab)
  {
    StaysSubscribedAt(w, events, c, n);
    if events != [] {
      var before, e := events[..|events| - 1], events[|events| - 1];
      var v, w' := Run(w, before), Run(w, events);
      StaysSubscribedAt(w, before, c, n);
      StaysSubscribedAt(v, [e], c, n);
      assert [e][..0] == [] && Run(v, [e]) == w';
      forall k | n <= k < |v.sent|
        ensures v.log[v.sent[k]].tab != tab
      {
        assert w'.sent[k] == v.sent[k] && w'.log[w'.sent[k]] == v.log[v.sent[k]];
      }
      ShownStays(w, before, c, tab, n);
    }
  }

  /** So no broadcast made before the subscription ever replaces a snapshot grid: as long as nothing of
      the tab is broadcast after it, the client shows what the catalog held at its snapshot. */
  lemma SnapshotGridStays(writers: nat, clients: nat, before: seq<Event>, middle: seq<Event>, after: seq<Event>,
                          c: nat, tab: string)
    requires c < |Run(Init(writers, clients), before).clients|
    requires Run(Init(writers, clients), before).clients[c] == Away
    requires var v := Run(Init(writers, clients), before + [Subscribe(c)] + middle);
             |v.clients| == |Run(Init(writers, clients), before).clients| && !v.clients[c].Live?
    requires var w := Run(Init(writers, clients), before + [Subscribe(c)] + middle + [Snapshot(c)] + after);
             forall k :: |Run(Init(writers, clients), before).sent| <= k < |w.sent| ==> w.log[w.sent[k]].tab != tab
    ensures var v := Run(Init(writers, clients), before + [Subscribe(c)] + middle);
            var w := Run(Init(writers, clients), before + [Subscribe(c)] + middle + [Snapshot(c)] + after);
            c < |w.clients| && w.clients[c].Live? && Agree(w.clients[c].shown, v.grids, tab)
  {
    var w0 := Init(writers, clients);
    var n := |Run(w0, before).sent|;
    var v := Run(w0, before + [Subscribe(c)] + middle);
    RunOn(w0, before, Subscribe(c), middle);
    StaysSubscribedAt(Step(Run(w0, before), Subscribe(c)), middle, c, n);
    RunOn(w0, before + [Subscribe(c)] + middle, Snapshot(c), after);
    ShownStays(Step(v, Snapshot(c)), after, c, tab, n);
  }

  /** If nothing of `tab` was broadcast after the subscription, the snapshot has its latest. */
  lemma AllBeforeSnapshot(w: World, client: Client, tab: string)
    requires Inv(w) && client.Live? && ClientInv(w, client)
    requires forall i :: 0 <= i < |w.writers| ==> w.writers[i].Idle?
    requires forall k :: client.from <= k < |w.sent| ==> w.log[w.sent[k]].tab != tab
    ensures Latest(w.log[..client.snapAt], tab) == Latest(w.log, tab)
  {
    var early := w.log[..client.snapAt];
    LatestIsLast(w.log, tab);
    LatestIsLast(early, tab);
    if Latest(w.log, tab).Some? {
      var p := Latest(w.log, tab).value;
      assert Sent(w, p) || Held(w, p);
      var k :| 0 <= k < |w.sent| && w.sent[k] == p;
      assert early[p] == w.log[p];
    }
  }

  // ── One writer per tab ──────────────────────────────────────────────────

  /** `e` is the insertion of an idle writer. */
  predicate Begins(w: World, e: Event) {
    e.Insert? && e.writer < |w.writers| && w.writers[e.writer].Idle?
  }

  /** No publication of a tab starts while another writer still holds one of that tab. */
  predicate OneWriterPerTab(w: World, events: seq<Event>)
    requires WellFormed(w)
  {
    events == [] ||
    (&& OneWriterPerTab(w, events[..|events| - 1])
     && var v := Run(w, events[..|events| - 1]);
        Begins(v, events[|events| - 1]) ==>
          forall i :: 0 <= i < |v.writers| && v.writers[i].Holding? ==>
                        v.log[v.writers[i].pub].tab != events[|events| - 1].what.tab)
  }

  /** Writers that each keep to a tab of their own never overlap on one, however they
      interleave: this is how the start-up tasks are arranged, one task per tab. */
  lemma {:induction false} OwnTabsNeverOverlap(writers: nat, clients: nat, own: seq<string>, events: seq<Event>)
    requires |own| == writers && Distinct(own)
    requires forall k :: 0 <= k < |events| && events[k].Insert? && events[k].writer < writers ==>
                           events[k].what.tab == own[events[k].writer]
    ensures OneWriterPerTab(Init(writers, clients), events)
    ensures var w := Run(Init(writers, clients), events);
            && |w.writers| == writers
            && forall i :: 0 <= i < writers && w.writers[i].Holding? ==> w.log[w.writers[i].pub].tab == own[i]
  {
    if events != [] {
      OwnTabsNeverOverlap(writers, clients, own, events[..|events| - 1]);
    }
  }

  /** What one writer per tab keeps: the last publication of a tab is held, or was sent last. */
  ghost predicate TabOrdered(w: World)
    requires WellFormed(w)
  {
    && (forall tab :: InOrderAtTheEnd(w, tab) ||
                      (Latest(w.log, tab).Some? && Held(w, Latest(w.log, tab).value)))
    && (forall i :: 0 <= i < |w.writers| && w.writers[i].Holding? ==>
                      Latest(w.log, w.log[w.writers[i].pub].tab) == Some(w.writers[i].pub))
  }

  lemma InsertKeepsTabOrdered(w: World, i: nat, p: Publication)
    requires Inv(w) && TabOrdered(w) && i < |w.writers| && w.writers[i].Idle?
    requires forall j :: 0 <= j < |w.writers| && w.writers[j].Holding? ==> w.log[w.writers[j].pub].tab != p.tab
    ensures TabOrdered(Step(w, Insert(i, p)))
  {
    var w' := Step(w, Insert(i, p));
    assert w'.log[..|w.log|] == w.log;
    assert w'.writers[i] == Holding(|w.log|);
    forall tab
      ensures InOrderAtTheEnd(w', tab) || (Latest(w'.log, tab).Some? && Held(w', Latest(w'.log, tab).value))
    {
      LastSentGrows(w.log, [p], w.sent, tab);
      assert InOrderAtTheEnd(w, tab) || (Latest(w.log, tab).Some? && Held(w, Latest(w.log, tab).value));
      if tab != p.tab && !InOrderAtTheEnd(w, tab) {
        var j :| 0 <= j < |w.writers| && w.writers[j] == Holding(Latest(w.log, tab).value);
        assert w'.writers[j] == w.writers[j];
      }
    }
  }

  lemma BroadcastKeepsTabOrdered(w: World, i: nat)
    requires Inv(w) && TabOrdered(w) && i < |w.writers| && w.writers[i].Holding?
    ensures TabOrdered(Step(w, Broadcast(i)))
  {
    var w' := Step(w, Broadcast(i));
    assert w'.sent[..|w.sent|] == w.sent;
    forall tab
      ensures InOrderAtTheEnd(w', tab) || (Latest(w'.log, tab).Some? && Held(w', Latest(w'.log, tab).value))
    {
      assert InOrderAtTheEnd(w, tab) || (Latest(w.log, tab).Some? && Held(w, Latest(w.log, tab).value));
      if w.log[w.writers[i].pub].tab != tab && !InOrderAtTheEnd(w, tab) {
        var j :| 0 <= j < |w.writers| && w.writers[j] == Holding(Latest(w.log, tab).value);
        assert w'.writers[j] == w.writers[j];
      }
    }
  }

  lemma {:induction false} RunKeepsTabOrdered(writers: nat, clients: nat, events: seq<Event>)
    requires OneWriterPerTab(Init(writers, clients), events)
    ensures TabOrdered(Run(Init(writers, clients), events))
  {
    var w0 := Init(writers, clients);
    if events != [] {
      var before, e := events[..|events| - 1], events[|events| - 1];
      RunKeepsTabOrdered(writers, clients, before);
      RunKeepsInv(writers, clients, before);
      var v := Run(w0, before);
      var w := Step(v, e);
      match e {
        case Insert(i, p) =>
          if i < |v.writers| && v.writers[i].Idle? { InsertKeepsTabOrdered(v, i, p); }
        case Broadcast(i) =>
          if i < |v.writers| && v.writers[i].Holding? { BroadcastKeepsTabOrdered(v, i); }
        case _ =>
      }
      if !(e.Insert? || e.Broadcast?) {
        forall tab
          ensures InOrderAtTheEnd(w, tab) || (Latest(w.log, tab).Some? && Held(w, Latest(w.log, tab).value))
        {
          assert InOrderAtTheEnd(v, tab) || (Latest(v.log, tab).Some? && Held(v, Latest(v.log, tab).value));
          assert Latest(v.log, tab).Some? && Held(v, Latest(v.log, tab).value) ==> Held(w, Latest(v.log, tab).value);
        }
      }
    }
  }

  /** Since it subscribed, the client received the last broadcast of every tab. */
  ghost predicate LastsReceived(w: World, client: Client)
    requires WellFormed(w) && client.Live?
  {
    forall tab :: LastAt(w.log, w.sent, tab).Some? && client.from <= LastAt(w.log, w.sent, tab).value ==>
                    LastAt(w.log, w.sent, tab).value in client.got
  }

  /** With one writer per tab, snapshot plus received updates end at the final grids, unless the
      channel dropped the last broadcast of some tab. */
  lemma SnapshotPlusUpdatesIsFinal(writers: nat, clients: nat, events: seq<Event>, c: nat)
    requires OneWriterPerTab(Init(writers, clients), events)
    requires Quiet(Run(Init(writers, clients), events), c)
    requires LastsReceived(Run(Init(writers, clients), events), Run(Init(writers, clients), events).clients[c])
    ensures Run(Init(writers, clients), events).clients[c].shown == Run(Init(writers, clients), events).grids
  {
    var w := Run(Init(writers, clients), events);
    var client := w.clients[c];
    RunKeepsInv(writers, clients, events);
    RunKeepsTabOrdered(writers, clients, events);
    forall tab
      ensures tab in client.shown <==> tab in w.grids
      ensures tab in w.grids ==> client.shown[tab] == w.grids[tab]
    {
      assert InOrderAtTheEnd(w, tab);
      ShowsLatestExactlyWhen(writers, clients, events, c, tab);
      assert Agree(client.shown, w.grids, tab);
    }
  }

  /** In particular for a client that never lagged. */
  lemma FinalWithoutLag(writers: nat, clients: nat, events: seq<Event>, c: nat)
    requires OneWriterPerTab(Init(writers, clients), events)
    requires Quiet(Run(Init(writers, clients), events), c)
    requires var client := Run(Init(writers, clients), events).clients[c];
             forall k :: client.from <= k < client.cursor ==> k in client.got
    ensures Run(Init(writers, clients), events).clients[c].shown == Run(Init(writers, clients), events).grids
  {
    SnapshotPlusUpdatesIsFinal(writers, clients, events, c);
  }

  /** And for one that lagged, if every tab broadcast since it subscribed is among the last 64 broadcasts. */
  lemma FinalAfterLag(writers: nat, clients: nat, events: seq<Event>, c: nat)
    requires OneWriterPerTab(Init(writers, clients), events)
    requires Quiet(Run(Init(writers, clients), events), c)
    requires var w := Run(Init(writers, clients), events);
             forall k :: w.clients[c].from <= k < |w.sent| ==>
               exists l :: k <= l < |w.sent| && |w.sent| - 64 <= l && w.log[w.sent[l]].tab == w.log[w.sent[k]].tab
    ensures Run(Init(writers, clients), events).clients[c].shown == Run(Init(writers, clients), events).grids
  {
    var w := Run(Init(writers, clients), events);
    forall tab | LastAt(w.log, w.sent, tab).Some? && w.clients[c].from <= LastAt(w.log, w.sent, tab).value
      ensures LastAt(w.log, w.sent, tab).value in w.clients[c].got
    {
      RecentBroadcastsAreReceived(writers, clients, events, c, LastAt(w.log, w.sent, tab).value);
    }
    SnapshotPlusUpdatesIsFinal(writers, clients, events, c);
  }

  const OLD := Publication("movies", ["old"])
  const NEW := Publication("movies", ["new"])

  const JOINED := World(map[], [], [], [Idle, Idle], [Live(0, 0, 0, map[], [])])

  /** A client that has joined, and both publications out in the opposite order. */
  const OVERLAPPED := JOINED.(grids := map["movies" := ["new"]], log := [OLD, NEW], sent := [1, 0])

  lemma Joining()
    ensures Run(Init(2, 1), [Subscribe(0), Snapshot(0)]) == JOINED
  {
    var w0 := World(map[], [], [], [Idle, Idle], [Away]);
    assert Init(2, 1) == w0;
    RunChain(w0, [Subscribe(0), Snapshot(0)], [w0, w0.(clients := [Subscribed(0)]), JOINED]);
  }

  /** Both writers have inserted and neither has broadcast. */
  const BOTH_HELD := JOINED.(grids := map["movies" := ["new"]], log := [OLD, NEW], writers := [Holding(0), Holding(1)])

  lemma OverlappingInsertions()
    ensures Run(JOINED, [Insert(0, OLD), Insert(1, NEW)]) == BOTH_HELD
  {
    var w1 := JOINED.(grids := map["movies" := ["old"]], log := [OLD], writers := [Holding(0), Idle]);
    RunChain(JOINED, [Insert(0, OLD), Insert(1, NEW)], [JOINED, w1, BOTH_HELD]);
  }

  lemma BroadcastsInOppositeOrder()
    ensures Run(BOTH_HELD, [Broadcast(1), Broadcast(0)]) == OVERLAPPED
  {
    var w1 := BOTH_HELD.(sent := [1], writers := [Holding(0), Idle]);
    RunChain(BOTH_HELD, [Broadcast(1), Broadcast(0)], [BOTH_HELD, w1, OVERLAPPED]);
  }

  /** Two overlapping publications of one tab, broadcast in the opposite order. */
  lemma OverlappingPublications()
    ensures Run(JOINED, [Insert(0, OLD), Insert(1, NEW)] + [Broadcast(1), Broadcast(0)]) == OVERLAPPED
  {
    OverlappingInsertions();
    BroadcastsInOppositeOrder();
    RunConcat(JOINED, [Insert(0, OLD), Insert(1, NEW)], [Broadcast(1), Broadcast(0)]);
  }

  lemma ReceivingBoth()
    ensures Run(OVERLAPPED, [Receive(0), Receive(0)])
         == OVERLAPPED.(clients := [Live(0, 0, 2, map["movies" := ["old"]], [0, 1])])
  {
    var c := Live(0, 0, 0, map[], []);
    var w1 := OVERLAPPED.(clients := [Live(0, 0, 1, map["movies" := ["new"]], [0])]);
    var w2 := OVERLAPPED.(clients := [Live(0, 0, 2, map["movies" := ["old"]], [0, 1])]);
    assert ReceiveOne(OVERLAPPED, c) == w1.clients[0] && ReceiveOne(w1, w1.clients[0]) == w2.clients[0] by {
      assert ReceiveOne(OVERLAPPED, c).shown == map["movies" := ["new"]];
      assert ReceiveOne(w1, w1.clients[0]).shown == map["movies" := ["old"]];
    }
    RunChain(OVERLAPPED, [Receive(0), Receive(0)], [OVERLAPPED, w1, w2]);
  }

  /** With two writers on one tab the client can be left on the older grid for good. */
  lemma OverlappingWritersLeaveStaleGrid()
    ensures var events := [Subscribe(0), Snapshot(0)] + ([Insert(0, OLD), Insert(1, NEW)] + [Broadcast(1), Broadcast(0)]);
            var w := Run(Init(2, 1), events + [Receive(0), Receive(0)]);
            && Quiet(w, 0)
            && w.grids == map["movies" := ["new"]]
            && w.clients[0].shown == map["movies" := ["old"]]
            && w.clients[0].got == [0, 1]
  {
    var publish := [Insert(0, OLD), Insert(1, NEW)] + [Broadcast(1), Broadcast(0)];
    Joining();
    OverlappingPublications();
    ReceivingBoth();
    RunConcat(Init(2, 1), [Subscribe(0), Snapshot(0)], publish);
    RunConcat(Init(2, 1), [Subscribe(0), Snapshot(0)] + publish, [Receive(0), Receive(0)]);
  }

  lemma {:induction false} RunChain(w: World, events: seq<Event>, worlds: seq<World>)
    requires |worlds| == |events| + 1 && worlds[0] == w
    requires forall k :: 0 <= k < |worlds| ==> WellFormed(worlds[k])
    requires forall k :: 0 <= k < |events| ==> Step(worlds[k], events[k]) == worlds[k + 1]
    ensures Run(w, events) == worlds[|events|]
  {
    if events != [] {
      RunChain(w, events[..|events| - 1], worlds[..|events|]);
    }
  }

  lemma {:induction false} RunConcat(w: World, a: seq<Event>, b: seq<Event>)
    requires WellFormed(w)
    ensures Run(w, a + b) == Run(Run(w, a), b)
  {
    if b == [] {
      assert a + b == a;
    } else {
      assert (a + b)[..|a + b| - 1] == a + b[..|b| - 1];
      RunConcat(w, a, b[..|b| - 1]);
    }
  }

  // ── The object ──────────────────────────────────────────────────────────

  /** Applying updates in order, each replacing the grid of its tab. */
  function Applied(shown: map<string, Grid>, updates: seq<Publication>): map<string, Grid> {
    if updates == [] then shown
    else Applied(shown, updates[..|updates| - 1])[updates[|updates| - 1].tab := updates[|updates| - 1].entries]
  }

  class Catalog {
    var grids: map<string, Grid>
    var log: seq<Publication>
    var sent: seq<nat>
    var writers: seq<Writer>
    var clients: seq<Client>

    function State(): World
      reads this
    {
      World(grids, log, sent, writers, clients)
    }

    constructor (writers: nat, clients: nat)
      ensures State() == Init(writers, clients)
    {
      this.grids, this.log, this.sent := map[], [], [];
      this.writers := seq(writers, _ => Idle);
      this.clients := seq(clients, _ => Away);
    }

    /** The insertion of `init_tab`, `refresh_tab` and its progress callback. */
    method InsertGrid(writer: nat, p: Publication)
      requires WellFormed(State()) && writer < |writers| && writers[writer].Idle?
      modifies this
      ensures State() == Step(old(State()), Insert(writer, p))
    {
      writers := writers[writer := Holding(|log|)];
      grids := grids[p.tab := p.entries];
      log := log + [p];
    }

    method EmitUpdate(writer: nat)
      requires WellFormed(State()) && writer < |writers| && writers[writer].Holding?
      modifies this
      ensures State() == Step(old(State()), Broadcast(writer))
    {
      sent := sent + [writers[writer].pub];
      writers := writers[writer := Idle];
    }

    /** One update per tab, in the map's arbitrary order; applied to an empty screen they are the
        grids of this moment. */
    method SnapshotAll() returns (updates: seq<Publication>)
      ensures |updates| == |grids|
      ensures Applied(map[], updates) == grids
    {
      updates := [];
      var rest := grids.Keys;
      while rest != {}
        invariant rest <= grids.Keys
        invariant |updates| + |rest| == |grids|
        invariant Applied(map[], updates) == map tab | tab in grids && tab !in rest :: grids[tab]
        decreases |rest|
      {
        var tab :| tab in rest;
        var longer := updates + [Publication(tab, grids[tab])];
        assert longer[..|longer| - 1] == updates;
        updates := longer;
        rest := rest - {tab};
      }
    }

    method Subscribe(c: nat)
      requires WellFormed(State()) && c < |clients| && clients[c].Away?
      modifies this
      ensures State() == Step(old(State()), Event.Subscribe(c))
    {
      clients := clients[c := Subscribed(|sent|)];
    }

    /** The replay of `run_ipc_loop`: the snapshot's updates are shown one after the other. */
    method Replay(c: nat)
      requires WellFormed(State()) && c < |clients| && clients[c].Subscribed?
      modifies this
      ensures State() == Step(old(State()), Snapshot(c))
    {
      var updates := SnapshotAll();
      var shown: map<string, Grid> := map[];
      for i := 0 to |updates|
        invariant shown == Applied(map[], updates[..i])
      {
        assert updates[..i + 1][..i] == updates[..i];
        shown := shown[updates[i].tab := updates[i].entries];
      }
      assert updates[..|updates|] == updates;
      clients := clients[c := Live(clients[c].from, |log|, clients[c].from, shown, [])];
    }
  }
}
