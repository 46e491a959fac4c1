/**
 Request/response correlation of the Roon client.  Any number of calls to `request`, the
 read task, send failures, timeouts, reconnects and dropped futures interleave freely; an
 event that is not enabled leaves the world unchanged.
 */
module RoonCorrelation {
  import opened Prelude

  const TWO_32 := 0x1_0000_0000
  const U32_MAX := 0xFFFF_FFFF

  /** A message of the server that carries a `request_id`, which is 64 bits wide on the wire. */
  datatype Response = Response(requestId: nat, body: string)

  datatype Outcome =
    | Answer(response: Response)
    | NotConnected
    | SendFailed
    | ChannelDropped
    | TimedOut

  /** Where one call to `request` stands; `id` is the request id it drew. */
  datatype Call =
    | Fresh
    | Drawn(id: nat)                       // about to read the socket sender
    | Cleared(id: nat)                     // has a sender, about to insert into `pending`
    | Sending(id: nat)                     // inserted, about to send
    | Awaiting(id: nat)                    // sent, awaiting its oneshot under the timeout
    | Leaving(id: nat, outcome: Outcome)   // about to remove its id from `pending`
    | Returned(id: nat, outcome: Outcome)
    | Abandoned(id: nat)                   // its future was dropped at an await point

  /** A call's oneshot channel as its receiver sees it. */
  datatype Slot = Empty | Filled(response: Response) | Dropped

  /** `pending` maps a request id to the call whose oneshot sender it holds. */
  datatype World = World(connected: bool, pending: map<nat, nat>, calls: seq<Call>, slots: seq<Slot>)

  datatype Event =
    | Connect
    | Disconnect
    | Draw(call: nat, nanos: nat)
    | ReadSender(call: nat)
    | Insert(call: nat)
    | Send(call: nat, accepted: bool)
    | Poll(call: nat)
    | Expire(call: nat)                    // the receiver is polled before the timer
    | Remove(call: nat)
    | Cancel(call: nat)
    | Route(response: Response)

  function Init(calls: nat): World {
    World(false, map[], seq(calls, _ => Fresh), seq(calls, _ => Empty))
  }

  /** `rand_u32`: the clock's nanoseconds modulo `u32::MAX`. */
  function DrawId(nanos: nat): (id: nat)
    ensures id < 0xFFFF_FFFF && (nanos - id) % 0xFFFF_FFFF == 0
  {
    nanos % U32_MAX
  }

  /** `id as u32` of the read task. */
  function Key(r: Response): nat { r.requestId % TWO_32 }

  /** Dropping the sender stored under `id`, if any. */
  function DropSender(pending: map<nat, nat>, slots: seq<Slot>, id: nat): seq<Slot> {
    if id in pending && pending[id] < |slots| && slots[pending[id]] == Empty
    then slots[pending[id] := Dropped] else slots
  }

  function InsertStep(w: World, c: nat): World
    requires c < |w.calls| && w.calls[c].Cleared?
  {
    var id := w.calls[c].id;
    w.(pending := w.pending[id := c],
       slots := DropSender(w.pending, w.slots, id),
       calls := w.calls[c := Sending(id)])
  }

  function RemoveStep(w: World, c: nat): World
    requires c < |w.calls| && w.calls[c].Leaving?
  {
    var id := w.calls[c].id;
    w.(pending := w.pending - {id},
       slots := DropSender(w.pending, w.slots, id),
       calls := w.calls[c := Returned(id, w.calls[c].outcome)])
  }

  /** The read task under the lock: take the sender out and send. */
  function RouteStep(w: World, r: Response): World {
    var id := Key(r);
    if id in w.pending then
      w.(pending := w.pending - {id},
         slots := if w.pending[id] < |w.slots| && w.slots[w.pending[id]] == Empty
                  then w.slots[w.pending[id] := Filled(r)] else w.slots)
    else w
  }

  function PollStep(w: World, c: nat): World
    requires c < |w.calls| && w.calls[c].Awaiting? && c < |w.slots|
  {
    var id := w.calls[c].id;
    match w.slots[c]
    case Empty => w
    case Filled(r) => w.(calls := w.calls[c := Returned(id, Answer(r))])
    case Dropped => w.(calls := w.calls[c := Leaving(id, ChannelDropped)])
  }

  function Step(w: World, e: Event): World {
    match e
    case Connect => w.(connected := true)
    case Disconnect => w.(connected := false)
    case Route(r) => RouteStep(w, r)
    case Draw(c, nanos) =>
      if c < |w.calls| && w.calls[c].Fresh? then w.(calls := w.calls[c := Drawn(DrawId(nanos))]) else w
    case ReadSender(c) =>
      if c < |w.calls| && w.calls[c].Drawn?
      then var id := w.calls[c].id;
           w.(calls := w.calls[c := if w.connected then Cleared(id) else Returned(id, NotConnected)])
      else w
    case Insert(c) =>
      if c < |w.calls| && w.calls[c].Cleared? then InsertStep(w, c) else w
    case Send(c, accepted) =>
      if c < |w.calls| && w.calls[c].Sending?
      then var id := w.calls[c].id;
           w.(calls := w.calls[c := if accepted then Awaiting(id) else Leaving(id, SendFailed)])
      else w
    case Poll(c) =>
      if c < |w.calls| && w.calls[c].Awaiting? && c < |w.slots| then PollStep(w, c) else w
    case Expire(c) =>
      if c < |w.calls| && w.calls[c].Awaiting? && c < |w.slots| && w.slots[c] == Empty
      then w.(calls := w.calls[c := Leaving(w.calls[c].id, TimedOut)]) else w
    case Remove(c) =>
      if c < |w.calls| && w.calls[c].Leaving? then RemoveStep(w, c) else w
    case Cancel(c) =>
      if c < |w.calls| && InFlight(w.calls[c]) then w.(calls := w.calls[c := Abandoned(w.calls[c].id)]) else w
  }

  function Run(w: World, events: seq<Event>): World {
    if events == [] then w else Step(Run(w, events[..|events| - 1]), events[|events| - 1])
  }

  /** Between drawing an id and returning. */
  predicate InFlight(c: Call) {
    c.Drawn? || c.Cleared? || c.Sending? || c.Awaiting? || c.Leaving?
  }

  /** Its sender may be in `pending`. */
  predicate Registered(c: Call) {
    c.Sending? || c.Awaiting? || c.Leaving? || c.Abandoned?
  }

  /** Inserted and still interested in its answer. */
  predicate Expecting(c: Call) {
    c.Sending? || c.Awaiting?
  }

  // ── Invariant ───────────────────────────────────────────────────────────

  /** The sender of call `c` is in `pending`. */
  predicate HoldsSender(w: World, c: nat)
    requires c < |w.calls| && !w.calls[c].Fresh?
  {
    w.calls[c].id in w.pending && w.pending[w.calls[c].id] == c
  }

  ghost predicate CallInv(w: World, c: nat)
    requires c < |w.calls| == |w.slots|
  {
    var call := w.calls[c];
    && (!call.Fresh? ==> call.id < TWO_32)
    && (call.Fresh? || call.Drawn? || call.Cleared? ==> w.slots[c] == Empty)
    && (w.slots[c].Filled? ==> Key(w.slots[c].response) == call.id)
    && (call.Returned? && call.outcome.Answer? ==> w.slots[c] == Filled(call.outcome.response))
    && (call.Leaving? ==> !call.outcome.Answer?)
    && ((Expecting(call) || call.Leaving?) && w.slots[c] == Empty ==> HoldsSender(w, c))
  }

  ghost predicate Inv(w: World) {
    && |w.calls| == |w.slots|
    && (forall c :: 0 <= c < |w.calls| ==> CallInv(w, c))
    && (forall id :: id in w.pending ==>
          var c := w.pending[id];
          c < |w.calls| && Registered(w.calls[c]) && w.calls[c].id == id && w.slots[c] == Empty)
  }

  lemma StepKeepsInv(w: World, e: Event)
    requires Inv(w)
    ensures Inv(Step(w, e))
  {
    match e {
      case Insert(c) =>
        if c < |w.calls| && w.calls[c].Cleared? { InsertKeepsInv(w, c); }
      case Remove(c) =>
        if c < |w.calls| && w.calls[c].Leaving? { RemoveKeepsInv(w, c); }
      case Route(r) => RouteKeepsInv(w, r);
      case _ =>
        OwnStepKeepsInv(w, e);
    }
  }

  lemma OwnStepKeepsInv(w: World, e: Event)
    requires Inv(w) && !e.Insert? && !e.Remove? && !e.Route?
    ensures Inv(Step(w, e))
  {
    var w' := Step(w, e);
    if e.Connect? || e.Disconnect? {
      SameCallsKeepInv(w, w');
    } else {
      var c := e.call;
      if w' != w {
        assert CallInv(w, c);
        MoveKeepsInv(w, c, w'.calls[c]);
      }
    }
  }

  lemma SameCallsKeepInv(w: World, w': World)
    requires Inv(w) && w' == w.(connected := w'.connected)
    ensures Inv(w')
  {
    forall c | 0 <= c < |w'.calls|
      ensures CallInv(w', c)
    {
      assert CallInv(w, c);
    }
  }

  /** One call moves on without touching `pending` or any channel. */
  lemma MoveKeepsInv(w: World, c: nat, moved: Call)
    requires Inv(w) && c < |w.calls| && !moved.Fresh? && moved.id < TWO_32
    requires !w.calls[c].Fresh? ==> moved.id == w.calls[c].id
    requires moved.Drawn? || moved.Cleared? ==> w.slots[c] == Empty
    requires moved.Returned? && moved.outcome.Answer? ==> w.slots[c] == Filled(moved.outcome.response)
    requires moved.Leaving? ==> !moved.outcome.Answer?
    requires Expecting(moved) || moved.Leaving? ==> Expecting(w.calls[c])
    requires Registered(w.calls[c]) && w.slots[c] == Empty ==> Registered(moved)
    ensures Inv(w.(calls := w.calls[c := moved]))
  {
    var w' := w.(calls := w.calls[c := moved]);
    forall d | 0 <= d < |w'.calls|
      ensures CallInv(w', d)
    {
      assert CallInv(w, d);
    }
  }

  lemma InsertKeepsInv(w: World, c: nat)
    requires Inv(w) && c < |w.calls| && w.calls[c].Cleared?
    ensures Inv(InsertStep(w, c))
  {
    var w' := InsertStep(w, c);
    forall d | 0 <= d < |w'.calls|
      ensures CallInv(w', d)
    {
      assert CallInv(w, d) && CallInv(w, c);
    }
    forall id | id in w'.pending
      ensures var d := w'.pending[id];
              d < |w'.calls| && Registered(w'.calls[d]) && w'.calls[d].id == id && w'.slots[d] == Empty
    {
      assert CallInv(w, c);
    }
  }

  lemma RemoveKeepsInv(w: World, c: nat)
    requires Inv(w) && c < |w.calls| && w.calls[c].Leaving?
    ensures Inv(RemoveStep(w, c))
  {
    var w' := RemoveStep(w, c);
    forall d | 0 <= d < |w'.calls|
      ensures CallInv(w', d)
    {
      assert CallInv(w, d);
    }
  }

  lemma RouteKeepsInv(w: World, r: Response)
    requires Inv(w)
    ensures Inv(RouteStep(w, r))
  {
    var w' := RouteStep(w, r);
    forall d | 0 <= d < |w'.calls|
      ensures CallInv(w', d)
    {
      assert CallInv(w, d);
    }
  }

  lemma {:induction false} RunKeepsInv(calls: nat, events: seq<Event>)
    ensures Inv(Run(Init(calls), events))
    ensures |Run(Init(calls), events).calls| == calls
  {
    if events != [] {
      RunKeepsInv(calls, events[..|events| - 1]);
      StepKeepsInv(Run(Init(calls), events[..|events| - 1]), events[|events| - 1]);
    }
  }

  // ── What callers get ────────────────────────────────────────────────────

  /** An `Ok` result answers the caller's own id modulo 2^32, whatever ids collide; it carries
      exactly that id if and only if the server's id fits in 32 bits. */
  lemma OkCarriesOwnId(calls: nat, events: seq<Event>, c: nat)
    requires c < calls
    ensures var w := Run(Init(calls), events);
            && |w.calls| == calls
            && (w.calls[c].Returned? && w.calls[c].outcome.Answer? ==>
                  var answered := w.calls[c].outcome.response.requestId;
                  && answered % 0x1_0000_0000 == w.calls[c].id
                  && (answered == w.calls[c].id <==> answered < 0x1_0000_0000))
  {
    RunKeepsInv(calls, events);
    assert CallInv(Run(Init(calls), events), c);
  }

  /** A server id that does not fit reaches the call whose id it is congruent to. */
  lemma WideIdIsMisrouted()
    ensures var w := Run(Init(1), [Connect, Draw(0, 7), ReadSender(0), Insert(0), Send(0, true),
                                   Route(Response(0x1_0000_0007, "other")), Poll(0)]);
            w.calls == [Returned(7, Answer(Response(0x1_0000_0007, "other")))]
  {
    var r := Response(0x1_0000_0007, "other");
    var w0 := World(false, map[], [Fresh], [Empty]);
    assert Init(1) == w0;
    var w1 := w0.(connected := true);
    var w2 := w1.(calls := [Drawn(7)]);
    var w3 := w1.(calls := [Cleared(7)]);
    var w4 := World(true, map[7 := 0], [Sending(7)], [Empty]);
    var w5 := w4.(calls := [Awaiting(7)]);
    var w6 := World(true, map[], [Awaiting(7)], [Filled(r)]);
    var w7 := w6.(calls := [Returned(7, Answer(r))]);
    assert Key(r) == 7;
    assert RouteStep(w5, r) == w6;
    RunChain(w0, [Connect, Draw(0, 7), ReadSender(0), Insert(0), Send(0, true), Route(r), Poll(0)],
             [w0, w1, w2, w3, w4, w5, w6, w7]);
  }

  /** How many responses the read task has handed to call `c`. */
  function Deliveries(calls: nat, events: seq<Event>, c: nat): nat {
    if events == [] then 0
    else
      var before := Run(Init(calls), events[..|events| - 1]);
      var e := events[|events| - 1];
      Deliveries(calls, events[..|events| - 1], c)
      + (if e.Route? && Key(e.response) in before.pending && before.pending[Key(e.response)] == c then 1 else 0)
  }

  lemma OnlyRoutingFills(w: World, e: Event, c: nat)
    requires Inv(w) && c < |w.slots|
    ensures |Step(w, e).slots| == |w.slots|
    ensures Step(w, e).slots[c].Filled? <==>
              w.slots[c].Filled? ||
              (e.Route? && Key(e.response) in w.pending && w.pending[Key(e.response)] == c)
    ensures w.slots[c].Filled? ==>
              !(e.Route? && Key(e.response) in w.pending && w.pending[Key(e.response)] == c)
  {
    assert CallInv(w, c);
  }

  /** Each request is answered at most once, and has been exactly when its oneshot is filled. */
  lemma {:induction false} AnsweredAtMostOnce(calls: nat, events: seq<Event>, c: nat)
    requires c < calls
    ensures var w := Run(Init(calls), events);
            |w.slots| == calls && Deliveries(calls, events, c) == if w.slots[c].Filled? then 1 else 0
  {
    RunKeepsInv(calls, events);
    if events != [] {
      AnsweredAtMostOnce(calls, events[..|events| - 1], c);
      RunKeepsInv(calls, events[..|events| - 1]);
      OnlyRoutingFills(Run(Init(calls), events[..|events| - 1]), events[|events| - 1], c);
    }
  }

  /** While a caller still expects its answer and its channel is intact, a response carrying its
      id reaches it and nobody else. */
  lemma ResponseReachesItsCaller(calls: nat, events: seq<Event>, c: nat, r: Response)
    requires c < calls
    ensures var w := Run(Init(calls), events);
            && |w.calls| == |w.slots| == calls
            && (Expecting(w.calls[c]) && w.slots[c] == Empty && Key(r) == w.calls[c].id ==>
                  Step(w, Route(r)).slots == w.slots[c := Filled(r)])
  {
    RunKeepsInv(calls, events);
    assert CallInv(Run(Init(calls), events), c);
  }

  /** Every key of `pending` belongs to a call that has not returned; so once every call has
      returned (none was dropped half-way) the map is empty, whatever ids collided. */
  lemma PendingBelongsToRunningCalls(calls: nat, events: seq<Event>)
    ensures var w := Run(Init(calls), events);
            && (forall id :: id in w.pending ==>
                  exists c :: 0 <= c < |w.calls| && Registered(w.calls[c]) && w.calls[c].id == id)
            && ((forall c :: 0 <= c < |w.calls| ==> w.calls[c].Fresh? || w.calls[c].Returned?) ==>
                  w.pending == map[])
  {
    var w := Run(Init(calls), events);
    RunKeepsInv(calls, events);
    forall id | id in w.pending
      ensures exists c :: 0 <= c < |w.calls| && Registered(w.calls[c]) && w.calls[c].id == id
    {
      assert Registered(w.calls[w.pending[id]]);
    }
    if w.pending != map[] {
      assert w.pending.Keys != {};
      var id :| id in w.pending;
      assert Registered(w.calls[w.pending[id]]);
    }
  }

  /** `e` is the insertion or the clean-up of another call with the same id. */
  predicate Clashes(w: World, e: Event, c: nat)
    requires c < |w.calls| && !w.calls[c].Fresh?
  {
    && (e.Insert? || e.Remove?)
    && e.call < |w.calls| && e.call != c
    && (if e.Insert? then w.calls[e.call].Cleared? else w.calls[e.call].Leaving?)
    && w.calls[e.call].id == w.calls[c].id
  }

  // ── Dropped futures ─────────────────────────────────────────────────────

  /** Dropping a call in flight leaves its sender in `pending` exactly when the call has inserted
      it and its channel is still undecided. */
  lemma DropLeaksExactlyWhen(w: World, c: nat)
    requires Inv(w) && c < |w.calls| && InFlight(w.calls[c])
    ensures var w' := Step(w, Cancel(c));
            && |w'.calls| == |w.calls| && w'.calls[c].Abandoned?
            && (HoldsSender(w', c) <==> Registered(w.calls[c]) && w.slots[c] == Empty)
  {
    assert CallInv(w, c);
  }

  /** `e` ends the leak of call `c`: a response with its id arrives, or another call with its id
      inserts or cleans up. */
  predicate EndsLeak(w: World, e: Event, c: nat)
    requires c < |w.calls| && !w.calls[c].Fresh?
  {
    (e.Route? && Key(e.response) == w.calls[c].id) || Clashes(w, e, c)
  }

  lemma LeakUnderRoute(w: World, r: Response, c: nat)
    requires Inv(w) && c < |w.calls| && w.calls[c].Abandoned?
    ensures RouteStep(w, r).calls == w.calls
    ensures HoldsSender(RouteStep(w, r), c) <==> HoldsSender(w, c) && Key(r) != w.calls[c].id
  {
  }

  lemma LeakUnderInsert(w: World, d: nat, c: nat)
    requires Inv(w) && c < |w.calls| && w.calls[c].Abandoned? && d < |w.calls| && w.calls[d].Cleared?
    ensures |InsertStep(w, d).calls| == |w.calls| && InsertStep(w, d).calls[c] == w.calls[c]
    ensures HoldsSender(InsertStep(w, d), c) <==> HoldsSender(w, c) && w.calls[d].id != w.calls[c].id
  {
  }

  lemma LeakUnderRemove(w: World, d: nat, c: nat)
    requires Inv(w) && c < |w.calls| && w.calls[c].Abandoned? && d < |w.calls| && w.calls[d].Leaving?
    ensures |RemoveStep(w, d).calls| == |w.calls| && RemoveStep(w, d).calls[c] == w.calls[c]
    ensures HoldsSender(RemoveStep(w, d), c) <==> HoldsSender(w, c) && w.calls[d].id != w.calls[c].id
  {
  }

  lemma LeakEndsExactlyWhen(w: World, e: Event, c: nat)
    requires Inv(w) && c < |w.calls| && w.calls[c].Abandoned?
    ensures var w' := Step(w, e);
            && |w'.calls| == |w.calls| && w'.calls[c] == w.calls[c]
            && (HoldsSender(w', c) <==> HoldsSender(w, c) && !EndsLeak(w, e, c))
  {
    match e {
      case Insert(d) =>
        if d < |w.calls| && w.calls[d].Cleared? { LeakUnderInsert(w, d, c); }
      case Remove(d) =>
        if d < |w.calls| && w.calls[d].Leaving? { LeakUnderRemove(w, d, c); }
      case Route(r) => LeakUnderRoute(w, r, c);
      case _ => assert Step(w, e).pending == w.pending;
    }
  }

  /** Over any continuation: the leaked sender is still there exactly when nothing in it ended the leak. */
  lemma {:induction false} LeakLastsExactlyWhile(w: World, events: seq<Event>, c: nat)
    requires Inv(w) && c < |w.calls| && w.calls[c].Abandoned? && HoldsSender(w, c)
    ensures var w' := Run(w, events);
            && Inv(w') && |w'.calls| == |w.calls| && w'.calls[c] == w.calls[c]
            && (HoldsSender(w', c) <==> NothingEndsLeak(w, events, c))
  {
    if events != [] {
      var before, e := events[..|events| - 1], events[|events| - 1];
      LeakLastsExactlyWhile(w, before, c);
      StepKeepsInv(Run(w, before), e);
      LeakEndsExactlyWhen(Run(w, before), e, c);
    }
  }

  predicate NothingEndsLeak(w: World, events: seq<Event>, c: nat) {
    events == [] ||
    (var v := Run(w, events[..|events| - 1]);
     && NothingEndsLeak(w, events[..|events| - 1], c)
     && c < |v.calls| && !v.calls[c].Fresh?
     && !EndsLeak(v, events[|events| - 1], c))
  }

  /** A run in which a caller dropped at its await leaves its sender behind. */
  lemma DroppedFutureLeaksItsKey()
    ensures var w := Run(Init(1), [Connect, Draw(0, 7), ReadSender(0), Insert(0), Send(0, true), Cancel(0)]);
            w.calls == [Abandoned(7)] && w.pending == map[7 := 0]
  {
    var w0 := World(false, map[], [Fresh], [Empty]);
    assert Init(1) == w0;
    var w1 := w0.(connected := true);
    var w2 := w1.(calls := [Drawn(7)]);
    var w3 := w1.(calls := [Cleared(7)]);
    var w4 := World(true, map[7 := 0], [Sending(7)], [Empty]);
    RunChain(w0, [Connect, Draw(0, 7), ReadSender(0), Insert(0), Send(0, true), Cancel(0)],
             [w0, w1, w2, w3, w4, w4.(calls := [Awaiting(7)]), w4.(calls := [Abandoned(7)])]);
  }

  // ── Colliding ids ───────────────────────────────────────────────────────

  /** No two calls in flight have drawn the same id. */
  predicate DistinctIds(w: World) {
    forall c, d :: 0 <= c < d < |w.calls| && InFlight(w.calls[c]) && InFlight(w.calls[d]) ==>
                     w.calls[c].id != w.calls[d].id
  }

  predicate AlwaysDistinct(calls: nat, events: seq<Event>) {
    DistinctIds(Run(Init(calls), events)) && (events == [] || AlwaysDistinct(calls, events[..|events| - 1]))
  }

  /** A call that expects an answer loses its sender exactly when another call in flight with the
      same id inserts its own or cleans up. */
  lemma SenderDroppedExactlyWhen(w: World, e: Event, c: nat)
    requires Inv(w) && c < |w.calls| && Expecting(w.calls[c]) && w.slots[c] != Dropped
    ensures |Step(w, e).slots| == |w.slots|
    ensures Step(w, e).slots[c] == Dropped <==> w.slots[c] == Empty && Clashes(w, e, c)
  {
    assert CallInv(w, c);
  }

  /** At some moment of the run another call clashed with `c` while it waited on an open channel. */
  predicate Clashed(calls: nat, events: seq<Event>, c: nat) {
    events != [] &&
    (|| Clashed(calls, events[..|events| - 1], c)
     || ClashesNow(Run(Init(calls), events[..|events| - 1]), events[|events| - 1], c))
  }

  predicate ClashesNow(w: World, e: Event, c: nat) {
    && c < |w.calls| && c < |w.slots|
    && Expecting(w.calls[c]) && w.slots[c] == Empty && Clashes(w, e, c)
  }

  /** What a past clash, or none, means for a call. */
  predicate ClashShows(call: Call, slot: Slot, clashed: bool) {
    && (call.Fresh? || call.Drawn? || call.Cleared? ==> !clashed)
    && (Expecting(call) ==> (slot == Dropped <==> clashed))
    && ((call.Leaving? || call.Returned?) && call.outcome != SendFailed ==>
          (call.outcome == ChannelDropped <==> clashed))
  }

  predicate OwnEvent(e: Event, c: nat) {
    !e.Connect? && !e.Disconnect? && !e.Route? && e.call == c
  }

  lemma OthersShowClash(w: World, e: Event, c: nat)
    requires Inv(w) && c < |w.calls| && !OwnEvent(e, c)
    ensures var w' := Step(w, e);
            && |w'.calls| == |w'.slots| == |w.calls| && w'.calls[c] == w.calls[c]
            && (Expecting(w.calls[c]) ==> (w'.slots[c] == Dropped <==> w.slots[c] == Dropped || ClashesNow(w, e, c)))
  {
    if Expecting(w.calls[c]) && w.slots[c] != Dropped {
      SenderDroppedExactlyWhen(w, e, c);
    }
  }

  lemma OwnStepShowsClash(w: World, e: Event, c: nat, clashed: bool)
    requires Inv(w) && c < |w.calls| && OwnEvent(e, c) && ClashShows(w.calls[c], w.slots[c], clashed)
    ensures var w' := Step(w, e);
            && |w'.calls| == |w'.slots| == |w.calls| && !ClashesNow(w, e, c)
            && ClashShows(w'.calls[c], w'.slots[c], clashed)
  {
    assert CallInv(w, c);
  }

  lemma StepKeepsClashShows(w: World, e: Event, c: nat, clashed: bool)
    requires Inv(w) && c < |w.calls| && ClashShows(w.calls[c], w.slots[c], clashed)
    ensures var w' := Step(w, e);
            && |w'.calls| == |w'.slots| == |w.calls|
            && ClashShows(w'.calls[c], w'.slots[c], clashed || ClashesNow(w, e, c))
  {
    if OwnEvent(e, c) {
      OwnStepShowsClash(w, e, c, clashed);
    } else {
      OthersShowClash(w, e, c);
    }
  }

  /** Exactly when a caller sees "Response channel dropped": a call whose send went through returns
      it if and only if another call with its id clashed with it while it waited; otherwise it
      returns its answer or a timeout. */
  lemma {:induction false} DroppedExactlyWhen(calls: nat, events: seq<Event>, c: nat)
    requires c < calls
    ensures var w := Run(Init(calls), events);
            |w.calls| == |w.slots| == calls && ClashShows(w.calls[c], w.slots[c], Clashed(calls, events, c))
  {
    RunKeepsInv(calls, events);
    if events != [] {
      var before := events[..|events| - 1];
      DroppedExactlyWhen(calls, before, c);
      RunKeepsInv(calls, before);
      StepKeepsClashShows(Run(Init(calls), before), events[|events| - 1], c, Clashed(calls, before, c));
    }
  }

  lemma {:induction false} DistinctIdsNeverClash(calls: nat, events: seq<Event>, c: nat)
    requires AlwaysDistinct(calls, events)
    ensures !Clashed(calls, events, c)
  {
    if events != [] {
      DistinctIdsNeverClash(calls, events[..|events| - 1], c);
    }
  }

  /** With distinct ids in flight no channel that a caller waits on is dropped, and no caller ever sees
      "Response channel dropped": it returns its answer, a timeout, a send failure or "not connected". */
  lemma DistinctIdsAreNeverDropped(calls: nat, events: seq<Event>, c: nat)
    requires AlwaysDistinct(calls, events) && c < calls
    ensures var w := Run(Init(calls), events);
            && |w.calls| == |w.slots| == calls
            && (Expecting(w.calls[c]) ==> w.slots[c] != Dropped)
            && (w.calls[c].Leaving? || w.calls[c].Returned? ==> w.calls[c].outcome != ChannelDropped)
  {
    DroppedExactlyWhen(calls, events, c);
    DistinctIdsNeverClash(calls, events, c);
  }

  // ── Ids from the clock ──────────────────────────────────────────────────

  /** Two draws give one id exactly when their clocks are a multiple of 2^32 - 1 nanoseconds apart. */
  lemma SameIdExactlyWhen(nanos1: nat, nanos2: nat)
    ensures DrawId(nanos1) == DrawId(nanos2) <==> (nanos1 - nanos2) % 0xFFFF_FFFF == 0
  {
    var i, j := nanos1 / U32_MAX, nanos2 / U32_MAX;
    assert nanos1 - nanos2 == U32_MAX * (i - j) + (DrawId(nanos1) - DrawId(nanos2));
    MultiplesAside(i - j, DrawId(nanos1) - DrawId(nanos2));
  }

  lemma MultiplesAside(k: int, d: int)
    requires -0xFFFF_FFFF < d < 0xFFFF_FFFF
    ensures (0xFFFF_FFFF * k + d) % 0xFFFF_FFFF == 0 <==> d == 0
  {
    var e := if d < 0 then d + 0xFFFF_FFFF else d;
    var m := if d < 0 then k - 1 else k;
    assert 0xFFFF_FFFF * k + d == 0xFFFF_FFFF * m + e;
  }

  /** Different calls draw at different clocks, all of them less than 2^32 - 1 nanoseconds apart. */
  predicate ClocksApart(events: seq<Event>) {
    forall i, j :: 0 <= i < |events| && 0 <= j < |events| && events[i].Draw? && events[j].Draw?
                   && events[i].call != events[j].call ==>
                     events[i].nanos != events[j].nanos && events[i].nanos - events[j].nanos < 0xFFFF_FFFF
  }

  /** A call's id was drawn from the clock of one of its own draws. */
  predicate DrewFrom(events: seq<Event>, k: nat, c: nat, id: nat) {
    k < |events| && events[k].Draw? && events[k].call == c && DrawId(events[k].nanos) == id
  }

  lemma {:induction false} IdComesFromDraw(calls: nat, events: seq<Event>, c: nat) returns (k: nat)
    requires c < |Run(Init(calls), events).calls| && !Run(Init(calls), events).calls[c].Fresh?
    ensures DrewFrom(events, k, c, Run(Init(calls), events).calls[c].id)
  {
    var before, e := events[..|events| - 1], events[|events| - 1];
    var v := Run(Init(calls), before);
    if v.calls[c].Fresh? {
      k := |events| - 1;
    } else {
      k := IdComesFromDraw(calls, before, c);
      assert events[k] == before[k];
      assert Step(v, e).calls[c].id == v.calls[c].id;
    }
  }

  /** In every run whose calls draw at such clocks, the ids in flight are always distinct. */
  lemma {:induction false} ClocksKeepIdsApart(calls: nat, events: seq<Event>)
    requires ClocksApart(events)
    ensures AlwaysDistinct(calls, events)
  {
    var w := Run(Init(calls), events);
    forall c, d | 0 <= c < d < |w.calls| && InFlight(w.calls[c]) && InFlight(w.calls[d])
      ensures w.calls[c].id != w.calls[d].id
    {
      var i := IdComesFromDraw(calls, events, c);
      var j := IdComesFromDraw(calls, events, d);
      SameIdExactlyWhen(events[i].nanos, events[j].nanos);
      SmallIsNoMultiple(events[i].nanos - events[j].nanos);
    }
    if events != [] {
      ClocksKeepIdsApart(calls, events[..|events| - 1]);
    }
  }

  lemma SmallIsNoMultiple(d: int)
    requires d != 0 && -0xFFFF_FFFF < d < 0xFFFF_FFFF
    ensures d % 0xFFFF_FFFF != 0
  {
    MultiplesAside(0, d);
  }

  /** So no such run drops a channel that a caller waits on. */
  lemma ClocksApartAreNeverDropped(calls: nat, events: seq<Event>, c: nat)
    requires ClocksApart(events) && c < calls
    ensures var w := Run(Init(calls), events);
            && |w.calls| == calls
            && (w.calls[c].Returned? ==> w.calls[c].outcome != ChannelDropped)
  {
    ClocksKeepIdsApart(calls, events);
    DistinctIdsAreNeverDropped(calls, events, c);
  }

  // ── The connection ──────────────────────────────────────────────────────

  /** The last of the connects and disconnects so far is a connect. */
  predicate LinkUp(events: seq<Event>) {
    events != [] &&
    (events[|events| - 1].Connect? || (!events[|events| - 1].Disconnect? && LinkUp(events[..|events| - 1])))
  }

  lemma StepKeepsLink(w: World, e: Event)
    ensures Step(w, e).connected <==> e.Connect? || (!e.Disconnect? && w.connected)
  {
  }

  lemma {:induction false} ConnectedExactlyWhen(calls: nat, events: seq<Event>)
    ensures Run(Init(calls), events).connected <==> LinkUp(events)
  {
    if events != [] {
      ConnectedExactlyWhen(calls, events[..|events| - 1]);
      StepKeepsLink(Run(Init(calls), events[..|events| - 1]), events[|events| - 1]);
    }
  }

  /** In every run a call that has drawn its id returns "not connected" exactly if the connection is
      not up when it reads the socket sender. */
  lemma NotConnectedExactlyWhen(calls: nat, events: seq<Event>, c: nat)
    requires c < |Run(Init(calls), events).calls| && Run(Init(calls), events).calls[c].Drawn?
    ensures var id := Run(Init(calls), events).calls[c].id;
            var w' := Run(Init(calls), events + [ReadSender(c)]);
            c < |w'.calls| && w'.calls[c] == if LinkUp(events) then Cleared(id) else Returned(id, NotConnected)
  {
    ConnectedExactlyWhen(calls, events);
    assert (events + [ReadSender(c)])[..|events|] == events;
  }

  // ── Colliding runs ──────────────────────────────────────────────────────

  /** When two calls draw the same id (their clocks read a multiple of `u32::MAX` nanoseconds
      apart) the second insert drops the first sender, and the first caller's clean-up then
      drops the second: both fail although nothing went wrong on the wire. */
  lemma CollidingIdsDropBoth()
    ensures var w := Run(Init(2), [Connect, Draw(0, 7), Draw(1, U32_MAX + 7), ReadSender(0), ReadSender(1),
                                   Insert(0), Insert(1), Send(0, true), Send(1, true),
                                   Poll(0), Remove(0), Poll(1), Remove(1)]);
            w.calls == [Returned(7, ChannelDropped), Returned(7, ChannelDropped)]
  {
    CollidingInserts();
    var w9 := World(true, map[7 := 1], [Awaiting(7), Awaiting(7)], [Dropped, Empty]);
    var w10 := w9.(calls := [Leaving(7, ChannelDropped), Awaiting(7)]);
    var w11 := World(true, map[], [Returned(7, ChannelDropped), Awaiting(7)], [Dropped, Dropped]);
    var w12 := w11.(calls := [Returned(7, ChannelDropped), Leaving(7, ChannelDropped)]);
    var w13 := w11.(calls := [Returned(7, ChannelDropped), Returned(7, ChannelDropped)]);
    assert RemoveStep(w10, 0) == w11;
    assert RemoveStep(w12, 1) == w13;
    var first := [Connect, Draw(0, 7), Draw(1, U32_MAX + 7), ReadSender(0), ReadSender(1),
                  Insert(0), Insert(1), Send(0, true), Send(1, true)];
    RunChain(w9, [Poll(0), Remove(0), Poll(1), Remove(1)], [w9, w10, w11, w12, w13]);
    RunConcat(Init(2), first, [Poll(0), Remove(0), Poll(1), Remove(1)]);
    assert first + [Poll(0), Remove(0), Poll(1), Remove(1)]
        == [Connect, Draw(0, 7), Draw(1, U32_MAX + 7), ReadSender(0), ReadSender(1),
            Insert(0), Insert(1), Send(0, true), Send(1, true), Poll(0), Remove(0), Poll(1), Remove(1)];
  }

  lemma CollidingInserts()
    ensures Run(Init(2), [Connect, Draw(0, 7), Draw(1, U32_MAX + 7), ReadSender(0), ReadSender(1),
                          Insert(0), Insert(1), Send(0, true), Send(1, true)])
         == World(true, map[7 := 1], [Awaiting(7), Awaiting(7)], [Dropped, Empty])
  {
    var w0 := World(false, map[], [Fresh, Fresh], [Empty, Empty]);
    assert Init(2) == w0;
    var w1 := w0.(connected := true);
    var w2 := w1.(calls := [Drawn(7), Fresh]);
    var w3 := w1.(calls := [Drawn(7), Drawn(7)]);
    var w4 := w1.(calls := [Cleared(7), Drawn(7)]);
    var w5 := w1.(calls := [Cleared(7), Cleared(7)]);
    var w6 := World(true, map[7 := 0], [Sending(7), Cleared(7)], [Empty, Empty]);
    var w7 := World(true, map[7 := 1], [Sending(7), Sending(7)], [Dropped, Empty]);
    var w8 := w7.(calls := [Awaiting(7), Sending(7)]);
    var w9 := w7.(calls := [Awaiting(7), Awaiting(7)]);
    assert InsertStep(w5, 0) == w6;
    assert InsertStep(w6, 1) == w7;
    RunChain(w0, [Connect, Draw(0, 7), Draw(1, U32_MAX + 7), ReadSender(0), ReadSender(1),
                  Insert(0), Insert(1), Send(0, true), Send(1, true)],
             [w0, w1, w2, w3, w4, w5, w6, w7, w8, w9]);
  }

  lemma {:induction false} RunChain(w: World, events: seq<Event>, worlds: seq<World>)
    requires |worlds| == |events| + 1 && worlds[0] == w
    requires forall k :: 0 <= k < |events| ==> Step(worlds[k], events[k]) == worlds[k + 1]
    ensures Run(w, events) == worlds[|events|]
  {
    if events != [] {
      RunChain(w, events[..|events| - 1], worlds[..|events|]);
    }
  }

  lemma {:induction false} RunConcat(w: World, a: seq<Event>, b: seq<Event>)
    ensures Run(w, a + b) == Run(Run(w, a), b)
  {
    if b == [] {
      assert a + b == a;
    } else {
      assert (a + b)[..|a + b| - 1] == a + b[..|b| - 1];
      RunConcat(w, a, b[..|b| - 1]);
    }
  }

  // ── The object ──────────────────────────────────────────────────────────

  /** The shared state of the client and its atomic sections, each under the `pending` lock. */
  class RoonClient {
    var connected: bool
    var pending: map<nat, nat>
    var calls: seq<Call>
    var slots: seq<Slot>

    function State(): World
      reads this
    {
      World(connected, pending, calls, slots)
    }

    constructor (calls: nat)
      ensures State() == Init(calls)
    {
      this.connected := false;
      this.pending := map[];
      this.calls := seq(calls, _ => Fresh);
      this.slots := seq(calls, _ => Empty);
    }

    /** A sender that leaves the map unused closes its channel. */
    method CloseChannel(id: nat)
      modifies `slots
      ensures slots == DropSender(pending, old(slots), id)
    {
      if id in pending && pending[id] < |slots| {
        if slots[pending[id]] == Empty {
          slots := slots[pending[id] := Dropped];
        }
      }
    }

    method InsertPending(c: nat)
      requires c < |calls| && calls[c].Cleared?
      modifies this
      ensures State() == Step(old(State()), Insert(c))
    {
      var id := calls[c].id;
      CloseChannel(id);
      pending := pending[id := c];
      calls := calls[c := Sending(id)];
    }

    method RemovePending(c: nat)
      requires c < |calls| && calls[c].Leaving?
      modifies this
      ensures State() == Step(old(State()), Remove(c))
    {
      var id := calls[c].id;
      CloseChannel(id);
      pending := pending - {id};
      calls := calls[c := Returned(id, calls[c].outcome)];
    }

    method RouteResponse(r: Response)
      modifies this
      ensures State() == Step(old(State()), Route(r))
    {
      var id := Key(r);
      if id in pending {
        var owner := pending[id];
        pending := pending - {id};
        if owner < |slots| && slots[owner] == Empty {
          slots := slots[owner := Filled(r)];
        }
      }
    }

    /** Without a socket sender the call returns at once. */
    method ReadSocketSender(c: nat)
      requires c < |calls| && calls[c].Drawn?
      modifies `calls
      ensures State() == Step(old(State()), ReadSender(c))
    {
      var id := calls[c].id;
      if !connected {
        calls := calls[c := Returned(id, NotConnected)];
        return;
      }
      calls := calls[c := Cleared(id)];
    }

    method SendMessage(c: nat, accepted: bool)
      requires c < |calls| && calls[c].Sending?
      modifies `calls
      ensures State() == Step(old(State()), Send(c, accepted))
    {
      var id := calls[c].id;
      if !accepted {
        calls := calls[c := Leaving(id, SendFailed)];
        return;
      }
      calls := calls[c := Awaiting(id)];
    }

    method PollReceiver(c: nat)
      requires c < |calls| && c < |slots| && calls[c].Awaiting?
      modifies `calls
      ensures State() == Step(old(State()), Poll(c))
    {
      var id := calls[c].id;
      match slots[c] {
        case Filled(r) => calls := calls[c := Returned(id, Answer(r))];
        case Dropped => calls := calls[c := Leaving(id, ChannelDropped)];
        case Empty =>
      }
    }

    /** One event, through the atomic section it belongs to. */
    method Perform(e: Event)
      modifies this
      ensures State() == Step(old(State()), e)
    {
      match e {
        case Insert(c) =>
          if c < |calls| && calls[c].Cleared? { InsertPending(c); }
        case Remove(c) =>
          if c < |calls| && calls[c].Leaving? { RemovePending(c); }
        case Route(r) => RouteResponse(r);
        case Connect => connected := true;
        case Disconnect => connected := false;
        case Draw(c, nanos) =>
          if c < |calls| && calls[c].Fresh? { calls := calls[c := Drawn(nanos % U32_MAX)]; }
        case ReadSender(c) =>
          if c < |calls| && calls[c].Drawn? { ReadSocketSender(c); }
        case Send(c, accepted) =>
          if c < |calls| && calls[c].Sending? { SendMessage(c, accepted); }
        case Poll(c) =>
          if c < |calls| && c < |slots| && calls[c].Awaiting? { PollReceiver(c); }
        case Expire(c) =>
          if c < |calls| && c < |slots| && calls[c].Awaiting? {
            // the receiver first, then the timer
            if slots[c].Empty? { calls := calls[c := Leaving(calls[c].id, TimedOut)]; }
          }
        case Cancel(c) =>
          if c < |calls| && InFlight(calls[c]) { calls := calls[c := Abandoned(calls[c].id)]; }
      }
    }

    /** An action of call `c`, followed by what others do while it is suspended. */
    method Act(c: nat, own: Event, others: seq<Event>)
      requires Inv(State()) && c < |calls| && Untouched(others, c)
      modifies this
      ensures Inv(State()) && |calls| == old(|calls|)
      ensures State() == Run(Step(old(State()), own), others)
      ensures calls[c] == Step(old(State()), own).calls[c]
    {
      Bystanders(c, State(), own, others);
      ghost var start := Step(State(), own);
      Perform(own);
      for i := 0 to |others|
        invariant State() == Run(start, others[..i])
      {
        assert others[..i + 1][..i] == others[..i];
        Perform(others[i]);
      }
      assert others[..|others|] == others;
    }

    /** `request` up to the insertion; `others(k)` is what happens at its k-th await point. */
    method Register(c: nat, nanos: nat, others: nat -> seq<Event>)
      requires Inv(State()) && c < |calls| && calls[c] == Fresh
      requires forall k :: Untouched(others(k), c)
      modifies this
      ensures Inv(State()) && c < |calls|
      ensures var linked := Run(Step(old(State()), Draw(c, nanos)), others(0)).connected;
              calls[c] == if linked then Sending(nanos % 0xFFFF_FFFF) else Returned(nanos % 0xFFFF_FFFF, NotConnected)
    {
      Act(c, Draw(c, nanos), others(0));
      Act(c, ReadSender(c), others(1));
      if calls[c].Cleared? {
        Act(c, Insert(c), others(2));
      }
    }

    /** What the await on the oneshot gives when the channel is as `slot` once others have run. */
    function Awaited(slot: Slot): Outcome {
      match slot
      case Filled(r) => Answer(r)
      case Dropped => ChannelDropped
      case Empty => TimedOut
    }

    /** `request` from the send on. `others(3)` is what happens until the channel is decided or the
        timeout fires: the call times out exactly if its channel is still open then. */
    method SendAndAwait(c: nat, others: nat -> seq<Event>, accepted: bool)
      requires Inv(State()) && c < |calls| && calls[c].Sending?
      requires forall k :: Untouched(others(k), c)
      modifies this
      ensures Inv(State()) && c < |calls|
      ensures calls[c].Returned? && calls[c].id == old(calls[c].id)
      ensures !accepted ==> calls[c].outcome == SendFailed
      ensures var w := Run(Step(old(State()), Send(c, accepted)), others(3));
              accepted ==> c < |w.slots| && calls[c].outcome == Awaited(w.slots[c])
    {
      Act(c, Send(c, accepted), others(3));
      if calls[c].Awaiting? {
        Act(c, if slots[c] == Empty then Expire(c) else Poll(c), others(4));
      }
      if calls[c].Leaving? {
        Act(c, Remove(c), []);
      }
    }

    /** One call of `request`; `accepted` is whether the send succeeds. It returns its outcome, an
        answer to its own id if it is one, and leaves no sender of its own behind. */
    method Request(c: nat, nanos: nat, others: nat -> seq<Event>, accepted: bool) returns (outcome: Outcome)
      requires Inv(State()) && c < |calls| && calls[c] == Fresh
      requires forall k :: Untouched(others(k), c)
      modifies this
      ensures Inv(State()) && c < |calls|
      ensures calls[c] == Returned(nanos % 0xFFFF_FFFF, outcome)
      ensures forall id :: id in pending ==> pending[id] != c
      ensures outcome == NotConnected <==> !Run(Step(old(State()), Draw(c, nanos)), others(0)).connected
      ensures outcome.Answer? ==> outcome.response.requestId % 0x1_0000_0000 == nanos % 0xFFFF_FFFF
      ensures outcome != NotConnected ==> (outcome == SendFailed <==> !accepted)
    {
      Register(c, nanos, others);
      if calls[c].Sending? {
        SendAndAwait(c, others, accepted);
      }
      outcome := calls[c].outcome;
      assert CallInv(State(), c);
    }
  }

  /** Events of other calls, of the read task and of the connection. */
  predicate Untouched(events: seq<Event>, c: nat) {
    forall i :: 0 <= i < |events| ==>
      events[i].Connect? || events[i].Disconnect? || events[i].Route? || events[i].call != c
  }

  /** A step of call `c` and then others' events: the invariant stays, the others leave the call alone. */
  lemma {:induction false} Bystanders(c: nat, w: World, own: Event, events: seq<Event>)
    requires Inv(w) && c < |w.calls| && Untouched(events, c)
    ensures Inv(Step(w, own))
    ensures Inv(Run(Step(w, own), events))
    ensures |Run(Step(w, own), events).calls| == |w.calls| == |Step(w, own).calls|
    ensures Run(Step(w, own), events).calls[c] == Step(w, own).calls[c]
  {
    StepKeepsInv(w, own);
    OthersKeep(c, Step(w, own), events);
  }

  lemma {:induction false} OthersKeep(c: nat, w: World, events: seq<Event>)
    requires Inv(w) && c < |w.calls| && Untouched(events, c)
    ensures Inv(Run(w, events)) && |Run(w, events).calls| == |w.calls| && Run(w, events).calls[c] == w.calls[c]
  {
    if events != [] {
      OthersKeep(c, w, events[..|events| - 1]);
      StepKeepsInv(Run(w, events[..|events| - 1]), events[|events| - 1]);
    }
  }
}
