/**
 The update batcher between the catalog's broadcast channel and one client.  `recv` loops
 over what the channel and the timer deliver; the caller may drop it at any await point.
 */
module IpcBatcher {
  import opened Prelude

  const MAX_BATCH_SIZE := 10

  datatype Source = Cache | Live

  type Entries = seq<string>

  datatype GridUpdate = GridUpdate(tab: string, entries: Entries, source: Source)

  type Buffer = map<string, GridUpdate>

  /** One wake-up of `recv`, with the clock it reads. */
  datatype Input =
    | Update(update: GridUpdate, at: nat)
    | Lagged(at: nat)
    | Closed(at: nat)
    | Timer(at: nat)

  /** `Waiting`: the loop goes round again. A batch is kept as the drained map, since the
      order in which a hash map drains is arbitrary. */
  datatype Reply = Waiting | Batch(updates: Buffer) | End

  datatype State = State(buffer: Buffer, lastFlush: nat)

  // ── Keys ────────────────────────────────────────────────────────────────

  function SourceName(source: Source): string {
    match source
    case Cache => "Cache"
    case Live => "Live"
  }

  function Key(tab: string, source: Source): string {
    tab + "_" + SourceName(source)
  }

  /** The composed key never mixes two tabs or sources, whatever the tab's name. */
  lemma KeySeparates(tab1: string, source1: Source, tab2: string, source2: Source)
    ensures Key(tab1, source1) == Key(tab2, source2) <==> tab1 == tab2 && source1 == source2
  {
    var k1, k2 := Key(tab1, source1), Key(tab2, source2);
    if k1 == k2 {
      assert k1[|k1| - 4] == SourceName(source1)[|SourceName(source1)| - 4];
      assert k2[|k2| - 4] == SourceName(source2)[|SourceName(source2)| - 4];
      assert source1 == source2;
      assert tab1 == k1[..|k1| - |SourceName(source1)| - 1];
      assert tab2 == k2[..|k2| - |SourceName(source2)| - 1];
    }
  }

  predicate WellKeyed(buffer: Buffer) {
    forall k :: k in buffer ==> k == Key(buffer[k].tab, buffer[k].source)
  }

  // ── One wake-up ─────────────────────────────────────────────────────────

  function Inserted(buffer: Buffer, u: GridUpdate): Buffer {
    var key := Key(u.tab, u.source);
    if key in buffer
    then buffer[key := buffer[key].(entries := buffer[key].entries + u.entries)]
    else buffer[key := u]
  }

  predicate Due(interval: nat, s: State, at: nat) {
    MAX_BATCH_SIZE <= |s.buffer| || interval <= Max(0, at - s.lastFlush)
  }

  function Respond(interval: nat, s: State, i: Input): (State, Reply) {
    match i
    case Update(u, at) =>
      var s' := s.(buffer := Inserted(s.buffer, u));
      if Due(interval, s', at) then (State(map[], at), Batch(s'.buffer)) else (s', Waiting)
    case Lagged(at) => (State(map[], at), Batch(map[]))
    case Closed(at) => if s.buffer != map[] then (State(map[], at), Batch(s.buffer)) else (s, End)
    case Timer(at) => if s.buffer != map[] then (State(map[], at), Batch(s.buffer)) else (State(map[], at), Waiting)
  }

  type Responder = (State, Input) -> (State, Reply)

  function RespondWithin(interval: nat): Responder {
    (s: State, i: Input) => Respond(interval, s, i)
  }

  /** A receive loop: respond until there is a reply; `Waiting` if the inputs run out first, which
      is where a caller may drop it. Also how many inputs it took. */
  function ReceiveBy(respond: Responder, s: State, inputs: seq<Input>): (r: (State, Reply, nat))
    ensures r.2 <= |inputs|
    ensures r.1 == Waiting ==> r.2 == |inputs|
    decreases |inputs|
  {
    if inputs == [] then (s, Waiting, 0)
    else
      var (s', reply) := respond(s, inputs[0]);
      if reply != Waiting then (s', reply, 1)
      else var (s'', reply', n) := ReceiveBy(respond, s', inputs[1..]); (s'', reply', n + 1)
  }

  /** `recv` */
  function Receive(interval: nat, s: State, inputs: seq<Input>): (State, Reply, nat) {
    ReceiveBy(RespondWithin(interval), s, inputs)
  }

  // ── The object ──────────────────────────────────────────────────────────

  /** `batch` lists the updates of `buffer`, each once. */
  ghost predicate Lists(batch: seq<GridUpdate>, buffer: Buffer) {
    && |batch| == |buffer|
    && (forall i :: 0 <= i < |batch| ==>
          Key(batch[i].tab, batch[i].source) in buffer
          && buffer[Key(batch[i].tab, batch[i].source)] == batch[i])
    && (forall k :: k in buffer ==> buffer[k] in batch)
  }

  datatype Answer = Dropped | Updates(batch: seq<GridUpdate>) | ChannelClosed

  ghost predicate Answers(answer: Answer, reply: Reply) {
    match reply
    case Waiting => answer == Dropped
    case Batch(m) => answer.Updates? && Lists(answer.batch, m)
    case End => answer == ChannelClosed
  }

  class IpcBatcher {
    const flushInterval: nat
    var buffer: Buffer
    var lastFlush: nat

    ghost predicate Valid()
      reads this
    {
      WellKeyed(buffer) && |buffer| < MAX_BATCH_SIZE
    }

    function Now(): State
      reads this
    {
      State(buffer, lastFlush)
    }

    constructor (flushInterval: nat, at: nat)
      ensures Valid() && Now() == State(map[], at) && this.flushInterval == flushInterval
    {
      this.flushInterval := flushInterval;
      this.buffer := map[];
      this.lastFlush := at;
    }

    method BufferInsert(update: GridUpdate)
      modifies this`buffer
      ensures buffer == Inserted(old(buffer), update)
    {
      var key := Key(update.tab, update.source);
      if key in buffer {
        var existing := buffer[key];
        buffer := buffer[key := existing.(entries := existing.entries + update.entries)];
      } else {
        buffer := buffer[key := update];
      }
    }

    method DrainBuffer(at: nat) returns (batch: seq<GridUpdate>)
      requires WellKeyed(buffer)
      modifies this
      ensures Now() == State(map[], at)
      ensures Lists(batch, old(buffer))
    {
      lastFlush := at;
      batch := [];
      ghost var all := buffer;
      while buffer != map[]
        invariant lastFlush == at
        invariant buffer.Keys <= all.Keys && forall k :: k in buffer ==> buffer[k] == all[k]
        invariant |batch| + |buffer| == |all|
        invariant forall i :: 0 <= i < |batch| ==>
                    Key(batch[i].tab, batch[i].source) in all && all[Key(batch[i].tab, batch[i].source)] == batch[i]
        invariant forall k :: k in all && k !in buffer ==> all[k] in batch
        decreases |buffer|
      {
        assert buffer.Keys != {};
        var k :| k in buffer;
        ghost var before := buffer;
        batch := batch + [buffer[k]];
        buffer := buffer - {k};
        assert before.Keys == buffer.Keys + {k};
        assert |before.Keys| == |buffer.Keys| + 1;
        assert batch[|batch| - 1] == all[k];
      }
    }

    /** One turn of the loop in `recv`; `Dropped` if it goes round again. */
    method WakeUp(input: Input) returns (answer: Answer)
      requires Valid()
      modifies this
      ensures Valid()
      ensures Now() == Respond(flushInterval, old(Now()), input).0
      ensures Answers(answer, Respond(flushInterval, old(Now()), input).1)
    {
      InsertedKeeps(buffer, input);
      answer := Dropped;
      match input {
        case Update(u, at) =>
          BufferInsert(u);
          if MAX_BATCH_SIZE <= |buffer| || flushInterval <= Max(0, at - lastFlush) {
            var batch := DrainBuffer(at);
            answer := Updates(batch);
          }
        case Lagged(at) =>
          buffer := map[];
          lastFlush := at;
          answer := Updates([]);
        case Closed(at) =>
          if buffer != map[] {
            var batch := DrainBuffer(at);
            answer := Updates(batch);
          } else {
            answer := ChannelClosed;
          }
        case Timer(at) =>
          if buffer != map[] {
            var batch := DrainBuffer(at);
            answer := Updates(batch);
          } else {
            lastFlush := at;
          }
      }
    }

    /** `recv` against its specification. */
    method Recv(inputs: seq<Input>) returns (answer: Answer, used: nat)
      requires Valid()
      modifies this
      ensures Valid()
      ensures var (s, reply, n) := Receive(flushInterval, old(Now()), inputs);
              Now() == s && used == n && Answers(answer, reply)
    {
      used := 0;
      answer := Dropped;
      while used < |inputs|
        invariant used <= |inputs| && Valid() && answer == Dropped
        invariant var (s, reply, n) := Receive(flushInterval, old(Now()), inputs);
                  (s, reply, n - used) == Receive(flushInterval, Now(), inputs[used..])
      {
        ReceiveUnfolds(flushInterval, Now(), inputs, used);
        answer := WakeUp(inputs[used]);
        used := used + 1;
        if answer != Dropped {
          return;
        }
      }
    }
  }

  lemma ReceiveUnfolds(interval: nat, s: State, inputs: seq<Input>, used: nat)
    requires used < |inputs|
    ensures var (s', reply) := Respond(interval, s, inputs[used]);
            Receive(interval, s, inputs[used..]) ==
              if reply != Waiting then (s', reply, 1)
              else var (s'', reply', n) := Receive(interval, s', inputs[used + 1..]); (s'', reply', n + 1)
  {
  }

  lemma InsertedKeeps(buffer: Buffer, i: Input)
    requires WellKeyed(buffer)
    ensures i.Update? ==> WellKeyed(Inserted(buffer, i.update)) && |Inserted(buffer, i.update)| <= |buffer| + 1
  {
  }

  // ── Whole runs ──────────────────────────────────────────────────────────

  /** The state after all inputs, over as many calls of `recv` as it takes. */
  function Run(interval: nat, s: State, inputs: seq<Input>): State {
    if inputs == [] then s
    else Respond(interval, Run(interval, s, inputs[..|inputs| - 1]), inputs[|inputs| - 1]).0
  }

  /** What is handed over at the last of `inputs`. */
  function LastReply(interval: nat, s: State, inputs: seq<Input>): Reply
    requires inputs != []
  {
    Respond(interval, Run(interval, s, inputs[..|inputs| - 1]), inputs[|inputs| - 1]).1
  }

  /** Dropping `recv` while it waits and calling it again gives what one call would have
      given: the same reply, at the same input, and the same state. */
  lemma CancellationIsHarmless(interval: nat, s: State, a: seq<Input>, b: seq<Input>)
    requires Receive(interval, s, a).1 == Waiting
    ensures var (s', _, _) := Receive(interval, s, a);
            var (s'', reply, n) := Receive(interval, s', b);
            Receive(interval, s, a + b) == (s'', reply, |a| + n)
  {
    LoopResumes(RespondWithin(interval), s, a, b);
  }

  /** A receive loop that keeps nothing but its state can be left at a wait and entered again. */
  lemma {:induction false} LoopResumes(respond: Responder, s: State, a: seq<Input>, b: seq<Input>)
    requires ReceiveBy(respond, s, a).1 == Waiting
    ensures var (s', _, _) := ReceiveBy(respond, s, a);
            var (s'', reply, n) := ReceiveBy(respond, s', b);
            ReceiveBy(respond, s, a + b) == (s'', reply, |a| + n)
    decreases |a|
  {
    if a == [] {
      assert a + b == b;
    } else {
      assert (a + b)[1..] == a[1..] + b;
      LoopResumes(respond, respond(s, a[0]).0, a[1..], b);
    }
  }

  /** A call of `recv` advances the run by exactly the inputs it took, and hands over what the
      last of them yields. */
  lemma {:induction false} ReceiveFollowsRun(interval: nat, s: State, inputs: seq<Input>)
    ensures var (s', reply, n) := Receive(interval, s, inputs);
            && s' == Run(interval, s, inputs[..n])
            && (n > 0 ==> reply == LastReply(interval, s, inputs[..n]))
            && (forall k :: 0 < k < n ==> LastReply(interval, s, inputs[..k]) == Waiting)
    decreases |inputs|
  {
    if inputs != [] {
      var (s1, first) := Respond(interval, s, inputs[0]);
      assert inputs[..1][..0] == [];
      if first == Waiting {
        var rest := inputs[1..];
        ReceiveFollowsRun(interval, s1, rest);
        var (_, _, n) := Receive(interval, s1, rest);
        RunShifts(interval, s, inputs, n);
        forall k | 0 < k < n + 1
          ensures LastReply(interval, s, inputs[..k]) == Waiting
        {
          RunShifts(interval, s, inputs, k - 1);
        }
      }
    }
  }

  /** The run over the first `k + 1` inputs is the run over the next `k` after the first. */
  lemma RunShifts(interval: nat, s: State, inputs: seq<Input>, k: nat)
    requires k < |inputs|
    ensures var s1 := Respond(interval, s, inputs[0]).0;
            && Run(interval, s, inputs[..k + 1]) == Run(interval, s1, inputs[1..][..k])
            && LastReply(interval, s, inputs[..k + 1]) ==
                 if k > 0 then LastReply(interval, s1, inputs[1..][..k]) else Respond(interval, s, inputs[0]).1
  {
    var rest := inputs[1..][..k];
    assert inputs[..k + 1] == [inputs[0]] + rest;
    RunCons(interval, s, inputs[0], rest);
    if k > 0 {
      assert ([inputs[0]] + rest)[..k] == [inputs[0]] + rest[..k - 1];
      RunCons(interval, s, inputs[0], rest[..k - 1]);
    } else {
      assert inputs[..1][..0] == [];
    }
  }

  lemma {:induction false} RunCons(interval: nat, s: State, i: Input, rest: seq<Input>)
    ensures Run(interval, s, [i] + rest) == Run(interval, Respond(interval, s, i).0, rest)
  {
    if rest == [] {
      assert [i] + rest == [i] && [i][..0] == [];
    } else {
      assert ([i] + rest)[..|rest|] == [i] + rest[..|rest| - 1];
      RunCons(interval, s, i, rest[..|rest| - 1]);
    }
  }

  // ── Conservation ────────────────────────────────────────────────────────

  function EntriesFor(buffer: Buffer, tab: string, source: Source): Entries {
    if Key(tab, source) in buffer then buffer[Key(tab, source)].entries else []
  }

  /** What one input adds to a tab and source. */
  function Added(i: Input, tab: string, source: Source): Entries {
    if i.Update? && i.update.tab == tab && i.update.source == source then i.update.entries else []
  }

  /** What one reply hands over for a tab and source. */
  function Handed(reply: Reply, tab: string, source: Source): Entries {
    if reply.Batch? then EntriesFor(reply.updates, tab, source) else []
  }

  /** Entries for one tab and source received since the last lag, in order. */
  function Received(inputs: seq<Input>, tab: string, source: Source): Entries {
    if inputs == [] || inputs[|inputs| - 1].Lagged? then []
    else Received(inputs[..|inputs| - 1], tab, source) + Added(inputs[|inputs| - 1], tab, source)
  }

  /** Entries for one tab and source handed over in batches since the last lag, in order. */
  function Delivered(interval: nat, s: State, inputs: seq<Input>, tab: string, source: Source): Entries {
    if inputs == [] || inputs[|inputs| - 1].Lagged? then []
    else
      Delivered(interval, s, inputs[..|inputs| - 1], tab, source)
      + Handed(LastReply(interval, s, inputs), tab, source)
  }

  lemma InsertedExtends(buffer: Buffer, u: GridUpdate, tab: string, source: Source)
    ensures EntriesFor(Inserted(buffer, u), tab, source)
         == EntriesFor(buffer, tab, source) + (if u.tab == tab && u.source == source then u.entries else [])
  {
    KeySeparates(u.tab, u.source, tab, source);
  }

  /** What one input adds to a tab and source is handed over or kept. */
  lemma RespondConserves(interval: nat, s: State, i: Input, tab: string, source: Source)
    requires !i.Lagged?
    ensures var (s', reply) := Respond(interval, s, i);
            EntriesFor(s.buffer, tab, source) + Added(i, tab, source)
            == Handed(reply, tab, source) + EntriesFor(s'.buffer, tab, source)
  {
    if i.Update? {
      InsertedExtends(s.buffer, i.update, tab, source);
    }
  }

  /** Conservation: for each tab and source, what was received since the last lag is what was
      delivered since then followed by what is still buffered, in order. */
  lemma {:induction false} EntriesAreConserved(interval: nat, at: nat, inputs: seq<Input>, tab: string, source: Source)
    ensures Received(inputs, tab, source)
         == Delivered(interval, State(map[], at), inputs, tab, source)
            + EntriesFor(Run(interval, State(map[], at), inputs).buffer, tab, source)
  {
    var s := State(map[], at);
    if inputs != [] && !inputs[|inputs| - 1].Lagged? {
      var before, i := inputs[..|inputs| - 1], inputs[|inputs| - 1];
      var s1 := Run(interval, s, before);
      EntriesAreConserved(interval, at, before, tab, source);
      RespondConserves(interval, s1, i, tab, source);
      Regroup(Delivered(interval, s, before, tab, source), EntriesFor(s1.buffer, tab, source), Added(i, tab, source),
              Handed(Respond(interval, s1, i).1, tab, source),
              EntriesFor(Respond(interval, s1, i).0.buffer, tab, source));
    }
  }

  lemma Regroup(a: Entries, b: Entries, c: Entries, d: Entries, e: Entries)
    requires b + c == d + e
    ensures (a + b) + c == (a + d) + e
  {
    assert (a + b) + c == a + (b + c);
    assert (a + d) + e == a + (d + e);
  }

  /** Every batch has at most ten updates, each under its own key, and fewer than ten stay buffered. */
  lemma {:induction false} BatchesAreBounded(interval: nat, at: nat, inputs: seq<Input>)
    ensures var s := State(map[], at);
            && WellKeyed(Run(interval, s, inputs).buffer)
            && |Run(interval, s, inputs).buffer| < 10
            && (inputs != [] && LastReply(interval, s, inputs).Batch? ==>
                  && WellKeyed(LastReply(interval, s, inputs).updates)
                  && |LastReply(interval, s, inputs).updates| <= 10)
  {
    if inputs != [] {
      BatchesAreBounded(interval, at, inputs[..|inputs| - 1]);
      InsertedKeeps(Run(interval, State(map[], at), inputs[..|inputs| - 1]).buffer, inputs[|inputs| - 1]);
    }
  }

  // ── How long an update waits ────────────────────────────────────────────

  /** An update read less than one interval after `flush`, or the channel found closed. */
  predicate Recent(interval: nat, i: Input, flush: nat) {
    i.Closed? || (i.Update? && Max(0, i.at - flush) < interval)
  }

  /** Each wake-up empties the buffer and notes the time, or is recent and notes nothing; what the
      buffer then holds came with an update. */
  lemma EmptiesOrIsRecent(interval: nat, s: State, i: Input)
    ensures var s' := Respond(interval, s, i).0;
            || s' == State(map[], i.at)
            || (&& s'.lastFlush == s.lastFlush && Recent(interval, i, s.lastFlush)
                && (s'.buffer != map[] ==> i.Update?))
  {
  }

  /** What is buffered came in after the last flush, in updates each read less than one interval
      later: the first update read any later hands everything over. `k` is where the buffer was
      last emptied. */
  lemma {:induction false} BufferedUpdatesAreRecent(interval: nat, at: nat, inputs: seq<Input>) returns (k: nat)
    ensures k <= |inputs|
    ensures Run(interval, State(map[], at), inputs[..k]).buffer == map[]
    ensures var flush := Run(interval, State(map[], at), inputs).lastFlush;
            && flush == (if k == 0 then at else inputs[k - 1].at)
            && forall m :: k <= m < |inputs| ==> Recent(interval, inputs[m], flush)
  {
    k := 0;
    if inputs != [] {
      var before, i := inputs[..|inputs| - 1], inputs[|inputs| - 1];
      var s1 := Run(interval, State(map[], at), before);
      EmptiesOrIsRecent(interval, s1, i);
      if Respond(interval, s1, i).0 == State(map[], i.at) {
        k := |inputs|;
        assert inputs[..k] == inputs;
      } else {
        k := BufferedUpdatesAreRecent(interval, at, before);
        assert inputs[..k] == before[..k];
        assert forall m :: 0 <= m < |before| ==> inputs[m] == before[m];
      }
    }
  }

  /** When the timer that the loop sets at `armed` fires: what is left of the interval later, and
      never sooner than `least`. */
  function DueAt(interval: nat, least: nat, lastFlush: nat, armed: nat): nat {
    armed + Max(Max(0, interval - Max(0, armed - lastFlush)), least)
  }

  predicate Ascending(at: nat, inputs: seq<Input>) {
    && (forall i :: 0 <= i < |inputs| ==> at <= inputs[i].at)
    && (forall i, j :: 0 <= i < j < |inputs| ==> inputs[i].at <= inputs[j].at)
  }

  /** What happens to the batcher: `recv` wakes up, or its caller, busy with something else since
      `left`, calls it at `back` (again, after dropping it, or after taking a reply). */
  datatype Moment = Wake(input: Input) | Return(left: nat, back: nat)

  /** The state, and when the timer now running was set. */
  datatype Clocked = Clocked(state: State, armed: nat)

  function Through(interval: nat, at: nat, moments: seq<Moment>): Clocked {
    if moments == [] then Clocked(State(map[], at), at)
    else
      var c := Through(interval, at, moments[..|moments| - 1]);
      match moments[|moments| - 1]
      case Wake(i) => Clocked(Respond(interval, c.state, i).0, i.at)
      case Return(_, back) => c.(armed := back)
  }

  /** The wake-ups among the moments. */
  function Wakes(moments: seq<Moment>): seq<Input> {
    if moments == [] then []
    else
      Wakes(moments[..|moments| - 1])
      + (match moments[|moments| - 1] case Wake(i) => [i] case Return(_, _) => [])
  }

  function Start(m: Moment): nat {
    match m case Wake(i) => i.at case Return(left, _) => left
  }

  /** The clock never goes back, and while `recv` is awaited its timer fires once due: no moment
      begins later than that. */
  predicate Prompt(interval: nat, least: nat, at: nat, moments: seq<Moment>) {
    moments == [] ||
    (var c, m := Through(interval, at, moments[..|moments| - 1]), moments[|moments| - 1];
     && Prompt(interval, least, at, moments[..|moments| - 1])
     && c.armed <= Start(m) <= DueAt(interval, least, c.state.lastFlush, c.armed)
     && (m.Return? ==> m.left <= m.back))
  }

  /** However often `recv` is dropped and called again, the batcher goes through the run of its
      wake-ups: a return changes when the timer was set and nothing else. */
  lemma {:induction false} DropsKeepTheRun(interval: nat, at: nat, moments: seq<Moment>)
    ensures Through(interval, at, moments).state == Run(interval, State(map[], at), Wakes(moments))
  {
    if moments != [] {
      var before := moments[..|moments| - 1];
      DropsKeepTheRun(interval, at, before);
      match moments[|moments| - 1] {
        case Wake(i) =>
          var earlier := Wakes(before);
          assert (earlier + [i])[..|earlier|] == earlier;
        case Return(_, _) =>
          assert Wakes(moments) == Wakes(before);
      }
    }
  }

  /** The clock in a prompt run: wake-ups in order, the last flush and all wake-ups before the timer
      was set. */
  lemma {:induction false} ClockAdvances(interval: nat, least: nat, at: nat, moments: seq<Moment>)
    requires Prompt(interval, least, at, moments)
    ensures var c := Through(interval, at, moments);
            && Ascending(at, Wakes(moments))
            && at <= c.armed && c.state.lastFlush <= c.armed
            && forall k :: 0 <= k < |Wakes(moments)| ==> Wakes(moments)[k].at <= c.armed
  {
    if moments != [] {
      var before, m := moments[..|moments| - 1], moments[|moments| - 1];
      ClockAdvances(interval, least, at, before);
      if m.Wake? {
        FlushIsPast(interval, Through(interval, at, before).state, m.input);
      } else {
        assert Wakes(moments) == Wakes(before);
      }
    }
  }

  lemma FlushIsPast(interval: nat, s: State, i: Input)
    requires s.lastFlush <= i.at
    ensures Respond(interval, s, i).0.lastFlush <= i.at
  {
  }

  lemma DueIsTheLater(interval: nat, least: nat, lastFlush: nat, armed: nat)
    requires lastFlush <= armed
    ensures DueAt(interval, least, lastFlush, armed) == Max(lastFlush + interval, armed + least)
  {
  }

  /** What arrived since the buffer was last emptied arrived after the last flush. */
  lemma ArrivedAfterFlush(interval: nat, at: nat, inputs: seq<Input>) returns (k: nat)
    requires Ascending(at, inputs)
    ensures k <= |inputs|
    ensures Run(interval, State(map[], at), inputs[..k]).buffer == map[]
    ensures var flush := Run(interval, State(map[], at), inputs).lastFlush;
            forall m :: k <= m < |inputs| ==> flush <= inputs[m].at
  {
    k := BufferedUpdatesAreRecent(interval, at, inputs);
  }

  /** A wake-up that leaves something buffered comes, and sets its timer, less than one interval after
      the last flush; only a return sets one later. */
  lemma SetLateByReturn(interval: nat, at: nat, moments: seq<Moment>)
    requires var c := Through(interval, at, moments);
             c.state.buffer != map[] && c.state.lastFlush + interval <= c.armed
    ensures moments != [] && moments[|moments| - 1].Return?
  {
    if moments != [] && moments[|moments| - 1].Wake? {
      EmptiesOrIsRecent(interval, Through(interval, at, moments[..|moments| - 1]).state, moments[|moments| - 1].input);
    }
  }

  /** `time` is a moment in a prompt run at which the timer has not fired yet. */
  predicate BeforeTimer(interval: nat, least: nat, at: nat, moments: seq<Moment>, time: nat) {
    var c := Through(interval, at, moments);
    Prompt(interval, least, at, moments) && c.armed <= time <= DueAt(interval, least, c.state.lastFlush, c.armed)
  }

  lemma TimeIsBounded(interval: nat, least: nat, at: nat, moments: seq<Moment>, time: nat)
    requires BeforeTimer(interval, least, at, moments, time)
    ensures var c := Through(interval, at, moments); time <= Max(c.state.lastFlush + interval, c.armed + least)
  {
    var c := Through(interval, at, moments);
    ClockAdvances(interval, least, at, moments);
    DueIsTheLater(interval, least, c.state.lastFlush, c.armed);
  }

  lemma EachWaits(inputs: seq<Input>, k: nat, flush: nat, interval: nat, latest: nat, time: nat)
    requires forall m :: k <= m < |inputs| ==> flush <= inputs[m].at
    requires time <= Max(flush + interval, latest)
    ensures forall m :: k <= m < |inputs| ==> time <= Max(inputs[m].at + interval, latest)
  {
  }

  /** How long an update can wait, over every run in which `recv` is dropped and called again at will:
      until the timer fires, every update since the buffer was last emptied (after `k` wake-ups) is
      at most one interval old, or the timer was set no more than its least delay ago. */
  lemma NothingWaitsPastTheTimer(interval: nat, least: nat, at: nat, moments: seq<Moment>, time: nat) returns (k: nat)
    requires BeforeTimer(interval, least, at, moments, time)
    ensures k <= |Wakes(moments)|
    ensures Run(interval, State(map[], at), Wakes(moments)[..k]).buffer == map[]
    ensures forall m :: k <= m < |Wakes(moments)| ==>
              time <= Max(Wakes(moments)[m].at + interval, Through(interval, at, moments).armed + least)
  {
    var c, wakes := Through(interval, at, moments), Wakes(moments);
    assert Ascending(at, wakes) by {
      ClockAdvances(interval, least, at, moments);
    }
    k := ArrivedAfterFlush(interval, at, wakes);
    assert forall m :: k <= m < |wakes| ==> c.state.lastFlush <= wakes[m].at by {
      DropsKeepTheRun(interval, at, moments);
    }
    assert time <= Max(c.state.lastFlush + interval, c.armed + least) by {
      TimeIsBounded(interval, least, at, moments, time);
    }
    EachWaits(wakes, k, c.state.lastFlush, interval, c.armed + least, time);
  }

  /** Something is buffered one interval and the least delay after the last flush only if the last
      thing that happened is that `recv` was called again with the interval already over. */
  lemma OverdueOnlyAfterReturn(interval: nat, least: nat, at: nat, moments: seq<Moment>, time: nat)
    requires 0 < least && BeforeTimer(interval, least, at, moments, time)
    requires Through(interval, at, moments).state.buffer != map[]
    requires Through(interval, at, moments).state.lastFlush + interval + least <= time
    ensures moments != [] && moments[|moments| - 1].Return?
    ensures Through(interval, at, moments).state.lastFlush + interval <= moments[|moments| - 1].back
  {
    TimeIsBounded(interval, least, at, moments, time);
    SetLateByReturn(interval, at, moments);
  }

  /** A caller that comes back one tick later every time. */
  function Returning(n: nat): seq<Moment> {
    seq(n, (i: nat) => Return(i + 1, i + 1))
  }

  lemma FirstWake(interval: nat, least: nat, u: GridUpdate)
    requires 0 < interval
    ensures Prompt(interval, least, 0, [Wake(Update(u, 0))])
    ensures Through(interval, 0, [Wake(Update(u, 0))]) == Clocked(State(map[Key(u.tab, u.source) := u], 0), 0)
  {
    assert [Wake(Update(u, 0))][..0] == [];
    assert Through(interval, 0, []) == Clocked(State(map[], 0), 0) && Prompt(interval, least, 0, []);
    assert |map[Key(u.tab, u.source) := u]| == 1;
  }

  /** Such returns can hold an update back for any length of time: if `recv` is called anew more
      often than the timer's least delay, the timer, prompt as it is, never becomes due. */
  lemma {:induction false} ReturnsStarveTheTimer(interval: nat, least: nat, u: GridUpdate, n: nat)
    requires 0 < interval && 2 <= least
    ensures var moments := [Wake(Update(u, 0))] + Returning(n);
            && Prompt(interval, least, 0, moments)
            && Through(interval, 0, moments) == Clocked(State(map[Key(u.tab, u.source) := u], 0), n)
  {
    var moments := [Wake(Update(u, 0))] + Returning(n);
    if n == 0 {
      assert moments == [Wake(Update(u, 0))];
      FirstWake(interval, least, u);
    } else {
      ReturnsStarveTheTimer(interval, least, u, n - 1);
      assert Returning(n) == Returning(n - 1) + [Return(n, n)];
      assert moments[..|moments| - 1] == [Wake(Update(u, 0))] + Returning(n - 1);
    }
  }

  // ── What a batch delivers ───────────────────────────────────────────────

  predicate Holds(buffer: Buffer, tab: string, source: Source) { Key(tab, source) in buffer }

  function InsertedAll(updates: seq<GridUpdate>): Buffer {
    if updates == [] then map[] else Inserted(InsertedAll(updates[..|updates| - 1]), updates[|updates| - 1])
  }

  /** The updates received since the buffer was last emptied, up to and with the last input. */
  function Arrived(interval: nat, s: State, inputs: seq<Input>): seq<GridUpdate>
    decreases |inputs|, 0
  {
    if inputs == [] then []
    else Held(interval, s, inputs[..|inputs| - 1])
         + (if inputs[|inputs| - 1].Update? then [inputs[|inputs| - 1].update] else [])
  }

  /** Those of them that have not been handed over. */
  function Held(interval: nat, s: State, inputs: seq<Input>): seq<GridUpdate>
    decreases |inputs|, 1
  {
    if inputs == [] || LastReply(interval, s, inputs) != Waiting then [] else Arrived(interval, s, inputs)
  }

  lemma RespondMerges(interval: nat, s: State, i: Input, held: seq<GridUpdate>)
    requires s.buffer == InsertedAll(held)
    ensures var (s', reply) := Respond(interval, s, i);
            var arrived := held + (if i.Update? then [i.update] else []);
            && s'.buffer == InsertedAll(if reply == Waiting then arrived else [])
            && (reply.Batch? && !i.Lagged? ==> reply.updates == InsertedAll(arrived))
  {
    if i.Update? {
      assert (held + [i.update])[..|held|] == held;
      assert InsertedAll(held + [i.update]) == Inserted(InsertedAll(held), i.update);
    } else {
      assert held + [] == held;
    }
  }

  /** In every run the buffer is the merge of the updates held, and a batch the merge of all that
      arrived since the one before. */
  lemma {:induction false} BatchMergesWhatArrived(interval: nat, at: nat, inputs: seq<Input>)
    ensures var s := State(map[], at);
            && Run(interval, s, inputs).buffer == InsertedAll(Held(interval, s, inputs))
            && (inputs != [] && !inputs[|inputs| - 1].Lagged? && LastReply(interval, s, inputs).Batch? ==>
                  LastReply(interval, s, inputs).updates == InsertedAll(Arrived(interval, s, inputs)))
  {
    if inputs != [] {
      var s, before := State(map[], at), inputs[..|inputs| - 1];
      BatchMergesWhatArrived(interval, at, before);
      RespondMerges(interval, Run(interval, s, before), inputs[|inputs| - 1], Held(interval, s, before));
    }
  }

  // ── When a batch is due ─────────────────────────────────────────────────

  /** The tabs and sources that `updates` are for. */
  function Origins(updates: seq<GridUpdate>): set<(string, Source)> {
    set i | 0 <= i < |updates| :: (updates[i].tab, updates[i].source)
  }

  lemma OriginsOfSnoc(updates: seq<GridUpdate>, u: GridUpdate)
    ensures Origins(updates + [u]) == Origins(updates) + {(u.tab, u.source)}
  {
    var all := updates + [u];
    assert all[|updates|] == u;
    forall i | 0 <= i < |updates|
      ensures (updates[i].tab, updates[i].source) in Origins(all)
    {
      assert all[i] == updates[i];
    }
  }

  lemma {:induction false} OriginIsHeld(updates: seq<GridUpdate>, tab: string, source: Source)
    ensures (tab, source) in Origins(updates) <==> Holds(InsertedAll(updates), tab, source)
  {
    if updates != [] {
      var init, u := updates[..|updates| - 1], updates[|updates| - 1];
      assert init + [u] == updates;
      OriginIsHeld(init, tab, source);
      OriginsOfSnoc(init, u);
      InsertedHolds(InsertedAll(init), u, tab, source);
    }
  }

  /** A buffer holds one update for each tab and source that any arrived for. */
  lemma {:induction false} BufferCountsOrigins(updates: seq<GridUpdate>)
    ensures |InsertedAll(updates)| == |Origins(updates)|
  {
    if updates == [] {
      assert Origins(updates) == {};
    } else {
      var init, u := updates[..|updates| - 1], updates[|updates| - 1];
      assert init + [u] == updates;
      BufferCountsOrigins(init);
      OriginsOfSnoc(init, u);
      OriginIsHeld(init, u.tab, u.source);
      InsertedSize(InsertedAll(init), u);
    }
  }

  lemma InsertedSize(buffer: Buffer, u: GridUpdate)
    ensures |Inserted(buffer, u)| == |buffer| + (if Holds(buffer, u.tab, u.source) then 0 else 1)
  {
    var key := Key(u.tab, u.source);
    assert Inserted(buffer, u).Keys == buffer.Keys + {key};
    assert |Inserted(buffer, u)| == |Inserted(buffer, u).Keys| && |buffer| == |buffer.Keys|;
  }

  /** When the buffer was last emptied, or found empty by the timer, by the clocks of the inputs. */
  function FlushClock(interval: nat, at: nat, inputs: seq<Input>): nat {
    if inputs == [] then at
    else
      var i, reply := inputs[|inputs| - 1], LastReply(interval, State(map[], at), inputs);
      if reply.Batch? || i.Timer? then i.at else FlushClock(interval, at, inputs[..|inputs| - 1])
  }

  lemma {:induction false} FlushClockIsKept(interval: nat, at: nat, inputs: seq<Input>)
    ensures Run(interval, State(map[], at), inputs).lastFlush == FlushClock(interval, at, inputs)
  {
    if inputs != [] {
      FlushClockIsKept(interval, at, inputs[..|inputs| - 1]);
    }
  }

  lemma RespondsExactlyWhen(interval: nat, s: State, i: Input, held: seq<GridUpdate>)
    requires s.buffer == InsertedAll(held)
    ensures var reply := Respond(interval, s, i).1;
            && (i.Update? ==>
                  (reply.Batch? <==> 10 <= |Origins(held + [i.update])| || interval <= Max(0, i.at - s.lastFlush)))
            && (i.Timer? ==> (reply.Batch? <==> held != []))
            && (i.Closed? ==> if held != [] then reply.Batch? else reply.End?)
            && (i.Lagged? ==> reply == Batch(map[]))
  {
    if i.Update? {
      BufferCountsOrigins(held + [i.update]);
      assert (held + [i.update])[..|held|] == held;
      assert InsertedAll(held + [i.update]) == Inserted(InsertedAll(held), i.update);
    } else {
      MergeOfNone(held);
    }
  }

  /** Exactly when each input makes a batch, in every run.  An update does so if and only if the updates
      arrived since the buffer was last emptied are for ten tabs and sources or more, or it is read
      one interval or more after the last flush; a timer or a closed channel if and only if
      something has arrived since the buffer was last emptied; a lag always, and that batch is empty. */
  lemma BatchIsDueExactlyWhen(interval: nat, at: nat, inputs: seq<Input>)
    requires inputs != []
    ensures var s := State(map[], at);
            var arrived, reply := Arrived(interval, s, inputs), LastReply(interval, s, inputs);
            var i, flush := inputs[|inputs| - 1], FlushClock(interval, at, inputs[..|inputs| - 1]);
            && (i.Update? ==> (reply.Batch? <==> 10 <= |Origins(arrived)| || interval <= Max(0, i.at - flush)))
            && (i.Timer? ==> (reply.Batch? <==> arrived != []))
            && (i.Closed? ==> if arrived != [] then reply.Batch? else reply.End?)
            && (i.Lagged? ==> reply == Batch(map[]))
  {
    var s, before, i := State(map[], at), inputs[..|inputs| - 1], inputs[|inputs| - 1];
    var held := Held(interval, s, before);
    BatchMergesWhatArrived(interval, at, before);
    FlushClockIsKept(interval, at, before);
    RespondsExactlyWhen(interval, Run(interval, s, before), i, held);
    assert !i.Update? ==> Arrived(interval, s, inputs) == held;
  }

  lemma MergeOfNone(updates: seq<GridUpdate>)
    ensures InsertedAll(updates) == map[] <==> updates == []
  {
    if updates != [] {
      var u := updates[|updates| - 1];
      InsertedHolds(InsertedAll(updates[..|updates| - 1]), u, u.tab, u.source);
    }
  }

  /** The grids of one tab and source among `updates`, in order. */
  function Grids(updates: seq<GridUpdate>, tab: string, source: Source): seq<Entries> {
    if updates == [] then []
    else
      var u := updates[|updates| - 1];
      Grids(updates[..|updates| - 1], tab, source) + (if u.tab == tab && u.source == source then [u.entries] else [])
  }

  function Concat(grids: seq<Entries>): Entries {
    if grids == [] then [] else Concat(grids[..|grids| - 1]) + grids[|grids| - 1]
  }

  lemma {:induction false} InsertedAllIsKeyed(updates: seq<GridUpdate>)
    ensures WellKeyed(InsertedAll(updates))
  {
    if updates != [] {
      InsertedAllIsKeyed(updates[..|updates| - 1]);
      InsertedKeeps(InsertedAll(updates[..|updates| - 1]), Update(updates[|updates| - 1], 0));
    }
  }

  lemma InsertedHolds(buffer: Buffer, u: GridUpdate, tab: string, source: Source)
    ensures Holds(Inserted(buffer, u), tab, source) <==> Holds(buffer, tab, source) || (u.tab == tab && u.source == source)
  {
    KeySeparates(u.tab, u.source, tab, source);
  }

  /** Merging keeps one update per tab and source, with all its grids one after the other. */
  lemma {:induction false} MergedGrids(updates: seq<GridUpdate>, tab: string, source: Source)
    ensures Holds(InsertedAll(updates), tab, source) <==> Grids(updates, tab, source) != []
    ensures EntriesFor(InsertedAll(updates), tab, source) == Concat(Grids(updates, tab, source))
  {
    if updates != [] {
      var init, u := updates[..|updates| - 1], updates[|updates| - 1];
      var grids := Grids(init, tab, source);
      MergedGrids(init, tab, source);
      InsertedHolds(InsertedAll(init), u, tab, source);
      InsertedExtends(InsertedAll(init), u, tab, source);
      assert InsertedAll(updates) == Inserted(InsertedAll(init), u);
      if u.tab == tab && u.source == source {
        assert (grids + [u.entries])[..|grids|] == grids;
        assert Concat(grids + [u.entries]) == Concat(grids) + u.entries;
      } else {
        assert Grids(updates, tab, source) == grids;
      }
    }
  }

  lemma {:induction false} ConcatIsEmptyExactlyWhen(grids: seq<Entries>)
    ensures Concat(grids) == [] <==> forall i :: 0 <= i < |grids| ==> grids[i] == []
  {
    if grids != [] {
      var init := grids[..|grids| - 1];
      ConcatIsEmptyExactlyWhen(init);
      assert forall i :: 0 <= i < |init| ==> init[i] == grids[i];
    }
  }

  lemma ConcatIsLastExactlyWhen(grids: seq<Entries>)
    requires grids != []
    ensures Concat(grids) == grids[|grids| - 1] <==> forall i :: 0 <= i < |grids| - 1 ==> grids[i] == []
  {
    var init := grids[..|grids| - 1];
    ConcatIsEmptyExactlyWhen(init);
    assert forall i :: 0 <= i < |init| ==> init[i] == grids[i];
    assert |Concat(grids)| == |Concat(init)| + |grids[|grids| - 1]|;
  }

  /** The last of `inputs`, no lag, makes the batcher hand over a batch. */
  predicate Delivers(interval: nat, at: nat, inputs: seq<Input>) {
    inputs != [] && !inputs[|inputs| - 1].Lagged? && LastReply(interval, State(map[], at), inputs).Batch?
  }

  lemma MergeIsNewestExactlyWhen(updates: seq<GridUpdate>, tab: string, source: Source)
    ensures var grids := Grids(updates, tab, source);
            && (Holds(InsertedAll(updates), tab, source) <==> grids != [])
            && (grids != [] ==>
                  (EntriesFor(InsertedAll(updates), tab, source) == grids[|grids| - 1]
                   <==> forall i :: 0 <= i < |grids| - 1 ==> grids[i] == []))
  {
    MergedGrids(updates, tab, source);
    if Grids(updates, tab, source) != [] {
      ConcatIsLastExactlyWhen(Grids(updates, tab, source));
    }
  }

  /** Each update carries a whole grid, but merging appends.  In every run, what a batch delivers for
      a tab and source is the newest grid that arrived for it exactly when all earlier ones since
      the previous batch were empty; it delivers something for it exactly when a grid arrived. */
  lemma MergedIsNewestExactlyWhen(interval: nat, at: nat, inputs: seq<Input>, tab: string, source: Source)
    requires Delivers(interval, at, inputs)
    ensures var batch := LastReply(interval, State(map[], at), inputs).updates;
            var grids := Grids(Arrived(interval, State(map[], at), inputs), tab, source);
            && (Holds(batch, tab, source) <==> grids != [])
            && (grids != [] ==>
                  (EntriesFor(batch, tab, source) == grids[|grids| - 1]
                   <==> forall i :: 0 <= i < |grids| - 1 ==> grids[i] == []))
  {
    BatchMergesWhatArrived(interval, at, inputs);
    MergeIsNewestExactlyWhen(Arrived(interval, State(map[], at), inputs), tab, source);
  }

  /** Two live grids of one tab within an interval are delivered as one grid, old entries first. */
  lemma BatchDeliversOldEntriesToo()
    ensures var first := GridUpdate("movies", ["old"], Live);
            var second := GridUpdate("movies", ["new"], Live);
            var inputs := [Update(first, 10)] + [Update(second, 200)];
            && Delivers(200, 0, inputs)
            && LastReply(200, State(map[], 0), inputs).updates
               == map[Key("movies", Live) := GridUpdate("movies", ["old"] + ["new"], Live)]
  {
    var first := Update(GridUpdate("movies", ["old"], Live), 10);
    var second := Update(GridUpdate("movies", ["new"], Live), 200);
    assert [first][..0] == [] && ([first] + [second])[..1] == [first];
    var key := Key("movies", Live);
    assert Run(200, State(map[], 0), [first]) == State(map[key := first.update], 0);
  }

  // ── What the client shows ───────────────────────────────────────────────

  /** The last update of a tab; a client shows its entries after applying `updates` in order. */
  function LastOf(updates: seq<GridUpdate>, tab: string): Option<GridUpdate> {
    if updates == [] then None
    else if updates[|updates| - 1].tab == tab then Some(updates[|updates| - 1])
    else LastOf(updates[..|updates| - 1], tab)
  }

  predicate ShowsGrid(updates: seq<GridUpdate>, tab: string, grid: Entries) {
    LastOf(updates, tab).Some? && LastOf(updates, tab).value.entries == grid
  }

  lemma {:induction false} LastOfIsThere(updates: seq<GridUpdate>, tab: string)
    ensures LastOf(updates, tab).Some? ==> LastOf(updates, tab).value in updates && LastOf(updates, tab).value.tab == tab
    ensures LastOf(updates, tab).None? ==> forall i :: 0 <= i < |updates| ==> updates[i].tab != tab
  {
    if updates != [] {
      LastOfIsThere(updates[..|updates| - 1], tab);
    }
  }

  /** Some order of a buffer's updates. */
  lemma {:induction false} SomeOrder(buffer: Buffer) returns (batch: seq<GridUpdate>)
    requires WellKeyed(buffer)
    ensures Lists(batch, buffer)
    decreases |buffer|
  {
    if buffer == map[] {
      batch := [];
    } else {
      assert buffer.Keys != {};
      var key :| key in buffer;
      batch := OrderEndingIn(buffer, key);
    }
  }

  /** An order with any given update last. */
  lemma {:induction false} OrderEndingIn(buffer: Buffer, key: string) returns (batch: seq<GridUpdate>)
    requires WellKeyed(buffer) && key in buffer
    ensures Lists(batch, buffer) && batch != [] && batch[|batch| - 1] == buffer[key]
    decreases |buffer|, 0
  {
    var rest := buffer - {key};
    assert buffer.Keys == rest.Keys + {key};
    assert |buffer.Keys| == |rest.Keys| + 1;
    var first := SomeOrder(rest);
    batch := first + [buffer[key]];
    ListsOneMore(buffer, key, first);
  }

  lemma ListsOneMore(buffer: Buffer, key: string, first: seq<GridUpdate>)
    requires WellKeyed(buffer) && key in buffer && Lists(first, buffer - {key})
    ensures Lists(first + [buffer[key]], buffer)
  {
    var batch := first + [buffer[key]];
    assert buffer.Keys == (buffer - {key}).Keys + {key};
    assert |buffer.Keys| == |(buffer - {key}).Keys| + 1;
    assert batch[|first|] == buffer[key];
    forall k | k in buffer
      ensures buffer[k] in batch
    {
      assert k != key ==> (buffer - {key})[k] in first;
    }
  }

  lemma HeldIsShown(buffer: Buffer, batch: seq<GridUpdate>, tab: string, source: Source)
    requires WellKeyed(buffer) && Lists(batch, buffer) && Holds(buffer, tab, source)
    ensures LastOf(batch, tab).Some?
  {
    var u := buffer[Key(tab, source)];
    KeySeparates(tab, source, u.tab, u.source);
    LastOfIsThere(batch, tab);
    assert u in batch && u.tab == tab;
  }

  lemma ShownIsHeld(buffer: Buffer, batch: seq<GridUpdate>, tab: string)
    requires WellKeyed(buffer) && Lists(batch, buffer) && LastOf(batch, tab).Some?
    ensures var u := LastOf(batch, tab).value; Holds(buffer, tab, u.source) && EntriesFor(buffer, tab, u.source) == u.entries
  {
    LastOfIsThere(batch, tab);
  }

  lemma SomeOrderShows(buffer: Buffer, tab: string, source: Source) returns (batch: seq<GridUpdate>)
    requires WellKeyed(buffer) && Holds(buffer, tab, source)
    ensures Lists(batch, buffer) && LastOf(batch, tab).Some?
    ensures LastOf(batch, tab).value.entries == EntriesFor(buffer, tab, source)
  {
    var u := buffer[Key(tab, source)];
    KeySeparates(tab, source, u.tab, u.source);
    batch := OrderEndingIn(buffer, Key(tab, source));
  }

  /** A hash map drains in any order: the client ends up with `grid` in every order exactly when the
      batch has an update of the tab and each source it has one of carries `grid`. */
  lemma EveryOrderShowsExactlyWhen(buffer: Buffer, tab: string, grid: Entries)
    requires WellKeyed(buffer)
    ensures (forall batch :: Lists(batch, buffer) ==> ShowsGrid(batch, tab, grid))
            <==> (&& (Holds(buffer, tab, Cache) || Holds(buffer, tab, Live))
                  && (Holds(buffer, tab, Cache) ==> EntriesFor(buffer, tab, Cache) == grid)
                  && (Holds(buffer, tab, Live) ==> EntriesFor(buffer, tab, Live) == grid))
  {
    if forall batch :: Lists(batch, buffer) ==> ShowsGrid(batch, tab, grid) {
      var some := SomeOrder(buffer);
      assert ShowsGrid(some, tab, grid);
      ShownIsHeld(buffer, some, tab);
      if Holds(buffer, tab, Cache) {
        var batch := SomeOrderShows(buffer, tab, Cache);
        assert ShowsGrid(batch, tab, grid);
      }
      if Holds(buffer, tab, Live) {
        var batch := SomeOrderShows(buffer, tab, Live);
        assert ShowsGrid(batch, tab, grid);
      }
    } else {
      var batch :| Lists(batch, buffer) && !ShowsGrid(batch, tab, grid);
      if Holds(buffer, tab, Cache) {
        HeldIsShown(buffer, batch, tab, Cache);
      }
      if Holds(buffer, tab, Live) {
        HeldIsShown(buffer, batch, tab, Live);
      }
      if LastOf(batch, tab).Some? {
        ShownIsHeld(buffer, batch, tab);
      }
    }
  }

  function Other(source: Source): Source { if source == Cache then Live else Cache }

  lemma {:induction false} LastGridIsNewest(updates: seq<GridUpdate>, tab: string)
    requires LastOf(updates, tab).Some?
    ensures var u := LastOf(updates, tab).value;
            var grids := Grids(updates, tab, u.source);
            grids != [] && grids[|grids| - 1] == u.entries
  {
    if updates[|updates| - 1].tab != tab {
      LastGridIsNewest(updates[..|updates| - 1], tab);
    }
  }

  lemma MergeShowsNewestExactlyWhen(updates: seq<GridUpdate>, tab: string)
    requires LastOf(updates, tab).Some?
    ensures var newest := LastOf(updates, tab).value;
            var same, other := Grids(updates, tab, newest.source), Grids(updates, tab, Other(newest.source));
            (forall batch :: Lists(batch, InsertedAll(updates)) ==> ShowsGrid(batch, tab, newest.entries))
            <==> (forall i :: 0 <= i < |same| - 1 ==> same[i] == []) && (other == [] || Concat(other) == newest.entries)
  {
    var newest := LastOf(updates, tab).value;
    LastGridIsNewest(updates, tab);
    MergedGrids(updates, tab, newest.source);
    MergedGrids(updates, tab, Other(newest.source));
    ConcatIsLastExactlyWhen(Grids(updates, tab, newest.source));
    InsertedAllIsKeyed(updates);
    EveryOrderShowsExactlyWhen(InsertedAll(updates), tab, newest.entries);
  }

  /** Exactly when a batch is sure to leave the client on the newest grid of a tab: all earlier grids
      of the newest one's source were empty, and the other source brought nothing, or the same. */
  lemma BatchShowsNewestExactlyWhen(interval: nat, at: nat, inputs: seq<Input>, tab: string)
    requires Delivers(interval, at, inputs)
    requires LastOf(Arrived(interval, State(map[], at), inputs), tab).Some?
    ensures var arrived := Arrived(interval, State(map[], at), inputs);
            var newest := LastOf(arrived, tab).value;
            var same, other := Grids(arrived, tab, newest.source), Grids(arrived, tab, Other(newest.source));
            (forall batch :: Lists(batch, LastReply(interval, State(map[], at), inputs).updates) ==>
                               ShowsGrid(batch, tab, newest.entries))
            <==> (forall i :: 0 <= i < |same| - 1 ==> same[i] == []) && (other == [] || Concat(other) == newest.entries)
  {
    BatchMergesWhatArrived(interval, at, inputs);
    MergeShowsNewestExactlyWhen(Arrived(interval, State(map[], at), inputs), tab);
  }
}
