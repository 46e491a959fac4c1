/**
 The start-up gate of the catalog: any number of tab tasks wait for the plugin
 registry, any number of callers signal that it is loaded.  A run is a sequence of
 scheduler choices; an event that is not enabled leaves the world as it is, so a
 statement about every event sequence is a statement about every interleaving.
 */
module ReadyGate {
  import opened Prelude

  /** Whether a waiter registers before it loads the flag (the code) or only when it is
      first polled, after the load (the order the code's comment warns against). */
  datatype Discipline = EnableFirst | LoadFirst

  /** What `init_tab` finds on disk when it starts. */
  datatype DiskCache = Missing | Cached(fetchedAt: nat)

  /** Where a tab task stands. */
  datatype Pc =
    | Boot        // about to read its disk cache
    | Gate        // about to enable its notification
    | Enabled     // about to load the flag
    | Unseen      // loaded `false`, about to await
    | Parked      // suspended in the await
    | Refreshing  // went through the gate, the start-up refresh has begun
    | Served      // the cache was fresh: no refresh at all

  /** `read` is what the clock showed when the task read its disk cache. */
  datatype Task = Task(pc: Pc, disk: DiskCache, read: Option<nat>, listening: bool, woken: bool)

  /** A call to `mark_plugins_ready`: flag not stored, flag stored, waiters notified. */
  datatype Marker = NotYet | Stored | Finished

  datatype World = World(flag: bool, tasks: seq<Task>, markers: seq<Marker>)

  /** The next atomic action of one task, with the clock it may read, or of one signalling call. */
  datatype Event = Turn(task: nat, now: nat) | Mark(marker: nat)

  datatype Config = Config(order: Discipline, ttl: nat)

  /** `now_secs().saturating_sub(fetched_at)` */
  function Age(now: nat, fetchedAt: nat): nat { Max(0, now - fetchedAt) }

  /** A grid younger than half its time to live is served without a refresh. */
  predicate WantsRefresh(cfg: Config, disk: DiskCache, now: nat) {
    disk.Missing? || cfg.ttl / 2 <= Age(now, disk.fetchedAt)
  }

  function TaskTurn(cfg: Config, flag: bool, now: nat, t: Task): Task {
    match t.pc
    case Boot => t.(pc := if WantsRefresh(cfg, t.disk, now) then Gate else Served, read := Some(now))
    case Gate => t.(pc := Enabled, listening := cfg.order.EnableFirst?)
    case Enabled => t.(pc := if flag then Refreshing else Unseen)
    case Unseen => if t.woken then t.(pc := Refreshing) else t.(pc := Parked, listening := true)
    case Parked => if t.woken then t.(pc := Refreshing) else t
    case Refreshing => t
    case Served => t
  }

  /** `notify_waiters` reaches the tasks registered at that moment, and only those. */
  function Notified(t: Task): Task {
    if t.listening then t.(listening := false, woken := true) else t
  }

  function Step(cfg: Config, w: World, e: Event): World {
    match e
    case Turn(i, now) =>
      if i < |w.tasks| then w.(tasks := w.tasks[i := TaskTurn(cfg, w.flag, now, w.tasks[i])]) else w
    case Mark(m) =>
      if |w.markers| <= m then w
      else match w.markers[m]
        case NotYet => w.(flag := true, markers := w.markers[m := Stored])
        case Stored =>
          w.(tasks := seq(|w.tasks|, i requires 0 <= i < |w.tasks| => Notified(w.tasks[i])),
             markers := w.markers[m := Finished])
        case Finished => w
  }

  function Init(disks: seq<DiskCache>, markers: nat): World {
    World(false,
          seq(|disks|, i requires 0 <= i < |disks| => Task(Boot, disks[i], None, false, false)),
          seq(markers, _ => NotYet))
  }

  function Run(cfg: Config, w: World, events: seq<Event>): World {
    if events == [] then w else Step(cfg, Run(cfg, w, events[..|events| - 1]), events[|events| - 1])
  }

  predicate SomeStored(w: World) { exists m :: 0 <= m < |w.markers| && w.markers[m] != NotYet }

  predicate SomeFinished(w: World) { exists m :: 0 <= m < |w.markers| && w.markers[m] == Finished }

  predicate Waiting(t: Task) { t.pc == Unseen || t.pc == Parked }

  /** What every reachable world satisfies. */
  ghost predicate Inv(cfg: Config, w: World) {
    && (w.flag <==> SomeStored(w))
    && (forall i :: 0 <= i < |w.tasks| ==> TaskInv(cfg, w, w.tasks[i]))
  }

  ghost predicate TaskInv(cfg: Config, w: World, t: Task) {
    && (t.pc == Boot <==> t.read.None?)
    && (t.pc == Refreshing ==> w.flag)
    && (t.pc == Served ==> !WantsRefresh(cfg, t.disk, t.read.value))
    && (t.pc != Boot && t.pc != Served ==> WantsRefresh(cfg, t.disk, t.read.value))
    && (t.woken ==> w.flag)
    && (cfg.order.EnableFirst? ==>
          && (t.pc == Enabled ==> t.listening || t.woken)
          && (Waiting(t) && !t.woken ==> t.listening && !SomeFinished(w)))
  }

  lemma StepKeepsFlag(cfg: Config, w: World, e: Event)
    requires Inv(cfg, w)
    ensures Step(cfg, w, e).flag <==> SomeStored(Step(cfg, w, e))
    ensures w.flag ==> Step(cfg, w, e).flag
  {
    var w' := Step(cfg, w, e);
    if e.Mark? && e.marker < |w.markers| {
      assert w'.markers[e.marker] != NotYet;
    }
    if SomeStored(w) {
      var m :| 0 <= m < |w.markers| && w.markers[m] != NotYet;
      assert w'.markers[m] != NotYet;
    }
  }

  lemma StepKeepsInv(cfg: Config, w: World, e: Event)
    requires Inv(cfg, w)
    ensures Inv(cfg, Step(cfg, w, e))
  {
    var w' := Step(cfg, w, e);
    StepKeepsFlag(cfg, w, e);
    if SomeFinished(w') && !SomeFinished(w) {
      assert e.Mark? && e.marker < |w.markers| && w.markers[e.marker] == Stored;
    }
    if SomeFinished(w) {
      var m :| 0 <= m < |w.markers| && w.markers[m] == Finished;
      assert SomeStored(w);
      assert w'.markers[m] == Finished;
    }
  }

  lemma {:induction false} RunKeepsInv(cfg: Config, disks: seq<DiskCache>, markers: nat, events: seq<Event>)
    ensures Inv(cfg, Run(cfg, Init(disks, markers), events))
    ensures |Run(cfg, Init(disks, markers), events).tasks| == |disks|
  {
    if events != [] {
      var before := events[..|events| - 1];
      RunKeepsInv(cfg, disks, markers, before);
      StepKeepsInv(cfg, Run(cfg, Init(disks, markers), before), events[|events| - 1]);
    }
  }

  /** No lost wake-up: once one `mark_plugins_ready` has returned, every task that is
      awaiting (or about to) has been woken. */
  lemma NoLostWakeup(cfg: Config, disks: seq<DiskCache>, markers: nat, events: seq<Event>, i: nat)
    requires cfg.order == EnableFirst
    requires i < |disks|
    requires SomeFinished(Run(cfg, Init(disks, markers), events))
    ensures |Run(cfg, Init(disks, markers), events).tasks| == |disks|
    ensures Waiting(Run(cfg, Init(disks, markers), events).tasks[i]) ==>
              Run(cfg, Init(disks, markers), events).tasks[i].woken
  {
    RunKeepsInv(cfg, disks, markers, events);
  }

  /** What the clock shows at the first turn of task `i`, which is when it reads its cache. */
  function FirstTurn(events: seq<Event>, i: nat): Option<nat> {
    if events == [] then None
    else
      var earlier, e := FirstTurn(events[..|events| - 1], i), events[|events| - 1];
      if earlier.Some? then earlier else if e.Turn? && e.task == i then Some(e.now) else None
  }

  /** A task reads its own cache once, at its first turn, and keeps what it read. */
  lemma {:induction false} ReadsAtFirstTurn(cfg: Config, w: World, events: seq<Event>, i: nat)
    requires i < |w.tasks| && (w.tasks[i].pc == Boot <==> w.tasks[i].read.None?)
    ensures var w' := Run(cfg, w, events);
            && |w'.tasks| == |w.tasks| && w'.tasks[i].disk == w.tasks[i].disk
            && (w'.tasks[i].pc == Boot <==> w'.tasks[i].read.None?)
            && w'.tasks[i].read == if w.tasks[i].read.Some? then w.tasks[i].read else FirstTurn(events, i)
  {
    if events != [] {
      ReadsAtFirstTurn(cfg, w, events[..|events| - 1], i);
    }
  }

  /** No start-up refresh begins before some caller has stored the flag, under either order;
      a task refreshes only if its cache wants it at its first turn and skips only if it does not. */
  lemma NoEarlyRefresh(cfg: Config, disks: seq<DiskCache>, markers: nat, events: seq<Event>, i: nat)
    requires i < |disks|
    ensures var w := Run(cfg, Init(disks, markers), events);
            var first := FirstTurn(events, i);
            && |w.tasks| == |disks|
            && (w.tasks[i].pc == Refreshing ==>
                  && SomeStored(w) && first.Some?
                  && (disks[i].Missing? || cfg.ttl < 2 * (Max(0, first.value - disks[i].fetchedAt) + 1)))
            && (w.tasks[i].pc == Served ==>
                  && first.Some? && disks[i].Cached?
                  && 2 * (Max(0, first.value - disks[i].fetchedAt) + 1) <= cfg.ttl)
  {
    RunKeepsInv(cfg, disks, markers, events);
    ReadsAtFirstTurn(cfg, Init(disks, markers), events, i);
    var w := Run(cfg, Init(disks, markers), events);
    assert TaskInv(cfg, w, w.tasks[i]);
  }

  /** How many own turns a task is away from settling once it cannot be held up. */
  function Distance(t: Task): nat {
    match t.pc
    case Boot => 5
    case Gate => 4
    case Enabled => 3
    case Unseen => 2
    case Parked => 1
    case Refreshing => 0
    case Served => 0
  }

  predicate IsTurn(e: Event, i: nat) { e.Turn? && e.task == i }

  function Turns(events: seq<Event>, i: nat): nat {
    if events == [] then 0
    else Turns(events[..|events| - 1], i) + (if IsTurn(events[|events| - 1], i) then 1 else 0)
  }

  lemma {:induction false} TurnsLeadToRefresh(cfg: Config, w: World, events: seq<Event>, i: nat)
    requires cfg.order == EnableFirst
    requires Inv(cfg, w) && SomeFinished(w) && i < |w.tasks|
    ensures Inv(cfg, Run(cfg, w, events)) && SomeFinished(Run(cfg, w, events))
    ensures |Run(cfg, w, events).tasks| == |w.tasks|
    ensures Distance(Run(cfg, w, events).tasks[i]) <= Max(0, Distance(w.tasks[i]) - Turns(events, i))
  {
    if events != [] {
      var before, e := events[..|events| - 1], events[|events| - 1];
      TurnsLeadToRefresh(cfg, w, before, i);
      OneStepCloser(cfg, Run(cfg, w, before), e, i);
    }
  }

  /** After the signal, a task's own turn brings it closer and no other event sets it back. */
  lemma OneStepCloser(cfg: Config, v: World, e: Event, i: nat)
    requires cfg.order == EnableFirst
    requires Inv(cfg, v) && SomeFinished(v) && i < |v.tasks|
    ensures Inv(cfg, Step(cfg, v, e)) && SomeFinished(Step(cfg, v, e))
    ensures |Step(cfg, v, e).tasks| == |v.tasks|
    ensures Distance(Step(cfg, v, e).tasks[i]) <= Max(0, Distance(v.tasks[i]) - (if IsTurn(e, i) then 1 else 0))
  {
    StepKeepsInv(cfg, v, e);
    var m :| 0 <= m < |v.markers| && v.markers[m] == Finished;
    assert Step(cfg, v, e).markers[m] == Finished;
    assert TaskInv(cfg, v, v.tasks[i]);
  }

  /** Every task gets through: in every continuation of every run in which some
      `mark_plugins_ready` has returned, a task that is scheduled five times is settled, and
      rests exactly if, at its first turn, it found a cached grid younger than half the time to live:
      with whole seconds, one whose age and one second more, doubled, fit into it. */
  lemma EveryTaskGetsThrough(cfg: Config, disks: seq<DiskCache>, markers: nat,
                             events: seq<Event>, more: seq<Event>, i: nat)
    requires cfg.order == EnableFirst
    requires i < |disks|
    requires SomeFinished(Run(cfg, Init(disks, markers), events))
    requires 5 <= Turns(more, i)
    ensures var w := Run(cfg, Run(cfg, Init(disks, markers), events), more);
            var first := if FirstTurn(events, i).Some? then FirstTurn(events, i) else FirstTurn(more, i);
            && i < |w.tasks| && first.Some?
            && w.tasks[i].pc ==
                 (if disks[i].Cached? && 2 * (Max(0, first.value - disks[i].fetchedAt) + 1) <= cfg.ttl
                  then Served else Refreshing)
  {
    var w := Run(cfg, Init(disks, markers), events);
    RunKeepsInv(cfg, disks, markers, events);
    ReadsAtFirstTurn(cfg, Init(disks, markers), events, i);
    TurnsLeadToRefresh(cfg, w, more, i);
    ReadsAtFirstTurn(cfg, w, more, i);
    var w' := Run(cfg, w, more);
    assert TaskInv(cfg, w', w'.tasks[i]);
  }

  /** Why the registration comes first: with the load first there is a run in which the only
      signal has returned and the task stays parked whatever is scheduled afterwards.  `LoadFirst`
      is the order the code's comment describes, where a waiter registers at its first poll; the
      documentation of tokio promises more, a wake-up by `notify_waiters` from the waiter's creation
      on, so the lemma is about the comment's account and not about that library. */
  lemma LateRegistrationHangs(more: seq<Event>)
    ensures var cfg := Config(LoadFirst, 0);
            var events := [Turn(0, 0), Turn(0, 0), Turn(0, 0), Mark(0), Mark(0), Turn(0, 0)];
            var w := Run(cfg, Init([Missing], 1), events);
            && SomeFinished(w)
            && Run(cfg, w, more) == w
            && |w.tasks| == 1 && w.tasks[0].pc == Parked && !w.tasks[0].woken
  {
    var cfg := Config(LoadFirst, 0);
    var t := Task(Boot, Missing, None, false, false);
    var w0 := Init([Missing], 1);
    assert w0 == World(false, [t], [NotYet]);
    var w1 := World(false, [t.(pc := Gate, read := Some(0))], [NotYet]);
    var w2 := World(false, [t.(read := Some(0), pc := Enabled)], [NotYet]);
    var w3 := World(false, [t.(read := Some(0), pc := Unseen)], [NotYet]);
    var w4 := World(true, [t.(read := Some(0), pc := Unseen)], [Stored]);
    var w5 := World(true, [t.(read := Some(0), pc := Unseen)], [Finished]);
    var w6 := World(true, [t.(read := Some(0), pc := Parked, listening := true)], [Finished]);
    assert Step(cfg, w0, Turn(0, 0)) == w1 && Step(cfg, w1, Turn(0, 0)) == w2 && Step(cfg, w2, Turn(0, 0)) == w3;
    assert Step(cfg, w3, Mark(0)) == w4 && Step(cfg, w4, Mark(0)) == w5 && Step(cfg, w5, Turn(0, 0)) == w6;
    RunChain(cfg, w0, [Turn(0, 0), Turn(0, 0), Turn(0, 0), Mark(0), Mark(0), Turn(0, 0)], [w0, w1, w2, w3, w4, w5, w6]);
    assert w6.markers[0] == Finished;
    StuckForever(cfg, w6, more);
  }

  lemma {:induction false} RunChain(cfg: Config, w: World, events: seq<Event>, worlds: seq<World>)
    requires |worlds| == |events| + 1 && worlds[0] == w
    requires forall k :: 0 <= k < |events| ==> Step(cfg, worlds[k], events[k]) == worlds[k + 1]
    ensures Run(cfg, w, events) == worlds[|events|]
  {
    if events != [] {
      RunChain(cfg, w, events[..|events| - 1], worlds[..|events|]);
    }
  }

  lemma {:induction false} StuckForever(cfg: Config, w: World, events: seq<Event>)
    requires |w.tasks| == 1 && w.tasks[0].pc == Parked && !w.tasks[0].woken && w.markers == [Finished]
    ensures Run(cfg, w, events) == w
  {
    if events != [] {
      StuckForever(cfg, w, events[..|events| - 1]);
    }
  }

  // ── The object ──────────────────────────────────────────────────────────

  class Gate {
    var flag: bool
    var tasks: seq<Task>
    var markers: seq<Marker>

    function State(): World
      reads this
    {
      World(flag, tasks, markers)
    }

    constructor (disks: seq<DiskCache>, markers: nat)
      ensures State() == Init(disks, markers)
    {
      this.flag := false;
      this.tasks := seq(|disks|, i requires 0 <= i < |disks| => Task(Boot, disks[i], None, false, false));
      this.markers := seq(markers, _ => NotYet);
    }

    /** The first half of `mark_plugins_ready`. */
    method StoreFlag(m: nat)
      requires m < |markers| && markers[m] == NotYet
      modifies this
      ensures State() == Step(Config(EnableFirst, 0), old(State()), Mark(m))
    {
      flag := true;
      markers := markers[m := Stored];
    }

    /** The second half: every registered task is woken and taken off the list. */
    method NotifyWaiters(m: nat)
      requires m < |markers| && markers[m] == Stored
      modifies this
      ensures State() == Step(Config(EnableFirst, 0), old(State()), Mark(m))
    {
      for i := 0 to |tasks|
        invariant |tasks| == |old(tasks)| && flag == old(flag) && markers == old(markers)
        invariant forall k :: 0 <= k < i ==> tasks[k] == Notified(old(tasks)[k])
        invariant forall k :: i <= k < |tasks| ==> tasks[k] == old(tasks)[k]
      {
        if tasks[i].listening {
          tasks := tasks[i := tasks[i].(listening := false, woken := true)];
        }
      }
      markers := markers[m := Finished];
    }

    /** `mark_plugins_ready`, with `turns` run by other tasks between its two halves. */
    method MarkPluginsReady(cfg: Config, m: nat, turns: seq<Event>)
      requires cfg.order == EnableFirst
      requires forall k :: 0 <= k < |turns| ==> turns[k].Turn?
      requires m < |markers| && markers[m] == NotYet && Inv(cfg, State())
      modifies this
      ensures Inv(cfg, State()) && SomeFinished(State()) && |tasks| == old(|tasks|)
      ensures forall i :: 0 <= i < |tasks| && Waiting(tasks[i]) ==> tasks[i].woken
    {
      StepKeepsInv(cfg, State(), Mark(m));
      StoreFlag(m);
      for k := 0 to |turns|
        invariant Inv(cfg, State()) && |tasks| == old(|tasks|) && m < |markers| && markers[m] == Stored
      {
        StepKeepsInv(cfg, State(), turns[k]);
        var i := turns[k].task;
        if i < |tasks| {
          tasks := tasks[i := TaskTurn(cfg, flag, turns[k].now, tasks[i])];
        }
      }
      StepKeepsInv(cfg, State(), Mark(m));
      NotifyWaiters(m);
      assert State().markers[m] == Finished;
    }
  }
}
