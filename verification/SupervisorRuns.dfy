/**
  What holds along every chain of snapshots, failures, recoveries and forgotten outputs: the records mirror the latest
  snapshot, each output's workers are started and stopped in strict alternation, and the pruned restart deque always
  stands for the full failure log.
 */
module SupervisorRuns {
  import opened Prelude
  import opened HotplugDiff
  import opened SupervisorModel

  /** The supervisor's records, plus the history the properties are about. */
  datatype World = World(
    records: Records,
    last: seq<OutputInfo>,                // the latest snapshot
    log: seq<Action>,                     // every action ever returned
    failures: map<Name, seq<Instant>>,    // each output's accepted failures since it last succeeded or was forgotten
    clock: Instant)

  datatype Op =
    | Snapshot(current: seq<OutputInfo>, events: seq<HotplugEvent>, now: Instant)
    | Failure(output: Name, reason: string, now: Instant)
    | Success(output: Name, now: Instant)
    | Forget(output: Name, now: Instant)

  function Start(): World {
    World(map[], [], [], map[], 0)
  }

  function FailuresOf(w: World, o: Name): seq<Instant> {
    if o in w.failures then w.failures[o] else []
  }

  /** What the latest snapshot says about an output. */
  function Listed(w: World, o: Name): Option<Seen> {
    Lookup(Latest(w.last), o)
  }

  function Apply(w: World, op: Op, limits: Limits): World {
    match op
    case Snapshot(current, events, now) =>
      var (m, actions) := Observe(w.records, events, now, limits);
      w.(records := Mark(m, current), last := current, log := w.log + actions, clock := now)
    case Failure(o, reason, now) =>
      var (m, action) := Fail(w.records, o, reason, now, limits);
      if action.None? then w.(records := m, clock := now)
      else w.(records := m, log := w.log + [action.value], failures := w.failures[o := FailuresOf(w, o) + [now]],
          clock := now)
    case Success(o, now) =>
      w.(records := Succeed(w.records, o), failures := w.failures[o := []], clock := now)
    case Forget(o, now) =>
      w.(records := Forgotten(w.records, o), failures := w.failures[o := []], clock := now)
  }

  /** A snapshot is compared with the one before it, only an output that is gone is forgotten, and the clock never goes
      back. */
  ghost predicate Allowed(w: World, op: Op) {
    && op.now >= w.clock
    && (op.Snapshot? ==> IsDiff(w.last, op.current, op.events))
    && (op.Forget? ==> Listed(w, op.output).None?)
  }

  ghost predicate LegalRun(w: World, ops: seq<Op>, limits: Limits)
    decreases |ops|
  {
    ops == [] || (Allowed(w, ops[0]) && LegalRun(Apply(w, ops[0], limits), ops[1..], limits))
  }

  function Run(w: World, ops: seq<Op>, limits: Limits): World
    decreases |ops|
  {
    if ops == [] then w else Run(Apply(w, ops[0], limits), ops[1..], limits)
  }

  // ------------------------------------------------------------------ specifications

  /** The actions about one output, in order. */
  function Project(actions: seq<Action>, o: Name): seq<Action> {
    if actions == [] then []
    else
      var n := |actions| - 1;
      Project(actions[..n], o) + (if actions[n].output == o then [actions[n]] else [])
  }

  /** Whether an output has a worker after these actions; `None` once two Spawns or two Teardowns follow each other,
      or anything else is asked of an output without a worker. */
  function Worker(alive: Option<bool>, actions: seq<Action>): Option<bool> {
    if actions == [] then alive
    else
      var n := |actions| - 1;
      var before := Worker(alive, actions[..n]);
      if before.None? then None
      else if actions[n].Spawn? then (if before.value then None else Some(true))
      else if actions[n].Teardown? then (if before.value then Some(false) else None)
      else if before.value then before else None
  }

  function Count(actions: seq<Action>, spawns: bool): nat {
    if actions == [] then 0
    else
      var n := |actions| - 1;
      Count(actions[..n], spawns) + (if (if spawns then actions[n].Spawn? else actions[n].Teardown?) then 1 else 0)
  }

  /** How many failures of a full log are younger than the window. */
  function Young(log: seq<Instant>, now: Instant, window: nat): nat {
    if log == [] then 0
    else Young(log[..|log| - 1], now, window) + (if Age(now, log[|log| - 1], window) < window then 1 else 0)
  }

  // ------------------------------------------------------------------ invariants

  /** A record agrees with what the latest snapshot says about its output. */
  predicate Agrees(record: Option<Tracked>, seen: Option<Seen>) {
    match seen
    case None => record.None? || (!record.value.present && !record.value.active && record.value.size.None?)
    case Some(s) =>
      record.Some? && record.value.present && record.value.active == s.active && record.value.size == Some(s.size)
  }

  predicate IsLive(record: Option<Tracked>) {
    record.Some? && record.value.active
  }

  ghost predicate Mirrors(w: World) {
    forall o :: Agrees(Fetch(w.records, o), Listed(w, o))
  }

  ghost predicate Alternates(w: World) {
    forall o :: Worker(Some(false), Project(w.log, o)) == Some(IsLive(Fetch(w.records, o)))
  }

  ghost predicate Sorted(times: seq<Instant>, now: Instant) {
    && (forall i, j :: 0 <= i < j < |times| ==> times[i] <= times[j])
    && (forall i :: 0 <= i < |times| ==> times[i] <= now)
  }

  /** The deque is the full log without a prefix of failures that have all left the window. */
  ghost predicate StandsFor(restarts: seq<Instant>, log: seq<Instant>, clock: Instant, window: nat) {
    && |restarts| <= |log| && restarts == log[|log| - |restarts|..]
    && (forall i :: 0 <= i < |log| - |restarts| ==> clock - log[i] >= window)
  }

  function RestartsOf(w: World, o: Name): seq<Instant> {
    if o in w.records then w.records[o].restarts else []
  }

  ghost predicate Accounts(w: World, limits: Limits) {
    forall o :: Sorted(FailuresOf(w, o), w.clock)
        && StandsFor(RestartsOf(w, o), FailuresOf(w, o), w.clock, limits.window)
  }

  /** A recovering output has restarts in its deque, no more than it reports, and fewer than the budget. */
  predicate Recovers(r: Tracked, limits: Limits) {
    r.state.Recovering? ==> 1 <= |r.restarts| <= r.state.restarts < limits.maxRestarts
  }

  ghost predicate AllRecover(w: World, limits: Limits) {
    forall o :: o in w.records ==> Recovers(w.records[o], limits)
  }

  ghost predicate Inv(w: World, limits: Limits) {
    Mirrors(w) && Alternates(w) && Accounts(w, limits) && (limits.window > 0 ==> AllRecover(w, limits))
  }

  // ------------------------------------------------------------------ sequences of actions

  lemma {:induction false} ProjectConcat(a: seq<Action>, b: seq<Action>, o: Name)
    ensures Project(a + b, o) == Project(a, o) + Project(b, o)
    decreases |b|
  {
    if b == [] {
      assert a + b == a;
    } else {
      var n := |b| - 1;
      assert (a + b)[..|a + b| - 1] == a + b[..n];
      ProjectConcat(a, b[..n], o);
    }
  }

  lemma {:induction false} ProjectForeign(a: seq<Action>, o: Name)
    requires forall i :: 0 <= i < |a| ==> a[i].output != o
    ensures Project(a, o) == []
  {
    if a != [] { ProjectForeign(a[..|a| - 1], o); }
  }

  lemma ProjectOne(a: Action, o: Name)
    ensures Project([a], o) == if a.output == o then [a] else []
  {
    assert [a][..0] == [];
  }

  lemma {:induction false} WorkerConcat(alive: Option<bool>, a: seq<Action>, b: seq<Action>)
    ensures Worker(alive, a + b) == Worker(Worker(alive, a), b)
    decreases |b|
  {
    if b == [] {
      assert a + b == a;
    } else {
      var n := |b| - 1;
      assert (a + b)[..|a + b| - 1] == a + b[..n];
      WorkerConcat(alive, a, b[..n]);
    }
  }

  /** Alternation makes the counts differ by the worker that is running. */
  lemma {:induction false} WorkerCounts(actions: seq<Action>)
    requires Worker(Some(false), actions).Some?
    ensures Count(actions, true) - Count(actions, false) == if Worker(Some(false), actions).value then 1 else 0
  {
    if actions != [] { WorkerCounts(actions[..|actions| - 1]); }
  }

  // ------------------------------------------------------------------ one snapshot, seen from one output

  /** An output without an event keeps its record and gets no action. */
  lemma {:induction false} ObserveForeign(m: Records, events: seq<HotplugEvent>, o: Name)
    requires forall i :: 0 <= i < |events| ==> events[i].name != o
    ensures Fetch(ObserveEvents(m, events).0, o) == Fetch(m, o)
    ensures forall i :: 0 <= i < |ObserveEvents(m, events).1| ==> ObserveEvents(m, events).1[i].output != o
  {
    if events != [] {
      ObserveForeign(m, events[..|events| - 1], o);
    }
  }

  /** An output with its one event gets what `OnEvent` says, whatever the other events are. */
  lemma {:induction false} ObserveOwn(m: Records, events: seq<HotplugEvent>, k: nat)
    requires k < |events| && forall i :: 0 <= i < |events| && i != k ==> events[i].name != events[k].name
    ensures var o := events[k].name;
            var (record, actions) := OnEvent(Fetch(m, o), events[k]);
            && Fetch(ObserveEvents(m, events).0, o) == (if record.Some? then record else Fetch(m, o))
            && Project(ObserveEvents(m, events).1, o) == actions
  {
    hide OnEvent;
    var n, o := |events| - 1, events[k].name;
    var (before, actions) := ObserveEvents(m, events[..n]);
    var more := OnEvent(Fetch(before, events[n].name), events[n]).1;
    ProjectConcat(actions, more, o);
    if k == n {
      ObserveForeign(m, events[..n], o);
      ProjectForeign(actions, o);
      OwnActions(Fetch(m, o), events[n]);
    } else {
      ObserveOwn(m, events[..n], k);
      OwnActions(Fetch(before, events[n].name), events[n]);
      ProjectForeign(more, o);
    }
  }

  lemma OwnActions(record: Option<Tracked>, e: HotplugEvent)
    ensures Project(OnEvent(record, e).1, e.name) == OnEvent(record, e).1
    ensures forall i :: 0 <= i < |OnEvent(record, e).1| ==> OnEvent(record, e).1[i].output == e.name
  {
    var actions := OnEvent(record, e).1;
    if actions != [] { ProjectOne(actions[0], e.name); assert actions == [actions[0]]; }
  }

  lemma {:induction false} MarkOne(m: Records, current: seq<OutputInfo>, o: Name)
    ensures var r, seen := Fetch(Mark(m, current), o), Lookup(Latest(current), o);
            && (r.Some? <==> o in m)
            && (seen.None? ==> r == Fetch(m, o))
            && (seen.Some? && o in m ==>
                  r.value == m[o].(present := true, active := seen.value.active, size := Some(seen.value.size)))
  {
    if current != [] { MarkOne(m, current[..|current| - 1], o); }
  }

  /** Whether a snapshot asks for a worker. */
  predicate Wanted(seen: Option<Seen>) {
    seen.Some? && seen.value.active
  }

  /** The event owed to an output leads its record and its worker from the old list to the new one. */
  lemma EventLeads(o: Name, record: Option<Tracked>, before: Option<Seen>, after: Option<Seen>)
    requires Agrees(record, before)
    ensures match EventFor(o, before, after)
            case None =>
              IsLive(record) == Wanted(after) && (if after.None? then Agrees(record, None) else record.Some?)
            case Some(e) =>
              var (r, actions) := OnEvent(record, e);
              && r.Some? && (after.None? ==> Agrees(r, None)) && |actions| <= 1
              && Worker(Some(IsLive(record)), actions) == Some(Wanted(after))
  {
    var event := EventFor(o, before, after);
    if event.Some? { OneAction(OnEvent(record, event.value).1); }
  }

  /** What an output is due when its entry changes from one snapshot to the next. */
  predicate Due(o: Name, before: Option<Seen>, after: Option<Seen>, actions: seq<Action>) {
    if !Wanted(before) && Wanted(after) then
      actions == [Spawn(o, if before.None? then "appeared" else "reactivated")]
    else if Wanted(before) && !Wanted(after) then
      actions == [Teardown(o, if after.None? then "output disappeared" else "output became inactive")]
    else if Wanted(before) && before.value.size != after.value.size then actions == [Resize(o, after.value.size)]
    else actions == []
  }

  lemma EventIsDue(o: Name, record: Option<Tracked>, before: Option<Seen>, after: Option<Seen>)
    requires Agrees(record, before)
    ensures match EventFor(o, before, after)
            case None => Due(o, before, after, [])
            case Some(e) => Due(o, before, after, OnEvent(record, e).1)
  {
  }

  /** An event on its own, met by any record or none: presence, activity and size are afterwards what it says, and
      failures and health are as before. An output that was not there "appeared". */
  lemma EventMeetsAnyRecord(record: Option<Tracked>, e: HotplugEvent)
    ensures var (after, actions) := OnEvent(record, e);
            && (after.None? <==> e.Removed? && record.None?)
            && (after.Some? ==>
                  && after.value.present == !e.Removed?
                  && after.value.active == (e.Added? || e.Activated?
                                            || (e.Resized? && (record.Some? ==> record.value.active)))
                  && after.value.size == (if e.Resized? then Some(e.size) else if e.Removed? || record.None? then None
                                          else record.value.size)
                  && after.value.state == (if record.Some? then record.value.state else Active)
                  && after.value.restarts == (if record.Some? then record.value.restarts else []))
            && (actions == [Spawn(e.name, "appeared")]
                <==> (e.Added? || e.Activated?) && !(record.Some? && record.value.present))
  {
  }

  /** Events on their own, outside of snapshots: the same event again leaves the record as it is. It asks for nothing
      more if it takes an output away or gives it a size, and for another worker if it brings one. */
  lemma RepeatedEvent(record: Option<Tracked>, e: HotplugEvent)
    ensures var again := OnEvent(OnEvent(record, e).0, e);
            && again.0 == OnEvent(record, e).0
            && (e.Added? ==> again.1 == [Spawn(e.name, "reconfigured")])
            && (e.Activated? ==> again.1 == [Spawn(e.name, "reactivated")])
            && (!e.Added? && !e.Activated? ==> again.1 == [])
  {
  }

  /** From one snapshot to the next, one output: its record mirrors the new one, and it gets the one action it is due,
      which leads its worker from one state to the other. */
  lemma {:induction false} SnapshotOne(w: World, current: seq<OutputInfo>, events: seq<HotplugEvent>, now: Instant,
                                       limits: Limits, o: Name)
    requires Agrees(Fetch(w.records, o), Listed(w, o)) && IsDiff(w.last, current, events)
    ensures var (m, actions) := Observe(w.records, events, now, limits);
            var after := Lookup(Latest(current), o);
            && Agrees(Fetch(Mark(m, current), o), after)
            && Worker(Some(IsLive(Fetch(w.records, o))), Project(actions, o))
                == Some(IsLive(Fetch(Mark(m, current), o)))
            && Due(o, Listed(w, o), after, Project(actions, o))
  {
    hide Latest, Mark, Below, OnEvent, EventFor, Worker, PopExpired, Due;
    var (observed, actions) := ObserveEvents(w.records, events);
    var record, after := Fetch(w.records, o), Lookup(Latest(current), o);
    MarkOne(ExpireAll(observed, now, limits.window), current, o);
    EventLeads(o, record, Listed(w, o), after);
    EventIsDue(o, record, Listed(w, o), after);
    var owed := OwedEvent(w.last, current, o);
    if owed.Some? {
      var k :| 0 <= k < |events| && events[k] == owed.value;
      DistinctNames(events, k);
      ObserveOwn(w.records, events, k);
    } else {
      forall i | 0 <= i < |events| ensures events[i].name != o { assert events[i] in events; }
      ObserveForeign(w.records, events, o);
      ProjectForeign(actions, o);
      NoAction(IsLive(record));
    }
  }

  lemma NoAction(alive: bool)
    ensures Worker(Some(alive), []) == Some(alive)
  {
  }

  lemma DistinctNames(events: seq<HotplugEvent>, k: nat)
    requires Ordered(events) && k < |events|
    ensures forall i :: 0 <= i < |events| && i != k ==> events[i].name != events[k].name
  {
    BelowIsTotal(events[k].name, events[k].name);
  }

  lemma OneAction(actions: seq<Action>)
    ensures |actions| == 1 ==> forall alive: bool ::
      Worker(Some(alive), actions) ==
        if actions[0].Spawn? then (if alive then None else Some(true))
        else if actions[0].Teardown? then (if alive then Some(false) else None)
        else if alive then Some(alive) else None
  {
    if |actions| == 1 {
      assert actions[..0] == [];
    }
  }

  // ------------------------------------------------------------------ the window

  /** Popping leaves a deque that stands for the same log at the later time, and only failures inside the window. */
  lemma {:induction false} PopStands(log: seq<Instant>, restarts: seq<Instant>, now: Instant, window: nat)
    requires Sorted(log, now) && StandsFor(restarts, log, now, window)
    ensures var left := PopExpired(restarts, now, window);
            StandsFor(left, log, now, window) && forall i :: 0 <= i < |left| ==> now - left[i] < window
    decreases |restarts|
  {
    var k := |log| - |restarts|;
    if restarts != [] {
      assert restarts[0] == log[k];
      if Age(now, restarts[0], window) >= window {
        assert restarts[1..] == log[k + 1..];
        PopStands(log, restarts[1..], now, window);
      } else {
        forall i | 0 <= i < |restarts| ensures now - restarts[i] < window {
          assert restarts[i] == log[k + i] && log[k] <= log[k + i];
        }
      }
    }
  }

  /** Restarts that lie in the future, which only a clock that went back can make of them, are dropped. */
  lemma {:induction false} FutureRestartsExpire(restarts: seq<Instant>, now: Instant, window: nat)
    requires forall i :: 0 <= i < |restarts| ==> restarts[i] > now
    ensures PopExpired(restarts, now, window) == []
    decreases |restarts|
  {
    if restarts != [] { FutureRestartsExpire(restarts[1..], now, window); }
  }

  lemma {:induction false} YoungIsSuffix(log: seq<Instant>, k: nat, now: Instant, window: nat)
    requires Sorted(log, now) && k <= |log|
    requires forall i :: 0 <= i < k ==> now - log[i] >= window
    requires forall i :: k <= i < |log| ==> now - log[i] < window
    ensures Young(log, now, window) == |log| - k
  {
    if log != [] {
      var n := |log| - 1;
      if k <= n {
        YoungIsSuffix(log[..n], k, now, window);
      } else {
        YoungIsSuffix(log[..n], n, now, window);
      }
    }
  }

  /** The pruned deque and the full log count the same failures. */
  lemma PopCountsYoung(log: seq<Instant>, restarts: seq<Instant>, now: Instant, window: nat)
    requires Sorted(log, now) && StandsFor(restarts, log, now, window)
    ensures |PopExpired(restarts, now, window)| == Young(log, now, window)
  {
    PopStands(log, restarts, now, window);
    var left := PopExpired(restarts, now, window);
    var k := |log| - |left|;
    forall i | k <= i < |log| ensures now - log[i] < window { assert log[i] == left[i - k]; }
    YoungIsSuffix(log, k, now, window);
  }

  lemma LaterStandsFor(restarts: seq<Instant>, log: seq<Instant>, clock: Instant, now: Instant, window: nat)
    requires StandsFor(restarts, log, clock, window) && Sorted(log, clock) && now >= clock
    ensures StandsFor(restarts, log, now, window) && Sorted(log, now)
    ensures StandsFor(restarts + [now], log + [now], now, window) && Sorted(log + [now], now)
  {
    var k := |log| - |restarts|;
    assert (log + [now])[k..] == log[k..] + [now];
  }

  /** What the window bookkeeping looks at in a record; a missing record is a healthy one without restarts. */
  function Health(m: Records, o: Name): (TrackedState, seq<Instant>) {
    if o in m then (m[o].state, m[o].restarts) else (Active, [])
  }

  lemma {:induction false} ObserveKeepsHealth(m: Records, events: seq<HotplugEvent>, o: Name)
    ensures Health(ObserveEvents(m, events).0, o) == Health(m, o)
    ensures o in m ==> o in ObserveEvents(m, events).0
  {
    if events != [] { ObserveKeepsHealth(m, events[..|events| - 1], o); }
  }

  lemma {:induction false} MarkKeepsHealth(m: Records, current: seq<OutputInfo>, o: Name)
    ensures Health(Mark(m, current), o) == Health(m, o)
    ensures o in Mark(m, current) <==> o in m
  {
    if current != [] { MarkKeepsHealth(m, current[..|current| - 1], o); }
  }

  /** Pruning keeps a recovering output inside its bounds, or lets it be active again. */
  lemma ExpireKeepsBounds(r: Tracked, now: Instant, limits: Limits)
    requires Recovers(r, limits)
    ensures Recovers(ExpireRecord(r, now, limits.window), limits)
  {
    PopShrinks(r.restarts, now, limits.window);
  }

  lemma {:induction false} PopShrinks(restarts: seq<Instant>, now: Instant, window: nat)
    ensures |PopExpired(restarts, now, window)| <= |restarts|
    decreases |restarts|
  {
    if restarts != [] { PopShrinks(restarts[1..], now, window); }
  }

  // ------------------------------------------------------------------ every step keeps the invariant

  lemma SnapshotKeeps(w: World, op: Op, limits: Limits)
    requires Inv(w, limits) && op.Snapshot? && Allowed(w, op)
    ensures Inv(Apply(w, op, limits), limits)
  {
    hide Latest, Observe, Mark, Agrees, Worker, Project, IsDiff;
    var t := Apply(w, op, limits);
    var actions := Observe(w.records, op.events, op.now, limits).1;
    forall o
      ensures Agrees(Fetch(t.records, o), Listed(t, o))
      ensures Worker(Some(false), Project(t.log, o)) == Some(IsLive(Fetch(t.records, o)))
      ensures Sorted(FailuresOf(t, o), t.clock) && StandsFor(RestartsOf(t, o), FailuresOf(t, o), t.clock, limits.window)
    {
      SnapshotOne(w, op.current, op.events, op.now, limits, o);
      ProjectConcat(w.log, actions, o);
      WorkerConcat(Some(false), Project(w.log, o), Project(actions, o));
      SnapshotKeepsWindow(w, op, limits, o);
    }
    if limits.window > 0 {
      forall o | o in t.records ensures Recovers(t.records[o], limits) {
        SnapshotKeepsBounds(w, op, limits, o);
      }
    }
  }

  lemma SnapshotHealth(w: World, op: Op, limits: Limits, o: Name)
    requires op.Snapshot?
    ensures var (state, restarts) := Health(w.records, o);
            var (state', restarts') := Health(Apply(w, op, limits).records, o);
            && restarts' == PopExpired(restarts, op.now, limits.window)
            && state' == if state.Recovering? && restarts' == [] then Active else state
  {
    var observed := ObserveEvents(w.records, op.events).0;
    ObserveKeepsHealth(w.records, op.events, o);
    MarkKeepsHealth(ExpireAll(observed, op.now, limits.window), op.current, o);
  }

  lemma SnapshotKeepsWindow(w: World, op: Op, limits: Limits, o: Name)
    requires Accounts(w, limits) && op.Snapshot? && Allowed(w, op)
    ensures var t := Apply(w, op, limits);
            Sorted(FailuresOf(t, o), t.clock) && StandsFor(RestartsOf(t, o), FailuresOf(t, o), t.clock, limits.window)
  {
    hide Observe, Mark, IsDiff;
    SnapshotHealth(w, op, limits, o);
    LaterStandsFor(RestartsOf(w, o), FailuresOf(w, o), w.clock, op.now, limits.window);
    PopStands(FailuresOf(w, o), RestartsOf(w, o), op.now, limits.window);
  }

  lemma SnapshotKeepsBounds(w: World, op: Op, limits: Limits, o: Name)
    requires AllRecover(w, limits) && op.Snapshot? && o in Apply(w, op, limits).records
    ensures Recovers(Apply(w, op, limits).records[o], limits)
  {
    hide Observe, Mark;
    SnapshotHealth(w, op, limits, o);
    if o in w.records { ExpireKeepsBounds(w.records[o], op.now, limits); }
  }

  lemma FailureKeeps(w: World, op: Op, limits: Limits)
    requires Inv(w, limits) && op.Failure? && Allowed(w, op)
    ensures Inv(Apply(w, op, limits), limits)
  {
    hide Latest, Worker, Project, PopExpired, Sorted, StandsFor, Young;
    var t := Apply(w, op, limits);
    forall o
      ensures Agrees(Fetch(t.records, o), Listed(t, o))
      ensures Worker(Some(false), Project(t.log, o)) == Some(IsLive(Fetch(t.records, o)))
      ensures Sorted(FailuresOf(t, o), t.clock) && StandsFor(RestartsOf(t, o), FailuresOf(t, o), t.clock, limits.window)
    {
      FailureKeepsLife(w, op, limits, o);
      FailureKeepsWindow(w, op, limits, o);
    }
    if limits.window > 0 {
      FailureKeepsBounds(w, op, limits);
    }
  }

  /** A failure never changes what a record says about presence, and only a running worker gets an action. */
  lemma FailureFrame(m: Records, output: Name, reason: string, now: Instant, limits: Limits, o: Name)
    ensures var (t, action) := Fail(m, output, reason, now, limits);
            && t.Keys == m.Keys
            && (o in m ==> t[o].present == m[o].present && t[o].active == m[o].active && t[o].size == m[o].size)
            && (action.Some? ==> IsLive(Fetch(m, output)) && action.value.output == output
                                 && (action.value.Reapply? || action.value.GiveUp?))
  {
    hide PopExpired;
  }

  lemma FailureKeepsLife(w: World, op: Op, limits: Limits, o: Name)
    requires Mirrors(w) && Alternates(w) && op.Failure?
    ensures var t := Apply(w, op, limits);
            && Agrees(Fetch(t.records, o), Listed(t, o))
            && Worker(Some(false), Project(t.log, o)) == Some(IsLive(Fetch(t.records, o)))
  {
    hide Latest, Fail, Worker, Project;
    var action := Fail(w.records, op.output, op.reason, op.now, limits).1;
    FailureFrame(w.records, op.output, op.reason, op.now, limits, o);
    assert Agrees(Fetch(w.records, o), Listed(w, o));
    assert Worker(Some(false), Project(w.log, o)) == Some(IsLive(Fetch(w.records, o)));
    if action.Some? {
      ProjectConcat(w.log, [action.value], o);
      ProjectOne(action.value, o);
      WorkerConcat(Some(false), Project(w.log, o), Project([action.value], o));
      OneAction([action.value]);
      NoAction(IsLive(Fetch(w.records, o)));
    }
  }

  /** What an accepted failure does to any record's window and state; a refused one changes nothing. */
  lemma FailureHealth(m: Records, output: Name, reason: string, now: Instant, limits: Limits, o: Name)
    ensures var (t, action) := Fail(m, output, reason, now, limits);
            var (state, restarts) := Health(m, o);
            var (state', restarts') := Health(t, o);
            var accepted := output in m && m[output].present && m[output].active;
            && t.Keys == m.Keys
            && (!accepted ==> action.None? && t == m)
            && (accepted ==> action.Some?)
            && (accepted && o != output ==> restarts' == PopExpired(restarts, now, limits.window)
                                            && (state'.Failed? <==> state.Failed?))
            && (accepted && o == output ==>
                  var n := |restarts'|;
                  && restarts' == PopExpired(restarts + [now], now, limits.window)
                  && action == Some(if n >= limits.maxRestarts then GiveUp(o, reason) else Reapply(o, reason))
                  && state' == if n >= limits.maxRestarts then Failed(reason) else Recovering(n))
  {
    PopNothing(now, limits.window);
    hide PopExpired;
  }

  lemma FailureKeepsWindow(w: World, op: Op, limits: Limits, o: Name)
    requires Accounts(w, limits) && op.Failure? && Allowed(w, op)
    ensures var t := Apply(w, op, limits);
            Sorted(FailuresOf(t, o), t.clock) && StandsFor(RestartsOf(t, o), FailuresOf(t, o), t.clock, limits.window)
  {
    hide PopExpired, Sorted, StandsFor, Fail;
    var log, restarts := FailuresOf(w, o), RestartsOf(w, o);
    FailureHealth(w.records, op.output, op.reason, op.now, limits, o);
    LaterStandsFor(restarts, log, w.clock, op.now, limits.window);
    PopStands(log, restarts, op.now, limits.window);
    PopStands(log + [op.now], restarts + [op.now], op.now, limits.window);
  }

  lemma PopNothing(now: Instant, window: nat)
    ensures PopExpired([], now, window) == []
  {
  }

  /** A failure just recorded is inside any window there is. */
  lemma {:induction false} PopKeepsNow(restarts: seq<Instant>, now: Instant, window: nat)
    requires window > 0
    ensures PopExpired(restarts + [now], now, window) != []
    decreases |restarts|
  {
    if restarts != [] {
      assert (restarts + [now])[1..] == restarts[1..] + [now];
      PopKeepsNow(restarts[1..], now, window);
    }
  }

  lemma FailureKeepsBounds(w: World, op: Op, limits: Limits)
    requires AllRecover(w, limits) && op.Failure? && limits.window > 0
    ensures AllRecover(Apply(w, op, limits), limits)
  {
    hide PopExpired;
    var t := Apply(w, op, limits);
    forall o | o in t.records ensures Recovers(t.records[o], limits) {
      ExpireKeepsBounds(w.records[o], op.now, limits);
      PopKeepsNow(w.records[o].restarts, op.now, limits.window);
    }
  }

  lemma EmptyWindow(now: Instant, window: nat)
    ensures StandsFor([], [], now, window) && Sorted([], now)
  {
  }

  /** A success, and forgetting, clear the window of their output and leave the others'. */
  lemma ClearedWindow(w: World, op: Op, limits: Limits, o: Name)
    requires op.Success? || op.Forget?
    ensures var t := Apply(w, op, limits);
            && t.clock == op.now
            && RestartsOf(t, o) == (if o == op.output then [] else RestartsOf(w, o))
            && FailuresOf(t, o) == (if o == op.output then [] else FailuresOf(w, o))
  {
  }

  lemma ClearingKeepsWindow(w: World, op: Op, limits: Limits, o: Name)
    requires Accounts(w, limits) && (op.Success? || op.Forget?) && op.now >= w.clock
    ensures var t := Apply(w, op, limits);
            Sorted(FailuresOf(t, o), t.clock) && StandsFor(RestartsOf(t, o), FailuresOf(t, o), t.clock, limits.window)
  {
    ClearedWindow(w, op, limits, o);
    EmptyWindow(op.now, limits.window);
    LaterStandsFor(RestartsOf(w, o), FailuresOf(w, o), w.clock, op.now, limits.window);
    hide StandsFor, Sorted, Apply, RestartsOf, FailuresOf;
  }

  lemma SuccessKeeps(w: World, op: Op, limits: Limits)
    requires Inv(w, limits) && op.Success? && Allowed(w, op)
    ensures Inv(Apply(w, op, limits), limits)
  {
    hide Latest, Worker, Project, StandsFor, Sorted;
    var t := Apply(w, op, limits);
    forall o
      ensures Agrees(Fetch(t.records, o), Listed(t, o))
      ensures Worker(Some(false), Project(t.log, o)) == Some(IsLive(Fetch(t.records, o)))
      ensures Sorted(FailuresOf(t, o), t.clock) && StandsFor(RestartsOf(t, o), FailuresOf(t, o), t.clock, limits.window)
    {
      assert Agrees(Fetch(w.records, o), Listed(w, o));
      assert Worker(Some(false), Project(w.log, o)) == Some(IsLive(Fetch(w.records, o)));
      ClearingKeepsWindow(w, op, limits, o);
    }
  }

  /** Forgetting an output keeps the records true exactly if the latest snapshot does not list it. */
  lemma ForgetKeeps(w: World, op: Op, limits: Limits)
    requires Inv(w, limits) && op.Forget? && op.now >= w.clock
    ensures Inv(Apply(w, op, limits), limits) <==> Listed(w, op.output).None?
  {
    hide Latest, Worker, Project, StandsFor, Sorted;
    var t := Apply(w, op, limits);
    assert Listed(w, op.output).Some? ==> !Agrees(Fetch(t.records, op.output), Listed(t, op.output));
    if Listed(w, op.output).None? {
      forall o
        ensures Agrees(Fetch(t.records, o), Listed(t, o))
        ensures Worker(Some(false), Project(t.log, o)) == Some(IsLive(Fetch(t.records, o)))
        ensures Sorted(FailuresOf(t, o), t.clock)
        ensures StandsFor(RestartsOf(t, o), FailuresOf(t, o), t.clock, limits.window)
      {
        assert Agrees(Fetch(w.records, o), Listed(w, o));
        assert Worker(Some(false), Project(w.log, o)) == Some(IsLive(Fetch(w.records, o)));
        ClearingKeepsWindow(w, op, limits, o);
      }
    }
  }

  lemma StepKeeps(w: World, op: Op, limits: Limits)
    requires Inv(w, limits) && Allowed(w, op)
    ensures Inv(Apply(w, op, limits), limits)
  {
    hide Inv, Apply, IsDiff;
    match op
    case Snapshot(_, _, _) => SnapshotKeeps(w, op, limits);
    case Failure(_, _, _) => FailureKeeps(w, op, limits);
    case Success(_, _) => SuccessKeeps(w, op, limits);
    case Forget(_, _) => ForgetKeeps(w, op, limits);
  }

  lemma {:induction false} RunKeeps(w: World, ops: seq<Op>, limits: Limits)
    requires Inv(w, limits) && LegalRun(w, ops, limits)
    ensures Inv(Run(w, ops, limits), limits)
    decreases |ops|
  {
    hide Inv, Apply;
    if ops != [] {
      StepKeeps(w, ops[0], limits);
      RunKeeps(Apply(w, ops[0], limits), ops[1..], limits);
    }
  }

  lemma StartKeeps(limits: Limits)
    ensures Inv(Start(), limits)
  {
  }

  // ------------------------------------------------------------------ main results

  /** Along every chain of snapshots, with failures and recoveries of any outputs in between, and with outputs
      forgotten that are gone: presence, activity and
      size mirror the latest snapshot; Spawn and Teardown strictly alternate for each output, with every Resize,
      Reapply and GiveUp between the two; and Spawns exceed Teardowns by one exactly while the output is active. */
  lemma {:induction false} WorkerLifecycle(ops: seq<Op>, limits: Limits, o: Name)
    requires LegalRun(Start(), ops, limits)
    ensures var w := Run(Start(), ops, limits);
            var live := Wanted(Lookup(Latest(w.last), o));
            var mine := Project(w.log, o);
            && Agrees(Fetch(w.records, o), Lookup(Latest(w.last), o))
            && Worker(Some(false), mine) == Some(live)
            && Count(mine, true) - Count(mine, false) == if live then 1 else 0
  {
    StartKeeps(limits);
    RunKeeps(Start(), ops, limits);
    hide Run, LegalRun, Latest, Accounts, AllRecover;
    var w := Run(Start(), ops, limits);
    assert Agrees(Fetch(w.records, o), Listed(w, o));
    WorkerCounts(Project(w.log, o));
  }

  /** After any history, a new snapshot gives each output exactly the action due to it: Spawn when it becomes active,
      Teardown when it stops being, Resize to the new size when it stays active and changes size, and nothing else. */
  lemma {:induction false} SnapshotGivesWhatIsDue(ops: seq<Op>, limits: Limits, next: Op, o: Name)
    requires LegalRun(Start(), ops, limits) && next.Snapshot? && Allowed(Run(Start(), ops, limits), next)
    ensures var w := Run(Start(), ops, limits);
            Due(o, Lookup(Latest(w.last), o), Lookup(Latest(next.current), o),
                Project(Observe(w.records, next.events, next.now, limits).1, o))
  {
    StartKeeps(limits);
    RunKeeps(Start(), ops, limits);
    hide Run, LegalRun, Latest, Accounts, AllRecover, Due, Observe, IsDiff;
    var w := Run(Start(), ops, limits);
    assert Agrees(Fetch(w.records, o), Listed(w, o));
    SnapshotOne(w, next.current, next.events, next.now, limits, o);
  }

  /** After any history, a worker failure is answered GiveUp exactly when the failures younger than the window, this one
      included, reach the budget, counted since the output last succeeded or was forgotten; otherwise Reapply; and
      nothing at all unless the latest snapshot lists the output as active. Snapshots and other outputs' failures in
      between do not matter. */
  lemma {:induction false} GiveUpExactlyWhenBudgetIsSpent(ops: seq<Op>, limits: Limits, o: Name, reason: string,
                                                          now: Instant)
    requires LegalRun(Start(), ops, limits) && now >= Run(Start(), ops, limits).clock
    ensures var w := Run(Start(), ops, limits);
            var (m, action) := Fail(w.records, o, reason, now, limits);
            var count := Young(FailuresOf(w, o) + [now], now, limits.window);
            if !Wanted(Lookup(Latest(w.last), o)) then action.None? && m == w.records
            else o in m
                 && action == Some(if count >= limits.maxRestarts then GiveUp(o, reason) else Reapply(o, reason))
                 && m[o].state == if count >= limits.maxRestarts then Failed(reason) else Recovering(count)
  {
    hide Inv, Run, LegalRun, Start, Fail, Young, FailuresOf, Latest;
    StartKeeps(limits);
    RunKeeps(Start(), ops, limits);
    Verdict(Run(Start(), ops, limits), limits, o, reason, now);
  }

  lemma Verdict(w: World, limits: Limits, o: Name, reason: string, now: Instant)
    requires Inv(w, limits) && now >= w.clock
    ensures var (m, action) := Fail(w.records, o, reason, now, limits);
            var count := Young(FailuresOf(w, o) + [now], now, limits.window);
            if !Wanted(Listed(w, o)) then action.None? && m == w.records
            else o in m
                 && action == Some(if count >= limits.maxRestarts then GiveUp(o, reason) else Reapply(o, reason))
                 && m[o].state == if count >= limits.maxRestarts then Failed(reason) else Recovering(count)
  {
    hide Alternates, AllRecover, Latest, Young, PopExpired, StandsFor, Sorted, Fail;
    assert Agrees(Fetch(w.records, o), Listed(w, o));
    LaterStandsFor(RestartsOf(w, o), FailuresOf(w, o), w.clock, now, limits.window);
    PopCountsYoung(FailuresOf(w, o) + [now], RestartsOf(w, o) + [now], now, limits.window);
    FailureHealth(w.records, o, reason, now, limits, o);
  }

  /** With a window of positive length, a recovering output always has between one restart and the number it reports,
      and fewer than the budget. */
  lemma {:induction false} RecoveringBounds(ops: seq<Op>, limits: Limits, o: Name)
    requires LegalRun(Start(), ops, limits) && limits.window > 0
    ensures var w := Run(Start(), ops, limits);
            o in w.records && w.records[o].state.Recovering? ==>
              1 <= |w.records[o].restarts| <= w.records[o].state.restarts < limits.maxRestarts
  {
    StartKeeps(limits);
    RunKeeps(Start(), ops, limits);
  }

  /** A window of length zero is different: every failure has left it at once, so an output can stay "recovering" with
      no restart at all, and never gives up. */
  lemma {:induction false} ZeroWindowNeverGivesUp(m: Records, o: Name, reason: string, now: Instant, maxRestarts: nat)
    requires o in m && m[o].present && m[o].active && maxRestarts >= 1
    requires forall i :: 0 <= i < |m[o].restarts| ==> m[o].restarts[i] <= now
    ensures var (t, action) := Fail(m, o, reason, now, Limits(maxRestarts, 0));
            action == Some(Reapply(o, reason)) && t[o].state == Recovering(0) && t[o].restarts == []
  {
    PopAll(m[o].restarts + [now], now);
  }

  lemma {:induction false} PopAll(restarts: seq<Instant>, now: Instant)
    ensures PopExpired(restarts, now, 0) == []
    decreases |restarts|
  {
    if restarts != [] { PopAll(restarts[1..], now); }
  }

  /** "Give up on this output until it is replugged" is not what the code does: no snapshot, and so no replug, leaves
      Failed. What leaves it is a success, a later failure of the same output that finds the budget unspent, or
      forgetting the output, which alone removes its record. */
  lemma {:induction false} WhatLeavesFailed(w: World, op: Op, limits: Limits, o: Name)
    requires Inv(w, limits) && Allowed(w, op) && o in w.records && w.records[o].state.Failed?
    ensures var t := Apply(w, op, limits);
            && (o in t.records <==> op != Forget(o, op.now))
            && (!(o in t.records && t.records[o].state.Failed?) <==>
               || op == Success(o, op.now)
               || op == Forget(o, op.now)
               || (op.Failure? && op.output == o && w.records[o].present && w.records[o].active
                   && Young(FailuresOf(w, o) + [op.now], op.now, limits.window) < limits.maxRestarts))
  {
    hide Fail, Observe, Mark, Young, PopExpired, StandsFor, Sorted, Mirrors, Alternates, AllRecover;
    match op
    case Snapshot(_, _, _) => SnapshotKeepsFailed(w, op, limits, o);
    case Failure(output, reason, now) =>
      FailureHealth(w.records, output, reason, now, limits, o);
      LaterStandsFor(RestartsOf(w, o), FailuresOf(w, o), w.clock, now, limits.window);
      PopCountsYoung(FailuresOf(w, o) + [now], RestartsOf(w, o) + [now], now, limits.window);
    case Success(_, _) =>
    case Forget(_, _) =>
  }

  lemma SnapshotKeepsFailed(w: World, op: Op, limits: Limits, o: Name)
    requires op.Snapshot? && o in w.records && w.records[o].state.Failed?
    ensures o in Apply(w, op, limits).records && Apply(w, op, limits).records[o].state.Failed?
  {
    SnapshotHealth(w, op, limits, o);
    ObserveKeepsHealth(w.records, op.events, o);
    MarkKeepsHealth(Observe(w.records, op.events, op.now, limits).0, op.current, o);
  }

  /** Forgetting an output that the latest snapshot still lists as active loses its worker: after any history, the
      snapshot in which it is gone or inactive owes it a Teardown, and gives it none. */
  lemma {:induction false} ForgettingAListedOutputLeavesItsWorker(ops: seq<Op>, limits: Limits, forget: Op, next: Op)
    requires LegalRun(Start(), ops, limits) && forget.Forget? && next.Snapshot?
    requires var w, o := Run(Start(), ops, limits), forget.output;
             && Wanted(Listed(w, o)) && Allowed(w, next) && !Wanted(Lookup(Latest(next.current), o))
    ensures var w, o := Run(Start(), ops, limits), forget.output;
            var t := Apply(w, forget, limits);
            && Worker(Some(false), Project(t.log, o)) == Some(true)
            && Project(Observe(t.records, next.events, next.now, limits).1, o) == []
            && !Due(o, Listed(w, o), Lookup(Latest(next.current), o), [])
  {
    StartKeeps(limits);
    RunKeeps(Start(), ops, limits);
    hide Run, LegalRun, Latest, Accounts, AllRecover, Project, Worker, Observe, IsDiff, Due, Start;
    var w, o := Run(Start(), ops, limits), forget.output;
    assert Agrees(Fetch(w.records, o), Listed(w, o));
    assert Worker(Some(false), Project(w.log, o)) == Some(IsLive(Fetch(w.records, o)));
    hide Mirrors, Alternates;
    var after := Lookup(Latest(next.current), o);
    NothingForTheForgotten(o, Listed(w, o), after);
    ForgottenIsIgnored(w, o, next, limits);
  }

  /** A record that is gone gets no action from the snapshot that takes its output away. */
  lemma ForgottenIsIgnored(w: World, o: Name, next: Op, limits: Limits)
    requires next.Snapshot? && IsDiff(w.last, next.current, next.events)
    requires Wanted(Listed(w, o)) && !Wanted(Lookup(Latest(next.current), o))
    ensures Project(Observe(Forgotten(w.records, o), next.events, next.now, limits).1, o) == []
  {
    var owed := OwedEvent(w.last, next.current, o);
    NothingForTheForgotten(o, Listed(w, o), Lookup(Latest(next.current), o));
    hide Latest, OnEvent, EventFor, PopExpired;
    var k :| 0 <= k < |next.events| && next.events[k] == owed.value;
    DistinctNames(next.events, k);
    ObserveOwn(Forgotten(w.records, o), next.events, k);
  }

  lemma NothingForTheForgotten(o: Name, before: Option<Seen>, after: Option<Seen>)
    requires Wanted(before) && !Wanted(after)
    ensures EventFor(o, before, after).Some? && EventFor(o, before, after).value.name == o
    ensures OnEvent(None, EventFor(o, before, after).value).1 == []
    ensures !Due(o, before, after, [])
  {
  }
}
