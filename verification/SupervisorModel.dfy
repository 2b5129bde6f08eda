/**
  Output supervision as functions over the table of records: what each hotplug event does to one record,
  the sliding window of failures, and the verdict on a failing worker.
  (crates/owe-core/src/supervisor.rs)
 */
module SupervisorModel {
  import opened Prelude
  import opened HotplugDiff

  /** An instant, in nanoseconds. */
  type Instant = nat
  const SECOND: nat := 1_000_000_000

  datatype TrackedState = Active | Recovering(restarts: nat) | Failed(reason: string)

  datatype Tracked = Tracked(present: bool, active: bool, size: Option<Size>, state: TrackedState,
      restarts: seq<Instant>)

  datatype Action =
    | Spawn(output: Name, reason: string)
    | Resize(output: Name, size: Size)
    | Teardown(output: Name, reason: string)
    | Reapply(output: Name, reason: string)
    | GiveUp(output: Name, reason: string)

  datatype Limits = Limits(maxRestarts: nat, window: nat)

  type Records = map<Name, Tracked>

  function Fetch(m: Records, o: Name): Option<Tracked> {
    if o in m then Some(m[o]) else None
  }

  function Store(m: Records, o: Name, record: Option<Tracked>): Records {
    if record.Some? then m[o := record.value] else m
  }

  function NewRecord(present: bool, active: bool): Tracked {
    Tracked(present, active, None, Active, [])
  }

  function OrNew(record: Option<Tracked>, present: bool, active: bool): Tracked {
    if record.Some? then record.value else NewRecord(present, active)
  }

  // ------------------------------------------------------------------ hotplug events

  /** What one event does to its output's record, and what the daemon must do. */
  function OnEvent(record: Option<Tracked>, e: HotplugEvent): (Option<Tracked>, seq<Action>) {
    match e
    case Added(o) =>
      var r := OrNew(record, false, false);
      var reason := if r.present && r.active then "reconfigured" else if r.present then "reactivated" else "appeared";
      (Some(r.(present := true, active := true)), [Spawn(o, reason)])
    case Activated(o) =>
      var r := OrNew(record, false, false);
      (Some(r.(present := true, active := true)), [Spawn(o, if r.present then "reactivated" else "appeared")])
    case Deactivated(o) =>
      var r := OrNew(record, true, false);
      (Some(r.(present := true, active := false)), if r.active then [Teardown(o, "output became inactive")] else [])
    case Removed(o) =>
      if record.None? then (None, [])
      else
        var r := record.value;
        (Some(r.(present := false, active := false, size := None)),
         if r.active then [Teardown(o, "output disappeared")] else [])
    case Resized(o, size) =>
      var r := OrNew(record, true, true);
      (Some(r.(size := Some(size), present := true)),
       if r.active && r.size != Some(size) then [Resize(o, size)] else [])
  }

  function ObserveEvents(m: Records, events: seq<HotplugEvent>): (Records, seq<Action>) {
    if events == [] then (m, [])
    else
      var n := |events| - 1;
      var (before, actions) := ObserveEvents(m, events[..n]);
      var (record, more) := OnEvent(Fetch(before, events[n].name), events[n]);
      (Store(before, events[n].name, record), actions + more)
  }

  // ------------------------------------------------------------------ the sliding window

  /** How old a restart is; one taken later than `now` counts as older than the window. */
  function Age(now: Instant, at: Instant, window: nat): nat {
    if now >= at then now - at else window + SECOND
  }

  function PopExpired(restarts: seq<Instant>, now: Instant, window: nat): seq<Instant> {
    if restarts != [] && Age(now, restarts[0], window) >= window then PopExpired(restarts[1..], now, window)
        else restarts
  }

  function ExpireRecord(r: Tracked, now: Instant, window: nat): Tracked {
    var restarts := PopExpired(r.restarts, now, window);
    r.(restarts := restarts, state := if r.state.Recovering? && restarts == [] then Active else r.state)
  }

  function ExpireAll(m: Records, now: Instant, window: nat): Records {
    map o | o in m :: ExpireRecord(m[o], now, window)
  }

  // ------------------------------------------------------------------ the operations

  function Observe(m: Records, events: seq<HotplugEvent>, now: Instant, limits: Limits): (Records, seq<Action>) {
    var (observed, actions) := ObserveEvents(m, events);
    (ExpireAll(observed, now, limits.window), actions)
  }

  /** The closing loop of `observe_snapshot`: copy the list into the records that exist. */
  function Mark(m: Records, current: seq<OutputInfo>): Records {
    if current == [] then m
    else
      var last := current[|current| - 1];
      var before := Mark(m, current[..|current| - 1]);
      if last.name in before then
        before[last.name := before[last.name].(present := true, active := last.active, size := Some(last.size))]
      else before
  }

  function Fail(m: Records, o: Name, reason: string, now: Instant, limits: Limits): (Records, Option<Action>) {
    if o !in m || !m[o].present || !m[o].active then (m, None)
    else
      var aged := ExpireAll(m[o := m[o].(restarts := m[o].restarts + [now])], now, limits.window);
      var n := |aged[o].restarts|;
      if n >= limits.maxRestarts then (aged[o := aged[o].(state := Failed(reason))], Some(GiveUp(o, reason)))
      else (aged[o := aged[o].(state := Recovering(n))], Some(Reapply(o, reason)))
  }

  function Succeed(m: Records, o: Name): Records {
    if o in m then m[o := m[o].(restarts := [], state := Active)] else m
  }

  function Forgotten(m: Records, o: Name): Records {
    m - {o}
  }
}
