/** The supervisor object; each method is proved to compute the function of the same step. */
module Supervisor {
  import opened Prelude
  import opened HotplugDiff
  import opened SupervisorModel

  class Supervisor {
    const limits: Limits
    var outputs: Records

    /** At least one restart is always allowed for. */
    constructor (maxRestarts: nat, window: nat)
      ensures limits == Limits(if maxRestarts >= 1 then maxRestarts else 1, window) && outputs == map[]
    {
      limits := Limits(if maxRestarts >= 1 then maxRestarts else 1, window);
      outputs := map[];
    }

    method ObserveOne(e: HotplugEvent) returns (actions: seq<Action>)
      modifies this
      ensures outputs == Store(old(outputs), e.name, OnEvent(Fetch(old(outputs), e.name), e).0)
      ensures actions == OnEvent(Fetch(old(outputs), e.name), e).1
    {
      actions := [];
      match e {
        case Added(o) =>
          var record := if o in outputs then outputs[o] else NewRecord(false, false);
          var reason := if record.present && record.active then "reconfigured"
                        else if record.present then "reactivated" else "appeared";
          outputs := outputs[o := record.(present := true, active := true)];
          actions := [Spawn(o, reason)];
        case Activated(o) =>
          var record := if o in outputs then outputs[o] else NewRecord(false, false);
          outputs := outputs[o := record.(present := true, active := true)];
          actions := [Spawn(o, if record.present then "reactivated" else "appeared")];
        case Deactivated(o) =>
          var record := if o in outputs then outputs[o] else NewRecord(true, false);
          outputs := outputs[o := record.(present := true, active := false)];
          if record.active {
            actions := [Teardown(o, "output became inactive")];
          }
        case Removed(o) =>
          if o in outputs {
            var record := outputs[o];
            outputs := outputs[o := record.(present := false, active := false, size := None)];
            if record.active {
              actions := [Teardown(o, "output disappeared")];
            }
          }
        case Resized(o, size) =>
          var record := if o in outputs then outputs[o] else NewRecord(true, true);
          outputs := outputs[o := record.(size := Some(size), present := true)];
          if record.active && record.size != Some(size) {
            actions := [Resize(o, size)];
          }
      }
    }

    /** Observe a list of events, one after the other, and age every deque at the end. */
    method ObserveList(events: seq<HotplugEvent>, now: Instant) returns (actions: seq<Action>)
      modifies this
      ensures outputs == Observe(old(outputs), events, now, limits).0
      ensures actions == Observe(old(outputs), events, now, limits).1
    {
      actions := [];
      for i := 0 to |events|
        invariant outputs == ObserveEvents(old(outputs), events[..i]).0
        invariant actions == ObserveEvents(old(outputs), events[..i]).1
      {
        assert events[..i + 1][..i] == events[..i];
        var more := ObserveOne(events[i]);
        actions := actions + more;
      }
      assert events[..|events|] == events;
      Expire(now);
    }

    method ObserveSnapshot(previous: seq<OutputInfo>, current: seq<OutputInfo>, now: Instant)
      returns (ghost events: seq<HotplugEvent>, actions: seq<Action>)
      modifies this
      ensures IsDiff(previous, current, events)
      ensures outputs == Mark(Observe(old(outputs), events, now, limits).0, current)
      ensures actions == Observe(old(outputs), events, now, limits).1
    {
      var list := Diff(previous, current);
      events := list;
      actions := ObserveList(list, now);
      ghost var observed := outputs;
      for i := 0 to |current|
        invariant outputs == Mark(observed, current[..i])
      {
        assert current[..i + 1][..i] == current[..i];
        var output := current[i];
        if output.name in outputs {
          outputs := outputs[output.name :=
            outputs[output.name].(present := true, active := output.active, size := Some(output.size))];
        }
      }
      assert current[..|current|] == current;
    }

    /** The verdict on a failing worker: try again, give up, or nothing for an output that is not in use. */
    method RecordFailure(o: Name, reason: string, now: Instant) returns (action: Option<Action>)
      modifies this
      ensures outputs == Fail(old(outputs), o, reason, now, limits).0
      ensures action == Fail(old(outputs), o, reason, now, limits).1
    {
      if o !in outputs || !outputs[o].present || !outputs[o].active {
        return None;
      }
      outputs := outputs[o := outputs[o].(restarts := outputs[o].restarts + [now])];
      Expire(now);
      var n := |outputs[o].restarts|;
      if n >= limits.maxRestarts {
        outputs := outputs[o := outputs[o].(state := Failed(reason))];
        return Some(GiveUp(o, reason));
      }
      outputs := outputs[o := outputs[o].(state := Recovering(n))];
      return Some(Reapply(o, reason));
    }

    method RecordSuccess(o: Name)
      modifies this
      ensures outputs == Succeed(old(outputs), o)
    {
      if o in outputs {
        outputs := outputs[o := outputs[o].(restarts := [], state := Active)];
      }
    }

    /** Forget an output completely. */
    method Forget(o: Name)
      modifies this
      ensures outputs == Forgotten(old(outputs), o)
    {
      outputs := outputs - {o};
    }

    /** Drop restart timestamps older than the window, record by record. */
    method Expire(now: Instant)
      modifies this
      ensures outputs == ExpireAll(old(outputs), now, limits.window)
    {
      var todo := outputs.Keys;
      while todo != {}
        invariant todo <= old(outputs).Keys == outputs.Keys
        invariant forall o :: o in old(outputs) ==>
                    outputs[o] == if o in todo then old(outputs[o])
                        else ExpireRecord(old(outputs[o]), now, limits.window)
        decreases |todo|
      {
        var o :| o in todo;
        todo := todo - {o};
        var record := outputs[o];
        while record.restarts != [] && Age(now, record.restarts[0], limits.window) >= limits.window
          invariant record == outputs[o].(restarts := record.restarts)
          invariant PopExpired(record.restarts, now, limits.window)
                      == PopExpired(outputs[o].restarts, now, limits.window)
          decreases |record.restarts|
        {
          record := record.(restarts := record.restarts[1..]);
        }
        if record.state.Recovering? && record.restarts == [] {
          record := record.(state := Active);
        }
        outputs := outputs[o := record];
      }
    }
  }
}
