/**
  Turning two output lists into hotplug events, in one fixed order.
  (crates/owe-core/src/supervisor.rs, `diff`)
 */
module HotplugDiff {
  import opened Prelude

  type Name = string

  datatype OutputInfo = OutputInfo(name: Name, size: Size, active: bool)

  /** What a snapshot says about one output. */
  datatype Seen = Seen(size: Size, active: bool)

  datatype HotplugEvent =
    | Added(name: Name)
    | Activated(name: Name)
    | Deactivated(name: Name)
    | Removed(name: Name)
    | Resized(name: Name, size: Size)

  // ------------------------------------------------------------------ name order

  /** The order of connector names. */
  predicate Below(a: Name, b: Name) {
    if b == "" then false
    else if a == "" then true
    else a[0] < b[0] || (a[0] == b[0] && Below(a[1..], b[1..]))
  }

  /** Of two names exactly one is below the other, unless they are equal. */
  lemma {:induction false} BelowIsTotal(a: Name, b: Name)
    ensures Below(a, b) <==> a != b && !Below(b, a)
  {
    if a != "" && b != "" {
      BelowIsTotal(a[1..], b[1..]);
      assert a == [a[0]] + a[1..] && b == [b[0]] + b[1..];
    }
  }

  /** The order is that of a dictionary: at the first place where two names differ the smaller character decides, and a
      name comes before the longer ones it begins. */
  lemma {:induction false} BelowIsLexicographic(a: Name, b: Name)
    ensures Below(a, b) <==>
              exists k :: 0 <= k <= |a| && k < |b| && a[..k] == b[..k] && (k == |a| || a[k] < b[k])
  {
    if a != "" && b != "" && a[0] == b[0] {
      BelowIsLexicographic(a[1..], b[1..]);
      var c, d := a[1..], b[1..];
      if k :| 0 <= k <= |c| && k < |d| && c[..k] == d[..k] && (k == |c| || c[k] < d[k]) {
        assert a[..k + 1] == [a[0]] + c[..k] && b[..k + 1] == [b[0]] + d[..k];
      }
      if k :| 0 <= k <= |a| && k < |b| && a[..k] == b[..k] && (k == |a| || a[k] < b[k]) {
        assert k > 0;
        assert a[1..][..k - 1] == a[..k][1..] && b[1..][..k - 1] == b[..k][1..];
      }
    } else if a != "" && b != "" {
      assert a[..0] == b[..0];
    } else if b != "" {
      assert a[..0] == b[..0];
    }
  }

  lemma {:induction false} BelowIsTransitive(a: Name, b: Name, c: Name)
    requires Below(a, b) && Below(b, c)
    ensures Below(a, c)
  {
    if a != "" && a[0] == b[0] && b[0] == c[0] {
      BelowIsTransitive(a[1..], b[1..], c[1..]);
    }
  }

  // ------------------------------------------------------------------ what the diff must be

  /** A list as a map: the last entry of a name wins. */
  function Latest(outputs: seq<OutputInfo>): map<Name, Seen> {
    if outputs == [] then map[]
    else
      var last := outputs[|outputs| - 1];
      Latest(outputs[..|outputs| - 1])[last.name := Seen(last.size, last.active)]
  }

  function Lookup(m: map<Name, Seen>, name: Name): Option<Seen> {
    if name in m then Some(m[name]) else None
  }

  /** The event owed for one output, from what it was and what it is. */
  function EventFor(name: Name, before: Option<Seen>, after: Option<Seen>): (event: Option<HotplugEvent>)
    ensures event.Some? ==> event.value.name == name
  {
    match after
    case None => if before.Some? then Some(Removed(name)) else None
    case Some(now) =>
      match before
      case None => Some(if now.active then Added(name) else Deactivated(name))
      case Some(was) =>
        if !was.active && now.active then Some(Activated(name))
        else if was.active && !now.active then Some(Deactivated(name))
        else if was.active && now.active && was.size != now.size then Some(Resized(name, now.size))
        else None
  }

  function OwedEvent(previous: seq<OutputInfo>, current: seq<OutputInfo>, name: Name): (event: Option<HotplugEvent>)
    ensures event.Some? ==> event.value.name == name
  {
    EventFor(name, Lookup(Latest(previous), name), Lookup(Latest(current), name))
  }

  ghost predicate Ordered(events: seq<HotplugEvent>) {
    forall i, j :: 0 <= i < j < |events| ==> Below(events[i].name, events[j].name)
  }

  /** `events` is the diff: in name order, and exactly the events owed. */
  ghost predicate IsDiff(previous: seq<OutputInfo>, current: seq<OutputInfo>, events: seq<HotplugEvent>) {
    && Ordered(events)
    && (forall e :: e in events ==> OwedEvent(previous, current, e.name) == Some(e))
    && (forall name :: OwedEvent(previous, current, name).Some? ==> OwedEvent(previous, current, name).value in events)
  }

  /** Of several entries with one name the last one counts. */
  lemma {:induction false} LatestIsLast(outputs: seq<OutputInfo>, i: nat)
    requires i < |outputs| && forall j :: i < j < |outputs| ==> outputs[j].name != outputs[i].name
    ensures Lookup(Latest(outputs), outputs[i].name) == Some(Seen(outputs[i].size, outputs[i].active))
  {
    if i < |outputs| - 1 {
      LatestIsLast(outputs[..|outputs| - 1], i);
    }
  }

  lemma {:induction false} LatestIsListed(outputs: seq<OutputInfo>, name: Name)
    ensures Lookup(Latest(outputs), name).Some? <==> exists i :: 0 <= i < |outputs| && outputs[i].name == name
  {
    if outputs != [] {
      LatestIsListed(outputs[..|outputs| - 1], name);
    }
  }

  /** The event is what happened to an output that was `before` and is `after`. */
  predicate Turns(before: Option<Seen>, e: HotplugEvent, after: Option<Seen>) {
    match e
    case Added(_) => before.None? && after.Some? && after.value.active
    case Activated(_) => before.Some? && !before.value.active && after.Some? && after.value.active
    case Deactivated(_) => after.Some? && !after.value.active && (before.None? || before.value.active)
    case Removed(_) => before.Some? && after.None?
    case Resized(_, size) =>
      && before.Some? && before.value.active && after.Some? && after.value.active
      && size == after.value.size && size != before.value.size
  }

  /** Nothing to tell: not listed before or after, or listed both times, in use or not, and at one size if in use. */
  predicate SameStanding(before: Option<Seen>, after: Option<Seen>) {
    if before.None? || after.None? then before == after
    else before.value.active == after.value.active && (after.value.active ==> before.value.size == after.value.size)
  }

  /** A diff tells of every output what has happened to it, by one event, and is silent exactly about the others. */
  lemma DiffTellsTheChange(previous: seq<OutputInfo>, current: seq<OutputInfo>, events: seq<HotplugEvent>, name: Name)
    requires IsDiff(previous, current, events)
    ensures var before, after := Lookup(Latest(previous), name), Lookup(Latest(current), name);
            && ((exists k :: 0 <= k < |events| && events[k].name == name) <==> !SameStanding(before, after))
            && (forall k :: 0 <= k < |events| && events[k].name == name ==> Turns(before, events[k], after))
            && (forall j, k :: 0 <= j < k < |events| && events[j].name == name ==> events[k].name != name)
  {
    hide Latest, Below;
    BelowIsTotal(name, name);
    var owed := OwedEvent(previous, current, name);
    forall k | 0 <= k < |events| && events[k].name == name ensures owed == Some(events[k]) {
      assert events[k] in events;
    }
    if owed.Some? {
      var k :| 0 <= k < |events| && events[k] == owed.value;
    }
  }

  /** There is only one diff, so its order cannot depend on how the compositor enumerates its outputs. */
  lemma {:induction false} DiffIsUnique(previous: seq<OutputInfo>, current: seq<OutputInfo>, a: seq<HotplugEvent>,
                                        b: seq<HotplugEvent>)
    requires IsDiff(previous, current, a) && IsDiff(previous, current, b)
    ensures a == b
  {
    SameElements(a, b);
    SameElements(b, a);
    SortedUnique(a, b);
  }

  lemma SameElements(a: seq<HotplugEvent>, b: seq<HotplugEvent>)
    requires exists p, c :: IsDiff(p, c, a) && IsDiff(p, c, b)
    ensures forall e :: e in a ==> e in b
  {
    var p, c :| IsDiff(p, c, a) && IsDiff(p, c, b);
    forall e | e in a ensures e in b {
      assert OwedEvent(p, c, e.name) == Some(e);
    }
  }

  lemma {:induction false} SortedUnique(a: seq<HotplugEvent>, b: seq<HotplugEvent>)
    requires Ordered(a) && Ordered(b) && forall e :: e in a <==> e in b
    ensures a == b
  {
    assert (a == [] || a[0] in b) && (b == [] || b[0] in a);
    if a != [] && b != [] {
      assert a[0] in b && b[0] in a;
      var i :| 0 <= i < |b| && b[i] == a[0];
      var j :| 0 <= j < |a| && a[j] == b[0];
      BelowIsTotal(a[0].name, b[0].name);
      assert i == 0;
      TailsAgree(a, b);
      SortedUnique(a[1..], b[1..]);
      assert a == [a[0]] + a[1..] && b == [b[0]] + b[1..];
    }
  }

  lemma TailsAgree(a: seq<HotplugEvent>, b: seq<HotplugEvent>)
    requires Ordered(a) && Ordered(b) && a != [] && b != [] && a[0] == b[0] && forall e :: e in a <==> e in b
    ensures forall e :: e in a[1..] <==> e in b[1..]
  {
    BelowIsTotal(a[0].name, a[0].name);
    assert forall e :: e in a[1..] ==> e in a && Below(a[0].name, e.name);
    assert forall e :: e in b[1..] ==> e in b && Below(b[0].name, e.name);
    assert a == [a[0]] + a[1..] && b == [b[0]] + b[1..];
    forall e | e in a[1..] ensures e in b[1..] { assert e in b; }
    forall e | e in b[1..] ensures e in a[1..] { assert e in a; }
  }

  // ------------------------------------------------------------------ the method

  method Collect(outputs: seq<OutputInfo>) returns (m: map<Name, Seen>)
    ensures m == Latest(outputs)
  {
    m := map[];
    for i := 0 to |outputs|
      invariant m == Latest(outputs[..i])
    {
      m := m[outputs[i].name := Seen(outputs[i].size, outputs[i].active)];
      assert outputs[..i + 1][..i] == outputs[..i];
    }
    assert outputs[..|outputs|] == outputs;
  }

  /** Names are distinct here, so the source's secondary sort key never decides. */
  method SortByName(events: seq<HotplugEvent>) returns (sorted: seq<HotplugEvent>)
    requires forall i, j :: 0 <= i < j < |events| ==> events[i].name != events[j].name
    ensures Ordered(sorted) && forall e :: e in sorted <==> e in events
  {
    sorted := [];
    for n := 0 to |events|
      invariant Ordered(sorted) && forall e :: e in sorted <==> e in events[..n]
    {
      var e, k := events[n], 0;
      while k < |sorted| && Below(sorted[k].name, e.name)
        invariant k <= |sorted| && forall i :: 0 <= i < k ==> Below(sorted[i].name, e.name)
      {
        k := k + 1;
      }
      InsertKeepsOrder(sorted, k, e, events, n);
      sorted := sorted[..k] + [e] + sorted[k..];
    }
    assert events[..|events|] == events;
  }

  lemma InsertKeepsOrder(sorted: seq<HotplugEvent>, k: nat, e: HotplugEvent, events: seq<HotplugEvent>, n: nat)
    requires Ordered(sorted) && k <= |sorted| && n < |events| && e == events[n]
    requires forall x :: x in sorted <==> x in events[..n]
    requires forall i, j :: 0 <= i < j < |events| ==> events[i].name != events[j].name
    requires forall i :: 0 <= i < k ==> Below(sorted[i].name, e.name)
    requires k < |sorted| ==> !Below(sorted[k].name, e.name)
    ensures Ordered(sorted[..k] + [e] + sorted[k..])
    ensures forall x :: x in sorted[..k] + [e] + sorted[k..] <==> x in events[..n + 1]
  {
    forall i | k <= i < |sorted| ensures Below(e.name, sorted[i].name) {
      assert sorted[i] in events[..n] && sorted[k] in events[..n];
      BelowIsTotal(sorted[k].name, e.name);
      if i > k { BelowIsTransitive(e.name, sorted[k].name, sorted[i].name); }
    }
    assert sorted == sorted[..k] + sorted[k..];
    assert events[..n + 1] == events[..n] + [e];
  }

  /** `events` holds exactly the events owed to the outputs in `seen`, one per output. */
  ghost predicate Covers(previous: seq<OutputInfo>, current: seq<OutputInfo>, seen: set<Name>,
                         events: seq<HotplugEvent>) {
    && (forall e :: e in events ==> e.name in seen && OwedEvent(previous, current, e.name) == Some(e))
    && (forall name :: name in seen && OwedEvent(previous, current, name).Some? ==>
          OwedEvent(previous, current, name).value in events)
    && (forall i, j :: 0 <= i < j < |events| ==> events[i].name != events[j].name)
  }

  lemma CoverOneMore(previous: seq<OutputInfo>, current: seq<OutputInfo>, seen: set<Name>, events: seq<HotplugEvent>,
                     name: Name)
    requires Covers(previous, current, seen, events) && name !in seen
    ensures match OwedEvent(previous, current, name)
            case None => Covers(previous, current, seen + {name}, events)
            case Some(e) => Covers(previous, current, seen + {name}, events + [e])
  {
    hide OwedEvent;
  }

  /** The first loop's `match`: what the new list says about an output, against the old one. */
  method Compare(name: Name, before: map<Name, Seen>, now: Seen) returns (event: Option<HotplugEvent>)
    ensures event == EventFor(name, Lookup(before, name), Some(now))
  {
    if name !in before {
      return Some(if now.active then Added(name) else Deactivated(name));
    }
    var was := before[name];
    if !was.active && now.active {
      return Some(Activated(name));
    } else if was.active && !now.active {
      return Some(Deactivated(name));
    } else if was.active && now.active && was.size != now.size {
      return Some(Resized(name, now.size));
    }
    return None;
  }

  /** The first loop: everything the new list has. */
  method CompareAll(previous: seq<OutputInfo>, current: seq<OutputInfo>, before: map<Name, Seen>,
                    after: map<Name, Seen>)
    returns (events: seq<HotplugEvent>)
    requires before == Latest(previous) && after == Latest(current)
    ensures Covers(previous, current, after.Keys, events)
  {
    hide Covers, Latest, EventFor;
    events := [];
    var todo := after.Keys;
    StartCover(previous, current);
    assert after.Keys - todo == {};
    while todo != {}
      invariant todo <= after.Keys && Covers(previous, current, after.Keys - todo, events)
      decreases |todo|
    {
      var name :| name in todo;
      CoverOneMore(previous, current, after.Keys - todo, events, name);
      assert after.Keys - todo + {name} == after.Keys - (todo - {name});
      todo := todo - {name};
      var event := Compare(name, before, after[name]);
      if event.Some? {
        events := events + [event.value];
      }
    }
    assert after.Keys - todo == after.Keys;
  }

  /** The second loop: everything only the old list had. */
  method AddRemoved(previous: seq<OutputInfo>, current: seq<OutputInfo>, before: map<Name, Seen>,
                    after: map<Name, Seen>,
                    first: seq<HotplugEvent>)
    returns (events: seq<HotplugEvent>)
    requires before == Latest(previous) && after == Latest(current) && Covers(previous, current, after.Keys, first)
    ensures Covers(previous, current, after.Keys + before.Keys, events)
  {
    hide Covers, Latest, OwedEvent;
    events := first;
    var todo := before.Keys;
    ghost var seen := after.Keys;
    while todo != {}
      invariant todo <= before.Keys && Covers(previous, current, seen, events)
      invariant after.Keys <= seen <= after.Keys + before.Keys && before.Keys <= seen + todo
                  && todo * seen <= after.Keys
      decreases |todo|
    {
      var name :| name in todo;
      todo := todo - {name};
      if name !in after {
        assert name !in seen;
        CoverOneMore(previous, current, seen, events, name);
        RemovedIsOwed(previous, current, name);
        events := events + [Removed(name)];
        seen := seen + {name};
      }
    }
    assert seen == after.Keys + before.Keys;
  }

  lemma RemovedIsOwed(previous: seq<OutputInfo>, current: seq<OutputInfo>, name: Name)
    requires name in Latest(previous) && name !in Latest(current)
    ensures OwedEvent(previous, current, name) == Some(Removed(name))
  {
  }

  method Diff(previous: seq<OutputInfo>, current: seq<OutputInfo>) returns (events: seq<HotplugEvent>)
    ensures IsDiff(previous, current, events)
  {
    hide Covers, Latest, Below;
    var before := Collect(previous);
    var after := Collect(current);
    events := CompareAll(previous, current, before, after);
    events := AddRemoved(previous, current, before, after, events);
    CoversAll(previous, current, events);
    events := SortByName(events);
  }

  lemma StartCover(previous: seq<OutputInfo>, current: seq<OutputInfo>)
    ensures Covers(previous, current, {}, [])
  {
  }

  lemma CoversAll(previous: seq<OutputInfo>, current: seq<OutputInfo>, events: seq<HotplugEvent>)
    requires Covers(previous, current, Latest(current).Keys + Latest(previous).Keys, events)
    ensures forall e :: e in events ==> OwedEvent(previous, current, e.name) == Some(e)
    ensures forall name :: OwedEvent(previous, current, name).Some? ==>
              OwedEvent(previous, current, name).value in events
    ensures forall i, j :: 0 <= i < j < |events| ==> events[i].name != events[j].name
  {
  }
}
