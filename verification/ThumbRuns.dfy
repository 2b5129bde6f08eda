/**
  Whole runs of the thumbnail scheduler: no job is lost, none is generated twice, they come out in the order in which
  they were asked for, and what it lists as live is never collected. (crates/owe-core/src/thumbs.rs)
 */
module ThumbRuns {
  import opened Prelude
  import opened LibraryWalk
  import opened ThumbModel

  /**
    What an observer writes down: each "enqueued" answer gets the next ticket. `waiting` are the tickets of the queue;
    `handed` and `jobs` are the tickets and keys given out by `next_job`, in that order.
   */
  datatype Ledger = Ledger(enqueued: seq<Key>, waiting: seq<nat>, handed: seq<nat>, jobs: seq<Key>, completed: nat,
      dropped: nat)

  function WithoutTickets(q: seq<Job>, tickets: seq<nat>, key: Key): (left: seq<nat>)
    requires |q| == |tickets|
    ensures |left| == |Without(q, key)| <= |q|
  {
    if q == [] then [] else
    (if q[0].key == key then [] else [tickets[0]]) + WithoutTickets(q[1..], tickets[1..], key)
  }

  function Note(c: Config, s: State, l: Ledger, e: Event): (after: Ledger)
    requires |l.waiting| == |s.queue|
    ensures |after.waiting| == |Step(c, s, e).queue|
  {
    match e
    case Request(path, stamp, fileExists) =>
      if DecisionFor(c, s, path, stamp, fileExists).Enqueued?
      then l.(enqueued := l.enqueued + [Key(path, stamp, c.size)], waiting := l.waiting + [|l.enqueued|])
      else l
    case NextJob =>
      if JobHanded(s).None? then l else
      l.(waiting := l.waiting[1..], handed := l.handed + [l.waiting[0]], jobs := l.jobs + [JobHanded(s).value.key])
    case Complete(key, _) => if s.inFlight == Some(key) then l.(completed := l.completed + 1) else l
    case Forget(key) =>
      var left := WithoutTickets(s.queue, l.waiting, key);
      l.(waiting := left, dropped := l.dropped + (|s.queue| - |left|))
    case _ => l
  }

  /** The scheduler after a run from the start, and the ledger of that run. */
  function Watch(c: Config, events: seq<Event>): (r: (State, Ledger))
    ensures |r.1.waiting| == |r.0.queue|
  {
    if events == [] then (Start(), Ledger([], [], [], [], 0, 0)) else
    var before, e := Watch(c, events[..|events| - 1]), events[|events| - 1];
    (Step(c, before.0, e), Note(c, before.0, before.1, e))
  }

  // ------------------------------------------------------------------ what the ledger always shows

  /** The queue holds the jobs of these tickets, oldest first, none older than `floor`. */
  ghost predicate TicketsMatch(q: seq<Job>, tickets: seq<nat>, enqueued: seq<Key>, floor: nat)
    requires |q| == |tickets|
    decreases |q|
  {
    q == [] || (&& floor <= tickets[0] < |enqueued|
                && enqueued[tickets[0]] == q[0].key
                && TicketsMatch(q[1..], tickets[1..], enqueued, tickets[0] + 1))
  }

  function NextFloor(handed: seq<nat>): nat {
    if handed == [] then 0 else handed[|handed| - 1] + 1
  }

  ghost predicate Increasing(tickets: seq<nat>) {
    forall i, j :: 0 <= i < j < |tickets| ==> tickets[i] < tickets[j]
  }

  function Busy(inFlight: Option<Key>): nat {
    if inFlight.Some? then 1 else 0
  }

  /** Every job handed out was the one of its ticket, and the tickets were handed out in order, each at most once. */
  ghost predicate HandedInOrder(l: Ledger) {
    && |l.jobs| == |l.handed|
    && Increasing(l.handed)
    && forall i :: 0 <= i < |l.handed| ==> l.handed[i] < |l.enqueued| && l.enqueued[l.handed[i]] == l.jobs[i]
  }

  /** Every job ever queued is accounted for. */
  ghost predicate NothingLost(s: State, l: Ledger) {
    && |l.enqueued| == l.completed + |s.queue| + Busy(s.inFlight) + l.dropped
    && |l.jobs| == l.completed + Busy(s.inFlight)
    && (s.inFlight.Some? ==> l.jobs != [] && l.jobs[|l.jobs| - 1] == s.inFlight.value)
  }

  ghost predicate LedgerHolds(s: State, l: Ledger) {
    && |l.waiting| == |s.queue|
    && TicketsMatch(s.queue, l.waiting, l.enqueued, NextFloor(l.handed))
    && HandedInOrder(l)
    && NothingLost(s, l)
  }

  lemma {:induction false} LowerFloor(q: seq<Job>, tickets: seq<nat>, enqueued: seq<Key>, floor: nat, lower: nat)
    requires |q| == |tickets| && TicketsMatch(q, tickets, enqueued, floor) && lower <= floor
    ensures TicketsMatch(q, tickets, enqueued, lower)
  {
  }

  lemma {:induction false} TicketAtTheEnd(q: seq<Job>, tickets: seq<nat>, enqueued: seq<Key>, floor: nat, job: Job)
    requires |q| == |tickets| && TicketsMatch(q, tickets, enqueued, floor) && floor <= |enqueued|
    ensures TicketsMatch(q + [job], tickets + [|enqueued|], enqueued + [job.key], floor)
    decreases |q|
  {
    var q', t', e' := q + [job], tickets + [|enqueued|], enqueued + [job.key];
    if q == [] {
      assert q' == [job] && t' == [|enqueued|];
    } else {
      TicketAtTheEnd(q[1..], tickets[1..], enqueued, tickets[0] + 1, job);
      assert q'[1..] == q[1..] + [job] && t'[1..] == tickets[1..] + [|enqueued|];
    }
  }

  lemma {:induction false} TicketsOfTheRest(q: seq<Job>, tickets: seq<nat>, enqueued: seq<Key>, floor: nat, key: Key)
    requires |q| == |tickets| && TicketsMatch(q, tickets, enqueued, floor)
    ensures |Without(q, key)| == |WithoutTickets(q, tickets, key)| <= |q|
    ensures TicketsMatch(Without(q, key), WithoutTickets(q, tickets, key), enqueued, floor)
    decreases |q|
  {
    if q != [] {
      TicketsOfTheRest(q[1..], tickets[1..], enqueued, tickets[0] + 1, key);
      var rest, left := Without(q[1..], key), WithoutTickets(q[1..], tickets[1..], key);
      if q[0].key == key {
        assert Without(q, key) == rest && WithoutTickets(q, tickets, key) == left;
        LowerFloor(rest, left, enqueued, tickets[0] + 1, floor);
      } else {
        var w, t := Without(q, key), WithoutTickets(q, tickets, key);
        assert w == [q[0]] + rest && w[1..] == rest;
        assert t == [tickets[0]] + left && t[1..] == left;
      }
    }
  }

  lemma FloorWithinEnqueued(l: Ledger)
    requires HandedInOrder(l)
    ensures NextFloor(l.handed) <= |l.enqueued|
  {
  }

  lemma NoteRequest(c: Config, s: State, l: Ledger, path: Path, stamp: Stamp, fileExists: bool)
    requires LedgerHolds(s, l)
    ensures LedgerHolds(AfterRequest(c, s, path, stamp, fileExists), Note(c, s, l, Request(path, stamp, fileExists)))
  {
    FloorWithinEnqueued(l);
    TicketAtTheEnd(s.queue, l.waiting, l.enqueued, NextFloor(l.handed), JobFor(c, path, stamp));
    hide TicketsMatch, NextFloor;
  }

  lemma NoteNextJob(c: Config, s: State, l: Ledger)
    requires LedgerHolds(s, l)
    ensures LedgerHolds(AfterNextJob(s), Note(c, s, l, NextJob))
  {
    if JobHanded(s).Some? {
      var m := Note(c, s, l, NextJob);
      assert NextFloor(m.handed) == l.waiting[0] + 1;
      forall i | 0 <= i < |l.handed| ensures l.handed[i] < l.waiting[0] {
      }
    }
  }

  lemma NoteForget(c: Config, s: State, l: Ledger, key: Key)
    requires LedgerHolds(s, l)
    ensures LedgerHolds(AfterForget(s, key), Note(c, s, l, Forget(key)))
  {
    TicketsOfTheRest(s.queue, l.waiting, l.enqueued, NextFloor(l.handed), key);
    hide TicketsMatch, NextFloor, WithoutTickets, Without;
  }

  lemma NoteHolds(c: Config, s: State, l: Ledger, e: Event)
    requires LedgerHolds(s, l)
    ensures LedgerHolds(Step(c, s, e), Note(c, s, l, e))
  {
    match e
    case Request(path, stamp, fileExists) => NoteRequest(c, s, l, path, stamp, fileExists);
    case NextJob => NoteNextJob(c, s, l);
    case Complete(key, result) =>
      hide TicketsMatch, NextFloor;
    case Forget(key) => NoteForget(c, s, l, key);
    case Retry(key) =>
    case ResetStats =>
  }

  /**
    In every run whatsoever: every job enqueued has been completed, is being generated, is queued or was forgotten
    while queued; jobs come out in the order in which they were asked for; and each is handed out at most once.
   */
  lemma {:induction false} NoJobIsLost(c: Config, events: seq<Event>)
    ensures LedgerHolds(Watch(c, events).0, Watch(c, events).1)
  {
    if events != [] {
      var before, e := Watch(c, events[..|events| - 1]), events[|events| - 1];
      NoJobIsLost(c, events[..|events| - 1]);
      NoteHolds(c, before.0, before.1, e);
    }
  }

  // ------------------------------------------------------------------ disciplined runs

  ghost predicate DisciplinedRun(c: Config, events: seq<Event>) {
    forall i :: 0 <= i < |events| ==> Disciplined(Watch(c, events[..i]).0, events[i])
  }

  /** At every moment of a disciplined run the records are true: nothing is queued twice, or queued while in flight. */
  lemma {:induction false} DisciplinedRunIsGood(c: Config, events: seq<Event>)
    requires DisciplinedRun(c, events)
    ensures Good(c, Watch(c, events).0)
  {
    if events == [] {
      StartIsGood(c);
    } else {
      var early, e := events[..|events| - 1], events[|events| - 1];
      forall i | 0 <= i < |early| ensures Disciplined(Watch(c, early[..i]).0, early[i]) {
        assert early[..i] == events[..i];
      }
      DisciplinedRunIsGood(c, early);
      DisciplineIsExact(c, Watch(c, early).0, e);
    }
  }

  /** Forgetting the key that is being generated lets it be queued a second time while the first is still running. */
  lemma ForgettingInFlightDoubles(c: Config, s: State, path: Path, stamp: Stamp)
    requires Good(c, s) && s.inFlight == Some(Key(path, stamp, c.size)) && |s.queue| < c.maxQueue
    ensures var k := Key(path, stamp, c.size);
            var t := AfterRequest(c, AfterForget(s, k), path, stamp, false);
            HasKey(t.queue, k) && t.inFlight == Some(k)
  {
    var k := Key(path, stamp, c.size);
    WithoutKeepsQueue(c, s.queue, k);
    var u := AfterForget(s, k);
    assert u.queue + [JobFor(c, path, stamp)] == AfterRequest(c, u, path, stamp, false).queue;
    KeyAtTheEnd(u.queue, JobFor(c, path, stamp), k);
  }

  /** What each answer to a request means. A refusal for want of room is not remembered. */
  lemma AnswersMeanWhatTheySay(c: Config, s: State, path: Path, stamp: Stamp, fileExists: bool)
    requires Good(c, s)
    ensures var k, d := Key(path, stamp, c.size), DecisionFor(c, s, path, stamp, fileExists);
            var t := AfterRequest(c, s, path, stamp, fileExists);
            && (d.AlreadyQueued? <==> HasKey(s.queue, k) || s.inFlight == Some(k))
            && (d.Enqueued? <==> !HasKey(s.queue, k) && HasKey(t.queue, k))
            && (d.Cached? <==> k in t.known && t.known[k].Cached?)
            && (d.Cached? ==> t.known[k] == d)
            && (d.Failed? && !(k in t.known && t.known[k] == d) ==> t == s && |s.queue| >= c.maxQueue)
            && (d.AlreadyQueued? ==> t == s)
  {
    var job := JobFor(c, path, stamp);
    KeyAtTheEnd(s.queue, job, job.key);
    hide HasKey, DistinctKeys, JobsAreTrue;
  }

  // ------------------------------------------------------------------ what the records remember

  /** The event says `d` of `key`. */
  predicate Says(c: Config, e: Event, key: Key, d: Decision) {
    match d
    case Cached(file) =>
      || e == Complete(key, Ok(file))
      || (e == Request(key.path, key.stamp, true) && key.size == c.size && file == CacheFile(c.root, c.size, key))
    case Enqueued => e == Request(key.path, key.stamp, false) && key.size == c.size
    case Failed(reason) => reason.Generation? && e == Complete(key, Err(reason.text))
    case AlreadyQueued => false
  }

  /** The event makes the scheduler drop what it had recorded for `key`, or record something else. */
  predicate Overrules(e: Event, key: Key, d: Decision) {
    (e.Complete? && e.key == key) || (e.Forget? && e.forgotten == key) || (e.Retry? && e.retried == key && d.Failed?)
  }

  /** `d` was recorded for `key`, and nothing has overruled it since. */
  ghost predicate Stands(c: Config, events: seq<Event>, key: Key, d: Decision) {
    exists i :: 0 <= i < |events| && Says(c, events[i], key, d) && NotOverruled(events, i, key, d)
  }

  ghost predicate NotOverruled(events: seq<Event>, i: nat, key: Key, d: Decision)
    requires i < |events|
  {
    forall j :: i < j < |events| ==> !Overrules(events[j], key, d)
  }

  lemma StandsOn(c: Config, events: seq<Event>, key: Key, d: Decision)
    requires events != [] && Stands(c, events[..|events| - 1], key, d) && !Overrules(events[|events| - 1], key, d)
    ensures Stands(c, events, key, d)
  {
    var early := events[..|events| - 1];
    var i :| 0 <= i < |early| && Says(c, early[i], key, d) && NotOverruled(early, i, key, d);
    assert events[i] == early[i];
    assert Says(c, events[i], key, d);
    forall j | i < j < |events| ensures !Overrules(events[j], key, d) {
      if j < |early| { assert events[j] == early[j]; }
    }
    assert NotOverruled(events, i, key, d);
  }

  lemma StandsNow(c: Config, events: seq<Event>, key: Key, d: Decision)
    requires events != [] && Says(c, events[|events| - 1], key, d)
    ensures Stands(c, events, key, d)
  {
    assert NotOverruled(events, |events| - 1, key, d);
  }

  /** A step leaves a record alone, or makes one that its event says. */
  lemma StepRecords(c: Config, s: State, e: Event, key: Key)
    ensures var t := Step(c, s, e);
            key in t.known ==>
              || Says(c, e, key, t.known[key])
              || (key in s.known && s.known[key] == t.known[key] && !Overrules(e, key, t.known[key]))
    ensures key in s.known && !Overrules(e, key, s.known[key]) ==>
              key in Step(c, s, e).known && Step(c, s, e).known[key] == s.known[key]
    ensures e.Complete? && e.key == key ==> key in Step(c, s, e).known && Step(c, s, e).known[key] == Outcome(e)
  {
  }

  /** What a completion says of its key. */
  function Outcome(e: Event): Decision
    requires e.Complete?
  {
    match e.result
    case Ok(file) => Cached(file)
    case Err(text) => Failed(Generation(text))
  }

  /** Whatever is recorded for a key was once said of that very path, stamp and size, and has not been overruled. */
  lemma {:induction false} RecordsHaveAHistory(c: Config, events: seq<Event>, key: Key)
    ensures var s := Watch(c, events).0;
            key in s.known ==> Stands(c, events, key, s.known[key])
  {
    if events != [] && key in Watch(c, events).0.known {
      var n := |events| - 1;
      var s, d := Watch(c, events[..n]).0, Watch(c, events).0.known[key];
      RecordsHaveAHistory(c, events[..n], key);
      StepRecords(c, s, events[n], key);
      hide Watch, Stands, Step, Says, Overrules;
      if Says(c, events[n], key, d) {
        StandsNow(c, events, key, d);
      } else {
        StandsOn(c, events, key, d);
      }
    }
  }

  /** And the other way round: what a completion says is recorded until it is overruled. */
  lemma {:induction false} CompletionsAreRemembered(c: Config, events: seq<Event>, i: nat)
    requires i < |events| && events[i].Complete? && NotOverruled(events, i, events[i].key, Outcome(events[i]))
    ensures var e, s := events[i], Watch(c, events).0;
            e.key in s.known && s.known[e.key] == Outcome(e)
  {
    var n, e := |events| - 1, events[i];
    if i < n {
      assert events[..n][i] == e;
      assert NotOverruled(events[..n], i, e.key, Outcome(e));
      CompletionsAreRemembered(c, events[..n], i);
      assert !Overrules(events[n], e.key, Outcome(e));
    }
    StepRecords(c, Watch(c, events[..n]).0, events[n], e.key);
    hide Step, Overrules;
  }

  /** What a decision about `key` says about the run that led to it. */
  ghost predicate IsFounded(c: Config, events: seq<Event>, key: Key, fileExists: bool, d: Decision) {
    var s := Watch(c, events).0;
    match d
    case Cached(file) =>
      || Stands(c, events, key, Cached(file))
      || (fileExists && key !in s.known && file == CacheFile(c.root, c.size, key))
    case AlreadyQueued => Stands(c, events, key, Enqueued)
    case Failed(reason) =>
      || Stands(c, events, key, Failed(reason))
      || (reason == QueueFull(c.maxQueue) && |s.queue| >= c.maxQueue)
    case Enqueued => key !in s.known && !fileExists && |s.queue| < c.maxQueue
  }

  /**
    What an answer says about the past, in every run whatsoever and for the very path and stamp that is asked about. A
    thumbnail is handed out only if it was completed for them or found for them; "already queued" only if they were
    asked for; a failure only if they failed, or for want of room; and "enqueued" only if nothing is recorded. So the
    thumbnail of a file is never handed out for a changed one.
   */
  lemma {:induction false} AnswersHaveAHistory(c: Config, events: seq<Event>, path: Path, stamp: Stamp,
                                               fileExists: bool)
    ensures IsFounded(c, events, Key(path, stamp, c.size), fileExists,
                      DecisionFor(c, Watch(c, events).0, path, stamp, fileExists))
  {
    RecordsHaveAHistory(c, events, Key(path, stamp, c.size));
    hide Watch, NotOverruled;
  }

  /** How many events since the last reset, of all events, say so. */
  function Since(events: seq<Event>, counted: nat -> bool): nat {
    if events == [] || events[|events| - 1].ResetStats? then 0
    else Since(events[..|events| - 1], counted) + if counted(|events| - 1) then 1 else 0
  }

  /** Event `i` found the thumbnail on disk: nothing was recorded for the file, and the cache file was there. */
  predicate FoundOnDisk(c: Config, events: seq<Event>, i: nat) {
    && i < |events| && events[i].Request? && events[i].fileExists
    && Key(events[i].path, events[i].stamp, c.size) !in Watch(c, events[..i]).0.known
  }

  predicate Completed(events: seq<Event>, i: nat, ok: bool) {
    i < |events| && events[i].Complete? && events[i].result.Ok? == ok
  }

  lemma {:induction false} SinceEarlier(events: seq<Event>, p: nat -> bool, q: nat -> bool)
    requires forall i: nat :: i < |events| ==> p(i) == q(i)
    ensures Since(events, p) == Since(events, q)
  {
    if events != [] {
      SinceEarlier(events[..|events| - 1], p, q);
    }
  }

  /** The statistics count, since the last reset, the completions that succeeded, those that failed, and the requests
      answered from the disk. */
  lemma {:induction false} StatsCount(c: Config, events: seq<Event>)
    ensures var s := Watch(c, events).0;
            && s.generated == Since(events, (i: nat) => Completed(events, i, true))
            && s.failures == Since(events, (i: nat) => Completed(events, i, false))
            && s.servedFromCache == Since(events, (i: nat) => FoundOnDisk(c, events, i))
  {
    if events != [] {
      var early := events[..|events| - 1];
      StatsCount(c, early);
      forall i: nat | i < |early|
        ensures Completed(early, i, true) == Completed(events, i, true)
        ensures Completed(early, i, false) == Completed(events, i, false)
        ensures FoundOnDisk(c, early, i) == FoundOnDisk(c, events, i)
      {
        assert early[i] == events[i] && early[..i] == events[..i];
      }
      SinceEarlier(early, (i: nat) => Completed(early, i, true), (i: nat) => Completed(events, i, true));
      SinceEarlier(early, (i: nat) => Completed(early, i, false), (i: nat) => Completed(events, i, false));
      SinceEarlier(early, (i: nat) => FoundOnDisk(c, early, i), (i: nat) => FoundOnDisk(c, events, i));
    }
  }

  /** Whatever ceiling is asked for, a scheduler with nothing to do takes a request; one of at least one is kept. */
  lemma SomeRoomAlways(root: Path, size: nat, maxQueue: nat, path: Path, stamp: Stamp)
    ensures DecisionFor(WithMaxQueue(root, size, maxQueue), Start(), path, stamp, false) == Enqueued
    ensures maxQueue >= 1 ==> WithMaxQueue(root, size, maxQueue) == Config(root, size, maxQueue)
  {
  }

  // ------------------------------------------------------------------ collecting old thumbnails

  function LiveKeys(s: State): set<Key> {
    set k | k in s.known && !s.known[k].Failed?
  }

  function StaleKeys(cached: set<Key>, live: set<Key>): set<Key> {
    cached - live
  }

  /** Nothing that is queued, being generated or in use is ever collected; everything else in the cache is. */
  lemma CollectionIsSafe(c: Config, s: State, cached: set<Key>, k: Key)
    requires Good(c, s) && k in cached
    ensures k in StaleKeys(cached, LiveKeys(s))
            <==> !HasKey(s.queue, k) && s.inFlight != Some(k) && !(k in s.known && s.known[k].Cached?)
  {
    hide HasKey, DistinctKeys, JobsAreTrue;
  }
}
