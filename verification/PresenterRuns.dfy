/** What holds after every sequence of commands and callbacks, and after the shutdown drain. */
module PresenterRuns {
  import opened Prelude
  import opened SurfaceSlots
  import opened PresenterModel
  import opened PresenterProofs

  ghost predicate LegalRun(s: State, es: seq<Event>)
    decreases |es|
  {
    es == [] || (Allowed(s, es[0]) && LegalRun(Step(s, es[0]), es[1..]))
  }

  ghost function Run(s: State, es: seq<Event>): State
    decreases |es|
  {
    if es == [] then s else Run(Step(s, es[0]), es[1..])
  }

  lemma {:induction false} RunKeeps(s: State, es: seq<Event>)
    requires Inv(s) && LegalRun(s, es)
    ensures Inv(Run(s, es)) && Run(s, es).maxBuffers == s.maxBuffers
    decreases |es|
  {
    hide Step, Inv;
    if es != [] {
      StepKeeps(s, es[0]);
      RunKeeps(Step(s, es[0]), es[1..]);
    }
  }

  lemma StepKeeps(s: State, e: Event)
    requires Inv(s) && Allowed(s, e)
    ensures Inv(Step(s, e)) && Step(s, e).maxBuffers == s.maxBuffers
  {
    hide Step, TableOk, CommitsMatch, Accounted;
    StepKeepsTable(s, e);
    StepKeepsReplies(s, e);
  }

  predicate ExactlyOne(a: bool, b: bool, c: bool, d: bool) {
    (a && !b && !c && !d) || (!a && b && !c && !d) || (!a && !b && c && !d) || (!a && !b && !c && d)
  }

  /** Reply linearity over every interleaving: the reply of each processed present is in exactly one place, and
      the log never holds two answers for one reply, so a reply channel with room for one message never blocks. */
  lemma {:induction false} ReplyLinearity(maxBuffers: nat, es: seq<Event>)
    requires 1 <= maxBuffers <= MAX_BUFFERS && LegalRun(Initial(maxBuffers), es)
    ensures var s := Run(Initial(maxBuffers), es);
            && (forall r :: r in s.taken ==>
                  ExactlyOne(IsParked(s.pending, r), IsWaiting(s.waiters, r), IsAnswered(s.sent, r), r in s.dropped))
            && (forall i, j :: 0 <= i < j < |s.sent| ==> s.sent[i].reply != s.sent[j].reply)
            && (forall i :: 0 <= i < |s.sent| ==> s.sent[i].reply in s.taken)
  {
    RunKeeps(Initial(maxBuffers), es);
  }

  /** The surface table over every interleaving: whoever is parked or waiting has a surface, every ring keeps
      exactly `maxBuffers` slots, and no frame is ever committed at a size the compositor did not configure. */
  lemma {:induction false} TableInvariant(maxBuffers: nat, es: seq<Event>)
    requires 1 <= maxBuffers <= MAX_BUFFERS && LegalRun(Initial(maxBuffers), es)
    ensures var s := Run(Initial(maxBuffers), es);
            && (forall o :: o in s.pending || o in s.waiters ==> o in s.surfaces)
            && (forall o :: o in s.surfaces ==> |s.surfaces[o].buffers| == maxBuffers)
            && (forall i :: 0 <= i < |s.commits| ==> s.commits[i].configured == Some(s.commits[i].frame))
  {
    RunKeeps(Initial(maxBuffers), es);
  }

  // ------------------------------------------------------------------ the shutdown drain

  /** Answer the parked presents of `order`, one after the other. */
  function DrainPending(s: State, order: seq<Name>): State {
    if order == [] then s
    else AnswerPending(DrainPending(s, order[..|order| - 1]), order[|order| - 1], Err(NotRunning))
  }

  function DrainWaiters(s: State, order: seq<Name>): State {
    if order == [] then s
    else AnswerWaiter(DrainWaiters(s, order[..|order| - 1]), order[|order| - 1], Err(NotRunning))
  }

  /** The end of the presenter thread, with the two maps drained in the given orders. */
  function Drain(s: State, parked: seq<Name>, waiting: seq<Name>): State {
    DrainWaiters(DrainPending(s.(surfaces := map[]), parked), waiting)
  }

  /** Whatever has been answered since `s` was answered "not running". */
  ghost predicate AllNotRunning(s: State, t: State) {
    s.sent <= t.sent && forall i :: |s.sent| <= i < |t.sent| ==> t.sent[i].answer == Err(NotRunning)
  }

  lemma {:induction false} DrainPendingKeeps(s: State, order: seq<Name>)
    requires Accounted(BookOf(s), s.taken.Keys)
    ensures var t := DrainPending(s, order);
            && Accounted(BookOf(t), t.taken.Keys) && t.taken == s.taken && t.dropped == s.dropped
            && t.waiters == s.waiters && AllNotRunning(s, t)
            && t.pending.Keys == s.pending.Keys - (set o | o in order)
  {
    hide Accounted;
    if order != [] {
      var n := |order| - 1;
      DrainPendingKeeps(s, order[..n]);
      var t := DrainPending(s, order[..n]);
      AnswerPendingKeeps(t, t.taken.Keys, order[n], Err(NotRunning));
      assert order == order[..n] + [order[n]];
    }
  }

  lemma {:induction false} DrainWaitersKeeps(s: State, order: seq<Name>)
    requires Accounted(BookOf(s), s.taken.Keys)
    ensures var t := DrainWaiters(s, order);
            && Accounted(BookOf(t), t.taken.Keys) && t.taken == s.taken && t.dropped == s.dropped
            && t.pending == s.pending && AllNotRunning(s, t)
            && t.waiters.Keys == s.waiters.Keys - (set o | o in order)
  {
    hide Accounted;
    if order != [] {
      var n := |order| - 1;
      DrainWaitersKeeps(s, order[..n]);
      var t := DrainWaiters(s, order[..n]);
      AnswerWaiterKeeps(t, t.taken.Keys, order[n], Err(NotRunning));
      assert order == order[..n] + [order[n]];
    }
  }

  /** After any run and the drain nobody is left waiting: each reply ever taken has exactly one answer in the
      log, or was dropped by CancelFrame; the answers given before the drain stand, and it answers "not running". */
  lemma {:induction false} ShutdownSettlesEverything(maxBuffers: nat, es: seq<Event>, parked: seq<Name>,
                                                     waiting: seq<Name>)
    requires 1 <= maxBuffers <= MAX_BUFFERS && LegalRun(Initial(maxBuffers), es)
    requires forall o :: o in Run(Initial(maxBuffers), es).pending ==> o in parked
    requires forall o :: o in Run(Initial(maxBuffers), es).waiters ==> o in waiting
    ensures var s := Run(Initial(maxBuffers), es);
            var t := Drain(s, parked, waiting);
            && t.pending == map[] && t.waiters == map[] && t.surfaces == map[] && AllNotRunning(s, t)
            && t.taken == s.taken && t.dropped == s.dropped
            && (forall r :: r in t.taken ==> (IsAnswered(t.sent, r) <==> r !in t.dropped))
            && (forall i, j :: 0 <= i < j < |t.sent| ==> t.sent[i].reply != t.sent[j].reply)
  {
    RunKeeps(Initial(maxBuffers), es);
    hide Accounted, TableOk, CommitsMatch, Run, LegalRun, Drain, Initial, AllNotRunning;
    DrainSettles(Run(Initial(maxBuffers), es), parked, waiting);
  }

  lemma DrainSettles(s: State, parked: seq<Name>, waiting: seq<Name>)
    requires Accounted(BookOf(s), s.taken.Keys)
    requires (forall o :: o in s.pending ==> o in parked) && (forall o :: o in s.waiters ==> o in waiting)
    ensures var t := Drain(s, parked, waiting);
            && t.pending == map[] && t.waiters == map[] && t.surfaces == map[] && AllNotRunning(s, t)
            && t.taken == s.taken && t.dropped == s.dropped
            && (forall r :: r in t.taken ==> (IsAnswered(t.sent, r) <==> r !in t.dropped))
            && (forall i, j :: 0 <= i < j < |t.sent| ==> t.sent[i].reply != t.sent[j].reply)
  {
    hide Accounted, DrainPending, DrainWaiters, IsAnswered;
    var u := s.(surfaces := map[]);
    DrainPendingKeeps(u, parked);
    var v := DrainPending(u, parked);
    DrainWaitersKeeps(v, waiting);
    var t := DrainWaiters(v, waiting);
    NobodyLeft(v.pending, s.pending, parked);
    NobodyLeft(t.waiters, s.waiters, waiting);
    DrainKeepsNoSurfaces(u, parked, waiting);
    SettledBook(BookOf(t), t.taken.Keys);
  }

  lemma NobodyLeft<T>(left: map<Name, T>, all: map<Name, T>, order: seq<Name>)
    requires left.Keys == all.Keys - (set o | o in order) && forall o :: o in all ==> o in order
    ensures left == map[]
  {
    assert left.Keys == {};
  }

  /** With nobody parked and nobody waiting, each reply is answered exactly once or was dropped. */
  lemma SettledBook(b: Book, live: set<ReplyId>)
    requires Accounted(b, live) && b.pending == map[] && b.waiters == map[]
    ensures forall r :: r in live ==> (IsAnswered(b.sent, r) <==> r !in b.dropped)
    ensures forall i, j :: 0 <= i < j < |b.sent| ==> b.sent[i].reply != b.sent[j].reply
  {
    forall r | r in live ensures IsAnswered(b.sent, r) <==> r !in b.dropped {
      assert IsParked(b.pending, r) || IsWaiting(b.waiters, r) || IsAnswered(b.sent, r) || r in b.dropped;
    }
  }

  lemma {:induction false} DrainKeepsNoSurfaces(s: State, parked: seq<Name>, waiting: seq<Name>)
    ensures DrainWaiters(DrainPending(s, parked), waiting).surfaces == s.surfaces
    decreases |parked| + |waiting|
  {
    if waiting != [] {
      DrainKeepsNoSurfaces(s, parked, waiting[..|waiting| - 1]);
    } else if parked != [] {
      DrainKeepsNoSurfaces(s, parked[..|parked| - 1], []);
    }
  }
}
