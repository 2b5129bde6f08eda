/**
  Why each answer is given: over every run, what an answer says about the request, the surface and the buffers behind
  it, told without the handlers.
  (crates/owe-render/src/surface.rs)
 */
module PresenterReasons {
  import opened Prelude
  import opened SurfaceSlots
  import opened PresenterModel
  import opened PresenterProofs
  import opened PresenterRuns
  import opened PresenterAnswers

  /** What the compositor knows of a surface. */
  datatype Identity = Identity(surfaceId: nat, size: Option<Size>)

  function Identities(surfaces: map<Name, SurfaceView>): map<Name, Identity> {
    map o | o in surfaces :: Identity(surfaces[o].surfaceId, surfaces[o].size)
  }

  predicate AllHeld(v: SurfaceView) {
    forall i :: 0 <= i < |v.buffers| ==> v.buffers[i].Held?
  }

  /** No memory, no attaching or no flushing. */
  predicate Fails(up: UploadEnv) {
    !up.allocOk || !up.attachOk || !up.flushOk
  }

  /** The request that an event finishes on output `o`: a new one, or the one parked on a surface being configured. */
  ghost predicate IsFinished(s: State, e: Event, o: Name, p: Pending) {
    || (e.Present? && e.output == o && p == Pending(e.frame, e.waitForFrame, e.reply))
    || (e.Configure? && Owns(s, e.surfaceId, o) && o in s.pending && p == s.pending[o])
  }

  ghost predicate Finishing(s: State, e: Event, o: Name, r: ReplyId) {
    exists p :: IsFinished(s, e, o, p) && p.reply == r
  }

  /** A newer present of the same output pushes the holder of `r` out: parked for parked, waiting for waiting. */
  ghost predicate PushedOut(s: State, e: Event, o: Name, r: ReplyId) {
    || (e.Present? && e.output == o && o in s.pending && s.pending[o].reply == r)
    || (o in s.waiters && s.waiters[o].reply == r && exists p :: IsFinished(s, e, o, p) && p.waitForFrame)
  }

  /**
    Why reply `m.reply` gets its answer in the step `e` from `s` to `t`. `q` is what was asked for with it.
   */
  ghost predicate HasReason(s: State, e: Event, t: State, q: Request, m: Sent) {
    var o := q.output;
    match m.answer
    case Ok(ResizeRequired(size)) =>
      Finishing(s, e, o, m.reply) && size != q.frame && o in t.surfaces && t.surfaces[o].size == Some(size)
    case Ok(Presented(size)) =>
      || (e.FrameDone? && Owns(s, e.surfaceId, o) && o in s.waiters && s.waiters[o].reply == m.reply
          && s.surfaces[o].size == Some(size))
      || (e == Clear(o) && o in s.pending && s.pending[o].reply == m.reply && !q.waitForFrame && size == q.frame)
      || (Finishing(s, e, o, m.reply) && !q.waitForFrame && size == q.frame
          && o in t.surfaces && t.surfaces[o].size == Some(size)
          && t.commits == s.commits + [Commit(o, size, Some(size), m.reply)])
    case Err(UnknownOutput) =>
      o !in t.surfaces
    case Err(NotRunning) =>
      e == CancelFrame(o) && o in s.pending && s.pending[o].reply == m.reply
    case Err(Busy) =>
      PushedOut(s, e, o, m.reply) || (Finishing(s, e, o, m.reply) && o in t.surfaces && AllHeld(t.surfaces[o]))
    case Err(Wayland) =>
      Finishing(s, e, o, m.reply) && (if o in s.surfaces then Fails(e.up) else e.Present? && e.create.NoPool?)
    case Err(FrameSize) => false
  }

  /** The answers a step adds to the log, each with its reason. */
  ghost predicate Reasoned(s: State, e: Event, t: State, asked: Requests) {
    && s.sent <= t.sent
    && forall i :: |s.sent| <= i < |t.sent| ==>
         t.sent[i].reply in asked && HasReason(s, e, t, asked[t.sent[i].reply], t.sent[i])
  }

  // ------------------------------------------------------------------ finishing a present

  /** The entry that answering the holder of a place, if there is one, adds to the log. */
  function News(pending: map<Name, Pending>, o: Name, answer: Option<Answer>): seq<Sent> {
    if o in pending && answer.Some? then [Sent(pending[o].reply, answer.value)] else []
  }

  function WaiterNews(waiters: map<Name, Waiter>, o: Name, answer: Option<Answer>): seq<Sent> {
    if o in waiters && answer.Some? then [Sent(waiters[o].reply, answer.value)] else []
  }

  /** What finishing `p` at the configured size leaves behind. */
  ghost predicate FinishedAs(s: State, o: Name, p: Pending, configured: Size, up: UploadEnv, t: State, answer: Answer) {
    var fits := p.frame == configured;
    && Identities(t.surfaces) == Identities(s.surfaces) && t.pending == s.pending && t.dropped == s.dropped
    && t.events == s.events && t.outputNames == s.outputNames && t.taken == s.taken && t.stop == s.stop
    && t.maxBuffers == s.maxBuffers
    && (forall n :: n in s.surfaces && n != o ==> n in t.surfaces && t.surfaces[n] == s.surfaces[n])
    && t.sent == s.sent + WaiterNews(s.waiters, o, if fits && p.waitForFrame then Some(Err(Busy)) else None)
    && t.waiters == (if !fits || !p.waitForFrame then s.waiters
                     else if answer.Ok? then s.waiters[o := Waiter(p.frame, p.reply)] else s.waiters - {o})
    && (match answer
        case Ok(ResizeRequired(size)) =>
          !fits && size == configured && t.surfaces == s.surfaces && t.commits == s.commits
        case Ok(Presented(size)) =>
          fits && size == p.frame && t.commits == s.commits + [Commit(o, size, Some(size), p.reply)]
        case Err(e) =>
          && fits && o in s.surfaces && o in t.surfaces
          && (if e == Busy then AllHeld(s.surfaces[o]) && AllHeld(t.surfaces[o]) else e == Wayland && Fails(up))
          && (if e == Wayland && up.allocOk && up.attachOk
              then t.commits == s.commits + [Commit(o, p.frame, Some(p.frame), p.reply)]
              else !up.attachOk || e == Busy ==> t.commits == s.commits))
  }

  lemma UploadFailsFor(v: SurfaceView, frame: Size, up: UploadEnv)
    requires SizedRing(v) && v.size == Some(frame)
    ensures var (w, r, committed) := Upload(v, frame, up);
            && w.surfaceId == v.surfaceId && w.size == v.size
            && (r.Ok? ==> committed)
            && (r.Err? ==> if r.error == Busy then AllHeld(v) && AllHeld(w) else r.error == Wayland && Fails(up))
            && (r == Err(Wayland) && up.allocOk && up.attachOk ==> committed)
            && (!up.attachOk || r == Err(Busy) ==> !committed)
  {
    UploadKeepsRing(v, frame, up);
    PassIsComplete(v.buffers, v.nextSlot);
  }

  lemma FinishReasons(s: State, o: Name, p: Pending, configured: Size, up: UploadEnv)
    requires o in s.surfaces && SizedRing(s.surfaces[o]) && s.surfaces[o].size == Some(configured)
    ensures var (t, answer) := Finish(s, o, p.frame, configured, p.waitForFrame, p.reply, up);
            FinishedAs(s, o, p, configured, up, t, answer)
  {
    hide SizedRing, UploadTo, Arm, AllHeld, Identities;
    if p.frame == configured {
      hide FinishedAs;
      if p.waitForFrame { FinishWaiting(s, o, p, up); } else { FinishAtOnce(s, o, p, up); }
    }
  }

  lemma FinishAtOnce(s: State, o: Name, p: Pending, up: UploadEnv)
    requires o in s.surfaces && SizedRing(s.surfaces[o]) && s.surfaces[o].size == Some(p.frame) && !p.waitForFrame
    ensures var (t, answer) := Finish(s, o, p.frame, p.frame, p.waitForFrame, p.reply, up);
            FinishedAs(s, o, p, p.frame, up, t, answer)
  {
    UploadReasons(s, o, p.frame, p.reply, up);
    hide SizedRing, UploadTo, Arm, AllHeld, Identities;
  }

  lemma FinishWaiting(s: State, o: Name, p: Pending, up: UploadEnv)
    requires o in s.surfaces && SizedRing(s.surfaces[o]) && s.surfaces[o].size == Some(p.frame) && p.waitForFrame
    ensures var (t, answer) := Finish(s, o, p.frame, p.frame, p.waitForFrame, p.reply, up);
            FinishedAs(s, o, p, p.frame, up, t, answer)
  {
    hide SizedRing, UploadTo, Arm, AllHeld, Identities;
    var u := Arm(s, o, p.frame, p.reply).0;
    ArmReasons(s, o, p.frame, p.reply);
    UploadReasons(u, o, p.frame, p.reply, up);
    assert u.waiters - {o} == s.waiters - {o};
  }

  lemma ArmReasons(s: State, o: Name, size: Size, r: ReplyId)
    requires o in s.surfaces
    ensures var t := s.(waiters := s.waiters[o := Waiter(size, r)],
                        sent := s.sent + WaiterNews(s.waiters, o, Some(Err(Busy))));
            Arm(s, o, size, r) == (t, Ok(()))
  {
    assert (s.waiters - {o})[o := Waiter(size, r)] == s.waiters[o := Waiter(size, r)];
    assert s.sent + [] == s.sent;
  }

  lemma UploadReasons(s: State, o: Name, frame: Size, r: ReplyId, up: UploadEnv)
    requires o in s.surfaces && SizedRing(s.surfaces[o]) && s.surfaces[o].size == Some(frame)
    ensures var (t, result) := UploadTo(s, o, frame, r, up);
            && o in t.surfaces && t == s.(surfaces := s.surfaces[o := t.surfaces[o]], commits := t.commits)
            && Identities(t.surfaces) == Identities(s.surfaces)
            && (match result
                case Ok(_) => t.commits == s.commits + [Commit(o, frame, Some(frame), r)]
                case Err(e) =>
                  && (if e == Busy then AllHeld(s.surfaces[o]) && AllHeld(t.surfaces[o]) else e == Wayland && Fails(up))
                  && (if e == Wayland && up.allocOk && up.attachOk
                      then t.commits == s.commits + [Commit(o, frame, Some(frame), r)]
                      else !up.attachOk || e == Busy ==> t.commits == s.commits))
  {
    UploadFailsFor(s.surfaces[o], frame, up);
    hide Upload, SizedRing, AllHeld;
    SameIdentity(s.surfaces, o, UploadTo(s, o, frame, r, up).0.surfaces[o]);
    hide Identities;
  }

  lemma SameAt(a: map<Name, SurfaceView>, b: map<Name, SurfaceView>, o: Name)
    requires Identities(a) == Identities(b) && o in a
    ensures o in b && b[o].size == a[o].size && b[o].surfaceId == a[o].surfaceId
  {
    assert o in Identities(a) && Identities(a)[o] == Identities(b)[o];
  }

  lemma SameIdentity(surfaces: map<Name, SurfaceView>, o: Name, v: SurfaceView)
    requires o in surfaces && v.surfaceId == surfaces[o].surfaceId && v.size == surfaces[o].size
    ensures Identities(surfaces[o := v]) == Identities(surfaces)
  {
  }

  // ------------------------------------------------------------------ handler by handler

  /** Whoever is parked or waiting asked for this output. */
  ghost predicate Asked(s: State, asked: Requests) {
    && (forall o :: o in s.pending ==> var p := s.pending[o];
          p.reply in asked && asked[p.reply] == Request(o, p.frame, p.waitForFrame))
    && (forall o :: o in s.waiters ==> var w := s.waiters[o];
          w.reply in asked && asked[w.reply] == Request(o, w.size, true))
  }

  lemma TracedIsAsked(s: State, asked: Requests, early: set<ReplyId>)
    requires Traced(TrailOf(s), asked, early)
    ensures Asked(s, asked)
  {
    hide Committed;
  }

  function UpOf(e: Event): UploadEnv
    requires e.Present? || e.Configure?
  {
    e.up
  }

  lemma ReasonedAll(s: State, e: Event, t: State, news: seq<Sent>, asked: Requests)
    requires t.sent == s.sent + news
    requires forall i :: 0 <= i < |news| ==>
               news[i].reply in asked && HasReason(s, e, t, asked[news[i].reply], news[i])
    ensures Reasoned(s, e, t, asked)
  {
    hide HasReason;
  }

  /** At most one answer to a parked present and one to a waiter. */
  lemma ReasonedTwo(s: State, e: Event, t: State, o: Name, a: Option<Answer>, b: Option<Answer>, asked: Requests)
    requires Asked(s, asked) && t.sent == s.sent + News(s.pending, o, a) + WaiterNews(s.waiters, o, b)
    requires a.Some? && o in s.pending ==>
               HasReason(s, e, t, asked[s.pending[o].reply], Sent(s.pending[o].reply, a.value))
    requires b.Some? && o in s.waiters ==>
               HasReason(s, e, t, asked[s.waiters[o].reply], Sent(s.waiters[o].reply, b.value))
    ensures Reasoned(s, e, t, asked)
  {
    hide HasReason;
    assert t.sent == s.sent + (News(s.pending, o, a) + WaiterNews(s.waiters, o, b));
    ReasonedAll(s, e, t, News(s.pending, o, a) + WaiterNews(s.waiters, o, b), asked);
  }

  /** The answer to the present that is finished, when it does not have to wait. */
  lemma OwnAnswerHasReason(s: State, e: Event, o: Name, p: Pending, configured: Size, u: State, t: State,
                           answer: Answer)
    requires IsFinished(s, e, o, p) && o in s.surfaces
    requires u.commits == s.commits && o in u.surfaces && u.surfaces[o].size == Some(configured)
    requires FinishedAs(u, o, p, configured, UpOf(e), t, answer) && !(p.waitForFrame && SaysPresented(answer))
    ensures HasReason(s, e, t, Request(o, p.frame, p.waitForFrame), Sent(p.reply, answer))
  {
    SameAt(u.surfaces, t.surfaces, o);
    assert Finishing(s, e, o, p.reply);
    hide AllHeld, Fails, Identities, Finishing, IsFinished, PushedOut;
  }

  /** Finishing `p` gives every answer a reason: `u` is where the present is finished, at the size configured there. */
  lemma FinishHasReasons(s: State, e: Event, o: Name, p: Pending, configured: Size, u: State, asked: Requests)
    requires Asked(s, asked) && IsFinished(s, e, o, p) && o in s.surfaces
    requires p.reply in asked && asked[p.reply] == Request(o, p.frame, p.waitForFrame)
    requires u.sent == s.sent && u.commits == s.commits && u.waiters == s.waiters
    requires o in u.surfaces && SizedRing(u.surfaces[o]) && u.surfaces[o].size == Some(configured)
    ensures var (t, answer) := Finish(u, o, p.frame, configured, p.waitForFrame, p.reply, UpOf(e));
            Reasoned(s, e, Settle(t, p.waitForFrame, p.reply, answer), asked)
  {
    FinishReasons(u, o, p, configured, UpOf(e));
    var (t, answer) := Finish(u, o, p.frame, configured, p.waitForFrame, p.reply, UpOf(e));
    hide Finish, SizedRing, Reasoned, Asked, IsFinished, FinishedAs;
    FinishedHasReasons(s, e, o, p, configured, u, t, answer, asked);
  }

  lemma FinishedHasReasons(s: State, e: Event, o: Name, p: Pending, configured: Size, u: State, t: State,
                           answer: Answer, asked: Requests)
    requires Asked(s, asked) && IsFinished(s, e, o, p) && o in s.surfaces
    requires p.reply in asked && asked[p.reply] == Request(o, p.frame, p.waitForFrame)
    requires u.sent == s.sent && u.commits == s.commits && u.waiters == s.waiters
    requires o in u.surfaces && u.surfaces[o].size == Some(configured)
    requires FinishedAs(u, o, p, configured, UpOf(e), t, answer)
    ensures Reasoned(s, e, Settle(t, p.waitForFrame, p.reply, answer), asked)
  {
    var v := Settle(t, p.waitForFrame, p.reply, answer);
    var busy := if p.frame == configured && p.waitForFrame then Some(Err(Busy)) else None;
    var own: seq<Sent> := if p.waitForFrame && SaysPresented(answer) then [] else [Sent(p.reply, answer)];
    assert t.sent == s.sent + WaiterNews(s.waiters, o, busy) by { hide HasReason, AllHeld, Fails, Identities; }
    hide HasReason;
    if own != [] {
      OwnAnswerHasReason(s, e, o, p, configured, u, t, answer);
      OnlyTheLogGrows(s, e, t, v, Request(o, p.frame, p.waitForFrame), own[0]);
    }
    hide FinishedAs;
    if busy.Some? && o in s.waiters {
      assert PushedOut(s, e, o, s.waiters[o].reply);
      PushedOutHasReason(s, e, v, o, asked);
    }
    hide PushedOut, Finishing, IsFinished;
    assert v.sent == s.sent + (WaiterNews(s.waiters, o, busy) + own);
    ReasonedAll(s, e, v, WaiterNews(s.waiters, o, busy) + own, asked);
  }

  lemma OnlyTheLogGrows(s: State, e: Event, t: State, u: State, q: Request, m: Sent)
    requires HasReason(s, e, t, q, m) && u.surfaces == t.surfaces && u.commits == t.commits
    ensures HasReason(s, e, u, q, m)
  {
    hide Finishing, PushedOut;
  }

  lemma PushedOutHasReason(s: State, e: Event, t: State, o: Name, asked: Requests)
    requires Asked(s, asked) && o in s.waiters && PushedOut(s, e, o, s.waiters[o].reply)
    ensures var r := s.waiters[o].reply;
            r in asked && HasReason(s, e, t, asked[r], Sent(r, Err(Busy)))
  {
    hide Finishing, PushedOut;
  }

  lemma PresentHasReasons(s: State, e: Event, asked: Requests)
    requires TableOk(TableOf(s)) && Asked(s, asked) && e.Present?
    requires e.reply in asked && asked[e.reply] == Request(e.output, e.frame, e.waitForFrame)
    ensures Reasoned(s, e, OnPresent(s, e), asked)
  {
    var o, p, t := e.output, Pending(e.frame, e.waitForFrame, e.reply), OnPresent(s, e);
    assert IsFinished(s, e, o, p) && Finishing(s, e, o, p.reply);
    if o in s.surfaces && s.surfaces[o].size.Some? {
      RingOf(s, o);
      hide TableOk, Reasoned;
      FinishHasReasons(s, e, o, p, s.surfaces[o].size.value, s, asked);
    } else if o in s.surfaces || e.create.Created? {
      ParkHasReasons(s, e, asked);
    } else {
      hide TableOk, Asked, IsFinished, Finishing;
      ReasonedAll(s, e, t, [Sent(e.reply, if e.create.NoPool? then Err(Wayland) else Err(UnknownOutput))], asked);
    }
  }

  lemma ParkHasReasons(s: State, e: Event, asked: Requests)
    requires TableOk(TableOf(s)) && Asked(s, asked) && e.Present?
    requires if e.output in s.surfaces then s.surfaces[e.output].size.None? else e.create.Created?
    ensures Reasoned(s, e, OnPresent(s, e), asked)
  {
    var o, t := e.output, OnPresent(s, e);
    if o in s.pending { assert PushedOut(s, e, o, s.pending[o].reply); }
    hide RingOk, NewSurface, PushedOut, Finishing, Reasoned;
    ReasonedTwo(s, e, t, o, Some(Err(Busy)), None, asked);
  }

  /** The parked present is finished in `u`, which is `s` with its surface configured. */
  lemma ParkedHasReasons(s: State, e: Event, o: Name, u: State, asked: Requests)
    requires Asked(s, asked) && e.Configure? && Owns(s, e.surfaceId, o)
    requires u.sent == s.sent && u.commits == s.commits && u.waiters == s.waiters && u.pending == s.pending
    requires o in u.surfaces && SizedRing(u.surfaces[o]) && u.surfaces[o].size == Some(e.size)
    ensures Reasoned(s, e, FinishParked(u, o, e.size, e.up), asked)
  {
    hide Finish, Settle, SizedRing;
    if o in s.pending {
      assert IsFinished(s, e, o, s.pending[o]);
      hide IsFinished, Reasoned;
      FinishHasReasons(s, e, o, s.pending[o], e.size, u.(pending := u.pending - {o}), asked);
    }
  }

  lemma ConfigureHasReasons(s: State, e: Event, o: Name, asked: Requests)
    requires TableOk(TableOf(s)) && Asked(s, asked) && e.Configure? && Owns(s, e.surfaceId, o)
    ensures Reasoned(s, e, OnConfigure(s, o, e), asked)
  {
    RingOf(s, o);
    hide TableOk, FinishParked, Reasoned, Asked;
    if s.surfaces[o].size == Some(e.size) {
      ParkedHasReasons(s, e, o, s, asked);
    } else if e.poolOk {
      ParkedHasReasons(s, e, o, Resize(s, o, e.size), asked);
      OnlyEventsGrow(s, e, FinishParked(Resize(s, o, e.size), o, e.size, e.up), OnConfigure(s, o, e), asked);
    } else {
      ReasonedAll(s, e, OnConfigure(s, o, e), [], asked);
    }
  }

  lemma OnlyEventsGrow(s: State, e: Event, t: State, u: State, asked: Requests)
    requires Reasoned(s, e, t, asked) && u.sent == t.sent && u.surfaces == t.surfaces && u.commits == t.commits
    ensures Reasoned(s, e, u, asked)
  {
    hide Finishing, PushedOut;
  }

  lemma ReleaseSays(s: State, o: Name, answer: Answer)
    ensures Release(s, o, answer).sent
            == s.sent + News(s.pending, o, Some(answer)) + WaiterNews(s.waiters, o, Some(Err(UnknownOutput)))
  {
    var u := s.(surfaces := s.surfaces - {o});
    var t := AnswerPending(u, o, answer);
    assert t.sent == s.sent + News(s.pending, o, Some(answer)) && t.waiters == s.waiters;
    hide AnswerPending;
  }

  /** An output that is taken away answers "unknown output", or what Clear says early. */
  lemma ReleaseHasReasons(s: State, e: Event, u: State, o: Name, answer: Answer, asked: Requests)
    requires Asked(s, asked) && u == s.(outputNames := u.outputNames)
    requires answer == (if e == Clear(o) then ClearAnswer(s, o) else Err(UnknownOutput))
    ensures Reasoned(s, e, Release(u, o, answer), asked)
  {
    var t := Release(u, o, answer);
    ReleaseEmpties(u, o, answer);
    ReleaseSays(u, o, answer);
    hide Release, News, WaiterNews, Finishing, PushedOut, Reasoned;
    ReasonedTwo(s, e, t, o, Some(answer), Some(Err(UnknownOutput)), asked);
  }

  lemma CancelHasReasons(s: State, o: Name, asked: Requests)
    requires Asked(s, asked)
    ensures Reasoned(s, CancelFrame(o), OnCancel(s, o), asked)
  {
    hide Finishing, PushedOut, Reasoned;
    ReasonedTwo(s, CancelFrame(o), OnCancel(s, o), o, Some(Err(NotRunning)), None, asked);
  }

  lemma FrameDoneHasReasons(s: State, e: Event, o: Name, asked: Requests)
    requires TableOk(TableOf(s)) && Asked(s, asked) && e.FrameDone? && Owns(s, e.surfaceId, o)
    ensures Reasoned(s, e, OnFrameDone(s, o), asked)
  {
    hide Finishing, PushedOut, RingOk;
    ReasonedAll(s, e, OnFrameDone(s, o), OnFrameDone(s, o).sent[|s.sent|..], asked);
  }

  lemma StepHasReasons(s: State, e: Event, asked: Requests)
    requires TableOk(TableOf(s)) && Asked(s, asked)
    requires e.Present? ==> e.reply in asked && asked[e.reply] == Request(e.output, e.frame, e.waitForFrame)
    ensures Reasoned(s, e, Step(s, e), asked)
  {
    hide TableOk, Asked, HasReason, OnPresent, OnConfigure, Release, OnCancel, OnFrameDone;
    match e
    case Present(_, _, _, _, _, _) =>
      PresentHasReasons(s, e, asked);
      OnlyEventsGrow(s, e, OnPresent(s, e), Step(s, e), asked);
    case Configure(id, size, _, _) =>
      if size.width != 0 && size.height != 0 && Owner(s, id).Some? {
        ConfigureHasReasons(s, e, Owner(s, id).value, asked);
      }
    case FrameDone(id) =>
      if Owner(s, id).Some? { FrameDoneHasReasons(s, e, Owner(s, id).value, asked); }
    case Clear(o) => ReleaseHasReasons(s, e, s, o, ClearAnswer(s, o), asked);
    case CancelFrame(o) => CancelHasReasons(s, o, asked);
    case Closed(id) =>
      if Owner(s, id).Some? {
        var o := Owner(s, id).value;
        ReleaseHasReasons(s, e, s, o, Err(UnknownOutput), asked);
        OnlyEventsGrow(s, e, Release(s, o, Err(UnknownOutput)), Step(s, e), asked);
      }
    case OutputDestroyed(id) =>
      if id in s.outputNames {
        var u := s.(outputNames := s.outputNames - {id});
        ReleaseHasReasons(s, e, u, s.outputNames[id], Err(UnknownOutput), asked);
        OnlyEventsGrow(s, e, Release(u, s.outputNames[id], Err(UnknownOutput)), Step(s, e), asked);
      }
    case BufferReleased(_, _) =>
    case _ =>
  }

  // ------------------------------------------------------------------ main result

  /**
    Over every run, whatever is answered next has its reason. "Resize required" tells the size that the surface of the
    requested output is configured to, and only to a present of another size; "presented" tells the callback of the
    waiter's own surface, the commit of the present's own frame, or an early Clear; "unknown output" is told only if the
    output has no surface any more; "busy" only to a present that a newer one pushed out or that found all buffers held;
    "not running" only by CancelFrame; "wayland" only if memory, attaching or flushing failed. No other answer is given.
   */
  lemma {:induction false} EveryAnswerHasItsReason(maxBuffers: nat, es: seq<Event>, e: Event)
    requires 1 <= maxBuffers <= MAX_BUFFERS && LegalRun(Initial(maxBuffers), es)
    requires Allowed(Run(Initial(maxBuffers), es), e)
    ensures var s := Run(Initial(maxBuffers), es);
            Reasoned(s, e, Step(s, e), Step(s, e).taken)
  {
    var s, early := Run(Initial(maxBuffers), es), EarlyReplies(Initial(maxBuffers), es);
    InitialHolds(maxBuffers);
    InitialTraced(maxBuffers);
    hide Run, LegalRun, EarlyReplies, Accounted, CommitsMatch, Traced, Initial, Reasoned, RingOk;
    RunKeeps(Initial(maxBuffers), es);
    RunTraced(Initial(maxBuffers), es, {});
    TracedIsAsked(s, s.taken, {} + early);
    StepTakes(s, e);
    AskedMore(s, e);
    StepHasReasons(s, e, Step(s, e).taken);
  }

  lemma AskedMore(s: State, e: Event)
    requires Asked(s, s.taken) && Allowed(s, e)
    ensures Asked(s, Step(s, e).taken)
  {
    StepTakes(s, e);
    hide Step;
  }
}
