/**
  When an answer says "presented", what the compositor has really been given: every commit is traced to the present that
  asked for it, and every such answer to a commit of its own. (crates/owe-render/src/surface.rs)
 */
module PresenterAnswers {
  import opened Prelude
  import opened SurfaceSlots
  import opened PresenterModel
  import opened PresenterProofs
  import opened PresenterRuns

  predicate SaysPresented(answer: Answer) {
    answer.Ok? && answer.value.Presented?
  }

  /** The frame that came with reply `r` has been given to the compositor. */
  ghost predicate Committed(commits: seq<Commit>, r: ReplyId) {
    exists i :: 0 <= i < |commits| && commits[i].reply == r
  }

  // ------------------------------------------------------------------ the trail of a reply

  /** What the properties of this module look at. */
  datatype Trail = Trail(pending: map<Name, Pending>, waiters: map<Name, Waiter>, sent: seq<Sent>, commits: seq<Commit>)

  function TrailOf(s: State): Trail {
    Trail(s.pending, s.waiters, s.sent, s.commits)
  }

  type Requests = map<ReplyId, Request>

  /** Every commit is the frame one present asked for, on the output it asked for, and no present is committed twice. */
  ghost predicate CommitsOwn(commits: seq<Commit>, asked: Requests) {
    && (forall i :: 0 <= i < |commits| ==>
          commits[i].reply in asked
          && asked[commits[i].reply].output == commits[i].output && asked[commits[i].reply].frame == commits[i].frame)
    && (forall i, j :: 0 <= i < j < |commits| ==> commits[i].reply != commits[j].reply)
  }

  ghost predicate WaitersCommitted(waiters: map<Name, Waiter>, commits: seq<Commit>, asked: Requests) {
    forall o :: o in waiters ==> var w := waiters[o];
      w.reply in asked && asked[w.reply] == Request(o, w.size, true) && Committed(commits, w.reply)
  }

  ghost predicate ParkedUncommitted(pending: map<Name, Pending>, commits: seq<Commit>, asked: Requests,
                                    early: set<ReplyId>) {
    forall o :: o in pending ==> var p := pending[o];
      && p.reply in asked && asked[p.reply] == Request(o, p.frame, p.waitForFrame)
      && !Committed(commits, p.reply) && p.reply !in early
  }

  /** A reply that is told "presented" has its own commit or is one of `early`; unless it waited, it is told its own
      size. */
  ghost predicate PresentedCommitted(sent: seq<Sent>, commits: seq<Commit>, asked: Requests, early: set<ReplyId>) {
    forall i :: 0 <= i < |sent| && SaysPresented(sent[i].answer) ==> var r := sent[i].reply;
      && r in asked && (Committed(commits, r) || r in early)
      && (!asked[r].waitForFrame ==> sent[i].answer.value.size == asked[r].frame)
  }

  ghost predicate EarlyUncommitted(early: set<ReplyId>, commits: seq<Commit>, asked: Requests) {
    forall r :: r in early ==> r in asked && !asked[r].waitForFrame && !Committed(commits, r)
  }

  ghost predicate Traced(t: Trail, asked: Requests, early: set<ReplyId>) {
    && CommitsOwn(t.commits, asked)
    && WaitersCommitted(t.waiters, t.commits, asked)
    && ParkedUncommitted(t.pending, t.commits, asked, early)
    && PresentedCommitted(t.sent, t.commits, asked, early)
    && EarlyUncommitted(early, t.commits, asked)
  }

  // ------------------------------------------------------------------ one entry more

  /** An answer is logged. */
  lemma TracedPost(t: Trail, asked: Requests, early: set<ReplyId>, r: ReplyId, answer: Answer)
    requires Traced(t, asked, early)
    requires SaysPresented(answer) ==>
               r in asked && (Committed(t.commits, r) || r in early)
               && (!asked[r].waitForFrame ==> answer.value.size == asked[r].frame)
    ensures Traced(t.(sent := t.sent + [Sent(r, answer)]), asked, early)
  {
    hide CommitsOwn, WaitersCommitted, ParkedUncommitted, EarlyUncommitted, Committed;
  }

  lemma TracedUnpark(t: Trail, asked: Requests, early: set<ReplyId>, o: Name)
    requires Traced(t, asked, early)
    ensures Traced(t.(pending := t.pending - {o}), asked, early)
  {
    hide CommitsOwn, WaitersCommitted, PresentedCommitted, EarlyUncommitted, Committed;
  }

  lemma TracedUnwait(t: Trail, asked: Requests, early: set<ReplyId>, o: Name)
    requires Traced(t, asked, early)
    ensures Traced(t.(waiters := t.waiters - {o}), asked, early)
  {
    hide CommitsOwn, ParkedUncommitted, PresentedCommitted, EarlyUncommitted, Committed;
  }

  lemma TracedPark(t: Trail, asked: Requests, early: set<ReplyId>, o: Name, p: Pending)
    requires Traced(t, asked, early) && InHand(t, asked, early, o, p)
    ensures Traced(t.(pending := t.pending[o := p]), asked, early)
  {
    hide CommitsOwn, WaitersCommitted, PresentedCommitted, EarlyUncommitted, Committed;
  }

  lemma TracedWait(t: Trail, asked: Requests, early: set<ReplyId>, o: Name, w: Waiter)
    requires Traced(t, asked, early) && Committed(t.commits, w.reply)
    requires w.reply in asked && asked[w.reply] == Request(o, w.size, true)
    ensures Traced(t.(waiters := t.waiters[o := w]), asked, early)
  {
    hide CommitsOwn, ParkedUncommitted, PresentedCommitted, EarlyUncommitted, Committed;
  }

  /** The reply of `p`, for output `o`, is in nobody's book yet. */
  ghost predicate InHand(t: Trail, asked: Requests, early: set<ReplyId>, o: Name, p: Pending) {
    && p.reply in asked && asked[p.reply] == Request(o, p.frame, p.waitForFrame)
    && !Committed(t.commits, p.reply) && p.reply !in early
    && (forall n :: n in t.pending ==> t.pending[n].reply != p.reply)
  }

  lemma OneCommitMore(commits: seq<Commit>, c: Commit, r: ReplyId)
    ensures Committed(commits + [c], r) <==> Committed(commits, r) || c.reply == r
  {
    if Committed(commits, r) {
      var i :| 0 <= i < |commits| && commits[i].reply == r;
      assert (commits + [c])[i].reply == r;
    }
    assert (commits + [c])[|commits|] == c;
  }

  /** The frame of the present in hand is committed. */
  lemma TracedCommit(t: Trail, asked: Requests, early: set<ReplyId>, o: Name, p: Pending, configured: Option<Size>)
    requires Traced(t, asked, early) && InHand(t, asked, early, o, p)
    ensures var u := t.(commits := t.commits + [Commit(o, p.frame, configured, p.reply)]);
            Traced(u, asked, early) && Committed(u.commits, p.reply)
  {
    var c := Commit(o, p.frame, configured, p.reply);
    forall r ensures Committed(t.commits + [c], r) <==> Committed(t.commits, r) || r == p.reply {
      OneCommitMore(t.commits, c, r);
    }
    assert forall i :: 0 <= i < |t.commits| ==> Committed(t.commits, t.commits[i].reply);
    hide Committed;
  }

  // ------------------------------------------------------------------ handler by handler

  lemma AnswerPendingTraced(s: State, asked: Requests, early: set<ReplyId>, o: Name, answer: Answer)
    requires Traced(TrailOf(s), asked, early) && !SaysPresented(answer)
    ensures Traced(TrailOf(AnswerPending(s, o, answer)), asked, early)
  {
    hide Traced;
    if o in s.pending {
      TracedUnpark(TrailOf(s), asked, early, o);
      TracedPost(TrailOf(s.(pending := s.pending - {o})), asked, early, s.pending[o].reply, answer);
    }
  }

  lemma AnswerWaiterTraced(s: State, asked: Requests, early: set<ReplyId>, o: Name, answer: Answer)
    requires Traced(TrailOf(s), asked, early)
    ensures Traced(TrailOf(AnswerWaiter(s, o, answer)), asked, early)
  {
    if o in s.waiters {
      var w := s.waiters[o];
      assert w.reply in asked && asked[w.reply].waitForFrame && Committed(s.commits, w.reply);
      hide Traced, Committed;
      TracedUnwait(TrailOf(s), asked, early, o);
      TracedPost(TrailOf(s.(waiters := s.waiters - {o})), asked, early, w.reply, answer);
    }
  }

  /** What an upload does to the trail: at most one commit, of this frame for this reply. */
  lemma UploadTrail(s: State, o: Name, frame: Size, r: ReplyId, up: UploadEnv)
    requires o in s.surfaces && RingOk(s.surfaces[o], s.maxBuffers) && s.surfaces[o].size == Some(frame)
    ensures var (t, result) := UploadTo(s, o, frame, r, up);
            var commit := Commit(o, frame, Some(frame), r);
            && (TrailOf(t) == TrailOf(s) || TrailOf(t) == TrailOf(s).(commits := s.commits + [commit]))
            && (result.Ok? ==> TrailOf(t) == TrailOf(s).(commits := s.commits + [commit]))
  {
    UploadKeepsRing(s.surfaces[o], frame, up);
    hide Upload, RingOk;
  }

  lemma RingOf(s: State, o: Name)
    requires TableOk(TableOf(s)) && o in s.surfaces
    ensures RingOk(s.surfaces[o], s.maxBuffers)
  {
  }

  /** The trail of a present that is finished at the size it has: an older waiter gives way, the frame is committed or
      not, and a present that waits is a waiter afterwards exactly if the upload succeeded. */
  lemma FinishTrail(s: State, o: Name, p: Pending, up: UploadEnv)
    requires TableOk(TableOf(s)) && o in s.surfaces && s.surfaces[o].size == Some(p.frame)
    ensures var (t, answer) := Finish(s, o, p.frame, p.frame, p.waitForFrame, p.reply, up);
            var base := TrailOf(if p.waitForFrame then AnswerWaiter(s, o, Err(Busy)) else s);
            var done := base.(commits := base.commits + [Commit(o, p.frame, Some(p.frame), p.reply)]);
            && (SaysPresented(answer) ==> answer == Ok(Presented(p.frame)))
            && TrailOf(t) == if !SaysPresented(answer) then (if t.commits == base.commits then base else done)
                             else if p.waitForFrame
                                 then done.(waiters := done.waiters[o := Waiter(p.frame, p.reply)]) else done
  {
    RingOf(s, o);
    hide TableOk, RingOk, UploadTo, AnswerWaiter;
    AnswerWaiterFrame(s, o, Err(Busy));
    var base := if p.waitForFrame then AnswerWaiter(s, o, Err(Busy)) else s;
    var armed := if p.waitForFrame then Arm(s, o, p.frame, p.reply).0 else s;
    UploadTrail(armed, o, p.frame, p.reply, up);
    if p.waitForFrame {
      assert base.waiters[o := Waiter(p.frame, p.reply)] - {o} == base.waiters;
    }
  }

  lemma FinishTraced(s: State, asked: Requests, early: set<ReplyId>, o: Name, p: Pending, configured: Size,
                     up: UploadEnv)
    requires TableOk(TableOf(s)) && o in s.surfaces && s.surfaces[o].size == Some(configured)
    requires Traced(TrailOf(s), asked, early) && InHand(TrailOf(s), asked, early, o, p)
    ensures var (t, answer) := Finish(s, o, p.frame, configured, p.waitForFrame, p.reply, up);
            && Traced(TrailOf(t), asked, early)
            && (SaysPresented(answer) ==> Committed(t.commits, p.reply) && answer.value.size == p.frame)
  {
    if configured == p.frame {
      FinishTrail(s, o, p, up);
      var base := if p.waitForFrame then AnswerWaiter(s, o, Err(Busy)) else s;
      AnswerWaiterTraced(s, asked, early, o, Err(Busy));
      AnswerWaiterFrame(s, o, Err(Busy));
      assert InHand(TrailOf(base), asked, early, o, p);
      hide Traced, Committed, Finish, AnswerWaiter;
      TracedCommit(TrailOf(base), asked, early, o, p, Some(p.frame));
      var done := TrailOf(base).(commits := base.commits + [Commit(o, p.frame, Some(p.frame), p.reply)]);
      if p.waitForFrame {
        TracedWait(done, asked, early, o, Waiter(p.frame, p.reply));
      }
    }
  }

  lemma SettleTraced(s: State, asked: Requests, early: set<ReplyId>, wait: bool, r: ReplyId, answer: Answer)
    requires Traced(TrailOf(s), asked, early) && r in asked && asked[r].waitForFrame == wait
    requires SaysPresented(answer) ==> Committed(s.commits, r) && answer.value.size == asked[r].frame
    ensures Traced(TrailOf(Settle(s, wait, r, answer)), asked, early)
  {
    hide Traced, Committed;
    if !(wait && SaysPresented(answer)) {
      TracedPost(TrailOf(s), asked, early, r, answer);
    }
  }

  lemma ParkTraced(s: State, asked: Requests, early: set<ReplyId>, o: Name, p: Pending)
    requires Traced(TrailOf(s), asked, early) && InHand(TrailOf(s), asked, early, o, p)
    ensures Traced(TrailOf(Park(s, o, p)), asked, early)
  {
    AnswerPendingTraced(s, asked, early, o, Err(Busy));
    AnswerPendingFrame(s, o, Err(Busy));
    hide Traced, AnswerPending, Committed;
    TracedPark(TrailOf(AnswerPending(s, o, Err(Busy))), asked, early, o, p);
  }

  lemma PresentTraced(s: State, asked: Requests, early: set<ReplyId>, e: Event)
    requires TableOk(TableOf(s)) && Traced(TrailOf(s), asked, early) && e.Present?
    requires InHand(TrailOf(s), asked, early, e.output, Pending(e.frame, e.waitForFrame, e.reply))
    ensures Traced(TrailOf(OnPresent(s, e)), asked, early)
  {
    hide TableOk, Traced, Finish, Park, Settle, NewSurface, Committed;
    var o, p := e.output, Pending(e.frame, e.waitForFrame, e.reply);
    if o !in s.surfaces {
      match e.create
      case Created(id) => ParkTraced(s.(surfaces := s.surfaces[o := NewSurface(s, id)]), asked, early, o, p);
      case NoSuchOutput => SettleTraced(s, asked, early, e.waitForFrame, e.reply, Err(UnknownOutput));
      case NoPool => SettleTraced(s, asked, early, e.waitForFrame, e.reply, Err(Wayland));
    } else if s.surfaces[o].size.None? {
      ParkTraced(s, asked, early, o, p);
    } else {
      var size := s.surfaces[o].size.value;
      FinishTraced(s, asked, early, o, p, size, e.up);
      var (t, answer) := Finish(s, o, e.frame, size, e.waitForFrame, e.reply, e.up);
      SettleTraced(t, asked, early, e.waitForFrame, e.reply, answer);
    }
  }

  /** Taking a parked present off its output puts it in hand. */
  lemma TakeInHand(s: State, asked: Requests, early: set<ReplyId>, o: Name)
    requires Traced(TrailOf(s), asked, early) && o in s.pending
    ensures var u := s.(pending := s.pending - {o});
            Traced(TrailOf(u), asked, early) && InHand(TrailOf(u), asked, early, o, s.pending[o])
  {
    TracedUnpark(TrailOf(s), asked, early, o);
    hide Committed;
  }

  lemma FinishParkedTraced(s: State, asked: Requests, early: set<ReplyId>, o: Name, size: Size, up: UploadEnv)
    requires TableOk(TableOf(s)) && o in s.surfaces && s.surfaces[o].size == Some(size)
    requires Traced(TrailOf(s), asked, early)
    ensures Traced(TrailOf(FinishParked(s, o, size, up)), asked, early)
  {
    if o in s.pending {
      var p := s.pending[o];
      var u := s.(pending := s.pending - {o});
      assert TableOk(TableOf(u)) by { hide RingOk, Traced; }
      TakeInHand(s, asked, early, o);
      hide TableOk, Traced, Finish, Settle, Committed;
      FinishTraced(u, asked, early, o, p, size, up);
      var (t, answer) := Finish(u, o, p.frame, size, p.waitForFrame, p.reply, up);
      SettleTraced(t, asked, early, p.waitForFrame, p.reply, answer);
    }
  }

  lemma ConfigureTraced(s: State, asked: Requests, early: set<ReplyId>, o: Name, e: Event)
    requires Shaped(s) && Traced(TrailOf(s), asked, early)
    requires e.Configure? && o in s.surfaces && e.size.width != 0 && e.size.height != 0
    ensures Traced(TrailOf(OnConfigure(s, o, e)), asked, early)
  {
    hide TableOk, CommitsMatch, Traced, FinishParked;
    ResizeKeepsTable(s, o, e.size);
    var s1 := if s.surfaces[o].size == Some(e.size) then s else Resize(s, o, e.size);
    FinishParkedTraced(s1, asked, early, o, e.size, e.up);
  }

  lemma ReleaseTraced(s: State, asked: Requests, early: set<ReplyId>, o: Name, answer: Answer)
    requires Traced(TrailOf(s), asked, early) && !SaysPresented(answer)
    ensures Traced(TrailOf(Release(s, o, answer)), asked, early)
  {
    hide Traced, AnswerPending, AnswerWaiter;
    var t := s.(surfaces := s.surfaces - {o});
    AnswerPendingTraced(t, asked, early, o, answer);
    AnswerWaiterTraced(AnswerPending(t, o, answer), asked, early, o, Err(UnknownOutput));
  }

  /** The reply that this event answers "presented" although its frame is still parked. */
  function EarlyIn(s: State, e: Event): set<ReplyId> {
    if e.Clear? && e.output in s.pending && !s.pending[e.output].waitForFrame then {s.pending[e.output].reply} else {}
  }

  lemma ClearTraced(s: State, asked: Requests, early: set<ReplyId>, o: Name)
    requires Traced(TrailOf(s), asked, early)
    ensures Traced(TrailOf(OnClear(s, o)), asked, early + EarlyIn(s, Clear(o)))
  {
    if o in s.pending && !s.pending[o].waitForFrame {
      var p := s.pending[o];
      TakeInHand(s, asked, early, o);
      var u := s.(surfaces := s.surfaces - {o}, pending := s.pending - {o});
      var early' := early + {p.reply};
      assert Traced(TrailOf(u), asked, early') by { hide Committed; }
      hide Traced, Committed, AnswerWaiter;
      TracedPost(TrailOf(u), asked, early', p.reply, Ok(Presented(p.frame)));
      AnswerWaiterTraced(Post(u, p.reply, Ok(Presented(p.frame))), asked, early', o, Err(UnknownOutput));
    } else {
      hide Traced, Release;
      ReleaseTraced(s, asked, early, o, Err(UnknownOutput));
      assert early + {} == early;
    }
  }

  lemma CancelTraced(s: State, asked: Requests, early: set<ReplyId>, o: Name)
    requires Traced(TrailOf(s), asked, early)
    ensures Traced(TrailOf(OnCancel(s, o)), asked, early)
  {
    hide Traced, AnswerPending;
    TracedUnwait(TrailOf(s), asked, early, o);
    var t := if o in s.waiters
             then s.(waiters := s.waiters - {o}, dropped := s.dropped + {s.waiters[o].reply}) else s;
    AnswerPendingTraced(t, asked, early, o, Err(NotRunning));
  }

  lemma AskOneMore(s: State, asked: Requests, early: set<ReplyId>, o: Name, p: Pending)
    requires Traced(TrailOf(s), asked, early) && p.reply !in asked
    ensures var more := asked[p.reply := Request(o, p.frame, p.waitForFrame)];
            Traced(TrailOf(s), more, early) && InHand(TrailOf(s), more, early, o, p)
  {
    var more := asked[p.reply := Request(o, p.frame, p.waitForFrame)];
    assert !Committed(s.commits, p.reply);
    hide Committed;
  }

  /** Every step keeps the trail, with whatever Clear answers early added to the exceptions. */
  lemma StepTraced(s: State, e: Event, early: set<ReplyId>)
    requires Shaped(s) && Allowed(s, e) && Traced(TrailOf(s), s.taken, early)
    ensures Traced(TrailOf(Step(s, e)), Step(s, e).taken, early + EarlyIn(s, e))
  {
    assert early + {} == early;
    StepTakes(s, e);
    hide Shaped, TableOk, Traced, InHand, OnPresent, OnClear, OnCancel;
    match e
    case Present(o, frame, wait, r, _, _) =>
      AskOneMore(s, s.taken, early, o, Pending(frame, wait, r));
      TableIsShaped(s);
      PresentTraced(s, s.taken[r := Request(o, frame, wait)], early, e);
    case Configure(_, _, _, _) => CallbackTraced(s, e, early);
    case FrameDone(_) => CallbackTraced(s, e, early);
    case Clear(o) => ClearTraced(s, s.taken, early, o);
    case CancelFrame(o) => CancelTraced(s, s.taken, early, o);
    case Closed(_) => GoneTraced(s, e, early);
    case OutputDestroyed(_) => GoneTraced(s, e, early);
    case _ =>
  }

  lemma CallbackTraced(s: State, e: Event, early: set<ReplyId>)
    requires Shaped(s) && (e.Configure? || e.FrameDone?) && Traced(TrailOf(s), s.taken, early)
    ensures Traced(TrailOf(Step(s, e)), s.taken, early)
  {
    hide Shaped, TableOk, Traced, OnConfigure, OnFrameDone;
    var owner := Owner(s, e.surfaceId);
    if owner.Some? {
      if e.FrameDone? {
        FrameDoneTraced(s, s.taken, early, owner.value);
      } else if e.size.width != 0 && e.size.height != 0 {
        ConfigureTraced(s, s.taken, early, owner.value, e);
      }
    }
  }

  lemma GoneTraced(s: State, e: Event, early: set<ReplyId>)
    requires (e.Closed? || e.OutputDestroyed?) && Traced(TrailOf(s), s.taken, early)
    ensures Traced(TrailOf(Step(s, e)), s.taken, early)
  {
    hide Traced, Release;
    match e
    case Closed(id) =>
      if Owner(s, id).Some? { ReleaseTraced(s, s.taken, early, Owner(s, id).value, Err(UnknownOutput)); }
    case OutputDestroyed(id) =>
      if id in s.outputNames {
        var t := s.(outputNames := s.outputNames - {id});
        ReleaseTraced(t, s.taken, early, s.outputNames[id], Err(UnknownOutput));
      }
    case _ =>
  }

  lemma TableIsShaped(s: State)
    requires Shaped(s)
    ensures TableOk(TableOf(s))
  {
  }

  lemma FrameDoneTraced(s: State, asked: Requests, early: set<ReplyId>, o: Name)
    requires Traced(TrailOf(s), asked, early) && o in s.surfaces
    ensures Traced(TrailOf(OnFrameDone(s, o)), asked, early)
  {
    hide Traced, AnswerWaiter;
    if o in s.waiters {
      AnswerWaiterTraced(s, asked, early, o,
        Ok(Presented(if s.surfaces[o].size.Some? then s.surfaces[o].size.value else s.waiters[o].size)));
    }
  }

  /** Only a Present is taken note of. */
  lemma StepTakes(s: State, e: Event)
    ensures Step(s, e).taken ==
              if e.Present? then s.taken[e.reply := Request(e.output, e.frame, e.waitForFrame)] else s.taken
  {
    hide OnPresent, Finish, AnswerWaiter, AnswerPending;
    match e
    case Clear(o) => ReleaseTakes(s, o, ClearAnswer(s, o));
    case Closed(id) => if Owner(s, id).Some? { ReleaseTakes(s, Owner(s, id).value, Err(UnknownOutput)); }
    case OutputDestroyed(id) =>
      if id in s.outputNames {
        ReleaseTakes(s.(outputNames := s.outputNames - {id}), s.outputNames[id], Err(UnknownOutput));
      }
    case CancelFrame(o) =>
      var t := if o in s.waiters
               then s.(waiters := s.waiters - {o}, dropped := s.dropped + {s.waiters[o].reply}) else s;
      AnswerPendingFrame(t, o, Err(NotRunning));
    case FrameDone(id) =>
      if Owner(s, id).Some? && Owner(s, id).value in s.waiters {
        var o := Owner(s, id).value;
        AnswerWaiterFrame(s, o,
          Ok(Presented(if s.surfaces[o].size.Some? then s.surfaces[o].size.value else s.waiters[o].size)));
      }
    case Configure(id, size, _, up) =>
      if Owner(s, id).Some? {
        var o := Owner(s, id).value;
        FinishParkedTakes(s, o, size, up);
        FinishParkedTakes(Resize(s, o, size), o, size, up);
      }
    case _ =>
  }

  lemma ReleaseTakes(s: State, o: Name, answer: Answer)
    ensures Release(s, o, answer).taken == s.taken
  {
    hide AnswerPending, AnswerWaiter;
    var t := s.(surfaces := s.surfaces - {o});
    AnswerPendingFrame(t, o, answer);
    AnswerWaiterFrame(AnswerPending(t, o, answer), o, Err(UnknownOutput));
  }

  /** Finishing a present touches neither the parked ones nor the notes. */
  lemma ArmFrame(s: State, o: Name, size: Size, r: ReplyId)
    ensures Arm(s, o, size, r).0.pending == s.pending && Arm(s, o, size, r).0.taken == s.taken
  {
    AnswerWaiterFrame(s, o, Err(Busy));
    hide AnswerWaiter;
  }

  lemma UploadToFrame(s: State, o: Name, frame: Size, r: ReplyId, up: UploadEnv)
    ensures var t := UploadTo(s, o, frame, r, up).0;
            t.pending == s.pending && t.taken == s.taken
  {
    hide Upload;
  }

  lemma FinishFrame(s: State, o: Name, frame: Size, configured: Size, wait: bool, r: ReplyId, up: UploadEnv)
    ensures var t := Finish(s, o, frame, configured, wait, r, up).0;
            t.pending == s.pending && t.taken == s.taken
  {
    ArmFrame(s, o, configured, r);
    var armed := if wait then Arm(s, o, configured, r).0 else s;
    UploadToFrame(armed, o, frame, r, up);
    hide Arm, UploadTo;
  }

  lemma FinishParkedTakes(s: State, o: Name, size: Size, up: UploadEnv)
    ensures FinishParked(s, o, size, up).taken == s.taken
  {
    hide Finish;
    if o in s.pending {
      var p := s.pending[o];
      FinishFrame(s.(pending := s.pending - {o}), o, p.frame, size, p.waitForFrame, p.reply, up);
    }
  }

  // ------------------------------------------------------------------ whole runs

  /** The replies that some Clear of the run answers "presented" although their frame is still parked. */
  ghost function EarlyReplies(s: State, es: seq<Event>): set<ReplyId>
    decreases |es|
  {
    if es == [] then {} else EarlyIn(s, es[0]) + EarlyReplies(Step(s, es[0]), es[1..])
  }

  lemma {:induction false} RunTraced(s: State, es: seq<Event>, early: set<ReplyId>)
    requires Inv(s) && LegalRun(s, es) && Traced(TrailOf(s), s.taken, early)
    ensures Traced(TrailOf(Run(s, es)), Run(s, es).taken, early + EarlyReplies(s, es))
    decreases |es|
  {
    if es == [] {
      assert early + {} == early;
    } else {
      hide Step, Accounted, TableOk, CommitsMatch, Traced, EarlyIn;
      StepTraced(s, es[0], early);
      StepKeeps(s, es[0]);
      RunTraced(Step(s, es[0]), es[1..], early + EarlyIn(s, es[0]));
      assert early + EarlyIn(s, es[0]) + EarlyReplies(Step(s, es[0]), es[1..]) == early + EarlyReplies(s, es);
    }
  }

  lemma InitialHolds(maxBuffers: nat)
    requires 1 <= maxBuffers <= MAX_BUFFERS
    ensures Inv(Initial(maxBuffers))
  {
  }

  lemma InitialTraced(maxBuffers: nat)
    ensures Traced(TrailOf(Initial(maxBuffers)), map[], {})
  {
  }

  /** Reply `r` has a commit of its own: its frame, on its output, at the size configured there. */
  ghost predicate HasItsCommit(s: State, r: ReplyId) {
    exists i :: 0 <= i < |s.commits| && r in s.taken
                && s.commits[i] == Commit(s.taken[r].output, s.taken[r].frame, Some(s.taken[r].frame), r)
  }

  lemma ItsCommit(s: State, r: ReplyId)
    requires CommitsOwn(s.commits, s.taken) && CommitsMatch(s.commits)
    ensures Committed(s.commits, r) <==> HasItsCommit(s, r)
  {
    if Committed(s.commits, r) {
      var i :| 0 <= i < |s.commits| && s.commits[i].reply == r;
      assert s.commits[i] == Commit(s.taken[r].output, s.taken[r].frame, Some(s.taken[r].frame), r);
    }
  }

  /** No present is committed twice, every commit belongs to a present, every waiter has its own commit, and a present
      told "presented" has one too, exactly unless it is in `early`; not waiting, it was told the size of its frame. */
  ghost predicate Justified(s: State, early: set<ReplyId>) {
    && (forall i, j :: 0 <= i < j < |s.commits| ==> s.commits[i].reply != s.commits[j].reply)
    && (forall i :: 0 <= i < |s.commits| ==> HasItsCommit(s, s.commits[i].reply))
    && (forall o :: o in s.waiters ==> s.waiters[o].reply in s.taken && HasItsCommit(s, s.waiters[o].reply)
                                       && s.taken[s.waiters[o].reply] == Request(o, s.waiters[o].size, true))
    && (forall i :: 0 <= i < |s.sent| && SaysPresented(s.sent[i].answer) ==>
          && s.sent[i].reply in s.taken
          && (HasItsCommit(s, s.sent[i].reply) <==> s.sent[i].reply !in early)
          && (!s.taken[s.sent[i].reply].waitForFrame ==>
              s.sent[i].answer.value.size == s.taken[s.sent[i].reply].frame))
  }

  lemma TracedIsJustified(s: State, early: set<ReplyId>)
    requires Traced(TrailOf(s), s.taken, early) && CommitsMatch(s.commits)
    ensures Justified(s, early)
  {
    forall r ensures Committed(s.commits, r) <==> HasItsCommit(s, r) {
      ItsCommit(s, r);
    }
    assert forall i :: 0 <= i < |s.commits| ==> Committed(s.commits, s.commits[i].reply);
    hide Committed, HasItsCommit, CommitsMatch;
  }

  /**
    Over every run: no present is committed twice; whoever waits for a frame callback has its own frame committed on its
    own output; and a present that is told "presented" has its own commit, exactly unless Clear met it parked without
    waiting. A present that does not wait is told the size of its own frame.
   */
  lemma {:induction false} PresentedIsJustified(maxBuffers: nat, es: seq<Event>)
    requires 1 <= maxBuffers <= MAX_BUFFERS && LegalRun(Initial(maxBuffers), es)
    ensures Justified(Run(Initial(maxBuffers), es), EarlyReplies(Initial(maxBuffers), es))
  {
    var s, early := Run(Initial(maxBuffers), es), EarlyReplies(Initial(maxBuffers), es);
    InitialHolds(maxBuffers);
    InitialTraced(maxBuffers);
    hide Run, LegalRun, EarlyReplies, Accounted, TableOk, CommitsMatch, Traced, Justified, Initial;
    RunKeeps(Initial(maxBuffers), es);
    RunTraced(Initial(maxBuffers), es, {});
    assert {} + early == early;
    TracedIsJustified(s, early);
  }

  /** The answer's own wording ("the frame is on screen at `size`") does not hold of Clear: a present that is still
      parked for its first configure is told "presented" although nothing was ever committed. */
  lemma {:induction false} ClearAnswersAFrameNobodySaw(o: Name, frame: Size, id: nat, r: ReplyId, up: UploadEnv)
    ensures var es := [Present(o, frame, false, r, Created(id), up), Clear(o)];
            var s := Run(Initial(3), es);
            LegalRun(Initial(3), es) && s.sent == [Sent(r, Ok(Presented(frame)))] && s.commits == []
  {
    var e0, e1 := Present(o, frame, false, r, Created(id), up), Clear(o);
    var es := [e0, e1];
    var s1 := Step(Initial(3), e0);
    assert s1.pending == map[o := Pending(frame, false, r)] && s1.sent == [] && s1.commits == [];
    var s2 := Step(s1, e1);
    assert es[1..] == [e1] && es[1..][1..] == [];
    assert Run(s1, [e1]) == Run(s2, []);
    assert LegalRun(s1, [e1]);
  }

  /**
    After any run, a frame callback answers exactly the waiter of its surface. That waiter's frame was committed at its
    own size, and the answer tells that size exactly when the surface has not been configured to another one since.
   */
  lemma {:induction false} FrameCallbackReportsTheShownSize(maxBuffers: nat, es: seq<Event>, id: nat, o: Name)
    requires 1 <= maxBuffers <= MAX_BUFFERS && LegalRun(Initial(maxBuffers), es)
    requires Owns(Run(Initial(maxBuffers), es), id, o) && o in Run(Initial(maxBuffers), es).waiters
    ensures var s := Run(Initial(maxBuffers), es);
            var w, t := s.waiters[o], Step(s, FrameDone(id));
            && t.waiters == s.waiters - {o} && t.pending == s.pending && t.commits == s.commits
            && |t.sent| == |s.sent| + 1 && t.sent[..|s.sent|] == s.sent && t.sent[|s.sent|].reply == w.reply
            && Commit(o, w.size, Some(w.size), w.reply) in s.commits
            && s.surfaces[o].size.Some? && t.sent[|s.sent|].answer == Ok(Presented(s.surfaces[o].size.value))
            && (t.sent[|s.sent|].answer == Ok(Presented(w.size)) <==> s.surfaces[o].size == Some(w.size))
  {
    InitialHolds(maxBuffers);
    hide Step, LegalRun, EarlyReplies, Accounted, RingOk, CommitsMatch, Initial;
    var s := Run(Initial(maxBuffers), es);
    RunKeeps(Initial(maxBuffers), es);
    PresentedIsJustified(maxBuffers, es);
    OnlyOwner(s, id, o);
    hide Run, Owner, Owns;
    WaiterHasASize(s, o);
    FrameDoneAnswers(s, id, o);
  }

  lemma WaiterHasASize(s: State, o: Name)
    requires TableOk(TableOf(s)) && o in s.waiters
    ensures o in s.surfaces && s.surfaces[o].size.Some?
  {
    hide RingOk;
  }

  lemma FrameDoneAnswers(s: State, id: nat, o: Name)
    requires Owner(s, id) == Some(o) && o in s.surfaces && o in s.waiters && s.surfaces[o].size.Some?
    ensures var t := Step(s, FrameDone(id));
            && t.waiters == s.waiters - {o} && t.pending == s.pending && t.commits == s.commits
            && t.sent == s.sent + [Sent(s.waiters[o].reply, Ok(Presented(s.surfaces[o].size.value)))]
  {
    hide Owner;
  }

  lemma OnlyOwner(s: State, id: nat, o: Name)
    requires TableOk(TableOf(s)) && Owns(s, id, o)
    ensures Owner(s, id) == Some(o)
  {
    hide RingOk;
    assert Owns(s, id, Owner(s, id).value);
  }

  /** An upload that meets no obstacle commits. */
  lemma FreshUpload(v: SurfaceView, frame: Size, up: UploadEnv)
    requires SizedRing(v) && v.size == Some(frame) && v.buffers != [] && v.buffers[0].Empty?
    requires up.allocOk && up.attachOk && up.flushOk
    ensures var (w, r, committed) := Upload(v, frame, up);
            r.Ok? && committed && w.size == v.size && w.surfaceId == v.surfaceId && |w.buffers| == |v.buffers|
  {
    AcquireFindsUsable(v, frame, up);
    UploadKeepsRing(v, frame, up);
  }

  /** And a run in which it tells a size at which nothing was ever shown: the surface is configured to another size
      between the frame and its callback. */
  lemma {:induction false} FrameCallbackReportsAnUnseenSize(o: Name, shown: Size, told: Size, id: nat, r: ReplyId,
                                                            up: UploadEnv)
    requires shown.width > 0 && shown.height > 0 && told.width > 0 && told.height > 0 && shown != told
    requires up.allocOk && up.attachOk && up.flushOk
    ensures var es := [Present(o, shown, true, r, Created(id), up), Configure(id, shown, true, up),
                       Configure(id, told, true, up), FrameDone(id)];
            var s := Run(Initial(3), es);
            && LegalRun(Initial(3), es)
            && s.sent == [Sent(r, Ok(Presented(told)))] && s.commits == [Commit(o, shown, Some(shown), r)]
  {
    var e0, e1 := Present(o, shown, true, r, Created(id), up), Configure(id, shown, true, up);
    var e2, e3 := Configure(id, told, true, up), FrameDone(id);
    FourSteps(Initial(3), e0, e1, e2, e3);
    var s1 := Step(Initial(3), e0);
    ParkedFirst(o, shown, id, r, up);
    var s2 := Step(s1, e1);
    CommittedSecond(s1, o, shown, id, r, up);
    var s3 := Step(s2, e2);
    ResizedThird(s2, o, told, id, up);
    StandsOwner(s3, o, id);
    FrameDoneAnswers(s3, id, o);
    hide Step, Owner, Run, LegalRun, Initial;
  }

  lemma FourSteps(s: State, e0: Event, e1: Event, e2: Event, e3: Event)
    ensures var es, s1 := [e0, e1, e2, e3], Step(s, e0);
            var s2 := Step(s1, e1);
            var s3 := Step(s2, e2);
            && Run(s, es) == Step(s3, e3)
            && (LegalRun(s, es) <==> Allowed(s, e0) && Allowed(s1, e1) && Allowed(s2, e2) && Allowed(s3, e3))
  {
    hide Step, Allowed;
    var es := [e0, e1, e2, e3];
    assert es[1..] == [e1, e2, e3] && [e1, e2, e3][1..] == [e2, e3] && [e2, e3][1..] == [e3] && [e3][1..] == [];
    var s3 := Step(Step(Step(s, e0), e1), e2);
    assert Run(s3, [e3]) == Run(Step(s3, e3), []) && LegalRun(Step(s3, e3), []);
    assert Run(Step(Step(s, e0), e1), [e2, e3]) == Run(s3, [e3]);
    assert LegalRun(Step(Step(s, e0), e1), [e2, e3]) <==> Allowed(Step(Step(s, e0), e1), e2) && Allowed(s3, e3);
  }

  /** One output, its surface, and who waits on it. */
  ghost predicate Stands(s: State, o: Name, id: nat, size: Option<Size>, pending: map<Name, Pending>,
                         waiters: map<Name, Waiter>,
                         sent: seq<Sent>, commits: seq<Commit>) {
    && s.surfaces.Keys == {o} && s.surfaces[o].surfaceId == id && s.surfaces[o].size == size
        && |s.surfaces[o].buffers| == 3
    && SizedRing(s.surfaces[o]) && (size.None? ==> s.surfaces[o].buffers[0].Empty?)
    && TrailOf(s) == Trail(pending, waiters, sent, commits)
  }

  lemma StandsOwner(s: State, o: Name, id: nat)
    requires s.surfaces.Keys == {o} && s.surfaces[o].surfaceId == id
    ensures Owner(s, id) == Some(o)
  {
    assert Owns(s, id, o);
    assert Owns(s, id, Owner(s, id).value);
  }

  lemma ParkedFirst(o: Name, frame: Size, id: nat, r: ReplyId, up: UploadEnv)
    ensures var s := Step(Initial(3), Present(o, frame, true, r, Created(id), up));
            Stands(s, o, id, None, map[o := Pending(frame, true, r)], map[], [], [])
            && Allowed(Initial(3), Present(o, frame, true, r, Created(id), up))
  {
  }

  lemma CommittedSecond(s: State, o: Name, frame: Size, id: nat, r: ReplyId, up: UploadEnv)
    requires frame.width > 0 && frame.height > 0 && up.allocOk && up.attachOk && up.flushOk
    requires Stands(s, o, id, None, map[o := Pending(frame, true, r)], map[], [], [])
    ensures Stands(Step(s, Configure(id, frame, true, up)), o, id, Some(frame), map[], map[o := Waiter(frame, r)], [],
                   [Commit(o, frame, Some(frame), r)])
  {
    StandsOwner(s, o, id);
    var v := s.surfaces[o].(size := Some(frame), buffers := seq(3, _ => Empty));
    FreshUpload(v, frame, up);
    UploadKeepsRing(v, frame, up);
    hide Upload, Owner;
    assert s.pending - {o} == map[];
  }

  lemma ResizedThird(s: State, o: Name, size: Size, id: nat, up: UploadEnv)
    requires size.width > 0 && size.height > 0 && s.surfaces.Keys == {o} && s.pending == map[]
    requires s.surfaces[o].surfaceId == id && s.surfaces[o].size != Some(size)
    ensures var t := Step(s, Configure(id, size, true, up));
            t.surfaces.Keys == {o} && t.surfaces[o].surfaceId == id && t.surfaces[o].size == Some(size)
            && TrailOf(t) == TrailOf(s)
  {
    StandsOwner(s, o, id);
    hide Owner, Finish;
  }

  // ------------------------------------------------------------------ parked presents

  /** A configure with a real size settles the present parked on its surface, unless the size is new and the pool cannot
      be resized for it: then, and only then, the present stays parked. No other output's present is touched. */
  lemma ConfigureSettlesParked(s: State, e: Event, o: Name)
    requires e.Configure? && e.size.width != 0 && e.size.height != 0 && Owner(s, e.surfaceId) == Some(o)
    ensures var t := Step(s, e);
            && (o in t.pending <==> o in s.pending && s.surfaces[o].size != Some(e.size) && !e.poolOk)
            && (forall p :: p != o ==> (p in t.pending <==> p in s.pending))
            && (forall p :: p in t.pending ==> t.pending[p] == s.pending[p])
  {
    hide Finish;
    var s1 := if s.surfaces[o].size == Some(e.size) then s else Resize(s, o, e.size);
    if o in s.pending {
      var p := s.pending[o];
      FinishFrame(s1.(pending := s1.pending - {o}), o, p.frame, e.size, p.waitForFrame, p.reply, e.up);
    }
  }
}
