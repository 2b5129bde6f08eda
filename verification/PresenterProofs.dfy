/** Every step of the presenter keeps the reply book balanced and the surface table in shape. */
module PresenterProofs {
  import opened Prelude
  import opened SurfaceSlots
  import opened PresenterModel

  // ------------------------------------------------------------------ moving one reply

  /** A reply in hand is answered: it moves to the log. */
  lemma PostKeeps(s: State, live: set<ReplyId>, r: ReplyId, answer: Answer)
    requires Accounted(BookOf(s), live) && r !in live
    ensures Accounted(BookOf(Post(s, r, answer)), live + {r})
  {
    var t := Post(s, r, answer);
    assert t.sent[|s.sent|].reply == r;
    forall q | IsAnswered(s.sent, q) ensures IsAnswered(t.sent, q) {
      var i :| 0 <= i < |s.sent| && s.sent[i].reply == q;
      assert t.sent[i].reply == q;
    }
    forall q | IsAnswered(t.sent, q) ensures IsAnswered(s.sent, q) || q == r {
      var i :| 0 <= i < |t.sent| && t.sent[i].reply == q;
      if i < |s.sent| { assert s.sent[i].reply == q; }
    }
  }

  lemma TakePending(s: State, live: set<ReplyId>, o: Name)
    requires Accounted(BookOf(s), live) && o in s.pending
    ensures Accounted(BookOf(s.(pending := s.pending - {o})), live - {s.pending[o].reply})
    ensures s.pending[o].reply in live
  {
    var t := s.(pending := s.pending - {o});
    forall q | IsParked(s.pending, q) && q != s.pending[o].reply ensures IsParked(t.pending, q) {
      var p :| p in s.pending && s.pending[p].reply == q;
      assert p in t.pending;
    }
  }

  lemma WaitingWithout(waiters: map<Name, Waiter>, o: Name, q: ReplyId)
    requires o in waiters && forall p :: p in waiters && waiters[p].reply == waiters[o].reply ==> p == o
    ensures IsWaiting(waiters - {o}, q) <==> IsWaiting(waiters, q) && q != waiters[o].reply
    ensures IsWaiting(waiters, waiters[o].reply)
  {
    if IsWaiting(waiters, q) && q != waiters[o].reply {
      var p :| p in waiters && waiters[p].reply == q;
      assert p in waiters - {o};
    }
  }

  lemma TakeWaiter(s: State, live: set<ReplyId>, o: Name)
    requires Accounted(BookOf(s), live) && o in s.waiters
    ensures Accounted(BookOf(s.(waiters := s.waiters - {o})), live - {s.waiters[o].reply})
    ensures s.waiters[o].reply in live
  {
    forall q
      ensures IsWaiting(s.waiters - {o}, q) <==> IsWaiting(s.waiters, q) && q != s.waiters[o].reply
      ensures IsWaiting(s.waiters, s.waiters[o].reply)
    {
      WaitingWithout(s.waiters, o, q);
    }
    AllAnswered(s.sent);
    hide IsWaiting, IsParked, IsAnswered;
    var b, r := BookOf(s.(waiters := s.waiters - {o})), s.waiters[o].reply;
    assert Complete(b, live - {r}) by { hide Linear; }
    assert Linear(b, live - {r}) by { hide Complete; }
    hide Linear, Complete;
  }

  lemma AllAnswered(sent: seq<Sent>)
    ensures forall i :: 0 <= i < |sent| ==> IsAnswered(sent, sent[i].reply)
  {
  }

  lemma PutPending(s: State, live: set<ReplyId>, o: Name, p: Pending)
    requires Accounted(BookOf(s), live) && o !in s.pending && p.reply !in live
    ensures Accounted(BookOf(s.(pending := s.pending[o := p])), live + {p.reply})
  {
    var t := s.(pending := s.pending[o := p]);
    assert t.pending[o].reply == p.reply;
    forall q | IsParked(s.pending, q) ensures IsParked(t.pending, q) {
      var n :| n in s.pending && s.pending[n].reply == q;
      assert n in t.pending && t.pending[n].reply == q;
    }
  }

  lemma PutWaiter(s: State, live: set<ReplyId>, o: Name, w: Waiter)
    requires Accounted(BookOf(s), live) && o !in s.waiters && w.reply !in live
    ensures Accounted(BookOf(s.(waiters := s.waiters[o := w])), live + {w.reply})
  {
    var t := s.(waiters := s.waiters[o := w]);
    assert t.waiters[o].reply == w.reply;
    forall q | IsWaiting(s.waiters, q) ensures IsWaiting(t.waiters, q) {
      var n :| n in s.waiters && s.waiters[n].reply == q;
      assert n in t.waiters && t.waiters[n].reply == q;
    }
    forall q | IsWaiting(t.waiters, q) && q != w.reply ensures IsWaiting(s.waiters, q) {
      var n :| n in t.waiters && t.waiters[n].reply == q;
      assert n in s.waiters;
    }
  }

  // ------------------------------------------------------------------ the reply book, handler by handler

  lemma AnswerPendingKeeps(s: State, live: set<ReplyId>, o: Name, answer: Answer)
    requires Accounted(BookOf(s), live)
    ensures Accounted(BookOf(AnswerPending(s, o, answer)), live)
  {
    if o in s.pending {
      var r := s.pending[o].reply;
      TakePending(s, live, o);
      PostKeeps(s.(pending := s.pending - {o}), live - {r}, r, answer);
      assert live - {r} + {r} == live;
    }
  }

  lemma AnswerWaiterKeeps(s: State, live: set<ReplyId>, o: Name, answer: Answer)
    requires Accounted(BookOf(s), live)
    ensures Accounted(BookOf(AnswerWaiter(s, o, answer)), live)
  {
    if o in s.waiters {
      var r := s.waiters[o].reply;
      TakeWaiter(s, live, o);
      PostKeeps(s.(waiters := s.waiters - {o}), live - {r}, r, answer);
      assert live - {r} + {r} == live;
    }
  }

  /** What answering the parked present of an output leaves alone. */
  lemma AnswerPendingFrame(s: State, o: Name, answer: Answer)
    ensures var t := AnswerPending(s, o, answer);
            && t.maxBuffers == s.maxBuffers && t.surfaces == s.surfaces && t.waiters == s.waiters
                && t.commits == s.commits
            && t.taken == s.taken && t.pending == s.pending - {o}
  {
  }

  lemma AnswerWaiterFrame(s: State, o: Name, answer: Answer)
    ensures var t := AnswerWaiter(s, o, answer);
            && t.maxBuffers == s.maxBuffers && t.surfaces == s.surfaces && t.pending == s.pending
                && t.commits == s.commits
            && t.taken == s.taken && t.waiters == s.waiters - {o}
  {
  }

  lemma UploadToKeepsBook(s: State, o: Name, frame: Size, r: ReplyId, up: UploadEnv)
    ensures BookOf(UploadTo(s, o, frame, r, up).0) == BookOf(s) && UploadTo(s, o, frame, r, up).0.taken == s.taken
  {
  }

  lemma ArmKeeps(s: State, live: set<ReplyId>, o: Name, size: Size, r: ReplyId)
    requires Accounted(BookOf(s), live) && r !in live && o in s.surfaces
    ensures var (t, result) := Arm(s, o, size, r);
            && result.Ok? && Accounted(BookOf(t), live + {r}) && o in t.waiters && t.waiters[o].reply == r
            && t.taken == s.taken
  {
    AnswerWaiterKeeps(s, live, o, Err(Busy));
    PutWaiter(AnswerWaiter(s, o, Err(Busy)), live, o, Waiter(size, r));
  }

  /** `finish_present` puts a reply in hand into a frame waiter exactly when it reports a waited-for frame as
      presented; otherwise the reply is still in hand. */
  lemma FinishKeeps(s: State, live: set<ReplyId>, o: Name, frame: Size, configured: Size, wait: bool, r: ReplyId,
                    up: UploadEnv)
    requires Accounted(BookOf(s), live) && r !in live
    ensures var (t, answer) := Finish(s, o, frame, configured, wait, r, up);
            && Accounted(BookOf(t), if wait && answer.Ok? && answer.value.Presented? then live + {r} else live)
            && t.taken == s.taken
  {
    hide UploadTo, Accounted, AnswerWaiter;
    if configured == frame {
      if wait && o in s.surfaces {
        ArmKeeps(s, live, o, configured, r);
        var armed := Arm(s, o, configured, r).0;
        UploadToKeepsBook(armed, o, frame, r, up);
        var (t, result) := UploadTo(armed, o, frame, r, up);
        if result.Err? {
          TakeWaiter(t, live + {r}, o);
          assert live + {r} - {r} == live;
        }
      } else {
        UploadToKeepsBook(s, o, frame, r, up);
      }
    }
  }

  lemma SettleKeeps(s: State, live: set<ReplyId>, wait: bool, r: ReplyId, answer: Answer)
    requires r !in live
    requires Accounted(BookOf(s), if wait && answer.Ok? && answer.value.Presented? then live + {r} else live)
    ensures Accounted(BookOf(Settle(s, wait, r, answer)), live + {r})
  {
    if !(wait && answer.Ok? && answer.value.Presented?) {
      PostKeeps(s, live, r, answer);
    }
  }

  lemma ParkKeeps(s: State, live: set<ReplyId>, o: Name, p: Pending)
    requires Accounted(BookOf(s), live) && p.reply !in live
    ensures Accounted(BookOf(Park(s, o, p)), live + {p.reply})
  {
    AnswerPendingKeeps(s, live, o, Err(Busy));
    PutPending(AnswerPending(s, o, Err(Busy)), live, o, p);
  }

  lemma PresentKeeps(s: State, live: set<ReplyId>, e: Event)
    requires Accounted(BookOf(s), live) && e.Present? && e.reply !in live
    ensures Accounted(BookOf(OnPresent(s, e)), live + {e.reply})
  {
    var o, p := e.output, Pending(e.frame, e.waitForFrame, e.reply);
    if o !in s.surfaces {
      match e.create
      case Created(id) => ParkKeeps(s.(surfaces := s.surfaces[o := NewSurface(s, id)]), live, o, p);
      case NoSuchOutput => SettleKeeps(s, live, e.waitForFrame, e.reply, Err(UnknownOutput));
      case NoPool => SettleKeeps(s, live, e.waitForFrame, e.reply, Err(Wayland));
    } else if s.surfaces[o].size.None? {
      ParkKeeps(s, live, o, p);
    } else {
      var size := s.surfaces[o].size.value;
      FinishKeeps(s, live, o, e.frame, size, e.waitForFrame, e.reply, e.up);
      var (t, answer) := Finish(s, o, e.frame, size, e.waitForFrame, e.reply, e.up);
      SettleKeeps(t, live, e.waitForFrame, e.reply, answer);
    }
  }

  lemma FinishParkedKeeps(s: State, live: set<ReplyId>, o: Name, size: Size, up: UploadEnv)
    requires Accounted(BookOf(s), live)
    ensures Accounted(BookOf(FinishParked(s, o, size, up)), live) && FinishParked(s, o, size, up).taken == s.taken
  {
    hide Accounted, Finish;
    if o in s.pending {
      var p := s.pending[o];
      TakePending(s, live, o);
      var u := s.(pending := s.pending - {o});
      FinishKeeps(u, live - {p.reply}, o, p.frame, size, p.waitForFrame, p.reply, up);
      var (t, answer) := Finish(u, o, p.frame, size, p.waitForFrame, p.reply, up);
      SettleKeeps(t, live - {p.reply}, p.waitForFrame, p.reply, answer);
      assert live - {p.reply} + {p.reply} == live;
    }
  }

  lemma ConfigureKeeps(s: State, live: set<ReplyId>, o: Name, e: Event)
    requires Accounted(BookOf(s), live) && e.Configure? && o in s.surfaces
    ensures Accounted(BookOf(OnConfigure(s, o, e)), live) && OnConfigure(s, o, e).taken == s.taken
  {
    hide Accounted, FinishParked;
    var s1 := if s.surfaces[o].size == Some(e.size) then s else Resize(s, o, e.size);
    FinishParkedKeeps(s1, live, o, e.size, e.up);
  }

  lemma ReleaseKeeps(s: State, live: set<ReplyId>, o: Name, answer: Answer)
    requires Accounted(BookOf(s), live)
    ensures Accounted(BookOf(Release(s, o, answer)), live) && Release(s, o, answer).taken == s.taken
  {
    hide Accounted, AnswerPending, AnswerWaiter;
    var t := s.(surfaces := s.surfaces - {o});
    AnswerPendingKeeps(t, live, o, answer);
    AnswerPendingFrame(t, o, answer);
    AnswerWaiterKeeps(AnswerPending(t, o, answer), live, o, Err(UnknownOutput));
    AnswerWaiterFrame(AnswerPending(t, o, answer), o, Err(UnknownOutput));
  }

  lemma VanishKeeps(s: State, live: set<ReplyId>, o: Name, event: PresenterEvent)
    requires Accounted(BookOf(s), live)
    ensures Accounted(BookOf(Vanish(s, o, event)), live) && Vanish(s, o, event).taken == s.taken
  {
    hide Accounted, Release;
    ReleaseKeeps(s, live, o, Err(UnknownOutput));
  }

  lemma ClearKeeps(s: State, live: set<ReplyId>, o: Name)
    requires Accounted(BookOf(s), live)
    ensures Accounted(BookOf(OnClear(s, o)), live) && OnClear(s, o).taken == s.taken
  {
    hide Accounted, Release;
    ReleaseKeeps(s, live, o, ClearAnswer(s, o));
  }

  lemma CancelKeeps(s: State, live: set<ReplyId>, o: Name)
    requires Accounted(BookOf(s), live)
    ensures Accounted(BookOf(OnCancel(s, o)), live) && OnCancel(s, o).taken == s.taken
  {
    if o in s.waiters {
      TakeWaiter(s, live, o);
      var t := s.(waiters := s.waiters - {o}, dropped := s.dropped + {s.waiters[o].reply});
      assert Accounted(BookOf(t), live);
      AnswerPendingKeeps(t, live, o, Err(NotRunning));
    } else {
      AnswerPendingKeeps(s, live, o, Err(NotRunning));
    }
  }

  lemma FrameDoneKeeps(s: State, live: set<ReplyId>, o: Name)
    requires Accounted(BookOf(s), live) && o in s.surfaces
    ensures Accounted(BookOf(OnFrameDone(s, o)), live) && OnFrameDone(s, o).taken == s.taken
  {
    if o in s.waiters {
      AnswerWaiterKeeps(s, live, o,
        Ok(Presented(if s.surfaces[o].size.Some? then s.surfaces[o].size.value else s.waiters[o].size)));
    }
  }

  /** Each step leaves every reply taken so far in exactly one place. */
  lemma StepKeepsReplies(s: State, e: Event)
    requires Accounted(BookOf(s), s.taken.Keys) && Allowed(s, e)
    ensures Accounted(BookOf(Step(s, e)), Step(s, e).taken.Keys)
  {
    hide Accounted, OnPresent, OnConfigure, Vanish, OnClear, OnCancel, OnFrameDone;
    match e
    case Present(o, frame, wait, r, _, _) =>
      PresentKeeps(s, s.taken.Keys, e);
      assert s.taken[r := Request(o, frame, wait)].Keys == s.taken.Keys + {r};
    case Clear(o) => ClearKeeps(s, s.taken.Keys, o);
    case CancelFrame(o) => CancelKeeps(s, s.taken.Keys, o);
    case Configure(id, _, _, _) => if Owner(s, id).Some? { ConfigureKeeps(s, s.taken.Keys, Owner(s, id).value, e); }
    case FrameDone(id) => if Owner(s, id).Some? { FrameDoneKeeps(s, s.taken.Keys, Owner(s, id).value); }
    case Closed(id) =>
      if Owner(s, id).Some? { VanishKeeps(s, s.taken.Keys, Owner(s, id).value, ClosedEvent(Owner(s, id).value)); }
    case OutputDestroyed(id) =>
      if id in s.outputNames {
        VanishKeeps(s.(outputNames := s.outputNames - {id}), s.taken.Keys, s.outputNames[id],
            OutputRemoved(s.outputNames[id]));
      }
    case _ =>
  }

  // ------------------------------------------------------------------ the surface table

  /** The table is in shape and every committed frame had the configured size. */
  ghost predicate Shaped(s: State) {
    TableOk(TableOf(s)) && CommitsMatch(s.commits)
  }

  /** Replacing one ring by a well-formed one with the same identity keeps the table. */
  lemma ReplaceRing(s: State, o: Name, v: SurfaceView)
    requires TableOk(TableOf(s)) && o in s.surfaces && v.surfaceId == s.surfaces[o].surfaceId
    requires RingOk(v, s.maxBuffers) && (s.surfaces[o].size.Some? ==> v.size.Some?)
    ensures TableOk(TableOf(s.(surfaces := s.surfaces[o := v])))
  {
    hide RingOk;
  }

  /** Dropping an output together with whoever waits for it keeps the table. */
  lemma DropOutput(s: State, o: Name, t: State)
    requires TableOk(TableOf(s)) && t.maxBuffers == s.maxBuffers && t.surfaces == s.surfaces - {o}
    requires t.pending.Keys == s.pending.Keys - {o} && t.waiters.Keys == s.waiters.Keys - {o}
    ensures TableOk(TableOf(t))
  {
    hide RingOk;
  }

  lemma UploadToKeeps(s: State, o: Name, frame: Size, r: ReplyId, up: UploadEnv)
    requires Shaped(s) && o in s.surfaces && s.surfaces[o].size == Some(frame)
    ensures Shaped(UploadTo(s, o, frame, r, up).0)
    ensures UploadTo(s, o, frame, r, up).0.maxBuffers == s.maxBuffers
    ensures TableOf(UploadTo(s, o, frame, r, up).0).(surfaces := s.surfaces) == TableOf(s)
  {
    hide Upload;
    UploadKeepsRing(s.surfaces[o], frame, up);
    ReplaceRing(s, o, Upload(s.surfaces[o], frame, up).0);
  }

  lemma ArmKeepsTable(s: State, o: Name, size: Size, r: ReplyId)
    requires Shaped(s) && o in s.surfaces && s.surfaces[o].size == Some(size)
    ensures Shaped(Arm(s, o, size, r).0) && Arm(s, o, size, r).0.surfaces == s.surfaces
    ensures Arm(s, o, size, r).0.maxBuffers == s.maxBuffers
  {
    hide RingOk;
  }

  lemma FinishKeepsTable(s: State, o: Name, frame: Size, configured: Size, wait: bool, r: ReplyId, up: UploadEnv)
    requires Shaped(s) && o in s.surfaces && s.surfaces[o].size == Some(configured)
    ensures Shaped(Finish(s, o, frame, configured, wait, r, up).0)
    ensures Finish(s, o, frame, configured, wait, r, up).0.maxBuffers == s.maxBuffers
  {
    hide UploadTo, RingOk, CommitsMatch, Arm;
    if configured == frame {
      ArmKeepsTable(s, o, configured, r);
      var armed := if wait then Arm(s, o, configured, r).0 else s;
      UploadToKeeps(armed, o, frame, r, up);
      var t := UploadTo(armed, o, frame, r, up).0;
      assert TableOf(t.(waiters := t.waiters - {o})).waiting <= TableOf(t).waiting;
    }
  }

  lemma CreateKeepsTable(s: State, o: Name, id: nat)
    requires Shaped(s) && o !in s.surfaces && forall n :: !Owns(s, id, n)
    ensures Shaped(s.(surfaces := s.surfaces[o := NewSurface(s, id)]))
  {
    assert forall n :: n in s.surfaces ==> Owns(s, s.surfaces[n].surfaceId, n);
    assert RingOk(NewSurface(s, id), s.maxBuffers);
    hide RingOk, NewSurface;
  }

  lemma ParkKeepsTable(s: State, o: Name, p: Pending)
    requires Shaped(s) && o in s.surfaces
    ensures Shaped(Park(s, o, p))
    ensures Park(s, o, p).maxBuffers == s.maxBuffers
  {
    hide RingOk, CommitsMatch;
  }

  /** Answering nobody who holds a place leaves the table as it is. */
  lemma SettleKeepsTable(s: State, wait: bool, r: ReplyId, answer: Answer)
    requires Shaped(s)
    ensures Shaped(Settle(s, wait, r, answer)) && Settle(s, wait, r, answer).maxBuffers == s.maxBuffers
  {
    hide TableOk, CommitsMatch;
  }

  lemma PresentKeepsTable(s: State, e: Event)
    requires Shaped(s) && Allowed(s, e) && e.Present?
    ensures Shaped(OnPresent(s, e))
    ensures OnPresent(s, e).maxBuffers == s.maxBuffers
  {
    hide Finish, Park, Settle, TableOk, CommitsMatch, NewSurface;
    var o, p := e.output, Pending(e.frame, e.waitForFrame, e.reply);
    if o !in s.surfaces {
      PresentNewKeepsTable(s, e);
    } else if s.surfaces[o].size.Some? {
      hide Shaped;
      var (t, answer) := Finish(s, o, e.frame, s.surfaces[o].size.value, e.waitForFrame, e.reply, e.up);
      FinishKeepsTable(s, o, e.frame, s.surfaces[o].size.value, e.waitForFrame, e.reply, e.up);
      SettleKeepsTable(t, e.waitForFrame, e.reply, answer);
    } else {
      ParkKeepsTable(s, o, p);
    }
  }

  lemma PresentNewKeepsTable(s: State, e: Event)
    requires Shaped(s) && Allowed(s, e) && e.Present? && e.output !in s.surfaces
    ensures Shaped(OnPresent(s, e))
    ensures OnPresent(s, e).maxBuffers == s.maxBuffers
  {
    hide Finish, Park, Settle, Shaped, NewSurface;
    var o, p := e.output, Pending(e.frame, e.waitForFrame, e.reply);
    match e.create
    case Created(id) =>
      CreateKeepsTable(s, o, id);
      ParkKeepsTable(s.(surfaces := s.surfaces[o := NewSurface(s, id)]), o, p);
    case NoSuchOutput => SettleKeepsTable(s, e.waitForFrame, e.reply, Err(UnknownOutput));
    case NoPool => SettleKeepsTable(s, e.waitForFrame, e.reply, Err(Wayland));
  }

  lemma ResizeKeepsTable(s: State, o: Name, size: Size)
    requires Shaped(s) && o in s.surfaces && size.width != 0 && size.height != 0
    ensures Shaped(Resize(s, o, size))
    ensures Resize(s, o, size).maxBuffers == s.maxBuffers
  {
    var v := s.surfaces[o];
    ReplaceRing(s, o, v.(size := Some(size), buffers := seq(|v.buffers|, _ => Empty)));
  }

  lemma FinishParkedKeepsTable(s: State, o: Name, size: Size, up: UploadEnv)
    requires Shaped(s) && o in s.surfaces && s.surfaces[o].size == Some(size)
    ensures Shaped(FinishParked(s, o, size, up))
    ensures FinishParked(s, o, size, up).maxBuffers == s.maxBuffers
  {
    hide RingOk, CommitsMatch, Finish;
    if o in s.pending {
      var p := s.pending[o];
      var u := s.(pending := s.pending - {o});
      assert Shaped(u);
      hide TableOk;
      FinishKeepsTable(u, o, p.frame, size, p.waitForFrame, p.reply, up);
    }
  }

  lemma ConfigureKeepsTable(s: State, o: Name, e: Event)
    requires Shaped(s) && e.Configure? && o in s.surfaces && e.size.width != 0 && e.size.height != 0
    ensures Shaped(OnConfigure(s, o, e))
    ensures OnConfigure(s, o, e).maxBuffers == s.maxBuffers
  {
    hide FinishParked, TableOk, CommitsMatch;
    ResizeKeepsTable(s, o, e.size);
    var s1 := if s.surfaces[o].size == Some(e.size) then s else Resize(s, o, e.size);
    FinishParkedKeepsTable(s1, o, e.size, e.up);
  }

  lemma ReleaseKeepsTable(s: State, o: Name, answer: Answer)
    requires Shaped(s)
    ensures Shaped(Release(s, o, answer)) && Release(s, o, answer).maxBuffers == s.maxBuffers
  {
    hide TableOk, CommitsMatch;
    ReleaseEmpties(s, o, answer);
    hide Release;
    DropOutput(s, o, Release(s, o, answer));
  }

  lemma ReleaseEmpties(s: State, o: Name, answer: Answer)
    ensures var t := Release(s, o, answer);
            && t.maxBuffers == s.maxBuffers && t.commits == s.commits && t.surfaces == s.surfaces - {o}
            && t.pending == s.pending - {o} && t.waiters == s.waiters - {o}
  {
    hide AnswerPending, AnswerWaiter;
    var t := s.(surfaces := s.surfaces - {o});
    AnswerPendingFrame(t, o, answer);
    AnswerWaiterFrame(AnswerPending(t, o, answer), o, Err(UnknownOutput));
  }

  lemma ClearKeepsTable(s: State, o: Name)
    requires Shaped(s)
    ensures Shaped(OnClear(s, o)) && OnClear(s, o).maxBuffers == s.maxBuffers
  {
    hide Shaped, Release;
    ReleaseKeepsTable(s, o, ClearAnswer(s, o));
  }

  lemma VanishKeepsTable(s: State, o: Name, event: PresenterEvent)
    requires Shaped(s)
    ensures Shaped(Vanish(s, o, event)) && Vanish(s, o, event).maxBuffers == s.maxBuffers
  {
    hide TableOk, CommitsMatch, Release;
    ReleaseKeepsTable(s, o, Err(UnknownOutput));
  }

  lemma CancelKeepsTable(s: State, o: Name)
    requires Shaped(s)
    ensures Shaped(OnCancel(s, o))
    ensures OnCancel(s, o).maxBuffers == s.maxBuffers
  {
    hide RingOk, CommitsMatch;
  }

  lemma FrameDoneKeepsTable(s: State, o: Name)
    requires Shaped(s) && o in s.surfaces
    ensures Shaped(OnFrameDone(s, o))
    ensures OnFrameDone(s, o).maxBuffers == s.maxBuffers
  {
    hide RingOk, CommitsMatch;
  }

  lemma ReleasedKeepsTable(s: State, o: Name, slot: nat)
    requires Shaped(s) && o in s.surfaces
    ensures Shaped(OnReleased(s, o, slot))
    ensures OnReleased(s, o, slot).maxBuffers == s.maxBuffers
  {
    var v := s.surfaces[o];
    if slot < |v.buffers| && v.buffers[slot].Held? {
      ReplaceRing(s, o, v.(buffers := v.buffers[slot := Free(v.buffers[slot].size)]));
    }
  }

  lemma StepKeepsTable(s: State, e: Event)
    requires Shaped(s) && Allowed(s, e)
    ensures Shaped(Step(s, e))
    ensures Step(s, e).maxBuffers == s.maxBuffers
  {
    hide OnPresent, OnConfigure, OnClear, OnCancel, OnFrameDone, OnReleased, Vanish, TableOk, CommitsMatch;
    match e
    case Present(_, _, _, _, _, _) => PresentKeepsTable(s, e);
    case Configure(id, size, _, _) =>
      if size.width != 0 && size.height != 0 && Owner(s, id).Some? {
        ConfigureKeepsTable(s, Owner(s, id).value, e);
      }
    case Clear(o) => ClearKeepsTable(s, o);
    case CancelFrame(o) => CancelKeepsTable(s, o);
    case FrameDone(id) => if Owner(s, id).Some? { FrameDoneKeepsTable(s, Owner(s, id).value); }
    case Closed(id) =>
      if Owner(s, id).Some? { VanishKeepsTable(s, Owner(s, id).value, ClosedEvent(Owner(s, id).value)); }
    case OutputDestroyed(id) =>
      if id in s.outputNames {
        var t := s.(outputNames := s.outputNames - {id});
        assert Shaped(t);
        VanishKeepsTable(t, s.outputNames[id], OutputRemoved(s.outputNames[id]));
      }
    case BufferReleased(id, slot) => if Owner(s, id).Some? { ReleasedKeepsTable(s, Owner(s, id).value, slot); }
    case _ =>
  }
}
