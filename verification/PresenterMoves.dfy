/**
  What every command and callback does to surfaces, parked presents and frame waiters, as one table; and where a surface
  has its size from. (crates/owe-render/src/surface.rs)
 */
module PresenterMoves {
  import opened Prelude
  import opened SurfaceSlots
  import opened PresenterModel
  import opened PresenterProofs
  import opened PresenterRuns
  import opened PresenterAnswers
  import opened PresenterReasons

  /** An output has lost its surface and everybody who held a place on it; every other output is as before. */
  ghost predicate Gone(s: State, o: Name, t: State) {
    && t.surfaces == s.surfaces - {o} && t.pending == s.pending - {o} && t.waiters == s.waiters - {o}
    && t.commits == s.commits && t.dropped == s.dropped && t.taken == s.taken && t.stop == s.stop
    && t.maxBuffers == s.maxBuffers
  }

  /** Nobody's place has changed. */
  ghost predicate SamePlaces(s: State, t: State) {
    && t.pending == s.pending && t.waiters == s.waiters && t.dropped == s.dropped
  }

  ghost predicate SameScreen(s: State, t: State) {
    t.surfaces == s.surfaces && t.commits == s.commits
  }

  /** The present `p` has been finished on the surface of `o`, which is configured to `size`. */
  ghost predicate Finished(s: State, o: Name, p: Pending, size: Size, up: UploadEnv, t: State) {
    exists u, answer :: FinishedAs(s, o, p, size, up, u, answer) && IsSettled(u, p, answer, t)
  }

  ghost predicate IsSettled(s: State, p: Pending, answer: Answer, t: State) {
    && SamePlaces(s, t) && SameScreen(s, t)
    && t.sent == if p.waitForFrame && SaysPresented(answer) then s.sent else s.sent + [Sent(p.reply, answer)]
  }

  /** A present for an output whose surface has a size is finished at once; otherwise it is parked, on a new surface if
      need be, or refused. */
  ghost predicate PresentMoves(s: State, e: Event, t: State)
    requires e.Present?
  {
    var o, p := e.output, Pending(e.frame, e.waitForFrame, e.reply);
    && t.taken == s.taken[e.reply := Request(o, e.frame, e.waitForFrame)]
    && t.events == s.events && t.outputNames == s.outputNames
    && if o in s.surfaces && s.surfaces[o].size.Some? then Finished(s, o, p, s.surfaces[o].size.value, e.up, t)
       else if o in s.surfaces || e.create.Created? then
         && t.pending == s.pending[o := p] && t.waiters == s.waiters && t.dropped == s.dropped && t.commits == s.commits
         && (forall n :: n in t.surfaces <==> n in s.surfaces || n == o)
         && (forall n :: n in s.surfaces ==> t.surfaces[n] == s.surfaces[n])
         && (o !in s.surfaces ==>
               var v := t.surfaces[o];
               v.surfaceId == e.create.surfaceId && v.size.None? && v.nextSlot == 0 && |v.buffers| == s.maxBuffers
               && forall i :: 0 <= i < |v.buffers| ==> v.buffers[i].Empty?)
       else SamePlaces(s, t) && SameScreen(s, t)
  }

  /** `u` is `s` with the surface of `o` at the configured size, and with an empty ring if that is new. */
  ghost predicate IsConfigured(s: State, o: Name, size: Size, u: State)
    requires o in s.surfaces
  {
    && u.surfaces.Keys == s.surfaces.Keys && u.sent == s.sent && u.commits == s.commits && u.waiters == s.waiters
    && u.dropped == s.dropped
    && (forall n :: n in s.surfaces && n != o ==> u.surfaces[n] == s.surfaces[n])
    && (if s.surfaces[o].size == Some(size) then u.surfaces[o] == s.surfaces[o]
        else IsEmptied(s.surfaces[o], size, u.surfaces[o]))
  }

  /** And there the parked present of `o` is finished, if there is one and the pool can be had. */
  ghost predicate FinishesParked(s: State, e: Event, o: Name, u: State, t: State)
    requires e.Configure? && o in s.surfaces
  {
    if o in s.pending && (s.surfaces[o].size == Some(e.size) || e.poolOk)
    then u.pending == s.pending - {o} && Finished(u, o, s.pending[o], e.size, e.up, t)
    else u.pending == s.pending && SamePlaces(u, t) && SameScreen(u, t) && t.sent == u.sent
  }

  /** A configure gives the surface its size and finishes whoever is parked on it. */
  ghost predicate ConfigureMoves(s: State, e: Event, o: Name, t: State)
    requires e.Configure? && o in s.surfaces
  {
    && t.taken == s.taken && t.outputNames == s.outputNames
    && t.events == s.events + (if s.surfaces[o].size != Some(e.size) && e.poolOk then [Configured(o, e.size)] else [])
    && exists u :: IsConfigured(s, o, e.size, u) && FinishesParked(s, e, o, u, t)
  }

  /** The same surface at another size: none of its buffers is left. */
  ghost predicate IsEmptied(v: SurfaceView, size: Size, w: SurfaceView) {
    && w.surfaceId == v.surfaceId && w.size == Some(size) && w.nextSlot == v.nextSlot && |w.buffers| == |v.buffers|
    && forall i :: 0 <= i < |w.buffers| ==> w.buffers[i].Empty?
  }

  ghost predicate Moves(s: State, e: Event, t: State) {
    match e
    case Present(_, _, _, _, _, _) => PresentMoves(s, e, t)
    case Configure(id, size, _, _) =>
      if size.width == 0 || size.height == 0 then t == s
      else (forall o :: Owns(s, id, o) ==> ConfigureMoves(s, e, o, t)) && ((forall o :: !Owns(s, id, o)) ==> t == s)
    case Clear(o) => Gone(s, o, t) && t.events == s.events && t.outputNames == s.outputNames
    case Closed(id) =>
      && (forall o :: Owns(s, id, o) ==>
            Gone(s, o, t) && t.events == s.events + [ClosedEvent(o)] && t.outputNames == s.outputNames)
      && ((forall o :: !Owns(s, id, o)) ==> t == s)
    case OutputDestroyed(id) =>
      if id in s.outputNames
      then Gone(s, s.outputNames[id], t) && t.outputNames == s.outputNames - {id}
           && t.events == s.events + [OutputRemoved(s.outputNames[id])]
      else t == s
    case CancelFrame(o) =>
      && SameScreen(s, t) && t.pending == s.pending - {o} && t.waiters == s.waiters - {o}
      && t.dropped == s.dropped + (if o in s.waiters then {s.waiters[o].reply} else {})
      && t.sent == s.sent + (if o in s.pending then [Sent(s.pending[o].reply, Err(NotRunning))] else [])
      && t.taken == s.taken && t.events == s.events && t.outputNames == s.outputNames
    case FrameDone(id) =>
      && SameScreen(s, t) && t.pending == s.pending && t.dropped == s.dropped && t.taken == s.taken
      && t.events == s.events
      && (forall o :: o in t.waiters <==> o in s.waiters && !Owns(s, id, o))
      && (forall o :: o in t.waiters ==> t.waiters[o] == s.waiters[o])
    case BufferReleased(id, slot) =>
      && t == s.(surfaces := t.surfaces) && t.surfaces.Keys == s.surfaces.Keys
      && (forall o :: o in s.surfaces && s.surfaces[o].surfaceId != id ==> t.surfaces[o] == s.surfaces[o])
      && (forall o :: o in s.surfaces && s.surfaces[o].surfaceId == id ==>
            IsReleased(s.surfaces[o], slot, t.surfaces[o]))
    case OutputNew(id, name) =>
      && t == s.(outputNames := t.outputNames, events := t.events)
      && (name.Some? ==> t.outputNames == s.outputNames[id := name.value]
                         && t.events == s.events + [OutputAdded(name.value)])
      && (name.None? ==> t == s)
    case OutputUpdate(id, name) =>
      t == if name.Some? then s.(outputNames := s.outputNames[id := name.value]) else s
    case Shutdown => t == s.(stop := true)
  }

  /** One slot that was held is free; nothing else has changed. */
  ghost predicate IsReleased(v: SurfaceView, slot: nat, w: SurfaceView) {
    && w.surfaceId == v.surfaceId && w.size == v.size && w.nextSlot == v.nextSlot && |w.buffers| == |v.buffers|
    && forall i :: 0 <= i < |v.buffers| ==>
         w.buffers[i] == if i == slot && v.buffers[i].Held? then Free(v.buffers[i].size) else v.buffers[i]
  }

  // ------------------------------------------------------------------ handler by handler

  lemma SettleSettles(s: State, p: Pending, answer: Answer)
    ensures IsSettled(s, p, answer, Settle(s, p.waitForFrame, p.reply, answer))
  {
  }

  lemma FinishMoves(s: State, o: Name, p: Pending, size: Size, up: UploadEnv)
    requires o in s.surfaces && SizedRing(s.surfaces[o]) && s.surfaces[o].size == Some(size)
    ensures var (u, answer) := Finish(s, o, p.frame, size, p.waitForFrame, p.reply, up);
            Finished(s, o, p, size, up, Settle(u, p.waitForFrame, p.reply, answer))
  {
    FinishReasons(s, o, p, size, up);
    var (u, answer) := Finish(s, o, p.frame, size, p.waitForFrame, p.reply, up);
    SettleSettles(u, p, answer);
    hide FinishedAs, IsSettled, Finish, Settle;
    var t := Settle(u, p.waitForFrame, p.reply, answer);
    assert FinishedAs(s, o, p, size, up, u, answer) && IsSettled(u, p, answer, t);
  }

  lemma OnPresentMoves(s: State, e: Event)
    requires TableOk(TableOf(s)) && e.Present?
    ensures PresentMoves(s, e, Step(s, e))
  {
    var o := e.output;
    if o in s.surfaces && s.surfaces[o].size.Some? {
      RingOf(s, o);
      hide TableOk, PresentMoves;
      FinishNow(s, e);
    } else {
      hide PresentMoves;
      if o in s.surfaces || e.create.Created? { ParkMoves(s, e); } else { RefuseMoves(s, e); }
    }
  }

  lemma RefuseMoves(s: State, e: Event)
    requires e.Present? && e.output !in s.surfaces && !e.create.Created?
    ensures PresentMoves(s, e, Step(s, e))
  {
    RefuseSays(s, e);
    hide Step, Finished;
  }

  lemma RefuseSays(s: State, e: Event)
    requires e.Present? && e.output !in s.surfaces && !e.create.Created?
    ensures var t := Step(s, e);
            t == s.(taken := s.taken[e.reply := Request(e.output, e.frame, e.waitForFrame)], sent := t.sent)
  {
    var answer: Answer := Err(if e.create.NoPool? then Wayland else UnknownOutput);
    assert OnPresent(s, e) == Settle(s, e.waitForFrame, e.reply, answer) by { hide Settle, Finish, Park, NewSurface; }
    hide OnPresent, Owner, Vanish, OnReleased, OnConfigure, OnClear, OnCancel, OnFrameDone;
    assert Settle(s, e.waitForFrame, e.reply, answer) == Post(s, e.reply, answer);
  }

  lemma FinishNow(s: State, e: Event)
    requires e.Present? && e.output in s.surfaces && RingOk(s.surfaces[e.output], s.maxBuffers)
    requires s.surfaces[e.output].size.Some?
    ensures PresentMoves(s, e, Step(s, e))
  {
    var o, p, size := e.output, Pending(e.frame, e.waitForFrame, e.reply), s.surfaces[e.output].size.value;
    FinishParkedMoves(s, o, p, size, e.up);
    var (u, answer) := Finish(s, o, p.frame, size, p.waitForFrame, p.reply, e.up);
    var t := Settle(u, p.waitForFrame, p.reply, answer);
    hide Finish, FinishedAs, Finished, RingOk, Settle;
    assert Step(s, e) == t.(taken := s.taken[e.reply := Request(o, e.frame, e.waitForFrame)]);
    TakingDoesNotMatter(s, o, p, size, e.up, t, Step(s, e));
  }

  lemma ParkMoves(s: State, e: Event)
    requires TableOk(TableOf(s)) && e.Present?
    requires if e.output in s.surfaces then s.surfaces[e.output].size.None? else e.create.Created?
    ensures PresentMoves(s, e, Step(s, e))
  {
    hide TableOk, Finish, Finished, RingOk;
  }

  /** Only places, screen and log are looked at. */
  lemma TakingDoesNotMatter(s: State, o: Name, p: Pending, size: Size, up: UploadEnv, t: State, v: State)
    requires Finished(s, o, p, size, up, t) && SamePlaces(t, v) && SameScreen(t, v) && v.sent == t.sent
    ensures Finished(s, o, p, size, up, v)
  {
    hide FinishedAs;
    var u, answer :| FinishedAs(s, o, p, size, up, u, answer) && IsSettled(u, p, answer, t);
    assert IsSettled(u, p, answer, v);
  }

  lemma OnConfigureMoves(s: State, e: Event, o: Name)
    requires e.Configure? && o in s.surfaces && RingOk(s.surfaces[o], s.maxBuffers)
    ensures ConfigureMoves(s, e, o, OnConfigure(s, o, e))
  {
    var t, isNew := OnConfigure(s, o, e), s.surfaces[o].size != Some(e.size);
    var s1 := if isNew then Resize(s, o, e.size) else s;
    ResizeConfigures(s, o, e.size);
    if o in s.pending && (!isNew || e.poolOk) {
      var u, p := s1.(pending := s.pending - {o}), s.pending[o];
      var (v, answer) := Finish(u, o, p.frame, e.size, p.waitForFrame, p.reply, e.up);
      var w := Settle(v, p.waitForFrame, p.reply, answer);
      hide Finish, Settle, IsConfigured, Finished, Resize;
      assert t == if isNew then w.(events := w.events + [Configured(o, e.size)]) else w;
      assert IsConfigured(s, o, e.size, u) by { PlacesDoNotMatter(s, o, e.size, s1, u); }
      FinishParkedMoves(u, o, p, e.size, e.up);
      hide OnConfigure;
      TakingDoesNotMatter(u, o, p, e.size, e.up, w, t);
      assert FinishesParked(s, e, o, u, t);
    } else {
      hide Finish, Settle, IsConfigured, Finished;
      assert FinishesParked(s, e, o, s1, t);
    }
  }

  lemma PlacesDoNotMatter(s: State, o: Name, size: Size, u: State, v: State)
    requires o in s.surfaces && IsConfigured(s, o, size, u) && v == u.(pending := v.pending)
    ensures IsConfigured(s, o, size, v)
  {
    hide IsEmptied;
  }

  lemma ResizeConfigures(s: State, o: Name, size: Size)
    requires o in s.surfaces
    ensures var u := if s.surfaces[o].size != Some(size) then Resize(s, o, size) else s;
            && IsConfigured(s, o, size, u) && u.pending == s.pending && u.taken == s.taken && u.events == s.events
            && u.outputNames == s.outputNames && o in u.surfaces && u.surfaces[o].size == Some(size)
            && (SizedRing(s.surfaces[o]) ==> SizedRing(u.surfaces[o]))
  {
    ResizeEmpties(s, o, size);
    hide Resize;
  }

  lemma ResizeEmpties(s: State, o: Name, size: Size)
    requires o in s.surfaces
    ensures var u := Resize(s, o, size);
            u == s.(surfaces := s.surfaces[o := u.surfaces[o]]) && IsEmptied(s.surfaces[o], size, u.surfaces[o])
  {
  }

  lemma FinishParkedMoves(u: State, o: Name, p: Pending, size: Size, up: UploadEnv)
    requires o in u.surfaces && SizedRing(u.surfaces[o]) && u.surfaces[o].size == Some(size)
    ensures var (v, answer) := Finish(u, o, p.frame, size, p.waitForFrame, p.reply, up);
            var w := Settle(v, p.waitForFrame, p.reply, answer);
            && Finished(u, o, p, size, up, w) && w.events == u.events && w.outputNames == u.outputNames
            && w.taken == u.taken
  {
    FinishReasons(u, o, p, size, up);
    FinishMoves(u, o, p, size, up);
    hide Finish, Finished, Identities, AllHeld, Fails, SizedRing;
  }

  lemma GoneMoves(s: State, o: Name, answer: Answer)
    ensures Gone(s, o, Release(s, o, answer)) && Release(s, o, answer).events == s.events
            && Release(s, o, answer).outputNames == s.outputNames
  {
    ReleaseEmpties(s, o, answer);
    ReleaseTakes(s, o, answer);
    ReleaseLeaves(s, o, answer);
    hide Release;
  }

  lemma ReleaseLeaves(s: State, o: Name, answer: Answer)
    ensures var t := Release(s, o, answer);
            t.events == s.events && t.outputNames == s.outputNames && t.dropped == s.dropped && t.stop == s.stop
  {
    AnswerLeaves(s.(surfaces := s.surfaces - {o}), o, answer);
    AnswerLeaves(AnswerPending(s.(surfaces := s.surfaces - {o}), o, answer), o, Err(UnknownOutput));
    hide AnswerPending, AnswerWaiter;
  }

  lemma AnswerLeaves(s: State, o: Name, answer: Answer)
    ensures var t := AnswerPending(s, o, answer);
            t.events == s.events && t.outputNames == s.outputNames && t.dropped == s.dropped && t.stop == s.stop
    ensures var t := AnswerWaiter(s, o, answer);
            t.events == s.events && t.outputNames == s.outputNames && t.dropped == s.dropped && t.stop == s.stop
  {
  }

  lemma FrameDoneMoves(s: State, e: Event)
    requires TableOk(TableOf(s)) && e.FrameDone?
    ensures Moves(s, e, Step(s, e))
  {
    forall o | Owns(s, e.surfaceId, o) ensures Owner(s, e.surfaceId) == Some(o) { OnlyOwner(s, e.surfaceId, o); }
    WaitersHaveSurfaces(s);
    hide TableOk, RingOk, Owner, OnPresent, Vanish, OnReleased, OnConfigure, OnClear, OnCancel;
  }

  lemma WaitersHaveSurfaces(s: State)
    requires TableOk(TableOf(s))
    ensures forall o :: o in s.waiters ==> o in s.surfaces
  {
    hide RingOk;
  }

  lemma BufferReleasedMoves(s: State, e: Event)
    requires TableOk(TableOf(s)) && e.BufferReleased?
    ensures Moves(s, e, Step(s, e))
  {
    var owner := Owner(s, e.surfaceId);
    forall o | o in s.surfaces && s.surfaces[o].surfaceId == e.surfaceId ensures owner == Some(o) {
      OnlyOwner(s, e.surfaceId, o);
    }
    if owner.Some? { OnReleasedFrees(s, owner.value, e.slot); }
    hide TableOk, RingOk, Owner, OnReleased, IsReleased;
  }

  lemma OnReleasedFrees(s: State, o: Name, slot: nat)
    requires o in s.surfaces
    ensures var t := OnReleased(s, o, slot);
            && o in t.surfaces && t == s.(surfaces := s.surfaces[o := t.surfaces[o]])
            && IsReleased(s.surfaces[o], slot, t.surfaces[o])
  {
  }

  /** Every command and callback does what the table says. */
  lemma EveryStepMoves(s: State, e: Event)
    requires TableOk(TableOf(s))
    ensures Moves(s, e, Step(s, e))
  {
    hide PresentMoves, ConfigureMoves, Gone, TableOk, OnConfigure, Release, AnswerPending;
    match e
    case Present(_, _, _, _, _, _) => OnPresentMoves(s, e);
    case Configure(id, size, _, _) =>
      forall o | Owns(s, id, o)
        ensures Owner(s, id) == Some(o) && ConfigureMoves(s, e, o, OnConfigure(s, o, e))
      {
        OnlyOwner(s, id, o);
        RingOf(s, o);
        OnConfigureMoves(s, e, o);
      }
    case Clear(o) => GoneMoves(s, o, ClearAnswer(s, o));
    case Closed(id) =>
      forall o | Owns(s, id, o) ensures Owner(s, id) == Some(o) { OnlyOwner(s, id, o); }
      if Owner(s, id).Some? { VanishMoves(s, Owner(s, id).value, ClosedEvent(Owner(s, id).value)); }
    case OutputDestroyed(id) =>
      if id in s.outputNames {
        var u := s.(outputNames := s.outputNames - {id});
        VanishMoves(u, s.outputNames[id], OutputRemoved(s.outputNames[id]));
        GoneFrom(s, u, s.outputNames[id], Step(s, e));
      }
    case CancelFrame(o) => CancelMoves(s, o);
    case FrameDone(_) => FrameDoneMoves(s, e);
    case BufferReleased(_, _) => BufferReleasedMoves(s, e);
    case _ =>
  }

  lemma VanishMoves(s: State, o: Name, event: PresenterEvent)
    ensures var t := Vanish(s, o, event);
            Gone(s, o, t) && t.events == s.events + [event] && t.outputNames == s.outputNames
  {
    GoneMoves(s, o, Err(UnknownOutput));
    hide Release;
  }

  lemma GoneFrom(s: State, u: State, o: Name, t: State)
    requires Gone(u, o, t) && u == s.(outputNames := u.outputNames)
    ensures Gone(s, o, t)
  {
  }

  lemma CancelMoves(s: State, o: Name)
    ensures Moves(s, CancelFrame(o), Step(s, CancelFrame(o)))
  {
    var u := s.(waiters := s.waiters - {o},
                dropped := s.dropped + if o in s.waiters then {s.waiters[o].reply} else {});
    assert s.dropped + {} == s.dropped;
    assert OnCancel(s, o) == AnswerPending(u, o, Err(NotRunning));
    hide OnCancel, OnPresent, Owner, Vanish, OnReleased, OnConfigure, OnClear, OnFrameDone;
  }

  // ------------------------------------------------------------------ where a surface has its size from

  lemma {:induction false} RunLast(s: State, es: seq<Event>)
    requires es != [] && LegalRun(s, es)
    ensures var n := |es| - 1;
            && LegalRun(s, es[..n]) && Allowed(Run(s, es[..n]), es[n])
            && Run(s, es) == Step(Run(s, es[..n]), es[n])
    decreases |es|
  {
    hide Step, Allowed;
    if |es| == 1 {
      assert es[..0] == [] && es[1..] == [];
    } else {
      RunLast(Step(s, es[0]), es[1..]);
      assert es[1..][..|es| - 2] == es[..|es| - 1][1..];
    }
  }

  /** The event configures the surface `id` to a size, as far as it is heeded. */
  predicate Configures(e: Event, id: nat) {
    e.Configure? && e.surfaceId == id && e.size.width != 0 && e.size.height != 0
  }

  /** The last size that surface `id` was configured to is `size`. */
  ghost predicate LastConfigured(es: seq<Event>, id: nat, size: Size) {
    exists k :: 0 <= k < |es| && Configures(es[k], id) && es[k].size == size && NoneAfter(es, k, id)
  }

  ghost predicate NoneAfter(es: seq<Event>, k: nat, id: nat) {
    forall j :: k < j < |es| ==> !Configures(es[j], id)
  }

  /** A surface with a size either had it before the step, which then is no configure of it, or was configured to it. */
  lemma SizeMoves(s: State, e: Event, o: Name)
    requires TableOk(TableOf(s)) && o in Step(s, e).surfaces && Step(s, e).surfaces[o].size.Some?
    ensures var v := Step(s, e).surfaces[o];
            if Configures(e, v.surfaceId) then v.size == Some(e.size)
            else o in s.surfaces && s.surfaces[o].surfaceId == v.surfaceId && s.surfaces[o].size == v.size
  {
    var t := Step(s, e);
    EveryStepMoves(s, e);
    hide Step, TableOk;
    if e.Configure? {
      hide Moves;
      ConfigureSizeMoves(s, e, t, o);
    } else if e.Present? {
      hide PresentMoves;
      PresentKeepsSizes(s, e, t, o);
    } else {
      OtherSizesStay(s, e, t, o);
    }
  }

  lemma ConfigureSizeMoves(s: State, e: Event, t: State, o: Name)
    requires TableOk(TableOf(s)) && e.Configure? && Moves(s, e, t) && o in t.surfaces && t.surfaces[o].size.Some?
    ensures var v := t.surfaces[o];
            if Configures(e, v.surfaceId) then v.size == Some(e.size)
            else o in s.surfaces && s.surfaces[o].surfaceId == v.surfaceId && s.surfaces[o].size == v.size
  {
    hide TableOk, ConfigureMoves;
    if e.size.width != 0 && e.size.height != 0 {
      if n :| Owns(s, e.surfaceId, n) {
        ConfigureSetsSize(s, e, n, t, o);
        OwnersAreEqual(s, e.surfaceId, n, o);
      } else {
        assert t == s && !Owns(s, e.surfaceId, o);
      }
    }
  }

  lemma OtherSizesStay(s: State, e: Event, t: State, o: Name)
    requires Moves(s, e, t) && !e.Present? && !e.Configure? && o in t.surfaces
    ensures o in s.surfaces && s.surfaces[o].surfaceId == t.surfaces[o].surfaceId
            && s.surfaces[o].size == t.surfaces[o].size
  {
    hide PresentMoves, ConfigureMoves;
    if e.Closed? && !(exists n :: Owns(s, e.surfaceId, n)) {
      assert t == s;
    }
  }

  lemma OwnersAreEqual(s: State, id: nat, n: Name, o: Name)
    requires TableOk(TableOf(s)) && Owns(s, id, n) && o in s.surfaces
    ensures n in s.surfaces && (s.surfaces[o].surfaceId == id <==> o == n)
  {
    hide RingOk;
  }

  lemma FinishedKeepsSizes(s: State, o: Name, p: Pending, size: Size, up: UploadEnv, t: State)
    requires Finished(s, o, p, size, up, t)
    ensures Identities(t.surfaces) == Identities(s.surfaces)
  {
    var u, answer :| FinishedAs(s, o, p, size, up, u, answer) && IsSettled(u, p, answer, t);
    hide Identities;
  }

  lemma PresentKeepsSizes(s: State, e: Event, t: State, o: Name)
    requires e.Present? && PresentMoves(s, e, t) && o in t.surfaces && t.surfaces[o].size.Some?
    ensures o in s.surfaces && s.surfaces[o].surfaceId == t.surfaces[o].surfaceId
            && s.surfaces[o].size == t.surfaces[o].size
  {
    var n, p := e.output, Pending(e.frame, e.waitForFrame, e.reply);
    if n in s.surfaces && s.surfaces[n].size.Some? {
      hide Finished;
      FinishedKeepsSizes(s, n, p, s.surfaces[n].size.value, e.up, t);
      SameAt(t.surfaces, s.surfaces, o);
    }
  }

  lemma ConfigureSetsSize(s: State, e: Event, n: Name, t: State, o: Name)
    requires e.Configure? && n in s.surfaces && ConfigureMoves(s, e, n, t) && o in t.surfaces
    ensures o in s.surfaces && t.surfaces[o].surfaceId == s.surfaces[o].surfaceId
    ensures t.surfaces[o].size == if o == n then Some(e.size) else s.surfaces[o].size
  {
    hide Finished;
    var u :| IsConfigured(s, n, e.size, u) && FinishesParked(s, e, n, u, t);
    if n in s.pending && (s.surfaces[n].size == Some(e.size) || e.poolOk) {
      FinishedKeepsSizes(u, n, s.pending[n], e.size, e.up, t);
      SameAt(t.surfaces, u.surfaces, o);
    }
  }

  /** After every run, a surface has the last size it was configured to. */
  lemma {:induction false} SizeIsLastConfigured(maxBuffers: nat, es: seq<Event>, o: Name)
    requires 1 <= maxBuffers <= MAX_BUFFERS && LegalRun(Initial(maxBuffers), es)
    requires o in Run(Initial(maxBuffers), es).surfaces && Run(Initial(maxBuffers), es).surfaces[o].size.Some?
    ensures var v := Run(Initial(maxBuffers), es).surfaces[o];
            LastConfigured(es, v.surfaceId, v.size.value)
    decreases |es|
  {
    var n := |es| - 1;
    RunLast(Initial(maxBuffers), es);
    InitialHolds(maxBuffers);
    var s := Run(Initial(maxBuffers), es[..n]);
    RunKeeps(Initial(maxBuffers), es[..n]);
    assert TableOk(TableOf(s));
    hide Run, LegalRun, Initial, Step, Accounted, TableOk, CommitsMatch, Configures, LastConfigured, Inv;
    SizeMoves(s, es[n], o);
    var v := Step(s, es[n]).surfaces[o];
    if Configures(es[n], v.surfaceId) {
      ConfiguredNow(es, v.surfaceId);
    } else {
      SizeIsLastConfigured(maxBuffers, es[..n], o);
      StillLastConfigured(es, v.surfaceId, v.size.value);
    }
  }

  lemma ConfiguredNow(es: seq<Event>, id: nat)
    requires es != [] && Configures(es[|es| - 1], id)
    ensures LastConfigured(es, id, es[|es| - 1].size)
  {
    assert NoneAfter(es, |es| - 1, id);
  }

  lemma StillLastConfigured(es: seq<Event>, id: nat, size: Size)
    requires es != [] && LastConfigured(es[..|es| - 1], id, size) && !Configures(es[|es| - 1], id)
    ensures LastConfigured(es, id, size)
  {
    var early := es[..|es| - 1];
    var k :| 0 <= k < |early| && Configures(early[k], id) && early[k].size == size && NoneAfter(early, k, id);
    assert es[k] == early[k];
    forall j | k < j < |es| ensures !Configures(es[j], id) {
      if j < |early| { assert es[j] == early[j]; }
    }
    assert NoneAfter(es, k, id);
  }

  // ------------------------------------------------------------------ what "resize required" tells

  /**
    Over every run: whoever is told "resize required" asked with another size, and is told the size to which the surface
    of its output was last configured, this very step included.
   */
  lemma {:induction false} ResizeTellsTheConfiguredSize(maxBuffers: nat, es: seq<Event>, e: Event, i: nat, size: Size)
    requires 1 <= maxBuffers <= MAX_BUFFERS && LegalRun(Initial(maxBuffers), es)
    requires Allowed(Run(Initial(maxBuffers), es), e)
    requires var s := Run(Initial(maxBuffers), es);
             |s.sent| <= i < |Step(s, e).sent| && Step(s, e).sent[i].answer == Ok(ResizeRequired(size))
    ensures var t := Step(Run(Initial(maxBuffers), es), e);
            && t.sent[i].reply in t.taken
            && var q := t.taken[t.sent[i].reply];
               && q.frame != size && q.output in t.surfaces && t.surfaces[q.output].size == Some(size)
               && LastConfigured(es + [e], t.surfaces[q.output].surfaceId, size)
  {
    var s := Run(Initial(maxBuffers), es);
    EveryAnswerHasItsReason(maxBuffers, es, e);
    var t := Step(s, e);
    assert HasReason(s, e, t, t.taken[t.sent[i].reply], t.sent[i]);
    OneMoreIsLegal(Initial(maxBuffers), es, e);
    hide Run, LegalRun, Initial, Step, Finishing, PushedOut;
    SizeIsLastConfigured(maxBuffers, es + [e], t.taken[t.sent[i].reply].output);
  }

  lemma {:induction false} OneMoreIsLegal(s: State, es: seq<Event>, e: Event)
    requires LegalRun(s, es) && Allowed(Run(s, es), e)
    ensures LegalRun(s, es + [e]) && Run(s, es + [e]) == Step(Run(s, es), e)
    decreases |es|
  {
    hide Step, Allowed;
    if es == [] {
      assert es + [e] == [e] && [e][1..] == [];
    } else {
      assert (es + [e])[1..] == es[1..] + [e];
      OneMoreIsLegal(Step(s, es[0]), es[1..], e);
    }
  }

  /**
    A present on a surface that has a size: with another size it is told so at once and nothing else happens; with that
    size nobody is told to resize, and unless all buffers are held or something fails its frame is committed, and it
    waits for its callback or is told "presented".
   */
  lemma PresentOnAConfiguredSurface(s: State, e: Event)
    requires TableOk(TableOf(s)) && e.Present? && e.output in s.surfaces && s.surfaces[e.output].size.Some?
    ensures var t, size := Step(s, e), s.surfaces[e.output].size.value;
            && (size != e.frame ==>
                  SamePlaces(s, t) && SameScreen(s, t) && t.sent == s.sent + [Sent(e.reply, Ok(ResizeRequired(size)))])
            && (size == e.frame ==>
                  && s.sent <= t.sent
                  && (forall i, z :: |s.sent| <= i < |t.sent| ==> t.sent[i].answer != Ok(ResizeRequired(z))))
            && (size == e.frame && !Fails(e.up) && !AllHeld(s.surfaces[e.output]) ==>
                  && t.commits == s.commits + [Commit(e.output, size, Some(size), e.reply)]
                  && (if e.waitForFrame then t.waiters == s.waiters[e.output := Waiter(size, e.reply)]
                      else t.waiters == s.waiters && t.sent == s.sent + [Sent(e.reply, Ok(Presented(size)))]))
  {
    EveryStepMoves(s, e);
    var o, t := e.output, Step(s, e);
    assert PresentMoves(s, e, t);
    hide Step, TableOk, Moves, Finished, Fails, AllHeld;
    FinishedTells(s, o, Pending(e.frame, e.waitForFrame, e.reply), s.surfaces[o].size.value, e.up, t);
  }

  lemma FinishedTells(s: State, o: Name, p: Pending, size: Size, up: UploadEnv, t: State)
    requires o in s.surfaces && Finished(s, o, p, size, up, t)
    ensures size != p.frame ==>
              SamePlaces(s, t) && SameScreen(s, t) && t.sent == s.sent + [Sent(p.reply, Ok(ResizeRequired(size)))]
    ensures size == p.frame ==>
              && s.sent <= t.sent
              && (forall i, z :: |s.sent| <= i < |t.sent| ==> t.sent[i].answer != Ok(ResizeRequired(z)))
    ensures size == p.frame && !Fails(up) && !AllHeld(s.surfaces[o]) ==>
              && t.commits == s.commits + [Commit(o, size, Some(size), p.reply)]
              && (if p.waitForFrame then t.waiters == s.waiters[o := Waiter(size, p.reply)]
                  else t.waiters == s.waiters && t.sent == s.sent + [Sent(p.reply, Ok(Presented(size)))])
  {
    var u, answer :| FinishedAs(s, o, p, size, up, u, answer) && IsSettled(u, p, answer, t);
    hide Identities, Fails, AllHeld;
  }
}
