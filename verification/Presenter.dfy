/**
  The presenter in the form the source gives it: objects updated in place by handlers, each proved to take
  exactly the step of the state machine. (crates/owe-render/src/surface.rs)
 */
module Presenter {
  import opened Prelude
  import opened SurfaceSlots
  import opened PresenterModel
  import opened PresenterProofs
  import opened PresenterRuns

  class OutputSurface {
    const surfaceId: nat
    var size: Option<Size>
    var buffers: seq<Slot>
    var nextSlot: nat

    function View(): SurfaceView
      reads this
    {
      SurfaceView(surfaceId, size, buffers, nextSlot)
    }

    constructor (surfaceId: nat, maxBuffers: nat)
      ensures View() == SurfaceView(surfaceId, None, seq(maxBuffers, _ => Empty), 0)
    {
      this.surfaceId := surfaceId;
      size, buffers, nextSlot := None, seq(maxBuffers, _ => Empty), 0;
    }

    /** One pass around the ring from the cursor, then whatever turns up while waiting. */
    method AcquireSlot(frame: Size, env: UploadEnv) returns (r: Result<nat, PresentError>)
      modifies this`buffers, this`nextSlot
      ensures View() == Acquire(old(View()), frame, env).0 && r == Acquire(old(View()), frame, env).1
    {
      var count, k := |buffers|, 0;
      while k < count
        invariant k <= count && buffers == old(buffers) && size == old(size) && nextSlot == old(nextSlot) + k
        invariant FirstUsable(buffers, old(nextSlot), k) == FirstUsable(buffers, old(nextSlot), 0)
      {
        var slot := nextSlot % count;
        nextSlot := nextSlot + 1;
        var taken := buffers[slot];
        buffers := buffers[slot := Empty];
        if taken.Empty? {
          if !env.allocOk {
            assert buffers == old(buffers);
            return Err(Wayland);
          }
          buffers := buffers[slot := Free(frame)];
          return Ok(slot);
        }
        buffers := buffers[slot := taken];
        assert buffers == old(buffers);
        if taken.Free? {
          return Ok(slot);
        }
        k := k + 1;
      }
      if env.late.Some? && env.late.value < count {
        buffers := buffers[env.late.value := Free(SizeOf(buffers[env.late.value], frame))];
        return Ok(env.late.value);
      }
      return Err(Busy);
    }

    /** Copy a frame into a free buffer and commit it. */
    method UploadFrame(frame: Size, env: UploadEnv) returns (r: Result<(), PresentError>, committed: bool)
      modifies this`buffers, this`nextSlot
      ensures var u := Upload(old(View()), frame, env); View() == u.0 && r == u.1 && committed == u.2
    {
      hide Acquire;
      var acquired := AcquireSlot(frame, env);
      if acquired.Err? {
        return Err(acquired.error), false;
      }
      var slot := acquired.value;
      if slot >= |buffers| || buffers[slot].Empty? {
        return Err(Wayland), false;
      }
      var buffer := buffers[slot];
      buffers := buffers[slot := Empty];
      if buffer.Held? {
        return Err(Busy), false;
      }
      if Bytes(buffer.size) < Bytes(frame) {
        return Err(FrameSize), false;
      }
      if !env.attachOk {
        return Err(Wayland), false;
      }
      buffers := buffers[slot := Held(buffer.size)];
      if !env.flushOk {
        return Err(Wayland), true;
      }
      return Ok(()), true;
    }
  }

  class PresenterState {
    const maxBuffers: nat
    var surfaces: map<Name, OutputSurface>
    var outputNames: map<nat, Name>
    var pending: map<Name, Pending>
    var waiters: map<Name, Waiter>
    var stop: bool
    var sent: seq<Sent>
    var events: seq<PresenterEvent>
    var commits: seq<Commit>
    ghost var taken: map<ReplyId, Request>
    ghost var dropped: set<ReplyId>

    ghost function Surfaces(): map<Name, SurfaceView>
      reads this`surfaces, surfaces.Values
    {
      map o | o in surfaces :: surfaces[o].View()
    }

    /** The value this object stands for. */
    ghost function View(): State
      reads this, surfaces.Values
    {
      State(maxBuffers, Surfaces(), outputNames, pending, waiters, stop, sent, events, commits, taken, dropped)
    }

    /** No two outputs share a surface object. */
    ghost predicate Apart()
      reads this`surfaces
    {
      forall o, p :: o in surfaces && p in surfaces && surfaces[o] == surfaces[p] ==> o == p
    }

    ghost predicate Valid()
      reads this, surfaces.Values
    {
      Apart() && Inv(View())
    }

    constructor (maxBuffers: nat)
      requires 1 <= maxBuffers <= MAX_BUFFERS
      ensures Valid() && View() == Initial(maxBuffers) && surfaces == map[]
    {
      this.maxBuffers := maxBuffers;
      surfaces, outputNames, pending, waiters := map[], map[], map[], map[];
      stop, sent, events, commits := false, [], [], [];
      taken, dropped := map[], {};
      new;
      assert Surfaces() == map[];
      assert View() == Run(Initial(maxBuffers), []);
    }

    // ---------------------------------------------------------------- replies

    method Send(reply: ReplyId, answer: Answer)
      modifies this`sent
      ensures View() == Post(old(View()), reply, answer)
    {
      sent := sent + [Sent(reply, answer)];
    }

    method ReleasePending(o: Name, answer: Answer)
      modifies this`pending, this`sent
      ensures View() == AnswerPending(old(View()), o, answer)
    {
      if o in pending {
        var p := pending[o];
        pending := pending - {o};
        Send(p.reply, answer);
      }
    }

    method ReleaseWaiter(o: Name, answer: Answer)
      modifies this`waiters, this`sent
      ensures View() == AnswerWaiter(old(View()), o, answer)
    {
      if o in waiters {
        var w := waiters[o];
        waiters := waiters - {o};
        Send(w.reply, answer);
      }
    }

    method ForgetWaiter(o: Name)
      modifies this`waiters
      ensures View() == old(View()).(waiters := old(View()).waiters - {o})
    {
      waiters := waiters - {o};
    }

    // ---------------------------------------------------------------- presenting

    method ArmFrameCallback(o: Name, size: Size, reply: ReplyId) returns (r: Result<(), PresentError>)
      modifies this`waiters, this`sent
      ensures View() == Arm(old(View()), o, size, reply).0 && r == Arm(old(View()), o, size, reply).1
    {
      if o !in surfaces {
        return Err(UnknownOutput);
      }
      ReleaseWaiter(o, Err(Busy));
      waiters := waiters[o := Waiter(size, reply)];
      return Ok(());
    }

    method UploadSurface(o: Name, frame: Size, up: UploadEnv) returns (r: Result<(), PresentError>, committed: bool)
      requires Apart() && o in surfaces
      modifies surfaces[o]
      ensures var u := Upload(old(surfaces[o].View()), frame, up);
              View() == old(View()).(surfaces := old(View()).surfaces[o := u.0]) && r == u.1 && committed == u.2
    {
      hide Upload;
      var surface := surfaces[o];
      r, committed := surface.UploadFrame(frame, up);
      assert Surfaces() == old(Surfaces())[o := surface.View()];
    }

    method UploadOn(o: Name, frame: Size, reply: ReplyId, up: UploadEnv) returns (r: Result<(), PresentError>)
      requires Apart()
      modifies this`commits, surfaces.Values
      ensures Apart() && View() == UploadTo(old(View()), o, frame, reply, up).0
      ensures r == UploadTo(old(View()), o, frame, reply, up).1
    {
      hide Upload;
      if o !in surfaces {
        return Err(UnknownOutput);
      }
      var committed;
      r, committed := UploadSurface(o, frame, up);
      if committed {
        commits := commits + [Commit(o, frame, surfaces[o].size, reply)];
      }
    }

    method FinishPresent(o: Name, frame: Size, configured: Size, wait: bool, reply: ReplyId, up: UploadEnv)
      returns (answer: Answer)
      requires Apart()
      modifies this`waiters, this`sent, this`commits, surfaces.Values
      ensures Apart() && View() == Finish(old(View()), o, frame, configured, wait, reply, up).0
      ensures answer == Finish(old(View()), o, frame, configured, wait, reply, up).1
      ensures if configured != frame then answer == Ok(ResizeRequired(configured)) && View() == old(View())
              else !(answer.Ok? && answer.value.ResizeRequired?)
    {
      hide UploadTo, Arm, View, Surfaces, Inv;
      if configured != frame {
        return Ok(ResizeRequired(configured));
      }
      if wait {
        var armed := ArmFrameCallback(o, configured, reply);
        if armed.Err? {
          return Err(armed.error);
        }
      }
      var r := UploadOn(o, frame, reply, up);
      if r.Err? {
        if wait {
          ForgetWaiter(o);
        }
        return Err(r.error);
      }
      return Ok(Presented(configured));
    }

    method SettlePresent(wait: bool, reply: ReplyId, answer: Answer)
      modifies this`sent
      ensures View() == Settle(old(View()), wait, reply, answer)
    {
      if !(wait && answer.Ok? && answer.value.Presented?) {
        Send(reply, answer);
      }
    }

    method ParkPresent(o: Name, p: Pending)
      modifies this`pending, this`sent
      ensures View() == Park(old(View()), o, p)
    {
      ReleasePending(o, Err(Busy));
      pending := pending[o := p];
    }

    method CreateSurface(o: Name, id: nat)
      requires Apart() && o !in surfaces
      modifies this`surfaces
      ensures Apart() && forall n :: n in surfaces ==> n == o || (n in old(surfaces) && surfaces[n] == old(surfaces[n]))
      ensures o in surfaces && fresh(surfaces[o]) && surfaces.Keys == old(surfaces.Keys) + {o}
      ensures View() == old(View()).(surfaces := old(View()).surfaces[o := NewSurface(old(View()), id)])
    {
      var surface := new OutputSurface(id, maxBuffers);
      surfaces := surfaces[o := surface];
      assert Surfaces() == old(Surfaces())[o := surface.View()];
    }

    /** `begin_present`, and the answer or parking that follows it. */
    method BeginPresent(e: Event)
      requires Apart() && e.Present?
      modifies this`surfaces, this`pending, this`waiters, this`sent, this`commits, surfaces.Values
      ensures Apart() && View() == OnPresent(old(View()), e)
      ensures fresh(surfaces.Values - old(surfaces.Values))
    {
      hide Finish, Park, Settle, NewSurface;
      var o, p := e.output, Pending(e.frame, e.waitForFrame, e.reply);
      if o !in surfaces {
        match e.create {
          case Created(id) =>
            CreateSurface(o, id);
            ParkPresent(o, p);
          case NoSuchOutput => SettlePresent(e.waitForFrame, e.reply, Err(UnknownOutput));
          case NoPool => SettlePresent(e.waitForFrame, e.reply, Err(Wayland));
        }
      } else if surfaces[o].size.None? {
        ParkPresent(o, p);
      } else {
        var answer := FinishPresent(o, e.frame, surfaces[o].size.value, e.waitForFrame, e.reply, e.up);
        SettlePresent(e.waitForFrame, e.reply, answer);
      }
    }

    /** The Present arm of `handle_command`. */
    method HandlePresent(e: Event)
      requires Valid() && e.Present? && Allowed(View(), e)
      modifies this`surfaces, this`pending, this`waiters, this`sent, this`commits, this`taken, surfaces.Values
      ensures Valid() && View() == Step(old(View()), e)
      ensures fresh(surfaces.Values - old(surfaces.Values))
    {
      hide Inv, OnPresent;
      StepKeeps(View(), e);
      BeginPresent(e);
      taken := taken[e.reply := Request(e.output, e.frame, e.waitForFrame)];
    }

    /** Drop a surface and answer whoever is parked on it or waits for it. */
    method ReleaseOutput(o: Name, answer: Answer)
      requires Apart()
      modifies this`surfaces, this`pending, this`waiters, this`sent
      ensures Apart() && View() == PresenterModel.Release(old(View()), o, answer) && surfaces == old(surfaces) - {o}
    {
      ghost var s := View();
      surfaces := surfaces - {o};
      assert Surfaces() == s.surfaces - {o};
      ReleasePending(o, answer);
      ReleaseWaiter(o, Err(UnknownOutput));
    }

    method HandleClear(o: Name)
      requires Valid()
      modifies this`surfaces, this`pending, this`waiters, this`sent
      ensures Valid() && View() == Step(old(View()), Clear(o)) && surfaces == old(surfaces) - {o}
    {
      hide Inv, PresenterModel.Release;
      StepKeeps(View(), Clear(o));
      var answer := if o in pending && !pending[o].waitForFrame
                    then Ok(Presented(pending[o].frame)) else Err(UnknownOutput);
      ReleaseOutput(o, answer);
    }

    method HandleCancel(o: Name)
      requires Valid()
      modifies this
      ensures Valid() && View() == Step(old(View()), CancelFrame(o)) && surfaces == old(surfaces)
    {
      hide Inv;
      ghost var s := View();
      if o in waiters {
        dropped := dropped + {waiters[o].reply};
        waiters := waiters - {o};
      }
      ReleasePending(o, Err(NotRunning));
      StepKeeps(s, CancelFrame(o));
    }

    // ---------------------------------------------------------------- callbacks

    /** Search the table for the surface a callback is about. */
    method FindOutput(id: nat) returns (o: Option<Name>)
      requires Valid()
      ensures o == Owner(View(), id)
    {
      assert forall n :: n in surfaces <==> n in View().surfaces;
      if n :| n in surfaces && surfaces[n].surfaceId == id {
        assert Owns(View(), id, n) && View().surfaces[n].surfaceId == id;
        var m := n;
        assert Owner(View(), id) == Some(m);
        return Some(m);
      }
      assert forall n :: n in surfaces ==> View().surfaces[n].surfaceId == surfaces[n].surfaceId;
      return None;
    }

    /** A different size invalidates the parked buffers. */
    method ResizeSurface(o: Name, size: Size)
      requires Apart() && o in surfaces
      modifies surfaces[o]
      ensures View() == PresenterModel.Resize(old(View()), o, size)
    {
      var surface := surfaces[o];
      surface.size := Some(size);
      surface.buffers := seq(|surface.buffers|, _ => Empty);
      assert Surfaces() == old(Surfaces())[o := surface.View()];
    }

    /** A parked present finishes when its surface is configured. */
    method FinishParkedPresent(o: Name, size: Size, up: UploadEnv)
      requires Apart()
      modifies this`pending, this`waiters, this`sent, this`commits, surfaces.Values
      ensures Apart() && View() == FinishParked(old(View()), o, size, up)
    {
      hide Finish, Settle;
      if o in pending {
        var p := pending[o];
        pending := pending - {o};
        var answer := FinishPresent(o, p.frame, size, p.waitForFrame, p.reply, up);
        SettlePresent(p.waitForFrame, p.reply, answer);
      }
    }

    /** The body of `configure`, once the surface is known. */
    method ConfigureOutput(o: Name, e: Event)
      requires Apart() && e.Configure? && o in surfaces
      modifies this`pending, this`waiters, this`sent, this`commits, this`events, surfaces.Values
      ensures Apart() && View() == OnConfigure(old(View()), o, e)
    {
      hide FinishParked, PresenterModel.Resize;
      var changed := surfaces[o].size != Some(e.size);
      if changed {
        ResizeSurface(o, e.size);
        if !e.poolOk {
          return;
        }
      }
      FinishParkedPresent(o, e.size, e.up);
      if changed {
        events := events + [Configured(o, e.size)];
      }
    }

    method OnConfigureCallback(e: Event)
      requires Valid() && e.Configure?
      modifies this`pending, this`waiters, this`sent, this`commits, this`events, surfaces.Values
      ensures Valid() && View() == Step(old(View()), e)
    {
      hide Inv, OnConfigure;
      StepKeeps(View(), e);
      if e.size.width == 0 || e.size.height == 0 {
        return;
      }
      var found := FindOutput(e.surfaceId);
      if found.Some? {
        ConfigureOutput(found.value, e);
      }
    }

    method OnFrameCallback(id: nat)
      requires Valid()
      modifies this
      ensures Valid() && View() == Step(old(View()), FrameDone(id)) && surfaces == old(surfaces)
    {
      hide Inv;
      ghost var s := View();
      StepKeeps(s, FrameDone(id));
      var found := FindOutput(id);
      if found.Some? && found.value in waiters {
        var o := found.value;
        var size := if surfaces[o].size.Some? then surfaces[o].size.value else waiters[o].size;
        ReleaseWaiter(o, Ok(Presented(size)));
      }
    }

    method DropOutput(o: Name, event: PresenterEvent)
      requires Apart()
      modifies this`surfaces, this`pending, this`waiters, this`sent, this`events
      ensures Apart() && View() == Vanish(old(View()), o, event) && surfaces == old(surfaces) - {o}
    {
      hide PresenterModel.Release;
      ReleaseOutput(o, Err(UnknownOutput));
      events := events + [event];
    }

    method OnClosed(id: nat)
      requires Valid()
      modifies this
      ensures Valid() && View() == Step(old(View()), Closed(id))
    {
      hide Inv, Vanish;
      ghost var s := View();
      StepKeeps(s, Closed(id));
      var found := FindOutput(id);
      if found.Some? {
        DropOutput(found.value, ClosedEvent(found.value));
      }
    }

    method OnOutputDestroyed(id: nat)
      requires Valid()
      modifies this
      ensures Valid() && View() == Step(old(View()), OutputDestroyed(id))
    {
      hide Inv, Vanish;
      ghost var s := View();
      StepKeeps(s, OutputDestroyed(id));
      if id in outputNames {
        var name := outputNames[id];
        outputNames := outputNames - {id};
        DropOutput(name, OutputRemoved(name));
      }
    }

    method OnNewOutput(id: nat, name: Option<Name>)
      requires Valid()
      modifies this`outputNames, this`events
      ensures Valid() && View() == Step(old(View()), OutputNew(id, name))
    {
      hide Inv;
      ghost var s := View();
      StepKeeps(s, OutputNew(id, name));
      if name.Some? {
        outputNames := outputNames[id := name.value];
        events := events + [OutputAdded(name.value)];
      }
    }

    // ---------------------------------------------------------------- shutdown

    method DrainParked() returns (order: seq<Name>)
      modifies this`pending, this`sent
      ensures View() == DrainPending(old(View()), order) && pending == map[]
      ensures forall o :: o in old(pending) ==> o in order
    {
      order := [];
      while pending != map[]
        invariant View() == DrainPending(old(View()), order)
        invariant forall o :: o in old(pending) ==> o in order || o in pending
        decreases |pending|
      {
        var o :| o in pending;
        ReleasePending(o, Err(NotRunning));
        assert (order + [o])[..|order|] == order;
        order := order + [o];
      }
    }

    method DrainWaiting() returns (order: seq<Name>)
      modifies this`waiters, this`sent
      ensures View() == DrainWaiters(old(View()), order) && waiters == map[]
      ensures forall o :: o in old(waiters) ==> o in order
    {
      order := [];
      while waiters != map[]
        invariant View() == DrainWaiters(old(View()), order)
        invariant forall o :: o in old(waiters) ==> o in order || o in waiters
        decreases |waiters|
      {
        var o :| o in waiters;
        ReleaseWaiter(o, Err(NotRunning));
        assert (order + [o])[..|order|] == order;
        order := order + [o];
      }
    }

    /** The end of `run_presenter`: drop every surface and answer whoever is left, in any order. */
    method DrainAll() returns (parked: seq<Name>, waiting: seq<Name>)
      requires Valid()
      modifies this`surfaces, this`pending, this`waiters, this`sent
      ensures View() == Drain(old(View()), parked, waiting)
      ensures (forall o :: o in old(pending) ==> o in parked) && (forall o :: o in old(waiters) ==> o in waiting)
      ensures pending == map[] && waiters == map[] && surfaces == map[]
    {
      hide Inv;
      ghost var s := View();
      surfaces := map[];
      assert View() == s.(surfaces := map[]);
      parked := DrainParked();
      waiting := DrainWaiting();
    }
  }
}
