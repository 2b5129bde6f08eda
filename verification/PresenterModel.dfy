/**
  The presenter thread as a state machine over values: one step per command and per compositor callback.
  (crates/owe-render/src/surface.rs)

  A present's reply channel has room for one message, so what matters is where each reply is: parked with
  its frame, held by a frame waiter, answered, or dropped by CancelFrame. `sent` is the log of every answer.
 */
module PresenterModel {
  import opened Prelude
  import opened SurfaceSlots

  type Name = string
  type ReplyId = nat

  datatype Outcome = Presented(size: Size) | ResizeRequired(size: Size)
  type Answer = Result<Outcome, PresentError>

  datatype Pending = Pending(frame: Size, waitForFrame: bool, reply: ReplyId)
  datatype Waiter = Waiter(size: Size, reply: ReplyId)
  datatype Sent = Sent(reply: ReplyId, answer: Answer)
  /** A frame the compositor was given, for which present, and the size it had configured for that surface. */
  datatype Commit = Commit(output: Name, frame: Size, configured: Option<Size>, reply: ReplyId)
  /** What a present asked for. */
  datatype Request = Request(output: Name, frame: Size, waitForFrame: bool)
  datatype PresenterEvent =
    | Configured(output: Name, size: Size)
    | ClosedEvent(output: Name)
    | OutputAdded(output: Name)
    | OutputRemoved(output: Name)

  /** What creating a surface meets: a new protocol id, an unknown output, or no memory for its pool. */
  datatype CreateEnv = Created(surfaceId: nat) | NoSuchOutput | NoPool

  datatype State = State(
    maxBuffers: nat,
    surfaces: map<Name, SurfaceView>,
    outputNames: map<nat, Name>,
    pending: map<Name, Pending>,
    waiters: map<Name, Waiter>,
    stop: bool,
    sent: seq<Sent>,
    events: seq<PresenterEvent>,
    commits: seq<Commit>,
    taken: map<ReplyId, Request>,   // every Present processed so far, by its reply
    dropped: set<ReplyId>)          // replies released unanswered by CancelFrame

  datatype Event =
    | Present(output: Name, frame: Size, waitForFrame: bool, reply: ReplyId, create: CreateEnv, up: UploadEnv)
    | Clear(output: Name)
    | CancelFrame(output: Name)
    | Shutdown
    | Configure(surfaceId: nat, size: Size, poolOk: bool, up: UploadEnv)
    | FrameDone(surfaceId: nat)
    | Closed(surfaceId: nat)
    | OutputNew(id: nat, name: Option<Name>)
    | OutputUpdate(id: nat, name: Option<Name>)
    | OutputDestroyed(id: nat)
    | BufferReleased(surfaceId: nat, slot: nat)

  const MAX_BUFFERS := 8

  function Initial(maxBuffers: nat): State {
    State(maxBuffers, map[], map[], map[], map[], false, [], [], [], map[], {})
  }

  function Post(s: State, reply: ReplyId, answer: Answer): State {
    s.(sent := s.sent + [Sent(reply, answer)])
  }

  /** Remove the parked present of `o`, if any, and answer it. */
  function AnswerPending(s: State, o: Name, answer: Answer): State {
    if o in s.pending then Post(s.(pending := s.pending - {o}), s.pending[o].reply, answer) else s
  }

  /** Remove the frame waiter of `o`, if any, and answer it. */
  function AnswerWaiter(s: State, o: Name, answer: Answer): State {
    if o in s.waiters then Post(s.(waiters := s.waiters - {o}), s.waiters[o].reply, answer) else s
  }

  function Arm(s: State, o: Name, size: Size, reply: ReplyId): (State, Result<(), PresentError>) {
    if o !in s.surfaces then (s, Err(UnknownOutput))
    else
      var t := AnswerWaiter(s, o, Err(Busy));
      (t.(waiters := t.waiters[o := Waiter(size, reply)]), Ok(()))
  }

  function UploadTo(s: State, o: Name, frame: Size, reply: ReplyId, up: UploadEnv): (State, Result<(), PresentError>) {
    if o !in s.surfaces then (s, Err(UnknownOutput))
    else
      var (w, r, committed) := Upload(s.surfaces[o], frame, up);
      var t := s.(surfaces := s.surfaces[o := w]);
      (if committed then t.(commits := t.commits + [Commit(o, frame, w.size, reply)]) else t, r)
  }

  function Finish(s: State, o: Name, frame: Size, configured: Size, wait: bool, reply: ReplyId, up: UploadEnv)
    : (State, Answer)
  {
    if configured != frame then (s, Ok(ResizeRequired(configured)))
    else
      var (armed, arm) := if wait then Arm(s, o, configured, reply) else (s, Ok(()));
      if arm.Err? then (armed, Err(arm.error))
      else
        var (t, r) := UploadTo(armed, o, frame, reply, up);
        match r
        case Err(e) => (if wait then t.(waiters := t.waiters - {o}) else t, Err(e))
        case Ok(_) => (t, Ok(Presented(configured)))
  }

  /** Answer a finished present, unless it is waiting for its frame callback. */
  function Settle(s: State, wait: bool, reply: ReplyId, answer: Answer): State {
    if wait && answer.Ok? && answer.value.Presented? then s else Post(s, reply, answer)
  }

  function Park(s: State, o: Name, p: Pending): State {
    var t := AnswerPending(s, o, Err(Busy));
    t.(pending := t.pending[o := p])
  }

  function NewSurface(s: State, surfaceId: nat): SurfaceView {
    SurfaceView(surfaceId, None, seq(s.maxBuffers, _ => Empty), 0)
  }

  function OnPresent(s: State, e: Event): State
    requires e.Present?
  {
    var o, p := e.output, Pending(e.frame, e.waitForFrame, e.reply);
    if o !in s.surfaces then
      match e.create
      case Created(id) => Park(s.(surfaces := s.surfaces[o := NewSurface(s, id)]), o, p)
      case NoSuchOutput => Settle(s, e.waitForFrame, e.reply, Err(UnknownOutput))
      case NoPool => Settle(s, e.waitForFrame, e.reply, Err(Wayland))
    else if s.surfaces[o].size.None? then Park(s, o, p)
    else
      var (t, answer) := Finish(s, o, e.frame, s.surfaces[o].size.value, e.waitForFrame, e.reply, e.up);
      Settle(t, e.waitForFrame, e.reply, answer)
  }

  /** Drop a surface and answer whoever is parked on it or waits for it. */
  function Release(s: State, o: Name, answer: Answer): State {
    AnswerWaiter(AnswerPending(s.(surfaces := s.surfaces - {o}), o, answer), o, Err(UnknownOutput))
  }

  /** What Clear tells the present parked on its output. */
  function ClearAnswer(s: State, o: Name): Answer {
    if o in s.pending && !s.pending[o].waitForFrame then Ok(Presented(s.pending[o].frame)) else Err(UnknownOutput)
  }

  function OnClear(s: State, o: Name): State {
    Release(s, o, ClearAnswer(s, o))
  }

  function OnCancel(s: State, o: Name): State {
    var t := if o in s.waiters
             then s.(waiters := s.waiters - {o}, dropped := s.dropped + {s.waiters[o].reply}) else s;
    AnswerPending(t, o, Err(NotRunning))
  }

  /** The output whose surface has this protocol id. */
  ghost predicate Owns(s: State, surfaceId: nat, o: Name) {
    o in s.surfaces && s.surfaces[o].surfaceId == surfaceId
  }

  ghost function Owner(s: State, surfaceId: nat): (o: Option<Name>)
    ensures o.Some? ==> Owns(s, surfaceId, o.value)
    ensures o.None? ==> forall n :: !Owns(s, surfaceId, n)
  {
    if n :| Owns(s, surfaceId, n) then Some(n) else None
  }

  /** A different size invalidates the parked buffers. */
  function Resize(s: State, o: Name, size: Size): State
    requires o in s.surfaces
  {
    var v := s.surfaces[o];
    s.(surfaces := s.surfaces[o := v.(size := Some(size), buffers := seq(|v.buffers|, _ => Empty))])
  }

  /** The present parked on `o`, if any, finishes at the size just configured. */
  function FinishParked(s: State, o: Name, size: Size, up: UploadEnv): State {
    if o !in s.pending then s
    else
      var p := s.pending[o];
      var (t, answer) := Finish(s.(pending := s.pending - {o}), o, p.frame, size, p.waitForFrame, p.reply, up);
      Settle(t, p.waitForFrame, p.reply, answer)
  }

  function OnConfigure(s: State, o: Name, e: Event): State
    requires e.Configure? && o in s.surfaces
  {
    if s.surfaces[o].size == Some(e.size) then FinishParked(s, o, e.size, e.up)
    else if !e.poolOk then Resize(s, o, e.size)
    else
      var t := FinishParked(Resize(s, o, e.size), o, e.size, e.up);
      t.(events := t.events + [Configured(o, e.size)])
  }

  function OnFrameDone(s: State, o: Name): State
    requires o in s.surfaces
  {
    if o in s.waiters then
      AnswerWaiter(s, o, Ok(Presented(if s.surfaces[o].size.Some? then s.surfaces[o].size.value
          else s.waiters[o].size)))
    else s
  }

  /** The common end of `closed` and `output_destroyed`. */
  function Vanish(s: State, o: Name, event: PresenterEvent): State {
    var t := Release(s, o, Err(UnknownOutput));
    t.(events := t.events + [event])
  }

  function OnReleased(s: State, o: Name, slot: nat): State
    requires o in s.surfaces
  {
    var v := s.surfaces[o];
    if slot < |v.buffers| && v.buffers[slot].Held? then
      s.(surfaces := s.surfaces[o := v.(buffers := v.buffers[slot := Free(v.buffers[slot].size)])])
    else s
  }

  ghost function Step(s: State, e: Event): State {
    match e
    case Present(o, frame, wait, reply, _, _) => OnPresent(s, e).(taken := s.taken[reply := Request(o, frame, wait)])
    case Clear(o) => OnClear(s, o)
    case CancelFrame(o) => OnCancel(s, o)
    case Shutdown => s.(stop := true)
    case Configure(id, size, _, _) =>
      if size.width == 0 || size.height == 0 || Owner(s, id).None? then s
      else OnConfigure(s, Owner(s, id).value, e)
    case FrameDone(id) => if Owner(s, id).None? then s else OnFrameDone(s, Owner(s, id).value)
    case Closed(id) => if Owner(s, id).None? then s else Vanish(s, Owner(s, id).value, ClosedEvent(Owner(s, id).value))
    case OutputNew(id, name) =>
      if name.None? then s
      else s.(outputNames := s.outputNames[id := name.value], events := s.events + [OutputAdded(name.value)])
    case OutputUpdate(id, name) => if name.None? then s else s.(outputNames := s.outputNames[id := name.value])
    case OutputDestroyed(id) =>
      if id !in s.outputNames then s
      else Vanish(s.(outputNames := s.outputNames - {id}), s.outputNames[id], OutputRemoved(s.outputNames[id]))
    case BufferReleased(id, slot) => if Owner(s, id).None? then s else OnReleased(s, Owner(s, id).value, slot)
  }

  /** What the environment guarantees: a present brings its own fresh reply channel, and the compositor never
      gives a new surface the protocol id of a living one. */
  ghost predicate Allowed(s: State, e: Event) {
    e.Present? ==> e.reply !in s.taken && (e.create.Created? ==> forall o :: !Owns(s, e.create.surfaceId, o))
  }

  // ------------------------------------------------------------------ invariants

  /** The part of the state the surface table invariant is about. */
  datatype Table = Table(maxBuffers: nat, surfaces: map<Name, SurfaceView>, parked: set<Name>, waiting: set<Name>)

  function TableOf(s: State): Table {
    Table(s.maxBuffers, s.surfaces, s.pending.Keys, s.waiters.Keys)
  }

  /** Who may wait, how many slots each ring has, and what is in them. */
  ghost predicate TableOk(t: Table) {
    && 1 <= t.maxBuffers <= MAX_BUFFERS
    && t.parked <= t.surfaces.Keys
    && t.waiting <= t.surfaces.Keys
    && (forall o :: o in t.surfaces ==> RingOk(t.surfaces[o], t.maxBuffers))
    && (forall o :: o in t.waiting ==> t.surfaces[o].size.Some?)
    && (forall o, p :: o in t.surfaces && p in t.surfaces && t.surfaces[o].surfaceId == t.surfaces[p].surfaceId ==>
        o == p)
  }

  ghost predicate RingOk(v: SurfaceView, maxBuffers: nat) {
    && |v.buffers| == maxBuffers && SizedRing(v)
    && (v.size.Some? ==> v.size.value.width > 0 && v.size.value.height > 0)
  }

  ghost predicate CommitsMatch(commits: seq<Commit>) {
    forall i :: 0 <= i < |commits| ==> commits[i].configured == Some(commits[i].frame)
  }

  ghost predicate IsParked(pending: map<Name, Pending>, r: ReplyId) {
    exists o :: o in pending && pending[o].reply == r
  }

  ghost predicate IsWaiting(waiters: map<Name, Waiter>, r: ReplyId) {
    exists o :: o in waiters && waiters[o].reply == r
  }

  ghost predicate IsAnswered(sent: seq<Sent>, r: ReplyId) {
    exists i :: 0 <= i < |sent| && sent[i].reply == r
  }

  /** Everything a reply can be in. */
  datatype Book = Book(pending: map<Name, Pending>, waiters: map<Name, Waiter>, sent: seq<Sent>, dropped: set<ReplyId>)

  function BookOf(s: State): Book {
    Book(s.pending, s.waiters, s.sent, s.dropped)
  }

  /** No reply is in two places, none is answered twice, and only the replies in `live` are anywhere. */
  ghost predicate Linear(b: Book, live: set<ReplyId>) {
    && (forall o :: o in b.pending ==> var r := b.pending[o].reply;
          r in live && !IsWaiting(b.waiters, r) && !IsAnswered(b.sent, r) && r !in b.dropped)
    && (forall o :: o in b.waiters ==> var r := b.waiters[o].reply;
          r in live && !IsAnswered(b.sent, r) && r !in b.dropped)
    && (forall o, p :: o in b.pending && p in b.pending && b.pending[o].reply == b.pending[p].reply ==> o == p)
    && (forall o, p :: o in b.waiters && p in b.waiters && b.waiters[o].reply == b.waiters[p].reply ==> o == p)
    && (forall i, j :: 0 <= i < j < |b.sent| ==> b.sent[i].reply != b.sent[j].reply)
    && (forall i :: 0 <= i < |b.sent| ==> b.sent[i].reply in live && b.sent[i].reply !in b.dropped)
    && b.dropped <= live
  }

  /** Every reply in `live` is somewhere. */
  ghost predicate Complete(b: Book, live: set<ReplyId>) {
    forall r :: r in live ==>
        IsParked(b.pending, r) || IsWaiting(b.waiters, r) || IsAnswered(b.sent, r) || r in b.dropped
  }

  /** The replies in `live` are each in exactly one place. */
  ghost predicate Accounted(b: Book, live: set<ReplyId>) {
    Linear(b, live) && Complete(b, live)
  }

  ghost predicate Inv(s: State) {
    TableOk(TableOf(s)) && CommitsMatch(s.commits) && Accounted(BookOf(s), s.taken.Keys)
  }
}
