/**
  The state machine of one output: what it renders, what it presents, when it sleeps.
  (crates/owe-core/src/worker.rs)
 */
module OutputWorker {
  import opened Prelude

  datatype WorkerState =
    | Idle
    | Preparing(generation: nat, size: Size)
    | Presented(generation: nat, size: Size)
    | Reconfigured(generation: nat, size: Size)
    | Failed(reason: string)
  {
    predicate HoldsPixels() {
      Preparing? || Presented? || Reconfigured?
    }

    predicate IsWorking() {
      Preparing? || Reconfigured?
    }
  }

  /** `Cleared` is a call of `clear`; the others are the events of `on`. */
  datatype Event =
    | Applied(generation: nat, size: Size)
    | Prepared(generation: nat)
    | Acknowledged(generation: nat, size: Size)
    | Configured(size: Size)
    | SurfaceClosed
    | Broken(generation: nat, reason: string)
    | Cleared

  datatype Action = Render(generation: nat, size: Size) | Present(generation: nat, size: Size) | DropPixels | Nothing

  datatype Worker = Worker(state: WorkerState, generation: nat)

  function Start(): Worker {
    Worker(Idle, 0)
  }

  function AfterConfigure(w: Worker, size: Size): Worker {
    match w.state
    case Presented(g, current) => if current != size then w.(state := Reconfigured(g, size)) else w
    case Preparing(g, _) => w.(state := Preparing(g, size))
    case Reconfigured(g, _) => w.(state := Reconfigured(g, size))
    case _ => w.(state := Idle)
  }

  function OnConfigure(w: Worker, size: Size): Action {
    match w.state
    case Presented(g, current) => if current != size then Render(g, size) else Nothing
    case Preparing(g, _) => Render(g, size)
    case Reconfigured(g, _) => Render(g, size)
    case _ => Nothing
  }

  function After(w: Worker, e: Event): Worker {
    match e
    case Applied(g, size) => if g <= w.generation then w else Worker(Preparing(g, size), g)
    case Prepared(_) => w
    case Acknowledged(g, size) =>
      if w.state.IsWorking() && w.state.generation == g then w.(state := Presented(g, size)) else w
    case Configured(size) => AfterConfigure(w, size)
    case SurfaceClosed => w.(state := Idle)
    case Broken(g, reason) => if g < w.generation then w else w.(state := Failed(reason))
    case Cleared => w.(state := Idle)
  }

  function Act(w: Worker, e: Event): Action {
    match e
    case Applied(g, size) => if g <= w.generation then Nothing else Render(g, size)
    case Prepared(g) => if w.state.IsWorking() && w.state.generation == g then Present(g, w.state.size) else Nothing
    case Acknowledged(_, _) => Nothing
    case Configured(size) => OnConfigure(w, size)
    case SurfaceClosed => DropPixels
    case Broken(g, _) => if g < w.generation then Nothing else DropPixels
    case Cleared => DropPixels
  }

  // ------------------------------------------------------------------ one step

  /** Pixels are given up only on the action that says so, which answers a clear, a close or a failure that is not
      stale. */
  lemma PixelsGoWithNotice(w: Worker, e: Event)
    ensures w.state.HoldsPixels() && !After(w, e).state.HoldsPixels() ==> Act(w, e) == DropPixels
    ensures Act(w, e) == DropPixels ==> !After(w, e).state.HoldsPixels()
    ensures Act(w, e) == DropPixels <==> e.SurfaceClosed? || e.Cleared? || (e.Broken? && e.generation >= w.generation)
  {
  }

  /** A worker that sleeps is woken by a newer wallpaper or, with one on screen, by a different size; by nothing
      else. */
  lemma OnlyNewsWakes(w: Worker, e: Event)
    requires !w.state.IsWorking()
    ensures Act(w, e).Render? || Act(w, e).Present?
            <==> || (e.Applied? && e.generation > w.generation)
                 || (e.Configured? && w.state.Presented? && w.state.size != e.size)
  {
  }

  // ------------------------------------------------------------------ whole runs

  function Run(events: seq<Event>): Worker {
    if events == [] then Start() else After(Run(events[..|events| - 1]), events[|events| - 1])
  }

  /** What the worker did at step `i` of the run. */
  function ActionAt(events: seq<Event>, i: nat): Action
    requires i < |events|
  {
    Act(Run(events[..i]), events[i])
  }

  /** The newest wallpaper asked for. */
  function MaxApplied(events: seq<Event>): nat {
    if events == [] then 0 else
    var before, e := MaxApplied(events[..|events| - 1]), events[|events| - 1];
    if e.Applied? && e.generation > before then e.generation else before
  }

  /** The last `Render` of the run. */
  function LastRender(events: seq<Event>): Option<Action> {
    if events == [] then None else
    var action := ActionAt(events, |events| - 1);
    if action.Render? then Some(action) else LastRender(events[..|events| - 1])
  }

  /** The counter is the newest generation; whatever holds pixels holds those; work in hand is the last thing
      rendered. */
  lemma {:induction false} StateFollowsRequests(events: seq<Event>)
    ensures var w := Run(events);
            && w.generation == MaxApplied(events)
            && (w.state.HoldsPixels() ==> w.state.generation == MaxApplied(events) > 0)
            && (w.state.IsWorking() ==> LastRender(events) == Some(Render(w.state.generation, w.state.size)))
  {
    if events != [] {
      var early := events[..|events| - 1];
      StateFollowsRequests(early);
      assert ActionAt(events, |events| - 1) == Act(Run(early), events[|events| - 1]);
    }
  }

  /** `MaxApplied` is a maximum: no wallpaper asked for is newer, and it was asked for unless none was. */
  lemma {:induction false} MaxIsNewest(events: seq<Event>)
    ensures forall k :: 0 <= k < |events| && events[k].Applied? ==> events[k].generation <= MaxApplied(events)
    ensures MaxApplied(events) == 0 || IsApplied(events, MaxApplied(events))
  {
    if events != [] {
      var early, last := events[..|events| - 1], events[|events| - 1];
      MaxIsNewest(early);
      if IsApplied(early, MaxApplied(early)) {
        var k :| 0 <= k < |early| && early[k].Applied? && early[k].generation == MaxApplied(early);
        assert events[k] == early[k];
      }
      assert forall k :: 0 <= k < |early| ==> events[k] == early[k];
      assert last.Applied? ==> IsApplied(events, last.generation);
    }
  }

  /** Generation `g` has been asked for. */
  ghost predicate IsApplied(events: seq<Event>, g: nat) {
    exists k :: 0 <= k < |events| && events[k].Applied? && events[k].generation == g
  }

  /** No stale wallpaper reaches the screen: the generation that is presented was asked for, nothing newer has been
      asked for by then, and it is presented at the size last rendered. */
  lemma NoStaleFrame(events: seq<Event>, i: nat)
    requires i < |events| && ActionAt(events, i).Present?
    ensures var g := ActionAt(events, i).generation;
            && (forall k :: 0 <= k < i && events[k].Applied? ==> events[k].generation <= g)
            && IsApplied(events[..i], g) && g == MaxApplied(events[..i])
    ensures LastRender(events[..i]) == Some(Render(ActionAt(events, i).generation, ActionAt(events, i).size))
  {
    StateFollowsRequests(events[..i]);
    MaxIsNewest(events[..i]);
    assert forall k :: 0 <= k < i ==> events[..i][k] == events[k];
  }

  /** Step `k` renders generation `g`. */
  predicate Renders(events: seq<Event>, k: nat, g: nat)
    requires k < |events|
  {
    ActionAt(events, k).Render? && ActionAt(events, k).generation == g
  }

  lemma {:induction false} LastRenderHappened(events: seq<Event>, i: nat)
    requires i <= |events| && LastRender(events[..i]).Some?
    ensures exists k :: 0 <= k < i && ActionAt(events, k) == LastRender(events[..i]).value
  {
    var last := i - 1;
    assert events[..i][..last] == events[..last];
    assert ActionAt(events[..i], last) == ActionAt(events, last);
    if !ActionAt(events, last).Render? {
      LastRenderHappened(events, last);
    }
  }

  /**
    A prepared frame comes without its size and may answer any Render of its generation. The size it is presented at
    is that of every one of them, and so its own, exactly when all of them asked for the same size.
   */
  lemma PresentedAtItsOwnSize(events: seq<Event>, i: nat)
    requires i < |events| && ActionAt(events, i).Present?
    ensures var (g, size) := (ActionAt(events, i).generation, ActionAt(events, i).size);
            && (exists k :: 0 <= k < i && ActionAt(events, k) == Render(g, size))
            && ((forall k :: 0 <= k < i && Renders(events, k, g) ==> ActionAt(events, k).size == size)
                <==> (forall j, k :: 0 <= j < i && 0 <= k < i && Renders(events, j, g) && Renders(events, k, g) ==>
                        ActionAt(events, j).size == ActionAt(events, k).size))
  {
    NoStaleFrame(events, i);
    LastRenderHappened(events, i);
    hide ActionAt;
    var last :| 0 <= last < i && ActionAt(events, last) == LastRender(events[..i]).value;
    assert Renders(events, last, ActionAt(events, i).generation);
  }

  /** It can be another one: the answer to the first Render arrives after a configure and is presented at the new
      size. */
  lemma LateAnswerTakesTheNewSize(g: nat, size: Size, other: Size)
    requires g > 0 && size != other
    ensures var events := [Applied(g, size), Configured(other), Prepared(g)];
            && ActionAt(events, 0) == Render(g, size) && ActionAt(events, 1) == Render(g, other)
            && ActionAt(events, 2) == Present(g, other)
  {
    var events := [Applied(g, size), Configured(other), Prepared(g)];
    var one, two := [Applied(g, size)], [Applied(g, size), Configured(other)];
    assert events[..0] == one[..0] == [] && events[..1] == two[..1] == one && events[..2] == two;
    assert Run(one) == Worker(Preparing(g, size), g);
    assert Run(two) == Worker(Preparing(g, other), g);
  }

  /** And what is rendered is the newest wallpaper too. */
  lemma RenderIsNewest(events: seq<Event>, i: nat)
    requires i < |events| && ActionAt(events, i).Render?
    ensures var g := ActionAt(events, i).generation;
            && (forall k :: 0 <= k <= i && events[k].Applied? ==> events[k].generation <= g)
            && IsApplied(events[..i + 1], g) && g == MaxApplied(events[..i + 1])
  {
    StateFollowsRequests(events[..i]);
    MaxIsNewest(events[..i + 1]);
    assert events[..i + 1][..i] == events[..i];
    assert forall k :: 0 <= k <= i ==> events[..i + 1][k] == events[k];
  }

  /** The size on screen. */
  function OnScreen(w: Worker): Option<Size> {
    if w.state.Presented? then Some(w.state.size) else None
  }

  /** A wallpaper newer than `newest`, or a size other than the one on screen. */
  predicate News(e: Event, newest: nat, shown: Option<Size>) {
    || (e.Applied? && e.generation > newest)
    || (e.Configured? && shown.Some? && shown.value != e.size)
  }

  /**
    A sleeping worker draws nothing until there is news, whatever else it is told: up to then it shows what it showed or
    nothing at all. The first news, and nothing before it, makes it draw; a new size only if it still shows something.
   */
  lemma {:induction false} SleepsUntilNews(events: seq<Event>, i: nat, j: nat)
    requires i <= j < |events| && !Run(events[..i]).state.IsWorking()
    requires var w := Run(events[..i]);
             forall k :: i <= k < j ==> !News(events[k], MaxApplied(events[..i]), OnScreen(w))
    ensures var w, now := Run(events[..i]), Run(events[..j]);
            && (now.state == w.state || !now.state.HoldsPixels()) && now.generation == w.generation
            && ((ActionAt(events, j).Render? || ActionAt(events, j).Present?)
                <==> News(events[j], MaxApplied(events[..i]), OnScreen(w))
                     && (events[j].Applied? || now.state == w.state))
    decreases j
  {
    StateFollowsRequests(events[..i]);
    if i < j {
      SleepsUntilNews(events, i, j - 1);
      assert events[..j][..j - 1] == events[..j - 1];
      hide MaxApplied;
      OnlyNewsWakes(Run(events[..j - 1]), events[j - 1]);
    }
    OnlyNewsWakes(Run(events[..j]), events[j]);
  }

  /** A worker without pixels stays without until something newer is applied. */
  lemma {:induction false} StaysDark(events: seq<Event>, i: nat, j: nat)
    requires i <= j <= |events| && !Run(events[..i]).state.HoldsPixels()
    requires forall k :: i <= k < j && events[k].Applied? ==> events[k].generation <= MaxApplied(events[..i])
    ensures !Run(events[..j]).state.HoldsPixels() && MaxApplied(events[..j]) == MaxApplied(events[..i])
  {
    if i < j {
      StaysDark(events, i, j - 1);
      StateFollowsRequests(events[..j - 1]);
      assert events[..j][..j - 1] == events[..j - 1];
    }
  }

  /**
    Once pixels have been dropped — cleared, closed or failed — nothing is rendered or presented until a wallpaper
    newer than every one before is applied.
   */
  lemma NothingAfterDropping(events: seq<Event>, i: nat, j: nat)
    requires i < j < |events| && ActionAt(events, i).DropPixels?
    requires forall k :: i < k <= j && events[k].Applied? ==> events[k].generation <= MaxApplied(events[..i + 1])
    ensures !ActionAt(events, j).Render? && !ActionAt(events, j).Present?
  {
    assert events[..i + 1][..i] == events[..i];
    PixelsGoWithNotice(Run(events[..i]), events[i]);
    StaysDark(events, i + 1, j);
    StateFollowsRequests(events[..j]);
  }

  /** The acknowledged size is believed, not checked: it need not be a size that was ever rendered. */
  lemma AcknowledgedSizeIsBelieved(g: nat, size: Size, other: Size)
    requires g > 0 && size != other
    ensures var events := [Applied(g, size), Acknowledged(g, other)];
            Run(events).state == Presented(g, other) && LastRender(events) == Some(Render(g, size))
  {
    var events := [Applied(g, size), Acknowledged(g, other)];
    var one := [Applied(g, size)];
    assert one[..0] == [] && events[..1] == one;
    assert Run(one) == Worker(Preparing(g, size), g);
    assert ActionAt(one, 0) == Render(g, size) && LastRender(one) == Some(Render(g, size));
    assert ActionAt(events, 1) == Nothing;
  }

  /** A step that ends the work in hand with a frame on screen. */
  ghost predicate Finishes(events: seq<Event>, i: nat)
    requires i < |events|
  {
    Run(events[..i]).state.IsWorking() && Run(events[..i + 1]).state.Presented?
  }

  /**
    Whose acknowledgement counts. Work is finished by exactly those acknowledgements that name the generation in hand,
    whether it is the first frame or one for a new size, and finished with the size they name; every other
    acknowledgement changes nothing at all.
   */
  lemma OwnAcknowledgementFinishes(events: seq<Event>, i: nat)
    requires i < |events|
    ensures var w, t := Run(events[..i]), Run(events[..i + 1]);
            && (Finishes(events, i) <==>
                  events[i].Acknowledged? && w.state.IsWorking() && w.state.generation == events[i].generation)
            && (Finishes(events, i) ==> t.state == Presented(events[i].generation, events[i].size))
            && (events[i].Acknowledged? && !Finishes(events, i) ==> t == w)
            && t.generation >= w.generation
  {
    assert events[..i + 1][..i] == events[..i];
  }

  // ------------------------------------------------------------------ cause and effect

  /** What can have brought a worker into `state`. */
  predicate Causes(w: Worker, e: Event, state: WorkerState) {
    match state
    case Idle => e.SurfaceClosed? || e.Cleared? || (e.Configured? && w.state.Failed?)
    case Preparing(g, size) =>
      || (e == Applied(g, size) && g > w.generation)
      || (e == Configured(size) && w.state.Preparing? && w.state.generation == g)
    case Presented(g, size) => e == Acknowledged(g, size) && w.state.IsWorking() && w.state.generation == g
    case Reconfigured(g, size) =>
      e == Configured(size) && (w.state.Presented? || w.state.Reconfigured?) && w.state.generation == g
    case Failed(reason) => e.Broken? && e.reason == reason && e.generation >= w.generation
  }

  /** Step `k` brought the worker into the state it is in, where it has been ever since. */
  ghost predicate EnteredAt(events: seq<Event>, k: nat)
    requires k < |events|
  {
    && Causes(Run(events[..k]), events[k], Run(events).state)
    && forall j :: k < j <= |events| ==> Run(events[..j]).state == Run(events).state
  }

  lemma StillThere(events: seq<Event>, k: nat)
    requires k < |events| - 1 && EnteredAt(events[..|events| - 1], k)
    requires Run(events).state == Run(events[..|events| - 1]).state
    ensures EnteredAt(events, k)
  {
    var early := events[..|events| - 1];
    hide Run, Causes;
    assert events[k] == early[k] && events[..k] == early[..k];
    forall j | k < j <= |events| ensures Run(events[..j]).state == Run(events).state {
      if j < |events| { assert events[..j] == early[..j]; } else { assert events[..j] == events; }
    }
  }

  /** Every state has its cause, unless nothing has ever happened: the last event that changed the state was one that
      can, with the generation, the size and the reason that the state shows. */
  lemma {:induction false} StateHasItsCause(events: seq<Event>)
    ensures (exists k :: 0 <= k < |events| && EnteredAt(events, k))
            || AlwaysIdle(events)
  {
    if events == [] {
      assert events[..0] == events;
    } else {
      var n := |events| - 1;
      StateHasItsCause(events[..n]);
      if Run(events).state != Run(events[..n]).state {
        assert EnteredAt(events, n) by { assert events[..n + 1] == events; }
      } else if k :| 0 <= k < n && EnteredAt(events[..n], k) {
        StillThere(events, k);
      } else {
        StillIdle(events);
      }
    }
  }

  ghost predicate AlwaysIdle(events: seq<Event>) {
    forall j :: 0 <= j <= |events| ==> Run(events[..j]).state == Idle
  }

  lemma StillIdle(events: seq<Event>)
    requires events != [] && AlwaysIdle(events[..|events| - 1])
    requires Run(events).state == Run(events[..|events| - 1]).state
    ensures AlwaysIdle(events)
  {
    hide Run;
    var n := |events| - 1;
    assert events[..n][..n] == events[..n];
    forall j | 0 <= j <= |events| ensures Run(events[..j]).state == Idle {
      if j <= n { assert events[..j] == events[..n][..j]; } else { assert events[..j] == events; }
    }
  }

  /** What a worker shows was acknowledged while it was in hand: the generation and the size are those of such an
      acknowledgement, and the worker has shown just that ever since. */
  lemma ShownWasAcknowledged(events: seq<Event>)
    requires Run(events).state.Presented?
    ensures var state := Run(events).state;
            exists k :: 0 <= k < |events| && events[k] == Acknowledged(state.generation, state.size)
                        && Finishes(events, k) && EnteredAt(events, k)
  {
    StateHasItsCause(events);
    assert events[..|events|] == events;
    var k :| 0 <= k < |events| && EnteredAt(events, k);
    assert Run(events[..k + 1]).state == Run(events).state;
  }

  /**
    What each event does, and whether it is heeded at all: a wallpaper if it is newer than every one before, a prepared
    frame if it is of the generation in hand, a failure if nothing newer than its generation has been asked for, a size
    if it differs from the one on screen or work is in hand, a clear and a close always.
   */
  lemma EveryEventHasItsEffect(events: seq<Event>, i: nat)
    requires i < |events|
    ensures var w, t, a := Run(events[..i]), Run(events[..i + 1]), ActionAt(events, i);
            var newest := MaxApplied(events[..i]);
            match events[i]
            case Applied(g, size) =>
              if g > newest then t.state == Preparing(g, size) && a == Render(g, size) else t == w && a == Nothing
            case Prepared(g) =>
              t == w && a == if w.state.IsWorking() && g == newest then Present(g, w.state.size) else Nothing
            case Acknowledged(_, _) => a == Nothing
            case Configured(size) =>
              if w.state.IsWorking() then t.state == w.state.(size := size) && a == Render(newest, size)
              else if !w.state.Presented? then t.state == Idle && a == Nothing
              else if w.state.size != size then t.state == Reconfigured(newest, size) && a == Render(newest, size)
              else t == w && a == Nothing
            case Broken(g, reason) =>
              if g >= newest then t.state == Failed(reason) && a == DropPixels else t == w && a == Nothing
            case _ => t.state == Idle && a == DropPixels
  {
    StateFollowsRequests(events[..i]);
    assert events[..i + 1][..i] == events[..i];
    hide MaxApplied, LastRender;
  }

  // ------------------------------------------------------------------ the object

  class OutputWorker {
    const output: string
    var state: WorkerState
    var generation: nat

    ghost function View(): Worker
      reads this
    {
      Worker(state, generation)
    }

    constructor (output: string)
      ensures View() == Start() && this.output == output
    {
      this.output := output;
      state, generation := Idle, 0;
    }

    method On(event: Event) returns (action: Action)
      modifies this
      ensures View() == After(old(View()), event) && action == Act(old(View()), event)
      ensures event.Acknowledged? && !(old(state).IsWorking() && old(state).generation == event.generation) ==>
                View() == old(View())
      ensures event.Acknowledged? && old(state).IsWorking() && old(state).generation == event.generation ==>
                state == Presented(event.generation, event.size)
    {
      match event {
        case Applied(g, size) => action := Apply(g, size);
        case Prepared(g) =>
          action := Nothing;
          if state.IsWorking() && state.generation == g {
            action := Present(g, state.size);
          }
        case Acknowledged(g, size) =>
          if state.IsWorking() && state.generation == g {
            state := Presented(g, size);
          }
          action := Nothing;
        case Configured(size) => action := Configure(size);
        case SurfaceClosed =>
          state := Idle;
          action := DropPixels;
        case Broken(g, reason) =>
          if g < generation {
            return Nothing;
          }
          state := Failed(reason);
          action := DropPixels;
        case Cleared => action := Clear();
      }
    }

    method Apply(g: nat, size: Size) returns (action: Action)
      modifies this
      ensures View() == After(old(View()), Applied(g, size)) && action == Act(old(View()), Applied(g, size))
    {
      if g <= generation {
        return Nothing;
      }
      generation := g;
      state := Preparing(g, size);
      return Render(g, size);
    }

    method Configure(size: Size) returns (action: Action)
      modifies this
      ensures View() == AfterConfigure(old(View()), size) && action == OnConfigure(old(View()), size)
    {
      match state {
        case Presented(g, current) =>
          if current == size {
            return Nothing;
          }
          state := Reconfigured(g, size);
          return Render(g, size);
        case Preparing(g, _) =>
          state := Preparing(g, size);
          return Render(g, size);
        case Reconfigured(g, _) =>
          state := Reconfigured(g, size);
          return Render(g, size);
        case _ =>
          state := Idle;
          return Nothing;
      }
    }

    method Clear() returns (action: Action)
      modifies this
      ensures View() == After(old(View()), Cleared) && action == DropPixels
    {
      state := Idle;
      return DropPixels;
    }
  }
}
