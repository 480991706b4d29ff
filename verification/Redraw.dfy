/** The per-output redraw protocol of the TTY backend (`src/backend/tty.rs`, `src/swayward.rs`,
    `src/swayward/render.rs`).

    `Step` gives every event its effect, with `Panic` where the code has `unreachable!()` or `assert!`.
    `OutputState` is the mutable state the backend works on; each of its methods is proved to do one `Step`.
  */
module Redraw {

  /** A registration token of an event-loop timer. */
  type Token = nat

  datatype RedrawState =
    | Idle
    | Queued
    | WaitingForVBlank(redrawNeeded: bool)
    | WaitingForEstimatedVBlank(token: Token)
    | WaitingForEstimatedVBlankAndQueued(token: Token)

  function QueueRedraw(s: RedrawState): RedrawState {
    match s
    case Idle => Queued
    case WaitingForEstimatedVBlank(token) => WaitingForEstimatedVBlankAndQueued(token)
    case Queued => s
    case WaitingForEstimatedVBlankAndQueued(_) => s
    case WaitingForVBlank(_) => WaitingForVBlank(true)
  }

  /** What a render call meets on its way. */
  datatype RenderPath =
    | EarlySkip     // no device, no surface, inactive DRM device or no renderer
    | FrameQueued   // damage, and KMS accepted the frame
    | QueueFailed   // damage, and KMS refused the frame
    | EmptyDamage   // nothing to draw
    | RenderFailed  // rendering returned an error

  datatype RenderResult = Submitted | NoDamage | Skipped

  datatype Event =
    | Request
    | Redraw(monitorsActive: bool, animating: bool, path: RenderPath)
    | VBlank
    | TimerFires(token: Token)
    | SetPower(on: bool)

  /** One output as the event loop sees it: `timers` are the estimated-vblank timers registered for it,
      `inFlight` says that KMS holds a frame whose vblank has not been delivered. */
  datatype Output = Output(
    redraw: RedrawState,
    unfinishedAnimations: bool,
    sequence: nat,
    powered: bool,
    timers: set<Token>,
    nextToken: Token,
    inFlight: bool
  )

  const SEQUENCE_MODULUS: nat := 0x1_0000_0000

  function NextSequence(n: nat): nat {
    (n + 1) % SEQUENCE_MODULUS
  }

  function NewOutput(powered: bool, nextToken: Token): Output {
    Output(Idle, false, 0, powered, {}, nextToken, false)
  }

  datatype Outcome = Ok(output: Output) | Panic

  predicate Renderable(s: RedrawState) {
    s.Queued? || s.WaitingForEstimatedVBlankAndQueued?
  }

  predicate Estimated(s: RedrawState) {
    s.WaitingForEstimatedVBlank? || s.WaitingForEstimatedVBlankAndQueued?
  }

  // ----- Steps

  function SubmitFrame(o: Output): Outcome {
    var submitted := o.(
      redraw := WaitingForVBlank(false),
      sequence := NextSequence(o.sequence),
      inFlight := true
    );
    match o.redraw
    case Queued => Ok(submitted)
    case WaitingForEstimatedVBlankAndQueued(token) => Ok(submitted.(timers := o.timers - {token}))
    case _ => Panic
  }

  function QueueEstimatedTimer(o: Output): Outcome {
    match o.redraw
    case Queued =>
      Ok(o.(
        redraw := WaitingForEstimatedVBlank(o.nextToken),
        timers := o.timers + {o.nextToken},
        nextToken := o.nextToken + 1
      ))
    case WaitingForEstimatedVBlank(token) => Ok(o)
    case WaitingForEstimatedVBlankAndQueued(token) => Ok(o.(redraw := WaitingForEstimatedVBlank(token)))
    case _ => Panic
  }

  function ResultOf(path: RenderPath): RenderResult {
    match path
    case FrameQueued => Submitted
    case EmptyDamage => NoDamage
    case _ => Skipped
  }

  function Render(o: Output, path: RenderPath): Outcome {
    match path
    case EarlySkip => Ok(o)
    case FrameQueued => SubmitFrame(o)
    case _ => QueueEstimatedTimer(o)
  }

  /** Bookkeeping after a render that did not produce a frame. */
  function AfterSkip(s: RedrawState): RedrawState {
    match s
    case WaitingForEstimatedVBlank(token) => s
    case WaitingForEstimatedVBlankAndQueued(token) => WaitingForEstimatedVBlank(token)
    case _ => Idle
  }

  function RedrawOutput(o: Output, monitorsActive: bool, animating: bool, path: RenderPath): Outcome {
    if !Renderable(o.redraw) then Panic
    else if !(monitorsActive && o.powered) then Ok(o.(redraw := AfterSkip(o.redraw)))
    else
      match Render(o.(unfinishedAnimations := animating), path)
      case Panic => Panic
      case Ok(p) => Ok(if ResultOf(path).Skipped? then p.(redraw := AfterSkip(p.redraw)) else p)
  }

  /** Delivery of a vblank that the throttle let through. */
  function OnVBlank(o: Output): Output {
    var idle := o.(redraw := Idle, inFlight := false);
    if !o.powered then idle
    else
      var redrawNeeded := o.redraw.WaitingForVBlank? ==> o.redraw.redrawNeeded;
      if redrawNeeded || o.unfinishedAnimations then idle.(redraw := QueueRedraw(Idle)) else idle
  }

  function OnEstimatedTimer(o: Output, token: Token): Outcome {
    var fired := o.(timers := o.timers - {token}, sequence := NextSequence(o.sequence));
    match o.redraw
    case WaitingForEstimatedVBlank(_) =>
      Ok(fired.(redraw := if o.unfinishedAnimations then QueueRedraw(Idle) else Idle))
    case WaitingForEstimatedVBlankAndQueued(_) => Ok(fired.(redraw := Queued))
    case _ => Panic
  }

  function Step(o: Output, e: Event): Outcome {
    match e
    case Request => Ok(o.(redraw := QueueRedraw(o.redraw)))
    case Redraw(monitorsActive, animating, path) => RedrawOutput(o, monitorsActive, animating, path)
    case VBlank => Ok(OnVBlank(o))
    case TimerFires(token) => OnEstimatedTimer(o, token)
    case SetPower(on) => Ok(o.(powered := on, redraw := if on then QueueRedraw(o.redraw) else o.redraw))
  }

  function Run(o: Output, events: seq<Event>): Outcome
    decreases |events|
  {
    if events == [] then Ok(o)
    else
      match Step(o, events[0])
      case Panic => Panic
      case Ok(p) => Run(p, events[1..])
  }

  /** When the surroundings may produce an event: timers fire only while registered, a vblank belongs to
      a submitted frame, and `redraw_queued_outputs` only picks renderable outputs. */
  predicate Enabled(o: Output, e: Event) {
    match e
    case Redraw(_, _, _) => Renderable(o.redraw)
    case VBlank => o.inFlight
    case TimerFires(token) => token in o.timers
    case _ => true
  }

  predicate Legal(o: Output, events: seq<Event>)
    decreases |events|
  {
    events != [] ==>
      && Enabled(o, events[0])
      && (Step(o, events[0]).Ok? ==> Legal(Step(o, events[0]).output, events[1..]))
  }

  // ----- Safety over every run

  /** The stored token is the only live timer, and a frame is in flight exactly while waiting for it. */
  predicate Inv(o: Output) {
    && o.timers == (if Estimated(o.redraw) then {o.redraw.token} else {})
    && (o.inFlight <==> o.redraw.WaitingForVBlank?)
    && (forall t :: t in o.timers ==> t < o.nextToken)
    && o.sequence < SEQUENCE_MODULUS
  }

  lemma StepSafe(o: Output, e: Event)
    requires Inv(o) && Enabled(o, e)
    ensures Step(o, e).Ok? && Inv(Step(o, e).output)
  {}

  /** No legal run hits an `unreachable!()`, and the timer and frame accounting holds at its end. */
  lemma {:induction false} RunSafe(o: Output, events: seq<Event>)
    requires Inv(o) && Legal(o, events)
    ensures Run(o, events).Ok? && Inv(Run(o, events).output)
    decreases |events|
  {
    if events == [] {
    } else {
      StepSafe(o, events[0]);
      RunSafe(Step(o, events[0]).output, events[1..]);
    }
  }

  /** The timers that outlive the output when it is removed. */
  function TimersAfterRemoval(o: Output): set<Token> {
    if Estimated(o.redraw) then o.timers - {o.redraw.token} else o.timers
  }

  lemma RemovalLeavesNoTimer(powered: bool, nextToken: Token, events: seq<Event>)
    requires Legal(NewOutput(powered, nextToken), events)
    ensures Run(NewOutput(powered, nextToken), events).Ok?
    ensures TimersAfterRemoval(Run(NewOutput(powered, nextToken), events).output) == {}
  {
    RunSafe(NewOutput(powered, nextToken), events);
  }

  ghost predicate NeverPanics(o: Output) {
    forall events :: Legal(o, events) ==> Run(o, events).Ok?
  }

  /** A vblank nobody waited for is harmless exactly when no estimated-vblank timer is pending: if one is,
      its token is forgotten and the timer's own firing panics. */
  lemma RogueVBlank(o: Output)
    requires Inv(o)
    ensures NeverPanics(OnVBlank(o)) <==> !Estimated(o.redraw)
  {
    var p := OnVBlank(o);
    if Estimated(o.redraw) {
      var fire := [TimerFires(o.redraw.token)];
      assert Step(p, fire[0]) == Panic;
      assert Legal(p, fire) && !Run(p, fire).Ok?;
    } else {
      forall events | Legal(p, events)
        ensures Run(p, events).Ok?
      {
        RunSafe(p, events);
      }
    }
  }

  lemma RunFour(o: Output, a: Event, b: Event, c: Event, d: Event)
    requires Step(o, a).Ok? && Step(Step(o, a).output, b).Ok?
    requires Step(Step(Step(o, a).output, b).output, c).Ok?
    ensures Run(o, [a, b, c, d]) == Step(Step(Step(Step(o, a).output, b).output, c).output, d)
    ensures Legal(o, [a, b, c, d]) <==>
            && Enabled(o, a)
            && Enabled(Step(o, a).output, b)
            && Enabled(Step(Step(o, a).output, b).output, c)
            && Enabled(Step(Step(Step(o, a).output, b).output, c).output, d)
  {
    assert [a, b, c, d][1..] == [b, c, d] && [b, c, d][1..] == [c, d] && [c, d][1..] == [d] && [d][1..] == [];
    var third := Step(Step(Step(o, a).output, b).output, c).output;
    assert Run(third, [d]) == Step(third, d) && (Legal(third, [d]) <==> Enabled(third, d));
    var second := Step(Step(o, a).output, b).output;
    assert Run(second, [c, d]) == Run(third, [d]);
    assert Legal(second, [c, d]) <==> Enabled(second, c) && Legal(third, [d]);
  }

  /** An unexpected vblank after a frame without damage: the timer of that frame then panics. */
  lemma RogueVBlankPanics()
    ensures Run(NewOutput(true, 0), [Request, Redraw(true, false, EmptyDamage), VBlank, TimerFires(0)]) == Panic
  {
    RunFour(NewOutput(true, 0), Request, Redraw(true, false, EmptyDamage), VBlank, TimerFires(0));
  }

  // ----- No request is lost

  predicate Pending(s: RedrawState) {
    Renderable(s) || s == WaitingForVBlank(true)
  }

  /** An event that may consume a request: a render start, or a vblank while the output is off. */
  predicate Consumes(o: Output, e: Event) {
    e.Redraw? || (e.VBlank? && !o.powered)
  }

  predicate Unconsumed(o: Output, events: seq<Event>)
    decreases |events|
  {
    events != [] ==>
      && !Consumes(o, events[0])
      && (Step(o, events[0]).Ok? ==> Unconsumed(Step(o, events[0]).output, events[1..]))
  }

  lemma {:induction false} RequestStaysPending(o: Output, events: seq<Event>)
    requires Inv(o) && Pending(o.redraw) && Legal(o, events) && Unconsumed(o, events)
    ensures Run(o, events).Ok? && Pending(Run(o, events).output.redraw)
    decreases |events|
  {
    if events == [] {
    } else {
      StepSafe(o, events[0]);
      RequestStaysPending(Step(o, events[0]).output, events[1..]);
    }
  }

  /** A request stays visible until a render starts or a vblank arrives on a powered-off output. */
  lemma NoRequestLost(o: Output, events: seq<Event>)
    requires Inv(o) && Legal(o.(redraw := QueueRedraw(o.redraw)), events)
    requires Unconsumed(o.(redraw := QueueRedraw(o.redraw)), events)
    ensures var r := Run(o, [Request] + events); r.Ok? && Pending(r.output.redraw)
  {
    var requested := Step(o, Request).output;
    assert ([Request] + events)[1..] == events;
    RequestStaysPending(requested, events);
  }

  /** Among non-render events, exactly a vblank on a powered-off output drops a pending request. */
  lemma RequestDropped(o: Output, e: Event)
    requires Inv(o) && Pending(o.redraw) && Enabled(o, e) && !e.Redraw?
    ensures Step(o, e).Ok? && (Pending(Step(o, e).output.redraw) <==> !(e.VBlank? && !o.powered))
  {}

  /** A request made while a frame is in flight, after which the output is turned off: it is pending when the
      vblank comes and gone afterwards. */
  lemma DroppedRequest()
    ensures var o := Run(NewOutput(true, 0), [Request, Redraw(true, false, FrameQueued), Request, SetPower(false)]);
            && Legal(NewOutput(true, 0), [Request, Redraw(true, false, FrameQueued), Request, SetPower(false)])
            && o.Ok? && Pending(o.output.redraw) && Enabled(o.output, VBlank)
            && Step(o.output, VBlank).Ok? && Step(o.output, VBlank).output.redraw == Idle
  {
    RunFour(NewOutput(true, 0), Request, Redraw(true, false, FrameQueued), Request, SetPower(false));
  }

  /** A pending request that cannot be rendered yet becomes renderable with the vblank it waits for, and
      turning the output on always leaves a request. */
  lemma PendingBecomesRenderable(o: Output)
    requires Inv(o)
    ensures Pending(o.redraw) && !Renderable(o.redraw) && o.powered ==>
              Enabled(o, VBlank) && Renderable(OnVBlank(o).redraw)
    ensures Pending(Step(o, SetPower(true)).output.redraw)
  {}

  lemma {:induction false} RenderableStays(o: Output, events: seq<Event>)
    requires Inv(o) && Renderable(o.redraw) && Legal(o, events) && Unconsumed(o, events)
    ensures Run(o, events).Ok? && Renderable(Run(o, events).output.redraw)
    decreases |events|
  {
    if events == [] {
    } else {
      StepSafe(o, events[0]);
      RenderableStays(Step(o, events[0]).output, events[1..]);
    }
  }

  /** Over every run without a consuming event, one vblank makes a pending request renderable for good. */
  lemma {:induction false} VBlankMakesRenderable(o: Output, events: seq<Event>)
    requires Inv(o) && Pending(o.redraw) && Legal(o, events) && Unconsumed(o, events) && Has(events, VBlank)
    ensures Run(o, events).Ok? && Renderable(Run(o, events).output.redraw)
    decreases |events|
  {
    StepSafe(o, events[0]);
    var p := Step(o, events[0]).output;
    if events[0] == VBlank {
      RenderableStays(p, events[1..]);
    } else {
      var i :| 0 <= i < |events| && events[i] == VBlank;
      assert events[1..][i - 1] == VBlank;
      VBlankMakesRenderable(p, events[1..]);
    }
  }

  // ----- Frame pacing

  predicate Submits(o: Output, e: Event) {
    e.Redraw? && e.monitorsActive && o.powered && e.path.FrameQueued?
  }

  predicate Has(events: seq<Event>, e: Event) {
    exists i :: 0 <= i < |events| && events[i] == e
  }

  /** Until the vblank arrives the output keeps waiting and nothing is rendered on it. */
  lemma {:induction false} WaitsForVBlank(o: Output, events: seq<Event>)
    requires Inv(o) && o.redraw.WaitingForVBlank? && Legal(o, events) && !Has(events, VBlank)
    ensures Run(o, events).Ok? && Run(o, events).output.redraw.WaitingForVBlank?
    ensures forall i :: 0 <= i < |events| ==> !events[i].Redraw?
    decreases |events|
  {
    if events == [] {
    } else {
      StepSafe(o, events[0]);
      assert events[0] != VBlank;
      assert forall i :: 0 <= i < |events[1..]| ==> events[1..][i] == events[i + 1];
      WaitsForVBlank(Step(o, events[0]).output, events[1..]);
    }
  }

  /** Two submissions have a vblank between them. */
  lemma SubmissionsSeparated(o: Output, first: Event, between: seq<Event>, second: Event)
    requires Inv(o) && Submits(o, first) && Legal(o, [first] + between + [second])
    requires second.Redraw?
    ensures Has(between, VBlank)
  {
    var after := between + [second];
    assert [first] + between + [second] == [first] + after;
    assert ([first] + after)[1..] == after;
    StepSafe(o, first);
    var waiting := Step(o, first).output;
    if !Has(between, VBlank) {
      forall i | 0 <= i < |after|
        ensures after[i] != VBlank
      {
        if i < |between| {
          assert between[i] != VBlank;
        }
      }
      assert after[|between|] == second;
      WaitsForVBlank(waiting, after);
      assert false;
    }
  }

  function Count(b: bool): nat {
    if b then 1 else 0
  }

  /** How often a run moved into the next refresh cycle: submissions and estimated-vblank timers. */
  function Cycles(o: Output, events: seq<Event>): nat
    decreases |events|
  {
    if events == [] then 0
    else
      Count(Submits(o, events[0]) || events[0].TimerFires?) +
      match Step(o, events[0])
      case Panic => 0
      case Ok(p) => Cycles(p, events[1..])
  }

  lemma StepCountsCycle(o: Output, e: Event)
    requires Inv(o) && Enabled(o, e)
    ensures Step(o, e).Ok?
    ensures Step(o, e).output.sequence == (o.sequence + Count(Submits(o, e) || e.TimerFires?)) % SEQUENCE_MODULUS
  {}

  /** The frame callback sequence counts the refresh cycles, modulo 2^32, and nothing else. */
  lemma {:induction false} SequenceCountsCycles(o: Output, events: seq<Event>)
    requires Inv(o) && Legal(o, events)
    ensures Run(o, events).Ok?
    ensures Run(o, events).output.sequence == (o.sequence + Cycles(o, events)) % SEQUENCE_MODULUS
    decreases |events|
  {
    if events == [] {
    } else {
      var p := Step(o, events[0]).output;
      StepSafe(o, events[0]);
      StepCountsCycle(o, events[0]);
      SequenceCountsCycles(p, events[1..]);
      Wraps(o.sequence + Count(Submits(o, events[0]) || events[0].TimerFires?), Cycles(p, events[1..]));
    }
  }

  lemma Wraps(a: nat, b: nat)
    ensures (a % SEQUENCE_MODULUS + b) % SEQUENCE_MODULUS == (a + b) % SEQUENCE_MODULUS
  {}

  /** Every redraw, however it ends, leaves its output not renderable. */
  lemma RedrawIsFinal(o: Output, e: Event)
    requires Inv(o) && Enabled(o, e) && e.Redraw?
    ensures Step(o, e).Ok? && !Renderable(Step(o, e).output.redraw)
  {}

  /** One frame event away from the next render: a vblank or the estimated-vblank timer will queue it. */
  predicate Driven(o: Output) {
    || (o.inFlight && Renderable(OnVBlank(o).redraw))
    || (exists t :: t in o.timers && OnEstimatedTimer(o, t).Ok? && Renderable(OnEstimatedTimer(o, t).output.redraw))
  }

  /** A render with animations still going is followed by another one without any new request, except when
      the backend returned early while no timer was pending. */
  lemma AnimationContinuesIff(o: Output, path: RenderPath)
    requires Inv(o) && Renderable(o.redraw) && o.powered
    ensures Step(o, Redraw(true, true, path)).Ok?
    ensures Driven(Step(o, Redraw(true, true, path)).output) <==> !(path.EarlySkip? && o.redraw.Queued?)
  {
    var p := Step(o, Redraw(true, true, path)).output;
    StepSafe(o, Redraw(true, true, path));
    if Estimated(p.redraw) {
      var t := p.redraw.token;
      assert t in p.timers && Renderable(OnEstimatedTimer(p, t).output.redraw);
    }
  }

  /** An animation that stalls: its first render returns early, and nothing queues the next one. */
  lemma StalledAnimation()
    ensures var requested := Step(NewOutput(true, 0), Request).output;
            var o := Step(requested, Redraw(true, true, EarlySkip));
            Renderable(requested.redraw) && o.Ok? && o.output.redraw == Idle && o.output.unfinishedAnimations &&
            !Driven(o.output)
  {
    AnimationContinuesIff(Step(NewOutput(true, 0), Request).output, EarlySkip);
  }

  /** Without animations and without a request during the frame, the output goes idle. */
  lemma QuietOutputIdles(o: Output, path: RenderPath)
    requires Inv(o) && Renderable(o.redraw) && o.powered
    ensures Step(o, Redraw(true, false, path)).Ok?
    ensures !Driven(Step(o, Redraw(true, false, path)).output)
  {
    StepSafe(o, Redraw(true, false, path));
  }

  // ----- What a run leaves behind

  /** The power setting in force: the last one made, or the initial one. */
  function PowerAfter(initial: bool, events: seq<Event>): bool {
    if events == [] then initial
    else if events[|events| - 1].SetPower? then events[|events| - 1].on
    else PowerAfter(initial, events[..|events| - 1])
  }

  /** Whether the last redraw that was not suppressed by inactive monitors or missing power was animating. */
  function AnimatingAfter(initial: bool, powered: bool, events: seq<Event>): bool {
    if events == [] then initial
    else
      var before, e := events[..|events| - 1], events[|events| - 1];
      if e.Redraw? && e.monitorsActive && PowerAfter(powered, before) then e.animating
      else AnimatingAfter(initial, powered, before)
  }

  lemma {:induction false} RunAppend(o: Output, events: seq<Event>, e: Event)
    requires Inv(o) && Legal(o, events + [e])
    ensures Legal(o, events) && Run(o, events).Ok? && Inv(Run(o, events).output)
    ensures Enabled(Run(o, events).output, e) && Run(o, events + [e]) == Step(Run(o, events).output, e)
    decreases |events|
  {
    if events == [] {
      assert [e][1..] == [];
      assert Step(o, e).Ok? ==> Run(Step(o, e).output, []) == Ok(Step(o, e).output);
    } else {
      assert (events + [e])[0] == events[0] && (events + [e])[1..] == events[1..] + [e];
      StepSafe(o, events[0]);
      RunAppend(Step(o, events[0]).output, events[1..], e);
    }
  }

  lemma StepSettings(o: Output, e: Event)
    requires Inv(o) && Enabled(o, e)
    ensures Step(o, e).Ok?
    ensures Step(o, e).output.powered == if e.SetPower? then e.on else o.powered
    ensures Step(o, e).output.unfinishedAnimations ==
            if e.Redraw? && e.monitorsActive && o.powered then e.animating else o.unfinishedAnimations
  {}

  /** Over every legal run an output is on exactly as it was last told. */
  lemma {:induction false} PowerFollows(o: Output, events: seq<Event>)
    requires Inv(o) && Legal(o, events)
    ensures Run(o, events).Ok? && Run(o, events).output.powered == PowerAfter(o.powered, events)
    decreases |events|
  {
    if events == [] {
    } else {
      var before, e := events[..|events| - 1], events[|events| - 1];
      assert before + [e] == events;
      RunAppend(o, before, e);
      PowerFollows(o, before);
      StepSettings(Run(o, before).output, e);
    }
  }

  /** It remembers the animations of the last redraw that took place. */
  lemma {:induction false} AnimationsFollow(o: Output, events: seq<Event>)
    requires Inv(o) && Legal(o, events)
    ensures Run(o, events).Ok?
    ensures Run(o, events).output.unfinishedAnimations == AnimatingAfter(o.unfinishedAnimations, o.powered, events)
    decreases |events|
  {
    if events == [] {
    } else {
      var before, e := events[..|events| - 1], events[|events| - 1];
      assert before + [e] == events;
      RunAppend(o, before, e);
      PowerFollows(o, before);
      AnimationsFollow(o, before);
      StepSettings(Run(o, before).output, e);
    }
  }

  /** A redraw of a powered output with active monitors whose frame KMS accepts leaves exactly that frame in
      flight, no timer, and no request. */
  lemma AcceptedFrameIsInFlight(o: Output, animating: bool)
    requires Inv(o) && Renderable(o.redraw) && o.powered
    ensures var r := Step(o, Redraw(true, animating, FrameQueued));
            r.Ok? && r.output.redraw == WaitingForVBlank(false) && r.output.inFlight && r.output.timers == {}
  {}

  /** An output that is turned on again is redrawn: whatever it did before, it waits for its vblank or is
      renderable, and then its next frame is submitted. */
  lemma TurnedOnIsRedrawn(o: Output, animating: bool)
    requires Inv(o)
    ensures var p := Step(o, SetPower(true)).output;
            && p.powered && Pending(p.redraw)
            && (Renderable(p.redraw) ==>
                  Step(p, Redraw(true, animating, FrameQueued)).Ok? &&
                  Step(p, Redraw(true, animating, FrameQueued)).output.redraw == WaitingForVBlank(false) &&
                  Step(p, Redraw(true, animating, FrameQueued)).output.inFlight)
  {
    StepSafe(o, SetPower(true));
    var p := Step(o, SetPower(true)).output;
    if Renderable(p.redraw) {
      AcceptedFrameIsInFlight(p, animating);
    }
  }

  /** Turning an output off touches nothing but its power: what was pending stays pending, nothing is requested. */
  lemma TurnedOffKeepsState(o: Output)
    requires Inv(o)
    ensures var p := Step(o, SetPower(false));
            p.Ok? && !p.output.powered && p.output.redraw == o.redraw && p.output.timers == o.timers &&
            p.output.inFlight == o.inFlight && p.output.unfinishedAnimations == o.unfinishedAnimations
  {}

  /** A redraw without power or with inactive monitors submits nothing and starts no timer. */
  lemma SuppressedRedraw(o: Output, monitorsActive: bool, animating: bool, path: RenderPath)
    requires Inv(o) && Renderable(o.redraw) && !(monitorsActive && o.powered)
    ensures var r := Step(o, Redraw(monitorsActive, animating, path));
            r.Ok? && !r.output.inFlight && r.output.timers == o.timers && r.output.sequence == o.sequence
  {}

  /** What the backend reports: a frame is in flight exactly if it says so, nothing was wrong exactly if it reports
      a frame or no damage. */
  lemma ResultTells(o: Output, path: RenderPath)
    requires Inv(o) && Renderable(o.redraw)
    ensures Render(o, path).Ok?
    ensures Render(o, path).output.inFlight <==> ResultOf(path) == Submitted
    ensures ResultOf(path) == NoDamage <==> path == EmptyDamage
  {}

  // ----- The mutable output state

  class OutputState {
    var redrawState: RedrawState
    var unfinishedAnimationsRemain: bool
    var frameCallbackSequence: nat
    var powered: bool
    var timers: set<Token>
    var nextToken: Token
    ghost var inFlight: bool

    ghost function Abstract(): Output
      reads this
    {
      Output(redrawState, unfinishedAnimationsRemain, frameCallbackSequence, powered, timers, nextToken, inFlight)
    }

    ghost predicate Valid()
      reads this
    {
      Inv(Abstract())
    }

    constructor (powered: bool)
      ensures Valid() && Abstract() == NewOutput(powered, 0)
    {
      redrawState, unfinishedAnimationsRemain, frameCallbackSequence := Idle, false, 0;
      this.powered, timers, nextToken, inFlight := powered, {}, 0, false;
    }

    method RequestRedraw()
      requires Valid()
      modifies this
      ensures Valid() && Ok(Abstract()) == Step(old(Abstract()), Request)
    {
      redrawState := QueueRedraw(redrawState);
    }

    method ChangePower(on: bool)
      requires Valid()
      modifies this
      ensures Valid() && Ok(Abstract()) == Step(old(Abstract()), SetPower(on))
    {
      powered := on;
      if on {
        redrawState := QueueRedraw(redrawState);
      }
    }

    method InsertTimer() returns (token: Token)
      modifies this`timers, this`nextToken
      ensures token == old(nextToken) && nextToken == token + 1 && timers == old(timers) + {token}
    {
      token := nextToken;
      timers, nextToken := timers + {token}, nextToken + 1;
    }

    method QueueEstimatedVBlankTimer()
      requires Valid() && (redrawState.Queued? || Estimated(redrawState))
      modifies this
      ensures Valid() && Ok(Abstract()) == QueueEstimatedTimer(old(Abstract()))
    {
      var previous := redrawState;
      redrawState := Idle;
      match previous {
        case Idle => assert false;
        case Queued =>
        case WaitingForVBlank(_) => assert false;
        case WaitingForEstimatedVBlank(token) =>
          redrawState := WaitingForEstimatedVBlank(token);
          return;
        case WaitingForEstimatedVBlankAndQueued(token) =>
          redrawState := WaitingForEstimatedVBlank(token);
          return;
      }
      var token := InsertTimer();
      redrawState := WaitingForEstimatedVBlank(token);
    }

    method RenderOutput(path: RenderPath) returns (result: RenderResult)
      requires Valid() && Renderable(redrawState)
      modifies this
      ensures Valid() && Ok(Abstract()) == Render(old(Abstract()), path)
      ensures result == ResultOf(path)
    {
      result := Skipped;
      if path.EarlySkip? {
        return;
      }
      if path.FrameQueued? {
        var previous := redrawState;
        redrawState := WaitingForVBlank(false);
        match previous {
          case Idle => assert false;
          case Queued =>
          case WaitingForVBlank(_) => assert false;
          case WaitingForEstimatedVBlank(_) => assert false;
          case WaitingForEstimatedVBlankAndQueued(token) => timers := timers - {token};
        }
        inFlight := true;
        frameCallbackSequence := NextSequence(frameCallbackSequence);
        return Submitted;
      }
      if path.EmptyDamage? {
        result := NoDamage;
      }
      QueueEstimatedVBlankTimer();
    }

    method RedrawNow(monitorsActive: bool, animating: bool, path: RenderPath)
      requires Valid() && Renderable(redrawState)
      modifies this
      ensures Valid() && !Renderable(redrawState)
      ensures Ok(Abstract()) == Step(old(Abstract()), Redraw(monitorsActive, animating, path))
    {
      var result := Skipped;
      if monitorsActive && powered {
        unfinishedAnimationsRemain := animating;
        result := RenderOutput(path);
      }
      if result.Skipped? {
        redrawState := AfterSkip(redrawState);
      }
    }

    /** Also accepts a vblank that no frame was submitted for; only an estimated state suffers from it. */
    method DeliverVBlank()
      requires Valid()
      modifies this
      ensures Valid() <==> !Estimated(old(redrawState))
      ensures Ok(Abstract()) == Step(old(Abstract()), VBlank)
    {
      inFlight := false;
      if !powered {
        redrawState := Idle;
        return;
      }
      var previous := redrawState;
      redrawState := Idle;
      var redrawNeeded := true;
      if previous.WaitingForVBlank? {
        redrawNeeded := previous.redrawNeeded;
      }
      if redrawNeeded || unfinishedAnimationsRemain {
        redrawState := QueueRedraw(redrawState);
      }
    }

    method FireEstimatedVBlankTimer(token: Token)
      requires Valid() && token in timers
      modifies this
      ensures Valid() && Ok(Abstract()) == Step(old(Abstract()), TimerFires(token))
    {
      timers := timers - {token};
      frameCallbackSequence := NextSequence(frameCallbackSequence);
      var previous := redrawState;
      redrawState := Idle;
      match previous {
        case Idle => assert false;
        case Queued => assert false;
        case WaitingForVBlank(_) => assert false;
        case WaitingForEstimatedVBlank(_) =>
        case WaitingForEstimatedVBlankAndQueued(_) =>
          redrawState := Queued;
          return;
      }
      if unfinishedAnimationsRemain {
        redrawState := QueueRedraw(redrawState);
      }
    }
  }

  /** `after` results from exactly one redraw of `before`. */
  ghost predicate RedrawnOnce(before: Output, after: Output, monitorsActive: bool) {
    exists animating, path :: Ok(after) == Step(before, Redraw(monitorsActive, animating, path))
  }

  /** Redraws until no output is renderable. This terminates because a redraw never leaves its output
      renderable; every queued output is redrawn exactly once and no other output is touched. */
  method RedrawQueuedOutputs(outputs: set<OutputState>, monitorsActive: bool)
    requires forall o :: o in outputs ==> o.Valid()
    modifies outputs
    ensures forall o :: o in outputs ==> o.Valid() && !Renderable(o.redrawState)
    ensures forall o :: o in outputs ==>
              if Renderable(old(o.redrawState))
              then RedrawnOnce(old(o.Abstract()), o.Abstract(), monitorsActive)
              else o.Abstract() == old(o.Abstract())
  {
    var queued := set o | o in outputs && Renderable(o.redrawState);
    while queued != {}
      invariant queued == set o | o in outputs && Renderable(o.redrawState)
      invariant forall o :: o in outputs ==> o.Valid()
      invariant forall o :: o in outputs ==>
                  if Renderable(o.redrawState) || !Renderable(old(o.redrawState))
                  then o.Abstract() == old(o.Abstract())
                  else RedrawnOnce(old(o.Abstract()), o.Abstract(), monitorsActive)
      decreases queued
    {
      var output :| output in queued;
      var animating: bool, path: RenderPath := *, *;
      ghost var before := output.Abstract();
      output.RedrawNow(monitorsActive, animating, path);
      assert RedrawnOnce(before, output.Abstract(), monitorsActive);
      queued := set o | o in outputs && Renderable(o.redrawState);
      assert output !in queued;
    }
  }
}
