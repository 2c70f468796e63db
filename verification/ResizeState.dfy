/**
  The aspect correction of the window in src/app.rs. The methods of
  AspectResizeState decide, idle callbacks and time-outs of the main loop come
  back to them later; nothing else runs in between.
*/
module ResizeState {
  import opened Wrappers

  const GENERATIONS: nat := 0x1_0000_0000_0000_0000

  datatype Size = Size(width: nat, height: nat)

  function Distance(a: nat, b: nat): nat {
    if a < b then b - a else a - b
  }

  predicate Close(a: Size, b: Size) {
    Distance(a.width, b.width) <= 2 && Distance(a.height, b.height) <= 2
  }

  /** Two physical pixels either way. */
  lemma CloseIff(a: Size, b: Size)
    ensures Close(a, b) <==> -2 <= a.width - b.width <= 2 && -2 <= a.height - b.height <= 2
  {
  }

  datatype Pending = Pending(target: Size, generation: nat, ignoreIntermediate: bool)

  datatype Observation = Ignore | NoSchedule | ScheduleCorrection

  type Edge = nat

  datatype Resize = Resize(
    advanced: bool,
    accepted: Size,
    pending: Option<Pending>,
    generation: nat,
    latest: Option<Size>,
    scheduled: bool,
    finalize: bool,
    direction: Option<Edge>)

  // ----------------------------------------------------------- transitions

  /** Waits for one correction of `requested`; tells whether to schedule it. */
  function Request(r: Resize, requested: Size): (Resize, Observation) {
    (r.(latest := Some(requested), scheduled := true), if r.scheduled then NoSchedule else ScheduleCorrection)
  }

  /** The pending correction is over and the window has its `actual` size. */
  function Settle(r: Resize, actual: Size): (Resize, Observation) {
    var settled := r.(accepted := actual, pending := None, latest := None, finalize := false);
    if r.finalize then Request(settled, actual) else (settled, NoSchedule)
  }

  function Observe(r: Resize, requested: Size): (Resize, Observation) {
    match r.pending
    case None => Request(r, requested)
    case Some(pending) =>
      if Close(pending.target, requested) then
        (r.(accepted := requested, pending := None, latest := None, finalize := false), NoSchedule)
      else if pending.ignoreIntermediate then (r, Ignore)
      else Settle(r, requested)
  }

  function Begin(r: Resize, target: Size, ignoreIntermediate: bool): Resize {
    var generation := (r.generation + 1) % GENERATIONS;
    r.(generation := generation, pending := Some(Pending(target, generation, ignoreIntermediate)), finalize := false)
  }

  function Expire(r: Resize, generation: nat, actual: Size): (Resize, Observation) {
    if r.pending.None? || r.pending.value.generation != generation then (r, Ignore)
    else Settle(r, actual)
  }

  function FinishDrag(r: Resize, actual: Size): (Resize, bool) {
    if r.direction.None? then (r, false)
    else if r.pending.Some? then (r.(direction := None, latest := None, finalize := true), false)
    else
      var (r', observation) := Request(r.(direction := None, finalize := false), actual);
      (r', observation.ScheduleCorrection?)
  }

  class AspectResizeState {
    var advanced: bool
    var accepted: Size
    var pendingCorrection: Option<Pending>
    var correctionGeneration: nat
    var latestRequest: Option<Size>
    var correctionScheduled: bool
    var finalizeAfterPending: bool
    var direction: Option<Edge>

    constructor (accepted: Size)
      ensures View() == Resize(false, accepted, None, 0, None, false, false, None)
    {
      advanced := false;
      this.accepted := accepted;
      pendingCorrection := None;
      correctionGeneration := 0;
      latestRequest := None;
      correctionScheduled := false;
      finalizeAfterPending := false;
      direction := None;
    }

    ghost function View(): Resize
      reads this
    {
      Resize(advanced, accepted, pendingCorrection, correctionGeneration, latestRequest, correctionScheduled,
             finalizeAfterPending, direction)
    }

    method ObserveResize(requested: Size) returns (observation: Observation)
      modifies this
      ensures (View(), observation) == Observe(old(View()), requested)
    {
      if pendingCorrection.Some? {
        var pending := pendingCorrection.value;
        if Close(pending.target, requested) {
          accepted := requested;
          pendingCorrection := None;
          latestRequest := None;
          finalizeAfterPending := false;
          return NoSchedule;
        }
        if pending.ignoreIntermediate {
          return Ignore;
        }
        accepted := requested;
        pendingCorrection := None;
        latestRequest := None;
        if finalizeAfterPending {
          finalizeAfterPending := false;
          latestRequest := Some(requested);
          if !correctionScheduled {
            correctionScheduled := true;
            return ScheduleCorrection;
          }
        }
        return NoSchedule;
      }
      latestRequest := Some(requested);
      if correctionScheduled {
        observation := NoSchedule;
      } else {
        correctionScheduled := true;
        observation := ScheduleCorrection;
      }
    }

    method BeginPendingCorrection(target: Size, ignoreIntermediate: bool) returns (generation: nat)
      modifies this
      ensures View() == Begin(old(View()), target, ignoreIntermediate) && generation == correctionGeneration
    {
      correctionGeneration := (correctionGeneration + 1) % GENERATIONS;
      generation := correctionGeneration;
      pendingCorrection := Some(Pending(target, generation, ignoreIntermediate));
      finalizeAfterPending := false;
    }

    method ExpirePendingCorrection(generation: nat, actual: Size) returns (observation: Observation)
      modifies this
      ensures (View(), observation) == Expire(old(View()), generation, actual)
    {
      if pendingCorrection.None? || pendingCorrection.value.generation != generation {
        return Ignore;
      }
      pendingCorrection := None;
      latestRequest := None;
      accepted := actual;
      if finalizeAfterPending {
        finalizeAfterPending := false;
        latestRequest := Some(actual);
        if !correctionScheduled {
          correctionScheduled := true;
          return ScheduleCorrection;
        }
      }
      observation := NoSchedule;
    }

    method FinishNativeDrag(actual: Size) returns (schedule: bool)
      modifies this
      ensures (View(), schedule) == FinishDrag(old(View()), actual)
    {
      var dragged := direction.Some?;
      direction := None;
      if !dragged {
        return false;
      }
      if pendingCorrection.Some? {
        latestRequest := None;
        finalizeAfterPending := true;
        return false;
      }
      finalizeAfterPending := false;
      latestRequest := Some(actual);
      if correctionScheduled {
        schedule := false;
      } else {
        correctionScheduled := true;
        schedule := true;
      }
    }

    /** The idle callback; `generation` is what its time-out will carry. */
    method CorrectWhenIdle(target: Size) returns (generation: Option<nat>)
      modifies this
      ensures (View(), generation) == Correct(old(View()), target)
    {
      correctionScheduled := false;
      if latestRequest.None? {
        return None;
      }
      var requested := latestRequest.value;
      latestRequest := None;
      if Close(target, requested) {
        accepted := target;
        pendingCorrection := None;
        finalizeAfterPending := false;
        return None;
      }
      var begun := BeginPendingCorrection(target, false);
      generation := Some(begun);
    }

    method SetWindowMode(advanced: bool, target: Size) returns (generation: nat)
      modifies this
      ensures View() == SetMode(old(View()), advanced, target) && generation == correctionGeneration
    {
      this.advanced := advanced;
      latestRequest := None;
      finalizeAfterPending := false;
      direction := None;
      generation := BeginPendingCorrection(target, true);
    }
  }

  /** One idle correction towards `target`, the constrained size. */
  function Correct(r: Resize, target: Size): (Resize, Option<nat>) {
    var idle := r.(scheduled := false, latest := None);
    if r.latest.None? then (idle, None)
    else if Close(target, r.latest.value) then (idle.(accepted := target, pending := None, finalize := false), None)
    else
      var begun := Begin(idle, target, false);
      (begun, Some(begun.generation))
  }

  function SetMode(r: Resize, advanced: bool, target: Size): Resize {
    Begin(r.(advanced := advanced, latest := None, finalize := false, direction := None), target, true)
  }

  // --------------------------------------------------------------- machine

  /** Corrections are numbered as they begin; the number modulo 2^64 is the
      generation that a time-out carries. `issue` is the pending one's number. */
  datatype World = World(resize: Resize, idles: nat, timeouts: set<nat>, issued: nat, issue: nat)

  datatype Event =
    | NativeResize(requested: Size)
    | StartDrag(edge: Edge)
    | EndDrag(actual: Size)
    | ChangeMode(advanced: bool, target: Size)
    | Idle(target: Size)
    | Timeout(number: nat, actual: Size)
  {
    predicate Internal() {
      Idle? || Timeout?
    }
  }

  function Add(w: World, r: Resize, scheduled: bool): World {
    w.(resize := r, idles := w.idles + if scheduled then 1 else 0)
  }

  /** A correction has begun: its time-out is armed. */
  function Armed(w: World, r: Resize): World {
    w.(resize := r, timeouts := w.timeouts + {w.issued + 1}, issued := w.issued + 1, issue := w.issued + 1)
  }

  function Next(w: World, event: Event): Option<World> {
    match event
    case NativeResize(requested) =>
      var (r, observation) := Observe(w.resize, requested);
      Some(Add(w, r, observation.ScheduleCorrection?))
    case StartDrag(edge) => Some(w.(resize := w.resize.(direction := Some(edge))))
    case EndDrag(actual) =>
      var (r, schedule) := FinishDrag(w.resize, actual);
      Some(Add(w, r, schedule))
    case ChangeMode(advanced, target) => Some(Armed(w, SetMode(w.resize, advanced, target)))
    case Idle(target) =>
      if w.idles == 0 then None
      else
        var (r, generation) := Correct(w.resize, target);
        var w' := w.(idles := w.idles - 1);
        Some(if generation.Some? then Armed(w', r) else w'.(resize := r))
    case Timeout(number, actual) =>
      if number !in w.timeouts then None
      else
        var (r, observation) := Expire(w.resize, number % GENERATIONS, actual);
        Some(Add(w.(timeouts := w.timeouts - {number}), r, observation.ScheduleCorrection?))
  }

  function Start(accepted: Size): World {
    World(Resize(false, accepted, None, 0, None, false, false, None), 0, {}, 0, 0)
  }

  function Run(w: World, events: seq<Event>): Option<World> {
    if events == [] then Some(w)
    else
      var w' := Run(w, events[..|events| - 1]);
      if w'.None? then None else Next(w'.value, events[|events| - 1])
  }

  /** One idle callback is outstanding exactly when the flag says so, nothing
      waits without one, a pending correction excludes a waiting request and has
      its time-out armed, and finalize belongs to a pending correction. */
  ghost predicate Inv(w: World) {
    var r := w.resize;
    && w.idles == (if r.scheduled then 1 else 0)
    && (r.latest.Some? ==> r.scheduled)
    && (r.pending.Some? ==> r.latest.None?)
    && (r.finalize ==> r.pending.Some?)
    && r.generation == w.issued % GENERATIONS && w.issue <= w.issued
    && (forall n | n in w.timeouts :: 1 <= n <= w.issued)
    && (r.pending.Some? ==> w.issue in w.timeouts && r.pending.value.generation == w.issue % GENERATIONS)
  }

  lemma NextGeneration(n: nat)
    ensures (n % GENERATIONS + 1) % GENERATIONS == (n + 1) % GENERATIONS
  {
  }

  lemma StepKeepsInv(w: World, event: Event)
    requires Inv(w) && Next(w, event).Some?
    ensures Inv(Next(w, event).value)
  {
    NextGeneration(w.issued);
  }

  lemma {:induction false} RunKeepsInv(w: World, events: seq<Event>)
    requires Inv(w) && Run(w, events).Some?
    ensures Inv(Run(w, events).value)
    decreases |events|
  {
    if events != [] {
      RunKeepsInv(w, events[..|events| - 1]);
      StepKeepsInv(Run(w, events[..|events| - 1]).value, events[|events| - 1]);
    }
  }

  ghost predicate Reachable(w: World, accepted: Size, events: seq<Event>) {
    Run(Start(accepted), events) == Some(w)
  }

  lemma ReachableInv(w: World, accepted: Size, events: seq<Event>)
    requires Reachable(w, accepted, events)
    ensures Inv(w)
  {
    RunKeepsInv(Start(accepted), events);
  }

  // -------------------------------------------------------------- time-outs

  /** A time-out changes the state exactly when a correction is pending whose
      generation is its own. */
  lemma TimeoutActsIff(w: World, number: nat, actual: Size)
    requires Inv(w) && number in w.timeouts
    ensures Next(w, Timeout(number, actual)).value.resize != w.resize
            <==> w.resize.pending.Some? && number % GENERATIONS == w.issue % GENERATIONS
  {
  }

  /** The pending correction's own time-out is always armed and clears it. */
  lemma OwnTimeoutClears(w: World, actual: Size)
    requires Inv(w) && w.resize.pending.Some?
    ensures Next(w, Timeout(w.issue, actual)).Some?
    ensures var r := Next(w, Timeout(w.issue, actual)).value.resize;
            r.pending.None? && r.accepted == actual && (r.latest.Some? <==> w.resize.finalize)
  {
  }

  /** A stale time-out changes nothing, unless exactly a multiple of 2^64
      corrections began after its own. */
  lemma StaleTimeout(w: World, number: nat, actual: Size)
    requires Inv(w) && number in w.timeouts && number != w.issue && w.resize.pending.Some?
    ensures var r := Next(w, Timeout(number, actual)).value.resize;
            if (w.issue - number) % GENERATIONS == 0 then r.pending.None? else r == w.resize
  {
    SameRemainder(w.issue, number);
  }

  lemma SameRemainder(a: nat, b: nat)
    ensures a % GENERATIONS == b % GENERATIONS <==> (a - b) % GENERATIONS == 0
  {
  }

  function Modes(k: nat, size: Size): seq<Event> {
    seq(k, i requires 0 <= i => ChangeMode(false, size))
  }

  lemma {:induction false} ModesRun(k: nat, size: Size) returns (w: World)
    ensures Run(Start(size), Modes(k, size)) == Some(w)
    ensures w.issued == k && (forall n | 1 <= n <= k :: n in w.timeouts)
    ensures k > 0 ==> w.issue == k && w.resize.pending.Some?
  {
    if k == 0 {
      w := Start(size);
    } else {
      var w' := ModesRun(k - 1, size);
      assert Modes(k, size)[..k - 1] == Modes(k - 1, size);
      w := Next(w', ChangeMode(false, size)).value;
    }
  }

  /** The exception is reachable: after 2^64 + 1 mode changes within one time-out
      the first time-out takes the last correction for its own. */
  lemma WrappedTimeoutHits(size: Size, actual: Size) returns (w: World)
    ensures Reachable(w, size, Modes(GENERATIONS + 1, size)) && w.issue == GENERATIONS + 1
    ensures 1 in w.timeouts && w.resize.pending.Some?
    ensures Next(w, Timeout(1, actual)).value.resize.pending.None?
  {
    w := ModesRun(GENERATIONS + 1, size);
    ReachableInv(w, size, Modes(GENERATIONS + 1, size));
    StaleTimeout(w, 1, actual);
  }

  // ------------------------------------------------------------- settlement

  function SizeOf(event: Event): Option<Size> {
    match event
    case NativeResize(requested) => Some(requested)
    case Timeout(_, actual) => Some(actual)
    case _ => None
  }

  /** Whatever ends a pending correction reports a real size, and that size is
      the accepted one from then on. */
  lemma EndedMeansAccepted(w: World, event: Event)
    requires Inv(w) && Next(w, event).Some?
    requires w.resize.pending.Some? && Next(w, event).value.resize.pending.None?
    ensures SizeOf(event) == Some(Next(w, event).value.resize.accepted)
  {
  }

  /** A drag ends once; the second report of its end changes nothing. */
  lemma DragEndsOnce(w: World, first: Size, second: Size)
    ensures var w' := Next(w, EndDrag(first)).value;
            Next(w', EndDrag(second)) == Some(w')
  {
  }

  /** A mode change drops what waited, a drag under way included, and corrects
      towards its target; no size but one close to that target ends it. */
  lemma ModeChangeHolds(w: World, advanced: bool, target: Size, requested: Size)
    requires Inv(w)
    ensures var w1 := Next(w, ChangeMode(advanced, target)).value;
            var r := w1.resize;
            && r.advanced == advanced && r.direction.None? && r.latest.None? && !r.finalize
            && r.pending.Some? && r.pending.value.target == target && w1.issue in w1.timeouts
            && var w2 := Next(w1, NativeResize(requested)).value;
               if Close(target, requested) then w2.resize.pending.None? && w2.resize.accepted == requested
               else w2 == w1
  {
  }

  /** An idle callback consumes the size that waits: it accepts the target when
      that is close and corrects towards it otherwise, and the next size of the
      window ends that correction whatever it is. */
  lemma IdleCorrects(w: World, target: Size, requested: Size)
    requires Inv(w) && w.resize.latest.Some? && w.idles > 0
    ensures var w1 := Next(w, Idle(target)).value;
            && w1.idles == 0 && w1.resize.latest.None?
            && if Close(target, w.resize.latest.value) then w1.resize.pending.None? && w1.resize.accepted == target
               else
                 && w1.resize.pending.Some? && w1.resize.pending.value.target == target && w1.issue in w1.timeouts
                 && var w2 := Next(w1, NativeResize(requested)).value;
                    w2.resize.pending.None? && w2.resize.accepted == requested
  {
    StepKeepsInv(w, Idle(target));
  }

  /** A size that the user chose waits for exactly one idle callback. */
  lemma RequestWaits(w: World, requested: Size)
    requires Inv(w) && w.resize.pending.None?
    ensures var w' := Next(w, NativeResize(requested)).value;
            w'.idles == 1 && w'.resize.latest == Some(requested) && w'.resize.pending.None?
  {
  }

  /** The end of a drag is honoured: the size then waits for a correction, at
      once or when the correction under way has ended. */
  lemma DragEndIsHonoured(w: World, actual: Size)
    requires Inv(w) && w.resize.direction.Some?
    ensures var w' := Next(w, EndDrag(actual)).value;
            && w'.resize.direction.None?
            && if w.resize.pending.None? then w'.idles == 1 && w'.resize.latest == Some(actual)
               else w'.resize.pending == w.resize.pending && w'.resize.finalize
  {
  }

  lemma FinalSnapFollows(w: World, event: Event)
    requires Inv(w) && w.resize.finalize && Next(w, event).Some? && Next(w, event).value.resize.pending.None?
    ensures var w' := Next(w, event).value;
            || (event.NativeResize? && Close(w.resize.pending.value.target, event.requested))
            || (w'.idles == 1 && w'.resize.latest == SizeOf(event) != None)
  {
  }

  /** How many callbacks can still come without anything new from outside. */
  function Potential(w: World): nat {
    |w.timeouts| + w.idles + (if w.resize.latest.Some? then 1 else 0) + if w.resize.finalize then 3 else 0
  }

  lemma CallbacksDecrease(w: World, event: Event)
    requires Inv(w) && event.Internal() && Next(w, event).Some?
    ensures Potential(Next(w, event).value) < Potential(w)
  {
    if event.Timeout? {
      assert |w.timeouts - {event.number}| == |w.timeouts| - 1;
    } else {
      assert w.issued + 1 !in w.timeouts;
    }
  }

  /** Callbacks alone never go on for ever. */
  lemma {:induction false} CallbacksRunOut(w: World, events: seq<Event>)
    requires Inv(w) && Run(w, events).Some? && forall i | 0 <= i < |events| :: events[i].Internal()
    ensures |events| <= Potential(w) - Potential(Run(w, events).value)
    decreases |events|
  {
    if events != [] {
      var n := |events| - 1;
      CallbacksRunOut(w, events[..n]);
      RunKeepsInv(w, events[..n]);
      CallbacksDecrease(Run(w, events[..n]).value, events[n]);
    }
  }

  ghost predicate Quiet(w: World) {
    forall event: Event | event.Internal() :: Next(w, event).None?
  }

  /** And when no callback is left, nothing is left undone: no correction is
      pending, none waits, and no drag end is still to be finalized. */
  lemma QuietMeansSettled(w: World)
    requires Inv(w) && Quiet(w)
    ensures var r := w.resize;
            r.pending.None? && r.latest.None? && !r.scheduled && !r.finalize && w.timeouts == {}
  {
    var size := Size(0, 0);
    assert Next(w, Idle(size)).None?;
    forall n: nat ensures n !in w.timeouts {
      assert Next(w, Timeout(n, size)).None?;
    }
  }
}
