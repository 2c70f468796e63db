/**
  The deferred NVIDIA reconciliation of src/daemon.rs. Resuming from sleep
  records a marker before it touches the GPU; whoever verifies a profile later
  clears it. The resume process, the polling threads of the daemon and PROFILE
  commands interleave freely outside one inter-process mutation lock, and each
  of them may die at any moment.
*/
module NvidiaMarker {
  import opened Wrappers

  type ActorId = nat

  datatype Kind = Resume | Poll | Command

  datatype Phase =
    | Look          // a poller, before its unlocked look at the marker
    | Waiting       // for the lock
    | Fans          // resume: lock held, fans go back to the firmware
    | BeforeWrite   // resume: about to record the marker
    | Recheck       // a poller: lock held, looks at the marker again
    | Ready         // about to run the profile transaction
    | Verified      // the transaction verified profile and GPU
    | Leaving       // only the release of the lock is left
    | Done
  {
    predicate HoldsLock() {
      Fans? || BeforeWrite? || Recheck? || Ready? || Verified? || Leaving?
    }
  }

  datatype Actor = Actor(kind: Kind, phase: Phase)

  datatype World = World(
    reference: bool, marker: bool, lock: Option<ActorId>, actors: map<ActorId, Actor>, nextId: ActorId)

  datatype WriteOutcome = NotOpened | CreatedOnly | Written

  datatype Transaction = Refused | GpuUnverified | GpuVerified

  datatype Step =
    | Spawn(kind: Kind)
    | LookAtMarker(a: ActorId, permitted: bool)
    | Acquire(a: ActorId)
    | GiveUp(a: ActorId)
    | ResetFans(a: ActorId, ok: bool)
    | WriteMarker(a: ActorId, outcome: WriteOutcome)
    | LookAgain(a: ActorId, permitted: bool)
    | Transact(a: ActorId, result: Transaction)
    | RemoveMarker(a: ActorId, ok: bool)
    | Release(a: ActorId)
    | Die(a: ActorId)

  predicate At(w: World, a: ActorId, phase: Phase) {
    a in w.actors && w.actors[a].phase == phase
  }

  function Move(w: World, a: ActorId, phase: Phase): World
    requires a in w.actors
  {
    w.(actors := w.actors[a := w.actors[a].(phase := phase)])
  }

  function Entered(kind: Kind): Phase {
    match kind
    case Resume => Fans
    case Poll => Recheck
    case Command => Ready
  }

  function Next(w: World, step: Step): Option<World> {
    match step
    case Spawn(kind) =>
      var phase := if kind == Poll then Look else Waiting;
      Some(w.(actors := w.actors[w.nextId := Actor(kind, phase)], nextId := w.nextId + 1))
    case LookAtMarker(a, permitted) =>
      if !At(w, a, Look) then None
      else if w.marker && !w.reference then Some(Move(w, a, Done).(marker := false))
      else Some(Move(w, a, if w.marker && permitted then Waiting else Done))
    case Acquire(a) =>
      if !At(w, a, Waiting) || w.lock.Some? then None
      else Some(Move(w, a, Entered(w.actors[a].kind)).(lock := Some(a)))
    case GiveUp(a) => if At(w, a, Waiting) then Some(Move(w, a, Done)) else None
    case ResetFans(a, ok) =>
      if At(w, a, Fans) then Some(Move(w, a, if ok && w.reference then BeforeWrite else Leaving)) else None
    case WriteMarker(a, outcome) =>
      if !At(w, a, BeforeWrite) then None
      else if outcome == NotOpened then Some(Move(w, a, Leaving))
      else Some(Move(w, a, if outcome == Written then Ready else Leaving).(marker := true))
    case LookAgain(a, permitted) =>
      if At(w, a, Recheck) then Some(Move(w, a, if w.marker && permitted then Ready else Leaving)) else None
    case Transact(a, result) =>
      if !At(w, a, Ready) then None
      else Some(Move(w, a, if w.reference && result == GpuVerified then Verified else Leaving))
    case RemoveMarker(a, ok) =>
      if At(w, a, Verified) then Some(Move(w, a, Leaving).(marker := w.marker && !ok)) else None
    case Release(a) =>
      if At(w, a, Leaving) then Some(Move(w, a, Done).(lock := None)) else None
    case Die(a) =>
      if a in w.actors
      then Some(w.(actors := w.actors - {a}, lock := if w.lock == Some(a) then None else w.lock))
      else None
  }

  function Start(reference: bool, marker: bool): World {
    World(reference, marker, None, map[], 0)
  }

  function Run(w: World, steps: seq<Step>): Option<World> {
    if steps == [] then Some(w)
    else
      var w' := Run(w, steps[..|steps| - 1]);
      if w'.None? then None else Next(w'.value, steps[|steps| - 1])
  }

  /** Whoever is in a locked phase is the holder, so there is at most one. */
  ghost predicate Inv(w: World) {
    && (forall a | a in w.actors :: w.actors[a].phase.HoldsLock() <==> w.lock == Some(a))
    && (w.lock.Some? ==> w.lock.value in w.actors)
    && (forall a | a in w.actors :: a < w.nextId)
  }

  lemma StepKeepsInv(w: World, step: Step)
    requires Inv(w) && Next(w, step).Some?
    ensures Inv(Next(w, step).value) && Next(w, step).value.reference == w.reference
  {
  }

  lemma {:induction false} RunKeepsInv(w: World, steps: seq<Step>)
    requires Inv(w) && Run(w, steps).Some?
    ensures Inv(Run(w, steps).value) && Run(w, steps).value.reference == w.reference
    decreases |steps|
  {
    if steps != [] {
      RunKeepsInv(w, steps[..|steps| - 1]);
      StepKeepsInv(Run(w, steps[..|steps| - 1]).value, steps[|steps| - 1]);
    }
  }

  /** The state before step `k` of a run that starts with or without a marker. */
  function Before(start: World, steps: seq<Step>, k: nat): World
    requires k <= |steps| && Run(start, steps).Some?
  {
    PrefixRuns(start, steps, k);
    Run(start, steps[..k]).value
  }

  lemma {:induction false} PrefixRuns(start: World, steps: seq<Step>, k: nat)
    requires k <= |steps| && Run(start, steps).Some?
    ensures Run(start, steps[..k]).Some?
    decreases |steps|
  {
    if k == |steps| {
      assert steps[..k] == steps;
    } else {
      assert steps[..|steps| - 1][..k] == steps[..k];
      PrefixRuns(start, steps[..|steps| - 1], k);
    }
  }

  lemma BeforeFront(start: World, steps: seq<Step>, k: nat)
    requires steps != [] && Run(start, steps).Some? && k < |steps|
    ensures Run(start, steps[..|steps| - 1]).Some?
    ensures Before(start, steps[..|steps| - 1], k) == Before(start, steps, k)
  {
    PrefixRuns(start, steps, |steps| - 1);
    assert steps[..|steps| - 1][..k] == steps[..k];
  }

  predicate Verification(step: Step, a: ActorId) {
    step == Transact(a, GpuVerified)
  }

  predicate Writes(step: Step) {
    step.WriteMarker? && step.outcome != NotOpened
  }

  /** At step `v` actor `a` verified profile and GPU, and from then to the end
      it kept the lock while nobody recorded a marker. */
  ghost predicate VerifiedSince(start: World, steps: seq<Step>, v: nat, a: ActorId)
    requires Run(start, steps).Some?
  {
    && v < |steps| && Verification(steps[v], a)
    && (forall k | v <= k <= |steps| :: Before(start, steps, k).lock == Some(a))
    && (forall k | v <= k < |steps| :: !Writes(steps[k]))
  }

  lemma VerifiedStep(w: World, step: Step, a: ActorId)
    requires Inv(w) && Next(w, step).Some? && At(Next(w, step).value, a, Verified)
    ensures w.lock == Some(a) && Next(w, step).value.lock == Some(a) && !Writes(step)
    ensures Verification(step, a) || At(w, a, Verified)
  {
  }

  lemma StillVerified(start: World, steps: seq<Step>, v: nat, a: ActorId)
    requires steps != [] && Run(start, steps).Some? && Run(start, steps[..|steps| - 1]).Some?
    requires VerifiedSince(start, steps[..|steps| - 1], v, a)
    requires Run(start, steps).value.lock == Some(a) && !Writes(steps[|steps| - 1])
    ensures VerifiedSince(start, steps, v, a)
  {
    var n := |steps| - 1;
    assert steps[..n + 1] == steps;
    forall k | v <= k <= n ensures Before(start, steps, k).lock == Some(a) {
      BeforeFront(start, steps, k);
    }
  }

  lemma {:induction false} VerifiedHolds(start: World, steps: seq<Step>, a: ActorId) returns (v: nat)
    requires Inv(start) && start.actors == map[] && Run(start, steps).Some? && At(Run(start, steps).value, a, Verified)
    ensures VerifiedSince(start, steps, v, a)
    decreases |steps|
  {
    var n := |steps| - 1;
    var front := steps[..n];
    var w := Run(start, front).value;
    RunKeepsInv(start, front);
    VerifiedStep(w, steps[n], a);
    assert Before(start, steps, n) == w && steps[..n + 1] == steps;
    if Verification(steps[n], a) {
      v := n;
    } else {
      v := VerifiedHolds(start, front, a);
      StillVerified(start, steps, v, a);
    }
  }

  /** On the reference model a marker disappears only by a step of the lock
      holder that, earlier in the same hold and after the last record of a
      marker, verified profile and GPU. */
  lemma MarkerGoesAfterVerification(start: World, steps: seq<Step>, step: Step) returns (v: nat)
    requires start == Start(true, start.marker) && Run(start, steps).Some?
    requires var w := Run(start, steps).value;
             w.marker && Next(w, step).Some? && !Next(w, step).value.marker
    ensures step.RemoveMarker? && VerifiedSince(start, steps, v, step.a)
  {
    RunKeepsInv(start, steps);
    v := VerifiedHolds(start, steps, step.a);
  }

  /** So a recorded marker is there until somebody verifies after the record. */
  lemma {:induction false} MarkerIsNotLost(start: World, steps: seq<Step>, k: nat)
    requires start == Start(true, start.marker) && Run(start, steps).Some?
    requires k < |steps| && Writes(steps[k])
    ensures !Run(start, steps).value.marker ==> exists v, a :: k < v < |steps| && Verification(steps[v], a)
    decreases |steps|
  {
    var n := |steps| - 1;
    var front := steps[..n];
    PrefixRuns(start, steps, n);
    if k < n {
      MarkerIsNotLost(start, front, k);
      if !Run(start, front).value.marker {
        var v, a :| k < v < n && Verification(front[v], a);
        assert Verification(steps[v], a);
      } else if !Run(start, steps).value.marker {
        var v := MarkerGoesAfterVerification(start, front, steps[n]);
        assert steps[v] == front[v] && steps[k] == front[k];
      }
    }
  }

  lemma {:induction false} RunFirst(w: World, step: Step, rest: seq<Step>)
    requires Next(w, step).Some?
    ensures Run(w, [step] + rest) == Run(Next(w, step).value, rest)
    decreases |rest|
  {
    if rest == [] {
      assert ([step] + rest)[..0] == [];
    } else {
      var n := |rest| - 1;
      RunFirst(w, step, rest[..n]);
      assert ([step] + rest)[..n + 1] == [step] + rest[..n];
    }
  }

  /** The steps of one poller that meets no obstacle, from its recheck on. */
  function LockedPoller(a: ActorId): seq<Step> {
    [LookAgain(a, true)] + ([Transact(a, GpuVerified)] + ([RemoveMarker(a, true)] + ([Release(a)] + [])))
  }

  function Poller(a: ActorId): seq<Step> {
    [Spawn(Poll)] + ([LookAtMarker(a, true)] + ([Acquire(a)] + LockedPoller(a)))
  }

  lemma LockedPollerClears(w: World, a: ActorId)
    requires w.reference && w.marker && a in w.actors && w.actors[a] == Actor(Poll, Recheck)
    ensures Run(w, LockedPoller(a)).Some?
    ensures var w' := Run(w, LockedPoller(a)).value;
            !w'.marker && w'.lock.None?
  {
    var w1 := Next(w, LookAgain(a, true)).value;
    var w2 := Next(w1, Transact(a, GpuVerified)).value;
    var w3 := Next(w2, RemoveMarker(a, true)).value;
    RunFirst(w, LookAgain(a, true), [Transact(a, GpuVerified)] + ([RemoveMarker(a, true)] + ([Release(a)] + [])));
    RunFirst(w1, Transact(a, GpuVerified), [RemoveMarker(a, true)] + ([Release(a)] + []));
    RunFirst(w2, RemoveMarker(a, true), [Release(a)] + []);
    RunFirst(w3, Release(a), []);
  }

  /** And while the lock is free, one undisturbed poller does clear it. */
  lemma PollerClears(w: World)
    requires w.reference && w.marker && w.lock.None?
    ensures Run(w, Poller(w.nextId)).Some?
    ensures var w' := Run(w, Poller(w.nextId)).value;
            !w'.marker && w'.lock.None?
  {
    var a := w.nextId;
    var w1 := Next(w, Spawn(Poll)).value;
    var w2 := Next(w1, LookAtMarker(a, true)).value;
    var w3 := Next(w2, Acquire(a)).value;
    RunFirst(w, Spawn(Poll), [LookAtMarker(a, true)] + ([Acquire(a)] + LockedPoller(a)));
    RunFirst(w1, LookAtMarker(a, true), [Acquire(a)] + LockedPoller(a));
    RunFirst(w2, Acquire(a), LockedPoller(a));
    LockedPollerClears(w3, a);
  }
}
