/**
  How the window of src/app.rs reconciles a profile that the daemon verified
  with telemetry that lags behind it: a target is kept for a bounded grace, and
  a mismatch of the NVIDIA offsets is reported only when it persists.
*/
module ProfileSync {
  import opened Wrappers

  const GRACE_SAMPLES: u8 := 12
  const DEBOUNCE_SAMPLES: u8 := 2

  datatype Profile = LowPower | Quiet | Balanced | Performance | Turbo

  function AsSysfs(profile: Profile): string {
    match profile
    case LowPower => "low-power"
    case Quiet => "quiet"
    case Balanced => "balanced"
    case Performance => "balanced-performance"
    case Turbo => "performance"
  }

  datatype Offsets = Offsets(core: int, memory: int, uniform: bool)

  /** `offsets` is None when any of the three readings is missing. */
  datatype Sample = Sample(profile: Option<Profile>, raw: Option<string>, offsets: Option<Offsets>)

  datatype Status = Connected(nvidia: bool) | ProfileVerified | GpuProfileMismatch(core: int, memory: int) | OtherStatus

  datatype Health = Healthy | Warning | OtherHealth

  datatype Sync = Sync(target: Option<Profile>, grace: u8, mismatches: u8)

  const IDLE: Sync := Sync(None, 0, 0)

  datatype View = View(
    reference: bool, busy: bool, profile: Profile, raw: Option<string>, sync: Sync, health: Health, status: Status)

  /** Whether the offsets are those of the profile; None when they are unread. */
  function Synchronized(profile: Profile, offsets: Option<Offsets>): Option<bool> {
    match offsets
    case None => None
    case Some(o) =>
      var expected := if profile == Turbo then (100, 200) else (0, 0);
      Some(o.uniform && (o.core, o.memory) == expected)
  }

  function ClearMismatch(v: View, nvidia: bool): View {
    if v.status.GpuProfileMismatch? then v.(health := Healthy, status := Connected(nvidia)) else v
  }

  function ShowProfile(v: View, profile: Profile): View {
    v.(profile := profile, raw := Some(AsSysfs(profile)))
  }

  /** Without a target: debounce mismatches, believe everything else. */
  function Follow(v: View, observed: Profile, offsets: Option<Offsets>): View {
    match Synchronized(observed, offsets)
    case Some(false) =>
      var mismatches := if v.sync.mismatches == 255 then 255 else v.sync.mismatches + 1;
      var counted := v.(sync := v.sync.(mismatches := mismatches));
      if mismatches < DEBOUNCE_SAMPLES then counted
      else
        ShowProfile(counted, observed)
          .(health := Warning, status := GpuProfileMismatch(offsets.value.core, offsets.value.memory))
    case Some(true) => ClearMismatch(ShowProfile(v, observed).(sync := v.sync.(mismatches := 0)), true)
    case None => ClearMismatch(ShowProfile(v, observed).(sync := v.sync.(mismatches := 0)), false)
  }

  function Reconcile(v: View, observed: Profile, offsets: Option<Offsets>): View {
    var synchronization := Synchronized(observed, offsets);
    if v.busy then v
    else if v.sync.target.None? then Follow(v, observed, offsets)
    else if observed == v.sync.target.value && synchronization != Some(false) then
      ClearMismatch(ShowProfile(v, observed).(sync := IDLE), synchronization.Some?)
    else if v.sync.grace > 0 then v.(sync := v.sync.(grace := v.sync.grace - 1))
    else Follow(v.(sync := v.sync.(target := None, mismatches := 0)), observed, offsets)
  }

  /** The part of a telemetry sample that concerns the profile. `named` is what
      the raw name means on a machine that is not the reference model. */
  function Telemetry(v: View, sample: Sample, named: Option<Profile>): View {
    if !v.reference then
      v.(sync := IDLE, raw := sample.raw,
         profile := if sample.raw.Some? && named.Some? then named.value else v.profile)
    else
      var v := if v.sync.target.None? then v.(raw := sample.raw) else v;
      if sample.profile.Some? then Reconcile(v, sample.profile.value, sample.offsets)
      else if v.sync.target.None? then v
      else if v.sync.grace <= 1 then v.(sync := IDLE, raw := sample.raw)
      else v.(sync := v.sync.(grace := v.sync.grace - 1))
  }

  /** The daemon has verified `raw`; `named` is the profile it means, if any. */
  function Applied(v: View, raw: string, named: Option<Profile>): View {
    v.(raw := Some(raw), profile := if named.Some? then named.value else v.profile,
       sync := Sync(named, GRACE_SAMPLES, 0), health := Healthy, status := ProfileVerified)
  }

  class AppState {
    var reference: bool
    var controlBusy: bool
    var platformProfile: Profile
    var platformProfileRaw: Option<string>
    var profileSync: Sync
    var health: Health
    var status: Status

    constructor (reference: bool)
      ensures Contents() == View(reference, false, Balanced, None, IDLE, OtherHealth, OtherStatus)
    {
      this.reference := reference;
      controlBusy := false;
      platformProfile := Balanced;
      platformProfileRaw := None;
      profileSync := IDLE;
      health := OtherHealth;
      status := OtherStatus;
    }

    ghost function Contents(): View
      reads this
    {
      View(reference, controlBusy, platformProfile, platformProfileRaw, profileSync, health, status)
    }

    method ProfileApplied(raw: string, named: Option<Profile>)
      modifies this
      ensures Contents() == Applied(old(Contents()), raw, named)
    {
      platformProfileRaw := Some(raw);
      if named.Some? {
        platformProfile := named.value;
      }
      profileSync := Sync(named, GRACE_SAMPLES, 0);
      health := Healthy;
      status := ProfileVerified;
    }

    method ClearProfileMismatch(nvidia: bool)
      modifies this
      ensures Contents() == ClearMismatch(old(Contents()), nvidia)
    {
      if status.GpuProfileMismatch? {
        health := Healthy;
        status := Connected(nvidia);
      }
    }

    method ReconcileProfileTelemetry(observed: Profile, offsets: Option<Offsets>)
      modifies this
      ensures Contents() == Reconcile(old(Contents()), observed, offsets)
    {
      if controlBusy {
        return;
      }
      var synchronization := Synchronized(observed, offsets);
      if profileSync.target.Some? {
        var target := profileSync.target.value;
        if observed == target && synchronization != Some(false) {
          platformProfile := target;
          platformProfileRaw := Some(AsSysfs(target));
          profileSync := IDLE;
          ClearProfileMismatch(synchronization.Some?);
          return;
        }
        if profileSync.grace > 0 {
          profileSync := profileSync.(grace := profileSync.grace - 1);
          return;
        }
        profileSync := profileSync.(target := None, mismatches := 0);
      }
      match synchronization
      case Some(false) =>
        var mismatches := if profileSync.mismatches == 255 then 255 else profileSync.mismatches + 1;
        profileSync := profileSync.(mismatches := mismatches);
        if mismatches < DEBOUNCE_SAMPLES {
          return;
        }
        platformProfile := observed;
        platformProfileRaw := Some(AsSysfs(observed));
        health := Warning;
        status := GpuProfileMismatch(offsets.value.core, offsets.value.memory);
      case Some(true) =>
        platformProfile := observed;
        platformProfileRaw := Some(AsSysfs(observed));
        profileSync := profileSync.(mismatches := 0);
        ClearProfileMismatch(true);
      case None =>
        platformProfile := observed;
        platformProfileRaw := Some(AsSysfs(observed));
        profileSync := profileSync.(mismatches := 0);
        ClearProfileMismatch(false);
    }

    method ApplyTelemetry(sample: Sample, named: Option<Profile>)
      modifies this
      ensures Contents() == Telemetry(old(Contents()), sample, named)
    {
      if reference {
        if profileSync.target.None? {
          platformProfileRaw := sample.raw;
        }
        if sample.profile.Some? {
          ReconcileProfileTelemetry(sample.profile.value, sample.offsets);
        } else if profileSync.target.Some? {
          var grace := if profileSync.grace == 0 then 0 else profileSync.grace - 1;
          profileSync := profileSync.(grace := grace);
          if grace == 0 {
            profileSync := IDLE;
            platformProfileRaw := sample.raw;
          }
        }
      } else {
        profileSync := IDLE;
        platformProfileRaw := sample.raw;
        if sample.raw.Some? && named.Some? {
          platformProfile := named.value;
        }
      }
    }
  }

  // ------------------------------------------------------------------ runs

  datatype Event =
    | Telemeter(sample: Sample, named: Option<Profile>)
    | Busy(on: bool)
    | Apply(raw: string, named: Option<Profile>)
    | Report(health: Health, status: Status)   // any other part of the window

  function Next(v: View, event: Event): View {
    match event
    case Telemeter(sample, named) => Telemetry(v, sample, named)
    case Busy(on) => v.(busy := on)
    case Apply(raw, named) => Applied(v, raw, named)
    case Report(health, status) => if status.GpuProfileMismatch? then v else v.(health := health, status := status)
  }

  function Run(v: View, events: seq<Event>): View {
    if events == [] then v else Next(Run(v, events[..|events| - 1]), events[|events| - 1])
  }

  /** A sample that the reconciliation really looks at. */
  predicate Processed(v: View, event: Event) {
    event.Telemeter? && (event.sample.profile.None? || !v.busy)
  }

  function ProcessedIn(v: View, events: seq<Event>): nat {
    if events == [] then 0
    else
      var front := events[..|events| - 1];
      ProcessedIn(v, front) + if Processed(Run(v, front), events[|events| - 1]) then 1 else 0
  }

  predicate Started(v: View, target: Profile) {
    v.reference && v.sync.target == Some(target) && v.sync.grace == GRACE_SAMPLES && v.profile == target
  }

  /** A verified profile starts that: it is shown under the name that was applied. */
  lemma AppliedStarts(v: View, raw: string, target: Profile)
    requires v.reference
    ensures var v' := Next(v, Apply(raw, Some(target)));
            Started(v', target) && v'.raw == Some(raw) && v'.health == Healthy && v'.status == ProfileVerified
  {
  }

  lemma KeepsTargetStep(v: View, event: Event, target: Profile)
    requires v.reference && v.sync.target == Some(target) && v.profile == target && !event.Apply?
    ensures var v' := Next(v, event);
            v'.sync.target == Some(target) ==>
            v'.reference && v'.profile == target && v'.raw == v.raw
            && v'.sync.grace == (if Processed(v, event) then v.sync.grace - 1 else v.sync.grace)
            && (Processed(v, event) ==> v.sync.grace > 0)
  {
  }

  lemma TargetIsNotSetAgain(v: View, event: Event)
    requires v.reference && v.sync.target.None? && !event.Apply?
    ensures Next(v, event).sync.target.None? && Next(v, event).reference
  {
  }

  /** Where the window stands after some processed samples. */
  predicate Kept(v: View, v': View, processed: nat, target: Profile) {
    && v'.reference
    && (v'.sync.target.Some? ==>
          v'.sync.target == Some(target) && v'.profile == target && v'.raw == v.raw
          && processed + v'.sync.grace == GRACE_SAMPLES)
  }

  lemma KeptStep(v: View, front: seq<Event>, event: Event, target: Profile)
    requires Kept(v, Run(v, front), ProcessedIn(v, front), target) && !event.Apply?
    ensures Kept(v, Run(v, front + [event]), ProcessedIn(v, front + [event]), target)
  {
    var before := Run(v, front);
    assert (front + [event])[..|front|] == front;
    ReferenceStays(before, event);
    if before.sync.target.Some? {
      KeepsTargetStep(before, event, target);
    } else {
      TargetIsNotSetAgain(before, event);
    }
  }

  /** After a verified apply, as long as the target is set the window shows it,
      under the name that was applied, and the grace counts the samples. */
  lemma {:induction false} TargetIsKept(v: View, events: seq<Event>, target: Profile)
    requires Started(v, target) && forall i | 0 <= i < |events| :: !events[i].Apply?
    ensures var v' := Run(v, events);
            Kept(v, v', ProcessedIn(v, events), target)
    decreases |events|
  {
    if events != [] {
      var n := |events| - 1;
      TargetIsKept(v, events[..n], target);
      KeptStep(v, events[..n], events[n], target);
      assert events == events[..n] + [events[n]];
    }
  }

  lemma ReferenceStays(v: View, event: Event)
    ensures Next(v, event).reference == v.reference
  {
  }

  /** So the thirteenth processed sample has cleared it at the latest. */
  lemma ThirteenSamplesClear(v: View, events: seq<Event>, target: Profile)
    requires Started(v, target) && forall i | 0 <= i < |events| :: !events[i].Apply?
    requires ProcessedIn(v, events) >= 13
    ensures Run(v, events).sync.target.None?
  {
    TargetIsKept(v, events, target);
  }

  /** A sample that shows the target and does not contradict its offsets. */
  predicate Confirms(sample: Sample, target: Profile) {
    sample.profile == Some(target) && Synchronized(target, sample.offsets) != Some(false)
  }

  /** A step clears the target exactly when it confirms it or the grace is used
      up; a sample without a profile uses up its last unit at once. */
  lemma ClearsIff(v: View, event: Event)
    requires v.reference && v.sync.target.Some? && !event.Apply?
    ensures Next(v, event).sync.target.None?
            <==> Processed(v, event)
                 && (|| Confirms(event.sample, v.sync.target.value)
                     || v.sync.grace == 0
                     || (event.sample.profile.None? && v.sync.grace == 1))
  {
  }

  /** The event neither confirms the target nor comes without a profile. */
  predicate Lags(event: Event, target: Profile) {
    && !event.Apply?
    && (event.Telemeter? ==> event.sample.profile.Some? && !Confirms(event.sample, target))
  }

  /** And not before that: twelve samples that lag behind leave it as it was. */
  lemma {:induction false} TwelveSamplesKeep(v: View, events: seq<Event>, target: Profile)
    requires Started(v, target) && forall i | 0 <= i < |events| :: Lags(events[i], target)
    requires ProcessedIn(v, events) <= 12
    ensures Run(v, events).sync.target == Some(target)
    decreases |events|
  {
    if events != [] {
      var n := |events| - 1;
      var front := events[..n];
      TwelveSamplesKeep(v, front, target);
      TargetIsKept(v, front, target);
      assert Lags(events[n], target);
      ClearsIff(Run(v, front), events[n]);
      if Run(v, events).sync.target.Some? {
        TargetIsKept(v, events, target);
      }
    }
  }

  // --------------------------------------------------------------- warnings

  predicate Mismatching(v: View, event: Event) {
    v.reference && !v.busy && event.Telemeter? && event.sample.profile.Some?
    && Synchronized(event.sample.profile.value, event.sample.offsets) == Some(false)
  }

  /** A processed sample that matches, or that has no offsets. */
  predicate Reassuring(v: View, event: Event) {
    v.reference && !v.busy && event.Telemeter? && event.sample.profile.Some?
    && Synchronized(event.sample.profile.value, event.sample.offsets) != Some(false)
  }

  function At(v: View, events: seq<Event>, i: nat): View
    requires i <= |events|
  {
    Run(v, events[..i])
  }

  ghost predicate MismatchAt(v: View, events: seq<Event>, i: nat) {
    i < |events| && Mismatching(At(v, events, i), events[i])
  }

  /** No reassurance and no new apply from position `i` on. */
  ghost predicate UndisturbedFrom(v: View, events: seq<Event>, i: nat) {
    forall k: nat | i <= k < |events| :: QuietAt(v, events, k)
  }

  ghost predicate QuietAt(v: View, events: seq<Event>, k: nat) {
    k < |events| && !Reassuring(At(v, events, k), events[k]) && !events[k].Apply?
  }

  /** Nothing is counted while a target is set. */
  predicate Counted(v: View) {
    v.sync.target.Some? ==> v.sync.mismatches == 0
  }

  lemma CountStep(v: View, event: Event)
    requires Counted(v)
    ensures Counted(Next(v, event))
    ensures var before, after := v.sync.mismatches, Next(v, event).sync.mismatches;
            after > 0 ==> Mismatching(v, event) || (before > 0 && !Reassuring(v, event) && !event.Apply?)
  {
  }

  lemma WarningStep(v: View, event: Event)
    requires Next(v, event).status.GpuProfileMismatch? && Next(v, event).status != v.status
    ensures Mismatching(v, event) && v.sync.target.None? && v.sync.mismatches >= 1
    ensures var sample := event.sample;
            && Next(v, event).status == GpuProfileMismatch(sample.offsets.value.core, sample.offsets.value.memory)
            && Next(v, event).profile == sample.profile.value && Next(v, event).health == Warning
  {
  }

  lemma AtFront(v: View, events: seq<Event>, i: nat)
    requires i < |events|
    ensures At(v, events[..|events| - 1], i) == At(v, events, i)
  {
    assert events[..|events| - 1][..i] == events[..i];
  }

  lemma SameInFront(v: View, events: seq<Event>, k: nat)
    requires k + 1 < |events|
    ensures QuietAt(v, events[..|events| - 1], k) <==> QuietAt(v, events, k)
    ensures MismatchAt(v, events[..|events| - 1], k) <==> MismatchAt(v, events, k)
  {
    AtFront(v, events, k);
  }

  lemma MismatchStays(v: View, events: seq<Event>, i: nat)
    requires events != [] && QuietAt(v, events, |events| - 1)
    requires MismatchAt(v, events[..|events| - 1], i) && UndisturbedFrom(v, events[..|events| - 1], i)
    ensures MismatchAt(v, events, i) && UndisturbedFrom(v, events, i)
  {
    SameInFront(v, events, i);
    forall k: nat | i <= k < |events| - 1 ensures QuietAt(v, events, k) {
      SameInFront(v, events, k);
    }
  }

  lemma {:induction false} CountMeansMismatch(v: View, events: seq<Event>) returns (i: nat)
    requires Counted(v) && v.sync.mismatches == 0
    ensures Counted(Run(v, events))
    ensures Run(v, events).sync.mismatches > 0 ==> MismatchAt(v, events, i) && UndisturbedFrom(v, events, i)
    decreases |events|
  {
    i := 0;
    if events != [] {
      var n := |events| - 1;
      var front := events[..n];
      var j := CountMeansMismatch(v, front);
      CountStep(Run(v, front), events[n]);
      assert At(v, events, n) == Run(v, front);
      if Mismatching(Run(v, front), events[n]) {
        i := n;
      } else if Run(v, events).sync.mismatches > 0 {
        i := j;
        MismatchStays(v, events, i);
      }
    }
  }

  /** A warning is raised by a mismatching sample, and only if an earlier sample
      mismatched with no reassurance and no new apply in between. */
  lemma WarningNeedsTwo(v: View, events: seq<Event>, event: Event) returns (i: nat)
    requires Counted(v) && v.sync.mismatches == 0
    requires var w := Run(v, events);
             Next(w, event).status.GpuProfileMismatch? && Next(w, event).status != w.status
    ensures Mismatching(Run(v, events), event)
    ensures MismatchAt(v, events, i) && UndisturbedFrom(v, events, i)
  {
    i := CountMeansMismatch(v, events);
    WarningStep(Run(v, events), event);
  }

  /** A first mismatch is only counted: nothing else that is shown changes. */
  lemma FirstMismatchIsQuiet(v: View, event: Event)
    requires v.sync.target.None? && v.sync.mismatches == 0 && Mismatching(v, event)
    ensures Next(v, event) == v.(sync := v.sync.(mismatches := 1), raw := event.sample.raw)
  {
  }

  lemma CountLasts(v: View, event: Event)
    requires v.reference && v.sync.target.None? && v.sync.mismatches > 0 && !Reassuring(v, event) && !event.Apply?
    ensures var v' := Next(v, event);
            v'.reference && v'.sync.target.None? && v'.sync.mismatches > 0
  {
  }

  lemma {:induction false} CountLastsOn(v: View, events: seq<Event>)
    requires v.reference && v.sync.target.None? && v.sync.mismatches > 0 && UndisturbedFrom(v, events, 0)
    ensures var v' := Run(v, events);
            v'.reference && v'.sync.target.None? && v'.sync.mismatches > 0
    decreases |events|
  {
    if events != [] {
      var n := |events| - 1;
      var front := events[..n];
      forall k: nat | k < n ensures QuietAt(v, front, k) {
        SameInFront(v, events, k);
      }
      CountLastsOn(v, front);
      assert QuietAt(v, events, n);
      CountLasts(Run(v, front), events[n]);
    }
  }

  /** And whenever that happens without a target, the warning does come. */
  lemma TwoMismatchesWarn(v: View, first: Event, between: seq<Event>, second: Event)
    requires v.sync.target.None? && Mismatching(v, first)
    requires UndisturbedFrom(Next(v, first), between, 0)
    requires Mismatching(Run(Next(v, first), between), second)
    ensures var v' := Next(Run(Next(v, first), between), second);
            v'.status.GpuProfileMismatch? && v'.health == Warning && v'.profile == second.sample.profile.value
  {
    CountLastsOn(Next(v, first), between);
  }

  /** One processed sample that matches, or that has no offsets, withdraws it. */
  lemma ReassuranceWithdraws(v: View, event: Event)
    requires v.sync.target.None? && Reassuring(v, event)
    ensures var v' := Next(v, event);
            !v'.status.GpuProfileMismatch? && v'.sync.mismatches == 0 && v'.profile == event.sample.profile.value
  {
  }
}
