/**
  The multi-client fan lease of src/daemon.rs.

  Client threads share one owner slot and one pair of fans. The daemon lock is
  dropped between the top-of-loop check, the claim with its command, the
  response write, the post-response release and the disconnect cleanup, so
  these are the atomic steps of the state machine below, in any interleaving.
*/
module FanLease {
  import opened Wrappers
  import opened FanHardware

  type ClientId = nat

  // ---------------------------------------------------------------- session

  datatype Session =
    | Automatic
    | PendingMutation
    | Manual
    | MaximumAwaitingResponse
    | PersistentMaximum
    | EmergencyMaximum
  {
    function ResponseDelivered(): Session {
      if this == MaximumAwaitingResponse then PersistentMaximum else this
    }

    predicate NeedsThermalWatchdog() {
      PendingMutation? || Manual?
    }

    predicate RequiresAutoOnDisconnect() {
      PendingMutation? || Manual? || MaximumAwaitingResponse? || EmergencyMaximum?
    }
  }

  // ---------------------------------------------------------------- commands

  /** The commands as far as the lease can tell them apart. `parses` says
      whether both percentages of a Manual command are accepted. */
  datatype Command =
    | FanAuto
    | FanMaximum
    | FanManual(parses: bool, cpu: u8, gpu: u8)
    | Profile
    | Other(mutation: bool)
  {
    predicate ChangesFans() {
      !Other?
    }
    predicate IsFan() {
      FanAuto? || FanMaximum? || FanManual?
    }
    predicate SafetyOverride() {
      FanAuto? || FanMaximum?
    }
  }

  /** The owner after a claim, or None when the claim is refused. */
  function Claim(owner: Option<ClientId>, client: ClientId, command: Command): Option<Option<ClientId>> {
    if !command.ChangesFans() then Some(owner)
    else if owner.Some? && owner.value != client && !command.SafetyOverride() then None
    else Some(Some(client))
  }

  function Release(owner: Option<ClientId>, client: ClientId, session: Session): Option<ClientId> {
    if owner == Some(client) && !session.RequiresAutoOnDisconnect() then None else owner
  }

  /** The shared slot, updated in place under the daemon lock. */
  class DaemonRuntime {
    var fanOwner: Option<ClientId>

    constructor ()
      ensures fanOwner == None
    {
      fanOwner := None;
    }

    method ClaimFanCommand(client: ClientId, command: Command) returns (claimed: bool)
      modifies this
      ensures claimed == Claim(old(fanOwner), client, command).Some?
      ensures fanOwner == if claimed then Claim(old(fanOwner), client, command).value else old(fanOwner)
    {
      if !command.ChangesFans() {
        return true;
      }
      if fanOwner.Some? && fanOwner.value != client && !command.SafetyOverride() {
        return false;
      }
      fanOwner := Some(client);
      claimed := true;
    }

    method ReleaseUnleasedFans(client: ClientId, session: Session)
      modifies this
      ensures fanOwner == Release(old(fanOwner), client, session)
    {
      if fanOwner == Some(client) && !session.RequiresAutoOnDisconnect() {
        fanOwner := None;
      }
    }
  }

  // ------------------------------------------------------------------ world

  /** Where a client thread is between two atomic steps. */
  datatype Place =
    | Top                        // about to take the lock at the head of its loop
    | Reading                    // blocked in, or about to enter, its socket read
    | Responding(succeeded: bool)
    | Delivered(succeeded: bool)
    | Closing                    // left the loop, cleanup still to come

  datatype Client = Client(place: Place, session: Session)

  /** `abandoned` records that a fan transaction outside any live lease failed
      with a reported error and no transaction has verified a mode since. */
  datatype World = World(
    fans: Fans,
    owner: Option<ClientId>,
    clients: map<ClientId, Client>,
    nextId: ClientId,
    abandoned: bool)

  /** What the environment decides while one command is executed. */
  datatype Environment = Environment(
    acer: bool,            // mutations are available on this machine
    lockAcquired: bool,    // the inter-process mutation lock
    refreshed: bool,       // rediscovery of the hardware succeeds
    gamingWmi: bool,       // the refreshed fan backend is Gaming-WMI
    modesRead: Option<bool>, // None: unreadable; Some(b): both channels read Automatic iff b
    fanOutcome: FanOutcome,
    rest: bool)            // whatever else the command does succeeds

  datatype Executed = Executed(session: Session, fans: Fans, verified: bool, succeeded: bool)

  /** `verified` tells that the transaction ended in a verified mode. */
  predicate Verifies(outcome: FanOutcome) {
    outcome in {Verified, RolledBack, FailsafeMaximum}
  }

  function ApplyFans(setting: FanSetting, confirmed: Session, fans: Fans, outcome: FanOutcome): Executed {
    Executed(if outcome == Verified then confirmed else PendingMutation,
             FansAfter(setting, outcome, fans), Verifies(outcome), outcome == Verified)
  }

  function ExecuteCommand(command: Command, session: Session, fans: Fans, env: Environment): Executed {
    var session := if command.IsFan() then PendingMutation else session;
    var mutation := command.ChangesFans() || command.mutation;
    if mutation && !env.acer then Executed(session, fans, false, false)
    else if mutation && !env.lockAcquired then Executed(session, fans, false, false)
    else if command.ChangesFans() && !env.refreshed then Executed(session, fans, false, false)
    else
      match command
      case FanAuto => ApplyFans(SetAutomatic, Session.Automatic, fans, env.fanOutcome)
      case FanMaximum => ApplyFans(SetMaximum, MaximumAwaitingResponse, fans, env.fanOutcome)
      case FanManual(parses, cpu, gpu) =>
        if !parses then Executed(session, fans, false, false)
        else ApplyFans(SetManual(cpu, gpu), Session.Manual, fans, env.fanOutcome)
      case Profile =>
        if !env.gamingWmi then Executed(session, fans, false, env.rest)
        else if env.modesRead.None? then Executed(session, fans, false, false)
        else if env.modesRead.value then Executed(session, fans, false, env.rest)
        else
          var e := ApplyFans(SetAutomatic, Session.Automatic, fans, env.fanOutcome);
          e.(succeeded := e.succeeded && env.rest)
      case Other(_) => Executed(session, fans, false, env.rest)
  }

  /** One fan transaction on behalf of a session. */
  method Transact(hardware: AcerHardware, setting: FanSetting, confirmed: Session, ghost fans: Fans, watchdog: bool)
    returns (session: Session, succeeded: bool, ghost outcome: FanOutcome)
    requires Agrees(hardware.modes, fans)
    modifies hardware
    ensures var e := ApplyFans(setting, confirmed, fans, outcome);
            session == e.session && succeeded == e.succeeded && Agrees(hardware.modes, e.fans)
    ensures succeeded ==> session == confirmed && hardware.Delivered(setting)
    ensures hardware.faithful && hardware.Refusal(setting, watchdog).None? ==> (succeeded <==> old(hardware.Deliverable(setting)))
  {
    session := PendingMutation;
    ghost var attempt: seq<Event>, automatic: seq<Event>, maximum: seq<Event>;
    var r: Result<FanState, HardwareError>;
    r, attempt, automatic, maximum := hardware.ApplyFanSetting(setting, watchdog);
    outcome := Classify(r);
    succeeded := r.Success?;
    if succeeded {
      session := confirmed;
    }
  }

  /** One command. FAN and PROFILE commands rediscover the hardware first and go
      on with what was found, which may have another backend. The environment it
      returns accounts for everything the hardware did, so the runs below cover it. */
  method Execute(hardware: AcerHardware, command: Command, session: Session, ghost fans: Fans,
                 lockAcquired: bool, watchdog: bool, rest: bool)
    returns (hardware': AcerHardware, session': Session, succeeded: bool, ghost env: Environment)
    requires Agrees(hardware.modes, fans)
    ensures hardware' == hardware || fresh(hardware')
    ensures env.acer == hardware.acer && env.lockAcquired == lockAcquired && env.rest == rest
    ensures var e := ExecuteCommand(command, session, fans, env);
            session' == e.session && succeeded == e.succeeded && Agrees(hardware'.modes, e.fans)
    ensures succeeded && command.FanAuto? ==> hardware'.HasBackend() && hardware'.BothHold(FanMode.Automatic)
    ensures succeeded && command.FanMaximum? ==> hardware'.HasBackend() && hardware'.BothHold(FanMode.Maximum)
    ensures succeeded && command.FanManual? ==>
              && hardware'.HasBackend() && hardware'.BothHold(FanMode.Manual)
              && hardware'.SpeedHolds(Cpu, command.cpu) && hardware'.SpeedHolds(Gpu, command.gpu)
    ensures succeeded && command.Profile? && Gaming(hardware') ==> hardware'.BothHold(FanMode.Automatic)
    ensures hardware.faithful && lockAcquired && Accepts(hardware, command, watchdog) ==> succeeded
  {
    hardware' := hardware;
    env := Environment(hardware.acer, lockAcquired, false, false, None, NotAttempted, rest);
    session' := if command.IsFan() then PendingMutation else session;
    succeeded := false;
    var mutation := command.ChangesFans() || command.mutation;
    if mutation && (!hardware.acer || !lockAcquired) { return; }
    if !command.ChangesFans() {
      succeeded := rest;
      return;
    }
    var found := hardware.Refreshed();
    if found.None? { return; }
    hardware' := found.value;
    assert hardware.faithful && Accepts(hardware, command, watchdog) ==> Accepts(hardware', command, watchdog);
    session', succeeded, env := ExecuteRefreshed(hardware', command, session, fans, env, watchdog, rest);
  }

  predicate Gaming(hardware: AcerHardware) {
    hardware.HasBackend() && hardware.fanBackend.value.AcerGamingWmi?
  }

  /** What a FAN command needs to succeed on a device that never fails. */
  predicate Accepts(hardware: AcerHardware, command: Command, watchdog: bool)
    reads hardware
  {
    match command
    case FanAuto => hardware.Refusal(SetAutomatic, watchdog).None? && hardware.Deliverable(SetAutomatic)
    case FanMaximum => hardware.Refusal(SetMaximum, watchdog).None? && hardware.Deliverable(SetMaximum)
    case FanManual(parses, cpu, gpu) =>
      parses && hardware.Refusal(SetManual(cpu, gpu), watchdog).None? && hardware.Deliverable(SetManual(cpu, gpu))
    case _ => false
  }

  /** The part of a FAN or PROFILE command that follows the rediscovery. */
  method ExecuteRefreshed(hardware: AcerHardware, command: Command, session: Session, ghost fans: Fans,
                          ghost before: Environment, watchdog: bool, rest: bool)
    returns (session': Session, succeeded: bool, ghost env: Environment)
    requires Agrees(hardware.modes, fans) && command.ChangesFans()
    requires before.acer && before.lockAcquired && before.rest == rest
    modifies hardware
    ensures env.acer == before.acer && env.lockAcquired == before.lockAcquired && env.refreshed && env.rest == before.rest
    ensures var e := ExecuteCommand(command, session, fans, env);
            session' == e.session && succeeded == e.succeeded && Agrees(hardware.modes, e.fans)
    ensures succeeded && command.FanAuto? ==> hardware.HasBackend() && hardware.BothHold(FanMode.Automatic)
    ensures succeeded && command.FanMaximum? ==> hardware.HasBackend() && hardware.BothHold(FanMode.Maximum)
    ensures succeeded && command.FanManual? ==>
              && hardware.HasBackend() && hardware.BothHold(FanMode.Manual)
              && hardware.SpeedHolds(Cpu, command.cpu) && hardware.SpeedHolds(Gpu, command.gpu)
    ensures succeeded && command.Profile? && Gaming(hardware) ==> hardware.BothHold(FanMode.Automatic)
    ensures hardware.faithful && old(Accepts(hardware, command, watchdog)) ==> succeeded
  {
    var gaming := hardware.fanBackend.Some? && hardware.fanBackend.value.AcerGamingWmi?;
    env := before.(refreshed := true, gamingWmi := gaming, modesRead := None);
    session' := if command.IsFan() then PendingMutation else session;
    succeeded := false;
    ghost var outcome: FanOutcome;
    match command
    case FanAuto =>
      session', succeeded, outcome := Transact(hardware, SetAutomatic, Session.Automatic, fans, watchdog);
      env := env.(fanOutcome := outcome);
    case FanMaximum =>
      session', succeeded, outcome := Transact(hardware, SetMaximum, MaximumAwaitingResponse, fans, watchdog);
      env := env.(fanOutcome := outcome);
    case FanManual(parses, cpu, gpu) =>
      if !parses { return; }
      session', succeeded, outcome := Transact(hardware, SetManual(cpu, gpu), Session.Manual, fans, watchdog);
      env := env.(fanOutcome := outcome);
    case Profile =>
      if gaming {
        var state := hardware.ReadFanState();
        if state.Failure? { return; }
        var automatic := state.value.modes == Pair(Some(FanMode.Automatic), Some(FanMode.Automatic));
        env := env.(modesRead := Some(automatic));
        if !automatic {
          session', succeeded, outcome := Transact(hardware, SetAutomatic, Session.Automatic, fans, watchdog);
          env := env.(fanOutcome := outcome);
          if !succeeded { return; }
        }
      }
      succeeded := rest;
  }

  datatype Step =
    | Connect
    | CheckTop(c: ClientId, unsafeTemperature: bool, lockAcquired: bool, outcome: FanOutcome)
    | HandshakeTimeout(c: ClientId)
    | ReadTimeout(c: ClientId)
    | ReadEnds(c: ClientId)                       // end of stream, oversized frame or read error
    | AnswerDirectly(c: ClientId, goesOn: bool)   // handshake and undecodable commands
    | Dispatch(c: ClientId, command: Command, env: Environment)
    | WriteResponse(c: ClientId, written: bool)
    | AfterResponse(c: ClientId)
    | Cleanup(c: ClientId, lockAcquired: bool, refreshed: bool, outcome: FanOutcome)
    | ExternalAuto(outcome: FanOutcome)           // resume or failsafe run of another process

  predicate At(w: World, c: ClientId, place: Place) {
    c in w.clients && w.clients[c].place == place
  }

  function Put(w: World, c: ClientId, place: Place, session: Session): World {
    w.(clients := w.clients[c := Client(place, session)])
  }

  /** The head of the client loop: watchdog for the owner, revocation otherwise. */
  function TopOfLoop(w: World, c: ClientId, unsafeTemperature: bool, lockAcquired: bool, outcome: FanOutcome): World
    requires c in w.clients
  {
    var session := w.clients[c].session;
    if w.owner == Some(c) then
      if !session.NeedsThermalWatchdog() || !unsafeTemperature then Put(w, c, Reading, session)
      else if !lockAcquired then Put(w, c, Closing, EmergencyMaximum)
      else
        var w' := Put(w, c, if outcome == Verified then Reading else Closing, EmergencyMaximum);
        w'.(fans := FansAfter(SetMaximum, outcome, w.fans), abandoned := w.abandoned && !Verifies(outcome))
    else if session.RequiresAutoOnDisconnect() then Put(w, c, Reading, Session.Automatic)
    else Put(w, c, Reading, session)
  }

  /** Claim and execute one command under the lock. */
  function ClaimAndExecute(w: World, c: ClientId, command: Command, env: Environment): World
    requires c in w.clients
  {
    var session := w.clients[c].session;
    match Claim(w.owner, c, command)
    case None => Put(w, c, Responding(false), session)
    case Some(owner) =>
      var e := ExecuteCommand(command, session, w.fans, env);
      Put(w, c, Responding(e.succeeded), e.session)
        .(owner := owner, fans := e.fans, abandoned := w.abandoned && !e.verified)
  }

  predicate CleansUp(w: World, c: ClientId)
    requires c in w.clients
  {
    w.owner == Some(c) && w.clients[c].session.RequiresAutoOnDisconnect()
  }

  function Disconnect(w: World, c: ClientId, lockAcquired: bool, refreshed: bool, outcome: FanOutcome): World
    requires c in w.clients
  {
    var outcome := if lockAcquired && refreshed then outcome else NotAttempted;
    var cleansUp := CleansUp(w, c);
    w.(clients := w.clients - {c},
       owner := if w.owner == Some(c) then None else w.owner,
       fans := if cleansUp then FansAfter(SetAutomatic, outcome, w.fans) else w.fans,
       abandoned := if cleansUp then (if outcome == NotAttempted then true else outcome == RecoveryFailed)
                    else w.abandoned)
  }

  /** A missing reading counts as too hot. The temperatures are in millidegrees. */
  predicate TooHot(cpu: Option<int>, gpu: Option<int>) {
    cpu.None? || gpu.None? || cpu.value >= 92_000 || gpu.value >= 84_000
  }

  /** The thermal watchdog of the owner against the hardware: the state machine
      allows exactly what it does. A watched session that is too hot goes on only
      with both fans at Maximum. */
  method EnforceThermalWatchdog(hardware: AcerHardware, session: Session, cpu: Option<int>, gpu: Option<int>, lockAcquired: bool,
                                watchdog: bool, ghost w: World, ghost c: ClientId)
    returns (session': Session, goesOn: bool, ghost outcome: FanOutcome)
    requires c in w.clients && w.owner == Some(c) && w.clients[c].session == session && Agrees(hardware.modes, w.fans)
    modifies hardware
    ensures var w' := TopOfLoop(w, c, TooHot(cpu, gpu), lockAcquired, outcome);
            && w'.clients[c] == Client(if goesOn then Reading else Closing, session') && Agrees(hardware.modes, w'.fans)
            && w'.owner == w.owner && (forall other | other in w.clients && other != c :: w'.clients[other] == w.clients[other])
    ensures !(session.NeedsThermalWatchdog() && TooHot(cpu, gpu)) ==> goesOn && session' == session && unchanged(hardware)
    ensures session.NeedsThermalWatchdog() && TooHot(cpu, gpu) ==> session' == EmergencyMaximum
    ensures session.NeedsThermalWatchdog() && TooHot(cpu, gpu) && goesOn ==>
              hardware.HasBackend() && hardware.BothHold(FanMode.Maximum)
    ensures session.NeedsThermalWatchdog() && TooHot(cpu, gpu) && !lockAcquired ==> !goesOn && unchanged(hardware)
    ensures hardware.faithful && lockAcquired && old(Accepts(hardware, FanMaximum, watchdog)) ==> goesOn
  {
    outcome := NotAttempted;
    if !session.NeedsThermalWatchdog() {
      return session, true, outcome;
    }
    var unsafeOrUnavailable := cpu.None? || gpu.None? || cpu.value >= 92_000 || gpu.value >= 84_000;
    if !unsafeOrUnavailable {
      return session, true, outcome;
    }
    session' := EmergencyMaximum;
    if !lockAcquired {
      return session', false, outcome;
    }
    ghost var attempt: seq<Event>, automatic: seq<Event>, maximum: seq<Event>;
    var r: Result<FanState, HardwareError>;
    r, attempt, automatic, maximum := hardware.ApplyFanSetting(SetMaximum, watchdog);
    outcome := Classify(r);
    goesOn := r.Success?;
  }

  /** The cleanup after a disconnect against the rediscovered hardware. `failed`
      is the failsafe error that the client thread reports. */
  method CleanUpAfterDisconnect(hardware: AcerHardware, runtime: DaemonRuntime, c: ClientId, session: Session,
                                lockAcquired: bool, watchdog: bool, ghost w: World)
    returns (hardware': AcerHardware, failed: bool, ghost refreshed: bool, ghost outcome: FanOutcome)
    requires c in w.clients && w.owner == runtime.fanOwner && w.clients[c].session == session
    requires Agrees(hardware.modes, w.fans)
    modifies runtime
    ensures hardware' == hardware || fresh(hardware')
    ensures var w' := Disconnect(w, c, lockAcquired, refreshed, outcome);
            && Agrees(hardware'.modes, w'.fans) && runtime.fanOwner == w'.owner
            && (CleansUp(w, c) ==> (failed <==> !(lockAcquired && refreshed && outcome == Verified)))
            && (w'.abandoned ==> failed || (w.abandoned && !CleansUp(w, c)))
            && (!CleansUp(w, c) ==> !failed && hardware' == hardware && unchanged(hardware))
    ensures CleansUp(w, c) && !failed ==> hardware'.HasBackend() && hardware'.BothHold(FanMode.Automatic)
    ensures hardware.faithful && lockAcquired && old(Accepts(hardware, FanAuto, watchdog)) ==> !failed
  {
    hardware' := hardware;
    outcome := NotAttempted;
    failed := false;
    refreshed := false;
    var ownsFans := runtime.fanOwner == Some(c);
    if ownsFans && session.RequiresAutoOnDisconnect() {
      failed := true;
      if lockAcquired {
        var found := hardware.Refreshed();
        if found.Some? {
          refreshed := true;
          hardware' := found.value;
          ghost var attempt: seq<Event>, automatic: seq<Event>, maximum: seq<Event>;
          var r: Result<FanState, HardwareError>;
          r, attempt, automatic, maximum := hardware'.ApplyFanSetting(SetAutomatic, watchdog);
          outcome := Classify(r);
          failed := r.Failure?;
        }
      }
    }
    if ownsFans {
      runtime.fanOwner := None;
    }
  }

  function Next(w: World, step: Step): Option<World> {
    match step
    case Connect =>
      Some(Put(w, w.nextId, Top, Session.Automatic).(nextId := w.nextId + 1))
    case CheckTop(c, hot, lockAcquired, outcome) =>
      if At(w, c, Top) then Some(TopOfLoop(w, c, hot, lockAcquired, outcome)) else None
    case HandshakeTimeout(c) =>
      if At(w, c, Reading) then Some(Put(w, c, Closing, w.clients[c].session)) else None
    case ReadTimeout(c) =>
      if At(w, c, Reading) then Some(Put(w, c, Top, w.clients[c].session)) else None
    case ReadEnds(c) =>
      if At(w, c, Reading) then Some(Put(w, c, Closing, w.clients[c].session)) else None
    case AnswerDirectly(c, goesOn) =>
      if At(w, c, Reading) then Some(Put(w, c, if goesOn then Top else Closing, w.clients[c].session)) else None
    case Dispatch(c, command, env) =>
      if At(w, c, Reading) then Some(ClaimAndExecute(w, c, command, env)) else None
    case WriteResponse(c, written) =>
      if c in w.clients && w.clients[c].place.Responding? then
        var place := if written then Delivered(w.clients[c].place.succeeded) else Closing;
        Some(Put(w, c, place, w.clients[c].session))
      else None
    case AfterResponse(c) =>
      if c in w.clients && w.clients[c].place.Delivered? then
        var session := w.clients[c].session;
        if w.owner == Some(c) then
          var session := if w.clients[c].place.succeeded then session.ResponseDelivered() else session;
          Some(Put(w, c, Top, session).(owner := Release(w.owner, c, session)))
        else Some(Put(w, c, Top, session))
      else None
    case Cleanup(c, lockAcquired, refreshed, outcome) =>
      if At(w, c, Closing) then Some(Disconnect(w, c, lockAcquired, refreshed, outcome)) else None
    case ExternalAuto(outcome) =>
      Some(w.(fans := FansAfter(SetAutomatic, outcome, w.fans),
              abandoned := outcome == RecoveryFailed || (w.abandoned && !Verifies(outcome))))
  }

  const INITIAL: World := World(Known(FanMode.Automatic), None, map[], 1, false)

  function Run(w: World, steps: seq<Step>): Option<World> {
    if steps == [] then Some(w)
    else
      var w' := Run(w, steps[..|steps| - 1]);
      if w'.None? then None else Next(w'.value, steps[|steps| - 1])
  }

  predicate Reachable(w: World, steps: seq<Step>) {
    Run(INITIAL, steps) == Some(w)
  }

  // ----------------------------------------------------------------- safety

  predicate Unsafe(fans: Fans) {
    fans == Known(FanMode.Manual) || fans == Unverified
  }

  /** Somebody alive will hand the fans back to the firmware. */
  predicate Leased(w: World) {
    && w.owner.Some? && w.owner.value in w.clients
    && w.clients[w.owner.value].session.RequiresAutoOnDisconnect()
  }

  predicate Safe(w: World) {
    Unsafe(w.fans) ==> Leased(w) || w.abandoned
  }

  /** What every step keeps. The last clause says where an unacknowledged
      Maximum can be found at all: between its command and its release. */
  ghost predicate Inv(w: World) {
    && Safe(w)
    && (forall c | c in w.clients :: c < w.nextId)
    && (w.owner.Some? ==> w.owner.value in w.clients)
    && (Unsafe(w.fans) && Leased(w) && w.clients[w.owner.value].session == MaximumAwaitingResponse ==> w.abandoned)
    && (forall c | c in w.clients && w.clients[c].session == MaximumAwaitingResponse ::
          match w.clients[c].place
          case Responding(succeeded) => succeeded
          case Delivered(succeeded) => succeeded
          case Top => w.owner != Some(c)
          case Reading => false
          case Closing => true)
  }

  lemma DispatchKeepsInv(w: World, c: ClientId, command: Command, env: Environment)
    requires Inv(w) && At(w, c, Reading)
    ensures Inv(ClaimAndExecute(w, c, command, env))
  {
  }

  lemma DisconnectKeepsInv(w: World, c: ClientId, lockAcquired: bool, refreshed: bool, outcome: FanOutcome)
    requires Inv(w) && At(w, c, Closing)
    ensures Inv(Disconnect(w, c, lockAcquired, refreshed, outcome))
  {
  }

  lemma TopOfLoopKeepsInv(w: World, c: ClientId, hot: bool, lockAcquired: bool, outcome: FanOutcome)
    requires Inv(w) && At(w, c, Top)
    ensures Inv(TopOfLoop(w, c, hot, lockAcquired, outcome))
  {
  }

  lemma StepKeepsInv(w: World, step: Step)
    requires Inv(w) && Next(w, step).Some?
    ensures Inv(Next(w, step).value)
  {
    match step
    case Dispatch(c, command, env) => DispatchKeepsInv(w, c, command, env);
    case Cleanup(c, lockAcquired, refreshed, outcome) => DisconnectKeepsInv(w, c, lockAcquired, refreshed, outcome);
    case CheckTop(c, hot, lockAcquired, outcome) => TopOfLoopKeepsInv(w, c, hot, lockAcquired, outcome);
    case _ =>
  }

  lemma {:induction false} RunKeepsInv(w: World, steps: seq<Step>)
    requires Reachable(w, steps)
    ensures Inv(w)
    decreases |steps|
  {
    if steps != [] {
      var w' := Run(INITIAL, steps[..|steps| - 1]).value;
      RunKeepsInv(w', steps[..|steps| - 1]);
      StepKeepsInv(w', steps[|steps| - 1]);
    }
  }

  /** The state before step `i` of a run. */
  function Before(steps: seq<Step>, i: nat): World
    requires i <= |steps| && Run(INITIAL, steps).Some?
  {
    PrefixRuns(INITIAL, steps, i);
    Run(INITIAL, steps[..i]).value
  }

  lemma {:induction false} PrefixRuns(w: World, steps: seq<Step>, i: nat)
    requires i <= |steps| && Run(w, steps).Some?
    ensures Run(w, steps[..i]).Some?
    decreases |steps|
  {
    if i == |steps| {
      assert steps[..i] == steps;
    } else {
      PrefixRuns(w, steps[..|steps| - 1], i);
      assert steps[..|steps| - 1][..i] == steps[..i];
    }
  }

  lemma BeforeSteps(steps: seq<Step>, i: nat)
    requires i < |steps| && Run(INITIAL, steps).Some?
    ensures Next(Before(steps, i), steps[i]) == Some(Before(steps, i + 1))
  {
    PrefixRuns(INITIAL, steps, i + 1);
    assert steps[..i + 1][..i] == steps[..i];
  }

  lemma BeforeIsStable(steps: seq<Step>, i: nat)
    requires i < |steps| && Run(INITIAL, steps).Some?
    ensures Run(INITIAL, steps[..|steps| - 1]).Some?
    ensures Before(steps[..|steps| - 1], i) == Before(steps, i)
  {
    PrefixRuns(INITIAL, steps, |steps| - 1);
    assert steps[..|steps| - 1][..i] == steps[..i];
  }

  // ------------------------------------------------ what the flag stands for

  /** A cleanup or an external failsafe that could not verify any mode. */
  predicate ReportsFailsafeError(w: World, step: Step) {
    match step
    case Cleanup(c, lockAcquired, refreshed, outcome) =>
      c in w.clients && CleansUp(w, c) && !(lockAcquired && refreshed && Verifies(outcome))
    case ExternalAuto(outcome) => outcome == RecoveryFailed
    case _ => false
  }

  /** The step ran a fan transaction that ended in a verified mode. */
  predicate VerifiesFans(w: World, step: Step) {
    match step
    case Dispatch(c, command, env) =>
      c in w.clients && Claim(w.owner, c, command).Some?
      && ExecuteCommand(command, w.clients[c].session, w.fans, env).verified
    case CheckTop(c, hot, lockAcquired, outcome) =>
      c in w.clients && w.owner == Some(c) && w.clients[c].session.NeedsThermalWatchdog()
      && hot && lockAcquired && Verifies(outcome)
    case Cleanup(c, lockAcquired, refreshed, outcome) =>
      c in w.clients && CleansUp(w, c) && lockAcquired && refreshed && Verifies(outcome)
    case ExternalAuto(outcome) => Verifies(outcome)
    case _ => false
  }

  /** Step `i` reported a failsafe error and nothing verified the fans since. */
  ghost predicate ReportedAt(steps: seq<Step>, i: nat)
    requires Run(INITIAL, steps).Some?
  {
    && i < |steps|
    && ReportsFailsafeError(Before(steps, i), steps[i])
    && forall j | i < j < |steps| :: !VerifiesFans(Before(steps, j), steps[j])
  }

  lemma AbandonedStep(w: World, step: Step)
    requires Next(w, step).Some? && Next(w, step).value.abandoned
    ensures ReportsFailsafeError(w, step) || (w.abandoned && !VerifiesFans(w, step))
  {
  }

  lemma {:induction false} AbandonedWasReported(w: World, steps: seq<Step>) returns (i: nat)
    requires Reachable(w, steps) && w.abandoned
    ensures ReportedAt(steps, i)
    decreases |steps|
  {
    var n := |steps| - 1;
    BeforeSteps(steps, n);
    assert steps[..n + 1] == steps;
    AbandonedStep(Before(steps, n), steps[n]);
    if ReportsFailsafeError(Before(steps, n), steps[n]) {
      return n;
    }
    i := AbandonedWasReported(Before(steps, n), steps[..n]);
    BeforeIsStable(steps, i);
    forall j | i < j < |steps| ensures !VerifiesFans(Before(steps, j), steps[j]) {
      BeforeIsStable(steps, j);
    }
  }

  /** In every interleaving of any number of clients: whenever the fans are
      Manual or unverified, a live client holds the lease and will hand them
      back, unless a failsafe error was reported and no transaction has
      verified the fans since. */
  lemma FansAreNeverLostSilently(w: World, steps: seq<Step>)
    requires Reachable(w, steps) && Unsafe(w.fans)
    ensures Leased(w) || exists i :: ReportedAt(steps, i)
  {
    RunKeepsInv(w, steps);
    if !Leased(w) {
      var i := AbandonedWasReported(w, steps);
    }
  }

  /** A live lease is exclusive: no step of another client or of a client that
      connects touches fans or lease, except an explicit Auto or Maximum. */
  lemma LeaseIsExclusive(w: World, c: ClientId, step: Step)
    requires w.owner == Some(c) && c in w.clients && Next(w, step).Some?
    requires c < w.nextId
    requires Actor(step) != Some(c) && !step.ExternalAuto?
    ensures Overrides(step) ||
            var w' := Next(w, step).value;
            w'.fans == w.fans && w'.owner == w.owner && c in w'.clients && w'.clients[c] == w.clients[c]
  {
  }

  function Actor(step: Step): Option<ClientId> {
    match step
    case Connect => None
    case CheckTop(c, _, _, _) => Some(c)
    case HandshakeTimeout(c) => Some(c)
    case ReadTimeout(c) => Some(c)
    case ReadEnds(c) => Some(c)
    case AnswerDirectly(c, _) => Some(c)
    case Dispatch(c, _, _) => Some(c)
    case WriteResponse(c, _) => Some(c)
    case AfterResponse(c) => Some(c)
    case Cleanup(c, _, _, _) => Some(c)
    case ExternalAuto(_) => None
  }

  predicate Overrides(step: Step) {
    step.Dispatch? && step.command.SafetyOverride()
  }

  /** Only FAN AUTO and FAN MAXIMUM take the slot from another client, FAN and
      PROFILE take it from nobody else, and no other command touches it. */
  lemma ClaimDecides(owner: Option<ClientId>, c: ClientId, command: Command)
    ensures Claim(owner, c, command).None? <==>
              owner.Some? && owner != Some(c) && (command.FanManual? || command.Profile?)
    ensures Claim(owner, c, command).Some? ==> Claim(owner, c, command).value == if command.Other? then owner else Some(c)
  {
  }

  // --------------------------------------------------------- one FAN command

  /** A FAN command whose transaction ended verified. */
  predicate FanVerified(command: Command, env: Environment) {
    && env.acer && env.lockAcquired && env.refreshed && env.fanOutcome == Verified
    && (command.FanAuto? || command.FanMaximum? || (command.FanManual? && command.parses))
  }

  /** The exchange of one command: executed, answered and released. */
  function Exchanged(w: World, c: ClientId, command: Command, env: Environment): World
    requires At(w, c, Reading)
  {
    Next(Next(ClaimAndExecute(w, c, command, env), WriteResponse(c, true)).value, AfterResponse(c)).value
  }

  /** What a FAN command that may claim the fans leaves behind once it is
      answered: Auto and Maximum are released, Manual stays leased and watched,
      and so does everything that was not verified. */
  lemma FanCommandSettles(w: World, c: ClientId, command: Command, env: Environment)
    requires At(w, c, Reading) && command.IsFan() && Claim(w.owner, c, command).Some?
    ensures var w' := Exchanged(w, c, command, env);
            && At(w', c, Top)
            && var session := w'.clients[c].session;
               if FanVerified(command, env) then
                 && w'.fans == Known(if command.FanAuto? then FanMode.Automatic
                                     else if command.FanMaximum? then FanMode.Maximum else FanMode.Manual)
                 && w'.owner == (if command.FanManual? then Some(c) else None)
                 && session.RequiresAutoOnDisconnect() == session.NeedsThermalWatchdog() == command.FanManual?
               else
                 w'.owner == Some(c) && session.RequiresAutoOnDisconnect() && session.NeedsThermalWatchdog()
  {
    var w1 := ClaimAndExecute(w, c, command, env);
    ClaimDecides(w.owner, c, command);
    assert w1.owner == Some(c) && w1.clients[c].place == Responding(FanVerified(command, env));
    var w2 := Next(w1, WriteResponse(c, true)).value;
    assert w2.owner == Some(c) && w2.fans == w1.fans;
  }

  // -------------------------------------------------------- thermal watchdog

  /** The owner of fans that are not safe is watched, or it is on its way out
      after its watchdog failed. */
  predicate Watched(w: World) {
    Unsafe(w.fans) && Leased(w) && !w.abandoned ==>
      var owner := w.clients[w.owner.value];
      owner.session.NeedsThermalWatchdog() || (owner.session == EmergencyMaximum && owner.place == Closing)
  }

  lemma WatchedStep(w: World, step: Step)
    requires Inv(w) && Watched(w) && Next(w, step).Some?
    ensures Watched(Next(w, step).value)
  {
    match step
    case Dispatch(c, command, env) =>
      assert Claim(w.owner, c, command).Some? && command.Other? ==>
               ExecuteCommand(command, w.clients[c].session, w.fans, env).fans == w.fans;
    case _ =>
  }

  lemma {:induction false} RunKeepsWatch(w: World, steps: seq<Step>)
    requires Reachable(w, steps)
    ensures Watched(w)
    decreases |steps|
  {
    if steps != [] {
      var w' := LastStep(steps);
      RunKeepsWatch(w', steps[..|steps| - 1]);
      WatchedStep(w', steps[|steps| - 1]);
    }
  }

  /** The watchdog at the head of the loop: Maximum on both fans and a session
      that still hands them back, or the client is sent to its cleanup. */
  lemma WatchdogActs(w: World, c: ClientId, lockAcquired: bool, outcome: FanOutcome)
    requires At(w, c, Top) && w.owner == Some(c) && w.clients[c].session.NeedsThermalWatchdog()
    ensures var w' := Next(w, CheckTop(c, true, lockAcquired, outcome)).value;
            && Leased(w') && w'.owner == Some(c)
            && if lockAcquired && outcome == Verified then At(w', c, Reading) && w'.fans == Known(FanMode.Maximum)
               else At(w', c, Closing)
  {
  }

  /** In every run: fans that are Manual or unverified and not reported lost are
      set to Maximum by the next check of their owner that finds them too hot,
      or that check ends the client. */
  lemma HotFansAreCooled(w: World, steps: seq<Step>, c: ClientId, lockAcquired: bool, outcome: FanOutcome)
    requires Reachable(w, steps) && Unsafe(w.fans) && !w.abandoned
    requires At(w, c, Top) && w.owner == Some(c)
    ensures var w' := Next(w, CheckTop(c, true, lockAcquired, outcome)).value;
            && Leased(w') && w'.owner == Some(c)
            && if lockAcquired && outcome == Verified then At(w', c, Reading) && w'.fans == Known(FanMode.Maximum)
               else At(w', c, Closing)
  {
    RunKeepsInv(w, steps);
    RunKeepsWatch(w, steps);
    WatchdogActs(w, c, lockAcquired, outcome);
  }

  /** No client comes to its read but through that check. */
  lemma ReadsAfterCheck(w: World, step: Step, c: ClientId)
    requires Next(w, step).Some? && At(Next(w, step).value, c, Reading) && !At(w, c, Reading)
    ensures step.CheckTop? && step.c == c
  {
  }

  /** The cleanup of a live lease gives the fans back to the firmware when its
      transaction is verified, and frees the slot in any case. */
  lemma LeaseIsHandedBack(w: World, c: ClientId, lockAcquired: bool, refreshed: bool, outcome: FanOutcome)
    requires Leased(w) && w.owner == Some(c) && At(w, c, Closing)
    ensures var w' := Next(w, Cleanup(c, lockAcquired, refreshed, outcome)).value;
            && w'.owner == None && w'.clients == w.clients - {c}
            && (lockAcquired && refreshed && outcome == Verified ==> w'.fans == Known(FanMode.Automatic) && !w'.abandoned)
            && (!(lockAcquired && refreshed) ==> w'.fans == w.fans && w'.abandoned)
  {
  }

  // ------------------------------------------------------ persistent Maximum

  /** Step `i` executed Maximum for `c` and verified it. */
  predicate MaximumVerifiedAt(steps: seq<Step>, i: nat, c: ClientId) {
    && i < |steps| && steps[i].Dispatch? && steps[i].c == c && steps[i].command == FanMaximum
    && steps[i].env.acer && steps[i].env.lockAcquired && steps[i].env.refreshed
    && steps[i].env.fanOutcome == Verified
  }

  /** Since step `i` client `c` made no step up to `n` but writing its response. */
  ghost predicate OnlyWrote(steps: seq<Step>, i: nat, n: nat, c: ClientId) {
    forall k | i < k < n && k < |steps| :: Actor(steps[k]) == Some(c) ==> steps[k] == WriteResponse(c, true)
  }

  /** Between the verified Maximum at `i` and the release at `k` client `c` owned
      the fans throughout and its OK was written at `j`. */
  ghost predicate Acknowledged(steps: seq<Step>, i: nat, j: nat, k: nat, c: ClientId)
    requires Run(INITIAL, steps).Some?
  {
    && i < j < k < |steps|
    && MaximumVerifiedAt(steps, i, c)
    && steps[j] == WriteResponse(c, true)
    && steps[k] == AfterResponse(c) && Before(steps, k).owner == Some(c)
    && OnlyWrote(steps, i, k, c)
  }

  predicate Waits(w: World, c: ClientId) {
    c in w.clients && w.clients[c].session == MaximumAwaitingResponse
    && (w.clients[c].place.Responding? || w.clients[c].place.Delivered?)
  }

  lemma WaitingStep(w: World, step: Step, c: ClientId)
    requires Inv(w) && Next(w, step).Some? && Waits(Next(w, step).value, c)
    ensures || (MaximumVerifiedAt([step], 0, c) && Next(w, step).value.clients[c].place.Responding?)
            || (step == WriteResponse(c, true) && Waits(w, c))
            || (Actor(step) != Some(c) && c in w.clients && w.clients[c] == Next(w, step).value.clients[c])
  {
  }

  lemma PersistentStep(w: World, step: Step, c: ClientId)
    requires Inv(w) && Next(w, step).Some?
    requires c in Next(w, step).value.clients && Next(w, step).value.clients[c].session == PersistentMaximum
    ensures || (c in w.clients && w.clients[c].session == PersistentMaximum)
            || (step == AfterResponse(c) && w.owner == Some(c) && Waits(w, c) && w.clients[c].place.Delivered?)
  {
  }

  lemma {:induction false} MaximumWaits(w: World, steps: seq<Step>, c: ClientId) returns (i: nat, j: nat)
    requires Reachable(w, steps) && Waits(w, c)
    ensures MaximumVerifiedAt(steps, i, c) && OnlyWrote(steps, i, |steps|, c)
    ensures w.clients[c].place.Delivered? ==> i < j < |steps| && steps[j] == WriteResponse(c, true)
    decreases |steps|
  {
    var n := |steps| - 1;
    var w' := LastStep(steps);
    WaitingStep(w', steps[n], c);
    if MaximumVerifiedAt([steps[n]], 0, c) && w.clients[c].place.Responding? {
      return n, 0;
    }
    i, j := MaximumWaits(w', steps[..n], c);
    if steps[n] == WriteResponse(c, true) {
      j := n;
    }
  }

  /** The state before the last step of a run. */
  lemma LastStep(steps: seq<Step>) returns (w': World)
    requires Run(INITIAL, steps).Some? && steps != []
    ensures w' == Before(steps, |steps| - 1) && Reachable(w', steps[..|steps| - 1]) && Inv(w')
    ensures Next(w', steps[|steps| - 1]) == Run(INITIAL, steps)
  {
    w' := Before(steps, |steps| - 1);
    RunKeepsInv(w', steps[..|steps| - 1]);
  }

  /** A session is PersistentMaximum only if its Maximum was verified, then its
      OK was written, and the client still owned the fans after that. */
  lemma {:induction false} PersistentMaximumWasAcknowledged(w: World, steps: seq<Step>, c: ClientId)
    returns (i: nat, j: nat, k: nat)
    requires Reachable(w, steps) && c in w.clients && w.clients[c].session == PersistentMaximum
    ensures Acknowledged(steps, i, j, k, c)
    decreases |steps|
  {
    var n := |steps| - 1;
    var w' := LastStep(steps);
    PersistentStep(w', steps[n], c);
    if c in w'.clients && w'.clients[c].session == PersistentMaximum {
      i, j, k := PersistentMaximumWasAcknowledged(w', steps[..n], c);
      AcknowledgedBefore(steps, i, j, k, c);
    } else {
      i, j := MaximumWaits(w', steps[..n], c);
      k := n;
    }
  }

  lemma AcknowledgedBefore(steps: seq<Step>, i: nat, j: nat, k: nat, c: ClientId)
    requires steps != [] && Run(INITIAL, steps).Some? && Run(INITIAL, steps[..|steps| - 1]).Some?
    requires Acknowledged(steps[..|steps| - 1], i, j, k, c)
    ensures Acknowledged(steps, i, j, k, c)
  {
    BeforeIsStable(steps, k);
  }

  // -------------------------------------------------------- revoked leases

  /** A command of `c` that is able to claim the fans. */
  predicate MayClaim(step: Step, c: ClientId) {
    step.Dispatch? && step.c == c && step.command.ChangesFans()
  }

  /** `c` holds no lease, and none is pending in its session when `settled`. */
  predicate Unleased(w: World, c: ClientId, settled: bool) {
    && w.owner != Some(c) && c < w.nextId
    && (settled && c in w.clients ==> !w.clients[c].session.RequiresAutoOnDisconnect())
  }

  lemma UnleasedStep(w: World, step: Step, c: ClientId, settled: bool)
    requires Unleased(w, c, settled) && Next(w, step).Some? && !MayClaim(step, c)
    ensures Unleased(Next(w, step).value, c, settled)
  {
  }

  /** A client that does not own the fans stays without the lease until it
      sends FAN or PROFILE, and a session that needs no Auto stays so. */
  lemma {:induction false} WithoutTheLease(w: World, steps: seq<Step>, c: ClientId, settled: bool)
    requires Unleased(w, c, settled) && Run(w, steps).Some?
    requires forall i | 0 <= i < |steps| :: !MayClaim(steps[i], c)
    ensures Unleased(Run(w, steps).value, c, settled)
    decreases |steps|
  {
    if steps != [] {
      var n := |steps| - 1;
      WithoutTheLease(w, steps[..n], c, settled);
      UnleasedStep(Run(w, steps[..n]).value, steps[n], c, settled);
    }
  }

  /** So whatever the environment answers, its disconnect changes nothing else. */
  lemma DisconnectWithoutTheLease(w: World, steps: seq<Step>, c: ClientId, step: Step)
    requires Unleased(w, c, false) && Run(w, steps).Some?
    requires forall i | 0 <= i < |steps| :: !MayClaim(steps[i], c)
    requires step.Cleanup? && step.c == c
    ensures var w' := Run(w, steps).value;
            Next(w', step) == if At(w', c, Closing) then Some(w'.(clients := w'.clients - {c})) else None
  {
    WithoutTheLease(w, steps, c, false);
  }

  /** The head of the loop settles a client that lost its lease. */
  lemma TopOfLoopSettles(w: World, c: ClientId, hot: bool, lockAcquired: bool, outcome: FanOutcome)
    requires At(w, c, Top) && w.owner != Some(c) && c < w.nextId
    ensures var w' := TopOfLoop(w, c, hot, lockAcquired, outcome);
            Unleased(w', c, true) && w'.fans == w.fans && w'.owner == w.owner
  {
  }

  /** A PROFILE command claims the fans unless another client owns them. It
      does so before it is refused for any other reason. */
  predicate ClaimsProfile(w: World, c: ClientId) {
    w.owner == None || w.owner == Some(c)
  }

  /** A PROFILE command that puts the fans back to Automatic itself. */
  predicate RewritesFans(env: Environment) {
    env.acer && env.lockAcquired && env.refreshed && env.gamingWmi && env.modesRead == Some(false)
  }

  /** Whether a lease remains after a PROFILE: one that rewrites the fans replaces
      the old session by its own outcome, every other one leaves it as it was,
      also when it is answered with an error. */
  predicate LeavesLease(w: World, c: ClientId, env: Environment)
    requires c in w.clients
  {
    && ClaimsProfile(w, c)
    && if RewritesFans(env) then env.fanOutcome != Verified else w.clients[c].session.RequiresAutoOnDisconnect()
  }

  /** `c` owns the fans, and its session needs Auto and waits for no response. */
  predicate Holding(w: World, c: ClientId) {
    && w.owner == Some(c) && c in w.clients && c < w.nextId
    && w.clients[c].session.RequiresAutoOnDisconnect() && !w.clients[c].session.MaximumAwaitingResponse?
  }

  /** `c` has no lease: no slot, or a session that needs no Auto. */
  predicate NotHolding(w: World, c: ClientId) {
    c < w.nextId && (w.owner == Some(c) && c in w.clients ==> !w.clients[c].session.RequiresAutoOnDisconnect())
  }

  lemma HoldingStep(w: World, step: Step, c: ClientId)
    requires Holding(w, c) && Next(w, step).Some? && !MayClaim(step, c)
    ensures var w' := Next(w, step).value;
            if Overrides(step) then NotHolding(w', c)
            else Holding(w', c) || (c !in w'.clients && c < w'.nextId)
  {
  }

  lemma NotHoldingStep(w: World, step: Step, c: ClientId)
    requires NotHolding(w, c) && Next(w, step).Some? && !MayClaim(step, c)
    ensures NotHolding(Next(w, step).value, c)
    ensures c !in w.clients ==> c !in Next(w, step).value.clients
  {
  }

  /** However a run goes on without another claim of `c`: it holds its lease
      until somebody overrides it or it is gone. */
  lemma {:induction false} LeaseLasts(w: World, c: ClientId, rest: seq<Step>)
    requires (Holding(w, c) || NotHolding(w, c)) && Run(w, rest).Some?
    requires forall i | 0 <= i < |rest| :: !MayClaim(rest[i], c)
    ensures var w' := Run(w, rest).value;
            if Holding(w, c) && forall i | 0 <= i < |rest| :: !Overrides(rest[i])
            then Holding(w', c) || (c !in w'.clients && c < w'.nextId)
            else NotHolding(w', c)
    decreases |rest|
  {
    if rest != [] {
      var n := |rest| - 1;
      var front := rest[..n];
      LeaseLasts(w, c, front);
      var w' := Run(w, front).value;
      if Holding(w', c) {
        HoldingStep(w', rest[n], c);
      } else {
        NotHoldingStep(w', rest[n], c);
      }
      assert forall i | 0 <= i < n :: rest[i] == front[i];
    }
  }

  /** The daemon means a revoked client's disconnect not to undo the override.
      A PROFILE sent before the head of the loop was passed again breaks that.
      Whatever the environment answers to the PROFILE, and however the run goes
      on until `c` disconnects without another claim, the disconnect rewrites
      the fans if and only if a lease remained and nobody overrode it since. */
  lemma DisconnectAfterProfile(w: World, c: ClientId, env: Environment, rest: seq<Step>)
    requires Inv(w) && At(w, c, Reading)
    requires forall i | 0 <= i < |rest| :: !MayClaim(rest[i], c)
    requires var w' := Run(ClaimAndExecute(w, c, Profile, env), rest);
             w'.Some? && c in w'.value.clients
    ensures CleansUp(Run(ClaimAndExecute(w, c, Profile, env), rest).value, c)
            <==> LeavesLease(w, c, env) && forall i | 0 <= i < |rest| :: !Overrides(rest[i])
  {
    var w1 := ClaimAndExecute(w, c, Profile, env);
    ProfileDecides(w, c, env);
    LeaseLasts(w1, c, rest);
  }

  lemma ProfileDecides(w: World, c: ClientId, env: Environment)
    requires Inv(w) && At(w, c, Reading)
    ensures var w1 := ClaimAndExecute(w, c, Profile, env);
            if LeavesLease(w, c, env) then Holding(w1, c) else NotHolding(w1, c)
    ensures !RewritesFans(env) ==> ClaimAndExecute(w, c, Profile, env).fans == w.fans
  {
  }

  /** So a stale session that PROFILE meets with the slot free is never harmless
      by an error: a busy lock, a failed refresh, unreadable modes or a failed
      response write still leave the disconnect that rewrites the fans. */
  lemma RefusedProfileStillRewrites(w: World, c: ClientId, env: Environment, written: bool)
    requires Inv(w) && At(w, c, Reading) && w.owner == None && w.clients[c].session.RequiresAutoOnDisconnect()
    requires !RewritesFans(env)
    ensures var w1 := ClaimAndExecute(w, c, Profile, env);
            && w1.fans == w.fans && Next(w1, WriteResponse(c, written)).Some?
            && CleansUp(Next(w1, WriteResponse(c, written)).value, c)
  {
    var w1 := ClaimAndExecute(w, c, Profile, env);
    RunPair(w1, [], WriteResponse(c, written));
    assert [] + [WriteResponse(c, written)] == [WriteResponse(c, written)];
    ProfileDecides(w, c, env);
    DisconnectAfterProfile(w, c, env, [WriteResponse(c, written)]);
  }

  /** The rest of a connection that answers one command and then ends. */
  function Goodbye(c: ClientId): seq<Step> {
    [WriteResponse(c, true), AfterResponse(c), CheckTop(c, false, true, Verified), ReadEnds(c)]
  }

  lemma RunPair(w: World, steps: seq<Step>, step: Step)
    requires Run(w, steps).Some?
    ensures Run(w, steps + [step]) == Next(Run(w, steps).value, step)
  {
    assert (steps + [step])[..|steps + [step]| - 1] == steps;
  }

  lemma RunFour(w: World, a: Step, b: Step, c: Step, d: Step, w1: World, w2: World, w3: World, w4: World)
    requires Next(w, a) == Some(w1) && Next(w1, b) == Some(w2) && Next(w2, c) == Some(w3) && Next(w3, d) == Some(w4)
    ensures Run(w, [a, b, c, d]) == Some(w4)
  {
    assert [] + [a] == [a] && [a] + [b] == [a, b] && [a, b] + [c] == [a, b, c] && [a, b, c] + [d] == [a, b, c, d];
    RunPair(w, [], a);
    RunPair(w, [a], b);
    RunPair(w, [a, b], c);
    RunPair(w, [a, b, c], d);
  }

  /** What a client that owns the fans leaves behind when it says goodbye. */
  lemma GoodbyeRuns(w: World, c: ClientId)
    requires c in w.clients && w.clients[c].place.Responding? && w.owner == Some(c)
    requires !w.clients[c].session.MaximumAwaitingResponse?
    ensures Run(w, Goodbye(c)).Some?
    ensures var session := w.clients[c].session;
            Run(w, Goodbye(c)).value ==
            w.(owner := Release(w.owner, c, session), clients := w.clients[c := Client(Closing, session)])
  {
    var w2 := Next(w, WriteResponse(c, true)).value;
    var w3 := Next(w2, AfterResponse(c)).value;
    var w4 := Next(w3, CheckTop(c, false, true, Verified)).value;
    var w5 := Next(w4, ReadEnds(c)).value;
    RunFour(w, WriteResponse(c, true), AfterResponse(c), CheckTop(c, false, true, Verified), ReadEnds(c), w2, w3, w4, w5);
  }

  /** A client in its read whose session outlived its lease. */
  predicate Stale(w: World, c: ClientId) {
    At(w, c, Reading) && w.clients[c].session.RequiresAutoOnDisconnect() && w.owner != Some(c)
  }

  lemma StaleStep(w: World, step: Step, c: ClientId)
    requires Inv(w) && Next(w, step).Some? && Stale(Next(w, step).value, c)
    ensures Actor(step) != Some(c)
    ensures Stale(w, c) || (At(w, c, Reading) && w.owner == Some(c) && Overrides(step))
  {
  }

  /** A stale session is always due to an Auto or Maximum of another client that
      arrived while this one was in its read, and to nothing else. */
  lemma {:induction false} StaleMeansRevokedInRead(w: World, steps: seq<Step>, c: ClientId) returns (i: nat)
    requires Reachable(w, steps) && Stale(w, c)
    ensures i < |steps| && Overrides(steps[i])
    ensures Before(steps, i).owner == Some(c) && At(Before(steps, i), c, Reading)
    ensures forall k | i <= k < |steps| :: Actor(steps[k]) != Some(c)
    decreases |steps|
  {
    var n := |steps| - 1;
    var w' := LastStep(steps);
    StaleStep(w', steps[n], c);
    if Stale(w', c) {
      i := StaleMeansRevokedInRead(w', steps[..n], c);
      BeforeIsStable(steps, i);
    } else {
      i := n;
    }
  }

  lemma {:induction false} RunOn(w: World, first: seq<Step>, second: seq<Step>)
    requires Run(w, first).Some?
    ensures Run(w, first + second) == Run(Run(w, first).value, second)
    decreases |second|
  {
    if second == [] {
      assert first + second == first;
    } else {
      var n := |second| - 1;
      RunOn(w, first, second[..n]);
      assert (first + second)[..|first + second| - 1] == first + second[..n];
    }
  }

  // The concrete run: client 1 drives Manual and waits in its read; client 2
  // sets Maximum, has it acknowledged and keeps it; client 1 sends a PROFILE
  // and goes, and its disconnect puts the fans back to Automatic.

  const SMOOTH: Environment := Environment(true, true, true, false, None, Verified, true)
  const MANUAL_50: Step := Dispatch(1, FanManual(true, 50, 50), SMOOTH)
  const MAXIMUM: Step := Dispatch(2, FanMaximum, SMOOTH)

  function Check(c: ClientId): Step {
    CheckTop(c, false, true, Verified)
  }

  function Two(fans: Fans, owner: Option<ClientId>, one: Client, two: Client): World {
    World(fans, owner, map[1 := one, 2 := two], 3, false)
  }

  const DRIVES: seq<Step> := [Connect, Check(1), MANUAL_50, WriteResponse(1, true)]
  const JOINS: seq<Step> := [AfterResponse(1), Check(1), Connect, Check(2)]
  const OVERRIDES: seq<Step> := [MAXIMUM, WriteResponse(2, true), AfterResponse(2), Dispatch(1, Profile, SMOOTH)]

  const DRIVING: World := World(Known(FanMode.Manual), Some(1), map[1 := Client(Delivered(true), Session.Manual)], 2, false)
  const JOINED: World := Two(Known(FanMode.Manual), Some(1), Client(Reading, Session.Manual), Client(Reading, Session.Automatic))
  const OVERRIDDEN: World := Two(Known(FanMode.Maximum), None, Client(Reading, Session.Manual), Client(Top, PersistentMaximum))

  lemma Drives()
    ensures Run(INITIAL, DRIVES) == Some(DRIVING)
  {
    var w1 := Next(INITIAL, Connect).value;
    var w2 := Next(w1, Check(1)).value;
    var w3 := Next(w2, MANUAL_50).value;
    assert Next(w3, WriteResponse(1, true)).value.clients == DRIVING.clients;
    RunFour(INITIAL, Connect, Check(1), MANUAL_50, WriteResponse(1, true), w1, w2, w3, DRIVING);
  }

  lemma Joins()
    ensures Run(DRIVING, JOINS) == Some(JOINED)
  {
    var w1 := Next(DRIVING, AfterResponse(1)).value;
    var w2 := Next(w1, Check(1)).value;
    var w3 := Next(w2, Connect).value;
    assert Next(w3, Check(2)).value.clients == JOINED.clients;
    RunFour(DRIVING, AfterResponse(1), Check(1), Connect, Check(2), w1, w2, w3, JOINED);
  }

  lemma OverridesManual()
    ensures Run(JOINED, OVERRIDES) == Some(ClaimAndExecute(OVERRIDDEN, 1, Profile, SMOOTH))
  {
    var w1 := Next(JOINED, MAXIMUM).value;
    var w2 := Next(w1, WriteResponse(2, true)).value;
    assert Next(w2, AfterResponse(2)).value.clients == OVERRIDDEN.clients;
    RunFour(JOINED, MAXIMUM, WriteResponse(2, true), AfterResponse(2), Dispatch(1, Profile, SMOOTH),
            w1, w2, OVERRIDDEN, ClaimAndExecute(OVERRIDDEN, 1, Profile, SMOOTH));
  }

  lemma StaleProfileIsReachable()
    ensures Run(INITIAL, DRIVES + JOINS + OVERRIDES) == Some(ClaimAndExecute(OVERRIDDEN, 1, Profile, SMOOTH))
  {
    Drives();
    Joins();
    OverridesManual();
    RunOn(INITIAL, DRIVES, JOINS);
    RunOn(INITIAL, DRIVES + JOINS, OVERRIDES);
  }

  lemma RevokedClientUndoesTheOverride() returns (steps: seq<Step>, w: World, w': World)
    ensures steps == DRIVES + JOINS + OVERRIDES + Goodbye(1) && Reachable(w, steps)
    ensures w.fans == Known(FanMode.Maximum) && 2 in w.clients && w.clients[2].session == PersistentMaximum
    ensures Next(w, Cleanup(1, true, true, Verified)) == Some(w')
    ensures w'.fans == Known(FanMode.Automatic)
  {
    var start := OVERRIDDEN;
    StaleProfileIsReachable();
    GoodbyeRuns(ClaimAndExecute(start, 1, Profile, SMOOTH), 1);
    var before := DRIVES + JOINS + OVERRIDES;
    RunOn(INITIAL, before, Goodbye(1));
    steps := before + Goodbye(1);
    w := Run(INITIAL, steps).value;
    w' := Next(w, Cleanup(1, true, true, Verified)).value;
  }
}
