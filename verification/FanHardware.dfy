/**
  The two-channel fan transaction of src/hardware.rs: take both channels away
  from firmware automation, set them, read everything back, and fall back to
  Automatic and then Maximum when any step fails.

  The firmware is adversarial: every write may fail, may store something else
  than was asked for (also when it reports failure), and every read may fail.
  A read that succeeds reports what the register really holds.
*/
module FanHardware {
  import opened Wrappers

  const PWM_MAX: nat := 255

  datatype FanMode = Maximum | Manual | Automatic

  datatype Channel = Cpu | Gpu

  datatype FanBackend = KernelPwm(manual: bool) | AcerGamingWmi(manual: bool)

  datatype FanSetting = SetAutomatic | SetMaximum | SetManual(cpuPercent: u8, gpuPercent: u8)
  {
    function Mode(): FanMode {
      match this
      case SetAutomatic => Automatic
      case SetMaximum => Maximum
      case SetManual(_, _) => Manual
    }
  }

  /** What a mode register holds; Junk stands for any text that is no mode. */
  datatype Register = Holds(mode: FanMode) | Junk

  datatype Pair<T> = Pair(cpu: T, gpu: T)
  {
    function At(c: Channel): T {
      if c == Cpu then cpu else gpu
    }
    function With(c: Channel, value: T): Pair<T> {
      if c == Cpu then Pair(value, gpu) else Pair(cpu, value)
    }
  }

  datatype HardwareError =
    | Io
    | InvalidValue
    | ReadbackMismatch
    | UnsupportedPlatform
    | FanControlUnavailable
    | ManualFanUnavailable
    | MutationRolledBack(cause: HardwareError)
    | MutationFailsafeMaximum(cause: HardwareError, automatic: HardwareError)
    | MutationRecoveryFailed(cause: HardwareError, automatic: HardwareError, maximum: HardwareError)

  datatype FanState = FanState(modes: Pair<Option<FanMode>>, pwm: Pair<Option<u8>>)

  // ---------------------------------------------------------------- percent

  function PercentToPwm(percent: nat, scale: nat): nat {
    (percent * scale + 99) / 100
  }

  function PwmToPercent(pwm: nat, scale: nat): nat
    requires scale > 0
  {
    (pwm * 100 + scale / 2) / scale
  }

  lemma DivisionIsUnique(n: nat, d: nat, q: nat)
    requires d > 0 && q * d <= n < q * d + d
    ensures n / d == q
  {
    var k := n / d;
    assert n == k * d + n % d;
    assert k < q ==> (k + 1) * d <= q * d;
    assert k > q ==> k * d >= (q + 1) * d;
  }

  /** What rounding up to a raw value adds, in hundredths of a raw step. */
  function Excess(percent: nat, scale: nat): nat {
    PercentToPwm(percent, scale) * 100 - percent * scale
  }

  /** The round trip keeps a percentage exactly if rounding up adds less than
      the larger half of the scale: the condition for every percentage and scale. */
  lemma RoundTripIff(percent: nat, scale: nat)
    requires scale > 0
    ensures Excess(percent, scale) < 100
    ensures PwmToPercent(PercentToPwm(percent, scale), scale) == percent <==> Excess(percent, scale) < scale - scale / 2
  {
    var n := PercentToPwm(percent, scale) * 100 + scale / 2;
    assert n == percent * scale + (Excess(percent, scale) + scale / 2);
    if Excess(percent, scale) < scale - scale / 2 {
      DivisionIsUnique(n, scale, percent);
    } else {
      assert n >= (percent + 1) * scale;
      QuotientIsAtLeast(n, scale, percent + 1);
    }
  }

  lemma QuotientIsAtLeast(n: nat, d: nat, q: nat)
    requires d > 0 && n >= q * d
    ensures n / d >= q
  {
    var k := n / d;
    assert n == k * d + n % d;
    assert k < q ==> (k + 1) * d <= q * d;
  }

  /** Any raw value a driver may report for `percent`, rounded either way,
      is decoded as that same percentage. */
  lemma ReadbackDecodesThePercentage(percent: nat, scale: nat, raw: nat)
    requires scale >= 198
    requires percent * scale < raw * 100 + 100 && raw * 100 < percent * scale + 100
    ensures PwmToPercent(raw, scale) == percent
  {
    if scale == 198 {
      EvenExcess(percent, raw);
    } else {
      DivisionIsUnique(raw * 100 + scale / 2, scale, percent);
    }
  }

  /** At 198 the deviation is even, so it never reaches 99. */
  lemma EvenExcess(percent: nat, raw: nat)
    requires percent * 198 < raw * 100 + 100 && raw * 100 < percent * 198 + 100
    ensures PwmToPercent(raw, 198) == percent
  {
    var deviation := raw * 50 - percent * 99;
    assert -50 < deviation < 50;
    assert raw * 100 + 99 == percent * 198 + (2 * deviation + 99);
  }

  lemma PercentRoundTrip(percent: nat, scale: nat)
    requires scale >= 198
    ensures PwmToPercent(PercentToPwm(percent, scale), scale) == percent
  {
    ReadbackDecodesThePercentage(percent, scale, PercentToPwm(percent, scale));
  }

  /** A driver that keeps an integer percentage internally, rounding down on
      the way in and again on the way out, neither selects the preceding
      percentage nor breaks the verification of the requested one. */
  lemma IntegerDriverKeepsThePercentage(percent: nat, scale: nat)
    requires scale >= 198
    ensures PercentToPwm(percent, scale) * 100 / scale == percent
    ensures PwmToPercent(percent * scale / 100, scale) == percent
  {
    DivisionIsUnique(PercentToPwm(percent, scale) * 100, scale, percent);
    ReadbackDecodesThePercentage(percent, scale, percent * scale / 100);
  }

  /** No smaller bound will do: at 197 the round trip of 33 percent fails. */
  lemma PercentRoundTripNeedsTheScale()
    ensures PwmToPercent(PercentToPwm(33, 197), 197) == 34 && Excess(33, 197) == 99 == 197 - 197 / 2
  {
  }

  // ----------------------------------------------------------------- script

  /** One access to the firmware. */
  datatype Action =
    | WriteMode(c: Channel, mode: FanMode)
    | WriteSpeed(c: Channel, percent: nat)
    | VerifyMode(c: Channel, mode: FanMode)
    | VerifySpeed(c: Channel, percent: nat)
    | ReadMode(c: Channel)
    | ReadSpeed(c: Channel)

  /** What the firmware answered. */
  datatype Answer =
    | Accepted
    | Refused
    | NoMode          // the mode getter reports "no such device"
    | ModeIs(register: Register)
    | SpeedIs(raw: Option<u8>)      // None: text that is no byte

  datatype Event = Event(action: Action, answer: Answer)

  function ActualPercent(backend: FanBackend, raw: nat): nat {
    if backend.KernelPwm? then PwmToPercent(raw, PWM_MAX) else raw
  }

  /** How the transaction judges one access. */
  function Judge(backend: FanBackend, e: Event): Outcome<HardwareError> {
    match e.action
    case WriteMode(_, _) => if e.answer == Accepted then Pass else Fail(Io)
    case WriteSpeed(_, _) => if e.answer == Accepted then Pass else Fail(Io)
    case VerifyMode(_, mode) =>
      if !e.answer.ModeIs? then Fail(Io)
      else if e.answer.register == Holds(mode) then Pass else Fail(ReadbackMismatch)
    case VerifySpeed(_, percent) =>
      if !e.answer.SpeedIs? then Fail(Io)
      else if e.answer.raw.None? then Fail(InvalidValue)
      else if ActualPercent(backend, e.answer.raw.value) == percent then Pass
      else Fail(ReadbackMismatch)
    case ReadMode(_) =>
      if e.answer.NoMode? && backend.KernelPwm? then Pass
      else if !e.answer.ModeIs? then Fail(Io)
      else if e.answer.register.Junk? then Fail(InvalidValue) else Pass
    case ReadSpeed(_) =>
      if backend.KernelPwm? then Pass
      else if !e.answer.SpeedIs? then Fail(Io)
      else if e.answer.raw.None? || e.answer.raw.value > 100 then Fail(InvalidValue) else Pass
  }

  function ModeScript(mode: FanMode): seq<Action> {
    [WriteMode(Cpu, mode), WriteMode(Gpu, mode), VerifyMode(Cpu, mode), VerifyMode(Gpu, mode)]
  }

  function PrepareScript(cpu: nat, gpu: nat): seq<Action> {
    [WriteMode(Cpu, Maximum), WriteMode(Gpu, Maximum),
     VerifyMode(Cpu, Maximum), VerifyMode(Gpu, Maximum),
     WriteSpeed(Cpu, cpu), WriteSpeed(Gpu, gpu)]
  }

  function EnterScript(cpu: nat, gpu: nat): seq<Action> {
    [WriteMode(Cpu, Manual), WriteMode(Gpu, Manual), WriteSpeed(Cpu, cpu), WriteSpeed(Gpu, gpu)]
  }

  function ConfirmScript(cpu: nat, gpu: nat): seq<Action> {
    [VerifySpeed(Cpu, cpu), VerifySpeed(Gpu, gpu), VerifyMode(Cpu, Manual), VerifyMode(Gpu, Manual)]
  }

  /** Firmware-safe order: both channels verified at Maximum, both speeds, both
      channels Manual, both speeds again, and only then the readbacks. */
  function ManualScript(cpu: nat, gpu: nat): seq<Action> {
    PrepareScript(cpu, gpu) + (EnterScript(cpu, gpu) + ConfirmScript(cpu, gpu))
  }

  /** Gaming-WMI without speed setpoints has nothing to read but the modes. */
  function ReadScript(backend: FanBackend): seq<Action> {
    if backend == AcerGamingWmi(false) then [ReadMode(Cpu), ReadMode(Gpu)]
    else [ReadMode(Cpu), ReadSpeed(Cpu), ReadMode(Gpu), ReadSpeed(Gpu)]
  }

  function Script(setting: FanSetting): seq<Action> {
    match setting
    case SetManual(cpu, gpu) => ManualScript(cpu, gpu)
    case _ => ModeScript(setting.Mode())
  }

  /** `events` is what happens when `script` is run up to its first access that
      is judged a failure, and `r` is the judgement it ends with. */
  ghost predicate Ran(backend: FanBackend, script: seq<Action>, events: seq<Event>, r: Outcome<HardwareError>) {
    && |events| <= |script|
    && (forall i | 0 <= i < |events| :: events[i].action == script[i])
    && (forall i | 0 <= i < |events| - 1 :: Judge(backend, events[i]) == Pass)
    && (if events == [] then script == [] && r == Pass else r == Judge(backend, events[|events| - 1]))
    && (r == Pass ==> |events| == |script|)
  }

  ghost predicate AllPassed(backend: FanBackend, script: seq<Action>, events: seq<Event>) {
    |events| <= |script| && forall i | 0 <= i < |events| :: events[i].action == script[i] && Judge(backend, events[i]) == Pass
  }

  /** The first `k` accesses of `script` were made since `base` and passed. */
  ghost predicate Passed(backend: FanBackend, script: seq<Action>, base: seq<Event>, log: seq<Event>, k: nat)
    requires k <= |script|
  {
    base <= log && |log| == |base| + k && AllPassed(backend, script, log[|base|..])
  }

  /** One more access: either the run goes on or it ends here. */
  lemma RunStep(backend: FanBackend, script: seq<Action>, base: seq<Event>, log: seq<Event>, log': seq<Event>,
                k: nat, r: Outcome<HardwareError>)
    requires k < |script| && Passed(backend, script, base, log, k)
    requires Logged(backend, log, log', script[k], r)
    ensures base <= log'
    ensures r == Pass ==> Passed(backend, script, base, log', k + 1)
    ensures r != Pass || k + 1 == |script| ==> Ran(backend, script, log'[|base|..], r)
  {
    assert log'[|base|..] == log[|base|..] + [log'[|log|]];
  }

  /** A script that passed goes on with the next one; one that failed ends the whole. */
  lemma RunOnward(backend: FanBackend, first: seq<Action>, second: seq<Action>, events: seq<Event>, more: seq<Event>,
                  r1: Outcome<HardwareError>, r2: Outcome<HardwareError>)
    requires Ran(backend, first, events, r1) && |first| > 0
    requires r1 == Pass ==> Ran(backend, second, more, r2) && |second| > 0
    ensures r1 == Pass ==> Ran(backend, first + second, events + more, r2)
    ensures r1 != Pass ==> Ran(backend, first + second, events, r1)
  {
    if r1 == Pass {
      forall i | 0 <= i < |events + more| - 1
        ensures Judge(backend, (events + more)[i]) == Pass
      {
        assert i < |events| - 1 || i == |events| - 1 || (events + more)[i] == more[i - |events|];
      }
    }
  }

  /** The access after `log` was `action` and it was judged `r`. */
  ghost predicate Logged(backend: FanBackend, log: seq<Event>, log': seq<Event>, action: Action, r: Outcome<HardwareError>) {
    && |log'| == |log| + 1
    && log <= log'
    && log'[|log|].action == action
    && r == Judge(backend, log'[|log|])
  }

  predicate ValidPercent(percent: nat) {
    20 <= percent <= 100
  }

  /** Before `i`, both channels were verified at Maximum and both requested
      speeds were accepted. */
  ghost predicate Prepared(cpu: nat, gpu: nat, events: seq<Event>, i: nat)
    requires i <= |events|
  {
    && Event(VerifyMode(Cpu, Maximum), ModeIs(Holds(Maximum))) in events[..i]
    && Event(VerifyMode(Gpu, Maximum), ModeIs(Holds(Maximum))) in events[..i]
    && Event(WriteSpeed(Cpu, cpu), Accepted) in events[..i]
    && Event(WriteSpeed(Gpu, gpu), Accepted) in events[..i]
  }

  predicate WritesManual(e: Event) {
    e.action.WriteMode? && e.action.mode == Manual
  }

  /** However far the Manual script gets, Manual is only written once both
      channels were verified at Maximum and both speeds were set. */
  lemma ManualIsPrepared(backend: FanBackend, cpu: nat, gpu: nat, events: seq<Event>, r: Outcome<HardwareError>, i: nat)
    requires Ran(backend, ManualScript(cpu, gpu), events, r)
    requires i < |events| && WritesManual(events[i])
    ensures Prepared(cpu, gpu, events, i)
  {
    assert i == 6 || i == 7;
    assert Judge(backend, events[2]) == Pass;
    assert Judge(backend, events[3]) == Pass;
    assert Judge(backend, events[4]) == Pass;
    assert Judge(backend, events[5]) == Pass;
    assert events[..i][2] == Event(VerifyMode(Cpu, Maximum), ModeIs(Holds(Maximum)));
    assert events[..i][3] == Event(VerifyMode(Gpu, Maximum), ModeIs(Holds(Maximum)));
    assert events[..i][4] == Event(WriteSpeed(Cpu, cpu), Accepted);
    assert events[..i][5] == Event(WriteSpeed(Gpu, gpu), Accepted);
  }

  ghost predicate ManualInOrder(setting: FanSetting, events: seq<Event>) {
    forall i | 0 <= i < |events| && WritesManual(events[i]) ::
      setting.SetManual? && Prepared(setting.cpuPercent, setting.gpuPercent, events, i)
  }

  ghost predicate NeverManual(events: seq<Event>) {
    forall i | 0 <= i < |events| :: !WritesManual(events[i])
  }

  lemma OrderSurvives(setting: FanSetting, base: seq<Event>, log: seq<Event>, log': seq<Event>)
    requires base <= log <= log'
    requires ManualInOrder(setting, log[|base|..]) && NeverManual(log'[|log|..])
    ensures ManualInOrder(setting, log'[|base|..])
  {
    var events, all, tail := log[|base|..], log'[|base|..], log'[|log|..];
    assert forall k | 0 <= k < |tail| :: all[|events| + k] == tail[k];
    assert forall i | |events| <= i < |all| :: all[i] == tail[i - |events|];
    forall i | |events| <= i < |all| ensures !WritesManual(all[i]) {
      assert all[i] == tail[i - |events|];
    }
    forall i | 0 <= i < |all| && WritesManual(all[i])
      ensures setting.SetManual? && Prepared(setting.cpuPercent, setting.gpuPercent, all, i)
    {
      assert i < |events| && all[i] == events[i];
      assert all[..i] == events[..i];
    }
  }

  /** A forced mode is written to both channels even when the first write fails. */
  ghost predicate Forced(backend: FanBackend, mode: FanMode, events: seq<Event>, r: Outcome<HardwareError>) {
    && |events| >= 2
    && events[0].action == WriteMode(Cpu, mode) && events[1].action == WriteMode(Gpu, mode)
    && (if Judge(backend, events[0]) != Pass then |events| == 2 && r == Judge(backend, events[0])
        else if Judge(backend, events[1]) != Pass then |events| == 2 && r == Judge(backend, events[1])
        else Ran(backend, ModeScript(mode), events, r))
  }

  /** The accesses of a recovery: `automatic` forced Automatic, and `maximum`
      forced Maximum after it exactly if that failed. The error carries what each
      of them ended with. */
  ghost predicate Recovery(backend: FanBackend, error: HardwareError, automatic: seq<Event>, maximum: seq<Event>) {
    match error
    case MutationRolledBack(_) => Forced(backend, Automatic, automatic, Pass) && maximum == []
    case MutationFailsafeMaximum(_, e) =>
      Forced(backend, Automatic, automatic, Fail(e)) && Forced(backend, Maximum, maximum, Pass)
    case MutationRecoveryFailed(_, e, f) =>
      Forced(backend, Automatic, automatic, Fail(e)) && Forced(backend, Maximum, maximum, Fail(f))
    case _ => false
  }

  /** A recovery begins by writing Automatic to both channels, and it goes on to
      Maximum on both exactly if Automatic was not verified. */
  lemma RecoveryBegins(backend: FanBackend, error: HardwareError, automatic: seq<Event>, maximum: seq<Event>)
    requires Recovery(backend, error, automatic, maximum)
    ensures |automatic| >= 2 && automatic[0].action == WriteMode(Cpu, Automatic) && automatic[1].action == WriteMode(Gpu, Automatic)
    ensures maximum == [] <==> error.MutationRolledBack?
    ensures maximum != [] ==>
              |maximum| >= 2 && maximum[0].action == WriteMode(Cpu, Maximum) && maximum[1].action == WriteMode(Gpu, Maximum)
  {
  }

  /** A recovery that reports a mode ends with the four accesses that force and
      verify it. */
  lemma RecoveryEndsVerified(backend: FanBackend, error: HardwareError, automatic: seq<Event>, maximum: seq<Event>)
    requires Recovery(backend, error, automatic, maximum)
    ensures error.MutationRolledBack? ==> Ran(backend, ModeScript(Automatic), automatic, Pass) && |automatic| == 4
    ensures error.MutationFailsafeMaximum? ==> Ran(backend, ModeScript(Maximum), maximum, Pass) && |maximum| == 4
  {
  }

  /** A Manual setting that is refused before any access. */
  predicate Invalid(setting: FanSetting) {
    setting.SetManual? && !(ValidPercent(setting.cpuPercent) && ValidPercent(setting.gpuPercent))
  }

  /** The script of the setting passed and the readback after it ended with `r`. */
  ghost predicate ReadAfterScript(backend: FanBackend, setting: FanSetting, attempt: seq<Event>, r: Outcome<HardwareError>) {
    var n := |Script(setting)|;
    && n <= |attempt| && Ran(backend, Script(setting), attempt[..n], Pass)
    && Ran(backend, ReadScript(backend), attempt[n..], r)
  }

  /** Where an attempt can fail, and that `cause` is what it failed with: at its
      percentages, in its script, in the readback, or by the modes read back. */
  ghost predicate AttemptFailed(backend: FanBackend, setting: FanSetting, attempt: seq<Event>, cause: HardwareError) {
    if Invalid(setting) then attempt == [] && cause == InvalidValue
    else
      || Ran(backend, Script(setting), attempt, Fail(cause))
      || ReadAfterScript(backend, setting, attempt, Fail(cause))
      || (ReadAfterScript(backend, setting, attempt, Pass) && cause == ReadbackMismatch)
  }

  // ---------------------------------------------------------------- outcome

  datatype FanOutcome = Verified | RolledBack | FailsafeMaximum | RecoveryFailed | NotAttempted

  function Classify(r: Result<FanState, HardwareError>): FanOutcome {
    match r
    case Success(_) => Verified
    case Failure(MutationRolledBack(_)) => RolledBack
    case Failure(MutationFailsafeMaximum(_, _)) => FailsafeMaximum
    case Failure(MutationRecoveryFailed(_, _, _)) => RecoveryFailed
    case Failure(_) => NotAttempted
  }

  /** What is known about the pair of fans. */
  datatype Fans = Known(mode: FanMode) | Unverified

  /** What a transaction that ended with `outcome` establishes. */
  function FansAfter(setting: FanSetting, outcome: FanOutcome, before: Fans): Fans {
    match outcome
    case Verified => Known(setting.Mode())
    case RolledBack => Known(Automatic)
    case FailsafeMaximum => Known(Maximum)
    case RecoveryFailed => Unverified
    case NotAttempted => before
  }

  /** The registers agree with what is known. */
  predicate Agrees(modes: Pair<Register>, fans: Fans) {
    fans.Known? ==> modes == Pair(Holds(fans.mode), Holds(fans.mode))
  }

  class AcerHardware {
    const acer: bool
    const fanBackend: Option<FanBackend>
    /** Nothing fails, modes are stored as written, and speeds as by a driver
        that keeps whole percentages; discovery finds the same device again. */
    const faithful: bool
    var modes: Pair<Register>
    var speeds: Pair<Option<u8>>
    ghost var log: seq<Event>

    constructor (acer: bool, fanBackend: Option<FanBackend>, faithful: bool, modes: Pair<Register>, speeds: Pair<Option<u8>>)
      ensures this.acer == acer && this.fanBackend == fanBackend && this.faithful == faithful
      ensures this.modes == modes && this.speeds == speeds && log == []
    {
      this.acer := acer;
      this.fanBackend := fanBackend;
      this.faithful := faithful;
      this.modes := modes;
      this.speeds := speeds;
      log := [];
    }

    /** Discovery again: the same registers, found through whatever is there now. */
    method Refreshed() returns (r: Option<AcerHardware>)
      ensures r.Some? ==> fresh(r.value) && r.value.modes == modes && r.value.speeds == speeds && r.value.faithful == faithful
      ensures faithful ==> r.Some? && r.value.acer == acer && r.value.fanBackend == fanBackend
    {
      var discovered: bool := *;
      var acerNow: bool := *;
      var backend: Option<FanBackend> := *;
      if faithful {
        discovered, acerNow, backend := true, acer, fanBackend;
      }
      if !discovered {
        return None;
      }
      var hardware := new AcerHardware(acerNow, backend, faithful, modes, speeds);
      r := Some(hardware);
    }

    predicate HasBackend() {
      fanBackend.Some?
    }

    /** Every access since `before` belongs to a run of `script` ending with `r`. */
    ghost predicate LoggedRun(before: seq<Event>, script: seq<Action>, r: Outcome<HardwareError>)
      requires HasBackend()
      reads this
    {
      before <= log && Ran(fanBackend.value, script, log[|before|..], r)
    }

    // ------------------------------------------------------------- firmware

    method WriteMode(c: Channel, mode: FanMode) returns (r: Outcome<HardwareError>)
      requires HasBackend()
      modifies `modes, `log
      ensures Logged(fanBackend.value, old(log), log, Action.WriteMode(c, mode), r)
      ensures modes == old(modes).With(c, modes.At(c))
      ensures faithful ==> r == Pass && modes.At(c) == Holds(mode)
    {
      var stored: Register := *;
      var accepted: bool := *;
      if faithful {
        stored, accepted := Holds(mode), true;
      }
      modes := modes.With(c, stored);
      log := log + [Event(Action.WriteMode(c, mode), if accepted then Accepted else Refused)];
      r := if accepted then Pass else Fail(Io);
    }

    method WriteSpeedPercent(c: Channel, percent: nat) returns (r: Outcome<HardwareError>)
      requires HasBackend()
      modifies `speeds, `log
      ensures Logged(fanBackend.value, old(log), log, WriteSpeed(c, percent), r)
      ensures speeds == old(speeds).With(c, speeds.At(c))
      ensures faithful && percent <= 100 ==> r == Pass && SpeedHolds(c, percent)
    {
      var stored: Option<u8> := *;
      var accepted: bool := *;
      if faithful && percent <= 100 {
        IntegerDriverKeepsThePercentage(percent, PWM_MAX);
        var raw := if fanBackend.value.KernelPwm? then PercentToPwm(percent, PWM_MAX) * 100 / PWM_MAX * PWM_MAX / 100 else percent;
        stored, accepted := Some(raw), true;
      }
      speeds := speeds.With(c, stored);
      log := log + [Event(WriteSpeed(c, percent), if accepted then Accepted else Refused)];
      r := if accepted then Pass else Fail(Io);
    }

    method VerifyMode(c: Channel, expected: FanMode) returns (r: Outcome<HardwareError>)
      requires HasBackend()
      modifies `log
      ensures Logged(fanBackend.value, old(log), log, Action.VerifyMode(c, expected), r)
      ensures r == Pass ==> modes.At(c) == Holds(expected)
      ensures faithful && modes.At(c) == Holds(expected) ==> r == Pass
    {
      var readable: bool := *;
      readable := readable || faithful;
      log := log + [Event(Action.VerifyMode(c, expected), if readable then ModeIs(modes.At(c)) else Refused)];
      r := if !readable then Fail(Io)
           else if modes.At(c) == Holds(expected) then Pass else Fail(ReadbackMismatch);
    }

    method VerifyPwmPercent(c: Channel, expected: nat) returns (r: Outcome<HardwareError>)
      requires HasBackend()
      modifies `log
      ensures Logged(fanBackend.value, old(log), log, VerifySpeed(c, expected), r)
      ensures r == Pass ==> SpeedHolds(c, expected)
      ensures faithful && SpeedHolds(c, expected) ==> r == Pass
    {
      var readable: bool := *;
      readable := readable || faithful;
      log := log + [Event(VerifySpeed(c, expected), if readable then SpeedIs(speeds.At(c)) else Refused)];
      if !readable {
        return Fail(Io);
      }
      if speeds.At(c).None? {
        return Fail(InvalidValue);
      }
      var actual := match fanBackend.value
        case KernelPwm(_) => PwmToPercent(speeds.At(c).value, PWM_MAX)
        case AcerGamingWmi(_) => speeds.At(c).value;
      r := if actual == expected then Pass else Fail(ReadbackMismatch);
    }

    ghost predicate SpeedHolds(c: Channel, percent: nat)
      requires HasBackend()
      reads `speeds
    {
      speeds.At(c).Some? && ActualPercent(fanBackend.value, speeds.At(c).value) == percent
    }

    ghost predicate BothHold(mode: FanMode)
      reads `modes
    {
      modes == Pair(Holds(mode), Holds(mode))
    }

    // --------------------------------------------------------- transactions

    method SetBothModes(mode: FanMode) returns (r: Outcome<HardwareError>)
      requires HasBackend()
      modifies `modes, `log
      ensures LoggedRun(old(log), ModeScript(mode), r)
      ensures r == Pass ==> BothHold(mode)
      ensures faithful ==> r == Pass
    {
      ghost var b, script, base, prev := fanBackend.value, ModeScript(mode), log, log;
      r := WriteMode(Cpu, mode);
      RunStep(b, script, base, prev, log, 0, r);
      if r.Fail? { return; }
      prev := log;
      r := WriteMode(Gpu, mode);
      RunStep(b, script, base, prev, log, 1, r);
      if r.Fail? { return; }
      prev := log;
      r := VerifyMode(Cpu, mode);
      RunStep(b, script, base, prev, log, 2, r);
      if r.Fail? { return; }
      prev := log;
      r := VerifyMode(Gpu, mode);
      RunStep(b, script, base, prev, log, 3, r);
    }

    method SetManual(cpu: nat, gpu: nat) returns (r: Outcome<HardwareError>)
      requires HasBackend()
      modifies `modes, `speeds, `log
      ensures !(ValidPercent(cpu) && ValidPercent(gpu)) ==> r == Fail(InvalidValue) && unchanged(this)
      ensures ValidPercent(cpu) && ValidPercent(gpu) ==> LoggedRun(old(log), ManualScript(cpu, gpu), r)
      ensures faithful && ValidPercent(cpu) && ValidPercent(gpu) ==> r == Pass
      ensures r == Pass ==> BothHold(Manual) && SpeedHolds(Cpu, cpu) && SpeedHolds(Gpu, gpu)
    {
      if !(20 <= cpu <= 100) { return Fail(InvalidValue); }
      if !(20 <= gpu <= 100) { return Fail(InvalidValue); }
      ghost var base := log;
      r := PrepareManual(cpu, gpu);
      ghost var prepared, r1 := log, r;
      if r.Pass? {
        r := EnterAndConfirm(cpu, gpu);
        assert log[|base|..] == prepared[|base|..] + log[|prepared|..];
      }
      RunOnward(fanBackend.value, PrepareScript(cpu, gpu), EnterScript(cpu, gpu) + ConfirmScript(cpu, gpu),
                prepared[|base|..], log[|prepared|..], r1, r);
    }

    method PrepareManual(cpu: nat, gpu: nat) returns (r: Outcome<HardwareError>)
      requires HasBackend()
      modifies `modes, `speeds, `log
      ensures LoggedRun(old(log), PrepareScript(cpu, gpu), r)
      ensures faithful && cpu <= 100 && gpu <= 100 ==> r == Pass
    {
      ghost var b, script, base, prev := fanBackend.value, PrepareScript(cpu, gpu), log, log;
      r := WriteMode(Cpu, Maximum);
      RunStep(b, script, base, prev, log, 0, r);
      if r.Fail? { return; }
      prev := log;
      r := WriteMode(Gpu, Maximum);
      RunStep(b, script, base, prev, log, 1, r);
      if r.Fail? { return; }
      prev := log;
      r := VerifyMode(Cpu, Maximum);
      RunStep(b, script, base, prev, log, 2, r);
      if r.Fail? { return; }
      prev := log;
      r := VerifyMode(Gpu, Maximum);
      RunStep(b, script, base, prev, log, 3, r);
      if r.Fail? { return; }
      prev := log;
      r := WriteSpeedPercent(Cpu, cpu);
      RunStep(b, script, base, prev, log, 4, r);
      if r.Fail? { return; }
      prev := log;
      r := WriteSpeedPercent(Gpu, gpu);
      RunStep(b, script, base, prev, log, 5, r);
    }

    method EnterAndConfirm(cpu: nat, gpu: nat) returns (r: Outcome<HardwareError>)
      requires HasBackend()
      modifies `modes, `speeds, `log
      ensures LoggedRun(old(log), EnterScript(cpu, gpu) + ConfirmScript(cpu, gpu), r)
      ensures faithful && cpu <= 100 && gpu <= 100 ==> r == Pass
      ensures r == Pass ==> BothHold(Manual) && SpeedHolds(Cpu, cpu) && SpeedHolds(Gpu, gpu)
    {
      ghost var base := log;
      r := EnterManual(cpu, gpu);
      ghost var entered, r1 := log, r;
      if r.Pass? {
        r := ConfirmManual(cpu, gpu);
        assert log[|base|..] == entered[|base|..] + log[|entered|..];
      }
      RunOnward(fanBackend.value, EnterScript(cpu, gpu), ConfirmScript(cpu, gpu),
                entered[|base|..], log[|entered|..], r1, r);
    }

    method EnterManual(cpu: nat, gpu: nat) returns (r: Outcome<HardwareError>)
      requires HasBackend()
      modifies `modes, `speeds, `log
      ensures LoggedRun(old(log), EnterScript(cpu, gpu), r)
      ensures faithful && cpu <= 100 && gpu <= 100 ==>
                r == Pass && BothHold(Manual) && SpeedHolds(Cpu, cpu) && SpeedHolds(Gpu, gpu)
    {
      ghost var b, script, base, prev := fanBackend.value, EnterScript(cpu, gpu), log, log;
      r := WriteMode(Cpu, Manual);
      RunStep(b, script, base, prev, log, 0, r);
      if r.Fail? { return; }
      prev := log;
      r := WriteMode(Gpu, Manual);
      RunStep(b, script, base, prev, log, 1, r);
      if r.Fail? { return; }
      prev := log;
      r := WriteSpeedPercent(Cpu, cpu);
      RunStep(b, script, base, prev, log, 2, r);
      if r.Fail? { return; }
      prev := log;
      r := WriteSpeedPercent(Gpu, gpu);
      RunStep(b, script, base, prev, log, 3, r);
    }

    method ConfirmManual(cpu: nat, gpu: nat) returns (r: Outcome<HardwareError>)
      requires HasBackend()
      modifies `log
      ensures LoggedRun(old(log), ConfirmScript(cpu, gpu), r)
      ensures faithful && BothHold(Manual) && SpeedHolds(Cpu, cpu) && SpeedHolds(Gpu, gpu) ==> r == Pass
      ensures r == Pass ==> BothHold(Manual) && SpeedHolds(Cpu, cpu) && SpeedHolds(Gpu, gpu)
    {
      ghost var b, script, base, prev := fanBackend.value, ConfirmScript(cpu, gpu), log, log;
      r := VerifyPwmPercent(Cpu, cpu);
      RunStep(b, script, base, prev, log, 0, r);
      if r.Fail? { return; }
      prev := log;
      r := VerifyPwmPercent(Gpu, gpu);
      RunStep(b, script, base, prev, log, 1, r);
      if r.Fail? { return; }
      prev := log;
      r := VerifyMode(Cpu, Manual);
      RunStep(b, script, base, prev, log, 2, r);
      if r.Fail? { return; }
      prev := log;
      r := VerifyMode(Gpu, Manual);
      RunStep(b, script, base, prev, log, 3, r);
    }

    method ForceModeUnchecked(mode: FanMode) returns (r: Outcome<HardwareError>)
      requires HasBackend()
      modifies `modes, `log
      ensures old(log) <= log && Forced(fanBackend.value, mode, log[|old(log)|..], r)
      ensures mode != Manual ==> NeverManual(log[|old(log)|..])
      ensures r == Pass ==> BothHold(mode) && |log| == |old(log)| + 4
      ensures faithful ==> r == Pass
    {
      ghost var b, script, base, prev := fanBackend.value, ModeScript(mode), log, log;
      var first := WriteMode(Cpu, mode);
      ghost var once := log;
      var second := WriteMode(Gpu, mode);
      if first.Fail? { return first; }
      if second.Fail? { return second; }
      RunStep(b, script, base, base, once, 0, first);
      RunStep(b, script, base, once, log, 1, second);
      prev := log;
      r := VerifyMode(Cpu, mode);
      RunStep(b, script, base, prev, log, 2, r);
      if r.Fail? { return; }
      prev := log;
      r := VerifyMode(Gpu, mode);
      RunStep(b, script, base, prev, log, 3, r);
    }

    // ------------------------------------------------------------- readback

    method ReadModeOf(c: Channel) returns (r: Result<Option<FanMode>, HardwareError>)
      requires HasBackend()
      modifies `log
      ensures Logged(fanBackend.value, old(log), log, ReadMode(c), Flat(r))
      ensures r.Success? && r.value.Some? ==> modes.At(c) == Holds(r.value.value)
      ensures r.Success? && r.value.None? ==> fanBackend.value.KernelPwm?
      ensures faithful && modes.At(c).Holds? ==> r == Success(Some(modes.At(c).mode))
    {
      var present: bool := *;
      var readable: bool := *;
      present, readable := present || faithful, readable || faithful;
      log := log + [Event(ReadMode(c), if !present then NoMode else if !readable then Refused else ModeIs(modes.At(c)))];
      if !present && fanBackend.value.KernelPwm? {
        return Success(None);
      }
      if !present || !readable {
        return Failure(Io);
      }
      r := match modes.At(c)
        case Junk => Failure(InvalidValue)
        case Holds(mode) => Success(Some(mode));
    }

    /** A reported speed is that of its own channel: the raw register of the
        kernel driver if it could be read, and the scaled percentage of Gaming-WMI. */
    ghost predicate TrueSpeed(c: Channel, pwm: Option<u8>)
      requires HasBackend()
      reads `speeds
    {
      match fanBackend.value
      case KernelPwm(_) => pwm == speeds.At(c) || (pwm == None && !faithful)
      case AcerGamingWmi(_) =>
        && pwm.Some? && speeds.At(c).Some? && speeds.At(c).value <= 100
        && pwm.value == PercentToPwm(speeds.At(c).value, PWM_MAX)
    }

    /** Gaming-WMI without speed setpoints reports no speed. */
    ghost predicate TrueSpeeds(state: FanState)
      requires HasBackend()
      reads `speeds
    {
      if fanBackend.value == AcerGamingWmi(false) then state.pwm == Pair(None, None)
      else TrueSpeed(Cpu, state.pwm.cpu) && TrueSpeed(Gpu, state.pwm.gpu)
    }

    method ReadSpeedOf(c: Channel) returns (r: Result<Option<u8>, HardwareError>)
      requires HasBackend()
      modifies `log
      ensures Logged(fanBackend.value, old(log), log, ReadSpeed(c), Flat(r))
      ensures r.Success? ==> TrueSpeed(c, r.value)
      ensures faithful ==> (r.Success? <==> fanBackend.value.KernelPwm? || (speeds.At(c).Some? && speeds.At(c).value <= 100))
      ensures faithful && r.Failure? ==> r.error == InvalidValue
    {
      var readable: bool := *;
      readable := readable || faithful;
      log := log + [Event(ReadSpeed(c), if readable then SpeedIs(speeds.At(c)) else Refused)];
      if fanBackend.value.KernelPwm? {
        return Success(if readable then speeds.At(c) else None);
      }
      if !readable {
        return Failure(Io);
      }
      if speeds.At(c).None? || speeds.At(c).value > 100 {
        return Failure(InvalidValue);
      }
      PercentFitsAByte(speeds.At(c).value);
      r := Success(Some(PercentToPwm(speeds.At(c).value, PWM_MAX)));
    }

    method ReadFanState() returns (r: Result<FanState, HardwareError>)
      modifies `log
      ensures !HasBackend() ==> r == Success(FanState(Pair(None, None), Pair(None, None))) && log == old(log)
      ensures HasBackend() ==> LoggedRun(old(log), ReadScript(fanBackend.value), Flat(r))
      ensures r.Success? ==> TrueModes(r.value) && (HasBackend() ==> TrueSpeeds(r.value))
      ensures HasBackend() && faithful && modes.cpu.Holds? && modes.gpu.Holds? ==> ReadsFaithfully(r)
    {
      if fanBackend.None? {
        return Success(FanState(Pair(None, None), Pair(None, None)));
      }
      if fanBackend.value == AcerGamingWmi(false) {
        r := ReadModesOnly();
        return;
      }
      r := ReadModesAndSpeeds();
    }

    method ReadModesOnly() returns (r: Result<FanState, HardwareError>)
      requires fanBackend == Some(AcerGamingWmi(false))
      modifies `log
      ensures LoggedRun(old(log), ReadScript(fanBackend.value), Flat(r))
      ensures r.Success? ==> TrueModes(r.value) && TrueSpeeds(r.value)
      ensures faithful && modes.cpu.Holds? && modes.gpu.Holds? ==> ReadsFaithfully(r)
    {
      ghost var b, script, base, prev := fanBackend.value, ReadScript(fanBackend.value), log, log;
      var cpu := ReadModeOf(Cpu);
      RunStep(b, script, base, prev, log, 0, Flat(cpu));
      if cpu.Failure? { return Failure(cpu.error); }
      prev := log;
      var gpu := ReadModeOf(Gpu);
      RunStep(b, script, base, prev, log, 1, Flat(gpu));
      if gpu.Failure? { return Failure(gpu.error); }
      r := Success(FanState(Pair(cpu.value, gpu.value), Pair(None, None)));
    }

    method ReadModesAndSpeeds() returns (r: Result<FanState, HardwareError>)
      requires HasBackend() && fanBackend != Some(AcerGamingWmi(false))
      modifies `log
      ensures LoggedRun(old(log), ReadScript(fanBackend.value), Flat(r))
      ensures r.Success? ==> TrueModes(r.value) && TrueSpeeds(r.value)
      ensures faithful && modes.cpu.Holds? && modes.gpu.Holds? ==> ReadsFaithfully(r)
    {
      ghost var b, script, base, prev := fanBackend.value, ReadScript(fanBackend.value), log, log;
      var cpu := ReadModeOf(Cpu);
      RunStep(b, script, base, prev, log, 0, Flat(cpu));
      if cpu.Failure? { return Failure(cpu.error); }
      prev := log;
      var cpuPwm := ReadSpeedOf(Cpu);
      RunStep(b, script, base, prev, log, 1, Flat(cpuPwm));
      if cpuPwm.Failure? { return Failure(cpuPwm.error); }
      prev := log;
      var gpu := ReadModeOf(Gpu);
      RunStep(b, script, base, prev, log, 2, Flat(gpu));
      if gpu.Failure? { return Failure(gpu.error); }
      prev := log;
      var gpuPwm := ReadSpeedOf(Gpu);
      RunStep(b, script, base, prev, log, 3, Flat(gpuPwm));
      if gpuPwm.Failure? { return Failure(gpuPwm.error); }
      r := Success(FanState(Pair(cpu.value, gpu.value), Pair(cpuPwm.value, gpuPwm.value)));
    }

    /** Gaming-WMI speeds are read as percentages, so they must be some. */
    predicate SpeedsReadable()
      requires HasBackend()
      reads `speeds
    {
      fanBackend.value == AcerGamingWmi(true) ==>
        speeds.cpu.Some? && speeds.cpu.value <= 100 && speeds.gpu.Some? && speeds.gpu.value <= 100
    }

    /** A faithful device reports both modes, or fails for an unreadable speed. */
    ghost predicate ReadsFaithfully(r: Result<FanState, HardwareError>)
      requires HasBackend()
      reads `modes, `speeds
    {
      && (r.Success? <==> SpeedsReadable())
      && (r.Failure? ==> r.error == InvalidValue)
      && (r.Success? && modes.cpu.Holds? && modes.gpu.Holds? ==>
            r.value.modes == Pair(Some(modes.cpu.mode), Some(modes.gpu.mode)))
    }

    /** Every mode that was read is what its channel holds, and only the kernel
        driver reports none. */
    ghost predicate TrueModes(state: FanState)
      reads `modes
    {
      && (state.modes.cpu.Some? ==> modes.cpu == Holds(state.modes.cpu.value))
      && (state.modes.gpu.Some? ==> modes.gpu == Holds(state.modes.gpu.value))
      && (HasBackend() && fanBackend.value.AcerGamingWmi? ==> state.modes.cpu.Some? && state.modes.gpu.Some?)
    }

    /** Why a final readback fails: an access did, or the modes read are not the expected ones. */
    ghost predicate Unread(expected: FanMode, events: seq<Event>, error: HardwareError)
      requires HasBackend()
      reads `modes
    {
      || Ran(fanBackend.value, ReadScript(fanBackend.value), events, Fail(error))
      || (&& Ran(fanBackend.value, ReadScript(fanBackend.value), events, Pass) && error == ReadbackMismatch
          && (!BothHold(expected) || fanBackend.value.KernelPwm?))
    }

    method ReadVerifiedFanState(expected: FanMode) returns (r: Result<FanState, HardwareError>)
      requires HasBackend()
      modifies `log
      ensures old(log) <= log && NeverManual(log[|old(log)|..])
      ensures r.Success? ==> Ran(fanBackend.value, ReadScript(fanBackend.value), log[|old(log)|..], Pass)
      ensures r.Success? ==> BothHold(expected) && r.value.modes == Pair(Some(expected), Some(expected)) && TrueSpeeds(r.value)
      ensures r.Failure? ==> Unread(expected, log[|old(log)|..], r.error)
      ensures r.Failure? && faithful && BothHold(expected) ==> r.error == InvalidValue
      ensures faithful && BothHold(expected) ==> (r.Success? <==> SpeedsReadable())
    {
      r := ReadFanState();
      if r.Failure? { return; }
      if r.value.modes.cpu != Some(expected) { return Failure(ReadbackMismatch); }
      if r.value.modes.gpu != Some(expected) { return Failure(ReadbackMismatch); }
    }

    // ---------------------------------------------------------- transaction

    /** The checks that refuse a setting before the firmware is touched. */
    function Refusal(setting: FanSetting, watchdog: bool): (r: Option<HardwareError>) {
      if !acer then Some(UnsupportedPlatform)
      else if fanBackend.None? then Some(FanControlUnavailable)
      else if setting.SetManual? && !(fanBackend.value.manual && watchdog) then Some(ManualFanUnavailable)
      else None
    }

    /** `watchdog` says whether both watchdog temperatures are readable now. The
        accesses are those of the attempt and those of its recovery, if any. */
    method ApplyFanSetting(setting: FanSetting, watchdog: bool)
      returns (r: Result<FanState, HardwareError>, ghost attempt: seq<Event>, ghost automatic: seq<Event>, ghost maximum: seq<Event>)
      modifies this
      ensures Classify(r) == NotAttempted <==> Refusal(setting, watchdog).Some?
      ensures Refusal(setting, watchdog).Some? ==>
                r == Failure(Refusal(setting, watchdog).value) && unchanged(this)
      ensures forall before: Fans | Agrees(old(modes), before) ::
                Agrees(modes, FansAfter(setting, Classify(r), before))
      ensures old(log) <= log && ManualInOrder(setting, log[|old(log)|..])
      ensures log == old(log) + attempt + automatic + maximum
      ensures r.Success? ==> Achieved(setting, attempt, r.value) && automatic + maximum == []
      ensures match Classify(r)
              case RolledBack => BothHold(Automatic)
              case FailsafeMaximum => BothHold(Maximum)
              case _ => true
      ensures Classify(r) in {RolledBack, FailsafeMaximum, RecoveryFailed} ==>
                && AttemptFailed(fanBackend.value, setting, attempt, r.error.cause)
                && Recovery(fanBackend.value, r.error, automatic, maximum)
      ensures faithful && Refusal(setting, watchdog).None? ==>
                && (r.Success? <==> old(Deliverable(setting)))
                && (r.Failure? ==> r.error == MutationRolledBack(InvalidValue))
    {
      attempt, automatic, maximum := [], [], [];
      if !acer {
        return Failure(UnsupportedPlatform), [], [], [];
      }
      if fanBackend.None? {
        return Failure(FanControlUnavailable), [], [], [];
      }
      if setting.SetManual? && !fanBackend.value.manual {
        return Failure(ManualFanUnavailable), [], [], [];
      }
      if setting.SetManual? && !watchdog {
        return Failure(ManualFanUnavailable), [], [], [];
      }
      ghost var base := log;
      r, attempt := Attempt(setting);
      assert log[|base|..] == attempt;
      if r.Failure? {
        r, automatic, maximum := Recover(setting, r.error, base);
      }
    }

    /** The setting is in effect: both modes, and both speeds of a Manual. */
    ghost predicate Delivered(setting: FanSetting)
      reads `modes, `speeds
    {
      && HasBackend() && BothHold(setting.Mode())
      && (setting.SetManual? ==>
            ValidPercent(setting.cpuPercent) && ValidPercent(setting.gpuPercent)
            && SpeedHolds(Cpu, setting.cpuPercent) && SpeedHolds(Gpu, setting.gpuPercent))
    }

    /** The setting was made and read back: modes, speeds and every access. */
    ghost predicate Achieved(setting: FanSetting, attempt: seq<Event>, state: FanState)
      reads `modes, `speeds
    {
      && Delivered(setting)
      && state.modes == Pair(Some(setting.Mode()), Some(setting.Mode())) && TrueSpeeds(state)
      && ReadAfterScript(fanBackend.value, setting, attempt, Pass)
    }

    /** The mutation and its final readback, without any recovery. */
    method Attempt(setting: FanSetting) returns (r: Result<FanState, HardwareError>, ghost attempt: seq<Event>)
      requires HasBackend()
      modifies this
      ensures log == old(log) + attempt && ManualInOrder(setting, attempt)
      ensures r.Success? ==> Achieved(setting, attempt, r.value)
      ensures r.Failure? ==> AttemptFailed(fanBackend.value, setting, attempt, r.error)
      ensures faithful ==> (r.Success? <==> old(Deliverable(setting))) && (r.Failure? ==> r.error == InvalidValue)
    {
      ghost var base := log;
      var mutation := Mutate(setting);
      attempt := log[|base|..];
      if mutation.Fail? {
        return Failure(mutation.error), attempt;
      }
      r, attempt := ReadBack(setting, base);
    }

    /** The readback that follows a script that passed. */
    method ReadBack(setting: FanSetting, ghost base: seq<Event>) returns (r: Result<FanState, HardwareError>, ghost attempt: seq<Event>)
      requires HasBackend() && !Invalid(setting)
      requires base <= log && ManualInOrder(setting, log[|base|..])
      requires Ran(fanBackend.value, Script(setting), log[|base|..], Pass)
      modifies `log
      ensures log == base + attempt && ManualInOrder(setting, attempt)
      ensures r.Success? ==>
                && BothHold(setting.Mode()) && r.value.modes == Pair(Some(setting.Mode()), Some(setting.Mode()))
                && TrueSpeeds(r.value) && ReadAfterScript(fanBackend.value, setting, attempt, Pass)
      ensures r.Failure? ==> AttemptFailed(fanBackend.value, setting, attempt, r.error)
      ensures faithful && BothHold(setting.Mode()) ==> (r.Success? <==> SpeedsReadable()) && (r.Failure? ==> r.error == InvalidValue)
    {
      ghost var mutated := log;
      r := ReadVerifiedFanState(setting.Mode());
      OrderSurvives(setting, base, mutated, log);
      attempt := log[|base|..];
      if r.Success? {
        ReadAfter(setting, base, mutated, log, Pass);
      } else {
        ReadFailed(setting, base, mutated, log, r.error);
      }
    }

    /** After a script that passed, what follows is the readback. */
    lemma ReadAfter(setting: FanSetting, base: seq<Event>, mutated: seq<Event>, log: seq<Event>, r: Outcome<HardwareError>)
      requires HasBackend() && base <= mutated <= log
      requires Ran(fanBackend.value, Script(setting), mutated[|base|..], Pass)
      requires Ran(fanBackend.value, ReadScript(fanBackend.value), log[|mutated|..], r)
      ensures ReadAfterScript(fanBackend.value, setting, log[|base|..], r)
    {
      var attempt, n := log[|base|..], |Script(setting)|;
      assert attempt[..n] == mutated[|base|..] && attempt[n..] == log[|mutated|..];
    }

    lemma ReadFailed(setting: FanSetting, base: seq<Event>, mutated: seq<Event>, log: seq<Event>, error: HardwareError)
      requires HasBackend() && base <= mutated <= log && !Invalid(setting)
      requires Ran(fanBackend.value, Script(setting), mutated[|base|..], Pass)
      requires Unread(setting.Mode(), log[|mutated|..], error)
      ensures AttemptFailed(fanBackend.value, setting, log[|base|..], error)
    {
      if Ran(fanBackend.value, ReadScript(fanBackend.value), log[|mutated|..], Fail(error)) {
        ReadAfter(setting, base, mutated, log, Fail(error));
      } else {
        ReadAfter(setting, base, mutated, log, Pass);
      }
    }

    /** What a device that never fails delivers: Manual within its percentages,
        and the other modes unless an old speed cannot be read back. */
    predicate Deliverable(setting: FanSetting)
      requires HasBackend()
      reads `speeds
    {
      match setting
      case SetManual(cpu, gpu) => ValidPercent(cpu) && ValidPercent(gpu)
      case _ => SpeedsReadable()
    }

    method Mutate(setting: FanSetting) returns (r: Outcome<HardwareError>)
      requires HasBackend()
      modifies this
      ensures old(log) <= log && ManualInOrder(setting, log[|old(log)|..])
      ensures if Invalid(setting) then r == Fail(InvalidValue) && log == old(log)
              else Ran(fanBackend.value, Script(setting), log[|old(log)|..], r)
      ensures r == Pass ==> BothHold(setting.Mode())
      ensures !setting.SetManual? ==> speeds == old(speeds)
      ensures faithful ==> (r == Pass <==> !setting.SetManual? || old(Deliverable(setting))) && (r.Fail? ==> r.error == InvalidValue)
      ensures r == Pass && setting.SetManual? ==>
                ValidPercent(setting.cpuPercent) && ValidPercent(setting.gpuPercent)
                && SpeedHolds(Cpu, setting.cpuPercent) && SpeedHolds(Gpu, setting.gpuPercent)
    {
      ghost var base := log;
      match setting
      case SetManual(cpu, gpu) =>
        r := SetManual(cpu, gpu);
        forall i | 0 <= i < |log[|base|..]| && WritesManual(log[|base|..][i])
          ensures Prepared(cpu, gpu, log[|base|..], i)
        {
          ManualIsPrepared(fanBackend.value, cpu, gpu, log[|base|..], r, i);
        }
      case SetAutomatic => r := SetBothModes(Automatic);
      case SetMaximum => r := SetBothModes(Maximum);
    }

    /** Automatic first, and Maximum when Automatic cannot be verified either. */
    method Recover(setting: FanSetting, cause: HardwareError, ghost base: seq<Event>)
      returns (r: Result<FanState, HardwareError>, ghost automatic: seq<Event>, ghost maximum: seq<Event>)
      requires HasBackend()
      requires base <= log && ManualInOrder(setting, log[|base|..])
      modifies `modes, `log
      ensures base <= log && ManualInOrder(setting, log[|base|..])
      ensures match Classify(r)
              case RolledBack => BothHold(Automatic) && r.error.cause == cause
              case FailsafeMaximum => BothHold(Maximum) && r.error.cause == cause
              case RecoveryFailed => r.error.cause == cause
              case _ => false
      ensures faithful ==> Classify(r) == RolledBack
      ensures log == old(log) + automatic + maximum && Recovery(fanBackend.value, r.error, automatic, maximum)
    {
      var first: Outcome<HardwareError>;
      first, automatic := Force(setting, Automatic, base);
      maximum := [];
      if first.Pass? {
        return Failure(MutationRolledBack(cause)), automatic, [];
      }
      var second: Outcome<HardwareError>;
      second, maximum := Force(setting, Maximum, base);
      r := Failure(if second.Pass? then MutationFailsafeMaximum(cause, first.error)
                   else MutationRecoveryFailed(cause, first.error, second.error));
    }

    /** Forcing a safe mode never disturbs the order of the Manual writes. */
    method Force(setting: FanSetting, mode: FanMode, ghost base: seq<Event>)
      returns (r: Outcome<HardwareError>, ghost events: seq<Event>)
      requires HasBackend() && mode != Manual
      requires base <= log && ManualInOrder(setting, log[|base|..])
      modifies `modes, `log
      ensures base <= log && ManualInOrder(setting, log[|base|..])
      ensures log == old(log) + events && Forced(fanBackend.value, mode, events, r)
      ensures r == Pass ==> BothHold(mode)
      ensures faithful ==> r == Pass
    {
      ghost var prev := log;
      r := ForceModeUnchecked(mode);
      events := log[|prev|..];
      OrderSurvives(setting, base, prev, log);
    }
  }

  function Flat<T>(r: Result<T, HardwareError>): Outcome<HardwareError> {
    if r.Success? then Pass else Fail(r.error)
  }

  lemma PercentFitsAByte(percent: nat)
    requires percent <= 100
    ensures PercentToPwm(percent, PWM_MAX) < 256
  {
  }
}
