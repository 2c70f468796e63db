/**
  The keyboard lighting transactions of kernel/asense_rgb.c: every store takes a
  snapshot, writes, reads back, and either commits the readback to the resume
  cache or rolls the snapshot back.

  The firmware is adversarial. A write may be refused or garble the register it
  addresses; a read may fail and, unless the firmware is `honest`, answer
  anything at all. A `faithful` firmware is honest and takes everything; a
  `frozen` one is honest, answers every read and refuses every record.
*/
module LightingDriver {
  import opened Wrappers
  import opened LightingPolicy

  datatype Errno = EINVAL | ERANGE | EIO | EPROTO | EREMOTEIO

  datatype Action =
    | PollController
    | EnableZones
    | WriteZone(zone: nat, color: Color)
    | WriteEffect(effect: Effect)

  /** `took`: the call succeeded and the addressed register shows the value. */
  datatype Entry = Entry(action: Action, took: bool)

  /** Setting one zone leaves the others, and shows one color more. */
  lemma OneMoreZone(before: seq<Color>, after: seq<Color>, rgb: seq<Color>, zone: nat, count: nat)
    requires zone < count <= |before| && |after| == |before| == |rgb|
    ensures after == before[zone := after[zone]] ==>
              && after[count..] == before[count..]
              && (before[..zone] == rgb[..zone] && after[zone] == rgb[zone] ==> after[..zone + 1] == rgb[..zone + 1])
  {
    if after == before[zone := after[zone]] {
      assert after[..zone] == before[..zone];
      assert after[..zone + 1] == after[..zone] + [after[zone]] && rgb[..zone + 1] == rgb[..zone] + [rgb[zone]];
    }
  }

  /** Equal up to a place and from there on is equal. */
  lemma SameHalves(a: seq<Color>, b: seq<Color>, n: nat)
    requires |a| == |b| && n <= |a|
    ensures a[..n] == b[..n] && a[n..] == b[n..] ==> a == b
  {
    assert a == a[..n] + a[n..] && b == b[..n] + b[n..];
  }

  function ZoneCount(mask: u8): (count: nat)
    ensures count <= 4
  {
    if mask == 0x01 then 1 else if mask == 0x03 then 2 else if mask == 0x07 then 3 else if mask == 0x0f then 4 else 0
  }

  class Firmware {
    const flags: Flags
    const honest: bool
    const faithful: bool
    const frozen: bool
    var effect: Effect
    var zones: seq<Color>
    ghost var log: seq<Entry>

    constructor (flags: Flags, honest: bool, faithful: bool, frozen: bool, effect: Effect, zones: seq<Color>)
      requires |zones| == 4 && (faithful || frozen ==> honest) && !(faithful && frozen)
      ensures this.flags == flags && this.honest == honest && this.faithful == faithful && this.frozen == frozen
      ensures this.effect == effect && this.zones == zones && log == [] && Valid()
    {
      this.flags := flags;
      this.honest := honest;
      this.faithful := faithful;
      this.frozen := frozen;
      this.effect := effect;
      this.zones := zones;
      log := [];
    }

    ghost predicate Valid()
      reads this
    {
      |zones| == 4 && (faithful || frozen ==> honest) && !(faithful && frozen)
    }

    /** Every read is answered, and truly. */
    predicate Readable() {
      faithful || frozen
    }

    /** The last call was `action`; its answer is the status. */
    ghost predicate Logged(before: seq<Entry>, action: Action, status: Outcome<Errno>)
      reads this
    {
      && |log| == |before| + 1 && before <= log
      && log[|before|].action == action
      && (log[|before|].took ==> status == Pass)
    }

    method GetEffect() returns (r: Result<Effect, Errno>)
      requires Valid()
      ensures honest && r.Success? ==> r.value == effect
      ensures Readable() ==> r.Success?
    {
      var answered: bool := *;
      var answer: Effect := *;
      var error: Errno := *;
      r := if Readable() || answered then Success(if honest then effect else answer) else Failure(error);
    }

    method GetZone(zone: nat) returns (r: Result<Color, Errno>)
      requires Valid() && zone < 4
      ensures honest && r.Success? ==> r.value == zones[zone]
      ensures Readable() ==> r.Success?
    {
      var answered: bool := *;
      var answer: Color := *;
      var error: Errno := *;
      r := if Readable() || answered then Success(if honest then zones[zone] else answer) else Failure(error);
    }

    method SetEffect(e: Effect) returns (status: Outcome<Errno>)
      requires Valid()
      modifies `effect, `log
      ensures Logged(old(log), WriteEffect(e), status)
      ensures log[|log| - 1].took ==> Shows(flags, e, effect)
      ensures faithful && WriteValid(flags, e) ==> log[|log| - 1].took
      ensures frozen ==> status.Fail? && effect == old(effect)
    {
      var accepted: bool := *;
      var shown: Effect := *;
      var error: Errno := *;
      if frozen {
        accepted, shown := false, effect;
      }
      if faithful && WriteValid(flags, e) {
        accepted := true;
        shown := if Shows(flags, e, shown) then shown else e;
      }
      effect := shown;
      log := log + [Entry(WriteEffect(e), accepted && Shows(flags, e, shown))];
      status := if accepted then Pass else Fail(error);
    }

    method SetZone(zone: nat, color: Color) returns (status: Outcome<Errno>)
      requires Valid() && zone < 4
      modifies `zones, `log
      ensures Logged(old(log), WriteZone(zone, color), status)
      ensures |zones| == 4 && zones == old(zones)[zone := zones[zone]]
      ensures log[|log| - 1].took ==> zones[zone] == color
      ensures faithful ==> log[|log| - 1].took
    {
      var accepted: bool := *;
      var shown: Color := *;
      var error: Errno := *;
      if faithful {
        accepted, shown := true, color;
      }
      zones := zones[zone := shown];
      log := log + [Entry(WriteZone(zone, color), accepted && shown == color)];
      status := if accepted then Pass else Fail(error);
    }

    /** The scalar calls of the four-zone preamble change no register. */
    method Scalar(action: Action) returns (status: Outcome<Errno>)
      requires action.PollController? || action.EnableZones?
      modifies `log
      ensures Logged(old(log), action, status)
      ensures faithful ==> log[|log| - 1].took
    {
      var accepted: bool := *;
      var error: Errno := *;
      accepted := accepted || faithful;
      log := log + [Entry(action, accepted)];
      status := if accepted then Pass else Fail(error);
    }
  }

  // ------------------------------------------------------------ transactions

  function ZoneWrites(zones: Zones, n: nat): seq<Action>
    requires n <= 4
  {
    if n == 0 then [] else ZoneWrites(zones, n - 1) + [WriteZone(n - 1, zones.rgb[n - 1])]
  }

  function Preamble(flags: Flags): seq<Action> {
    if flags.preamble then [PollController, EnableZones] else []
  }

  /** Everything a static transaction writes, in order. */
  function ZoneTransaction(flags: Flags, count: nat, zones: Zones): seq<Action>
    requires count <= 4
  {
    if flags.globalStatic then [WriteEffect(StaticEffect(flags, zones))]
    else if count == 0 then []
    else Preamble(flags) + ZoneWrites(zones, count) + [WriteEffect(StaticEffect(flags, zones))]
  }

  /** The preamble first if the machine has one, then one color per zone in
      order, and the record that commits them last. */
  lemma TransactionShape(flags: Flags, count: nat, zones: Zones)
    requires count <= 4
    ensures var t := ZoneTransaction(flags, count, zones);
            if flags.globalStatic then
              t == [WriteEffect(Effect(0, 0, zones.brightness, 0, zones.rgb[0], Engine(flags, 0)))]
            else if count == 0 then t == []
            else
              var p := if flags.preamble then 2 else 0;
              && |t| == p + count + 1
              && (flags.preamble ==> t[0] == PollController && t[1] == EnableZones)
              && (forall i | 0 <= i < count :: t[p + i] == WriteZone(i, zones.rgb[i]))
              && t[p + count] == WriteEffect(Effect(0, 0, zones.brightness, 0, BLACK, Engine(flags, 0)))
  {
    ZoneWritesAt(zones, count);
  }

  lemma {:induction false} ZoneWritesAt(zones: Zones, n: nat)
    requires n <= 4
    ensures |ZoneWrites(zones, n)| == n
    ensures forall i | 0 <= i < n :: ZoneWrites(zones, n)[i] == WriteZone(i, zones.rgb[i])
  {
    if n > 0 {
      ZoneWritesAt(zones, n - 1);
    }
  }

  function Actions(entries: seq<Entry>): (actions: seq<Action>)
    ensures |actions| == |entries|
  {
    if entries == [] then [] else Actions(entries[..|entries| - 1]) + [entries[|entries| - 1].action]
  }

  lemma ActionsSnoc(entries: seq<Entry>, e: Entry)
    ensures Actions(entries + [e]) == Actions(entries) + [e.action]
  {
    assert (entries + [e])[..|entries|] == entries;
  }

  lemma {:induction false} ActionsConcat(a: seq<Entry>, b: seq<Entry>)
    ensures Actions(a + b) == Actions(a) + Actions(b)
    decreases |b|
  {
    if b == [] {
      assert a + b == a;
    } else {
      var n := |b| - 1;
      ActionsConcat(a, b[..n]);
      assert (a + b)[..|a + b| - 1] == a + b[..n];
    }
  }

  lemma PrefixGrows(head: seq<Action>, part: seq<Action>, whole: seq<Action>, tail: seq<Action>)
    requires part <= whole
    ensures head + part <= head + whole + tail
  {
  }

  /** A log grows and so does the list of what was written. */
  lemma Grows(base: seq<Entry>, log: seq<Entry>, log': seq<Entry>)
    requires base <= log <= log'
    ensures Actions(log'[|base|..]) == Actions(log[|base|..]) + Actions(log'[|log|..])
    ensures AllTook(log'[|base|..]) <==> AllTook(log[|base|..]) && AllTook(log'[|log|..])
  {
    assert log'[|base|..] == log[|base|..] + log'[|log|..];
    ActionsConcat(log[|base|..], log'[|log|..]);
  }

  /** One more entry. */
  lemma GrowsByOne(base: seq<Entry>, log: seq<Entry>, log': seq<Entry>)
    requires base <= log <= log' && |log'| == |log| + 1
    ensures Actions(log'[|base|..]) == Actions(log[|base|..]) + [log'[|log|].action]
    ensures AllTook(log'[|base|..]) <==> AllTook(log[|base|..]) && log'[|log|].took
  {
    assert log'[|base|..] == log[|base|..] + [log'[|log|]];
    ActionsSnoc(log[|base|..], log'[|log|]);
  }

  lemma {:induction false} ZoneWritesPrefix(zones: Zones, m: nat, n: nat)
    requires m <= n <= 4
    ensures ZoneWrites(zones, m) <= ZoneWrites(zones, n)
    decreases n
  {
    if m < n {
      ZoneWritesPrefix(zones, m, n - 1);
    }
  }

  predicate AllTook(entries: seq<Entry>) {
    forall e | e in entries :: e.took
  }

  /** The entries begin a plan, and stop early only at something that did not take. */
  predicate Wrote(entries: seq<Entry>, plan: seq<Action>) {
    Actions(entries) <= plan && (AllTook(entries) ==> Actions(entries) == plan)
  }

  /** A rollback to a snapshot: the transaction of its zones, and after that its
      record, however the former ended. */
  predicate RollbackOf(flags: Flags, count: nat, snapshot: (Effect, Zones), rollback: seq<Entry>)
    requires count <= 4
  {
    && rollback != []
    && Wrote(rollback[..|rollback| - 1], ZoneTransaction(flags, count, snapshot.1))
    && rollback[|rollback| - 1].action == WriteEffect(snapshot.0)
  }

  predicate OnlyWritable(flags: Flags, entries: seq<Entry>) {
    forall e | e in entries && e.action.WriteEffect? :: WriteValid(flags, e.action.effect)
  }

  lemma {:induction false} ActionsAt(entries: seq<Entry>, i: nat)
    requires i < |entries|
    ensures Actions(entries)[i] == entries[i].action
    decreases |entries|
  {
    if i < |entries| - 1 {
      ActionsAt(entries[..|entries| - 1], i);
    }
  }

  lemma {:induction false} ZoneWritesAreColors(zones: Zones, n: nat)
    requires n <= 4
    ensures forall a | a in ZoneWrites(zones, n) :: a.WriteZone?
  {
    if n > 0 {
      ZoneWritesAreColors(zones, n - 1);
    }
  }

  /** A static transaction of bounded brightness writes no other record than
      its own writable one, however far it gets. */
  lemma TransactionIsWritable(flags: Flags, count: nat, zones: Zones, entries: seq<Entry>)
    requires count <= 4 && zones.brightness <= 100
    requires Actions(entries) <= ZoneTransaction(flags, count, zones)
    ensures OnlyWritable(flags, entries)
  {
    ZoneWritesAreColors(zones, count);
    forall e | e in entries && e.action.WriteEffect?
      ensures WriteValid(flags, e.action.effect)
    {
      var i :| 0 <= i < |entries| && entries[i] == e;
      ActionsAt(entries, i);
      assert ZoneTransaction(flags, count, zones)[i] == e.action;
      assert e.action in ZoneTransaction(flags, count, zones);
    }
  }

  lemma WritableGrows(flags: Flags, log: seq<Entry>, log': seq<Entry>)
    requires log <= log' && OnlyWritable(flags, log) && OnlyWritable(flags, log'[|log|..])
    ensures OnlyWritable(flags, log')
  {
    assert log' == log + log'[|log|..];
  }

  /** The record an effect store asks for, from its seven numbers. */
  function EffectRequest(flags: Flags, v: seq<nat>): Result<Effect, Errno>
    requires |v| == 7
  {
    if exists i | 0 <= i < 7 :: v[i] > 255 then Failure(ERANGE)
    else
      var e := Effect(v[0], v[1], v[2], v[3], Color(v[4], v[5], v[6]), Engine(flags, v[0]));
      if WriteValid(flags, e) then Success(e) else Failure(EINVAL)
  }

  /** The seven numbers are mode, speed, brightness, direction and the color. */
  lemma EffectRequestMeans(flags: Flags, v: seq<nat>)
    requires |v| == 7
    ensures EffectRequest(flags, v) == Failure(ERANGE) <==> exists i | 0 <= i < 7 :: v[i] > 255
    ensures EffectRequest(flags, v).Success? ==>
              var e := EffectRequest(flags, v).value;
              && WriteValid(flags, e)
              && [e.mode as nat, e.speed as nat, e.brightness as nat, e.direction as nat] == v[..4]
              && [e.color.red as nat, e.color.green as nat, e.color.blue as nat] == v[4..]
              && e.engine == if e.mode == 0 && !flags.fourZoneEngine then 0 else 3
  {
  }

  function Rgb(color: nat): Color {
    Color(color / 0x10000 % 256, color / 0x100 % 256, color % 256)
  }

  /** The zones a zone store asks for, from its colors and its brightness. */
  function ZonesRequest(count: nat, colors: seq<nat>, brightness: nat): Result<Zones, Errno>
    requires count <= 4
  {
    if count == 0 || |colors| != count then Failure(EINVAL)
    else if brightness > 100 || exists c | c in colors :: c > 0xffffff then Failure(ERANGE)
    else Success(Zones(seq(4, i requires 0 <= i < 4 => if i < count then Rgb(colors[i]) else BLACK), brightness))
  }

  /** Red is the high byte; the zones that exist take their colors in order. */
  lemma ZonesRequestMeans(count: nat, colors: seq<nat>, brightness: nat)
    requires count <= 4
    ensures ZonesRequest(count, colors, brightness).Success? <==>
              0 < count == |colors| && brightness <= 100 && forall c | c in colors :: c <= 0xffffff
    ensures ZonesRequest(count, colors, brightness).Success? ==>
              var zones := ZonesRequest(count, colors, brightness).value;
              && zones.brightness as nat == brightness
              && (forall i | 0 <= i < count :: Packed(zones.rgb[i]) == colors[i])
              && (forall i | count <= i < 4 :: zones.rgb[i] == BLACK)
  {
    forall c: nat | c <= 0xffffff ensures Packed(Rgb(c)) == c {
      RgbPacks(c);
    }
    if 0 < count == |colors| {
      assert forall i | 0 <= i < count :: colors[i] in colors;
    }
  }

  function Packed(color: Color): nat {
    color.red as nat * 0x10000 + color.green as nat * 0x100 + color.blue as nat
  }

  lemma RgbPacks(color: nat)
    requires color <= 0xffffff
    ensures Packed(Rgb(color)) == color
  {
    var high := color / 0x100;
    assert color == high * 0x100 + color % 0x100;
    assert high == high / 0x100 * 0x100 + high % 0x100;
    assert color / 0x10000 == high / 0x100 < 256;
  }

  function PowerBrightness(last: u8, enabled: bool, previous: Effect): u8 {
    if !enabled then 0 else if previous.brightness == 0 then last else previous.brightness
  }

  /** The record a power switch asks for. */
  function PowerRequest(flags: Flags, last: u8, enabled: bool, previous: Effect, zones: Zones): Effect {
    var brightness := PowerBrightness(last, enabled, previous);
    if previous.mode == 0 then StaticEffect(flags, Zones(zones.rgb, brightness))
    else previous.(brightness := brightness, engine := Engine(flags, previous.mode))
  }

  /** A switch asks for a writable record of the same mode, dark when it is off. */
  lemma PowerRequestIsWritable(flags: Flags, last: u8, enabled: bool, previous: Effect, zones: Zones)
    requires WriteValid(flags, previous) && last <= 100
    ensures var requested := PowerRequest(flags, last, enabled, previous, zones);
            && WriteValid(flags, requested) && requested.mode == previous.mode
            && (requested.mode == 0 ==> requested == StaticEffect(flags, Zones(zones.rgb, requested.brightness)))
            && (!enabled ==> requested.brightness == 0)
  {
  }

  /** Everything a power switch writes: re-enabling a static keyboard replays its
      zones, all else is one record. */
  function PowerWrites(flags: Flags, count: nat, enabled: bool, requested: Effect, zones: Zones): seq<Action>
    requires count <= 4
  {
    if requested.mode == 0 && enabled then ZoneTransaction(flags, count, Zones(zones.rgb, requested.brightness))
    else [WriteEffect(requested)]
  }

  function LastAfter(last: u8, enabled: bool, previous: Effect): u8 {
    if !enabled && previous.brightness != 0 then previous.brightness else last
  }

  class AsenseRgb {
    const firmware: Firmware
    const zoneMask: u8
    var cachedEffect: Effect
    var cachedZones: Zones
    var rgbCacheValid: bool
    var rgbAvailable: bool
    var lastNonzeroBrightness: u8

    ghost predicate Valid()
      reads this, firmware
    {
      && firmware.Valid()
      && OnlyWritable(firmware.flags, firmware.log)
      && lastNonzeroBrightness <= 100
      && CacheValid()
    }

    /** What the resume cache may hold: a dynamic record is writable, and a
        static one will be rebuilt from zones of bounded brightness. */
    ghost predicate CacheValid()
      reads this
    {
      && (rgbCacheValid ==> cachedZones.brightness <= 100 && Count() > 0)
      && (rgbCacheValid ==> cachedZones == Observed(firmware.flags, Count(), cachedEffect, cachedZones.rgb))
      && (rgbCacheValid && cachedEffect.mode != 0 ==> WriteValid(firmware.flags, cachedEffect))
    }

    function Flagged(): Flags {
      firmware.flags
    }

    function Count(): (count: nat)
      ensures count <= 4
    {
      ZoneCount(zoneMask)
    }

    /** The colors and the brightness the firmware shows. */
    ghost function Visible(): Zones
      requires firmware.Valid()
      reads firmware
    {
      Observed(firmware.flags, Count(), firmware.effect, firmware.zones)
    }

    /** A zeroed driver object bound to its firmware endpoint. */
    constructor (firmware: Firmware, zoneMask: u8)
      requires firmware.Valid() && firmware.log == []
      ensures this.firmware == firmware && this.zoneMask == zoneMask
      ensures Valid() && !rgbCacheValid && !rgbAvailable
    {
      this.firmware := firmware;
      this.zoneMask := zoneMask;
      rgbCacheValid := false;
      rgbAvailable := false;
      lastNonzeroBrightness := 0;
      cachedEffect := Effect(0, 0, 0, 0, BLACK, 0);
      cachedZones := Zones([BLACK, BLACK, BLACK, BLACK], 0);
    }

    // ----------------------------------------------------------- reading

    method ReadRgbState() returns (r: Result<(Effect, Zones), Errno>)
      requires firmware.Valid()
      ensures r.Success? ==> Count() > 0 && r.value.1.brightness == r.value.0.brightness
      ensures r.Success? ==> r.value.1 == Observed(Flagged(), Count(), r.value.0, r.value.1.rgb)
      ensures firmware.honest && r.Success? ==> r.value == (firmware.effect, Visible())
      ensures firmware.Readable() && Count() > 0 ==> r.Success?
    {
      var count := Count();
      if count == 0 {
        return Failure(EINVAL);
      }
      var effect := firmware.GetEffect();
      if effect.Failure? {
        return Failure(effect.error);
      }
      if Flagged().globalStatic && effect.value.mode == 0 {
        return Success((effect.value, Zones([effect.value.color, BLACK, BLACK, BLACK], effect.value.brightness)));
      }
      var rgb := [BLACK, BLACK, BLACK, BLACK];
      var zone := 0;
      while zone < count
        invariant zone <= count && |rgb| == 4
        invariant forall k | zone <= k < 4 :: rgb[k] == BLACK
        invariant firmware.honest ==> rgb[..zone] == firmware.zones[..zone]
      {
        var color := firmware.GetZone(zone);
        if color.Failure? {
          return Failure(color.error);
        }
        rgb := rgb[zone := color.value];
        zone := zone + 1;
      }
      assert rgb == rgb[..count] + seq(4 - count, _ => BLACK);
      r := Success((effect.value, Zones(rgb, effect.value.brightness)));
    }

    /** What a rollback has to restore: the observed state in writable form. */
    method SnapshotRgbState() returns (r: Result<(Effect, Zones), Errno>)
      requires firmware.Valid()
      ensures r.Success? ==> WriteValid(Flagged(), r.value.0) && r.value.1.brightness <= 100
      ensures r.Success? ==> r.value.0.brightness == r.value.1.brightness && Count() > 0
      ensures firmware.honest && r.Success? ==>
                && ReadValid(Flagged(), firmware.effect)
                && r.value == (Canonical(Flagged(), firmware.effect, Visible()), Visible())
      ensures firmware.Readable() && Count() > 0 && ReadValid(Flagged(), firmware.effect) ==> r.Success?
    {
      r := ReadRgbState();
      if r.Failure? {
        return;
      }
      var (effect, zones) := r.value;
      if !ReadValid(Flagged(), effect) {
        return Failure(EPROTO);
      }
      if !WriteValid(Flagged(), effect) {
        effect := StaticEffect(Flagged(), zones);
      }
      r := Success((effect, zones));
    }

    method CacheRgbState(effect: Effect, zones: Zones)
      modifies `cachedEffect, `cachedZones, `rgbCacheValid
      ensures cachedEffect == effect && cachedZones == zones && rgbCacheValid
    {
      cachedEffect := effect;
      cachedZones := zones;
      rgbCacheValid := true;
    }

    // ----------------------------------------------------------- writing

    /** Write a static record and confirm it by reading it back. */
    method CommitStatic(staticMode: Effect, zoneTransaction: bool) returns (status: Outcome<Errno>)
      requires firmware.Valid() && WriteValid(Flagged(), staticMode)
      requires !zoneTransaction ==> Flagged().globalStatic
      modifies firmware`effect, firmware`log
      ensures |firmware.log| == |old(firmware.log)| + 1 && old(firmware.log) <= firmware.log
      ensures firmware.log[|old(firmware.log)|].action == WriteEffect(staticMode)
      ensures firmware.log[|old(firmware.log)|].took ==> Shows(Flagged(), staticMode, firmware.effect)
      ensures firmware.honest && status == Pass ==> EffectMatches(Flagged(), staticMode, firmware.effect, zoneTransaction)
      ensures firmware.faithful ==> status == Pass && firmware.log[|old(firmware.log)|].took
    {
      status := firmware.SetEffect(staticMode);
      if status.Fail? {
        return;
      }
      var actual := firmware.GetEffect();
      if actual.Failure? {
        return Fail(actual.error);
      }
      if firmware.faithful {
        TakenIsConfirmed(Flagged(), staticMode, firmware.effect);
      }
      if !EffectMatches(Flagged(), staticMode, actual.value, zoneTransaction) {
        return Fail(EIO);
      }
    }

    method WritePreamble() returns (status: Outcome<Errno>)
      requires firmware.Valid()
      modifies firmware`log
      ensures old(firmware.log) <= firmware.log
      ensures var done := firmware.log[|old(firmware.log)|..];
              && Actions(done) <= Preamble(Flagged())
              && (status == Pass ==> Actions(done) == Preamble(Flagged()))
              && (AllTook(done) ==> status == Pass)
              && (firmware.faithful ==> AllTook(done))
    {
      ghost var base := firmware.log;
      if !Flagged().preamble {
        return Pass;
      }
      status := firmware.Scalar(PollController);
      GrowsByOne(base, base, firmware.log);
      if status.Fail? {
        return;
      }
      ghost var polled := firmware.log;
      status := firmware.Scalar(EnableZones);
      GrowsByOne(base, polled, firmware.log);
    }

    method WriteZoneColors(zones: Zones) returns (status: Outcome<Errno>)
      requires firmware.Valid()
      modifies firmware`zones, firmware`log
      ensures firmware.Valid() && old(firmware.log) <= firmware.log
      ensures firmware.zones[Count()..] == old(firmware.zones)[Count()..]
      ensures var done := firmware.log[|old(firmware.log)|..];
              && Actions(done) <= ZoneWrites(zones, Count())
              && (status == Pass ==> Actions(done) == ZoneWrites(zones, Count()))
              && (AllTook(done) ==> status == Pass && firmware.zones[..Count()] == zones.rgb[..Count()])
              && (firmware.faithful ==> AllTook(done))
    {
      ghost var base := firmware.log;
      var count := Count();
      var zone := 0;
      while zone < count
        invariant zone <= count && firmware.Valid() && base <= firmware.log
        invariant firmware.zones[count..] == old(firmware.zones)[count..]
        invariant Actions(firmware.log[|base|..]) == ZoneWrites(zones, zone)
        invariant AllTook(firmware.log[|base|..]) ==> firmware.zones[..zone] == zones.rgb[..zone]
        invariant firmware.faithful ==> AllTook(firmware.log[|base|..])
      {
        ghost var prev, shown := firmware.log, firmware.zones;
        status := firmware.SetZone(zone, zones.rgb[zone]);
        GrowsByOne(base, prev, firmware.log);
        ZoneWritesPrefix(zones, zone + 1, count);
        OneMoreZone(shown, firmware.zones, zones.rgb, zone, count);
        if status.Fail? {
          return;
        }
        zone := zone + 1;
      }
      status := Pass;
    }

    /** What the static transaction of `zones` wrote since `before`. */
    ghost predicate Transacted(before: seq<Entry>, zones: Zones, status: Outcome<Errno>)
      requires firmware.Valid()
      reads firmware
    {
      && before <= firmware.log
      && var done := firmware.log[|before|..];
         && Wrote(done, ZoneTransaction(Flagged(), Count(), zones))
         && (status == Pass ==> Actions(done) == ZoneTransaction(Flagged(), Count(), zones))
         && (AllTook(done) && !Flagged().globalStatic && Count() > 0 ==>
               firmware.zones[..Count()] == zones.rgb[..Count()])
         && (firmware.faithful ==> AllTook(done))
    }

    method WriteZones(zones: Zones) returns (status: Outcome<Errno>)
      requires firmware.Valid() && zones.brightness <= 100
      modifies firmware`effect, firmware`zones, firmware`log
      ensures firmware.Valid() && Transacted(old(firmware.log), zones, status)
      ensures firmware.zones[Count()..] == old(firmware.zones)[Count()..]
      ensures Flagged().globalStatic ==> firmware.zones == old(firmware.zones)
      ensures status == Pass && firmware.honest ==>
                EffectMatches(Flagged(), StaticEffect(Flagged(), zones), firmware.effect, !Flagged().globalStatic)
      ensures firmware.faithful && Count() > 0 ==>
                status == Pass && Shows(Flagged(), StaticEffect(Flagged(), zones), firmware.effect)
    {
      if !Flagged().globalStatic {
        status := WriteZonedStatic(zones);
        return;
      }
      ghost var base := firmware.log;
      status := CommitStatic(StaticEffect(Flagged(), zones), false);
      GrowsByOne(base, base, firmware.log);
    }

    /** Preamble, one color per zone, and the static record that commits them. */
    method WriteZonedStatic(zones: Zones) returns (status: Outcome<Errno>)
      requires firmware.Valid() && zones.brightness <= 100 && !Flagged().globalStatic
      modifies firmware`effect, firmware`zones, firmware`log
      ensures firmware.Valid() && Transacted(old(firmware.log), zones, status)
      ensures firmware.zones[Count()..] == old(firmware.zones)[Count()..]
      ensures status == Pass && firmware.honest ==>
                EffectMatches(Flagged(), StaticEffect(Flagged(), zones), firmware.effect, true)
      ensures firmware.faithful && Count() > 0 ==>
                status == Pass && Shows(Flagged(), StaticEffect(Flagged(), zones), firmware.effect)
    {
      ghost var base := firmware.log;
      if Count() == 0 {
        return Fail(EINVAL);
      }
      status := WritePreparedZones(zones);
      if status.Fail? {
        return;
      }
      ghost var colored := firmware.log;
      status := CommitStatic(StaticEffect(Flagged(), zones), true);
      GrowsByOne(base, colored, firmware.log);
    }

    /** The preamble and the zones, without the record that commits them. */
    method WritePreparedZones(zones: Zones) returns (status: Outcome<Errno>)
      requires firmware.Valid() && Count() > 0 && !Flagged().globalStatic
      modifies firmware`zones, firmware`log
      ensures firmware.Valid() && old(firmware.log) <= firmware.log
      ensures firmware.zones[Count()..] == old(firmware.zones)[Count()..]
      ensures var done := firmware.log[|old(firmware.log)|..];
              && Actions(done) <= ZoneTransaction(Flagged(), Count(), zones)
              && (status == Pass ==> Actions(done) == Preamble(Flagged()) + ZoneWrites(zones, Count()))
              && (AllTook(done) ==> status == Pass && firmware.zones[..Count()] == zones.rgb[..Count()])
              && (firmware.faithful ==> AllTook(done))
    {
      ghost var base := firmware.log;
      status := WritePreamble();
      ghost var prepared := firmware.log;
      if status.Fail? {
        assert Preamble(Flagged()) <= ZoneTransaction(Flagged(), Count(), zones);
        return;
      }
      status := WriteZoneColors(zones);
      ghost var colored := firmware.log;
      Grows(base, prepared, colored);
      PrefixGrows(Preamble(Flagged()), Actions(colored[|prepared|..]), ZoneWrites(zones, Count()),
                  [WriteEffect(StaticEffect(Flagged(), zones))]);
    }

    // ------------------------------------------------------------- outcomes

    /** The readback confirmed `expected` and became the resume cache. */
    ghost predicate Committed(expected: Effect, zoneTransaction: bool)
      requires firmware.Valid()
      reads this, firmware
    {
      && rgbCacheValid
      && EffectMatches(Flagged(), expected, cachedEffect, zoneTransaction)
      && cachedZones.brightness == cachedEffect.brightness
      && (firmware.honest ==> cachedEffect == firmware.effect && cachedZones == Visible())
    }

    /** The firmware shows the canonical snapshot of a former state again. */
    ghost predicate RestoredTo(effect: Effect, zones: seq<Color>)
      requires firmware.Valid() && |zones| == 4
      reads firmware
    {
      && Shows(Flagged(), Canonical(Flagged(), effect, Observed(Flagged(), Count(), effect, zones)), firmware.effect)
      && firmware.zones == zones
    }

    ghost predicate SameCache(effect: Effect, zones: Zones, valid: bool)
      reads this
    {
      cachedEffect == effect && cachedZones == zones && rgbCacheValid == valid
    }

    // --------------------------------------------------------------- stores

    /** One entry was logged since `before`, for `action`. */
    ghost predicate LoggedOne(before: seq<Entry>, action: Action)
      reads firmware
    {
      |firmware.log| == |before| + 1 && before <= firmware.log && firmware.log[|before|].action == action
    }

    ghost predicate SameDriver(effect: Effect, zones: Zones, valid: bool, last: u8)
      reads this
    {
      SameCache(effect, zones, valid) && lastNonzeroBrightness == last
    }

    /** Nothing shadows the color of this record. */
    predicate StrictlyConfirmable(e: Effect) {
      e.mode != 0 || !Flagged().staticColorShadow || Flagged().globalStatic
    }

    /** The strict comparison confirms a taken record exactly where nothing
        shadows its color, or what is shown is that color anyway. */
    lemma StrictConfirmation(requested: Effect, shown: Effect)
      requires WriteValid(Flagged(), requested) && Shows(Flagged(), requested, shown)
      ensures EffectMatches(Flagged(), requested, shown, false) <==> StrictlyConfirmable(requested) || shown.color == requested.color
    {
    }

    /** Write a record, read it back and commit it. */
    method TryEffect(requested: Effect) returns (r: Outcome<Errno>)
      requires Valid() && WriteValid(Flagged(), requested)
      modifies this, firmware`effect, firmware`log
      ensures Valid() && LoggedOne(old(firmware.log), WriteEffect(requested))
      ensures r == Pass ==> Committed(requested, false)
      ensures r == Pass ==>
                lastNonzeroBrightness == if requested.brightness != 0 then requested.brightness else old(lastNonzeroBrightness)
      ensures r != Pass ==>
                SameDriver(old(cachedEffect), old(cachedZones), old(rgbCacheValid), old(lastNonzeroBrightness))
      ensures firmware.faithful && Count() > 0 ==>
                && Shows(Flagged(), requested, firmware.effect)
                && (r == Pass <==> StrictlyConfirmable(requested) || firmware.effect.color == requested.color)
    {
      ghost var base := firmware.log;
      r := firmware.SetEffect(requested);
      assert firmware.log == base + [firmware.log[|base|]];
      if r.Pass? {
        r := CommitEffect(requested);
      }
    }

    /** The second half: read the record back, commit it and remember its
        brightness. */
    method CommitEffect(requested: Effect) returns (r: Outcome<Errno>)
      requires Valid() && WriteValid(Flagged(), requested)
      modifies this
      ensures Valid()
      ensures r == Pass ==> Committed(requested, false)
      ensures r == Pass ==>
                lastNonzeroBrightness == if requested.brightness != 0 then requested.brightness else old(lastNonzeroBrightness)
      ensures r != Pass ==>
                SameDriver(old(cachedEffect), old(cachedZones), old(rgbCacheValid), old(lastNonzeroBrightness))
      ensures firmware.faithful && Count() > 0 && Shows(Flagged(), requested, firmware.effect) ==>
                (r == Pass <==> StrictlyConfirmable(requested) || firmware.effect.color == requested.color)
    {
      if firmware.faithful && Shows(Flagged(), requested, firmware.effect) {
        StrictConfirmation(requested, firmware.effect);
      }
      var actual := ReadRgbState();
      r := Confirm(requested, false, actual);
      if r.Pass? && requested.brightness != 0 {
        lastNonzeroBrightness := requested.brightness;
      }
    }

    /** The snapshot cannot be taken: it needs zones and a readable record. */
    ghost predicate Unsnapshotable()
      reads firmware
    {
      Count() == 0 || (firmware.honest && !ReadValid(Flagged(), firmware.effect))
    }

    /** A true answer to every read is enough for one. */
    ghost predicate Snapshotable()
      reads firmware
    {
      Count() > 0 && firmware.Readable() && ReadValid(Flagged(), firmware.effect)
    }

    /** What a snapshot holds when it was taken of a state: a writable record and
        bounded zones, and on honest firmware exactly that state in canonical form. */
    ghost predicate SnapshotOf(snapshot: (Effect, Zones), effect: Effect, zones: seq<Color>)
      requires |zones| == 4
    {
      && WriteValid(Flagged(), snapshot.0) && snapshot.1.brightness <= 100
      && (firmware.honest ==>
            && ReadValid(Flagged(), effect)
            && snapshot.1 == Observed(Flagged(), Count(), effect, zones)
            && snapshot.0 == Canonical(Flagged(), effect, snapshot.1))
    }

    /** `taken` says that the snapshot was taken, and `shown` is what the firmware
        showed when the request was read back. */
    method EffectStore(values: seq<nat>)
      returns (r: Outcome<Errno>, ghost taken: bool, ghost snapshot: (Effect, Zones), ghost shown: Effect)
      requires Valid() && |values| == 7
      modifies this, firmware`effect, firmware`log
      ensures Valid()
      ensures EffectRequest(Flagged(), values).Failure? ==>
                r == Fail(EffectRequest(Flagged(), values).error) && unchanged(this) && unchanged(firmware)
      ensures r == Pass ==>
                var requested := EffectRequest(Flagged(), values).value;
                && Committed(requested, false) && LoggedOne(old(firmware.log), WriteEffect(requested))
                && lastNonzeroBrightness == if requested.brightness != 0 then requested.brightness else old(lastNonzeroBrightness)
      ensures r != Pass ==>
                SameDriver(old(cachedEffect), old(cachedZones), old(rgbCacheValid), old(lastNonzeroBrightness))
      ensures !taken ==> r != Pass && unchanged(this) && unchanged(firmware)
      ensures old(Unsnapshotable()) ==> !taken
      ensures old(Snapshotable()) ==> (taken <==> EffectRequest(Flagged(), values).Success?)
      ensures taken ==> SnapshotOf(snapshot, old(firmware.effect), old(firmware.zones))
      ensures r != Pass && taken ==>
                && |firmware.log| == |old(firmware.log)| + 2 && old(firmware.log) <= firmware.log
                && firmware.log[|old(firmware.log)|].action == WriteEffect(EffectRequest(Flagged(), values).value)
                && firmware.log[|old(firmware.log)| + 1].action == WriteEffect(snapshot.0)
                && (firmware.faithful ==> firmware.log[|old(firmware.log)| + 1].took)
                && (firmware.honest && firmware.log[|old(firmware.log)| + 1].took ==>
                      RestoredTo(old(firmware.effect), old(firmware.zones)))
      ensures firmware.faithful && taken ==> Shows(Flagged(), EffectRequest(Flagged(), values).value, shown)
      ensures firmware.faithful ==>
                (r == Pass <==> taken && FaithfullyConfirmed(EffectRequest(Flagged(), values), shown))
      ensures firmware.faithful && r == Pass ==> firmware.effect == shown
    {
      shown, taken, snapshot := firmware.effect, false, (firmware.effect, cachedZones);
      var request := EffectRequest(Flagged(), values);
      if request.Failure? {
        return Fail(request.error), taken, snapshot, shown;
      }
      var previous := SnapshotRgbState();
      if previous.Failure? {
        return Fail(previous.error), taken, snapshot, shown;
      }
      taken, snapshot := true, previous.value;
      r := TryEffect(request.value);
      shown := firmware.effect;
      if r.Fail? {
        var rollback := firmware.SetEffect(previous.value.0);
      }
    }

    ghost predicate FaithfullyConfirmed(request: Result<Effect, Errno>, shown: Effect) {
      request.Success? && (StrictlyConfirmable(request.value) || shown.color == request.value.color)
    }

    /** Check a readback and cache it when it confirms the request. */
    method Confirm(expected: Effect, zoneTransaction: bool, actual: Result<(Effect, Zones), Errno>) returns (r: Outcome<Errno>)
      requires firmware.Valid() && CacheValid()
      requires actual.Success? ==>
                 actual.value.1 == Observed(Flagged(), Count(), actual.value.0, actual.value.1.rgb) && Count() > 0
      requires actual.Success? && firmware.honest ==> actual.value == (firmware.effect, Visible())
      modifies `cachedEffect, `cachedZones, `rgbCacheValid
      ensures CacheValid()
      ensures r == Pass <==> actual.Success? && EffectMatches(Flagged(), expected, actual.value.0, zoneTransaction)
      ensures r == Pass ==> Committed(expected, zoneTransaction) && SameCache(actual.value.0, actual.value.1, true)
      ensures r != Pass ==> SameCache(old(cachedEffect), old(cachedZones), old(rgbCacheValid))
    {
      if actual.Failure? {
        return Fail(actual.error);
      }
      if !EffectMatches(Flagged(), expected, actual.value.0, zoneTransaction) {
        return Fail(EIO);
      }
      if expected.mode != 0 {
        DynamicConfirmationIsExact(Flagged(), expected, actual.value.0, zoneTransaction);
      }
      CacheRgbState(actual.value.0, actual.value.1);
      r := Pass;
    }

    /** Both halves of a rollback are attempted; when every write takes, the
        zones and the record of the snapshot are shown again. */
    method RollBack(previous: Effect, zones: Zones) returns (ok: bool, ghost rollback: seq<Entry>)
      requires firmware.Valid() && OnlyWritable(Flagged(), firmware.log)
      requires WriteValid(Flagged(), previous) && zones.brightness <= 100
      modifies firmware`effect, firmware`zones, firmware`log
      ensures firmware.Valid() && OnlyWritable(Flagged(), firmware.log)
      ensures firmware.log == old(firmware.log) + rollback
      ensures RollbackOf(Flagged(), Count(), (previous, zones), rollback)
      ensures firmware.zones[Count()..] == old(firmware.zones)[Count()..]
      ensures Flagged().globalStatic ==> firmware.zones == old(firmware.zones)
      ensures AllTook(rollback) && Count() > 0 ==>
                && Shows(Flagged(), previous, firmware.effect)
                && (!Flagged().globalStatic ==> firmware.zones[..Count()] == zones.rgb[..Count()])
      ensures firmware.faithful ==> AllTook(rollback)
    {
      ghost var base := firmware.log;
      var rollbackZones := WriteZones(zones);
      ghost var between := firmware.log;
      TransactionIsWritable(Flagged(), Count(), zones, between[|base|..]);
      WritableGrows(Flagged(), base, between);
      var rollbackEffect := firmware.SetEffect(previous);
      GrowsByOne(base, between, firmware.log);
      assert firmware.log == between + [firmware.log[|between|]];
      rollback := firmware.log[|base|..];
      assert rollback[..|rollback| - 1] == between[|base|..];
      ok := rollbackZones.Pass? && rollbackEffect.Pass?;
    }

    /** Both halves of the snapshot were written again, and if they took, the
        state it was taken of is back. A faithful firmware takes them. */
    ghost predicate RolledBack(effect: Effect, zones: seq<Color>, snapshot: (Effect, Zones), rollback: seq<Entry>)
      requires firmware.Valid() && |zones| == 4
      reads firmware
    {
      && RollbackOf(Flagged(), Count(), snapshot, rollback)
      && (firmware.honest && AllTook(rollback) ==> RestoredTo(effect, zones))
      && (firmware.faithful ==> AllTook(rollback))
    }

    /** Rolls back to the snapshot that was taken of (`effect`, `shown`). */
    method RollBackTo(previous: Effect, zones: Zones, ghost effect: Effect, ghost shown: seq<Color>)
      returns (ghost rollback: seq<Entry>)
      requires firmware.Valid() && OnlyWritable(Flagged(), firmware.log) && Count() > 0 && |shown| == 4
      requires SnapshotOf((previous, zones), effect, shown)
      requires firmware.zones[Count()..] == shown[Count()..] && (Flagged().globalStatic ==> firmware.zones == shown)
      modifies firmware`effect, firmware`zones, firmware`log
      ensures firmware.Valid() && OnlyWritable(Flagged(), firmware.log)
      ensures firmware.log == old(firmware.log) + rollback
      ensures RolledBack(effect, shown, (previous, zones), rollback)
    {
      var ok: bool;
      ok, rollback := RollBack(previous, zones);
      SameHalves(firmware.zones, shown, Count());
    }

    method ZonesStore(colors: seq<nat>, brightness: nat)
      returns (r: Outcome<Errno>, ghost taken: bool, ghost snapshot: (Effect, Zones), ghost forward: seq<Entry>, ghost rollback: seq<Entry>)
      requires Valid()
      modifies this, firmware`effect, firmware`zones, firmware`log
      ensures Valid()
      ensures ZonesRequest(Count(), colors, brightness).Failure? ==>
                r == Fail(ZonesRequest(Count(), colors, brightness).error) && unchanged(this) && unchanged(firmware)
      ensures r == Pass ==>
                var requested := ZonesRequest(Count(), colors, brightness).value;
                && Committed(StaticEffect(Flagged(), requested), true)
                && ZonesMatch(requested, cachedZones, Count())
                && taken && Actions(forward) == ZoneTransaction(Flagged(), Count(), requested) && rollback == []
                && lastNonzeroBrightness == if requested.brightness != 0 then requested.brightness else old(lastNonzeroBrightness)
      ensures r != Pass ==>
                SameDriver(old(cachedEffect), old(cachedZones), old(rgbCacheValid), old(lastNonzeroBrightness))
      ensures taken ==>
                && ZonesRequest(Count(), colors, brightness).Success?
                && SnapshotOf(snapshot, old(firmware.effect), old(firmware.zones))
                && firmware.log == old(firmware.log) + forward + rollback
                && Wrote(forward, ZoneTransaction(Flagged(), Count(), ZonesRequest(Count(), colors, brightness).value))
      ensures !taken ==> r != Pass && unchanged(this) && unchanged(firmware)
      ensures old(Unsnapshotable()) ==> !taken
      ensures old(Snapshotable()) ==> (taken <==> ZonesRequest(Count(), colors, brightness).Success?)
      ensures r != Pass && taken ==> RolledBack(old(firmware.effect), old(firmware.zones), snapshot, rollback)
      ensures firmware.faithful ==>
                (r == Pass <==>
                   && ReadValid(Flagged(), old(firmware.effect)) && ZonesRequest(Count(), colors, brightness).Success?
                   && Confirmable(ZonesRequest(Count(), colors, brightness).value))
    {
      forward, rollback, taken, snapshot := [], [], false, (firmware.effect, cachedZones);
      var request := ZonesRequest(Count(), colors, brightness);
      if request.Failure? {
        return Fail(request.error), taken, snapshot, [], [];
      }
      var previous := SnapshotRgbState();
      if previous.Failure? {
        return Fail(previous.error), taken, snapshot, [], [];
      }
      taken, snapshot := true, previous.value;
      r, forward := TryZones(request.value);
      if r.Fail? {
        rollback := RollBackTo(previous.value.0, previous.value.1, old(firmware.effect), old(firmware.zones));
      }
    }

    /** A machine with one static color for all zones reports black for the
        zones beyond the first, so it cannot confirm any other color there. */
    predicate Confirmable(requested: Zones) {
      Flagged().globalStatic ==> forall k | 1 <= k < Count() :: requested.rgb[k] == BLACK
    }

    lemma GlobalStaticMatches(requested: Zones, effect: Effect, zones: seq<Color>)
      requires Count() > 0 && requested.brightness <= 100 && |zones| == 4
      requires Shows(Flagged(), StaticEffect(Flagged(), requested), effect)
      requires !Flagged().globalStatic ==> zones[..Count()] == requested.rgb[..Count()]
      ensures ZonesMatch(requested, Observed(Flagged(), Count(), effect, zones), Count()) <==> Confirmable(requested)
    {
      var shown := Observed(Flagged(), Count(), effect, zones).rgb;
      if Flagged().globalStatic {
        assert shown == [requested.rgb[0], BLACK, BLACK, BLACK];
        if requested.rgb[..Count()] == shown[..Count()] {
          forall k | 1 <= k < Count() ensures requested.rgb[k] == BLACK {
            assert requested.rgb[k] == requested.rgb[..Count()][k] == shown[..Count()][k];
          }
        }
      } else {
        assert shown[..Count()] == zones[..Count()];
      }
    }

    /** Write a static transaction, read everything back and commit it. */
    method TryZones(requested: Zones) returns (r: Outcome<Errno>, ghost forward: seq<Entry>)
      requires Valid() && requested.brightness <= 100 && Count() > 0
      modifies this, firmware`effect, firmware`zones, firmware`log
      ensures Valid() && firmware.log == old(firmware.log) + forward
      ensures Wrote(forward, ZoneTransaction(Flagged(), Count(), requested))
      ensures firmware.zones[Count()..] == old(firmware.zones)[Count()..]
      ensures Flagged().globalStatic ==> firmware.zones == old(firmware.zones)
      ensures r == Pass ==>
                && Committed(StaticEffect(Flagged(), requested), true)
                && ZonesMatch(requested, cachedZones, Count())
                && Actions(forward) == ZoneTransaction(Flagged(), Count(), requested)
                && lastNonzeroBrightness == if requested.brightness != 0 then requested.brightness else old(lastNonzeroBrightness)
      ensures r != Pass ==>
                SameDriver(old(cachedEffect), old(cachedZones), old(rgbCacheValid), old(lastNonzeroBrightness))
      ensures firmware.faithful ==> (r == Pass <==> Confirmable(requested))
    {
      ghost var base := firmware.log;
      r := WriteZones(requested);
      forward := firmware.log[|base|..];
      TransactionIsWritable(Flagged(), Count(), requested, forward);
      WritableGrows(Flagged(), base, firmware.log);
      if r.Fail? {
        return;
      }
      var actual := ReadRgbState();
      if actual.Failure? {
        return Fail(actual.error), forward;
      }
      if firmware.faithful {
        GlobalStaticMatches(requested, firmware.effect, firmware.zones);
      }
      var matches := CheckZonesMatch(requested, actual.value.1, Count());
      if !matches {
        return Fail(EIO), forward;
      }
      if firmware.faithful {
        TakenIsConfirmed(Flagged(), StaticEffect(Flagged(), requested), firmware.effect);
      }
      r := Confirm(StaticEffect(Flagged(), requested), true, actual);
      if r.Pass? && requested.brightness != 0 {
        lastNonzeroBrightness := requested.brightness;
      }
    }

    /** The record the power switch writes after a snapshot. */
    ghost function SwitchRequest(last: u8, enabled: bool, snapshot: (Effect, Zones)): Effect {
      PowerRequest(Flagged(), LastAfter(last, enabled, snapshot.0), enabled, snapshot.0, snapshot.1)
    }

    /** The record it writes from the present state. */
    ghost function Switched(enabled: bool): Effect
      requires firmware.Valid()
      reads this, firmware
    {
      SwitchRequest(lastNonzeroBrightness, enabled, (Canonical(Flagged(), firmware.effect, Visible()), Visible()))
    }

    /** After a switch the visible colors are the same exactly if the record kept
        its kind or the machine shows every color of a static one. */
    lemma SwitchedColors(requested: Effect, effect: Effect, shown: Effect, zones: seq<Color>)
      requires |zones| == 4 && Shows(Flagged(), requested, shown) && ReadValid(Flagged(), effect)
      requires var visible := Observed(Flagged(), Count(), effect, zones);
               && (requested.mode == 0 <==> Canonical(Flagged(), effect, visible).mode == 0)
               && (requested.mode == 0 ==> requested == StaticEffect(Flagged(), Zones(visible.rgb, requested.brightness)))
      ensures Observed(Flagged(), Count(), shown, zones).rgb == Observed(Flagged(), Count(), effect, zones).rgb
              <==> WriteValid(Flagged(), effect) || Confirmable(Observed(Flagged(), Count(), effect, zones))
    {
      var visible := Observed(Flagged(), Count(), effect, zones);
      if !Flagged().globalStatic || (requested.mode == 0 <==> effect.mode == 0) {
        ColorsStayVisible(Flagged(), Count(), effect, requested, shown, zones);
        if Flagged().globalStatic && effect.mode == 0 {
          assert visible.rgb == [effect.color, BLACK, BLACK, BLACK];
        }
      } else {
        assert Observed(Flagged(), Count(), shown, zones).rgb == [visible.rgb[0], BLACK, BLACK, BLACK];
        assert visible.rgb == zones[..Count()] + seq(4 - Count(), _ => BLACK);
      }
    }

    method PowerStore(enabled: bool)
      returns (r: Outcome<Errno>, ghost taken: bool, ghost snapshot: (Effect, Zones), ghost forward: seq<Entry>, ghost rollback: seq<Entry>)
      requires Valid()
      modifies this, firmware`effect, firmware`zones, firmware`log
      ensures Valid()
      ensures r == Pass && firmware.honest ==>
                && Committed(old(Switched(enabled)), old(Switched(enabled)).mode == 0)
                && cachedZones == Zones(old(Visible()).rgb, old(Switched(enabled)).brightness)
      ensures r == Pass && !enabled ==> cachedEffect.brightness == 0
      ensures r == Pass && enabled && firmware.honest ==>
                cachedEffect.brightness ==
                if old(firmware.effect).brightness != 0 then old(firmware.effect).brightness else old(lastNonzeroBrightness)
      ensures r != Pass ==> SameCache(old(cachedEffect), old(cachedZones), old(rgbCacheValid))
      ensures enabled ==> lastNonzeroBrightness == old(lastNonzeroBrightness)
      ensures !taken ==> r != Pass && unchanged(this) && unchanged(firmware)
      ensures old(Unsnapshotable()) ==> !taken
      ensures old(Snapshotable()) ==> taken
      ensures firmware.honest && taken ==>
                lastNonzeroBrightness == old(LastAfter(lastNonzeroBrightness, enabled, Canonical(Flagged(), firmware.effect, Visible())))
      ensures firmware.frozen && !enabled ==> r != Pass
      ensures taken ==>
                && SnapshotOf(snapshot, old(firmware.effect), old(firmware.zones))
                && firmware.log == old(firmware.log) + forward + rollback
                && Wrote(forward, SwitchWrites(old(lastNonzeroBrightness), enabled, snapshot))
      ensures r == Pass ==>
                taken && Actions(forward) == SwitchWrites(old(lastNonzeroBrightness), enabled, snapshot) && rollback == []
      ensures r != Pass && taken ==> RolledBack(old(firmware.effect), old(firmware.zones), snapshot, rollback)
      ensures firmware.faithful ==> (r == Pass <==> old(Switchable()))
      ensures firmware.faithful && r == Pass ==>
                Shows(Flagged(), old(Switched(enabled)), firmware.effect) && firmware.zones == old(firmware.zones)
    {
      forward, rollback, taken, snapshot := [], [], false, (firmware.effect, cachedZones);
      var previous := SnapshotRgbState();
      if previous.Failure? {
        return Fail(previous.error), taken, snapshot, [], [];
      }
      taken, snapshot := true, previous.value;
      r, forward, rollback := SwitchFrom(enabled, previous.value.0, previous.value.1);
    }

    /** The switch from its snapshot on: the brightness is remembered first. */
    method SwitchFrom(enabled: bool, previous: Effect, zones: Zones)
      returns (r: Outcome<Errno>, ghost forward: seq<Entry>, ghost rollback: seq<Entry>)
      requires Valid() && Count() > 0 && SnapshotOf((previous, zones), firmware.effect, firmware.zones)
      modifies this, firmware`effect, firmware`zones, firmware`log
      ensures Valid() && lastNonzeroBrightness == LastAfter(old(lastNonzeroBrightness), enabled, previous)
      ensures var requested := SwitchRequest(old(lastNonzeroBrightness), enabled, (previous, zones));
              && Switches(enabled, requested, zones, r, old(firmware.log), forward, rollback)
              && (requested.brightness ==
                  if !enabled then 0
                  else if previous.brightness != 0 then previous.brightness else old(lastNonzeroBrightness))
              && (firmware.faithful && r == Pass ==>
                    Shows(Flagged(), requested, firmware.effect) && firmware.zones == old(firmware.zones))
      ensures r != Pass ==> SameCache(old(cachedEffect), old(cachedZones), old(rgbCacheValid))
      ensures r != Pass ==> RolledBack(old(firmware.effect), old(firmware.zones), (previous, zones), rollback)
      ensures firmware.frozen && !enabled ==> r != Pass
      ensures firmware.faithful ==> (r == Pass <==> WriteValid(Flagged(), old(firmware.effect)) || Confirmable(zones))
    {
      if !enabled && previous.brightness != 0 {
        lastNonzeroBrightness := previous.brightness;
      }
      var requested := PowerRequest(Flagged(), lastNonzeroBrightness, enabled, previous, zones);
      PowerRequestIsWritable(Flagged(), lastNonzeroBrightness, enabled, previous, zones);
      r, forward, rollback := SwitchTo(enabled, requested, previous, zones);
    }

    /** The writes of a switch, and what a successful one committed. */
    ghost predicate Switches(enabled: bool, requested: Effect, zones: Zones, r: Outcome<Errno>, before: seq<Entry>,
                             forward: seq<Entry>, rollback: seq<Entry>)
      requires firmware.Valid()
      reads this, firmware
    {
      && firmware.log == before + forward + rollback
      && Wrote(forward, PowerWrites(Flagged(), Count(), enabled, requested, zones))
      && (r == Pass ==>
            && Committed(requested, requested.mode == 0) && cachedZones == Zones(zones.rgb, requested.brightness)
            && Actions(forward) == PowerWrites(Flagged(), Count(), enabled, requested, zones) && rollback == [])
    }

    /** What a switch writes after this snapshot. */
    ghost function SwitchWrites(last: u8, enabled: bool, snapshot: (Effect, Zones)): seq<Action> {
      PowerWrites(Flagged(), Count(), enabled, SwitchRequest(last, enabled, snapshot), snapshot.1)
    }

    /** The power switch after its snapshot: commit the record or roll back. */
    method SwitchTo(enabled: bool, requested: Effect, previous: Effect, zones: Zones)
      returns (r: Outcome<Errno>, ghost forward: seq<Entry>, ghost rollback: seq<Entry>)
      requires Valid() && Count() > 0 && WriteValid(Flagged(), requested) && requested.mode == previous.mode
      requires SnapshotOf((previous, zones), firmware.effect, firmware.zones)
      requires requested.mode == 0 ==> requested == StaticEffect(Flagged(), Zones(zones.rgb, requested.brightness))
      modifies `cachedEffect, `cachedZones, `rgbCacheValid, firmware`effect, firmware`zones, firmware`log
      ensures Valid()
      ensures Switches(enabled, requested, zones, r, old(firmware.log), forward, rollback)
      ensures r != Pass ==> SameCache(old(cachedEffect), old(cachedZones), old(rgbCacheValid))
      ensures r != Pass ==> RolledBack(old(firmware.effect), old(firmware.zones), (previous, zones), rollback)
      ensures firmware.frozen && !enabled ==> r != Pass
      ensures firmware.faithful ==> (r == Pass <==> WriteValid(Flagged(), old(firmware.effect)) || Confirmable(zones))
      ensures firmware.faithful && r == Pass ==>
                Shows(Flagged(), requested, firmware.effect) && firmware.zones == old(firmware.zones)
    {
      rollback := [];
      ghost var effect, shown := firmware.effect, firmware.zones;
      r, forward := TryPower(enabled, requested, zones);
      if firmware.faithful {
        SwitchedColors(requested, effect, firmware.effect, shown);
      }
      if r.Fail? {
        rollback := RollBackTo(previous, zones, effect, shown);
      }
    }

    /** A state that a power switch of a faithful firmware confirms: it can be
        read, and where a boot record is replaced by a static one, the machine
        still shows every color afterwards. */
    ghost predicate Switchable()
      requires firmware.Valid()
      reads this, firmware
    {
      && Count() > 0 && ReadValid(Flagged(), firmware.effect)
      && (WriteValid(Flagged(), firmware.effect) || Confirmable(Visible()))
    }

    /** Write the record of a power switch, read back and commit. */
    method TryPower(enabled: bool, requested: Effect, zones: Zones) returns (r: Outcome<Errno>, ghost forward: seq<Entry>)
      requires Valid() && WriteValid(Flagged(), requested) && Count() > 0
      requires requested.mode == 0 ==> requested == StaticEffect(Flagged(), Zones(zones.rgb, requested.brightness))
      modifies `cachedEffect, `cachedZones, `rgbCacheValid, firmware`effect, firmware`zones, firmware`log
      ensures Valid() && firmware.log == old(firmware.log) + forward
      ensures Wrote(forward, PowerWrites(Flagged(), Count(), enabled, requested, zones))
      ensures r == Pass ==> Actions(forward) == PowerWrites(Flagged(), Count(), enabled, requested, zones)
      ensures firmware.zones[Count()..] == old(firmware.zones)[Count()..]
      ensures Flagged().globalStatic ==> firmware.zones == old(firmware.zones)
      ensures r == Pass ==>
                Committed(requested, requested.mode == 0) && cachedZones == Zones(zones.rgb, requested.brightness)
      ensures r != Pass ==> SameCache(old(cachedEffect), old(cachedZones), old(rgbCacheValid))
      ensures firmware.faithful && old(Visible()).rgb == zones.rgb ==>
                && Shows(Flagged(), requested, firmware.effect) && firmware.zones == old(firmware.zones)
                && (r == Pass <==> Visible().rgb == zones.rgb)
      ensures firmware.frozen && !enabled ==> r.Fail?
    {
      r, forward := WritePower(enabled, requested, zones);
      if r.Fail? {
        return;
      }
      if firmware.faithful {
        TakenIsConfirmed(Flagged(), requested, firmware.effect);
      }
      var actual := ReadRgbState();
      r := ConfirmPower(requested, zones, actual);
    }

    /** A power switch is only confirmed when every color is where it was. */
    method ConfirmPower(requested: Effect, zones: Zones, actual: Result<(Effect, Zones), Errno>) returns (r: Outcome<Errno>)
      requires firmware.Valid() && CacheValid()
      requires actual.Success? ==>
                 actual.value.1 == Observed(Flagged(), Count(), actual.value.0, actual.value.1.rgb) && Count() > 0
      requires actual.Success? && firmware.honest ==> actual.value == (firmware.effect, Visible())
      modifies `cachedEffect, `cachedZones, `rgbCacheValid
      ensures CacheValid()
      ensures r == Pass <==>
                && actual.Success? && EffectMatches(Flagged(), requested, actual.value.0, requested.mode == 0)
                && actual.value.1.rgb == zones.rgb
      ensures r == Pass ==>
                Committed(requested, requested.mode == 0) && cachedZones == Zones(zones.rgb, requested.brightness)
      ensures r != Pass ==> SameCache(old(cachedEffect), old(cachedZones), old(rgbCacheValid))
    {
      if actual.Success? && (actual.value.1.rgb != zones.rgb || actual.value.1.brightness != requested.brightness) {
        return Fail(EIO);
      }
      r := Confirm(requested, requested.mode == 0, actual);
    }

    /** Re-enabling a static keyboard replays its zones; all else is one record. */
    method WritePower(enabled: bool, requested: Effect, zones: Zones) returns (r: Outcome<Errno>, ghost forward: seq<Entry>)
      requires firmware.Valid() && OnlyWritable(Flagged(), firmware.log) && WriteValid(Flagged(), requested) && Count() > 0
      requires requested.mode == 0 ==> requested == StaticEffect(Flagged(), Zones(zones.rgb, requested.brightness))
      modifies firmware`effect, firmware`zones, firmware`log
      ensures firmware.Valid() && OnlyWritable(Flagged(), firmware.log) && firmware.log == old(firmware.log) + forward
      ensures firmware.zones[Count()..] == old(firmware.zones)[Count()..]
      ensures Flagged().globalStatic ==> firmware.zones == old(firmware.zones)
      ensures Wrote(forward, PowerWrites(Flagged(), Count(), enabled, requested, zones))
      ensures r == Pass ==> Actions(forward) == PowerWrites(Flagged(), Count(), enabled, requested, zones)
      ensures firmware.faithful ==> r == Pass && Shows(Flagged(), requested, firmware.effect)
      ensures firmware.frozen && !enabled ==> r.Fail?
      ensures firmware.faithful && (!Flagged().globalStatic ==> old(firmware.zones)[..Count()] == zones.rgb[..Count()]) ==>
                firmware.zones == old(firmware.zones)
    {
      ghost var base := firmware.log;
      if requested.mode == 0 && enabled {
        var requestedZones: Zones := Zones(zones.rgb, requested.brightness);
        r := WriteZones(requestedZones);
        TransactionIsWritable(Flagged(), Count(), requestedZones, firmware.log[|base|..]);
        WritableGrows(Flagged(), base, firmware.log);
        SameHalves(firmware.zones, old(firmware.zones), Count());
      } else {
        r := firmware.SetEffect(requested);
        GrowsByOne(base, base, firmware.log);
        assert firmware.log == base + [firmware.log[|base|]];
      }
      forward := firmware.log[|base|..];
    }

    // ------------------------------------------------------ probe and resume

    /** Discovery reads once and writes nothing. */
    method Probe()
      requires Valid()
      modifies this
      ensures Valid()
      ensures rgbCacheValid && !old(rgbCacheValid) ==> WriteValid(Flagged(), cachedEffect)
      ensures rgbAvailable && !old(rgbAvailable) ==> 0 < lastNonzeroBrightness <= 100
      ensures firmware.Readable() && Count() > 0 && ReadValid(Flagged(), firmware.effect) ==>
                rgbAvailable && lastNonzeroBrightness == if firmware.effect.brightness != 0 then firmware.effect.brightness else 100
      ensures firmware.Readable() && Count() > 0 && WriteValid(Flagged(), firmware.effect) ==>
                SameCache(firmware.effect, Visible(), true)
    {
      var state := ReadRgbState();
      if state.Failure? {
        return;
      }
      var (effect, zones) := state.value;
      if !ReadValid(Flagged(), effect) {
        return;
      }
      rgbAvailable := true;
      if WriteValid(Flagged(), effect) {
        CacheRgbState(effect, zones);
      }
      lastNonzeroBrightness := if effect.brightness != 0 then effect.brightness else 100;
    }

    /** What a resume writes: the cached record, or the static transaction that
        shows the cached zones. */
    ghost function ResumeWrites(): seq<Action>
      reads this
    {
      if !rgbCacheValid then []
      else if cachedEffect.mode == 0 then ZoneTransaction(Flagged(), Count(), cachedZones)
      else [WriteEffect(cachedEffect)]
    }

    ghost function ResumeEffect(): Effect
      reads this
    {
      if cachedEffect.mode == 0 then StaticEffect(Flagged(), cachedZones) else cachedEffect
    }

    method Resume() returns (r: Outcome<Errno>)
      requires Valid()
      modifies `cachedEffect, `cachedZones, `rgbCacheValid, firmware`effect, firmware`zones, firmware`log
      ensures Valid() && old(firmware.log) <= firmware.log
      ensures Actions(firmware.log[|old(firmware.log)|..]) <= old(ResumeWrites())
      ensures !old(rgbCacheValid) ==> r == Pass && unchanged(this) && unchanged(firmware)
      ensures old(rgbCacheValid) && r == Pass ==>
                && Committed(old(ResumeEffect()), old(cachedEffect).mode == 0)
                && (old(cachedEffect).mode == 0 ==> cachedZones == old(cachedZones))
                && Actions(firmware.log[|old(firmware.log)|..]) == old(ResumeWrites())
      ensures r != Pass ==> SameCache(old(cachedEffect), old(cachedZones), old(rgbCacheValid))
      ensures firmware.faithful && old(rgbCacheValid) ==>
                && r == Pass
                && (if old(cachedEffect).mode == 0 then Visible() == old(cachedZones) else firmware.effect == old(cachedEffect))
    {
      if !rgbCacheValid {
        return Pass;
      }
      ghost var base := firmware.log;
      var staticMode := cachedEffect.mode == 0;
      var expected := cachedEffect;
      if staticMode {
        expected := StaticEffect(Flagged(), cachedZones);
        r := WriteZones(cachedZones);
        TransactionIsWritable(Flagged(), Count(), cachedZones, firmware.log[|base|..]);
        WritableGrows(Flagged(), base, firmware.log);
      } else {
        r := firmware.SetEffect(cachedEffect);
        GrowsByOne(base, base, firmware.log);
        assert firmware.log == base + [firmware.log[|base|]];
      }
      if r.Fail? {
        return;
      }
      var actual := ReadRgbState();
      if actual.Success? && staticMode && actual.value.1 != cachedZones {
        return Fail(EIO);
      }
      r := Confirm(expected, staticMode, actual);
    }
  }

  // ------------------------------------------------------------ whole runs

  datatype Operation =
    | ProbeAgain
    | StoreEffect(values: seq<nat>)
    | StoreZones(colors: seq<nat>, brightness: nat)
    | StorePower(enabled: bool)
    | ResumeAgain

  /** In every run of probes, stores, rollbacks and resumes over arbitrary
      firmware answers, every effect record ever written is write-valid: boot
      records and stale static readbacks are never replayed. */
  method RunDriver(rgb: AsenseRgb, operations: seq<Operation>)
    requires rgb.Valid()
    requires forall o | o in operations && o.StoreEffect? :: |o.values| == 7
    modifies rgb, rgb.firmware
    ensures rgb.Valid()
    ensures forall e | e in rgb.firmware.log && e.action.WriteEffect? :: WriteValid(rgb.firmware.flags, e.action.effect)
  {
    for i := 0 to |operations|
      invariant rgb.Valid()
    {
      match operations[i]
      case ProbeAgain => rgb.Probe();
      case StoreEffect(values) => assert operations[i] in operations; var r, taken, snapshot, shown := rgb.EffectStore(values);
      case StoreZones(colors, brightness) => var r, taken, snapshot, forward, rollback := rgb.ZonesStore(colors, brightness);
      case StorePower(enabled) => var r, taken, snapshot, forward, rollback := rgb.PowerStore(enabled);
      case ResumeAgain => var r := rgb.Resume();
    }
  }

  /** On a faithful firmware that is lit by a writable record, switching the
      power off and on again brings back mode, brightness and every visible
      color, and a dynamic record completely, under every flag combination. */
  method PowerCycle(rgb: AsenseRgb) returns (off: Outcome<Errno>, on: Outcome<Errno>)
    requires rgb.Valid() && rgb.firmware.faithful && rgb.Count() > 0
    requires WriteValid(rgb.firmware.flags, rgb.firmware.effect) && rgb.firmware.effect.brightness > 0
    modifies rgb, rgb.firmware
    ensures off == Pass && on == Pass
    ensures rgb.firmware.effect.mode == old(rgb.firmware.effect.mode)
    ensures rgb.firmware.Valid() && rgb.Visible() == old(rgb.Visible())
    ensures old(rgb.firmware.effect.mode) != 0 ==> rgb.firmware.effect == old(rgb.firmware.effect)
  {
    var switchedOff, _, _, _, _ := rgb.PowerStore(false);
    var switchedOn, _, _, _, _ := rgb.PowerStore(true);
    off, on := switchedOff, switchedOn;
  }

  /** A failed switch that changed what the driver remembers: the keyboard is
      found at 40, brightened to 60 by its own keys, and then refuses to be
      switched off. No record was taken, yet 60 is remembered from now on. */
  method FailedSwitchRemembers() returns (r: Outcome<Errno>, before: u8, after: u8)
    ensures r != Pass && before == 40 && after == 60
  {
    var flags := Flags(false, false, false, false, false, false);
    var found := Effect(0, 0, 40, 0, BLACK, STATIC_ENGINE);
    var firmware := new Firmware(flags, true, false, true, found, [BLACK, BLACK, BLACK, BLACK]);
    var rgb := new AsenseRgb(firmware, 0x0f);
    rgb.Probe();
    before := rgb.lastNonzeroBrightness;
    firmware.effect := found.(brightness := 60);
    var status, _, _, _, _ := rgb.PowerStore(false);
    r := status;
    after := rgb.lastNonzeroBrightness;
  }
}
