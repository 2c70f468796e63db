/**
  The keyboard lighting policy of kernel/asense_rgb_policy.h: which effect
  records may be written, which may be read, and when a readback confirms a
  request under the quirk flags of a machine.
*/
module LightingPolicy {
  import opened Wrappers

  const STATIC_ENGINE: u8 := 0x00
  const FOUR_ZONE_ENGINE: u8 := 0x03

  datatype Color = Color(red: u8, green: u8, blue: u8)

  const BLACK: Color := Color(0, 0, 0)

  datatype Effect = Effect(mode: u8, speed: u8, brightness: u8, direction: u8, color: Color, engine: u8)

  datatype ZoneRecord = Zones(rgb: seq<Color>, brightness: u8)

  type Zones = z: ZoneRecord | |z.rgb| == 4 witness Zones([BLACK, BLACK, BLACK, BLACK], 0)

  datatype Flags = Flags(
    preamble: bool,
    fourZoneEngine: bool,
    staleStatic: bool,
    bootWaveZero: bool,
    globalStatic: bool,
    staticColorShadow: bool)

  function Engine(flags: Flags, mode: u8): u8 {
    if flags.fourZoneEngine then FOUR_ZONE_ENGINE
    else if mode == 0 then STATIC_ENGINE else FOUR_ZONE_ENGINE
  }

  function StaticEffect(flags: Flags, zones: Zones): Effect {
    Effect(0, 0, zones.brightness, 0, if flags.globalStatic then zones.rgb[0] else BLACK, Engine(flags, 0))
  }

  predicate WriteValid(flags: Flags, e: Effect) {
    && e.mode <= 7 && e.speed <= 9 && e.brightness <= 100 && e.direction <= 2
    && (e.mode <= 1 ==> e.speed == 0 && e.direction == 0)
    && (e.mode == 2 ==> e.direction == 0)
    && (e.mode == 3 || e.mode == 4 ==> 1 <= e.direction <= 2)
    && (e.mode >= 5 ==> e.direction == 0)
    && e.engine == Engine(flags, e.mode)
  }

  /** A static readback that retains bounded dynamic parameters. */
  predicate StaleStatic(flags: Flags, e: Effect) {
    flags.staleStatic && e.mode == 0 && e.speed <= 9 && e.direction <= 2 && e.brightness <= 100
    && e.engine == Engine(flags, 0)
  }

  /** The exact boot record of some machines; never a write encoding. */
  predicate BootRecord(flags: Flags, e: Effect) {
    flags.bootWaveZero && e.mode == 3 && e.speed == 0 && e.direction == 0 && e.brightness <= 100
    && e.color == BLACK && (e.engine == STATIC_ENGINE || e.engine == FOUR_ZONE_ENGINE)
  }

  predicate ReadValid(flags: Flags, e: Effect) {
    WriteValid(flags, e) || StaleStatic(flags, e) || BootRecord(flags, e)
  }

  predicate EffectMatches(flags: Flags, expected: Effect, actual: Effect, zoneTransaction: bool) {
    var stale := flags.staleStatic && expected.mode == 0;
    var shadow := zoneTransaction && expected.mode == 0 && flags.staticColorShadow;
    && WriteValid(flags, expected) && ReadValid(flags, actual)
    && expected.mode == actual.mode && expected.brightness == actual.brightness && expected.engine == actual.engine
    && (stale || (expected.speed == actual.speed && expected.direction == actual.direction))
    && (shadow || expected.color == actual.color)
  }

  predicate ZonesMatch(expected: Zones, actual: Zones, count: nat) {
    && 0 < count <= 4 && expected.brightness <= 100
    && expected.brightness == actual.brightness
    && expected.rgb[..count] == actual.rgb[..count]
  }

  method CheckZonesMatch(expected: Zones, actual: Zones, count: nat) returns (matches: bool)
    ensures matches == ZonesMatch(expected, actual, count)
  {
    if count == 0 || count > 4 || expected.brightness > 100 || expected.brightness != actual.brightness {
      return false;
    }
    var zone := 0;
    while zone < count
      invariant 0 <= zone <= count
      invariant expected.rgb[..zone] == actual.rgb[..zone]
    {
      if expected.rgb[zone] != actual.rgb[zone] {
        assert expected.rgb[..count][zone] != actual.rgb[..count][zone];
        return false;
      }
      zone := zone + 1;
    }
    return true;
  }

  /** The canonical static record is writable exactly for a bounded brightness. */
  lemma StaticEffectIsWritable(flags: Flags, zones: Zones)
    ensures WriteValid(flags, StaticEffect(flags, zones)) <==> zones.brightness <= 100
  {
  }

  /** A confirmed dynamic request is confirmed byte for byte under every flag
      combination: the static tolerances never relax it. */
  lemma DynamicConfirmationIsExact(flags: Flags, expected: Effect, actual: Effect, zoneTransaction: bool)
    requires expected.mode != 0
    ensures EffectMatches(flags, expected, actual, zoneTransaction) <==> actual == expected && WriteValid(flags, expected)
  {
  }

  /** What is readable but not writable is a stale static record or the boot
      record, and both carry a brightness that a static record may carry. */
  lemma ReadOnlyRecords(flags: Flags, e: Effect)
    requires ReadValid(flags, e) && !WriteValid(flags, e)
    ensures e.brightness <= 100
    ensures e.mode == 0 || (e.mode == 3 && e.color == BLACK)
    ensures e.mode == 0 ==> flags.staleStatic && (e.speed != 0 || e.direction != 0)
  {
  }

  // --------------------------------------------------- what a firmware shows

  /** `shown` is what a firmware that took `e` reports afterwards: dynamic
      records exactly; a static record up to the parameters and the color the
      machine is known to keep from elsewhere. Where the static color is the
      visible color it is reported exactly. */
  predicate Shows(flags: Flags, e: Effect, shown: Effect) {
    if e.mode != 0 then shown == e
    else
      && shown.mode == 0 && shown.brightness == e.brightness && shown.engine == e.engine
      && shown.speed <= 9 && shown.direction <= 2
      && (flags.staleStatic || (shown.speed == e.speed && shown.direction == e.direction))
      && ((flags.staticColorShadow && !flags.globalStatic) || shown.color == e.color)
  }

  /** A record that was taken is confirmed, in the strict form as well unless
      the machine shadows the static color. */
  lemma TakenIsConfirmed(flags: Flags, e: Effect, shown: Effect)
    requires WriteValid(flags, e) && Shows(flags, e, shown)
    ensures EffectMatches(flags, e, shown, true)
    ensures !flags.staticColorShadow || flags.globalStatic || e.mode != 0 ==> EffectMatches(flags, e, shown, false)
  {
  }

  /** The colors and the brightness a user sees. */
  function Observed(flags: Flags, count: nat, effect: Effect, zones: seq<Color>): Zones
    requires count <= 4 && |zones| == 4
  {
    if flags.globalStatic && effect.mode == 0 then
      Zones([effect.color, BLACK, BLACK, BLACK], effect.brightness)
    else
      Zones(zones[..count] + seq(4 - count, _ => BLACK), effect.brightness)
  }

  /** A record that keeps the visible colors of a state, once taken over
      unchanged zones, shows those colors. */
  lemma ColorsStayVisible(flags: Flags, count: nat, effect: Effect, e: Effect, shown: Effect, zones: seq<Color>)
    requires count <= 4 && |zones| == 4 && Shows(flags, e, shown)
    requires flags.globalStatic ==> (e.mode == 0 <==> effect.mode == 0)
    requires e.mode == 0 ==> e == StaticEffect(flags, Zones(Observed(flags, count, effect, zones).rgb, e.brightness))
    ensures Observed(flags, count, shown, zones).rgb == Observed(flags, count, effect, zones).rgb
  {
  }

  /** The record a rollback replays for an observed one. */
  function Canonical(flags: Flags, effect: Effect, zones: Zones): Effect {
    if WriteValid(flags, effect) then effect else StaticEffect(flags, zones)
  }

  lemma CanonicalIsWritable(flags: Flags, effect: Effect, zones: Zones)
    requires ReadValid(flags, effect) && zones.brightness == effect.brightness
    ensures WriteValid(flags, Canonical(flags, effect, zones))
  {
  }
}
