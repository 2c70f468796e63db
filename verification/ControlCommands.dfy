/**
  The typed commands that carry numbers and colours: printed by the client
  (src/control.rs), parsed by the daemon (src/daemon.rs).
*/
module ControlCommands {
  import opened Wrappers
  import opened Text
  import opened ByteStream
  import CommandFraming
  import Utf8

  const MAX_TOKEN_BYTES: nat := 48

  datatype LightingMode = Off | Static | Breathing | Neon

  datatype Request =
    | FanManual(cpuPercent: u8, gpuPercent: u8)
    | LightingApply(device: string, mode: LightingMode, brightness: u8, speed: u8, color: Rgb, zones: seq<Rgb>)
    | RearLogo(enabled: bool, brightness: u8, color: Rgb)

  // ----------------------------------------------------------- the client

  predicate TokenChar(c: char) {
    'a' <= c <= 'z' || 'A' <= c <= 'Z' || '0' <= c <= '9' || c == '-' || c == '_'
  }

  predicate ValidDeviceId(id: string) {
    1 <= |id| <= MAX_TOKEN_BYTES && forall c | c in id :: TokenChar(c)
  }

  /** The client's own check of the arguments. */
  predicate InRange(request: Request) {
    match request
    case FanManual(cpu, gpu) => 20 <= cpu <= 100 && 20 <= gpu <= 100
    case LightingApply(device, _, brightness, speed, _, zones) =>
      ValidDeviceId(device) && brightness <= 100 && speed <= 9 && |zones| <= 16
    case RearLogo(_, brightness, _) => brightness <= 100
  }

  /** What a command line can ask the daemon for at all. */
  predicate Parsable(request: Request) {
    match request
    case FanManual(cpu, gpu) => 20 <= cpu <= 100 && 20 <= gpu <= 100
    case LightingApply(device, _, brightness, speed, _, zones) =>
      IsWord(device) && brightness <= 100 && speed <= 9 && |zones| <= 16
    case RearLogo(_, _, _) => true
  }

  lemma InRangeIsParsable(request: Request)
    requires InRange(request)
    ensures Parsable(request)
  {
  }

  function ModeName(mode: LightingMode): string {
    match mode
    case Off => "OFF"
    case Static => "STATIC"
    case Breathing => "BREATHING"
    case Neon => "NEON"
  }

  function HexColors(colors: seq<Rgb>): seq<string> {
    if colors == [] then [] else [HexColor(colors[0])] + HexColors(colors[1..])
  }

  function ZoneList(zones: seq<Rgb>): string {
    if zones == [] then "-" else Join(HexColors(zones), ',')
  }

  function OnOff(on: bool): string {
    if on then "ON" else "OFF"
  }

  function Decimals(n: nat): string {
    Print(n, Decimal)
  }

  function Fields(request: Request): seq<string> {
    match request
    case FanManual(cpu, gpu) => ["FAN", "MANUAL", Decimals(cpu), Decimals(gpu)]
    case LightingApply(device, mode, brightness, speed, color, zones) =>
      ["LIGHTING", "APPLY", device, ModeName(mode), Decimals(brightness), Decimals(speed), HexColor(color), ZoneList(zones)]
    case RearLogo(enabled, brightness, color) =>
      ["PLATFORM", "REAR_LOGO", HexColor(color), Decimals(brightness), OnOff(enabled)]
  }

  /** The command line, unless the client refuses the request. */
  function Encode(request: Request): Option<string> {
    var line := Join(Fields(request), ' ');
    if !InRange(request) then None
    else if request.LightingApply? && |Utf8.Encode(line)| > CommandFraming.MAX_COMMAND_BYTES then None
    else Some(line)
  }

  // ----------------------------------------------------------- the daemon

  function ParseU8(s: string): Option<u8> {
    ParseUnsigned(s, Decimal, 255)
  }

  function ParseManualPercent(s: string): Option<u8> {
    var n := ParseU8(s);
    if n.None? || !(20 <= n.value <= 100) then None else n
  }

  function ParseOnOff(s: string): Option<bool> {
    if s == "ON" then Some(true) else if s == "OFF" then Some(false) else None
  }

  function ParseMode(s: string): Option<LightingMode> {
    if s == "OFF" then Some(Off)
    else if s == "STATIC" then Some(Static)
    else if s == "BREATHING" then Some(Breathing)
    else if s == "NEON" then Some(Neon)
    else None
  }

  function ParseColors(parts: seq<string>): Option<seq<Rgb>> {
    if parts == [] then Some([])
    else
      var first, rest := ParseColor(parts[0]), ParseColors(parts[1..]);
      if first.None? || rest.None? then None else Some([first.value] + rest.value)
  }

  function ParseZones(s: string): Option<seq<Rgb>> {
    if s == "-" then Some([])
    else if |Split(s, ',')| > 16 then None
    else ParseColors(Split(s, ','))
  }

  function ParseLighting(fields: seq<string>): Option<Request>
    requires |fields| == 8
  {
    var mode, color, zones := ParseMode(fields[3]), ParseColor(fields[6]), ParseZones(fields[7]);
    var brightness, speed := ParseU8(fields[4]), ParseU8(fields[5]);
    if mode.None? || color.None? || zones.None? || brightness.None? || speed.None? then None
    else if brightness.value > 100 || speed.value > 9 then None
    else Some(LightingApply(fields[2], mode.value, brightness.value, speed.value, color.value, zones.value))
  }

  /** The request of a command line; None for errors and all other commands. */
  function Parse(command: string): Option<Request> {
    var fields := Words(command);
    if |fields| == 4 && fields[..2] == ["FAN", "MANUAL"] then
      var cpu, gpu := ParseManualPercent(fields[2]), ParseManualPercent(fields[3]);
      if cpu.None? || gpu.None? then None else Some(FanManual(cpu.value, gpu.value))
    else if |fields| == 8 && fields[..2] == ["LIGHTING", "APPLY"] then ParseLighting(fields)
    else if |fields| == 5 && fields[..2] == ["PLATFORM", "REAR_LOGO"] then
      var enabled, brightness, color := ParseOnOff(fields[4]), ParseU8(fields[3]), ParseColor(fields[2]);
      if enabled.None? || brightness.None? || color.None? then None
      else Some(RearLogo(enabled.value, brightness.value, color.value))
    else None
  }

  // ----------------------------------------------------------- round trip

  lemma {:induction false} ParseHexColors(colors: seq<Rgb>)
    ensures ParseColors(HexColors(colors)) == Some(colors) && |HexColors(colors)| == |colors|
    ensures forall part | part in HexColors(colors) :: ',' !in part && IsWord(part)
  {
    if colors != [] {
      var first, rest := HexColor(colors[0]), HexColors(colors[1..]);
      ParseHexColor(colors[0]);
      ParseHexColors(colors[1..]);
      ParseColorsCons(first, rest, colors[0], colors[1..]);
      assert colors == [colors[0]] + colors[1..];
    }
  }

  lemma ParseColorsCons(first: string, rest: seq<string>, color: Rgb, colors: seq<Rgb>)
    requires ParseColor(first) == Some(color) && ParseColors(rest) == Some(colors)
    ensures ParseColors([first] + rest) == Some([color] + colors)
  {
    assert ([first] + rest)[1..] == rest;
  }

  lemma {:induction false} JoinIsWord(parts: seq<string>)
    requires parts != [] && forall part | part in parts :: IsWord(part)
    ensures IsWord(Join(parts, ','))
    ensures |parts| > 1 ==> ',' in Join(parts, ',')
  {
    assert parts[0] in parts;
    if |parts| > 1 {
      JoinIsWord(parts[1..]);
    }
  }

  lemma ParseZoneList(zones: seq<Rgb>)
    requires |zones| <= 16
    ensures ParseZones(ZoneList(zones)) == Some(zones) && IsWord(ZoneList(zones))
  {
    if zones != [] {
      var parts := HexColors(zones);
      ParseHexColors(zones);
      SplitJoin(parts, ',');
      JoinIsWord(parts);
      if |parts| == 1 {
        ParseHexColor(zones[0]);
        assert parts[0] == HexColor(zones[0]) && |parts[0]| == 6;
      }
    }
  }

  lemma ModeRoundTrip(mode: LightingMode)
    ensures ParseMode(ModeName(mode)) == Some(mode) && IsWord(ModeName(mode))
  {
  }

  lemma OnOffRoundTrip(on: bool)
    ensures ParseOnOff(OnOff(on)) == Some(on) && IsWord(OnOff(on)) && |OnOff(on)| <= 3
  {
  }

  lemma U8RoundTrip(n: u8)
    ensures ParseU8(Decimals(n)) == Some(n) && IsWord(Decimals(n))
  {
    ParsePrint(n, Decimal, 255);
  }

  lemma Literals()
    ensures IsWord("FAN") && IsWord("MANUAL") && IsWord("LIGHTING") && IsWord("APPLY")
    ensures IsWord("PLATFORM") && IsWord("REAR_LOGO")
  {
  }

  lemma FourWords(a: string, b: string, c: string, d: string)
    requires IsWord(a) && IsWord(b) && IsWord(c) && IsWord(d)
    ensures AllWords([a, b, c, d])
  {
  }

  lemma MoreWords(first: seq<string>, rest: seq<string>)
    requires AllWords(first) && AllWords(rest)
    ensures AllWords(first + rest)
  {
  }

  lemma FieldsAreWords(request: Request)
    requires Parsable(request)
    ensures AllWords(Fields(request))
  {
    Literals();
    match request
    case FanManual(cpu, gpu) =>
      U8RoundTrip(cpu);
      U8RoundTrip(gpu);
      FourWords("FAN", "MANUAL", Decimals(cpu), Decimals(gpu));
    case RearLogo(enabled, brightness, color) => LogoWords(enabled, brightness, color);
    case LightingApply(_, _, _, _, _, _) => LightingWords(request);
  }

  lemma LogoWords(enabled: bool, brightness: u8, color: Rgb)
    ensures AllWords(Fields(RearLogo(enabled, brightness, color)))
  {
    Literals();
    ParseHexColor(color);
    U8RoundTrip(brightness);
    OnOffRoundTrip(enabled);
    var first := ["PLATFORM", "REAR_LOGO", HexColor(color), Decimals(brightness)];
    FourWords("PLATFORM", "REAR_LOGO", HexColor(color), Decimals(brightness));
    MoreWords(first, [OnOff(enabled)]);
    assert Fields(RearLogo(enabled, brightness, color)) == first + [OnOff(enabled)];
  }

  lemma LightingWords(request: Request)
    requires request.LightingApply? && Parsable(request)
    ensures AllWords(Fields(request))
  {
    Literals();
    U8RoundTrip(request.brightness);
    U8RoundTrip(request.speed);
    ParseHexColor(request.color);
    ParseZoneList(request.zones);
    ModeRoundTrip(request.mode);
    EightWords("LIGHTING", "APPLY", request.device, ModeName(request.mode), Decimals(request.brightness),
               Decimals(request.speed), HexColor(request.color), ZoneList(request.zones));
  }

  lemma EightWords(a: string, b: string, c: string, d: string, e: string, f: string, g: string, h: string)
    requires IsWord(a) && IsWord(b) && IsWord(c) && IsWord(d) && IsWord(e) && IsWord(f) && IsWord(g) && IsWord(h)
    ensures AllWords([a, b, c, d, e, f, g, h])
  {
  }

  lemma FanManualParses(fields: seq<string>, cpu: u8, gpu: u8)
    requires Parsable(FanManual(cpu, gpu)) && fields == Fields(FanManual(cpu, gpu)) && AllWords(fields)
    ensures Parse(Join(fields, ' ')) == Some(FanManual(cpu, gpu))
  {
    U8RoundTrip(cpu);
    U8RoundTrip(gpu);
    WordsJoin(fields);
    assert fields[..2] == ["FAN", "MANUAL"];
  }

  lemma RearLogoParses(fields: seq<string>, enabled: bool, brightness: u8, color: Rgb)
    requires fields == Fields(RearLogo(enabled, brightness, color)) && AllWords(fields)
    ensures Parse(Join(fields, ' ')) == Some(RearLogo(enabled, brightness, color))
  {
    U8RoundTrip(brightness);
    OnOffRoundTrip(enabled);
    ParseHexColor(color);
    WordsJoin(fields);
    assert fields[..2] == ["PLATFORM", "REAR_LOGO"];
    assert fields[2] == HexColor(color) && fields[3] == Decimals(brightness) && fields[4] == OnOff(enabled);
  }

  lemma LightingParses(fields: seq<string>, request: Request)
    requires request.LightingApply? && Parsable(request) && fields == Fields(request)
    ensures ParseLighting(fields) == Some(request)
  {
    assert ParseU8(fields[4]) == Some(request.brightness) && ParseU8(fields[5]) == Some(request.speed) by {
      U8RoundTrip(request.brightness);
      U8RoundTrip(request.speed);
    }
    assert ParseColor(fields[6]) == Some(request.color) by {
      ParseHexColor(request.color);
    }
    assert ParseZones(fields[7]) == Some(request.zones) by {
      ParseZoneList(request.zones);
    }
    assert ParseMode(fields[3]) == Some(request.mode) by {
      ModeRoundTrip(request.mode);
    }
    FieldsParse(fields, request);
  }

  lemma FieldsParse(fields: seq<string>, request: Request)
    requires request.LightingApply? && request.brightness <= 100 && request.speed <= 9
    requires |fields| == 8 && fields[2] == request.device && ParseMode(fields[3]) == Some(request.mode)
    requires ParseU8(fields[4]) == Some(request.brightness) && ParseU8(fields[5]) == Some(request.speed)
    requires ParseColor(fields[6]) == Some(request.color) && ParseZones(fields[7]) == Some(request.zones)
    ensures ParseLighting(fields) == Some(request)
  {
  }

  /** Every parsable request is parsed from its own line. */
  lemma ParseFields(request: Request)
    requires Parsable(request)
    ensures Parse(Join(Fields(request), ' ')) == Some(request) && AllWords(Fields(request))
  {
    var fields := Fields(request);
    FieldsAreWords(request);
    match request
    case FanManual(cpu, gpu) => FanManualParses(fields, cpu, gpu);
    case RearLogo(enabled, brightness, color) => RearLogoParses(fields, enabled, brightness, color);
    case LightingApply(_, _, _, _, _, _) =>
      WordsJoin(fields);
      LightingParses(fields, request);
      assert fields[..2] == ["LIGHTING", "APPLY"];
  }

  /** Every request that the client sends is the one that the daemon parses. */
  lemma ParseEncode(request: Request)
    requires Encode(request).Some?
    ensures Parse(Encode(request).value) == Some(request) && AllWords(Fields(request))
  {
    InRangeIsParsable(request);
    ParseFields(request);
  }

  // -------------------------------------------------------- over the wire

  lemma {:induction false} JoinKeepsTheLine(fields: seq<string>)
    requires AllWords(fields)
    ensures '\n' !in Join(fields, ' ')
  {
    if fields != [] {
      assert IsWord(fields[0]) && AsciiSpace('\n');
      JoinKeepsTheLine(fields[1..]);
    }
  }

  lemma SmallNumbersAreShort(n: u8)
    ensures Short(Decimals(n))
  {
    DigitsPrint(n, Decimal);
    var m := n / 10;
    assert |Print(n, Decimal)| <= 1 + |Print(m, Decimal)|;
    assert |Print(m, Decimal)| <= 1 + |Print(m / 10, Decimal)|;
    assert |Print(m / 10, Decimal)| == 1;
  }

  predicate Ascii(s: string) {
    forall c | c in s :: (c as int) < 0x80
  }

  predicate Short(s: string) {
    |s| <= 9 && Ascii(s)
  }

  lemma {:induction false} JoinIsShort(fields: seq<string>)
    requires forall field | field in fields :: Short(field)
    ensures |Join(fields, ' ')| <= 10 * |fields| && Ascii(Join(fields, ' '))
  {
    if fields != [] {
      assert Short(fields[0]);
      JoinIsShort(fields[1..]);
    }
  }

  lemma HexColorIsShort(color: Rgb)
    ensures Short(HexColor(color))
  {
    HexByteDigits(color.0);
    HexByteDigits(color.1);
    HexByteDigits(color.2);
  }

  /** The two commands that the client does not measure are short. */
  lemma OtherCommandsAreShort(request: Request)
    requires !request.LightingApply?
    ensures |Utf8.Encode(Join(Fields(request), ' '))| <= 50
  {
    match request {
      case FanManual(cpu, gpu) =>
        SmallNumbersAreShort(cpu);
        SmallNumbersAreShort(gpu);
      case RearLogo(enabled, brightness, color) =>
        SmallNumbersAreShort(brightness);
        HexColorIsShort(color);
        assert Short("PLATFORM") && Short("REAR_LOGO") && Short(OnOff(enabled));
    }
    JoinIsShort(Fields(request));
    Utf8.EncodeAscii(Join(Fields(request), ' '));
  }

  /** A request that the client sends is the next frame that the daemon decodes,
      and it parses to the same request. */
  lemma RequestReachesTheDaemon(request: Request, later: seq<u8>)
    requires Encode(request).Some?
    ensures var line := Encode(request).value;
            && CommandFraming.NextFrame(Utf8.Encode(line) + [NEWLINE] + later) == CommandFraming.Frame(Utf8.Encode(line), later)
            && Utf8.Decode(Utf8.Encode(line)) == Some(line) && Parse(line) == Some(request)
  {
    var line := Encode(request).value;
    ParseEncode(request);
    JoinKeepsTheLine(Fields(request));
    Utf8.AsciiByte(line, NEWLINE);
    if !request.LightingApply? {
      OtherCommandsAreShort(request);
    }
    CommandFraming.NextFrameOfLine(Utf8.Encode(line), later);
    Utf8.DecodeEncode(line);
  }

  // ------------------------------------------------- what the daemon accepts

  lemma {:induction false} ParseColorsLength(parts: seq<string>)
    requires ParseColors(parts).Some?
    ensures |ParseColors(parts).value| == |parts|
  {
    if parts != [] {
      ParseColorsLength(parts[1..]);
    }
  }

  lemma ParsedIsParsable(command: string)
    requires Parse(command).Some?
    ensures Parsable(Parse(command).value)
  {
    var fields := Words(command);
    WordsAreWords(command);
    if Parse(command).value.LightingApply? && fields[7] != "-" {
      ParseColorsLength(Split(fields[7], ','));
    }
  }

  /** The daemon parses exactly the parsable requests. The device and the logo
      brightness are not checked before the devices are asked. */
  lemma ParsableIff(request: Request)
    ensures Parsable(request) <==> exists command :: Parse(command) == Some(request)
  {
    if Parsable(request) {
      ParseFields(request);
    }
    if command :| Parse(command) == Some(request) {
      ParsedIsParsable(command);
    }
  }
}
