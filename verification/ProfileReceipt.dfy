/**
  The receipt of a profile command as src/control.rs prints and parses it. The
  parser accepts consistent receipts only, and it undoes the printer exactly on
  those.
*/
module ProfileReceipt {
  import opened Wrappers
  import opened Text

  const MAX_TOKEN_BYTES: nat := 48
  const U32_MAX: nat := 0xffff_ffff
  const U64_MAX: nat := 0xffff_ffff_ffff_ffff

  type u32 = n: nat | n <= U32_MAX
  type u64 = n: nat | n <= U64_MAX

  datatype GpuOffsetState = Unavailable | Reset | OemTurbo | CustomOrPartial

  datatype PowerReceipt = PowerReceipt(enforcedLimitMw: u32, maximumLimitMw: u32, clockEventReasons: u64)

  datatype Receipt = Receipt(
    firmwareProfile: string,
    gpuOffsets: GpuOffsetState,
    gpuPstateCount: u64,
    gpuCapabilityAvailable: bool,
    power: Option<PowerReceipt>)

  predicate ValidProfile(s: string) {
    1 <= |s| <= MAX_TOKEN_BYTES && forall c | c in s :: 'a' <= c <= 'z' || '0' <= c <= '9' || c == '-' || c == '_'
  }

  /** Offsets are reported exactly with the GPU capability, and neither P-states
      nor power limits without it. */
  predicate Consistent(r: Receipt) {
    && ValidProfile(r.firmwareProfile)
    && (r.gpuCapabilityAvailable <==> r.gpuOffsets != Unavailable)
    && (!r.gpuCapabilityAvailable ==> r.gpuPstateCount == 0 && r.power.None?)
  }

  // ------------------------------------------------------------- printing

  function OffsetsName(state: GpuOffsetState): string {
    match state
    case Unavailable => "unavailable"
    case Reset => "reset"
    case OemTurbo => "oem-turbo"
    case CustomOrPartial => "custom-or-partial"
  }

  function Capability(available: bool): string {
    if available then "available" else "unavailable"
  }

  const NAMES: seq<string> :=
    ["profile", "gpu", "pstates", "gpu_capability", "power_capability", "enforced_mw", "max_mw", "reasons"]

  function PowerValues(power: Option<PowerReceipt>): seq<string> {
    match power
    case None => ["unavailable", "unavailable", "unavailable"]
    case Some(p) =>
      [Print(p.enforcedLimitMw, Decimal), Print(p.maximumLimitMw, Decimal),
       "0x" + Print(p.clockEventReasons, Hexadecimal)]
  }

  function Values(r: Receipt): (values: seq<string>)
    ensures |values| == 8
  {
    [r.firmwareProfile, OffsetsName(r.gpuOffsets), Print(r.gpuPstateCount, Decimal),
     Capability(r.gpuCapabilityAvailable), Capability(r.power.Some?)] + PowerValues(r.power)
  }

  function Fields(names: seq<string>, values: seq<string>): seq<string>
    requires |names| == |values|
  {
    seq(|names|, i requires 0 <= i < |names| => names[i] + "=" + values[i])
  }

  function Encode(r: Receipt): string {
    Join(Fields(NAMES, Values(r)), ' ')
  }

  // -------------------------------------------------------------- parsing

  /** The value of one expected field. */
  function ParseField(token: string, name: string): Option<string> {
    var parts := SplitOnce(token, '=');
    if parts.None? || parts.value.0 != name || parts.value.1 == "" then None else Some(parts.value.1)
  }

  function ParseFields(tokens: seq<string>, names: seq<string>): (values: Option<seq<string>>)
    requires |tokens| == |names|
    ensures values.Some? ==> |values.value| == |names|
  {
    if tokens == [] then Some([])
    else
      var first, rest := ParseField(tokens[0], names[0]), ParseFields(tokens[1..], names[1..]);
      if first.None? || rest.None? then None else Some([first.value] + rest.value)
  }

  /** Exactly these fields, in this order, none of them empty. */
  function ParseExactFields(value: string, names: seq<string>): (values: Option<seq<string>>)
    ensures values.Some? ==> |values.value| == |names|
  {
    var tokens := Words(value);
    if |tokens| != |names| then None else ParseFields(tokens, names)
  }

  function ParseOffsets(s: string): Option<GpuOffsetState> {
    if s == "unavailable" then Some(Unavailable)
    else if s == "reset" then Some(Reset)
    else if s == "oem-turbo" then Some(OemTurbo)
    else if s == "custom-or-partial" then Some(CustomOrPartial)
    else None
  }

  function ParseCapability(s: string): Option<bool> {
    if s == "available" then Some(true) else if s == "unavailable" then Some(false) else None
  }

  function ParseReasons(s: string): Option<u64> {
    if "0x" <= s then ParseUnsigned(s[2..], Hexadecimal, U64_MAX) else None
  }

  /** The power limits; the outer None is an error. */
  function ParsePower(available: bool, values: seq<string>): Option<Option<PowerReceipt>>
    requires |values| == 3
  {
    if available then
      var enforced, maximum := ParseUnsigned(values[0], Decimal, U32_MAX), ParseUnsigned(values[1], Decimal, U32_MAX);
      var reasons := ParseReasons(values[2]);
      if enforced.None? || maximum.None? || reasons.None? then None
      else Some(Some(PowerReceipt(enforced.value, maximum.value, reasons.value)))
    else if values == ["unavailable", "unavailable", "unavailable"] then Some(None)
    else None
  }

  function ParseValues(values: seq<string>): Option<Receipt>
    requires |values| == 8
  {
    var offsets, pstates := ParseOffsets(values[1]), ParseUnsigned(values[2], Decimal, U64_MAX);
    var gpu, powered := ParseCapability(values[3]), ParseCapability(values[4]);
    if !ValidProfile(values[0]) || offsets.None? || pstates.None? || gpu.None? || powered.None? then None
    else
      var power := ParsePower(powered.value, values[5..]);
      if power.None? then None
      else if !gpu.value && (offsets.value != Unavailable || pstates.value != 0 || power.value.Some?) then None
      else if gpu.value && offsets.value == Unavailable then None
      else Some(Receipt(values[0], offsets.value, pstates.value, gpu.value, power.value))
  }

  function Parse(s: string): Option<Receipt> {
    var values := ParseExactFields(s, NAMES);
    if values.None? then None else ParseValues(values.value)
  }

  // ----------------------------------------------------------- round trip

  lemma ParsedIsConsistent(s: string)
    requires Parse(s).Some?
    ensures Consistent(Parse(s).value)
  {
  }

  lemma {:induction false} FieldsParse(names: seq<string>, values: seq<string>)
    requires |names| == |values| && AllWords(names) && AllWords(values)
    requires forall i | 0 <= i < |names| :: '=' !in names[i]
    ensures ParseFields(Fields(names, values), names) == Some(values) && AllWords(Fields(names, values))
  {
    var fields := Fields(names, values);
    if names != [] {
      FieldParses(names[0], values[0]);
      FieldsParse(names[1..], values[1..]);
      assert fields[1..] == Fields(names[1..], values[1..]);
      assert values == [values[0]] + values[1..];
      assert fields == [fields[0]] + fields[1..];
    }
  }

  lemma FieldParses(name: string, value: string)
    requires IsWord(name) && IsWord(value) && '=' !in name
    ensures ParseField(name + "=" + value, name) == Some(value) && IsWord(name + "=" + value)
  {
    SplitOnceJoined(name, '=', value);
    assert name + "=" + value == name + ['='] + value;
  }

  lemma NamesAreWords()
    ensures AllWords(NAMES) && forall i | 0 <= i < |NAMES| :: '=' !in NAMES[i]
  {
  }

  lemma PowerParses(power: Option<PowerReceipt>)
    ensures ParsePower(power.Some?, PowerValues(power)) == Some(power) && AllWords(PowerValues(power))
  {
    match power
    case None =>
      assert IsWord("unavailable");
    case Some(p) =>
      ParsePrint(p.enforcedLimitMw, Decimal, U32_MAX);
      ParsePrint(p.maximumLimitMw, Decimal, U32_MAX);
      ParsePrint(p.clockEventReasons, Hexadecimal, U64_MAX);
      var reasons := "0x" + Print(p.clockEventReasons, Hexadecimal);
      assert reasons[2..] == Print(p.clockEventReasons, Hexadecimal) && IsWord(reasons);
  }

  lemma NamedValues(state: GpuOffsetState, available: bool)
    ensures ParseOffsets(OffsetsName(state)) == Some(state) && IsWord(OffsetsName(state))
    ensures ParseCapability(Capability(available)) == Some(available) && IsWord(Capability(available))
  {
  }

  lemma ValuesParse(r: Receipt)
    requires Consistent(r)
    ensures ParseValues(Values(r)) == Some(r) && AllWords(Values(r))
  {
    PowerParses(r.power);
    NamedValues(r.gpuOffsets, r.gpuCapabilityAvailable);
    NamedValues(r.gpuOffsets, r.power.Some?);
    ParsePrint(r.gpuPstateCount, Decimal, U64_MAX);
    assert IsWord(r.firmwareProfile);
    assert Values(r)[5..] == PowerValues(r.power);
  }

  /** The parser undoes the printer exactly on the consistent receipts. */
  lemma RoundTripIff(r: Receipt)
    ensures Parse(Encode(r)) == Some(r) <==> Consistent(r)
  {
    if Consistent(r) {
      ValuesParse(r);
      NamesAreWords();
      FieldsParse(NAMES, Values(r));
      WordsJoin(Fields(NAMES, Values(r)));
    } else if Parse(Encode(r)).Some? {
      ParsedIsConsistent(Encode(r));
    }
  }
}
