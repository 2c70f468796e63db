/**
  Three readings of the same firmware words: the driver's own readers and
  `show` files (kernel/asense_rgb.c), the driver's raw diagnostic files, and the
  decoders of both kinds of file in src/passive_diagnostics.rs.
*/
module RawDecoders {
  import opened Wrappers
  import opened Text

  const U64_MAX: nat := 0xffff_ffff_ffff_ffff

  type u64 = n: nat | n <= U64_MAX

  type Record = r: seq<u8> | |r| == 8 witness [0, 0, 0, 0, 0, 0, 0, 0]

  datatype Errno = EREMOTEIO | EPROTO | EOPNOTSUPP

  // ---------------------------------------------------- the driver's readers

  datatype UsbState = UsbState(enabled: bool, threshold: u8)

  /** One byte of a word. */
  function Byte(w: u64, i: nat): u8
    requires i < 3
  {
    match i
    case 0 => w % 0x100
    case 1 => w / 0x100 % 0x100
    case 2 => w / 0x1_0000 % 0x100
  }

  function ReadUsb(w: u64): Result<UsbState, Errno> {
    if Byte(w, 0) != 0 then Failure(EREMOTEIO)
    else if Byte(w, 1) != 0x0f && Byte(w, 1) != 0x1f then Failure(EPROTO)
    else if Byte(w, 2) !in {10, 20, 30} then Failure(EPROTO)
    else Success(UsbState(Byte(w, 1) == 0x0f, Byte(w, 2)))
  }

  function ReadTimeout(w: u64): Result<bool, Errno> {
    if w == 0 || w == 0x8_0000 then Success(false)
    else if w == 0x1e00_0008_0000 then Success(true)
    else Failure(EPROTO)
  }

  function ReadBootSound(w: u64): Result<bool, Errno> {
    if w == 0 then Success(false) else if w == 0x100 then Success(true) else Failure(EPROTO)
  }

  /** Bit 24 marks the field as valid, bit 48 is its state. */
  function ReadLcd(w: u64): Result<bool, Errno> {
    if w / 0x100_0000 % 2 == 0 then Failure(EPROTO) else Success(w / 0x1_0000_0000_0000 % 2 == 1)
  }

  /** The words as the firmware is documented to answer them. */
  lemma DocumentedWords(enabled: bool, threshold: u8)
    requires threshold in {10, 20, 30}
    ensures ReadUsb(threshold as nat * 0x1_0000 + if enabled then 0x0f00 else 0x1f00) == Success(UsbState(enabled, threshold))
    ensures ReadTimeout(0) == Success(false) && ReadLcd(0x0001_ff00_0101_ff00) == Success(true)
  {
  }

  datatype Logo = Logo(color: Rgb, brightness: u8, enabled: bool)

  function ReadLogo(r: Record): Result<Logo, Errno> {
    if r[0] != 0 then Failure(EREMOTEIO)
    else if r[4] > 100 || r[5] > 1 then Failure(EPROTO)
    else Success(Logo((r[1], r[2], r[3]), r[4], r[5] == 1))
  }

  datatype BatteryState = BatteryState(limitSupported: bool, calibrationSupported: bool, limit: bool, calibration: bool)

  function ReadBattery(r: Record): BatteryState {
    BatteryState(r[0] % 2 == 1, r[0] / 2 % 2 == 1, r[3] != 0, r[4] != 0)
  }

  // ------------------------------------------------------- the driver's files

  /** `n` hexadecimal digits, zeros in front. */
  function Padded(w: nat, n: nat): string {
    if n == 0 then "" else Padded(w / 16, n - 1) + [DigitChar(w % 16)]
  }

  function RawWord(w: u64): string {
    Padded(w, 16) + "\n"
  }

  function RawRecord(r: Record): string {
    HexBytes(r) + "\n"
  }

  function ShowNumber(n: nat): string {
    Print(n, Decimal) + "\n"
  }

  function ShowBool(b: bool): string {
    ShowNumber(if b then 1 else 0)
  }

  function ShowUsb(s: UsbState): string {
    ShowNumber(if s.enabled then s.threshold else 0)
  }

  function ShowLogo(l: Logo): string {
    Join([HexColor(l.color), Print(l.brightness, Decimal), Print(if l.enabled then 1 else 0, Decimal)], ',') + "\n"
  }

  function ShowLimit(s: BatteryState): Result<string, Errno> {
    if s.limitSupported then Success(ShowBool(s.limit)) else Failure(EOPNOTSUPP)
  }

  function ShowCalibration(s: BatteryState): Result<string, Errno> {
    if s.calibrationSupported then Success(ShowBool(s.calibration)) else Failure(EOPNOTSUPP)
  }

  // --------------------------------------------------- the userspace decoders

  datatype PlatformValue =
    | Bool(on: bool)
    | UsbThreshold(percent: u8)
    | RearLogo(enabled: bool, brightness: u8, color: string)

  predicate IsHex(s: string, digits: nat) {
    |s| == digits && forall c | c in s :: IsHexDigit(c)
  }

  function ParseScalar(s: string): Option<u64> {
    if !IsHex(s, 16) then None else ParseUnsigned(s, Hexadecimal, U64_MAX)
  }

  function DecodeUsbRaw(s: string): Option<PlatformValue> {
    var scalar := ParseScalar(s);
    if scalar.None? then None
    else
      var status := scalar.value % 0x100;
      var mode := scalar.value % 0x1_0000 / 0x100;
      var threshold := scalar.value % 0x100_0000 / 0x1_0000;
      if status != 0 || (mode != 0x0f && mode != 0x1f) || threshold !in {10, 20, 30} then None
      else Some(UsbThreshold(if mode == 0x0f then threshold else 0))
  }

  function DecodeTimeoutRaw(s: string): Option<PlatformValue> {
    var scalar := ParseScalar(s);
    if scalar.None? then None
    else if scalar.value == 0 || scalar.value == 0x8_0000 then Some(Bool(false))
    else if scalar.value == 0x1e00_0008_0000 then Some(Bool(true))
    else None
  }

  function DecodeBootSoundRaw(s: string): Option<PlatformValue> {
    var scalar := ParseScalar(s);
    if scalar.None? then None
    else if scalar.value == 0 then Some(Bool(false))
    else if scalar.value == 0x100 then Some(Bool(true))
    else None
  }

  function DecodeLcdRaw(s: string): Option<PlatformValue> {
    var scalar := ParseScalar(s);
    if scalar.None? || scalar.value / 0x100_0000 % 2 == 0 then None
    else Some(Bool(scalar.value / 0x1_0000_0000_0000 % 2 != 0))
  }

  /** Two digits for every byte. */
  function ParseHexBytes(s: string, bytes: nat): (r: Option<seq<u8>>)
    ensures r.Some? ==> |r.value| == bytes
  {
    if !IsHex(s, 2 * bytes) then None
    else
      assert forall i | 0 <= i < |s| :: s[i] in s;
      Some(seq(bytes, i requires 0 <= i < bytes => Text.Pair(s[2 * i], s[2 * i + 1])))
  }

  function DecodeLogoRaw(s: string): Option<PlatformValue> {
    var bytes := ParseHexBytes(s, 8);
    if bytes.None? then None
    else
      var b := bytes.value;
      if b[0] != 0 || b[4] > 100 || b[5] > 1 then None
      else Some(RearLogo(b[5] == 1, b[4], HexColor((b[1], b[2], b[3]))))
  }

  datatype Battery = NotApplicable | Value(value: bool) | Invalid

  /** `support` is the bit of the first byte that announces the field. */
  function DecodeBatteryRaw(s: string, support: nat, index: nat): Battery
    requires (support == 1 || support == 2) && index < 8
  {
    var bytes := ParseHexBytes(s, 8);
    if bytes.None? then Invalid
    else if bytes.value[0] / support % 2 != 0 then Value(bytes.value[index] != 0)
    else NotApplicable
  }

  function DecodeBoolText(s: string): Option<PlatformValue> {
    if s == "0" then Some(Bool(false)) else if s == "1" then Some(Bool(true)) else None
  }

  function DecodeUsbText(s: string): Option<PlatformValue> {
    var n := ParseUnsigned(s, Decimal, 255);
    if n.None? || n.value !in {0, 10, 20, 30} then None else Some(UsbThreshold(n.value))
  }

  function ToLower(s: string): string {
    seq(|s|, i requires 0 <= i < |s| => if 'A' <= s[i] <= 'Z' then s[i] - 'A' + 'a' else s[i])
  }

  function DecodeLogoText(s: string): Option<PlatformValue> {
    var fields := Split(s, ',');
    if |fields| != 3 || !IsHex(fields[0], 6) then None
    else
      var brightness, enabled := ParseUnsigned(fields[1], Decimal, 255), ParseUnsigned(fields[2], Decimal, 255);
      if brightness.None? || enabled.None? || brightness.value > 100 || enabled.value > 1 then None
      else Some(RearLogo(enabled.value == 1, brightness.value, ToLower(fields[0])))
  }

  // --------------------------------------------------------------- agreement

  function Pow16(n: nat): nat {
    if n == 0 then 1 else 16 * Pow16(n - 1)
  }

  lemma {:induction false} PaddedDigits(w: nat, n: nat)
    requires w < Pow16(n)
    ensures IsHex(Padded(w, n), n) && Digits(Padded(w, n), Hexadecimal) == Some(w)
    ensures forall c | c in Padded(w, n) :: Plain(c)
  {
    if n > 0 {
      PaddedDigits(w / 16, n - 1);
      DigitCharIs(w % 16);
      assert Padded(w, n)[..n - 1] == Padded(w / 16, n - 1);
    }
  }

  lemma {:induction false} HexDigitsFit(s: string)
    requires forall c | c in s :: IsHexDigit(c)
    ensures Digits(s, Hexadecimal).Some? && Digits(s, Hexadecimal).value < Pow16(|s|)
  {
    if s != "" {
      var n := |s| - 1;
      assert s[n] in s && forall c | c in s[..n] :: c in s;
      HexDigitsFit(s[..n]);
      LastDigit(s);
    }
  }

  lemma LastDigit(s: string)
    requires s != "" && IsHexDigit(s[|s| - 1]) && Digits(s[..|s| - 1], Hexadecimal).Some?
    ensures DigitOf(s[|s| - 1]).value < 16
    ensures Digits(s, Hexadecimal)
         == Some(16 * Digits(s[..|s| - 1], Hexadecimal).value + DigitOf(s[|s| - 1]).value)
  {
    var c, front := s[|s| - 1], Digits(s[..|s| - 1], Hexadecimal).value;
    assert DigitOf(c).value < 16;
    assert Digits(s, Hexadecimal) == Some(Hexadecimal.Shift(front, DigitOf(c).value));
  }

  /** Sixteen digits are always a word; nothing else is one. */
  lemma ScalarIff(s: string)
    ensures ParseScalar(s).Some? <==> IsHex(s, 16)
    ensures IsHex(s, 16) ==> ParseScalar(s) == Digits(s, Hexadecimal)
  {
    if IsHex(s, 16) {
      HexDigitsFit(s);
      assert Pow16(16) == U64_MAX + 1 by {
        assert Pow16(4) == 0x1_0000 && Pow16(8) == 0x1_0000_0000 && Pow16(12) == 0x1_0000_0000_0000;
      }
      assert s[0] in s;
    }
  }

  lemma {:induction false} TrimNewline(s: string)
    requires NoSpace(s)
    ensures Trim(s + "\n") == s
  {
    assert "\n"[..0] == "";
    TrimEndConcat(s, "\n");
    if s != "" {
      assert s[0] in s && s[|s| - 1] in s;
      assert TrimStart(s + "\n") == s + "\n";
    } else {
      assert s + "\n" == "\n" && "\n"[1..] == "";
    }
  }

  lemma PlainIsNoSpace(s: string)
    requires forall c | c in s :: Plain(c)
    ensures NoSpace(s)
  {
  }

  lemma RawWordReads(w: u64)
    ensures ParseScalar(Trim(RawWord(w))) == Some(w)
  {
    assert Pow16(16) == U64_MAX + 1 by {
      assert Pow16(4) == 0x1_0000 && Pow16(8) == 0x1_0000_0000 && Pow16(12) == 0x1_0000_0000_0000;
    }
    PaddedDigits(w, 16);
    PlainIsNoSpace(Padded(w, 16));
    TrimNewline(Padded(w, 16));
    ScalarIff(Padded(w, 16));
  }

  lemma HexBytesPair(r: seq<u8>, i: nat)
    requires i < |r|
    ensures var s := HexBytes(r);
            |s| == 2 * |r| && IsHexDigit(s[2 * i]) && IsHexDigit(s[2 * i + 1]) && Text.Pair(s[2 * i], s[2 * i + 1]) == r[i]
  {
    HexBytesAt(r, i);
    HexByteDigits(r[i]);
  }

  lemma HexBytesRead(r: seq<u8>)
    ensures ParseHexBytes(HexBytes(r), |r|) == Some(r)
  {
    var s := HexBytes(r);
    HexBytesPlain(r);
    forall i | 0 <= i < |r|
      ensures IsHexDigit(s[2 * i]) && IsHexDigit(s[2 * i + 1]) && Text.Pair(s[2 * i], s[2 * i + 1]) == r[i] {
      HexBytesPair(r, i);
    }
    PairsAre(s, r);
  }

  lemma PairsAre(s: string, r: seq<u8>)
    requires IsHex(s, 2 * |r|)
    requires forall i | 0 <= i < |r| ::
               IsHexDigit(s[2 * i]) && IsHexDigit(s[2 * i + 1]) && Text.Pair(s[2 * i], s[2 * i + 1]) == r[i]
    ensures ParseHexBytes(s, |r|) == Some(r)
  {
    assert ParseHexBytes(s, |r|).value == r;
  }

  lemma RawRecordReads(r: Record)
    ensures ParseHexBytes(Trim(RawRecord(r)), 8) == Some(r)
  {
    HexBytesRead(r);
    HexBytesPlain(r);
    PlainIsNoSpace(HexBytes(r));
    TrimNewline(HexBytes(r));
  }

  lemma ShownNumberReads(n: u8)
    ensures Trim(ShowNumber(n)) == Print(n, Decimal) && ParseUnsigned(Print(n, Decimal), Decimal, 255) == Some(n)
  {
    DigitsPrint(n, Decimal);
    ParsePrint(n, Decimal, 255);
    PlainIsNoSpace(Print(n, Decimal));
    TrimNewline(Print(n, Decimal));
  }

  lemma ShownBoolReads(b: bool)
    ensures DecodeBoolText(Trim(ShowBool(b))) == Some(Bool(b))
  {
    ShownNumberReads(if b then 1 else 0);
  }

  /** The word that sixteen digits stand for. */
  function WordOf(s: string): (w: u64)
    requires IsHex(s, 16)
    ensures ParseScalar(s) == Some(w)
  {
    ScalarIff(s);
    ParseScalar(s).value
  }

  lemma MaskedBytes(w: u64)
    ensures w % 0x1_0000 / 0x100 == w / 0x100 % 0x100
    ensures w % 0x100_0000 / 0x1_0000 == w / 0x1_0000 % 0x100
  {
    var a, c := w / 0x1_0000, w / 0x100;
    assert c / 0x100 == a;
    LowBytes(a / 0x100, a % 0x100, c % 0x100, w % 0x100);
  }

  lemma LowBytes(top: nat, third: nat, second: nat, first: nat)
    requires third < 0x100 && second < 0x100 && first < 0x100
    ensures var w := 0x100_0000 * top + 0x1_0000 * third + 0x100 * second + first;
            && w % 0x1_0000 / 0x100 == second == w / 0x100 % 0x100
            && w % 0x100_0000 / 0x1_0000 == third == w / 0x1_0000 % 0x100
  {
    Split100(0x1_0000 * top + 0x100 * third + second, first);
    Split100(0x100 * top + third, second);
    Split100(top, third);
    Split10000(0x100 * top + third, 0x100 * second + first);
    Split100(second, first);
    Split1000000(top, 0x1_0000 * third + 0x100 * second + first);
    Split10000(third, 0x100 * second + first);
  }

  lemma Split100(high: nat, low: nat)
    requires low < 0x100
    ensures (0x100 * high + low) / 0x100 == high && (0x100 * high + low) % 0x100 == low
  {
  }

  lemma Split10000(high: nat, low: nat)
    requires low < 0x1_0000
    ensures (0x1_0000 * high + low) / 0x1_0000 == high && (0x1_0000 * high + low) % 0x1_0000 == low
  {
  }

  lemma Split1000000(high: nat, low: nat)
    requires low < 0x100_0000
    ensures (0x100_0000 * high + low) / 0x100_0000 == high && (0x100_0000 * high + low) % 0x100_0000 == low
  {
  }

  function UsbValue(r: Result<UsbState, Errno>): Option<PlatformValue> {
    if r.Success? then Some(UsbThreshold(if r.value.enabled then r.value.threshold else 0)) else None
  }

  function BoolValue(r: Result<bool, Errno>): Option<PlatformValue> {
    if r.Success? then Some(Bool(r.value)) else None
  }

  /** USB charging: any text decodes exactly when it is a word that the driver
      accepts, with the value that the driver shows. */
  lemma UsbDecodes(s: string)
    ensures DecodeUsbRaw(s) == if IsHex(s, 16) then UsbValue(ReadUsb(WordOf(s))) else None
  {
    ScalarIff(s);
    if IsHex(s, 16) {
      MaskedBytes(WordOf(s));
    }
  }

  lemma TimeoutDecodes(s: string)
    ensures DecodeTimeoutRaw(s) == if IsHex(s, 16) then BoolValue(ReadTimeout(WordOf(s))) else None
  {
    ScalarIff(s);
  }

  lemma BootSoundDecodes(s: string)
    ensures DecodeBootSoundRaw(s) == if IsHex(s, 16) then BoolValue(ReadBootSound(WordOf(s))) else None
  {
    ScalarIff(s);
  }

  lemma LcdDecodes(s: string)
    ensures DecodeLcdRaw(s) == if IsHex(s, 16) then BoolValue(ReadLcd(WordOf(s))) else None
  {
    ScalarIff(s);
  }

  /** For every word the raw file decodes exactly when the driver's own reader
      accepts it, and then the driver's text file decodes to the same value. */
  lemma UsbAgrees(w: u64)
    ensures DecodeUsbRaw(Trim(RawWord(w))) == UsbValue(ReadUsb(w))
    ensures ReadUsb(w).Success? ==> DecodeUsbText(Trim(ShowUsb(ReadUsb(w).value))) == UsbValue(ReadUsb(w))
  {
    RawWordReads(w);
    ScalarIff(Trim(RawWord(w)));
    UsbDecodes(Trim(RawWord(w)));
    if ReadUsb(w).Success? {
      var state := ReadUsb(w).value;
      ShownNumberReads(if state.enabled then state.threshold else 0);
    }
  }

  lemma TimeoutAgrees(w: u64)
    ensures DecodeTimeoutRaw(Trim(RawWord(w))) == BoolValue(ReadTimeout(w))
    ensures ReadTimeout(w).Success? ==> DecodeBoolText(Trim(ShowBool(ReadTimeout(w).value))) == BoolValue(ReadTimeout(w))
  {
    RawWordReads(w);
    ShownBoolReads(true);
    ShownBoolReads(false);
  }

  lemma BootSoundAgrees(w: u64)
    ensures DecodeBootSoundRaw(Trim(RawWord(w))) == BoolValue(ReadBootSound(w))
    ensures ReadBootSound(w).Success? ==> DecodeBoolText(Trim(ShowBool(ReadBootSound(w).value))) == BoolValue(ReadBootSound(w))
  {
    RawWordReads(w);
    ShownBoolReads(true);
    ShownBoolReads(false);
  }

  lemma LcdAgrees(w: u64)
    ensures DecodeLcdRaw(Trim(RawWord(w))) == BoolValue(ReadLcd(w))
    ensures ReadLcd(w).Success? ==> DecodeBoolText(Trim(ShowBool(ReadLcd(w).value))) == BoolValue(ReadLcd(w))
  {
    RawWordReads(w);
    if ReadLcd(w).Success? {
      ShownBoolReads(ReadLcd(w).value);
    }
  }

  function LogoValue(r: Result<Logo, Errno>): Option<PlatformValue> {
    if r.Success? then Some(RearLogo(r.value.enabled, r.value.brightness, HexColor(r.value.color))) else None
  }

  lemma LogoTextReads(l: Logo)
    requires l.brightness <= 100
    ensures DecodeLogoText(Trim(ShowLogo(l))) == Some(RearLogo(l.enabled, l.brightness, HexColor(l.color)))
  {
    var on := if l.enabled then 1 else 0;
    var parts := [HexColor(l.color), Print(l.brightness, Decimal), Print(on, Decimal)];
    ColorIsLower(l.color);
    ParsePrint(l.brightness, Decimal, 255);
    ParsePrint(on, Decimal, 255);
    DigitsPrint(l.brightness, Decimal);
    DigitsPrint(on, Decimal);
    SplitJoin(parts, ',');
    PlainIsNoSpace(parts[0]);
    PlainIsNoSpace(parts[1]);
    PlainIsNoSpace(parts[2]);
    JoinHasNoSpace(parts);
    TrimNewline(Join(parts, ','));
  }

  predicate NoSpace(s: string) {
    forall c | c in s :: !Space(c)
  }

  lemma {:induction false} JoinHasNoSpace(parts: seq<string>)
    requires forall i | 0 <= i < |parts| :: NoSpace(parts[i])
    ensures NoSpace(Join(parts, ','))
  {
    if parts != [] {
      assert NoSpace(parts[0]);
      JoinHasNoSpace(parts[1..]);
    }
  }

  lemma ColorIsLower(color: Rgb)
    ensures ToLower(HexColor(color)) == HexColor(color) && IsHex(HexColor(color), 6)
    ensures forall c | c in HexColor(color) :: Plain(c)
  {
    HexByteDigits(color.0);
    HexByteDigits(color.1);
    HexByteDigits(color.2);
  }

  lemma LogoAgrees(r: Record)
    ensures DecodeLogoRaw(Trim(RawRecord(r))) == LogoValue(ReadLogo(r))
    ensures ReadLogo(r).Success? ==> DecodeLogoText(Trim(ShowLogo(ReadLogo(r).value))) == LogoValue(ReadLogo(r))
  {
    RawRecordReads(r);
    if ReadLogo(r).Success? {
      LogoTextReads(ReadLogo(r).value);
    }
  }

  function BatteryValue(supported: bool, on: bool): Battery {
    if supported then Value(on) else NotApplicable
  }

  /** Both battery fields of one record: absent exactly where the driver's file
      reports that the field is not supported. */
  lemma BatteryAgrees(r: Record)
    ensures var state := ReadBattery(r);
            && DecodeBatteryRaw(Trim(RawRecord(r)), 1, 3) == BatteryValue(state.limitSupported, state.limit)
            && DecodeBatteryRaw(Trim(RawRecord(r)), 2, 4) == BatteryValue(state.calibrationSupported, state.calibration)
            && (ShowLimit(state).Success? <==> state.limitSupported)
            && (ShowCalibration(state).Success? <==> state.calibrationSupported)
            && (state.limitSupported ==> DecodeBoolText(Trim(ShowLimit(state).value)) == Some(Bool(state.limit)))
            && (state.calibrationSupported ==>
                  DecodeBoolText(Trim(ShowCalibration(state).value)) == Some(Bool(state.calibration)))
  {
    RawRecordReads(r);
    var state := ReadBattery(r);
    ShownBoolReads(state.limit);
    ShownBoolReads(state.calibration);
  }
}
