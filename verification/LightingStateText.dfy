/**
  The keyboard lighting state on its way from the daemon (encode_state in
  src/lighting.rs) to the window (parse_lighting_state in src/app.rs).
*/
module LightingStateText {
  import opened Wrappers
  import opened Text

  datatype Kind = Power | Mode | Speed | Brightness | Direction | Color | Zones

  /** What the daemon read from the firmware. */
  datatype LightingState = LightingState(
    powered: bool, mode: u8, speed: u8, brightness: u8, direction: u8, color: Rgb, zones: (Rgb, Rgb, Rgb, Rgb))

  /** What the window shows; colours are packed into one number. */
  datatype Shown = Shown(
    powered: bool, mode: nat, speed: nat, brightness: nat, direction: nat, color: nat, zones: (nat, nat, nat, nat))

  const DEFAULT: Shown := Shown(false, 0, 0, 100, 0, 0x7c_5cff, (0x36_d7ff, 0x6e_7cff, 0x9b_6dff, 0xd1_5cff))

  predicate InRange(s: LightingState) {
    s.mode <= 7 && s.speed <= 9 && s.brightness <= 100 && s.direction <= 2
  }

  function Packed(color: Rgb): nat {
    color.0 * 0x1_0000 + color.1 * 0x100 + color.2
  }

  function Show(s: LightingState): Shown {
    Shown(s.powered, s.mode, s.speed, s.brightness, s.direction, Packed(s.color),
          (Packed(s.zones.0), Packed(s.zones.1), Packed(s.zones.2), Packed(s.zones.3)))
  }

  // ------------------------------------------------------------- printing

  function Decimals(n: nat): string {
    Print(n, Decimal)
  }

  function ZoneColors(s: LightingState): seq<string> {
    [HexColor(s.zones.0), HexColor(s.zones.1), HexColor(s.zones.2), HexColor(s.zones.3)]
  }

  function Name(kind: Kind): string {
    match kind
    case Power => "power"
    case Mode => "mode"
    case Speed => "speed"
    case Brightness => "brightness"
    case Direction => "direction"
    case Color => "color"
    case Zones => "zones"
  }

  function Value(s: LightingState, kind: Kind): string {
    match kind
    case Power => if s.powered then "on" else "off"
    case Mode => Decimals(s.mode)
    case Speed => Decimals(s.speed)
    case Brightness => Decimals(s.brightness)
    case Direction => Decimals(s.direction)
    case Color => HexColor(s.color)
    case Zones => Join(ZoneColors(s), ',')
  }

  function Word(s: LightingState, kind: Kind): string {
    Name(kind) + "=" + Value(s, kind)
  }

  function Fields(s: LightingState): seq<string> {
    [Word(s, Power), Word(s, Mode), Word(s, Speed), Word(s, Brightness), Word(s, Direction), Word(s, Color), Word(s, Zones)]
  }

  function Encode(s: LightingState): string {
    Join(Fields(s), ' ')
  }

  // -------------------------------------------------------------- parsing

  datatype Field =
    | Switch(on: bool)
    | Number(kind: Kind, value: nat)
    | OneColor(color: nat)
    | FourColors(zones: (nat, nat, nat, nat))
  {
    function Which(): Kind {
      match this
      case Switch(_) => Power
      case Number(kind, _) => kind
      case OneColor(_) => Color
      case FourColors(_) => Zones
    }
  }

  function ParseNumber(s: string, kind: Kind, maximum: nat): Option<Field> {
    var n := ParseUnsigned(s, Decimal, 255);
    if n.None? || n.value > maximum then None else Some(Number(kind, n.value))
  }

  function ParsePacked(s: string): Option<nat> {
    if |s| != 6 || exists c | c in s :: !IsHexDigit(c) then None else Digits(s, Hexadecimal)
  }

  function ParseZones(s: string): Option<Field> {
    var parts := Split(s, ',');
    if |parts| != 4 then None
    else
      var a, b, c, d := ParsePacked(parts[0]), ParsePacked(parts[1]), ParsePacked(parts[2]), ParsePacked(parts[3]);
      if a.None? || b.None? || c.None? || d.None? then None
      else Some(FourColors((a.value, b.value, c.value, d.value)))
  }

  function ParseValue(name: string, value: string): Option<Field> {
    if name == "power" then
      if value == "on" then Some(Switch(true)) else if value == "off" then Some(Switch(false)) else None
    else if name == "mode" then ParseNumber(value, Mode, 7)
    else if name == "speed" then ParseNumber(value, Speed, 9)
    else if name == "brightness" then ParseNumber(value, Brightness, 100)
    else if name == "direction" then ParseNumber(value, Direction, 2)
    else if name == "color" then
      var color := ParsePacked(value);
      if color.None? then None else Some(OneColor(color.value))
    else if name == "zones" then ParseZones(value)
    else None
  }

  function ParseField(word: string): Option<Field> {
    var parts := SplitOnce(word, '=');
    if parts.None? then None else ParseValue(parts.value.0, parts.value.1)
  }

  /** The last field of a kind among the words. */
  function Last(words: seq<string>, kind: Kind): (field: Option<Field>)
    ensures field.Some? ==> field.value.Which() == kind
  {
    if words == [] then None
    else
      var field := ParseField(words[|words| - 1]);
      if field.Some? && field.value.Which() == kind then field
      else Last(words[..|words| - 1], kind)
  }

  predicate AllFields(words: seq<string>) {
    forall i | 0 <= i < |words| :: ParseField(words[i]).Some?
  }

  const KINDS: set<Kind> := {Power, Mode, Speed, Brightness, Direction, Color, Zones}

  function On(words: seq<string>, otherwise: bool): bool {
    match Last(words, Power)
    case Some(Switch(on)) => on
    case _ => otherwise
  }

  function NumberOf(words: seq<string>, kind: Kind, otherwise: nat): nat {
    match Last(words, kind)
    case Some(Number(_, value)) => value
    case _ => otherwise
  }

  function ColorOf(words: seq<string>, otherwise: nat): nat {
    match Last(words, Color)
    case Some(OneColor(color)) => color
    case _ => otherwise
  }

  function ZonesOf(words: seq<string>, otherwise: (nat, nat, nat, nat)): (nat, nat, nat, nat) {
    match Last(words, Zones)
    case Some(FourColors(zones)) => zones
    case _ => otherwise
  }

  /** The last field of every kind, or the default where there is none. */
  function Result(words: seq<string>): Shown {
    Shown(On(words, DEFAULT.powered), NumberOf(words, Mode, DEFAULT.mode), NumberOf(words, Speed, DEFAULT.speed),
          NumberOf(words, Brightness, DEFAULT.brightness), NumberOf(words, Direction, DEFAULT.direction),
          ColorOf(words, DEFAULT.color), ZonesOf(words, DEFAULT.zones))
  }

  predicate Complete(words: seq<string>) {
    forall kind: Kind :: Last(words, kind).Some?
  }

  /** Every word must be a field, and every kind must occur; the last counts. */
  function Parse(response: string): Option<Shown> {
    var words := Words(response);
    if AllFields(words) && Complete(words) then Some(Result(words)) else None
  }

  function Update(state: Shown, field: Field): Shown {
    match field
    case Switch(on) => state.(powered := on)
    case Number(Mode, value) => state.(mode := value)
    case Number(Speed, value) => state.(speed := value)
    case Number(Brightness, value) => state.(brightness := value)
    case Number(Direction, value) => state.(direction := value)
    case Number(_, _) => state
    case OneColor(color) => state.(color := color)
    case FourColors(zones) => state.(zones := zones)
  }

  lemma LastOf(words: seq<string>, i: nat, kind: Kind)
    requires i < |words| && ParseField(words[i]).Some?
    ensures var field := ParseField(words[i]);
            Last(words[..i + 1], kind) == if field.value.Which() == kind then field else Last(words[..i], kind)
  {
    assert words[..i + 1][..i] == words[..i];
  }

  lemma OnGrows(words: seq<string>, i: nat, otherwise: bool)
    requires i < |words| && ParseField(words[i]).Some?
    ensures var field := ParseField(words[i]).value;
            On(words[..i + 1], otherwise) == if field.Switch? then field.on else On(words[..i], otherwise)
  {
    LastOf(words, i, Power);
    FieldKinds(words[i]);
  }

  lemma NumberGrows(words: seq<string>, i: nat, kind: Kind, otherwise: nat)
    requires i < |words| && ParseField(words[i]).Some? && Numeric(kind)
    ensures var field := ParseField(words[i]).value;
            NumberOf(words[..i + 1], kind, otherwise)
            == if field.Number? && field.kind == kind then field.value else NumberOf(words[..i], kind, otherwise)
  {
    LastOf(words, i, kind);
    FieldKinds(words[i]);
  }

  lemma ColorGrows(words: seq<string>, i: nat, otherwise: nat)
    requires i < |words| && ParseField(words[i]).Some?
    ensures var field := ParseField(words[i]).value;
            ColorOf(words[..i + 1], otherwise) == if field.OneColor? then field.color else ColorOf(words[..i], otherwise)
  {
    LastOf(words, i, Color);
    FieldKinds(words[i]);
  }

  lemma ZonesGrow(words: seq<string>, i: nat, otherwise: (nat, nat, nat, nat))
    requires i < |words| && ParseField(words[i]).Some?
    ensures var field := ParseField(words[i]).value;
            ZonesOf(words[..i + 1], otherwise) == if field.FourColors? then field.zones else ZonesOf(words[..i], otherwise)
  {
    LastOf(words, i, Zones);
    FieldKinds(words[i]);
  }

  predicate Numeric(kind: Kind) {
    kind.Mode? || kind.Speed? || kind.Brightness? || kind.Direction?
  }

  lemma FieldKinds(word: string)
    ensures var field := ParseField(word);
            field.Some? && field.value.Number? ==> Numeric(field.value.kind)
  {
  }

  lemma ResultGrows(words: seq<string>, i: nat)
    requires i < |words| && ParseField(words[i]).Some?
    ensures Result(words[..i + 1]) == Update(Result(words[..i]), ParseField(words[i]).value)
  {
    FieldKinds(words[i]);
    OnGrows(words, i, DEFAULT.powered);
    NumberGrows(words, i, Mode, DEFAULT.mode);
    NumberGrows(words, i, Speed, DEFAULT.speed);
    NumberGrows(words, i, Brightness, DEFAULT.brightness);
    NumberGrows(words, i, Direction, DEFAULT.direction);
    ColorGrows(words, i, DEFAULT.color);
    ZonesGrow(words, i, DEFAULT.zones);
  }

  predicate Seen(seen: set<Kind>, words: seq<string>) {
    forall kind :: kind in seen <==> Last(words, kind).Some?
  }

  lemma SeenGrows(seen: set<Kind>, words: seq<string>, i: nat)
    requires i < |words| && ParseField(words[i]).Some? && Seen(seen, words[..i])
    ensures Seen(seen + {ParseField(words[i]).value.Which()}, words[..i + 1])
  {
    forall kind ensures kind in seen || kind == ParseField(words[i]).value.Which() <==> Last(words[..i + 1], kind).Some? {
      LastOf(words, i, kind);
    }
  }

  lemma SeenAll(seen: set<Kind>, words: seq<string>)
    requires Seen(seen, words)
    ensures seen == KINDS <==> Complete(words)
  {
    forall kind: Kind ensures kind in KINDS {
      match kind
      case Power => case Mode => case Speed => case Brightness => case Direction => case Color => case Zones =>
    }
  }

  /** What the loop knows after some words. */
  predicate Read(words: seq<string>, state: Shown, seen: set<Kind>) {
    AllFields(words) && state == Result(words) && Seen(seen, words)
  }

  lemma ReadGrows(words: seq<string>, i: nat, state: Shown, seen: set<Kind>)
    requires i < |words| && ParseField(words[i]).Some? && Read(words[..i], state, seen)
    ensures var field := ParseField(words[i]).value;
            Read(words[..i + 1], Update(state, field), seen + {field.Which()})
  {
    ResultGrows(words, i);
    SeenGrows(seen, words, i);
  }

  method ParseLightingState(response: string) returns (r: Option<Shown>)
    ensures r == Parse(response)
  {
    var words := Words(response);
    var state := DEFAULT;
    var seen: set<Kind> := {};
    for i := 0 to |words|
      invariant Read(words[..i], state, seen)
    {
      var field := ParseField(words[i]);
      if field.None? {
        return None;
      }
      ReadGrows(words, i, state, seen);
      state := Update(state, field.value);
      seen := seen + {field.value.Which()};
    }
    assert words[..|words|] == words;
    SeenAll(seen, words);
    r := if seen == KINDS then Some(state) else None;
  }

  // ----------------------------------------------------------- round trip

  /** Everything that is accepted is in the ranges of the driver. */
  lemma ParsedIsInRange(response: string)
    requires Parse(response).Some?
    ensures var s := Parse(response).value;
            s.mode <= 7 && s.speed <= 9 && s.brightness <= 100 && s.direction <= 2
  {
    var words := Words(response);
    NumberInRange(words, Mode, 7);
    NumberInRange(words, Speed, 9);
    NumberInRange(words, Brightness, 100);
    NumberInRange(words, Direction, 2);
  }

  function Maximum(kind: Kind): nat
    requires Numeric(kind)
  {
    match kind
    case Mode => 7
    case Speed => 9
    case Brightness => 100
    case Direction => 2
  }

  lemma {:induction false} NumberInRange(words: seq<string>, kind: Kind, maximum: nat)
    requires Numeric(kind) && maximum == Maximum(kind) && Last(words, kind).Some?
    ensures Last(words, kind).value.Number? && Last(words, kind).value.value <= maximum
    decreases |words|
  {
    var field := ParseField(words[|words| - 1]);
    if !(field.Some? && field.value.Which() == kind) {
      NumberInRange(words[..|words| - 1], kind, maximum);
    }
  }

  lemma ParseHexPacked(color: Rgb)
    ensures ParsePacked(HexColor(color)) == Some(Packed(color))
  {
    ParseHexColor(color);
    HexByteDigits(color.0);
    HexByteDigits(color.1);
    HexByteDigits(color.2);
    var s := HexColor(color);
    SixDigits(s);
  }

  /** Two more digits are one more byte. */
  lemma TwoMore(front: string, value: nat, high: char, low: char)
    requires Digits(front, Hexadecimal) == Some(value) && IsHexDigit(high) && IsHexDigit(low)
    ensures Digits(front + [high] + [low], Hexadecimal) == Some(0x100 * value + Text.Pair(high, low))
  {
    OneMore(front, value, high);
    OneMore(front + [high], 16 * value + DigitOf(high).value, low);
  }

  lemma OneMore(front: string, value: nat, digit: char)
    requires Digits(front, Hexadecimal) == Some(value) && IsHexDigit(digit)
    ensures Digits(front + [digit], Hexadecimal) == Some(16 * value + DigitOf(digit).value)
  {
    assert (front + [digit])[..|front|] == front;
    assert DigitOf(digit).value < 16;
  }

  lemma SixDigits(s: string)
    requires |s| == 6 && forall i | 0 <= i < 6 :: IsHexDigit(s[i])
    ensures Digits(s, Hexadecimal)
         == Some(0x1_0000 * Text.Pair(s[0], s[1]) + 0x100 * Text.Pair(s[2], s[3]) + Text.Pair(s[4], s[5]))
  {
    var a: nat, b: nat := Text.Pair(s[0], s[1]), Text.Pair(s[2], s[3]);
    var two := "" + [s[0]] + [s[1]];
    var four := two + [s[2]] + [s[3]];
    TwoMore("", 0, s[0], s[1]);
    TwoMore(two, a, s[2], s[3]);
    TwoMore(four, 0x100 * a + b, s[4], s[5]);
    assert s == four + [s[4]] + [s[5]];
  }

  lemma FieldParses(name: string, value: string)
    requires IsWord(name) && IsWord(value) && '=' !in name
    ensures ParseField(name + "=" + value) == ParseValue(name, value) && IsWord(name + "=" + value)
  {
    SplitOnceJoined(name, '=', value);
    assert name + "=" + value == name + ['='] + value;
  }

  lemma NumberParses(n: u8, name: string, kind: Kind, maximum: nat)
    requires IsWord(name) && '=' !in name
    requires forall value :: ParseValue(name, value) == ParseNumber(value, kind, maximum)
    ensures ParseField(name + "=" + Decimals(n)) == if n <= maximum then Some(Number(kind, n)) else None
    ensures IsWord(name + "=" + Decimals(n))
  {
    ParsePrint(n, Decimal, 255);
    FieldParses(name, Decimals(n));
  }

  lemma ZonesParse(s: LightingState)
    ensures var list := Join(ZoneColors(s), ',');
            ParseZones(list) == Some(FourColors(Show(s).zones)) && IsWord(list)
  {
    var parts := ZoneColors(s);
    ParseHexColor(s.zones.0);
    ParseHexColor(s.zones.1);
    ParseHexColor(s.zones.2);
    ParseHexColor(s.zones.3);
    ParseHexPacked(s.zones.0);
    ParseHexPacked(s.zones.1);
    ParseHexPacked(s.zones.2);
    ParseHexPacked(s.zones.3);
    SplitJoin(parts, ',');
    JoinedWords(parts);
  }

  lemma {:induction false} JoinedWords(parts: seq<string>)
    requires parts != [] && AllWords(parts)
    ensures IsWord(Join(parts, ','))
  {
    assert IsWord(parts[0]);
    if |parts| > 1 {
      JoinedWords(parts[1..]);
    }
  }

  /** What each printed word parses to; None for a number out of range. */
  function FieldOf(s: LightingState, kind: Kind): Option<Field> {
    match kind
    case Power => Some(Switch(s.powered))
    case Mode => if s.mode <= 7 then Some(Number(Mode, s.mode)) else None
    case Speed => if s.speed <= 9 then Some(Number(Speed, s.speed)) else None
    case Brightness => if s.brightness <= 100 then Some(Number(Brightness, s.brightness)) else None
    case Direction => if s.direction <= 2 then Some(Number(Direction, s.direction)) else None
    case Color => Some(OneColor(Packed(s.color)))
    case Zones => Some(FourColors(Show(s).zones))
  }

  lemma NamesAreWords(kind: Kind)
    ensures IsWord(Name(kind)) && '=' !in Name(kind)
  {
  }

  lemma NumberWordParses(s: LightingState, kind: Kind)
    requires Numeric(kind)
    ensures ParseField(Word(s, kind)) == FieldOf(s, kind) && IsWord(Word(s, kind))
  {
    NamesAreWords(kind);
    match kind
    case Mode => NumberParses(s.mode, Name(Mode), Mode, 7);
    case Speed => NumberParses(s.speed, Name(Speed), Speed, 9);
    case Brightness => NumberParses(s.brightness, Name(Brightness), Brightness, 100);
    case Direction => NumberParses(s.direction, Name(Direction), Direction, 2);
  }

  lemma ColorWordParses(s: LightingState)
    ensures ParseField(Word(s, Color)) == FieldOf(s, Color) && IsWord(Word(s, Color))
  {
    NamesAreWords(Color);
    ParseHexColor(s.color);
    ParseHexPacked(s.color);
    FieldParses(Name(Color), Value(s, Color));
  }

  lemma PowerWordParses(s: LightingState)
    ensures ParseField(Word(s, Power)) == FieldOf(s, Power) && IsWord(Word(s, Power))
  {
    NamesAreWords(Power);
    assert IsWord("on") && IsWord("off");
    FieldParses(Name(Power), Value(s, Power));
  }

  lemma ZonesWordParses(s: LightingState)
    ensures ParseField(Word(s, Zones)) == FieldOf(s, Zones) && IsWord(Word(s, Zones))
  {
    NamesAreWords(Zones);
    ZonesParse(s);
    FieldParses(Name(Zones), Value(s, Zones));
  }

  lemma WordParses(s: LightingState, kind: Kind)
    ensures ParseField(Word(s, kind)) == FieldOf(s, kind) && IsWord(Word(s, kind))
  {
    match kind
    case Power => PowerWordParses(s);
    case Color => ColorWordParses(s);
    case Zones => ZonesWordParses(s);
    case _ => NumberWordParses(s, kind);
  }

  function KindAt(i: nat): Kind
    requires i < 7
  {
    match i
    case 0 => Power
    case 1 => Mode
    case 2 => Speed
    case 3 => Brightness
    case 4 => Direction
    case 5 => Color
    case _ => Zones
  }

  function Index(kind: Kind): (i: nat)
    ensures i < 7 && KindAt(i) == kind
  {
    match kind
    case Power => 0
    case Mode => 1
    case Speed => 2
    case Brightness => 3
    case Direction => 4
    case Color => 5
    case Zones => 6
  }

  /** The words are those that the printer makes of `s`. */
  ghost predicate Prints(s: LightingState, words: seq<string>) {
    |words| == 7 && forall i: nat | i < 7 :: ParseField(words[i]) == FieldOf(s, KindAt(i)) && IsWord(words[i])
  }

  lemma WordIsThere(s: LightingState, i: nat)
    requires i < 7
    ensures Fields(s)[i] == Word(s, KindAt(i))
  {
  }

  lemma EncodePrints(s: LightingState)
    ensures Words(Encode(s)) == Fields(s) && Prints(s, Fields(s))
  {
    var words := Fields(s);
    forall i: nat | i < 7 ensures ParseField(words[i]) == FieldOf(s, KindAt(i)) && IsWord(words[i]) {
      WordIsThere(s, i);
      WordParses(s, KindAt(i));
    }
    WordsJoin(words);
  }

  /** A field is the last of its kind when the later words are of others. */
  lemma {:induction false} LastIs(words: seq<string>, i: nat, n: nat, field: Field)
    requires i < n <= |words| && ParseField(words[i]) == Some(field)
    requires forall k | i < k < n :: ParseField(words[k]).None? || ParseField(words[k]).value.Which() != field.Which()
    ensures Last(words[..n], field.Which()) == Some(field)
  {
    assert words[..n][..n - 1] == words[..n - 1];
    if i < n - 1 {
      LastIs(words, i, n - 1, field);
    }
  }

  lemma FieldHasItsKind(s: LightingState, kind: Kind)
    requires InRange(s)
    ensures FieldOf(s, kind).Some? && FieldOf(s, kind).value.Which() == kind
  {
  }

  lemma LastPrinted(s: LightingState, words: seq<string>, kind: Kind)
    requires Prints(s, words) && InRange(s)
    ensures FieldOf(s, kind).Some? && Last(words, kind) == FieldOf(s, kind)
  {
    var i := Index(kind);
    FieldHasItsKind(s, kind);
    forall k: nat | i < k < 7 ensures ParseField(words[k]).None? || ParseField(words[k]).value.Which() != kind {
      FieldHasItsKind(s, KindAt(k));
      assert ParseField(words[k]) == FieldOf(s, KindAt(k));
    }
    LastIs(words, i, 7, FieldOf(s, kind).value);
    assert words[..7] == words;
  }

  lemma ResultPrinted(s: LightingState, words: seq<string>)
    requires Prints(s, words) && InRange(s)
    ensures AllFields(words) && Complete(words) && Result(words) == Show(s)
  {
    forall kind: Kind ensures FieldOf(s, kind).Some? && Last(words, kind) == FieldOf(s, kind) {
      LastPrinted(s, words, kind);
    }
    forall i | 0 <= i < 7 ensures ParseField(words[i]).Some? {
      assert FieldOf(s, KindAt(i)).Some?;
    }
  }

  lemma OutOfRangePrinted(s: LightingState, words: seq<string>)
    requires Prints(s, words) && !InRange(s)
    ensures !AllFields(words)
  {
    var kind := if s.mode > 7 then Mode else if s.speed > 9 then Speed else if s.brightness > 100 then Brightness else Direction;
    assert ParseField(words[Index(kind)]) == FieldOf(s, kind);
  }

  /** The window shows exactly what the daemon read when that is in range, and
      refuses everything else. */
  lemma RoundTripIff(s: LightingState)
    ensures Parse(Encode(s)) == if InRange(s) then Some(Show(s)) else None
  {
    EncodePrints(s);
    if InRange(s) {
      ResultPrinted(s, Fields(s));
    } else {
      OutOfRangePrinted(s, Fields(s));
    }
  }

  /** Packing keeps colours apart, so equal displays mean equal readings. */
  lemma ShowIsInjective(a: LightingState, b: LightingState)
    requires Show(a) == Show(b)
    ensures a == b
  {
    PackedIsInjective(a.color, b.color);
    PackedIsInjective(a.zones.0, b.zones.0);
    PackedIsInjective(a.zones.1, b.zones.1);
    PackedIsInjective(a.zones.2, b.zones.2);
    PackedIsInjective(a.zones.3, b.zones.3);
  }

  lemma PackedIsInjective(a: Rgb, b: Rgb)
    requires Packed(a) == Packed(b)
    ensures a == b
  {
    assert Packed(a) / 0x1_0000 == a.0 && Packed(b) / 0x1_0000 == b.0;
  }
}
