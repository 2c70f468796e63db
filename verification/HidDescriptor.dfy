/**
  The report-descriptor parser of src/passive_hid.rs, after sections 6.2.2.4 to
  6.2.2.8 of the Device Class Definition for HID 1.11.

  ParseReportDescriptor is the loop over the bytes. It is proved equal to
  cutting the bytes into items first and folding `Step` over them. What that
  fold accepts and returns is then stated without any stack, by looking back
  through the items for whatever is in force at a position.
*/
module HidDescriptor {
  import opened Wrappers
  import opened HidItems

  const MAX_STACK_DEPTH := 32
  const MAX_FEATURE_REPORTS := 64
  const MAX_FEATURE_REPORT_BYTES := 4096
  const U64_MAX := 0xffff_ffff_ffff_ffff

  datatype ErrorClass = InvalidValue | Oversize

  type Usage = (nat, nat)

  datatype GlobalState = GlobalState(
    usagePage: Option<nat>, reportSize: Option<nat>, reportCount: Option<nat>, reportId: u8)

  const DEFAULT: GlobalState := GlobalState(None, None, None, 0)

  datatype Geometry = Geometry(id: u8, bytes: nat)

  datatype ParsedDescriptor = ParsedDescriptor(featureReports: seq<Geometry>, applicationUsage: Option<Usage>)

  datatype State = State(
    global: GlobalState,
    globalStack: seq<GlobalState>,
    collectionStack: seq<Option<Usage>>,
    localUsage: Option<Usage>,
    featureBits: map<u8, nat>,
    featureUsages: set<Usage>,
    featureWithoutUsage: bool)

  const INITIAL: State := State(DEFAULT, [], [], None, map[], {}, false)

  function UsageFromItem(page: Option<nat>, data: seq<u8>): Option<Usage> {
    var value := Unsigned(data);
    if |data| == 4 && value > 0xffff then Some((value / 0x1_0000, value % 0x1_0000))
    else if page.None? || value > 0xffff then None
    else Some((page.value, value))
  }

  function Innermost(collections: seq<Option<Usage>>): Option<Usage> {
    if collections == [] then None else collections[|collections| - 1]
  }

  /** The bits of one Feature item: size times count, both set and not zero. */
  function FieldBits(global: GlobalState): nat {
    if global.reportSize.None? || global.reportCount.None? then 0
    else global.reportSize.value * global.reportCount.value
  }

  function TakeGlobal(state: State, tag: nat, value: nat): Result<State, ErrorClass> {
    var global := state.global;
    match tag
    case 0 =>
      if value > 0xffff then Failure(InvalidValue)
      else Success(state.(global := global.(usagePage := Some(value))))
    case 7 => Success(state.(global := global.(reportSize := Some(value))))
    case 8 =>
      if value > 0xff || value == 0 then Failure(InvalidValue)
      else Success(state.(global := global.(reportId := value)))
    case 9 => Success(state.(global := global.(reportCount := Some(value))))
    case 10 =>
      if |state.globalStack| == MAX_STACK_DEPTH then Failure(Oversize)
      else Success(state.(globalStack := state.globalStack + [global]))
    case 11 =>
      if state.globalStack == [] then Failure(InvalidValue)
      else
        var top := |state.globalStack| - 1;
        Success(state.(global := state.globalStack[top], globalStack := state.globalStack[..top]))
    case _ => Success(state)
  }

  /** What the current report adds up to with one more item. */
  function Total(featureBits: map<u8, nat>, global: GlobalState): nat {
    (if global.reportId in featureBits then featureBits[global.reportId] else 0) + FieldBits(global)
  }

  function TakeFeature(state: State): Result<State, ErrorClass> {
    var total := Total(state.featureBits, state.global);
    if FieldBits(state.global) == 0 then Failure(InvalidValue)
    else if total > U64_MAX then Failure(Oversize)
    else
      var featureBits := state.featureBits[state.global.reportId := total];
      if |featureBits| > MAX_FEATURE_REPORTS then Failure(Oversize)
      else
        var usage := Innermost(state.collectionStack);
        Success(state.(
          featureBits := featureBits,
          featureUsages := state.featureUsages + (if usage.Some? then {usage.value} else {}),
          featureWithoutUsage := state.featureWithoutUsage || usage.None?,
          localUsage := None))
  }

  function TakeMain(state: State, tag: nat, value: nat): Result<State, ErrorClass> {
    match tag
    case 10 =>
      if |state.collectionStack| == MAX_STACK_DEPTH then Failure(Oversize)
      else
        var parent := Innermost(state.collectionStack);
        var application := if value == 1 && parent.None? then state.localUsage else parent;
        Success(state.(collectionStack := state.collectionStack + [application], localUsage := None))
    case 12 =>
      if state.collectionStack == [] then Failure(InvalidValue)
      else Success(state.(collectionStack := state.collectionStack[..|state.collectionStack| - 1], localUsage := None))
    case 11 => TakeFeature(state)
    case _ => Success(state.(localUsage := None))
  }

  function Step(state: State, item: Item): Result<State, ErrorClass> {
    match item.Type()
    case Global => TakeGlobal(state, item.Tag(), item.Value())
    case Local =>
      if item.Tag() == 0 && state.localUsage.None?
      then Success(state.(localUsage := UsageFromItem(state.global.usagePage, item.data)))
      else Success(state)
    case Main => TakeMain(state, item.Tag(), item.Value())
    case Reserved => Success(state)
  }

  function Fold(state: State, items: seq<Item>): Result<State, ErrorClass> {
    if items == [] then Success(state)
    else
      var before := Fold(state, items[..|items| - 1]);
      if before.Failure? then before else Step(before.value, items[|items| - 1])
  }

  /** The payload in whole bytes, and the ID byte of a numbered report. */
  function ReportBytes(id: u8, bits: nat): nat {
    (bits + 7) / 8 + if id != 0 then 1 else 0
  }

  predicate Fits(featureBits: map<u8, nat>) {
    forall id | id in featureBits :: ReportBytes(id, featureBits[id]) <= MAX_FEATURE_REPORT_BYTES
  }

  /** Ascending by ID. */
  function Reports(featureBits: map<u8, nat>, below: nat): seq<Geometry>
    requires below <= 256
  {
    if below == 0 then []
    else
      var id := below - 1;
      Reports(featureBits, id)
        + if id in featureBits then [Geometry(id, ReportBytes(id, featureBits[id]))] else []
  }

  function ApplicationUsage(state: State): Option<Usage> {
    if !state.featureWithoutUsage && |state.featureUsages| == 1
    then Some(Only(state.featureUsages))
    else None
  }

  /** The element of a singleton. */
  function Only(usages: set<Usage>): (usage: Usage)
    requires |usages| == 1
    ensures usages == {usage}
  {
    OnlyOne(usages);
    var usage :| usage in usages;
    usage
  }

  lemma OnlyOne(usages: set<Usage>)
    requires |usages| == 1
    ensures forall a, b | a in usages && b in usages :: a == b
    ensures exists a :: a in usages && usages == {a}
  {
    var a :| a in usages;
    assert |usages - {a}| == 0;
    assert usages == {a};
  }

  function Finish(state: State): Result<ParsedDescriptor, ErrorClass> {
    if state.globalStack != [] || state.collectionStack != [] then Failure(InvalidValue)
    else if !Fits(state.featureBits) then Failure(Oversize)
    else Success(ParsedDescriptor(Reports(state.featureBits, 256), ApplicationUsage(state)))
  }

  /** Cut into items first, then fold; a defect counts when it is reached. */
  function Meaning(bytes: seq<u8>): Result<ParsedDescriptor, ErrorClass> {
    var (items, complete) := Tokenise(bytes);
    var state := Fold(INITIAL, items);
    if state.Failure? then Failure(state.error)
    else if !complete then Failure(InvalidValue)
    else Finish(state.value)
  }

  // -------------------------------------------------- without any stack

  predicate Is(item: Item, type_: ItemType, tag: nat) {
    item.Type() == type_ && item.Tag() == tag
  }

  predicate IsPush(item: Item) { Is(item, Global, 10) }
  predicate IsPop(item: Item) { Is(item, Global, 11) }
  predicate IsCollection(item: Item) { Is(item, Main, 10) }
  predicate IsEnd(item: Item) { Is(item, Main, 12) }
  predicate IsFeature(item: Item) { Is(item, Main, 11) }

  /** Push items minus Pop items before position `i`. */
  function Pushes(items: seq<Item>, i: nat): int
    requires i <= |items|
  {
    if i == 0 then 0
    else Pushes(items, i - 1) + if IsPush(items[i - 1]) then 1 else if IsPop(items[i - 1]) then -1 else 0
  }

  /** Collections minus End Collections before position `i`. */
  function Opens(items: seq<Item>, i: nat): int
    requires i <= |items|
  {
    if i == 0 then 0
    else Opens(items, i - 1) + if IsCollection(items[i - 1]) then 1 else if IsEnd(items[i - 1]) then -1 else 0
  }

  /** The last Push before `i` that was made at depth `k`. */
  function LastPush(items: seq<Item>, i: nat, k: int): (j: nat)
    requires i <= |items|
    ensures j < i || (i == 0 && j == 0)
  {
    if i == 0 then 0
    else if IsPush(items[i - 1]) && Pushes(items, i - 1) == k then i - 1
    else LastPush(items, i - 1, k)
  }

  /** The last Collection before `i` that was opened at depth `k`. */
  function LastOpen(items: seq<Item>, i: nat, k: int): (j: nat)
    requires i <= |items|
    ensures j < i || (i == 0 && j == 0)
  {
    if i == 0 then 0
    else if IsCollection(items[i - 1]) && Opens(items, i - 1) == k then i - 1
    else LastOpen(items, i - 1, k)
  }

  /** What an item other than Push and Pop sets. */
  function SetGlobal(global: GlobalState, tag: nat, value: nat): GlobalState {
    match tag
    case 0 => global.(usagePage := Some(value))
    case 7 => global.(reportSize := Some(value))
    case 8 => if value <= 0xff then global.(reportId := value) else global
    case 9 => global.(reportCount := Some(value))
    case _ => global
  }

  /** The global state before `i`: a Pop brings back that of its own Push. */
  function GlobalAt(items: seq<Item>, i: nat): GlobalState
    requires i <= |items|
  {
    if i == 0 then DEFAULT
    else
      var item := items[i - 1];
      if IsPop(item) then GlobalAt(items, LastPush(items, i - 1, Pushes(items, i - 1) - 1))
      else if item.Type() == Global then SetGlobal(GlobalAt(items, i - 1), item.Tag(), item.Value())
      else GlobalAt(items, i - 1)
  }

  /** The first usable Usage since the last Main item. */
  function UsageAt(items: seq<Item>, i: nat): Option<Usage>
    requires i <= |items|
  {
    if i == 0 || items[i - 1].Type() == Main then None
    else
      var before := UsageAt(items, i - 1);
      if before.None? && Is(items[i - 1], Local, 0)
      then UsageFromItem(GlobalAt(items, i - 1).usagePage, items[i - 1].data)
      else before
  }

  /** The usage that the Collection at `j` stands for: its own if it is an
      Application collection and none encloses it, the enclosing one otherwise. */
  function ApplicationOf(items: seq<Item>, j: nat): Option<Usage>
    requires j < |items|
    decreases j, 1
  {
    var parent := Enclosing(items, j);
    if items[j].Value() == 1 && parent.None? then UsageAt(items, j) else parent
  }

  function Enclosing(items: seq<Item>, i: nat): Option<Usage>
    requires i <= |items|
    decreases i, 0
  {
    if i == 0 || Opens(items, i) <= 0 then None
    else ApplicationOf(items, LastOpen(items, i, Opens(items, i) - 1))
  }

  /** The bits that the Feature items before `i` declare for report `id`. */
  function BitsOf(items: seq<Item>, i: nat, id: u8): nat
    requires i <= |items|
  {
    if i == 0 then 0
    else BitsOf(items, i - 1, id) + BitsAt(items, i - 1, id)
  }

  function BitsAt(items: seq<Item>, i: nat, id: u8): nat
    requires i < |items|
  {
    var global := GlobalAt(items, i);
    if IsFeature(items[i]) && global.reportId == id then FieldBits(global) else 0
  }

  /** The reports that have a Feature item before `i`. */
  function IdsOf(items: seq<Item>, i: nat): set<u8>
    requires i <= |items|
  {
    if i == 0 then {}
    else IdsOf(items, i - 1) + if IsFeature(items[i - 1]) then {GlobalAt(items, i - 1).reportId} else {}
  }

  function UsagesOf(items: seq<Item>, i: nat): set<Usage>
    requires i <= |items|
  {
    if i == 0 then {}
    else
      var usage := Enclosing(items, i - 1);
      UsagesOf(items, i - 1) + if IsFeature(items[i - 1]) && usage.Some? then {usage.value} else {}
  }

  predicate Unclaimed(items: seq<Item>, i: nat)
    requires i <= |items|
  {
    i > 0 && (Unclaimed(items, i - 1) || (IsFeature(items[i - 1]) && Enclosing(items, i - 1).None?))
  }

  function GlobalStackAt(items: seq<Item>, i: nat): seq<GlobalState>
    requires i <= |items|
  {
    if Pushes(items, i) < 0 then []
    else seq(Pushes(items, i), k requires 0 <= k => GlobalAt(items, LastPush(items, i, k)))
  }

  function CollectionStackAt(items: seq<Item>, i: nat): seq<Option<Usage>>
    requires i <= |items|
  {
    if i == 0 || Opens(items, i) < 0 then []
    else seq(Opens(items, i), k requires 0 <= k => ApplicationOf(items, LastOpen(items, i, k)))
  }

  function BitsMap(items: seq<Item>, i: nat): map<u8, nat>
    requires i <= |items|
  {
    map id | id in IdsOf(items, i) :: BitsOf(items, i, id)
  }

  /** Everything the fold knows before position `i`. */
  function StateAt(items: seq<Item>, i: nat): State
    requires i <= |items|
  {
    State(GlobalAt(items, i), GlobalStackAt(items, i), CollectionStackAt(items, i), UsageAt(items, i),
          BitsMap(items, i), UsagesOf(items, i), Unclaimed(items, i))
  }

  predicate LegalGlobal(tag: nat, value: nat, depth: int) {
    match tag
    case 0 => value <= 0xffff
    case 8 => 1 <= value <= 0xff
    case 10 => depth < MAX_STACK_DEPTH
    case 11 => depth > 0
    case _ => true
  }

  predicate LegalMain(tag: nat, depth: int, fieldBits: nat) {
    match tag
    case 10 => depth < MAX_STACK_DEPTH
    case 11 => fieldBits != 0
    case 12 => depth > 0
    case _ => true
  }

  /** What one item must satisfy where it stands. */
  predicate Legal(items: seq<Item>, i: nat)
    requires i < |items|
  {
    var item := items[i];
    match item.Type()
    case Global => LegalGlobal(item.Tag(), item.Value(), Pushes(items, i))
    case Main => LegalMain(item.Tag(), Opens(items, i), FieldBits(GlobalAt(items, i)))
    case _ => true
  }

  /** The error of an item that may not stand where it does. */
  function Blame(items: seq<Item>, i: nat): ErrorClass
    requires i < |items|
  {
    var item := items[i];
    if IsPush(item) || IsCollection(item) then Oversize
    else if IsFeature(item) && FieldBits(GlobalAt(items, i)) != 0 then Oversize
    else InvalidValue
  }

  /** The cumulative limits that the fold checks on the way. */
  predicate WithinLimits(featureBits: map<u8, nat>) {
    |featureBits| <= MAX_FEATURE_REPORTS && forall id | id in featureBits :: featureBits[id] <= U64_MAX
  }

  lemma {:induction false} NoBitsWithoutId(items: seq<Item>, i: nat, id: u8)
    requires i <= |items| && id !in IdsOf(items, i)
    ensures BitsOf(items, i, id) == 0
  {
    if i > 0 {
      NoBitsWithoutId(items, i - 1, id);
    }
  }

  lemma {:induction false} PushFound(items: seq<Item>, i: nat, k: int)
    requires i < |items|
    ensures LastPush(items, i + 1, k) == if IsPush(items[i]) && Pushes(items, i) == k then i else LastPush(items, i, k)
    ensures LastOpen(items, i + 1, k) == if IsCollection(items[i]) && Opens(items, i) == k then i else LastOpen(items, i, k)
  {
  }

  /** The stack of the fold, one item further. */
  lemma GlobalStackGrows(items: seq<Item>, i: nat)
    requires i < |items| && 0 <= Pushes(items, i)
    ensures var stack, next := GlobalStackAt(items, i), GlobalStackAt(items, i + 1);
            if IsPush(items[i]) then next == stack + [GlobalAt(items, i)]
            else if !IsPop(items[i]) then next == stack
            else if stack == [] then next == []
            else next == stack[..|stack| - 1] && GlobalAt(items, i + 1) == stack[|stack| - 1]
  {
    var d, item := Pushes(items, i), items[i];
    var stack, next := GlobalStackAt(items, i), GlobalStackAt(items, i + 1);
    forall k | 0 <= k < |next| && k < |stack| ensures next[k] == stack[k] {
      PushFound(items, i, k);
    }
    if IsPush(item) {
      PushFound(items, i, d);
      assert next[d] == GlobalAt(items, i);
    }
  }

  /** The fold's step on the global stack, for any state. */
  lemma TakesGlobal(state: State, tag: nat, value: nat)
    requires |state.globalStack| <= MAX_STACK_DEPTH
    ensures var r, stack := TakeGlobal(state, tag, value), state.globalStack;
            if !LegalGlobal(tag, value, |stack|) then r == Failure(if tag == 10 then Oversize else InvalidValue)
            else if tag == 10 then r == Success(state.(globalStack := stack + [state.global]))
            else if tag == 11 then
              r == Success(state.(global := stack[|stack| - 1], globalStack := stack[..|stack| - 1]))
            else r == Success(state.(global := SetGlobal(state.global, tag, value)))
  {
  }

  lemma GlobalAtNext(items: seq<Item>, i: nat)
    requires i < |items| && !IsPop(items[i])
    ensures GlobalAt(items, i + 1) ==
            if items[i].Type() == Global then SetGlobal(GlobalAt(items, i), items[i].Tag(), items[i].Value())
            else GlobalAt(items, i)
  {
  }

  lemma GlobalStep(items: seq<Item>, i: nat)
    requires i < |items| && items[i].Type() == Global && 0 <= Pushes(items, i) <= MAX_STACK_DEPTH
    ensures var state := StateAt(items, i);
            var r := TakeGlobal(state, items[i].Tag(), items[i].Value());
            if Legal(items, i)
            then r == Success(state.(global := GlobalAt(items, i + 1), globalStack := GlobalStackAt(items, i + 1)))
            else r == Failure(Blame(items, i))
  {
    GlobalStackGrows(items, i);
    TakesGlobal(StateAt(items, i), items[i].Tag(), items[i].Value());
    if !IsPop(items[i]) {
      GlobalAtNext(items, i);
    }
  }

  lemma CollectionStackGrows(items: seq<Item>, i: nat)
    requires i < |items| && 0 <= Opens(items, i)
    ensures var stack, next := CollectionStackAt(items, i), CollectionStackAt(items, i + 1);
            if IsCollection(items[i]) then next == stack + [ApplicationOf(items, i)]
            else if !IsEnd(items[i]) then next == stack
            else if stack == [] then next == []
            else next == stack[..|stack| - 1]
    ensures Innermost(CollectionStackAt(items, i)) == Enclosing(items, i)
  {
    var d, item := Opens(items, i), items[i];
    var stack, next := CollectionStackAt(items, i), CollectionStackAt(items, i + 1);
    forall k | 0 <= k < |next| && k < |stack| ensures next[k] == stack[k] {
      PushFound(items, i, k);
    }
    if IsCollection(item) {
      PushFound(items, i, d);
      assert next[d] == ApplicationOf(items, i);
    }
  }

  lemma BitsMapGrows(items: seq<Item>, i: nat)
    requires i < |items| && IsFeature(items[i])
    ensures var before, global := BitsMap(items, i), GlobalAt(items, i);
            BitsMap(items, i + 1) == before[global.reportId := Total(before, global)]
  {
    var id := GlobalAt(items, i).reportId;
    if id !in IdsOf(items, i) {
      NoBitsWithoutId(items, i, id);
    }
    var before, after := BitsMap(items, i), BitsMap(items, i + 1);
    assert IdsOf(items, i + 1) == IdsOf(items, i) + {id};
  }

  lemma LegalFeature(items: seq<Item>, i: nat)
    requires i < |items| && IsFeature(items[i])
    ensures Legal(items, i) <==> FieldBits(GlobalAt(items, i)) != 0
  {
  }

  lemma UsagesGrow(items: seq<Item>, i: nat)
    requires i < |items| && IsFeature(items[i])
    ensures var usage := Enclosing(items, i);
            && UsagesOf(items, i + 1) == UsagesOf(items, i) + (if usage.Some? then {usage.value} else {})
            && Unclaimed(items, i + 1) == (Unclaimed(items, i) || usage.None?)
  {
  }

  lemma TakesFeature(state: State)
    requires WithinLimits(state.featureBits)
    ensures var usage := Innermost(state.collectionStack);
            var featureBits := state.featureBits[state.global.reportId := Total(state.featureBits, state.global)];
            var r := TakeFeature(state);
            if FieldBits(state.global) != 0 && WithinLimits(featureBits)
            then r == Success(State(state.global, state.globalStack, state.collectionStack, None, featureBits,
                                    state.featureUsages + (if usage.Some? then {usage.value} else {}),
                                    state.featureWithoutUsage || usage.None?))
            else r == Failure(if FieldBits(state.global) == 0 then InvalidValue else Oversize)
  {
    var id, total := state.global.reportId, Total(state.featureBits, state.global);
    var featureBits := state.featureBits[id := total];
    assert featureBits[id] == total;
    assert forall other | other in featureBits && other != id :: other in state.featureBits;
  }

  lemma FeatureStep(items: seq<Item>, i: nat, state: State)
    requires i < |items| && IsFeature(items[i]) && WithinLimits(BitsMap(items, i))
    requires state.global == GlobalAt(items, i) && Innermost(state.collectionStack) == Enclosing(items, i)
    requires state.featureBits == BitsMap(items, i) && state.featureUsages == UsagesOf(items, i)
    requires state.featureWithoutUsage == Unclaimed(items, i)
    ensures var r := TakeFeature(state);
            if Legal(items, i) && WithinLimits(BitsMap(items, i + 1))
            then r == Success(State(state.global, state.globalStack, state.collectionStack, None,
                                    BitsMap(items, i + 1), UsagesOf(items, i + 1), Unclaimed(items, i + 1)))
            else r == Failure(Blame(items, i))
  {
    LegalFeature(items, i);
    UsagesGrow(items, i);
    BitsMapGrows(items, i);
    TakesFeature(state);
  }

  /** Items other than Feature declare no report. */
  lemma NoFeature(items: seq<Item>, i: nat)
    requires i < |items| && !IsFeature(items[i])
    ensures BitsMap(items, i + 1) == BitsMap(items, i) && UsagesOf(items, i + 1) == UsagesOf(items, i)
    ensures Unclaimed(items, i + 1) == Unclaimed(items, i)
  {
    assert IdsOf(items, i + 1) == IdsOf(items, i);
    assert forall id: u8 :: BitsOf(items, i + 1, id) == BitsOf(items, i, id);
  }

  predicate Nested(items: seq<Item>, i: nat)
    requires i <= |items|
  {
    0 <= Pushes(items, i) <= MAX_STACK_DEPTH && 0 <= Opens(items, i) <= MAX_STACK_DEPTH
  }

  lemma NestedOn(items: seq<Item>, i: nat)
    requires i < |items| && Nested(items, i) && Legal(items, i)
    ensures Nested(items, i + 1)
  {
  }

  /** The fold and the backward view take the same step. */
  predicate Agrees(items: seq<Item>, i: nat)
    requires i < |items|
  {
    var r := Step(StateAt(items, i), items[i]);
    if Legal(items, i) && WithinLimits(BitsMap(items, i + 1)) then r == Success(StateAt(items, i + 1))
    else r == Failure(Blame(items, i))
  }

  lemma GlobalAgrees(items: seq<Item>, i: nat)
    requires i < |items| && Nested(items, i) && WithinLimits(BitsMap(items, i)) && items[i].Type() == Global
    ensures Agrees(items, i)
  {
    NoFeature(items, i);
    GlobalStep(items, i);
    CollectionStackGrows(items, i);
  }

  lemma FeatureAgrees(items: seq<Item>, i: nat)
    requires i < |items| && Nested(items, i) && WithinLimits(BitsMap(items, i)) && IsFeature(items[i])
    ensures Agrees(items, i)
  {
    GlobalStackGrows(items, i);
    CollectionStackGrows(items, i);
    FeatureStep(items, i, StateAt(items, i));
  }

  lemma CollectionAgrees(items: seq<Item>, i: nat)
    requires i < |items| && Nested(items, i) && WithinLimits(BitsMap(items, i)) && IsCollection(items[i])
    ensures Agrees(items, i)
  {
    GlobalStackGrows(items, i);
    CollectionStackGrows(items, i);
    NoFeature(items, i);
  }

  lemma TakesEnd(state: State, value: nat)
    ensures var r, stack := TakeMain(state, 12, value), state.collectionStack;
            if stack == [] then r == Failure(InvalidValue)
            else r == Success(state.(collectionStack := stack[..|stack| - 1], localUsage := None))
  {
  }

  lemma EndAgrees(items: seq<Item>, i: nat)
    requires i < |items| && Nested(items, i) && WithinLimits(BitsMap(items, i)) && IsEnd(items[i])
    ensures Agrees(items, i)
  {
    NoFeature(items, i);
    assert Step(StateAt(items, i), items[i]) == TakeMain(StateAt(items, i), 12, items[i].Value());
    TakesEnd(StateAt(items, i), items[i].Value());
    assert StateAt(items, i).collectionStack == [] <==> Opens(items, i) == 0;
    if Opens(items, i) > 0 {
      EndedState(items, i);
    }
  }

  /** A legal End Collection closes the innermost one. */
  lemma EndedState(items: seq<Item>, i: nat)
    requires i < |items| && Nested(items, i) && IsEnd(items[i]) && Opens(items, i) > 0
    ensures var stack := CollectionStackAt(items, i);
            |stack| > 0 && StateAt(items, i + 1) == StateAt(items, i).(collectionStack := stack[..|stack| - 1], localUsage := None)
  {
    GlobalStackGrows(items, i);
    CollectionStackGrows(items, i);
    NoFeature(items, i);
  }

  lemma OtherMainAgrees(items: seq<Item>, i: nat)
    requires i < |items| && Nested(items, i) && WithinLimits(BitsMap(items, i)) && items[i].Type() == Main
    requires !IsFeature(items[i]) && !IsCollection(items[i]) && !IsEnd(items[i])
    ensures Agrees(items, i)
  {
    GlobalStackGrows(items, i);
    CollectionStackGrows(items, i);
    NoFeature(items, i);
  }

  lemma LocalAgrees(items: seq<Item>, i: nat)
    requires i < |items| && Nested(items, i) && WithinLimits(BitsMap(items, i))
    requires items[i].Type() == Local || items[i].Type() == Reserved
    ensures Agrees(items, i)
  {
    NoFeature(items, i);
    GlobalStackGrows(items, i);
    CollectionStackGrows(items, i);
  }

  lemma StepAgrees(items: seq<Item>, i: nat)
    requires i < |items| && Nested(items, i) && WithinLimits(BitsMap(items, i))
    ensures Agrees(items, i)
  {
    if IsFeature(items[i]) {
      FeatureAgrees(items, i);
    } else if IsCollection(items[i]) {
      CollectionAgrees(items, i);
    } else if IsEnd(items[i]) {
      EndAgrees(items, i);
    } else {
      match items[i].Type()
      case Global => GlobalAgrees(items, i);
      case Main => OtherMainAgrees(items, i);
      case _ => LocalAgrees(items, i);
    }
  }

  predicate LegalUpTo(items: seq<Item>, i: nat)
    requires i <= |items|
  {
    i == 0 || (LegalUpTo(items, i - 1) && Legal(items, i - 1) && WithinLimits(BitsMap(items, i)))
  }

  lemma FoldOn(items: seq<Item>, i: nat)
    requires i < |items|
    ensures var before := Fold(INITIAL, items[..i]);
            Fold(INITIAL, items[..i + 1]) == if before.Failure? then before else Step(before.value, items[i])
  {
    assert items[..i + 1][..i] == items[..i];
  }

  /** The fold stands at `i` with what looking back would find. */
  predicate Reaches(items: seq<Item>, i: nat)
    requires i <= |items|
  {
    Fold(INITIAL, items[..i]) == Success(StateAt(items, i)) && Nested(items, i) && WithinLimits(BitsMap(items, i))
  }

  lemma Advance(items: seq<Item>, i: nat)
    requires i < |items| && Reaches(items, i)
    ensures if Legal(items, i) && WithinLimits(BitsMap(items, i + 1)) then Reaches(items, i + 1)
            else Fold(INITIAL, items[..i + 1]).Failure?
  {
    FoldOn(items, i);
    StepAgrees(items, i);
    if Legal(items, i) {
      NestedOn(items, i);
    }
  }

  lemma Starts(items: seq<Item>)
    ensures Reaches(items, 0)
  {
    assert BitsMap(items, 0) == map[];
    assert StateAt(items, 0) == INITIAL;
  }

  lemma StaysFailed(items: seq<Item>, i: nat)
    requires i < |items| && Fold(INITIAL, items[..i]).Failure?
    ensures Fold(INITIAL, items[..i + 1]) == Fold(INITIAL, items[..i])
  {
    FoldOn(items, i);
  }

  /** The fold succeeds exactly where every item is legal. */
  ghost predicate FoldsAlike(items: seq<Item>, i: nat)
    requires i <= |items|
  {
    if LegalUpTo(items, i) then Reaches(items, i) else Fold(INITIAL, items[..i]).Failure?
  }

  lemma FoldsAlikeOn(items: seq<Item>, i: nat)
    requires i < |items| && FoldsAlike(items, i)
    ensures FoldsAlike(items, i + 1)
  {
    if LegalUpTo(items, i) {
      Advance(items, i);
    } else {
      StaysFailed(items, i);
    }
  }

  lemma {:induction false} FoldAgrees(items: seq<Item>, i: nat)
    requires i <= |items|
    ensures FoldsAlike(items, i)
  {
    if i == 0 {
      Starts(items);
    } else {
      FoldAgrees(items, i - 1);
      FoldsAlikeOn(items, i - 1);
    }
  }

  // ------------------------------------------------------------ acceptance

  /** Every item legal where it stands, both nestings closed, at most 64
      reports and none of them over 4096 bytes. */
  ghost predicate Acceptable(items: seq<Item>) {
    && AllLegal(items, |items|)
    && Pushes(items, |items|) == 0 && Opens(items, |items|) == 0
    && |IdsOf(items, |items|)| <= MAX_FEATURE_REPORTS
    && (forall id | id in IdsOf(items, |items|) ::
          ReportBytes(id, BitsOf(items, |items|, id)) <= MAX_FEATURE_REPORT_BYTES)
  }

  lemma SubsetIsSmaller(a: set<u8>, b: set<u8>)
    requires a <= b
    ensures |a| <= |b|
  {
    assert b == a + (b - a);
  }

  lemma LimitsOnlyTighten(items: seq<Item>, i: nat)
    requires i < |items| && WithinLimits(BitsMap(items, i + 1))
    ensures WithinLimits(BitsMap(items, i))
  {
    var before, after := BitsMap(items, i), BitsMap(items, i + 1);
    assert before.Keys == IdsOf(items, i) && after.Keys == IdsOf(items, i + 1);
    SubsetIsSmaller(before.Keys, after.Keys);
    forall id | id in before ensures before[id] <= U64_MAX {
      assert id in after && BitsOf(items, i, id) <= BitsOf(items, i + 1, id);
    }
  }

  predicate AllLegal(items: seq<Item>, i: nat)
    requires i <= |items|
  {
    forall j: nat | j < i :: Legal(items, j)
  }

  lemma AllLegalOn(items: seq<Item>, i: nat)
    requires i < |items|
    ensures AllLegal(items, i + 1) <==> AllLegal(items, i) && Legal(items, i)
  {
  }

  predicate Throughout(items: seq<Item>, i: nat)
    requires i <= |items|
  {
    LegalUpTo(items, i) <==> AllLegal(items, i) && WithinLimits(BitsMap(items, i))
  }

  lemma LegalOn(items: seq<Item>, i: nat)
    requires i < |items| && Throughout(items, i)
    ensures Throughout(items, i + 1)
  {
    AllLegalOn(items, i);
    if WithinLimits(BitsMap(items, i + 1)) {
      LimitsOnlyTighten(items, i);
    }
  }

  /** The running limits follow from those at the end. */
  lemma {:induction false} LegalThroughout(items: seq<Item>, i: nat)
    requires i <= |items|
    ensures Throughout(items, i)
  {
    if i == 0 {
      NothingIsLegal(items);
    } else {
      var j := i - 1;
      LegalThroughout(items, j);
      LegalOn(items, j);
      assert j + 1 == i;
    }
  }

  lemma NothingIsLegal(items: seq<Item>)
    ensures Throughout(items, 0)
  {
    Starts(items);
  }

  lemma FitsMeans(items: seq<Item>)
    ensures var n := |items|;
            WithinLimits(BitsMap(items, n)) && Fits(BitsMap(items, n))
            <==> |IdsOf(items, n)| <= MAX_FEATURE_REPORTS
                 && forall id | id in IdsOf(items, n) :: ReportBytes(id, BitsOf(items, n, id)) <= MAX_FEATURE_REPORT_BYTES
  {
    var m := BitsMap(items, |items|);
    assert m.Keys == IdsOf(items, |items|);
    assert forall id | id in m.Keys :: m[id] == BitsOf(items, |items|, id);
    assert forall id | id in m && ReportBytes(id, m[id]) <= MAX_FEATURE_REPORT_BYTES :: m[id] <= U64_MAX;
  }

  /** A descriptor parses exactly when its bytes are whole short items and
      these are acceptable; the parse then shows the backward view. */
  lemma AcceptedIff(bytes: seq<u8>)
    ensures var (items, complete) := Tokenise(bytes);
            && (Meaning(bytes).Success? <==> complete && Acceptable(items))
            && (Meaning(bytes).Success? ==> Meaning(bytes) == Success(Described(items)))
  {
    var items, n := Tokenise(bytes).0, |Tokenise(bytes).0|;
    assert items[..n] == items;
    FoldAgrees(items, n);
    LegalThroughout(items, n);
    FitsMeans(items);
    if LegalUpTo(items, n) {
      StackSizes(items);
    }
  }

  /** The first item that may not stand where it does decides the error. */
  lemma FirstDefectDecides(bytes: seq<u8>, i: nat)
    requires var items := Tokenise(bytes).0;
             i < |items| && LegalUpTo(items, i) && !(Legal(items, i) && WithinLimits(BitsMap(items, i + 1)))
    ensures Meaning(bytes) == Failure(Blame(Tokenise(bytes).0, i))
  {
    var items := Tokenise(bytes).0;
    DefectStops(items, i);
    FailureLasts(items, i + 1, |items|);
    assert items[..|items|] == items;
  }

  lemma DefectStops(items: seq<Item>, i: nat)
    requires i < |items| && LegalUpTo(items, i) && !(Legal(items, i) && WithinLimits(BitsMap(items, i + 1)))
    ensures Fold(INITIAL, items[..i + 1]) == Failure(Blame(items, i))
  {
    FoldAgrees(items, i);
    StepAgrees(items, i);
    FoldOn(items, i);
  }

  lemma {:induction false} FailureLasts(items: seq<Item>, i: nat, j: nat)
    requires i <= j <= |items| && Fold(INITIAL, items[..i]).Failure?
    ensures Fold(INITIAL, items[..j]) == Fold(INITIAL, items[..i])
  {
    if i < j {
      FailureLasts(items, i, j - 1);
      StaysFailed(items, j - 1);
    }
  }

  lemma StackSizes(items: seq<Item>)
    requires Nested(items, |items|)
    ensures GlobalStackAt(items, |items|) == [] <==> Pushes(items, |items|) == 0
    ensures CollectionStackAt(items, |items|) == [] <==> Opens(items, |items|) == 0
  {
  }

  function Described(items: seq<Item>): ParsedDescriptor {
    ParsedDescriptor(Reports(BitsMap(items, |items|), 256), ApplicationUsage(StateAt(items, |items|)))
  }

  // --------------------------------------------------- what is reported

  predicate ReportFor(featureBits: map<u8, nat>, g: Geometry) {
    g.id in featureBits && g.bytes == ReportBytes(g.id, featureBits[g.id])
  }

  predicate Ascending(reports: seq<Geometry>) {
    forall i, j | 0 <= i < j < |reports| :: reports[i].id < reports[j].id
  }

  lemma {:induction false} ReportsSound(featureBits: map<u8, nat>, below: nat)
    requires below <= 256
    ensures forall g | g in Reports(featureBits, below) :: g.id < below && ReportFor(featureBits, g)
    ensures Ascending(Reports(featureBits, below))
  {
    if below > 0 {
      ReportsSound(featureBits, below - 1);
      var fewer := Reports(featureBits, below - 1);
      assert forall i | 0 <= i < |fewer| :: fewer[i] in fewer;
    }
  }

  lemma {:induction false} ReportsComplete(featureBits: map<u8, nat>, below: nat, g: Geometry)
    requires below <= 256 && ReportFor(featureBits, g) && g.id < below
    ensures g in Reports(featureBits, below)
  {
    if g.id < below - 1 {
      ReportsComplete(featureBits, below - 1, g);
    }
  }

  lemma ReportsCount(featureBits: map<u8, nat>, below: nat)
    requires below <= 256
    ensures |Reports(featureBits, below)| <= |featureBits|
  {
    ReportsSound(featureBits, below);
    ReportsAsIds(Reports(featureBits, below), featureBits.Keys);
    assert |featureBits.Keys| == |featureBits|;
  }

  /** A strictly ascending list has no more entries than it has IDs. */
  lemma {:induction false} ReportsAsIds(reports: seq<Geometry>, ids: set<u8>)
    requires forall g | g in reports :: g.id in ids
    requires Ascending(reports)
    ensures |reports| <= |ids|
  {
    if reports != [] {
      var n := |reports| - 1;
      forall g | g in reports[..n] ensures g.id in ids - {reports[n].id} {
      }
      ReportsAsIds(reports[..n], ids - {reports[n].id});
    }
  }

  /** Every reported length is the least whole number of bytes that holds the
      declared bits, plus the ID byte of a numbered report. */
  ghost predicate Exact(items: seq<Item>, g: Geometry) {
    var bits, payload := BitsOf(items, |items|, g.id), g.bytes - if g.id != 0 then 1 else 0;
    g.id in IdsOf(items, |items|) && 8 * payload >= bits > 8 * (payload - 1) && 1 <= g.bytes <= MAX_FEATURE_REPORT_BYTES
  }

  lemma {:induction false} DeclaredBitsArePositive(items: seq<Item>, i: nat, id: u8)
    requires i <= |items| && AllLegal(items, i) && id in IdsOf(items, i)
    ensures BitsOf(items, i, id) > 0
  {
    AllLegalOn(items, i - 1);
    if IsFeature(items[i - 1]) && GlobalAt(items, i - 1).reportId == id {
      LegalFeature(items, i - 1);
    } else {
      DeclaredBitsArePositive(items, i - 1, id);
    }
  }

  /** The reports are exactly those that have a Feature item, ascending and at
      most 64, each with its exact length. */
  lemma ReportsAreExact(bytes: seq<u8>)
    requires Meaning(bytes).Success?
    ensures var items, reports := Tokenise(bytes).0, Meaning(bytes).value.featureReports;
            && (forall id | id in IdsOf(items, |items|) :: exists g :: g in reports && g.id == id)
            && (forall g | g in reports :: Exact(items, g))
            && Ascending(reports) && |reports| <= MAX_FEATURE_REPORTS
  {
    AcceptedIff(bytes);
    var items := Tokenise(bytes).0;
    DescribedReports(items);
  }

  lemma DescribedReports(items: seq<Item>)
    requires Acceptable(items)
    ensures var reports := Reports(BitsMap(items, |items|), 256);
            && (forall id | id in IdsOf(items, |items|) :: exists g :: g in reports && g.id == id)
            && (forall g | g in reports :: Exact(items, g))
            && Ascending(reports) && |reports| <= MAX_FEATURE_REPORTS
  {
    var n, m := |items|, BitsMap(items, |items|);
    ReportsSound(m, 256);
    ReportsCount(m, 256);
    assert m.Keys == IdsOf(items, n);
    forall g | g in Reports(m, 256) ensures Exact(items, g) {
      DeclaredBitsArePositive(items, n, g.id);
    }
    forall id | id in IdsOf(items, n) ensures exists g :: g in Reports(m, 256) && g.id == id {
      ReportsComplete(m, 256, Geometry(id, ReportBytes(id, m[id])));
    }
  }

  predicate FeatureUnder(items: seq<Item>, j: nat, usage: Option<Usage>) {
    j < |items| && IsFeature(items[j]) && Enclosing(items, j) == usage
  }

  lemma {:induction false} UsageMeans(items: seq<Item>, i: nat, usage: Usage)
    requires i <= |items|
    ensures usage in UsagesOf(items, i) <==> exists j: nat :: j < i && FeatureUnder(items, j, Some(usage))
  {
    if i > 0 {
      UsageMeans(items, i - 1, usage);
      assert usage in UsagesOf(items, i) <==> usage in UsagesOf(items, i - 1) || FeatureUnder(items, i - 1, Some(usage));
    }
  }

  lemma {:induction false} UnclaimedMeans(items: seq<Item>, i: nat)
    requires i <= |items|
    ensures Unclaimed(items, i) <==> exists j: nat :: j < i && FeatureUnder(items, j, None)
  {
    if i > 0 {
      UnclaimedMeans(items, i - 1);
      assert Unclaimed(items, i) <==> Unclaimed(items, i - 1) || FeatureUnder(items, i - 1, None);
    }
  }

  /** A usage is shared when there is a Feature item and it encloses them all. */
  ghost predicate Shared(items: seq<Item>, usage: Usage) {
    && (exists j: nat :: FeatureUnder(items, j, Some(usage)))
    && (forall j: nat, other | FeatureUnder(items, j, other) :: other == Some(usage))
  }

  lemma SharedMeans(items: seq<Item>, usage: Usage)
    ensures var n := |items|;
            Shared(items, usage) <==> UsagesOf(items, n) == {usage} && !Unclaimed(items, n)
  {
    var n := |items|;
    UnclaimedMeans(items, n);
    UsageMeans(items, n, usage);
    if Shared(items, usage) {
      forall other | other in UsagesOf(items, n) ensures other == usage {
        UsageMeans(items, n, other);
      }
      assert UsagesOf(items, n) == {usage};
    }
    if UsagesOf(items, n) == {usage} && !Unclaimed(items, n) {
      forall j: nat, other | FeatureUnder(items, j, other) ensures other == Some(usage) {
        if other.Some? {
          UsageMeans(items, n, other.value);
        }
      }
    }
  }

  /** An application usage is reported exactly when it is shared. */
  lemma ApplicationUsageIsShared(bytes: seq<u8>, usage: Usage)
    requires Meaning(bytes).Success?
    ensures Meaning(bytes).value.applicationUsage == Some(usage) <==> Shared(Tokenise(bytes).0, usage)
  {
    AcceptedIff(bytes);
    var items := Tokenise(bytes).0;
    SharedMeans(items, usage);
    assert UsagesOf(items, |items|) == {usage} ==> |UsagesOf(items, |items|)| == 1;
  }

  /** Push and Pop are brackets: after the matching Pop the global state is
      what it was before the Push, whatever stands in between. */
  lemma PopRestoresPush(items: seq<Item>, i: nat, j: nat)
    requires i < j < |items| && IsPush(items[i]) && IsPop(items[j])
    requires Pushes(items, j) == Pushes(items, i) + 1
    requires forall k | i < k <= j :: Pushes(items, k) > Pushes(items, i)
    ensures GlobalAt(items, j + 1) == GlobalAt(items, i)
  {
    LastPushIs(items, i, j);
  }

  lemma {:induction false} LastPushIs(items: seq<Item>, i: nat, j: nat)
    requires i < j <= |items| && IsPush(items[i])
    requires forall k | i < k < j :: Pushes(items, k) > Pushes(items, i)
    ensures LastPush(items, j, Pushes(items, i)) == i
  {
    if j > i + 1 {
      LastPushIs(items, i, j - 1);
    }
  }

  /** Parsing the serialisation of well-formed items is folding them. */
  lemma ParsingSerialisedItems(items: seq<Item>)
    requires AllWellFormed(items)
    ensures var r := Meaning(Serialise(items));
            && (r.Success? <==> Acceptable(items))
            && (r.Success? ==> r.value == Described(items))
  {
    TokeniseSerialise(items);
    AcceptedIff(Serialise(items));
  }

  predicate Narrow(global: GlobalState) {
    && (global.reportSize.Some? ==> global.reportSize.value < 0x1_0000_0000)
    && (global.reportCount.Some? ==> global.reportCount.value < 0x1_0000_0000)
  }

  /** Size times count never leaves 64 bits: only their sum can. */
  lemma {:induction false} FieldBitsFit(items: seq<Item>, i: nat)
    requires i <= |items| && AllWellFormed(items)
    ensures Narrow(GlobalAt(items, i)) && FieldBits(GlobalAt(items, i)) <= U64_MAX
    decreases i
  {
    if i > 0 {
      var item := items[i - 1];
      assert item in items;
      FieldBitsFit(items, i - 1);
      FieldBitsFit(items, LastPush(items, i - 1, Pushes(items, i - 1) - 1));
      UnsignedFits(item.data);
    }
    var global := GlobalAt(items, i);
    if global.reportSize.Some? && global.reportCount.Some? {
      ProductFits(global.reportSize.value, global.reportCount.value);
    }
  }

  lemma ProductFits(a: nat, b: nat)
    requires a < 0x1_0000_0000 && b < 0x1_0000_0000
    ensures a * b <= U64_MAX
  {
    ProductGrows(a, b, 0xffff_ffff);
  }

  lemma ProductGrows(a: nat, b: nat, c: nat)
    requires b <= c
    ensures a * b <= a * c
  {
  }

  // ----------------------------------------------------- the first Usage

  /** A Usage resolves when it brings a page of its own, or when there is a
      current page for its sixteen bits. */
  predicate Resolves(page: Option<nat>, data: seq<u8>) {
    (|data| == 4 && Unsigned(data) > 0xffff) || (page.Some? && Unsigned(data) <= 0xffff)
  }

  lemma ResolvesIff(page: Option<nat>, data: seq<u8>)
    ensures UsageFromItem(page, data).Some? <==> Resolves(page, data)
  {
  }

  predicate IsUsage(item: Item) { Is(item, Local, 0) }

  /** The usage that the item at `i` resolves to where it stands. */
  function UsageHere(items: seq<Item>, i: nat): Option<Usage>
    requires i < |items|
  {
    UsageFromItem(GlobalAt(items, i).usagePage, items[i].data)
  }

  /** From `m`, where local state is empty, to `f` there is neither Main nor Usage. */
  predicate NoUsageSince(items: seq<Item>, m: nat, f: nat)
    requires f <= |items|
  {
    && m <= f && (m == 0 || items[m - 1].Type() == Main)
    && forall k | m <= k < f :: items[k].Type() != Main && !IsUsage(items[k])
  }

  /** `f` is the first Usage since the last Main item before `i`. */
  ghost predicate FirstUsage(items: seq<Item>, f: nat, i: nat) {
    && f < i <= |items| && IsUsage(items[f])
    && (forall k | f < k < i :: items[k].Type() != Main)
    && exists m: nat :: NoUsageSince(items, m, f)
  }

  lemma {:induction false} NoUsageYet(items: seq<Item>, m: nat, f: nat)
    requires f <= |items| && NoUsageSince(items, m, f)
    ensures UsageAt(items, f).None?
    decreases f
  {
    if m < f {
      NoUsageYet(items, m, f - 1);
    }
  }

  lemma {:induction false} UsageKept(items: seq<Item>, f: nat, i: nat)
    requires f < i <= |items| && IsUsage(items[f]) && UsageAt(items, f).None?
    requires forall k | f < k < i :: items[k].Type() != Main
    ensures UsageHere(items, f).Some? ==> UsageAt(items, i) == UsageHere(items, f)
    ensures UsageHere(items, f).None? ==>
              (UsageAt(items, i).None? <==> forall k | f < k < i && IsUsage(items[k]) :: UsageHere(items, k).None?)
    decreases i
  {
    if i > f + 1 {
      UsageKept(items, f, i - 1);
    }
  }

  /** The first Usage owns what follows if and only if it resolves, or no later
      one resolves either and nothing owns it. */
  lemma FirstUsageOwnsIff(items: seq<Item>, f: nat, i: nat)
    requires FirstUsage(items, f, i)
    ensures UsageAt(items, i) == UsageHere(items, f)
            <==> Resolves(GlobalAt(items, f).usagePage, items[f].data)
                 || forall k | f < k < i && IsUsage(items[k]) :: !Resolves(GlobalAt(items, k).usagePage, items[k].data)
  {
    var m: nat :| NoUsageSince(items, m, f);
    NoUsageYet(items, m, f);
    UsageKept(items, f, i);
    forall k: nat | k < |items| ensures UsageHere(items, k).Some? <==> Resolves(GlobalAt(items, k).usagePage, items[k].data) {
      ResolvesIff(GlobalAt(items, k).usagePage, items[k].data);
    }
  }

  /** An outermost Application collection stands for that usage. */
  lemma ApplicationOwner(items: seq<Item>, i: nat)
    requires i < |items| && IsCollection(items[i]) && items[i].Value() == 1 && Enclosing(items, i).None?
    ensures ApplicationOf(items, i) == UsageAt(items, i)
  {
  }

  /** Usage 1 without a page, Usage Page 1, Usage 2, and an Application collection
      that holds one Feature item of eight bits. */
  const SECOND_USAGE: seq<Item> :=
    [Item(0x09, [1]), Item(0x05, [1]), Item(0x09, [2]), Item(0xa1, [1]),
     Item(0x75, [8]), Item(0x95, [1]), Item(0xb1, [2]), Item(0xc0, [])]

  lemma SecondUsageIsWellFormed()
    ensures AllWellFormed(SECOND_USAGE)
  {
    forall i | 0 <= i < |SECOND_USAGE| ensures SECOND_USAGE[i].WellFormed() {
      if i == 7 {
        assert DataSize(0xc0) == 0;
      } else {
        assert SECOND_USAGE[i].prefix % 4 == 1 && |SECOND_USAGE[i].data| == 1;
      }
    }
  }

  lemma SecondUsageIsSecond()
    ensures FirstUsage(SECOND_USAGE, 0, 3)
  {
    var items := SECOND_USAGE;
    assert NoUsageSince(items, 0, 0);
    assert items[1].Type() == Global && items[2].Type() == Local;
  }

  /** The first Usage does not own that collection: the second one does. */
  lemma SecondUsageOwns()
    ensures AllWellFormed(SECOND_USAGE) && FirstUsage(SECOND_USAGE, 0, 3)
    ensures UsageHere(SECOND_USAGE, 0) == None && ApplicationOf(SECOND_USAGE, 3) == Some((1, 2))
  {
    SecondUsageIsWellFormed();
    SecondUsageIsSecond();
    var items := SECOND_USAGE;
    assert Unsigned([]) == 0;
    assert Unsigned([1]) == 1 && Unsigned([2]) == 2;
    assert GlobalAt(items, 0) == DEFAULT && GlobalAt(items, 1) == DEFAULT;
    assert GlobalAt(items, 2).usagePage == Some(1);
    assert UsageAt(items, 1) == None && UsageAt(items, 2) == None && UsageAt(items, 3) == Some((1, 2));
    assert Opens(items, 1) == 0 && Opens(items, 2) == 0 && Opens(items, 3) == 0;
    ApplicationOwner(items, 3);
  }

  lemma ShortItem(state: State, prefix: u8, value: u8)
    requires prefix % 4 == 1
    ensures var item := Item(prefix, [value]);
            && item.Value() == value
            && (item.Type() == Global ==> Step(state, item) == TakeGlobal(state, item.Tag(), value))
            && (item.Type() == Main ==> Step(state, item) == TakeMain(state, item.Tag(), value))
  {
    assert [value][1..] == [] && Unsigned([]) == 0;
  }

  lemma FoldTwo(state: State, a: Item, b: Item, rest: seq<Item>, state1: State, state2: State)
    requires Step(state, a) == Success(state1) && Step(state1, b) == Success(state2)
    ensures Fold(state, [a, b] + rest) == Fold(state2, rest)
  {
    var tail := [b] + rest;
    assert [a, b] + rest == [a] + tail;
    assert Fold(state, [a] + tail) == Fold(state1, tail) by {
      FoldFirst(state, a, tail);
    }
    FoldFirst(state1, b, rest);
  }

  /** The states that the fold goes through on those items. */
  const PAGED: State := INITIAL.(global := DEFAULT.(usagePage := Some(1)))
  const OPENED: State := PAGED.(collectionStack := [Some((1, 2))])
  const SIZED: State := OPENED.(global := GlobalState(Some(1), Some(8), Some(1), 0))
  const CLOSED: State := State(SIZED.global, [], [], None, map[0 := 8], {(1, 2)}, false)

  lemma FirstFour(rest: seq<Item>)
    ensures Fold(INITIAL, [Item(0x09, [1]), Item(0x05, [1])] + ([Item(0x09, [2]), Item(0xa1, [1])] + rest)) == Fold(OPENED, rest)
  {
    assert Unsigned([]) == 0 && Unsigned([1]) == 1 && Unsigned([2]) == 2;
    ShortItem(INITIAL, 0x05, 1);
    FoldTwo(INITIAL, Item(0x09, [1]), Item(0x05, [1]), [Item(0x09, [2]), Item(0xa1, [1])] + rest, INITIAL, PAGED);
    var used := PAGED.(localUsage := Some((1, 2)));
    ShortItem(used, 0xa1, 1);
    assert [] + [Some((1, 2))] == OPENED.collectionStack;
    assert TakeMain(used, 10, 1) == Success(OPENED);
    FoldTwo(PAGED, Item(0x09, [2]), Item(0xa1, [1]), rest, used, OPENED);
  }

  lemma SizeAndCount(rest: seq<Item>)
    ensures Fold(OPENED, [Item(0x75, [8]), Item(0x95, [1])] + rest) == Fold(SIZED, rest)
  {
    var half := OPENED.(global := SIZED.global.(reportCount := None));
    ShortItem(OPENED, 0x75, 8);
    ShortItem(half, 0x95, 1);
    FoldTwo(OPENED, Item(0x75, [8]), Item(0x95, [1]), rest, half, SIZED);
  }

  lemma OneReport()
    ensures WithinLimits(map[]) && WithinLimits(map[0 := 8])
    ensures Total(map[], SIZED.global) == 8 && FieldBits(SIZED.global) == 8
    ensures SIZED.featureBits[0 := 8] == map[0 := 8]
  {
    var bits: map<u8, nat> := map[0 := 8];
    assert |bits| == |bits.Keys| && bits.Keys == {0};
  }

  lemma FeatureTaken()
    ensures Step(SIZED, Item(0xb1, [2])) == Success(SIZED.(featureBits := map[0 := 8], featureUsages := {(1, 2)}))
  {
    ShortItem(SIZED, 0xb1, 2);
    OneReport();
    assert {} + {(1, 2)} == {(1, 2)};
    TakesFeature(SIZED);
  }

  lemma EndTaken(state: State)
    requires |state.collectionStack| == 1
    ensures Step(state, Item(0xc0, [])) == Success(state.(collectionStack := [], localUsage := None))
  {
    assert Unsigned([]) == 0;
    assert Step(state, Item(0xc0, [])) == TakeMain(state, 12, 0);
  }

  lemma FeatureAndEnd()
    ensures Fold(SIZED, [Item(0xb1, [2]), Item(0xc0, [])] + []) == Success(CLOSED)
  {
    var declared := SIZED.(featureBits := map[0 := 8], featureUsages := {(1, 2)});
    FeatureTaken();
    EndTaken(declared);
    FoldTwo(SIZED, Item(0xb1, [2]), Item(0xc0, []), [], declared, CLOSED);
  }

  lemma SecondUsageFolds()
    ensures Fold(INITIAL, SECOND_USAGE) == Success(CLOSED)
  {
    var last := [Item(0xb1, [2]), Item(0xc0, [])] + [];
    var later := [Item(0x75, [8]), Item(0x95, [1])] + last;
    FirstFour(later);
    SizeAndCount(last);
    FeatureAndEnd();
    assert SECOND_USAGE == [Item(0x09, [1]), Item(0x05, [1])] + ([Item(0x09, [2]), Item(0xa1, [1])] + later);
  }

  /** And that is what its bytes parse to. */
  lemma SecondUsageIsReported()
    ensures Meaning(Serialise(SECOND_USAGE)) == Success(ParsedDescriptor([Geometry(0, 1)], Some((1, 2))))
  {
    SecondUsageIsWellFormed();
    SecondUsageFolds();
    MeaningOfSerialised(SECOND_USAGE, CLOSED);
    ClosedFinishes();
  }

  lemma MeaningOfSerialised(items: seq<Item>, state: State)
    requires AllWellFormed(items) && Fold(INITIAL, items) == Success(state)
    ensures Meaning(Serialise(items)) == Finish(state)
  {
    TokeniseSerialise(items);
  }

  lemma ClosedFinishes()
    ensures Finish(CLOSED) == Success(ParsedDescriptor([Geometry(0, 1)], Some((1, 2))))
  {
    OnlyReportZero(CLOSED.featureBits, 256);
    assert |CLOSED.featureUsages| == 1 && Only(CLOSED.featureUsages) in CLOSED.featureUsages;
  }

  lemma {:induction false} OnlyReportZero(bits: map<u8, nat>, below: nat)
    requires bits == map[0 := 8] && 1 <= below <= 256
    ensures Reports(bits, below) == [Geometry(0, 1)]
  {
    if below > 1 {
      OnlyReportZero(bits, below - 1);
    } else {
      assert Reports(bits, 0) == [];
    }
  }

  // ---------------------------------------------------------- the parser

  /** What is left to do with `state` and the bytes after it. */
  function Onward(state: State, rest: seq<u8>): Result<ParsedDescriptor, ErrorClass>
    decreases |rest|
  {
    if rest == [] then Finish(state)
    else
      var next := NextItem(rest);
      if next.None? then Failure(InvalidValue)
      else
        var r := Step(state, next.value.0);
        if r.Failure? then Failure(r.error) else Onward(r.value, next.value.1)
  }

  lemma {:induction false} FoldFirst(state: State, item: Item, items: seq<Item>)
    ensures var r := Step(state, item);
            Fold(state, [item] + items) == if r.Failure? then r else Fold(r.value, items)
    decreases |items|
  {
    var all := [item] + items;
    if items == [] {
      assert all[..0] == [];
    } else {
      FoldFirst(state, item, items[..|items| - 1]);
      assert all[..|all| - 1] == [item] + items[..|items| - 1];
    }
  }

  /** Going on item by item comes to cutting first and folding then. */
  lemma {:induction false} OnwardIsFold(state: State, rest: seq<u8>)
    ensures var (items, complete) := Tokenise(rest);
            var r := Fold(state, items);
            Onward(state, rest) == if r.Failure? then Failure(r.error)
                                   else if !complete then Failure(InvalidValue)
                                   else Finish(r.value)
    decreases |rest|
  {
    if rest != [] && NextItem(rest).Some? {
      var (item, after) := NextItem(rest).value;
      var r := Step(state, item);
      FoldFirst(state, item, Tokenise(after).0);
      if r.Success? {
        OnwardIsFold(r.value, after);
      }
    }
  }

  /** The state of the loop, updated in place item by item. */
  class DescriptorParser {
    var global: GlobalState
    var globalStack: seq<GlobalState>
    var collectionStack: seq<Option<Usage>>
    var localUsage: Option<Usage>
    var featureBits: map<u8, nat>
    var featureUsages: set<Usage>
    var featureWithoutUsage: bool

    constructor ()
      ensures Seen() == INITIAL
    {
      global := DEFAULT;
      globalStack := [];
      collectionStack := [];
      localUsage := None;
      featureBits := map[];
      featureUsages := {};
      featureWithoutUsage := false;
    }

    ghost function Seen(): State
      reads this
    {
      State(global, globalStack, collectionStack, localUsage, featureBits, featureUsages, featureWithoutUsage)
    }

    method TakeGlobalItem(tag: nat, value: nat) returns (r: Outcome<ErrorClass>)
      modifies this
      ensures TakeGlobal(old(Seen()), tag, value) == if r.Pass? then Success(Seen()) else Failure(r.error)
    {
      r := Pass;
      match tag
      case 0 =>
        if value > 0xffff {
          return Fail(InvalidValue);
        }
        global := global.(usagePage := Some(value));
      case 7 =>
        global := global.(reportSize := Some(value));
      case 8 =>
        if value > 0xff || value == 0 {
          return Fail(InvalidValue);
        }
        global := global.(reportId := value);
      case 9 =>
        global := global.(reportCount := Some(value));
      case 10 =>
        if |globalStack| == MAX_STACK_DEPTH {
          return Fail(Oversize);
        }
        globalStack := globalStack + [global];
      case 11 =>
        if globalStack == [] {
          return Fail(InvalidValue);
        }
        global := globalStack[|globalStack| - 1];
        globalStack := globalStack[..|globalStack| - 1];
      case _ =>
    }

    method TakeFeatureItem() returns (r: Outcome<ErrorClass>)
      modifies this
      ensures TakeFeature(old(Seen())) == if r.Pass? then Success(Seen()) else Failure(r.error)
    {
      if global.reportSize.None? || global.reportCount.None? {
        return Fail(InvalidValue);
      }
      var bits := global.reportSize.value * global.reportCount.value;
      if bits == 0 {
        return Fail(InvalidValue);
      }
      var total := (if global.reportId in featureBits then featureBits[global.reportId] else 0) + bits;
      if total > U64_MAX {
        return Fail(Oversize);
      }
      featureBits := featureBits[global.reportId := total];
      if |featureBits| > MAX_FEATURE_REPORTS {
        return Fail(Oversize);
      }
      var usage := Innermost(collectionStack);
      if usage.Some? {
        featureUsages := featureUsages + {usage.value};
      } else {
        featureWithoutUsage := true;
        assert featureUsages + {} == featureUsages;
      }
      localUsage := None;
      r := Pass;
    }

    method TakeMainItem(tag: nat, value: nat) returns (r: Outcome<ErrorClass>)
      modifies this
      ensures TakeMain(old(Seen()), tag, value) == if r.Pass? then Success(Seen()) else Failure(r.error)
    {
      r := Pass;
      match tag
      case 10 =>
        if |collectionStack| == MAX_STACK_DEPTH {
          return Fail(Oversize);
        }
        var parent := Innermost(collectionStack);
        collectionStack := collectionStack + [if value == 1 && parent.None? then localUsage else parent];
        localUsage := None;
      case 12 =>
        if collectionStack == [] {
          return Fail(InvalidValue);
        }
        collectionStack := collectionStack[..|collectionStack| - 1];
        localUsage := None;
      case 11 =>
        r := TakeFeatureItem();
      case _ =>
        localUsage := None;
    }

    method Take(item: Item) returns (r: Outcome<ErrorClass>)
      modifies this
      ensures Step(old(Seen()), item) == if r.Pass? then Success(Seen()) else Failure(r.error)
    {
      r := Pass;
      match item.Type()
      case Global =>
        r := TakeGlobalItem(item.Tag(), item.Value());
      case Main =>
        r := TakeMainItem(item.Tag(), item.Value());
      case Local =>
        if item.Tag() == 0 && localUsage.None? {
          localUsage := UsageFromItem(global.usagePage, item.data);
        }
      case Reserved =>
    }

    method Conclude() returns (r: Result<ParsedDescriptor, ErrorClass>)
      ensures r == Finish(Seen())
    {
      if globalStack != [] || collectionStack != [] {
        return Failure(InvalidValue);
      }
      var featureReports: seq<Geometry> := [];
      for id := 0 to 256
        invariant featureReports == Reports(featureBits, id)
        invariant forall other | other in featureBits && other < id ::
                    ReportBytes(other, featureBits[other]) <= MAX_FEATURE_REPORT_BYTES
      {
        if id in featureBits {
          var reportBytes := ReportBytes(id, featureBits[id]);
          if reportBytes > MAX_FEATURE_REPORT_BYTES {
            return Failure(Oversize);
          }
          featureReports := featureReports + [Geometry(id, reportBytes)];
        }
      }
      var applicationUsage := None;
      if !featureWithoutUsage && |featureUsages| == 1 {
        var usage := Only(featureUsages);
        applicationUsage := Some(usage);
      }
      r := Success(ParsedDescriptor(featureReports, applicationUsage));
    }
  }

  /** The item at `offset` and where it ends. */
  function ItemAt(bytes: seq<u8>, offset: nat): (r: Option<(Item, nat)>)
    requires offset < |bytes|
    ensures r.Some? ==> offset < r.value.1 <= |bytes|
  {
    var end := offset + 1 + DataSize(bytes[offset]);
    if bytes[offset] == LONG_ITEM || end > |bytes| then None
    else Some((Item(bytes[offset], bytes[offset + 1..end]), end))
  }

  lemma NextItemAt(bytes: seq<u8>, offset: nat)
    requires offset < |bytes|
    ensures var item, next := ItemAt(bytes, offset), NextItem(bytes[offset..]);
            if item.None? then next.None? else next == Some((item.value.0, bytes[item.value.1..]))
  {
    var rest, size := bytes[offset..], DataSize(bytes[offset]);
    if NextItem(rest).Some? {
      assert rest[1..1 + size] == bytes[offset + 1..offset + 1 + size];
      assert rest[1 + size..] == bytes[offset + 1 + size..];
    }
  }

  /** One turn of the loop, in terms of what is left to do. */
  lemma OnwardStep(state: State, bytes: seq<u8>, offset: nat, r: Result<State, ErrorClass>)
    requires offset < |bytes| && ItemAt(bytes, offset).Some? && r == Step(state, ItemAt(bytes, offset).value.0)
    ensures Onward(state, bytes[offset..]) ==
            if r.Failure? then Failure(r.error) else Onward(r.value, bytes[ItemAt(bytes, offset).value.1..])
  {
    NextItemAt(bytes, offset);
  }

  method LexItem(bytes: seq<u8>, offset: nat) returns (item: Option<(Item, nat)>)
    requires offset < |bytes|
    ensures item == ItemAt(bytes, offset)
  {
    var prefix := bytes[offset];
    var start := offset + 1;
    if prefix == LONG_ITEM {
      return None;
    }
    var end := start + DataSize(prefix);
    if end > |bytes| {
      return None;
    }
    item := Some((Item(prefix, bytes[start..end]), end));
  }

  /** Takes the item at `offset`; what is left to do means the same as before. */
  method TakeNext(parser: DescriptorParser, bytes: seq<u8>, offset: nat) returns (r: Outcome<ErrorClass>, next: nat)
    requires offset < |bytes|
    modifies parser
    ensures r.Pass? ==> offset < next <= |bytes|
    ensures old(Onward(parser.Seen(), bytes[offset..])) ==
            if r.Pass? then Onward(parser.Seen(), bytes[next..]) else Failure(r.error)
  {
    ghost var state := parser.Seen();
    NextItemAt(bytes, offset);
    var item := LexItem(bytes, offset);
    if item.None? {
      return Fail(InvalidValue), offset;
    }
    next := item.value.1;
    r := parser.Take(item.value.0);
    OnwardStep(state, bytes, offset, if r.Pass? then Success(parser.Seen()) else Failure(r.error));
  }

  method ParseReportDescriptor(bytes: seq<u8>) returns (r: Result<ParsedDescriptor, ErrorClass>)
    ensures r == Meaning(bytes)
  {
    var offset := 0;
    var parser := new DescriptorParser();
    ghost var meaning := Meaning(bytes);
    OnwardIsFold(INITIAL, bytes);
    assert bytes[0..] == bytes;
    while offset < |bytes|
      invariant 0 <= offset <= |bytes|
      invariant meaning == Onward(parser.Seen(), bytes[offset..])
    {
      var taken, next := TakeNext(parser, bytes, offset);
      if taken.Fail? {
        return Failure(taken.error);
      }
      offset := next;
    }
    r := parser.Conclude();
  }
}
