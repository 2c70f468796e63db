/**
  What the report-descriptor parser makes of whole descriptors, stated on their
  bytes: every byte of a page, a usage, a size, a count or an ID is left open.
*/
module DescriptorBytes {
  import opened Wrappers
  import opened HidItems
  import opened HidDescriptor

  /** The item at the front goes first. */
  lemma OnwardItem(state: State, item: Item, rest: seq<u8>)
    requires item.WellFormed()
    ensures var r := Step(state, item);
            Onward(state, [item.prefix] + item.data + rest) == if r.Failure? then Failure(r.error) else Onward(r.value, rest)
  {
    var bytes := [item.prefix] + item.data + rest;
    assert bytes[1..1 + |item.data|] == item.data && bytes[1 + |item.data|..] == rest;
    assert NextItem(bytes) == Some((item, rest));
  }

  lemma OnwardGlobal(state: State, item: Item, rest: seq<u8>, global: GlobalState)
    requires item.WellFormed() && item.Type() == Global
    requires TakeGlobal(state, item.Tag(), item.Value()) == Success(state.(global := global))
    ensures Onward(state, [item.prefix] + item.data + rest) == Onward(state.(global := global), rest)
  {
    OnwardItem(state, item, rest);
  }

  lemma OnwardMeans(bytes: seq<u8>)
    ensures Meaning(bytes) == Onward(INITIAL, bytes)
  {
    OnwardIsFold(INITIAL, bytes);
  }

  /** Little endian. */
  function TwoBytes(low: u8, high: u8): nat {
    low as nat + 256 * high as nat
  }

  /** Push, Pop and End Collection carry nothing. */
  lemma EmptyItems()
    ensures var push := Item(0xa4, []); push.WellFormed() && push.Type() == Global && push.Tag() == 10
    ensures var pop := Item(0xb4, []); pop.WellFormed() && pop.Type() == Global && pop.Tag() == 11
    ensures var end := Item(0xc0, []); end.WellFormed() && end.Type() == Main && end.Tag() == 12
  {
  }

  /** Usage Page, Usage and an Application collection are behind it. */
  function Opened(usage: Usage, page: nat): State {
    State(DEFAULT.(usagePage := Some(page)), [], [Some(usage)], None, map[], {}, false)
  }

  lemma PageIsTaken(lo: u8, hi: u8, rest: seq<u8>)
    ensures Meaning([0x06] + [lo, hi] + rest) == Onward(INITIAL.(global := DEFAULT.(usagePage := Some(TwoBytes(lo, hi)))), rest)
  {
    UnsignedIs([lo, hi]);
    OnwardGlobal(INITIAL, Item(0x06, [lo, hi]), rest, DEFAULT.(usagePage := Some(TwoBytes(lo, hi))));
    OnwardMeans([0x06] + [lo, hi] + rest);
  }

  lemma UsageIsTaken(state: State, item: Item, usage: Usage, rest: seq<u8>)
    requires item.WellFormed() && item.Type() == Local && item.Tag() == 0 && state.localUsage == None
    requires UsageFromItem(state.global.usagePage, item.data) == Some(usage)
    ensures Onward(state, [item.prefix] + item.data + rest) == Onward(state.(localUsage := Some(usage)), rest)
  {
    OnwardItem(state, item, rest);
  }

  lemma ApplicationOpens(state: State, usage: Usage, rest: seq<u8>)
    requires state.localUsage == Some(usage) && state.collectionStack == []
    ensures Onward(state, [0xa1] + [1] + rest) == Onward(state.(collectionStack := [Some(usage)], localUsage := None), rest)
  {
    UnsignedIs([1]);
    OnwardItem(state, Item(0xa1, [1]), rest);
    assert Item(0xa1, [1]).Type() == Main && Item(0xa1, [1]).Tag() == 10;
    assert [] + [Some(usage)] == [Some(usage)];
  }

  lemma PageOpens(lo: u8, hi: u8, page: nat, item: Item, usage: Usage, rest: seq<u8>)
    requires item.WellFormed() && item.Type() == Local && item.Tag() == 0 && page == TwoBytes(lo, hi)
    requires UsageFromItem(Some(page), item.data) == Some(usage)
    ensures Meaning([0x06] + [lo, hi] + ([item.prefix] + item.data + ([0xa1] + [1] + rest))) == Onward(Opened(usage, page), rest)
  {
    var paged := INITIAL.(global := DEFAULT.(usagePage := Some(page)));
    PageIsTaken(lo, hi, [item.prefix] + item.data + ([0xa1] + [1] + rest));
    UsageIsTaken(paged, item, usage, [0xa1] + [1] + rest);
    ApplicationOpens(paged.(localUsage := Some(usage)), usage, rest);
  }

  /** What a Feature item adds right inside one collection of a usage. */
  function Declared(state: State, usage: Usage): State {
    state.(featureBits := state.featureBits[state.global.reportId := Total(state.featureBits, state.global)],
           featureUsages := state.featureUsages + {usage}, localUsage := None)
  }

  lemma FeatureDeclares(state: State, usage: Usage)
    requires state.collectionStack == [Some(usage)] && !state.featureWithoutUsage && |state.featureBits| < MAX_FEATURE_REPORTS
    requires Total(state.featureBits, state.global) <= U64_MAX && FieldBits(state.global) != 0
    ensures TakeFeature(state) == Success(Declared(state, usage))
  {
    MapGrowsByOne(state.featureBits, state.global.reportId, Total(state.featureBits, state.global));
    assert Innermost(state.collectionStack) == Some(usage);
  }

  lemma FeatureInside(state: State, usage: Usage, rest: seq<u8>)
    requires state.collectionStack == [Some(usage)] && !state.featureWithoutUsage && |state.featureBits| < MAX_FEATURE_REPORTS
    requires Total(state.featureBits, state.global) <= U64_MAX
    ensures Onward(state, [0xb1] + [2] + rest) ==
            if FieldBits(state.global) == 0 then Failure(InvalidValue) else Onward(Declared(state, usage), rest)
  {
    var item := Item(0xb1, [2]);
    OnwardItem(state, item, rest);
    assert item.Type() == Main && item.Tag() == 11;
    assert Step(state, item) == TakeFeature(state);
    if FieldBits(state.global) != 0 {
      FeatureDeclares(state, usage);
    }
  }

  lemma MapGrowsByOne(bits: map<u8, nat>, id: u8, total: nat)
    ensures |bits[id := total]| <= |bits| + 1
  {
    assert bits[id := total].Keys == bits.Keys + {id};
  }

  lemma EndInside(state: State, rest: seq<u8>)
    requires |state.collectionStack| == 1
    ensures Onward(state, [0xc0] + [] + rest) == Onward(state.(collectionStack := [], localUsage := None), rest)
  {
    EmptyItems();
    OnwardItem(state, Item(0xc0, []), rest);
    assert Step(state, Item(0xc0, [])) == Success(state.(collectionStack := [], localUsage := None));
  }

  lemma {:induction false} ReportsOfOne(bits: map<u8, nat>, below: nat)
    requires bits.Keys == {0} && 1 <= below <= 256
    ensures Reports(bits, below) == [Geometry(0, (bits[0] + 7) / 8)]
    decreases below
  {
    if below > 1 {
      ReportsOfOne(bits, below - 1);
    } else {
      assert Reports(bits, 0) == [];
    }
  }

  lemma {:induction false} ReportsOfTwo(bits: map<u8, nat>, id: u8, below: nat)
    requires bits.Keys == {0, id} && id > 0 && 1 <= below <= 256
    ensures Reports(bits, below) ==
            [Geometry(0, (bits[0] + 7) / 8)] + if below > id as nat then [Geometry(id, (bits[id] + 7) / 8 + 1)] else []
    decreases below
  {
    if below > 1 {
      ReportsOfTwo(bits, id, below - 1);
    } else {
      assert Reports(bits, 0) == [];
    }
  }

  lemma SingleUsage(usage: Usage)
    ensures |{usage}| == 1 && Only({usage}) == usage
  {
    assert Only({usage}) in {usage};
  }

  /** Report size and a two-byte report count. */
  lemma SizeAndLongCount(state: State, s: u8, c0: u8, c1: u8, rest: seq<u8>)
    ensures Onward(state, [0x75] + [s] + ([0x96] + [c0, c1] + rest))
         == Onward(state.(global := state.global.(reportSize := Some(s as nat), reportCount := Some(TwoBytes(c0, c1)))), rest)
  {
    UnsignedIs([s]);
    var sized := state.global.(reportSize := Some(s as nat));
    OnwardGlobal(state, Item(0x75, [s]), [0x96] + [c0, c1] + rest, sized);
    LongCountIsTaken(state.(global := sized), c0, c1, rest);
  }

  lemma ProductIsBounded(a: nat, b: nat)
    requires a <= 0xff && b <= 0xffff
    ensures a * b <= 0xffff_ffff
  {
    ProductGrows(a, b, 0xffff);
  }

  /** The size, the count, one Feature item and the end of the collection. */
  function SizedFeature(s: u8, c0: u8, c1: u8): seq<u8> {
    [0x75] + [s] + ([0x96] + [c0, c1] + ([0xb1] + [2] + ([0xc0] + [] + [])))
  }

  /** One report without an ID, of so many bits. */
  function OneReportOf(bits: nat, usage: Usage): Result<ParsedDescriptor, ErrorClass> {
    if bits == 0 then Failure(InvalidValue)
    else if (bits + 7) / 8 > 4096 then Failure(Oversize)
    else Success(ParsedDescriptor([Geometry(0, (bits + 7) / 8)], Some(usage)))
  }

  /** One report of `count` fields, each of `size` bits. */
  function FieldsReport(size: nat, count: nat, usage: Usage): Result<ParsedDescriptor, ErrorClass> {
    OneReportOf(size * count, usage)
  }

  lemma SizesAreTaken(page: nat, usage: Usage, s: u8, c0: u8, c1: u8, count: nat, rest: seq<u8>)
    requires count == TwoBytes(c0, c1)
    ensures Onward(Opened(usage, page), [0x75] + [s] + ([0x96] + [c0, c1] + rest))
         == Onward(Sized(usage, page, s as nat, count), rest)
  {
    SizeAndLongCount(Opened(usage, page), s, c0, c1, rest);
  }

  lemma SizedFeatureMeans(page: nat, usage: Usage, s: u8, c0: u8, c1: u8, count: nat)
    requires count == TwoBytes(c0, c1)
    ensures Onward(Opened(usage, page), SizedFeature(s, c0, c1)) == FieldsReport(s as nat, count, usage)
  {
    SizesAreTaken(page, usage, s, c0, c1, count, [0xb1] + [2] + ([0xc0] + [] + []));
    SizedMeans(usage, page, s as nat, count);
  }

  lemma SizedMeans(usage: Usage, page: nat, size: nat, count: nat)
    requires size <= 0xff && count <= 0xffff
    ensures Onward(Sized(usage, page, size, count), [0xb1] + [2] + ([0xc0] + [] + [])) == FieldsReport(size, count, usage)
  {
    SizedBits(usage, page, size, count);
    FeatureThenEnd(Sized(usage, page, size, count), usage);
  }

  /** Report Size and Report Count are behind it as well. */
  function Sized(usage: Usage, page: nat, size: nat, count: nat): State {
    State(GlobalState(Some(page), Some(size), Some(count), 0), [], [Some(usage)], None, map[], {}, false)
  }

  lemma SizedBits(usage: Usage, page: nat, size: nat, count: nat)
    requires size <= 0xff && count <= 0xffff
    ensures FieldBits(Sized(usage, page, size, count).global) == size * count <= 0xffff_ffff
  {
    ProductIsBounded(size, count);
  }

  lemma FeatureThenEnd(state: State, usage: Usage)
    requires state.globalStack == [] && state.collectionStack == [Some(usage)] && !state.featureWithoutUsage
    requires state.featureBits == map[] && state.featureUsages == {}
    requires state.global.reportId == 0 && FieldBits(state.global) <= U64_MAX
    ensures Onward(state, [0xb1] + [2] + ([0xc0] + [] + [])) == OneReportOf(FieldBits(state.global), usage)
  {
    FeatureInside(state, usage, [0xc0] + [] + []);
    if FieldBits(state.global) != 0 {
      var declared := Declared(state, usage);
      assert declared.featureBits == map[0 := FieldBits(state.global)] && declared.featureUsages == {usage};
      EndInside(declared, []);
      FinishesWithOne(declared.(collectionStack := [], localUsage := None), FieldBits(state.global), usage);
    }
  }

  lemma FinishesWithOne(state: State, bits: nat, usage: Usage)
    requires state.globalStack == [] && state.collectionStack == [] && !state.featureWithoutUsage
    requires state.featureBits == map[0 := bits] && state.featureUsages == {usage} && bits != 0
    ensures Finish(state) == OneReportOf(bits, usage)
  {
    ReportsOfOne(state.featureBits, 256);
    SingleUsage(usage);
  }

  /** Every byte of a small descriptor counts where it belongs: whatever the
      bytes of the page, the usage, the size and the count are, that page and
      usage and a report of that many bits come out, or the error that is due. */
  lemma PageSizeAndCount(lo: u8, hi: u8, page: nat, u: u8, s: u8, c0: u8, c1: u8, count: nat)
    requires page == TwoBytes(lo, hi) && count == TwoBytes(c0, c1)
    ensures Meaning([0x06, lo, hi, 0x09, u, 0xa1, 1, 0x75, s, 0x96, c0, c1, 0xb1, 2, 0xc0])
         == FieldsReport(s as nat, count, (page, u as nat))
  {
    SmallBytes(lo, hi, u, s, c0, c1);
    UnsignedIs([u]);
    PageOpens(lo, hi, page, Item(0x09, [u]), (page, u as nat), SizedFeature(s, c0, c1));
    SizedFeatureMeans(page, (page, u as nat), s, c0, c1, count);
  }

  lemma SmallBytes(lo: u8, hi: u8, u: u8, s: u8, c0: u8, c1: u8)
    ensures [0x06, lo, hi, 0x09, u, 0xa1, 1, 0x75, s, 0x96, c0, c1, 0xb1, 2, 0xc0]
        == [0x06] + [lo, hi] + ([0x09] + [u] + ([0xa1] + [1] + SizedFeature(s, c0, c1)))
  {
  }

  /** A Usage of four bytes brings its own page in the upper half, unless that is zero. */
  function LongUsage(page: nat, low: nat, high: nat): Usage {
    if high != 0 then (high, low) else (page, low)
  }

  lemma LongUsageResolves(page: nat, u0: u8, u1: u8, u2: u8, u3: u8)
    ensures UsageFromItem(Some(page), [u0, u1, u2, u3]) == Some(LongUsage(page, TwoBytes(u0, u1), TwoBytes(u2, u3)))
  {
    LongValue(u0, u1, u2, u3);
    Halves(Unsigned([u0, u1, u2, u3]), TwoBytes(u0, u1), TwoBytes(u2, u3));
  }

  lemma LongValue(u0: u8, u1: u8, u2: u8, u3: u8)
    ensures Unsigned([u0, u1, u2, u3]) == TwoBytes(u2, u3) * 0x1_0000 + TwoBytes(u0, u1)
    ensures TwoBytes(u0, u1) < 0x1_0000
  {
    UnsignedIs([u0, u1, u2, u3]);
  }

  lemma Halves(value: nat, low: nat, high: nat)
    requires value == high * 0x1_0000 + low && low < 0x1_0000
    ensures value / 0x1_0000 == high && value % 0x1_0000 == low && (value > 0xffff <==> high != 0)
  {
    QuotientIs(value, 0x1_0000, high, low);
  }

  /** A report with an ID and one without, of so many bits each. */
  function TwoReportsOf(id: u8, numbered: nat, plain: nat, usage: Usage): Result<ParsedDescriptor, ErrorClass> {
    if id == 0 || numbered == 0 || plain == 0 then Failure(InvalidValue)
    else if (numbered + 7) / 8 + 1 > 4096 || (plain + 7) / 8 > 4096 then Failure(Oversize)
    else Success(ParsedDescriptor([Geometry(0, (plain + 7) / 8), Geometry(id, (numbered + 7) / 8 + 1)], Some(usage)))
  }

  /** The first of `other` fields and the second of `count`, each field of `size` bits. */
  function TwoFieldsReports(id: u8, size: nat, other: nat, count: nat, usage: Usage): Result<ParsedDescriptor, ErrorClass> {
    TwoReportsOf(id, size * other, size * count, usage)
  }

  /** Push, a Report ID and another count, a Feature item, Pop, a Feature item
      and the end of the collection. */
  function NumberedFeature(id: u8, c0: u8, c1: u8): seq<u8> {
    [0xa4] + [] + ([0x85] + [id] + ([0x96] + [c0, c1] + ([0xb1] + [2] + PoppedFeature())))
  }

  function PoppedFeature(): seq<u8> {
    [0xb4] + [] + ([0xb1] + [2] + ([0xc0] + [] + []))
  }

  /** After the Push, with the ID and the other count. */
  function Numbered(usage: Usage, page: nat, size: nat, count: nat, id: u8, other: nat): State {
    State(GlobalState(Some(page), Some(size), Some(other), id), [GlobalState(Some(page), Some(size), Some(count), 0)],
          [Some(usage)], None, map[], {}, false)
  }

  lemma PushKeeps(state: State, rest: seq<u8>)
    requires state.globalStack == []
    ensures Onward(state, [0xa4] + [] + rest) == Onward(state.(globalStack := [state.global]), rest)
  {
    EmptyItems();
    OnwardItem(state, Item(0xa4, []), rest);
    assert [] + [state.global] == [state.global];
    assert Step(state, Item(0xa4, [])) == Success(state.(globalStack := [state.global]));
  }

  lemma IdIsTaken(state: State, id: u8, rest: seq<u8>)
    ensures Onward(state, [0x85] + [id] + rest) ==
            if id == 0 then Failure(InvalidValue) else Onward(state.(global := state.global.(reportId := id)), rest)
  {
    UnsignedIs([id]);
    OnwardItem(state, Item(0x85, [id]), rest);
    assert Item(0x85, [id]).Type() == Global && Item(0x85, [id]).Tag() == 8;
  }

  lemma LongCountIsTaken(state: State, c0: u8, c1: u8, rest: seq<u8>)
    ensures Onward(state, [0x96] + [c0, c1] + rest)
         == Onward(state.(global := state.global.(reportCount := Some(TwoBytes(c0, c1)))), rest)
  {
    UnsignedIs([c0, c1]);
    OnwardGlobal(state, Item(0x96, [c0, c1]), rest, state.global.(reportCount := Some(TwoBytes(c0, c1))));
  }

  lemma PushAndNumber(usage: Usage, page: nat, size: nat, count: nat, id: u8, c0: u8, c1: u8, other: nat, rest: seq<u8>)
    requires other == TwoBytes(c0, c1)
    ensures Onward(Sized(usage, page, size, count), [0xa4] + [] + ([0x85] + [id] + ([0x96] + [c0, c1] + rest))) ==
            if id == 0 then Failure(InvalidValue) else Onward(Numbered(usage, page, size, count, id, other), rest)
  {
    var counted := [0x96] + [c0, c1] + rest;
    var pushed := Numbered(usage, page, size, count, 0, count);
    PushKeeps(Sized(usage, page, size, count), [0x85] + [id] + counted);
    IdIsTaken(pushed, id, counted);
    LongCountIsTaken(Numbered(usage, page, size, count, id, count), c0, c1, rest);
  }

  lemma PopBringsBack(state: State, global: GlobalState, rest: seq<u8>)
    requires state.globalStack == [global]
    ensures Onward(state, [0xb4] + [] + rest) == Onward(state.(global := global, globalStack := []), rest)
  {
    EmptyItems();
    OnwardItem(state, Item(0xb4, []), rest);
    assert [global][..0] == [];
    assert Step(state, Item(0xb4, [])) == Success(state.(global := global, globalStack := []));
  }

  lemma FinishesWithTwo(state: State, id: u8, numbered: nat, plain: nat, usage: Usage)
    requires state.globalStack == [] && state.collectionStack == [] && !state.featureWithoutUsage
    requires state.featureBits == map[id := numbered, 0 := plain] && state.featureUsages == {usage}
    requires id != 0 && numbered != 0 && plain != 0
    ensures Finish(state) == TwoReportsOf(id, numbered, plain, usage)
  {
    var bits := state.featureBits;
    assert bits.Keys == {0, id} && bits[0] == plain && bits[id] == numbered;
    assert ReportBytes(0, plain) == (plain + 7) / 8 && ReportBytes(id, numbered) == (numbered + 7) / 8 + 1;
    assert Fits(bits) <==> ReportBytes(0, bits[0]) <= 4096 && ReportBytes(id, bits[id]) <= 4096 by {
      assert forall k | k in bits :: k in {0, id};
      assert 0 in bits && id in bits;
    }
    ReportsOfTwo(bits, id, 256);
    assert Reports(bits, 256) == [Geometry(0, (plain + 7) / 8), Geometry(id, (numbered + 7) / 8 + 1)];
    SingleUsage(usage);
  }

  /** The Feature item after the Pop belongs to the report without an ID again. */
  lemma PoppedFeatureMeans(state: State, usage: Usage, global: GlobalState, id: u8, numbered: nat)
    requires state.globalStack == [global] && state.collectionStack == [Some(usage)] && !state.featureWithoutUsage
    requires state.featureBits == map[id := numbered] && state.featureUsages == {usage} && id != 0 && numbered != 0
    requires global.reportId == 0 && FieldBits(global) <= U64_MAX
    ensures Onward(state, PoppedFeature()) == TwoReportsOf(id, numbered, FieldBits(global), usage)
  {
    var popped := state.(global := global, globalStack := []);
    PopBringsBack(state, global, [0xb1] + [2] + ([0xc0] + [] + []));
    MapGrowsByOne(map[], id, numbered);
    assert map[][id := numbered] == map[id := numbered];
    assert Total(popped.featureBits, global) == FieldBits(global);
    FeatureInside(popped, usage, [0xc0] + [] + []);
    if FieldBits(global) != 0 {
      var declared := Declared(popped, usage);
      assert declared.featureBits == map[id := numbered, 0 := FieldBits(global)] && declared.featureUsages == {usage};
      EndInside(declared, []);
      FinishesWithTwo(declared.(collectionStack := [], localUsage := None), id, numbered, FieldBits(global), usage);
    }
  }

  lemma NumberedMeans(state: State, usage: Usage, global: GlobalState)
    requires state.globalStack == [global] && state.collectionStack == [Some(usage)] && !state.featureWithoutUsage
    requires state.featureBits == map[] && state.featureUsages == {} && state.global.reportId != 0 && global.reportId == 0
    requires FieldBits(state.global) <= U64_MAX && FieldBits(global) <= U64_MAX
    ensures Onward(state, [0xb1] + [2] + PoppedFeature())
         == TwoReportsOf(state.global.reportId, FieldBits(state.global), FieldBits(global), usage)
  {
    var id, numbered := state.global.reportId, FieldBits(state.global);
    FeatureInside(state, usage, PoppedFeature());
    if numbered != 0 {
      var declared := Declared(state, usage);
      assert declared.featureBits == map[id := numbered] && declared.featureUsages == {usage};
      PoppedFeatureMeans(declared, usage, global, id, numbered);
    }
  }

  lemma NumberedBits(usage: Usage, page: nat, size: nat, count: nat, id: u8, other: nat)
    requires size <= 0xff && count <= 0xffff && other <= 0xffff
    ensures var state := Numbered(usage, page, size, count, id, other);
            && FieldBits(state.global) == size * other <= 0xffff_ffff
            && FieldBits(state.globalStack[0]) == size * count <= 0xffff_ffff
  {
    ProductIsBounded(size, other);
    ProductIsBounded(size, count);
  }

  lemma NumberedFeatureMeans(usage: Usage, page: nat, size: nat, count: nat, id: u8, c0: u8, c1: u8, other: nat)
    requires size <= 0xff && count <= 0xffff && other == TwoBytes(c0, c1)
    ensures Onward(Sized(usage, page, size, count), NumberedFeature(id, c0, c1)) == TwoFieldsReports(id, size, other, count, usage)
  {
    var numbered := Numbered(usage, page, size, count, id, other);
    PushAndNumber(usage, page, size, count, id, c0, c1, other, [0xb1] + [2] + PoppedFeature());
    NumberedBits(usage, page, size, count, id, other);
    if id != 0 {
      NumberedMeans(numbered, usage, numbered.globalStack[0]);
    }
  }

  lemma NumberedInside(page: nat, usage: Usage, s: u8, n0: u8, n1: u8, count: nat, id: u8, c0: u8, c1: u8, other: nat)
    requires count == TwoBytes(n0, n1) && other == TwoBytes(c0, c1)
    ensures Onward(Opened(usage, page), [0x75] + [s] + ([0x96] + [n0, n1] + NumberedFeature(id, c0, c1)))
         == TwoFieldsReports(id, s as nat, other, count, usage)
  {
    SizesAreTaken(page, usage, s, n0, n1, count, NumberedFeature(id, c0, c1));
    NumberedFeatureMeans(usage, page, s as nat, count, id, c0, c1, other);
  }

  lemma LongUsageOpens(lo: u8, hi: u8, page: nat, u0: u8, u1: u8, u2: u8, u3: u8, usage: Usage, rest: seq<u8>)
    requires page == TwoBytes(lo, hi) && usage == LongUsage(page, TwoBytes(u0, u1), TwoBytes(u2, u3))
    ensures Meaning([0x06] + [lo, hi] + ([0x0b] + [u0, u1, u2, u3] + ([0xa1] + [1] + rest))) == Onward(Opened(usage, page), rest)
  {
    LongUsageResolves(page, u0, u1, u2, u3);
    PageOpens(lo, hi, page, Item(0x0b, [u0, u1, u2, u3]), usage, rest);
  }

  /** The same with a Usage of four bytes, a Report ID within Push and Pop, and a
      second Feature item after them. */
  lemma NumberedReport(lo: u8, hi: u8, page: nat, u0: u8, u1: u8, u2: u8, u3: u8, s: u8,
                       n0: u8, n1: u8, count: nat, id: u8, c0: u8, c1: u8, other: nat)
    requires page == TwoBytes(lo, hi) && count == TwoBytes(n0, n1) && other == TwoBytes(c0, c1)
    ensures Meaning([0x06, lo, hi, 0x0b, u0, u1, u2, u3, 0xa1, 1, 0x75, s, 0x96, n0, n1,
                     0xa4, 0x85, id, 0x96, c0, c1, 0xb1, 2, 0xb4, 0xb1, 2, 0xc0])
         == TwoFieldsReports(id, s as nat, other, count, LongUsage(page, TwoBytes(u0, u1), TwoBytes(u2, u3)))
  {
    var usage := LongUsage(page, TwoBytes(u0, u1), TwoBytes(u2, u3));
    var inside := [0x75] + [s] + ([0x96] + [n0, n1] + NumberedFeature(id, c0, c1));
    NumberedBytes(lo, hi, u0, u1, u2, u3, s, n0, n1, id, c0, c1);
    LongUsageOpens(lo, hi, page, u0, u1, u2, u3, usage, inside);
    NumberedInside(page, usage, s, n0, n1, count, id, c0, c1, other);
  }

  lemma NumberedBytes(lo: u8, hi: u8, u0: u8, u1: u8, u2: u8, u3: u8, s: u8, n0: u8, n1: u8, id: u8, c0: u8, c1: u8)
    ensures [0x06, lo, hi, 0x0b, u0, u1, u2, u3, 0xa1, 1, 0x75, s, 0x96, n0, n1,
             0xa4, 0x85, id, 0x96, c0, c1, 0xb1, 2, 0xb4, 0xb1, 2, 0xc0]
         == [0x06] + [lo, hi] + ([0x0b] + [u0, u1, u2, u3] + ([0xa1] + [1] + ([0x75] + [s] + ([0x96] + [n0, n1] + NumberedFeature(id, c0, c1)))))
  {
    NumberedFeatureBytes(id, c0, c1);
  }

  lemma NumberedFeatureBytes(id: u8, c0: u8, c1: u8)
    ensures NumberedFeature(id, c0, c1) == [0xa4, 0x85, id, 0x96, c0, c1, 0xb1, 2, 0xb4, 0xb1, 2, 0xc0]
  {
    assert PoppedFeature() == [0xb4, 0xb1, 2, 0xc0];
  }
}
