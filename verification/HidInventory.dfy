/**
  The passive HID inventory of src/passive_hid.rs: one record per candidate,
  sorted, merged where the public identity is the same, and checked again by the
  receiver. Sorting is the library's: any ordered permutation.
*/
module HidInventory {
  import opened Wrappers
  import opened HidItems
  import opened SortedMerge
  import opened Text
  import Descriptor = HidDescriptor

  const MAX_CANDIDATES: nat := 8
  const MAX_DESCRIPTOR_BYTES: nat := 4096
  const MAX_PAYLOAD_BYTES: nat := 64
  const MAX_TARGETS: nat := 32
  const MAX_DRIVER_BYTES: nat := 64
  const TARGET_LIST: u8 := 0xa1

  datatype Role = Enek5130Lighting | AcerEcHidPowerCandidate | DarfonLightingCandidate
  datatype Bus = I2c | Usb
  datatype Name = Enek5130 | AcerEcHid | DarfonUsbHid

  datatype Identity = Identity(
    bus: Bus, vid: nat, pid: nat, name: Name, interface: Option<u8>, usagePage: Option<nat>, usage: Option<nat>)

  /** An error may carry the number of the system call that failed. */
  datatype Observation<+T> = Seen(value: T) | Absent | Error(errno: Option<int>)

  datatype HidDescriptor = HidDescriptor(bytes: nat, sha256: string, featureReports: seq<Descriptor.Geometry>)

  datatype A1 = A1(requestedBytes: nat, returnedBytes: nat, payloadHex: string, targets: seq<u8>)

  datatype Hid = Hid(
    role: Role, identity: Identity, driver: Observation<string>, descriptor: Observation<HidDescriptor>,
    a1: Option<Observation<A1>>)

  // -------------------------------------------------------------- collection

  /** What one hidraw function answers. */
  datatype Candidate = Candidate(
    bus: nat, vendor: nat, product: nat,
    driver: Answer<string>,
    descriptor: Answer<seq<u8>>,
    feature: Answer<seq<u8>>)               // the answer to a read of report A1

  /** A system call's answer, with the error number the system reports. */
  datatype Answer<+T> = Got(value: T) | Missing | Failed(errno: Option<int>)

  /** Negative numbers are dropped. */
  function IoError(errno: Option<int>): Option<int> {
    if errno.Some? && errno.value < 0 then None else errno
  }

  /** The three devices that are looked for, and nothing else. */
  function Allowlisted(bus: nat, vendor: nat, product: nat): Option<(Role, Identity)> {
    if (bus, vendor, product) == (0x18, 0x0cf2, 0x5130) then
      Some((Enek5130Lighting, Identity(I2c, vendor, product, Enek5130, None, None, None)))
    else if (bus, vendor, product) == (0x18, 0x1025, 0x174b) then
      Some((AcerEcHidPowerCandidate, Identity(I2c, vendor, product, AcerEcHid, None, None, None)))
    else if (bus, vendor, product) == (0x03, 0x0d62, 0xba51) then
      Some((DarfonLightingCandidate, Identity(Usb, vendor, product, DarfonUsbHid, None, None, None)))
    else None
  }

  predicate DriverChar(c: char) {
    'a' <= c <= 'z' || 'A' <= c <= 'Z' || '0' <= c <= '9' || c in {'-', '_', '.'}
  }

  predicate ValidDriver(s: string) {
    1 <= |s| <= MAX_DRIVER_BYTES && forall c | c in s :: DriverChar(c)
  }

  function ReadDriver(driver: Answer<string>): Observation<string> {
    match driver
    case Got(name) => if ValidDriver(name) then Seen(name) else Error(None)
    case Missing => Absent
    case Failed(errno) => Error(IoError(errno))
  }

  /** A descriptor, or the error number of the observation that replaces it. */
  function ReadDescriptor(answer: Answer<seq<u8>>, digest: seq<u8> -> string)
    : Result<(HidDescriptor, Option<Descriptor.Usage>), Option<int>>
  {
    match answer
    case Missing => Failure(None)
    case Failed(errno) => Failure(IoError(errno))
    case Got(bytes) =>
      if bytes == [] || |bytes| > MAX_DESCRIPTOR_BYTES then Failure(None)
      else
        var parsed := Descriptor.Meaning(bytes);
        if parsed.Failure? then Failure(None)
        else Success((HidDescriptor(|bytes|, digest(bytes), parsed.value.featureReports), parsed.value.applicationUsage))
  }

  /** The distinct values of a list, ascending. */
  function Distinct(values: seq<u8>, below: nat): seq<u8>
    requires below <= 256
  {
    if below == 0 then []
    else
      var value: u8 := below - 1;
      Distinct(values, below - 1) + if value in values then [value] else []
  }

  function ParseA1(requestedBytes: nat, payload: seq<u8>): Option<A1> {
    if |payload| < 2 || |payload| > requestedBytes || payload[0] != TARGET_LIST then None
    else
      var count := payload[1];
      if count > MAX_TARGETS || 2 + count > |payload| then None
      else Some(A1(requestedBytes, |payload|, HexBytes(payload), Distinct(payload[2..2 + count], 256)))
  }

  /** The length of report A1 according to the descriptor. */
  function TargetListBytes(reports: seq<Descriptor.Geometry>): Option<nat> {
    if reports == [] then None
    else if reports[0].id == TARGET_LIST then Some(reports[0].bytes)
    else TargetListBytes(reports[1..])
  }

  function ReadA1(requestedBytes: nat, feature: Answer<seq<u8>>): Observation<A1> {
    if !(2 <= requestedBytes <= MAX_PAYLOAD_BYTES) then Error(None)
    else
      match feature
      case Missing => Error(None)
      case Failed(errno) => Error(IoError(errno))
      case Got(payload) =>
        var parsed := ParseA1(requestedBytes, payload);
        if parsed.None? then Error(None) else Seen(parsed.value)
  }

  function Collect(candidate: Candidate, role: Role, identity: Identity, digest: seq<u8> -> string): Hid {
    var read := ReadDescriptor(candidate.descriptor, digest);
    var usage := if read.Success? then read.value.1 else None;
    var identity := if usage.Some?
                    then identity.(usagePage := Some(usage.value.0), usage := Some(usage.value.1)) else identity;
    var descriptor := if read.Success? then Seen(read.value.0) else Error(read.error);
    var a1 :=
      if role != Enek5130Lighting then None
      else if read.Failure? || TargetListBytes(read.value.0.featureReports).None? then Some(Absent)
      else Some(ReadA1(TargetListBytes(read.value.0.featureReports).value, candidate.feature));
    Hid(role, identity, ReadDriver(candidate.driver), descriptor, a1)
  }

  // -------------------------------------------------------------- validation

  predicate ValidIdentity(role: Role, identity: Identity) {
    && (identity.bus, identity.vid, identity.pid, identity.name) ==
         (match role
          case Enek5130Lighting => (I2c, 0x0cf2, 0x5130, Enek5130)
          case AcerEcHidPowerCandidate => (I2c, 0x1025, 0x174b, AcerEcHid)
          case DarfonLightingCandidate => (Usb, 0x0d62, 0xba51, DarfonUsbHid))
    && identity.interface.None? && (identity.usagePage.Some? <==> identity.usage.Some?)
  }

  predicate HexDigest(s: string) {
    |s| == 64 && forall c | c in s :: '0' <= c <= '9' || 'a' <= c <= 'f' || 'A' <= c <= 'F'
  }

  ghost predicate ValidDescriptor(d: HidDescriptor) {
    && 1 <= d.bytes <= MAX_DESCRIPTOR_BYTES && HexDigest(d.sha256)
    && |d.featureReports| <= Descriptor.MAX_FEATURE_REPORTS && Descriptor.Ascending(d.featureReports)
    && forall g | g in d.featureReports :: 1 <= g.bytes <= Descriptor.MAX_FEATURE_REPORT_BYTES
  }

  ghost predicate ValidA1(a1: A1) {
    && 2 <= a1.requestedBytes <= MAX_PAYLOAD_BYTES && 2 <= a1.returnedBytes <= a1.requestedBytes
    && |a1.payloadHex| == 2 * a1.returnedBytes && (forall c | c in a1.payloadHex :: IsHexDigit(c))
    && a1.payloadHex[..2] == "a1" && |a1.targets| <= MAX_TARGETS
    && forall i, j | 0 <= i < j < |a1.targets| :: a1.targets[i] < a1.targets[j]
  }

  predicate ValidErrno<T>(o: Observation<T>) {
    o.Error? && o.errno.Some? ==> o.errno.value >= 0
  }

  ghost predicate ValidHid(h: Hid) {
    && ValidIdentity(h.role, h.identity)
    && ValidErrno(h.driver) && (h.driver.Seen? ==> ValidDriver(h.driver.value))
    && ValidErrno(h.descriptor) && (h.descriptor.Seen? ==> ValidDescriptor(h.descriptor.value))
    && (h.a1.Some? <==> h.role == Enek5130Lighting)
    && (h.a1.Some? ==> ValidErrno(h.a1.value) && (h.a1.value.Seen? ==> ValidA1(h.a1.value.value)))
  }

  /** The record shows `payload`, and its targets are those declared there. */
  ghost predicate Declares(payload: seq<u8>, a1: A1) {
    && a1.payloadHex == HexBytes(payload) && |payload| == a1.returnedBytes >= 2 && 2 + payload[1] <= |payload|
    && forall t: u8 :: t in a1.targets <==> t in payload[2..2 + payload[1]]
  }

  ghost predicate DeclaredTargets(a1: A1) {
    exists payload :: Declares(payload, a1)
  }

  lemma {:induction false} DistinctSpec(values: seq<u8>, below: nat)
    requires below <= 256
    ensures forall t: u8 :: t in Distinct(values, below) <==> t in values && t < below
    ensures forall i, j | 0 <= i < j < |Distinct(values, below)| :: Distinct(values, below)[i] < Distinct(values, below)[j]
  {
    if below > 0 {
      DistinctSpec(values, below - 1);
      var fewer := Distinct(values, below - 1);
      assert forall i | 0 <= i < |fewer| :: fewer[i] in fewer;
    }
  }

  lemma {:induction false} FewDistinct(values: seq<u8>, targets: seq<u8>)
    requires forall t | t in targets :: t in values
    requires forall i, j | 0 <= i < j < |targets| :: targets[i] < targets[j]
    ensures |targets| <= |values|
    decreases |targets|
  {
    if targets != [] {
      var n := |targets| - 1;
      assert targets[n] in targets && targets[n] in values;
      var k :| 0 <= k < |values| && values[k] == targets[n];
      var rest := values[..k] + values[k + 1..];
      forall t | t in targets[..n] ensures t in rest {
        assert t in targets && t in values;
        var j :| 0 <= j < |values| && values[j] == t;
        assert rest[if j < k then j else j - 1] == t;
      }
      FewDistinct(rest, targets[..n]);
    }
  }

  lemma A1IsValid(requestedBytes: nat, payload: seq<u8>)
    requires 2 <= requestedBytes <= MAX_PAYLOAD_BYTES && ParseA1(requestedBytes, payload).Some?
    ensures var a1 := ParseA1(requestedBytes, payload).value;
            ValidA1(a1) && Declares(payload, a1)
  {
    HexBytesPlain(payload);
    HexBytesAt(payload, 0);
    assert HexBytes(payload)[..2] == "a1";
    var declared := payload[2..2 + payload[1]];
    DistinctSpec(declared, 256);
    FewDistinct(declared, Distinct(declared, 256));
  }

  lemma DescriptorIsValid(bytes: Answer<seq<u8>>, digest: seq<u8> -> string)
    requires (forall b :: HexDigest(digest(b))) && ReadDescriptor(bytes, digest).Success?
    ensures ValidDescriptor(ReadDescriptor(bytes, digest).value.0)
  {
    Descriptor.ReportsAreExact(bytes.value);
    var items, reports := Tokenise(bytes.value).0, Descriptor.Meaning(bytes.value).value.featureReports;
    forall g | g in reports ensures 1 <= g.bytes <= Descriptor.MAX_FEATURE_REPORT_BYTES {
      assert Descriptor.Exact(items, g);
    }
  }

  /** Whatever the hardware answers, a collected record is valid, and its A1
      targets are those that the payload declares. */
  lemma CollectedIsValid(candidate: Candidate, digest: seq<u8> -> string)
    requires forall b :: HexDigest(digest(b))
    requires Allowlisted(candidate.bus, candidate.vendor, candidate.product).Some?
    ensures var (role, identity) := Allowlisted(candidate.bus, candidate.vendor, candidate.product).value;
            var h := Collect(candidate, role, identity, digest);
            && ValidHid(h)
            && (h.a1.Some? && h.a1.value.Seen? ==> DeclaredTargets(h.a1.value.value))
  {
    var (role, identity) := Allowlisted(candidate.bus, candidate.vendor, candidate.product).value;
    var read := ReadDescriptor(candidate.descriptor, digest);
    var h := Collect(candidate, role, identity, digest);
    if read.Success? {
      DescriptorIsValid(candidate.descriptor, digest);
    }
    if h.a1.Some? && h.a1.value.Seen? {
      A1IsValid(TargetListBytes(read.value.0.featureReports).value, candidate.feature.value);
    }
  }

  // ----------------------------------------------------------------- order

  function Codes(s: string): seq<int> {
    seq(|s|, i requires 0 <= i < |s| => s[i] as int)
  }

  function RoleIndex(role: Role): int {
    match role
    case Enek5130Lighting => 0
    case AcerEcHidPowerCandidate => 1
    case DarfonLightingCandidate => 2
  }

  /** Absent values sort first. */
  function OptionIndex(value: Option<nat>): int {
    if value.None? then -1 else value.value
  }

  function DescriptorHash(h: Hid): string {
    if h.descriptor.Seen? then h.descriptor.value.sha256 else ""
  }

  /** The public identity in the order in which it is compared. */
  function Key(h: Hid): seq<int> {
    [RoleIndex(h.role), h.identity.vid, h.identity.pid, OptionIndex(h.identity.usagePage), OptionIndex(h.identity.usage)]
      + Codes(DescriptorHash(h))
  }

  function Quality<T>(o: Observation<T>): int {
    match o
    case Seen(_) => 2
    case Error(_) => 1
    case Absent => 0
  }

  /** Descriptor, then A1, then driver. */
  function EvidenceQuality(h: Hid): seq<int> {
    [Quality(h.descriptor), if h.a1.Some? then Quality(h.a1.value) else 0, Quality(h.driver)]
  }

  function PayloadOf(h: Hid): seq<int> {
    if h.a1.Some? && h.a1.value.Seen? then Codes(h.a1.value.value.payloadHex) else []
  }

  function DriverOf(h: Hid): seq<int> {
    if h.driver.Seen? then Codes(h.driver.value) else []
  }

  function Then(first: int, second: int): int {
    if first != 0 then first else second
  }

  /** Among equal identities the better evidence comes first. */
  function Order(a: Hid, b: Hid): int {
    Then(Lex(Key(a), Key(b)),
         Then(Lex(EvidenceQuality(b), EvidenceQuality(a)),
              Then(Lex(PayloadOf(a), PayloadOf(b)), Lex(DriverOf(a), DriverOf(b)))))
  }

  ghost predicate SortedFrom(records: seq<Hid>, sorted: seq<Hid>) {
    multiset(sorted) == multiset(records) && forall i, j | 0 <= i < j < |sorted| :: Order(sorted[i], sorted[j]) <= 0
  }

  ghost predicate ValidInventory(inventory: seq<Hid>) {
    && |inventory| <= MAX_CANDIDATES && (forall h | h in inventory :: ValidHid(h))
    && forall i | 1 <= i < |inventory| :: Lex(Key(inventory[i - 1]), Key(inventory[i])) < 0
  }

  lemma OrderedKeys(records: seq<Hid>, sorted: seq<Hid>)
    requires SortedFrom(records, sorted)
    ensures KeyOrdered(sorted, Key) && |sorted| == |records| && forall h :: h in sorted <==> h in records
  {
    forall i, j | 0 <= i < j < |sorted| ensures Lex(Key(sorted[i]), Key(sorted[j])) <= 0 {
      assert Order(sorted[i], sorted[j]) <= 0;
    }
    assert |sorted| == |multiset(sorted)| && |records| == |multiset(records)|;
    forall h ensures h in sorted <==> h in records {
      assert h in multiset(sorted) <==> h in multiset(records);
    }
  }

  /** The inventory of valid records passes the receiver's check: it is bounded,
      strictly sorted and made of valid records. */
  lemma InventoryIsValid(records: seq<Hid>, sorted: seq<Hid>)
    requires |records| <= MAX_CANDIDATES && (forall h | h in records :: ValidHid(h)) && SortedFrom(records, sorted)
    ensures ValidInventory(Dedup(sorted, Key))
  {
    OrderedKeys(records, sorted);
    DedupKeepsFirsts(sorted, Key);
    DedupIsStrict(sorted, Key);
  }

  /** The records of the first eight allow-listed functions. */
  function Gather(functions: seq<Candidate>, digest: seq<u8> -> string): seq<Hid> {
    if functions == [] then []
    else
      var records, c := Gather(functions[..|functions| - 1], digest), functions[|functions| - 1];
      var known := Allowlisted(c.bus, c.vendor, c.product);
      if |records| == MAX_CANDIDATES || known.None? then records
      else records + [Collect(c, known.value.0, known.value.1, digest)]
  }

  ghost predicate Sound(h: Hid) {
    ValidHid(h) && (h.a1.Some? && h.a1.value.Seen? ==> DeclaredTargets(h.a1.value.value))
  }

  lemma {:induction false} GatheredIsSound(functions: seq<Candidate>, digest: seq<u8> -> string)
    requires forall b :: HexDigest(digest(b))
    ensures |Gather(functions, digest)| <= MAX_CANDIDATES && forall h | h in Gather(functions, digest) :: Sound(h)
    decreases |functions|
  {
    if functions != [] {
      var c := functions[|functions| - 1];
      GatheredIsSound(functions[..|functions| - 1], digest);
      if Allowlisted(c.bus, c.vendor, c.product).Some? {
        CollectedIsValid(c, digest);
      }
    }
  }

  /** Whatever hardware there is and whatever it answers, the inventory passes
      the receiver's check, and its targets are the declared ones. */
  lemma InventoryPassesValidation(functions: seq<Candidate>, digest: seq<u8> -> string, sorted: seq<Hid>)
    requires (forall b :: HexDigest(digest(b))) && SortedFrom(Gather(functions, digest), sorted)
    ensures ValidInventory(Dedup(sorted, Key)) && forall h | h in Dedup(sorted, Key) :: Sound(h)
  {
    var records := Gather(functions, digest);
    GatheredIsSound(functions, digest);
    InventoryIsValid(records, sorted);
    forall h | h in Dedup(sorted, Key) ensures Sound(h) {
      KeptIsBest(records, sorted, h);
    }
  }

  /** `h` is kept for its identity: nothing collected with the same identity
      comes before it, and so nothing has better evidence. */
  ghost predicate Best(records: seq<Hid>, h: Hid) {
    h in records && forall other | other in records && Key(other) == Key(h) ::
      Order(h, other) <= 0 && Lex(EvidenceQuality(other), EvidenceQuality(h)) <= 0
  }

  lemma FirstIsBest(records: seq<Hid>, sorted: seq<Hid>, i: nat)
    requires SortedFrom(records, sorted) && First(sorted, Key, i)
    ensures Best(records, sorted[i])
  {
    OrderedKeys(records, sorted);
    var h := sorted[i];
    forall other | other in records && Key(other) == Key(h)
      ensures Order(h, other) <= 0 && Lex(EvidenceQuality(other), EvidenceQuality(h)) <= 0 {
      var j :| 0 <= j < |sorted| && sorted[j] == other;
      LexIsOrder(Key(h), Key(other));
      if j == i {
        LexIsOrder(EvidenceQuality(h), EvidenceQuality(h));
        LexIsOrder(PayloadOf(h), PayloadOf(h));
        LexIsOrder(DriverOf(h), DriverOf(h));
      }
    }
  }

  lemma KeptIsBest(records: seq<Hid>, sorted: seq<Hid>, h: Hid)
    requires SortedFrom(records, sorted) && h in Dedup(sorted, Key)
    ensures Best(records, h)
  {
    OrderedKeys(records, sorted);
    DedupKeepsFirsts(sorted, Key);
    var i: nat :| First(sorted, Key, i) && sorted[i] == h;
    FirstIsBest(records, sorted, i);
  }

  lemma IdentityIsKept(records: seq<Hid>, sorted: seq<Hid>, h: Hid) returns (kept: Hid)
    requires SortedFrom(records, sorted) && h in records
    ensures kept in Dedup(sorted, Key) && Key(kept) == Key(h)
  {
    OrderedKeys(records, sorted);
    DedupKeepsFirsts(sorted, Key);
    var j :| 0 <= j < |sorted| && sorted[j] == h;
    var i := EveryKeyHasAFirst(sorted, Key, j);
    kept := sorted[i];
  }

  /** Every collected identity is in the inventory exactly once, with the best
      evidence that was collected for it. */
  lemma BestEvidenceIsKept(records: seq<Hid>, sorted: seq<Hid>)
    requires SortedFrom(records, sorted)
    ensures forall h | h in Dedup(sorted, Key) :: Best(records, h)
    ensures forall h | h in records :: exists kept :: kept in Dedup(sorted, Key) && Key(kept) == Key(h)
    ensures StrictlyOrdered(Dedup(sorted, Key), Key)
  {
    OrderedKeys(records, sorted);
    DedupIsStrict(sorted, Key);
    forall h | h in Dedup(sorted, Key) ensures Best(records, h) {
      KeptIsBest(records, sorted, h);
    }
    forall h | h in records ensures exists kept :: kept in Dedup(sorted, Key) && Key(kept) == Key(h) {
      var kept := IdentityIsKept(records, sorted, h);
    }
  }

  /** The key is the public identity with the hash of the descriptor. */
  lemma KeyIff(a: Hid, b: Hid)
    ensures Key(a) == Key(b)
            <==> && a.role == b.role && a.identity.vid == b.identity.vid && a.identity.pid == b.identity.pid
                 && a.identity.usagePage == b.identity.usagePage && a.identity.usage == b.identity.usage
                 && DescriptorHash(a) == DescriptorHash(b)
  {
    var x, y := Key(a), Key(b);
    if x == y {
      assert x[0] == y[0] && x[1] == y[1] && x[2] == y[2] && x[3] == y[3] && x[4] == y[4];
      assert x[5..] == Codes(DescriptorHash(a)) && y[5..] == Codes(DescriptorHash(b));
      CodesAreInjective(DescriptorHash(a), DescriptorHash(b));
    }
  }

  lemma CodesAreInjective(a: string, b: string)
    requires Codes(a) == Codes(b)
    ensures a == b
  {
    assert |a| == |Codes(a)| && |b| == |Codes(b)|;
    forall i | 0 <= i < |a| ensures a[i] == b[i] {
      assert Codes(a)[i] == Codes(b)[i];
    }
  }

  /** What was seen of a descriptor beats everything else, and among equal
      descriptors a payload that was seen does. */
  lemma BetterIsKept(records: seq<Hid>, sorted: seq<Hid>, h: Hid, other: Hid)
    requires SortedFrom(records, sorted) && h in Dedup(sorted, Key) && other in records && Key(other) == Key(h)
    ensures other.descriptor.Seen? ==> h.descriptor.Seen?
    ensures (h.descriptor.Seen? <==> other.descriptor.Seen?) && (h.descriptor.Absent? <==> other.descriptor.Absent?) ==>
              (other.a1.Some? && other.a1.value.Seen? ==> h.a1.Some? && h.a1.value.Seen?)
  {
    KeptIsBest(records, sorted, h);
    NoWorse(EvidenceQuality(other), EvidenceQuality(h));
  }

  lemma NoWorse(theirs: seq<int>, mine: seq<int>)
    requires |theirs| == |mine| >= 2 && Lex(theirs, mine) <= 0
    ensures theirs[0] <= mine[0] && (theirs[0] == mine[0] ==> theirs[1] <= mine[1])
  {
    assert theirs[1..][0] == theirs[1] && mine[1..][0] == mine[1];
  }

  /** The allow-listed functions among the first `n`. */
  function Known(functions: seq<Candidate>, n: nat): nat
    requires n <= |functions|
  {
    if n == 0 then 0
    else
      var c := functions[n - 1];
      Known(functions, n - 1) + if Allowlisted(c.bus, c.vendor, c.product).Some? then 1 else 0
  }

  lemma {:induction false} KnownOfFront(functions: seq<Candidate>, n: nat)
    requires n < |functions|
    ensures Known(functions[..|functions| - 1], n) == Known(functions, n)
  {
    if n > 0 {
      KnownOfFront(functions, n - 1);
    }
  }

  lemma {:induction false} GatherCounts(functions: seq<Candidate>, digest: seq<u8> -> string)
    ensures |Gather(functions, digest)| == if Known(functions, |functions|) < 8 then Known(functions, |functions|) else 8
    decreases |functions|
  {
    if functions != [] {
      var n := |functions| - 1;
      GatherCounts(functions[..n], digest);
      KnownOfFront(functions, n);
    }
  }

  /** None of the first eight allow-listed functions is left out. */
  lemma {:induction false} GatherIsComplete(functions: seq<Candidate>, digest: seq<u8> -> string, i: nat)
    requires i < |functions| && Known(functions, i) < 8
    requires var c := functions[i]; Allowlisted(c.bus, c.vendor, c.product).Some?
    ensures var c := functions[i];
            var known := Allowlisted(c.bus, c.vendor, c.product).value;
            Collect(c, known.0, known.1, digest) in Gather(functions, digest)
    decreases |functions|
  {
    var n := |functions| - 1;
    if i < n {
      KnownOfFront(functions, i);
      GatherIsComplete(functions[..n], digest, i);
    } else {
      KnownOfFront(functions, n);
      GatherCounts(functions[..n], digest);
    }
  }

  lemma {:induction false} TargetListIs(reports: seq<Descriptor.Geometry>, n: nat)
    requires Descriptor.Ascending(reports) && Descriptor.Geometry(0xa1, n) in reports
    ensures TargetListBytes(reports) == Some(n)
  {
    if reports[0].id != 0xa1 {
      var k :| 0 <= k < |reports| && reports[k] == Descriptor.Geometry(0xa1, n);
      assert reports[1..][k - 1] == reports[k];
      TargetListIs(reports[1..], n);
    } else {
      var k :| 0 <= k < |reports| && reports[k] == Descriptor.Geometry(0xa1, n);
      assert k > 0 ==> reports[0].id < reports[k].id;
    }
  }

  /** A payload that begins with the report ID and declares no more targets than
      it holds, of a length that was asked for. */
  predicate TargetListPayload(payload: seq<u8>, requestedBytes: nat) {
    2 <= |payload| <= requestedBytes && payload[0] == 0xa1 && payload[1] <= 32 && 2 + payload[1] as nat <= |payload|
  }

  /** What a function with a good descriptor and a good payload is recorded as. */
  lemma SeenIsCollected(c: Candidate, identity: Identity, digest: seq<u8> -> string, bytes: seq<u8>, n: nat, payload: seq<u8>)
    requires c.descriptor == Got(bytes) && 1 <= |bytes| <= 4096 && Descriptor.Meaning(bytes).Success?
    requires Descriptor.Geometry(0xa1, n) in Descriptor.Meaning(bytes).value.featureReports && 2 <= n <= 64
    requires c.feature == Got(payload) && TargetListPayload(payload, n)
    ensures var h := Collect(c, Enek5130Lighting, identity, digest);
            && h.descriptor == Seen(HidDescriptor(|bytes|, digest(bytes), Descriptor.Meaning(bytes).value.featureReports))
            && h.a1.Some? && h.a1.value.Seen? && h.a1.value.value.requestedBytes == n && Declares(payload, h.a1.value.value)
  {
    Descriptor.ReportsAreExact(bytes);
    TargetListIs(Descriptor.Meaning(bytes).value.featureReports, n);
    A1IsValid(n, payload);
  }

  lemma {:induction false} GatheredDescriptors(functions: seq<Candidate>, digest: seq<u8> -> string)
    ensures forall h | h in Gather(functions, digest) :: !h.descriptor.Absent?
    decreases |functions|
  {
    if functions != [] {
      GatheredDescriptors(functions[..|functions| - 1], digest);
    }
  }

  /** So a payload that one function showed is not lost behind another function
      of the same identity: the record that is kept shows a payload, too. */
  lemma SeenPayloadIsKept(functions: seq<Candidate>, digest: seq<u8> -> string, sorted: seq<Hid>, other: Hid) returns (h: Hid)
    requires (forall b :: HexDigest(digest(b))) && SortedFrom(Gather(functions, digest), sorted)
    requires other in Gather(functions, digest) && other.a1.Some? && other.a1.value.Seen?
    ensures h in Dedup(sorted, Key) && Key(h) == Key(other) && h.a1.Some? && h.a1.value.Seen?
  {
    var records := Gather(functions, digest);
    h := IdentityIsKept(records, sorted, other);
    InventoryPassesValidation(functions, digest, sorted);
    GatheredIsSound(functions, digest);
    GatheredDescriptors(functions, digest);
    KeptIsBest(records, sorted, h);
    KeyIff(h, other);
    SeenHash(h);
    SeenHash(other);
    BetterIsKept(records, sorted, h, other);
  }

  lemma SeenHash(h: Hid)
    requires ValidHid(h)
    ensures h.descriptor.Seen? <==> DescriptorHash(h) != ""
  {
  }

  /** Nothing that the order looks at tells two records apart. */
  predicate Alike(a: Hid, b: Hid) {
    Key(a) == Key(b) && EvidenceQuality(a) == EvidenceQuality(b) && PayloadOf(a) == PayloadOf(b) && DriverOf(a) == DriverOf(b)
  }

  lemma BestAreAlike(records: seq<Hid>, renumbered: seq<Hid>, h: Hid, h': Hid)
    requires multiset(records) == multiset(renumbered) && Best(records, h) && Best(renumbered, h') && Key(h') == Key(h)
    ensures Alike(h', h)
  {
    assert h in multiset(records) && h' in multiset(renumbered);
    assert h in renumbered && h' in records;
    assert Order(h, h') <= 0 && Order(h', h) <= 0;
    EqualOrder(h, h');
  }

  /** The order in which the functions were numbered does not matter: two
      inventories of the same records hold the same identities with evidence,
      payload and driver that compare equal. */
  lemma NumberingDoesNotMatter(records: seq<Hid>, renumbered: seq<Hid>, sorted: seq<Hid>, resorted: seq<Hid>, h: Hid)
    returns (h': Hid)
    requires multiset(records) == multiset(renumbered)
    requires SortedFrom(records, sorted) && SortedFrom(renumbered, resorted) && h in Dedup(sorted, Key)
    ensures h' in Dedup(resorted, Key) && Alike(h', h)
  {
    KeptIsBest(records, sorted, h);
    InBoth(records, renumbered, h);
    h' := IdentityIsKept(renumbered, resorted, h);
    KeptIsBest(renumbered, resorted, h');
    BestAreAlike(records, renumbered, h, h');
  }

  lemma InBoth(records: seq<Hid>, renumbered: seq<Hid>, h: Hid)
    requires multiset(records) == multiset(renumbered) && Best(records, h)
    ensures h in renumbered
  {
    assert h in multiset(records);
  }

  lemma EqualOrder(a: Hid, b: Hid)
    requires Key(a) == Key(b) && Order(a, b) <= 0 && Order(b, a) <= 0
    ensures EvidenceQuality(a) == EvidenceQuality(b) && PayloadOf(a) == PayloadOf(b) && DriverOf(a) == DriverOf(b)
  {
    LexIsOrder(Key(a), Key(b));
    LexIsOrder(EvidenceQuality(a), EvidenceQuality(b));
    LexIsOrder(PayloadOf(a), PayloadOf(b));
    LexIsOrder(DriverOf(a), DriverOf(b));
  }
}
