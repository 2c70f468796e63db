/**
  The clock-offset transaction of src/nvidia.rs: snapshot every P-state, check
  the whole request, write and read back one offset after the other, and undo
  every write that was made as soon as anything goes wrong.

  A failed write changes nothing. A successful write touches its own offset
  only, but may store any value. Reads may fail; those that succeed are true.
  The device counts down its `faults`: each read or write of a known offset
  that fails, and each write that stores something else, uses up one of them.
*/
module NvidiaOffsets {
  import opened Wrappers

  type PerformanceState = p: nat | p < 16

  datatype ClockDomain = Core | Memory

  datatype Key = Key(state: PerformanceState, domain: ClockDomain)

  datatype ClockOffsets = ClockOffsets(coreMhz: int, memoryMhz: int)
  {
    function ForDomain(domain: ClockDomain): int {
      if domain == Core then coreMhz else memoryMhz
    }
  }

  const OEM_TURBO: ClockOffsets := ClockOffsets(100, 200)
  const RESET: ClockOffsets := ClockOffsets(0, 0)

  datatype OffsetReading = OffsetReading(currentMhz: int, minimumMhz: int, maximumMhz: int)
  {
    predicate Accepts(value: int) {
      minimumMhz <= value <= maximumMhz
    }
  }

  datatype StateOffsets = StateOffsets(state: PerformanceState, core: OffsetReading, memory: OffsetReading)
  {
    function Reading(domain: ClockDomain): OffsetReading {
      if domain == Core then core else memory
    }
  }

  type OffsetSnapshot = seq<StateOffsets>

  /** The first entry for a P-state. */
  function StateOf(snapshot: OffsetSnapshot, state: PerformanceState): (r: Option<StateOffsets>)
    ensures r.Some? ==> r.value in snapshot && r.value.state == state
    ensures r.None? ==> forall s | s in snapshot :: s.state != state
  {
    if snapshot == [] then None
    else if snapshot[0].state == state then Some(snapshot[0])
    else StateOf(snapshot[1..], state)
  }

  type Target = (PerformanceState, ClockOffsets)

  datatype Mutation = Mutation(key: Key, priorMhz: int)

  datatype NvidiaError =
    | DeviceError
    | Unauthorized
    | MissingSnapshotState(state: PerformanceState)
    | OffsetOutOfRange(key: Key, requestedMhz: int)
    | ReadbackMismatch(key: Key, expectedMhz: int, actualMhz: int)
    | TransactionRolledBack(cause: NvidiaError)
    | TransactionRollbackFailed(cause: NvidiaError, failures: seq<Key>)

  datatype OffsetTransition = OffsetTransition(previous: OffsetSnapshot, current: OffsetSnapshot)

  /** The offsets that a list of targets asks for, core before memory. */
  function Requests(targets: seq<Target>): seq<(Key, int)> {
    if targets == [] then []
    else Requests(targets[..|targets| - 1]) + RequestsOf(targets[|targets| - 1])
  }

  function RequestsOf(target: Target): seq<(Key, int)> {
    [(Key(target.0, Core), target.1.coreMhz), (Key(target.0, Memory), target.1.memoryMhz)]
  }

  /** The writes they need on a device that held `values`. */
  function Planned(requests: seq<(Key, int)>, values: map<Key, int>): seq<(Key, int)> {
    if requests == [] then []
    else
      var last := requests[|requests| - 1];
      Planned(requests[..|requests| - 1], values)
        + (if last.0 in values && values[last.0] == last.1 then [] else [last])
  }

  /** The writes that undo a list of mutations, newest first. */
  function Undo(mutations: seq<Mutation>): seq<(Key, int)> {
    if mutations == [] then []
    else
      var last := mutations[|mutations| - 1];
      [(last.key, last.priorMhz)] + Undo(mutations[..|mutations| - 1])
  }

  lemma UndoOn(mutations: seq<Mutation>, n: nat)
    requires n < |mutations|
    ensures mutations[n] in mutations && mutations[..n + 1][..n] == mutations[..n]
    ensures Undo(mutations[..n + 1]) == [(mutations[n].key, mutations[n].priorMhz)] + Undo(mutations[..n])
  {
    assert mutations[..n + 1][..n] == mutations[..n];
  }

  /** The undo at position `k` is that of the mutation as far from the end. */
  lemma {:induction false} UndoAt(mutations: seq<Mutation>, k: nat)
    requires k < |mutations|
    ensures |Undo(mutations)| == |mutations|
    ensures var m := mutations[|mutations| - 1 - k]; Undo(mutations)[k] == (m.key, m.priorMhz)
    decreases |mutations|
  {
    var front := mutations[..|mutations| - 1];
    if front != [] {
      UndoAt(front, if k > 0 then k - 1 else 0);
    }
  }

  /** The writes of a list of requests are those that ask for another value
      than the device held. */
  lemma {:induction false} PlannedIff(requests: seq<(Key, int)>, values: map<Key, int>)
    ensures forall q :: q in Planned(requests, values) <==> q in requests && !(q.0 in values && values[q.0] == q.1)
  {
    if requests != [] {
      var n := |requests| - 1;
      PlannedIff(requests[..n], values);
      assert requests == requests[..n] + [requests[n]];
    }
  }

  /** They come in the order of the requests. */
  lemma {:induction false} PlannedInOrder(requests: seq<(Key, int)>, more: seq<(Key, int)>, values: map<Key, int>)
    ensures Planned(requests + more, values) == Planned(requests, values) + Planned(more, values)
    decreases |more|
  {
    if more == [] {
      assert requests + more == requests;
    } else {
      var n := |more| - 1;
      PlannedInOrder(requests, more[..n], values);
      assert requests + more == (requests + more[..n]) + [more[n]];
      PlannedGrows(requests + more[..n], more[n], values);
    }
  }

  lemma PlannedPrefix(some: seq<(Key, int)>, all: seq<(Key, int)>, values: map<Key, int>)
    requires some <= all
    ensures Planned(some, values) <= Planned(all, values)
  {
    assert all == some + all[|some|..];
    PlannedInOrder(some, all[|some|..], values);
  }

  /** What a transaction wrote and remembered: every write but possibly the last
      one, which was refused, with the value that its offset had before. */
  ghost predicate Remembered(forward: seq<(Key, int)>, mutations: seq<Mutation>, before: map<Key, int>) {
    && |mutations| <= |forward| <= |mutations| + 1
    && forall i | 0 <= i < |mutations| ::
         forward[i].0 in before && mutations[i] == Mutation(forward[i].0, before[forward[i].0])
  }

  /** One more write: refused, or remembered. */
  lemma RememberedGrows(requests: seq<(Key, int)>, mutations: seq<Mutation>, mutations': seq<Mutation>,
                        before: map<Key, int>, request: (Key, int))
    requires Remembered(Planned(requests, before), mutations, before) && |mutations| == |Planned(requests, before)|
    requires request.0 in before && before[request.0] != request.1
    requires mutations' == mutations || mutations' == mutations + [Mutation(request.0, before[request.0])]
    ensures Planned(requests + [request], before) == Planned(requests, before) + [request]
    ensures Remembered(Planned(requests + [request], before), mutations', before)
  {
    PlannedGrows(requests, request, before);
  }

  /** A failure while targets are written or confirmed: of an access, or of an
      offset that did not show what was asked for. */
  ghost predicate CauseOf(requests: seq<(Key, int)>, cause: NvidiaError) {
    cause == DeviceError
    || (cause.ReadbackMismatch? && (cause.key, cause.expectedMhz) in requests && cause.actualMhz != cause.expectedMhz)
  }

  /** No two requests want different values of one offset. */
  ghost predicate Consistent(requests: seq<(Key, int)>) {
    forall p, q | p in requests && q in requests && p.0 == q.0 :: p.1 == q.1
  }

  ghost predicate Holds(requests: seq<(Key, int)>, values: map<Key, int>) {
    forall q | q in requests :: q.0 in values && values[q.0] == q.1
  }

  ghost predicate Asked(requests: seq<(Key, int)>, key: Key) {
    exists q | q in requests :: q.0 == key
  }

  lemma RequestsGrow(targets: seq<Target>, i: nat)
    requires i < |targets|
    ensures Requests(targets[..i + 1]) == Requests(targets[..i]) + RequestsOf(targets[i])
  {
    assert targets[..i + 1][..i] == targets[..i];
  }

  lemma PlannedGrows(requests: seq<(Key, int)>, request: (Key, int), values: map<Key, int>)
    ensures Planned(requests + [request], values)
         == Planned(requests, values) + (if request.0 in values && values[request.0] == request.1 then [] else [request])
  {
    assert (requests + [request])[..|requests|] == requests;
  }

  lemma {:induction false} PrefixRequests(targets: seq<Target>, i: nat)
    requires i <= |targets|
    ensures Requests(targets[..i]) <= Requests(targets)
    ensures forall q | q in Requests(targets[..i]) :: q in Requests(targets)
    decreases |targets| - i
  {
    if i < |targets| {
      RequestsGrow(targets, i);
      PrefixRequests(targets, i + 1);
    } else {
      assert targets[..i] == targets;
    }
  }

  /** The requests come target by target, core before memory. */
  lemma {:induction false} RequestsAt(targets: seq<Target>, i: nat)
    requires i < |targets|
    ensures |Requests(targets)| == 2 * |targets|
    ensures Requests(targets)[2 * i] == (Key(targets[i].0, Core), targets[i].1.coreMhz)
    ensures Requests(targets)[2 * i + 1] == (Key(targets[i].0, Memory), targets[i].1.memoryMhz)
    decreases |targets|
  {
    var n := |targets| - 1;
    if n > 0 {
      RequestsAt(targets[..n], if i < n then i else 0);
    }
  }

  class OffsetDevice {
    const states: seq<PerformanceState>
    const limits: map<Key, (int, int)>
    const authorized: bool
    var values: map<Key, int>
    /** How often the device may still fail. */
    var faults: nat
    ghost var attempts: seq<(Key, int)>

    constructor (states: seq<PerformanceState>, limits: map<Key, (int, int)>, authorized: bool, faults: nat,
                 values: map<Key, int>)
      requires values.Keys == limits.Keys
      requires forall s, d: ClockDomain | s in states :: Key(s, d) in values
      ensures this.states == states && this.limits == limits
      ensures this.authorized == authorized && this.faults == faults
      ensures this.values == values && attempts == [] && Valid()
    {
      this.states := states;
      this.limits := limits;
      this.authorized := authorized;
      this.faults := faults;
      this.values := values;
      attempts := [];
    }

    ghost predicate Valid()
      reads `values
    {
      && values.Keys == limits.Keys
      && (forall s, d: ClockDomain | s in states :: Key(s, d) in values)
    }

    /** A reading is true of the device when it holds `values`. */
    ghost predicate IsTrue(key: Key, reading: OffsetReading, values: map<Key, int>) {
      key in values && key in limits
      && reading == OffsetReading(values[key], limits[key].0, limits[key].1)
    }

    ghost predicate Describes(snapshot: OffsetSnapshot, values: map<Key, int>) {
      && (forall s, d: ClockDomain | s in snapshot :: IsTrue(Key(s.state, d), s.Reading(d), values))
      && |snapshot| == |states|
      && (forall i | 0 <= i < |states| :: snapshot[i].state == states[i])
    }

    /** Every request names a supported P-state and keeps within its limits. */
    ghost predicate Admissible(requests: seq<(Key, int)>) {
      forall q | q in requests ::
        q.0.state in states && q.0 in limits && limits[q.0].0 <= q.1 <= limits[q.0].1
    }

    method ReadOffset(key: Key) returns (r: Result<OffsetReading, NvidiaError>)
      requires Valid()
      modifies `faults
      ensures r.Success? ==> IsTrue(key, r.value, values) && faults == old(faults)
      ensures r.Failure? ==> r.error == DeviceError && faults <= old(faults)
      ensures r.Failure? && key in values ==> faults < old(faults)
    {
      var readable: bool := *;
      if key !in values {
        return Failure(DeviceError);
      }
      if !readable && faults > 0 {
        faults := faults - 1;
        return Failure(DeviceError);
      }
      r := Success(OffsetReading(values[key], limits[key].0, limits[key].1));
    }

    method WriteOffset(key: Key, mhz: int) returns (r: Outcome<NvidiaError>)
      requires Valid()
      modifies this
      ensures Valid() && attempts == old(attempts) + [(key, mhz)] && faults <= old(faults)
      ensures r.Fail? ==> values == old(values) && r.error == DeviceError
      ensures r.Fail? && key in values ==> faults < old(faults)
      ensures r.Pass? ==> key in values && values == old(values)[key := values[key]]
      ensures r.Pass? && values[key] != mhz ==> faults < old(faults)
    {
      var accepted: bool := *;
      var stored: int := *;
      attempts := attempts + [(key, mhz)];
      if key !in values {
        return Fail(DeviceError);
      }
      if !accepted && faults > 0 {
        faults := faults - 1;
        return Fail(DeviceError);
      }
      if stored == mhz || faults == 0 {
        values := values[key := mhz];
        return Pass;
      }
      faults := faults - 1;
      values := values[key := stored];
      r := Pass;
    }

    method Snapshot() returns (r: Result<OffsetSnapshot, NvidiaError>)
      requires Valid()
      modifies `faults
      ensures r.Success? ==> Describes(r.value, values) && faults == old(faults)
      ensures r.Failure? ==> r.error == DeviceError && faults < old(faults)
    {
      var snapshot: OffsetSnapshot := [];
      for i := 0 to |states|
        invariant faults == old(faults)
        invariant |snapshot| == i && forall k | 0 <= k < i :: snapshot[k].state == states[k]
        invariant forall s, d: ClockDomain | s in snapshot :: IsTrue(Key(s.state, d), s.Reading(d), values)
      {
        assert states[i] in states;
        var core := ReadOffset(Key(states[i], Core));
        if core.Failure? {
          return Failure(core.error);
        }
        var memory := ReadOffset(Key(states[i], Memory));
        if memory.Failure? {
          return Failure(memory.error);
        }
        snapshot := snapshot + [StateOffsets(states[i], core.value, memory.value)];
      }
      r := Success(snapshot);
    }

    // ------------------------------------------------------------- rollback

    /** Every offset that differs from `before` is among `mutations`, and these
        remember the values of `before`. */
    ghost predicate Accounted(before: map<Key, int>, mutations: seq<Mutation>)
      reads `values
    {
      && values.Keys == before.Keys
      && (forall m | m in mutations :: m.key in before && m.priorMhz == before[m.key])
      && (forall key | key in before && values[key] != before[key] :: exists m | m in mutations :: m.key == key)
    }

    /** What a failed transaction that began to write leaves behind. It names
        every offset that is not back, and none that was not written. Each one it
        names is due to a fault of the device since it had `faults0` of them. */
    ghost predicate Undone(before: map<Key, int>, mutations: seq<Mutation>, cause: NvidiaError, error: NvidiaError, faults0: int)
      reads `values, `faults
    {
      && values.Keys == before.Keys
      && (|| (error == TransactionRolledBack(cause) && values == before)
          || (error.TransactionRollbackFailed? && error.cause == cause && error.failures != []
              && Remaining(before, error.failures, [], mutations, faults0)))
    }

    /** Every offset that still differs from `before` failed to be undone or is
        waiting for it. */
    ghost predicate Remaining(before: map<Key, int>, failures: seq<Key>, waiting: seq<Mutation>, mutations: seq<Mutation>, faults0: int)
      reads `values, `faults
    {
      && values.Keys == before.Keys && |failures| + faults <= faults0
      && (forall key | key in failures :: exists m | m in mutations :: m.key == key)
      && (forall key | key in before && key !in failures && values[key] != before[key] ::
            exists m | m in waiting :: m.key == key)
    }

    method RollbackAfterFailure(mutations: seq<Mutation>, cause: NvidiaError, ghost before: map<Key, int>)
      returns (error: NvidiaError)
      requires Valid() && Accounted(before, mutations)
      modifies this
      ensures Valid() && Undone(before, mutations, cause, error, old(faults))
      ensures attempts == old(attempts) + Undo(mutations) && faults <= old(faults)
    {
      var failures: seq<Key> := [];
      var n := |mutations|;
      assert mutations[..n] == mutations;
      while n > 0
        invariant 0 <= n <= |mutations| && Valid() && Remaining(before, failures, mutations[..n], mutations, old(faults))
        invariant attempts + Undo(mutations[..n]) == old(attempts) + Undo(mutations)
      {
        n := n - 1;
        assert mutations[n] in mutations;
        failures := UndoLast(mutations, n, failures, before, old(faults));
      }
      error := if failures == [] then TransactionRolledBack(cause) else TransactionRollbackFailed(cause, failures);
    }

    /** One turn of the rollback. */
    method UndoLast(mutations: seq<Mutation>, n: nat, failures: seq<Key>, ghost before: map<Key, int>, ghost faults0: int)
      returns (failures': seq<Key>)
      requires n < |mutations| && Valid() && Remaining(before, failures, mutations[..n + 1], mutations, faults0)
      requires mutations[n].key in before && mutations[n].priorMhz == before[mutations[n].key]
      modifies this
      ensures Valid() && Remaining(before, failures', mutations[..n], mutations, faults0)
      ensures attempts + Undo(mutations[..n]) == old(attempts) + Undo(mutations[..n + 1])
    {
      UndoOn(mutations, n);
      failures' := UndoOne(mutations[n], failures, mutations[..n + 1], mutations, before, faults0);
    }

    /** One step of the rollback: `undo` is the last of the `waiting`. */
    method UndoOne(undo: Mutation, failures: seq<Key>, ghost waiting: seq<Mutation>, ghost mutations: seq<Mutation>,
                   ghost before: map<Key, int>, ghost faults0: int)
      returns (failures': seq<Key>)
      requires waiting != [] && undo == waiting[|waiting| - 1] && undo in mutations
      requires Valid() && Remaining(before, failures, waiting, mutations, faults0)
      requires undo.key in before && undo.priorMhz == before[undo.key]
      modifies this
      ensures Valid() && Remaining(before, failures', waiting[..|waiting| - 1], mutations, faults0)
      ensures attempts == old(attempts) + [(undo.key, undo.priorMhz)]
    {
      ghost var earlier := waiting[..|waiting| - 1];
      assert waiting == earlier + [undo];
      failures' := failures;
      var written := WriteOffset(undo.key, undo.priorMhz);
      if written.Fail? {
        return failures + [undo.key];
      }
      var readback := ReadOffset(undo.key);
      if readback.Failure? || readback.value.currentMhz != undo.priorMhz {
        failures' := failures + [undo.key];
      }
    }

    // ---------------------------------------------------------- transaction

    /** The request that an error refuses is one that was made and is not admissible. */
    ghost predicate Blames(requests: seq<(Key, int)>, error: NvidiaError) {
      match error
      case MissingSnapshotState(state) => state !in states && exists q | q in requests :: q.0.state == state
      case OffsetOutOfRange(key, mhz) =>
        (key, mhz) in requests && key in limits && !(limits[key].0 <= mhz <= limits[key].1)
      case _ => false
    }

    /** The complete request is validated before the first write. */
    method CheckTargets(previous: OffsetSnapshot, targets: seq<Target>) returns (r: Outcome<NvidiaError>)
      requires Describes(previous, values)
      ensures r.Pass? <==> Admissible(Requests(targets))
      ensures r.Fail? ==> Blames(Requests(targets), r.error)
    {
      assert targets[..|targets|] == targets;
      for i := 0 to |targets|
        invariant Admissible(Requests(targets[..i]))
      {
        var (state, target) := targets[i];
        RequestsGrow(targets, i);
        PrefixRequests(targets, i + 1);
        var entry := StateOf(previous, state);
        ghost var core, memory := RequestsOf(targets[i])[0], RequestsOf(targets[i])[1];
        assert core in Requests(targets) && memory in Requests(targets);
        if entry.None? {
          assert core.0.state !in states;
          return Fail(MissingSnapshotState(state));
        }
        if !entry.value.core.Accepts(target.coreMhz) {
          assert IsTrue(core.0, entry.value.Reading(Core), values);
          return Fail(OffsetOutOfRange(Key(state, Core), target.coreMhz));
        }
        if !entry.value.memory.Accepts(target.memoryMhz) {
          assert IsTrue(memory.0, entry.value.Reading(Memory), values);
          return Fail(OffsetOutOfRange(Key(state, Memory), target.memoryMhz));
        }
        assert IsTrue(core.0, entry.value.Reading(Core), values) && IsTrue(memory.0, entry.value.Reading(Memory), values);
      }
      r := Pass;
    }

    /** The transaction after a list of requests: what it wrote and remembers. */
    ghost predicate Tracked(before: map<Key, int>, mutations: seq<Mutation>, requests: seq<(Key, int)>, attempts0: seq<(Key, int)>)
      reads `values, `attempts
    {
      && Valid() && Accounted(before, mutations)
      && attempts == attempts0 + Planned(requests, before)
      && Remembered(Planned(requests, before), mutations, before)
    }

    /** The transaction after a list of requests, none of which failed. */
    ghost predicate Progress(before: map<Key, int>, mutations: seq<Mutation>, requests: seq<(Key, int)>,
                             attempts0: seq<(Key, int)>)
      reads `values, `attempts
    {
      && Tracked(before, mutations, requests, attempts0) && |mutations| == |Planned(requests, before)|
      && (Consistent(requests) ==> Holds(requests, values))
    }

    /** One offset: written only when the snapshot differs. */
    method WriteOne(key: Key, requestedMhz: int, priorMhz: int, mutations: seq<Mutation>,
                    ghost requests: seq<(Key, int)>, ghost before: map<Key, int>, ghost attempts0: seq<(Key, int)>)
      returns (r: Outcome<NvidiaError>, mutations': seq<Mutation>)
      requires Progress(before, mutations, requests, attempts0)
      requires key in before && before[key] == priorMhz
      modifies this
      ensures Tracked(before, mutations', requests + [(key, requestedMhz)], attempts0) && faults <= old(faults)
      ensures r.Pass? ==> Progress(before, mutations', requests + [(key, requestedMhz)], attempts0)
      ensures r.Fail? ==> CauseOf([(key, requestedMhz)], r.error) && faults < old(faults)
    {
      if priorMhz == requestedMhz {
        SkipHolds(key, requestedMhz, mutations, requests, before, attempts0);
        return Pass, mutations;
      }
      r, mutations' := WriteAndReadBack(key, requestedMhz, priorMhz, mutations, requests, before);
      RememberedGrows(requests, mutations, mutations', before, (key, requestedMhz));
    }

    /** A write is remembered before it is read back. */
    method WriteAndReadBack(key: Key, requestedMhz: int, priorMhz: int, mutations: seq<Mutation>,
                            ghost requests: seq<(Key, int)>, ghost before: map<Key, int>)
      returns (r: Outcome<NvidiaError>, mutations': seq<Mutation>)
      requires Valid() && Accounted(before, mutations) && key in before && before[key] == priorMhz
      requires Consistent(requests) ==> Holds(requests, values)
      modifies this
      ensures Valid() && Accounted(before, mutations') && faults <= old(faults)
      ensures attempts == old(attempts) + [(key, requestedMhz)]
      ensures mutations' == mutations + [Mutation(key, priorMhz)] || (r.Fail? && mutations' == mutations)
      ensures r.Pass? && Consistent(requests + [(key, requestedMhz)]) ==> Holds(requests + [(key, requestedMhz)], values)
      ensures r.Fail? ==> CauseOf([(key, requestedMhz)], r.error) && faults < old(faults)
    {
      ghost var values0 := values;
      ConsistentPrefix(requests, (key, requestedMhz));
      var written := WriteOffset(key, requestedMhz);
      if written.Fail? {
        return written, mutations;
      }
      mutations' := mutations + [Mutation(key, priorMhz)];
      WriteTracked(before, mutations, requests, (key, requestedMhz), values0);
      var readback := ReadOffset(key);
      if readback.Failure? {
        return Fail(readback.error), mutations';
      }
      if readback.value.currentMhz != requestedMhz {
        return Fail(ReadbackMismatch(key, requestedMhz, readback.value.currentMhz)), mutations';
      }
      r := Pass;
    }

    /** A successful write is accounted for by its mutation, and it satisfies
        its request together with the earlier ones once it stored the value. */
    lemma WriteTracked(before: map<Key, int>, mutations: seq<Mutation>, requests: seq<(Key, int)>,
                       request: (Key, int), values0: map<Key, int>)
      requires values0.Keys == before.Keys && request.0 in before
      requires forall m | m in mutations :: m.key in before && m.priorMhz == before[m.key]
      requires forall key | key in before && values0[key] != before[key] :: exists m | m in mutations :: m.key == key
      requires request.0 in values && values == values0[request.0 := values[request.0]]
      ensures Accounted(before, mutations + [Mutation(request.0, before[request.0])])
      ensures Consistent(requests + [request]) && Holds(requests, values0) && values[request.0] == request.1 ==>
                Holds(requests + [request], values)
    {
      var grown := mutations + [Mutation(request.0, before[request.0])];
      assert grown[|mutations|].key == request.0;
      assert (requests + [request])[|requests|] == request;
      assert forall m | m in mutations :: m in grown;
      assert forall q | q in requests :: q in requests + [request];
    }

    /** An offset that changed was asked to. */
    lemma ChangedWasAsked(before: map<Key, int>, mutations: seq<Mutation>, requests: seq<(Key, int)>, attempts0: seq<(Key, int)>, key: Key)
      requires Tracked(before, mutations, requests, attempts0) && key in before && values[key] != before[key]
      ensures exists q | q in requests :: q.0 == key && q.1 != before[key]
    {
      var m :| m in mutations && m.key == key;
      var i :| 0 <= i < |mutations| && mutations[i] == m;
      PlannedIff(requests, before);
      assert Planned(requests, before)[i] in Planned(requests, before);
    }

    /** Skipping a write is right as long as no other request wants something else. */
    lemma SkipHolds(key: Key, requestedMhz: int, mutations: seq<Mutation>, requests: seq<(Key, int)>, before: map<Key, int>,
                    attempts0: seq<(Key, int)>)
      requires Progress(before, mutations, requests, attempts0) && key in before && before[key] == requestedMhz
      ensures Progress(before, mutations, requests + [(key, requestedMhz)], attempts0)
    {
      PlannedGrows(requests, (key, requestedMhz), before);
      ConsistentPrefix(requests, (key, requestedMhz));
      var grown := requests + [(key, requestedMhz)];
      assert grown[|requests|] == (key, requestedMhz);
      if values[key] != before[key] {
        ChangedWasAsked(before, mutations, requests, attempts0, key);
        var q :| q in requests && q.0 == key && q.1 != before[key];
        assert q in grown && (key, requestedMhz) in grown;
      }
    }

    /** All requested offsets, up to the first that cannot be confirmed: `made`
        are the requests that were dealt with, the last one of them in vain if it failed. */
    method WriteTargets(previous: OffsetSnapshot, targets: seq<Target>, ghost before: map<Key, int>)
      returns (r: Outcome<NvidiaError>, mutations: seq<Mutation>, ghost made: seq<(Key, int)>)
      requires Valid() && values == before && Describes(previous, before) && Admissible(Requests(targets))
      modifies this
      ensures made <= Requests(targets) && Tracked(before, mutations, made, old(attempts)) && faults <= old(faults)
      ensures r.Pass? ==> made == Requests(targets) && Progress(before, mutations, made, old(attempts))
      ensures r.Fail? ==> CauseOf(Requests(targets), r.error) && faults < old(faults)
    {
      mutations, made := [], [];
      assert targets[..|targets|] == targets;
      for i := 0 to |targets|
        invariant made == Requests(targets[..i]) && faults <= old(faults)
        invariant Progress(before, mutations, made, old(attempts))
      {
        RequestsGrow(targets, i);
        PrefixRequests(targets, i + 1);
        var entry := EntryOf(previous, targets, i, before);
        r, mutations, made := WriteTarget(entry, targets[i], mutations, made, before, old(attempts));
        if r.Fail? {
          return;
        }
      }
      r := Pass;
    }

    /** The snapshot's entry for an admissible target. */
    method EntryOf(previous: OffsetSnapshot, targets: seq<Target>, i: nat, ghost before: map<Key, int>)
      returns (entry: StateOffsets)
      requires Describes(previous, before) && i < |targets| && Admissible(Requests(targets))
      ensures IsTrue(Key(targets[i].0, Core), entry.core, before) && IsTrue(Key(targets[i].0, Memory), entry.memory, before)
    {
      RequestsGrow(targets, i);
      PrefixRequests(targets, i + 1);
      assert RequestsOf(targets[i])[0] in Requests(targets[..i + 1]);
      entry := StateOf(previous, targets[i].0).value;
      assert IsTrue(Key(targets[i].0, Core), entry.Reading(Core), before);
      assert IsTrue(Key(targets[i].0, Memory), entry.Reading(Memory), before);
    }

    /** Both offsets of one P-state, core before memory. */
    method WriteTarget(entry: StateOffsets, target: Target, mutations: seq<Mutation>,
                       ghost earlier: seq<(Key, int)>, ghost before: map<Key, int>, ghost attempts0: seq<(Key, int)>)
      returns (r: Outcome<NvidiaError>, mutations': seq<Mutation>, ghost made: seq<(Key, int)>)
      requires Progress(before, mutations, earlier, attempts0)
      requires IsTrue(Key(target.0, Core), entry.core, before) && IsTrue(Key(target.0, Memory), entry.memory, before)
      modifies this
      ensures made <= earlier + RequestsOf(target) && Tracked(before, mutations', made, attempts0) && faults <= old(faults)
      ensures r.Pass? ==> made == earlier + RequestsOf(target) && Progress(before, mutations', made, attempts0)
      ensures r.Fail? ==> CauseOf(RequestsOf(target), r.error) && faults < old(faults)
    {
      ghost var core := (Key(target.0, Core), target.1.coreMhz);
      ghost var memory := (Key(target.0, Memory), target.1.memoryMhz);
      assert RequestsOf(target) == [core] + [memory];
      assert core in RequestsOf(target) && memory in RequestsOf(target);
      made := earlier + [core];
      assert made + [memory] == earlier + RequestsOf(target);
      r, mutations' := WriteOne(Key(target.0, Core), target.1.coreMhz, entry.core.currentMhz, mutations, earlier, before, attempts0);
      if r.Fail? {
        return;
      }
      r, mutations' := WriteOne(Key(target.0, Memory), target.1.memoryMhz, entry.memory.currentMhz, mutations', made, before, attempts0);
      made := made + [memory];
    }

    lemma ConsistentPrefix(requests: seq<(Key, int)>, request: (Key, int))
      ensures Consistent(requests + [request]) ==> Consistent(requests)
    {
      assert forall q | q in requests :: q in requests + [request];
    }

    /** The final snapshot must show every target. */
    method ConfirmTargets(current: OffsetSnapshot, targets: seq<Target>) returns (r: Outcome<NvidiaError>)
      requires Describes(current, values) && forall target | target in targets :: target.0 in states
      ensures r.Pass? <==> Holds(Requests(targets), values)
      ensures r.Fail? ==> CauseOf(Requests(targets), r.error)
    {
      assert targets[..|targets|] == targets;
      for i := 0 to |targets|
        invariant Holds(Requests(targets[..i]), values)
      {
        RequestsGrow(targets, i);
        PrefixRequests(targets, i + 1);
        r := ConfirmTarget(current, targets[i]);
        if r.Fail? {
          assert forall q | q in RequestsOf(targets[i]) :: q in Requests(targets[..i + 1]);
          HoldsOfPart(RequestsOf(targets[i]), Requests(targets));
          return;
        }
        HoldsOfBoth(Requests(targets[..i]), RequestsOf(targets[i]));
      }
      r := Pass;
    }

    lemma HoldsOfBoth(first: seq<(Key, int)>, second: seq<(Key, int)>)
      requires Holds(first, values) && Holds(second, values)
      ensures Holds(first + second, values)
    {
    }

    lemma HoldsOfPart(some: seq<(Key, int)>, all: seq<(Key, int)>)
      requires forall q | q in some :: q in all
      ensures Holds(all, values) ==> Holds(some, values)
    {
    }

    method ConfirmTarget(current: OffsetSnapshot, target: Target) returns (r: Outcome<NvidiaError>)
      requires Describes(current, values)
      ensures r.Pass? <==> target.0 in states && Holds(RequestsOf(target), values)
      ensures r.Fail? && target.0 in states ==> CauseOf(RequestsOf(target), r.error)
    {
      var (state, offsets) := target;
      ghost var core, memory := RequestsOf(target)[0], RequestsOf(target)[1];
      assert core in RequestsOf(target) && memory in RequestsOf(target);
      var entry := StateOf(current, state);
      if entry.None? {
        return Fail(MissingSnapshotState(state));
      }
      var actual := entry.value;
      assert IsTrue(core.0, actual.Reading(Core), values) && IsTrue(memory.0, actual.Reading(Memory), values);
      if actual.core.currentMhz != offsets.coreMhz {
        return Fail(ReadbackMismatch(Key(state, Core), offsets.coreMhz, actual.core.currentMhz));
      }
      if actual.memory.currentMhz != offsets.memoryMhz {
        return Fail(ReadbackMismatch(Key(state, Memory), offsets.memoryMhz, actual.memory.currentMhz));
      }
      r := Pass;
    }

    /** Every requested offset holds its value and no other one moved. */
    ghost predicate Committed(before: map<Key, int>, requests: seq<(Key, int)>)
      reads `values
    {
      && values.Keys == before.Keys && Holds(requests, values)
      && forall key | key in before && !Asked(requests, key) :: values[key] == before[key]
    }

    /** A failure after the first write: `forward` begins the writes of the
        transaction, and every one of them that was accepted was undone by a write
        of the value before it, the newest first. */
    ghost predicate Reverted(before: map<Key, int>, attempts0: seq<(Key, int)>, faults0: nat, requests: seq<(Key, int)>,
                             error: NvidiaError, forward: seq<(Key, int)>, mutated: seq<Mutation>)
      requires Rollback(error)
      reads this
    {
      && CauseOf(requests, error.cause)
      && Undone(before, mutated, error.cause, error, if Consistent(requests) then faults0 - 1 else faults0)
      && forward <= Planned(requests, before) && Remembered(forward, mutated, before)
      && attempts == attempts0 + forward + Undo(mutated)
    }

    /** Since `attempts0` every offset that differs from `before` and every one
        that is reported was written once more with the value before. */
    ghost predicate UndoWritten(before: map<Key, int>, attempts0: seq<(Key, int)>, error: NvidiaError)
      reads this
    {
      && attempts0 <= attempts && before.Keys == values.Keys
      && (forall key | key in before && values[key] != before[key] :: (key, before[key]) in attempts[|attempts0|..])
      && (error.TransactionRollbackFailed? ==>
            forall key | key in error.failures :: key in before && (key, before[key]) in attempts[|attempts0|..])
    }

    lemma RevertedIsWritten(before: map<Key, int>, attempts0: seq<(Key, int)>, faults0: nat, requests: seq<(Key, int)>,
                            error: NvidiaError, forward: seq<(Key, int)>, mutated: seq<Mutation>)
      requires Rollback(error) && Reverted(before, attempts0, faults0, requests, error, forward, mutated)
      ensures UndoWritten(before, attempts0, error)
    {
      var since := attempts[|attempts0|..];
      assert since == forward + Undo(mutated);
      forall i | 0 <= i < |mutated| ensures (mutated[i].key, before[mutated[i].key]) in since {
        UndoAt(mutated, |mutated| - 1 - i);
        assert since[|forward| + (|mutated| - 1 - i)] == Undo(mutated)[|mutated| - 1 - i];
      }
    }

    /** Rolling back what was made of the requests so far. */
    method RollBackMade(mutations: seq<Mutation>, cause: NvidiaError, ghost requests: seq<(Key, int)>, ghost made: seq<(Key, int)>,
                        ghost before: map<Key, int>, ghost attempts0: seq<(Key, int)>, ghost faults0: nat)
      returns (error: NvidiaError)
      requires Tracked(before, mutations, made, attempts0) && made <= requests && CauseOf(requests, cause)
      requires faults <= (if Consistent(requests) then faults0 - 1 else faults0)
      modifies this
      ensures Valid() && Rollback(error) && faults <= faults0
      ensures Reverted(before, attempts0, faults0, requests, error, Planned(made, before), mutations)
      ensures UndoWritten(before, attempts0, error)
      ensures faults0 - faults <= (if Consistent(requests) then 1 else 0) ==> error.TransactionRolledBack? && values == before
    {
      error := RollbackAfterFailure(mutations, cause, before);
      PlannedPrefix(made, requests, before);
      RevertedIsWritten(before, attempts0, faults0, requests, error, Planned(made, before), mutations);
    }

    /** How a request that passed the checks ends: committed, or rolled back. */
    ghost predicate Ended(before: map<Key, int>, attempts0: seq<(Key, int)>, faults0: nat, requests: seq<(Key, int)>,
                          r: Result<OffsetSnapshot, NvidiaError>, forward: seq<(Key, int)>, mutated: seq<Mutation>)
      reads this
    {
      && faults <= faults0
      && match r
         case Success(current) =>
           Committed(before, requests) && Describes(current, values) && attempts == attempts0 + Planned(requests, before)
         case Failure(error) =>
           && Rollback(error) && Reverted(before, attempts0, faults0, requests, error, forward, mutated)
           && UndoWritten(before, attempts0, error)
           && (faults0 - faults <= (if Consistent(requests) then 1 else 0) ==> error.TransactionRolledBack? && values == before)
    }

    /** The part of the transaction that begins with the first write. */
    method WriteAndConfirm(previous: OffsetSnapshot, targets: seq<Target>)
      returns (r: Result<OffsetSnapshot, NvidiaError>, ghost forward: seq<(Key, int)>, ghost mutated: seq<Mutation>)
      requires Valid() && Describes(previous, values) && Admissible(Requests(targets))
      modifies this
      ensures Valid() && Ended(old(values), old(attempts), old(faults), Requests(targets), r, forward, mutated)
      ensures old(faults) == 0 ==> (r.Success? <==> Consistent(Requests(targets)))
    {
      ghost var before, requests := values, Requests(targets);
      var written, mutations, made := WriteTargets(previous, targets, before);
      forward, mutated := Planned(made, before), mutations;
      if written.Fail? {
        var error := RollBackMade(mutations, written.error, requests, made, before, old(attempts), old(faults));
        return Failure(error), forward, mutated;
      }
      var current := Snapshot();
      if current.Failure? {
        var error := RollBackMade(mutations, current.error, requests, made, before, old(attempts), old(faults));
        return Failure(error), forward, mutated;
      }
      TargetsAreSupported(targets);
      var confirmed := ConfirmTargets(current.value, targets);
      if confirmed.Fail? {
        var error := RollBackMade(mutations, confirmed.error, requests, made, before, old(attempts), old(faults));
        return Failure(error), forward, mutated;
      }
      UnaskedIsKept(before, mutations, requests, old(attempts));
      HoldsIsConsistent(requests);
      r := current;
    }

    lemma HoldsIsConsistent(requests: seq<(Key, int)>)
      requires Holds(requests, values)
      ensures Consistent(requests)
    {
    }

    /** All or nothing. The request that contradicts itself is never granted, and
        one fault of the device never leaves a consistent request half done. */
    method ApplyOffsetTargets(targets: seq<Target>)
      returns (r: Result<OffsetTransition, NvidiaError>, ghost forward: seq<(Key, int)>, ghost mutated: seq<Mutation>)
      requires Valid()
      modifies this
      ensures Valid() && faults <= old(faults)
      ensures r.Success? ==>
                && Committed(old(values), Requests(targets)) && Admissible(Requests(targets))
                && Describes(r.value.previous, old(values)) && Describes(r.value.current, values)
                && attempts == old(attempts) + Planned(Requests(targets), old(values))
      ensures r.Failure? && Rollback(r.error) ==>
                && Reverted(old(values), old(attempts), old(faults), Requests(targets), r.error, forward, mutated)
                && UndoWritten(old(values), old(attempts), r.error) && Admissible(Requests(targets))
      ensures r.Failure? && !Rollback(r.error) ==>
                && values == old(values) && attempts == old(attempts)
                && (Blames(Requests(targets), r.error) || (r.error == DeviceError && faults < old(faults)))
      ensures old(faults) == 0 ==> (r.Success? <==> Admissible(Requests(targets)) && Consistent(Requests(targets)))
      ensures r.Failure? && old(faults) - faults <= (if Consistent(Requests(targets)) then 1 else 0) ==>
                !r.error.TransactionRollbackFailed? && values == old(values)
    {
      forward, mutated := [], [];
      var snapshot := Snapshot();
      if snapshot.Failure? {
        return Failure(snapshot.error), forward, mutated;
      }
      var checked := CheckTargets(snapshot.value, targets);
      if checked.Fail? {
        return Failure(checked.error), forward, mutated;
      }
      var current: Result<OffsetSnapshot, NvidiaError>;
      current, forward, mutated := WriteAndConfirm(snapshot.value, targets);
      r := match current
        case Success(now) => Success(OffsetTransition(snapshot.value, now))
        case Failure(error) => Failure(error);
    }

    lemma UnaskedIsKept(before: map<Key, int>, mutations: seq<Mutation>, requests: seq<(Key, int)>, attempts0: seq<(Key, int)>)
      requires Tracked(before, mutations, requests, attempts0)
      ensures forall key | key in before && !Asked(requests, key) :: values[key] == before[key]
    {
      forall key | key in before && !Asked(requests, key) ensures values[key] == before[key] {
        if values[key] != before[key] {
          ChangedWasAsked(before, mutations, requests, attempts0, key);
        }
      }
    }

    lemma TargetsAreSupported(targets: seq<Target>)
      requires Admissible(Requests(targets))
      ensures forall target | target in targets :: target.0 in states
    {
      assert targets[..|targets|] == targets;
      forall i | 0 <= i < |targets| ensures targets[i].0 in states {
        RequestsGrow(targets, i);
        PrefixRequests(targets, i + 1);
        assert RequestsOf(targets[i])[0] in Requests(targets[..i + 1]);
      }
    }

    /** The device holds `wanted` for its own P-states; the rest is as before. */
    ghost predicate Restored(before: map<Key, int>, wanted: (PerformanceState, ClockDomain) -> int)
      reads `values
    {
      && values.Keys == before.Keys
      && (forall s, d: ClockDomain | s in states :: Key(s, d) in values && values[Key(s, d)] == wanted(s, d))
      && (forall key | key in before && key.state !in states :: values[key] == before[key])
    }

    /** What a transaction over all P-states asks for. */
    lemma PerState(wanted: (PerformanceState, ClockDomain) -> int)
      ensures forall q | q in PerStateRequests(wanted) :: q.0.state in states && q.1 == wanted(q.0.state, q.0.domain)
      ensures forall s, d: ClockDomain | s in states :: (Key(s, d), wanted(s, d)) in PerStateRequests(wanted)
    {
      var targets := TargetsOf(states, wanted);
      forall q | q in Requests(targets) ensures q.0.state in states && q.1 == wanted(q.0.state, q.0.domain) {
        RequestsMeanTargets(targets);
        var k: nat :| AskedBy(targets, k, q);
        assert states[k] in states;
      }
      forall s, d: ClockDomain | s in states ensures (Key(s, d), wanted(s, d)) in Requests(targets) {
        var k :| 0 <= k < |states| && states[k] == s;
        RequestIsMade(targets, k, (Key(s, d), wanted(s, d)));
      }
    }

    lemma PerStateFits(wanted: (PerformanceState, ClockDomain) -> int)
      ensures Consistent(PerStateRequests(wanted))
      ensures Admissible(PerStateRequests(wanted)) <==> InRange(wanted)
    {
      PerState(wanted);
      AdmissiblePerState(PerStateRequests(wanted), wanted);
    }

    lemma CommittedPerState(before: map<Key, int>, wanted: (PerformanceState, ClockDomain) -> int)
      requires Committed(before, PerStateRequests(wanted))
      ensures Restored(before, wanted)
    {
      PerState(wanted);
      assert forall s, d: ClockDomain | s in states :: (Key(s, d), wanted(s, d)) in PerStateRequests(wanted);
    }

    lemma AdmissiblePerState(requests: seq<(Key, int)>, wanted: (PerformanceState, ClockDomain) -> int)
      requires forall q | q in requests :: q.0.state in states && q.1 == wanted(q.0.state, q.0.domain)
      requires forall s, d: ClockDomain | s in states :: (Key(s, d), wanted(s, d)) in requests
      ensures Admissible(requests) <==> InRange(wanted)
    {
      if Admissible(requests) {
        forall s, d: ClockDomain | s in states
          ensures Key(s, d) in limits && limits[Key(s, d)].0 <= wanted(s, d) <= limits[Key(s, d)].1 {
          assert (Key(s, d), wanted(s, d)) in requests;
        }
      }
      if InRange(wanted) {
        forall q | q in requests ensures q.0 in limits && limits[q.0].0 <= q.1 <= limits[q.0].1 {
          assert q.0 == Key(q.0.state, q.0.domain);
        }
      }
    }

    /** Every wanted offset is within its limits. */
    ghost predicate InRange(wanted: (PerformanceState, ClockDomain) -> int) {
      forall s, d: ClockDomain | s in states ::
        Key(s, d) in limits && limits[Key(s, d)].0 <= wanted(s, d) <= limits[Key(s, d)].1
    }

    /** The requests of a transaction over all P-states. */
    ghost function PerStateRequests(wanted: (PerformanceState, ClockDomain) -> int): seq<(Key, int)> {
      Requests(TargetsOf(states, wanted))
    }

    /** The whole outcome of a transaction over all P-states. */
    ghost predicate PerStateOutcome(before: map<Key, int>, attempts0: seq<(Key, int)>, faults0: nat,
                                    wanted: (PerformanceState, ClockDomain) -> int,
                                    r: Result<OffsetTransition, NvidiaError>, forward: seq<(Key, int)>, mutated: seq<Mutation>)
      reads this
    {
      && faults <= faults0
      && (r.Success? ==> Restored(before, wanted) && InRange(wanted)
                         && Describes(r.value.previous, before) && Describes(r.value.current, values)
                         && attempts == attempts0 + Planned(PerStateRequests(wanted), before))
      && (r.Failure? ==>
            if Rollback(r.error) then
              && UndoWritten(before, attempts0, r.error)
              && Reverted(before, attempts0, faults0, PerStateRequests(wanted), r.error, forward, mutated)
            else values == before && attempts == attempts0)
      && (faults0 - faults <= 1 && r.Failure? ==> values == before && !r.error.TransactionRollbackFailed?)
    }

    method ApplyPerState(targets: seq<Target>, ghost wanted: (PerformanceState, ClockDomain) -> int)
      returns (r: Result<OffsetTransition, NvidiaError>, ghost forward: seq<(Key, int)>, ghost mutated: seq<Mutation>)
      requires Valid() && targets == TargetsOf(states, wanted)
      modifies this
      ensures Valid() && PerStateOutcome(old(values), old(attempts), old(faults), wanted, r, forward, mutated)
      ensures old(faults) == 0 ==> (r.Success? <==> InRange(wanted))
    {
      PerStateFits(wanted);
      r, forward, mutated := ApplyOffsetTargets(targets);
      if r.Success? {
        CommittedPerState(old(values), wanted);
      }
    }

    /** Puts a snapshot back; it must know every P-state of the device. */
    method RestoreOffsets(snapshot: OffsetSnapshot)
      returns (r: Result<OffsetTransition, NvidiaError>, ghost forward: seq<(Key, int)>, ghost mutated: seq<Mutation>)
      requires Valid()
      modifies this
      ensures Valid() && PerStateOutcome(old(values), old(attempts), old(faults), Recorded(snapshot), r, forward, mutated)
      ensures !authorized ==> r == Failure(Unauthorized) && unchanged(this)
      ensures r.Success? ==> forall s | s in states :: StateOf(snapshot, s).Some?
      ensures old(faults) == 0 && authorized && (forall s | s in states :: StateOf(snapshot, s).Some?) ==>
                (r.Success? <==> InRange(Recorded(snapshot)))
    {
      forward, mutated := [], [];
      if !authorized {
        return Failure(Unauthorized), forward, mutated;
      }
      var targets: seq<Target> := [];
      for i := 0 to |states|
        invariant |targets| == i
        invariant forall k | 0 <= k < i :: StateOf(snapshot, states[k]).Some? && targets[k] == TargetOf(states[k], Recorded(snapshot))
      {
        var reading := StateOf(snapshot, states[i]);
        if reading.None? {
          return Failure(MissingSnapshotState(states[i])), forward, mutated;
        }
        targets := targets + [(states[i], ClockOffsets(reading.value.core.currentMhz, reading.value.memory.currentMhz))];
      }
      r, forward, mutated := ApplyPerState(targets, Recorded(snapshot));
    }

    /** The same offsets for every supported P-state. */
    method ApplyUniformOffsets(offsets: ClockOffsets)
      returns (r: Result<OffsetTransition, NvidiaError>, ghost forward: seq<(Key, int)>, ghost mutated: seq<Mutation>)
      requires Valid()
      modifies this
      ensures Valid() && PerStateOutcome(old(values), old(attempts), old(faults), Uniform(offsets), r, forward, mutated)
      ensures old(faults) == 0 ==> (r.Success? <==> InRange(Uniform(offsets)))
    {
      var targets: seq<Target> := [];
      for i := 0 to |states|
        invariant |targets| == i && forall k | 0 <= k < i :: targets[k] == TargetOf(states[k], Uniform(offsets))
      {
        targets := targets + [(states[i], offsets)];
      }
      r, forward, mutated := ApplyPerState(targets, Uniform(offsets));
    }

    method ApplyOemTurbo()
      returns (r: Result<OffsetTransition, NvidiaError>, ghost forward: seq<(Key, int)>, ghost mutated: seq<Mutation>)
      requires Valid()
      modifies this
      ensures Valid() && PerStateOutcome(old(values), old(attempts), old(faults), Uniform(OEM_TURBO), r, forward, mutated)
      ensures r.Success? ==> forall s | s in states :: values[Key(s, Core)] == 100 && values[Key(s, Memory)] == 200
      ensures old(faults) == 0 ==> (r.Success? <==> authorized && InRange(Uniform(OEM_TURBO)))
      ensures !authorized ==> r == Failure(Unauthorized) && unchanged(this)
    {
      forward, mutated := [], [];
      if !authorized {
        return Failure(Unauthorized), forward, mutated;
      }
      r, forward, mutated := ApplyUniformOffsets(OEM_TURBO);
    }

    /** Back to no offset at all, under the same authorization. */
    method ResetOemOffsets()
      returns (r: Result<OffsetTransition, NvidiaError>, ghost forward: seq<(Key, int)>, ghost mutated: seq<Mutation>)
      requires Valid()
      modifies this
      ensures Valid() && PerStateOutcome(old(values), old(attempts), old(faults), Uniform(RESET), r, forward, mutated)
      ensures r.Success? ==> forall s, d: ClockDomain | s in states :: values[Key(s, d)] == 0
      ensures old(faults) == 0 ==> (r.Success? <==> authorized && InRange(Uniform(RESET)))
      ensures !authorized ==> r == Failure(Unauthorized) && unchanged(this)
    {
      forward, mutated := [], [];
      if !authorized {
        return Failure(Unauthorized), forward, mutated;
      }
      r, forward, mutated := ApplyUniformOffsets(RESET);
    }

    /** Turbo and back: restoring the snapshot that the first transaction
        returned brings back every offset, however the device answered. A device
        that does not fail and whose offsets were within its limits never refuses. */
    method TurboAndBack() returns (applied: bool, restored: bool)
      requires Valid()
      modifies this
      ensures Valid()
      ensures restored ==> applied && values == old(values)
      ensures old(faults) == 0 && (forall key | key in limits :: limits[key].0 <= old(values)[key] <= limits[key].1) ==>
                restored == applied
    {
      ghost var before := values;
      restored := false;
      var transition, _, _ := ApplyOemTurbo();
      applied := transition.Success?;
      if applied {
        var previous := transition.value.previous;
        ghost var middle := values;
        RecordedInRange(previous, before);
        var back, _, _ := RestoreOffsets(previous);
        restored := back.Success?;
        if restored {
          BackAgain(previous, before, middle);
        }
      }
    }

    lemma BackAgain(snapshot: OffsetSnapshot, before: map<Key, int>, middle: map<Key, int>)
      requires Describes(snapshot, before) && Restored(middle, Recorded(snapshot)) && middle.Keys == before.Keys
      requires forall key | key in before && key.state !in states :: middle[key] == before[key]
      ensures values == before
    {
      RecordedIsTrue(snapshot, before);
      forall key | key in before ensures values[key] == before[key] {
        if key.state in states {
          assert RecordedAt(snapshot, before, key.state, key.domain);
          assert values[Key(key.state, key.domain)] == Recorded(snapshot)(key.state, key.domain);
        }
      }
    }

    lemma RecordedInRange(snapshot: OffsetSnapshot, values: map<Key, int>)
      requires Describes(snapshot, values)
      ensures forall s | s in states :: StateOf(snapshot, s).Some?
      ensures (forall key | key in limits && key in values :: limits[key].0 <= values[key] <= limits[key].1) ==>
                InRange(Recorded(snapshot))
    {
      RecordedIsTrue(snapshot, values);
      assert forall s | s in states :: RecordedAt(snapshot, values, s, Core);
      assert forall s, d: ClockDomain | s in states :: RecordedAt(snapshot, values, s, d) && Key(s, d) in limits;
    }

    ghost predicate RecordedAt(snapshot: OffsetSnapshot, values: map<Key, int>, s: PerformanceState, d: ClockDomain) {
      StateOf(snapshot, s).Some? && Key(s, d) in values && Key(s, d) in limits
      && Recorded(snapshot)(s, d) == values[Key(s, d)]
    }

    lemma RecordedIsTrue(snapshot: OffsetSnapshot, values: map<Key, int>)
      requires Describes(snapshot, values)
      ensures forall s, d: ClockDomain | s in states :: RecordedAt(snapshot, values, s, d)
    {
      forall s, d: ClockDomain | s in states ensures RecordedAt(snapshot, values, s, d) {
        var k :| 0 <= k < |states| && states[k] == s;
        assert snapshot[k] in snapshot && snapshot[k].state == s;
        var entry := StateOf(snapshot, s).value;
        assert IsTrue(Key(entry.state, d), entry.Reading(d), values);
      }
    }
  }

  /** A transaction that ended with a rollback. */
  predicate Rollback(error: NvidiaError) {
    error.TransactionRolledBack? || error.TransactionRollbackFailed?
  }

  function TargetOf(s: PerformanceState, wanted: (PerformanceState, ClockDomain) -> int): Target {
    (s, ClockOffsets(wanted(s, Core), wanted(s, Memory)))
  }

  function TargetsOf(states: seq<PerformanceState>, wanted: (PerformanceState, ClockDomain) -> int): (r: seq<Target>)
    ensures |r| == |states| && forall k | 0 <= k < |states| :: r[k] == TargetOf(states[k], wanted)
  {
    seq(|states|, k requires 0 <= k < |states| => TargetOf(states[k], wanted))
  }

  function Uniform(offsets: ClockOffsets): (PerformanceState, ClockDomain) -> int {
    (s: PerformanceState, d: ClockDomain) => offsets.ForDomain(d)
  }

  /** The offsets that a snapshot recorded, zero for a P-state it does not know. */
  function Recorded(snapshot: OffsetSnapshot): (PerformanceState, ClockDomain) -> int {
    (s: PerformanceState, d: ClockDomain) => if StateOf(snapshot, s).None? then 0 else StateOf(snapshot, s).value.Reading(d).currentMhz
  }

  predicate AskedBy(targets: seq<Target>, i: nat, request: (Key, int)) {
    i < |targets| && request.0.state == targets[i].0 && request.1 == targets[i].1.ForDomain(request.0.domain)
  }

  /** The requests are the two offsets of every target, no more and no less. */
  lemma {:induction false} RequestsMeanTargets(targets: seq<Target>)
    ensures forall q :: q in Requests(targets) <==> exists i: nat :: AskedBy(targets, i, q)
    decreases |targets|
  {
    if targets != [] {
      var n := |targets| - 1;
      RequestsMeanTargets(targets[..n]);
      var both := RequestsOf(targets[n]);
      assert both == [both[0], both[1]];
      forall q ensures q in Requests(targets) <==> exists i: nat :: AskedBy(targets, i, q) {
        if q in Requests(targets[..n]) {
          var i: nat :| AskedBy(targets[..n], i, q);
          assert AskedBy(targets, i, q);
        }
        assert q in both <==> AskedBy(targets, n, q);
        if i: nat :| AskedBy(targets, i, q) && i < n {
          assert AskedBy(targets[..n], i, q);
        }
      }
    }
  }

  lemma RequestIsMade(targets: seq<Target>, i: nat, request: (Key, int))
    requires AskedBy(targets, i, request)
    ensures request in Requests(targets)
  {
    RequestsMeanTargets(targets);
  }

  /** A request list that contradicts itself holds of no device. */
  lemma ConflictingTargetsNeverHold(targets: seq<Target>, i: nat, j: nat, domain: ClockDomain, values: map<Key, int>)
    requires i < |targets| && j < |targets| && targets[i].0 == targets[j].0
    requires targets[i].1.ForDomain(domain) != targets[j].1.ForDomain(domain)
    ensures !Consistent(Requests(targets)) && !Holds(Requests(targets), values)
  {
    RequestIsMade(targets, i, (Key(targets[i].0, domain), targets[i].1.ForDomain(domain)));
    RequestIsMade(targets, j, (Key(targets[j].0, domain), targets[j].1.ForDomain(domain)));
  }
}
