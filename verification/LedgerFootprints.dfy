/**
 The footprint side of soroban-env-host/src/e2e_invoke.rs: turning a recorded footprint into
 the transaction's key lists and restored indices, and building the storage an enforcing
 invocation starts from.

 Maps are iterated in some order that lists every key once; the results hold for all of them.
 */
module LedgerFootprints {
  import opened Prelude
  import opened LedgerStorage
  import opened StorageReplay

  ghost predicate Enumerates(order: seq<LedgerKey>, keys: set<LedgerKey>) {
    && (forall i, j :: 0 <= i < j < |order| ==> order[i] != order[j])
    && (forall k :: k in order <==> k in keys)
  }

  // ---------------------------------------------------------------- key lists

  function KeysWith(fp: Footprint, order: seq<LedgerKey>, ty: AccessType): seq<LedgerKey> {
    if order == [] then []
    else
      var k := order[|order| - 1];
      KeysWith(fp, order[..|order| - 1], ty) + if k in fp && fp[k] == ty then [k] else []
  }

  function FootprintOf(readWrite: seq<LedgerKey>, readOnly: seq<LedgerKey>): Footprint {
    map k | k in readWrite + readOnly :: if k in readOnly then ReadOnly else ReadWrite
  }

  lemma {:induction false} KeysWithMember(fp: Footprint, order: seq<LedgerKey>, ty: AccessType, k: LedgerKey)
    ensures k in KeysWith(fp, order, ty) <==> k in order && k in fp && fp[k] == ty
  {
    if order != [] {
      KeysWithMember(fp, order[..|order| - 1], ty, k);
      assert order == order[..|order| - 1] + [order[|order| - 1]];
    }
  }

  lemma {:induction false} KeysWithStep(fp: Footprint, order: seq<LedgerKey>, ty: AccessType, i: nat)
    requires i < |order|
    ensures KeysWith(fp, order[..i + 1], ty) ==
      if order[i] in fp && fp[order[i]] == ty then KeysWith(fp, order[..i], ty) + [order[i]]
      else KeysWith(fp, order[..i], ty)
  {
    assert order[..i + 1][..i] == order[..i];
  }

  /** `storage_footprint_to_ledger_footprint`. */
  method StorageFootprintToLedgerFootprint(fp: Footprint, order: seq<LedgerKey>)
    returns (readOnly: seq<LedgerKey>, readWrite: seq<LedgerKey>)
    requires Enumerates(order, fp.Keys)
    ensures readOnly == KeysWith(fp, order, ReadOnly) && readWrite == KeysWith(fp, order, ReadWrite)
    ensures FootprintOf(readWrite, readOnly) == fp
  {
    readOnly, readWrite := [], [];
    for i := 0 to |order|
      invariant readOnly == KeysWith(fp, order[..i], ReadOnly)
      invariant readWrite == KeysWith(fp, order[..i], ReadWrite)
    {
      KeysWithStep(fp, order, ReadOnly, i);
      KeysWithStep(fp, order, ReadWrite, i);
      match fp[order[i]] {
        case ReadOnly => readOnly := readOnly + [order[i]];
        case ReadWrite => readWrite := readWrite + [order[i]];
      }
    }
    assert order[..|order|] == order;
    FootprintRoundTrip(fp, order);
  }

  /** Splitting a footprint into key lists and building it again is the identity. */
  lemma {:induction false} FootprintRoundTrip(fp: Footprint, order: seq<LedgerKey>)
    requires Enumerates(order, fp.Keys)
    ensures FootprintOf(KeysWith(fp, order, ReadWrite), KeysWith(fp, order, ReadOnly)) == fp
  {
    var built := FootprintOf(KeysWith(fp, order, ReadWrite), KeysWith(fp, order, ReadOnly));
    forall k ensures k in built <==> k in fp
      ensures k in fp ==> built[k] == fp[k]
    {
      KeysWithMember(fp, order, ReadWrite, k);
      KeysWithMember(fp, order, ReadOnly, k);
    }
  }

  predicate AllSupported(keys: seq<LedgerKey>) {
    forall i :: 0 <= i < |keys| ==> IsSupported(keys[i])
  }

  /** `build_storage_footprint_from_xdr`: a key in both lists ends up read-only. */
  method BuildStorageFootprint(readWrite: seq<LedgerKey>, readOnly: seq<LedgerKey>) returns (r: Result<Footprint>)
    ensures r ==
      if AllSupported(readWrite) && AllSupported(readOnly) then Ok(FootprintOf(readWrite, readOnly))
      else Err(StorageInternalError)
    ensures r.Ok? ==> forall k :: k in r.value <==> k in readWrite || k in readOnly
    ensures r.Ok? ==> forall k :: k in r.value ==> (r.value[k] == ReadOnly <==> k in readOnly)
  {
    var fp: Footprint := map[];
    for i := 0 to |readWrite|
      invariant AllSupported(readWrite[..i])
      invariant fp == FootprintOf(readWrite[..i], [])
    {
      if !IsSupported(readWrite[i]) {
        return Err(StorageInternalError);
      }
      assert readWrite[..i + 1] == readWrite[..i] + [readWrite[i]];
      fp := fp[readWrite[i] := ReadWrite];
    }
    assert readWrite[..|readWrite|] == readWrite;
    for i := 0 to |readOnly|
      invariant AllSupported(readOnly[..i])
      invariant fp == FootprintOf(readWrite, readOnly[..i])
    {
      if !IsSupported(readOnly[i]) {
        return Err(StorageInternalError);
      }
      assert readOnly[..i + 1] == readOnly[..i] + [readOnly[i]];
      fp := fp[readOnly[i] := ReadOnly];
    }
    assert readOnly[..|readOnly|] == readOnly;
    return Ok(fp);
  }

  // ---------------------------------------------------------------- restored entries

  /** The entry is archived in the snapshot, so using it restores it. */
  predicate IsRestored(snapshot: Snapshot, key: LedgerKey, li: LedgerInfo) {
    && key in snapshot
    && DurabilityOf(snapshot[key].0.key).Some?
    && snapshot[key].1.Some? && snapshot[key].1.value < li.sequenceNumber
    && IsPersistent(key)
  }

  function RestoredKeys(fp: Footprint, snapshot: Snapshot, li: LedgerInfo): set<LedgerKey> {
    set k | k in fp && IsRestored(snapshot, k, li)
  }

  /** The positions of the restored keys in the read-write list. */
  function RestoredIndices(readWrite: seq<LedgerKey>, snapshot: Snapshot, li: LedgerInfo): seq<nat> {
    if readWrite == [] then []
    else
      var last := |readWrite| - 1;
      RestoredIndices(readWrite[..last], snapshot, li) + if IsRestored(snapshot, readWrite[last], li) then [last] else []
  }

  lemma {:induction false} RestoredIndicesStep(readWrite: seq<LedgerKey>, key: LedgerKey, snapshot: Snapshot, li: LedgerInfo)
    ensures RestoredIndices(readWrite + [key], snapshot, li) ==
      if IsRestored(snapshot, key, li) then RestoredIndices(readWrite, snapshot, li) + [|readWrite|]
      else RestoredIndices(readWrite, snapshot, li)
  {
    assert (readWrite + [key])[..|readWrite|] == readWrite;
  }

  ghost predicate RestoredAreReadWrite(fp: Footprint, snapshot: Snapshot, li: LedgerInfo) {
    forall k :: k in fp && IsRestored(snapshot, k, li) ==> fp[k] == ReadWrite
  }

  function RestoredAmong(keys: seq<LedgerKey>, snapshot: Snapshot, li: LedgerInfo): set<LedgerKey> {
    set k | k in keys && IsRestored(snapshot, k, li)
  }

  lemma {:induction false} RestoredAmongStep(order: seq<LedgerKey>, i: nat, snapshot: Snapshot, li: LedgerInfo)
    requires i < |order|
    ensures RestoredAmong(order[..i + 1], snapshot, li) ==
      RestoredAmong(order[..i], snapshot, li) + if IsRestored(snapshot, order[i], li) then {order[i]} else {}
  {
    assert order[..i + 1] == order[..i] + [order[i]];
  }

  /**
   The loop that finds the auto-restored entries of a recorded footprint. It counts the
   read-write keys it passes, so that an index refers to the emitted read-write list.
   */
  method FindRestoredEntries(fp: Footprint, order: seq<LedgerKey>, snapshot: Snapshot, li: LedgerInfo)
    returns (r: Result<(seq<nat>, set<LedgerKey>)>)
    requires Enumerates(order, fp.Keys)
    ensures r ==
      if RestoredAreReadWrite(fp, snapshot, li) then
        Ok((RestoredIndices(KeysWith(fp, order, ReadWrite), snapshot, li), RestoredKeys(fp, snapshot, li)))
      else Err(StorageInternalError)
  {
    var currentRwId: nat, ids: seq<nat>, keys: set<LedgerKey> := 0, [], {};
    for i := 0 to |order|
      invariant currentRwId == |KeysWith(fp, order[..i], ReadWrite)|
      invariant ids == RestoredIndices(KeysWith(fp, order[..i], ReadWrite), snapshot, li)
      invariant keys == RestoredAmong(order[..i], snapshot, li)
      invariant forall k :: k in keys ==> k in fp && fp[k] == ReadWrite
    {
      hide KeysWith, RestoredIndices, RestoredAmong;
      var lk := order[i];
      assert lk in order && lk in fp;
      hide Enumerates;
      RestoredAmongStep(order, i, snapshot, li);
      KeysWithStep(fp, order, ReadWrite, i);
      RestoredIndicesStep(KeysWith(fp, order[..i], ReadWrite), lk, snapshot, li);
      if lk in snapshot {
        var (le, liveUntil) := snapshot[lk];
        if DurabilityOf(le.key).Some? && liveUntil.Some? && liveUntil.value < li.sequenceNumber && IsPersistent(lk) {
          if fp[lk] != ReadWrite {
            return Err(StorageInternalError);
          }
          ids := ids + [currentRwId];
          keys := keys + {lk};
        }
      }
      if fp[lk] == ReadWrite {
        currentRwId := currentRwId + 1;
      }
    }
    assert order[..|order|] == order;
    assert keys == RestoredKeys(fp, snapshot, li);
    return Ok((ids, keys));
  }

  predicate InRange(ids: seq<nat>, n: nat) {
    forall i :: 0 <= i < |ids| ==> ids[i] < n
  }

  function KeysAt(readWrite: seq<LedgerKey>, ids: seq<nat>): set<LedgerKey>
    requires InRange(ids, |readWrite|)
  {
    set i | 0 <= i < |ids| :: readWrite[ids[i]]
  }

  /** `build_restored_key_set`. */
  method BuildRestoredKeySet(readWrite: seq<LedgerKey>, ids: seq<nat>) returns (r: Result<Option<set<LedgerKey>>>)
    ensures r ==
      if ids == [] then Ok(None)
      else if InRange(ids, |readWrite|) then Ok(Some(KeysAt(readWrite, ids)))
      else Err(StorageInternalError)
  {
    if ids == [] {
      return Ok(None);
    }
    var keys: set<LedgerKey> := {};
    for n := 0 to |ids|
      invariant InRange(ids[..n], |readWrite|)
      invariant keys == KeysAt(readWrite, ids[..n])
    {
      if ids[n] >= |readWrite| {
        return Err(StorageInternalError);
      }
      assert ids[..n + 1][n] == ids[n];
      ghost var before := keys;
      keys := keys + {readWrite[ids[n]]};
      assert keys == KeysAt(readWrite, ids[..n + 1]) by {
        KeysAtGrows(readWrite, ids, n);
      }
    }
    assert ids[..|ids|] == ids;
    return Ok(Some(keys));
  }

  lemma {:induction false} KeysAtGrows(readWrite: seq<LedgerKey>, ids: seq<nat>, n: nat)
    requires n < |ids| && InRange(ids[..n + 1], |readWrite|)
    ensures InRange(ids[..n], |readWrite|) && ids[n] < |readWrite|
    ensures KeysAt(readWrite, ids[..n + 1]) == KeysAt(readWrite, ids[..n]) + {readWrite[ids[n]]}
  {
    assert ids[..n + 1][n] == ids[n];
    assert forall i :: 0 <= i < n ==> ids[..n + 1][i] == ids[..n][i];
    forall k | k in KeysAt(readWrite, ids[..n]) ensures k in KeysAt(readWrite, ids[..n + 1]) {
      var i :| 0 <= i < n && readWrite[ids[..n][i]] == k;
      assert readWrite[ids[..n + 1][i]] == k;
    }
    forall k | k in KeysAt(readWrite, ids[..n + 1]) ensures k in KeysAt(readWrite, ids[..n]) + {readWrite[ids[n]]} {
      var i :| 0 <= i < n + 1 && readWrite[ids[..n + 1][i]] == k;
      if i < n {
        assert readWrite[ids[..n][i]] == k;
      }
    }
  }

  lemma {:induction false} RestoredIndicesMember(readWrite: seq<LedgerKey>, snapshot: Snapshot, li: LedgerInfo, i: nat)
    ensures i in RestoredIndices(readWrite, snapshot, li) <==> i < |readWrite| && IsRestored(snapshot, readWrite[i], li)
  {
    if readWrite != [] {
      var last := |readWrite| - 1;
      RestoredIndicesMember(readWrite[..last], snapshot, li, i);
    }
  }

  lemma {:induction false} RestoredIndicesInRange(readWrite: seq<LedgerKey>, snapshot: Snapshot, li: LedgerInfo)
    ensures
      var ids := RestoredIndices(readWrite, snapshot, li);
      && InRange(ids, |readWrite|)
      && forall n :: 0 <= n < |ids| ==> IsRestored(snapshot, readWrite[ids[n]], li)
  {
    hide RestoredIndices, IsRestored;
    var ids := RestoredIndices(readWrite, snapshot, li);
    forall n | 0 <= n < |ids| ensures ids[n] < |readWrite| && IsRestored(snapshot, readWrite[ids[n]], li) {
      RestoredIndicesMember(readWrite, snapshot, li, ids[n]);
    }
  }

  lemma {:induction false} KeysAtRestored(readWrite: seq<LedgerKey>, snapshot: Snapshot, li: LedgerInfo, k: LedgerKey)
    ensures InRange(RestoredIndices(readWrite, snapshot, li), |readWrite|)
    ensures k in KeysAt(readWrite, RestoredIndices(readWrite, snapshot, li)) <==>
      k in readWrite && IsRestored(snapshot, k, li)
  {
    hide RestoredIndices, IsRestored;
    RestoredIndicesInRange(readWrite, snapshot, li);
    var ids := RestoredIndices(readWrite, snapshot, li);
    if k in readWrite && IsRestored(snapshot, k, li) {
      var i: nat :| i < |readWrite| && readWrite[i] == k;
      RestoredIndicesMember(readWrite, snapshot, li, i);
      var n :| 0 <= n < |ids| && ids[n] == i;
      assert readWrite[ids[n]] == k;
    }
  }

  /** Reading the emitted indices back against the emitted list gives exactly the restored keys. */
  lemma {:induction false} RestoredIndicesRoundTrip(
    fp: Footprint, order: seq<LedgerKey>, snapshot: Snapshot, li: LedgerInfo)
    requires Enumerates(order, fp.Keys) && RestoredAreReadWrite(fp, snapshot, li)
    ensures
      var readWrite := KeysWith(fp, order, ReadWrite);
      var ids := RestoredIndices(readWrite, snapshot, li);
      && InRange(ids, |readWrite|) && KeysAt(readWrite, ids) == RestoredKeys(fp, snapshot, li)
      && (ids == [] <==> RestoredKeys(fp, snapshot, li) == {})
  {
    var readWrite := KeysWith(fp, order, ReadWrite);
    var ids := RestoredIndices(readWrite, snapshot, li);
    hide KeysWith, RestoredIndices, IsRestored;
    RestoredIndicesInRange(readWrite, snapshot, li);
    forall k ensures k in KeysAt(readWrite, ids) <==> k in RestoredKeys(fp, snapshot, li) {
      KeysWithMember(fp, order, ReadWrite, k);
      KeysAtRestored(readWrite, snapshot, li, k);
    }
    if ids != [] {
      assert readWrite[ids[0]] in KeysAt(readWrite, ids);
    }
  }

  /**
   For the footprint of any recording run, the search for restored entries meets no read-only
   one, the emitted lists give the footprint back, and the emitted indices give the restored
   keys back.
   */
  lemma {:induction false} RecordedFootprintIsEmittedFaithfully(
    snapshot: Snapshot, steps: seq<Step>, li: LedgerInfo, order: seq<LedgerKey>)
    requires Enumerates(order, After(StartRecording(snapshot), steps, li).storage.footprint.Keys)
    ensures
      var fp := After(StartRecording(snapshot), steps, li).storage.footprint;
      var readWrite, readOnly := KeysWith(fp, order, ReadWrite), KeysWith(fp, order, ReadOnly);
      var ids := RestoredIndices(readWrite, snapshot, li);
      && RestoredAreReadWrite(fp, snapshot, li)
      && AllSupported(readWrite) && AllSupported(readOnly)
      && FootprintOf(readWrite, readOnly) == fp
      && InRange(ids, |readWrite|) && KeysAt(readWrite, ids) == RestoredKeys(fp, snapshot, li)
      && (ids == [] <==> RestoredKeys(fp, snapshot, li) == {})
  {
    var start := StartRecording(snapshot);
    var fp := After(start, steps, li).storage.footprint;
    var readWrite, readOnly := KeysWith(fp, order, ReadWrite), KeysWith(fp, order, ReadOnly);
    forall k | k in fp && IsRestored(snapshot, k, li) ensures fp[k] == ReadWrite {
      ArchivedKeysAreReadWrite(snapshot, steps, li, k);
    }
    forall k | k in fp ensures IsSupported(k) {
      var i := FootprintKeysAreAccessed(start, steps, snapshot, li, k);
    }
    forall i | 0 <= i < |readWrite| ensures IsSupported(readWrite[i]) {
      KeysWithMember(fp, order, ReadWrite, readWrite[i]);
    }
    forall i | 0 <= i < |readOnly| ensures IsSupported(readOnly[i]) {
      KeysWithMember(fp, order, ReadOnly, readOnly[i]);
    }
    FootprintRoundTrip(fp, order);
    RestoredIndicesRoundTrip(fp, order, snapshot, li);
  }

  // ---------------------------------------------------------------- the initial map

  datatype Flow = Flow(build: Build, isRecording: bool, ledgerNum: nat)

  predicate IsExpired(input: EntryWithLiveUntil, flow: Flow) {
    input.1.Some? && input.1.value < flow.ledgerNum
  }

  /** An expired temporary entry, which recording mode passes over. */
  predicate IsSkipped(input: EntryWithLiveUntil, flow: Flow) {
    flow.build.RecordingBuild? && flow.isRecording && IsExpired(input, flow) && !IsPersistent(input.0.key)
  }

  predicate IsAccepted(input: EntryWithLiveUntil, fp: Footprint, flow: Flow) {
    && IsSupported(input.0.key)
    && (flow.build.RecordingBuild? && IsExpired(input, flow) ==> flow.isRecording)
    && (input.1.None? ==> DurabilityOf(input.0.key).None?)
    && (IsSkipped(input, flow) || input.0.key in fp)
  }

  predicate AllAccepted(inputs: seq<EntryWithLiveUntil>, fp: Footprint, flow: Flow) {
    forall i :: 0 <= i < |inputs| ==> IsAccepted(inputs[i], fp, flow)
  }

  /** The last input for a key that is not passed over. */
  function LoadedFor(inputs: seq<EntryWithLiveUntil>, key: LedgerKey, flow: Flow): Option<EntryWithLiveUntil> {
    if inputs == [] then None
    else
      var input := inputs[|inputs| - 1];
      if input.0.key == key && !IsSkipped(input, flow) then Some(input)
      else LoadedFor(inputs[..|inputs| - 1], key, flow)
  }

  function LoadedStep(
    loaded: Option<EntryWithLiveUntil>, input: EntryWithLiveUntil, key: LedgerKey, flow: Flow): Option<EntryWithLiveUntil>
  {
    if input.0.key == key && !IsSkipped(input, flow) then Some(input) else loaded
  }

  lemma {:induction false} LoadedAppend(
    inputs: seq<EntryWithLiveUntil>, input: EntryWithLiveUntil, key: LedgerKey, flow: Flow)
    ensures LoadedFor(inputs + [input], key, flow) == LoadedStep(LoadedFor(inputs, key, flow), input, key, flow)
  {
    assert (inputs + [input])[..|inputs|] == inputs;
  }

  function BuiltMap(fp: Footprint, inputs: seq<EntryWithLiveUntil>, flow: Flow): StorageMap {
    map k | k in fp :: LoadedFor(inputs, k, flow)
  }

  function Zip(entries: seq<LedgerEntry>, ttls: seq<Option<nat>>): seq<EntryWithLiveUntil>
    requires |entries| == |ttls|
  {
    seq(|entries|, i requires 0 <= i < |entries| => (entries[i], ttls[i]))
  }

  /** `build_storage_map_from_xdr_ledger_entries`, without the map of TTL entries. */
  method BuildStorageMap(
    fp: Footprint, order: seq<LedgerKey>, entries: seq<LedgerEntry>, ttls: seq<Option<nat>>, flow: Flow)
    returns (r: Result<StorageMap>)
    requires Enumerates(order, fp.Keys)
    ensures r ==
      if |entries| == |ttls| && AllAccepted(Zip(entries, ttls), fp, flow) then Ok(BuiltMap(fp, Zip(entries, ttls), flow))
      else Err(StorageInternalError)
  {
    if |entries| != |ttls| {
      return Err(StorageInternalError);
    }
    ghost var inputs := Zip(entries, ttls);
    var storageMap: StorageMap := map[];
    for i := 0 to |entries|
      invariant AllAccepted(inputs[..i], fp, flow)
      invariant storageMap.Keys <= fp.Keys
      invariant forall k :: k in storageMap <==> LoadedFor(inputs[..i], k, flow).Some?
      invariant forall k :: k in storageMap ==> storageMap[k] == LoadedFor(inputs[..i], k, flow)
    {
      var le, ttl := entries[i], ttls[i];
      var key := le.key;
      assert inputs[i] == (le, ttl) && inputs[..i + 1] == inputs[..i] + [(le, ttl)];
      forall k ensures LoadedFor(inputs[..i + 1], k, flow) ==
                       LoadedStep(LoadedFor(inputs[..i], k, flow), (le, ttl), k, flow) {
        LoadedAppend(inputs[..i], (le, ttl), k, flow);
      }
      if !IsSupported(key) {
        return Err(StorageInternalError);
      }
      if ttl.Some? {
        if flow.build.RecordingBuild? && ttl.value < flow.ledgerNum {
          if !flow.isRecording {
            return Err(StorageInternalError);
          }
          if !IsPersistent(key) {
            continue;
          }
        }
      } else if DurabilityOf(key).Some? {
        return Err(StorageInternalError);
      }
      if key !in fp {
        return Err(StorageInternalError);
      }
      storageMap := storageMap[key := Some((le, ttl))];
    }
    assert inputs[..|entries|] == inputs;
    for i := 0 to |order|
      invariant storageMap.Keys <= fp.Keys
      invariant forall k :: k in order[..i] ==> k in storageMap
      invariant forall k :: k in storageMap ==> storageMap[k] == LoadedFor(inputs, k, flow)
      invariant forall k :: LoadedFor(inputs, k, flow).Some? ==> k in storageMap
    {
      if order[i] !in storageMap {
        storageMap := storageMap[order[i] := None];
      }
    }
    assert forall k :: k in fp ==> k in order[..|order|];
    assert storageMap == BuiltMap(fp, inputs, flow);
    return Ok(storageMap);
  }

  lemma {:induction false} LoadedIsInput(inputs: seq<EntryWithLiveUntil>, key: LedgerKey, flow: Flow)
    ensures LoadedFor(inputs, key, flow).Some? ==>
      LoadedFor(inputs, key, flow).value in inputs && LoadedFor(inputs, key, flow).value.0.key == key
  {
    if inputs != [] {
      LoadedIsInput(inputs[..|inputs| - 1], key, flow);
    }
  }

  /** An enforcing invocation with the recording feature starts with live entries only. */
  lemma {:induction false} BuiltMapIsLive(fp: Footprint, inputs: seq<EntryWithLiveUntil>, li: LedgerInfo)
    requires AllAccepted(inputs, fp, Flow(RecordingBuild, false, li.sequenceNumber))
    ensures AllLive(BuiltMap(fp, inputs, Flow(RecordingBuild, false, li.sequenceNumber)), li)
  {
    var flow := Flow(RecordingBuild, false, li.sequenceNumber);
    forall k | k in fp ensures IsLive(k, LoadedFor(inputs, k, flow), li) {
      LoadedIsInput(inputs, k, flow);
      var loaded := LoadedFor(inputs, k, flow);
      if loaded.Some? {
        var i :| 0 <= i < |inputs| && inputs[i] == loaded.value;
        assert IsAccepted(inputs[i], fp, flow);
      }
    }
  }

  /**
   The default build accepts an enforcing invocation's entries whether or not they are expired:
   the two builds agree if and only if none of the entries the default build accepts is expired.
   */
  lemma {:induction false} BuildsAgreeIffNoneExpired(fp: Footprint, inputs: seq<EntryWithLiveUntil>, ledgerNum: nat)
    requires AllAccepted(inputs, fp, Flow(DefaultBuild, false, ledgerNum))
    ensures
      AllAccepted(inputs, fp, Flow(RecordingBuild, false, ledgerNum)) <==>
      forall i :: 0 <= i < |inputs| ==> !IsExpired(inputs[i], Flow(DefaultBuild, false, ledgerNum))
  {
    var d, r := Flow(DefaultBuild, false, ledgerNum), Flow(RecordingBuild, false, ledgerNum);
    assert forall i :: 0 <= i < |inputs| ==> IsAccepted(inputs[i], fp, d);
    assert forall i :: 0 <= i < |inputs| ==>
      (IsAccepted(inputs[i], fp, r) <==> !IsExpired(inputs[i], d));
  }

  /** An expired entry that the default build lets into the initial map. */
  lemma {:induction false} DefaultBuildAcceptsExpired()
    ensures
      var key := ContractCodeKey(0);
      var fp: Footprint := map[key := ReadOnly];
      var inputs := [(LedgerEntry(key, 0, 1), Some(4))];
      var li := LedgerInfo(5, 1, 1, 1);
      && AllAccepted(inputs, fp, Flow(DefaultBuild, false, 5))
      && !AllLive(BuiltMap(fp, inputs, Flow(DefaultBuild, false, 5)), li)
      && !AllAccepted(inputs, fp, Flow(RecordingBuild, false, 5))
  {
    var key := ContractCodeKey(0);
    var fp: Footprint := map[key := ReadOnly];
    var inputs := [(LedgerEntry(key, 0, 1), Some(4))];
    var flow := Flow(DefaultBuild, false, 5);
    assert inputs[0] == (LedgerEntry(key, 0, 1), Some(4));
    assert IsAccepted(inputs[0], fp, flow);
    assert LoadedFor(inputs, key, flow) == Some(inputs[0]);
    assert !IsLive(key, BuiltMap(fp, inputs, flow)[key], LedgerInfo(5, 1, 1, 1));
    assert !IsAccepted(inputs[0], fp, Flow(RecordingBuild, false, 5));
  }

  /** In either build, from the map it builds every enforcing run respects the footprint. */
  lemma {:induction false} BuiltMapRunsRespectFootprint(
    fp: Footprint, inputs: seq<EntryWithLiveUntil>, steps: seq<Step>, li: LedgerInfo, build: Build, key: LedgerKey)
    requires AllAccepted(inputs, fp, Flow(build, false, li.sequenceNumber))
    ensures
      var initial := BuiltMap(fp, inputs, Flow(build, false, li.sequenceNumber));
      var st := After(StartEnforcing(fp, initial, build), steps, li).storage;
      && st.footprint == fp && st.entries.Keys == fp.Keys
      && (key in fp && fp[key] == ReadOnly ==> Raised(initial[key], st.entries[key]))
      && (TryGetFull(st, key, li).1.Err? <==> !IsSupported(key) || key !in fp)
      && (key in fp && IsSupported(key) ==> TryGetFull(st, key, li) == (st, Ok(st.entries[key])))
  {
    if build.RecordingBuild? {
      BuiltMapIsLive(fp, inputs, li);
    }
    EnforcingRunsRespectFootprint(
      fp, BuiltMap(fp, inputs, Flow(build, false, li.sequenceNumber)), steps, li, build, key);
  }

  // ---------------------------------------------------------------- recording, then enforcing

  /** Every entry of the snapshot is stored under its own key, and only contract entries have a TTL. */
  ghost predicate WellKeyed(snapshot: Snapshot) {
    forall k :: k in snapshot ==> snapshot[k].0.key == k && (snapshot[k].1.Some? ==> DurabilityOf(k).Some?)
  }

  /** The ledger entries supplied for a footprint: what the ledger shows, archived ones restored. */
  function ViewInputs(snapshot: Snapshot, order: seq<LedgerKey>, li: LedgerInfo): seq<EntryWithLiveUntil> {
    if order == [] then []
    else
      var view := View(snapshot, order[|order| - 1], li);
      ViewInputs(snapshot, order[..|order| - 1], li) + if view.Some? then [view.value] else []
  }

  lemma {:induction false} ViewIsAccepted(snapshot: Snapshot, fp: Footprint, key: LedgerKey, li: LedgerInfo, build: Build)
    requires Assumes(snapshot, li) && WellKeyed(snapshot) && key in fp && IsSupported(key)
    ensures
      var view := View(snapshot, key, li);
      view.Some? ==> view.value.0.key == key && IsAccepted(view.value, fp, Flow(build, false, li.sequenceNumber))
  {
    if key in snapshot {
      assert HasTtl(key, snapshot[key]);
    }
    ViewIsLive(snapshot, key, li);
  }

  lemma {:induction false} ViewInputsAccepted(
    snapshot: Snapshot, fp: Footprint, order: seq<LedgerKey>, li: LedgerInfo, build: Build)
    requires Assumes(snapshot, li) && WellKeyed(snapshot)
    requires forall i :: 0 <= i < |order| ==> order[i] in fp && IsSupported(order[i])
    ensures AllAccepted(ViewInputs(snapshot, order, li), fp, Flow(build, false, li.sequenceNumber))
  {
    hide View, IsAccepted;
    if order != [] {
      ViewInputsAccepted(snapshot, fp, order[..|order| - 1], li, build);
      ViewIsAccepted(snapshot, fp, order[|order| - 1], li, build);
    }
  }

  lemma {:induction false} ViewInputsLoad(
    snapshot: Snapshot, order: seq<LedgerKey>, li: LedgerInfo, build: Build, key: LedgerKey)
    requires WellKeyed(snapshot)
    requires forall i, j :: 0 <= i < j < |order| ==> order[i] != order[j]
    ensures LoadedFor(ViewInputs(snapshot, order, li), key, Flow(build, false, li.sequenceNumber)) ==
      if key in order then View(snapshot, key, li) else None
  {
    if order != [] {
      var flow := Flow(build, false, li.sequenceNumber);
      var rest, last := order[..|order| - 1], order[|order| - 1];
      ViewInputsLoad(snapshot, rest, li, build, key);
      assert order == rest + [last];
      var inputs, view := ViewInputs(snapshot, rest, li), View(snapshot, last, li);
      assert view.Some? ==> view.value.0.key == last;
      hide View, LoadedFor, IsSkipped, WellKeyed;
      if view.Some? {
        LoadedAppend(inputs, view.value, key, flow);
        assert !IsSkipped(view.value, flow) by { NothingSkippedWhenEnforcing(view.value, flow); }
      } else {
        assert ViewInputs(snapshot, order, li) == inputs;
      }
    }
  }

  lemma {:induction false} NothingSkippedWhenEnforcing(input: EntryWithLiveUntil, flow: Flow)
    requires !flow.isRecording
    ensures !IsSkipped(input, flow)
  {
  }

  /**
   A recorded invocation replays from what it emits: the emitted key lists are accepted, the
   map built from the ledger entries they name is accepted, and the enforcing run over it, in
   either build, gives the outcomes of the recording run.
   */
  lemma {:induction false} RecordedInvocationReplays(
    snapshot: Snapshot, steps: seq<Step>, li: LedgerInfo, order: seq<LedgerKey>, build: Build)
    requires Assumes(snapshot, li) && WellKeyed(snapshot) && PutsLive(steps, li)
    requires Enumerates(order, After(StartRecording(snapshot), steps, li).storage.footprint.Keys)
    ensures
      var recorded := After(StartRecording(snapshot), steps, li);
      var readWrite := KeysWith(recorded.storage.footprint, order, ReadWrite);
      var readOnly := KeysWith(recorded.storage.footprint, order, ReadOnly);
      var fp := FootprintOf(readWrite, readOnly);
      var flow := Flow(build, false, li.sequenceNumber);
      var inputs := ViewInputs(snapshot, order, li);
      && AllSupported(readWrite) && AllSupported(readOnly)
      && AllAccepted(inputs, fp, flow)
      && After(StartEnforcing(fp, BuiltMap(fp, inputs, flow), build), steps, li).outcomes == recorded.outcomes
  {
    var fp := After(StartRecording(snapshot), steps, li).storage.footprint;
    RecordedFootprintIsEmittedFaithfully(snapshot, steps, li, order);
    RecordedKeysAreSupported(snapshot, steps, li, order);
    hide After, KeysWith, FootprintOf, AllAccepted, AllSupported, RestoredIndices, RestoredKeys, KeysAt, ViewInputs;
    ViewInputsAccepted(snapshot, fp, order, li, build);
    BuiltFromViews(snapshot, fp, order, li, build);
    RecordedFootprintReplays(snapshot, steps, li, build);
  }

  lemma {:induction false} RecordedKeysAreSupported(
    snapshot: Snapshot, steps: seq<Step>, li: LedgerInfo, order: seq<LedgerKey>)
    requires Enumerates(order, After(StartRecording(snapshot), steps, li).storage.footprint.Keys)
    ensures
      var fp := After(StartRecording(snapshot), steps, li).storage.footprint;
      forall i :: 0 <= i < |order| ==> order[i] in fp && IsSupported(order[i])
  {
    var fp := After(StartRecording(snapshot), steps, li).storage.footprint;
    forall i | 0 <= i < |order| ensures order[i] in fp && IsSupported(order[i]) {
      assert order[i] in order;
      var n := FootprintKeysAreAccessed(StartRecording(snapshot), steps, snapshot, li, order[i]);
    }
  }

  lemma {:induction false} BuiltFromViews(snapshot: Snapshot, fp: Footprint, order: seq<LedgerKey>, li: LedgerInfo, build: Build)
    requires WellKeyed(snapshot) && Enumerates(order, fp.Keys)
    ensures BuiltMap(fp, ViewInputs(snapshot, order, li), Flow(build, false, li.sequenceNumber)) == InitialMap(snapshot, fp, li)
  {
    var inputs, flow := ViewInputs(snapshot, order, li), Flow(build, false, li.sequenceNumber);
    hide LoadedFor, View, ViewInputs;
    forall k | k in fp ensures LoadedFor(inputs, k, flow) == View(snapshot, k, li) {
      ViewInputsLoad(snapshot, order, li, build, k);
    }
  }
}
