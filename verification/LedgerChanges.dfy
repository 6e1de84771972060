/**
 The other end of soroban-env-host/src/e2e_invoke.rs: the ledger changes an invocation reports
 and the rent changes extracted from them.
 */
module LedgerChanges {
  import opened Prelude
  import opened LedgerStorage
  import opened StorageReplay
  import opened LedgerFootprints
  import Saturating
  import StorageMeaning
  import Fees = RentFees

  /** `LedgerEntryLiveUntilChange`. */
  datatype TtlChange = TtlChange(durability: Durability, isCode: bool, oldLiveUntil: nat, newLiveUntil: nat)

  /** `LedgerEntryChange`. */
  datatype Change = Change(
    readOnly: bool, key: LedgerKey, oldSize: nat, newValue: Option<LedgerEntry>, newSize: nat, ttl: Option<TtlChange>)

  /** The state after an invocation, and what its changes are measured against. */
  datatype Finish = Finish(
    storage: Storage, initial: Snapshot, minLiveUntil: nat, restored: Option<set<LedgerKey>>, currentSeq: nat)

  // ---------------------------------------------------------------- one change

  /** The entry before the invocation; with the recording feature, unless it had expired. */
  function OldEntry(f: Finish, key: LedgerKey): Option<EntryWithLiveUntil> {
    if key !in f.initial then None
    else
      var (entry, liveUntil) := f.initial[key];
      if LooksForExpired(f.storage.mode) && DurabilityOf(key).Some? && liveUntil.Some? && liveUntil.value < f.currentSeq then None
      else Some((entry, liveUntil))
  }

  function NewEntry(f: Finish, key: LedgerKey): Option<EntryWithLiveUntil> {
    if key in f.storage.entries then f.storage.entries[key] else None
  }

  predicate IsReadWrite(f: Finish, key: LedgerKey) {
    key in f.storage.footprint && f.storage.footprint[key] == ReadWrite
  }

  /** The entry was restored by this invocation and is still there. */
  predicate WasRestored(f: Finish, key: LedgerKey) {
    IsReadWrite(f, key) && NewEntry(f, key).Some? && f.restored.Some? && key in f.restored.value
  }

  function OldLiveUntil(f: Finish, key: LedgerKey): nat {
    if OldEntry(f, key).Some? && OldEntry(f, key).value.1.Some? then OldEntry(f, key).value.1.value else 0
  }

  function NewLiveUntil(f: Finish, key: LedgerKey): nat {
    if NewEntry(f, key).None? || NewEntry(f, key).value.1.None? then 0
    else
      Saturating.Max(Saturating.Max(NewEntry(f, key).value.1.value, OldLiveUntil(f, key)), if WasRestored(f, key) then f.minLiveUntil else 0)
  }

  /** Contract entries on both sides have a TTL, and the key is in the footprint. */
  predicate IsConsistent(f: Finish, key: LedgerKey) {
    && key in f.storage.footprint
    && (DurabilityOf(key).Some? && key in f.initial ==> f.initial[key].1.Some?)
    && (DurabilityOf(key).Some? && NewEntry(f, key).Some? ==> NewEntry(f, key).value.1.Some?)
  }

  /** A restored entry counts as new: it has no old size and no old live-until ledger. */
  function ChangeFor(f: Finish, key: LedgerKey): Change {
    var before, after := OldEntry(f, key), NewEntry(f, key);
    var written := if IsReadWrite(f, key) && after.Some? then Some(after.value.0) else None;
    Change(
      !IsReadWrite(f, key),
      key,
      if before.Some? && !WasRestored(f, key) then before.value.0.sizeForRent else 0,
      written,
      if written.Some? then written.value.sizeForRent else 0,
      match DurabilityOf(key)
      case None => None
      case Some(d) =>
        Some(TtlChange(
               d,
               key.ContractCodeKey?,
               if WasRestored(f, key) then 0 else OldLiveUntil(f, key),
               NewLiveUntil(f, key))))
  }

  function ChangesFor(f: Finish, order: seq<LedgerKey>): seq<Change> {
    seq(|order|, i requires 0 <= i < |order| => ChangeFor(f, order[i]))
  }

  /** The body of the loop of `get_ledger_changes`. */
  method GetLedgerChange(f: Finish, key: LedgerKey) returns (r: Result<Change>)
    requires key in f.storage.entries
    ensures r == if IsConsistent(f, key) then Ok(ChangeFor(f, key)) else Err(StorageInternalError)
  {
    var change := Change(false, key, 0, None, 0, None);
    var durability := DurabilityOf(key);
    if durability.Some? {
      change := change.(ttl := Some(TtlChange(durability.value, key.ContractCodeKey?, 0, 0)));
    }
    if key in f.initial {
      var (oldEntry, oldLiveUntil) := f.initial[key];
      change := change.(oldSize := oldEntry.sizeForRent);
      if change.ttl.Some? {
        if oldLiveUntil.None? {
          return Err(StorageInternalError);
        }
        change := change.(ttl := Some(change.ttl.value.(oldLiveUntil := oldLiveUntil.value)));
        if LooksForExpired(f.storage.mode) && oldLiveUntil.value < f.currentSeq {
          change := change.(ttl := Some(change.ttl.value.(oldLiveUntil := 0)), oldSize := 0);
        }
      }
    }
    var newEntry := f.storage.entries[key];
    if newEntry.Some? && change.ttl.Some? {
      var liveUntil := newEntry.value.1;
      if liveUntil.None? {
        return Err(StorageInternalError);
      }
      change := change.(ttl := Some(change.ttl.value.(newLiveUntil := Saturating.Max(liveUntil.value, change.ttl.value.oldLiveUntil))));
    }
    if key !in f.storage.footprint {
      return Err(StorageInternalError);
    }
    match f.storage.footprint[key] {
      case ReadOnly =>
        change := change.(readOnly := true);
      case ReadWrite =>
        if newEntry.Some? {
          var entry := newEntry.value.0;
          change := change.(newSize := entry.sizeForRent, newValue := Some(entry));
          if f.restored.Some? && key in f.restored.value {
            change := change.(oldSize := 0);
            if change.ttl.Some? {
              var ttl := change.ttl.value;
              change := change.(ttl := Some(ttl.(oldLiveUntil := 0, newLiveUntil := Saturating.Max(ttl.newLiveUntil, f.minLiveUntil))));
            }
          }
        }
    }
    return Ok(change);
  }

  /** `get_ledger_changes`. */
  method GetLedgerChanges(f: Finish, order: seq<LedgerKey>) returns (r: Result<seq<Change>>)
    requires Enumerates(order, f.storage.entries.Keys)
    ensures r ==
      if forall k :: k in f.storage.entries ==> IsConsistent(f, k) then Ok(ChangesFor(f, order))
      else Err(StorageInternalError)
  {
    hide ChangeFor, IsConsistent;
    var changes: seq<Change> := [];
    for i := 0 to |order|
      invariant changes == ChangesFor(f, order[..i])
      invariant forall j :: 0 <= j < i ==> IsConsistent(f, order[j])
    {
      assert order[i] in order;
      var change := GetLedgerChange(f, order[i]);
      if change.Err? {
        return Err(StorageInternalError);
      }
      changes := changes + [change.value];
      assert changes == ChangesFor(f, order[..i + 1]);
    }
    assert order[..|order|] == order;
    return Ok(changes);
  }

  // ---------------------------------------------------------------- live-until ledgers

  /**
   The new live-until ledger is below the old one if and only if the invocation removed an entry
   that had a live-until ledger above zero.
   */
  lemma {:induction false} LiveUntilDropsIffRemoved(f: Finish, key: LedgerKey)
    requires IsConsistent(f, key) && DurabilityOf(key).Some?
    ensures
      var ttl := ChangeFor(f, key).ttl.value;
      ttl.newLiveUntil < ttl.oldLiveUntil <==> NewEntry(f, key).None? && OldLiveUntil(f, key) > 0
  {
  }

  /** The documented guarantee fails for a removed entry. */
  lemma {:induction false} RemovedEntryLosesItsLiveUntil(key: LedgerKey, f: Finish)
    requires key == ContractDataKey(0, Persistent)
    requires f == Finish(
      Storage(map[key := ReadWrite], Enforcing(DefaultBuild), map[key := None]), map[key := (LedgerEntry(key, 0, 1), Some(9))], 5, None, 5)
    ensures IsConsistent(f, key)
    ensures ChangeFor(f, key).ttl == Some(TtlChange(Persistent, false, 9, 0))
  {
  }

  function SnapshotOf(entries: StorageMap): Snapshot {
    map k | k in entries && entries[k].Some? :: entries[k].value
  }

  /** The end of an enforcing run over a map. */
  function EnforcingFinish(
    fp: Footprint, initial: StorageMap, steps: seq<Step>, li: LedgerInfo, build: Build, min: nat,
    restored: Option<set<LedgerKey>>): Finish
  {
    Finish(After(StartEnforcing(fp, initial, build), steps, li).storage, SnapshotOf(initial), min, restored, li.sequenceNumber)
  }

  ghost predicate AllHaveTtl(entries: StorageMap) {
    forall k :: k in entries && entries[k].Some? ==> HasTtl(k, entries[k].value)
  }

  /** Every contract entry that is written has a TTL. */
  ghost predicate PutsHaveTtl(steps: seq<Step>) {
    forall i :: 0 <= i < |steps| && steps[i].Do? && steps[i].op.Put? ==>
      HasTtl(steps[i].op.key, (steps[i].op.entry, steps[i].op.liveUntil))
  }

  lemma {:induction false} ExpiryStepKeepsTtls(st: Storage, key: LedgerKey, li: LedgerInfo)
    requires st.mode.Enforcing? && AllHaveTtl(st.entries)
    ensures AllHaveTtl(ExpiryStep(st, key, li).0.entries) && ExpiryStep(st, key, li).0.mode == st.mode
  {
  }

  lemma {:induction false} EnforcingOpKeepsTtls(st: Storage, op: Op, li: LedgerInfo)
    requires st.mode.Enforcing? && AllHaveTtl(st.entries)
    requires op.Put? ==> HasTtl(op.key, (op.entry, op.liveUntil))
    ensures AllHaveTtl(Apply(op, st, li).0.entries) && Apply(op, st, li).0.mode == st.mode
  {
    ExpiryStepKeepsTtls(st, op.key, li);
    var st1 := ExpiryStep(st, op.key, li).0;
    hide ExpiryStep, HandleMaybeExpired, NewLiveUntil;
    assert TryGetFull(st, op.key, li).0 == st && TryGetFull(st1, op.key, li).0 == st1;
  }

  lemma {:induction false} EnforcingRunKeepsTtls(run: Run, steps: seq<Step>, li: LedgerInfo)
    requires run.storage.mode.Enforcing? && AllHaveTtl(run.storage.entries) && PutsHaveTtl(steps)
    requires forall i :: 0 <= i < |run.saved| ==> AllHaveTtl(run.saved[i])
    ensures AllHaveTtl(After(run, steps, li).storage.entries)
    decreases |steps|
  {
    if steps != [] {
      hide Apply, AllHaveTtl;
      assert PutsHaveTtl(steps[1..]) by {
        assert forall i :: 0 <= i < |steps| - 1 ==> steps[1..][i] == steps[i + 1];
      }
      if steps[0].Do? {
        EnforcingOpKeepsTtls(run.storage, steps[0].op, li);
      }
      EnforcingRunKeepsTtls(Next(run, steps[0], li), steps[1..], li);
    }
  }

  /**
   After every enforcing run, in either build, that started from contract entries with TTLs and
   wrote such entries, the ledger changes are computed without an internal error.
   */
  lemma {:induction false} EnforcingChangesNeverFail(
    fp: Footprint, initial: StorageMap, steps: seq<Step>, li: LedgerInfo, build: Build, min: nat,
    restored: Option<set<LedgerKey>>, key: LedgerKey)
    requires initial.Keys == fp.Keys && (build.RecordingBuild? ==> AllLive(initial, li))
    requires AllHaveTtl(initial) && PutsHaveTtl(steps)
    requires key in EnforcingFinish(fp, initial, steps, li, build, min, restored).storage.entries
    ensures IsConsistent(EnforcingFinish(fp, initial, steps, li, build, min, restored), key)
  {
    EnforcingRunsRespectFootprint(fp, initial, steps, li, build, key);
    EnforcingRunKeepsTtls(StartEnforcing(fp, initial, build), steps, li);
    hide After;
  }

  lemma {:induction false} BuiltMapHasTtls(fp: Footprint, inputs: seq<EntryWithLiveUntil>, flow: Flow)
    requires AllAccepted(inputs, fp, flow)
    ensures AllHaveTtl(BuiltMap(fp, inputs, flow))
  {
    forall k | k in fp && LoadedFor(inputs, k, flow).Some? ensures HasTtl(k, LoadedFor(inputs, k, flow).value) {
      LoadedIsInput(inputs, k, flow);
      var i :| 0 <= i < |inputs| && inputs[i] == LoadedFor(inputs, k, flow).value;
      assert IsAccepted(inputs[i], fp, flow);
    }
  }

  /** In either build, an invocation over accepted ledger entries reports its changes without an internal error. */
  lemma {:induction false} InvocationChangesNeverFail(
    fp: Footprint, inputs: seq<EntryWithLiveUntil>, steps: seq<Step>, li: LedgerInfo, build: Build, min: nat,
    restored: Option<set<LedgerKey>>, key: LedgerKey)
    requires AllAccepted(inputs, fp, Flow(build, false, li.sequenceNumber)) && PutsHaveTtl(steps)
    ensures
      var initial := BuiltMap(fp, inputs, Flow(build, false, li.sequenceNumber));
      var f := EnforcingFinish(fp, initial, steps, li, build, min, restored);
      key in f.storage.entries ==> IsConsistent(f, key)
  {
    var initial := BuiltMap(fp, inputs, Flow(build, false, li.sequenceNumber));
    if build.RecordingBuild? {
      BuiltMapIsLive(fp, inputs, li);
    }
    BuiltMapHasTtls(fp, inputs, Flow(build, false, li.sequenceNumber));
    hide AllLive, AllHaveTtl, IsConsistent;
    if key in EnforcingFinish(fp, initial, steps, li, build, min, restored).storage.entries {
      EnforcingChangesNeverFail(fp, initial, steps, li, build, min, restored, key);
    }
  }

  /**
   The change reported for a read-only entry has no new value, keeps the size, and never lowers
   the live-until ledger, whatever the run did and in either build.
   */
  lemma {:induction false} ReadOnlyChangesOnlyExtend(
    fp: Footprint, initial: StorageMap, steps: seq<Step>, li: LedgerInfo, build: Build, min: nat,
    restored: Option<set<LedgerKey>>, key: LedgerKey)
    requires initial.Keys == fp.Keys && AllHaveTtl(initial) && (build.RecordingBuild? ==> AllLive(initial, li))
    requires key in fp && fp[key] == ReadOnly && DurabilityOf(key).Some?
    ensures
      var change := ChangeFor(EnforcingFinish(fp, initial, steps, li, build, min, restored), key);
      && change.readOnly && change.newValue.None?
      && change.oldSize == (if initial[key].Some? then initial[key].value.0.sizeForRent else 0)
      && change.ttl.value.oldLiveUntil == (if initial[key].Some? then initial[key].value.1.value else 0)
      && change.ttl.value.oldLiveUntil <= change.ttl.value.newLiveUntil
  {
    EnforcingRunsRespectFootprint(fp, initial, steps, li, build, key);
    assert build.RecordingBuild? ==> IsLive(key, initial[key], li);
    hide After, TryGetFull;
  }

  // ---------------------------------------------------------------- rent changes

  /** The rent change of an entry with a TTL, no-op or not. */
  function RentChangeOf(c: Change): Fees.RentChange
    requires c.ttl.Some?
  {
    Fees.RentChange(
      c.ttl.value.durability.Persistent?, c.ttl.value.isCode, c.oldSize,
      if c.newValue.Some? then c.newSize else c.oldSize, c.ttl.value.oldLiveUntil, c.ttl.value.newLiveUntil)
  }

  /** What `extract_rent_changes` keeps of one change. */
  function RentOf(c: Change): Option<Fees.RentChange> {
    match c.ttl
    case None => None
    case Some(ttl) =>
      var newSize := if c.newValue.Some? then c.newSize else c.oldSize;
      if ttl.oldLiveUntil >= ttl.newLiveUntil && c.oldSize >= newSize then None
      else
        Some(Fees.RentChange(
               ttl.durability.Persistent?, ttl.isCode, c.oldSize, newSize, ttl.oldLiveUntil, ttl.newLiveUntil))
  }

  /** `extract_rent_changes`. */
  function ExtractRentChanges(changes: seq<Change>): seq<Fees.RentChange> {
    if changes == [] then []
    else
      var rent := RentOf(changes[|changes| - 1]);
      ExtractRentChanges(changes[..|changes| - 1]) + if rent.Some? then [rent.value] else []
  }

  /** The rent changes of all entries with a TTL. */
  function AllRentChanges(changes: seq<Change>): seq<Fees.RentChange> {
    if changes == [] then []
    else
      var last := changes[|changes| - 1];
      AllRentChanges(changes[..|changes| - 1]) + if last.ttl.Some? then [RentChangeOf(last)] else []
  }

  lemma {:induction false} ExtractionDropsNoOps(changes: seq<Change>)
    ensures ExtractRentChanges(changes) == Fees.WithoutNoOps(AllRentChanges(changes))
  {
    if changes != [] {
      var rest, last := changes[..|changes| - 1], changes[|changes| - 1];
      ExtractionDropsNoOps(rest);
      var all := AllRentChanges(rest);
      if last.ttl.Some? {
        assert (all + [RentChangeOf(last)])[..|all|] == all;
      } else {
        assert AllRentChanges(changes) == all;
      }
    }
  }

  /** Skipping the no-op changes is fee-neutral, for every list, configuration and ledger. */
  lemma {:induction false} ExtractionIsFeeNeutral(changes: seq<Change>, cfg: Fees.RentFeeConfig, current: nat)
    ensures Fees.RentFee(ExtractRentChanges(changes), cfg, current) == Fees.RentFee(AllRentChanges(changes), cfg, current)
  {
    ExtractionDropsNoOps(changes);
    Fees.WithoutNoOpsCostsTheSame(AllRentChanges(changes), cfg, current);
  }

  /** A restored entry pays rent as a new entry, from the current ledger and for at least the minimum TTL. */
  lemma {:induction false} RestoredEntryPaysAsNew(f: Finish, key: LedgerKey)
    requires IsConsistent(f, key) && IsPersistent(key) && WasRestored(f, key)
    requires f.minLiveUntil >= f.currentSeq > 0
    ensures
      var rent := RentOf(ChangeFor(f, key));
      && rent.Some? && Fees.IsNew(rent.value)
      && rent.value.newSize == NewEntry(f, key).value.0.sizeForRent
      && Fees.ExtensionLedgers(rent.value, f.currentSeq) == Some(rent.value.newLiveUntil - f.currentSeq + 1)
      && rent.value.newLiveUntil >= f.minLiveUntil
  {
  }

  // ---------------------------------------------------------------- simulated and executed rent

  /** The end of a recording run. */
  function RecordingFinish(snapshot: Snapshot, steps: seq<Step>, li: LedgerInfo, min: nat): Finish {
    var st := After(StartRecording(snapshot), steps, li).storage;
    Finish(st, snapshot, min, Some(RestoredKeys(st.footprint, snapshot, li)), li.sequenceNumber)
  }

  /** The end of the enforcing run that replays it. */
  function ReplayFinish(snapshot: Snapshot, steps: seq<Step>, li: LedgerInfo, build: Build, min: nat): Finish {
    var fp := After(StartRecording(snapshot), steps, li).storage.footprint;
    EnforcingFinish(fp, InitialMap(snapshot, fp, li), steps, li, build, min, Some(RestoredKeys(fp, snapshot, li)))
  }

  /** The rent change the recording run reports for a key: none for a key that is only in the footprint. */
  function RecordedRent(f: Finish, key: LedgerKey): Option<Fees.RentChange> {
    if key in f.storage.entries then RentOf(ChangeFor(f, key)) else None
  }

  /** How the two ends relate at one key. */
  ghost predicate Ends(rec: Finish, enf: Finish, snapshot: Snapshot, key: LedgerKey, li: LedgerInfo, min: nat) {
    && rec.storage.mode.Recording? && enf.storage.mode.Enforcing?
    && rec.storage.footprint == enf.storage.footprint && key in enf.storage.footprint && key in enf.storage.entries
    && rec.initial == snapshot && enf.initial == SnapshotOf(InitialMap(snapshot, enf.storage.footprint, li))
    && rec.restored == enf.restored == Some(RestoredKeys(enf.storage.footprint, snapshot, li))
    && rec.minLiveUntil == enf.minLiveUntil == min && rec.currentSeq == enf.currentSeq == li.sequenceNumber
    && enf.storage.entries[key] ==
       (if key in rec.storage.entries then rec.storage.entries[key] else View(snapshot, key, li))
    && IsLive(key, enf.storage.entries[key], li)
    && (IsRestored(snapshot, key, li) ==> IsReadWrite(enf, key))
  }

  lemma {:induction false} ReplayEnds(
    snapshot: Snapshot, steps: seq<Step>, li: LedgerInfo, build: Build, min: nat, key: LedgerKey)
    requires Assumes(snapshot, li) && PutsLive(steps, li)
    requires key in RecordingFinish(snapshot, steps, li, min).storage.footprint
    ensures Ends(RecordingFinish(snapshot, steps, li, min), ReplayFinish(snapshot, steps, li, build, min), snapshot, key, li, min)
  {
    var start := StartRecording(snapshot);
    var fp := After(start, steps, li).storage.footprint;
    StartInStep(snapshot, fp, li, build);
    RecordedFootprintAllowsFrom(start, steps, snapshot, li);
    AfterAgrees(start, StartEnforcing(fp, InitialMap(snapshot, fp, li), build), steps, fp, snapshot, li);
    if IsRestored(snapshot, key, li) {
      ArchivedKeysAreReadWrite(snapshot, steps, li, key);
    }
  }

  lemma {:induction false} EndsRent(rec: Finish, enf: Finish, snapshot: Snapshot, key: LedgerKey, li: LedgerInfo, min: nat)
    requires Ends(rec, enf, snapshot, key, li, min) && Assumes(snapshot, li) && WellKeyed(snapshot)
    requires MinLiveUntil(li, Persistent) == Some(min)
    ensures RecordedRent(rec, key) == RentOf(ChangeFor(enf, key)) <==>
      (IsRestored(snapshot, key, li) ==> key in rec.storage.entries)
  {
    ViewIsLive(snapshot, key, li);
  }

  /**
   What recording reports for rent agrees with the replay, key by key, except exactly for the
   archived keys that recording touched only in frames it rolled back: the replay restores them
   and pays rent, and recording reports none.
   */
  lemma {:induction false} RecordedRentIsReplayedRent(
    snapshot: Snapshot, steps: seq<Step>, li: LedgerInfo, build: Build, min: nat, key: LedgerKey)
    requires Assumes(snapshot, li) && WellKeyed(snapshot) && PutsLive(steps, li)
    requires MinLiveUntil(li, Persistent) == Some(min)
    requires key in RecordingFinish(snapshot, steps, li, min).storage.footprint
    ensures
      var rec, enf := RecordingFinish(snapshot, steps, li, min), ReplayFinish(snapshot, steps, li, build, min);
      && key in enf.storage.entries
      && (RecordedRent(rec, key) == RentOf(ChangeFor(enf, key)) <==>
          (IsRestored(snapshot, key, li) ==> key in rec.storage.entries))
  {
    var rec, enf := RecordingFinish(snapshot, steps, li, min), ReplayFinish(snapshot, steps, li, build, min);
    ReplayEnds(snapshot, steps, li, build, min, key);
    EndsRent(rec, enf, snapshot, key, li, min);
  }

  /** Recording reads an archived key in a frame that fails: only the footprint remembers it. */
  lemma {:induction false} RolledBackRead(key: LedgerKey, snapshot: Snapshot, li: LedgerInfo)
    requires IsPersistent(key) && key in snapshot && IsArchived(key, snapshot[key], li) && Assumes(snapshot, li)
    ensures
      var st := After(StartRecording(snapshot), [Enter, Do(TryGet(key)), Rollback], li).storage;
      key in st.footprint && key !in st.entries
  {
    var s0 := StartRecording(snapshot);
    var s1 := Next(s0, Enter, li);
    var s2 := Next(s1, Do(TryGet(key)), li);
    var s3 := Next(s2, Rollback, li);
    ReadRecords(s1.storage, key, li);
    AfterThree(s0, Enter, Do(TryGet(key)), Rollback, li);
    hide TryGetFull, RecordsOp, Assumes, IsArchived, After;
    assert s1.saved == [map[]];
    assert s2.saved == s1.saved && s2.storage == TryGetFull(s1.storage, key, li).0;
    assert s3.storage.entries == map[] && s3.storage.footprint == s2.storage.footprint;
  }

  lemma {:induction false} AfterThree(run: Run, a: Step, b: Step, c: Step, li: LedgerInfo)
    ensures After(run, [a, b, c], li) == Next(Next(Next(run, a, li), b, li), c, li)
  {
    hide Next;
    assert [a, b, c][1..] == [b, c] && [b, c][1..] == [c] && [c][1..] == [];
    assert After(run, [a, b, c], li) == After(Next(run, a, li), [b, c], li);
    assert After(Next(run, a, li), [b, c], li) == After(Next(Next(run, a, li), b, li), [c], li);
  }

  /** The failed frame makes the replay pay rent that recording does not report. */
  lemma {:induction false} RolledBackRestoreIsNotReported(
    key: LedgerKey, snapshot: Snapshot, li: LedgerInfo, build: Build, min: nat)
    requires Assumes(snapshot, li) && WellKeyed(snapshot) && MinLiveUntil(li, Persistent) == Some(min)
    requires key in snapshot && IsPersistent(key) && IsArchived(key, snapshot[key], li)
    ensures
      var steps := [Enter, Do(TryGet(key)), Rollback];
      RecordedRent(RecordingFinish(snapshot, steps, li, min), key) !=
      RentOf(ChangeFor(ReplayFinish(snapshot, steps, li, build, min), key))
  {
    RolledBackRead(key, snapshot, li);
    hide After, ChangeFor, RentOf;
    RecordedRentIsReplayedRent(snapshot, [Enter, Do(TryGet(key)), Rollback], li, build, min, key);
  }

  /** The keys of the storage map, in the order of the footprint. */
  function KeysIn(order: seq<LedgerKey>, entries: StorageMap): seq<LedgerKey> {
    if order == [] then []
    else
      var last := order[|order| - 1];
      KeysIn(order[..|order| - 1], entries) + if last in entries then [last] else []
  }

  function FootprintOnlyChanges(f: Finish, order: seq<LedgerKey>): seq<Change> {
    if order == [] then []
    else
      var last := order[|order| - 1];
      FootprintOnlyChanges(f, order[..|order| - 1]) +
      if last in f.storage.entries then [] else [Change(!IsReadWrite(f, last), last, 0, None, 0, None)]
  }

  /** `add_footprint_only_ledger_changes`: a change without a TTL for every footprint key not in the map. */
  method AddFootprintOnlyLedgerChanges(f: Finish, order: seq<LedgerKey>, changes: seq<Change>) returns (r: seq<Change>)
    requires Enumerates(order, f.storage.footprint.Keys)
    ensures r == changes + FootprintOnlyChanges(f, order)
    ensures ExtractRentChanges(r) == ExtractRentChanges(changes)
  {
    r := changes;
    for i := 0 to |order|
      invariant r == changes + FootprintOnlyChanges(f, order[..i])
    {
      assert order[i] in order;
      assert order[..i + 1][..i] == order[..i];
      if order[i] !in f.storage.entries {
        r := r + [Change(f.storage.footprint[order[i]] == ReadOnly, order[i], 0, None, 0, None)];
      }
    }
    assert order[..|order|] == order;
    FootprintOnlyHaveNoRent(f, order, changes);
  }

  lemma {:induction false} ExtractStep(changes: seq<Change>, c: Change)
    ensures ExtractRentChanges(changes + [c]) ==
      ExtractRentChanges(changes) + if RentOf(c).Some? then [RentOf(c).value] else []
  {
    assert (changes + [c])[..|changes|] == changes;
  }

  lemma {:induction false} FootprintOnlyHaveNoRent(f: Finish, order: seq<LedgerKey>, changes: seq<Change>)
    ensures ExtractRentChanges(changes + FootprintOnlyChanges(f, order)) == ExtractRentChanges(changes)
  {
    if order == [] {
      assert changes + [] == changes;
    } else {
      var rest, last := order[..|order| - 1], order[|order| - 1];
      FootprintOnlyHaveNoRent(f, rest, changes);
      if last !in f.storage.entries {
        var c := Change(!IsReadWrite(f, last), last, 0, None, 0, None);
        assert changes + FootprintOnlyChanges(f, order) == (changes + FootprintOnlyChanges(f, rest)) + [c];
        ExtractStep(changes + FootprintOnlyChanges(f, rest), c);
      } else {
        assert FootprintOnlyChanges(f, order) == FootprintOnlyChanges(f, rest);
      }
    }
  }

  lemma {:induction false} SameRentSameExtract(rec: Finish, enf: Finish, order: seq<LedgerKey>)
    requires forall i :: 0 <= i < |order| ==> RecordedRent(rec, order[i]) == RentOf(ChangeFor(enf, order[i]))
    ensures ExtractRentChanges(ChangesFor(rec, KeysIn(order, rec.storage.entries))) == ExtractRentChanges(ChangesFor(enf, order))
  {
    hide ChangeFor, RentOf;
    if order != [] {
      var rest, last := order[..|order| - 1], order[|order| - 1];
      var keys := KeysIn(rest, rec.storage.entries);
      SameRentSameExtract(rec, enf, rest);
      assert ChangesFor(enf, order) == ChangesFor(enf, rest) + [ChangeFor(enf, last)];
      ExtractStep(ChangesFor(enf, rest), ChangeFor(enf, last));
      if last in rec.storage.entries {
        assert ChangesFor(rec, keys + [last]) == ChangesFor(rec, keys) + [ChangeFor(rec, last)];
        ExtractStep(ChangesFor(rec, keys), ChangeFor(rec, last));
      } else {
        assert KeysIn(order, rec.storage.entries) == keys;
      }
    }
  }

  /**
   When every restored key is still in the recorded map, simulation and execution extract the
   same rent changes, and so pay the same rent.
   */
  lemma {:induction false} SimulatedRentIsExecutedRent(
    snapshot: Snapshot, steps: seq<Step>, li: LedgerInfo, build: Build, min: nat, order: seq<LedgerKey>)
    requires Assumes(snapshot, li) && WellKeyed(snapshot) && PutsLive(steps, li)
    requires MinLiveUntil(li, Persistent) == Some(min)
    requires Enumerates(order, RecordingFinish(snapshot, steps, li, min).storage.footprint.Keys)
    requires
      var rec := RecordingFinish(snapshot, steps, li, min);
      forall k :: k in rec.storage.footprint && IsRestored(snapshot, k, li) ==> k in rec.storage.entries
    ensures
      var rec, enf := RecordingFinish(snapshot, steps, li, min), ReplayFinish(snapshot, steps, li, build, min);
      var recorded := ChangesFor(rec, KeysIn(order, rec.storage.entries)) + FootprintOnlyChanges(rec, order);
      ExtractRentChanges(recorded) == ExtractRentChanges(ChangesFor(enf, order))
  {
    var rec, enf := RecordingFinish(snapshot, steps, li, min), ReplayFinish(snapshot, steps, li, build, min);
    forall i | 0 <= i < |order| ensures RecordedRent(rec, order[i]) == RentOf(ChangeFor(enf, order[i])) {
      assert order[i] in order;
      RecordedRentIsReplayedRent(snapshot, steps, li, build, min, order[i]);
    }
    SameRentSameExtract(rec, enf, order);
    FootprintOnlyHaveNoRent(rec, order, ChangesFor(rec, KeysIn(order, rec.storage.entries)));
  }

  // ---------------------------------------------------------------- what is reported of a written key

  function SizeOf(v: Option<EntryWithLiveUntil>): nat {
    if v.Some? then v.value.0.sizeForRent else 0
  }

  function LifeOf(v: Option<EntryWithLiveUntil>): nat {
    if v.Some? && v.value.1.Some? then v.value.1.value else 0
  }

  /** The change tells that a key went from `before` to `after`, and from nothing if it was restored. */
  ghost predicate Tells(
    c: Change, key: LedgerKey, before: Option<EntryWithLiveUntil>, after: Option<EntryWithLiveUntil>, isRestored: bool, min: nat)
  {
    && !c.readOnly && c.key == key
    && (after.None? ==> c.newValue.None? && c.newSize == 0)
    && (after.Some? ==> c.newValue == Some(after.value.0) && c.newSize == after.value.0.sizeForRent)
    && c.oldSize == (if isRestored then 0 else SizeOf(before))
    && (c.ttl.Some? <==> key.ContractCodeKey? || key.ContractDataKey?)
    && (c.ttl.Some? ==> TellsLife(c.ttl.value, key, before, after, isRestored, min))
  }

  ghost predicate TellsLife(
    ttl: TtlChange, key: LedgerKey, before: Option<EntryWithLiveUntil>, after: Option<EntryWithLiveUntil>, isRestored: bool,
    min: nat)
  {
    && (ttl.isCode <==> key.ContractCodeKey?)
    && (ttl.durability == Temporary <==> key.ContractDataKey? && key.durability == Temporary)
    && ttl.oldLiveUntil == (if isRestored then 0 else LifeOf(before))
    && (after.None? ==> ttl.newLiveUntil == 0)
    && (after.Some? ==>
          && LifeOf(after) <= ttl.newLiveUntil && LifeOf(before) <= ttl.newLiveUntil
          && (isRestored ==> min <= ttl.newLiveUntil)
          && (ttl.newLiveUntil == LifeOf(after) || ttl.newLiveUntil == LifeOf(before) || (isRestored && ttl.newLiveUntil == min)))
  }

  lemma {:induction false} ChangeTells(f: Finish, key: LedgerKey)
    requires key in f.storage.entries && IsReadWrite(f, key) && IsConsistent(f, key)
    ensures
      var after := f.storage.entries[key];
      var isRestored := after.Some? && f.restored.Some? && key in f.restored.value;
      Tells(ChangeFor(f, key), key, OldEntry(f, key), after, isRestored, f.minLiveUntil)
  {
    hide OldEntry;
  }

  /**
   After every enforcing run in either build, the change of a read-write key tells what the key
   held in the initial map and what it holds now.
   */
  lemma {:induction false} ReadWriteChangesTell(
    fp: Footprint, initial: StorageMap, steps: seq<Step>, li: LedgerInfo, build: Build, min: nat,
    restored: Option<set<LedgerKey>>, key: LedgerKey)
    requires initial.Keys == fp.Keys && AllHaveTtl(initial) && PutsHaveTtl(steps)
    requires build.RecordingBuild? ==> AllLive(initial, li)
    requires key in fp && fp[key] == ReadWrite
    ensures
      var f := EnforcingFinish(fp, initial, steps, li, build, min, restored);
      && key in f.storage.entries
      && var after := f.storage.entries[key];
         Tells(ChangeFor(f, key), key, initial[key], after, after.Some? && restored.Some? && key in restored.value, min)
  {
    EnforcingRunsRespectFootprint(fp, initial, steps, li, build, key);
    EnforcingChangesNeverFail(fp, initial, steps, li, build, min, restored, key);
    assert build.RecordingBuild? ==> IsLive(key, initial[key], li);
    hide After, TryGetFull, AllLive, AllHaveTtl, IsConsistent, ChangeFor, Tells;
    ChangeTells(EnforcingFinish(fp, initial, steps, li, build, min, restored), key);
  }

  lemma {:induction false} FinalEntryIsMeaning(
    snapshot: Snapshot, fp: Footprint, steps: seq<Step>, li: LedgerInfo, build: Build, key: LedgerKey)
    requires Assumes(snapshot, li) && PutsLive(steps, li) && Allows(fp, steps)
    requires key in fp && IsSupported(key)
    ensures
      var st := After(StartEnforcing(fp, InitialMap(snapshot, fp, li), build), steps, li).storage;
      key in st.entries && st.entries[key] == StorageMeaning.Meaning(snapshot, steps, key, li)
  {
    forall k | k in fp ensures IsLive(k, View(snapshot, k, li), li) {
      ViewIsLive(snapshot, k, li);
    }
    EnforcingRunsRespectFootprint(fp, InitialMap(snapshot, fp, li), steps, li, build, key);
    StorageMeaning.EnforcingAnswersByMeaning(snapshot, fp, steps, TryGet(key), li, build);
    hide After, StorageMeaning.Meaning, TryGetFull, View;
  }

  /**
   The change of a read-write key tells what the last write, deletion and extensions that no
   rollback undid have left of the entry the ledger held, and its rent change repeats that.
   */
  lemma {:induction false} WrittenKeysReportTheirMeaning(
    snapshot: Snapshot, fp: Footprint, steps: seq<Step>, li: LedgerInfo, build: Build, min: nat,
    restored: Option<set<LedgerKey>>, key: LedgerKey)
    requires Assumes(snapshot, li) && PutsLive(steps, li) && Allows(fp, steps) && PutsHaveTtl(steps)
    requires key in fp && fp[key] == ReadWrite && IsSupported(key)
    ensures
      var f := EnforcingFinish(fp, InitialMap(snapshot, fp, li), steps, li, build, min, restored);
      var before, after := View(snapshot, key, li), StorageMeaning.Meaning(snapshot, steps, key, li);
      var isRestored := after.Some? && restored.Some? && key in restored.value;
      && Tells(ChangeFor(f, key), key, before, after, isRestored, min)
      && (RentOf(ChangeFor(f, key)).Some? ==>
            var rent := RentOf(ChangeFor(f, key)).value;
            && (rent.isCode <==> key.ContractCodeKey?)
            && (rent.isPersistent <==> key.ContractCodeKey? || key.durability == Persistent)
            && rent.oldSize == (if isRestored then 0 else SizeOf(before))
            && rent.newSize == (if after.Some? then SizeOf(after) else rent.oldSize))
  {
    forall k | k in fp ensures IsLive(k, View(snapshot, k, li), li) {
      ViewIsLive(snapshot, k, li);
    }
    var initial := InitialMap(snapshot, fp, li);
    assert AllHaveTtl(initial) by {
      hide View;
    }
    hide View, Assumes;
    ReadWriteChangesTell(fp, initial, steps, li, build, min, restored, key);
    FinalEntryIsMeaning(snapshot, fp, steps, li, build, key);
    hide After, ChangeFor, StorageMeaning.Meaning, AllHaveTtl, PutsHaveTtl, AllLive;
  }
}
