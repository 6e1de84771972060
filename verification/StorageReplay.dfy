/**
 A recorded footprint replays: enforcing mode gives the results of recording mode exactly
 when the footprint allows the accesses of the run, and the recorded footprint does.
 */
module StorageReplay {
  import opened Prelude
  import opened LedgerStorage

  // ---------------------------------------------------------------- what a run accesses

  /** The operation gets as far as its footprint check. */
  predicate Touches(op: Op) {
    && IsSupported(op.key)
    && (op.Put? ==> IsSupported(op.entry.key))
    && (op.Extend? ==> op.threshold <= op.extendTo)
  }

  predicate Writes(op: Op) {
    op.Put? || op.Del?
  }

  function AccessOf(op: Op): AccessType {
    if Writes(op) then ReadWrite else ReadOnly
  }

  /** The footprint allows every access of the run. */
  ghost predicate Allows(fp: Footprint, steps: seq<Step>) {
    forall i :: 0 <= i < |steps| && steps[i].Do? && Touches(steps[i].op) ==>
      AccessAllowed(fp, steps[i].op.key, AccessOf(steps[i].op))
  }

  // ---------------------------------------------------------------- what a run may assume

  /** Contract entries have a TTL. */
  ghost predicate HasTtl(key: LedgerKey, v: EntryWithLiveUntil) {
    DurabilityOf(key).Some? ==> v.1.Some?
  }

  ghost predicate WellFormed(snapshot: Snapshot) {
    forall k :: k in snapshot ==> HasTtl(k, snapshot[k])
  }

  ghost predicate IsLive(key: LedgerKey, v: Option<EntryWithLiveUntil>, li: LedgerInfo) {
    v.Some? && DurabilityOf(key).Some? ==> v.value.1.Some? && v.value.1.value >= li.sequenceNumber
  }

  /** Every contract entry that is written has a live TTL. */
  ghost predicate PutsLive(steps: seq<Step>, li: LedgerInfo) {
    forall i :: 0 <= i < |steps| && steps[i].Do? && steps[i].op.Put? ==>
      IsLive(steps[i].op.key, Some((steps[i].op.entry, steps[i].op.liveUntil)), li)
  }

  predicate IsArchived(key: LedgerKey, v: EntryWithLiveUntil, li: LedgerInfo) {
    DurabilityOf(key).Some? && v.1.Some? && v.1.value < li.sequenceNumber
  }

  /**
   What the ledger shows for a key: expired temporary entries are absent, archived persistent
   ones are restored with the minimum live-until ledger.
   */
  function View(snapshot: Snapshot, key: LedgerKey, li: LedgerInfo): Option<EntryWithLiveUntil> {
    if key !in snapshot then None
    else if !IsArchived(key, snapshot[key], li) then Some(snapshot[key])
    else if IsPersistent(key) then Some((snapshot[key].0, MinLiveUntil(li, Persistent)))
    else None
  }

  function InitialMap(snapshot: Snapshot, fp: Footprint, li: LedgerInfo): StorageMap {
    map k | k in fp :: View(snapshot, k, li)
  }

  /** The recording map is a cache of the enforcing map. */
  ghost predicate Caches(rec: StorageMap, enf: StorageMap, fp: Footprint, snapshot: Snapshot, li: LedgerInfo) {
    && enf.Keys == fp.Keys
    && rec.Keys <= fp.Keys
    && (forall k :: k in fp ==> enf[k] == if k in rec then rec[k] else View(snapshot, k, li))
    && (forall k :: k in fp ==> IsLive(k, enf[k], li))
  }

  ghost predicate InStep(r: Run, e: Run, fp: Footprint, snapshot: Snapshot, li: LedgerInfo) {
    && r.storage.mode == Recording(snapshot)
    && e.storage.mode.Enforcing? && e.storage.footprint == fp
    && Caches(r.storage.entries, e.storage.entries, fp, snapshot, li)
    && |r.saved| == |e.saved|
    && (forall i :: 0 <= i < |r.saved| ==> Caches(r.saved[i], e.saved[i], fp, snapshot, li))
    && r.outcomes == e.outcomes
  }

  ghost predicate Assumes(snapshot: Snapshot, li: LedgerInfo) {
    WellFormed(snapshot) && MinLiveUntil(li, Persistent).Some?
  }

  lemma {:induction false} ViewIsLive(snapshot: Snapshot, key: LedgerKey, li: LedgerInfo)
    requires Assumes(snapshot, li)
    ensures IsLive(key, View(snapshot, key, li), li)
  {
    if key in snapshot {
      assert HasTtl(key, snapshot[key]);
    }
  }

  // ---------------------------------------------------------------- one operation

  /** A live entry is left alone. */
  lemma {:induction false} LiveIsNotExpired(st: Storage, key: LedgerKey, li: LedgerInfo)
    requires key in st.entries ==> IsLive(key, st.entries[key], li)
    ensures HandleMaybeExpired(st, key, li) == (st, Ok(()))
  {
  }

  /** A read in recording mode yields the view, caches it, and never fails. */
  lemma {:induction false} RecordingReads(st: Storage, snapshot: Snapshot, key: LedgerKey, li: LedgerInfo)
    requires st.mode == Recording(snapshot) && Assumes(snapshot, li) && IsSupported(key)
    requires key in st.entries ==> IsLive(key, st.entries[key], li)
    ensures
      var v := if key in st.entries then st.entries[key] else View(snapshot, key, li);
      var (st', r) := TryGetFull(st, key, li);
      r == Ok(v) && st' == st.(footprint := st'.footprint, entries := st.entries[key := v])
  {
    if key in st.entries {
      assert st.entries[key := st.entries[key]] == st.entries;
    } else if key in snapshot {
      assert HasTtl(key, snapshot[key]);
    }
  }

  lemma {:induction false} CachesUpdate(
    rec: StorageMap, enf: StorageMap, fp: Footprint, snapshot: Snapshot, li: LedgerInfo, key: LedgerKey,
    v: Option<EntryWithLiveUntil>)
    requires Caches(rec, enf, fp, snapshot, li) && key in fp && IsLive(key, v, li)
    ensures Caches(rec[key := v], enf[key := v], fp, snapshot, li)
  {
  }

  lemma {:induction false} CachesLoad(
    rec: StorageMap, enf: StorageMap, fp: Footprint, snapshot: Snapshot, li: LedgerInfo, key: LedgerKey)
    requires Caches(rec, enf, fp, snapshot, li) && key in fp
    ensures Caches(rec[key := enf[key]], enf, fp, snapshot, li)
  {
  }

  /** An operation the footprint allows has the same outcome in both modes. */
  lemma {:induction false} AllowedOpAgrees(
    op: Op, r: Storage, e: Storage, fp: Footprint, snapshot: Snapshot, li: LedgerInfo)
    requires r.mode == Recording(snapshot) && e.mode.Enforcing? && e.footprint == fp && Assumes(snapshot, li)
    requires Caches(r.entries, e.entries, fp, snapshot, li)
    requires Touches(op) ==> AccessAllowed(fp, op.key, AccessOf(op))
    requires op.Put? ==> IsLive(op.key, Some((op.entry, op.liveUntil)), li)
    ensures
      var (r', x) := Apply(op, r, li);
      var (e', y) := Apply(op, e, li);
      && x == y
      && r'.mode == r.mode && e' == e.(entries := e'.entries)
      && Caches(r'.entries, e'.entries, fp, snapshot, li)
  {
    if Touches(op) {
      var key := op.key;
      LiveIsNotExpired(r, key, li);
      LiveIsNotExpired(e, key, li);
      if Writes(op) {
        CachesUpdate(r.entries, e.entries, fp, snapshot, li, key, if op.Put? then Some((op.entry, op.liveUntil)) else None);
      } else {
        ReadAgrees(op, r, e, fp, snapshot, li);
      }
    }
  }

  lemma {:induction false} EnforcingReads(e: Storage, key: LedgerKey, li: LedgerInfo)
    requires e.mode.Enforcing? && IsSupported(key) && key in e.footprint && key in e.entries
    ensures TryGetFull(e, key, li) == (e, Ok(e.entries[key]))
  {
  }

  /** What both modes know before they read an allowed key. */
  ghost predicate ReadReady(r: Storage, e: Storage, key: LedgerKey, li: LedgerInfo) {
    && key in e.entries && IsLive(key, e.entries[key], li)
    && TryGetFull(e, key, li) == (e, Ok(e.entries[key]))
    && TryGetFull(r, key, li).1 == Ok(e.entries[key])
    && TryGetFull(r, key, li).0 == r.(footprint := TryGetFull(r, key, li).0.footprint, entries := r.entries[key := e.entries[key]])
    && HandleMaybeExpired(r, key, li) == (r, Ok(()))
    && HandleMaybeExpired(e, key, li) == (e, Ok(()))
  }

  lemma {:induction false} ExtendAgrees(
    r: Storage, e: Storage, key: LedgerKey, threshold: nat, extendTo: nat, li: LedgerInfo)
    requires IsSupported(key) && threshold <= extendTo && ReadReady(r, e, key, li)
    ensures
      var (r', x) := ExtendTtl(r, key, threshold, extendTo, li);
      var (e', y) := ExtendTtl(e, key, threshold, extendTo, li);
      && x == y
      && key in e'.entries && IsLive(key, e'.entries[key], li)
      && e' == e.(entries := e.entries[key := e'.entries[key]])
      && r' == r.(footprint := r'.footprint, entries := r.entries[key := e'.entries[key]])
  {
    hide TryGetFull, HandleMaybeExpired, NewLiveUntil;
    assert e.entries[key := e.entries[key]] == e.entries;
  }

  lemma {:induction false} ReadAgrees(
    op: Op, r: Storage, e: Storage, fp: Footprint, snapshot: Snapshot, li: LedgerInfo)
    requires r.mode == Recording(snapshot) && e.mode.Enforcing? && e.footprint == fp && Assumes(snapshot, li)
    requires Caches(r.entries, e.entries, fp, snapshot, li)
    requires Touches(op) && !Writes(op) && op.key in fp
    ensures
      var (r', x) := Apply(op, r, li);
      var (e', y) := Apply(op, e, li);
      && x == y
      && r'.mode == r.mode && e' == e.(entries := e'.entries)
      && Caches(r'.entries, e'.entries, fp, snapshot, li)
  {
    var key := op.key;
    LiveIsNotExpired(r, key, li);
    LiveIsNotExpired(e, key, li);
    RecordingReads(r, snapshot, key, li);
    EnforcingReads(e, key, li);
    CachesLoad(r.entries, e.entries, fp, snapshot, li, key);
    hide TryGetFull, HandleMaybeExpired, Caches, IsLive, ExtendTtl;
    if op.Extend? {
      ExtendAgrees(r, e, key, op.threshold, op.extendTo, li);
      CachesUpdate(r.entries, e.entries, fp, snapshot, li, key, ExtendTtl(e, key, op.threshold, op.extendTo, li).0.entries[key]);
    }
  }

  // ---------------------------------------------------------------- whole runs

  lemma {:induction false} NextAgrees(r: Run, e: Run, step: Step, fp: Footprint, snapshot: Snapshot, li: LedgerInfo)
    requires InStep(r, e, fp, snapshot, li) && Assumes(snapshot, li)
    requires Allows(fp, [step]) && PutsLive([step], li)
    ensures InStep(Next(r, step, li), Next(e, step, li), fp, snapshot, li)
  {
    hide Caches;
    if step.Do? {
      assert [step][0] == step;
      AllowedOpAgrees(step.op, r.storage, e.storage, fp, snapshot, li);
    }
  }

  lemma {:induction false} AfterAgrees(r: Run, e: Run, steps: seq<Step>, fp: Footprint, snapshot: Snapshot, li: LedgerInfo)
    requires InStep(r, e, fp, snapshot, li) && Assumes(snapshot, li)
    requires Allows(fp, steps) && PutsLive(steps, li)
    ensures InStep(After(r, steps, li), After(e, steps, li), fp, snapshot, li)
    decreases |steps|
  {
    hide InStep;
    if steps != [] {
      assert Allows(fp, [steps[0]]) && PutsLive([steps[0]], li) by {
        assert [steps[0]][0] == steps[0];
      }
      assert Allows(fp, steps[1..]) && PutsLive(steps[1..], li) by {
        assert forall i :: 0 <= i < |steps| - 1 ==> steps[1..][i] == steps[i + 1];
      }
      NextAgrees(r, e, steps[0], fp, snapshot, li);
      AfterAgrees(Next(r, steps[0], li), Next(e, steps[0], li), steps[1..], fp, snapshot, li);
    }
  }

  lemma {:induction false} AfterConcat(run: Run, a: seq<Step>, b: seq<Step>, li: LedgerInfo)
    ensures After(run, a + b, li) == After(After(run, a, li), b, li)
    decreases |a|
  {
    if a == [] {
      assert a + b == b;
    } else {
      assert (a + b)[0] == a[0] && (a + b)[1..] == a[1..] + b;
      AfterConcat(Next(run, a[0], li), a[1..], b, li);
    }
  }

  lemma {:induction false} OutcomesGrow(run: Run, steps: seq<Step>, li: LedgerInfo)
    ensures run.outcomes <= After(run, steps, li).outcomes
    decreases |steps|
  {
    if steps != [] {
      OutcomesGrow(Next(run, steps[0], li), steps[1..], li);
    }
  }

  lemma {:induction false} StartInStep(snapshot: Snapshot, fp: Footprint, li: LedgerInfo, build: Build)
    requires Assumes(snapshot, li)
    ensures InStep(StartRecording(snapshot), StartEnforcing(fp, InitialMap(snapshot, fp, li), build), fp, snapshot, li)
  {
    forall k | k in fp ensures IsLive(k, View(snapshot, k, li), li) {
      ViewIsLive(snapshot, k, li);
    }
  }

  /** A disallowed access is an `ExceededLimit` error when enforcing, and never when recording. */
  lemma {:induction false} DisallowedDiffers(
    op: Op, r: Storage, e: Storage, fp: Footprint, snapshot: Snapshot, li: LedgerInfo)
    requires r.mode == Recording(snapshot) && e.mode.Enforcing? && e.footprint == fp
    requires Caches(r.entries, e.entries, fp, snapshot, li)
    requires Touches(op) && !AccessAllowed(fp, op.key, AccessOf(op))
    ensures Apply(op, e, li).1 == Failed(ExceededLimit)
    ensures Apply(op, r, li).1 != Failed(ExceededLimit)
  {
    LiveIsNotExpired(e, op.key, li);
    RecordingNeverExceeds(op, r, li);
  }

  lemma {:induction false} RecordingNeverExceeds(op: Op, r: Storage, li: LedgerInfo)
    requires r.mode.Recording?
    ensures Apply(op, r, li).1 != Failed(ExceededLimit)
  {
    var h := HandleMaybeExpired(r, op.key, li);
    assert h.0.mode == r.mode && h.1 != Err(ExceededLimit);
    assert TryGetFull(r, op.key, li).1 != Err(ExceededLimit);
    assert TryGetFull(h.0, op.key, li).1 != Err(ExceededLimit);
  }

  lemma {:induction false} AllowsLast(fp: Footprint, steps: seq<Step>)
    requires steps != []
    ensures
      var last := steps[|steps| - 1];
      Allows(fp, steps) <==>
      && Allows(fp, steps[..|steps| - 1])
      && (last.Do? && Touches(last.op) ==> AccessAllowed(fp, last.op.key, AccessOf(last.op)))
  {
    hide Touches, AccessAllowed;
    var rest := steps[..|steps| - 1];
    assert forall i :: 0 <= i < |rest| ==> rest[i] == steps[i];
  }

  lemma {:induction false} FirstDisallowed(fp: Footprint, steps: seq<Step>) returns (i: nat)
    requires !Allows(fp, steps)
    ensures i < |steps| && steps[i].Do? && Touches(steps[i].op)
    ensures !AccessAllowed(fp, steps[i].op.key, AccessOf(steps[i].op))
    ensures Allows(fp, steps[..i])
    decreases |steps|
  {
    if Allows(fp, steps[..|steps| - 1]) {
      i := |steps| - 1;
      AllowsLast(fp, steps);
    } else {
      i := FirstDisallowed(fp, steps[..|steps| - 1]);
      assert steps[..|steps| - 1][..i] == steps[..i];
    }
  }

  /**
   Enforcing a footprint gives the results of recording if and only if the footprint allows
   every access of the run.
   */
  lemma {:induction false} FootprintSufficesIffItAllows(
    snapshot: Snapshot, fp: Footprint, steps: seq<Step>, li: LedgerInfo, build: Build)
    requires Assumes(snapshot, li) && PutsLive(steps, li)
    ensures
      var recorded := After(StartRecording(snapshot), steps, li);
      var enforced := After(StartEnforcing(fp, InitialMap(snapshot, fp, li), build), steps, li);
      recorded.outcomes == enforced.outcomes <==> Allows(fp, steps)
  {
    var r, e := StartRecording(snapshot), StartEnforcing(fp, InitialMap(snapshot, fp, li), build);
    StartInStep(snapshot, fp, li, build);
    if Allows(fp, steps) {
      AfterAgrees(r, e, steps, fp, snapshot, li);
    } else {
      DisallowedRunsDiffer(r, e, steps, fp, snapshot, li);
    }
  }

  lemma {:induction false} DisallowedRunsDiffer(
    r: Run, e: Run, steps: seq<Step>, fp: Footprint, snapshot: Snapshot, li: LedgerInfo)
    requires InStep(r, e, fp, snapshot, li) && Assumes(snapshot, li) && PutsLive(steps, li)
    requires !Allows(fp, steps)
    ensures After(r, steps, li).outcomes != After(e, steps, li).outcomes
  {
    hide Caches;
    var i := FirstDisallowed(fp, steps);
    assert steps == steps[..i] + [steps[i]] + steps[i + 1..];
    assert PutsLive(steps[..i], li);
    AfterAgrees(r, e, steps[..i], fp, snapshot, li);
    var r1, e1 := After(r, steps[..i], li), After(e, steps[..i], li);
    DisallowedDiffers(steps[i].op, r1.storage, e1.storage, fp, snapshot, li);
    var r2, e2 := Next(r1, steps[i], li), Next(e1, steps[i], li);
    AfterStep(r, steps, i, li);
    AfterStep(e, steps, i, li);
    OutcomesGrow(r2, steps[i + 1..], li);
    OutcomesGrow(e2, steps[i + 1..], li);
    assert r2.outcomes[|r1.outcomes|] != e2.outcomes[|r1.outcomes|];
  }

  lemma {:induction false} AfterStep(run: Run, steps: seq<Step>, i: nat, li: LedgerInfo)
    requires i < |steps|
    ensures After(run, steps, li) == After(Next(After(run, steps[..i], li), steps[i], li), steps[i + 1..], li)
  {
    assert steps == steps[..i] + steps[i..];
    AfterConcat(run, steps[..i], steps[i..], li);
    assert steps[i..][0] == steps[i] && steps[i..][1..] == steps[i + 1..];
  }

  // ---------------------------------------------------------------- the recorded footprint

  /** Access only widens. */
  ghost predicate Below(a: Footprint, b: Footprint) {
    forall k :: k in a ==> AccessAllowed(b, k, a[k])
  }

  /** What recording keeps: cached keys are in the footprint, and archived ones as read-write. */
  ghost predicate RecordingGood(run: Run, snapshot: Snapshot, li: LedgerInfo) {
    && run.storage.mode == Recording(snapshot)
    && run.storage.entries.Keys <= run.storage.footprint.Keys
    && (forall i :: 0 <= i < |run.saved| ==> run.saved[i].Keys <= run.storage.footprint.Keys)
    && (forall k :: k in run.storage.footprint && k in snapshot && IsPersistent(k) && IsArchived(k, snapshot[k], li) ==>
          run.storage.footprint[k] == ReadWrite)
  }

  /** How far one operation moves the storage in recording mode. */
  ghost predicate RecordsOp(st: Storage, st': Storage, op: Op, li: LedgerInfo)
    requires st.mode.Recording?
  {
    && st'.mode == st.mode
    && Below(st.footprint, st'.footprint)
    && st'.entries.Keys <= st.entries.Keys + {op.key}
    && st'.footprint.Keys <= st.footprint.Keys + {op.key}
    && (st'.entries.Keys <= st.entries.Keys || op.key in st'.footprint)
    && (!Touches(op) ==> st' == st)
    && (op.key !in st.entries && op.key in st'.footprint && op.key !in st.footprint ==>
          (op.key in st.mode.snapshot && IsPersistent(op.key) && IsArchived(op.key, st.mode.snapshot[op.key], li) ==>
             st'.footprint[op.key] == ReadWrite))
  }

  lemma {:induction false} HandleRecords(st: Storage, key: LedgerKey, li: LedgerInfo)
    requires st.mode.Recording? && IsSupported(key)
    ensures
      var st' := HandleMaybeExpired(st, key, li).0;
      && st'.mode == st.mode && st'.entries.Keys == st.entries.Keys
      && Below(st.footprint, st'.footprint) && st'.footprint.Keys <= st.footprint.Keys + {key}
      && (key !in st.entries ==> st' == st)
  {
  }

  lemma {:induction false} HandleRecordsArchived(st: Storage, key: LedgerKey, li: LedgerInfo)
    ensures
      key in st.entries && st.entries[key].Some? && IsPersistent(key) && IsArchived(key, st.entries[key].value, li) ==>
        key in HandleMaybeExpired(st, key, li).0.footprint && HandleMaybeExpired(st, key, li).0.footprint[key] == ReadWrite
  {
  }

  lemma {:induction false} ReadRecords(st: Storage, key: LedgerKey, li: LedgerInfo)
    requires st.mode.Recording?
    ensures RecordsOp(st, TryGetFull(st, key, li).0, TryGet(key), li)
    ensures IsSupported(key) ==> key in TryGetFull(st, key, li).0.footprint
  {
    hide HandleMaybeExpired, IsArchived, DurabilityOf;
    if IsSupported(key) {
      var recorded := st.(footprint := RecordAccess(st.footprint, key, ReadOnly));
      var loaded :=
        if key in st.entries then recorded
        else recorded.(entries := st.entries[key := SnapshotGet(st.mode.snapshot, key)]);
      HandleRecords(loaded, key, li);
      HandleRecordsArchived(loaded, key, li);
      BelowTransitive(st.footprint, recorded.footprint, HandleMaybeExpired(loaded, key, li).0.footprint);
    }
  }

  lemma {:induction false} OpRecords(st: Storage, op: Op, li: LedgerInfo)
    requires st.mode.Recording?
    ensures RecordsOp(st, Apply(op, st, li).0, op, li)
  {
    hide HandleMaybeExpired, TryGetFull, IsArchived, DurabilityOf;
    if op.Extend? && Touches(op) {
      ExtendRecords(st, op.key, op.threshold, op.extendTo, li);
      hide ExtendTtl;
    } else {
      ReadRecords(st, op.key, li);
      if Touches(op) {
        HandleRecords(st, op.key, li);
      }
    }
  }

  lemma {:induction false} ExtendRecords(st: Storage, key: LedgerKey, threshold: nat, extendTo: nat, li: LedgerInfo)
    requires st.mode.Recording? && IsSupported(key) && threshold <= extendTo
    ensures RecordsOp(st, ExtendTtl(st, key, threshold, extendTo, li).0, Extend(key, threshold, extendTo), li)
  {
    hide HandleMaybeExpired, TryGetFull, IsArchived, DurabilityOf, NewLiveUntil;
    HandleRecords(st, key, li);
    var st1 := HandleMaybeExpired(st, key, li).0;
    ReadRecords(st1, key, li);
    BelowTransitive(st.footprint, st1.footprint, TryGetFull(st1, key, li).0.footprint);
    hide Below;
  }

  lemma {:induction false} NextKeepsRecordingGood(run: Run, step: Step, snapshot: Snapshot, li: LedgerInfo)
    requires RecordingGood(run, snapshot, li)
    ensures RecordingGood(Next(run, step, li), snapshot, li)
    ensures Below(run.storage.footprint, Next(run, step, li).storage.footprint)
  {
    if step.Do? {
      hide Apply;
      OpRecords(run.storage, step.op, li);
    }
  }

  lemma {:induction false} BelowTransitive(a: Footprint, b: Footprint, c: Footprint)
    requires Below(a, b) && Below(b, c)
    ensures Below(a, c)
  {
  }

  lemma {:induction false} AfterKeepsRecordingGood(run: Run, steps: seq<Step>, snapshot: Snapshot, li: LedgerInfo)
    requires RecordingGood(run, snapshot, li)
    ensures RecordingGood(After(run, steps, li), snapshot, li)
    ensures Below(run.storage.footprint, After(run, steps, li).storage.footprint)
    decreases |steps|
  {
    hide RecordingGood, Next;
    if steps != [] {
      var run1 := Next(run, steps[0], li);
      NextKeepsRecordingGood(run, steps[0], snapshot, li);
      AfterKeepsRecordingGood(run1, steps[1..], snapshot, li);
      BelowTransitive(run.storage.footprint, run1.storage.footprint, After(run, steps, li).storage.footprint);
    }
  }

  /** In every recording run, the footprint holds every archived persistent key as read-write. */
  lemma {:induction false} ArchivedKeysAreReadWrite(snapshot: Snapshot, steps: seq<Step>, li: LedgerInfo, key: LedgerKey)
    requires key in After(StartRecording(snapshot), steps, li).storage.footprint
    requires key in snapshot && IsPersistent(key) && IsArchived(key, snapshot[key], li)
    ensures After(StartRecording(snapshot), steps, li).storage.footprint[key] == ReadWrite
  {
    AfterKeepsRecordingGood(StartRecording(snapshot), steps, snapshot, li);
  }

  ghost predicate AllLive(entries: StorageMap, li: LedgerInfo) {
    forall k :: k in entries ==> IsLive(k, entries[k], li)
  }

  ghost predicate RunLive(run: Run, snapshot: Snapshot, li: LedgerInfo) {
    && run.storage.mode == Recording(snapshot)
    && AllLive(run.storage.entries, li)
    && forall i :: 0 <= i < |run.saved| ==> AllLive(run.saved[i], li)
  }

  lemma {:induction false} RecordedReadIsAllowed(st: Storage, snapshot: Snapshot, key: LedgerKey, li: LedgerInfo)
    requires st.mode == Recording(snapshot) && Assumes(snapshot, li) && IsSupported(key) && AllLive(st.entries, li)
    ensures
      var (st', r) := TryGetFull(st, key, li);
      && AccessAllowed(st'.footprint, key, ReadOnly)
      && r.Ok? && st'.mode == st.mode && AllLive(st'.entries, li)
      && key in st'.entries && r.value == st'.entries[key]
  {
    RecordingReads(st, snapshot, key, li);
    ViewIsLive(snapshot, key, li);
    ReadRecords(st, key, li);
  }

  /** An operation that reaches its footprint check records the access it makes. */
  lemma {:induction false} OpRecordsAccess(st: Storage, snapshot: Snapshot, op: Op, li: LedgerInfo)
    requires st.mode == Recording(snapshot) && Assumes(snapshot, li) && AllLive(st.entries, li)
    requires op.Put? ==> IsLive(op.key, Some((op.entry, op.liveUntil)), li)
    ensures
      var st' := Apply(op, st, li).0;
      && (Touches(op) ==> AccessAllowed(st'.footprint, op.key, AccessOf(op)))
      && st'.mode == st.mode && AllLive(st'.entries, li)
  {
    if Touches(op) {
      LiveIsNotExpired(st, op.key, li);
      hide HandleMaybeExpired, TryGetFull;
      RecordedReadIsAllowed(st, snapshot, op.key, li);
      if op.Extend? {
        ExtendRecordsAccess(st, snapshot, op.key, op.threshold, op.extendTo, li);
        hide ExtendTtl;
      }
    }
  }

  lemma {:induction false} ExtendRecordsAccess(
    st: Storage, snapshot: Snapshot, key: LedgerKey, threshold: nat, extendTo: nat, li: LedgerInfo)
    requires st.mode == Recording(snapshot) && Assumes(snapshot, li) && AllLive(st.entries, li)
    requires IsSupported(key) && threshold <= extendTo
    ensures
      var st' := ExtendTtl(st, key, threshold, extendTo, li).0;
      AccessAllowed(st'.footprint, key, ReadOnly) && st'.mode == st.mode && AllLive(st'.entries, li)
  {
    LiveIsNotExpired(st, key, li);
    hide HandleMaybeExpired, TryGetFull, NewLiveUntil, Assumes;
    RecordedReadIsAllowed(st, snapshot, key, li);
  }

  lemma {:induction false} AccessStaysAllowed(a: Footprint, b: Footprint, key: LedgerKey, ty: AccessType)
    requires Below(a, b) && AccessAllowed(a, key, ty)
    ensures AccessAllowed(b, key, ty)
  {
  }

  lemma {:induction false} RecordedFootprintAllowsFrom(run: Run, steps: seq<Step>, snapshot: Snapshot, li: LedgerInfo)
    requires RunLive(run, snapshot, li) && RecordingGood(run, snapshot, li)
    requires Assumes(snapshot, li) && PutsLive(steps, li)
    ensures Allows(After(run, steps, li).storage.footprint, steps)
    decreases |steps|
  {
    if steps != [] {
      hide Apply;
      var run1 := Next(run, steps[0], li);
      var fp := After(run, steps, li).storage.footprint;
      assert PutsLive(steps[1..], li);
      if steps[0].Do? {
        OpRecordsAccess(run.storage, snapshot, steps[0].op, li);
      }
      NextKeepsRecordingGood(run, steps[0], snapshot, li);
      RecordedFootprintAllowsFrom(run1, steps[1..], snapshot, li);
      AfterKeepsRecordingGood(run1, steps[1..], snapshot, li);
      forall i | 0 <= i < |steps| && steps[i].Do? && Touches(steps[i].op)
        ensures AccessAllowed(fp, steps[i].op.key, AccessOf(steps[i].op))
      {
        if i == 0 {
          AccessStaysAllowed(run1.storage.footprint, fp, steps[0].op.key, AccessOf(steps[0].op));
        } else {
          assert steps[1..][i - 1] == steps[i];
        }
      }
    }
  }

  /** Only accesses put keys in the footprint. */
  lemma {:induction false} FootprintKeysAreAccessed(run: Run, steps: seq<Step>, snapshot: Snapshot, li: LedgerInfo, key: LedgerKey)
    returns (i: nat)
    requires RecordingGood(run, snapshot, li)
    requires key in After(run, steps, li).storage.footprint && key !in run.storage.footprint
    ensures i < |steps| && steps[i].Do? && Touches(steps[i].op) && steps[i].op.key == key
    decreases |steps|
  {
    var run1 := Next(run, steps[0], li);
    NextKeepsRecordingGood(run, steps[0], snapshot, li);
    if key in run1.storage.footprint {
      i := 0;
      OpRecords(run.storage, steps[0].op, li);
    } else {
      var j := FootprintKeysAreAccessed(run1, steps[1..], snapshot, li, key);
      i := j + 1;
      assert steps[1..][j] == steps[i];
    }
  }

  /**
   The recorded footprint replays: enforcing it gives the results of the recording run,
   rollbacks of the map included, and no key can be dropped from it.
   */
  lemma {:induction false} RecordedFootprintReplays(snapshot: Snapshot, steps: seq<Step>, li: LedgerInfo, build: Build)
    requires Assumes(snapshot, li) && PutsLive(steps, li)
    ensures
      var recorded := After(StartRecording(snapshot), steps, li);
      var fp := recorded.storage.footprint;
      && recorded.outcomes == After(StartEnforcing(fp, InitialMap(snapshot, fp, li), build), steps, li).outcomes
      && forall key :: key in fp ==>
           recorded.outcomes !=
           After(StartEnforcing(fp - {key}, InitialMap(snapshot, fp - {key}, li), build), steps, li).outcomes
  {
    var start := StartRecording(snapshot);
    var fp := After(start, steps, li).storage.footprint;
    RecordedFootprintAllowsFrom(start, steps, snapshot, li);
    FootprintSufficesIffItAllows(snapshot, fp, steps, li, build);
    forall key | key in fp
      ensures After(start, steps, li).outcomes !=
              After(StartEnforcing(fp - {key}, InitialMap(snapshot, fp - {key}, li), build), steps, li).outcomes
    {
      var i := FootprintKeysAreAccessed(start, steps, snapshot, li, key);
      assert !AccessAllowed(fp - {key}, steps[i].op.key, AccessOf(steps[i].op));
      FootprintSufficesIffItAllows(snapshot, fp - {key}, steps, li, build);
    }
  }

  // ---------------------------------------------------------------- enforcing runs

  /** The entry is unchanged but for a later live-until ledger. */
  ghost predicate Raised(a: Option<EntryWithLiveUntil>, b: Option<EntryWithLiveUntil>) {
    match a
    case None => b.None?
    case Some((entry, liveUntil)) =>
      && b.Some? && b.value.0 == entry
      && b.value.1.Some? == liveUntil.Some?
      && (liveUntil.Some? ==> b.value.1.value >= liveUntil.value)
  }

  /** In the default build nothing needs the read-only entries to be live. */
  ghost predicate Respects(entries: StorageMap, fp: Footprint, initial: StorageMap, li: LedgerInfo, build: Build) {
    && entries.Keys == fp.Keys
    && (forall k :: k in fp && fp[k] == ReadOnly && k in initial ==>
          Raised(initial[k], entries[k]) && (build.RecordingBuild? ==> IsLive(k, entries[k], li)))
  }

  ghost predicate EnforcingGood(run: Run, fp: Footprint, initial: StorageMap, li: LedgerInfo, build: Build) {
    && run.storage.mode == Enforcing(build) && run.storage.footprint == fp && initial.Keys == fp.Keys
    && Respects(run.storage.entries, fp, initial, li, build)
    && forall i :: 0 <= i < |run.saved| ==> Respects(run.saved[i], fp, initial, li, build)
  }

  lemma {:induction false} ExpiryStepRespects(st: Storage, key: LedgerKey, initial: StorageMap, li: LedgerInfo, build: Build)
    requires st.mode == Enforcing(build) && initial.Keys == st.footprint.Keys
    requires Respects(st.entries, st.footprint, initial, li, build)
    ensures
      var st' := ExpiryStep(st, key, li).0;
      && st'.mode == st.mode && st'.footprint == st.footprint
      && Respects(st'.entries, st.footprint, initial, li, build)
  {
    if build.RecordingBuild? && key in st.entries && st.footprint[key] == ReadOnly {
      LiveIsNotExpired(st, key, li);
    }
  }

  lemma {:induction false} RaisedTransitive(a: Option<EntryWithLiveUntil>, b: Option<EntryWithLiveUntil>, c: Option<EntryWithLiveUntil>)
    requires Raised(a, b) && Raised(b, c)
    ensures Raised(a, c)
  {
  }

  lemma {:induction false} ExtendRespects(
    st: Storage, key: LedgerKey, threshold: nat, extendTo: nat, initial: StorageMap, li: LedgerInfo, build: Build)
    requires st.mode == Enforcing(build) && initial.Keys == st.footprint.Keys
    requires Respects(st.entries, st.footprint, initial, li, build)
    ensures
      var st' := ExtendTtl(st, key, threshold, extendTo, li).0;
      st'.mode == st.mode && st'.footprint == st.footprint && Respects(st'.entries, st.footprint, initial, li, build)
  {
    ExpiryStepRespects(st, key, initial, li, build);
    var st1, st' := ExpiryStep(st, key, li).0, ExtendTtl(st, key, threshold, extendTo, li).0;
    hide ExpiryStep, HandleMaybeExpired, NewLiveUntil;
    if st'.entries != st1.entries && st' != st {
      assert GetWithLiveUntil(st1, key, li).0 == st1;
      assert st' == st1.(entries := st1.entries[key := st'.entries[key]]);
      if st.footprint[key] == ReadOnly {
        assert Raised(st1.entries[key], st'.entries[key]);
        RaisedTransitive(initial[key], st1.entries[key], st'.entries[key]);
      }
    }
  }

  lemma {:induction false} OpRespects(st: Storage, op: Op, initial: StorageMap, li: LedgerInfo, build: Build)
    requires st.mode == Enforcing(build) && initial.Keys == st.footprint.Keys
    requires Respects(st.entries, st.footprint, initial, li, build)
    ensures
      var st' := Apply(op, st, li).0;
      && st'.mode == st.mode && st'.footprint == st.footprint
      && Respects(st'.entries, st.footprint, initial, li, build)
  {
    ExpiryStepRespects(st, op.key, initial, li, build);
    if op.Extend? {
      ExtendRespects(st, op.key, op.threshold, op.extendTo, initial, li, build);
    }
    hide ExpiryStep, HandleMaybeExpired, ExtendTtl;
  }

  lemma {:induction false} EnforcingRunKeeps(
    run: Run, steps: seq<Step>, fp: Footprint, initial: StorageMap, li: LedgerInfo, build: Build)
    requires EnforcingGood(run, fp, initial, li, build)
    ensures EnforcingGood(After(run, steps, li), fp, initial, li, build)
    decreases |steps|
  {
    if steps != [] {
      hide Apply, Respects;
      if steps[0].Do? {
        OpRespects(run.storage, steps[0].op, initial, li, build);
      }
      EnforcingRunKeeps(Next(run, steps[0], li), steps[1..], fp, initial, li, build);
    }
  }

  /**
   Every enforcing run, rollbacks included, keeps the keys of the map equal to those of the
   footprint, never changes the entry of a read-only key and only raises its live-until
   ledger; a read fails only for an unsupported key or one outside the footprint, so the
   error for a key missing from the map cannot occur. In the default build this holds from any
   map over the footprint's keys; with the recording feature, from a map of live entries.
   */
  lemma {:induction false} EnforcingRunsRespectFootprint(
    fp: Footprint, initial: StorageMap, steps: seq<Step>, li: LedgerInfo, build: Build, key: LedgerKey)
    requires initial.Keys == fp.Keys && (build.RecordingBuild? ==> AllLive(initial, li))
    ensures
      var st := After(StartEnforcing(fp, initial, build), steps, li).storage;
      && st.mode == Enforcing(build) && st.footprint == fp && st.entries.Keys == fp.Keys
      && (key in fp && fp[key] == ReadOnly ==> Raised(initial[key], st.entries[key]))
      && (TryGetFull(st, key, li).1.Err? <==> !IsSupported(key) || key !in fp)
      && (key in fp && IsSupported(key) ==> TryGetFull(st, key, li) == (st, Ok(st.entries[key])))
  {
    EnforcingRunKeeps(StartEnforcing(fp, initial, build), steps, fp, initial, li, build);
  }
}
