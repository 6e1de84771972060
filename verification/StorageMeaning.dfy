/**
 What storage means, key by key: the outcome of every operation is determined by the ledger's view
 of its key and by the writes, deletions and extensions of that key that no rollback has undone.
 */
module StorageMeaning {
  import opened Prelude
  import opened LedgerStorage
  import opened StorageReplay
  import Words

  // ---------------------------------------------------------------- the operations that survive

  /** The operations so far, and those at each rollback point. */
  datatype Log = Log(ops: seq<Op>, saved: seq<seq<Op>>)

  /** A rollback forgets what its frame did; a frame that is left keeps it. */
  function NextLog(log: Log, step: Step): Log {
    match step
    case Do(op) => log.(ops := log.ops + [op])
    case Enter => log.(saved := log.saved + [log.ops])
    case Leave => if log.saved == [] then log else log.(saved := log.saved[..|log.saved| - 1])
    case Rollback =>
      if log.saved == [] then log else Log(log.saved[|log.saved| - 1], log.saved[..|log.saved| - 1])
  }

  function LogAfter(log: Log, steps: seq<Step>): Log
    decreases |steps|
  {
    if steps == [] then log else LogAfter(NextLog(log, steps[0]), steps[1..])
  }

  // ---------------------------------------------------------------- what an operation does to its key

  /** The last ledger to which a TTL may reach: the current one counts as the first. */
  function LastLedger(li: LedgerInfo): nat {
    if li.maxEntryTtl == 0 then li.sequenceNumber else li.sequenceNumber + li.maxEntryTtl - 1
  }

  /** Where an extension aims, or why it fails: persistent entries are clamped, temporary ones refused. */
  function Aim(key: LedgerKey, extendTo: nat, li: LedgerInfo): Result<nat> {
    var target := li.sequenceNumber + extendTo;
    if target > Words.U32_MAX || LastLedger(li) > Words.U32_MAX then Err(ContextInternalError)
    else if target <= LastLedger(li) then Ok(target)
    else if key.ContractCodeKey? || (key.ContractDataKey? && key.durability.Persistent?) then Ok(LastLedger(li))
    else if key.ContractDataKey? then Err(InvalidAction)
    else Err(StorageInternalError)
  }

  /** An entry is extended if it has at most `threshold` ledgers left and the aim is later. */
  function Extended(
    v: Option<EntryWithLiveUntil>, key: LedgerKey, threshold: nat, extendTo: nat, li: LedgerInfo): Option<EntryWithLiveUntil>
  {
    if v.None? || v.value.1.None? || v.value.1.value < li.sequenceNumber || Aim(key, extendTo, li).Err? then v
    else
      var liveUntil, aim := v.value.1.value, Aim(key, extendTo, li).value;
      if liveUntil < aim && liveUntil <= li.sequenceNumber + threshold then Some((v.value.0, Some(aim))) else v
  }

  function Effect(op: Op, key: LedgerKey, v: Option<EntryWithLiveUntil>, li: LedgerInfo): Option<EntryWithLiveUntil> {
    if op.key != key || !Touches(op) then v
    else
      match op
      case Put(_, entry, liveUntil) => Some((entry, liveUntil))
      case Del(_) => None
      case Extend(_, threshold, extendTo) => Extended(v, key, threshold, extendTo, li)
      case _ => v
  }

  function Effects(ops: seq<Op>, key: LedgerKey, v: Option<EntryWithLiveUntil>, li: LedgerInfo): Option<EntryWithLiveUntil> {
    if ops == [] then v
    else Effect(ops[|ops| - 1], key, Effects(ops[..|ops| - 1], key, v, li), li)
  }

  /** What a key holds after some steps. */
  function Meaning(snapshot: Snapshot, steps: seq<Step>, key: LedgerKey, li: LedgerInfo): Option<EntryWithLiveUntil> {
    Effects(LogAfter(Log([], []), steps).ops, key, View(snapshot, key, li), li)
  }

  /** The outcome of an operation on a key that holds `v`. */
  function Answer(op: Op, v: Option<EntryWithLiveUntil>, li: LedgerInfo): Outcome {
    if !IsSupported(op.key) || (op.Put? && !IsSupported(op.entry.key)) then Failed(StorageInternalError)
    else
      match op
      case TryGet(_) => Found(v)
      case Get(_) => if v.Some? then Found(v) else Failed(MissingValue)
      case Has(_) => Present(v.Some?)
      case Put(_, _, _) => Done
      case Del(_) => Done
      case Extend(key, threshold, extendTo) =>
        if threshold > extendTo then Failed(InvalidInput)
        else if v.None? then Failed(MissingValue)
        else if v.value.1.None? || v.value.1.value < li.sequenceNumber then Failed(StorageInternalError)
        else if Aim(key, extendTo, li).Err? then Failed(Aim(key, extendTo, li).error)
        else Done
  }

  // ---------------------------------------------------------------- one operation

  lemma {:induction false} AimIsNewLiveUntil(key: LedgerKey, extendTo: nat, li: LedgerInfo)
    ensures NewLiveUntil(key, extendTo, li) == Aim(key, extendTo, li)
  {
  }

  /** What a key holds in a recording map: the cached entry or the ledger's view. */
  function Current(entries: StorageMap, snapshot: Snapshot, key: LedgerKey, li: LedgerInfo): Option<EntryWithLiveUntil> {
    if key in entries then entries[key] else View(snapshot, key, li)
  }

  ghost predicate Means(entries: StorageMap, ops: seq<Op>, snapshot: Snapshot, li: LedgerInfo) {
    forall k :: Current(entries, snapshot, k, li) == Effects(ops, k, View(snapshot, k, li), li)
  }

  /** One operation of recording mode: its outcome, and what it leaves at every key. */
  ghost predicate ActsOn(st: Storage, st': Storage, outcome: Outcome, op: Op, snapshot: Snapshot, li: LedgerInfo) {
    && outcome == Answer(op, Current(st.entries, snapshot, op.key, li), li)
    && forall k :: Current(st'.entries, snapshot, k, li) == Effect(op, k, Current(st.entries, snapshot, k, li), li)
  }

  lemma {:induction false} ExtendActs(
    st: Storage, snapshot: Snapshot, key: LedgerKey, threshold: nat, extendTo: nat, li: LedgerInfo)
    requires st.mode == Recording(snapshot) && Assumes(snapshot, li) && AllLive(st.entries, li)
    requires IsSupported(key) && threshold <= extendTo
    ensures
      var (st', r) := ExtendTtl(st, key, threshold, extendTo, li);
      ActsOn(st, st', DoneOr(r), Extend(key, threshold, extendTo), snapshot, li)
  {
    LiveIsNotExpired(st, key, li);
    RecordingReads(st, snapshot, key, li);
    AimIsNewLiveUntil(key, extendTo, li);
    hide HandleMaybeExpired, TryGetFull, NewLiveUntil, Aim, View, Assumes, AllLive;
  }

  lemma {:induction false} OpActs(st: Storage, snapshot: Snapshot, op: Op, li: LedgerInfo)
    requires st.mode == Recording(snapshot) && Assumes(snapshot, li) && AllLive(st.entries, li)
    ensures ActsOn(st, Apply(op, st, li).0, Apply(op, st, li).1, op, snapshot, li)
  {
    if op.Extend? && Touches(op) {
      ExtendActs(st, snapshot, op.key, op.threshold, op.extendTo, li);
      hide ExtendTtl;
    } else if Touches(op) {
      LiveIsNotExpired(st, op.key, li);
      RecordingReads(st, snapshot, op.key, li);
      hide HandleMaybeExpired, TryGetFull, View, Assumes, AllLive, ExtendTtl;
    }
  }

  // ---------------------------------------------------------------- whole runs

  ghost predicate RunMeans(run: Run, log: Log, snapshot: Snapshot, li: LedgerInfo) {
    && RunLive(run, snapshot, li)
    && Means(run.storage.entries, log.ops, snapshot, li)
    && |run.saved| == |log.saved|
    && forall i :: 0 <= i < |run.saved| ==> Means(run.saved[i], log.saved[i], snapshot, li)
  }

  lemma {:induction false} OpMeans(st: Storage, ops: seq<Op>, snapshot: Snapshot, op: Op, li: LedgerInfo)
    requires st.mode == Recording(snapshot) && Assumes(snapshot, li) && AllLive(st.entries, li)
    requires Means(st.entries, ops, snapshot, li)
    ensures Means(Apply(op, st, li).0.entries, ops + [op], snapshot, li)
  {
    OpActs(st, snapshot, op, li);
    hide Apply, Effect, View;
    assert (ops + [op])[..|ops|] == ops;
  }

  lemma {:induction false} NextMeans(run: Run, log: Log, step: Step, snapshot: Snapshot, li: LedgerInfo)
    requires RunMeans(run, log, snapshot, li) && Assumes(snapshot, li) && PutsLive([step], li)
    ensures RunMeans(Next(run, step, li), NextLog(log, step), snapshot, li)
  {
    hide Means, Apply, AllLive, Assumes;
    if step.Do? {
      assert [step][0] == step;
      OpMeans(run.storage, log.ops, snapshot, step.op, li);
      OpRecordsAccess(run.storage, snapshot, step.op, li);
    }
  }

  lemma {:induction false} AfterMeans(run: Run, log: Log, steps: seq<Step>, snapshot: Snapshot, li: LedgerInfo)
    requires RunMeans(run, log, snapshot, li) && Assumes(snapshot, li) && PutsLive(steps, li)
    ensures RunMeans(After(run, steps, li), LogAfter(log, steps), snapshot, li)
    decreases |steps|
  {
    hide RunMeans, Assumes, Next, NextLog;
    if steps != [] {
      assert PutsLive([steps[0]], li) by {
        assert [steps[0]][0] == steps[0];
      }
      assert PutsLive(steps[1..], li) by {
        assert forall i :: 0 <= i < |steps| - 1 ==> steps[1..][i] == steps[i + 1];
      }
      NextMeans(run, log, steps[0], snapshot, li);
      AfterMeans(Next(run, steps[0], li), NextLog(log, steps[0]), steps[1..], snapshot, li);
    }
  }

  lemma {:induction false} StartMeans(snapshot: Snapshot, li: LedgerInfo)
    ensures RunMeans(StartRecording(snapshot), Log([], []), snapshot, li)
  {
    hide View;
  }

  /**
   Recording: after any steps every operation answers by what its key holds: the ledger's view, as
   changed by the surviving writes, deletions and extensions of that key, the last write deciding.
   */
  lemma {:induction false} RecordingAnswersByMeaning(snapshot: Snapshot, steps: seq<Step>, op: Op, li: LedgerInfo)
    requires Assumes(snapshot, li) && PutsLive(steps, li)
    ensures
      Apply(op, After(StartRecording(snapshot), steps, li).storage, li).1 ==
      Answer(op, Meaning(snapshot, steps, op.key, li), li)
  {
    StartMeans(snapshot, li);
    AfterMeans(StartRecording(snapshot), Log([], []), steps, snapshot, li);
    OpActs(After(StartRecording(snapshot), steps, li).storage, snapshot, op, li);
    hide Apply, After, LogAfter, Answer, View, Effects, AllLive, Assumes;
  }

  /** Enforcing, in either build, under a footprint that allows the steps and the operation: the same. */
  lemma {:induction false} EnforcingAnswersByMeaning(
    snapshot: Snapshot, fp: Footprint, steps: seq<Step>, op: Op, li: LedgerInfo, build: Build)
    requires Assumes(snapshot, li) && PutsLive(steps, li) && Allows(fp, steps)
    requires op.Put? ==> IsLive(op.key, Some((op.entry, op.liveUntil)), li)
    requires Touches(op) ==> AccessAllowed(fp, op.key, AccessOf(op))
    ensures
      Apply(op, After(StartEnforcing(fp, InitialMap(snapshot, fp, li), build), steps, li).storage, li).1 ==
      Answer(op, Meaning(snapshot, steps, op.key, li), li)
  {
    var r, e := StartRecording(snapshot), StartEnforcing(fp, InitialMap(snapshot, fp, li), build);
    StartInStep(snapshot, fp, li, build);
    AfterAgrees(r, e, steps, fp, snapshot, li);
    AllowedOpAgrees(op, After(r, steps, li).storage, After(e, steps, li).storage, fp, snapshot, li);
    hide Apply, After, Meaning, Answer;
    RecordingAnswersByMeaning(snapshot, steps, op, li);
  }

  // ---------------------------------------------------------------- what the meaning says

  /** A key that is written last, with nothing after it, holds what was written. */
  lemma {:induction false} WriteThenRead(
    snapshot: Snapshot, steps: seq<Step>, key: LedgerKey, entry: LedgerEntry, liveUntil: Option<nat>, li: LedgerInfo)
    requires Assumes(snapshot, li) && PutsLive(steps, li) && IsSupported(key) && IsSupported(entry.key)
    requires IsLive(key, Some((entry, liveUntil)), li)
    ensures
      var st := After(StartRecording(snapshot), steps + [Do(Put(key, entry, liveUntil))], li).storage;
      && Apply(TryGet(key), st, li).1 == Found(Some((entry, liveUntil)))
      && forall other :: IsSupported(other) && other != key ==>
           Apply(TryGet(other), st, li).1 == Apply(TryGet(other), After(StartRecording(snapshot), steps, li).storage, li).1
  {
    var put := Do(Put(key, entry, liveUntil));
    assert PutsLive(steps + [put], li);
    RecordingAnswersByMeaning(snapshot, steps + [put], TryGet(key), li);
    LogSnoc(Log([], []), steps, put);
    var ops := LogAfter(Log([], []), steps).ops;
    assert (ops + [put.op])[..|ops|] == ops;
    hide Apply, After, LogAfter, View, Assumes, PutsLive;
    forall other | IsSupported(other) && other != key
      ensures Apply(TryGet(other), After(StartRecording(snapshot), steps + [put], li).storage, li).1 ==
              Apply(TryGet(other), After(StartRecording(snapshot), steps, li).storage, li).1
    {
      RecordingAnswersByMeaning(snapshot, steps + [put], TryGet(other), li);
      RecordingAnswersByMeaning(snapshot, steps, TryGet(other), li);
    }
  }

  /** Enforcing, from any state and in either build: a successful write is read back, and other keys read as before. */
  lemma {:induction false} EnforcingWriteThenRead(
    st: Storage, key: LedgerKey, val: Option<EntryWithLiveUntil>, other: LedgerKey, li: LedgerInfo)
    requires st.mode.Enforcing? && PutOpt(st, key, val, li).1.Ok?
    ensures
      var st' := PutOpt(st, key, val, li).0;
      && TryGetFull(st', key, li) == (st', Ok(val))
      && (other != key ==> TryGetFull(st', other, li).1 == TryGetFull(st, other, li).1)
  {
  }

  lemma {:induction false} LogSnoc(log: Log, steps: seq<Step>, step: Step)
    ensures LogAfter(log, steps + [step]) == NextLog(LogAfter(log, steps), step)
    decreases |steps|
  {
    hide NextLog;
    if steps == [] {
      assert steps + [step] == [step] && [step][1..] == [];
      assert LogAfter(NextLog(log, step), []) == NextLog(log, step);
    } else {
      assert (steps + [step])[0] == steps[0] && (steps + [step])[1..] == steps[1..] + [step];
      LogSnoc(NextLog(log, steps[0]), steps[1..], step);
    }
  }

  /** An archived persistent entry reads as restored for the minimum TTL, the current ledger counting as its first. */
  lemma {:induction false} ArchivedReadsAsRestored(snapshot: Snapshot, key: LedgerKey, li: LedgerInfo)
    requires Assumes(snapshot, li) && IsSupported(key) && key in snapshot
    requires key.ContractCodeKey? || (key.ContractDataKey? && key.durability.Persistent?)
    requires snapshot[key].1.Some? && snapshot[key].1.value < li.sequenceNumber
    ensures
      var ttl := if li.minPersistentEntryTtl == 0 then 1 else li.minPersistentEntryTtl;
      Apply(TryGet(key), StartRecording(snapshot).storage, li).1 ==
      Found(Some((snapshot[key].0, Some(li.sequenceNumber + ttl - 1))))
  {
    assert PutsLive([], li);
    RecordingAnswersByMeaning(snapshot, [], TryGet(key), li);
  }

  /**
   An extension that succeeds: the live-until ledger becomes the aim exactly if at most `threshold`
   ledgers were left and the aim is later; the entry itself, and every other key, stay.
   */
  lemma {:induction false} ExtensionReaches(
    st: Storage, snapshot: Snapshot, key: LedgerKey, threshold: nat, extendTo: nat, li: LedgerInfo)
    requires st.mode == Recording(snapshot) && Assumes(snapshot, li) && AllLive(st.entries, li)
    requires ExtendTtl(st, key, threshold, extendTo, li).1.Ok?
    ensures Current(st.entries, snapshot, key, li).Some? && Current(st.entries, snapshot, key, li).value.1.Some?
    ensures
      var before := Current(st.entries, snapshot, key, li).value;
      var after := Current(ExtendTtl(st, key, threshold, extendTo, li).0.entries, snapshot, key, li);
      var end := li.sequenceNumber + extendTo;
      var aim := if end <= LastLedger(li) then end else LastLedger(li);
      && after.Some? && after.value.0 == before.0
      && after.value.1 == Some(
           if before.1.value < aim && before.1.value - li.sequenceNumber <= threshold then aim else before.1.value)
  {
    if IsSupported(key) && threshold <= extendTo {
      ExtendActs(st, snapshot, key, threshold, extendTo, li);
      hide ExtendTtl, View;
      var before := Current(st.entries, snapshot, key, li);
      assert Answer(Extend(key, threshold, extendTo), before, li) == Done;
    }
  }
}
