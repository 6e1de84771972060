/**
 soroban-env-host/src/storage.rs as functions on values: a map of ledger entries behind a
 footprint, which recording mode builds up while reading through to a snapshot, and which
 enforcing mode only checks.

 Recording mode exists only in the build with the recording feature. In that build writes and
 TTL extensions look for expired entries in either mode; in the default build they do not.
 */
module LedgerStorage {
  import opened Prelude
  import Words

  datatype Durability = Temporary | Persistent

  datatype LedgerKey =
    | AccountKey(id: nat)
    | TrustlineKey(id: nat)
    | ContractDataKey(id: nat, durability: Durability)
    | ContractCodeKey(id: nat)
    | UnsupportedKey(id: nat)

  /** `key` is the key of the entry, as `ledger_entry_to_ledger_key` computes it. */
  datatype LedgerEntry = LedgerEntry(key: LedgerKey, value: int, sizeForRent: nat)

  type EntryWithLiveUntil = (LedgerEntry, Option<nat>)
  type StorageMap = map<LedgerKey, Option<EntryWithLiveUntil>>
  type Snapshot = map<LedgerKey, EntryWithLiveUntil>

  datatype AccessType = ReadOnly | ReadWrite
  type Footprint = map<LedgerKey, AccessType>

  datatype LedgerInfo = LedgerInfo(
    sequenceNumber: nat, minTempEntryTtl: nat, minPersistentEntryTtl: nat, maxEntryTtl: nat)

  datatype Error =
    | StorageInternalError
    | ContextInternalError
    | ExceededLimit
    | MissingValue
    | InvalidInput
    | InvalidAction

  datatype Result<T> = Ok(value: T) | Err(error: Error)

  /** Whether the host is built with the recording feature. */
  datatype Build = DefaultBuild | RecordingBuild

  datatype Mode = Recording(snapshot: Snapshot) | Enforcing(build: Build)

  datatype Storage = Storage(footprint: Footprint, mode: Mode, entries: StorageMap)

  // ---------------------------------------------------------------- keys and ledgers

  predicate IsSupported(key: LedgerKey) {
    !key.UnsupportedKey?
  }

  /** `get_key_durability`. */
  function DurabilityOf(key: LedgerKey): Option<Durability> {
    match key
    case ContractDataKey(_, d) => Some(d)
    case ContractCodeKey(_) => Some(Persistent)
    case _ => None
  }

  /** `is_persistent_key`. */
  predicate IsPersistent(key: LedgerKey) {
    DurabilityOf(key) == Some(Persistent)
  }

  function CheckedAdd(a: nat, b: nat): Option<nat> {
    if a + b <= Words.U32_MAX then Some(a + b) else None
  }

  function SaturatingSub(a: nat, b: nat): nat {
    if a >= b then a - b else 0
  }

  /** `min_live_until_ledger_checked`. */
  function MinLiveUntil(li: LedgerInfo, d: Durability): Option<nat> {
    CheckedAdd(li.sequenceNumber, SaturatingSub(if d.Temporary? then li.minTempEntryTtl else li.minPersistentEntryTtl, 1))
  }

  /** `max_live_until_ledger_checked`. */
  function MaxLiveUntil(li: LedgerInfo): Option<nat> {
    CheckedAdd(li.sequenceNumber, SaturatingSub(li.maxEntryTtl, 1))
  }

  // ---------------------------------------------------------------- the footprint

  /** `Footprint::record_access`. */
  function RecordAccess(fp: Footprint, key: LedgerKey, ty: AccessType): Footprint {
    if key in fp && (fp[key].ReadWrite? || ty.ReadOnly?) then fp else fp[key := ty]
  }

  /** `Footprint::enforce_access`. */
  predicate AccessAllowed(fp: Footprint, key: LedgerKey, ty: AccessType) {
    key in fp && (fp[key].ReadWrite? || ty.ReadOnly?)
  }

  // ---------------------------------------------------------------- reads and writes

  function SnapshotGet(s: Snapshot, key: LedgerKey): Option<EntryWithLiveUntil> {
    if key in s then Some(s[key]) else None
  }

  /** `handle_maybe_expired_entry`. */
  function HandleMaybeExpired(st: Storage, key: LedgerKey, li: LedgerInfo): (Storage, Result<()>) {
    if key !in st.entries || st.entries[key].None? || DurabilityOf(key).None? then (st, Ok(()))
    else
      var (entry, liveUntil) := st.entries[key].value;
      if liveUntil.None? then (st, Err(StorageInternalError))
      else if liveUntil.value >= li.sequenceNumber then (st, Ok(()))
      else
        match DurabilityOf(key).value
        case Temporary => (st.(entries := st.entries[key := None]), Ok(()))
        case Persistent =>
          var recorded := st.(footprint := RecordAccess(st.footprint, key, ReadWrite));
          match MinLiveUntil(li, Persistent)
          case None => (recorded, Err(StorageInternalError))
          case Some(min) => (recorded.(entries := st.entries[key := Some((entry, Some(min)))]), Ok(()))
  }

  predicate LooksForExpired(mode: Mode) {
    mode.Recording? || mode.build.RecordingBuild?
  }

  /** The search for an expired entry with which a write or an extension begins, where it is compiled in. */
  function ExpiryStep(st: Storage, key: LedgerKey, li: LedgerInfo): (Storage, Result<()>) {
    if LooksForExpired(st.mode) then HandleMaybeExpired(st, key, li) else (st, Ok(()))
  }

  /** `prepare_read_only_access`. */
  function PrepareReadOnly(st: Storage, key: LedgerKey, li: LedgerInfo): (Storage, Result<()>) {
    match st.mode
    case Recording(snapshot) =>
      var recorded := st.(footprint := RecordAccess(st.footprint, key, ReadOnly));
      var loaded :=
        if key in st.entries then recorded
        else recorded.(entries := st.entries[key := SnapshotGet(snapshot, key)]);
      HandleMaybeExpired(loaded, key, li)
    case Enforcing(_) =>
      (st, if AccessAllowed(st.footprint, key, ReadOnly) then Ok(()) else Err(ExceededLimit))
  }

  /** `try_get_full`. */
  function TryGetFull(st: Storage, key: LedgerKey, li: LedgerInfo): (Storage, Result<Option<EntryWithLiveUntil>>) {
    if !IsSupported(key) then (st, Err(StorageInternalError))
    else
      var (st', r) := PrepareReadOnly(st, key, li);
      match r
      case Err(e) => (st', Err(e))
      case Ok(_) => (st', if key in st'.entries then Ok(st'.entries[key]) else Err(StorageInternalError))
  }

  /** `get_with_live_until_ledger`. */
  function GetWithLiveUntil(st: Storage, key: LedgerKey, li: LedgerInfo): (Storage, Result<EntryWithLiveUntil>) {
    var (st', r) := TryGetFull(st, key, li);
    match r
    case Err(e) => (st', Err(e))
    case Ok(None) => (st', Err(MissingValue))
    case Ok(Some(v)) => (st', Ok(v))
  }

  /** `put_opt`: a write, or a deletion when `val` is `None`. */
  function PutOpt(st: Storage, key: LedgerKey, val: Option<EntryWithLiveUntil>, li: LedgerInfo): (Storage, Result<()>) {
    if !IsSupported(key) || (val.Some? && !IsSupported(val.value.0.key)) then (st, Err(StorageInternalError))
    else
      var (st', r) := ExpiryStep(st, key, li);
      if r.Err? then (st', r)
      else if st'.mode.Recording? then
        (st'.(footprint := RecordAccess(st'.footprint, key, ReadWrite), entries := st'.entries[key := val]), Ok(()))
      else if AccessAllowed(st'.footprint, key, ReadWrite) then
        (st'.(entries := st'.entries[key := val]), Ok(()))
      else (st', Err(ExceededLimit))
  }

  /** The live-until ledger `extend_ttl` aims for, clamped or refused beyond the maximum. */
  function NewLiveUntil(key: LedgerKey, extendTo: nat, li: LedgerInfo): Result<nat> {
    match CheckedAdd(li.sequenceNumber, extendTo)
    case None => Err(ContextInternalError)
    case Some(target) =>
      match MaxLiveUntil(li)
      case None => Err(ContextInternalError)
      case Some(max) =>
        if target <= max then Ok(target)
        else
          match DurabilityOf(key)
          case Some(Persistent) => Ok(max)
          case Some(Temporary) => Err(InvalidAction)
          case None => Err(StorageInternalError)
  }

  /** `extend_ttl`. */
  function ExtendTtl(st: Storage, key: LedgerKey, threshold: nat, extendTo: nat, li: LedgerInfo): (Storage, Result<()>) {
    if !IsSupported(key) then (st, Err(StorageInternalError))
    else if threshold > extendTo then (st, Err(InvalidInput))
    else
      var (st1, r1) := ExpiryStep(st, key, li);
      if r1.Err? then (st1, r1)
      else
        var (st2, r2) := GetWithLiveUntil(st1, key, li);
        match r2
        case Err(e) => (st2, Err(e))
        case Ok((entry, liveUntil)) =>
          if liveUntil.None? || liveUntil.value < li.sequenceNumber then (st2, Err(StorageInternalError))
          else
            match NewLiveUntil(key, extendTo, li)
            case Err(e) => (st2, Err(e))
            case Ok(target) =>
              if target > liveUntil.value && liveUntil.value - li.sequenceNumber <= threshold then
                (st2.(entries := st2.entries[key := Some((entry, Some(target)))]), Ok(()))
              else (st2, Ok(()))
  }

  // ---------------------------------------------------------------- operations and runs

  datatype Op =
    | TryGet(key: LedgerKey)
    | Get(key: LedgerKey)
    | Has(key: LedgerKey)
    | Put(key: LedgerKey, entry: LedgerEntry, liveUntil: Option<nat>)
    | Del(key: LedgerKey)
    | Extend(key: LedgerKey, threshold: nat, extendTo: nat)

  datatype Outcome =
    | Found(value: Option<EntryWithLiveUntil>)
    | Present(present: bool)
    | Done
    | Failed(error: Error)

  function DoneOr(r: Result<()>): Outcome {
    if r.Ok? then Done else Failed(r.error)
  }

  function Apply(op: Op, st: Storage, li: LedgerInfo): (Storage, Outcome) {
    match op
    case TryGet(key) =>
      var (st', r) := TryGetFull(st, key, li);
      (st', if r.Ok? then Found(r.value) else Failed(r.error))
    case Get(key) =>
      var (st', r) := GetWithLiveUntil(st, key, li);
      (st', if r.Ok? then Found(Some(r.value)) else Failed(r.error))
    case Has(key) =>
      var (st', r) := TryGetFull(st, key, li);
      (st', if r.Ok? then Present(r.value.Some?) else Failed(r.error))
    case Put(key, entry, liveUntil) =>
      var (st', r) := PutOpt(st, key, Some((entry, liveUntil)), li);
      (st', DoneOr(r))
    case Del(key) =>
      var (st', r) := PutOpt(st, key, None, li);
      (st', DoneOr(r))
    case Extend(key, threshold, extendTo) =>
      var (st', r) := ExtendTtl(st, key, threshold, extendTo, li);
      (st', DoneOr(r))
  }

  /** A run: operations, and frames that keep or roll back the map when they end. */
  datatype Step = Do(op: Op) | Enter | Leave | Rollback

  /** `saved` holds the maps of the rollback points; the footprint is never rolled back. */
  datatype Run = Run(storage: Storage, saved: seq<StorageMap>, outcomes: seq<Outcome>)

  function Next(run: Run, step: Step, li: LedgerInfo): Run {
    match step
    case Do(op) =>
      var (st, outcome) := Apply(op, run.storage, li);
      run.(storage := st, outcomes := run.outcomes + [outcome])
    case Enter => run.(saved := run.saved + [run.storage.entries])
    case Leave => if run.saved == [] then run else run.(saved := run.saved[..|run.saved| - 1])
    case Rollback =>
      if run.saved == [] then run
      else
        run.(storage := run.storage.(entries := run.saved[|run.saved| - 1]), saved := run.saved[..|run.saved| - 1])
  }

  function After(run: Run, steps: seq<Step>, li: LedgerInfo): Run
    decreases |steps|
  {
    if steps == [] then run else After(Next(run, steps[0], li), steps[1..], li)
  }

  function StartRecording(snapshot: Snapshot): Run {
    Run(Storage(map[], Recording(snapshot), map[]), [], [])
  }

  function StartEnforcing(fp: Footprint, entries: StorageMap, build: Build): Run {
    Run(Storage(fp, Enforcing(build), entries), [], [])
  }
}
