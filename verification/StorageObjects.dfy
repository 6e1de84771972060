/**
 `Storage` in the source's own form: an object that reassigns its footprint and its map.
 Every method is proved against the function of LedgerStorage that says what it does.
 */
module StorageObjects {
  import opened Prelude
  import S = LedgerStorage

  class Storage {
    var footprint: S.Footprint
    var mode: S.Mode
    var entries: S.StorageMap

    function Value(): S.Storage
      reads this
    {
      S.Storage(footprint, mode, entries)
    }

    /** `with_enforcing_footprint_and_map` and `with_recording_footprint`. */
    constructor (st: S.Storage)
      ensures Value() == st
    {
      footprint, mode, entries := st.footprint, st.mode, st.entries;
    }

    method RecordAccess(key: S.LedgerKey, ty: S.AccessType)
      modifies this`footprint
      ensures footprint == S.RecordAccess(old(footprint), key, ty)
    {
      if key in footprint {
        match (footprint[key], ty) {
          case (ReadOnly, ReadWrite) => footprint := footprint[key := ty];
          case (ReadOnly, ReadOnly) =>
          case (ReadWrite, _) =>
        }
      } else {
        footprint := footprint[key := ty];
      }
    }

    method EnforceAccess(key: S.LedgerKey, ty: S.AccessType) returns (r: S.Result<()>)
      ensures r == if S.AccessAllowed(footprint, key, ty) then S.Ok(()) else S.Err(S.ExceededLimit)
    {
      if key in footprint {
        match (footprint[key], ty) {
          case (ReadOnly, ReadWrite) => return S.Err(S.ExceededLimit);
          case (ReadOnly, ReadOnly) => return S.Ok(());
          case (ReadWrite, _) => return S.Ok(());
        }
      }
      return S.Err(S.ExceededLimit);
    }

    method HandleMaybeExpiredEntry(key: S.LedgerKey, li: S.LedgerInfo) returns (r: S.Result<()>)
      modifies this`footprint, this`entries
      ensures (Value(), r) == S.HandleMaybeExpired(old(Value()), key, li)
    {
      if key in entries && entries[key].Some? {
        var (entry, liveUntil) := entries[key].value;
        var durability := S.DurabilityOf(key);
        if durability.Some? {
          if liveUntil.None? {
            return S.Err(S.StorageInternalError);
          }
          if liveUntil.value < li.sequenceNumber {
            match durability.value {
              case Temporary =>
                entries := entries[key := None];
              case Persistent =>
                RecordAccess(key, S.ReadWrite);
                var newLiveUntil := S.MinLiveUntil(li, S.Persistent);
                if newLiveUntil.None? {
                  return S.Err(S.StorageInternalError);
                }
                entries := entries[key := Some((entry, newLiveUntil))];
            }
          }
        }
      }
      return S.Ok(());
    }

    method PrepareReadOnlyAccess(key: S.LedgerKey, li: S.LedgerInfo) returns (r: S.Result<()>)
      modifies this`footprint, this`entries
      ensures (Value(), r) == S.PrepareReadOnly(old(Value()), key, li)
    {
      match mode {
        case Recording(snapshot) =>
          RecordAccess(key, S.ReadOnly);
          if key !in entries {
            entries := entries[key := S.SnapshotGet(snapshot, key)];
          }
          RecordAccess(key, S.ReadOnly);
          r := HandleMaybeExpiredEntry(key, li);
        case Enforcing(_) =>
          r := EnforceAccess(key, S.ReadOnly);
      }
    }

    method TryGetFull(key: S.LedgerKey, li: S.LedgerInfo) returns (r: S.Result<Option<S.EntryWithLiveUntil>>)
      modifies this`footprint, this`entries
      ensures (Value(), r) == S.TryGetFull(old(Value()), key, li)
    {
      if !S.IsSupported(key) {
        return S.Err(S.StorageInternalError);
      }
      var prepared := PrepareReadOnlyAccess(key, li);
      if prepared.Err? {
        return S.Err(prepared.error);
      }
      if key !in entries {
        return S.Err(S.StorageInternalError);
      }
      return S.Ok(entries[key]);
    }

    method GetWithLiveUntilLedger(key: S.LedgerKey, li: S.LedgerInfo) returns (r: S.Result<S.EntryWithLiveUntil>)
      modifies this`footprint, this`entries
      ensures (Value(), r) == S.GetWithLiveUntil(old(Value()), key, li)
    {
      var found := TryGetFull(key, li);
      if found.Err? {
        return S.Err(found.error);
      }
      if found.value.None? {
        return S.Err(S.MissingValue);
      }
      return S.Ok(found.value.value);
    }

    method Has(key: S.LedgerKey, li: S.LedgerInfo) returns (r: S.Outcome)
      modifies this`footprint, this`entries
      ensures (Value(), r) == S.Apply(S.Has(key), old(Value()), li)
    {
      var found := TryGetFull(key, li);
      return if found.Ok? then S.Present(found.value.Some?) else S.Failed(found.error);
    }

    method PutOpt(key: S.LedgerKey, val: Option<S.EntryWithLiveUntil>, li: S.LedgerInfo) returns (r: S.Result<()>)
      modifies this`footprint, this`entries
      ensures (Value(), r) == S.PutOpt(old(Value()), key, val, li)
    {
      if !S.IsSupported(key) {
        return S.Err(S.StorageInternalError);
      }
      if val.Some? && !S.IsSupported(val.value.0.key) {
        return S.Err(S.StorageInternalError);
      }
      r := S.Ok(());
      if S.LooksForExpired(mode) {
        r := HandleMaybeExpiredEntry(key, li);
      }
      if r.Err? {
        return;
      }
      if mode.Recording? {
        RecordAccess(key, S.ReadWrite);
      } else {
        r := EnforceAccess(key, S.ReadWrite);
        if r.Err? {
          return;
        }
      }
      entries := entries[key := val];
    }

    method ExtendTtl(key: S.LedgerKey, threshold: nat, extendTo: nat, li: S.LedgerInfo) returns (r: S.Result<()>)
      modifies this`footprint, this`entries
      ensures (Value(), r) == S.ExtendTtl(old(Value()), key, threshold, extendTo, li)
    {
      hide S.HandleMaybeExpired, S.GetWithLiveUntil;
      if !S.IsSupported(key) {
        return S.Err(S.StorageInternalError);
      }
      if threshold > extendTo {
        return S.Err(S.InvalidInput);
      }
      r := S.Ok(());
      if S.LooksForExpired(mode) {
        r := HandleMaybeExpiredEntry(key, li);
      }
      if r.Err? {
        return;
      }
      var found := GetWithLiveUntilLedger(key, li);
      if found.Err? {
        return S.Err(found.error);
      }
      var (entry, oldLiveUntil) := found.value;
      if oldLiveUntil.None? || oldLiveUntil.value < li.sequenceNumber {
        return S.Err(S.StorageInternalError);
      }
      var target := S.NewLiveUntil(key, extendTo, li);
      if target.Err? {
        return S.Err(target.error);
      }
      if target.value > oldLiveUntil.value && oldLiveUntil.value - li.sequenceNumber <= threshold {
        entries := entries[key := Some((entry, Some(target.value)))];
      }
      return S.Ok(());
    }
  }
}
