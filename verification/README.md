# Soroban host: authorization, storage, rent and values

Dafny models of the parts of the Soroban contract host that carry the most state and
arithmetic, with proofs of what they promise.

- **Authorization** (`InvocationTree`, `InvocationMatcher`, `AuthManager`, `AuthRun`,
  `AuthTheorems`, `AuthProvenance`, `AuthEntries`, `AuthCredentials`, `AuthReplay`). An `InvocationTracker` matches a tree of authorized
  invocations against the live call stack; an `AuthorizationManager` drives many trackers
  through frames, snapshots, rollbacks and `require_auth`, in enforcing and in recording mode.
  A run is a tree of actions (require, authorize as current contract, invoke, create, trap);
  authentication is a nested list of actions. `TrackerObjects` and `ManagerObjects` are the same
  operations in the source's form, objects updated in place, each method proved equal to the
  function that the theorems are about.
- **Storage** (`LedgerStorage`, `StorageReplay`, `StorageMeaning`, `StorageObjects`,
  `LedgerFootprints`, `LedgerChanges`). Recording mode reads through to a snapshot and collects a footprint;
  enforcing mode checks a fixed footprint over a prepared map, in the build with the recording
  feature and in the default build. A run is any sequence of
  operations and of frames that keep or roll back the map. The end-to-end code turns the
  footprint into key lists and restored indices, builds the initial map, and reports ledger and
  rent changes.
- **Rent** (`Words`, `Saturating`, `RentFees`, `RentPrice`). Fees in saturating integers, rounded up.
- **Values** (`Ordering`, `SmallSymbol`, `SmallValues`, `ValCompare`, `ObjectHandles`). The
  64-bit `Val`: small forms, conversion, order, and relative and absolute object handles.

Three things exist only in the model: a tree node remembers the frame that matched it
(`matchedBy`), an invoker tracker the depth it was created at (`depth`), and the manager's state
the ids of past and present frames (`ids`, `history`, `clock`). No operation reads them to decide
anything. Nonces are a set of (address, nonce) pairs that is rolled back with the frame, as the
ledger entries they stand for are.

## Where code and documentation disagree

The models follow the code. Each of these is stated as an exact condition in the table.

- A live-until change is documented never to lower the live-until ledger. It does, to zero,
  for a removed entry, and only then (`LiveUntilDropsIffRemoved`).
- An expired entry is documented to be an internal error in the default build. The check is
  compiled out there: the default build accepts what the recording build rejects
  (`BuildsAgreeIffNoneExpired`, `DefaultBuildAcceptsExpired`).
- Footprint-only changes are added so that simulation can determine fees, but carry no TTL
  change. An archived entry read only in a frame that fails is restored, and charged rent, by the
  replay, while recording reports no rent for it (`RecordedRentIsReplayedRent`,
  `RolledBackRestoreIsNotReported`).
- The overflow check of a handle never fires for an index from 2^31 to 2^32 - 1: the top bit is
  lost and the handle names another entry (`HandleLeadsBackIffBelow31Bits`).
- A contract that requires, in its own frame, the authorization it has just granted for its next
  call gets an internal error, after the granted root has been exhausted, and nothing else makes
  matching fail (`MatchingFailsOnlyInOwnFrame`, `InvokerCheckFailsIff`, `OwnAuthorizationFails`).
  The frame index wraps around on the way to that error (soroban-env-host/src/auth.rs:1693), so a
  build with overflow checks panics first.
- The price of rent can fall as the state grows when the low fee exceeds the high fee; which
  configurations do is read off their four numbers (`NonDecreasingIff`, `PriceCanFall`).
- Splitting the extension of a code entry can cost one less than extending it at once, exactly when
  the remainders lost to the discount make up a unit (`SplitCodeExtensionIff`,
  `SplitCodeExtensionCanCostLess`).
- Rent follows the area of bytes and ledgers whatever the order of growing and extending, give or
  take one, for a live entry. Extending a lapsed entry first skips the growth over the lapsed ledgers
  and can save more (`ExtendThenGrowLapsed`, `ExtendingLapsedFirstCanSaveMore`).

## Model

| member | source | states |
|---|---|---|
| InvocationTree.RollbackRestores | soroban-env-host/src/auth.rs:730-758 | Rolling back any tree that grew from the snapshotted one by exhausting nodes gives that tree back exactly |
| InvocationTree.RollbackFailsIffShapesDiffer | soroban-env-host/src/auth.rs:744-758 | Rollback fails if and only if the tree does not have the shape of the snapshot |
| InvocationMatcher.WalkFindsDeepestMatch | soroban-env-host/src/auth.rs:699-727 | On a stack whose entries trace exhausted nodes the walk never hits an internal error, and finds a node exactly when the root match is on the stack, namely the deepest matched one |
| InvocationMatcher.ExtendIsMatch | soroban-env-host/src/auth.rs:1663-1706 | On such a stack matching never fails, and either changes nothing or exhausts exactly one unexhausted node whose function is the required one and whose parent is the deepest match, and puts it on top of the stack |
| InvocationMatcher.ExtendKeepsGood | soroban-env-host/src/auth.rs:1663-1706 | Matching for the top frame keeps the whole tracker invariant: linked stack, agreeing flags, faithful, injective and nested matches |
| InvocationMatcher.RecordKeepsGood | soroban-env-host/src/auth.rs:1714-1743 | With a match on the stack, recording a call succeeds exactly when the frame has not matched yet, adds one child under the deepest match, and keeps that invariant |
| InvocationMatcher.ActiveIffRootOnStack | soroban-env-host/src/auth.rs:400-436 | A tracker is active exactly while its root match is on the stack; there is at most one root match, no sub-match before it, and the indices trace exhausted nodes |
| InvocationMatcher.PushEvolvePop | soroban-env-host/src/auth.rs:1619-1633 | A nested frame that was pushed, changed and popped leaves the entries of the frames below as they were |
| InvocationMatcher.RollbackPopRestores | soroban-env-host/src/auth.rs:1626-1767 | Rollback and pop restore the tracker, including the flags and the stack that the snapshot does not hold |
| AuthRun.DropIsExact | soroban-env-host/src/auth.rs:1389-1413 | On a list sorted by creation depth the loop that pops only from the end removes exactly the trackers that are out of scope |
| AuthRun.PopRemovesExactlyOutOfScope | soroban-env-host/src/auth.rs:1358-1415 | Popping a frame removes exactly the invoker trackers created by that frame or by the one below it |
| AuthRun.FailedFrameHasNoEffect | soroban-env-host/src/auth.rs:1206-1286 | Whatever happened inside a frame, rollback and pop succeed and give the manager that popping at once gives; the snapshot never holds more invoker trackers than the manager |
| AuthRun.FailedTransactionHasNoEffect | soroban-env-host/src/auth.rs:1206-1286 | A rollback at the top level restores the manager exactly |
| AuthRun.VerifyKeepsNonces | soroban-env-host/src/auth.rs:1980-2020 | A tracker that becomes verified takes a nonce that was not in the ledger, and the nonces stay those of the verified trackers, once each |
| AuthRun.RequireRecordingKeepsNonces | soroban-env-host/src/auth.rs:1008-1125 | Recording consumes the nonce of each tracker it creates and no other |
| AuthRun.RunKeeps | soroban-env-host/src/auth.rs:829-1415 | Every run, failed frames and authentications included, leaves its frame's trackers only evolved, and if it succeeds keeps the invariants of frames, trackers and nonces |
| AuthTheorems.ReachableIsSound | soroban-env-host/src/auth.rs:767-1415 | Every state reached from a sound one, inside open frames and authentications too, is sound |
| AuthTheorems.ReachedIsSound | soroban-env-host/src/auth.rs:772-826 | Every state reached from a new enforcing or recording manager is sound |
| AuthTheorems.MatchesAreInjectiveAndNested | soroban-env-host/src/auth.rs:1663-1706 | In every reachable state each tracker's exhausted nodes map injectively to call frames of their contract function, and a child's frame is a strict descendant of its parent's; the arguments are in AuthProvenance.MatchesWereRequired |
| AuthProvenance.MatchesWereRequired | soroban-env-host/src/auth.rs:829-1125 | In every state a run reaches, every exhausted node of every tracker was required by the frame it is matched by, with its very function and arguments |
| AuthProvenance.RequireUsesOneNode | soroban-env-host/src/auth.rs:829-986 | In every reachable enforcing state a successful `require_auth` of an address other than the contract that made the current call exhausts exactly one more node, with the required function and arguments and for the current frame, in exactly one tracker of the address, verified if it is an account's; without calls in authentication every other tracker is unchanged |
| AuthEntries.CallerIsAuthorized | soroban-env-host/src/auth.rs:875-917 | A contract's authorization holds in every frame it calls itself, and asking for it changes nothing |
| AuthEntries.OthersNeedANode | soroban-env-host/src/auth.rs:829-986 | In every reachable enforcing state, after any call, an address other than the caller that passes `require_auth` has used exactly one node, with the required function and arguments, for the called frame |
| AuthEntries.AccountsAuthorizeIff | soroban-env-host/src/auth.rs:920-986 | In every reachable enforcing state the accounts refuse a `require_auth` if and only if no tracker of the address can use a node for it, said of the trees and the open calls; otherwise the first that can is the one used |
| AuthEntries.GrantedCallsAreAuthorized | soroban-env-host/src/auth.rs:853-917 | From every reachable state, what a contract authorizes for its next call is granted to the deeper frame that makes that call |
| AuthCredentials.UsedEntriesAreInTimeAndPaid | soroban-env-host/src/auth.rs:1980-2020 | In every state an enforcing run reaches, each used entry of an address has not expired and does not expire too late, its nonce is in the ledger and was not before, and no two have the same nonce |
| AuthCredentials.RootOnlyTreesStartAtRoot | soroban-env-host/src/auth.rs:1008-1125 | With non-root authorization disabled, every tree that a recording run holds was started by a root frame |
| AuthTheorems.StacksAreWellFormed | soroban-env-host/src/auth.rs:1598-1651 | In every reachable state the match stack has at most one root match and no sub-match before it, traces exhausted nodes, agrees with `is_active`, and the walk's internal errors are unreachable |
| AuthTheorems.NoncesAreConsumedOnce | soroban-env-host/src/auth.rs:1869-2020 | In every reachable state a tracker that is not being authenticated is verified exactly when its root is exhausted, and the consumed nonces are those of the exhausted roots, once each |
| AuthTheorems.InvokersAreSorted | soroban-env-host/src/auth.rs:2199-2231 | In every reachable state invoker trackers are sorted by creation depth and a tracker's stack counts the frames above that depth |
| AuthTheorems.FailedCallIsEmptyCall | soroban-env-host/src/auth.rs:1151-1415 | From every reachable state a call that fails leaves manager and nonces as the same call with an empty body does |
| AuthTheorems.EmptyCallEndsInvokers | soroban-env-host/src/auth.rs:1389-1413 | The only effect of an empty call is to end the invoker trackers its caller created, and exactly those |
| AuthTheorems.FailedTransactionIsUndone | soroban-env-host/src/auth.rs:1206-1286 | Any run from a new manager followed by rollback leaves that manager |
| AuthTheorems.MatchingFailsOnlyInOwnFrame | soroban-env-host/src/auth.rs:1663-1706 | In every reachable state matching fails if and only if the tracker's stack is empty and the call matches its unexhausted root |
| AuthTheorems.InvokerCheckFailsIff | soroban-env-host/src/auth.rs:875-917 | In every reachable state the invoker check of a `require_auth` fails if and only if the frame below the current one is not that contract's and its first tracker that does not pass the call over was created by this frame and grants the call at its root; the `require_auth` then fails |
| AuthTheorems.OwnAuthorizationFails | soroban-env-host/src/auth.rs:1684-1700 | A reachable state in which a contract's `require_auth` of what it granted in the same frame fails and leaves the root exhausted |
| AuthReplay.CoversStep | soroban-env-host/src/auth.rs:1714-1743 | Recording a new child and exhausting the corresponding pattern node keep the two trees corresponding |
| AuthReplay.RoundTripEmbeds | soroban-env-host/src/auth.rs:638-697 | The pattern read back from a recorded tree has its shape, both ways |
| AuthReplay.RunReplays | soroban-env-host/src/auth.rs:829-1125 | From simulating states, an enforcing run follows a recording run action by action, and no frame fails |
| AuthReplay.RecordedAuthorizationReplays | soroban-env-host/src/auth.rs:920-1125 | For every run in which no frame fails, each address comes under one handle and authentication makes no calls, the enforcing manager built from the recorded trees accepts every `require_auth`, consumes the same nonces and ends with every recorded node exhausted |
| TrackerObjects.InvocationTracker.constructor | soroban-env-host/src/auth.rs:1568-1576 | The new object holds the given tracker |
| TrackerObjects.InvocationTracker.PushFrame | soroban-env-host/src/auth.rs:1619-1623 | The object becomes the tracker with one more unmatched entry |
| TrackerObjects.InvocationTracker.PopFrame | soroban-env-host/src/auth.rs:1626-1633 | The object becomes the popped tracker, fully processed if the root's frame ends |
| TrackerObjects.InvocationTracker.WalkFrom | soroban-env-host/src/auth.rs:699-727 | The loop over the stack finds what the walk of the model finds, with the same errors |
| TrackerObjects.InvocationTracker.LastAuthorizedInvocation | soroban-env-host/src/auth.rs:1598-1616 | The loop over the stack gives the last authorized node of the model |
| TrackerObjects.InvocationTracker.FindSubInvocation | soroban-env-host/src/auth.rs:1663-1706 | The loop finds the first unexhausted child with the function, if there is one |
| TrackerObjects.InvocationTracker.MaybeExtendInvocationMatch | soroban-env-host/src/auth.rs:1663-1706 | The updates in place are those of the model's match, on its error paths too |
| TrackerObjects.InvocationTracker.RecordInvocation | soroban-env-host/src/auth.rs:1714-1743 | The updates in place are those of the model's recording; on an error nothing changes |
| TrackerObjects.InvocationTracker.SnapshotNode | soroban-env-host/src/auth.rs:730-741 | The loop over the children at every level collects the flags of the whole tree |
| TrackerObjects.InvocationTracker.TakeSnapshot | soroban-env-host/src/auth.rs:1752-1754 | Whatever the object's tree grows to by matches, rolling back to the snapshot gives the tree back |
| TrackerObjects.InvocationTracker.RollbackTo | soroban-env-host/src/auth.rs:1757-1767 | The object becomes the rolled back tracker, with the model's error |
| ManagerObjects.AuthorizationManager.PushFrame | soroban-env-host/src/auth.rs:1322-1355 | Every tracker object gets a frame and the returned snapshot is that of the state before |
| ManagerObjects.AuthorizationManager.PushCreateContractHostFnFrame | soroban-env-host/src/auth.rs:1307-1319 | As pushing a frame, with no snapshot |
| ManagerObjects.AuthorizationManager.PopFrame | soroban-env-host/src/auth.rs:1358-1415 | The loops over the tracker objects pop a frame and drop invoker trackers as the model does |
| ManagerObjects.AuthorizationManager.PopOutOfScopeInvokers | soroban-env-host/src/auth.rs:1389-1413 | The loop from the end leaves the trackers the model keeps |
| ManagerObjects.AuthorizationManager.TakeSnapshot | soroban-env-host/src/auth.rs:1151-1203 | The snapshot is the model's, with nothing for borrowed trackers |
| ManagerObjects.AuthorizationManager.RollbackTo | soroban-env-host/src/auth.rs:1206-1286 | The loops over the tracker objects restore what the model restores, with its errors |
| ManagerObjects.AuthorizationManager.RollbackAndPopFrame | soroban-env-host/src/auth.rs:1358-1415 | Rollback and pop together give the model's manager |
| ManagerObjects.AuthorizationManager.MaybeCheckInvokerContractAuth | soroban-env-host/src/auth.rs:875-917 | The direct-invoker test and the loop over invoker trackers decide as the model does |
| ManagerObjects.AuthorizationManager.HasActiveTracker | soroban-env-host/src/auth.rs:920-986 | The loop finds whether some tracker of the address is active and not matched in this frame |
| ManagerObjects.AuthorizationManager.ScanAccounts | soroban-env-host/src/auth.rs:920-986 | The loop stops at the first tracker that matches or fails, and changes only that one |
| ManagerObjects.AuthorizationManager.BeginRequireAuthEnforcing | soroban-env-host/src/auth.rs:920-986 | The enforcing decision up to authentication is the model's |
| ManagerObjects.AuthorizationManager.EndAuthentication | soroban-env-host/src/auth.rs:1869-1914 | The tracker is given back and verified exactly if authentication succeeded |
| ManagerObjects.AuthorizationManager.AddInvokerContractAuth | soroban-env-host/src/auth.rs:853-872 | One tracker object per entry is appended, with an empty stack |
| ManagerObjects.AuthorizationManager.FindRecordable | soroban-env-host/src/auth.rs:1008-1125 | The scan finds the first tracker of the address that is in the stack and not matched in this frame |
| ManagerObjects.AuthorizationManager.RequireAuthRecording | soroban-env-host/src/auth.rs:1008-1125 | Recording extends the same tracker or adds the same new one as the model, and consumes the same nonce |
| StorageReplay.FootprintSufficesIffItAllows | soroban-env-host/src/storage.rs:105-129 | For every snapshot, footprint and run with live writes, enforcing, in either build, gives the results of recording if and only if the footprint allows every access of the run |
| StorageReplay.RecordedFootprintReplays | soroban-env-host/src/storage.rs:81-628 | Enforcing the recorded footprint, in either build, gives the results of the recording run, map rollbacks included, and dropping any key of it does not |
| StorageReplay.ArchivedKeysAreReadWrite | soroban-env-host/src/storage.rs:578-628 | In every recording run a footprint key whose snapshot entry is an archived persistent one is read-write |
| StorageReplay.FootprintKeysAreAccessed | soroban-env-host/src/storage.rs:81-103 | Every key of a recorded footprint was accessed by some operation of the run |
| StorageReplay.EnforcingRunsRespectFootprint | soroban-env-host/src/storage.rs:214-499 | From any map over the footprint's keys, live if the build has the recording feature, every enforcing run keeps the map's keys and the footprint, keeps every read-only entry and only raises its live-until, and reads fail only for unsupported keys or keys outside the footprint |
| StorageMeaning.RecordingAnswersByMeaning | soroban-env-host/src/storage.rs:214-628 | After every recording run every operation answers by the ledger's view of its key followed by the writes, deletions and extensions of that key that no rollback undid |
| StorageMeaning.EnforcingAnswersByMeaning | soroban-env-host/src/storage.rs:214-628 | In either build, an enforcing run that its footprint allows answers every operation in the same way |
| StorageMeaning.WriteThenRead | soroban-env-host/src/storage.rs:294-370 | After any recording run a written key reads as what was written, and every other key as before |
| StorageMeaning.EnforcingWriteThenRead | soroban-env-host/src/storage.rs:294-370 | A write or deletion that succeeds is what the next read finds, and no other key changes |
| StorageMeaning.ArchivedReadsAsRestored | soroban-env-host/src/storage.rs:579-628 | An archived entry reads as itself, alive for the minimum persistent TTL counted from the current ledger |
| StorageMeaning.ExtensionReaches | soroban-env-host/src/storage.rs:406-499 | A successful extension reaches the target, or the last allowed ledger, exactly if the entry had at most the threshold left and would end sooner, and otherwise leaves it; the entry stays |
| StorageObjects.Storage.constructor | soroban-env-host/src/storage.rs:194-211 | The new object holds the given storage |
| StorageObjects.Storage.RecordAccess | soroban-env-host/src/storage.rs:81-103 | The footprint becomes the recorded one |
| StorageObjects.Storage.EnforceAccess | soroban-env-host/src/storage.rs:105-129 | An access is refused exactly when the footprint does not allow it, and nothing changes |
| StorageObjects.Storage.HandleMaybeExpiredEntry | soroban-env-host/src/storage.rs:578-628 | An expired temporary entry is removed and an archived persistent one restored and recorded as read-write, as in the model |
| StorageObjects.Storage.PrepareReadOnlyAccess | soroban-env-host/src/storage.rs:549-575 | The new footprint and map are those of the model in either mode |
| StorageObjects.Storage.TryGetFull | soroban-env-host/src/storage.rs:214-239 | Result and new storage are the model's |
| StorageObjects.Storage.GetWithLiveUntilLedger | soroban-env-host/src/storage.rs:280-291 | Result and new storage are the model's, a missing entry being an error |
| StorageObjects.Storage.Has | soroban-env-host/src/storage.rs:382-390 | Result and new storage are the model's |
| StorageObjects.Storage.PutOpt | soroban-env-host/src/storage.rs:294-370 | A write or deletion changes footprint and map as in the model, with the search for expired entries only where it is compiled in, on its error paths too |
| StorageObjects.Storage.ExtendTtl | soroban-env-host/src/storage.rs:406-499 | The clamped or refused extension changes the map as in the model, on its error paths too |
| LedgerFootprints.StorageFootprintToLedgerFootprint | soroban-env-host/src/e2e_invoke.rs:534-553 | The loop splits the footprint into the lists of its read-only and read-write keys, from which it can be built again |
| LedgerFootprints.BuildStorageFootprint | soroban-env-host/src/e2e_invoke.rs:921-945 | The loops build the footprint of the two lists, a key in both being read-only, and fail exactly on an unsupported key |
| LedgerFootprints.FootprintRoundTrip | soroban-env-host/src/e2e_invoke.rs:534-553 | Splitting any footprint into key lists and building it again is the identity |
| LedgerFootprints.FindRestoredEntries | soroban-env-host/src/e2e_invoke.rs:722-773 | The loop with its running index yields the positions of the restored keys in the emitted read-write list and the set of restored keys, and fails exactly if one of them is read-only |
| LedgerFootprints.BuildRestoredKeySet | soroban-env-host/src/e2e_invoke.rs:142-170 | The loop yields the keys at the indices, nothing for no indices, and fails exactly on an index out of range |
| LedgerFootprints.RestoredIndicesRoundTrip | soroban-env-host/src/e2e_invoke.rs:142-170 | Reading the emitted indices against the emitted read-write list gives exactly the restored keys |
| LedgerFootprints.RecordedFootprintIsEmittedFaithfully | soroban-env-host/src/e2e_invoke.rs:712-773 | For every recording run the search for restored entries meets no read-only one, the emitted lists give the footprint back and the emitted indices the restored keys |
| LedgerFootprints.BuildStorageMap | soroban-env-host/src/e2e_invoke.rs:947-1041 | The loops build a map over exactly the footprint's keys with the last accepted entry of each, and fail exactly on an entry that is unsupported, expired outside recording, without its TTL, or outside the footprint |
| LedgerFootprints.BuiltMapIsLive | soroban-env-host/src/e2e_invoke.rs:962-1008 | With the recording feature, an enforcing invocation starts from live entries only |
| LedgerFootprints.BuildsAgreeIffNoneExpired | soroban-env-host/src/e2e_invoke.rs:977-1008 | On entries the default build accepts, the recording build agrees if and only if none is expired |
| LedgerFootprints.DefaultBuildAcceptsExpired | soroban-env-host/src/e2e_invoke.rs:977-990 | An expired entry that the default build puts into the initial map and the recording build rejects |
| LedgerFootprints.BuiltMapRunsRespectFootprint | soroban-env-host/src/e2e_invoke.rs:413-441 | In either build, from the map it builds every enforcing run keeps keys and footprint, only raises live-untils of read-only entries, and never meets a missing key |
| LedgerFootprints.RecordedInvocationReplays | soroban-env-host/src/e2e_invoke.rs:397-441 | The emitted key lists and the ledger entries they name are accepted, and the enforcing run over the map built from them, in either build, gives the recording run's results |
| LedgerChanges.GetLedgerChange | soroban-env-host/src/e2e_invoke.rs:198-279 | The step by step construction gives the declared change, or an error exactly for a missing footprint key or TTL |
| LedgerChanges.GetLedgerChanges | soroban-env-host/src/e2e_invoke.rs:175-285 | One change per map key in order, or an error exactly if one key is inconsistent |
| LedgerChanges.LiveUntilDropsIffRemoved | soroban-env-host/src/e2e_invoke.rs:121-133 | The new live-until ledger is below the old one if and only if a live entry was removed |
| LedgerChanges.RemovedEntryLosesItsLiveUntil | soroban-env-host/src/e2e_invoke.rs:231-239 | An entry whose live-until ledger falls from 9 to 0 by removal |
| LedgerChanges.EnforcingChangesNeverFail | soroban-env-host/src/e2e_invoke.rs:482-497 | After every enforcing run, in either build, from entries with TTLs and with such writes the internal errors are unreachable |
| LedgerChanges.InvocationChangesNeverFail | soroban-env-host/src/e2e_invoke.rs:424-497 | In either build the changes of an invocation over accepted ledger entries are reported without an internal error |
| LedgerChanges.ReadOnlyChangesOnlyExtend | soroban-env-host/src/e2e_invoke.rs:46-53 | After every enforcing run, in either build, a read-only entry is reported without a new value, with its old size and never with a lower live-until ledger |
| LedgerChanges.ReadWriteChangesTell | soroban-env-host/src/e2e_invoke.rs:198-279 | After every enforcing run, in either build, the change of a read-write key gives the old and new sizes and value, durability, kind and live-until ledgers of what the key held first and last |
| LedgerChanges.WrittenKeysReportTheirMeaning | soroban-env-host/src/e2e_invoke.rs:198-355 | That value is what the surviving writes, deletions and extensions left of the ledger's entry, and the rent change of the key repeats its kind and sizes |
| LedgerChanges.ExtractionDropsNoOps | soroban-env-host/src/e2e_invoke.rs:318-355 | Extraction keeps, in order, the rent changes that extend or grow an entry with a TTL |
| LedgerChanges.ExtractionIsFeeNeutral | soroban-env-host/src/e2e_invoke.rs:318-355 | For every list of changes, configuration and ledger the rent fee of the extracted changes is that of all changes with a TTL |
| LedgerChanges.RestoredEntryPaysAsNew | soroban-env-host/src/e2e_invoke.rs:252-273 | A restored entry pays rent as a new one, from the current ledger to at least the minimum live-until |
| LedgerChanges.RecordedRentIsReplayedRent | soroban-env-host/src/e2e_invoke.rs:807-827 | For every run and key, recording and replay report the same rent change if and only if the key is not an archived one left only in the footprint |
| LedgerChanges.RolledBackRestoreIsNotReported | soroban-env-host/src/e2e_invoke.rs:287-311 | For every archived key, reading it only in a failed frame makes the replay report rent that recording does not |
| LedgerChanges.AddFootprintOnlyLedgerChanges | soroban-env-host/src/e2e_invoke.rs:287-311 | The loop adds a change for every footprint key not in the map, and none of them changes the extracted rent |
| LedgerChanges.SimulatedRentIsExecutedRent | soroban-env-host/src/e2e_invoke.rs:807-827 | If every restored key is in the recorded map, recording and replay extract the same list of rent changes |
| RentFees.RentFeePerEntryChange | soroban-env-host/src/fees.rs:360-395 | The branches add up to one charge for the extension at the new size and one for the prepaid ledgers at the increase, absent parts costing nothing |
| RentFees.ChargeAtMostIff | soroban-env-host/src/fees.rs:397-416 | Without saturation a charge is at most `q` if and only if size times rate times ledgers is at most `q` times 1024 times the denominator of the entry's durability |
| RentFees.EntryFeeAtMostIff | soroban-env-host/src/fees.rs:360-416 | Without saturation an extension, a growth or a creation of a non-code entry costs at most `q` under the same condition, on the new size and the added ledgers, the increase and the ledgers from the current one to the end, or the size and the ledgers from the current one on |
| RentFees.CodeFeeAtMostIff | soroban-env-host/src/fees.rs:391-393 | A code entry pays at most `q` if and only if another entry would pay less than `3 * (q + 1)`, in every configuration, or at most `3 * q` for negative `q` |
| RentFees.ComputeRentFee | soroban-env-host/src/fees.rs:290-321 | The loop gives the saturated sum of the entry fees and the write fees of the extended entries |
| RentFees.RentFeeIsSumOfParts | soroban-env-host/src/fees.rs:290-321 | Without saturation the rent fee is the sum of the entry fees, a write fee per extended entry, and the write fee of 48 bytes per extended entry, rounded up once |
| RentFees.NoOpIsFree | soroban-env-host/src/fees.rs:323-395 | A change that neither extends nor grows costs nothing, in every configuration and ledger |
| RentFees.WithoutNoOpsCostsTheSame | soroban-env-host/src/fees.rs:290-321 | Leaving out all no-op changes of any list leaves the rent fee |
| RentFees.GrowThenExtend | soroban-env-host/src/fees.rs:360-395 | For an existing non-code entry, growing and then extending costs exactly what both at once cost |
| RentFees.ExtendThenGrow | soroban-env-host/src/fees.rs:360-416 | For a live non-code entry without saturated products, extending and then growing differs from both at once by at most one |
| RentFees.ExtendThenGrowLapsed | soroban-env-host/src/fees.rs:345-353 | For a lapsed entry, extending first saves exactly the charge of the increase over the lapsed ledgers less what rounding separately adds, so it is within one if and only if these two are |
| RentFees.ExtendingLapsedFirstCanSaveMore | soroban-env-host/src/fees.rs:345-353 | A lapsed entry for which extending first saves more than one |
| RentFees.SplitExtension | soroban-env-host/src/fees.rs:397-416 | Splitting an extension of a non-code entry never costs less |
| RentFees.SplitCodeExtensionIff | soroban-env-host/src/fees.rs:391-393 | Splitting an extension of a code entry costs no less if and only if the rate is negative or the remainders modulo three of the two charges stay below three plus what the split adds |
| RentFees.SplitCodeExtension | soroban-env-host/src/fees.rs:391-393 | Splitting an extension of a code entry saves at most one |
| RentFees.SplitCodeExtensionCanCostLess | soroban-env-host/src/fees.rs:391-393 | A code entry for which it saves one |
| RentPrice.NonDecreasingIff | soroban-env-host/src/fees.rs:245-280 | The price never falls over non-negative sizes if and only if low is at most high, the target is not positive, or the largest slope to the target ends below the high fee or the minimum |
| RentPrice.PriceIsNonDecreasing | soroban-env-host/src/fees.rs:245-280 | With low at most high, negative low included, the price never falls, through the target and through saturation |
| RentPrice.PriceAtTarget | soroban-env-host/src/fees.rs:264-278 | At a positive target the price is the larger of high and the minimum |
| RentPrice.PriceBelowTargetAtMostIff | soroban-env-host/src/fees.rs:245-262 | Below the target, in every configuration, the price is at most `q` above low if and only if that is at least 1000 and the slope times the size is at most `q` times the target |
| RentPrice.PriceBeyondTargetAtMostIff | soroban-env-host/src/fees.rs:264-280 | From the target on, in every configuration, the price is at most `q` above high if and only if that is at least 1000 and the slope times the excess times the growth factor is at most `q` times the target |
| RentPrice.PriceCanFall | soroban-env-host/src/fees.rs:245-253 | A configuration with low above high whose price falls |
| SmallSymbol.EncodeByte | soroban-env-common/src/symbol.rs:229-238 | Exactly the symbol characters have a code, from 1 to 63, and the code decodes to the character |
| SmallSymbol.CodesFollowAlphabet | soroban-env-common/src/symbol.rs:229-238 | The codes are one for the underscore, then in order those of the digits, the capitals and the small letters |
| SmallSymbol.TryFromBytes | soroban-env-common/src/symbol.rs:240-257 | The loop packs a symbol of up to nine characters into 54 bits, and reports a longer string or the first bad character |
| SmallSymbol.ShiftMakesProgress | soroban-env-common/src/symbol.rs:413-429 | On every non-zero 64-bit word a shift leaves fewer shifts to do, although bits linger above the codes |
| SmallSymbol.SymbolSmallIter.Next | soroban-env-common/src/symbol.rs:413-429 | The iterator ends on every word and yields its characters in turn |
| SmallSymbol.CompareSmallSymbols | soroban-env-common/src/symbol.rs:187-191 | Comparing two words' iterators is the byte order of their characters |
| Ordering.SeqsDecidedAt | soroban-env-common/src/symbol.rs:187-191 | Two texts are ordered by their first different characters, or by length if one begins with the other |
| SmallSymbol.UnpackPack | soroban-env-common/src/symbol.rs:240-429 | Decoding undoes encoding for every symbol of at most nine characters |
| SmallSymbol.PackedOrderIsByteOrder | soroban-env-common/src/symbol.rs:187-191 | Comparing encodings is comparing the strings byte by byte |
| SmallSymbol.PackUnpackIffCanonical | soroban-env-common/src/symbol.rs:154-167 | Every legal body decodes to a symbol of at most nine characters, and encoding that gives the body back if and only if it has no embedded zero code |
| SmallSymbol.ToStr | soroban-env-common/src/symbol.rs:278-286 | The buffer holds the characters followed by zeros |
| SmallSymbol.Length | soroban-env-common/src/symbol.rs:299-307 | The length is the position of the first zero |
| SmallSymbol.ToBytes | soroban-env-common/src/symbol.rs:317-322 | The bytes of the string form are exactly the characters |
| SmallValues.ClassifyIffFits | soroban-env-common/src/object.rs:127-199 | A wide integer is not an object exactly when its number fits 56 signed or unsigned bits |
| SmallValues.FromIntoPieces | soroban-env-common/src/num.rs:440-455 | Cutting a 256-bit integer into pieces and joining them is the identity |
| SmallValues.IntoFromPieces | soroban-env-common/src/num.rs:440-455 | Joining pieces and cutting gives the pieces back |
| SmallValues.SignExtends | soroban-env-common/src/val.rs:734-748 | Packing a signed 56-bit number and reading it with sign extension is the identity |
| SmallValues.SmallRoundTrip | soroban-env-common/src/convert.rs:426-586 | Every scalar that is not an object becomes a small value and that becomes the scalar again |
| SmallValues.SmallValRoundTrip | soroban-env-common/src/convert.rs:426-586 | Every small integer value denotes a scalar that is not an object and becomes that value again |
| SmallValues.WideLayout | soroban-env-common/src/convert.rs:426-586 | A small integer's value has its type's tag, from 6 to 13, in the low byte and the number modulo 2^56 above it |
| SmallValues.NarrowLayout | soroban-env-common/src/convert.rs:426-586 | Booleans and void are their tags, and a 32-bit integer is the upper half of the word above its tag |
| ValCompare.DenoteSmallValue | soroban-env-common/src/convert.rs:444-485 | The type and number or text that a small value converts to are the ones comparison reads off its bits |
| ValCompare.ObjectAndSmall | soroban-env-host/src/host_object.rs:67-146 | An object compares with a small value exactly if the types agree, and then by number or text |
| ValCompare.ObjectPair | soroban-env-host/src/host/comparison.rs:26-96 | Two objects compare by type and then by number or text |
| ValCompare.ComparisonIsDenotedOrder | soroban-env-common/src/compare.rs:130-206 | Comparing any two valid values, small or object in any mix, never fails and gives the order of the types and values they denote |
| ValCompare.ObjectsFailToCompareIff | soroban-env-host/src/host.rs:1227-1285 | Two different object values, rightly tagged or not, fail to compare if and only if the handle of one is even or beyond the table |
| ValCompare.ComparisonIsTotalPreorder | soroban-env-host/src/host.rs:1227-1285 | Comparison is total, reverses, is transitive, and is equal exactly for values that denote the same |
| ValCompare.CompareVecs | soroban-env-common/src/compare.rs:75-92 | The loop is lexicographic comparison, with the error of the first element that cannot be compared |
| ValCompare.VectorOrder | soroban-env-common/src/compare.rs:75-92 | Vectors that agree up to a position are ordered by the values there, or by length |
| ObjectHandles.HandleLeadsBackIffBelow31Bits | soroban-env-host/src/host_object.rs:340-359 | A handle leads back to its index if and only if the index is below 2^31 |
| ObjectHandles.TableGrows | soroban-env-host/src/host_object.rs:412-441 | Over any run a frame's table only grows, and only by absolute objects handed to that frame |
| ObjectHandles.HandedObjectsStayResolvable | soroban-env-host/src/host_object.rs:362-441 | With fewer than 2^31 entries, a relative value resolves to the same object for the rest of its frame, whatever runs in between |
| ObjectHandles.OnlyHandedObjectsResolve | soroban-env-host/src/host_object.rs:362-410 | A frame resolves a value if and only if it is relative, known and rightly tagged, and then to an absolute object handed to this frame |
| ObjectHandles.CallKeepsCallersTables | soroban-env-host/src/host/frame.rs:325-347 | A call that has come back, whatever ran in it, leaves its caller with the tables it had |
| ObjectHandles.Host.constructor | soroban-env-host/src/host_object.rs:308-338 | A new host has no objects and no frames |
| ObjectHandles.Host.EnterVmFrame | soroban-env-host/src/host/frame.rs:325-347 | A contract frame starts with an empty table |
| ObjectHandles.Host.LeaveFrame | soroban-env-host/src/host/frame.rs:325-347 | Leaving a frame brings back its caller's table |
| ObjectHandles.Host.ToAbsolute | soroban-env-host/src/host_object.rs:362-410 | Translation in the current frame is the model's, and absolute, unknown and re-tagged values are refused |
| ObjectHandles.Host.ToRelative | soroban-env-host/src/host_object.rs:412-441 | The object is appended to the current frame's table and to no other |
| ObjectHandles.Host.AddHostObject | soroban-env-host/src/host_object.rs:446-458 | Below 2^31 objects the new value names the new object, and all other values name what they did |

## Left out

- Wasm execution, linking and module caching, and everything else in `vm.rs`.
- Metering: the budget never runs out, and charges are not modelled.
- Error decoration, diagnostic events and tracing: errors are the type and code that decide the control flow.
- XDR encoding and decoding, hashing and signatures: the contents of an authentication are a parameter of the run.
- `HostFunction` frames above a non-empty authorization stack, which the code trusts the host not to create.
- Several object handles for one address in the replay of recorded authorization, where recording is a heuristic.
- Emulated authentication in recording mode (`emulate_authentication`) and the test-only parts of `auth.rs`.
- The contents of nonce entries: a nonce is present or absent, and its expiration check is made against the ledger bounds.
- The map of TTL entries built beside the storage map, which only supplies key hashes.
- The order in which a metered map is iterated: results hold for every order that lists each key once.
- The footprint, disk-read and write-byte counters of the simulated resources.
- Transaction fees other than rent (`compute_transaction_resource_fee`).
- Comparison of errors, vectors inside values, maps and addresses, and `Compare<Symbol>`, which orders by tag first.
- Scalar errors and the reserved cases of `ScVal` in conversion.
- AddInvokerContractAuth: the entries are already decoded.
- RollbackTo: what an error leaves of a partly rolled back tree or manager; no run reaches that error (`FailedFrameHasNoEffect`).
- RollbackAndPopFrame: as RollbackTo, on an error.
- ExtendThenGrow: for entries live up to the current ledger, and without saturated products; the lapsed ones are in ExtendThenGrowLapsed.
- SplitExtension: for a non-negative fee rate, or any rate without saturation.
- ChargeAtMostIff: without saturation of the products; so are EntryFeeAtMostIff and RentFeeIsSumOfParts.
- ExtensionReaches: in recording mode; EnforcingAnswersByMeaning covers the extensions of enforcing runs.
- RecordingAnswersByMeaning: for runs whose writes are live entries with a TTL, as the host's are; so are EnforcingAnswersByMeaning and WrittenKeysReportTheirMeaning.
