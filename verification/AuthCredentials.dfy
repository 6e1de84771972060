/**
 The credentials of the trackers over whole runs: an enforcing tracker stays that of its signed
 entry, a used entry was in time and is paid with its nonce, and recording under the root-only
 option starts trees in root frames only.
 */
module AuthCredentials {
  import opened Prelude
  import opened InvocationTree
  import opened InvocationMatcher
  import opened AuthManager
  import opened AuthRun
  import opened AuthTheorems
  import opened AuthProvenance

  // ---------------------------------------------------------------- what each account tracker keeps

  /** The nonce of an address was valid in the ledger: not expired, and not beyond the maximum. */
  predicate InTime(nonce: Option<Nonce>, env: LedgerEnv) {
    nonce.Some? && env.ledgerSeq <= nonce.value.liveUntil <= env.maxLiveUntil
  }

  /**
   Enforcing: a verified tracker of an address other than the transaction source's is in time.
   Recording with the root-only option: the tree was started by a root frame.
   */
  ghost predicate IsFair(a: AccountTracker, mode: Mode, env: LedgerEnv) {
    match mode
    case Enforcing => a.verified && !a.isTransactionSourceAccount ==> InTime(a.nonce, env)
    case Recording(_, rootOnly) => rootOnly ==> MatchedByRootFrame(a.tracker.root)
  }

  /** A root frame has no caller, so its id is its serial number alone. */
  predicate MatchedByRootFrame(root: Node) {
    root.matchedBy.Some? && |root.matchedBy.value| == 1
  }

  ghost predicate AllFair(m: Manager, env: LedgerEnv) {
    forall i :: 0 <= i < |m.accounts| ==> IsFair(m.accounts[i], m.mode, env)
  }

  /** A frame's id is as long as the frame is deep. */
  ghost predicate Counted(ids: seq<FrameId>) {
    forall k :: 0 <= k < |ids| ==> |ids[k]| == k + 1
  }

  lemma {:induction false} PushCounts(st: State, frame: AuthStackFrame)
    requires Counted(st.ids)
    ensures Counted(Push(st, frame).ids)
  {
  }

  lemma {:induction false} PushFair(m: Manager, frame: AuthStackFrame, env: LedgerEnv)
    requires AllFair(m, env)
    ensures AllFair(PushManager(m, frame), env)
  {
    hide InTime;
  }

  lemma {:induction false} PopFair(m: Manager, env: LedgerEnv)
    requires AllFair(m, env)
    ensures AllFair(PopManager(m), env)
  {
    hide InTime;
  }

  lemma {:induction false} BeginFair(m: Manager, address: Address, f: AuthorizedFunction, id: FrameId, env: LedgerEnv)
    requires AllFair(m, env) && m.mode.Enforcing?
    ensures
      var r := BeginRequireEnforcing(m, address, f, id);
      r.Authorized? || r.Pending? ==> AllFair(r.manager, env) && r.manager.mode.Enforcing?
  {
    hide InTime, Uses, HasActiveTracker, ScanAccounts;
    var r := BeginRequireEnforcing(m, address, f, id);
    if r.Authorized? || r.Pending? {
      ScanAccountsUses(m, address, f, !HasActiveTracker(m, address), id, 0);
      var k: nat :| ScanFound(m, r, address, f, id, k);
    }
  }

  lemma {:induction false} CheckInvokerFair(m: Manager, address: Address, f: AuthorizedFunction, id: FrameId, env: LedgerEnv)
    requires AllFair(m, env)
    ensures
      var r := CheckInvoker(m, address, f, id);
      r.Authorized? ==> AllFair(r.manager, env)
  {
    var r := CheckInvoker(m, address, f, id);
    if r.Authorized? {
      InvokersLeaveAccounts(m, address, f, id, 0);
    }
  }

  lemma {:induction false} InvokersLeaveAccounts(m: Manager, address: Address, f: AuthorizedFunction, id: FrameId, i: nat)
    requires i <= |m.invokers|
    ensures
      var r := ScanInvokers(m, address, f, id, i);
      r.Authorized? ==> r.manager.accounts == m.accounts && r.manager.mode == m.mode
    decreases |m.invokers| - i
  {
    hide Extend;
    if i < |m.invokers| {
      InvokersLeaveAccounts(m, address, f, id, i + 1);
    }
  }

  lemma {:induction false} RecordInFair(m: Manager, i: nat, f: AuthorizedFunction, id: FrameId, nonces: set<NonceKey>, env: LedgerEnv)
    requires AllFair(m, env) && m.mode.Recording? && i < |m.accounts|
    ensures
      var r := RecordIn(m, i, f, id, nonces);
      r.Recorded? ==> AllFair(r.manager, env)
  {
    var t := m.accounts[i].tracker;
    if Record(t, f, id).Some? {
      var p := LastAuthorized(t.root, t.stack, 0).path;
      AppendAt(t.root, p, NewRecordingNode(f, id), []);
    }
    hide Record;
  }

  lemma {:induction false} RequireRecordingFair(
    m: Manager, handle: nat, address: Address, f: AuthorizedFunction, id: FrameId, randomNonce: int,
    nonces: set<NonceKey>, env: LedgerEnv)
    requires m.mode.Recording? && m.callStack != [] && AllFair(m, env) && (|m.callStack| == 1 ==> |id| == 1)
    ensures
      var r := RequireRecording(m, handle, address, f, id, randomNonce, nonces, env);
      r.Recorded? ==> AllFair(r.manager, env)
  {
    hide RecordIn, FindRecordable, HasMatchedInvocationsInStack, InTime;
    var byHandle := m.mode.trackerByHandle;
    if handle in byHandle && byHandle[handle] >= |m.accounts| {
    } else if handle in byHandle && HasMatchedInvocationsInStack(m.accounts[byHandle[handle]].tracker) {
      RecordInFair(m, byHandle[handle], f, id, nonces, env);
    } else {
      var m1 := m.(mode := m.mode.(trackerByHandle := byHandle - {handle}));
      assert AllFair(m1, env);
      match FindRecordable(m1.accounts, address, 0)
      case Some(i) => RecordInFair(m1, i, f, id, nonces, env);
      case None =>
        var r := RequireRecording(m, handle, address, f, id, randomNonce, nonces, env);
        if r.Recorded? {
          var a := NewRecordingAccount(address, f, |m.callStack|, id, randomNonce, env);
          assert r.manager.accounts == m.accounts + [a] && IsFair(a, r.manager.mode, env);
        }
    }
  }

  // ---------------------------------------------------------------- whole runs

  lemma {:induction false} RunFair(acts: seq<Action>, st: State, env: LedgerEnv, initial: set<NonceKey>)
    requires Sound(st, initial) && AllFair(st.manager, env) && Counted(st.ids)
    ensures Run(acts, st, env).1 ==> AllFair(Run(acts, st, env).0.manager, env)
    decreases acts, 0
  {
    hide AllFair, Counted, StateGood, NoncesGood;
    if acts != [] {
      var r := Step(acts[0], st, env);
      StepKeeps(acts[0], st, env, initial);
      StepFair(acts[0], st, env, initial);
      if r.1 {
        assert r.0.ids == st.ids;
        RunFair(acts[1..], r.0, env, initial);
      }
    }
  }

  lemma {:induction false} StepFair(a: Action, st: State, env: LedgerEnv, initial: set<NonceKey>)
    requires Sound(st, initial) && AllFair(st.manager, env) && Counted(st.ids)
    ensures Step(a, st, env).1 ==> AllFair(Step(a, st, env).0.manager, env)
    decreases a, 1
  {
    hide Sound, IsFair, Counted, Push, Pop;
    match a
    case Trap =>
    case Authorize(_) =>
    case Invoke(c, name, body) => FrameFair(st, Contract(c, name), body, env, initial);
    case Create(createArgs, body) => FrameFair(st, CreateContract(createArgs), body, env, initial);
    case Require(_, _, _, _, _) => RequireFair(a, st, env, initial);
  }

  lemma {:induction false} FrameFair(
    st: State, frame: AuthStackFrame, body: seq<Action>, env: LedgerEnv, initial: set<NonceKey>)
    requires Sound(st, initial) && AllFair(st.manager, env) && Counted(st.ids)
    ensures
      var entry := Push(st, frame);
      var r := Run(body, entry, env);
      && (r.1 ==> AllFair(Pop(r.0).manager, env))
      && (!r.1 ==> Unwind(entry, r.0).1 && AllFair(Unwind(entry, r.0).0.manager, env))
    decreases body, 1
  {
    hide StateGood, NoncesGood, StateEvolved, AllFair, Counted, PushManager, PopManager, Unwind;
    var entry := Push(st, frame);
    var r := Run(body, entry, env);
    PushSound(st, frame, initial);
    PushFair(st.manager, frame, env);
    PushCounts(st, frame);
    RunKeeps(body, entry, env, initial);
    if r.1 {
      RunFair(body, entry, env, initial);
      PopFair(r.0.manager, env);
    } else {
      UnwindIsPop(st, frame, r.0);
      PopFair(entry.manager, env);
    }
  }

  lemma {:induction false} RequireFair(a: Action, st: State, env: LedgerEnv, initial: set<NonceKey>)
    requires a.Require? && Sound(st, initial) && AllFair(st.manager, env) && Counted(st.ids)
    ensures RequireAuth(a, st, env).1 ==> AllFair(RequireAuth(a, st, env).0.manager, env)
    decreases a, 0
  {
    if RequireAuth(a, st, env).1 {
      var m, id := st.manager, st.ids[|st.ids| - 1];
      var f := ToAuthorizedFunction(m.callStack[|m.callStack| - 1], a.args);
      assert Fits(st.history[id], f);
      assert |m.callStack| == 1 ==> |id| == 1;
      hide StateGood, NoncesGood, AllFair, Counted, EnforceAuth, RequireRecording, Fits;
      CheckInvokerFair(m, a.address, f, id, env);
      if CheckInvoker(m, a.address, f, id).Continue? {
        if m.mode.Recording? {
          RequireRecordingFair(m, a.handle, a.address, f, id, a.randomNonce, st.nonces, env);
        } else {
          EnforceFair(a, f, st, env, initial);
        }
      }
    }
  }

  lemma {:induction false} EnforceFair(a: Action, f: AuthorizedFunction, st: State, env: LedgerEnv, initial: set<NonceKey>)
    requires a.Require? && Sound(st, initial) && st.manager.mode.Enforcing? && AllFair(st.manager, env) && Counted(st.ids)
    requires st.ids != [] && Fits(st.history[st.ids[|st.ids| - 1]], f)
    requires EnforceAuth(a, f, st, env).1
    ensures AllFair(EnforceAuth(a, f, st, env).0.manager, env)
    decreases a.authentication, 2
  {
    hide StateGood, NoncesGood, IsPending, AllFair, Counted, BeginRequireEnforcing, Authenticate, Fits;
    BeginKeeps(st, a.address, f, initial);
    BeginFair(st.manager, a.address, f, st.ids[|st.ids| - 1], env);
    var r := BeginRequireEnforcing(st.manager, a.address, f, st.ids[|st.ids| - 1]);
    if r.Pending? {
      AuthenticateFair(st.(manager := r.manager), r.index, a.authentication, env, initial);
    }
  }

  lemma {:induction false} AuthenticateFair(st: State, i: nat, acts: seq<Action>, env: LedgerEnv, initial: set<NonceKey>)
    requires Sound(st, initial) && st.manager.mode.Enforcing? && AllFair(st.manager, env) && Counted(st.ids)
    requires Authenticate(st, i, acts, env).1
    ensures AllFair(Authenticate(st, i, acts, env).0.manager, env)
    decreases acts, 1
  {
    hide Counted, StateGood, NoncesGood;
    RunFair(acts, st, env, initial);
    RunKeeps(acts, st, env, initial);
    var b := Run(acts, st, env).0;
    assert b.manager.mode == st.manager.mode;
    EndFair(b.manager, i, b.nonces, env);
  }

  /** The nonce is only consumed in time. */
  lemma {:induction false} EndFair(m: Manager, i: nat, nonces: set<NonceKey>, env: LedgerEnv)
    requires m.mode.Enforcing? && AllFair(m, env) && i < |m.accounts| && ConsumeNonce(m.accounts[i], nonces, env).Some?
    ensures AllFair(EndAuthentication(m, i, true), env)
  {
  }

  lemma {:induction false} MovedFair(st: State, move: Move, env: LedgerEnv, initial: set<NonceKey>)
    requires Sound(st, initial) && AllFair(st.manager, env) && Counted(st.ids)
    ensures
      var r := Moved(st, move, env);
      r.Some? ==> AllFair(r.value.manager, env) && Counted(r.value.ids)
  {
    hide StateGood, NoncesGood, AllFair;
    match move
    case Do(a) =>
      StepFair(a, st, env, initial);
      StepKeeps(a, st, env, initial);
    case Enter(frame) =>
      PushFair(st.manager, frame, env);
    case EnterAuthentication(address, args) =>
      if EnteredAuthentication(st, address, args).Some? {
        var f := ToAuthorizedFunction(st.manager.callStack[|st.manager.callStack| - 1], args);
        BeginFair(st.manager, address, f, st.ids[|st.ids| - 1], env);
      }
  }

  lemma {:induction false} MovesFair(st: State, moves: seq<Move>, env: LedgerEnv, initial: set<NonceKey>)
    requires Sound(st, initial) && AllFair(st.manager, env) && Counted(st.ids)
    ensures
      var r := Moves(st, moves, env);
      r.Some? ==> AllFair(r.value.manager, env)
    decreases |moves|
  {
    hide Sound, AllFair, Counted, Moved;
    if moves != [] && Moved(st, moves[0], env).Some? {
      MovedKeepsSound(st, moves[0], env, initial);
      MovedFair(st, moves[0], env, initial);
      MovesFair(Moved(st, moves[0], env).value, moves[1..], env, initial);
    }
  }

  // ---------------------------------------------------------------- the tracker of an entry

  /** The tracker is that of the signed entry: its address, its nonce and its tree, some nodes of which may be used. */
  ghost predicate IsTrackerOf(a: AccountTracker, e: AuthEntry, source: Address) {
    && Grew(FromXdr(e.rootInvocation), a.tracker.root)
    && match e.credentials
       case SourceAccount => a.isTransactionSourceAccount && a.address == source
       case AddressCredentials(address, nonce) =>
         !a.isTransactionSourceAccount && a.address == address && a.nonce == Some(nonce)
  }

  ghost predicate AreTrackersOf(xs: seq<AccountTracker>, entries: seq<AuthEntry>, source: Address) {
    |xs| == |entries| && forall i :: 0 <= i < |xs| ==> IsTrackerOf(xs[i], entries[i], source)
  }

  lemma {:induction false} EvolvedKeepsEntries(st: State, b: State, entries: seq<AuthEntry>, source: Address)
    requires StateEvolved(st, b) && st.manager.mode.Enforcing? && AreTrackersOf(st.manager.accounts, entries, source)
    ensures b.manager.mode.Enforcing? && AreTrackersOf(b.manager.accounts, entries, source)
  {
    var xs, ys := st.manager.accounts, b.manager.accounts;
    forall i | 0 <= i < |ys| ensures IsTrackerOf(ys[i], entries[i], source) {
      assert AccountEvolved(xs[i], ys[i]);
      if !xs[i].isBorrowed {
        GrewTransitive(FromXdr(entries[i].rootInvocation), xs[i].tracker.root, ys[i].tracker.root);
      }
    }
  }

  lemma {:induction false} PendingKeepsEntries(m: Manager, m': Manager, i: nat, entries: seq<AuthEntry>, source: Address)
    requires IsPending(m, m', i) && AreTrackersOf(m.accounts, entries, source)
    ensures AreTrackersOf(m'.accounts, entries, source)
  {
    var a, b := m.accounts[i], m'.accounts[i];
    if !a.isBorrowed {
      GrewTransitive(FromXdr(entries[i].rootInvocation), a.tracker.root, b.tracker.root);
    }
  }

  lemma {:induction false} MovedKeepsEntries(
    st: State, move: Move, env: LedgerEnv, initial: set<NonceKey>, entries: seq<AuthEntry>, source: Address)
    requires Sound(st, initial) && st.manager.mode.Enforcing? && AreTrackersOf(st.manager.accounts, entries, source)
    ensures
      var r := Moved(st, move, env);
      r.Some? ==> r.value.manager.mode.Enforcing? && AreTrackersOf(r.value.manager.accounts, entries, source)
  {
    match move
    case Do(a) =>
      hide StateGood, NoncesGood, StateEvolved, AreTrackersOf;
      StepKeeps(a, st, env, initial);
      if Step(a, st, env).1 {
        EvolvedKeepsEntries(st, Step(a, st, env).0, entries, source);
      }
    case Enter(frame) =>
      hide Grew;
    case EnterAuthentication(address, args) =>
      if EnteredAuthentication(st, address, args).Some? {
        var f, id := ToAuthorizedFunction(st.manager.callStack[|st.manager.callStack| - 1], args), st.ids[|st.ids| - 1];
        assert Fits(st.history[id], f);
        hide StateGood, NoncesGood, AreTrackersOf, IsPending;
        BeginKeeps(st, address, f, initial);
        var r := BeginRequireEnforcing(st.manager, address, f, id);
        PendingKeepsEntries(st.manager, r.manager, r.index, entries, source);
        BeginKeepsMode(st.manager, address, f, id);
      }
  }

  lemma {:induction false} BeginKeepsMode(m: Manager, address: Address, f: AuthorizedFunction, id: FrameId)
    ensures
      var r := BeginRequireEnforcing(m, address, f, id);
      r.Pending? ==> r.manager.mode == m.mode
  {
    hide Uses, HasActiveTracker;
    ScanAccountsUses(m, address, f, !HasActiveTracker(m, address), id, 0);
  }

  lemma {:induction false} MovesKeepEntries(
    st: State, moves: seq<Move>, env: LedgerEnv, initial: set<NonceKey>, entries: seq<AuthEntry>, source: Address)
    requires Sound(st, initial) && st.manager.mode.Enforcing? && AreTrackersOf(st.manager.accounts, entries, source)
    ensures
      var r := Moves(st, moves, env);
      r.Some? ==> r.value.manager.mode.Enforcing? && AreTrackersOf(r.value.manager.accounts, entries, source)
    decreases |moves|
  {
    hide Sound, AreTrackersOf, Moved;
    if moves != [] && Moved(st, moves[0], env).Some? {
      MovedKeepsSound(st, moves[0], env, initial);
      MovedKeepsEntries(st, moves[0], env, initial, entries, source);
      MovesKeepEntries(Moved(st, moves[0], env).value, moves[1..], env, initial, entries, source);
    }
  }

  lemma {:induction false} StartHoldsEntries(entries: seq<AuthEntry>, source: Address)
    ensures AreTrackersOf(NewEnforcing(entries, source).accounts, entries, source)
  {
    forall i | 0 <= i < |entries| ensures IsTrackerOf(NewEnforcing(entries, source).accounts[i], entries[i], source) {
      GrewReflexive(FromXdr(entries[i].rootInvocation));
    }
  }

  /** The entry is one of an address, its root is used, and its authentication is over. */
  ghost predicate IsUsed(st: State, entries: seq<AuthEntry>, i: nat) {
    && i < |entries| == |st.manager.accounts| && entries[i].credentials.AddressCredentials?
    && !st.manager.accounts[i].isBorrowed && st.manager.accounts[i].tracker.root.isExhausted
  }

  function NonceKeyOf(e: AuthEntry): NonceKey
    requires e.credentials.AddressCredentials?
  {
    (e.credentials.address, e.credentials.nonce.value)
  }

  /**
   In every state that an enforcing run reaches, each tracker is that of its signed entry. A used
   entry of an address had not expired, did not expire too late, and its nonce is now in the ledger
   and was not at the start; and no two used entries have the same address and nonce.
   */
  lemma {:induction false} UsedEntriesAreInTimeAndPaid(
    entries: seq<AuthEntry>, source: Address, nonces: set<NonceKey>, moves: seq<Move>, env: LedgerEnv)
    requires Moves(Start(NewEnforcing(entries, source), nonces), moves, env).Some?
    ensures
      var st := Moves(Start(NewEnforcing(entries, source), nonces), moves, env).value;
      && AreTrackersOf(st.manager.accounts, entries, source)
      && (forall i: nat :: IsUsed(st, entries, i) ==>
            && env.ledgerSeq <= entries[i].credentials.nonce.liveUntil <= env.maxLiveUntil
            && NonceKeyOf(entries[i]) in st.nonces && NonceKeyOf(entries[i]) !in nonces)
      && (forall i: nat, j: nat :: i < j && IsUsed(st, entries, i) && IsUsed(st, entries, j) ==>
            NonceKeyOf(entries[i]) != NonceKeyOf(entries[j]))
  {
    var start := Start(NewEnforcing(entries, source), nonces);
    var st := Moves(start, moves, env).value;
    EnforcingStartIsSound(entries, source, nonces);
    StartHoldsEntries(entries, source);
    MovesKeepEntries(start, moves, env, nonces, entries, source);
    MovesFair(start, moves, env, nonces);
    ReachableIsSound(start, moves, env, nonces);
    var xs := st.manager.accounts;
    forall i: nat | IsUsed(st, entries, i)
      ensures xs[i].verified && IsTrackerOf(xs[i], entries[i], source) && IsFair(xs[i], Enforcing, env)
    {
      assert AccountGood(xs[i], st.ids, st.history);
    }
    hide StateGood, Moves, AreTrackersOf, Grew, FromXdr;
  }

  predicate IsRootOnly(mode: Mode) {
    mode.Recording? && mode.disableNonRootAuth
  }

  lemma {:induction false} MovesKeepRootOnly(st: State, moves: seq<Move>, env: LedgerEnv, initial: set<NonceKey>)
    requires Sound(st, initial) && IsRootOnly(st.manager.mode)
    ensures Moves(st, moves, env).Some? ==> IsRootOnly(Moves(st, moves, env).value.manager.mode)
    decreases |moves|
  {
    hide StateGood, NoncesGood;
    if moves != [] && Moved(st, moves[0], env).Some? {
      MovedKeepsSound(st, moves[0], env, initial);
      if moves[0].Do? {
        StepKeeps(moves[0].action, st, env, initial);
      }
      MovesKeepRootOnly(Moved(st, moves[0], env).value, moves[1..], env, initial);
    }
  }

  /** Under the root-only option, in every state a recording run reaches, every recorded tree was started by a root frame. */
  lemma {:induction false} RootOnlyTreesStartAtRoot(nonces: set<NonceKey>, moves: seq<Move>, env: LedgerEnv)
    requires Moves(Start(NewRecording(true), nonces), moves, env).Some?
    ensures
      var m := Moves(Start(NewRecording(true), nonces), moves, env).value.manager;
      forall i :: 0 <= i < |m.accounts| ==> MatchedByRootFrame(m.accounts[i].tracker.root)
  {
    var start := Start(NewRecording(true), nonces);
    assert Reachable(NewRecording(true), nonces, start, env) by {
      assert Moves(start, [], env) == Some(start);
    }
    ReachedIsSound(NewRecording(true), nonces, start, env);
    MovesKeepRootOnly(start, moves, env, nonces);
    MovesFair(start, moves, env, nonces);
    hide Moves, Sound;
  }
}
