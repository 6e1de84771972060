/**
 `AuthorizationManager` of soroban-env-host/src/auth.rs as functions on values: the
 trackers of accounts and of invoker contracts, driven by call frames and by
 `require_auth`, in enforcing and in recording mode.

 Authentication may call back into the manager, so `require_auth` is cut at that point:
 `BeginRequireEnforcing` stops with `Pending` when the matched tracker still has to be
 authenticated, and `EndAuthentication` resumes.
 */
module AuthManager {
  import opened Prelude
  import opened InvocationTree
  import opened InvocationMatcher

  datatype Nonce = Nonce(value: int, liveUntil: nat)

  datatype AccountTracker = AccountTracker(
    address: Address, tracker: Tracker, isTransactionSourceAccount: bool, verified: bool, nonce: Option<Nonce>,
    isBorrowed: bool)

  /** `depth` is the size of the call stack when the tracker was created; nothing reads it. */
  datatype InvokerTracker = InvokerTracker(contract: Address, tracker: Tracker, depth: nat)

  datatype Mode = Enforcing | Recording(trackerByHandle: map<nat, nat>, disableNonRootAuth: bool)

  datatype Manager = Manager(
    mode: Mode, accounts: seq<AccountTracker>, invokers: seq<InvokerTracker>, callStack: seq<AuthStackFrame>)

  // ---------------------------------------------------------------- frames

  function PushAccount(a: AccountTracker): AccountTracker {
    if a.isBorrowed then a else a.(tracker := PushFrame(a.tracker))
  }

  function PopAccount(a: AccountTracker): AccountTracker {
    if a.isBorrowed then a else a.(tracker := PopFrame(a.tracker))
  }

  function PushAccounts(xs: seq<AccountTracker>): seq<AccountTracker> {
    seq(|xs|, i requires 0 <= i < |xs| => PushAccount(xs[i]))
  }

  function PopAccounts(xs: seq<AccountTracker>): seq<AccountTracker> {
    seq(|xs|, i requires 0 <= i < |xs| => PopAccount(xs[i]))
  }

  function PushInvokers(vs: seq<InvokerTracker>): seq<InvokerTracker> {
    seq(|vs|, i requires 0 <= i < |vs| => vs[i].(tracker := PushFrame(vs[i].tracker)))
  }

  function PopInvokers(vs: seq<InvokerTracker>): seq<InvokerTracker> {
    seq(|vs|, i requires 0 <= i < |vs| => vs[i].(tracker := PopFrame(vs[i].tracker)))
  }

  /** `push_frame` and `push_create_contract_host_fn_frame`, without the snapshot. */
  function PushManager(m: Manager, frame: AuthStackFrame): Manager {
    m.(callStack := m.callStack + [frame], accounts := PushAccounts(m.accounts), invokers := PushInvokers(m.invokers))
  }

  predicate IsOutOfScope(v: InvokerTracker) {
    v.tracker.stack == []
  }

  /** The loop that pops out-of-scope trackers, from the end only. */
  function DropOutOfScope(vs: seq<InvokerTracker>): seq<InvokerTracker> {
    if vs != [] && IsOutOfScope(vs[|vs| - 1]) then DropOutOfScope(vs[..|vs| - 1]) else vs
  }

  /** `pop_frame` without a rollback. */
  function PopManager(m: Manager): Manager {
    if m.callStack == [] then m
    else
      m.(callStack := m.callStack[..|m.callStack| - 1],
         accounts := PopAccounts(m.accounts),
         invokers := DropOutOfScope(PopInvokers(m.invokers)))
  }

  // ---------------------------------------------------------------- snapshots

  datatype AccountSnapshot = AccountSnapshot(root: NodeSnapshot, verified: bool)

  datatype AccountsSnapshot =
    | EnforcingSnapshot(trackers: seq<Option<AccountSnapshot>>)
    | RecordingSnapshot(copies: seq<AccountTracker>, trackerByHandle: map<nat, nat>)

  datatype ManagerSnapshot = ManagerSnapshot(accounts: AccountsSnapshot, invokerRoots: seq<NodeSnapshot>)

  function SnapshotAccount(a: AccountTracker): Option<AccountSnapshot> {
    if a.isBorrowed then None else Some(AccountSnapshot(Snapshot(a.tracker.root), a.verified))
  }

  function SnapshotAccounts(xs: seq<AccountTracker>): seq<Option<AccountSnapshot>> {
    seq(|xs|, i requires 0 <= i < |xs| => SnapshotAccount(xs[i]))
  }

  function SnapshotInvokers(vs: seq<InvokerTracker>): seq<NodeSnapshot> {
    seq(|vs|, i requires 0 <= i < |vs| => Snapshot(vs[i].tracker.root))
  }

  /** `AuthorizationManager::snapshot`. */
  function SnapshotManager(m: Manager): ManagerSnapshot {
    var accounts :=
      match m.mode
      case Enforcing => EnforcingSnapshot(SnapshotAccounts(m.accounts))
      case Recording(byHandle, _) => RecordingSnapshot(m.accounts, byHandle);
    ManagerSnapshot(accounts, SnapshotInvokers(m.invokers))
  }

  function RollbackAccount(a: AccountTracker, s: Option<AccountSnapshot>): Option<AccountTracker> {
    match s
    case None => Some(a)
    case Some(snapshot) =>
      if a.isBorrowed then None
      else
        match RollbackTracker(a.tracker, snapshot.root)
        case None => None
        case Some(t) => Some(a.(tracker := t, verified := snapshot.verified))
  }

  function RollbackAccounts(xs: seq<AccountTracker>, ss: seq<Option<AccountSnapshot>>): Option<seq<AccountTracker>>
    requires |xs| == |ss|
  {
    if xs == [] then Some([])
    else
      match RollbackAccount(xs[0], ss[0])
      case None => None
      case Some(first) =>
        match RollbackAccounts(xs[1..], ss[1..])
        case None => None
        case Some(rest) => Some([first] + rest)
  }

  function RollbackInvoker(v: InvokerTracker, s: NodeSnapshot): Option<InvokerTracker> {
    match RollbackTracker(v.tracker, s)
    case None => None
    case Some(t) => Some(v.(tracker := t))
  }

  function RollbackInvokers(vs: seq<InvokerTracker>, ss: seq<NodeSnapshot>): Option<seq<InvokerTracker>>
    requires |vs| == |ss|
  {
    if vs == [] then Some([])
    else
      match RollbackInvoker(vs[0], ss[0])
      case None => None
      case Some(first) =>
        match RollbackInvokers(vs[1..], ss[1..])
        case None => None
        case Some(rest) => Some([first] + rest)
  }

  /** `AuthorizationManager::rollback`; `None` is any of its InternalErrors. */
  function RollbackManager(m: Manager, s: ManagerSnapshot): Option<Manager> {
    var restored :=
      match s.accounts
      case EnforcingSnapshot(trackers) =>
        if |m.accounts| != |trackers| then None
        else
          (match RollbackAccounts(m.accounts, trackers)
           case None => None
           case Some(accounts) => Some(m.(accounts := accounts)))
      case RecordingSnapshot(copies, byHandle) =>
        Some(m.(accounts := copies,
                mode := if m.mode.Recording? then m.mode.(trackerByHandle := byHandle) else m.mode));
    match restored
    case None => None
    case Some(m') =>
      if |m'.invokers| < |s.invokerRoots| then None
      else
        match RollbackInvokers(m'.invokers[..|s.invokerRoots|], s.invokerRoots)
        case None => None
        case Some(invokers) => Some(m'.(invokers := invokers))
  }

  /** `pop_frame` with a rollback. */
  function RollbackAndPop(m: Manager, s: ManagerSnapshot): Option<Manager> {
    match RollbackManager(m, s)
    case None => None
    case Some(m') => Some(PopManager(m'))
  }

  // ---------------------------------------------------------------- require_auth

  datatype RequireResult =
    | Authorized(manager: Manager)
    | Denied(manager: Manager)
    | Pending(manager: Manager, index: nat)
    | Continue

  /** The loop over invoker trackers in `maybe_check_invoker_contract_auth`, from index `i`. */
  function ScanInvokers(m: Manager, address: Address, f: AuthorizedFunction, id: FrameId, i: nat): RequireResult
    requires i <= |m.invokers|
    decreases |m.invokers| - i
  {
    if i == |m.invokers| then Continue
    else if m.invokers[i].contract != address then ScanInvokers(m, address, f, id, i + 1)
    else
      match Extend(m.invokers[i].tracker, f, true, id)
      case NotMatched => ScanInvokers(m, address, f, id, i + 1)
      case Matched(t) => Authorized(m.(invokers := m.invokers[i := m.invokers[i].(tracker := t)]))
      case Failed(t) => Denied(m.(invokers := m.invokers[i := m.invokers[i].(tracker := t)]))
  }

  predicate IsDirectInvoker(callStack: seq<AuthStackFrame>, address: Address) {
    |callStack| >= 2 && callStack[|callStack| - 2].Contract? && callStack[|callStack| - 2].contract == address
  }

  /** `maybe_check_invoker_contract_auth`; `Continue` is its `Ok(false)`. */
  function CheckInvoker(m: Manager, address: Address, f: AuthorizedFunction, id: FrameId): RequireResult {
    if |m.callStack| < 2 then Continue
    else if IsDirectInvoker(m.callStack, address) then Authorized(m)
    else ScanInvokers(m, address, f, id, 0)
  }

  predicate IsActiveForCurrentFrame(a: AccountTracker, address: Address) {
    !a.isBorrowed && a.address == address && IsActive(a.tracker) && !CurrentFrameIsAlreadyMatched(a.tracker)
  }

  predicate HasActiveTracker(m: Manager, address: Address) {
    exists i :: 0 <= i < |m.accounts| && IsActiveForCurrentFrame(m.accounts[i], address)
  }

  /** The loop over account trackers in `require_auth_enforcing`, from index `i`. */
  function ScanAccounts(
    m: Manager, address: Address, f: AuthorizedFunction, allowMatchingRoot: bool, id: FrameId, i: nat): RequireResult
    requires i <= |m.accounts|
    decreases |m.accounts| - i
  {
    if i == |m.accounts| then Denied(m)
    else if m.accounts[i].isBorrowed || m.accounts[i].address != address then
      ScanAccounts(m, address, f, allowMatchingRoot, id, i + 1)
    else
      match Extend(m.accounts[i].tracker, f, allowMatchingRoot, id)
      case NotMatched => ScanAccounts(m, address, f, allowMatchingRoot, id, i + 1)
      case Failed(t) => Denied(m.(accounts := m.accounts[i := m.accounts[i].(tracker := t)]))
      case Matched(t) =>
        if m.accounts[i].verified then Authorized(m.(accounts := m.accounts[i := m.accounts[i].(tracker := t)]))
        else Pending(m.(accounts := m.accounts[i := m.accounts[i].(tracker := t, isBorrowed := true)]), i)
  }

  /** `require_auth_enforcing` up to the authentication of the matched tracker. */
  function BeginRequireEnforcing(m: Manager, address: Address, f: AuthorizedFunction, id: FrameId): RequireResult {
    ScanAccounts(m, address, f, !HasActiveTracker(m, address), id, 0)
  }

  datatype LedgerEnv = LedgerEnv(ledgerSeq: nat, maxLiveUntil: nat, sourceAccount: Option<Address>)

  type NonceKey = (Address, int)

  /** `verify_and_consume_nonce` with `consume_nonce`; `None` is any error. */
  function ConsumeNonce(a: AccountTracker, nonces: set<NonceKey>, env: LedgerEnv): Option<set<NonceKey>> {
    if a.isTransactionSourceAccount then Some(nonces)
    else if a.nonce.None? then None
    else
      var n := a.nonce.value;
      if env.ledgerSeq > n.liveUntil || n.liveUntil > env.maxLiveUntil then None
      else if (a.address, n.value) in nonces then None
      else Some(nonces + {(a.address, n.value)})
  }

  /** The end of `maybe_authorize_invocation`: the tracker is released, verified or not. */
  function EndAuthentication(m: Manager, i: nat, verified: bool): Manager
    requires i < |m.accounts|
  {
    m.(accounts := m.accounts[i := m.accounts[i].(isBorrowed := false, verified := verified)])
  }

  datatype RecordResult = Recorded(manager: Manager, nonces: set<NonceKey>) | RecordFailed(manager: Manager)

  /** Recording `f` in the existing tracker at `i`. */
  function RecordIn(m: Manager, i: nat, f: AuthorizedFunction, id: FrameId, nonces: set<NonceKey>): RecordResult
    requires i < |m.accounts|
  {
    match Record(m.accounts[i].tracker, f, id)
    case None => RecordFailed(m)
    case Some(t) => Recorded(m.(accounts := m.accounts[i := m.accounts[i].(tracker := t)]), nonces)
  }

  /** The first tracker of the address that is in the stack and unused in this frame, from index `i`. */
  function FindRecordable(accounts: seq<AccountTracker>, address: Address, i: nat): (r: Option<nat>)
    requires i <= |accounts|
    ensures r.Some? ==> i <= r.value < |accounts|
    decreases |accounts| - i
  {
    if i == |accounts| then None
    else if
      && accounts[i].address == address
      && HasMatchedInvocationsInStack(accounts[i].tracker)
      && !CurrentFrameIsAlreadyMatched(accounts[i].tracker)
    then Some(i)
    else FindRecordable(accounts, address, i + 1)
  }

  /** `AccountAuthorizationTracker::new_recording`, with the nonce it draws as a parameter. */
  function NewRecordingAccount(
    address: Address, f: AuthorizedFunction, stackLen: nat, id: FrameId, randomNonce: int, env: LedgerEnv): AccountTracker
    requires stackLen > 0
  {
    var isSource := env.sourceAccount == Some(address);
    AccountTracker(address, NewRecordingTracker(f, stackLen, id), isSource, true,
                   if isSource then None else Some(Nonce(randomNonce, 0)), false)
  }

  /** `require_auth_recording`. */
  function RequireRecording(
    m: Manager, handle: nat, address: Address, f: AuthorizedFunction, id: FrameId,
    randomNonce: int, nonces: set<NonceKey>, env: LedgerEnv): RecordResult
    requires m.mode.Recording? && m.callStack != []
  {
    var byHandle := m.mode.trackerByHandle;
    if handle in byHandle && byHandle[handle] >= |m.accounts| then RecordFailed(m)
    else if handle in byHandle && HasMatchedInvocationsInStack(m.accounts[byHandle[handle]].tracker) then
      RecordIn(m, byHandle[handle], f, id, nonces)
    else
      var m1 := m.(mode := m.mode.(trackerByHandle := byHandle - {handle}));
      RecordElsewhere(m1, handle, address, f, id, randomNonce, nonces, env)
  }

  /** The rest of `require_auth_recording`, when the handle leads to no tracker in the stack. */
  function RecordElsewhere(
    m: Manager, handle: nat, address: Address, f: AuthorizedFunction, id: FrameId,
    randomNonce: int, nonces: set<NonceKey>, env: LedgerEnv): RecordResult
    requires m.mode.Recording? && m.callStack != []
  {
    match FindRecordable(m.accounts, address, 0)
    case Some(i) => RecordIn(m, i, f, id, nonces)
    case None =>
      if m.mode.disableNonRootAuth && |m.callStack| != 1 then RecordFailed(m)
      else
        var a := NewRecordingAccount(address, f, |m.callStack|, id, randomNonce, env);
        if !a.isTransactionSourceAccount && (address, randomNonce) in nonces then RecordFailed(m)
        else
          Recorded(
            m.(accounts := m.accounts + [a],
               mode := m.mode.(trackerByHandle := m.mode.trackerByHandle[handle := |m.accounts|])),
            if a.isTransactionSourceAccount then nonces else nonces + {(address, randomNonce)})
  }

  /** The unauthenticated form of a pattern: `SorobanAuthorizedInvocation`. */
  datatype Invocation = Invocation(fn: AuthorizedFunction, subs: seq<Invocation>)

  /** `AuthorizedInvocation::from_xdr`: nothing is exhausted yet. */
  function FromXdr(x: Invocation): Node {
    Node(x.fn, FromXdrAll(x.subs), false, None)
  }

  function FromXdrAll(xs: seq<Invocation>): seq<Node> {
    if xs == [] then [] else [FromXdr(xs[0])] + FromXdrAll(xs[1..])
  }

  /** `add_invoker_contract_auth_with_curr_contract_as_invoker`. */
  function AddInvokers(m: Manager, contract: Address, entries: seq<Invocation>): Manager {
    m.(invokers := m.invokers + seq(|entries|, i requires 0 <= i < |entries| =>
      InvokerTracker(contract, NewTracker(FromXdr(entries[i])), |m.callStack|)))
  }
}
