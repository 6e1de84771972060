/**
 What holds in every state that a run of the authorization manager can reach, inside
 open frames and open authentications included.
 */
module AuthTheorems {
  import opened Prelude
  import opened InvocationTree
  import opened InvocationMatcher
  import opened AuthManager
  import opened AuthRun

  datatype Credentials = SourceAccount | AddressCredentials(address: Address, nonce: Nonce)

  datatype AuthEntry = AuthEntry(credentials: Credentials, rootInvocation: Invocation)

  /** `AccountAuthorizationTracker::from_authorization_entry`. */
  function FromEntry(e: AuthEntry, source: Address): AccountTracker {
    var tracker := NewTracker(FromXdr(e.rootInvocation));
    match e.credentials
    case SourceAccount => AccountTracker(source, tracker, true, false, None, false)
    case AddressCredentials(address, nonce) => AccountTracker(address, tracker, false, false, Some(nonce), false)
  }

  /** `AuthorizationManager::new_enforcing`. */
  function NewEnforcing(entries: seq<AuthEntry>, source: Address): Manager {
    Manager(Enforcing, seq(|entries|, i requires 0 <= i < |entries| => FromEntry(entries[i], source)), [], [])
  }

  /** `AuthorizationManager::new_recording`. */
  function NewRecording(disableNonRootAuth: bool): Manager {
    Manager(Recording(map[], disableNonRootAuth), [], [], [])
  }

  function Start(m: Manager, nonces: set<NonceKey>): State {
    State(m, nonces, [], map[], 0)
  }

  /** One move of a run in progress: a completed action, or the opening of a frame or authentication. */
  datatype Move = Do(action: Action) | Enter(frame: AuthStackFrame) | EnterAuthentication(address: Address, args: seq<Val>)

  function Moved(st: State, move: Move, env: LedgerEnv): Option<State> {
    match move
    case Do(a) => if Step(a, st, env).1 then Some(Step(a, st, env).0) else None
    case Enter(frame) => Some(Push(st, frame))
    case EnterAuthentication(address, args) => EnteredAuthentication(st, address, args)
  }

  /** The state in which the tracker that matched is being authenticated. */
  function EnteredAuthentication(st: State, address: Address, args: seq<Val>): Option<State> {
    if st.manager.callStack == [] || st.ids == [] || st.manager.mode.Recording? then None
    else
      var f := ToAuthorizedFunction(st.manager.callStack[|st.manager.callStack| - 1], args);
      var id := st.ids[|st.ids| - 1];
      if !CheckInvoker(st.manager, address, f, id).Continue? then None
      else
        match BeginRequireEnforcing(st.manager, address, f, id)
        case Pending(m, _) => Some(st.(manager := m))
        case _ => None
  }

  function Moves(st: State, moves: seq<Move>, env: LedgerEnv): Option<State>
    decreases |moves|
  {
    if moves == [] then Some(st)
    else
      match Moved(st, moves[0], env)
      case None => None
      case Some(st') => Moves(st', moves[1..], env)
  }

  lemma {:induction false} EnforcingStartIsSound(entries: seq<AuthEntry>, source: Address, nonces: set<NonceKey>)
    ensures Sound(Start(NewEnforcing(entries, source), nonces), nonces)
  {
    var st := Start(NewEnforcing(entries, source), nonces);
    forall i | 0 <= i < |entries| ensures AccountGood(st.manager.accounts[i], [], map[]) {
      FromXdrIsFresh(entries[i].rootInvocation);
      NewTrackerIsGood(FromXdr(entries[i].rootInvocation), map[]);
    }
  }

  lemma {:induction false} PendingIsSound(
    st: State, address: Address, f: AuthorizedFunction, initial: set<NonceKey>)
    requires Sound(st, initial) && st.manager.mode.Enforcing?
    requires st.ids != [] && Fits(st.history[st.ids[|st.ids| - 1]], f)
    ensures
      var r := BeginRequireEnforcing(st.manager, address, f, st.ids[|st.ids| - 1]);
      r.Pending? ==> Sound(st.(manager := r.manager), initial)
  {
    hide NoncesGood, ScanKept;
    var m := st.manager;
    ScanAccountsKeeps(m, address, f, !HasActiveTracker(m, address), 0, st.ids, st.history);
    ScanKeptIsSound(st, BeginRequireEnforcing(m, address, f, st.ids[|st.ids| - 1]), initial);
  }

  lemma {:induction false} EnteredAuthenticationIsSound(
    st: State, address: Address, args: seq<Val>, initial: set<NonceKey>)
    requires Sound(st, initial)
    ensures
      var r := EnteredAuthentication(st, address, args);
      r.Some? ==> Sound(r.value, initial)
  {
    if EnteredAuthentication(st, address, args).Some? {
      var f := ToAuthorizedFunction(st.manager.callStack[|st.manager.callStack| - 1], args);
      assert Fits(st.history[st.ids[|st.ids| - 1]], f);
      PendingIsSound(st, address, f, initial);
    }
  }

  lemma {:induction false} MovedKeepsSound(st: State, move: Move, env: LedgerEnv, initial: set<NonceKey>)
    requires Sound(st, initial)
    ensures Moved(st, move, env).Some? ==> Sound(Moved(st, move, env).value, initial)
  {
    match move
    case Do(a) => StepKeeps(a, st, env, initial);
    case Enter(frame) => PushSound(st, frame, initial);
    case EnterAuthentication(address, args) => EnteredAuthenticationIsSound(st, address, args, initial);
  }

  /** Every state reached from a sound one is sound. */
  lemma {:induction false} ReachableIsSound(st: State, moves: seq<Move>, env: LedgerEnv, initial: set<NonceKey>)
    requires Sound(st, initial)
    ensures Moves(st, moves, env).Some? ==> Sound(Moves(st, moves, env).value, initial)
    decreases |moves|
  {
    if moves != [] {
      MovedKeepsSound(st, moves[0], env, initial);
      if Moved(st, moves[0], env).Some? {
        ReachableIsSound(Moved(st, moves[0], env).value, moves[1..], env, initial);
      }
    }
  }

  ghost predicate Reachable(m: Manager, nonces: set<NonceKey>, st: State, env: LedgerEnv) {
    exists moves :: Moves(Start(m, nonces), moves, env) == Some(st)
  }

  /** A manager a transaction can start from. */
  ghost predicate IsStart(m: Manager) {
    || (exists entries, source :: m == NewEnforcing(entries, source))
    || (exists disable :: m == NewRecording(disable))
  }

  lemma {:induction false} ReachedIsSound(m: Manager, nonces: set<NonceKey>, st: State, env: LedgerEnv)
    requires IsStart(m) && Reachable(m, nonces, st, env)
    ensures Sound(st, nonces)
  {
    if exists entries, source :: m == NewEnforcing(entries, source) {
      var entries, source :| m == NewEnforcing(entries, source);
      EnforcingStartIsSound(entries, source, nonces);
    }
    var moves :| Moves(Start(m, nonces), moves, env) == Some(st);
    ReachableIsSound(Start(m, nonces), moves, env, nonces);
  }

  /** A tracker of the manager: an account's or an invoker contract's. */
  ghost predicate IsTracker(m: Manager, t: Tracker) {
    || (exists i :: 0 <= i < |m.accounts| && m.accounts[i].tracker == t)
    || (exists i :: 0 <= i < |m.invokers| && m.invokers[i].tracker == t)
  }

  lemma {:induction false} SoundTrackersAreGood(st: State, initial: set<NonceKey>, t: Tracker) returns (ids: seq<FrameId>)
    requires Sound(st, initial) && IsTracker(st.manager, t)
    ensures Good(t, ids, st.history)
  {
    var m := st.manager;
    if i :| 0 <= i < |m.accounts| && m.accounts[i].tracker == t {
      assert AccountGood(m.accounts[i], st.ids, st.history);
      ids := st.ids[..|t.stack|];
    } else {
      var i :| 0 <= i < |m.invokers| && m.invokers[i].tracker == t;
      assert InvokerGood(m.invokers[i], st.ids, st.history);
      ids := st.ids[m.invokers[i].depth..];
    }
  }

  /**
   In every reachable state the surviving matches of every tracker form an injective map
   from exhausted nodes to call frames of their contract function, and the frame of a child
   node is a strict descendant of the frame of its parent node, which is exhausted too.
   */
  lemma {:induction false} MatchesAreInjectiveAndNested(
    m: Manager, nonces: set<NonceKey>, st: State, env: LedgerEnv, t: Tracker)
    requires IsStart(m) && Reachable(m, nonces, st, env) && IsTracker(st.manager, t)
    ensures forall p :: ValidPath(t.root, p) && At(t.root, p).isExhausted ==>
      exists id :: MatchedBy(t.root, p, id) && id in st.history && Fits(st.history[id], At(t.root, p).fn)
    ensures forall p, q, id :: MatchedBy(t.root, p, id) && MatchedBy(t.root, q, id) ==> p == q
    ensures forall p, id :: MatchedBy(t.root, p, id) && p != [] ==> MatchedBelow(t.root, p[..|p| - 1], id)
  {
    ReachedIsSound(m, nonces, st, env);
    var ids := SoundTrackersAreGood(st, nonces, t);
    forall p | ValidPath(t.root, p) && At(t.root, p).isExhausted
      ensures exists id :: MatchedBy(t.root, p, id) && id in st.history && Fits(st.history[id], At(t.root, p).fn)
    {
      WellMarkedAt(t.root, p);
      assert MatchedBy(t.root, p, At(t.root, p).matchedBy.value);
    }
  }

  /**
   In every reachable state a tracker's stack has at most one root match and no sub-match
   before it, its indices trace a path of exhausted nodes, `is_active` says whether the
   root match is on the stack, and the walk never reports an internal error.
   */
  lemma {:induction false} StacksAreWellFormed(m: Manager, nonces: set<NonceKey>, st: State, env: LedgerEnv, t: Tracker)
    requires IsStart(m) && Reachable(m, nonces, st, env) && IsTracker(st.manager, t)
    ensures forall i, j ::
      0 <= i < |t.stack| && 0 <= j < |t.stack| && t.stack[i] == RootMatch && t.stack[j] == RootMatch ==> i == j
    ensures forall i :: 0 <= i < |t.stack| && t.stack[i].SubMatch? ==> RootMatch in t.stack[..i]
    ensures forall i :: 0 <= i < |t.stack| && t.stack[i] != Unmatched ==>
      ValidPath(t.root, PathOf(t.stack[..i + 1])) && At(t.root, PathOf(t.stack[..i + 1])).isExhausted
    ensures IsActive(t) <==> RootMatch in t.stack
    ensures !LastAuthorized(t.root, t.stack, 0).Broken?
  {
    ReachedIsSound(m, nonces, st, env);
    var ids := SoundTrackersAreGood(st, nonces, t);
    ActiveIffRootOnStack(t, ids, st.history);
    WalkFindsDeepestMatch(t.root, t.stack, ids);
  }

  /**
   In every reachable state an account tracker that is not being authenticated is verified
   exactly when its root is exhausted, and the nonces in the ledger are the initial ones
   and, taken once each, those of the trackers whose root is exhausted.
   */
  lemma {:induction false} NoncesAreConsumedOnce(m: Manager, nonces: set<NonceKey>, st: State, env: LedgerEnv)
    requires IsStart(m) && Reachable(m, nonces, st, env)
    ensures forall i :: 0 <= i < |st.manager.accounts| && !st.manager.accounts[i].isBorrowed ==>
      (st.manager.accounts[i].verified <==> st.manager.accounts[i].tracker.root.isExhausted)
    ensures forall i :: 0 <= i < |st.manager.accounts| && st.manager.accounts[i].isBorrowed ==>
      !st.manager.accounts[i].verified
    ensures NoncesGood(st.manager.accounts, st.nonces, nonces)
  {
    ReachedIsSound(m, nonces, st, env);
    forall i | 0 <= i < |st.manager.accounts| ensures AccountGood(st.manager.accounts[i], st.ids, st.history) {
    }
  }

  /**
   In every reachable state the invoker trackers are sorted by the depth they were
   created at, and a tracker's stack counts the frames above that depth.
   */
  lemma {:induction false} InvokersAreSorted(m: Manager, nonces: set<NonceKey>, st: State, env: LedgerEnv)
    requires IsStart(m) && Reachable(m, nonces, st, env)
    ensures SortedByDepth(st.manager.invokers)
    ensures forall i :: 0 <= i < |st.manager.invokers| ==>
      |st.manager.invokers[i].tracker.stack| + st.manager.invokers[i].depth == |st.manager.callStack|
  {
    ReachedIsSound(m, nonces, st, env);
    forall i | 0 <= i < |st.manager.invokers| ensures InvokerGood(st.manager.invokers[i], st.ids, st.history) {
    }
  }

  /**
   A failed call has no effect: whatever its body did before it failed, the manager and the
   nonces afterwards are those of the same call with an empty body.
   */
  lemma {:induction false} FailedCallIsEmptyCall(
    m: Manager, nonces: set<NonceKey>, st: State, env: LedgerEnv, c: Address, name: string, body: seq<Action>)
    requires IsStart(m) && Reachable(m, nonces, st, env)
    requires !Run(body, Push(st, Contract(c, name)), env).1
    ensures
      var failed, empty := Step(Invoke(c, name, body), st, env), Step(Invoke(c, name, []), st, env);
      && failed.1 && empty.1
      && failed.0.manager == empty.0.manager
      && failed.0.nonces == empty.0.nonces
      && failed.0.ids == empty.0.ids
  {
    hide Sound, StateEvolved;
    ReachedIsSound(m, nonces, st, env);
    PushSound(st, Contract(c, name), nonces);
    RunKeeps(body, Push(st, Contract(c, name)), env, nonces);
    UnwindIsPop(st, Contract(c, name), Run(body, Push(st, Contract(c, name)), env).0);
  }

  lemma {:induction false} AccountsPopUndoesPush(st: State)
    requires AccountsGood(st.manager.accounts, st.ids, st.history)
    ensures PopAccounts(PushAccounts(st.manager.accounts)) == st.manager.accounts
  {
    var xs := st.manager.accounts;
    forall i | 0 <= i < |xs| ensures PopAccount(PushAccount(xs[i])) == xs[i] {
      assert AccountGood(xs[i], st.ids, st.history);
      PopUndoesPush(xs[i].tracker, st.ids[..|xs[i].tracker.stack|], st.history);
    }
  }

  lemma {:induction false} DropAfterEmptyCall(vs: seq<InvokerTracker>, depth: nat)
    requires SortedByDepth(vs)
    requires forall i :: 0 <= i < |vs| ==> vs[i].depth <= depth && |vs[i].tracker.stack| == depth - vs[i].depth
    requires forall i :: 0 <= i < |vs| ==> PopFrame(PushFrame(vs[i].tracker)) == vs[i].tracker
    ensures
      var after := DropOutOfScope(PopInvokers(PushInvokers(vs)));
      && |after| <= |vs|
      && after == vs[..|after|]
      && forall i :: 0 <= i < |vs| ==> (i < |after| <==> vs[i].depth < depth)
  {
    var pushed := PushInvokers(vs);
    DropIsExact(pushed, depth + 1);
    var after := DropOutOfScope(PopInvokers(pushed));
    forall i | 0 <= i < |vs| ensures i < |after| <==> vs[i].depth < depth {
      assert i < |after| <==> Outlives(pushed[i], depth + 1);
    }
  }

  lemma {:induction false} InvokersPopUndoesPush(st: State, frame: AuthStackFrame)
    requires InvokersGood(st.manager.invokers, st.ids, st.history) && FramesGood(st)
    ensures
      var before, after := st.manager.invokers, Pop(Push(st, frame)).manager.invokers;
      && |after| <= |before|
      && after == before[..|after|]
      && forall i :: 0 <= i < |before| ==> (i < |after| <==> before[i].depth < |st.ids|)
  {
    var vs := st.manager.invokers;
    forall i | 0 <= i < |vs|
      ensures vs[i].depth <= |st.ids| && |vs[i].tracker.stack| == |st.ids| - vs[i].depth
      ensures PopFrame(PushFrame(vs[i].tracker)) == vs[i].tracker
    {
      assert InvokerGood(vs[i], st.ids, st.history);
      PopUndoesPush(vs[i].tracker, st.ids[vs[i].depth..], st.history);
    }
    DropAfterEmptyCall(vs, |st.ids|);
  }

  /**
   The only effect of an empty call is that the invoker trackers the caller created, which
   live for one call, are gone.
   */
  lemma {:induction false} EmptyCallEndsInvokers(
    m: Manager, nonces: set<NonceKey>, st: State, env: LedgerEnv, c: Address, name: string)
    requires IsStart(m) && Reachable(m, nonces, st, env)
    ensures
      var after := Step(Invoke(c, name, []), st, env).0;
      && after.nonces == st.nonces
      && after.manager == st.manager.(invokers := after.manager.invokers)
      && |after.manager.invokers| <= |st.manager.invokers|
      && after.manager.invokers == st.manager.invokers[..|after.manager.invokers|]
      && forall i :: 0 <= i < |st.manager.invokers| ==>
           (i < |after.manager.invokers| <==> st.manager.invokers[i].depth < |st.manager.callStack|)
  {
    ReachedIsSound(m, nonces, st, env);
    hide Good, NoncesGood, StrictPrefix, Reachable;
    AccountsPopUndoesPush(st);
    InvokersPopUndoesPush(st, Contract(c, name));
    var stack := st.manager.callStack;
    assert (stack + [Contract(c, name)])[..|stack|] == stack;
  }

  lemma {:induction false} PopUndoesPush(t: Tracker, ids: seq<FrameId>, history: map<FrameId, AuthStackFrame>)
    requires Good(t, ids, history)
    ensures PopFrame(PushFrame(t)) == t
  {
    assert PopFrame(PushFrame(t)).stack == t.stack;
  }

  /** A failed transaction leaves the manager it started with. */
  lemma {:induction false} FailedTransactionIsUndone(
    m: Manager, nonces: set<NonceKey>, env: LedgerEnv, acts: seq<Action>)
    requires IsStart(m)
    ensures RollbackAndPop(Run(acts, Start(m, nonces), env).0.manager, SnapshotManager(m)) == Some(m)
  {
    var st := Start(m, nonces);
    assert Moves(st, [], env) == Some(st);
    ReachedIsSound(m, nonces, st, env);
    RunKeeps(acts, st, env, nonces);
    FailedTransactionHasNoEffect(st, Run(acts, st, env).0);
  }

  /**
   The one way `maybe_extend_invocation_match` can fail: the contract that created an invoker
   tracker requires, in its own frame, the very authorization the tracker grants at its root.
   */
  lemma {:induction false} MatchingFailsOnlyInOwnFrame(
    m: Manager, nonces: set<NonceKey>, st: State, env: LedgerEnv, t: Tracker, f: AuthorizedFunction, allowRoot: bool,
    id: FrameId)
    requires IsStart(m) && Reachable(m, nonces, st, env) && IsTracker(st.manager, t)
    ensures Extend(t, f, allowRoot, id).Failed? <==>
      t.stack == [] && allowRoot && !t.root.isExhausted && t.root.fn == f
  {
    ReachedIsSound(m, nonces, st, env);
    var ids := SoundTrackersAreGood(st, nonces, t);
    if t.stack != [] {
      ExtendIsMatch(t, ids, f, allowRoot, id);
    }
  }

  // ---------------------------------------------------------------- a contract's own authorization

  /** The tracker was created by the current frame and grants exactly `f` at its root. */
  predicate GrantsInOwnFrame(t: Tracker, f: AuthorizedFunction) {
    t.stack == [] && !t.root.isExhausted && t.root.fn == f
  }

  /** The invoker tracker at `i` is the first of the address that does not pass `f` over, and grants it in its own frame. */
  ghost predicate FailsAt(m: Manager, address: Address, f: AuthorizedFunction, id: FrameId, i: nat) {
    && i < |m.invokers| && m.invokers[i].contract == address && GrantsInOwnFrame(m.invokers[i].tracker, f)
    && forall j :: 0 <= j < i && m.invokers[j].contract == address ==> Extend(m.invokers[j].tracker, f, true, id).NotMatched?
  }

  lemma {:induction false} ScanInvokersFailsIff(m: Manager, address: Address, f: AuthorizedFunction, id: FrameId, i: nat)
    requires i <= |m.invokers|
    requires forall k :: 0 <= k < |m.invokers| ==>
      (Extend(m.invokers[k].tracker, f, true, id).Failed? <==> GrantsInOwnFrame(m.invokers[k].tracker, f))
    requires forall j :: 0 <= j < i && m.invokers[j].contract == address ==> Extend(m.invokers[j].tracker, f, true, id).NotMatched?
    ensures ScanInvokers(m, address, f, id, i).Denied? <==> exists k :: i <= k && FailsAt(m, address, f, id, k)
    decreases |m.invokers| - i
  {
    hide Extend, GrantsInOwnFrame;
    if i < |m.invokers| {
      if m.invokers[i].contract != address || Extend(m.invokers[i].tracker, f, true, id).NotMatched? {
        ScanInvokersFailsIff(m, address, f, id, i + 1);
        assert !FailsAt(m, address, f, id, i);
      } else if Extend(m.invokers[i].tracker, f, true, id).Failed? {
        assert FailsAt(m, address, f, id, i);
      } else {
        assert forall k :: i < k ==> !FailsAt(m, address, f, id, k);
      }
    }
  }

  /**
   In every reachable state the invoker check of a `require_auth` fails if and only if the address
   is not the contract that made the current call and its first tracker that does not pass the call over was created by
   this very frame and grants the call at its root; and then the `require_auth` fails.
   */
  lemma {:induction false} InvokerCheckFailsIff(
    m: Manager, nonces: set<NonceKey>, st: State, env: LedgerEnv, a: Action)
    requires IsStart(m) && Reachable(m, nonces, st, env)
    requires a.Require? && st.manager.callStack != [] && st.ids != []
    ensures
      var stack, id := st.manager.callStack, st.ids[|st.ids| - 1];
      var f := ToAuthorizedFunction(stack[|stack| - 1], a.args);
      && (CheckInvoker(st.manager, a.address, f, id).Denied? <==>
          && |stack| >= 2
          && !(stack[|stack| - 2].Contract? && stack[|stack| - 2].contract == a.address)
          && exists i :: FailsAt(st.manager, a.address, f, id, i))
      && (CheckInvoker(st.manager, a.address, f, id).Denied? ==> !Step(a, st, env).1)
  {
    hide Reachable, Extend, FailsAt;
    var stack, id := st.manager.callStack, st.ids[|st.ids| - 1];
    var f := ToAuthorizedFunction(stack[|stack| - 1], a.args);
    forall k | 0 <= k < |st.manager.invokers|
      ensures Extend(st.manager.invokers[k].tracker, f, true, id).Failed? <==>
              GrantsInOwnFrame(st.manager.invokers[k].tracker, f)
    {
      MatchingFailsOnlyInOwnFrame(m, nonces, st, env, st.manager.invokers[k].tracker, f, true, id);
    }
    ScanInvokersFailsIff(st.manager, a.address, f, id, 0);
  }

  /**
   A reachable state in which it does: contract 1 calls contract 2, which authorizes its own current
   call and then requires it. The check exhausts the root before it fails.
   */
  lemma {:induction false} OwnAuthorizationFails(env: LedgerEnv, m: Manager, f: AuthorizedFunction, moves: seq<Move>)
    requires m == NewEnforcing([], 0) && f == ContractFn(2, "f", [])
    requires moves == [Enter(Contract(1, "g")), Enter(Contract(2, "f")), Do(Authorize([Invocation(f, [])]))]
    ensures Moves(Start(m, {}), moves, env).Some?
    ensures
      var st := Moves(Start(m, {}), moves, env).value;
      var r := Step(Require(0, 2, [], [], 0), st, env);
      !r.1 && |r.0.manager.invokers| == 1 && r.0.manager.invokers[0].tracker.root.isExhausted
  {
    var s0 := Start(m, {});
    var s1 := Push(s0, Contract(1, "g"));
    var s2 := Push(s1, Contract(2, "f"));
    var s3 := s2.(manager := AddInvokers(s2.manager, 2, [Invocation(f, [])]));
    assert s2.manager.callStack == [Contract(1, "g"), Contract(2, "f")] && s2.manager.invokers == [];
    assert Step(moves[2].action, s2, env) == (s3, true);
    MovesThree(s0, moves, env, s1, s2, s3);
    var root := FromXdr(Invocation(f, []));
    assert root.fn == f && !root.isExhausted;
    assert s3.manager.invokers == [InvokerTracker(2, NewTracker(root), 2)];
    var id := s3.ids[|s3.ids| - 1];
    assert Extend(NewTracker(root), f, true, id).Failed? && Extend(NewTracker(root), f, true, id).tracker.root.isExhausted;
    hide Extend;
    assert CheckInvoker(s3.manager, 2, f, id).Denied?;
  }

  lemma {:induction false} MovesThree(st: State, moves: seq<Move>, env: LedgerEnv, s1: State, s2: State, s3: State)
    requires |moves| == 3 && Moved(st, moves[0], env) == Some(s1)
    requires Moved(s1, moves[1], env) == Some(s2) && Moved(s2, moves[2], env) == Some(s3)
    ensures Moves(st, moves, env) == Some(s3)
  {
    hide Moved;
    assert moves[1..][0] == moves[1] && moves[1..][1..] == moves[2..] && moves[2..][0] == moves[2] && moves[2..][1..] == [];
    assert Moves(s3, [], env) == Some(s3);
    assert Moves(s2, moves[2..], env) == Moves(s3, [], env);
    assert Moves(s1, moves[1..], env) == Moves(s2, moves[2..], env);
  }
}
