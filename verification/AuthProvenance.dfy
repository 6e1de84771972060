/**
 Where the matches of a tree come from: every exhausted node was required, arguments included, by
 the frame it is matched by, and one `require_auth` uses one node of one tree.
 */
module AuthProvenance {
  import opened Prelude
  import opened InvocationTree
  import opened InvocationMatcher
  import opened AuthManager
  import opened AuthRun
  import opened AuthTheorems

  // ---------------------------------------------------------------- one match

  /** `b` is `a` with one more node exhausted, an unexhausted one with the function `f`, by the frame `id`. */
  ghost predicate Uses(a: Node, b: Node, f: AuthorizedFunction, id: FrameId) {
    exists p :: ValidPath(a, p) && !At(a, p).isExhausted && At(a, p).fn == f && b == Exhaust(a, p, id)
  }

  lemma {:induction false} ExtendUsesOneNode(t: Tracker, f: AuthorizedFunction, allowRoot: bool, id: FrameId)
    ensures
      var r := Extend(t, f, allowRoot, id);
      r.Matched? ==> Uses(t.root, r.tracker.root, f, id)
  {
    var r := Extend(t, f, allowRoot, id);
    if r.Matched? {
      match LastAuthorized(t.root, t.stack, 0)
      case Found(p) =>
        var j := FindSub(At(t.root, p).subs, f, 0).value;
        AtConcat(t.root, p, [j]);
        assert At(t.root, p + [j]) == At(t.root, p).subs[j];
        assert r.tracker.root == Exhaust(t.root, p + [j], id);
      case NoMatch =>
        assert ValidPath(t.root, []) && r.tracker.root == Exhaust(t.root, [], id);
    }
  }

  // ---------------------------------------------------------------- one require_auth

  /** Only the invoker tracker at `i`, one of the address, has changed, by one node. */
  ghost predicate InvokerUsed(m: Manager, m': Manager, address: Address, f: AuthorizedFunction, id: FrameId, i: nat) {
    && i < |m.invokers| == |m'.invokers|
    && m.invokers[i].contract == address
    && Uses(m.invokers[i].tracker.root, m'.invokers[i].tracker.root, f, id)
    && m' == m.(invokers := m.invokers[i := m.invokers[i].(tracker := m'.invokers[i].tracker)])
  }

  /** The account tracker at `i`, one of the address, has used one more node and is verified. */
  ghost predicate AccountUsed(m: Manager, m': Manager, address: Address, f: AuthorizedFunction, id: FrameId, i: nat) {
    && i < |m.accounts| == |m'.accounts|
    && !m.accounts[i].isBorrowed && m.accounts[i].address == address
    && Uses(m.accounts[i].tracker.root, m'.accounts[i].tracker.root, f, id)
    && !m'.accounts[i].isBorrowed && m'.accounts[i].verified
  }

  ghost predicate OnlyAccountChanged(m: Manager, m': Manager, i: nat)
    requires i < |m.accounts| == |m'.accounts|
  {
    m' == m.(accounts := m.accounts[i := m.accounts[i].(tracker := m'.accounts[i].tracker, verified := true)])
  }

  lemma {:induction false} ScanInvokersUses(m: Manager, address: Address, f: AuthorizedFunction, id: FrameId, i: nat)
    requires i <= |m.invokers|
    ensures
      var r := ScanInvokers(m, address, f, id, i);
      r.Authorized? ==> exists k :: InvokerUsed(m, r.manager, address, f, id, k)
    decreases |m.invokers| - i
  {
    hide Extend, Uses;
    if i < |m.invokers| {
      var r := ScanInvokers(m, address, f, id, i);
      ExtendUsesOneNode(m.invokers[i].tracker, f, true, id);
      if m.invokers[i].contract == address && Extend(m.invokers[i].tracker, f, true, id).Matched? {
        assert InvokerUsed(m, r.manager, address, f, id, i);
      } else {
        ScanInvokersUses(m, address, f, id, i + 1);
      }
    }
  }

  /** What the scan of the accounts found: the tracker at `k`, used once, to be authenticated unless verified. */
  ghost predicate ScanFound(m: Manager, r: RequireResult, address: Address, f: AuthorizedFunction, id: FrameId, k: nat)
    requires r.Authorized? || r.Pending?
  {
    && k < |m.accounts| == |r.manager.accounts|
    && !m.accounts[k].isBorrowed && m.accounts[k].address == address
    && Uses(m.accounts[k].tracker.root, r.manager.accounts[k].tracker.root, f, id)
    && r.manager == m.(accounts := m.accounts[k := m.accounts[k].(
         tracker := r.manager.accounts[k].tracker, isBorrowed := r.Pending?)])
    && (r.Authorized? ==> m.accounts[k].verified)
    && (r.Pending? ==> r.index == k)
  }

  lemma {:induction false} ScanAccountsUses(
    m: Manager, address: Address, f: AuthorizedFunction, allowRoot: bool, id: FrameId, i: nat)
    requires i <= |m.accounts|
    ensures
      var r := ScanAccounts(m, address, f, allowRoot, id, i);
      r.Authorized? || r.Pending? ==> exists k :: ScanFound(m, r, address, f, id, k)
    decreases |m.accounts| - i
  {
    hide Extend, Uses;
    if i < |m.accounts| {
      var r, a := ScanAccounts(m, address, f, allowRoot, id, i), m.accounts[i];
      ExtendUsesOneNode(a.tracker, f, allowRoot, id);
      if !a.isBorrowed && a.address == address && Extend(a.tracker, f, allowRoot, id).Matched? {
        assert r.manager.accounts[i] == a.(tracker := r.manager.accounts[i].tracker, isBorrowed := r.Pending?);
        assert ScanFound(m, r, address, f, id, i);
      } else {
        ScanAccountsUses(m, address, f, allowRoot, id, i + 1);
      }
    }
  }

  lemma {:induction false} EnforceUses(a: Action, f: AuthorizedFunction, st: State, env: LedgerEnv, initial: set<NonceKey>)
    requires a.Require? && Sound(st, initial) && st.manager.mode.Enforcing?
    requires st.ids != [] && Fits(st.history[st.ids[|st.ids| - 1]], f)
    requires EnforceAuth(a, f, st, env).1
    ensures
      var id, after := st.ids[|st.ids| - 1], EnforceAuth(a, f, st, env).0.manager;
      exists i ::
        && AccountUsed(st.manager, after, a.address, f, id, i)
        && (a.authentication == [] ==> OnlyAccountChanged(st.manager, after, i))
  {
    hide StateGood, NoncesGood, HasActiveTracker, Uses, StateEvolved, IsPending;
    var m, id := st.manager, st.ids[|st.ids| - 1];
    BeginKeeps(st, a.address, f, initial);
    ScanAccountsUses(m, a.address, f, !HasActiveTracker(m, a.address), id, 0);
    var r := BeginRequireEnforcing(m, a.address, f, id);
    var after := EnforceAuth(a, f, st, env).0.manager;
    var k: nat :| ScanFound(m, r, a.address, f, id, k);
    if r.Pending? {
      var pending := st.(manager := r.manager);
      RunKeeps(a.authentication, pending, env, initial);
      PendingStays(st, pending, k, Run(a.authentication, pending, env).0);
      RunKeepsAccounts(pending, Run(a.authentication, pending, env).0);
    }
    assert AccountUsed(m, after, a.address, f, id, k);
  }

  lemma {:induction false} BeginKeeps(st: State, address: Address, f: AuthorizedFunction, initial: set<NonceKey>)
    requires Sound(st, initial) && st.manager.mode.Enforcing?
    requires st.ids != [] && Fits(st.history[st.ids[|st.ids| - 1]], f)
    ensures
      var r := BeginRequireEnforcing(st.manager, address, f, st.ids[|st.ids| - 1]);
      && !r.Continue?
      && (r.Authorized? || r.Pending? ==> Sound(st.(manager := r.manager), initial))
      && (r.Pending? ==> IsPending(st.manager, r.manager, r.index))
  {
    hide NoncesGood, Good, InvokersGood, ModeGood, HasActiveTracker, StateEvolved, AccountGood;
    ScanAccountsKeeps(st.manager, address, f, !HasActiveTracker(st.manager, address), 0, st.ids, st.history);
    ScanKeptIsSound(st, BeginRequireEnforcing(st.manager, address, f, st.ids[|st.ids| - 1]), initial);
  }

  lemma {:induction false} RunKeepsAccounts(st: State, b: State)
    requires StateEvolved(st, b) && st.manager.mode.Enforcing?
    ensures |b.manager.accounts| == |st.manager.accounts|
  {
  }

  /** The frame below the top one is one of the contract: it made the current call. */
  predicate MadeCurrentCall(stack: seq<AuthStackFrame>, contract: Address) {
    |stack| >= 2 && stack[|stack| - 2].Contract? && stack[|stack| - 2].contract == contract
  }

  /** A `require_auth` that succeeds uses exactly one node, if it is not for the contract that made the call. */
  ghost predicate Authorizes(
    m: Manager, after: Manager, address: Address, f: AuthorizedFunction, id: FrameId, authenticationIsEmpty: bool)
  {
    if MadeCurrentCall(m.callStack, address) then after == m
    else
      || (exists i :: InvokerUsed(m, after, address, f, id, i))
      || (exists i ::
            && AccountUsed(m, after, address, f, id, i)
            && (authenticationIsEmpty ==> OnlyAccountChanged(m, after, i)))
  }

  /**
   In every reachable enforcing state, a `require_auth` that succeeds for an address other than the
   contract that made the current call exhausts exactly one more node, with the required function and arguments and for
   the current frame, in exactly one tracker of that address; an account's tracker is verified then.
   When authentication makes no calls, every other tracker is unchanged.
   */
  lemma {:induction false} RequireUsesOneNode(
    m: Manager, nonces: set<NonceKey>, st: State, env: LedgerEnv, a: Action)
    requires IsStart(m) && Reachable(m, nonces, st, env) && st.manager.mode.Enforcing?
    requires a.Require? && Step(a, st, env).1
    ensures st.ids != [] && st.manager.callStack != []
    ensures
      var f := ToAuthorizedFunction(st.manager.callStack[|st.manager.callStack| - 1], a.args);
      Authorizes(st.manager, Step(a, st, env).0.manager, a.address, f, st.ids[|st.ids| - 1], a.authentication == [])
  {
    ReachedIsSound(m, nonces, st, env);
    var f, id := ToAuthorizedFunction(st.manager.callStack[|st.manager.callStack| - 1], a.args), st.ids[|st.ids| - 1];
    assert Fits(st.history[id], f);
    hide InvokerUsed, AccountUsed, EnforceAuth, Reachable;
    if !MadeCurrentCall(st.manager.callStack, a.address) {
      ScanInvokersUses(st.manager, a.address, f, id, 0);
      if CheckInvoker(st.manager, a.address, f, id).Continue? {
        EnforceUses(a, f, st, env, nonces);
      }
    }
  }

  // ---------------------------------------------------------------- what the frames of a run required

  /** A frame and a function, with its arguments, that it required authorization for. */
  type Ask = (FrameId, AuthorizedFunction)

  function Asked(acts: seq<Action>, st: State, env: LedgerEnv): set<Ask>
    decreases acts, 0
  {
    if acts == [] then {}
    else
      var r := Step(acts[0], st, env);
      AskedIn(acts[0], st, env) + if r.1 then Asked(acts[1..], r.0, env) else {}
  }

  function AskedIn(a: Action, st: State, env: LedgerEnv): set<Ask>
    decreases a, 1
  {
    match a
    case Trap => {}
    case Authorize(_) => {}
    case Invoke(c, name, body) => Asked(body, Push(st, Contract(c, name)), env)
    case Create(createArgs, body) => Asked(body, Push(st, CreateContract(createArgs)), env)
    case Require(_, address, args, authentication, _) =>
      AskedNow(st, args) +
      match EnteredAuthentication(st, address, args)
      case Some(pending) => Asked(authentication, pending, env)
      case None => {}
  }

  /** The ask of a `require_auth` by the current frame itself. */
  function AskedNow(st: State, args: seq<Val>): set<Ask> {
    var stack := st.manager.callStack;
    if stack == [] || st.ids == [] then {}
    else {(st.ids[|st.ids| - 1], ToAuthorizedFunction(stack[|stack| - 1], args))}
  }

  function AskedByMove(st: State, move: Move, env: LedgerEnv): set<Ask> {
    match move
    case Do(a) => AskedIn(a, st, env)
    case Enter(_) => {}
    case EnterAuthentication(_, args) => AskedNow(st, args)
  }

  function AskedByMoves(st: State, moves: seq<Move>, env: LedgerEnv): set<Ask>
    decreases |moves|
  {
    if moves == [] then {}
    else
      AskedByMove(st, moves[0], env) +
      match Moved(st, moves[0], env)
      case None => {}
      case Some(st') => AskedByMoves(st', moves[1..], env)
  }

  // ---------------------------------------------------------------- trees whose matches were asked for

  ghost predicate TreeAsked(root: Node, asks: set<Ask>) {
    forall p, id :: MatchedBy(root, p, id) ==> (id, At(root, p).fn) in asks
  }

  ghost predicate AccountsAsked(xs: seq<AccountTracker>, asks: set<Ask>) {
    forall i :: 0 <= i < |xs| ==> TreeAsked(xs[i].tracker.root, asks)
  }

  ghost predicate InvokersAsked(vs: seq<InvokerTracker>, asks: set<Ask>) {
    forall i :: 0 <= i < |vs| ==> TreeAsked(vs[i].tracker.root, asks)
  }

  ghost predicate ManagerAsked(m: Manager, asks: set<Ask>) {
    AccountsAsked(m.accounts, asks) && InvokersAsked(m.invokers, asks)
  }

  lemma {:induction false} AskedMono(m: Manager, asks: set<Ask>, more: set<Ask>)
    requires ManagerAsked(m, asks) && asks <= more
    ensures ManagerAsked(m, more)
  {
    forall i | 0 <= i < |m.accounts| ensures TreeAsked(m.accounts[i].tracker.root, more) {
      TreeAskedMono(m.accounts[i].tracker.root, asks, more);
    }
    forall i | 0 <= i < |m.invokers| ensures TreeAsked(m.invokers[i].tracker.root, more) {
      TreeAskedMono(m.invokers[i].tracker.root, asks, more);
    }
  }

  lemma {:induction false} TreeAskedMono(root: Node, asks: set<Ask>, more: set<Ask>)
    requires TreeAsked(root, asks) && asks <= more
    ensures TreeAsked(root, more)
  {
  }

  lemma {:induction false} UsesAsked(a: Node, b: Node, f: AuthorizedFunction, id: FrameId, asks: set<Ask>)
    requires TreeAsked(a, asks) && Uses(a, b, f, id) && (id, f) in asks
    ensures TreeAsked(b, asks)
  {
    var p :| ValidPath(a, p) && !At(a, p).isExhausted && At(a, p).fn == f && b == Exhaust(a, p, id);
    forall q, i | MatchedBy(b, q, i) ensures (i, At(b, q).fn) in asks {
      ExhaustAt(a, p, id, q);
      if q != p {
        assert MatchedBy(a, q, i);
      }
    }
  }

  lemma {:induction false} FreshAsked(root: Node, asks: set<Ask>)
    requires Fresh(root)
    ensures TreeAsked(root, asks)
  {
    forall p, id ensures !MatchedBy(root, p, id) {
      if ValidPath(root, p) {
        FreshAt(root, p);
      }
    }
  }

  lemma {:induction false} RecordAsked(t: Tracker, f: AuthorizedFunction, id: FrameId, asks: set<Ask>)
    requires TreeAsked(t.root, asks) && (id, f) in asks
    ensures Record(t, f, id).Some? ==> TreeAsked(Record(t, f, id).value.root, asks)
  {
    if Record(t, f, id).Some? {
      var p := LastAuthorized(t.root, t.stack, 0).path;
      var leaf, b := NewRecordingNode(f, id), Record(t, f, id).value.root;
      forall q, i | MatchedBy(b, q, i) ensures (i, At(b, q).fn) in asks {
        AppendAt(t.root, p, leaf, q);
        if ValidPath(t.root, q) {
          assert MatchedBy(t.root, q, i);
        }
      }
    }
  }

  // ---------------------------------------------------------------- frames

  lemma {:induction false} PushAsked(m: Manager, frame: AuthStackFrame, asks: set<Ask>)
    requires ManagerAsked(m, asks)
    ensures ManagerAsked(PushManager(m, frame), asks)
  {
    hide TreeAsked;
  }

  lemma {:induction false} DropAsked(vs: seq<InvokerTracker>, asks: set<Ask>)
    requires InvokersAsked(vs, asks)
    ensures InvokersAsked(DropOutOfScope(vs), asks)
  {
    hide TreeAsked;
    if vs != [] && IsOutOfScope(vs[|vs| - 1]) {
      DropAsked(vs[..|vs| - 1], asks);
    }
  }

  lemma {:induction false} PopAsked(m: Manager, asks: set<Ask>)
    requires ManagerAsked(m, asks)
    ensures ManagerAsked(PopManager(m), asks)
  {
    hide TreeAsked;
    DropAsked(PopInvokers(m.invokers), asks);
  }

  lemma {:induction false} AddInvokersAsked(m: Manager, contract: Address, entries: seq<Invocation>, asks: set<Ask>)
    requires ManagerAsked(m, asks)
    ensures ManagerAsked(AddInvokers(m, contract, entries), asks)
  {
    var ws := AddInvokers(m, contract, entries).invokers;
    forall i | 0 <= i < |ws| ensures TreeAsked(ws[i].tracker.root, asks) {
      if i < |m.invokers| {
        assert ws[i] == m.invokers[i];
      } else {
        FromXdrIsFresh(entries[i - |m.invokers|]);
        FreshAsked(ws[i].tracker.root, asks);
      }
    }
  }

  // ---------------------------------------------------------------- require_auth

  lemma {:induction false} CheckInvokerAsked(m: Manager, address: Address, f: AuthorizedFunction, id: FrameId, asks: set<Ask>)
    requires ManagerAsked(m, asks) && (id, f) in asks
    ensures
      var r := CheckInvoker(m, address, f, id);
      r.Authorized? ==> ManagerAsked(r.manager, asks)
  {
    hide TreeAsked, Uses;
    var r := CheckInvoker(m, address, f, id);
    if r.Authorized? && !IsDirectInvoker(m.callStack, address) {
      ScanInvokersUses(m, address, f, id, 0);
      var i: nat :| InvokerUsed(m, r.manager, address, f, id, i);
      UsesAsked(m.invokers[i].tracker.root, r.manager.invokers[i].tracker.root, f, id, asks);
    }
  }

  lemma {:induction false} BeginAsked(m: Manager, address: Address, f: AuthorizedFunction, id: FrameId, asks: set<Ask>)
    requires ManagerAsked(m, asks) && (id, f) in asks
    ensures
      var r := BeginRequireEnforcing(m, address, f, id);
      r.Authorized? || r.Pending? ==> ManagerAsked(r.manager, asks)
  {
    hide TreeAsked, Uses, HasActiveTracker;
    var r := BeginRequireEnforcing(m, address, f, id);
    if r.Authorized? || r.Pending? {
      ScanAccountsUses(m, address, f, !HasActiveTracker(m, address), id, 0);
      var k: nat :| ScanFound(m, r, address, f, id, k);
      UsesAsked(m.accounts[k].tracker.root, r.manager.accounts[k].tracker.root, f, id, asks);
    }
  }

  lemma {:induction false} RecordInAsked(
    m: Manager, i: nat, f: AuthorizedFunction, id: FrameId, nonces: set<NonceKey>, asks: set<Ask>)
    requires ManagerAsked(m, asks) && (id, f) in asks && i < |m.accounts|
    ensures
      var r := RecordIn(m, i, f, id, nonces);
      r.Recorded? ==> ManagerAsked(r.manager, asks)
  {
    RecordAsked(m.accounts[i].tracker, f, id, asks);
    hide TreeAsked, Record;
  }

  lemma {:induction false} NewRecordingAsked(f: AuthorizedFunction, id: FrameId, asks: set<Ask>)
    requires (id, f) in asks
    ensures TreeAsked(NewRecordingNode(f, id), asks)
  {
    forall p, i | MatchedBy(NewRecordingNode(f, id), p, i) ensures (i, At(NewRecordingNode(f, id), p).fn) in asks {
      NewNodeIsMatchedOnce(f, id, p, i);
    }
  }

  lemma {:induction false} RequireRecordingAsked(
    m: Manager, handle: nat, address: Address, f: AuthorizedFunction, id: FrameId, randomNonce: int,
    nonces: set<NonceKey>, env: LedgerEnv, asks: set<Ask>)
    requires m.mode.Recording? && m.callStack != [] && ManagerAsked(m, asks) && (id, f) in asks
    ensures
      var r := RequireRecording(m, handle, address, f, id, randomNonce, nonces, env);
      r.Recorded? ==> ManagerAsked(r.manager, asks)
  {
    hide TreeAsked, RecordIn, FindRecordable, HasMatchedInvocationsInStack;
    var byHandle := m.mode.trackerByHandle;
    if handle in byHandle && byHandle[handle] >= |m.accounts| {
    } else if handle in byHandle && HasMatchedInvocationsInStack(m.accounts[byHandle[handle]].tracker) {
      RecordInAsked(m, byHandle[handle], f, id, nonces, asks);
    } else {
      var m1 := m.(mode := m.mode.(trackerByHandle := byHandle - {handle}));
      match FindRecordable(m1.accounts, address, 0)
      case Some(i) => RecordInAsked(m1, i, f, id, nonces, asks);
      case None => NewRecordingAsked(f, id, asks);
    }
  }

  // ---------------------------------------------------------------- whole runs

  lemma {:induction false} RunAsked(acts: seq<Action>, st: State, env: LedgerEnv, initial: set<NonceKey>, asks: set<Ask>)
    requires Sound(st, initial) && ManagerAsked(st.manager, asks)
    ensures Run(acts, st, env).1 ==> ManagerAsked(Run(acts, st, env).0.manager, asks + Asked(acts, st, env))
    decreases acts, 0
  {
    hide Sound, ManagerAsked;
    if acts == [] {
      assert asks + {} == asks;
    } else {
      var r := Step(acts[0], st, env);
      var now := asks + AskedIn(acts[0], st, env);
      StepKeeps(acts[0], st, env, initial);
      StepAsked(acts[0], st, env, initial, asks);
      if r.1 {
        RunAsked(acts[1..], r.0, env, initial, now);
        assert now + Asked(acts[1..], r.0, env) == asks + Asked(acts, st, env);
      }
    }
  }

  lemma {:induction false} StepAsked(a: Action, st: State, env: LedgerEnv, initial: set<NonceKey>, asks: set<Ask>)
    requires Sound(st, initial) && ManagerAsked(st.manager, asks)
    ensures Step(a, st, env).1 ==> ManagerAsked(Step(a, st, env).0.manager, asks + AskedIn(a, st, env))
    decreases a, 1
  {
    hide Sound, ManagerAsked, Push, Pop;
    match a
    case Trap =>
    case Authorize(entries) =>
      var stack := st.manager.callStack;
      assert asks + {} == asks;
      if stack != [] && stack[|stack| - 1].Contract? {
        AddInvokersAsked(st.manager, stack[|stack| - 1].contract, entries, asks);
      }
    case Invoke(c, name, body) => FrameAsked(st, Contract(c, name), body, env, initial, asks);
    case Create(createArgs, body) => FrameAsked(st, CreateContract(createArgs), body, env, initial, asks);
    case Require(_, _, _, _, _) => RequireAsked(a, st, env, initial, asks);
  }

  lemma {:induction false} FrameAsked(
    st: State, frame: AuthStackFrame, body: seq<Action>, env: LedgerEnv, initial: set<NonceKey>, asks: set<Ask>)
    requires Sound(st, initial) && ManagerAsked(st.manager, asks)
    ensures
      var entry := Push(st, frame);
      var r, now := Run(body, entry, env), asks + Asked(body, entry, env);
      && (r.1 ==> ManagerAsked(Pop(r.0).manager, now))
      && (!r.1 ==> Unwind(entry, r.0).1 && ManagerAsked(Unwind(entry, r.0).0.manager, now))
    decreases body, 1
  {
    hide StateGood, NoncesGood, StateEvolved, ManagerAsked, PushManager, PopManager, Unwind;
    var entry := Push(st, frame);
    var r, now := Run(body, entry, env), asks + Asked(body, entry, env);
    PushSound(st, frame, initial);
    PushAsked(st.manager, frame, asks);
    RunKeeps(body, entry, env, initial);
    if r.1 {
      RunAsked(body, entry, env, initial, asks);
      PopAsked(r.0.manager, now);
    } else {
      UnwindIsPop(st, frame, r.0);
      PopAsked(entry.manager, asks);
      AskedMono(PopManager(entry.manager), asks, now);
    }
  }

  lemma {:induction false} RequireAsked(a: Action, st: State, env: LedgerEnv, initial: set<NonceKey>, asks: set<Ask>)
    requires a.Require? && Sound(st, initial) && ManagerAsked(st.manager, asks)
    ensures RequireAuth(a, st, env).1 ==> ManagerAsked(RequireAuth(a, st, env).0.manager, asks + AskedIn(a, st, env))
    decreases a, 0
  {
    if RequireAuth(a, st, env).1 {
      var m, id := st.manager, st.ids[|st.ids| - 1];
      var f := ToAuthorizedFunction(m.callStack[|m.callStack| - 1], a.args);
      assert Fits(st.history[id], f);
      var all := asks + AskedIn(a, st, env);
      hide StateGood, NoncesGood, ManagerAsked, EnforceAuth, RequireRecording, Fits, Asked;
      AskedMono(m, asks, all);
      CheckInvokerAsked(m, a.address, f, id, all);
      if CheckInvoker(m, a.address, f, id).Continue? {
        if m.mode.Recording? {
          RequireRecordingAsked(m, a.handle, a.address, f, id, a.randomNonce, st.nonces, env, all);
        } else {
          AskedMono(m, asks, asks + AskedNow(st, a.args));
          EnforceAsked(a, f, st, env, initial, asks + AskedNow(st, a.args));
          var pending := EnteredAuthentication(st, a.address, a.args);
          if pending.Some? {
            assert asks + AskedNow(st, a.args) + Asked(a.authentication, pending.value, env) == all;
          } else {
            assert asks + AskedNow(st, a.args) == all;
          }
        }
      }
    }
  }

  lemma {:induction false} EnforceAsked(
    a: Action, f: AuthorizedFunction, st: State, env: LedgerEnv, initial: set<NonceKey>, asks: set<Ask>)
    requires a.Require? && Sound(st, initial) && st.manager.mode.Enforcing? && ManagerAsked(st.manager, asks)
    requires st.ids != [] && Fits(st.history[st.ids[|st.ids| - 1]], f) && (st.ids[|st.ids| - 1], f) in asks
    requires EnforceAuth(a, f, st, env).1
    ensures
      var r := BeginRequireEnforcing(st.manager, a.address, f, st.ids[|st.ids| - 1]);
      var after := EnforceAuth(a, f, st, env).0.manager;
      if r.Pending? then ManagerAsked(after, asks + Asked(a.authentication, st.(manager := r.manager), env))
      else ManagerAsked(after, asks)
    decreases a.authentication, 2
  {
    var m, id := st.manager, st.ids[|st.ids| - 1];
    hide StateGood, NoncesGood, IsPending, ManagerAsked, BeginRequireEnforcing, Authenticate, Asked, Fits;
    BeginKeeps(st, a.address, f, initial);
    var r := BeginRequireEnforcing(m, a.address, f, id);
    BeginAsked(m, a.address, f, id, asks);
    if r.Pending? {
      AuthenticateAsked(st.(manager := r.manager), r.index, a.authentication, env, initial, asks);
    }
  }

  lemma {:induction false} AuthenticateAsked(
    st: State, i: nat, acts: seq<Action>, env: LedgerEnv, initial: set<NonceKey>, asks: set<Ask>)
    requires Sound(st, initial) && ManagerAsked(st.manager, asks) && Authenticate(st, i, acts, env).1
    ensures ManagerAsked(Authenticate(st, i, acts, env).0.manager, asks + Asked(acts, st, env))
    decreases acts, 1
  {
    hide Sound, ManagerAsked, EndAuthentication, ConsumeNonce, Asked;
    RunAsked(acts, st, env, initial, asks);
    EndAsked(Run(acts, st, env).0.manager, i, true, asks + Asked(acts, st, env));
  }

  lemma {:induction false} EndAsked(m: Manager, i: nat, verified: bool, asks: set<Ask>)
    requires ManagerAsked(m, asks) && i < |m.accounts|
    ensures ManagerAsked(EndAuthentication(m, i, verified), asks)
  {
    hide TreeAsked;
  }

  lemma {:induction false} MovedAsked(st: State, move: Move, env: LedgerEnv, initial: set<NonceKey>, asks: set<Ask>)
    requires Sound(st, initial) && ManagerAsked(st.manager, asks)
    ensures
      var r := Moved(st, move, env);
      r.Some? ==> ManagerAsked(r.value.manager, asks + AskedByMove(st, move, env))
  {
    hide Sound, ManagerAsked, PushManager;
    match move
    case Do(a) => StepAsked(a, st, env, initial, asks);
    case Enter(frame) =>
      PushAsked(st.manager, frame, asks);
      assert asks + {} == asks;
    case EnterAuthentication(address, args) =>
      if EnteredAuthentication(st, address, args).Some? {
        var f := ToAuthorizedFunction(st.manager.callStack[|st.manager.callStack| - 1], args);
        AskedMono(st.manager, asks, asks + AskedNow(st, args));
        BeginAsked(st.manager, address, f, st.ids[|st.ids| - 1], asks + AskedNow(st, args));
      }
  }

  lemma {:induction false} MovesAsked(st: State, moves: seq<Move>, env: LedgerEnv, initial: set<NonceKey>, asks: set<Ask>)
    requires Sound(st, initial) && ManagerAsked(st.manager, asks)
    ensures
      var r := Moves(st, moves, env);
      r.Some? ==> ManagerAsked(r.value.manager, asks + AskedByMoves(st, moves, env))
    decreases |moves|
  {
    hide Sound, ManagerAsked, Moved;
    if moves == [] {
      assert asks + {} == asks;
    } else if Moved(st, moves[0], env).Some? {
      var st', now := Moved(st, moves[0], env).value, asks + AskedByMove(st, moves[0], env);
      MovedKeepsSound(st, moves[0], env, initial);
      MovedAsked(st, moves[0], env, initial, asks);
      MovesAsked(st', moves[1..], env, initial, now);
      assert now + AskedByMoves(st', moves[1..], env) == asks + AskedByMoves(st, moves, env);
    }
  }

  lemma {:induction false} StartAsked(m: Manager)
    requires IsStart(m)
    ensures ManagerAsked(m, {})
  {
    if entries: seq<AuthEntry>, source: Address :| m == NewEnforcing(entries, source) {
      forall i | 0 <= i < |m.accounts| ensures TreeAsked(m.accounts[i].tracker.root, {}) {
        FromXdrIsFresh(entries[i].rootInvocation);
        FreshAsked(m.accounts[i].tracker.root, {});
      }
    }
  }

  /**
   In every state that a run reaches, every exhausted node of every tracker was required by the
   frame it is matched by, with its very function and arguments.
   */
  lemma {:induction false} MatchesWereRequired(
    m: Manager, nonces: set<NonceKey>, moves: seq<Move>, env: LedgerEnv, t: Tracker)
    requires IsStart(m) && Moves(Start(m, nonces), moves, env).Some?
    requires IsTracker(Moves(Start(m, nonces), moves, env).value.manager, t)
    ensures forall p :: ValidPath(t.root, p) && At(t.root, p).isExhausted ==>
      && At(t.root, p).matchedBy.Some?
      && (At(t.root, p).matchedBy.value, At(t.root, p).fn) in AskedByMoves(Start(m, nonces), moves, env)
  {
    var st := Moves(Start(m, nonces), moves, env).value;
    assert Reachable(m, nonces, st, env);
    MatchesAreInjectiveAndNested(m, nonces, st, env, t);
    ReachedIsSound(m, nonces, Start(m, nonces), env) by {
      assert Moves(Start(m, nonces), [], env) == Some(Start(m, nonces));
    }
    StartAsked(m);
    MovesAsked(Start(m, nonces), moves, env, nonces, {});
    var asks := AskedByMoves(Start(m, nonces), moves, env);
    assert {} + asks == asks;
    assert TreeAsked(t.root, asks);
    forall p | ValidPath(t.root, p) && At(t.root, p).isExhausted
      ensures At(t.root, p).matchedBy.Some? && (At(t.root, p).matchedBy.value, At(t.root, p).fn) in asks
    {
      assert MatchedBy(t.root, p, At(t.root, p).matchedBy.value);
    }
  }
}
