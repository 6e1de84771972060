/**
 What the signed entries of a transaction buy over whole runs: who may be authorized without one,
 which node is used when one is needed, and that a used entry was in time and paid with its nonce.
 */
module AuthEntries {
  import opened Prelude
  import opened InvocationTree
  import opened InvocationMatcher
  import opened AuthManager
  import opened AuthRun
  import opened AuthTheorems
  import opened AuthProvenance

  // ---------------------------------------------------------------- the caller

  /** A contract is authorized in every frame it calls itself, and nothing changes by asking. */
  lemma {:induction false} CallerIsAuthorized(
    st: State, env: LedgerEnv, frame: AuthStackFrame, a: Action, caller: Address, name: string)
    requires st.manager.callStack != [] && st.manager.callStack[|st.manager.callStack| - 1] == Contract(caller, name)
    requires a.Require? && a.address == caller
    ensures Step(a, Push(st, frame), env) == (Push(st, frame), true)
  {
    var stack := st.manager.callStack;
    assert (stack + [frame])[|stack| - 1] == stack[|stack| - 1];
  }

  /**
   In every reachable enforcing state, an address that is not the contract that makes a call is
   authorized in the called frame only by a node: of one of its invoker trackers or of one of its
   accounts, the required function and arguments, for that frame.
   */
  lemma {:induction false} OthersNeedANode(
    m: Manager, nonces: set<NonceKey>, st: State, env: LedgerEnv, frame: AuthStackFrame, a: Action)
    requires IsStart(m) && Reachable(m, nonces, st, env) && st.manager.mode.Enforcing?
    requires a.Require? && Step(a, Push(st, frame), env).1
    requires
      var stack := st.manager.callStack;
      !(stack != [] && stack[|stack| - 1].Contract? && stack[|stack| - 1].contract == a.address)
    ensures
      var f, before, after := ToAuthorizedFunction(frame, a.args), Push(st, frame).manager, Step(a, Push(st, frame), env).0.manager;
      || (exists i :: InvokerUsed(before, after, a.address, f, NewFrameId(st), i))
      || (exists i :: AccountUsed(before, after, a.address, f, NewFrameId(st), i))
  {
    EnterIsReachable(m, nonces, st, env, frame);
    var stack := st.manager.callStack;
    assert (stack + [frame])[|stack|] == frame;
    assert stack != [] ==> (stack + [frame])[|stack| - 1] == stack[|stack| - 1];
    hide Reachable, Step, InvokerUsed, AccountUsed;
    RequireUsesOneNode(m, nonces, Push(st, frame), env, a);
  }

  lemma {:induction false} EnterIsReachable(m: Manager, nonces: set<NonceKey>, st: State, env: LedgerEnv, frame: AuthStackFrame)
    requires Reachable(m, nonces, st, env)
    ensures Reachable(m, nonces, Push(st, frame), env)
  {
    var moves :| Moves(Start(m, nonces), moves, env) == Some(st);
    MovesSnoc(Start(m, nonces), moves, Enter(frame), env);
  }

  lemma {:induction false} MovesSnoc(st: State, moves: seq<Move>, move: Move, env: LedgerEnv)
    requires Moves(st, moves, env).Some?
    ensures Moves(st, moves + [move], env) == Moved(Moves(st, moves, env).value, move, env)
    decreases |moves|
  {
    hide Moved;
    if moves == [] {
      assert moves + [move] == [move] && [move][1..] == [];
    } else {
      assert (moves + [move])[0] == moves[0] && (moves + [move])[1..] == moves[1..] + [move];
      MovesSnoc(Moved(st, moves[0], env).value, moves[1..], move, env);
    }
  }

  // ---------------------------------------------------------------- which node an account may use

  /** Some tracker of the address is in the stack and has matched nothing in the current frame yet. */
  ghost predicate HasOpenTracker(m: Manager, address: Address) {
    exists j :: 0 <= j < |m.accounts| && IsOpen(m.accounts[j], address)
  }

  predicate IsOpen(a: AccountTracker, address: Address) {
    && !a.isBorrowed && a.address == address
    && RootMatch in a.tracker.stack && a.tracker.stack[|a.tracker.stack| - 1] == Unmatched
  }

  /**
   The tracker at `i` can authorize `f`: the function is that of an unexhausted child of its deepest
   match, or of its unexhausted root if no tracker of the address is open.
   */
  ghost predicate CanUse(m: Manager, address: Address, f: AuthorizedFunction, i: nat) {
    && i < |m.accounts| && !m.accounts[i].isBorrowed && m.accounts[i].address == address
    && exists s :: Extends(m.accounts[i].tracker, s, f) && (s == RootMatch ==> !HasOpenTracker(m, address))
  }

  lemma {:induction false} OpenIsActive(st: State, initial: set<NonceKey>, address: Address)
    requires Sound(st, initial) && st.ids != []
    ensures HasActiveTracker(st.manager, address) <==> HasOpenTracker(st.manager, address)
  {
    var m := st.manager;
    forall j | 0 <= j < |m.accounts|
      ensures IsActiveForCurrentFrame(m.accounts[j], address) <==> IsOpen(m.accounts[j], address)
    {
      var a := m.accounts[j];
      assert AccountGood(a, st.ids, st.history);
      ActiveIffRootOnStack(a.tracker, st.ids[..|a.tracker.stack|], st.history);
    }
    hide IsActiveForCurrentFrame, IsOpen;
  }

  lemma {:induction false} MatchesIffCanUse(
    st: State, initial: set<NonceKey>, address: Address, f: AuthorizedFunction, i: nat, id: FrameId)
    requires Sound(st, initial) && st.ids != [] && i < |st.manager.accounts|
    ensures
      var a := st.manager.accounts[i];
      CanUse(st.manager, address, f, i) <==>
      && !a.isBorrowed && a.address == address
      && Extend(a.tracker, f, !HasActiveTracker(st.manager, address), id).Matched?
  {
    OpenIsActive(st, initial, address);
    var a := st.manager.accounts[i];
    assert AccountGood(a, st.ids, st.history);
    if !a.isBorrowed {
      assert st.ids[..|st.ids|] == st.ids;
      ExtendIsMatch(a.tracker, st.ids, f, !HasActiveTracker(st.manager, address), id);
      hide Extend, HasActiveTracker, HasOpenTracker, Good, Extends, NoncesGood;
    }
  }

  /** No tracker is used by the scan from `i` on if and only if none matches. */
  lemma {:induction false} ScanDeniesIff(
    m: Manager, address: Address, f: AuthorizedFunction, allowRoot: bool, id: FrameId, i: nat)
    requires i <= |m.accounts|
    requires forall k :: 0 <= k < |m.accounts| && !m.accounts[k].isBorrowed ==>
      !Extend(m.accounts[k].tracker, f, allowRoot, id).Failed?
    ensures ScanAccounts(m, address, f, allowRoot, id, i).Denied? <==>
      forall k :: i <= k < |m.accounts| ==> !Takes(m, address, f, allowRoot, id, k)
    decreases |m.accounts| - i
  {
    hide Extend;
    if i < |m.accounts| && !Takes(m, address, f, allowRoot, id, i) {
      ScanDeniesIff(m, address, f, allowRoot, id, i + 1);
    }
  }

  /** The first tracker from `i` on that matches is the one that is used. */
  lemma {:induction false} ScanFindsFirst(
    m: Manager, address: Address, f: AuthorizedFunction, allowRoot: bool, id: FrameId, i: nat)
    requires i <= |m.accounts|
    ensures
      var r := ScanAccounts(m, address, f, allowRoot, id, i);
      r.Authorized? || r.Pending? ==>
        exists k: nat :: ScanFound(m, r, address, f, id, k) && IsFirst(m, address, f, allowRoot, id, i, k)
    decreases |m.accounts| - i
  {
    hide Extend, Uses;
    if i < |m.accounts| {
      var r, a := ScanAccounts(m, address, f, allowRoot, id, i), m.accounts[i];
      ExtendUsesOneNode(a.tracker, f, allowRoot, id);
      if Takes(m, address, f, allowRoot, id, i) {
        assert r.manager.accounts[i] == a.(tracker := r.manager.accounts[i].tracker, isBorrowed := r.Pending?);
        assert ScanFound(m, r, address, f, id, i) && IsFirst(m, address, f, allowRoot, id, i, i);
      } else if r.Authorized? || r.Pending? {
        assert r == ScanAccounts(m, address, f, allowRoot, id, i + 1);
        ScanFindsFirst(m, address, f, allowRoot, id, i + 1);
        hide ScanFound, Takes, ScanAccounts;
        var k: nat :| ScanFound(m, r, address, f, id, k) && IsFirst(m, address, f, allowRoot, id, i + 1, k);
        assert IsFirst(m, address, f, allowRoot, id, i, k);
      }
    }
  }

  ghost predicate Takes(m: Manager, address: Address, f: AuthorizedFunction, allowRoot: bool, id: FrameId, k: nat) {
    && k < |m.accounts| && !m.accounts[k].isBorrowed && m.accounts[k].address == address
    && Extend(m.accounts[k].tracker, f, allowRoot, id).Matched?
  }

  lemma {:induction false} TakesIffCanUse(
    st: State, initial: set<NonceKey>, address: Address, f: AuthorizedFunction, k: nat, id: FrameId)
    requires Sound(st, initial) && st.ids != []
    ensures CanUse(st.manager, address, f, k) <==>
      Takes(st.manager, address, f, !HasActiveTracker(st.manager, address), id, k)
    ensures CanUse(st.manager, address, f, k) ==> k < |st.manager.accounts|
  {
    if k < |st.manager.accounts| {
      MatchesIffCanUse(st, initial, address, f, k, id);
    }
  }

  ghost predicate IsFirst(m: Manager, address: Address, f: AuthorizedFunction, allowRoot: bool, id: FrameId, i: nat, k: nat) {
    && i <= k && Takes(m, address, f, allowRoot, id, k)
    && forall j :: i <= j < k ==> !Takes(m, address, f, allowRoot, id, j)
  }

  /**
   In every reachable enforcing state the accounts refuse a `require_auth` if and only if no tracker
   of the address can use a node for it; otherwise the first that can is the one that is used.
   */
  lemma {:induction false} AccountsAuthorizeIff(
    m: Manager, nonces: set<NonceKey>, st: State, env: LedgerEnv, address: Address, args: seq<Val>)
    requires IsStart(m) && Reachable(m, nonces, st, env) && st.manager.mode.Enforcing?
    requires st.manager.callStack != [] && st.ids != []
    ensures
      var id := st.ids[|st.ids| - 1];
      var f := ToAuthorizedFunction(st.manager.callStack[|st.manager.callStack| - 1], args);
      var r := BeginRequireEnforcing(st.manager, address, f, id);
      && !r.Continue?
      && (r.Denied? <==> forall k :: !CanUse(st.manager, address, f, k))
      && (!r.Denied? ==> exists k: nat ::
            && ScanFound(st.manager, r, address, f, id, k) && CanUse(st.manager, address, f, k)
            && forall j :: 0 <= j < k ==> !CanUse(st.manager, address, f, j))
  {
    hide Reachable, CanUse, Takes, ScanFound, HasActiveTracker, ScanAccounts, Extend, NoncesGood;
    ReachedIsSound(m, nonces, st, env);
    var id := st.ids[|st.ids| - 1];
    var f := ToAuthorizedFunction(st.manager.callStack[|st.manager.callStack| - 1], args);
    assert Fits(st.history[id], f);
    var allowRoot := !HasActiveTracker(st.manager, address);
    BeginKeeps(st, address, f, nonces);
    forall k: nat
      ensures CanUse(st.manager, address, f, k) <==> Takes(st.manager, address, f, allowRoot, id, k)
      ensures CanUse(st.manager, address, f, k) ==> k < |st.manager.accounts|
    {
      TakesIffCanUse(st, nonces, address, f, k, id);
    }
    NoneFails(st, nonces, f, allowRoot, id);
    hide Sound;
    ScanDeniesIff(st.manager, address, f, allowRoot, id, 0);
    ScanFindsFirst(st.manager, address, f, allowRoot, id, 0);
  }

  lemma {:induction false} NoneFails(st: State, initial: set<NonceKey>, f: AuthorizedFunction, allowRoot: bool, id: FrameId)
    requires Sound(st, initial) && st.ids != []
    ensures forall k :: 0 <= k < |st.manager.accounts| && !st.manager.accounts[k].isBorrowed ==>
      !Extend(st.manager.accounts[k].tracker, f, allowRoot, id).Failed?
  {
    forall k | 0 <= k < |st.manager.accounts| && !st.manager.accounts[k].isBorrowed
      ensures !Extend(st.manager.accounts[k].tracker, f, allowRoot, id).Failed?
    {
      assert AccountGood(st.manager.accounts[k], st.ids, st.history);
      assert st.ids[..|st.ids|] == st.ids;
      ExtendIsMatch(st.manager.accounts[k].tracker, st.ids, f, allowRoot, id);
    }
  }

  // ---------------------------------------------------------------- authorize_as_curr_contract

  lemma {:induction false} ScanAcceptsGrant(m: Manager, address: Address, f: AuthorizedFunction, id: FrameId, i: nat, k: nat)
    requires i <= k < |m.invokers|
    requires forall j :: 0 <= j < |m.invokers| ==> !Extend(m.invokers[j].tracker, f, true, id).Failed?
    requires m.invokers[k].contract == address && Extend(m.invokers[k].tracker, f, true, id).Matched?
    ensures ScanInvokers(m, address, f, id, i).Authorized?
    decreases |m.invokers| - i
  {
    hide Extend;
    if !(m.invokers[i].contract == address && Extend(m.invokers[i].tracker, f, true, id).Matched?) {
      ScanAcceptsGrant(m, address, f, id, i + 1, k);
    }
  }

  /**
   What a contract authorizes for its next call is granted there: in every reachable state, once the
   contract on top has authorized some calls and made any call, a deeper frame that makes one of them
   may require the contract's authorization for it.
   */
  lemma {:induction false} GrantedCallsAreAuthorized(
    m: Manager, nonces: set<NonceKey>, st: State, env: LedgerEnv, entries: seq<Invocation>, k: nat,
    caller: Address, name: string, frame: AuthStackFrame, callee: Address, fn: string, a: Action)
    requires IsStart(m) && Reachable(m, nonces, st, env)
    requires st.manager.callStack != [] && st.manager.callStack[|st.manager.callStack| - 1] == Contract(caller, name)
    requires k < |entries| && a.Require? && a.address == caller && entries[k].fn == ContractFn(callee, fn, a.args)
    ensures Step(Authorize(entries), st, env).1
    ensures Step(a, Push(Push(Step(Authorize(entries), st, env).0, frame), Contract(callee, fn)), env).1
  {
    var st1 := Step(Authorize(entries), st, env).0;
    var st2 := Push(st1, frame);
    var st3 := Push(st2, Contract(callee, fn));
    GrantIsPushed(st, env, entries, k, caller, name, frame, Contract(callee, fn));
    StepIsReachable(m, nonces, st, env, Authorize(entries));
    EnterIsReachable(m, nonces, st1, env, frame);
    EnterIsReachable(m, nonces, st2, env, Contract(callee, fn));
    assert st3.ids != [];
    hide Reachable, Extend, FromXdr, Push, Authorizes;
    var f, id := entries[k].fn, st3.ids[|st3.ids| - 1];
    GrantMatches(entries[k], f, id);
    forall j | 0 <= j < |st3.manager.invokers| ensures !Extend(st3.manager.invokers[j].tracker, f, true, id).Failed? {
      MatchingFailsOnlyInOwnFrame(m, nonces, st3, env, st3.manager.invokers[j].tracker, f, true, id);
    }
    ScanAcceptsGrant(st3.manager, caller, f, id, 0, |st.manager.invokers| + k);
  }

  lemma {:induction false} GrantIsPushed(
    st: State, env: LedgerEnv, entries: seq<Invocation>, k: nat, caller: Address, name: string,
    frame: AuthStackFrame, frame': AuthStackFrame)
    requires st.manager.callStack != [] && st.manager.callStack[|st.manager.callStack| - 1] == Contract(caller, name)
    requires k < |entries|
    ensures Step(Authorize(entries), st, env).1
    ensures
      var m, n := Push(Push(Step(Authorize(entries), st, env).0, frame), frame').manager, |st.manager.invokers| + k;
      && |m.callStack| >= 2 && m.callStack[|m.callStack| - 1] == frame'
      && n < |m.invokers| && m.invokers[n].contract == caller
      && m.invokers[n].tracker == PushFrame(PushFrame(NewTracker(FromXdr(entries[k]))))
      && forall j :: 0 <= j < |m.invokers| ==> m.invokers[j].tracker.stack != []
  {
    hide FromXdr;
  }

  lemma {:induction false} GrantMatches(x: Invocation, f: AuthorizedFunction, id: FrameId)
    requires x.fn == f
    ensures Extend(PushFrame(PushFrame(NewTracker(FromXdr(x)))), f, true, id).Matched?
  {
    var t := PushFrame(PushFrame(NewTracker(FromXdr(x))));
    assert t.stack == [Unmatched, Unmatched] && !t.root.isExhausted && t.root.fn == f;
    assert LastAuthorized(t.root, t.stack, 2) == NoMatch;
    assert LastAuthorized(t.root, t.stack, 1) == NoMatch;
  }

  lemma {:induction false} StepIsReachable(m: Manager, nonces: set<NonceKey>, st: State, env: LedgerEnv, a: Action)
    requires Reachable(m, nonces, st, env) && Step(a, st, env).1
    ensures Reachable(m, nonces, Step(a, st, env).0, env)
  {
    var moves :| Moves(Start(m, nonces), moves, env) == Some(st);
    MovesSnoc(Start(m, nonces), moves, Do(a), env);
  }
}
