/**
 `AuthorizationManager` in the source's own form: an object whose methods loop over its
 trackers and update them in place. Every method is proved against the function of
 AuthManager that says what it does.
 */
module ManagerObjects {
  import opened Prelude
  import opened InvocationTree
  import InvocationMatcher
  import A = AuthManager
  import AuthRun
  import opened TrackerObjects

  /** A tracker entry: its matcher is an object, updated in place. */
  datatype Account = Account(
    address: Address, matcher: InvocationTracker, isTransactionSourceAccount: bool, verified: bool,
    nonce: Option<A.Nonce>, isBorrowed: bool)
  {
    function Value(): A.AccountTracker
      reads matcher
    {
      A.AccountTracker(address, matcher.Value(), isTransactionSourceAccount, verified, nonce, isBorrowed)
    }
  }

  datatype Invoker = Invoker(contract: Address, matcher: InvocationTracker, depth: nat) {
    function Value(): A.InvokerTracker
      reads matcher
    {
      A.InvokerTracker(contract, matcher.Value(), depth)
    }
  }

  function PushedInvoker(v: A.InvokerTracker): A.InvokerTracker {
    v.(tracker := InvocationMatcher.PushFrame(v.tracker))
  }

  function PoppedInvoker(v: A.InvokerTracker): A.InvokerTracker {
    v.(tracker := InvocationMatcher.PopFrame(v.tracker))
  }

  class AuthorizationManager {
    var mode: A.Mode
    var accounts: seq<Account>
    var invokers: seq<Invoker>
    var callStack: seq<AuthStackFrame>
    ghost var Repr: set<InvocationTracker>

    /** No matcher is shared. */
    ghost predicate Valid()
      reads this`accounts, this`invokers, this`Repr
    {
      && (forall i :: 0 <= i < |accounts| ==> accounts[i].matcher in Repr)
      && (forall i :: 0 <= i < |invokers| ==> invokers[i].matcher in Repr)
      && (forall i, j :: 0 <= i < j < |accounts| ==> accounts[i].matcher != accounts[j].matcher)
      && (forall i, j :: 0 <= i < j < |invokers| ==> invokers[i].matcher != invokers[j].matcher)
      && (forall i, j :: 0 <= i < |accounts| && 0 <= j < |invokers| ==> accounts[i].matcher != invokers[j].matcher)
    }

    ghost function AccountValues(): (r: seq<A.AccountTracker>)
      requires Valid()
      reads this`accounts, this`invokers, this`Repr, Repr
      ensures |r| == |accounts| && forall i :: 0 <= i < |r| ==> r[i] == accounts[i].Value()
    {
      var xs, matchers := accounts, Repr;
      seq(|xs|, i requires 0 <= i < |xs| && xs[i].matcher in matchers reads matchers => xs[i].Value())
    }

    ghost function InvokerValues(): (r: seq<A.InvokerTracker>)
      requires Valid()
      reads this`accounts, this`invokers, this`Repr, Repr
      ensures |r| == |invokers| && forall i :: 0 <= i < |r| ==> r[i] == invokers[i].Value()
    {
      var vs, matchers := invokers, Repr;
      seq(|vs|, i requires 0 <= i < |vs| && vs[i].matcher in matchers reads matchers => vs[i].Value())
    }

    ghost function Value(): A.Manager
      requires Valid()
      reads this, Repr
    {
      A.Manager(mode, AccountValues(), InvokerValues(), callStack)
    }

    // -------------------------------------------------------------- frames

    method PushAccountFrames()
      requires Valid()
      modifies Repr
      ensures Value() == old(Value()).(accounts := A.PushAccounts(old(Value()).accounts))
    {
      for i := 0 to |accounts|
        invariant forall j :: 0 <= j < i ==> accounts[j].Value() == A.PushAccount(old(accounts[j].Value()))
        invariant forall j :: i <= j < |accounts| ==> accounts[j].Value() == old(accounts[j].Value())
        invariant forall j :: 0 <= j < |invokers| ==> invokers[j].Value() == old(invokers[j].Value())
      {
        if !accounts[i].isBorrowed {
          accounts[i].matcher.PushFrame();
        }
      }
    }

    method PushInvokerFrames()
      requires Valid()
      modifies Repr
      ensures Value() == old(Value()).(invokers := A.PushInvokers(old(Value()).invokers))
    {
      for i := 0 to |invokers|
        invariant forall j :: 0 <= j < |accounts| ==> accounts[j].Value() == old(accounts[j].Value())
        invariant forall j :: 0 <= j < i ==> invokers[j].Value() == PushedInvoker(old(invokers[j].Value()))
        invariant forall j :: i <= j < |invokers| ==> invokers[j].Value() == old(invokers[j].Value())
      {
        invokers[i].matcher.PushFrame();
      }
    }

    method PopAccountFrames()
      requires Valid()
      modifies Repr
      ensures Value() == old(Value()).(accounts := A.PopAccounts(old(Value()).accounts))
    {
      for i := 0 to |accounts|
        invariant forall j :: 0 <= j < i ==> accounts[j].Value() == A.PopAccount(old(accounts[j].Value()))
        invariant forall j :: i <= j < |accounts| ==> accounts[j].Value() == old(accounts[j].Value())
        invariant forall j :: 0 <= j < |invokers| ==> invokers[j].Value() == old(invokers[j].Value())
      {
        if !accounts[i].isBorrowed {
          accounts[i].matcher.PopFrame();
        }
      }
    }

    method PopInvokerFrames()
      requires Valid()
      modifies Repr
      ensures Value() == old(Value()).(invokers := A.PopInvokers(old(Value()).invokers))
    {
      for i := 0 to |invokers|
        invariant forall j :: 0 <= j < |accounts| ==> accounts[j].Value() == old(accounts[j].Value())
        invariant forall j :: 0 <= j < i ==> invokers[j].Value() == PoppedInvoker(old(invokers[j].Value()))
        invariant forall j :: i <= j < |invokers| ==> invokers[j].Value() == old(invokers[j].Value())
      {
        invokers[i].matcher.PopFrame();
      }
    }

    /** The loop that removes out-of-scope trackers, from the end. */
    method InvokersInScope() returns (rest: seq<Invoker>)
      requires Valid()
      ensures |rest| <= |invokers| && rest == invokers[..|rest|]
      ensures A.DropOutOfScope(InvokerValues()) == InvokerValues()[..|rest|]
    {
      ghost var values := InvokerValues();
      rest := invokers;
      assert values[..|rest|] == values;
      while rest != []
        invariant |rest| <= |invokers| && rest == invokers[..|rest|]
        invariant A.DropOutOfScope(values) == A.DropOutOfScope(values[..|rest|])
        decreases |rest|
      {
        assert values[..|rest|][|rest| - 1] == rest[|rest| - 1].Value();
        if rest[|rest| - 1].matcher.matchStack != [] {
          break;
        }
        assert values[..|rest|][..|rest| - 1] == values[..|rest| - 1];
        rest := rest[..|rest| - 1];
      }
    }

    method PopOutOfScopeInvokers()
      requires Valid()
      modifies this`invokers
      ensures Valid()
      ensures Value() == old(Value()).(invokers := A.DropOutOfScope(old(Value()).invokers))
    {
      hide A.DropOutOfScope;
      var rest := InvokersInScope();
      ghost var values := InvokerValues();
      invokers := rest;
      assert InvokerValues() == values[..|rest|];
      assert AccountValues() == old(AccountValues());
    }

    /** `push_frame` for a contract frame. */
    method PushFrame(frame: AuthStackFrame) returns (s: A.ManagerSnapshot)
      requires Valid()
      modifies this`callStack, Repr
      ensures Valid()
      ensures Value() == A.PushManager(old(Value()), frame)
      ensures s == A.SnapshotManager(Value())
    {
      PushCreateContractHostFnFrame(frame);
      s := TakeSnapshot();
    }

    /** `push_create_contract_host_fn_frame`: no snapshot is taken. */
    method PushCreateContractHostFnFrame(frame: AuthStackFrame)
      requires Valid()
      modifies this`callStack, Repr
      ensures Valid()
      ensures Value() == A.PushManager(old(Value()), frame)
    {
      callStack := callStack + [frame];
      PushAccountFrames();
      PushInvokerFrames();
    }

    /** `pop_frame` without a snapshot. */
    method PopFrame()
      requires Valid()
      modifies this`callStack, this`invokers, Repr
      ensures Valid()
      ensures Value() == A.PopManager(old(Value()))
    {
      if callStack == [] {
        return;
      }
      callStack := callStack[..|callStack| - 1];
      PopAccountFrames();
      PopInvokerFrames();
      PopOutOfScopeInvokers();
    }

    // -------------------------------------------------------------- snapshots

    method TakeSnapshot() returns (s: A.ManagerSnapshot)
      requires Valid()
      ensures s == A.SnapshotManager(Value())
    {
      var roots := [];
      for i := 0 to |invokers|
        invariant roots == A.SnapshotInvokers(InvokerValues())[..i]
      {
        var root := invokers[i].matcher.TakeSnapshot();
        roots := roots + [root];
      }
      var snapshots := [];
      var copies := [];
      for i := 0 to |accounts|
        invariant snapshots == A.SnapshotAccounts(AccountValues())[..i]
        invariant copies == AccountValues()[..i]
      {
        snapshots := snapshots + [A.SnapshotAccount(accounts[i].Value())];
        copies := copies + [accounts[i].Value()];
      }
      assert roots == A.SnapshotInvokers(InvokerValues());
      assert snapshots == A.SnapshotAccounts(AccountValues()) && copies == AccountValues();
      match mode {
        case Enforcing => s := A.ManagerSnapshot(A.EnforcingSnapshot(snapshots), roots);
        case Recording(byHandle, _) => s := A.ManagerSnapshot(A.RecordingSnapshot(copies, byHandle), roots);
      }
    }

    /** The loop over account trackers in `rollback`, in enforcing mode. */
    method RollbackAccounts(snapshots: seq<Option<A.AccountSnapshot>>) returns (ok: bool)
      requires Valid() && |accounts| == |snapshots|
      modifies this`accounts, Repr
      ensures Valid()
      ensures match A.RollbackAccounts(old(AccountValues()), snapshots)
              case Some(values) => ok && AccountValues() == values
              case None => !ok
      ensures InvokerValues() == old(InvokerValues())
    {
      hide InvocationMatcher.RollbackTracker, A.RollbackAccounts;
      ghost var before := AccountValues();
      var restored: seq<Account> := [];
      for i := 0 to |accounts|
        invariant |restored| == i
        invariant forall j :: 0 <= j < i ==> restored[j].matcher == accounts[j].matcher
        invariant forall j :: 0 <= j < i ==> A.RollbackAccount(before[j], snapshots[j]) == Some(restored[j].Value())
        invariant forall j :: i <= j < |accounts| ==> accounts[j].matcher.Value() == before[j].tracker
        invariant forall j :: 0 <= j < |invokers| ==> invokers[j].Value() == old(invokers[j].Value())
        modifies Repr
      {
        match snapshots[i] {
          case None =>
            restored := restored + [accounts[i]];
          case Some(snapshot) =>
            if accounts[i].isBorrowed {
              RollbackAccountsFails(before, snapshots, i);
              return false;
            }
            var done := accounts[i].matcher.RollbackTo(snapshot.root);
            if !done {
              RollbackAccountsFails(before, snapshots, i);
              return false;
            }
            restored := restored + [accounts[i].(verified := snapshot.verified)];
        }
      }
      accounts := restored;
      AuthRun.RollbackAccountsPointwise(before, snapshots, AccountValues());
      return true;
    }

    /** The truncation and the loop over invoker trackers in `rollback`. */
    method RollbackInvokers(roots: seq<NodeSnapshot>) returns (ok: bool)
      requires Valid() && |roots| <= |invokers|
      modifies this`invokers, Repr
      ensures Valid()
      ensures match A.RollbackInvokers(old(InvokerValues())[..|roots|], roots)
              case Some(values) => ok && InvokerValues() == values
              case None => !ok
      ensures AccountValues() == old(AccountValues())
    {
      hide InvocationMatcher.RollbackTracker, A.RollbackInvokers;
      ghost var before := InvokerValues()[..|roots|];
      invokers := invokers[..|roots|];
      for i := 0 to |invokers|
        invariant forall j :: 0 <= j < i ==> A.RollbackInvoker(before[j], roots[j]) == Some(invokers[j].Value())
        invariant forall j :: i <= j < |invokers| ==> invokers[j].Value() == before[j]
        invariant forall j :: 0 <= j < |accounts| ==> accounts[j].Value() == old(accounts[j].Value())
        modifies Repr
      {
        var done := invokers[i].matcher.RollbackTo(roots[i]);
        if !done {
          RollbackInvokersFails(before, roots, i);
          return false;
        }
      }
      AuthRun.RollbackInvokersPointwise(before, roots, InvokerValues());
      return true;
    }

    /** In recording mode the trackers are replaced by the copies in the snapshot. */
    method RestoreCopies(copies: seq<A.AccountTracker>)
      requires Valid()
      modifies this`accounts, this`Repr
      ensures Valid() && fresh(Repr - old(Repr)) && old(Repr) <= Repr
      ensures AccountValues() == copies
      ensures InvokerValues() == old(InvokerValues())
    {
      var restored: seq<Account> := [];
      ghost var created: set<InvocationTracker> := {};
      for i := 0 to |copies|
        invariant |restored| == i && fresh(created)
        invariant forall j :: 0 <= j < i ==> restored[j].matcher in created && restored[j].Value() == copies[j]
        invariant forall j, k :: 0 <= j < k < i ==> restored[j].matcher != restored[k].matcher
        modifies {}
      {
        var c := copies[i];
        var matcher := new InvocationTracker(c.tracker);
        restored := restored + [Account(c.address, matcher, c.isTransactionSourceAccount, c.verified, c.nonce, c.isBorrowed)];
        created := created + {matcher};
      }
      assert forall j :: 0 <= j < |invokers| ==> invokers[j].matcher !in created;
      assert forall j :: 0 <= j < |invokers| ==> invokers[j].Value() == old(invokers[j].Value());
      accounts := restored;
      Repr := Repr + created;
    }

    /** `AuthorizationManager::rollback`. */
    method RollbackTo(s: A.ManagerSnapshot) returns (ok: bool)
      requires Valid()
      modifies this, Repr
      ensures Valid() && fresh(Repr - old(Repr))
      ensures match A.RollbackManager(old(Value()), s)
              case Some(m) => ok && Value() == m
              case None => !ok
    {
      match s.accounts {
        case EnforcingSnapshot(snapshots) =>
          if |accounts| != |snapshots| {
            return false;
          }
          ok := RollbackAccounts(snapshots);
          if !ok {
            return;
          }
        case RecordingSnapshot(copies, byHandle) =>
          RestoreCopies(copies);
          if mode.Recording? {
            mode := mode.(trackerByHandle := byHandle);
          }
      }
      if |invokers| < |s.invokerRoots| {
        return false;
      }
      ok := RollbackInvokers(s.invokerRoots);
    }

    /** `pop_frame` with a snapshot. */
    method RollbackAndPopFrame(s: A.ManagerSnapshot) returns (ok: bool)
      requires Valid()
      modifies this, Repr
      ensures Valid() && fresh(Repr - old(Repr))
      ensures match A.RollbackAndPop(old(Value()), s)
              case Some(m) => ok && Value() == m
              case None => !ok
    {
      ok := RollbackTo(s);
      if ok {
        PopFrame();
      }
    }

    // -------------------------------------------------------------- require_auth

    /** `maybe_check_invoker_contract_auth`: `Some(b)` is `Ok(b)`, `None` an error. */
    method MaybeCheckInvokerContractAuth(address: Address, f: AuthorizedFunction, id: FrameId) returns (r: Option<bool>)
      requires Valid()
      modifies Repr
      ensures match A.CheckInvoker(old(Value()), address, f, id)
              case Authorized(m) => r == Some(true) && Value() == m
              case Denied(m) => r == None && Value() == m
              case Pending(_, _) => false
              case Continue => r == Some(false) && Value() == old(Value())
    {
      ghost var m := Value();
      if |callStack| < 2 {
        return Some(false);
      }
      if callStack[|callStack| - 2].Contract? && callStack[|callStack| - 2].contract == address {
        return Some(true);
      }
      for i := 0 to |invokers|
        invariant Value() == m
        invariant A.ScanInvokers(m, address, f, id, 0) == A.ScanInvokers(m, address, f, id, i)
      {
        if invokers[i].contract == address {
          var matched := invokers[i].matcher.MaybeExtendInvocationMatch(f, true, id);
          ghost var v := m.invokers[i].(tracker := invokers[i].matcher.Value());
          assert InvokerValues() == m.invokers[i := v];
          assert AccountValues() == m.accounts;
          if matched != Some(false) {
            return matched;
          }
          assert InvokerValues() == m.invokers;
        }
      }
      return Some(false);
    }

    /** The first loop of `require_auth_enforcing`. */
    method HasActiveTracker(address: Address) returns (b: bool)
      requires Valid()
      ensures b == A.HasActiveTracker(Value(), address)
    {
      for i := 0 to |accounts|
        invariant forall j :: 0 <= j < i ==> !A.IsActiveForCurrentFrame(AccountValues()[j], address)
      {
        if A.IsActiveForCurrentFrame(accounts[i].Value(), address) {
          assert A.IsActiveForCurrentFrame(AccountValues()[i], address);
          return true;
        }
      }
      return false;
    }

    /** Tries to match with the tracker at `i`, as `maybe_authorize_invocation` begins. */
    method ExtendAccount(i: nat, f: AuthorizedFunction, allowMatchingRoot: bool, id: FrameId) returns (r: Option<bool>)
      requires Valid() && i < |accounts|
      modifies Repr
      ensures
        var m, a := old(Value()), old(accounts[i].Value());
        match InvocationMatcher.Extend(a.tracker, f, allowMatchingRoot, id)
        case Matched(t) => r == Some(true) && Value() == m.(accounts := m.accounts[i := a.(tracker := t)])
        case NotMatched => r == Some(false) && Value() == m
        case Failed(t) => r == None && Value() == m.(accounts := m.accounts[i := a.(tracker := t)])
    {
      hide InvocationMatcher.Extend;
      ghost var m := Value();
      r := accounts[i].matcher.MaybeExtendInvocationMatch(f, allowMatchingRoot, id);
      assert AccountValues() == m.accounts[i := m.accounts[i].(tracker := accounts[i].matcher.Value())];
      assert InvokerValues() == m.invokers;
      assert r == Some(false) ==> AccountValues() == m.accounts;
    }

    method Borrow(i: nat)
      requires Valid() && i < |accounts|
      modifies this`accounts
      ensures Valid()
      ensures
        var m := old(Value());
        Value() == m.(accounts := m.accounts[i := m.accounts[i].(isBorrowed := true)])
    {
      ghost var m := Value();
      accounts := accounts[i := accounts[i].(isBorrowed := true)];
      assert AccountValues() == m.accounts[i := m.accounts[i].(isBorrowed := true)];
      assert InvokerValues() == m.invokers;
    }

    /** The second loop of `require_auth_enforcing`: the first tracker that matches or fails. */
    method ScanAccounts(address: Address, f: AuthorizedFunction, allowMatchingRoot: bool, id: FrameId)
      returns (matched: Option<bool>, i: nat)
      requires Valid()
      modifies Repr
      ensures matched == Some(true) ==> i < |accounts|
      ensures match A.ScanAccounts(old(Value()), address, f, allowMatchingRoot, id, 0)
              case Authorized(m) => matched == Some(true) && accounts[i].verified && Value() == m
              case Denied(m) => matched != Some(true) && Value() == m
              case Pending(m, k) =>
                && matched == Some(true) && i == k && !accounts[i].verified
                && m == Value().(accounts := Value().accounts[i := Value().accounts[i].(isBorrowed := true)])
              case Continue => false
    {
      hide InvocationMatcher.Extend;
      ghost var m := Value();
      matched, i := Some(false), 0;
      while i < |accounts|
        invariant i <= |accounts| && matched == Some(false) && Value() == m
        invariant A.ScanAccounts(m, address, f, allowMatchingRoot, id, 0) == A.ScanAccounts(m, address, f, allowMatchingRoot, id, i)
      {
        if !accounts[i].isBorrowed && accounts[i].address == address {
          matched := ExtendAccount(i, f, allowMatchingRoot, id);
          if matched != Some(false) {
            return;
          }
        }
        i := i + 1;
      }
    }

    /**
     `require_auth_enforcing` up to the authentication of the matched tracker: authorized,
     denied, or the index of the tracker to authenticate.
     */
    method BeginRequireAuthEnforcing(address: Address, f: AuthorizedFunction, id: FrameId)
      returns (authorized: bool, pending: Option<nat>)
      requires Valid()
      modifies this`accounts, Repr
      ensures Valid()
      ensures match A.BeginRequireEnforcing(old(Value()), address, f, id)
              case Authorized(m) => authorized && pending == None && Value() == m
              case Denied(m) => !authorized && pending == None && Value() == m
              case Pending(m, i) => !authorized && pending == Some(i) && Value() == m
              case Continue => false
    {
      hide A.ScanAccounts, A.HasActiveTracker;
      var hasActive := HasActiveTracker(address);
      var matched, i := ScanAccounts(address, f, !hasActive, id);
      if matched != Some(true) {
        return false, None;
      }
      if accounts[i].verified {
        return true, None;
      }
      Borrow(i);
      return false, Some(i);
    }

    /** The end of `maybe_authorize_invocation`, once authentication is over. */
    method EndAuthentication(i: nat, verified: bool)
      requires Valid() && i < |accounts|
      modifies this`accounts
      ensures Valid()
      ensures Value() == A.EndAuthentication(old(Value()), i, verified)
    {
      ghost var m := Value();
      accounts := accounts[i := accounts[i].(isBorrowed := false, verified := verified)];
      assert AccountValues() == m.accounts[i := m.accounts[i].(isBorrowed := false, verified := verified)];
      assert InvokerValues() == m.invokers;
    }

    /** The loop of `add_invoker_contract_auth_with_curr_contract_as_invoker`. */
    method NewInvokers(contract: Address, entries: seq<A.Invocation>)
      returns (added: seq<Invoker>, ghost created: set<InvocationTracker>)
      ensures |added| == |entries| && fresh(created)
      ensures forall j :: 0 <= j < |added| ==> added[j].matcher in created
      ensures forall j :: 0 <= j < |added| ==>
        added[j].Value() == A.InvokerTracker(contract, InvocationMatcher.NewTracker(A.FromXdr(entries[j])), |callStack|)
      ensures forall j, k :: 0 <= j < k < |added| ==> added[j].matcher != added[k].matcher
    {
      added, created := [], {};
      for i := 0 to |entries|
        invariant |added| == i && fresh(created)
        invariant forall j :: 0 <= j < i ==> added[j].matcher in created
        invariant forall j :: 0 <= j < i ==>
          added[j].Value() == A.InvokerTracker(contract, InvocationMatcher.NewTracker(A.FromXdr(entries[j])), |callStack|)
        invariant forall j, k :: 0 <= j < k < i ==> added[j].matcher != added[k].matcher
      {
        var matcher := new InvocationTracker(InvocationMatcher.NewTracker(A.FromXdr(entries[i])));
        added := added + [Invoker(contract, matcher, |callStack|)];
        created := created + {matcher};
      }
    }

    /** `add_invoker_contract_auth_with_curr_contract_as_invoker`. */
    method AddInvokerContractAuth(contract: Address, entries: seq<A.Invocation>)
      requires Valid()
      modifies this`invokers, this`Repr
      ensures Valid() && fresh(Repr - old(Repr)) && old(Repr) <= Repr
      ensures Value() == A.AddInvokers(old(Value()), contract, entries)
    {
      var added, created := NewInvokers(contract, entries);
      assert forall j :: 0 <= j < |invokers| ==> invokers[j].matcher !in created;
      assert forall j :: 0 <= j < |accounts| ==> accounts[j].matcher !in created;
      invokers := invokers + added;
      Repr := Repr + created;
      assert InvokerValues() == A.AddInvokers(old(Value()), contract, entries).invokers;
      assert AccountValues() == old(AccountValues());
    }

    // -------------------------------------------------------------- recording

    /** The scan of `require_auth_recording` for a tracker to extend. */
    method FindRecordable(address: Address) returns (r: Option<nat>)
      requires Valid()
      ensures r == A.FindRecordable(AccountValues(), address, 0)
    {
      ghost var values := AccountValues();
      for i := 0 to |accounts|
        invariant A.FindRecordable(values, address, 0) == A.FindRecordable(values, address, i)
      {
        var a := accounts[i].Value();
        if
          && a.address == address
          && InvocationMatcher.HasMatchedInvocationsInStack(a.tracker)
          && !InvocationMatcher.CurrentFrameIsAlreadyMatched(a.tracker)
        {
          return Some(i);
        }
      }
      return None;
    }

    method RecordIn(i: nat, f: AuthorizedFunction, id: FrameId, ghost nonces: set<A.NonceKey>) returns (ok: bool)
      requires Valid() && i < |accounts|
      modifies Repr
      ensures match A.RecordIn(old(Value()), i, f, id, nonces)
              case Recorded(m, n) => ok && Value() == m && n == nonces
              case RecordFailed(m) => !ok && Value() == m
    {
      hide InvocationMatcher.Record;
      ghost var m := Value();
      ok := accounts[i].matcher.RecordInvocation(f, id);
      assert AccountValues() == m.accounts[i := m.accounts[i].(tracker := accounts[i].matcher.Value())];
      assert InvokerValues() == m.invokers;
      assert !ok ==> AccountValues() == m.accounts;
    }

    method AddRecordingAccount(a: A.AccountTracker)
      requires Valid()
      modifies this`accounts, this`Repr
      ensures Valid() && fresh(Repr - old(Repr)) && old(Repr) <= Repr
      ensures Value() == old(Value()).(accounts := old(Value()).accounts + [a])
    {
      ghost var m := Value();
      var matcher := new InvocationTracker(a.tracker);
      accounts := accounts + [Account(a.address, matcher, a.isTransactionSourceAccount, a.verified, a.nonce, a.isBorrowed)];
      Repr := Repr + {matcher};
      assert AccountValues() == m.accounts + [a];
      assert InvokerValues() == m.invokers;
    }

    /** `require_auth_recording`; the nonces in the ledger are passed in and out. */
    method RequireAuthRecording(
      handle: nat, address: Address, f: AuthorizedFunction, id: FrameId, randomNonce: int, nonces: set<A.NonceKey>,
      env: A.LedgerEnv)
      returns (ok: bool, nonces': set<A.NonceKey>)
      requires Valid() && mode.Recording? && callStack != []
      modifies this, Repr
      ensures Valid() && fresh(Repr - old(Repr))
      ensures match A.RequireRecording(old(Value()), handle, address, f, id, randomNonce, nonces, env)
              case Recorded(m, n) => ok && Value() == m && nonces' == n
              case RecordFailed(m) => !ok && Value() == m
    {
      hide A.RecordIn, A.RecordElsewhere, InvocationMatcher.HasMatchedInvocationsInStack;
      nonces' := nonces;
      if handle in mode.trackerByHandle {
        var i := mode.trackerByHandle[handle];
        if i >= |accounts| {
          return false, nonces;
        }
        if InvocationMatcher.HasMatchedInvocationsInStack(accounts[i].matcher.Value()) {
          ok := RecordIn(i, f, id, nonces);
          return;
        }
      }
      mode := mode.(trackerByHandle := mode.trackerByHandle - {handle});
      ok, nonces' := RecordElsewhere(handle, address, f, id, randomNonce, nonces, env);
    }

    /** The rest of `require_auth_recording`, when the handle leads to no tracker in the stack. */
    method RecordElsewhere(
      handle: nat, address: Address, f: AuthorizedFunction, id: FrameId, randomNonce: int, nonces: set<A.NonceKey>,
      env: A.LedgerEnv)
      returns (ok: bool, nonces': set<A.NonceKey>)
      requires Valid() && mode.Recording? && callStack != []
      modifies this`accounts, this`mode, this`Repr, Repr
      ensures Valid() && fresh(Repr - old(Repr))
      ensures match A.RecordElsewhere(old(Value()), handle, address, f, id, randomNonce, nonces, env)
              case Recorded(m, n) => ok && Value() == m && nonces' == n
              case RecordFailed(m) => !ok && Value() == m
    {
      hide A.RecordIn, A.FindRecordable;
      nonces' := nonces;
      var existing := FindRecordable(address);
      if existing.Some? {
        ok := RecordIn(existing.value, f, id, nonces);
        return;
      }
      if mode.disableNonRootAuth && |callStack| != 1 {
        return false, nonces;
      }
      var a := A.NewRecordingAccount(address, f, |callStack|, id, randomNonce, env);
      if !a.isTransactionSourceAccount {
        if (address, randomNonce) in nonces {
          return false, nonces;
        }
        nonces' := nonces + {(address, randomNonce)};
      }
      AddRecordingAccount(a);
      mode := mode.(trackerByHandle := mode.trackerByHandle[handle := |accounts| - 1]);
      return true, nonces';
    }
  }

  lemma {:induction false} RollbackAccountsFails(
    xs: seq<A.AccountTracker>, ss: seq<Option<A.AccountSnapshot>>, i: nat)
    requires |xs| == |ss| && i < |xs| && A.RollbackAccount(xs[i], ss[i]).None?
    ensures A.RollbackAccounts(xs, ss).None?
    decreases i
  {
    if i > 0 {
      RollbackAccountsFails(xs[1..], ss[1..], i - 1);
    }
  }

  lemma {:induction false} RollbackInvokersFails(xs: seq<A.InvokerTracker>, ss: seq<NodeSnapshot>, i: nat)
    requires |xs| == |ss| && i < |xs| && A.RollbackInvoker(xs[i], ss[i]).None?
    ensures A.RollbackInvokers(xs, ss).None?
    decreases i
  {
    if i > 0 {
      RollbackInvokersFails(xs[1..], ss[1..], i - 1);
    }
  }
}
