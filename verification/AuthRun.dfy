/**
 Whole runs of the authorization manager: contracts call contracts, require
 authorization, authorize sub-calls, and fail.

 A run is a tree of actions. A contract frame whose body fails is rolled back and
 popped, together with the nonces it consumed, and the caller goes on; a caller that
 passes the failure on does so with `Trap`. A create-contract frame has no snapshot of
 its own: its failure pops the frame and dooms the enclosing one.
 */
module AuthRun {
  import opened Prelude
  import opened InvocationTree
  import opened InvocationMatcher
  import opened AuthManager

  datatype Action =
    | Require(handle: nat, address: Address, args: seq<Val>, authentication: seq<Action>, randomNonce: int)
    | Authorize(entries: seq<Invocation>)
    | Invoke(contract: Address, name: string, body: seq<Action>)
    | Create(createArgs: seq<Val>, body: seq<Action>)
    | Trap

  /** `ids`, `history` and `clock` name the frames of the run; no decision reads them. */
  datatype State = State(
    manager: Manager, nonces: set<NonceKey>, ids: seq<FrameId>, history: map<FrameId, AuthStackFrame>, clock: nat)

  function NewFrameId(st: State): FrameId {
    (if st.ids == [] then [] else st.ids[|st.ids| - 1]) + [st.clock]
  }

  function Push(st: State, frame: AuthStackFrame): State {
    State(PushManager(st.manager, frame), st.nonces, st.ids + [NewFrameId(st)],
          st.history[NewFrameId(st) := frame], st.clock + 1)
  }

  function Pop(st: State): State {
    st.(manager := PopManager(st.manager), ids := if st.ids == [] then [] else st.ids[..|st.ids| - 1])
  }

  /** The end of a failed frame: the rollback point of `entry` is restored and the frame popped. */
  function Unwind(entry: State, st: State): (State, bool) {
    match RollbackAndPop(st.manager, SnapshotManager(entry.manager))
    case None => (st, false)
    case Some(m) => (Pop(st).(manager := m, nonces := entry.nonces), true)
  }

  /** Runs a body; the second result says whether it succeeded. */
  function Run(acts: seq<Action>, st: State, env: LedgerEnv): (State, bool)
    decreases acts, 0
  {
    if acts == [] then (st, true)
    else
      var r := Step(acts[0], st, env);
      if r.1 then Run(acts[1..], r.0, env) else r
  }

  function Step(a: Action, st: State, env: LedgerEnv): (State, bool)
    decreases a, 1
  {
    match a
    case Trap => (st, false)
    case Authorize(entries) =>
      var stack := st.manager.callStack;
      if stack != [] && stack[|stack| - 1].Contract? then
        (st.(manager := AddInvokers(st.manager, stack[|stack| - 1].contract, entries)), true)
      else (st, false)
    case Invoke(c, name, body) =>
      var entry := Push(st, Contract(c, name));
      var r := Run(body, entry, env);
      if r.1 then (Pop(r.0), true) else Unwind(entry, r.0)
    case Create(createArgs, body) =>
      var r := Run(body, Push(st, CreateContract(createArgs)), env);
      (Pop(r.0), r.1)
    case Require(_, _, _, _, _) => RequireAuth(a, st, env)
  }

  /** `require_auth`: the invoker contracts are asked first, then the accounts. */
  function RequireAuth(a: Action, st: State, env: LedgerEnv): (State, bool)
    requires a.Require?
    decreases a, 0
  {
    if st.manager.callStack == [] || st.ids == [] then (st, false)
    else
      var f := ToAuthorizedFunction(st.manager.callStack[|st.manager.callStack| - 1], a.args);
      match CheckInvoker(st.manager, a.address, f, st.ids[|st.ids| - 1])
      case Authorized(m) => (st.(manager := m), true)
      case Denied(m) => (st.(manager := m), false)
      case Pending(_, _) => (st, false)
      case Continue =>
        if st.manager.mode.Recording? then RecordAuth(a, f, st, env) else EnforceAuth(a, f, st, env)
  }

  function RecordAuth(a: Action, f: AuthorizedFunction, st: State, env: LedgerEnv): (State, bool)
    requires a.Require? && st.ids != [] && st.manager.callStack != [] && st.manager.mode.Recording?
  {
    match RequireRecording(st.manager, a.handle, a.address, f, st.ids[|st.ids| - 1], a.randomNonce, st.nonces, env)
    case RecordFailed(m) => (st.(manager := m), false)
    case Recorded(m, nonces) => (st.(manager := m, nonces := nonces), true)
  }

  function EnforceAuth(a: Action, f: AuthorizedFunction, st: State, env: LedgerEnv): (State, bool)
    requires a.Require? && st.ids != []
    decreases a.authentication, 2
  {
    match BeginRequireEnforcing(st.manager, a.address, f, st.ids[|st.ids| - 1])
    case Continue => (st, false)
    case Authorized(m) => (st.(manager := m), true)
    case Denied(m) => (st.(manager := m), false)
    case Pending(m, i) => Authenticate(st.(manager := m), i, a.authentication, env)
  }

  /** Authentication runs with the tracker borrowed, then the nonce is consumed. */
  function Authenticate(st: State, i: nat, acts: seq<Action>, env: LedgerEnv): (State, bool)
    decreases acts, 1
  {
    var r := Run(acts, st, env);
    if i >= |r.0.manager.accounts| then (r.0, false)
    else
      match ConsumeNonce(r.0.manager.accounts[i], r.0.nonces, env)
      case Some(nonces) =>
        if r.1 then (r.0.(manager := EndAuthentication(r.0.manager, i, true), nonces := nonces), true)
        else (r.0.(manager := EndAuthentication(r.0.manager, i, false)), false)
      case None => (r.0.(manager := EndAuthentication(r.0.manager, i, false)), false)
  }

  // ---------------------------------------------------------------- the invariant

  ghost predicate AccountGood(a: AccountTracker, ids: seq<FrameId>, history: map<FrameId, AuthStackFrame>) {
    && |a.tracker.stack| <= |ids|
    && (!a.isBorrowed ==> |a.tracker.stack| == |ids|)
    && Good(a.tracker, ids[..|a.tracker.stack|], history)
    && (a.verified <==> !a.isBorrowed && a.tracker.root.isExhausted)
    && (a.isBorrowed ==> a.tracker.root.isExhausted)
  }

  ghost predicate AccountsGood(xs: seq<AccountTracker>, ids: seq<FrameId>, history: map<FrameId, AuthStackFrame>) {
    forall i :: 0 <= i < |xs| ==> AccountGood(xs[i], ids, history)
  }

  /** An invoker tracker's stack has one entry per frame above the one that created it. */
  ghost predicate InvokerGood(v: InvokerTracker, ids: seq<FrameId>, history: map<FrameId, AuthStackFrame>) {
    && v.depth <= |ids|
    && |v.tracker.stack| == |ids| - v.depth
    && Good(v.tracker, ids[v.depth..], history)
  }

  ghost predicate SortedByDepth(vs: seq<InvokerTracker>) {
    forall i, j :: 0 <= i < j < |vs| ==> vs[i].depth <= vs[j].depth
  }

  ghost predicate InvokersGood(vs: seq<InvokerTracker>, ids: seq<FrameId>, history: map<FrameId, AuthStackFrame>) {
    && SortedByDepth(vs)
    && forall i :: 0 <= i < |vs| ==> InvokerGood(vs[i], ids, history)
  }

  ghost predicate FramesGood(st: State) {
    && |st.ids| == |st.manager.callStack|
    && Chain(st.ids)
    && (forall i :: 0 <= i < |st.ids| ==> st.ids[i] in st.history && st.history[st.ids[i]] == st.manager.callStack[i])
    && (forall id :: id in st.history ==> id != [] && id[|id| - 1] < st.clock)
  }

  ghost predicate ModeGood(m: Manager) {
    m.mode.Recording? ==>
      && (forall i :: 0 <= i < |m.accounts| ==> !m.accounts[i].isBorrowed)
      && forall h :: h in m.mode.trackerByHandle ==> m.mode.trackerByHandle[h] < |m.accounts|
  }

  ghost predicate StateGood(st: State) {
    && FramesGood(st)
    && ModeGood(st.manager)
    && AccountsGood(st.manager.accounts, st.ids, st.history)
    && InvokersGood(st.manager.invokers, st.ids, st.history)
  }

  // ---------------------------------------------------------------- frames: push

  lemma {:induction false} NewFrameIdIsFresh(st: State)
    requires FramesGood(st)
    ensures NewFrameId(st) !in st.history
    ensures forall i :: 0 <= i < |st.ids| ==> StrictPrefix(st.ids[i], NewFrameId(st))
  {
    forall i | 0 <= i < |st.ids| ensures StrictPrefix(st.ids[i], NewFrameId(st)) {
      var last := st.ids[|st.ids| - 1];
      if i < |st.ids| - 1 {
        assert StrictPrefix(st.ids[i], last);
        assert NewFrameId(st)[..|st.ids[i]|] == last[..|st.ids[i]|];
      }
    }
  }

  lemma {:induction false} PushFramesGood(st: State, frame: AuthStackFrame)
    requires FramesGood(st)
    ensures FramesGood(Push(st, frame))
  {
    NewFrameIdIsFresh(st);
  }

  lemma {:induction false} PushAccountGood(st: State, frame: AuthStackFrame, a: AccountTracker)
    requires FramesGood(st) && AccountGood(a, st.ids, st.history)
    ensures AccountGood(PushAccount(a), Push(st, frame).ids, Push(st, frame).history)
  {
    NewFrameIdIsFresh(st);
    var id, n := NewFrameId(st), |a.tracker.stack|;
    var ids := Push(st, frame).ids;
    if a.isBorrowed {
      assert ids[..n] == st.ids[..n];
      HistoryGrows(a.tracker, st.ids[..n], st.history, id, frame);
    } else {
      assert st.ids[..n] == st.ids && ids[..n + 1] == st.ids + [id];
      PushKeepsGood(a.tracker, st.ids, st.history, id, frame);
    }
  }

  lemma {:induction false} PushInvokerGood(st: State, frame: AuthStackFrame, v: InvokerTracker)
    requires FramesGood(st) && InvokerGood(v, st.ids, st.history)
    ensures InvokerGood(v.(tracker := PushFrame(v.tracker)), Push(st, frame).ids, Push(st, frame).history)
  {
    NewFrameIdIsFresh(st);
    var id := NewFrameId(st);
    assert Push(st, frame).ids[v.depth..] == st.ids[v.depth..] + [id];
    PushKeepsGood(v.tracker, st.ids[v.depth..], st.history, id, frame);
  }

  lemma {:induction false} PushGood(st: State, frame: AuthStackFrame)
    requires StateGood(st)
    ensures StateGood(Push(st, frame))
  {
    var m, m' := st.manager, Push(st, frame).manager;
    PushFramesGood(st, frame);
    forall i | 0 <= i < |m'.accounts| ensures AccountGood(m'.accounts[i], Push(st, frame).ids, Push(st, frame).history) {
      PushAccountGood(st, frame, m.accounts[i]);
    }
    forall i | 0 <= i < |m'.invokers| ensures InvokerGood(m'.invokers[i], Push(st, frame).ids, Push(st, frame).history) {
      PushInvokerGood(st, frame, m.invokers[i]);
    }
  }

  // ---------------------------------------------------------------- frames: pop

  /** The trackers that outlive the pop of the current frame. */
  ghost predicate Outlives(v: InvokerTracker, depth: nat) {
    v.depth + 1 < depth
  }

  ghost function Survivors(vs: seq<InvokerTracker>): nat {
    if vs != [] && IsOutOfScope(vs[|vs| - 1]) then Survivors(vs[..|vs| - 1]) else |vs|
  }

  lemma {:induction false} DropIsPrefix(vs: seq<InvokerTracker>)
    ensures Survivors(vs) <= |vs| && DropOutOfScope(vs) == vs[..Survivors(vs)]
    ensures Survivors(vs) > 0 ==> !IsOutOfScope(vs[Survivors(vs) - 1])
    ensures forall i :: Survivors(vs) <= i < |vs| ==> IsOutOfScope(vs[i])
  {
    if vs != [] && IsOutOfScope(vs[|vs| - 1]) {
      DropIsPrefix(vs[..|vs| - 1]);
    } else {
      assert vs[..|vs|] == vs;
    }
  }

  /**
   On a list sorted by creation depth, the loop that pops only from the end removes
   exactly the trackers that are out of scope.
   */
  lemma {:induction false} DropIsExact(vs: seq<InvokerTracker>, depth: nat)
    requires SortedByDepth(vs) && depth > 0
    requires forall i :: 0 <= i < |vs| ==> vs[i].depth <= depth && |vs[i].tracker.stack| == depth - vs[i].depth
    ensures
      var after := DropOutOfScope(PopInvokers(vs));
      && |after| <= |vs|
      && (forall i :: 0 <= i < |vs| ==> (i < |after| <==> Outlives(vs[i], depth)))
      && (forall i :: 0 <= i < |after| ==> after[i] == vs[i].(tracker := PopFrame(vs[i].tracker)) && !IsOutOfScope(after[i]))
  {
    var popped := PopInvokers(vs);
    DropIsPrefix(popped);
    var n := Survivors(popped);
    forall i | 0 <= i < |vs| ensures IsOutOfScope(popped[i]) <==> !Outlives(vs[i], depth) {
    }
    forall i | 0 <= i < n ensures Outlives(vs[i], depth) {
      assert i < n - 1 ==> vs[i].depth <= vs[n - 1].depth;
    }
  }

  /**
   Popping a frame removes exactly the invoker trackers created by the popped frame or
   by the frame below it, although the loop stops at the first one it must keep.
   */
  lemma {:induction false} PopRemovesExactlyOutOfScope(st: State)
    requires FramesGood(st) && InvokersGood(st.manager.invokers, st.ids, st.history) && st.ids != []
    ensures
      var before, after := st.manager.invokers, Pop(st).manager.invokers;
      && |after| <= |before|
      && (forall i :: 0 <= i < |before| ==> (i < |after| <==> Outlives(before[i], |st.ids|)))
      && (forall i :: 0 <= i < |after| ==>
            after[i] == before[i].(tracker := PopFrame(before[i].tracker)) && !IsOutOfScope(after[i]))
  {
    forall i | 0 <= i < |st.manager.invokers| ensures InvokerGood(st.manager.invokers[i], st.ids, st.history) {
    }
    DropIsExact(st.manager.invokers, |st.ids|);
  }

  lemma {:induction false} PopAccountGood(st: State, a: AccountTracker)
    requires FramesGood(st) && st.ids != [] && AccountGood(a, st.ids, st.history)
    requires a.isBorrowed ==> |a.tracker.stack| < |st.ids|
    ensures AccountGood(PopAccount(a), Pop(st).ids, st.history)
  {
    hide StrictPrefix, Good;
    var n := |a.tracker.stack|;
    if a.isBorrowed {
      assert Pop(st).ids[..n] == st.ids[..n];
    } else {
      assert st.ids[..n] == st.ids;
      PopKeepsGood(a.tracker, st.ids, st.history);
      assert Pop(st).ids[..n - 1] == st.ids[..n - 1];
    }
  }

  lemma {:induction false} PopInvokerGood(st: State, v: InvokerTracker)
    requires st.ids != [] && InvokerGood(v, st.ids, st.history) && Outlives(v, |st.ids|)
    ensures InvokerGood(v.(tracker := PopFrame(v.tracker)), st.ids[..|st.ids| - 1], st.history)
  {
    hide StrictPrefix;
    var ids := st.ids[..|st.ids| - 1];
    PopKeepsGood(v.tracker, st.ids[v.depth..], st.history);
    assert ids[v.depth..] == st.ids[v.depth..][..|st.ids[v.depth..]| - 1];
  }

  lemma {:induction false} PopInvokersGood(st: State)
    requires StateGood(st) && st.ids != []
    ensures InvokersGood(Pop(st).manager.invokers, Pop(st).ids, st.history)
  {
    hide StrictPrefix, Good;
    var before, after := st.manager.invokers, Pop(st).manager.invokers;
    PopRemovesExactlyOutOfScope(st);
    forall i | 0 <= i < |after| ensures InvokerGood(after[i], Pop(st).ids, st.history) {
      PopInvokerGood(st, before[i]);
    }
  }

  /** No borrowed tracker belongs to the current frame, so the frame may be popped. */
  ghost predicate Poppable(st: State) {
    forall i :: 0 <= i < |st.manager.accounts| && st.manager.accounts[i].isBorrowed
      ==> |st.manager.accounts[i].tracker.stack| < |st.ids|
  }

  lemma {:induction false} PopAccountsGood(st: State)
    requires StateGood(st) && st.ids != [] && Poppable(st)
    ensures AccountsGood(Pop(st).manager.accounts, Pop(st).ids, st.history)
  {
    hide StrictPrefix, Good;
    var m := st.manager;
    forall i | 0 <= i < |m.accounts| ensures AccountGood(Pop(st).manager.accounts[i], Pop(st).ids, st.history) {
      PopAccountGood(st, m.accounts[i]);
    }
  }

  lemma {:induction false} PopFramesGood(st: State)
    requires FramesGood(st) && st.ids != []
    ensures FramesGood(Pop(st))
  {
    hide StrictPrefix;
  }

  lemma {:induction false} PopModeGood(m: Manager)
    requires ModeGood(m) && m.callStack != []
    ensures ModeGood(PopManager(m))
  {
  }

  lemma {:induction false} PopGood(st: State)
    requires StateGood(st) && st.ids != [] && Poppable(st)
    ensures StateGood(Pop(st))
  {
    hide StrictPrefix, Good, AccountGood, InvokerGood;
    PopAccountsGood(st);
    PopInvokersGood(st);
    PopFramesGood(st);
    PopModeGood(st.manager);
    hide FramesGood, ModeGood, AccountsGood, InvokersGood;
  }

  // ---------------------------------------------------------------- what happens inside a frame

  ghost predicate AccountEvolved(a: AccountTracker, b: AccountTracker) {
    if a.isBorrowed then b == a
    else
      && !b.isBorrowed
      && Evolved(a.tracker, b.tracker)
      && b == a.(tracker := b.tracker, verified := b.verified)
  }

  ghost predicate InvokerEvolved(a: InvokerTracker, b: InvokerTracker) {
    b == a.(tracker := b.tracker) && Evolved(a.tracker, b.tracker)
  }

  /** The trackers that were in scope stay at their places; newer ones may come and go. */
  ghost predicate InvokersEvolved(xs: seq<InvokerTracker>, ys: seq<InvokerTracker>) {
    forall i :: 0 <= i < |xs| && !IsOutOfScope(xs[i]) ==> i < |ys| && InvokerEvolved(xs[i], ys[i])
  }

  ghost predicate AccountsEvolved(xs: seq<AccountTracker>, ys: seq<AccountTracker>) {
    && |xs| == |ys|
    && forall i :: 0 <= i < |xs| ==> AccountEvolved(xs[i], ys[i])
  }

  ghost predicate ManagerEvolved(a: Manager, b: Manager) {
    && a.callStack == b.callStack
    && (match a.mode
        case Enforcing => b.mode == a.mode && AccountsEvolved(a.accounts, b.accounts)
        case Recording(_, disable) =>
          && b.mode.Recording? && b.mode.disableNonRootAuth == disable
          && forall i :: 0 <= i < |b.accounts| ==> !b.accounts[i].isBorrowed)
    && InvokersEvolved(a.invokers, b.invokers)
  }

  ghost predicate StateEvolved(a: State, b: State) {
    && ManagerEvolved(a.manager, b.manager)
    && a.ids == b.ids
    && (forall id :: id in a.history ==> id in b.history && b.history[id] == a.history[id])
    && a.clock <= b.clock
    && (forall id :: id in b.history ==> id != [] && id[|id| - 1] < b.clock)
  }

  lemma {:induction false} AccountsEvolvedTransitive(
    xs: seq<AccountTracker>, ys: seq<AccountTracker>, zs: seq<AccountTracker>)
    requires AccountsEvolved(xs, ys) && AccountsEvolved(ys, zs)
    ensures AccountsEvolved(xs, zs)
  {
    forall i | 0 <= i < |xs| ensures AccountEvolved(xs[i], zs[i]) {
      assert AccountEvolved(xs[i], ys[i]) && AccountEvolved(ys[i], zs[i]);
      if !xs[i].isBorrowed {
        EvolvedTransitive(xs[i].tracker, ys[i].tracker, zs[i].tracker);
      }
    }
  }

  lemma {:induction false} InvokersEvolvedTransitive(
    xs: seq<InvokerTracker>, ys: seq<InvokerTracker>, zs: seq<InvokerTracker>)
    requires InvokersEvolved(xs, ys) && InvokersEvolved(ys, zs)
    ensures InvokersEvolved(xs, zs)
  {
    forall i | 0 <= i < |xs| && !IsOutOfScope(xs[i]) ensures i < |zs| && InvokerEvolved(xs[i], zs[i]) {
      assert InvokerEvolved(xs[i], ys[i]) && InvokerEvolved(ys[i], zs[i]);
      EvolvedTransitive(xs[i].tracker, ys[i].tracker, zs[i].tracker);
    }
  }

  lemma {:induction false} StateEvolvedTransitive(a: State, b: State, c: State)
    requires StateEvolved(a, b) && StateEvolved(b, c)
    ensures StateEvolved(a, c)
  {
    InvokersEvolvedTransitive(a.manager.invokers, b.manager.invokers, c.manager.invokers);
    if a.manager.mode.Enforcing? {
      AccountsEvolvedTransitive(a.manager.accounts, b.manager.accounts, c.manager.accounts);
    }
  }

  lemma {:induction false} AccountsEvolvedReflexive(xs: seq<AccountTracker>)
    ensures AccountsEvolved(xs, xs)
  {
    forall i | 0 <= i < |xs| ensures AccountEvolved(xs[i], xs[i]) {
      EvolvedReflexive(xs[i].tracker);
    }
  }

  lemma {:induction false} InvokersEvolvedReflexive(xs: seq<InvokerTracker>)
    ensures InvokersEvolved(xs, xs)
  {
    forall i | 0 <= i < |xs| ensures InvokerEvolved(xs[i], xs[i]) {
      EvolvedReflexive(xs[i].tracker);
    }
  }

  lemma {:induction false} StateEvolvedReflexive(st: State)
    requires StateGood(st)
    ensures StateEvolved(st, st)
  {
    AccountsEvolvedReflexive(st.manager.accounts);
    InvokersEvolvedReflexive(st.manager.invokers);
  }

  // ---------------------------------------------------------------- a nested frame

  lemma {:induction false} PopEvolvedAccounts(st: State, frame: AuthStackFrame, b: State)
    requires StateGood(st) && StateEvolved(Push(st, frame), b) && st.manager.mode.Enforcing?
    ensures AccountsEvolved(st.manager.accounts, Pop(b).manager.accounts)
  {
    var xs, zs := st.manager.accounts, Pop(b).manager.accounts;
    forall i | 0 <= i < |xs| ensures AccountEvolved(xs[i], zs[i]) {
      assert AccountEvolved(PushAccount(xs[i]), b.manager.accounts[i]);
      if !xs[i].isBorrowed {
        assert AccountGood(xs[i], st.ids, st.history);
        PushEvolvePop(xs[i].tracker, b.manager.accounts[i].tracker, st.ids[..|xs[i].tracker.stack|], st.history);
      }
    }
  }

  lemma {:induction false} PopEvolvedInvoker(
    x: InvokerTracker, y: InvokerTracker, ids: seq<FrameId>, history: map<FrameId, AuthStackFrame>)
    requires InvokerGood(x, ids, history) && InvokerEvolved(x.(tracker := PushFrame(x.tracker)), y)
    ensures InvokerEvolved(x, y.(tracker := PopFrame(y.tracker)))
    ensures PopFrame(y.tracker).stack == x.tracker.stack
  {
    PushEvolvePop(x.tracker, y.tracker, ids[x.depth..], history);
  }

  lemma {:induction false} PopEvolvedInvokers(st: State, frame: AuthStackFrame, b: State)
    requires InvokersGood(st.manager.invokers, st.ids, st.history)
    requires InvokersEvolved(Push(st, frame).manager.invokers, b.manager.invokers) && b.manager.callStack != []
    ensures InvokersEvolved(st.manager.invokers, Pop(b).manager.invokers)
  {
    var xs, ps, ys := st.manager.invokers, Push(st, frame).manager.invokers, b.manager.invokers;
    var zs := PopInvokers(ys);
    DropIsPrefix(zs);
    forall i | 0 <= i < |xs| && !IsOutOfScope(xs[i]) ensures i < Survivors(zs) && InvokerEvolved(xs[i], zs[i]) {
      assert !IsOutOfScope(ps[i]);
      assert InvokerEvolved(ps[i], ys[i]);
      PopEvolvedInvoker(xs[i], ys[i], st.ids, st.history);
      assert zs[i] == ys[i].(tracker := PopFrame(ys[i].tracker)) && !IsOutOfScope(zs[i]);
    }
  }

  lemma {:induction false} PopUndoesPushOfFrame(st: State, frame: AuthStackFrame)
    requires FramesGood(st)
    ensures
      var entry := Push(st, frame);
      && Pop(entry).ids == st.ids && Pop(entry).manager.callStack == st.manager.callStack
      && entry.ids != [] && entry.manager.callStack != []
      && forall id :: id in st.history ==> id in entry.history && entry.history[id] == st.history[id]
  {
    NewFrameIdIsFresh(st);
  }

  lemma {:induction false} NestedFrameEvolvesManager(st: State, frame: AuthStackFrame, b: State)
    requires StateGood(st) && StateEvolved(Push(st, frame), b)
    ensures ManagerEvolved(st.manager, Pop(b).manager)
  {
    hide Good, FramesGood, AccountsEvolved, InvokersEvolved, AccountsGood, InvokersGood;
    PopUndoesPushOfFrame(st, frame);
    if st.manager.mode.Enforcing? {
      PopEvolvedAccounts(st, frame, b);
    }
    PopEvolvedInvokers(st, frame, b);
  }

  /** A frame that was pushed, evolved and popped leaves its caller's frame evolved. */
  lemma {:induction false} NestedFrameEvolves(st: State, frame: AuthStackFrame, b: State)
    requires StateGood(st) && StateEvolved(Push(st, frame), b)
    ensures StateEvolved(st, Pop(b))
  {
    hide FramesGood, AccountsGood, InvokersGood, PopManager, PushManager;
    NestedFrameEvolvesManager(st, frame, b);
    PopUndoesPushOfFrame(st, frame);
  }

  lemma {:induction false} NestedFrameIsPoppable(st: State, frame: AuthStackFrame, b: State)
    requires StateGood(st) && StateEvolved(Push(st, frame), b)
    ensures Poppable(b)
  {
    var entry := Push(st, frame);
    forall i | 0 <= i < |b.manager.accounts| && b.manager.accounts[i].isBorrowed
      ensures |b.manager.accounts[i].tracker.stack| < |b.ids|
    {
      if st.manager.mode.Enforcing? {
        assert AccountEvolved(entry.manager.accounts[i], b.manager.accounts[i]);
        assert AccountGood(st.manager.accounts[i], st.ids, st.history);
      }
    }
  }

  // ---------------------------------------------------------------- a failed frame

  lemma {:induction false} RollbackAccountsPointwise(
    xs: seq<AccountTracker>, ss: seq<Option<AccountSnapshot>>, ys: seq<AccountTracker>)
    requires |xs| == |ss| == |ys|
    requires forall i :: 0 <= i < |xs| ==> RollbackAccount(xs[i], ss[i]) == Some(ys[i])
    ensures RollbackAccounts(xs, ss) == Some(ys)
  {
    if xs != [] {
      assert RollbackAccount(xs[0], ss[0]) == Some(ys[0]);
      RollbackAccountsPointwise(xs[1..], ss[1..], ys[1..]);
      assert ys == [ys[0]] + ys[1..];
    }
  }

  lemma {:induction false} RollbackInvokersPointwise(
    xs: seq<InvokerTracker>, ss: seq<NodeSnapshot>, ys: seq<InvokerTracker>)
    requires |xs| == |ss| == |ys|
    requires forall i :: 0 <= i < |xs| ==> RollbackInvoker(xs[i], ss[i]) == Some(ys[i])
    ensures RollbackInvokers(xs, ss) == Some(ys)
  {
    if xs != [] {
      assert RollbackInvoker(xs[0], ss[0]) == Some(ys[0]);
      RollbackInvokersPointwise(xs[1..], ss[1..], ys[1..]);
      assert ys == [ys[0]] + ys[1..];
    }
  }

  /** `b` rolled back to the snapshot of `a`. */
  ghost function RestoredAccount(a: AccountTracker, b: AccountTracker): AccountTracker {
    match RollbackAccount(b, SnapshotAccount(a)) case Some(x) => x case None => b
  }

  lemma {:induction false} RestoreAccount(
    a: AccountTracker, b: AccountTracker, ids: seq<FrameId>, history: map<FrameId, AuthStackFrame>)
    requires AccountGood(a, ids, history) && AccountEvolved(a, b)
    ensures RollbackAccount(b, SnapshotAccount(a)) == Some(RestoredAccount(a, b))
    ensures PopAccount(RestoredAccount(a, b)) == PopAccount(a)
    ensures ids == [] ==> RestoredAccount(a, b) == a
  {
    if !a.isBorrowed {
      RollbackPopRestores(a.tracker, b.tracker, ids[..|a.tracker.stack|], history);
    }
  }

  lemma {:induction false} RestoreAccounts(
    xs: seq<AccountTracker>, ys: seq<AccountTracker>, ids: seq<FrameId>, history: map<FrameId, AuthStackFrame>)
    returns (zs: seq<AccountTracker>)
    requires AccountsEvolved(xs, ys)
    requires forall i :: 0 <= i < |xs| ==> AccountGood(xs[i], ids, history)
    ensures RollbackAccounts(ys, SnapshotAccounts(xs)) == Some(zs)
    ensures |zs| == |xs|
    ensures PopAccounts(zs) == PopAccounts(xs)
    ensures ids == [] ==> zs == xs
  {
    zs := seq(|xs|, i requires 0 <= i < |xs| => RestoredAccount(xs[i], ys[i]));
    forall i | 0 <= i < |xs|
      ensures RollbackAccount(ys[i], SnapshotAccount(xs[i])) == Some(zs[i])
      ensures PopAccount(zs[i]) == PopAccount(xs[i])
      ensures ids == [] ==> zs[i] == xs[i]
    {
      assert AccountEvolved(xs[i], ys[i]);
      RestoreAccount(xs[i], ys[i], ids, history);
    }
    RollbackAccountsPointwise(ys, SnapshotAccounts(xs), zs);
  }

  lemma {:induction false} RestoreInvokers(
    xs: seq<InvokerTracker>, ys: seq<InvokerTracker>, ids: seq<FrameId>, history: map<FrameId, AuthStackFrame>)
    returns (zs: seq<InvokerTracker>)
    requires InvokersEvolved(xs, ys) && forall i :: 0 <= i < |xs| ==> !IsOutOfScope(xs[i])
    requires forall i :: 0 <= i < |xs| ==> InvokerGood(xs[i], ids, history)
    ensures |xs| <= |ys|
    ensures RollbackInvokers(ys[..|xs|], SnapshotInvokers(xs)) == Some(zs)
    ensures |zs| == |xs| && PopInvokers(zs) == PopInvokers(xs)
  {
    assert xs != [] ==> !IsOutOfScope(xs[|xs| - 1]);
    var ss := SnapshotInvokers(xs);
    forall i | 0 <= i < |xs|
      ensures i < |ys| && RollbackTracker(ys[i].tracker, ss[i]).Some?
      ensures PopFrame(RollbackTracker(ys[i].tracker, ss[i]).value) == PopFrame(xs[i].tracker)
      ensures ys[i].(tracker := xs[i].tracker) == xs[i]
    {
      assert InvokerEvolved(xs[i], ys[i]);
      RollbackPopRestores(xs[i].tracker, ys[i].tracker, ids[xs[i].depth..], history);
    }
    zs := seq(|xs|, i requires 0 <= i < |xs| => ys[i].(tracker := RollbackTracker(ys[i].tracker, ss[i]).value));
    RollbackInvokersPointwise(ys[..|xs|], ss, zs);
    forall i | 0 <= i < |xs| ensures PopInvokers(zs)[i] == PopInvokers(xs)[i] {
    }
  }

  /** Rolling back what evolved from `a` gives `r`, which is `a` but for the top stack entries. */
  lemma {:induction false} RollbackRestoresManager(a: State, b: State) returns (r: Manager)
    requires StateGood(a) && ManagerEvolved(a.manager, b.manager)
    requires forall i :: 0 <= i < |a.manager.invokers| ==> !IsOutOfScope(a.manager.invokers[i])
    ensures RollbackManager(b.manager, SnapshotManager(a.manager)) == Some(r)
    ensures r.mode == a.manager.mode && r.callStack == a.manager.callStack
    ensures PopAccounts(r.accounts) == PopAccounts(a.manager.accounts)
    ensures PopInvokers(r.invokers) == PopInvokers(a.manager.invokers)
    ensures a.ids == [] ==> r.accounts == a.manager.accounts
    ensures |r.invokers| == |a.manager.invokers|
  {
    hide Good, Evolved, FramesGood, AccountEvolved, InvokerEvolved;
    var m, n := a.manager, b.manager;
    var ws := RestoreInvokers(m.invokers, n.invokers, a.ids, a.history);
    var zs := m.accounts;
    if m.mode.Enforcing? {
      zs := RestoreAccounts(m.accounts, n.accounts, a.ids, a.history);
    }
    r := n.(accounts := zs, invokers := ws, mode := m.mode);
  }

  /**
   A failed frame has no effect: whatever happened inside it, rolling back and popping
   gives the manager that popping at once would have given. In particular the rollback
   never finds fewer invoker trackers than its snapshot, nor a tree of another shape.
   */
  lemma {:induction false} FailedFrameHasNoEffect(entry: State, b: State)
    requires StateGood(entry) && entry.ids != [] && StateEvolved(entry, b)
    requires forall i :: 0 <= i < |entry.manager.invokers| ==> !IsOutOfScope(entry.manager.invokers[i])
    ensures RollbackAndPop(b.manager, SnapshotManager(entry.manager)) == Some(PopManager(entry.manager))
  {
    hide ManagerEvolved, SnapshotManager, RollbackManager, AccountsGood, InvokersGood, StrictPrefix;
    var r := RollbackRestoresManager(entry, b);
    assert PopManager(r) == PopManager(entry.manager);
  }

  /** A transaction that fails at the top level leaves the manager exactly as it found it. */
  lemma {:induction false} FailedTransactionHasNoEffect(entry: State, b: State)
    requires StateGood(entry) && entry.ids == [] && entry.manager.invokers == [] && StateEvolved(entry, b)
    ensures RollbackAndPop(b.manager, SnapshotManager(entry.manager)) == Some(entry.manager)
  {
    hide ManagerEvolved, SnapshotManager, RollbackManager, AccountsGood, InvokersGood, StrictPrefix;
    var r := RollbackRestoresManager(entry, b);
    assert r == entry.manager;
  }

  // ---------------------------------------------------------------- nonces

  /** The tracker has used its nonce. */
  predicate HoldsNonce(a: AccountTracker) {
    a.verified && !a.isTransactionSourceAccount
  }

  function NonceOf(a: AccountTracker): NonceKey
    requires a.nonce.Some?
  {
    (a.address, a.nonce.value.value)
  }

  /**
   The nonces in the ledger are those there at the start and, once each, those of the
   verified trackers.
   */
  ghost predicate NoncesGood(accounts: seq<AccountTracker>, nonces: set<NonceKey>, initial: set<NonceKey>) {
    && initial <= nonces
    && (forall i :: 0 <= i < |accounts| && HoldsNonce(accounts[i]) ==>
          && accounts[i].nonce.Some?
          && NonceOf(accounts[i]) in nonces
          && NonceOf(accounts[i]) !in initial)
    && (forall i, j :: 0 <= i < j < |accounts| && HoldsNonce(accounts[i]) && HoldsNonce(accounts[j]) ==>
          NonceOf(accounts[i]) != NonceOf(accounts[j]))
    && (forall k :: k in nonces && k !in initial ==>
          exists i :: 0 <= i < |accounts| && HoldsNonce(accounts[i]) && NonceOf(accounts[i]) == k)
  }

  ghost predicate SameCredential(a: AccountTracker, b: AccountTracker) {
    && a.address == b.address && a.verified == b.verified && a.nonce == b.nonce
    && a.isTransactionSourceAccount == b.isTransactionSourceAccount
  }

  ghost predicate SameCredentials(xs: seq<AccountTracker>, ys: seq<AccountTracker>) {
    |xs| == |ys| && forall i :: 0 <= i < |xs| ==> SameCredential(xs[i], ys[i])
  }

  lemma {:induction false} SameCredentialsKeepNonces(
    xs: seq<AccountTracker>, ys: seq<AccountTracker>, nonces: set<NonceKey>, initial: set<NonceKey>)
    requires SameCredentials(xs, ys) && NoncesGood(xs, nonces, initial)
    ensures NoncesGood(ys, nonces, initial)
  {
    forall i | 0 <= i < |xs| ensures SameCredential(xs[i], ys[i]) {
    }
    forall k | k in nonces && k !in initial
      ensures exists i :: 0 <= i < |ys| && HoldsNonce(ys[i]) && NonceOf(ys[i]) == k
    {
      var i :| 0 <= i < |xs| && HoldsNonce(xs[i]) && NonceOf(xs[i]) == k;
      assert HoldsNonce(ys[i]) && NonceOf(ys[i]) == k;
    }
  }

  /** A tracker that becomes verified takes a nonce nobody had taken. */
  lemma {:induction false} VerifyKeepsNonces(
    xs: seq<AccountTracker>, i: nat, a: AccountTracker, nonces: set<NonceKey>, initial: set<NonceKey>, env: LedgerEnv)
    requires i < |xs| && !xs[i].verified && a.verified && SameCredential(xs[i].(verified := true), a)
    requires NoncesGood(xs, nonces, initial) && ConsumeNonce(xs[i], nonces, env).Some?
    ensures NoncesGood(xs[i := a], ConsumeNonce(xs[i], nonces, env).value, initial)
  {
    var ys, after := xs[i := a], ConsumeNonce(xs[i], nonces, env).value;
    forall k | k in after && k !in initial
      ensures exists j :: 0 <= j < |ys| && HoldsNonce(ys[j]) && NonceOf(ys[j]) == k
    {
      if k in nonces {
        var j :| 0 <= j < |xs| && HoldsNonce(xs[j]) && NonceOf(xs[j]) == k;
        assert HoldsNonce(ys[j]) && NonceOf(ys[j]) == k;
      } else {
        assert HoldsNonce(ys[i]) && NonceOf(ys[i]) == k;
      }
    }
  }

  // ---------------------------------------------------------------- require_auth

  lemma {:induction false} ReplaceInvoker(xs: seq<InvokerTracker>, i: nat, t: Tracker)
    requires i < |xs|
    requires !IsOutOfScope(xs[i]) ==> Evolved(xs[i].tracker, t)
    ensures InvokersEvolved(xs, xs[i := xs[i].(tracker := t)])
  {
    InvokersEvolvedReflexive(xs);
  }

  lemma {:induction false} ScanInvokersKeeps(
    m: Manager, address: Address, f: AuthorizedFunction, i: nat, ids: seq<FrameId>, history: map<FrameId, AuthStackFrame>)
    requires i <= |m.invokers| && InvokersGood(m.invokers, ids, history)
    requires ids != [] && ids[|ids| - 1] in history && Fits(history[ids[|ids| - 1]], f)
    ensures
      var r := ScanInvokers(m, address, f, ids[|ids| - 1], i);
      && !r.Pending?
      && (r.Authorized? || r.Denied? ==>
            r.manager == m.(invokers := r.manager.invokers) && InvokersEvolved(m.invokers, r.manager.invokers))
      && (r.Authorized? ==> InvokersGood(r.manager.invokers, ids, history))
    decreases |m.invokers| - i
  {
    if i < |m.invokers| {
      var v, id := m.invokers[i], ids[|ids| - 1];
      assert IsOutOfScope(v) ==> !Extend(v.tracker, f, true, id).Matched?;
      hide Good, Evolved, Fits, Extend, StrictPrefix;
      ScanInvokersKeeps(m, address, f, i + 1, ids, history);
      if v.contract == address {
        assert InvokerGood(v, ids, history);
        if !IsOutOfScope(v) {
          ExtendKeepsGood(v.tracker, ids[v.depth..], history, f, true);
        }
        var e := Extend(v.tracker, f, true, id);
        if !e.NotMatched? {
          ReplaceInvoker(m.invokers, i, e.tracker);
        }
        if e.Matched? {
          assert InvokerGood(v.(tracker := e.tracker), ids, history);
        }
      }
    }
  }

  /** One account tracker was replaced by what it evolved to. */
  lemma {:induction false} ReplaceAccount(xs: seq<AccountTracker>, i: nat, a: AccountTracker)
    requires i < |xs| && AccountEvolved(xs[i], a)
    ensures AccountsEvolved(xs, xs[i := a])
  {
    AccountsEvolvedReflexive(xs);
  }

  /** The tracker at `i` has been matched and borrowed for authentication. */
  ghost predicate IsPending(m: Manager, m': Manager, i: nat) {
    && i < |m.accounts| == |m'.accounts|
    && m'.accounts[i].isBorrowed
    && AccountEvolved(m.accounts[i], m'.accounts[i].(isBorrowed := false))
    && m' == m.(accounts := m.accounts[i := m'.accounts[i]])
  }

  /** The tracker of one account after a match for the current frame, before authentication. */
  function MatchedAccount(a: AccountTracker, t: Tracker): AccountTracker {
    a.(tracker := t, isBorrowed := !a.verified)
  }

  lemma {:induction false} MatchedAccountKeeps(
    a: AccountTracker, f: AuthorizedFunction, allowRoot: bool, ids: seq<FrameId>, history: map<FrameId, AuthStackFrame>)
    requires AccountGood(a, ids, history) && !a.isBorrowed
    requires ids != [] && ids[|ids| - 1] in history && Fits(history[ids[|ids| - 1]], f)
    ensures
      var e := Extend(a.tracker, f, allowRoot, ids[|ids| - 1]);
      && !e.Failed?
      && (e.Matched? ==>
            && AccountGood(MatchedAccount(a, e.tracker), ids, history)
            && AccountEvolved(a, a.(tracker := e.tracker)))
  {
    assert ids[..|ids|] == ids;
    ExtendKeepsGood(a.tracker, ids, history, f, allowRoot);
  }

  ghost predicate ScanKept(m: Manager, r: RequireResult, ids: seq<FrameId>, history: map<FrameId, AuthStackFrame>) {
    match r
    case Continue => false
    case Denied(m') => m' == m
    case Authorized(m') =>
      && m' == m.(accounts := m'.accounts)
      && AccountsEvolved(m.accounts, m'.accounts)
      && SameCredentials(m.accounts, m'.accounts)
      && AccountsGood(m'.accounts, ids, history)
    case Pending(m', i) =>
      && IsPending(m, m', i)
      && SameCredentials(m.accounts, m'.accounts)
      && AccountsGood(m'.accounts, ids, history)
  }

  function MatchResult(m: Manager, i: nat, t: Tracker): RequireResult
    requires i < |m.accounts|
  {
    var m' := m.(accounts := m.accounts[i := MatchedAccount(m.accounts[i], t)]);
    if m.accounts[i].verified then Authorized(m') else Pending(m', i)
  }

  lemma {:induction false} MatchResultIsKept(
    m: Manager, i: nat, t: Tracker, ids: seq<FrameId>, history: map<FrameId, AuthStackFrame>)
    requires i < |m.accounts| && AccountsGood(m.accounts, ids, history) && !m.accounts[i].isBorrowed
    requires AccountGood(MatchedAccount(m.accounts[i], t), ids, history)
    requires AccountEvolved(m.accounts[i], m.accounts[i].(tracker := t))
    ensures ScanKept(m, MatchResult(m, i, t), ids, history)
  {
    var a := m.accounts[i];
    if a.verified {
      ReplaceAccount(m.accounts, i, a.(tracker := t));
    }
  }

  lemma {:induction false} ScanAccountsKeeps(
    m: Manager, address: Address, f: AuthorizedFunction, allowRoot: bool, i: nat, ids: seq<FrameId>,
    history: map<FrameId, AuthStackFrame>)
    requires i <= |m.accounts| && AccountsGood(m.accounts, ids, history)
    requires ids != [] && ids[|ids| - 1] in history && Fits(history[ids[|ids| - 1]], f)
    ensures ScanKept(m, ScanAccounts(m, address, f, allowRoot, ids[|ids| - 1], i), ids, history)
    decreases |m.accounts| - i
  {
    if i < |m.accounts| {
      var a, id := m.accounts[i], ids[|ids| - 1];
      var e := Extend(a.tracker, f, allowRoot, id);
      if a.isBorrowed || a.address != address {
        ScanAccountsKeeps(m, address, f, allowRoot, i + 1, ids, history);
      } else {
        MatchedAccountKeeps(a, f, allowRoot, ids, history);
        if e.Matched? {
          MatchResultIsKept(m, i, e.tracker, ids, history);
        } else {
          ScanAccountsKeeps(m, address, f, allowRoot, i + 1, ids, history);
        }
      }
    }
  }

  // ---------------------------------------------------------------- recording

  lemma {:induction false} RecordedAccountIsGood(
    a: AccountTracker, f: AuthorizedFunction, ids: seq<FrameId>, history: map<FrameId, AuthStackFrame>)
    requires AccountGood(a, ids, history) && !a.isBorrowed && HasMatchedInvocationsInStack(a.tracker)
    requires ids != [] && ids[|ids| - 1] in history && Fits(history[ids[|ids| - 1]], f)
    ensures
      var r := Record(a.tracker, f, ids[|ids| - 1]);
      r.Some? ==> AccountGood(a.(tracker := r.value), ids, history)
  {
    assert ids[..|ids|] == ids;
    ActiveIffRootOnStack(a.tracker, ids, history);
    RecordKeepsGood(a.tracker, ids, history, f);
    if Record(a.tracker, f, ids[|ids| - 1]).Some? {
      AppendAt(a.tracker.root, PathOf(a.tracker.stack), NewRecordingNode(f, ids[|ids| - 1]), []);
    }
  }

  lemma {:induction false} RecordInKeeps(st: State, m1: Manager, i: nat, f: AuthorizedFunction)
    requires StateGood(st) && st.ids != [] && Fits(st.history[st.ids[|st.ids| - 1]], f)
    requires m1.mode.Recording? && m1 == st.manager.(mode := m1.mode) && ModeGood(m1)
    requires st.manager.mode.Recording? && m1.mode.disableNonRootAuth == st.manager.mode.disableNonRootAuth
    requires i < |m1.accounts| && HasMatchedInvocationsInStack(m1.accounts[i].tracker)
    ensures
      var r := RecordIn(m1, i, f, st.ids[|st.ids| - 1], st.nonces);
      && StateEvolved(st, st.(manager := r.manager))
      && (r.Recorded? ==> StateGood(st.(manager := r.manager)))
  {
    hide Good, Fits, AccountGood, InvokersGood, InvokersEvolved, HasMatchedInvocationsInStack, Record, Chain;
    assert AccountGood(m1.accounts[i], st.ids, st.history);
    RecordedAccountIsGood(m1.accounts[i], f, st.ids, st.history);
    InvokersEvolvedReflexive(st.manager.invokers);
  }

  lemma {:induction false} FindRecordableIsRecordable(accounts: seq<AccountTracker>, address: Address, i: nat)
    requires i <= |accounts|
    ensures var r := FindRecordable(accounts, address, i);
      r.Some? ==>
        && accounts[r.value].address == address
        && HasMatchedInvocationsInStack(accounts[r.value].tracker)
        && !CurrentFrameIsAlreadyMatched(accounts[r.value].tracker)
    decreases |accounts| - i
  {
    if i < |accounts| {
      FindRecordableIsRecordable(accounts, address, i + 1);
    }
  }

  lemma {:induction false} NewRecordingAccountIsGood(
    st: State, address: Address, f: AuthorizedFunction, randomNonce: int, env: LedgerEnv)
    requires FramesGood(st) && st.ids != [] && Fits(st.history[st.ids[|st.ids| - 1]], f)
    ensures AccountGood(NewRecordingAccount(address, f, |st.ids|, st.ids[|st.ids| - 1], randomNonce, env), st.ids, st.history)
  {
    NewRecordingIsGood(f, st.ids, st.history);
    assert st.ids[..|st.ids|] == st.ids;
  }

  lemma {:induction false} RequireRecordingKeeps(
    st: State, handle: nat, address: Address, f: AuthorizedFunction, randomNonce: int, env: LedgerEnv)
    requires StateGood(st) && st.ids != [] && Fits(st.history[st.ids[|st.ids| - 1]], f)
    requires st.manager.mode.Recording?
    ensures
      var r := RequireRecording(st.manager, handle, address, f, st.ids[|st.ids| - 1], randomNonce, st.nonces, env);
      && StateEvolved(st, st.(manager := r.manager))
      && (r.Recorded? ==> StateGood(st.(manager := r.manager)))
  {
    hide Good, Fits, AccountGood, InvokersGood, InvokersEvolved, Chain, HasMatchedInvocationsInStack, RecordIn, FindRecordable;
    var m := st.manager;
    var byHandle := m.mode.trackerByHandle;
    StateEvolvedReflexive(st);
    if handle in byHandle && HasMatchedInvocationsInStack(m.accounts[byHandle[handle]].tracker) {
      RecordInKeeps(st, m, byHandle[handle], f);
    } else {
      var m1 := m.(mode := m.mode.(trackerByHandle := byHandle - {handle}));
      FindRecordableIsRecordable(m1.accounts, address, 0);
      match FindRecordable(m1.accounts, address, 0)
      case Some(i) => RecordInKeeps(st, m1, i, f);
      case None => NewRecordingAccountIsGood(st, address, f, randomNonce, env);
    }
  }

  // ---------------------------------------------------------------- authorize_as_curr_contract

  lemma {:induction false} FromXdrIsFresh(x: Invocation)
    ensures Fresh(FromXdr(x))
    decreases x, 1
  {
    FromXdrAllIsFresh(x.subs);
  }

  lemma {:induction false} FromXdrAllIsFresh(xs: seq<Invocation>)
    ensures |FromXdrAll(xs)| == |xs|
    ensures forall i :: 0 <= i < |xs| ==> FromXdrAll(xs)[i] == FromXdr(xs[i]) && Fresh(FromXdrAll(xs)[i])
    decreases xs, 0
  {
    if xs != [] {
      FromXdrIsFresh(xs[0]);
      FromXdrAllIsFresh(xs[1..]);
      forall i | 0 <= i < |xs| ensures FromXdrAll(xs)[i] == FromXdr(xs[i]) && Fresh(FromXdrAll(xs)[i]) {
        if i > 0 {
          assert FromXdrAll(xs)[i] == FromXdrAll(xs[1..])[i - 1];
          assert xs[1..][i - 1] == xs[i];
        }
      }
    }
  }

  lemma {:induction false} AddInvokersKeeps(st: State, contract: Address, entries: seq<Invocation>)
    requires StateGood(st)
    ensures
      var st' := st.(manager := AddInvokers(st.manager, contract, entries));
      StateEvolved(st, st') && StateGood(st')
  {
    hide Good, StrictPrefix, Evolved, Chain;
    StateEvolvedReflexive(st);
    var vs, ws := st.manager.invokers, AddInvokers(st.manager, contract, entries).invokers;
    forall i | 0 <= i < |ws| ensures InvokerGood(ws[i], st.ids, st.history) {
      if i < |vs| {
        assert ws[i] == vs[i];
      } else {
        FromXdrIsFresh(entries[i - |vs|]);
        NewTrackerIsGood(FromXdr(entries[i - |vs|]), st.history);
        assert st.ids[|st.ids|..] == [];
      }
    }
    assert SortedByDepth(ws) by {
      forall i, j | 0 <= i < j < |ws| ensures ws[i].depth <= ws[j].depth {
        if i < |vs| {
          assert InvokerGood(vs[i], st.ids, st.history) && ws[i] == vs[i];
        }
      }
    }
    assert InvokersEvolved(vs, ws);
  }

  /** Recording consumes the nonce of each tracker it creates, and no other. */
  lemma {:induction false} RequireRecordingKeepsNonces(
    m: Manager, handle: nat, address: Address, f: AuthorizedFunction, id: FrameId, randomNonce: int,
    nonces: set<NonceKey>, env: LedgerEnv, initial: set<NonceKey>)
    requires m.mode.Recording? && m.callStack != [] && NoncesGood(m.accounts, nonces, initial)
    ensures
      var r := RequireRecording(m, handle, address, f, id, randomNonce, nonces, env);
      r.Recorded? ==> NoncesGood(r.manager.accounts, r.nonces, initial)
  {
    var r := RequireRecording(m, handle, address, f, id, randomNonce, nonces, env);
    if r.Recorded? {
      if |r.manager.accounts| == |m.accounts| {
        SameCredentialsKeepNonces(m.accounts, r.manager.accounts, nonces, initial);
      } else {
        NewAccountKeepsNonces(m.accounts, r.manager.accounts[|m.accounts|], nonces, r.nonces, initial);
      }
    }
  }

  /** A new account tracker brings its own fresh nonce, if it holds one. */
  lemma {:induction false} NewAccountKeepsNonces(
    xs: seq<AccountTracker>, a: AccountTracker, nonces: set<NonceKey>, nonces': set<NonceKey>, initial: set<NonceKey>)
    requires NoncesGood(xs, nonces, initial)
    requires
      if HoldsNonce(a) then a.nonce.Some? && NonceOf(a) !in nonces && nonces' == nonces + {NonceOf(a)}
      else nonces' == nonces
    ensures NoncesGood(xs + [a], nonces', initial)
  {
    var ys := xs + [a];
    forall k | k in nonces' && k !in initial
      ensures exists j :: 0 <= j < |ys| && HoldsNonce(ys[j]) && NonceOf(ys[j]) == k
    {
      if k in nonces {
        var j :| 0 <= j < |xs| && HoldsNonce(xs[j]) && NonceOf(xs[j]) == k;
        assert HoldsNonce(ys[j]) && NonceOf(ys[j]) == k;
      } else {
        assert HoldsNonce(ys[|xs|]) && NonceOf(ys[|xs|]) == k;
      }
    }
  }

  // ---------------------------------------------------------------- whole runs

  ghost predicate Sound(st: State, initial: set<NonceKey>) {
    StateGood(st) && NoncesGood(st.manager.accounts, st.nonces, initial)
  }

  /** What every run keeps: its frame has only evolved, and if it succeeded the state is sound. */
  ghost predicate Kept(st: State, r: (State, bool), initial: set<NonceKey>) {
    StateEvolved(st, r.0) && (r.1 ==> Sound(r.0, initial))
  }

  lemma {:induction false} ForgetfulHistory(st: State, history: map<FrameId, AuthStackFrame>, clock: nat)
    requires StateGood(st)
    requires forall id :: id in st.history ==> id in history && history[id] == st.history[id]
    requires forall id :: id in history ==> id != [] && id[|id| - 1] < clock
    ensures StateGood(st.(history := history, clock := clock))
  {
    var m := st.manager;
    forall i | 0 <= i < |m.accounts| ensures AccountGood(m.accounts[i], st.ids, history) {
      assert AccountGood(m.accounts[i], st.ids, st.history);
      HistoryExtends(m.accounts[i].tracker, st.ids[..|m.accounts[i].tracker.stack|], st.history, history);
    }
    forall i | 0 <= i < |m.invokers| ensures InvokerGood(m.invokers[i], st.ids, history) {
      assert InvokerGood(m.invokers[i], st.ids, st.history);
      HistoryExtends(m.invokers[i].tracker, st.ids[m.invokers[i].depth..], st.history, history);
    }
  }

  lemma {:induction false} PushedAreInScope(m: Manager, frame: AuthStackFrame)
    ensures
      var vs := PushManager(m, frame).invokers;
      forall i :: 0 <= i < |vs| ==> !IsOutOfScope(vs[i])
  {
  }

  /** Unwinding a failed frame: as if the frame had been left as soon as it was entered. */
  lemma {:induction false} UnwindIsPop(st: State, frame: AuthStackFrame, b: State)
    requires StateGood(st) && StateEvolved(Push(st, frame), b)
    ensures Unwind(Push(st, frame), b) == (Pop(Push(st, frame)).(history := b.history, clock := b.clock), true)
  {
    hide StateGood, ManagerEvolved, PushManager, PopManager, SnapshotManager, RollbackAndPop;
    var entry := Push(st, frame);
    PushGood(st, frame);
    PushedAreInScope(st.manager, frame);
    FailedFrameHasNoEffect(entry, b);
  }

  lemma {:induction false} PoppedFrameKeeps(st: State, frame: AuthStackFrame, b: State, initial: set<NonceKey>)
    requires Sound(st, initial) && StateEvolved(Push(st, frame), b)
    ensures StateEvolved(st, Pop(b))
    ensures Sound(b, initial) ==> Sound(Pop(b), initial)
  {
    assert b.ids == Push(st, frame).ids != [];
    hide StateGood, StateEvolved, NoncesGood, Push, Pop, Poppable;
    NestedFrameEvolves(st, frame, b);
    if Sound(b, initial) {
      NestedFrameIsPoppable(st, frame, b);
      PopGood(b);
      PopKeepsNonces(b, initial);
    }
  }

  lemma {:induction false} PopKeepsNonces(st: State, initial: set<NonceKey>)
    requires NoncesGood(st.manager.accounts, st.nonces, initial)
    ensures NoncesGood(Pop(st).manager.accounts, Pop(st).nonces, initial)
  {
    hide NoncesGood;
    SameCredentialsKeepNonces(st.manager.accounts, Pop(st).manager.accounts, st.nonces, initial);
  }

  lemma {:induction false} PushSound(st: State, frame: AuthStackFrame, initial: set<NonceKey>)
    requires Sound(st, initial)
    ensures Sound(Push(st, frame), initial)
  {
    PushGood(st, frame);
    SameCredentialsKeepNonces(st.manager.accounts, Push(st, frame).manager.accounts, st.nonces, initial);
  }

  lemma {:induction false} UnwoundFrameKeeps(st: State, frame: AuthStackFrame, b: State, initial: set<NonceKey>)
    requires Sound(st, initial) && StateEvolved(Push(st, frame), b)
    ensures Kept(st, Unwind(Push(st, frame), b), initial) && Unwind(Push(st, frame), b).1
  {
    var entry := Push(st, frame);
    UnwindIsPop(st, frame, b);
    PushSound(st, frame, initial);
    StateEvolvedReflexive(entry);
    PoppedFrameKeeps(st, frame, entry, initial);
    ForgetfulHistory(Pop(entry), b.history, b.clock);
  }

  lemma {:induction false} EndAccountAuthentication(
    before: AccountTracker, a: AccountTracker, b: AccountTracker, verified: bool, ids: seq<FrameId>,
    oldHistory: map<FrameId, AuthStackFrame>, history: map<FrameId, AuthStackFrame>)
    requires AccountGood(before, ids, oldHistory)
    requires a.isBorrowed && AccountEvolved(before, a.(isBorrowed := false)) && AccountEvolved(a, b)
    ensures AccountEvolved(before, b.(isBorrowed := false, verified := verified))
    ensures AccountGood(b, ids, history) && verified ==> AccountGood(b.(isBorrowed := false, verified := true), ids, history)
  {
    hide Good;
  }

  lemma {:induction false} EndAuthenticationEvolves(before: State, st: State, i: nat, b: State, verified: bool, nonces: set<NonceKey>)
    requires StateGood(before) && before.manager.mode.Enforcing?
    requires IsPending(before.manager, st.manager, i) && st == before.(manager := st.manager)
    requires StateEvolved(st, b)
    ensures i < |b.manager.accounts|
    ensures StateEvolved(before, b.(manager := EndAuthentication(b.manager, i, verified), nonces := nonces))
  {
    hide Good, Evolved, InvokersGood, InvokersEvolved, FramesGood, AccountGood, AccountEvolved;
    var m, n := b.manager, EndAuthentication(b.manager, i, verified);
    EndAccountAuthentication(
      before.manager.accounts[i], st.manager.accounts[i], m.accounts[i], verified, b.ids, before.history, b.history);
    forall j | 0 <= j < |n.accounts| ensures AccountEvolved(before.manager.accounts[j], n.accounts[j]) {
      assert AccountEvolved(st.manager.accounts[j], m.accounts[j]);
    }
  }

  lemma {:induction false} EndAuthenticationGood(before: State, st: State, i: nat, b: State, nonces: set<NonceKey>)
    requires StateGood(before) && before.manager.mode.Enforcing?
    requires IsPending(before.manager, st.manager, i) && st == before.(manager := st.manager)
    requires StateEvolved(st, b) && StateGood(b)
    ensures i < |b.manager.accounts|
    ensures StateGood(b.(manager := EndAuthentication(b.manager, i, true), nonces := nonces))
  {
    hide Good, Evolved, InvokersGood, InvokersEvolved, FramesGood, AccountGood, AccountEvolved;
    var m, n := b.manager, EndAuthentication(b.manager, i, true);
    EndAccountAuthentication(
      before.manager.accounts[i], st.manager.accounts[i], m.accounts[i], true, b.ids, before.history, b.history);
    forall j | 0 <= j < |n.accounts| ensures AccountGood(n.accounts[j], b.ids, b.history) {
      assert AccountGood(m.accounts[j], b.ids, b.history);
    }
    assert FramesGood(b.(manager := n, nonces := nonces)) by {
      FramesGoodFrame(b, n, nonces);
    }
  }

  lemma {:induction false} FramesGoodFrame(st: State, m: Manager, nonces: set<NonceKey>)
    requires FramesGood(st) && m.callStack == st.manager.callStack
    ensures FramesGood(st.(manager := m, nonces := nonces))
  {
  }

  /** The end of an authentication. */
  lemma {:induction false} EndAuthenticationKeeps(before: State, st: State, i: nat, b: State, verified: bool, nonces: set<NonceKey>)
    requires StateGood(before) && before.manager.mode.Enforcing?
    requires IsPending(before.manager, st.manager, i) && st == before.(manager := st.manager)
    requires StateEvolved(st, b)
    ensures i < |b.manager.accounts|
    ensures StateEvolved(before, b.(manager := EndAuthentication(b.manager, i, verified), nonces := nonces))
    ensures StateGood(b) && verified ==> StateGood(b.(manager := EndAuthentication(b.manager, i, true), nonces := nonces))
  {
    EndAuthenticationEvolves(before, st, i, b, verified, nonces);
    hide StateGood, StateEvolved, IsPending;
    if StateGood(b) && verified {
      EndAuthenticationGood(before, st, i, b, nonces);
    }
  }

  lemma {:induction false} CheckInvokerKeeps(st: State, address: Address, f: AuthorizedFunction, initial: set<NonceKey>)
    requires Sound(st, initial) && st.ids != [] && Fits(st.history[st.ids[|st.ids| - 1]], f)
    ensures
      var r := CheckInvoker(st.manager, address, f, st.ids[|st.ids| - 1]);
      && !r.Pending?
      && (r.Authorized? || r.Denied? ==> Kept(st, (st.(manager := r.manager), r.Authorized?), initial))
  {
    StateEvolvedReflexive(st);
    if |st.manager.callStack| >= 2 && !IsDirectInvoker(st.manager.callStack, address) {
      ScanInvokersKeeps(st.manager, address, f, 0, st.ids, st.history);
    }
  }

  lemma {:induction false} RunKeeps(acts: seq<Action>, st: State, env: LedgerEnv, initial: set<NonceKey>)
    requires Sound(st, initial)
    ensures Kept(st, Run(acts, st, env), initial)
    decreases acts, 0
  {
    if acts == [] {
      StateEvolvedReflexive(st);
    } else {
      StepKeeps(acts[0], st, env, initial);
      var r := Step(acts[0], st, env);
      if r.1 {
        RunKeeps(acts[1..], r.0, env, initial);
        StateEvolvedTransitive(st, r.0, Run(acts, st, env).0);
      }
    }
  }

  lemma {:induction false} StepKeeps(a: Action, st: State, env: LedgerEnv, initial: set<NonceKey>)
    requires Sound(st, initial)
    ensures Kept(st, Step(a, st, env), initial)
    decreases a, 1
  {
    hide StateGood, NoncesGood, StateEvolved;
    match a
    case Trap => StateEvolvedReflexive(st);
    case Authorize(entries) =>
      var stack := st.manager.callStack;
      StateEvolvedReflexive(st);
      if stack != [] && stack[|stack| - 1].Contract? {
        AddInvokersKeeps(st, stack[|stack| - 1].contract, entries);
      }
    case Invoke(c, name, body) =>
      var frame := Contract(c, name);
      PushSound(st, frame, initial);
      RunKeeps(body, Push(st, frame), env, initial);
      var r := Run(body, Push(st, frame), env);
      if r.1 {
        PoppedFrameKeeps(st, frame, r.0, initial);
      } else {
        UnwoundFrameKeeps(st, frame, r.0, initial);
      }
    case Create(createArgs, body) =>
      var frame := CreateContract(createArgs);
      PushSound(st, frame, initial);
      RunKeeps(body, Push(st, frame), env, initial);
      PoppedFrameKeeps(st, frame, Run(body, Push(st, frame), env).0, initial);
    case Require(_, _, _, _, _) => RequireKeeps(a, st, env, initial);
  }

  lemma {:induction false} RequireKeeps(a: Action, st: State, env: LedgerEnv, initial: set<NonceKey>)
    requires a.Require? && Sound(st, initial)
    ensures Kept(st, RequireAuth(a, st, env), initial)
    decreases a, 0
  {
    hide NoncesGood, StateEvolved;
    if st.ids == [] {
      StateEvolvedReflexive(st);
    } else {
      var m, id := st.manager, st.ids[|st.ids| - 1];
      var f := ToAuthorizedFunction(m.callStack[|m.callStack| - 1], a.args);
      assert Fits(st.history[id], f);
      CheckInvokerKeeps(st, a.address, f, initial);
      if CheckInvoker(m, a.address, f, id).Continue? {
        if m.mode.Recording? {
          RecordKeeps(a, f, st, env, initial);
        } else {
          EnforceKeeps(a, f, st, env, initial);
        }
      }
    }
  }

  lemma {:induction false} RecordKeeps(
    a: Action, f: AuthorizedFunction, st: State, env: LedgerEnv, initial: set<NonceKey>)
    requires a.Require? && Sound(st, initial) && st.manager.mode.Recording?
    requires st.ids != [] && Fits(st.history[st.ids[|st.ids| - 1]], f)
    ensures Kept(st, RecordAuth(a, f, st, env), initial)
  {
    RequireRecordingKeeps(st, a.handle, a.address, f, a.randomNonce, env);
    RequireRecordingKeepsNonces(
      st.manager, a.handle, a.address, f, st.ids[|st.ids| - 1], a.randomNonce, st.nonces, env, initial);
  }

  lemma {:induction false} ScanKeptIsSound(st: State, r: RequireResult, initial: set<NonceKey>)
    requires Sound(st, initial) && st.manager.mode.Enforcing? && ScanKept(st.manager, r, st.ids, st.history)
    ensures r.Authorized? ==> StateEvolved(st, st.(manager := r.manager))
    ensures r.Authorized? || r.Pending? ==> Sound(st.(manager := r.manager), initial)
  {
    if r.Authorized? || r.Pending? {
      SameCredentialsKeepNonces(st.manager.accounts, r.manager.accounts, st.nonces, initial);
    }
    InvokersEvolvedReflexive(st.manager.invokers);
  }

  lemma {:induction false} EnforceKeeps(
    a: Action, f: AuthorizedFunction, st: State, env: LedgerEnv, initial: set<NonceKey>)
    requires a.Require? && Sound(st, initial) && st.manager.mode.Enforcing?
    requires st.ids != [] && Fits(st.history[st.ids[|st.ids| - 1]], f)
    ensures Kept(st, EnforceAuth(a, f, st, env), initial)
    decreases a.authentication, 2
  {
    hide NoncesGood, Good, StateEvolved, InvokersGood, ModeGood, HasActiveTracker;
    var m := st.manager;
    StateEvolvedReflexive(st);
    ScanAccountsKeeps(m, a.address, f, !HasActiveTracker(m, a.address), 0, st.ids, st.history);
    var r := BeginRequireEnforcing(m, a.address, f, st.ids[|st.ids| - 1]);
    ScanKeptIsSound(st, r, initial);
    if r.Pending? {
      AuthenticateKeeps(st, st.(manager := r.manager), r.index, a.authentication, env, initial);
    }
  }

  lemma {:induction false} PendingStays(before: State, st: State, i: nat, b: State)
    requires StateGood(st) && st.manager.mode.Enforcing?
    requires IsPending(before.manager, st.manager, i) && StateEvolved(st, b)
    ensures i < |b.manager.accounts|
    ensures b.manager.accounts[i] == st.manager.accounts[i] && !b.manager.accounts[i].verified
  {
    assert AccountGood(st.manager.accounts[i], st.ids, st.history);
    assert AccountEvolved(st.manager.accounts[i], b.manager.accounts[i]);
  }

  lemma {:induction false} AuthenticateKeeps(
    before: State, st: State, i: nat, acts: seq<Action>, env: LedgerEnv, initial: set<NonceKey>)
    requires StateGood(before) && before.manager.mode.Enforcing? && Sound(st, initial)
    requires IsPending(before.manager, st.manager, i) && st == before.(manager := st.manager)
    ensures Kept(before, Authenticate(st, i, acts, env), initial)
    decreases acts, 1
  {
    hide StateGood, StateEvolved, NoncesGood;
    RunKeeps(acts, st, env, initial);
    var r := Run(acts, st, env);
    var b := r.0;
    EndAuthenticationKeeps(before, st, i, b, false, b.nonces);
    var nonces := ConsumeNonce(b.manager.accounts[i], b.nonces, env);
    if r.1 && nonces.Some? {
      EndAuthenticationKeeps(before, st, i, b, true, nonces.value);
      PendingStays(before, st, i, b);
      VerifyKeepsNonces(b.manager.accounts, i, EndAuthentication(b.manager, i, true).accounts[i], b.nonces, initial, env);
    }
  }
}
