/**
 What recording mode records is what enforcing mode accepts: replaying a run against the
 trees recorded from it succeeds, and uses up every recorded node.

 The run has no failed frame, every address is presented under one object handle, and
 authentication succeeds without calls.
 */
module AuthReplay {
  import opened Prelude
  import opened InvocationTree
  import opened InvocationMatcher
  import opened AuthManager
  import opened AuthRun
  import opened AuthTheorems

  // ---------------------------------------------------------------- runs

  /** No frame of the run fails. */
  ghost predicate AllSucceed(acts: seq<Action>, st: State, env: LedgerEnv)
    decreases acts, 0
  {
    acts == [] || (Succeeds(acts[0], st, env) && AllSucceed(acts[1..], Step(acts[0], st, env).0, env))
  }

  ghost predicate Succeeds(a: Action, st: State, env: LedgerEnv)
    decreases a, 1
  {
    match a
    case Trap => false
    case Authorize(_) => Step(a, st, env).1
    case Require(_, _, _, _, _) => Step(a, st, env).1
    case Invoke(c, name, body) => AllSucceed(body, Push(st, Contract(c, name)), env)
    case Create(createArgs, body) => AllSucceed(body, Push(st, CreateContract(createArgs)), env)
  }

  lemma {:induction false} AllSucceedRuns(acts: seq<Action>, st: State, env: LedgerEnv)
    requires AllSucceed(acts, st, env)
    ensures Run(acts, st, env).1
    decreases acts, 0
  {
    if acts != [] {
      SucceedsSteps(acts[0], st, env);
      AllSucceedRuns(acts[1..], Step(acts[0], st, env).0, env);
    }
  }

  lemma {:induction false} SucceedsSteps(a: Action, st: State, env: LedgerEnv)
    requires Succeeds(a, st, env)
    ensures Step(a, st, env).1
    decreases a, 1
  {
    match a
    case Trap =>
    case Authorize(_) =>
    case Require(_, _, _, _, _) =>
    case Invoke(c, name, body) => AllSucceedRuns(body, Push(st, Contract(c, name)), env);
    case Create(createArgs, body) => AllSucceedRuns(body, Push(st, CreateContract(createArgs)), env);
  }

  /** Every address comes under its one handle, and authentication makes no calls. */
  ghost predicate Plain(acts: seq<Action>, handleOf: Address -> nat)
    decreases acts, 0
  {
    forall i :: 0 <= i < |acts| ==> PlainAction(acts[i], handleOf)
  }

  ghost predicate PlainAction(a: Action, handleOf: Address -> nat)
    decreases a, 1
  {
    match a
    case Trap => true
    case Authorize(_) => true
    case Require(handle, address, _, authentication, _) => handle == handleOf(address) && authentication == []
    case Invoke(_, _, body) => Plain(body, handleOf)
    case Create(_, body) => Plain(body, handleOf)
  }

  ghost predicate Injective(handleOf: Address -> nat) {
    forall a: Address, b: Address :: handleOf(a) == handleOf(b) ==> a == b
  }

  // ---------------------------------------------------------------- trees

  /** `a` is a part of the pattern `b`, whatever the flags. */
  ghost predicate Embeds(a: Node, b: Node)
    decreases a
  {
    && a.fn == b.fn
    && |a.subs| <= |b.subs|
    && forall i :: 0 <= i < |a.subs| ==> Embeds(a.subs[i], b.subs[i])
  }

  /** The exhausted part of the pattern `b` is exactly the recorded tree `a`. */
  ghost predicate Covers(a: Node, b: Node)
    decreases a
  {
    && a.fn == b.fn
    && a.isExhausted && b.isExhausted
    && a.matchedBy == b.matchedBy
    && |a.subs| <= |b.subs|
    && (forall i :: 0 <= i < |a.subs| ==> Covers(a.subs[i], b.subs[i]))
    && forall i :: |a.subs| <= i < |b.subs| ==> Fresh(b.subs[i])
  }

  lemma {:induction false} EmbedsReflexive(a: Node)
    ensures Embeds(a, a)
  {
    forall i | 0 <= i < |a.subs| ensures Embeds(a.subs[i], a.subs[i]) {
      EmbedsReflexive(a.subs[i]);
    }
  }

  lemma {:induction false} EmbedsTransitive(a: Node, b: Node, c: Node)
    requires Embeds(a, b) && Embeds(b, c)
    ensures Embeds(a, c)
    decreases a
  {
    forall i | 0 <= i < |a.subs| ensures Embeds(a.subs[i], c.subs[i]) {
      EmbedsTransitive(a.subs[i], b.subs[i], c.subs[i]);
    }
  }

  lemma {:induction false} AppendEmbeds(n: Node, p: Path, leaf: Node)
    requires ValidPath(n, p)
    ensures Embeds(n, Append(n, p, leaf))
    decreases p
  {
    forall i | 0 <= i < |n.subs| ensures Embeds(n.subs[i], Append(n, p, leaf).subs[i]) {
      EmbedsReflexive(n.subs[i]);
      if p != [] && i == p[0] {
        AppendEmbeds(n.subs[i], p[1..], leaf);
      }
    }
  }

  /** Exhausting a node does not change the pattern. */
  lemma {:induction false} EmbedsInExhausted(a: Node, n: Node, p: Path, id: FrameId)
    requires ValidPath(n, p) && Embeds(a, n)
    ensures Embeds(a, Exhaust(n, p, id))
    decreases p
  {
    if p != [] && p[0] < |a.subs| {
      EmbedsInExhausted(a.subs[p[0]], n.subs[p[0]], p[1..], id);
    }
  }

  lemma {:induction false} EmbedsAt(a: Node, b: Node, p: Path)
    requires Embeds(a, b) && ValidPath(a, p)
    ensures ValidPath(b, p) && Embeds(At(a, p), At(b, p))
    decreases p
  {
    if p != [] {
      EmbedsAt(a.subs[p[0]], b.subs[p[0]], p[1..]);
    }
  }

  lemma {:induction false} CoversAt(a: Node, b: Node, p: Path)
    requires Covers(a, b) && ValidPath(a, p)
    ensures ValidPath(b, p) && Covers(At(a, p), At(b, p))
    decreases p
  {
    if p != [] {
      CoversAt(a.subs[p[0]], b.subs[p[0]], p[1..]);
    }
  }

  /** Recording a child and exhausting the corresponding pattern node keep trees covered. */
  lemma {:induction false} CoversStep(a: Node, b: Node, p: Path, f: AuthorizedFunction, id: FrameId)
    requires Covers(a, b) && ValidPath(a, p)
    requires Embeds(Append(a, p, NewRecordingNode(f, id)), b)
    ensures
      var k := |At(a, p).subs|;
      && ValidPath(b, p + [k])
      && At(b, p + [k]).fn == f && !At(b, p + [k]).isExhausted
      && Covers(Append(a, p, NewRecordingNode(f, id)), Exhaust(b, p + [k], id))
    decreases p
  {
    var leaf, k := NewRecordingNode(f, id), |At(a, p).subs|;
    var a', b' := Append(a, p, leaf), b;
    if p == [] {
      assert p + [k] == [k] && [k][1..] == [];
      assert Embeds(a'.subs[k], b.subs[k]);
      assert Fresh(b.subs[k]);
      assert ValidPath(b.subs[k], []);
      b' := Exhaust(b, [k], id);
      assert Exhaust(b.subs[k], [], id) == b.subs[k].(isExhausted := true, matchedBy := Some(id));
      assert b'.subs[k] == Exhaust(b.subs[k], [], id);
      forall i | 0 <= i < |a'.subs| ensures Covers(a'.subs[i], b'.subs[i]) {
        if i < |a.subs| {
          assert Covers(a.subs[i], b.subs[i]);
        }
      }
      forall i | |a'.subs| <= i < |b'.subs| ensures Fresh(b'.subs[i]) {
        assert b'.subs[i] == b.subs[i];
      }
    } else {
      var j := p[0];
      assert (p + [k])[0] == j && (p + [k])[1..] == p[1..] + [k];
      assert Embeds(a'.subs[j], b.subs[j]);
      CoversStep(a.subs[j], b.subs[j], p[1..], f, id);
      b' := Exhaust(b, p + [k], id);
      forall i | 0 <= i < |a'.subs| ensures Covers(a'.subs[i], b'.subs[i]) {
        if i != j {
          assert Covers(a.subs[i], b.subs[i]);
        }
      }
    }
  }

  /** A recorded tree as the pattern it becomes: `to_xdr`. */
  function ToXdr(n: Node): Invocation {
    Invocation(n.fn, ToXdrAll(n.subs))
  }

  function ToXdrAll(ns: seq<Node>): seq<Invocation> {
    if ns == [] then [] else [ToXdr(ns[0])] + ToXdrAll(ns[1..])
  }

  lemma {:induction false} ToXdrAllAt(ns: seq<Node>)
    ensures |ToXdrAll(ns)| == |ns|
    ensures forall i :: 0 <= i < |ns| ==> ToXdrAll(ns)[i] == ToXdr(ns[i])
  {
    if ns != [] {
      ToXdrAllAt(ns[1..]);
      forall i | 0 <= i < |ns| ensures ToXdrAll(ns)[i] == ToXdr(ns[i]) {
        if i > 0 {
          assert ToXdrAll(ns)[i] == ToXdrAll(ns[1..])[i - 1] && ns[1..][i - 1] == ns[i];
        }
      }
    }
  }

  /** The pattern read back from a recorded tree has its shape, both ways. */
  lemma {:induction false} RoundTripEmbeds(n: Node)
    ensures Embeds(n, FromXdr(ToXdr(n))) && Embeds(FromXdr(ToXdr(n)), n)
  {
    var x := ToXdr(n);
    var m := FromXdr(x);
    ToXdrAllAt(n.subs);
    FromXdrAllIsFresh(x.subs);
    forall i | 0 <= i < |n.subs| ensures Embeds(n.subs[i], m.subs[i]) && Embeds(m.subs[i], n.subs[i]) {
      RoundTripEmbeds(n.subs[i]);
    }
  }

  /** Every node of the tree has been used. */
  ghost predicate AllExhausted(n: Node) {
    n.isExhausted && forall i :: 0 <= i < |n.subs| ==> AllExhausted(n.subs[i])
  }

  lemma {:induction false} CoveredIsExhausted(a: Node, b: Node)
    requires Covers(a, b) && Embeds(b, a)
    ensures AllExhausted(b)
    decreases a
  {
    forall i | 0 <= i < |b.subs| ensures AllExhausted(b.subs[i]) {
      CoveredIsExhausted(a.subs[i], b.subs[i]);
    }
  }

  // ---------------------------------------------------------------- the simulation

  /** The credentials an enforcing tracker takes from a recorded one. */
  ghost predicate SamePayload(a: AccountTracker, b: AccountTracker, env: LedgerEnv) {
    && a.address == b.address
    && a.isTransactionSourceAccount == b.isTransactionSourceAccount
    && !b.isBorrowed
    && (!a.isTransactionSourceAccount ==>
          && a.nonce.Some? && b.nonce.Some?
          && a.nonce.value.value == b.nonce.value.value
          && env.ledgerSeq <= b.nonce.value.liveUntil <= env.maxLiveUntil)
  }

  /** An enforcing tracker that has followed a recorded one. */
  ghost predicate Follows(a: AccountTracker, b: AccountTracker) {
    && b.verified && !b.isBorrowed && !a.isBorrowed && a.address == b.address
    && Covers(a.tracker.root, b.tracker.root)
    && b.tracker == a.tracker.(root := b.tracker.root)
  }

  /** An enforcing tracker whose root has not been required yet, under `depth` frames. */
  ghost predicate Waits(b: AccountTracker, depth: nat) {
    && !b.verified && !b.isBorrowed
    && Fresh(b.tracker.root)
    && b.tracker == Tracker(b.tracker.root, AllUnmatched(depth), None, false)
  }

  ghost predicate AccountsSimulate(xs: seq<AccountTracker>, ys: seq<AccountTracker>, depth: nat) {
    && |xs| <= |ys|
    && (forall i :: 0 <= i < |xs| ==> Follows(xs[i], ys[i]))
    && forall i :: |xs| <= i < |ys| ==> Waits(ys[i], depth)
  }

  /** The recorded trees fit in the patterns that are enforced. */
  ghost predicate Fit(xs: seq<AccountTracker>, ys: seq<AccountTracker>, env: LedgerEnv) {
    && |xs| <= |ys|
    && forall i :: 0 <= i < |xs| ==> SamePayload(xs[i], ys[i], env) && Embeds(xs[i].tracker.root, ys[i].tracker.root)
  }

  /** The tracker that is in the stack for an address, if any, is the one its handle leads to. */
  ghost predicate HandlesLead(m: Manager, handleOf: Address -> nat) {
    && m.mode.Recording?
    && (forall h :: h in m.mode.trackerByHandle ==>
          && m.mode.trackerByHandle[h] < |m.accounts|
          && handleOf(m.accounts[m.mode.trackerByHandle[h]].address) == h)
    && forall i :: 0 <= i < |m.accounts| && HasMatchedInvocationsInStack(m.accounts[i].tracker) ==>
         && handleOf(m.accounts[i].address) in m.mode.trackerByHandle
         && m.mode.trackerByHandle[handleOf(m.accounts[i].address)] == i
  }

  /** The enforcing state `e` has followed the recording state `r`. */
  ghost predicate Simulates(r: State, e: State, handleOf: Address -> nat) {
    && e == r.(manager := e.manager)
    && e.manager.mode.Enforcing?
    && e.manager.callStack == r.manager.callStack
    && e.manager.invokers == r.manager.invokers
    && AccountsSimulate(r.manager.accounts, e.manager.accounts, |r.ids|)
    && HandlesLead(r.manager, handleOf)
  }

  // ---------------------------------------------------------------- recorded trees only grow

  ghost predicate AccountGrows(a: AccountTracker, b: AccountTracker) {
    && a.address == b.address && a.nonce == b.nonce
    && a.isTransactionSourceAccount == b.isTransactionSourceAccount
    && Embeds(a.tracker.root, b.tracker.root)
  }

  /** The credentials recording gives to a tracker. */
  ghost predicate FromRecording(a: AccountTracker, env: LedgerEnv) {
    && a.isTransactionSourceAccount == (env.sourceAccount == Some(a.address))
    && (!a.isTransactionSourceAccount ==> a.nonce.Some?)
  }

  ghost predicate AccountsGrow(xs: seq<AccountTracker>, ys: seq<AccountTracker>, env: LedgerEnv) {
    && |xs| <= |ys|
    && (forall i :: 0 <= i < |xs| ==> AccountGrows(xs[i], ys[i]))
    && forall i :: |xs| <= i < |ys| ==> FromRecording(ys[i], env)
  }

  lemma {:induction false} AccountsGrowReflexive(xs: seq<AccountTracker>, env: LedgerEnv)
    ensures AccountsGrow(xs, xs, env)
  {
    forall i | 0 <= i < |xs| ensures AccountGrows(xs[i], xs[i]) {
      EmbedsReflexive(xs[i].tracker.root);
    }
  }

  lemma {:induction false} AccountsGrowTransitive(
    xs: seq<AccountTracker>, ys: seq<AccountTracker>, zs: seq<AccountTracker>, env: LedgerEnv)
    requires AccountsGrow(xs, ys, env) && AccountsGrow(ys, zs, env)
    ensures AccountsGrow(xs, zs, env)
  {
    forall i | 0 <= i < |xs| ensures AccountGrows(xs[i], zs[i]) {
      assert AccountGrows(xs[i], ys[i]) && AccountGrows(ys[i], zs[i]);
      EmbedsTransitive(xs[i].tracker.root, ys[i].tracker.root, zs[i].tracker.root);
    }
    forall i | |xs| <= i < |zs| ensures FromRecording(zs[i], env) {
      if i < |ys| {
        assert FromRecording(ys[i], env) && AccountGrows(ys[i], zs[i]);
      }
    }
  }

  /** Accounts that differ in their stacks only. */
  ghost predicate SameTrees(xs: seq<AccountTracker>, ys: seq<AccountTracker>) {
    |xs| == |ys| &&
    forall i :: 0 <= i < |xs| ==> SameCredential(xs[i], ys[i]) && xs[i].tracker.root == ys[i].tracker.root
  }

  lemma {:induction false} SameTreesGrow(xs: seq<AccountTracker>, ys: seq<AccountTracker>, env: LedgerEnv)
    requires SameTrees(xs, ys)
    ensures AccountsGrow(xs, ys, env)
  {
    forall i | 0 <= i < |xs| ensures AccountGrows(xs[i], ys[i]) {
      EmbedsReflexive(xs[i].tracker.root);
    }
  }

  lemma {:induction false} RecordInGrows(m: Manager, i: nat, f: AuthorizedFunction, id: FrameId, nonces: set<NonceKey>, env: LedgerEnv)
    requires i < |m.accounts|
    ensures
      var r := RecordIn(m, i, f, id, nonces);
      r.Recorded? ==> AccountsGrow(m.accounts, r.manager.accounts, env)
  {
    hide Embeds;
    var t := m.accounts[i].tracker;
    AccountsGrowReflexive(m.accounts, env);
    if Record(t, f, id).Some? {
      AppendEmbeds(t.root, LastAuthorized(t.root, t.stack, 0).path, NewRecordingNode(f, id));
    }
  }

  lemma {:induction false} RequireRecordingGrows(
    m: Manager, handle: nat, address: Address, f: AuthorizedFunction, id: FrameId, randomNonce: int,
    nonces: set<NonceKey>, env: LedgerEnv)
    requires m.mode.Recording? && m.callStack != []
    ensures
      var r := RequireRecording(m, handle, address, f, id, randomNonce, nonces, env);
      r.Recorded? ==> AccountsGrow(m.accounts, r.manager.accounts, env)
  {
    hide Embeds, RecordIn;
    var byHandle := m.mode.trackerByHandle;
    AccountsGrowReflexive(m.accounts, env);
    if handle in byHandle && byHandle[handle] < |m.accounts| {
      RecordInGrows(m, byHandle[handle], f, id, nonces, env);
    }
    var m1 := m.(mode := m.mode.(trackerByHandle := byHandle - {handle}));
    if FindRecordable(m1.accounts, address, 0).Some? {
      RecordInGrows(m1, FindRecordable(m1.accounts, address, 0).value, f, id, nonces, env);
    }
  }

  lemma {:induction false} ScanInvokersKeepsAccounts(m: Manager, address: Address, f: AuthorizedFunction, id: FrameId, i: nat)
    requires i <= |m.invokers|
    ensures
      var r := ScanInvokers(m, address, f, id, i);
      && !r.Pending?
      && (!r.Continue? ==> r.manager == m.(invokers := r.manager.invokers))
    decreases |m.invokers| - i
  {
    if i < |m.invokers| {
      ScanInvokersKeepsAccounts(m, address, f, id, i + 1);
    }
  }

  lemma {:induction false} RunGrows(acts: seq<Action>, r: State, env: LedgerEnv)
    requires AllSucceed(acts, r, env) && r.manager.mode.Recording?
    ensures AccountsGrow(r.manager.accounts, Run(acts, r, env).0.manager.accounts, env)
    ensures Run(acts, r, env).0.manager.mode.Recording?
    decreases acts, 0
  {
    hide AccountsGrow;
    if acts == [] {
      AccountsGrowReflexive(r.manager.accounts, env);
    } else {
      var s := Step(acts[0], r, env).0;
      SucceedsSteps(acts[0], r, env);
      StepGrows(acts[0], r, env);
      RunGrows(acts[1..], s, env);
      AccountsGrowTransitive(r.manager.accounts, s.manager.accounts, Run(acts, r, env).0.manager.accounts, env);
    }
  }

  lemma {:induction false} FrameGrows(body: seq<Action>, frame: AuthStackFrame, r: State, env: LedgerEnv)
    requires AllSucceed(body, Push(r, frame), env) && r.manager.mode.Recording?
    ensures
      var b := Pop(Run(body, Push(r, frame), env).0).manager;
      AccountsGrow(r.manager.accounts, b.accounts, env) && b.mode.Recording?
    decreases body, 1
  {
    hide AccountsGrow;
    var b := Run(body, Push(r, frame), env).0;
    RunGrows(body, Push(r, frame), env);
    SameTreesGrow(r.manager.accounts, Push(r, frame).manager.accounts, env);
    SameTreesGrow(b.manager.accounts, Pop(b).manager.accounts, env);
    AccountsGrowTransitive(r.manager.accounts, Push(r, frame).manager.accounts, b.manager.accounts, env);
    AccountsGrowTransitive(r.manager.accounts, b.manager.accounts, Pop(b).manager.accounts, env);
  }

  lemma {:induction false} StepGrows(a: Action, r: State, env: LedgerEnv)
    requires Succeeds(a, r, env) && r.manager.mode.Recording?
    ensures AccountsGrow(r.manager.accounts, Step(a, r, env).0.manager.accounts, env)
    ensures Step(a, r, env).0.manager.mode.Recording?
    decreases a, 1
  {
    hide AccountsGrow;
    AccountsGrowReflexive(r.manager.accounts, env);
    match a
    case Trap =>
    case Authorize(_) =>
    case Invoke(c, name, body) =>
      FrameGrows(body, Contract(c, name), r, env);
      AllSucceedRuns(body, Push(r, Contract(c, name)), env);
    case Create(createArgs, body) =>
      FrameGrows(body, CreateContract(createArgs), r, env);
      AllSucceedRuns(body, Push(r, CreateContract(createArgs)), env);
    case Require(_, _, _, _, _) =>
      assert RequireAuth(a, r, env).1;
      var m, id := r.manager, r.ids[|r.ids| - 1];
      var f := ToAuthorizedFunction(m.callStack[|m.callStack| - 1], a.args);
      ScanInvokersKeepsAccounts(m, a.address, f, id, 0);
      if CheckInvoker(m, a.address, f, id).Continue? {
        RequireRecordingGrows(m, a.handle, a.address, f, id, a.randomNonce, r.nonces, env);
        RequireRecordingStaysRecording(m, a.handle, a.address, f, id, a.randomNonce, r.nonces, env);
      }
  }

  lemma {:induction false} RequireRecordingStaysRecording(
    m: Manager, handle: nat, address: Address, f: AuthorizedFunction, id: FrameId, randomNonce: int,
    nonces: set<NonceKey>, env: LedgerEnv)
    requires m.mode.Recording? && m.callStack != []
    ensures RequireRecording(m, handle, address, f, id, randomNonce, nonces, env).manager.mode.Recording?
  {
  }

  // ---------------------------------------------------------------- frames

  lemma {:induction false} PushKeepsMatched(t: Tracker)
    ensures HasMatchedInvocationsInStack(PushFrame(t)) <==> HasMatchedInvocationsInStack(t)
  {
    var u := PushFrame(t);
    if HasMatchedInvocationsInStack(t) {
      var i :| 0 <= i < |t.stack| && t.stack[i] != Unmatched;
      assert u.stack[i] != Unmatched;
    }
  }

  lemma {:induction false} PopKeepsUnmatched(t: Tracker)
    ensures HasMatchedInvocationsInStack(PopFrame(t)) ==> HasMatchedInvocationsInStack(t)
  {
    var u := PopFrame(t);
    if HasMatchedInvocationsInStack(u) {
      var i :| 0 <= i < |u.stack| && u.stack[i] != Unmatched;
      assert t.stack[i] != Unmatched;
    }
  }

  lemma {:induction false} PushSimulates(r: State, e: State, frame: AuthStackFrame, handleOf: Address -> nat)
    requires Simulates(r, e, handleOf)
    ensures Simulates(Push(r, frame), Push(e, frame), handleOf)
  {
    hide Covers, Fresh, HasMatchedInvocationsInStack;
    var xs, ys := r.manager.accounts, e.manager.accounts;
    var xs', ys' := PushAccounts(xs), PushAccounts(ys);
    forall i | 0 <= i < |xs|
      ensures Follows(xs'[i], ys'[i])
      ensures HasMatchedInvocationsInStack(xs'[i].tracker) <==> HasMatchedInvocationsInStack(xs[i].tracker)
    {
      assert Follows(xs[i], ys[i]);
      PushKeepsMatched(xs[i].tracker);
    }
    forall i | |xs| <= i < |ys| ensures Waits(ys'[i], |r.ids| + 1) {
      assert Waits(ys[i], |r.ids|);
      assert ys'[i].tracker.stack == AllUnmatched(|r.ids| + 1);
    }
  }

  lemma {:induction false} PopSimulates(r: State, e: State, handleOf: Address -> nat)
    requires Simulates(r, e, handleOf) && r.ids != [] && r.manager.callStack != []
    ensures Simulates(Pop(r), Pop(e), handleOf)
  {
    hide Covers, Fresh, HasMatchedInvocationsInStack;
    var xs, ys := r.manager.accounts, e.manager.accounts;
    var xs', ys' := PopAccounts(xs), PopAccounts(ys);
    forall i | 0 <= i < |xs|
      ensures Follows(xs'[i], ys'[i])
      ensures HasMatchedInvocationsInStack(xs'[i].tracker) ==> HasMatchedInvocationsInStack(xs[i].tracker)
    {
      assert Follows(xs[i], ys[i]);
      PopKeepsUnmatched(xs[i].tracker);
    }
    forall i | |xs| <= i < |ys| ensures Waits(ys'[i], |r.ids| - 1) {
      assert Waits(ys[i], |r.ids|);
      assert ys'[i].tracker.stack == AllUnmatched(|r.ids| - 1);
    }
  }

  // ---------------------------------------------------------------- invoker contracts

  /** The invoker trackers decide in the same way whatever the accounts are. */
  lemma {:induction false} ScanInvokersAgrees(
    m: Manager, n: Manager, address: Address, f: AuthorizedFunction, id: FrameId, i: nat)
    requires m.invokers == n.invokers && i <= |m.invokers|
    ensures
      var x, y := ScanInvokers(m, address, f, id, i), ScanInvokers(n, address, f, id, i);
      && (x.Continue? <==> y.Continue?)
      && (x.Authorized? ==> y == Authorized(n.(invokers := x.manager.invokers)))
    decreases |m.invokers| - i
  {
    if i < |m.invokers| {
      ScanInvokersAgrees(m, n, address, f, id, i + 1);
    }
  }

  lemma {:induction false} CheckInvokerAgrees(m: Manager, n: Manager, address: Address, f: AuthorizedFunction, id: FrameId)
    requires m.invokers == n.invokers && m.callStack == n.callStack
    ensures
      var x, y := CheckInvoker(m, address, f, id), CheckInvoker(n, address, f, id);
      && (x.Continue? <==> y.Continue?)
      && (x.Authorized? ==>
            x.manager == m.(invokers := x.manager.invokers) && y == Authorized(n.(invokers := x.manager.invokers)))
  {
    ScanInvokersAgrees(m, n, address, f, id, 0);
    ScanInvokersKeepsAccounts(m, address, f, id, 0);
  }

  // ---------------------------------------------------------------- trackers that do not match

  lemma {:induction false} UnmatchedStackHasNoMatch(root: Node, stack: seq<MatchState>, i: nat)
    requires i <= |stack| && forall j :: 0 <= j < |stack| ==> stack[j] == Unmatched
    ensures LastAuthorized(root, stack, i) == NoMatch
    decreases |stack| - i
  {
    if i < |stack| {
      UnmatchedStackHasNoMatch(root, stack, i + 1);
    }
  }

  /** A tracker whose root is used and off the stack matches nothing more. */
  lemma {:induction false} FinishedMatchesNothing(t: Tracker, f: AuthorizedFunction, allowRoot: bool, id: FrameId)
    requires t.root.isExhausted && !HasMatchedInvocationsInStack(t)
    ensures Extend(t, f, allowRoot, id) == NotMatched
  {
    UnmatchedStackHasNoMatch(t.root, t.stack, 0);
  }

  /** The scan passes over trackers of other addresses and trackers that do not match. */
  ghost predicate Passes(a: AccountTracker, address: Address, f: AuthorizedFunction, allowRoot: bool, id: FrameId) {
    a.address == address ==> Extend(a.tracker, f, allowRoot, id) == NotMatched
  }

  lemma {:induction false} ScanReaches(
    m: Manager, address: Address, f: AuthorizedFunction, allowRoot: bool, id: FrameId, i: nat, k: nat)
    requires i <= k <= |m.accounts|
    requires forall j :: i <= j < k ==> Passes(m.accounts[j], address, f, allowRoot, id)
    ensures ScanAccounts(m, address, f, allowRoot, id, i) == ScanAccounts(m, address, f, allowRoot, id, k)
    decreases k - i
  {
    hide Extend;
    if i < k {
      assert Passes(m.accounts[i], address, f, allowRoot, id);
      ScanReaches(m, address, f, allowRoot, id, i + 1, k);
    }
  }

  // ---------------------------------------------------------------- extending a recorded tree

  /** The child that enforcing finds is the one that recording added. */
  lemma {:induction false} FindSubFindsRecorded(a: Node, b: Node, f: AuthorizedFunction)
    requires Covers(a, b) && |a.subs| < |b.subs| && b.subs[|a.subs|].fn == f && !b.subs[|a.subs|].isExhausted
    ensures FindSub(b.subs, f, 0) == Some(|a.subs|)
  {
    var r := FindSub(b.subs, f, 0);
    forall i | 0 <= i < |a.subs| ensures b.subs[i].isExhausted {
      assert Covers(a.subs[i], b.subs[i]);
    }
  }

  lemma {:induction false} ExtendFollowsRecord(
    t: Tracker, u: Tracker, ids: seq<FrameId>, history: map<FrameId, AuthStackFrame>, f: AuthorizedFunction,
    allowRoot: bool)
    requires Good(t, ids, history) && Good(u, ids, history) && ids != [] && HasRoot(t.stack)
    requires u == t.(root := u.root) && Covers(t.root, u.root)
    requires Fits(history[ids[|ids| - 1]], f)
    requires Record(t, f, ids[|ids| - 1]).Some?
    requires Embeds(Record(t, f, ids[|ids| - 1]).value.root, u.root)
    ensures
      var t', x := Record(t, f, ids[|ids| - 1]).value, Extend(u, f, allowRoot, ids[|ids| - 1]);
      x.Matched? && Covers(t'.root, x.tracker.root) && x.tracker == t'.(root := x.tracker.root)
  {
    hide Good, Covers, Embeds, Append, Exhaust;
    var id := ids[|ids| - 1];
    RecordKeepsGood(t, ids, history, f);
    GoodIsLinked(t, ids, history);
    GoodIsLinked(u, ids, history);
    WalkFindsDeepestMatch(t.root, t.stack, ids);
    WalkFindsDeepestMatch(u.root, u.stack, ids);
    var p := PathOf(t.stack);
    var k := |At(t.root, p).subs|;
    CoversStep(t.root, u.root, p, f, id);
    CoversAt(t.root, u.root, p);
    AtConcat(u.root, p, [k]);
    FindSubFindsRecorded(At(t.root, p), At(u.root, p), f);
  }

  lemma {:induction false} GoodIsLinked(t: Tracker, ids: seq<FrameId>, history: map<FrameId, AuthStackFrame>)
    requires Good(t, ids, history)
    ensures |ids| == |t.stack| && Linked(t.root, t.stack, ids)
  {
  }

  /** Both managers are good, for the frame that requires `f`. */
  ghost predicate Ready(r: State, e: State, f: AuthorizedFunction, handleOf: Address -> nat) {
    && Simulates(r, e, handleOf) && Injective(handleOf)
    && AccountsGood(r.manager.accounts, r.ids, r.history)
    && AccountsGood(e.manager.accounts, r.ids, r.history)
    && r.ids != [] && r.ids[|r.ids| - 1] in r.history && Fits(r.history[r.ids[|r.ids| - 1]], f)
    && Chain(r.ids) && forall i :: 0 <= i < |r.ids| ==> r.ids[i] in r.history
  }

  /** A recorded tracker that is off the stack is passed over when enforcing. */
  lemma {:induction false} FollowerPasses(
    a: AccountTracker, b: AccountTracker, address: Address, f: AuthorizedFunction, allowRoot: bool, id: FrameId)
    requires Follows(a, b) && (a.address == address ==> !HasMatchedInvocationsInStack(a.tracker))
    ensures Passes(b, address, f, allowRoot, id)
  {
    hide Extend;
    if a.address == address {
      FinishedMatchesNothing(b.tracker, f, allowRoot, id);
    }
  }

  lemma {:induction false} ExtendingReplays(
    r: State, e: State, k: nat, f: AuthorizedFunction, handleOf: Address -> nat) returns (u: Tracker)
    requires Ready(r, e, f, handleOf) && k < |r.manager.accounts|
    requires HasMatchedInvocationsInStack(r.manager.accounts[k].tracker)
    requires Record(r.manager.accounts[k].tracker, f, r.ids[|r.ids| - 1]).Some?
    requires Embeds(Record(r.manager.accounts[k].tracker, f, r.ids[|r.ids| - 1]).value.root,
                    e.manager.accounts[k].tracker.root)
    ensures
      var a, b := r.manager.accounts[k], e.manager.accounts[k];
      && BeginRequireEnforcing(e.manager, a.address, f, r.ids[|r.ids| - 1])
         == Authorized(e.manager.(accounts := e.manager.accounts[k := b.(tracker := u)]))
      && Follows(a.(tracker := Record(a.tracker, f, r.ids[|r.ids| - 1]).value), b.(tracker := u))
  {
    hide Good, Covers, Embeds, Extend, Record, HasMatchedInvocationsInStack, Fits, Chain;
    var xs, ys, id := r.manager.accounts, e.manager.accounts, r.ids[|r.ids| - 1];
    var address, allowRoot := xs[k].address, !HasActiveTracker(e.manager, xs[k].address);
    forall j | 0 <= j < k ensures Passes(ys[j], address, f, allowRoot, id) {
      assert Follows(xs[j], ys[j]);
      FollowerPasses(xs[j], ys[j], address, f, allowRoot, id);
    }
    ScanReaches(e.manager, address, f, allowRoot, id, 0, k);
    assert Follows(xs[k], ys[k]);
    assert AccountGood(xs[k], r.ids, r.history) && AccountGood(ys[k], r.ids, r.history);
    assert r.ids[..|r.ids|] == r.ids;
    ActiveIffRootOnStack(xs[k].tracker, r.ids, r.history);
    ExtendFollowsRecord(xs[k].tracker, ys[k].tracker, r.ids, r.history, f, allowRoot);
    u := Extend(ys[k].tracker, f, allowRoot, id).tracker;
  }

  /** No tracker of the address is active when enforcing, if none is in the recorded stack. */
  lemma {:induction false} NoActiveTracker(r: State, e: State, f: AuthorizedFunction, address: Address, handleOf: Address -> nat)
    requires Ready(r, e, f, handleOf)
    requires forall i :: 0 <= i < |r.manager.accounts| && r.manager.accounts[i].address == address ==>
      !HasMatchedInvocationsInStack(r.manager.accounts[i].tracker)
    ensures !HasActiveTracker(e.manager, address)
  {
    hide Good, Covers, HasMatchedInvocationsInStack, Fits, Chain;
    var xs, ys := r.manager.accounts, e.manager.accounts;
    forall i | 0 <= i < |ys| ensures !IsActiveForCurrentFrame(ys[i], address) {
      if i < |xs| {
        assert Follows(xs[i], ys[i]);
        assert AccountGood(xs[i], r.ids, r.history) && r.ids[..|r.ids|] == r.ids;
        ActiveIffRootOnStack(xs[i].tracker, r.ids, r.history);
        FollowerActive(xs[i], ys[i]);
      } else {
        assert Waits(ys[i], |r.ids|);
      }
    }
  }

  lemma {:induction false} FollowerActive(a: AccountTracker, b: AccountTracker)
    requires Follows(a, b)
    ensures IsActive(b.tracker) <==> IsActive(a.tracker)
  {
  }

  /** The tracker that waits for a root match, once it is matched. */
  function RootMatched(b: AccountTracker, depth: nat, id: FrameId): Tracker
    requires depth > 0
  {
    Tracker(b.tracker.root.(isExhausted := true, matchedBy := Some(id)),
            AllUnmatched(depth - 1) + [RootMatch], Some(depth - 1), false)
  }

  lemma {:induction false} WaiterMatches(b: AccountTracker, depth: nat, f: AuthorizedFunction, id: FrameId)
    requires Waits(b, depth) && depth > 0 && b.tracker.root.fn == f
    ensures Extend(b.tracker, f, true, id) == Matched(RootMatched(b, depth, id))
  {
    UnmatchedStackHasNoMatch(b.tracker.root, b.tracker.stack, 0);
    assert SetTop(b.tracker.stack, RootMatch) == AllUnmatched(depth - 1) + [RootMatch];
  }

  lemma {:induction false} CreatingReplays(
    r: State, e: State, f: AuthorizedFunction, address: Address, handleOf: Address -> nat)
    requires Ready(r, e, f, handleOf) && |r.manager.accounts| < |e.manager.accounts|
    requires forall i :: 0 <= i < |r.manager.accounts| && r.manager.accounts[i].address == address ==>
      !HasMatchedInvocationsInStack(r.manager.accounts[i].tracker)
    requires e.manager.accounts[|r.manager.accounts|].address == address
    requires e.manager.accounts[|r.manager.accounts|].tracker.root.fn == f
    ensures
      var n, id := |r.manager.accounts|, r.ids[|r.ids| - 1];
      var b := e.manager.accounts[n];
      BeginRequireEnforcing(e.manager, address, f, id)
      == Pending(e.manager.(accounts := e.manager.accounts[n :=
           b.(tracker := RootMatched(b, |r.ids|, id), isBorrowed := true)]), n)
  {
    NoActiveTracker(r, e, f, address, handleOf);
    hide Good, Covers, Extend, HasMatchedInvocationsInStack, Fits, Chain, Fresh;
    var xs, ys, id := r.manager.accounts, e.manager.accounts, r.ids[|r.ids| - 1];
    forall j | 0 <= j < |xs| ensures Passes(ys[j], address, f, true, id) {
      assert Follows(xs[j], ys[j]);
      FollowerPasses(xs[j], ys[j], address, f, true, id);
    }
    ScanReaches(e.manager, address, f, true, id, 0, |xs|);
    assert Waits(ys[|xs|], |r.ids|);
    WaiterMatches(ys[|xs|], |r.ids|, f, id);
  }

  // ---------------------------------------------------------------- one requirement

  lemma {:induction false} FollowersStay(
    xs: seq<AccountTracker>, ys: seq<AccountTracker>, depth: nat, k: nat, a: AccountTracker, b: AccountTracker)
    requires AccountsSimulate(xs, ys, depth) && k < |xs| && Follows(a, b)
    ensures AccountsSimulate(xs[k := a], ys[k := b], depth)
  {
    hide Follows, Waits;
    var xs', ys' := xs[k := a], ys[k := b];
    forall i | 0 <= i < |xs| ensures Follows(xs'[i], ys'[i]) {
      assert Follows(xs[i], ys[i]);
    }
    forall i | |xs| <= i < |ys| ensures Waits(ys'[i], depth) {
      assert Waits(ys[i], depth);
    }
  }

  lemma {:induction false} FollowerJoins(
    xs: seq<AccountTracker>, ys: seq<AccountTracker>, depth: nat, a: AccountTracker, b: AccountTracker)
    requires AccountsSimulate(xs, ys, depth) && |xs| < |ys| && Follows(a, b)
    ensures AccountsSimulate(xs + [a], ys[|xs| := b], depth)
  {
    hide Follows, Waits;
    var xs', ys' := xs + [a], ys[|xs| := b];
    forall i | 0 <= i < |xs'| ensures Follows(xs'[i], ys'[i]) {
      if i < |xs| {
        assert Follows(xs[i], ys[i]);
      }
    }
    forall i | |xs'| <= i < |ys| ensures Waits(ys'[i], depth) {
      assert Waits(ys[i], depth);
    }
  }

  /** Where recording found a tracker in the stack, enforcing extends its follower. */
  lemma {:induction false} ExtendingSimulates(
    a: Action, f: AuthorizedFunction, r: State, e: State, k: nat, env: LedgerEnv, handleOf: Address -> nat)
    requires Ready(r, e, f, handleOf) && a.Require? && k < |r.manager.accounts|
    requires r.manager.accounts[k].address == a.address
    requires HasMatchedInvocationsInStack(r.manager.accounts[k].tracker)
    requires RecordIn(r.manager, k, f, r.ids[|r.ids| - 1], r.nonces).Recorded?
    requires Fit(RecordIn(r.manager, k, f, r.ids[|r.ids| - 1], r.nonces).manager.accounts, e.manager.accounts, env)
    ensures
      var m, x := RecordIn(r.manager, k, f, r.ids[|r.ids| - 1], r.nonces).manager, EnforceAuth(a, f, e, env);
      x.1 && Simulates(r.(manager := m), x.0, handleOf)
  {
    hide Good, Covers, Embeds, Extend, Fits, Chain, Follows, AccountsGood, AccountsSimulate, BeginRequireEnforcing, HasRoot;
    var id := r.ids[|r.ids| - 1];
    var m := RecordIn(r.manager, k, f, id, r.nonces).manager;
    assert Embeds(m.accounts[k].tracker.root, e.manager.accounts[k].tracker.root);
    assert |r.manager.accounts| <= |e.manager.accounts|;
    var u := ExtendingReplays(r, e, k, f, handleOf);
    FollowersStay(r.manager.accounts, e.manager.accounts, |r.ids|, k, m.accounts[k], e.manager.accounts[k].(tracker := u));
    assert HasMatchedInvocationsInStack(m.accounts[k].tracker) ==> HasMatchedInvocationsInStack(r.manager.accounts[k].tracker);
  }

  lemma {:induction false} NewFollower(
    b: AccountTracker, address: Address, f: AuthorizedFunction, depth: nat, id: FrameId, randomNonce: int, env: LedgerEnv)
    requires Waits(b, depth) && depth > 0 && b.address == address && b.tracker.root.fn == f
    ensures Follows(NewRecordingAccount(address, f, depth, id, randomNonce, env),
                    b.(tracker := RootMatched(b, depth, id), verified := true, isBorrowed := false))
  {
  }

  /** Where recording started a tree, enforcing matches the root of the next waiting tracker. */
  lemma {:induction false} CreatingSimulates(
    a: Action, f: AuthorizedFunction, r: State, e: State, env: LedgerEnv, handleOf: Address -> nat)
    requires Ready(r, e, f, handleOf) && a.Require? && a.handle == handleOf(a.address) && a.authentication == []
    requires forall i :: 0 <= i < |r.manager.accounts| && r.manager.accounts[i].address == a.address ==>
      !HasMatchedInvocationsInStack(r.manager.accounts[i].tracker)
    requires
      var x := NewRecordingAccount(a.address, f, |r.ids|, r.ids[|r.ids| - 1], a.randomNonce, env);
      && Fit(r.manager.accounts + [x], e.manager.accounts, env)
      && (x.isTransactionSourceAccount || (a.address, a.randomNonce) !in r.nonces)
    ensures
      var x := NewRecordingAccount(a.address, f, |r.ids|, r.ids[|r.ids| - 1], a.randomNonce, env);
      var m := r.manager.(
        accounts := r.manager.accounts + [x],
        mode := r.manager.mode.(trackerByHandle :=
          (r.manager.mode.trackerByHandle - {a.handle})[a.handle := |r.manager.accounts|]));
      var y := EnforceAuth(a, f, e, env);
      y.1 && Simulates(
        r.(manager := m, nonces := if x.isTransactionSourceAccount then r.nonces else r.nonces + {(a.address, a.randomNonce)}),
        y.0, handleOf)
  {
    hide Good, Covers, Embeds, Extend, Fits, Chain, Follows, AccountsGood, AccountsSimulate, BeginRequireEnforcing, Waits;
    hide HasMatchedInvocationsInStack;
    var xs, ys, n, id := r.manager.accounts, e.manager.accounts, |r.manager.accounts|, r.ids[|r.ids| - 1];
    var x := NewRecordingAccount(a.address, f, |r.ids|, id, a.randomNonce, env);
    assert SamePayload((xs + [x])[n], ys[n], env) && Embeds((xs + [x])[n].tracker.root, ys[n].tracker.root);
    SimulatedWait(r, e, handleOf);
    EmbedsFn(x.tracker.root, ys[n].tracker.root);
    CreatingReplays(r, e, f, a.address, handleOf);
    NewFollower(ys[n], a.address, f, |r.ids|, id, a.randomNonce, env);
    var b := ys[n].(tracker := RootMatched(ys[n], |r.ids|, id), verified := true, isBorrowed := false);
    FollowerJoins(xs, ys, |r.ids|, x, b);
    var pending := e.(manager := BeginRequireEnforcing(e.manager, a.address, f, id).manager);
    assert Run([], pending, env) == (pending, true);
    assert EnforceAuth(a, f, e, env) == Authenticate(pending, n, [], env);
    assert EndAuthentication(pending.manager, n, true).accounts == ys[n := b];
    HandleLeadsToNew(r.manager, a.handle, x, handleOf);
  }

  lemma {:induction false} HandleLeadsToNew(m: Manager, handle: nat, x: AccountTracker, handleOf: Address -> nat)
    requires HandlesLead(m, handleOf) && Injective(handleOf) && handle == handleOf(x.address)
    requires forall i :: 0 <= i < |m.accounts| && m.accounts[i].address == x.address ==>
      !HasMatchedInvocationsInStack(m.accounts[i].tracker)
    ensures HandlesLead(
      m.(accounts := m.accounts + [x],
         mode := m.mode.(trackerByHandle := (m.mode.trackerByHandle - {handle})[handle := |m.accounts|])), handleOf)
  {
    hide HasMatchedInvocationsInStack;
    var ys := m.accounts + [x];
    assert forall i :: 0 <= i < |m.accounts| ==> ys[i] == m.accounts[i];
  }

  lemma {:induction false} EmbedsFn(a: Node, b: Node)
    requires Embeds(a, b)
    ensures a.fn == b.fn
  {
  }

  lemma {:induction false} SimulatedWait(r: State, e: State, handleOf: Address -> nat)
    requires Simulates(r, e, handleOf) && |r.manager.accounts| < |e.manager.accounts|
    ensures Waits(e.manager.accounts[|r.manager.accounts|], |r.ids|)
  {
  }

  /** Which tracker recording chooses. */
  lemma {:induction false} RecordAuthReplays(
    a: Action, f: AuthorizedFunction, r: State, e: State, env: LedgerEnv, handleOf: Address -> nat)
    requires Ready(r, e, f, handleOf) && a.Require? && a.handle == handleOf(a.address) && a.authentication == []
    requires r.manager.callStack != [] && |r.manager.callStack| == |r.ids|
    requires RecordAuth(a, f, r, env).1
    requires Fit(RecordAuth(a, f, r, env).0.manager.accounts, e.manager.accounts, env)
    ensures EnforceAuth(a, f, e, env).1
    ensures Simulates(RecordAuth(a, f, r, env).0, EnforceAuth(a, f, e, env).0, handleOf)
  {
    hide Good, AccountsGood, AccountsSimulate, Fits, Chain, Fit, EnforceAuth, RecordIn, HasMatchedInvocationsInStack;
    hide NewRecordingAccount;
    var m := r.manager;
    var byHandle := m.mode.trackerByHandle;
    if a.handle in byHandle && HasMatchedInvocationsInStack(m.accounts[byHandle[a.handle]].tracker) {
      RecordInKeepsNonces(m, byHandle[a.handle], f, r.ids[|r.ids| - 1], r.nonces);
      ExtendingSimulates(a, f, r, e, byHandle[a.handle], env, handleOf);
    } else {
      forall i | 0 <= i < |m.accounts| && m.accounts[i].address == a.address
        ensures !HasMatchedInvocationsInStack(m.accounts[i].tracker)
      {
      }
      FindRecordableIsRecordable(m.accounts, a.address, 0);
      NewRecordingAccountIsNew(a.address, f, |r.ids|, r.ids[|r.ids| - 1], a.randomNonce, env);
      CreatingSimulates(a, f, r, e, env, handleOf);
    }
  }

  lemma {:induction false} RecordInKeepsNonces(m: Manager, i: nat, f: AuthorizedFunction, id: FrameId, nonces: set<NonceKey>)
    requires i < |m.accounts| && RecordIn(m, i, f, id, nonces).Recorded?
    ensures RecordIn(m, i, f, id, nonces).nonces == nonces
  {
  }

  lemma {:induction false} NewRecordingAccountIsNew(
    address: Address, f: AuthorizedFunction, depth: nat, id: FrameId, randomNonce: int, env: LedgerEnv)
    requires depth > 0
    ensures NewRecordingAccount(address, f, depth, id, randomNonce, env).address == address
  {
  }

  // ---------------------------------------------------------------- whole runs

  lemma {:induction false} GrewEmbeds(a: Node, b: Node)
    requires Grew(a, b)
    ensures Embeds(a, b) && Embeds(b, a)
    decreases a
  {
    forall i | 0 <= i < |a.subs| ensures Embeds(a.subs[i], b.subs[i]) && Embeds(b.subs[i], a.subs[i]) {
      GrewEmbeds(a.subs[i], b.subs[i]);
    }
  }

  lemma {:induction false} FitStays(xs: seq<AccountTracker>, ys: seq<AccountTracker>, zs: seq<AccountTracker>, env: LedgerEnv)
    requires Fit(xs, ys, env) && AccountsEvolved(ys, zs)
    ensures Fit(xs, zs, env)
  {
    hide Embeds, Grew;
    forall i | 0 <= i < |xs|
      ensures SamePayload(xs[i], zs[i], env) && Embeds(xs[i].tracker.root, zs[i].tracker.root)
    {
      assert SamePayload(xs[i], ys[i], env) && AccountEvolved(ys[i], zs[i]);
      GrewEmbeds(ys[i].tracker.root, zs[i].tracker.root);
      EmbedsTransitive(xs[i].tracker.root, ys[i].tracker.root, zs[i].tracker.root);
    }
  }

  lemma {:induction false} FitShrinks(ws: seq<AccountTracker>, xs: seq<AccountTracker>, ys: seq<AccountTracker>, env: LedgerEnv)
    requires AccountsGrow(ws, xs, env) && Fit(xs, ys, env)
    ensures Fit(ws, ys, env)
  {
    hide Embeds;
    forall i | 0 <= i < |ws|
      ensures SamePayload(ws[i], ys[i], env) && Embeds(ws[i].tracker.root, ys[i].tracker.root)
    {
      assert AccountGrows(ws[i], xs[i]) && SamePayload(xs[i], ys[i], env);
      EmbedsTransitive(ws[i].tracker.root, xs[i].tracker.root, ys[i].tracker.root);
    }
  }

  /** Pushing and popping frames does not change what fits. */
  lemma {:induction false} FitIgnoresStacks(
    xs: seq<AccountTracker>, ys: seq<AccountTracker>, xs': seq<AccountTracker>, ys': seq<AccountTracker>, env: LedgerEnv)
    requires Fit(xs, ys, env) && SameTrees(xs, xs') && SameTrees(ys, ys')
    requires forall i :: 0 <= i < |ys| ==> ys'[i].isBorrowed == ys[i].isBorrowed
    ensures Fit(xs', ys', env)
  {
    hide Embeds;
    forall i | 0 <= i < |xs|
      ensures SamePayload(xs'[i], ys'[i], env) && Embeds(xs'[i].tracker.root, ys'[i].tracker.root)
    {
      assert SamePayload(xs[i], ys[i], env) && SameCredential(xs[i], xs'[i]) && SameCredential(ys[i], ys'[i]);
    }
  }

  /** Everything the induction needs to know of the two states. */
  ghost predicate InStep(r: State, e: State, handleOf: Address -> nat, initial: set<NonceKey>) {
    Sound(r, initial) && Sound(e, initial) && Simulates(r, e, handleOf) && Injective(handleOf)
  }

  lemma {:induction false} RunReplays(
    acts: seq<Action>, r: State, e: State, env: LedgerEnv, handleOf: Address -> nat, initial: set<NonceKey>)
    requires InStep(r, e, handleOf, initial) && Plain(acts, handleOf) && AllSucceed(acts, r, env)
    requires Fit(Run(acts, r, env).0.manager.accounts, e.manager.accounts, env)
    ensures AllSucceed(acts, e, env) && Run(acts, e, env).1
    ensures InStep(Run(acts, r, env).0, Run(acts, e, env).0, handleOf, initial)
    decreases acts, 0
  {
    hide Sound, Simulates, Fit;
    if acts != [] {
      var r1, e1 := Step(acts[0], r, env).0, Step(acts[0], e, env).0;
      var last := Run(acts, r, env).0.manager.accounts;
      SucceedsSteps(acts[0], r, env);
      SimulatedModes(r, e, handleOf);
      StepGrows(acts[0], r, env);
      RunGrows(acts[1..], r1, env);
      FitShrinks(r1.manager.accounts, last, e.manager.accounts, env);
      StepReplays(acts[0], r, e, env, handleOf, initial);
      StepKeeps(acts[0], e, env, initial);
      FitStays(last, e.manager.accounts, e1.manager.accounts, env);
      RunReplays(acts[1..], r1, e1, env, handleOf, initial);
      AllSucceedRuns(acts, e, env);
    }
  }

  lemma {:induction false} SimulatedModes(r: State, e: State, handleOf: Address -> nat)
    requires Simulates(r, e, handleOf)
    ensures r.manager.mode.Recording? && e.manager.mode.Enforcing?
  {
  }

  lemma {:induction false} FrameReplays(
    body: seq<Action>, frame: AuthStackFrame, r: State, e: State, env: LedgerEnv, handleOf: Address -> nat,
    initial: set<NonceKey>)
    requires InStep(r, e, handleOf, initial) && Plain(body, handleOf) && AllSucceed(body, Push(r, frame), env)
    requires Fit(Pop(Run(body, Push(r, frame), env).0).manager.accounts, e.manager.accounts, env)
    ensures AllSucceed(body, Push(e, frame), env) && Run(body, Push(e, frame), env).1
    ensures InStep(Pop(Run(body, Push(r, frame), env).0), Pop(Run(body, Push(e, frame), env).0), handleOf, initial)
    decreases body, 1
  {
    hide Sound, Simulates, Fit, Push, Pop, StateEvolved, Run, AllSucceed, Plain, Injective;
    var r0, e0 := Push(r, frame), Push(e, frame);
    PushSound(r, frame, initial);
    PushSound(e, frame, initial);
    PushSimulates(r, e, frame, handleOf);
    var r1 := Run(body, r0, env).0;
    FitInFrame(Pop(r1), r1, e, e0, frame, env);
    RunReplays(body, r0, e0, env, handleOf, initial);
    var e1 := Run(body, e0, env).0;
    RunKeeps(body, r0, env, initial);
    RunKeeps(body, e0, env, initial);
    PoppedFrameKeeps(r, frame, r1, initial);
    PoppedFrameKeeps(e, frame, e1, initial);
    FramesAreOpen(r, frame, r1);
    PopSimulates(r1, e1, handleOf);
  }

  lemma {:induction false} FramesAreOpen(r: State, frame: AuthStackFrame, b: State)
    requires StateEvolved(Push(r, frame), b)
    ensures b.ids != [] && b.manager.callStack != []
  {
  }

  lemma {:induction false} FitInFrame(popped: State, r1: State, e: State, e0: State, frame: AuthStackFrame, env: LedgerEnv)
    requires popped == Pop(r1) && e0 == Push(e, frame)
    requires Fit(popped.manager.accounts, e.manager.accounts, env)
    ensures Fit(r1.manager.accounts, e0.manager.accounts, env)
  {
    FitIgnoresStacks(popped.manager.accounts, e.manager.accounts, r1.manager.accounts, e0.manager.accounts, env);
  }

  lemma {:induction false} StepReplays(
    a: Action, r: State, e: State, env: LedgerEnv, handleOf: Address -> nat, initial: set<NonceKey>)
    requires InStep(r, e, handleOf, initial) && PlainAction(a, handleOf) && Succeeds(a, r, env)
    requires Fit(Step(a, r, env).0.manager.accounts, e.manager.accounts, env)
    ensures Succeeds(a, e, env)
    ensures InStep(Step(a, r, env).0, Step(a, e, env).0, handleOf, initial)
    decreases a, 1
  {
    hide Sound, Simulates, Fit, Push, Pop, StateEvolved, AddInvokers, RequireAuth, Run, AllSucceed, Plain, Injective;
    SucceedsSteps(a, r, env);
    StepKeeps(a, r, env, initial);
    match a
    case Trap =>
    case Authorize(entries) =>
      AuthorizeReplays(entries, r, e, handleOf, env);
      StepKeeps(a, e, env, initial);
    case Invoke(c, name, body) =>
      AllSucceedRuns(body, Push(r, Contract(c, name)), env);
      FrameReplays(body, Contract(c, name), r, e, env, handleOf, initial);
    case Create(createArgs, body) =>
      AllSucceedRuns(body, Push(r, CreateContract(createArgs)), env);
      FrameReplays(body, CreateContract(createArgs), r, e, env, handleOf, initial);
    case Require(_, _, _, _, _) =>
      RequireReplays(a, r, e, env, handleOf, initial);
      StepKeeps(a, e, env, initial);
  }

  lemma {:induction false} AuthorizeReplays(
    entries: seq<Invocation>, r: State, e: State, handleOf: Address -> nat, env: LedgerEnv)
    requires Simulates(r, e, handleOf) && Step(Authorize(entries), r, env).1
    ensures Step(Authorize(entries), e, env).1
    ensures Simulates(Step(Authorize(entries), r, env).0, Step(Authorize(entries), e, env).0, handleOf)
  {
  }

  lemma {:induction false} RequireReplays(
    a: Action, r: State, e: State, env: LedgerEnv, handleOf: Address -> nat, initial: set<NonceKey>)
    requires InStep(r, e, handleOf, initial) && a.Require? && PlainAction(a, handleOf) && RequireAuth(a, r, env).1
    requires Fit(RequireAuth(a, r, env).0.manager.accounts, e.manager.accounts, env)
    ensures RequireAuth(a, e, env).1
    ensures Simulates(RequireAuth(a, r, env).0, RequireAuth(a, e, env).0, handleOf)
  {
    hide Good, AccountsGood, InvokersGood, AccountsSimulate, NoncesGood, RecordAuth, EnforceAuth, CheckInvoker, Fit;
    var m, id := r.manager, r.ids[|r.ids| - 1];
    var f := ToAuthorizedFunction(m.callStack[|m.callStack| - 1], a.args);
    CheckInvokerAgrees(m, e.manager, a.address, f, id);
    if CheckInvoker(m, a.address, f, id).Continue? {
      assert Fits(r.history[id], f);
      RecordAuthReplays(a, f, r, e, env, handleOf);
    }
  }

  /** The authorization entries made from what was recorded, with an expiration the signer chose. */
  function RecordedEntry(a: AccountTracker, expiration: nat): AuthEntry {
    AuthEntry(
      if a.isTransactionSourceAccount || a.nonce.None? then SourceAccount
      else AddressCredentials(a.address, Nonce(a.nonce.value.value, expiration)),
      ToXdr(a.tracker.root))
  }

  function RecordedEntries(xs: seq<AccountTracker>, expiration: nat): seq<AuthEntry> {
    seq(|xs|, i requires 0 <= i < |xs| => RecordedEntry(xs[i], expiration))
  }

  lemma {:induction false} RecordedFits(xs: seq<AccountTracker>, expiration: nat, source: Address, env: LedgerEnv)
    requires forall i :: 0 <= i < |xs| ==> FromRecording(xs[i], env)
    requires env.ledgerSeq <= expiration <= env.maxLiveUntil
    requires env.sourceAccount.Some? ==> env.sourceAccount.value == source
    ensures
      var ys := NewEnforcing(RecordedEntries(xs, expiration), source).accounts;
      && Fit(xs, ys, env) && |xs| == |ys|
      && (forall i :: 0 <= i < |ys| ==> Waits(ys[i], 0))
      && (forall i :: 0 <= i < |ys| ==> Embeds(ys[i].tracker.root, xs[i].tracker.root))
  {
    hide Embeds;
    var ys := NewEnforcing(RecordedEntries(xs, expiration), source).accounts;
    forall i | 0 <= i < |xs|
      ensures SamePayload(xs[i], ys[i], env) && Waits(ys[i], 0)
      ensures Embeds(xs[i].tracker.root, ys[i].tracker.root) && Embeds(ys[i].tracker.root, xs[i].tracker.root)
    {
      RoundTripEmbeds(xs[i].tracker.root);
      FromXdrIsFresh(ToXdr(xs[i].tracker.root));
      assert ys[i].tracker.stack == AllUnmatched(0);
    }
  }

  /**
   Recorded authorization replays: the enforcing manager built from what a run recorded
   accepts every `require_auth` of the same run, no frame fails, the same nonces are
   consumed, and in the end every node of every recorded tree has been used.
   */
  lemma {:induction false} RecordedAuthorizationReplays(
    acts: seq<Action>, env: LedgerEnv, disableNonRootAuth: bool, nonces: set<NonceKey>, handleOf: Address -> nat,
    expiration: nat, source: Address)
    requires Injective(handleOf) && Plain(acts, handleOf)
    requires AllSucceed(acts, Start(NewRecording(disableNonRootAuth), nonces), env)
    requires env.ledgerSeq <= expiration <= env.maxLiveUntil
    requires env.sourceAccount.Some? ==> env.sourceAccount.value == source
    ensures
      var recorded := Run(acts, Start(NewRecording(disableNonRootAuth), nonces), env).0;
      var start := Start(NewEnforcing(RecordedEntries(recorded.manager.accounts, expiration), source), nonces);
      var enforced := Run(acts, start, env);
      && AllSucceed(acts, start, env)
      && enforced.1
      && enforced.0.nonces == recorded.nonces
      && |enforced.0.manager.accounts| == |recorded.manager.accounts|
      && forall i :: 0 <= i < |enforced.0.manager.accounts| ==>
           enforced.0.manager.accounts[i].verified && AllExhausted(enforced.0.manager.accounts[i].tracker.root)
  {
    hide Fit, Embeds, AllSucceed, Plain, Injective, StateGood, NoncesGood, Covers;
    var r := Start(NewRecording(disableNonRootAuth), nonces);
    var recorded := Run(acts, r, env).0;
    RunGrows(acts, r, env);
    var entries := RecordedEntries(recorded.manager.accounts, expiration);
    var e := Start(NewEnforcing(entries, source), nonces);
    RecordedFits(recorded.manager.accounts, expiration, source, env);
    EnforcingStartIsSound(entries, source, nonces);
    RecordingStartIsSound(disableNonRootAuth, nonces);
    RunReplays(acts, r, e, env, handleOf, nonces);
    var enforced := Run(acts, e, env).0;
    RunKeeps(acts, e, env, nonces);
    forall i | 0 <= i < |enforced.manager.accounts|
      ensures enforced.manager.accounts[i].verified && AllExhausted(enforced.manager.accounts[i].tracker.root)
    {
      FullyUsed(recorded.manager.accounts[i], e.manager.accounts[i], enforced.manager.accounts[i]);
    }
  }

  lemma {:induction false} FullyUsed(a: AccountTracker, b: AccountTracker, c: AccountTracker)
    requires Follows(a, c) && AccountEvolved(b, c) && !b.isBorrowed && Embeds(b.tracker.root, a.tracker.root)
    ensures c.verified && AllExhausted(c.tracker.root)
  {
    GrewEmbeds(b.tracker.root, c.tracker.root);
    EmbedsTransitive(c.tracker.root, b.tracker.root, a.tracker.root);
    CoveredIsExhausted(a.tracker.root, c.tracker.root);
  }

  lemma {:induction false} RecordingStartIsSound(disableNonRootAuth: bool, nonces: set<NonceKey>)
    ensures Sound(Start(NewRecording(disableNonRootAuth), nonces), nonces)
  {
  }
}
