/**
 The authorized invocation tree of soroban-env-host/src/auth.rs: the pattern that an
 address signs, whose nodes are exhausted one by one as they are matched.

 Every node carries one field the source does not have, `matchedBy`: the identity of
 the call frame that exhausted it. No decision reads it; it lets statements about whole
 runs name the frame a node was matched by.
 */
module InvocationTree {
  import opened Prelude

  type Address = nat
  type Val = int

  datatype AuthorizedFunction =
    | ContractFn(contract: Address, name: string, args: seq<Val>)
    | CreateContractHostFn(createArgs: seq<Val>)

  datatype AuthStackFrame =
    | Contract(contract: Address, name: string)
    | CreateContract(createArgs: seq<Val>)

  /** `AuthStackFrame::to_authorized_function`. */
  function ToAuthorizedFunction(frame: AuthStackFrame, args: seq<Val>): AuthorizedFunction {
    match frame
    case Contract(c, name) => ContractFn(c, name, args)
    case CreateContract(createArgs) => CreateContractHostFn(createArgs)
  }

  /** The function is one that `frame` could have asked authorization for. */
  ghost predicate Fits(frame: AuthStackFrame, f: AuthorizedFunction) {
    exists args: seq<Val> :: ToAuthorizedFunction(frame, args) == f
  }

  /** A frame is identified by the identity of its caller and its own serial number. */
  type FrameId = seq<nat>

  ghost predicate StrictPrefix(a: FrameId, b: FrameId) {
    |a| < |b| && b[..|a|] == a
  }

  datatype Node = Node(fn: AuthorizedFunction, subs: seq<Node>, isExhausted: bool, matchedBy: Option<FrameId>)

  datatype NodeSnapshot = NodeSnapshot(isExhausted: bool, subs: seq<NodeSnapshot>)

  type Path = seq<nat>

  predicate ValidPath(n: Node, p: Path)
    decreases p
  {
    p == [] || (p[0] < |n.subs| && ValidPath(n.subs[p[0]], p[1..]))
  }

  function At(n: Node, p: Path): Node
    requires ValidPath(n, p)
    decreases p
  {
    if p == [] then n else At(n.subs[p[0]], p[1..])
  }

  /** The tree with the node at `p` exhausted by frame `id`. */
  function Exhaust(n: Node, p: Path, id: FrameId): Node
    requires ValidPath(n, p)
    decreases p
  {
    if p == [] then n.(isExhausted := true, matchedBy := Some(id))
    else n.(subs := n.subs[p[0] := Exhaust(n.subs[p[0]], p[1..], id)])
  }

  /** The tree with a new exhausted leaf appended to the children of the node at `p`. */
  function Append(n: Node, p: Path, leaf: Node): Node
    requires ValidPath(n, p)
    decreases p
  {
    if p == [] then n.(subs := n.subs + [leaf])
    else n.(subs := n.subs[p[0] := Append(n.subs[p[0]], p[1..], leaf)])
  }

  // ---------------------------------------------------------------- snapshots

  /** `AuthorizedInvocation::snapshot`: only the mutable flags. */
  function Snapshot(n: Node): NodeSnapshot {
    NodeSnapshot(n.isExhausted, SnapshotAll(n.subs))
  }

  function SnapshotAll(ns: seq<Node>): seq<NodeSnapshot> {
    if ns == [] then [] else [Snapshot(ns[0])] + SnapshotAll(ns[1..])
  }

  /** `AuthorizedInvocation::rollback`; `None` is its InternalError for unequal shapes. */
  function Rollback(n: Node, s: NodeSnapshot): Option<Node> {
    if |n.subs| != |s.subs| then None
    else
      match RollbackAll(n.subs, s.subs)
      case None => None
      case Some(subs) =>
        Some(Node(n.fn, subs, s.isExhausted, if s.isExhausted then n.matchedBy else None))
  }

  function RollbackAll(ns: seq<Node>, ss: seq<NodeSnapshot>): Option<seq<Node>>
    requires |ns| == |ss|
  {
    if ns == [] then Some([])
    else
      match Rollback(ns[0], ss[0])
      case None => None
      case Some(first) =>
        match RollbackAll(ns[1..], ss[1..])
        case None => None
        case Some(rest) => Some([first] + rest)
  }

  /** The snapshot has the shape of the tree. */
  ghost predicate SameShape(n: Node, s: NodeSnapshot)
    decreases n
  {
    |n.subs| == |s.subs| && forall i :: 0 <= i < |n.subs| ==> SameShape(n.subs[i], s.subs[i])
  }

  /** Rollback fails if and only if the tree has another shape than the snapshot, as after an append. */
  lemma {:induction false} RollbackFailsIffShapesDiffer(n: Node, s: NodeSnapshot)
    ensures Rollback(n, s).None? <==> !SameShape(n, s)
    decreases n, 1
  {
    if |n.subs| == |s.subs| {
      RollbackAllFailsIffShapesDiffer(n.subs, s.subs);
    }
  }

  lemma {:induction false} RollbackAllFailsIffShapesDiffer(ns: seq<Node>, ss: seq<NodeSnapshot>)
    requires |ns| == |ss|
    ensures RollbackAll(ns, ss).None? <==> !(forall i :: 0 <= i < |ns| ==> SameShape(ns[i], ss[i]))
    decreases ns, 0
  {
    if ns != [] {
      RollbackFailsIffShapesDiffer(ns[0], ss[0]);
      RollbackAllFailsIffShapesDiffer(ns[1..], ss[1..]);
      assert forall i :: 0 < i < |ns| ==> ns[1..][i - 1] == ns[i] && ss[1..][i - 1] == ss[i];
    }
  }

  lemma {:induction false} SnapshotAllSnoc(ns: seq<Node>, n: Node)
    ensures SnapshotAll(ns + [n]) == SnapshotAll(ns) + [Snapshot(n)]
    decreases |ns|
  {
    if ns == [] {
      assert ns + [n] == [n];
    } else {
      assert (ns + [n])[1..] == ns[1..] + [n];
      SnapshotAllSnoc(ns[1..], n);
    }
  }

  /** A node is marked with a frame exactly when it is exhausted. */
  ghost predicate WellMarked(n: Node) {
    && (n.isExhausted <==> n.matchedBy.Some?)
    && forall i :: 0 <= i < |n.subs| ==> WellMarked(n.subs[i])
  }

  /** `b` is `a` with possibly more nodes exhausted; what was exhausted keeps its frame. */
  ghost predicate Grew(a: Node, b: Node)
    decreases a
  {
    && a.fn == b.fn
    && |a.subs| == |b.subs|
    && (a.isExhausted ==> b.isExhausted && b.matchedBy == a.matchedBy)
    && forall i :: 0 <= i < |a.subs| ==> Grew(a.subs[i], b.subs[i])
  }

  lemma {:induction false} GrewReflexive(a: Node)
    ensures Grew(a, a)
  {
    forall i | 0 <= i < |a.subs| ensures Grew(a.subs[i], a.subs[i]) {
      GrewReflexive(a.subs[i]);
    }
  }

  lemma {:induction false} GrewTransitive(a: Node, b: Node, c: Node)
    requires Grew(a, b) && Grew(b, c)
    ensures Grew(a, c)
    decreases a
  {
    forall i | 0 <= i < |a.subs| ensures Grew(a.subs[i], c.subs[i]) {
      GrewTransitive(a.subs[i], b.subs[i], c.subs[i]);
    }
  }

  /** Rolling any grown tree back to the snapshot of where it started restores it exactly. */
  lemma {:induction false} RollbackRestores(a: Node, b: Node)
    requires WellMarked(a) && Grew(a, b)
    ensures Rollback(b, Snapshot(a)) == Some(a)
    decreases a, 1
  {
    RollbackAllRestores(a.subs, b.subs);
  }

  lemma {:induction false} RollbackAllRestores(xs: seq<Node>, ys: seq<Node>)
    requires |xs| == |ys|
    requires forall i :: 0 <= i < |xs| ==> WellMarked(xs[i]) && Grew(xs[i], ys[i])
    ensures |SnapshotAll(xs)| == |xs|
    ensures RollbackAll(ys, SnapshotAll(xs)) == Some(xs)
    decreases xs, 0
  {
    if xs != [] {
      RollbackRestores(xs[0], ys[0]);
      RollbackAllRestores(xs[1..], ys[1..]);
      assert SnapshotAll(xs)[1..] == SnapshotAll(xs[1..]);
      assert xs == [xs[0]] + xs[1..];
    }
  }

  // ---------------------------------------------------------------- paths

  lemma {:induction false} ExhaustAt(n: Node, p: Path, id: FrameId, q: Path)
    requires ValidPath(n, p)
    ensures ValidPath(Exhaust(n, p, id), q) <==> ValidPath(n, q)
    ensures ValidPath(n, q) ==>
      var a, b := At(n, q), At(Exhaust(n, p, id), q);
      && b.fn == a.fn
      && |b.subs| == |a.subs|
      && b.isExhausted == (q == p || a.isExhausted)
      && b.matchedBy == (if q == p then Some(id) else a.matchedBy)
    decreases p
  {
    if p != [] && q != [] && q[0] < |n.subs| {
      if q[0] == p[0] {
        ExhaustAt(n.subs[p[0]], p[1..], id, q[1..]);
        assert q == p <==> q[1..] == p[1..];
      }
    }
  }

  lemma {:induction false} AtConcat(n: Node, p: Path, q: Path)
    ensures ValidPath(n, p + q) <==> ValidPath(n, p) && ValidPath(At(n, p), q)
    ensures ValidPath(n, p + q) ==> At(n, p + q) == At(At(n, p), q)
    decreases p
  {
    if p == [] {
      assert p + q == q;
    } else if p[0] < |n.subs| {
      assert (p + q)[1..] == p[1..] + q;
      AtConcat(n.subs[p[0]], p[1..], q);
    }
  }

  lemma {:induction false} ExhaustGrows(n: Node, p: Path, id: FrameId)
    requires ValidPath(n, p) && !At(n, p).isExhausted
    ensures Grew(n, Exhaust(n, p, id))
    decreases p
  {
    forall i | 0 <= i < |n.subs| ensures Grew(n.subs[i], Exhaust(n, p, id).subs[i]) {
      GrewReflexive(n.subs[i]);
      if p != [] && i == p[0] {
        ExhaustGrows(n.subs[i], p[1..], id);
      }
    }
  }

  lemma {:induction false} ExhaustWellMarked(n: Node, p: Path, id: FrameId)
    requires ValidPath(n, p) && WellMarked(n)
    ensures WellMarked(Exhaust(n, p, id))
    decreases p
  {
    if p != [] {
      ExhaustWellMarked(n.subs[p[0]], p[1..], id);
    }
  }

  lemma {:induction false} WellMarkedAt(n: Node, p: Path)
    requires WellMarked(n) && ValidPath(n, p)
    ensures WellMarked(At(n, p))
    decreases p
  {
    if p != [] {
      WellMarkedAt(n.subs[p[0]], p[1..]);
    }
  }

  lemma {:induction false} AppendAt(n: Node, p: Path, leaf: Node, q: Path)
    requires ValidPath(n, p) && leaf.subs == []
    ensures var k := |At(n, p).subs|;
      && !ValidPath(n, p + [k])
      && (ValidPath(Append(n, p, leaf), q) <==> ValidPath(n, q) || q == p + [k])
      && (q == p + [k] ==> At(Append(n, p, leaf), q) == leaf)
      && (ValidPath(n, q) ==>
            var a, b := At(n, q), At(Append(n, p, leaf), q);
            && b.fn == a.fn
            && b.isExhausted == a.isExhausted
            && b.matchedBy == a.matchedBy
            && b.subs == (if q == p then a.subs + [leaf] else b.subs))
    decreases p
  {
    var k := |At(n, p).subs|;
    if p == [] {
      assert p + [k] == [k];
      if q != [] && q[0] == k {
        assert ValidPath(leaf, q[1..]) <==> q[1..] == [];
        assert q[1..] == [] ==> q == [k];
      }
    } else {
      assert (p + [k])[0] == p[0] && (p + [k])[1..] == p[1..] + [k];
      AppendAt(n.subs[p[0]], p[1..], leaf, if q != [] then q[1..] else []);
      if q != [] && q[0] == p[0] {
        assert q == p <==> q[1..] == p[1..];
        assert q == p + [k] <==> q[1..] == p[1..] + [k];
      }
    }
  }

  lemma {:induction false} AppendWellMarked(n: Node, p: Path, leaf: Node)
    requires ValidPath(n, p) && WellMarked(n) && WellMarked(leaf)
    ensures WellMarked(Append(n, p, leaf))
    decreases p
  {
    if p != [] {
      AppendWellMarked(n.subs[p[0]], p[1..], leaf);
    }
  }
}
