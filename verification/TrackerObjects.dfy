/**
 `InvocationTracker` in the source's own form: an object that updates its fields in place.
 Every method is proved against the function of InvocationMatcher that says what it does.
 */
module TrackerObjects {
  import opened Prelude
  import opened InvocationTree
  import opened InvocationMatcher

  class InvocationTracker {
    var root: Node
    var matchStack: seq<MatchState>
    var rootExhaustedFrame: Option<nat>
    var isFullyProcessed: bool

    function Value(): Tracker
      reads this
    {
      Tracker(root, matchStack, rootExhaustedFrame, isFullyProcessed)
    }

    constructor (t: Tracker)
      ensures Value() == t
    {
      root, matchStack := t.root, t.stack;
      rootExhaustedFrame, isFullyProcessed := t.rootExhaustedFrame, t.isFullyProcessed;
    }

    method PushFrame()
      modifies this
      ensures Value() == InvocationMatcher.PushFrame(old(Value()))
    {
      matchStack := matchStack + [Unmatched];
    }

    method PopFrame()
      modifies this
      ensures Value() == InvocationMatcher.PopFrame(old(Value()))
    {
      if matchStack != [] {
        matchStack := matchStack[..|matchStack| - 1];
      }
      if rootExhaustedFrame.Some? {
        if rootExhaustedFrame.value >= |matchStack| {
          isFullyProcessed := true;
        }
      }
    }

    /** The walk from the node `n` along the stack entries from `start` on. */
    method WalkFrom(n: Node, start: nat) returns (r: Option<Path>)
      requires start <= |matchStack|
      ensures r == Walk(n, matchStack, start)
    {
      var node, path := n, [];
      var i := start;
      assert Walk(n, matchStack, start).Some? ==> [] + Walk(n, matchStack, start).value == Walk(n, matchStack, start).value;
      while i < |matchStack|
        invariant start <= i <= |matchStack|
        invariant match Walk(node, matchStack, i)
                  case None => Walk(n, matchStack, start).None?
                  case Some(p) => Walk(n, matchStack, start) == Some(path + p)
      {
        match matchStack[i] {
          case SubMatch(j) =>
            if j < |node.subs| {
              var rest := Walk(node.subs[j], matchStack, i + 1);
              assert rest.Some? ==> path + ([j] + rest.value) == (path + [j]) + rest.value;
              node, path := node.subs[j], path + [j];
            } else {
              return None;
            }
          case RootMatch =>
            return None;
          case Unmatched =>
        }
        i := i + 1;
      }
      assert path + [] == path;
      return Some(path);
    }

    method LastAuthorizedInvocation() returns (r: WalkResult)
      ensures r == LastAuthorized(root, matchStack, 0)
    {
      var i := 0;
      while i < |matchStack|
        invariant i <= |matchStack|
        invariant LastAuthorized(root, matchStack, 0) == LastAuthorized(root, matchStack, i)
      {
        match matchStack[i] {
          case RootMatch =>
            var p := WalkFrom(root, i + 1);
            return match p case None => Broken case Some(path) => Found(path);
          case SubMatch(_) =>
            return Broken;
          case Unmatched =>
        }
        i := i + 1;
      }
      return NoMatch;
    }

    method FindSubInvocation(subs: seq<Node>, f: AuthorizedFunction) returns (r: Option<nat>)
      ensures r == FindSub(subs, f, 0)
    {
      var i := 0;
      while i < |subs|
        invariant i <= |subs|
        invariant FindSub(subs, f, 0) == FindSub(subs, f, i)
      {
        if !subs[i].isExhausted && subs[i].fn == f {
          return Some(i);
        }
        i := i + 1;
      }
      return None;
    }

    /** `Some(b)` is `Ok(b)`; `None` is an error. */
    method MaybeExtendInvocationMatch(f: AuthorizedFunction, allowMatchingRoot: bool, id: FrameId)
      returns (r: Option<bool>)
      modifies this
      ensures match Extend(old(Value()), f, allowMatchingRoot, id)
              case Matched(t) => r == Some(true) && Value() == t
              case NotMatched => r == Some(false) && Value() == old(Value())
              case Failed(t) => r == None && Value() == t
    {
      if CurrentFrameIsAlreadyMatched(Value()) {
        return Some(false);
      }
      var newMatchState := Unmatched;
      var last := LastAuthorizedInvocation();
      match last {
        case Broken => return None;
        case Found(p) =>
          WalkIsValid(root, matchStack, 0);
          var sub := FindSubInvocation(At(root, p).subs, f);
          if sub.Some? {
            newMatchState := SubMatch(sub.value);
            AtConcat(root, p, [sub.value]);
            root := Exhaust(root, p + [sub.value], id);
          }
        case NoMatch =>
          if !root.isExhausted && allowMatchingRoot && root.fn == f {
            newMatchState := RootMatch;
            root := Exhaust(root, [], id);
            rootExhaustedFrame := Some(if matchStack == [] then USIZE_MAX else |matchStack| - 1);
          }
      }
      if newMatchState != Unmatched {
        if matchStack == [] {
          return None;
        }
        matchStack := SetTop(matchStack, newMatchState);
      }
      return Some(newMatchState != Unmatched);
    }

    method RecordInvocation(f: AuthorizedFunction, id: FrameId) returns (ok: bool)
      modifies this
      ensures match Record(old(Value()), f, id)
              case Some(t) => ok && Value() == t
              case None => !ok && Value() == old(Value())
    {
      if CurrentFrameIsAlreadyMatched(Value()) {
        return false;
      }
      var last := LastAuthorizedInvocation();
      if !last.Found? {
        return false;
      }
      WalkIsValid(root, matchStack, 0);
      if matchStack == [] {
        return false;
      }
      var indexInParent := |At(root, last.path).subs|;
      root := Append(root, last.path, NewRecordingNode(f, id));
      matchStack := SetTop(matchStack, SubMatch(indexInParent));
      return true;
    }

    /** `AuthorizedInvocation::snapshot`. */
    method SnapshotNode(n: Node) returns (s: NodeSnapshot)
      ensures s == Snapshot(n)
      decreases n
    {
      var subs := [];
      for i := 0 to |n.subs|
        invariant subs == SnapshotAll(n.subs[..i])
      {
        var sub := SnapshotNode(n.subs[i]);
        SnapshotAllSnoc(n.subs[..i], n.subs[i]);
        assert n.subs[..i + 1] == n.subs[..i] + [n.subs[i]];
        subs := subs + [sub];
      }
      assert n.subs[..|n.subs|] == n.subs;
      return NodeSnapshot(n.isExhausted, subs);
    }

    /** Whatever a well-marked tree grows to by matches, the snapshot rolls it back. */
    method TakeSnapshot() returns (s: NodeSnapshot)
      ensures s == Snapshot(root)
      ensures WellMarked(root) ==> forall b :: Grew(root, b) ==> Rollback(b, s) == Some(root)
    {
      s := SnapshotNode(root);
      if WellMarked(root) {
        forall b | Grew(root, b) ensures Rollback(b, s) == Some(root) {
          RollbackRestores(root, b);
        }
      }
    }

    method RollbackTo(s: NodeSnapshot) returns (ok: bool)
      modifies this
      ensures match RollbackTracker(old(Value()), s)
              case Some(t) => ok && Value() == t
              case None => !ok
    {
      match Rollback(root, s) {
        case None => return false;
        case Some(n) =>
          root := n;
          if !root.isExhausted {
            rootExhaustedFrame := None;
            isFullyProcessed := false;
          }
          return true;
      }
    }
  }

  /** What the walk finds is a path of the tree, whatever the stack holds. */
  lemma {:induction false} WalkIsValidFrom(n: Node, stack: seq<MatchState>, i: nat)
    requires i <= |stack|
    ensures Walk(n, stack, i).Some? ==> ValidPath(n, Walk(n, stack, i).value)
    decreases |stack| - i
  {
    if i < |stack| {
      match stack[i]
      case Unmatched => WalkIsValidFrom(n, stack, i + 1);
      case RootMatch =>
      case SubMatch(j) =>
        if j < |n.subs| {
          WalkIsValidFrom(n.subs[j], stack, i + 1);
        }
    }
  }

  lemma {:induction false} WalkIsValid(root: Node, stack: seq<MatchState>, i: nat)
    requires i <= |stack|
    ensures LastAuthorized(root, stack, i).Found? ==> ValidPath(root, LastAuthorized(root, stack, i).path)
    decreases |stack| - i
  {
    if i < |stack| {
      match stack[i]
      case Unmatched => WalkIsValid(root, stack, i + 1);
      case RootMatch => WalkIsValidFrom(root, stack, i + 1);
      case SubMatch(_) =>
    }
  }
}
