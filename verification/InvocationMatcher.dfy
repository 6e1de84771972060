/**
 `InvocationTracker` of soroban-env-host/src/auth.rs as a function on values: the
 incremental matching of one authorized invocation tree against the live call stack.
 */
module InvocationMatcher {
  import opened Prelude
  import opened InvocationTree

  datatype MatchState = Unmatched | RootMatch | SubMatch(indexInParent: nat)

  datatype Tracker = Tracker(
    root: Node, stack: seq<MatchState>, rootExhaustedFrame: Option<nat>, isFullyProcessed: bool)

  const USIZE_MAX: nat := 0xffff_ffff_ffff_ffff

  /** `InvocationTracker::new` and `from_xdr`. */
  function NewTracker(root: Node): Tracker {
    Tracker(root, [], None, false)
  }

  /** `AuthorizedInvocation::last_authorized_invocation_mut`; `None` is its InternalError. */
  function Walk(n: Node, stack: seq<MatchState>, i: nat): Option<Path>
    requires i <= |stack|
    decreases |stack| - i
  {
    if i == |stack| then Some([])
    else
      match stack[i]
      case Unmatched => Walk(n, stack, i + 1)
      case RootMatch => None
      case SubMatch(j) =>
        if j < |n.subs| then
          match Walk(n.subs[j], stack, i + 1)
          case None => None
          case Some(p) => Some([j] + p)
        else None
  }

  datatype WalkResult = NoMatch | Found(path: Path) | Broken

  /** `InvocationTracker::last_authorized_invocation_mut`; `Broken` is its InternalError. */
  function LastAuthorized(root: Node, stack: seq<MatchState>, i: nat): WalkResult
    requires i <= |stack|
    decreases |stack| - i
  {
    if i == |stack| then NoMatch
    else
      match stack[i]
      case Unmatched => LastAuthorized(root, stack, i + 1)
      case SubMatch(_) => Broken
      case RootMatch =>
        match Walk(root, stack, i + 1)
        case None => Broken
        case Some(p) => Found(p)
  }

  function PushFrame(t: Tracker): Tracker {
    t.(stack := t.stack + [Unmatched])
  }

  function PopFrame(t: Tracker): Tracker {
    var stack := if t.stack == [] then [] else t.stack[..|t.stack| - 1];
    t.(stack := stack,
       isFullyProcessed := t.isFullyProcessed ||
                           (t.rootExhaustedFrame.Some? && t.rootExhaustedFrame.value >= |stack|))
  }

  predicate IsActive(t: Tracker) {
    t.root.isExhausted && !t.isFullyProcessed
  }

  predicate CurrentFrameIsAlreadyMatched(t: Tracker) {
    t.stack != [] && t.stack[|t.stack| - 1] != Unmatched
  }

  predicate HasMatchedInvocationsInStack(t: Tracker) {
    exists i :: 0 <= i < |t.stack| && t.stack[i] != Unmatched
  }

  /** The first unexhausted child with the required function, at or after `i`. */
  function FindSub(subs: seq<Node>, f: AuthorizedFunction, i: nat): (r: Option<nat>)
    requires i <= |subs|
    ensures r.Some? ==> i <= r.value < |subs| && !subs[r.value].isExhausted && subs[r.value].fn == f
    ensures forall k :: i <= k < (if r.Some? then r.value else |subs|) ==> subs[k].isExhausted || subs[k].fn != f
    decreases |subs| - i
  {
    if i == |subs| then None
    else if !subs[i].isExhausted && subs[i].fn == f then Some(i)
    else FindSub(subs, f, i + 1)
  }

  datatype ExtendResult = Matched(tracker: Tracker) | NotMatched | Failed(tracker: Tracker)

  function SetTop(stack: seq<MatchState>, m: MatchState): seq<MatchState>
    requires stack != []
  {
    stack[..|stack| - 1] + [m]
  }

  /**
   `maybe_extend_invocation_match`. `Failed` is an error return together with what the
   call had changed by then; on an empty stack the root is exhausted and the recorded
   frame index wraps around before the error is raised.
   */
  function Extend(t: Tracker, f: AuthorizedFunction, allowMatchingRoot: bool, id: FrameId): ExtendResult {
    if CurrentFrameIsAlreadyMatched(t) then NotMatched
    else
      match LastAuthorized(t.root, t.stack, 0)
      case Broken => Failed(t)
      case Found(p) =>
        if !ValidPath(t.root, p) then Failed(t) else
          (match FindSub(At(t.root, p).subs, f, 0)
           case None => NotMatched
           case Some(j) =>
             AtConcat(t.root, p, [j]);
             var root := Exhaust(t.root, p + [j], id);
             if t.stack == [] then Failed(t.(root := root))
             else Matched(t.(root := root, stack := SetTop(t.stack, SubMatch(j)))))
      case NoMatch =>
        if !t.root.isExhausted && allowMatchingRoot && t.root.fn == f then
          var root := Exhaust(t.root, [], id);
          if t.stack == [] then Failed(t.(root := root, rootExhaustedFrame := Some(USIZE_MAX)))
          else Matched(t.(root := root, rootExhaustedFrame := Some(|t.stack| - 1), stack := SetTop(t.stack, RootMatch)))
        else NotMatched
  }

  /** `InvocationTracker::rollback`; `None` is its InternalError. */
  function RollbackTracker(t: Tracker, s: NodeSnapshot): Option<Tracker> {
    match Rollback(t.root, s)
    case None => None
    case Some(root) =>
      if root.isExhausted then Some(t.(root := root))
      else Some(t.(root := root, rootExhaustedFrame := None, isFullyProcessed := false))
  }

  // ---------------------------------------------------------------- what the match stack means

  predicate HasRoot(stack: seq<MatchState>) {
    RootMatch in stack
  }

  /** The path of the deepest matched node: the child indices on the stack, in order. */
  function PathOf(stack: seq<MatchState>): Path {
    if stack == [] then []
    else
      var k := |stack| - 1;
      PathOf(stack[..k]) + (if stack[k].SubMatch? then [stack[k].indexInParent] else [])
  }

  ghost predicate MatchedBy(root: Node, p: Path, id: FrameId) {
    ValidPath(root, p) && At(root, p).isExhausted && At(root, p).matchedBy == Some(id)
  }

  /**
   The stack traces a path of exhausted nodes: at most one `RootMatch`, no `SubMatch`
   before it, and the node matched at a stack position carries that position's frame.
   */
  ghost predicate Linked(root: Node, stack: seq<MatchState>, ids: seq<FrameId>)
    requires |ids| == |stack|
  {
    stack == [] ||
    var k := |stack| - 1;
    && Linked(root, stack[..k], ids[..k])
    && match stack[k]
       case Unmatched => true
       case RootMatch => !HasRoot(stack[..k]) && MatchedBy(root, [], ids[k])
       case SubMatch(j) => HasRoot(stack[..k]) && MatchedBy(root, PathOf(stack[..k]) + [j], ids[k])
  }

  /** Which frames the exhausted nodes of a tree were matched by. */
  ghost predicate MatchesAreFaithful(root: Node, history: map<FrameId, AuthStackFrame>) {
    forall p, id :: MatchedBy(root, p, id) ==> id in history && Fits(history[id], At(root, p).fn)
  }

  ghost predicate MatchesAreInjective(root: Node) {
    forall p, q, id :: MatchedBy(root, p, id) && MatchedBy(root, q, id) ==> p == q
  }

  ghost predicate MatchedBelow(root: Node, parent: Path, id: FrameId) {
    exists pid :: MatchedBy(root, parent, pid) && StrictPrefix(pid, id)
  }

  ghost predicate MatchesAreNested(root: Node) {
    forall p, id :: MatchedBy(root, p, id) && p != [] ==> MatchedBelow(root, p[..|p| - 1], id)
  }

  ghost predicate Chain(ids: seq<FrameId>) {
    forall i, j :: 0 <= i < j < |ids| ==> StrictPrefix(ids[i], ids[j])
  }

  /** A frame whose stack entry is unmatched has matched nothing in this tree. */
  ghost predicate UnmatchedAreUnused(t: Tracker, ids: seq<FrameId>)
    requires |ids| == |t.stack|
  {
    forall i, p :: 0 <= i < |ids| && t.stack[i] == Unmatched ==> !MatchedBy(t.root, p, ids[i])
  }

  /** The flags say where the root match is. */
  ghost predicate FlagsAgree(t: Tracker) {
    if HasRoot(t.stack) then
      && t.root.isExhausted
      && !t.isFullyProcessed
      && t.rootExhaustedFrame.Some?
      && t.rootExhaustedFrame.value < |t.stack|
      && t.stack[t.rootExhaustedFrame.value] == RootMatch
    else
      && t.isFullyProcessed == t.root.isExhausted
      && t.rootExhaustedFrame.Some? == t.root.isExhausted
  }

  /** The invariant of one tracker, relative to the frames its stack entries stand for. */
  ghost predicate Good(t: Tracker, ids: seq<FrameId>, history: map<FrameId, AuthStackFrame>) {
    && |ids| == |t.stack|
    && Chain(ids)
    && (forall i :: 0 <= i < |ids| ==> ids[i] in history)
    && WellMarked(t.root)
    && Linked(t.root, t.stack, ids)
    && FlagsAgree(t)
    && MatchesAreFaithful(t.root, history)
    && MatchesAreInjective(t.root)
    && MatchesAreNested(t.root)
    && UnmatchedAreUnused(t, ids)
  }

  // ---------------------------------------------------------------- the walk never fails

  lemma {:induction false} WalkSnoc(n: Node, s: seq<MatchState>, i: nat, m: MatchState)
    requires i <= |s|
    ensures Walk(n, s, i).None? ==> Walk(n, s + [m], i).None?
    ensures Walk(n, s, i).Some? ==>
      var p := Walk(n, s, i).value;
      && ValidPath(n, p)
      && Walk(n, s + [m], i) == match m
                                case Unmatched => Some(p)
                                case RootMatch => None
                                case SubMatch(j) => if j < |At(n, p).subs| then Some(p + [j]) else None
    decreases |s| - i
  {
    if i == |s| {
      assert (s + [m])[i] == m;
      assert Walk(n, s, i) == Some([]);
      match m
      case Unmatched => assert Walk(n, s + [m], i) == Walk(n, s + [m], i + 1);
      case RootMatch =>
      case SubMatch(j) =>
        if j < |n.subs| {
          assert Walk(n.subs[j], s + [m], i + 1) == Some([]);
          assert [j] + [] == [] + [j];
        }
    } else {
      assert (s + [m])[i] == s[i];
      match s[i]
      case Unmatched => WalkSnoc(n, s, i + 1, m);
      case RootMatch =>
      case SubMatch(j) =>
        if j < |n.subs| {
          WalkSnoc(n.subs[j], s, i + 1, m);
          if Walk(n.subs[j], s, i + 1).Some? && m.SubMatch? {
            var p := Walk(n.subs[j], s, i + 1).value;
            assert [j] + (p + [m.indexInParent]) == ([j] + p) + [m.indexInParent];
          }
        }
    }
  }

  lemma {:induction false} LastAuthorizedSnoc(root: Node, s: seq<MatchState>, i: nat, m: MatchState)
    requires i <= |s|
    ensures
      var r := LastAuthorized(root, s + [m], i);
      match LastAuthorized(root, s, i)
      case Broken => r.Broken?
      case NoMatch => r == (match m case Unmatched => NoMatch case RootMatch => Found([]) case SubMatch(_) => Broken)
      case Found(p) =>
        && ValidPath(root, p)
        && r == (match m
                 case Unmatched => Found(p)
                 case RootMatch => Broken
                 case SubMatch(j) => if j < |At(root, p).subs| then Found(p + [j]) else Broken)
    decreases |s| - i
  {
    if i == |s| {
      assert (s + [m])[i] == m;
    } else {
      assert (s + [m])[i] == s[i];
      match s[i]
      case Unmatched => LastAuthorizedSnoc(root, s, i + 1, m);
      case RootMatch => WalkSnoc(root, s, i + 1, m);
      case SubMatch(_) =>
    }
  }

  /** On a linked stack the walk never reports an internal error, and finds the deepest match. */
  lemma {:induction false} WalkFindsDeepestMatch(root: Node, stack: seq<MatchState>, ids: seq<FrameId>)
    requires |ids| == |stack| && Linked(root, stack, ids)
    ensures LastAuthorized(root, stack, 0) == if HasRoot(stack) then Found(PathOf(stack)) else NoMatch
    ensures ValidPath(root, PathOf(stack))
    ensures !HasRoot(stack) ==> PathOf(stack) == [] && forall i :: 0 <= i < |stack| ==> stack[i] == Unmatched
    ensures HasRoot(stack) ==>
      exists i :: 0 <= i < |stack| && stack[i] != Unmatched && MatchedBy(root, PathOf(stack), ids[i])
  {
    if stack != [] {
      var k := |stack| - 1;
      WalkFindsDeepestMatch(root, stack[..k], ids[..k]);
      LastAuthorizedSnoc(root, stack[..k], 0, stack[k]);
      assert stack[..k] + [stack[k]] == stack;
      if stack[k].SubMatch? {
        AtConcat(root, PathOf(stack[..k]), [stack[k].indexInParent]);
      }
      if HasRoot(stack) {
        if stack[k] == Unmatched {
          assert HasRoot(stack[..k]);
          var i :| 0 <= i < k && stack[..k][i] != Unmatched && MatchedBy(root, PathOf(stack[..k]), ids[..k][i]);
          assert stack[i] != Unmatched && ids[i] == ids[..k][i];
        } else {
          assert MatchedBy(root, PathOf(stack), ids[k]);
        }
      }
    }
  }

  // ---------------------------------------------------------------- preservation

  lemma {:induction false} HistoryGrows(
    t: Tracker, ids: seq<FrameId>, history: map<FrameId, AuthStackFrame>, id: FrameId, frame: AuthStackFrame)
    requires Good(t, ids, history) && id !in history
    ensures Good(t, ids, history[id := frame])
  {
  }

  lemma {:induction false} HistoryExtends(
    t: Tracker, ids: seq<FrameId>, history: map<FrameId, AuthStackFrame>, larger: map<FrameId, AuthStackFrame>)
    requires Good(t, ids, history)
    requires forall id :: id in history ==> id in larger && larger[id] == history[id]
    ensures Good(t, ids, larger)
  {
  }

  lemma {:induction false} PushKeepsGood(
    t: Tracker, ids: seq<FrameId>, history: map<FrameId, AuthStackFrame>, id: FrameId, frame: AuthStackFrame)
    requires Good(t, ids, history) && id !in history
    requires forall i :: 0 <= i < |ids| ==> StrictPrefix(ids[i], id)
    ensures Good(PushFrame(t), ids + [id], history[id := frame])
  {
    var u := PushFrame(t);
    HistoryGrows(t, ids, history, id, frame);
    assert u.stack[..|t.stack|] == t.stack && (ids + [id])[..|ids|] == ids;
    assert HasRoot(u.stack) == HasRoot(t.stack);
  }

  lemma {:induction false} PopKeepsGood(t: Tracker, ids: seq<FrameId>, history: map<FrameId, AuthStackFrame>)
    requires Good(t, ids, history) && t.stack != []
    ensures Good(PopFrame(t), ids[..|ids| - 1], history)
  {
    var k := |t.stack| - 1;
    assert Linked(t.root, t.stack[..k], ids[..k]);
    assert t.stack == t.stack[..k] + [t.stack[k]];
    if HasRoot(t.stack) {
      RootIsUnique(t, ids);
    }
  }

  lemma {:induction false} RootIsUniqueIn(root: Node, stack: seq<MatchState>, ids: seq<FrameId>, i: nat, j: nat)
    requires |ids| == |stack| && Linked(root, stack, ids)
    requires i < |stack| && j < |stack| && stack[i] == RootMatch && stack[j] == RootMatch
    ensures i == j
  {
    var k := |stack| - 1;
    assert stack[..k] + [stack[k]] == stack;
    if i < k && j < k {
      RootIsUniqueIn(root, stack[..k], ids[..k], i, j);
    }
  }

  lemma {:induction false} RootIsUnique(t: Tracker, ids: seq<FrameId>)
    requires |ids| == |t.stack| && Linked(t.root, t.stack, ids) && FlagsAgree(t) && HasRoot(t.stack)
    ensures forall i :: 0 <= i < |t.stack| && t.stack[i] == RootMatch ==> i == t.rootExhaustedFrame.value
  {
    forall i | 0 <= i < |t.stack| && t.stack[i] == RootMatch ensures i == t.rootExhaustedFrame.value {
      RootIsUniqueIn(t.root, t.stack, ids, i, t.rootExhaustedFrame.value);
    }
  }

  /** Links only depend on which nodes were matched by which frames. */
  lemma {:induction false} LinkedSurvives(root: Node, r: Node, stack: seq<MatchState>, ids: seq<FrameId>)
    requires |ids| == |stack| && Linked(root, stack, ids)
    requires forall p, i :: MatchedBy(root, p, i) ==> MatchedBy(r, p, i)
    ensures Linked(r, stack, ids)
  {
    hide MatchedBy;
    if stack != [] {
      LinkedSurvives(root, r, stack[..|stack| - 1], ids[..|stack| - 1]);
    }
  }

  /** `r` is `root` with one more match, of the node at `p` by frame `id`. */
  ghost predicate OneMoreMatch(root: Node, r: Node, p: Path, id: FrameId) {
    && (forall q, i :: MatchedBy(r, q, i) <==> MatchedBy(root, q, i) || (q == p && i == id))
    && (forall q, i :: MatchedBy(root, q, i) ==> At(r, q).fn == At(root, q).fn)
  }

  lemma {:induction false} OneMoreMatchKeepsMatches(root: Node, r: Node, p: Path, id: FrameId, history: map<FrameId, AuthStackFrame>)
    requires OneMoreMatch(root, r, p, id)
    requires MatchesAreFaithful(root, history) && MatchesAreInjective(root) && MatchesAreNested(root)
    requires ValidPath(r, p) && id in history && Fits(history[id], At(r, p).fn)
    requires p != [] ==> MatchedBelow(root, p[..|p| - 1], id)
    requires forall q :: !MatchedBy(root, q, id)
    ensures MatchesAreFaithful(r, history) && MatchesAreInjective(r) && MatchesAreNested(r)
  {
    forall q, i | MatchedBy(r, q, i) && q != []
      ensures MatchedBelow(r, q[..|q| - 1], i)
    {
      var pid :| MatchedBy(root, q[..|q| - 1], pid) && StrictPrefix(pid, i);
      assert MatchedBy(r, q[..|q| - 1], pid);
    }
  }

  lemma {:induction false} ExhaustIsOneMoreMatch(root: Node, p: Path, id: FrameId)
    requires ValidPath(root, p) && !At(root, p).isExhausted
    ensures OneMoreMatch(root, Exhaust(root, p, id), p, id)
  {
    var r := Exhaust(root, p, id);
    forall q, i
      ensures MatchedBy(r, q, i) <==> MatchedBy(root, q, i) || (q == p && i == id)
      ensures MatchedBy(root, q, i) ==> At(r, q).fn == At(root, q).fn
    {
      ExhaustAt(root, p, id, q);
    }
  }

  lemma {:induction false} AppendIsOneMoreMatch(root: Node, p: Path, f: AuthorizedFunction, id: FrameId)
    requires ValidPath(root, p)
    ensures OneMoreMatch(root, Append(root, p, NewRecordingNode(f, id)), p + [|At(root, p).subs|], id)
  {
    var leaf := NewRecordingNode(f, id);
    var r, site := Append(root, p, leaf), p + [|At(root, p).subs|];
    forall q, i
      ensures MatchedBy(r, q, i) <==> MatchedBy(root, q, i) || (q == site && i == id)
      ensures MatchedBy(root, q, i) ==> At(r, q).fn == At(root, q).fn
    {
      AppendAt(root, p, leaf, q);
    }
  }

  /** What a successful match changes: one more exhausted node, and the top of the stack. */
  function Match(t: Tracker, m: MatchState, id: FrameId): Tracker
    requires t.stack != []
    requires m.SubMatch? ==> ValidPath(t.root, PathOf(t.stack) + [m.indexInParent])
  {
    if m.SubMatch? then
      t.(root := Exhaust(t.root, PathOf(t.stack) + [m.indexInParent], id), stack := SetTop(t.stack, m))
    else
      t.(root := Exhaust(t.root, [], id), stack := SetTop(t.stack, m), rootExhaustedFrame := Some(|t.stack| - 1))
  }

  /** `m` is a match that the tracker may add for its current frame and function `f`. */
  ghost predicate Extends(t: Tracker, m: MatchState, f: AuthorizedFunction) {
    && t.stack != []
    && t.stack[|t.stack| - 1] == Unmatched
    && match m
       case Unmatched => false
       case RootMatch => !HasRoot(t.stack) && !t.root.isExhausted && t.root.fn == f
       case SubMatch(j) =>
         && HasRoot(t.stack)
         && var p := PathOf(t.stack) + [j];
            ValidPath(t.root, p) && !At(t.root, p).isExhausted && At(t.root, p).fn == f
  }

  /** On a linked stack, matching never fails, and changes exactly what `Match` says. */
  lemma {:induction false} ExtendIsMatch(
    t: Tracker, ids: seq<FrameId>, f: AuthorizedFunction, allowRoot: bool, id: FrameId)
    requires |ids| == |t.stack| > 0 && Linked(t.root, t.stack, ids)
    requires HasRoot(t.stack) ==> t.root.isExhausted
    ensures
      var r := Extend(t, f, allowRoot, id);
      && !r.Failed?
      && (r.Matched? ==> exists m :: Extends(t, m, f) && (m == RootMatch ==> allowRoot) && r.tracker == Match(t, m, id))
      && (r.NotMatched? ==> forall m :: Extends(t, m, f) ==> m == RootMatch && !allowRoot)
  {
    hide Linked, Exhaust;
    var r := Extend(t, f, allowRoot, id);
    WalkFindsDeepestMatch(t.root, t.stack, ids);
    var p := PathOf(t.stack);
    if r.Matched? {
      if HasRoot(t.stack) {
        var j := FindSub(At(t.root, p).subs, f, 0).value;
        AtConcat(t.root, p, [j]);
        assert Extends(t, SubMatch(j), f) && r.tracker == Match(t, SubMatch(j), id);
      } else {
        assert Extends(t, RootMatch, f) && r.tracker == Match(t, RootMatch, id);
      }
    }
    if r.NotMatched? {
      forall m | Extends(t, m, f) ensures m == RootMatch && !allowRoot {
        if m.SubMatch? {
          AtConcat(t.root, p, [m.indexInParent]);
        }
      }
    }
  }

  lemma {:induction false} MatchSite(t: Tracker, m: MatchState, f: AuthorizedFunction, ids: seq<FrameId>,
                  history: map<FrameId, AuthStackFrame>) returns (p: Path)
    requires Good(t, ids, history) && Extends(t, m, f)
    ensures p == if m.SubMatch? then PathOf(t.stack) + [m.indexInParent] else []
    ensures ValidPath(t.root, p) && !At(t.root, p).isExhausted && At(t.root, p).fn == f
  {
    p := if m.SubMatch? then PathOf(t.stack) + [m.indexInParent] else [];
  }

  /** Replacing the top entry by a match of a node that is now matched keeps the links. */
  lemma {:induction false} TopKeepsLinked(root: Node, r: Node, stack: seq<MatchState>, ids: seq<FrameId>, m: MatchState)
    requires |ids| == |stack| > 0 && Linked(root, stack, ids) && stack[|stack| - 1] == Unmatched
    requires forall p, i :: MatchedBy(root, p, i) ==> MatchedBy(r, p, i)
    requires m != Unmatched
    requires m == RootMatch ==> !HasRoot(stack) && MatchedBy(r, [], ids[|ids| - 1])
    requires m.SubMatch? ==> HasRoot(stack) && MatchedBy(r, PathOf(stack) + [m.indexInParent], ids[|ids| - 1])
    ensures Linked(r, SetTop(stack, m), ids)
  {
    hide MatchedBy;
    var k := |ids| - 1;
    LinkedSurvives(root, r, stack[..k], ids[..k]);
    assert stack == stack[..k] + [Unmatched];
    assert SetTop(stack, m)[..k] == stack[..k] && SetTop(stack, m)[k] == m;
    assert PathOf(stack) == PathOf(stack[..k]);
  }

  lemma {:induction false} TopKeepsUnused(t: Tracker, u: Tracker, ids: seq<FrameId>, m: MatchState, p: Path)
    requires |ids| == |t.stack| > 0 && Chain(ids) && UnmatchedAreUnused(t, ids)
    requires u.stack == SetTop(t.stack, m) && m != Unmatched
    requires OneMoreMatch(t.root, u.root, p, ids[|ids| - 1])
    ensures UnmatchedAreUnused(u, ids)
  {
    var k := |ids| - 1;
    forall i, q | 0 <= i < |ids| && u.stack[i] == Unmatched ensures !MatchedBy(u.root, q, ids[i]) {
      assert i < k && t.stack[i] == Unmatched;
      assert StrictPrefix(ids[i], ids[k]);
    }
  }

  lemma {:induction false} MatchKeepsFlags(t: Tracker, m: MatchState, f: AuthorizedFunction, id: FrameId)
    requires FlagsAgree(t) && Extends(t, m, f)
    ensures FlagsAgree(Match(t, m, id))
  {
    var u := Match(t, m, id);
    var k := |t.stack| - 1;
    if m == RootMatch {
      assert u.stack[k] == RootMatch;
    } else {
      ExhaustAt(t.root, PathOf(t.stack) + [m.indexInParent], id, []);
      assert u.stack[t.rootExhaustedFrame.value] == RootMatch;
    }
  }

  /** A match by the frame on top of the stack keeps the invariant. */
  lemma {:induction false} MatchKeepsGood(
    t: Tracker, ids: seq<FrameId>, history: map<FrameId, AuthStackFrame>, m: MatchState, f: AuthorizedFunction)
    requires Good(t, ids, history) && Extends(t, m, f)
    requires Fits(history[ids[|ids| - 1]], f)
    ensures Good(Match(t, m, ids[|ids| - 1]), ids, history)
  {
    var id := ids[|ids| - 1];
    var u := Match(t, m, id);
    var p := MatchSite(t, m, f, ids, history);
    ExhaustIsOneMoreMatch(t.root, p, id);
    ExhaustAt(t.root, p, id, p);
    MatchKeepsFlags(t, m, f, id);
    ExhaustWellMarked(t.root, p, id);
    NewMatchKeepsGood(t, u, ids, history, m, p);
  }

  /** What it takes to add one match at the top of a good tracker's stack. */
  lemma {:induction false} NewMatchKeepsGood(
    t: Tracker, u: Tracker, ids: seq<FrameId>, history: map<FrameId, AuthStackFrame>, m: MatchState, p: Path)
    requires Good(t, ids, history) && ids != [] && t.stack[|t.stack| - 1] == Unmatched
    requires m == RootMatch ==> !HasRoot(t.stack) && p == []
    requires m.SubMatch? ==> HasRoot(t.stack) && p == PathOf(t.stack) + [m.indexInParent]
    requires m != Unmatched && u.stack == SetTop(t.stack, m)
    requires OneMoreMatch(t.root, u.root, p, ids[|ids| - 1])
    requires ValidPath(u.root, p) && Fits(history[ids[|ids| - 1]], At(u.root, p).fn)
    requires WellMarked(u.root) && FlagsAgree(u)
    ensures Good(u, ids, history)
  {
    hide MatchedBy, WellMarked, StrictPrefix;
    var id := ids[|ids| - 1];
    if m.SubMatch? {
      WalkFindsDeepestMatch(t.root, t.stack, ids);
      var i :| 0 <= i < |ids| && t.stack[i] != Unmatched && MatchedBy(t.root, PathOf(t.stack), ids[i]);
      assert p[..|p| - 1] == PathOf(t.stack);
      assert StrictPrefix(ids[i], id);
    }
    TopKeepsLinked(t.root, u.root, t.stack, ids, m);
    OneMoreMatchKeepsMatches(t.root, u.root, p, id, history);
    TopKeepsUnused(t, u, ids, m, p);
  }

  /**
   `is_active` holds exactly while the root match is on the stack, the stack has at most
   one root match and no sub-match before it, and its indices trace exhausted nodes.
   */
  lemma {:induction false} ActiveIffRootOnStack(t: Tracker, ids: seq<FrameId>, history: map<FrameId, AuthStackFrame>)
    requires Good(t, ids, history)
    ensures IsActive(t) <==> HasRoot(t.stack)
    ensures HasMatchedInvocationsInStack(t) <==> HasRoot(t.stack)
    ensures forall i, j ::
      0 <= i < |t.stack| && 0 <= j < |t.stack| && t.stack[i] == RootMatch && t.stack[j] == RootMatch ==> i == j
    ensures forall i :: 0 <= i < |t.stack| && t.stack[i].SubMatch? ==> HasRoot(t.stack[..i])
    ensures forall i ::
      0 <= i < |t.stack| && t.stack[i] != Unmatched ==> MatchedBy(t.root, PathOf(t.stack[..i + 1]), ids[i])
  {
    WalkFindsDeepestMatch(t.root, t.stack, ids);
    hide Linked, MatchedBy, PathOf, StrictPrefix, WellMarked, MatchesAreFaithful, MatchesAreInjective, MatchesAreNested;
    if HasRoot(t.stack) {
      RootIsUnique(t, ids);
    }
    forall i | 0 <= i < |t.stack| && t.stack[i] != Unmatched
      ensures t.stack[i].SubMatch? ==> HasRoot(t.stack[..i])
      ensures MatchedBy(t.root, PathOf(t.stack[..i + 1]), ids[i])
    {
      EntryIsLinked(t.root, t.stack, ids, i);
    }
  }

  lemma {:induction false} EntryIsLinked(root: Node, stack: seq<MatchState>, ids: seq<FrameId>, i: nat)
    requires |ids| == |stack| && Linked(root, stack, ids) && i < |stack| && stack[i] != Unmatched
    ensures stack[i].SubMatch? ==> HasRoot(stack[..i])
    ensures MatchedBy(root, PathOf(stack[..i + 1]), ids[i])
  {
    LinkedPrefix(root, stack, ids, i + 1);
    LinkedPrefix(root, stack, ids, i);
    hide MatchedBy;
    var s := stack[..i + 1];
    assert s[..i] == stack[..i] && ids[..i + 1][..i] == ids[..i];
    if stack[i] == RootMatch {
      WalkFindsDeepestMatch(root, stack[..i], ids[..i]);
      assert PathOf(s) == [];
    }
  }

  lemma {:induction false} LinkedPrefix(root: Node, stack: seq<MatchState>, ids: seq<FrameId>, n: nat)
    requires |ids| == |stack| && Linked(root, stack, ids) && n <= |stack|
    ensures Linked(root, stack[..n], ids[..n])
  {
    if n < |stack| {
      var k := |stack| - 1;
      LinkedPrefix(root, stack[..k], ids[..k], n);
      assert stack[..k][..n] == stack[..n] && ids[..k][..n] == ids[..n];
    } else {
      assert stack[..n] == stack && ids[..n] == ids;
    }
  }

  // ---------------------------------------------------------------- rollback

  /** `b` is `a` after activity inside `a`'s current frame: only the top entry may differ. */
  ghost predicate Evolved(a: Tracker, b: Tracker) {
    && Grew(a.root, b.root)
    && |a.stack| == |b.stack|
    && (forall i :: 0 <= i < |a.stack| - 1 ==> a.stack[i] == b.stack[i])
    && (a.root.isExhausted ==>
          && a.rootExhaustedFrame == b.rootExhaustedFrame
          && a.isFullyProcessed == b.isFullyProcessed)
  }

  lemma {:induction false} EvolvedReflexive(a: Tracker)
    ensures Evolved(a, a)
  {
    GrewReflexive(a.root);
  }

  lemma {:induction false} EvolvedTransitive(a: Tracker, b: Tracker, c: Tracker)
    requires Evolved(a, b) && Evolved(b, c)
    ensures Evolved(a, c)
  {
    GrewTransitive(a.root, b.root, c.root);
  }

  lemma {:induction false} MatchEvolves(t: Tracker, m: MatchState, f: AuthorizedFunction, ids: seq<FrameId>,
                     history: map<FrameId, AuthStackFrame>, id: FrameId)
    requires Good(t, ids, history) && Extends(t, m, f)
    ensures Evolved(t, Match(t, m, id))
  {
    var p := MatchSite(t, m, f, ids, history);
    ExhaustGrows(t.root, p, id);
  }

  /** Matching on behalf of the frame on top of a good tracker's stack. */
  lemma {:induction false} ExtendKeepsGood(
    t: Tracker, ids: seq<FrameId>, history: map<FrameId, AuthStackFrame>, f: AuthorizedFunction, allowRoot: bool)
    requires Good(t, ids, history) && ids != []
    requires Fits(history[ids[|ids| - 1]], f)
    ensures
      var r := Extend(t, f, allowRoot, ids[|ids| - 1]);
      && !r.Failed?
      && (r.Matched? ==> Good(r.tracker, ids, history) && Evolved(t, r.tracker) && r.tracker.root.isExhausted)
  {
    var id := ids[|ids| - 1];
    var r := Extend(t, f, allowRoot, id);
    ExtendIsMatch(t, ids, f, allowRoot, id);
    if r.Matched? {
      var m :| Extends(t, m, f) && r.tracker == Match(t, m, id);
      MatchKeepsGood(t, ids, history, m, f);
      MatchEvolves(t, m, f, ids, history, id);
      var p := MatchSite(t, m, f, ids, history);
      ExhaustAt(t.root, p, id, []);
    }
  }

  /** A nested frame that evolved and was popped leaves the frames below it as they were. */
  lemma {:induction false} PushEvolvePop(t: Tracker, u: Tracker, ids: seq<FrameId>, history: map<FrameId, AuthStackFrame>)
    requires Good(t, ids, history) && Evolved(PushFrame(t), u)
    ensures Evolved(t, PopFrame(u)) && PopFrame(u).stack == t.stack
  {
    assert PopFrame(u).stack == t.stack;
    if t.root.isExhausted && HasRoot(t.stack) {
      assert u.rootExhaustedFrame == t.rootExhaustedFrame;
    }
  }

  /** Rolling back and popping undoes everything that happened inside the frame. */
  lemma {:induction false} RollbackPopRestores(a: Tracker, b: Tracker, ids: seq<FrameId>, history: map<FrameId, AuthStackFrame>)
    requires Good(a, ids, history) && Evolved(a, b)
    ensures RollbackTracker(b, Snapshot(a.root)).Some?
    ensures RollbackTracker(b, Snapshot(a.root)).value.stack == b.stack
    ensures PopFrame(RollbackTracker(b, Snapshot(a.root)).value) == PopFrame(a)
    ensures a.stack == [] ==> RollbackTracker(b, Snapshot(a.root)) == Some(a)
  {
    RollbackRestores(a.root, b.root);
    assert PopFrame(a).stack == PopFrame(b).stack;
  }

  // ---------------------------------------------------------------- recording

  /** `AuthorizedInvocation::new_recording`. */
  function NewRecordingNode(f: AuthorizedFunction, id: FrameId): Node {
    Node(f, [], true, Some(id))
  }

  function AllUnmatched(n: nat): seq<MatchState> {
    seq(n, _ => Unmatched)
  }

  /** `InvocationTracker::new_recording`. */
  function NewRecordingTracker(f: AuthorizedFunction, currentStackLen: nat, id: FrameId): Tracker
    requires currentStackLen > 0
  {
    Tracker(NewRecordingNode(f, id), AllUnmatched(currentStackLen - 1) + [RootMatch],
            Some(currentStackLen - 1), false)
  }

  /** `InvocationTracker::record_invocation`; `None` is any of its errors. */
  function Record(t: Tracker, f: AuthorizedFunction, id: FrameId): Option<Tracker> {
    if CurrentFrameIsAlreadyMatched(t) then None
    else
      match LastAuthorized(t.root, t.stack, 0)
      case Broken => None
      case NoMatch => None
      case Found(p) =>
        if !ValidPath(t.root, p) || t.stack == [] then None
        else
          Some(t.(root := Append(t.root, p, NewRecordingNode(f, id)),
                  stack := SetTop(t.stack, SubMatch(|At(t.root, p).subs|))))
  }

  lemma {:induction false} RecordKeepsFlags(t: Tracker, u: Tracker, j: nat)
    requires FlagsAgree(t) && HasRoot(t.stack) && t.stack[|t.stack| - 1] == Unmatched
    requires u == t.(root := u.root, stack := SetTop(t.stack, SubMatch(j))) && u.root.isExhausted == t.root.isExhausted
    ensures FlagsAgree(u)
  {
    assert u.stack[t.rootExhaustedFrame.value] == RootMatch;
  }

  /** Recording a call keeps the invariant, and succeeds exactly when the frame is not matched yet. */
  lemma {:induction false} RecordKeepsGood(
    t: Tracker, ids: seq<FrameId>, history: map<FrameId, AuthStackFrame>, f: AuthorizedFunction)
    requires Good(t, ids, history) && ids != [] && HasRoot(t.stack)
    requires Fits(history[ids[|ids| - 1]], f)
    ensures Record(t, f, ids[|ids| - 1]).Some? <==> !CurrentFrameIsAlreadyMatched(t)
    ensures Record(t, f, ids[|ids| - 1]).Some? ==>
      var u := Record(t, f, ids[|ids| - 1]).value;
      && Good(u, ids, history) && ValidPath(t.root, PathOf(t.stack))
      && u == t.(root := Append(t.root, PathOf(t.stack), NewRecordingNode(f, ids[|ids| - 1])),
                 stack := SetTop(t.stack, SubMatch(|At(t.root, PathOf(t.stack)).subs|)))
  {
    hide Linked, MatchesAreFaithful, MatchesAreInjective, MatchesAreNested, UnmatchedAreUnused, Chain, OneMoreMatch, MatchedBy,
      FlagsAgree, WellMarked, Fits, Append, PathOf;
    var id := ids[|ids| - 1];
    WalkFindsDeepestMatch(t.root, t.stack, ids);
    if !CurrentFrameIsAlreadyMatched(t) {
      var p, leaf := PathOf(t.stack), NewRecordingNode(f, id);
      var u := Record(t, f, id).value;
      var m := SubMatch(|At(t.root, p).subs|);
      AppendIsOneMoreMatch(t.root, p, f, id);
      AppendAt(t.root, p, leaf, p + [m.indexInParent]);
      AppendAt(t.root, p, leaf, []);
      AppendWellMarked(t.root, p, leaf);
      RecordKeepsFlags(t, u, m.indexInParent);
      NewMatchKeepsGood(t, u, ids, history, m, p + [m.indexInParent]);
    }
  }

  lemma {:induction false} UnmatchedAreLinked(root: Node, n: nat, ids: seq<FrameId>)
    requires |ids| == n
    ensures Linked(root, AllUnmatched(n), ids) && !HasRoot(AllUnmatched(n))
  {
    if n > 0 {
      assert AllUnmatched(n)[..n - 1] == AllUnmatched(n - 1);
      UnmatchedAreLinked(root, n - 1, ids[..n - 1]);
    }
  }

  lemma {:induction false} NewNodeIsMatchedOnce(f: AuthorizedFunction, id: FrameId, p: Path, i: FrameId)
    ensures MatchedBy(NewRecordingNode(f, id), p, i) <==> p == [] && i == id
  {
  }

  lemma {:induction false} NewNodeMatches(f: AuthorizedFunction, id: FrameId, history: map<FrameId, AuthStackFrame>)
    requires id in history && Fits(history[id], f)
    ensures
      var root := NewRecordingNode(f, id);
      WellMarked(root) && MatchesAreFaithful(root, history) && MatchesAreInjective(root) && MatchesAreNested(root)
  {
    var root := NewRecordingNode(f, id);
    forall p, i ensures MatchedBy(root, p, i) <==> p == [] && i == id {
      NewNodeIsMatchedOnce(f, id, p, i);
    }
    hide MatchedBy, Fits;
  }

  lemma {:induction false} NewRecordingUnused(f: AuthorizedFunction, ids: seq<FrameId>)
    requires ids != [] && Chain(ids)
    ensures UnmatchedAreUnused(NewRecordingTracker(f, |ids|, ids[|ids| - 1]), ids)
  {
    var k := |ids| - 1;
    var t := NewRecordingTracker(f, |ids|, ids[k]);
    forall i, p | 0 <= i < |ids| && t.stack[i] == Unmatched ensures !MatchedBy(t.root, p, ids[i]) {
      NewNodeIsMatchedOnce(f, ids[k], p, ids[i]);
      assert StrictPrefix(ids[i], ids[k]);
    }
  }

  lemma {:induction false} NewRecordingLinked(f: AuthorizedFunction, ids: seq<FrameId>)
    requires ids != []
    ensures
      var t := NewRecordingTracker(f, |ids|, ids[|ids| - 1]);
      |t.stack| == |ids| && Linked(t.root, t.stack, ids) && FlagsAgree(t)
  {
    var k := |ids| - 1;
    var t := NewRecordingTracker(f, |ids|, ids[k]);
    NewNodeIsMatchedOnce(f, ids[k], [], ids[k]);
    UnmatchedAreLinked(t.root, k, ids[..k]);
    assert t.stack[..k] == AllUnmatched(k) && t.stack[k] == RootMatch;
    hide MatchedBy, AllUnmatched;
  }

  lemma {:induction false} NewRecordingIsGood(f: AuthorizedFunction, ids: seq<FrameId>, history: map<FrameId, AuthStackFrame>)
    requires ids != [] && Chain(ids) && forall i :: 0 <= i < |ids| ==> ids[i] in history
    requires Fits(history[ids[|ids| - 1]], f)
    ensures Good(NewRecordingTracker(f, |ids|, ids[|ids| - 1]), ids, history)
  {
    hide MatchesAreFaithful, MatchesAreInjective, MatchesAreNested, UnmatchedAreUnused, Chain, Fits, WellMarked, Linked,
      FlagsAgree, AllUnmatched;
    NewNodeMatches(f, ids[|ids| - 1], history);
    NewRecordingUnused(f, ids);
    NewRecordingLinked(f, ids);
  }

  // ---------------------------------------------------------------- fresh trees

  ghost predicate Fresh(n: Node) {
    && !n.isExhausted
    && n.matchedBy.None?
    && forall i :: 0 <= i < |n.subs| ==> Fresh(n.subs[i])
  }

  lemma {:induction false} FreshAt(n: Node, p: Path)
    requires Fresh(n) && ValidPath(n, p)
    ensures !At(n, p).isExhausted
    decreases p
  {
    if p != [] {
      FreshAt(n.subs[p[0]], p[1..]);
    }
  }

  lemma {:induction false} FreshIsWellMarked(n: Node)
    requires Fresh(n)
    ensures WellMarked(n)
  {
    forall i | 0 <= i < |n.subs| ensures WellMarked(n.subs[i]) {
      FreshIsWellMarked(n.subs[i]);
    }
  }

  lemma {:induction false} NewTrackerIsGood(n: Node, history: map<FrameId, AuthStackFrame>)
    requires Fresh(n)
    ensures Good(NewTracker(n), [], history)
  {
    FreshIsWellMarked(n);
    forall p, id ensures !MatchedBy(n, p, id) {
      if ValidPath(n, p) {
        FreshAt(n, p);
      }
    }
  }
}
