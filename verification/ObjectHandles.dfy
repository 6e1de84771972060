/**
 Object handles (soroban-env-host/src/host_object.rs): absolute handles index the host's table
 of objects, relative ones the table of the contract frame they were given to.
 */
module ObjectHandles {
  import opened Prelude
  import opened Words
  import opened SmallValues
  import Compare = ValCompare

  datatype Error =
    | TypesDiffer
    | UnknownReference
    | AbsoluteReference
    | RelativeReference
    | NotVmFrame
    | ArithOverflow

  datatype Result<T> = Ok(value: T) | Err(error: Error)

  /** Only contract frames have a table of the objects their code may refer to. */
  datatype Frame = VmFrame(table: seq<U64>) | OtherFrame

  predicate IsObjectVal(v: U64) {
    Compare.HasObjectTag(v)
  }

  predicate IsRelativeHandle(handle: U32) {
    handle % 2 == 0
  }

  function HandleToIndex(handle: U32): nat {
    handle / 2
  }

  /** `index_to_handle`: the shift drops the top bit of a large index without an error. */
  function IndexToHandle(index: nat, relative: bool): Result<U32> {
    if index >= TWO32 then Err(ArithOverflow)
    else Ok((index * 2) % TWO32 + if relative then 0 else 1)
  }

  /** A handle leads back to its index if and only if the index is below 2^31. */
  lemma {:induction false} HandleLeadsBackIffBelow31Bits(index: nat, relative: bool)
    requires index < TWO32
    ensures IndexToHandle(index, relative).Ok?
    ensures IsRelativeHandle(IndexToHandle(index, relative).value) <==> relative
    ensures HandleToIndex(IndexToHandle(index, relative).value) == index <==> index < TWO31
  {
    if index < TWO31 {
      assert (index * 2) % TWO32 == index * 2;
    } else {
      assert (index * 2) % TWO32 == index * 2 - TWO32;
    }
  }

  function GetHandle(v: U64): U32 {
    GetMajor(v)
  }

  // ---------------------------------------------------------------- translation

  /** `relative_to_absolute`, in a frame with this table. */
  function RelativeToAbsolute(table: seq<U64>, v: U64): Result<U64> {
    if !IsObjectVal(v) then Ok(v)
    else if !IsRelativeHandle(GetHandle(v)) then Err(AbsoluteReference)
    else
      var index := HandleToIndex(GetHandle(v));
      if index >= |table| then Err(UnknownReference)
      else if GetTag(table[index]) == GetTag(v) then Ok(table[index])
      else Err(TypesDiffer)
  }

  /** `absolute_to_relative`: the new table and the relative value. */
  function AbsoluteToRelative(table: seq<U64>, v: U64): (seq<U64>, Result<U64>) {
    if !IsObjectVal(v) then (table, Ok(v))
    else if IsRelativeHandle(GetHandle(v)) then (table, Err(RelativeReference))
    else
      var handle := IndexToHandle(|table|, true);
      (table + [v], if handle.Ok? then Ok(PackMajor(handle.value, GetTag(v))) else Err(handle.error))
  }

  // ---------------------------------------------------------------- frames

  datatype Event = EnterVm | EnterOther | Leave | ToRelative(v: U64) | ToAbsolute(v: U64)

  predicate InVm(frames: seq<Frame>) {
    frames != [] && frames[|frames| - 1].VmFrame?
  }

  function Top(frames: seq<Frame>): seq<U64>
    requires InVm(frames)
  {
    frames[|frames| - 1].table
  }

  function Step(frames: seq<Frame>, e: Event): seq<Frame> {
    match e
    case EnterVm => frames + [VmFrame([])]
    case EnterOther => frames + [OtherFrame]
    case Leave => if frames == [] then frames else frames[..|frames| - 1]
    case ToRelative(v) =>
      if InVm(frames) then frames[|frames| - 1 := VmFrame(AbsoluteToRelative(Top(frames), v).0)] else frames
    case ToAbsolute(v) => frames
  }

  function After(frames: seq<Frame>, es: seq<Event>): seq<Frame>
    decreases |es|
  {
    if es == [] then frames else After(Step(frames, es[0]), es[1..])
  }

  /** The frame at `depth` is still there after every event. */
  predicate Stays(frames: seq<Frame>, es: seq<Event>, depth: nat)
    decreases |es|
  {
    depth < |frames| && (es == [] || Stays(Step(frames, es[0]), es[1..], depth))
  }

  /** The objects handed to the frame at `depth`. */
  function Handed(frames: seq<Frame>, es: seq<Event>, depth: nat): set<U64>
    decreases |es|
  {
    if es == [] then {}
    else
      (if es[0].ToRelative? && |frames| == depth + 1 && IsObjectVal(es[0].v) then {es[0].v} else {}) +
      Handed(Step(frames, es[0]), es[1..], depth)
  }

  /** The frame's table only grows, and only by absolute objects handed to the frame. */
  lemma {:induction false} TableGrows(frames: seq<Frame>, es: seq<Event>, depth: nat)
    requires Stays(frames, es, depth) && frames[depth].VmFrame?
    ensures
      var frames' := After(frames, es);
      && depth < |frames'| && frames'[depth].VmFrame?
      && frames[depth].table <= frames'[depth].table
      && forall i :: |frames[depth].table| <= i < |frames'[depth].table| ==>
           frames'[depth].table[i] in Handed(frames, es, depth) && !IsRelativeHandle(GetHandle(frames'[depth].table[i]))
    decreases |es|
  {
    if es != [] {
      TableGrowsOnce(frames, es[0], depth);
      TableGrows(Step(frames, es[0]), es[1..], depth);
      hide Step, IsRelativeHandle, GetHandle;
      var t0, t1, t2 := frames[depth].table, Step(frames, es[0])[depth].table, After(frames, es)[depth].table;
      assert t0 <= t1 <= t2;
      forall i | |t0| <= i < |t2| ensures t2[i] in Handed(frames, es, depth) && !IsRelativeHandle(GetHandle(t2[i])) {
        if i < |t1| {
          assert t2[i] == t1[i];
        }
      }
    }
  }

  lemma {:induction false} TableGrowsOnce(frames: seq<Frame>, e: Event, depth: nat)
    requires depth < |frames| && depth < |Step(frames, e)| && frames[depth].VmFrame?
    ensures
      var frame' := Step(frames, e)[depth];
      && frame'.VmFrame?
      && (frame'.table == frames[depth].table ||
          (e.ToRelative? && |frames| == depth + 1 && IsObjectVal(e.v) && !IsRelativeHandle(GetHandle(e.v)) &&
           frame'.table == frames[depth].table + [e.v]))
  {
    hide IsRelativeHandle, GetHandle, IndexToHandle;
  }

  lemma {:induction false} RelativeResolves(table: seq<U64>, v: U64)
    requires IsObjectVal(v) && |table| < TWO31
    requires AbsoluteToRelative(table, v).1.Ok?
    ensures
      var (table', r) := AbsoluteToRelative(table, v);
      && IsObjectVal(r.value) && GetTag(r.value) == GetTag(v) && IsRelativeHandle(GetHandle(r.value))
      && HandleToIndex(GetHandle(r.value)) == |table| && table' == table + [v]
  {
    HandleLeadsBackIffBelow31Bits(|table|, true);
    var handle := IndexToHandle(|table|, true).value;
    MajorUnpack(handle, GetTag(v));
    hide PackMajor, GetMajor, GetTag, IndexToHandle, IsRelativeHandle, HandleToIndex;
  }

  /**
   A relative value given to a contract frame resolves to the same object for the rest of that
   frame, whatever runs in between, as long as fewer than 2^31 objects were handed out before.
   */
  lemma {:induction false} HandedObjectsStayResolvable(frames: seq<Frame>, v: U64, es: seq<Event>)
    requires InVm(frames) && IsObjectVal(v) && !IsRelativeHandle(GetHandle(v)) && |Top(frames)| < TWO31
    requires Stays(Step(frames, ToRelative(v)), es, |frames| - 1)
    ensures |frames| <= |After(Step(frames, ToRelative(v)), es)|
    ensures
      var given := AbsoluteToRelative(Top(frames), v).1;
      var frame := After(Step(frames, ToRelative(v)), es)[|frames| - 1];
      given.Ok? && frame.VmFrame? && RelativeToAbsolute(frame.table, given.value) == Ok(v)
  {
    RelativeResolves(Top(frames), v);
    TableGrows(Step(frames, ToRelative(v)), es, |frames| - 1);
    hide GetTag, GetHandle, IsRelativeHandle, HandleToIndex, IndexToHandle, PackMajor;
    var t1 := Step(frames, ToRelative(v))[|frames| - 1].table;
    var t2 := After(Step(frames, ToRelative(v)), es)[|frames| - 1].table;
    assert t1[|Top(frames)|] == v && t1 <= t2;
  }

  /**
   A contract frame resolves an object value if and only if its handle is relative, within the
   frame's table, and tagged like the object there; and then the object is absolute and one that
   was handed to this very frame.
   */
  lemma {:induction false} OnlyHandedObjectsResolve(frames: seq<Frame>, es: seq<Event>, v: U64)
    requires IsObjectVal(v)
    requires Stays(Step(frames, EnterVm), es, |frames|)
    ensures |frames| < |After(Step(frames, EnterVm), es)|
    ensures
      var start := Step(frames, EnterVm);
      var frame := After(start, es)[|frames|];
      && frame.VmFrame?
      && (RelativeToAbsolute(frame.table, v).Ok? <==>
          && IsRelativeHandle(GetHandle(v)) && HandleToIndex(GetHandle(v)) < |frame.table|
          && GetTag(frame.table[HandleToIndex(GetHandle(v))]) == GetTag(v))
      && (RelativeToAbsolute(frame.table, v).Ok? ==>
          var w := RelativeToAbsolute(frame.table, v).value;
          w in Handed(start, es, |frames|) && GetTag(w) == GetTag(v) && !IsRelativeHandle(GetHandle(w)))
  {
    TableGrows(Step(frames, EnterVm), es, |frames|);
    hide GetTag, GetHandle, HandleToIndex, Handed, Stays, After;
  }

  lemma {:induction false} LowerFramesStay(frames: seq<Frame>, es: seq<Event>, depth: nat)
    requires Stays(frames, es, depth)
    ensures depth < |After(frames, es)| && After(frames, es)[..depth] == frames[..depth]
    decreases |es|
  {
    if es != [] {
      assert Step(frames, es[0])[..depth] == frames[..depth] by {
        hide AbsoluteToRelative;
      }
      hide Step;
      LowerFramesStay(Step(frames, es[0]), es[1..], depth);
    }
  }

  /** A call that has come back, whatever ran in it, leaves its caller with the tables it had. */
  lemma {:induction false} CallKeepsCallersTables(frames: seq<Frame>, enter: Event, es: seq<Event>)
    requires enter.EnterVm? || enter.EnterOther?
    requires Stays(Step(frames, enter), es, |frames|) && |After(Step(frames, enter), es)| == |frames| + 1
    ensures Step(After(Step(frames, enter), es), Leave) == frames
  {
    LowerFramesStay(Step(frames, enter), es, |frames|);
    assert Step(frames, enter)[..|frames|] == frames;
  }

  // ---------------------------------------------------------------- the host

  class Host {
    var objects: seq<Compare.HostObject>
    var frames: seq<Frame>

    constructor ()
      ensures objects == [] && frames == []
    {
      objects, frames := [], [];
    }

    method EnterVmFrame()
      modifies this`frames
      ensures frames == Step(old(frames), EnterVm)
    {
      frames := frames + [VmFrame([])];
    }

    method LeaveFrame()
      modifies this`frames
      ensures frames == Step(old(frames), Leave)
    {
      if frames != [] {
        frames := frames[..|frames| - 1];
      }
    }

    /** `Host::relative_to_absolute`. */
    method ToAbsolute(v: U64) returns (r: Result<U64>)
      ensures r ==
        if !IsObjectVal(v) then Ok(v)
        else if IsRelativeHandle(GetHandle(v)) && !InVm(frames) then Err(NotVmFrame)
        else RelativeToAbsolute(if InVm(frames) then Top(frames) else [], v)
    {
      if !IsObjectVal(v) {
        return Ok(v);
      }
      var handle := GetHandle(v);
      if !IsRelativeHandle(handle) {
        return Err(AbsoluteReference);
      }
      if !InVm(frames) {
        return Err(NotVmFrame);
      }
      var table, index := Top(frames), HandleToIndex(handle);
      if index >= |table| {
        return Err(UnknownReference);
      }
      if GetTag(table[index]) == GetTag(v) {
        return Ok(table[index]);
      }
      return Err(TypesDiffer);
    }

    /** `Host::absolute_to_relative`. */
    method ToRelative(v: U64) returns (r: Result<U64>)
      modifies this`frames
      ensures frames == Step(old(frames), Event.ToRelative(v))
      ensures r ==
        if IsObjectVal(v) && !IsRelativeHandle(GetHandle(v)) && !InVm(old(frames)) then Err(NotVmFrame)
        else AbsoluteToRelative(if InVm(old(frames)) then Top(old(frames)) else [], v).1
    {
      if !IsObjectVal(v) {
        assert InVm(frames) ==> frames[|frames| - 1 := VmFrame(Top(frames))] == frames;
        return Ok(v);
      }
      if IsRelativeHandle(GetHandle(v)) {
        assert InVm(frames) ==> frames[|frames| - 1 := VmFrame(Top(frames))] == frames;
        return Err(RelativeReference);
      }
      if !InVm(frames) {
        return Err(NotVmFrame);
      }
      var index := |Top(frames)|;
      frames := frames[|frames| - 1 := VmFrame(Top(frames) + [v])];
      var handle := IndexToHandle(index, true);
      if handle.Err? {
        return Err(handle.error);
      }
      return Ok(PackMajor(handle.value, GetTag(v)));
    }

    /**
     `Host::add_host_object`: below 2^31 objects the new value names the new object, and every
     other value names what it did before.
     */
    method AddHostObject(o: Compare.HostObject) returns (r: Result<U64>)
      modifies this`objects
      ensures |old(objects)| >= TWO32 ==> r == Err(ArithOverflow) && objects == old(objects)
      ensures |old(objects)| < TWO32 ==> r.Ok? && objects == old(objects) + [o]
      ensures |old(objects)| < TWO31 ==> Compare.IsValid(r.value, objects) && Compare.Lookup(r.value, objects) == Some(o)
      ensures forall v: U64 :: Compare.Lookup(v, old(objects)).Some? ==>
        Compare.Lookup(v, objects) == Compare.Lookup(v, old(objects))
    {
      var handle := IndexToHandle(|objects|, false);
      if handle.Err? {
        return Err(handle.error);
      }
      HandleLeadsBackIffBelow31Bits(|objects|, false);
      var tag := Compare.U64_OBJECT + Compare.Discriminant(o);
      MajorUnpack(handle.value, tag);
      objects := objects + [o];
      return Ok(PackMajor(handle.value, tag));
    }
  }
}
