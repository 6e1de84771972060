/**
 Comparison of `Val`s, small or object in any mix: `Compare<Val>` in
 soroban-env-common/src/compare.rs, the host's `obj_cmp`, and the comparison of host objects
 with each other and with small values.

 The values are the booleans, void, the integers, symbols, bytes and strings.
 */
module ValCompare {
  import opened Prelude
  import opened Ordering
  import opened Words
  import opened SmallValues
  import Sym = SmallSymbol

  datatype HostObject =
    | HoU64(n: int)
    | HoI64(n: int)
    | HoTimepoint(n: int)
    | HoDuration(n: int)
    | HoU128(n: int)
    | HoI128(n: int)
    | HoU256(n: int)
    | HoI256(n: int)
    | HoBytes(bytes: seq<Sym.Byte>)
    | HoString(bytes: seq<Sym.Byte>)
    | HoSymbol(bytes: seq<Sym.Byte>)

  datatype Comparison = Compared(order: Order) | CompareError

  const OBJECT_LOWER: int := 63
  const OBJECT_UPPER: int := 79
  const U64_OBJECT: int := 64
  const BYTES_OBJECT: int := 72
  const STRING_OBJECT: int := 73
  const SYMBOL_OBJECT: int := 74

  predicate HasObjectTag(v: U64) {
    OBJECT_LOWER < GetTag(v) < OBJECT_UPPER
  }

  /** `host_obj_discriminant`. */
  function Discriminant(o: HostObject): nat {
    match o
    case HoU64(_) => 0
    case HoI64(_) => 1
    case HoTimepoint(_) => 2
    case HoDuration(_) => 3
    case HoU128(_) => 4
    case HoI128(_) => 5
    case HoU256(_) => 6
    case HoI256(_) => 7
    case HoBytes(_) => 8
    case HoString(_) => 9
    case HoSymbol(_) => 10
  }

  predicate IsText(o: HostObject) {
    o.HoBytes? || o.HoString? || o.HoSymbol?
  }

  /** `visit_obj_untyped`: only an odd handle below the size of the table names an object. */
  function Lookup(v: U64, objects: seq<HostObject>): Option<HostObject> {
    var handle := GetMajor(v);
    if handle % 2 == 0 || handle / 2 >= |objects| then None else Some(objects[handle / 2])
  }

  // ---------------------------------------------------------------- what the code does

  /** `Compare<HostObject>`. */
  function CompareObjects(a: HostObject, b: HostObject): Order {
    match (a, b)
    case (HoU64(m), HoU64(n)) => CompareInts(m, n)
    case (HoI64(m), HoI64(n)) => CompareInts(m, n)
    case (HoTimepoint(m), HoTimepoint(n)) => CompareInts(m, n)
    case (HoDuration(m), HoDuration(n)) => CompareInts(m, n)
    case (HoU128(m), HoU128(n)) => CompareInts(m, n)
    case (HoI128(m), HoI128(n)) => CompareInts(m, n)
    case (HoU256(m), HoU256(n)) => CompareInts(m, n)
    case (HoI256(m), HoI256(n)) => CompareInts(m, n)
    case (HoBytes(s), HoBytes(t)) => CompareSeqs(s, t)
    case (HoString(s), HoString(t)) => CompareSeqs(s, t)
    case (HoSymbol(s), HoSymbol(t)) => CompareSeqs(s, t)
    case _ => CompareInts(Discriminant(a), Discriminant(b))
  }

  /** `try_compare_to_small`: nothing for a small value of another type. */
  function TryCompareToSmall(o: HostObject, v: U64): Option<Order> {
    match o
    case HoU64(n) => if GetTag(v) == U64_SMALL then Some(CompareInts(n, GetBody(v))) else None
    case HoI64(n) => if GetTag(v) == I64_SMALL then Some(CompareInts(n, GetSignedBody(v))) else None
    case HoTimepoint(n) => if GetTag(v) == TIMEPOINT_SMALL then Some(CompareInts(n, GetBody(v))) else None
    case HoDuration(n) => if GetTag(v) == DURATION_SMALL then Some(CompareInts(n, GetBody(v))) else None
    case HoU128(n) => if GetTag(v) == U128_SMALL then Some(CompareInts(n, GetBody(v))) else None
    case HoI128(n) => if GetTag(v) == I128_SMALL then Some(CompareInts(n, GetSignedBody(v))) else None
    case HoU256(n) => if GetTag(v) == U256_SMALL then Some(CompareInts(n, GetBody(v))) else None
    case HoI256(n) => if GetTag(v) == I256_SMALL then Some(CompareInts(n, GetSignedBody(v))) else None
    case HoSymbol(s) => if GetTag(v) == SYMBOL_SMALL then Some(CompareSeqs(s, Sym.Chars(GetBody(v)))) else None
    case HoBytes(_) => None
    case HoString(_) => None
  }

  /** `Tag::get_scval_type`, as the position of the type in the order of `ScVal` types. */
  function TypeRank(tag: Tag): Option<nat> {
    if tag == FALSE || tag == TRUE then Some(0)
    else if tag == VOID then Some(1)
    else if tag == 3 then Some(2)
    else if U32_VAL <= tag <= I256_SMALL then Some(tag - 1)
    else if tag == SYMBOL_SMALL || tag == SYMBOL_OBJECT then Some(15)
    else if U64_OBJECT <= tag < BYTES_OBJECT then Some(tag - 59)
    else if tag == BYTES_OBJECT then Some(13)
    else if tag == STRING_OBJECT then Some(14)
    else if tag == 75 then Some(16)
    else if tag == 76 then Some(17)
    else if tag == 77 || tag == 78 then Some(18)
    else None
  }

  /** The order of two optional ranks: no rank comes first. */
  function CompareRanks(a: Option<nat>, b: Option<nat>): Order {
    CompareInts(if a.Some? then a.value else -1, if b.Some? then b.value else -1)
  }

  function OrByRank(order: Option<Order>, a: U64, b: U64): Comparison {
    match order
    case Some(o) => Compared(o)
    case None =>
      if TypeRank(GetTag(a)) == TypeRank(GetTag(b)) then CompareError
      else Compared(CompareRanks(TypeRank(GetTag(a)), TypeRank(GetTag(b))))
  }

  /** The host's `obj_cmp`. */
  function ObjCmp(a: U64, b: U64, objects: seq<HostObject>): Comparison {
    if HasObjectTag(a) && HasObjectTag(b) then
      match (Lookup(a, objects), Lookup(b, objects))
      case (Some(x), Some(y)) => Compared(CompareObjects(x, y))
      case _ => CompareError
    else if HasObjectTag(a) then
      match Lookup(a, objects)
      case Some(x) => OrByRank(TryCompareToSmall(x, b), a, b)
      case None => CompareError
    else if HasObjectTag(b) then
      match Lookup(b, objects)
      case Some(y) =>
        var order := TryCompareToSmall(y, a);
        OrByRank(if order.Some? then Some(Reverse(order.value)) else None, a, b)
      case None => CompareError
    else CompareError
  }

  /** `Compare<Val>`. */
  function CompareVals(a: U64, b: U64, objects: seq<HostObject>): Comparison {
    if a == b then Compared(Equal)
    else if HasObjectTag(a) || HasObjectTag(b) then ObjCmp(a, b, objects)
    else if GetTag(a) < GetTag(b) then Compared(Less)
    else if GetTag(a) > GetTag(b) then Compared(Greater)
    else
      var tag := GetTag(a);
      if tag == U32_VAL then Compared(CompareInts(GetMajor(a), GetMajor(b)))
      else if tag == I32_VAL then Compared(CompareInts(AsI32(GetMajor(a)), AsI32(GetMajor(b))))
      else if tag == I64_SMALL || tag == I128_SMALL || tag == I256_SMALL then
        Compared(CompareInts(GetSignedBody(a), GetSignedBody(b)))
      else if U64_SMALL <= tag <= U256_SMALL then Compared(CompareInts(GetBody(a), GetBody(b)))
      else if tag == SYMBOL_SMALL then Compared(CompareSeqs(Sym.Chars(GetBody(a)), Sym.Chars(GetBody(b))))
      else Compared(Equal)
  }

  // ---------------------------------------------------------------- what values denote

  /** The type of a value and what it holds: a number or a text. */
  datatype Denotation = Numeric(rank: nat, n: int) | Text(rank: nat, s: seq<int>)

  predicate IsSmallTag(tag: Tag) {
    tag == FALSE || tag == TRUE || tag == VOID || U32_VAL <= tag <= SYMBOL_SMALL
  }

  /** A small value of one of the types, or an object whose tag is that of the object it names. */
  predicate IsValid(v: U64, objects: seq<HostObject>) {
    if HasObjectTag(v) then
      Lookup(v, objects).Some? && GetTag(v) == U64_OBJECT + Discriminant(Lookup(v, objects).value)
    else IsSmallTag(GetTag(v))
  }

  function Denote(v: U64, objects: seq<HostObject>): Denotation
    requires IsValid(v, objects)
  {
    if HasObjectTag(v) then
      var o := Lookup(v, objects).value;
      if IsText(o) then Text(TypeRank(GetTag(v)).value, o.bytes) else Numeric(5 + Discriminant(o), o.n)
    else DenoteSmall(v)
  }

  function DenoteSmall(v: U64): Denotation
    requires IsSmallTag(GetTag(v))
  {
    match FromVal(v).value
    case ScBool(b) => Numeric(0, if b then 1 else 0)
    case ScVoid => Numeric(1, 0)
    case ScSymbol(bytes) => Text(15, bytes)
    case sv => Numeric(GetTag(v) - 1, Number(sv))
  }

  function CompareDenotations(x: Denotation, y: Denotation): Order {
    if x.rank != y.rank then CompareInts(x.rank, y.rank)
    else
      match (x, y)
      case (Numeric(_, m), Numeric(_, n)) => CompareInts(m, n)
      case (Text(_, s), Text(_, t)) => CompareSeqs(s, t)
      case (Numeric(_, _), Text(_, _)) => Less
      case (Text(_, _), Numeric(_, _)) => Greater
  }

  /** What a small value denotes, read off its bits. */
  lemma {:induction false} DenoteSmallValue(v: U64)
    requires IsSmallTag(GetTag(v))
    ensures
      var tag := GetTag(v);
      DenoteSmall(v) ==
      if tag == FALSE || tag == TRUE then Numeric(0, tag)
      else if tag == VOID then Numeric(1, 0)
      else if tag == U32_VAL then Numeric(3, GetMajor(v))
      else if tag == I32_VAL then Numeric(4, AsI32(GetMajor(v)))
      else if tag == I64_SMALL || tag == I128_SMALL || tag == I256_SMALL then Numeric(tag - 1, GetSignedBody(v))
      else if tag == SYMBOL_SMALL then Text(15, Sym.Chars(GetBody(v)))
      else Numeric(tag - 1, GetBody(v))
  {
    var s := GetSignedBody(v);
    if GetTag(v) == I256_SMALL {
      I256Value(v);
    } else if GetTag(v) == I128_SMALL {
      AsI64Fits(s / TWO64);
    }
    hide GetTag, GetBody, GetMajor, GetSignedBody, I256IntoPieces, Sym.Chars;
  }

  lemma {:induction false} I256Value(v: U64)
    ensures
      var (hiHi, hiLo, loHi, loLo) := I256IntoPieces(GetSignedBody(v));
      Number(ScI256(hiHi, hiLo, loHi, loLo)) == GetSignedBody(v)
  {
    var s := GetSignedBody(v);
    var (hiHi, hiLo, loHi, loLo) := I256IntoPieces(s);
    hide GetSignedBody;
    FromIntoPieces(s);
    I128FromPartsValue(hiHi, hiLo);
    hide I256IntoPieces, I128FromParts;
  }

  // ---------------------------------------------------------------- comparison is denoted order

  lemma {:induction false} SmallPair(a: U64, b: U64, objects: seq<HostObject>)
    requires IsSmallTag(GetTag(a)) && IsSmallTag(GetTag(b))
    ensures CompareVals(a, b, objects) == Compared(CompareDenotations(DenoteSmall(a), DenoteSmall(b)))
  {
    DenoteSmallValue(a);
    DenoteSmallValue(b);
    SeqsEqual(Sym.Chars(GetBody(a)), Sym.Chars(GetBody(b)));
    hide DenoteSmall, GetTag, GetBody, GetMajor, GetSignedBody, Sym.Chars, CompareSeqs, AsI32, ObjCmp, TypeRank;
    var tag := GetTag(a);
    if tag != GetTag(b) {
    } else if tag == U32_VAL || tag == I32_VAL {
    } else if tag == SYMBOL_SMALL {
    } else if tag == I64_SMALL || tag == I128_SMALL || tag == I256_SMALL {
    }
  }

  /** An object and a small value of its type compare by number or text; other small values do not. */
  lemma {:induction false} ObjectAndSmall(v: U64, w: U64, o: HostObject, objects: seq<HostObject>)
    requires HasObjectTag(v) && IsValid(v, objects) && Lookup(v, objects) == Some(o) && IsSmallTag(GetTag(w))
    ensures
      var order := CompareDenotations(Denote(v, objects), DenoteSmall(w));
      if TypeRank(GetTag(v)) == TypeRank(GetTag(w)) then TryCompareToSmall(o, w) == Some(order)
      else TryCompareToSmall(o, w) == None && order == CompareRanks(TypeRank(GetTag(v)), TypeRank(GetTag(w)))
  {
    DenoteSmallValue(w);
    hide DenoteSmall, Lookup, GetTag, GetBody, GetMajor, GetSignedBody, Sym.Chars, CompareSeqs, AsI32;
  }

  lemma {:induction false} DenotationsReverse(x: Denotation, y: Denotation)
    ensures CompareDenotations(y, x) == Reverse(CompareDenotations(x, y))
  {
    if x.Text? && y.Text? {
      SeqsReverse(x.s, y.s);
    }
  }

  lemma {:induction false} DenotationsEqual(x: Denotation, y: Denotation)
    ensures CompareDenotations(x, y) == Equal <==> x == y
  {
    if x.Text? && y.Text? {
      SeqsEqual(x.s, y.s);
    }
  }

  lemma {:induction false} DenotationsTransitive(x: Denotation, y: Denotation, z: Denotation)
    requires CompareDenotations(x, y) != Greater && CompareDenotations(y, z) != Greater
    ensures CompareDenotations(x, z) != Greater
  {
    if x.Text? && y.Text? && z.Text? && x.rank == y.rank == z.rank {
      SeqsTransitive(x.s, y.s, z.s);
    }
  }

  lemma {:induction false} ObjectPair(a: U64, b: U64, x: HostObject, y: HostObject, objects: seq<HostObject>)
    requires HasObjectTag(a) && IsValid(a, objects) && Lookup(a, objects) == Some(x)
    requires HasObjectTag(b) && IsValid(b, objects) && Lookup(b, objects) == Some(y)
    ensures CompareObjects(x, y) == CompareDenotations(Denote(a, objects), Denote(b, objects))
  {
    hide Lookup, GetTag, CompareSeqs;
  }

  /**
   Comparing two valid values, small or object in any mix, never fails and gives the order of
   the types and numbers or texts they denote.
   */
  lemma {:induction false} ComparisonIsDenotedOrder(a: U64, b: U64, objects: seq<HostObject>)
    requires IsValid(a, objects) && IsValid(b, objects)
    ensures CompareVals(a, b, objects) == Compared(CompareDenotations(Denote(a, objects), Denote(b, objects)))
  {
    hide DenoteSmall, Lookup, GetTag, CompareDenotations, TryCompareToSmall, CompareObjects, TypeRank;
    if a == b {
      DenotationsEqual(Denote(a, objects), Denote(b, objects));
    } else if HasObjectTag(a) && HasObjectTag(b) {
      ObjectPair(a, b, Lookup(a, objects).value, Lookup(b, objects).value, objects);
    } else if HasObjectTag(a) {
      ObjectAndSmall(a, b, Lookup(a, objects).value, objects);
    } else if HasObjectTag(b) {
      ObjectAndSmall(b, a, Lookup(b, objects).value, objects);
      DenotationsReverse(Denote(b, objects), Denote(a, objects));
    } else {
      SmallPair(a, b, objects);
    }
  }

  /** The upper half of the word is an odd number whose half is a position in the table. */
  predicate NamesObject(v: U64, objects: seq<HostObject>) {
    var handle := v / 0x1_0000_0000;
    handle % 2 == 1 && handle / 2 < |objects|
  }

  lemma {:induction false} LookupIffNamed(v: U64, objects: seq<HostObject>)
    ensures Lookup(v, objects).Some? <==> NamesObject(v, objects)
    ensures Lookup(v, objects).Some? ==> Lookup(v, objects).value == objects[v / 0x1_0000_0000 / 2]
  {
    var body, low := v / 256, v % 256;
    var handle, rest := body / TWO24, body % TWO24;
    Sym.ModUnique(v, TWO32, handle, rest * 256 + low);
  }

  /** Two different object values, rightly tagged or not, fail to compare if and only if one names no object. */
  lemma {:induction false} ObjectsFailToCompareIff(a: U64, b: U64, objects: seq<HostObject>)
    requires HasObjectTag(a) && HasObjectTag(b) && a != b
    ensures CompareVals(a, b, objects) == CompareError <==> !NamesObject(a, objects) || !NamesObject(b, objects)
  {
    hide Lookup, NamesObject;
    LookupIffNamed(a, objects);
    LookupIffNamed(b, objects);
  }

  /** Comparison of valid values is a total preorder in which equal means the same type and value. */
  lemma {:induction false} ComparisonIsTotalPreorder(a: U64, b: U64, c: U64, objects: seq<HostObject>)
    requires IsValid(a, objects) && IsValid(b, objects) && IsValid(c, objects)
    ensures
      var ab, ba := CompareVals(a, b, objects), CompareVals(b, a, objects);
      var bc, ac := CompareVals(b, c, objects), CompareVals(a, c, objects);
      && ab.Compared? && ba.Compared? && bc.Compared? && ac.Compared?
      && ba.order == Reverse(ab.order)
      && (ab.order == Equal <==> Denote(a, objects) == Denote(b, objects))
      && (ab.order != Greater && bc.order != Greater ==> ac.order != Greater)
  {
    hide CompareVals, Denote, CompareDenotations, IsValid;
    ComparisonIsDenotedOrder(a, b, objects);
    ComparisonIsDenotedOrder(b, a, objects);
    ComparisonIsDenotedOrder(b, c, objects);
    ComparisonIsDenotedOrder(a, c, objects);
    var x, y, z := Denote(a, objects), Denote(b, objects), Denote(c, objects);
    DenotationsReverse(x, y);
    DenotationsEqual(x, y);
    if CompareDenotations(x, y) != Greater && CompareDenotations(y, z) != Greater {
      DenotationsTransitive(x, y, z);
    }
  }

  // ---------------------------------------------------------------- vectors

  /** Lexicographic comparison; the first element that cannot be compared is an error. */
  function CompareValSeqs(a: seq<U64>, b: seq<U64>, objects: seq<HostObject>): Comparison {
    if a == [] || b == [] then Compared(CompareInts(|a|, |b|))
    else
      var first := CompareVals(a[0], b[0], objects);
      if first == Compared(Equal) then CompareValSeqs(a[1..], b[1..], objects) else first
  }

  /** `Compare<Vec<T>>`. */
  method CompareVecs(a: seq<U64>, b: seq<U64>, objects: seq<HostObject>) returns (r: Comparison)
    ensures r == CompareValSeqs(a, b, objects)
  {
    hide CompareVals;
    var i := 0;
    while true
      invariant 0 <= i <= |a| && i <= |b|
      invariant CompareValSeqs(a[i..], b[i..], objects) == CompareValSeqs(a, b, objects)
      decreases |a| - i
    {
      if i == |a| {
        return Compared(if i == |b| then Equal else Less);
      }
      if i == |b| {
        return Compared(Greater);
      }
      var first := CompareVals(a[i], b[i], objects);
      if first != Compared(Equal) {
        return first;
      }
      assert a[i..][1..] == a[i + 1..] && b[i..][1..] == b[i + 1..];
      i := i + 1;
    }
  }

  /** The result for vectors of valid values: they agree up to `i`, where one ends or they differ. */
  lemma {:induction false} VectorOrder(a: seq<U64>, b: seq<U64>, objects: seq<HostObject>, i: nat)
    requires forall k :: 0 <= k < |a| ==> IsValid(a[k], objects)
    requires forall k :: 0 <= k < |b| ==> IsValid(b[k], objects)
    requires i <= |a| && i <= |b|
    requires forall k :: 0 <= k < i ==> Denote(a[k], objects) == Denote(b[k], objects)
    requires i < |a| && i < |b| ==> Denote(a[i], objects) != Denote(b[i], objects)
    ensures CompareValSeqs(a, b, objects) ==
      if i < |a| && i < |b| then Compared(CompareDenotations(Denote(a[i], objects), Denote(b[i], objects)))
      else Compared(CompareInts(|a|, |b|))
    decreases i
  {
    hide CompareVals, Denote, CompareDenotations, IsValid;
    if a != [] && b != [] {
      ComparisonIsDenotedOrder(a[0], b[0], objects);
      DenotationsEqual(Denote(a[0], objects), Denote(b[0], objects));
      if i > 0 {
        VectorOrder(a[1..], b[1..], objects, i - 1);
      }
    }
  }
}
