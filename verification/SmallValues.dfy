/**
 The 64-bit `Val`: an 8-bit tag below a 56-bit body, which holds the scalars that fit it
 (soroban-env-common/src/val.rs, num.rs, object.rs and convert.rs).

 Machine integers are integers in a range. Shifting left multiplies and wraps, shifting right
 divides and rounds down, and a cast keeps the low bits.
 */
module SmallValues {
  import opened Prelude
  import opened Words
  import Sym = SmallSymbol

  /** The scalar cases of `ScVal`. */
  datatype ScVal =
    | ScBool(b: bool)
    | ScVoid
    | ScU32(u32: U32)
    | ScI32(i32: I32)
    | ScU64(u: U64)
    | ScI64(i: I64)
    | ScTimepoint(u: U64)
    | ScDuration(u: U64)
    | ScU128(hi: U64, lo: U64)
    | ScI128(shi: I64, lo: U64)
    | ScU256(hiHi: U64, hiLo: U64, loHi: U64, loLo: U64)
    | ScI256(shiHi: I64, hiLo: U64, loHi: U64, loLo: U64)
    | ScSymbol(bytes: seq<Sym.Byte>)

  // ---------------------------------------------------------------- casts

  function AsI64(x: int): I64 {
    if x % TWO64 < TWO63 then x % TWO64 else x % TWO64 - TWO64
  }

  function AsI128(x: int): I128 {
    if x % TWO128 < TWO127 then x % TWO128 else x % TWO128 - TWO128
  }

  function AsI32(x: int): I32 {
    if x % TWO32 < TWO31 then x % TWO32 else x % TWO32 - TWO32
  }

  // ---------------------------------------------------------------- smallness

  predicate IsSmallU64(u: U64) {
    u == ((u * 256) % TWO64) / 256
  }

  predicate IsSmallI64(i: I64) {
    i == AsI64(i * 256) / 256
  }

  predicate IsSmallU128(u: U128) {
    IsSmallU64(u % TWO64) && u == u % TWO64
  }

  predicate IsSmallI128(i: I128) {
    IsSmallI64(AsI64(i)) && i == AsI64(i)
  }

  predicate IsSmallU256Parts(hiHi: U64, hiLo: U64, loHi: U64, loLo: U64) {
    hiHi == 0 && hiLo == 0 && loHi == 0 && IsSmallU64(loLo)
  }

  /** A 256-bit integer with the words `high` and `low`. */
  predicate IsSmallI256(i: int) {
    IsSmallI64(AsI64(i)) && i == AsI64(i)
  }

  predicate IsSmallI256Parts(hiHi: I64, hiLo: U64, loHi: U64, loLo: U64) {
    IsSmallI256(I256FromPieces(hiHi, hiLo, loHi, loLo))
  }

  function U128FromParts(hi: U64, lo: U64): U128 {
    hi * TWO64 + lo
  }

  function I128FromParts(hi: I64, lo: U64): I128 {
    AsI128((hi % TWO64) * TWO64 + lo)
  }

  function I256FromPieces(hiHi: I64, hiLo: U64, loHi: U64, loLo: U64): int {
    I128FromParts(hiHi, hiLo) * TWO128 + U128FromParts(loHi, loLo)
  }

  function I256IntoPieces(i: int): (I64, U64, U64, U64)
    requires -TWO255 <= i < TWO255
  {
    var high, low := i / TWO128, i % TWO128;
    (AsI64(high / TWO64), high % TWO64, low / TWO64, low % TWO64)
  }

  lemma {:induction false} SmallU64IffFits(u: U64)
    ensures IsSmallU64(u) <==> u < TWO56
  {
  }

  lemma {:induction false} SmallI64IffFits(i: I64)
    ensures IsSmallI64(i) <==> -TWO55 <= i < TWO55
  {
  }

  lemma {:induction false} I128FromPartsValue(hi: I64, lo: U64)
    ensures I128FromParts(hi, lo) == hi * TWO64 + lo
  {
  }

  lemma {:induction false} AsI64Fits(i: int)
    ensures i == AsI64(i) <==> -TWO63 <= i < TWO63
  {
  }

  /** Joining pieces and cutting again gives the pieces back. */
  lemma {:induction false} IntoFromPieces(hiHi: I64, hiLo: U64, loHi: U64, loLo: U64)
    ensures
      var j := I256FromPieces(hiHi, hiLo, loHi, loLo);
      -TWO255 <= j < TWO255 && I256IntoPieces(j) == (hiHi, hiLo, loHi, loLo)
  {
    var j, high, low := I256FromPieces(hiHi, hiLo, loHi, loLo), I128FromParts(hiHi, hiLo), U128FromParts(loHi, loLo);
    I128FromPartsValue(hiHi, hiLo);
    hide I128FromParts;
    Sym.ModUnique(j, TWO128, high, low);
    Sym.ModUnique(high, TWO64, hiHi, hiLo);
    Sym.ModUnique(low, TWO64, loHi, loLo);
    AsI64Fits(hiHi);
  }

  /** Cutting a 256-bit integer into pieces and joining them again is the identity. */
  lemma {:induction false} FromIntoPieces(i: int)
    requires -TWO255 <= i < TWO255
    ensures
      var (hiHi, hiLo, loHi, loLo) := I256IntoPieces(i);
      I256FromPieces(hiHi, hiLo, loHi, loLo) == i
  {
    var high, low := i / TWO128, i % TWO128;
    assert -TWO127 <= high < TWO127;
    assert -TWO63 <= high / TWO64 < TWO63;
    AsI64Fits(high / TWO64);
    I128FromPartsValue(high / TWO64, high % TWO64);
  }

  // ---------------------------------------------------------------- classification

  /** The number a numeric scalar stands for. */
  function Number(v: ScVal): int
    requires !v.ScSymbol?
  {
    match v
    case ScBool(b) => if b then 1 else 0
    case ScVoid => 0
    case ScU32(u) => u
    case ScI32(i) => i
    case ScU64(u) => u
    case ScI64(i) => i
    case ScTimepoint(u) => u
    case ScDuration(u) => u
    case ScU128(hi, lo) => hi * TWO64 + lo
    case ScI128(hi, lo) => hi * TWO64 + lo
    case ScU256(hiHi, hiLo, loHi, loLo) => ((hiHi * TWO64 + hiLo) * TWO64 + loHi) * TWO64 + loLo
    case ScI256(hiHi, hiLo, loHi, loLo) => ((hiHi * TWO64 + hiLo) * TWO64 + loHi) * TWO64 + loLo
  }

  predicate IsSigned(v: ScVal) {
    v.ScI64? || v.ScI128? || v.ScI256?
  }

  predicate IsWide(v: ScVal) {
    v.ScU64? || v.ScTimepoint? || v.ScDuration? || v.ScU128? || v.ScU256? || IsSigned(v)
  }

  /** `ScValObjRef::classify`: whether the scalar needs a host object. */
  predicate IsObject(v: ScVal) {
    match v
    case ScBool(_) => false
    case ScVoid => false
    case ScU32(_) => false
    case ScI32(_) => false
    case ScU64(u) => !IsSmallU64(u)
    case ScTimepoint(u) => !IsSmallU64(u)
    case ScDuration(u) => !IsSmallU64(u)
    case ScI64(i) => !IsSmallI64(i)
    case ScU128(hi, lo) => !IsSmallU128(U128FromParts(hi, lo))
    case ScI128(hi, lo) => !IsSmallI128(I128FromParts(hi, lo))
    case ScU256(hiHi, hiLo, loHi, loLo) => !IsSmallU256Parts(hiHi, hiLo, loHi, loLo)
    case ScI256(hiHi, hiLo, loHi, loLo) => !IsSmallI256Parts(hiHi, hiLo, loHi, loLo)
    case ScSymbol(bytes) => |bytes| > Sym.MAX_SMALL_CHARS
  }

  predicate Fits(v: ScVal)
    requires !v.ScSymbol?
  {
    if IsSigned(v) then -TWO55 <= Number(v) < TWO55 else 0 <= Number(v) < TWO56
  }

  /** A wide integer is not an object exactly when its number fits the signed or unsigned 56 bits. */
  lemma {:induction false} ClassifyIffFits(v: ScVal)
    requires IsWide(v)
    ensures !IsObject(v) <==> Fits(v)
  {
    match v {
      case ScU64(u) => SmallU64IffFits(u);
      case ScTimepoint(u) => SmallU64IffFits(u);
      case ScDuration(u) => SmallU64IffFits(u);
      case ScI64(i) => SmallI64IffFits(i);
      case ScU128(hi, lo) => SmallU64IffFits(U128FromParts(hi, lo) % TWO64);
      case ScI128(hi, lo) =>
        I128FromPartsValue(hi, lo);
        SignedIffFits(I128FromParts(hi, lo));
      case ScU256(hiHi, hiLo, loHi, loLo) => SmallU64IffFits(loLo);
      case ScI256(hiHi, hiLo, loHi, loLo) =>
        I128FromPartsValue(hiHi, hiLo);
        SignedIffFits(I256FromPieces(hiHi, hiLo, loHi, loLo));
    }
  }

  lemma {:induction false} SignedIffFits(i: int)
    ensures IsSmallI64(AsI64(i)) && i == AsI64(i) <==> -TWO55 <= i < TWO55
  {
    SmallI64IffFits(AsI64(i));
  }

  // ---------------------------------------------------------------- conversion

  const FALSE: int := 0
  const TRUE: int := 1
  const VOID: int := 2
  const U32_VAL: int := 4
  const I32_VAL: int := 5
  const U64_SMALL: int := 6
  const I64_SMALL: int := 7
  const TIMEPOINT_SMALL: int := 8
  const DURATION_SMALL: int := 9
  const U128_SMALL: int := 10
  const I128_SMALL: int := 11
  const U256_SMALL: int := 12
  const I256_SMALL: int := 13
  const SYMBOL_SMALL: int := 14

  type Tag = t: int | 0 <= t < 256

  /** `from_body_and_tag`, on a body of any 64 bits. */
  function Pack(body: U64, tag: Tag): U64 {
    (body * 256) % TWO64 + tag
  }

  function GetTag(v: U64): Tag {
    v % 256
  }

  function GetBody(v: U64): U64 {
    v / 256
  }

  function GetSignedBody(v: U64): I64 {
    AsI64(v) / 256
  }

  function GetMajor(v: U64): U32 {
    GetBody(v) / TWO24
  }

  function PackMajor(major: U32, tag: Tag): U64 {
    Pack(major * TWO24, tag)
  }

  /** A small value, an object to be made, or a conversion error. */
  datatype Conversion = Small(val: U64) | NeedsObject | Failure

  /** `ScVal` to `Val`. */
  function ToVal(v: ScVal): Conversion {
    if IsObject(v) then NeedsObject
    else
      match v
      case ScBool(b) => Small(Pack(0, if b then TRUE else FALSE))
      case ScVoid => Small(Pack(0, VOID))
      case ScU32(u) => Small(PackMajor(u, U32_VAL))
      case ScI32(i) => Small(PackMajor(i % TWO32, I32_VAL))
      case ScU64(u) => Small(Pack(u, U64_SMALL))
      case ScI64(i) => Small(Pack(i % TWO64, I64_SMALL))
      case ScTimepoint(u) => Small(Pack(u, TIMEPOINT_SMALL))
      case ScDuration(u) => Small(Pack(u, DURATION_SMALL))
      case ScU128(hi, lo) => Small(Pack(U128FromParts(hi, lo) % TWO64, U128_SMALL))
      case ScI128(hi, lo) => Small(Pack(AsI64(I128FromParts(hi, lo)) % TWO64, I128_SMALL))
      case ScU256(hiHi, hiLo, loHi, loLo) => Small(Pack(loLo, U256_SMALL))
      case ScI256(hiHi, hiLo, loHi, loLo) => Small(Pack(loLo, I256_SMALL))
      case ScSymbol(bytes) =>
        if Sym.IsSymbol(bytes) then Sym.UnpackPack(bytes); Small(Pack(Sym.Pack(bytes), SYMBOL_SMALL)) else Failure
  }

  /** `Val` to `ScVal`, for the small tags. */
  function FromVal(v: U64): Option<ScVal> {
    var tag := GetTag(v);
    if tag == FALSE then Some(ScBool(false))
    else if tag == TRUE then Some(ScBool(true))
    else if tag == VOID then Some(ScVoid)
    else if tag == U32_VAL then Some(ScU32(GetMajor(v)))
    else if tag == I32_VAL then Some(ScI32(AsI32(GetMajor(v))))
    else if tag == U64_SMALL then Some(ScU64(GetBody(v)))
    else if tag == I64_SMALL then Some(ScI64(GetSignedBody(v)))
    else if tag == TIMEPOINT_SMALL then Some(ScTimepoint(GetBody(v)))
    else if tag == DURATION_SMALL then Some(ScDuration(GetBody(v)))
    else if tag == U128_SMALL then Some(ScU128(0, GetBody(v)))
    else if tag == I128_SMALL then
      var body := GetSignedBody(v);
      Some(ScI128(AsI64(body / TWO64), body % TWO64))
    else if tag == U256_SMALL then Some(ScU256(0, 0, 0, GetBody(v)))
    else if tag == I256_SMALL then
      var (hiHi, hiLo, loHi, loLo) := I256IntoPieces(GetSignedBody(v));
      Some(ScI256(hiHi, hiLo, loHi, loLo))
    else if tag == SYMBOL_SMALL then Some(ScSymbol(Sym.Chars(GetBody(v))))
    else None
  }

  lemma {:induction false} PackUnpack(body: U64, tag: Tag)
    ensures GetTag(Pack(body, tag)) == tag && GetBody(Pack(body, tag)) == body % TWO56
  {
    var q, r := body / TWO56, body % TWO56;
    Sym.ModUnique(body * 256, TWO64, q, r * 256);
    Sym.ModUnique(r * 256 + tag, 256, r, tag);
  }

  lemma {:induction false} PackSigned(i: int, tag: Tag)
    requires -TWO55 <= i < TWO55
    ensures Pack(i % TWO64, tag) == i * 256 + tag + (if i < 0 then TWO64 else 0)
  {
    var body := i % TWO64;
    if i >= 0 {
      Sym.ModUnique(body * 256, TWO64, 0, i * 256);
    } else {
      Sym.ModUnique(i, TWO64, -1, i + TWO64);
      Sym.ModUnique(body * 256, TWO64, 255, i * 256 + TWO64);
    }
  }

  /** Sign extension undoes the packing of a signed number of 56 bits. */
  lemma {:induction false} SignExtends(i: int, tag: Tag)
    requires -TWO55 <= i < TWO55
    ensures GetSignedBody(Pack(i % TWO64, tag)) == i
  {
    PackSigned(i, tag);
    hide Pack;
    var w := Pack(i % TWO64, tag);
    Sym.ModUnique(w, TWO64, 0, w);
    Sym.ModUnique(i * 256 + tag, 256, i, tag);
  }

  /** The pieces of a number that fits 56 signed bits, as its small value decodes them. */
  lemma {:induction false} SignedPieces(hi: I64, lo: U64)
    requires -TWO55 <= hi * TWO64 + lo < TWO55
    ensures
      var n := hi * TWO64 + lo;
      && AsI64(n) == n && n % TWO64 == lo && n / TWO64 == hi && AsI64(hi) == hi
      && (hi == 0 || hi == -1)
  {
    Sym.ModUnique(hi * TWO64 + lo, TWO64, hi, lo);
    AsI64Fits(hi * TWO64 + lo);
    AsI64Fits(hi);
  }

  lemma {:induction false} PackSmallUnpack(body: U64, tag: Tag)
    requires body < TWO56
    ensures GetTag(Pack(body, tag)) == tag && GetBody(Pack(body, tag)) == body
  {
    hide Pack, GetTag, GetBody;
    PackUnpack(body, tag);
  }

  lemma {:induction false} UnsignedRoundTrip(v: ScVal)
    requires IsWide(v) && !IsSigned(v) && !IsObject(v) && Fits(v)
    ensures ToVal(v).Small? && FromVal(ToVal(v).val) == Some(v)
  {
    hide Pack, GetTag, GetBody, IsSmallU64;
    match v {
      case ScU64(u) => PackSmallUnpack(u, U64_SMALL);
      case ScTimepoint(u) => PackSmallUnpack(u, TIMEPOINT_SMALL);
      case ScDuration(u) => PackSmallUnpack(u, DURATION_SMALL);
      case ScU128(hi, lo) =>
        assert hi == 0 && lo % TWO64 == lo;
        PackSmallUnpack(lo, U128_SMALL);
      case ScU256(hiHi, hiLo, loHi, loLo) => PackSmallUnpack(loLo, U256_SMALL);
    }
  }

  lemma {:induction false} I256RoundTrip(hiHi: I64, hiLo: U64, loHi: U64, loLo: U64)
    requires !IsObject(ScI256(hiHi, hiLo, loHi, loLo)) && Fits(ScI256(hiHi, hiLo, loHi, loLo))
    ensures
      var v := ScI256(hiHi, hiLo, loHi, loLo);
      ToVal(v).Small? && FromVal(ToVal(v).val) == Some(v)
  {
    var v := ScI256(hiHi, hiLo, loHi, loLo);
    var n := Number(v);
    I128FromPartsValue(hiHi, hiLo);
    assert I256FromPieces(hiHi, hiLo, loHi, loLo) == n;
    IntoFromPieces(hiHi, hiLo, loHi, loLo);
    Sym.ModUnique(n, TWO64, (hiHi * TWO64 + hiLo) * TWO64 + loHi, loLo);
    SignExtends(n, I256_SMALL);
    PackUnpack(loLo, I256_SMALL);
    hide Pack, GetTag, GetSignedBody, I256IntoPieces, IsSmallI256Parts;
  }

  lemma {:induction false} SignedRoundTrip(v: ScVal)
    requires (v.ScI64? || v.ScI128?) && !IsObject(v) && Fits(v)
    ensures ToVal(v).Small? && FromVal(ToVal(v).val) == Some(v)
  {
    if v.ScI128? {
      I128FromPartsValue(v.shi, v.lo);
    }
    hide Pack, GetTag, GetSignedBody, I128FromParts, AsI64, IsSmallI64;
    SignExtends(Number(v), if v.ScI64? then I64_SMALL else I128_SMALL);
    PackUnpack(Number(v) % TWO64, if v.ScI64? then I64_SMALL else I128_SMALL);
    if v.ScI128? {
      SignedPieces(v.shi, v.lo);
    }
  }

  lemma {:induction false} MajorUnpack(major: U32, tag: Tag)
    ensures GetTag(PackMajor(major, tag)) == tag && GetMajor(PackMajor(major, tag)) == major
  {
    hide Pack, GetTag, GetBody;
    PackUnpack(major * TWO24, tag);
    Sym.ModUnique(major * TWO24, TWO56, 0, major * TWO24);
    Sym.ModUnique(major * TWO24, TWO24, major, 0);
  }

  lemma {:induction false} NarrowRoundTrip(v: ScVal)
    requires !IsWide(v) && !v.ScSymbol?
    ensures ToVal(v).Small? && FromVal(ToVal(v).val) == Some(v)
  {
    hide Pack, PackMajor, GetMajor, GetTag, GetBody;
    match v {
      case ScBool(b) => PackUnpack(0, if b then TRUE else FALSE);
      case ScVoid => PackUnpack(0, VOID);
      case ScU32(u) => MajorUnpack(u, U32_VAL);
      case ScI32(i) => MajorUnpack(i % TWO32, I32_VAL);
    }
  }

  lemma {:induction false} SymbolRoundTrip(bytes: seq<Sym.Byte>)
    requires Sym.IsSymbol(bytes) && |bytes| <= Sym.MAX_SMALL_CHARS
    ensures ToVal(ScSymbol(bytes)).Small? && FromVal(ToVal(ScSymbol(bytes)).val) == Some(ScSymbol(bytes))
  {
    hide Pack, GetTag, GetBody, Sym.Pack, Sym.Chars, Sym.IsSymbol;
    Sym.UnpackPack(bytes);
    var body := Sym.Pack(bytes);
    PackUnpack(body, SYMBOL_SMALL);
    Sym.ModUnique(body, TWO56, 0, body);
  }

  lemma {:induction false} AsI64Wraps(i: int)
    ensures AsI64(i) % TWO64 == i % TWO64
  {
    var r := i % TWO64;
    if r >= TWO63 {
      Sym.ModUnique(r - TWO64, TWO64, -1, r);
    } else {
      Sym.ModUnique(r, TWO64, 0, r);
    }
  }

  lemma {:induction false} LowBits(n: int)
    ensures n % TWO64 % TWO56 == n % TWO56
  {
    var q, r := n / TWO64, n % TWO64;
    Sym.ModUnique(n, TWO56, 256 * q + r / TWO56, r % TWO56);
  }

  /** The low byte of a small value is its tag, and the high bits are a small integer modulo 2^56. */
  lemma {:induction false} WideLayout(v: ScVal)
    requires IsWide(v) && !IsObject(v)
    ensures ToVal(v).Small?
    ensures ToVal(v).val / 256 == Number(v) % 0x100_0000_0000_0000
    ensures ToVal(v).val % 256 ==
      match v
      case ScU64(_) => 6
      case ScI64(_) => 7
      case ScTimepoint(_) => 8
      case ScDuration(_) => 9
      case ScU128(_, _) => 10
      case ScI128(_, _) => 11
      case ScU256(_, _, _, _) => 12
      case _ => 13
  {
    var n := Number(v);
    LowBits(n);
    hide Pack, IsSmallU64, IsSmallI64, IsSmallU128, IsSmallI128, IsSmallU256Parts, IsSmallI256Parts, AsI64, I128FromParts;
    match v {
      case ScU64(u) => PackUnpack(u, 6);
      case ScI64(i) => PackUnpack(i % TWO64, 7);
      case ScTimepoint(u) => PackUnpack(u, 8);
      case ScDuration(u) => PackUnpack(u, 9);
      case ScU128(hi, lo) => PackUnpack(n % TWO64, 10);
      case ScI128(hi, lo) =>
        I128FromPartsValue(hi, lo);
        AsI64Wraps(n);
        PackUnpack(n % TWO64, 11);
      case ScU256(hiHi, hiLo, loHi, loLo) =>
        Sym.ModUnique(n, TWO64, (hiHi * TWO64 + hiLo) * TWO64 + loHi, loLo);
        PackUnpack(loLo, 12);
      case ScI256(hiHi, hiLo, loHi, loLo) =>
        Sym.ModUnique(n, TWO64, (hiHi * TWO64 + hiLo) * TWO64 + loHi, loLo);
        PackUnpack(loLo, 13);
    }
  }

  /** The 32-bit integers fill the upper half of the word, above their tag. */
  lemma {:induction false} NarrowLayout(v: ScVal)
    requires !IsWide(v) && !v.ScSymbol?
    ensures ToVal(v) == Small(
      match v
      case ScBool(b) => if b then 1 else 0
      case ScVoid => 2
      case ScU32(u) => u * 0x1_0000_0000 + 4
      case ScI32(i) => (if i < 0 then i + 0x1_0000_0000 else i) * 0x1_0000_0000 + 5)
  {
  }

  /** A scalar that is not an object is packed and unpacked to itself. */
  lemma {:induction false} SmallRoundTrip(v: ScVal)
    requires !IsObject(v) && (v.ScSymbol? ==> Sym.IsSymbol(v.bytes))
    ensures ToVal(v).Small? && FromVal(ToVal(v).val) == Some(v)
  {
    hide ToVal, FromVal;
    if v.ScSymbol? {
      SymbolRoundTrip(v.bytes);
    } else if !IsWide(v) {
      NarrowRoundTrip(v);
    } else {
      ClassifyIffFits(v);
      hide IsObject, Fits;
      if v.ScI256? {
        I256RoundTrip(v.shiHi, v.hiLo, v.loHi, v.loLo);
      } else if IsSigned(v) {
        SignedRoundTrip(v);
      } else {
        UnsignedRoundTrip(v);
      }
    }
  }

  lemma {:induction false} SignedBodyValue(v: U64)
    ensures GetSignedBody(v) * 256 + GetTag(v) == if v < TWO63 then v else v - TWO64
    ensures -TWO55 <= GetSignedBody(v) < TWO55
  {
    Sym.ModUnique(v, TWO64, 0, v);
    if v >= TWO63 {
      Sym.ModUnique(v - TWO64, 256, v / 256 - TWO56, v % 256);
    }
  }

  lemma {:induction false} RepackSigned(v: U64)
    ensures -TWO55 <= GetSignedBody(v) < TWO55
    ensures Pack(GetSignedBody(v) % TWO64, GetTag(v)) == v
  {
    SignedBodyValue(v);
    hide GetSignedBody, GetTag;
    var s, t := GetSignedBody(v), GetTag(v);
    if v < TWO63 {
      Sym.ModUnique(s, TWO64, 0, s);
      Sym.ModUnique(s * 256, TWO64, 0, v - t);
    } else {
      Sym.ModUnique(s, TWO64, -1, s + TWO64);
      Sym.ModUnique((s + TWO64) * 256, TWO64, 255, v - t);
    }
  }

  lemma {:induction false} RepackUnsigned(v: U64)
    ensures GetBody(v) < TWO56 && Pack(GetBody(v), GetTag(v)) == v
  {
    Sym.ModUnique(GetBody(v) * 256, TWO64, 0, GetBody(v) * 256);
  }

  lemma {:induction false} I256ValRoundTrip(v: U64)
    requires GetTag(v) == I256_SMALL
    ensures FromVal(v).Some? && IsWide(FromVal(v).value) && !IsObject(FromVal(v).value)
    ensures ToVal(FromVal(v).value) == Small(v)
  {
    var sv, s := FromVal(v).value, GetSignedBody(v);
    RepackSigned(v);
    SignedIffFits(s);
    FromIntoPieces(s);
    I128FromPartsValue(sv.shiHi, sv.hiLo);
    hide Pack, GetTag, GetSignedBody, IsSmallI64, I128FromParts, AsI64, I256IntoPieces;
    Sym.ModUnique(s, TWO64, (sv.shiHi * TWO64 + sv.hiLo) * TWO64 + sv.loHi, sv.loLo);
  }

  lemma {:induction false} SignedValRoundTrip(v: U64)
    requires GetTag(v) == I64_SMALL || GetTag(v) == I128_SMALL
    ensures FromVal(v).Some? && IsWide(FromVal(v).value) && !IsObject(FromVal(v).value)
    ensures ToVal(FromVal(v).value) == Small(v)
  {
    var sv, s := FromVal(v).value, GetSignedBody(v);
    RepackSigned(v);
    AsI64Fits(s);
    SignedIffFits(s);
    AsI64Fits(s / TWO64);
    if sv.ScI128? {
      I128FromPartsValue(sv.shi, sv.lo);
    }
    hide Pack, GetTag, GetSignedBody, IsSmallI64, I128FromParts, AsI64;
  }

  lemma {:induction false} UnsignedValRoundTrip(v: U64)
    requires U64_SMALL <= GetTag(v) <= I256_SMALL
    requires GetTag(v) != I64_SMALL && GetTag(v) != I128_SMALL && GetTag(v) != I256_SMALL
    ensures FromVal(v).Some? && IsWide(FromVal(v).value) && !IsObject(FromVal(v).value)
    ensures ToVal(FromVal(v).value) == Small(v)
  {
    RepackUnsigned(v);
    SmallU64IffFits(GetBody(v));
    Sym.ModUnique(GetBody(v), TWO64, 0, GetBody(v));
    hide Pack, GetTag, GetBody, IsSmallU64;
  }

  /** Every small integer value stands for a scalar that is packed to it again. */
  lemma {:induction false} SmallValRoundTrip(v: U64)
    requires U64_SMALL <= GetTag(v) <= I256_SMALL
    ensures FromVal(v).Some? && IsWide(FromVal(v).value) && !IsObject(FromVal(v).value)
    ensures ToVal(FromVal(v).value) == Small(v)
  {
    hide FromVal, ToVal, IsObject;
    if GetTag(v) == I256_SMALL {
      I256ValRoundTrip(v);
    } else if GetTag(v) == I64_SMALL || GetTag(v) == I128_SMALL {
      SignedValRoundTrip(v);
    } else {
      UnsignedValRoundTrip(v);
    }
  }
}
