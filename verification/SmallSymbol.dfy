/**
 soroban-env-common/src/symbol.rs: symbols of up to nine characters packed as 6-bit codes into
 the body of a `Val`, with the padding in the high-order bits.

 Words are natural numbers below 2^64; shifts are multiplication and division by powers of two.
 */
module SmallSymbol {
  import opened Prelude
  import opened Ordering
  import opened Words

  const MAX_SMALL_CHARS: nat := 9
  const SCSYMBOL_LIMIT: nat := 32

  type Byte = b: nat | b < 256
  type Word = w: nat | w < TWO64

  datatype SymbolError = TooLong(length: nat) | BadChar(b: Byte)
  datatype SymbolResult = Packed(body: Word) | Invalid(error: SymbolError)

  // ---------------------------------------------------------------- codes

  predicate IsSymbolByte(b: Byte) {
    b == 0x5f || 0x30 <= b <= 0x39 || 0x41 <= b <= 0x5a || 0x61 <= b <= 0x7a
  }

  /** `encode_byte`: `_`, digits, capital and small letters, in this order, from 1 to 63. */
  function EncodeByte(b: Byte): (code: Option<nat>)
    ensures code.Some? <==> IsSymbolByte(b)
    ensures code.Some? ==> 1 <= code.value <= 63 && DecodeCode(code.value) == b
  {
    if b == 0x5f then Some(1)
    else if 0x30 <= b <= 0x39 then Some(2 + (b - 0x30))
    else if 0x41 <= b <= 0x5a then Some(12 + (b - 0x41))
    else if 0x61 <= b <= 0x7a then Some(38 + (b - 0x61))
    else None
  }

  /** The character of a code; 0 stands for no character. */
  function DecodeCode(code: nat): (b: Byte)
    requires code < 64
    ensures code == 0 ==> b == 0
    ensures code != 0 ==> IsSymbolByte(b)
  {
    if code == 0 then 0
    else if code == 1 then 0x5f
    else if code <= 11 then 0x30 + (code - 2)
    else if code <= 37 then 0x41 + (code - 12)
    else 0x61 + (code - 38)
  }

  lemma {:induction false} EncodeDecodeCode(code: nat)
    requires 0 < code < 64
    ensures EncodeByte(DecodeCode(code)) == Some(code)
  {
  }

  lemma {:induction false} LettersAreConsecutive(i: nat)
    requires i < 26
    ensures "ABCDEFGHIJKLMNOPQRSTUVWXYZ"[i] as int == 65 + i
    ensures "abcdefghijklmnopqrstuvwxyz"[i] as int == 97 + i
  {
  }

  /** The codes are one for the underscore, then in order those of the digits and the letters. */
  lemma {:induction false} CodesFollowAlphabet(b: Byte, i: nat)
    ensures EncodeByte(b) == Some(1) <==> b == '_' as int
    ensures i < 10 ==> (EncodeByte(b) == Some(2 + i) <==> b == "0123456789"[i] as int)
    ensures i < 26 ==> (EncodeByte(b) == Some(12 + i) <==> b == "ABCDEFGHIJKLMNOPQRSTUVWXYZ"[i] as int)
    ensures i < 26 ==> (EncodeByte(b) == Some(38 + i) <==> b == "abcdefghijklmnopqrstuvwxyz"[i] as int)
  {
    if i < 26 {
      LettersAreConsecutive(i);
    }
  }

  predicate IsSymbol(s: seq<Byte>) {
    forall i :: 0 <= i < |s| ==> IsSymbolByte(s[i])
  }

  /** The number moved up by `j` codes. */
  function Up(x: nat, j: nat): nat {
    if j == 0 then x else 64 * Up(x, j - 1)
  }

  lemma {:induction false} UpAdd(a: nat, b: nat, j: nat)
    ensures Up(a + b, j) == Up(a, j) + Up(b, j)
  {
    if j > 0 {
      UpAdd(a, b, j - 1);
    }
  }

  lemma {:induction false} UpUp(x: nat, j: nat, k: nat)
    ensures Up(Up(x, j), k) == Up(x, j + k)
  {
    if k > 0 {
      UpUp(x, j, k - 1);
    }
  }

  lemma {:induction false} UpLess(a: nat, b: nat, j: nat)
    requires a < b
    ensures Up(a, j) < Up(b, j)
  {
    if j > 0 {
      UpLess(a, b, j - 1);
    }
  }

  lemma {:induction false} UpEight(x: nat)
    ensures Up(x, 8) == x * TWO48 && Up(x, 9) == x * TWO54
  {
    assert Up(x, 1) == 64 * x && Up(x, 2) == 0x1000 * x && Up(x, 3) == 0x4_0000 * x && Up(x, 4) == 0x100_0000 * x;
    assert Up(x, 5) == 0x4000_0000 * x && Up(x, 6) == 0x10_0000_0000 * x && Up(x, 7) == 0x400_0000_0000 * x;
  }

  // ---------------------------------------------------------------- packing

  function Pack(s: seq<Byte>): (body: nat)
    requires IsSymbol(s)
    ensures body < Up(1, |s|)
  {
    if s == [] then 0 else Pack(s[..|s| - 1]) * 64 + EncodeByte(s[|s| - 1]).value
  }

  /** Fewer than nine codes, moved up, stay below the top one; nine fill 54 bits. */
  lemma {:induction false} UpBelow(p: nat, n: nat, j: nat)
    requires p < Up(1, n) && n + j <= 9
    ensures Up(p, j) < TWO54
    ensures n + j <= 8 ==> Up(p, j) < TWO48
  {
    UpLess(p, Up(1, n), j);
    UpUp(1, n, j);
    UpGrows(1, n + j, if n + j <= 8 then 8 else 9);
    UpEight(1);
  }

  lemma {:induction false} UpGrows(x: nat, j: nat, k: nat)
    requires j <= k
    ensures Up(x, j) <= Up(x, k)
  {
    if j < k {
      UpGrows(x, j, k - 1);
    }
  }

  /** The word shifted left by one code, which drops the top bits. */
  function Shift(w: Word): Word {
    (w * 64) % TWO64
  }

  /** The code the iterator looks at: bits 48 to 53. */
  function TopCode(w: Word): nat {
    (w / TWO48) % 64
  }

  lemma {:induction false} ShiftSmall(w: Word)
    requires w < TWO48
    ensures Shift(w) == w * 64
  {
  }

  /** One more code shifts and adds without losing a bit. */
  lemma {:induction false} PackStep(s: seq<Byte>, n: nat)
    requires n < |s| <= 9 && IsSymbol(s[..n]) && IsSymbolByte(s[n])
    ensures IsSymbol(s[..n + 1]) && Pack(s[..n]) < TWO48
    ensures Pack(s[..n + 1]) == Shift(Pack(s[..n])) + EncodeByte(s[n]).value < TWO64
  {
    UpBelow(Pack(s[..n]), n, 0);
    assert s[..n + 1][..n] == s[..n];
    ShiftSmall(Pack(s[..n]));
    hide Shift, EncodeByte;
  }

  /** `SymbolSmall::try_from_bytes`. */
  method TryFromBytes(bytes: seq<Byte>) returns (r: SymbolResult)
    ensures |bytes| > MAX_SMALL_CHARS ==> r == Invalid(TooLong(|bytes|))
    ensures |bytes| <= MAX_SMALL_CHARS && IsSymbol(bytes) ==> r.Packed? && r.body == Pack(bytes) < TWO54
    ensures |bytes| <= MAX_SMALL_CHARS && !IsSymbol(bytes) ==>
      exists i :: 0 <= i < |bytes| && IsSymbol(bytes[..i]) && !IsSymbolByte(bytes[i]) && r == Invalid(BadChar(bytes[i]))
  {
    if |bytes| > MAX_SMALL_CHARS {
      return Invalid(TooLong(|bytes|));
    }
    var accum: Word := 0;
    var n := 0;
    while n < |bytes|
      invariant 0 <= n <= |bytes|
      invariant IsSymbol(bytes[..n]) && accum == Pack(bytes[..n])
    {
      var code := EncodeByte(bytes[n]);
      if code.None? {
        return Invalid(BadChar(bytes[n]));
      }
      PackStep(bytes, n);
      accum := Shift(accum) + code.value;
      n := n + 1;
    }
    assert bytes[..|bytes|] == bytes;
    UpBelow(accum, |bytes|, 0);
    return Packed(accum);
  }

  // ---------------------------------------------------------------- iterating

  /** A word with `k` shifts left is a multiple of this power of two. */
  function Modulus(k: nat): (m: nat)
    ensures m > 0
    decreases 11 - k
  {
    if k >= 11 then 1 else if k == 10 then 16 else 64 * Modulus(k + 1)
  }

  /**
   How many shifts empty the word. Bits that leave the nine codes linger above them, so it is
   the trailing zeros that measure progress: six more with every shift.
   */
  function ShiftsLeft(w: Word, k: nat := 0): nat
    decreases 11 - k
  {
    if k >= 11 || w % Modulus(k) == 0 then k else ShiftsLeft(w, k + 1)
  }

  lemma {:induction false} ShiftsLeftIsLeast(w: Word, j: nat, k: nat)
    requires j <= k <= 11
    ensures w % Modulus(k) == 0 ==> ShiftsLeft(w, j) <= k
    ensures w % Modulus(ShiftsLeft(w, j)) == 0 && j <= ShiftsLeft(w, j) <= 11
    decreases 11 - j
  {
    if j < 11 && w % Modulus(j) != 0 {
      ShiftsLeftIsLeast(w, j + 1, if j == k then k + 1 else k);
    }
  }

  lemma {:induction false} ModulusDivides(k: nat)
    requires k <= 11
    ensures TWO64 % Modulus(k) == 0
    ensures k == 0 ==> Modulus(k) == TWO64
  {
    assert Modulus(10) == 16 && Modulus(9) == 0x400 && Modulus(8) == 0x1_0000;
    assert Modulus(7) == 0x40_0000 && Modulus(6) == 0x1000_0000 && Modulus(5) == 0x4_0000_0000;
    assert Modulus(4) == 0x100_0000_0000 && Modulus(3) == 0x4000_0000_0000 && Modulus(2) == 0x10_0000_0000_0000;
    assert Modulus(1) == 0x400_0000_0000_0000 && Modulus(0) == TWO64;
  }

  lemma {:induction false} ShiftDivides(w: Word, m: nat)
    requires m > 0 && w % m == 0 && TWO64 % (64 * m) == 0
    ensures Shift(w) % (64 * m) == 0
  {
    var d := 64 * m;
    var q, t, s := w / m, TWO64 / d, (w * 64) / TWO64;
    assert w * 64 == d * q && TWO64 == d * t;
    assert TWO64 * s == d * (t * s);
    assert Shift(w) == d * (q - t * s);
    ModUnique(Shift(w), d, q - t * s, 0);
  }

  lemma {:induction false} ModUnique(a: int, b: int, q: int, r: int)
    requires b > 0 && a == b * q + r && 0 <= r < b
    ensures a % b == r && a / b == q
  {
    var q', r' := a / b, a % b;
    assert b * (q - q') == r' - r;
    MultipleIsFar(b, q - q');
  }

  lemma {:induction false} MultipleIsFar(b: int, d: int)
    requires b > 0
    ensures d == 0 || b * d >= b || b * d <= -b
  {
  }

  lemma {:induction false} ShiftIsEven(w: Word)
    ensures Shift(w) % 16 == 0
  {
    ShiftDivides(w, 1);
    hide Shift;
    ModUnique(Shift(w), 16, 4 * (Shift(w) / 64), 0);
  }

  lemma {:induction false} ShiftGainsAFactor(w: Word, k: nat)
    requires 1 <= k <= 11 && w % Modulus(k) == 0
    ensures Shift(w) % Modulus(k - 1) == 0
  {
    hide Shift;
    if k == 11 {
      ShiftIsEven(w);
    } else {
      var m := Modulus(k);
      assert Modulus(k - 1) == 64 * m;
      hide Modulus;
      ModulusDivides(k - 1);
      ShiftDivides(w, m);
    }
  }

  lemma {:induction false} ShiftMakesProgress(w: Word)
    requires w != 0
    ensures ShiftsLeft(Shift(w)) < ShiftsLeft(w)
  {
    hide Shift, ShiftsLeft, Modulus;
    var k := ShiftsLeft(w);
    ShiftsLeftIsLeast(w, 0, 11);
    ModulusDivides(0);
    assert k != 0;
    ShiftGainsAFactor(w, k);
    ShiftsLeftIsLeast(Shift(w), 0, k - 1);
  }

  /** The characters still to come from a word, on every 64-bit word. */
  function Chars(w: Word): seq<Byte>
    decreases ShiftsLeft(w)
  {
    if w == 0 then []
    else
      var c := DecodeCode(TopCode(w));
      ShiftMakesProgress(w);
      (if c == 0 then [] else [c]) + Chars(Shift(w))
  }

  class SymbolSmallIter {
    var word: Word

    constructor (body: Word)
      ensures word == body
    {
      word := body;
    }

    /** `SymbolSmallIter::next`: it ends on every word, and yields the characters in turn. */
    method Next() returns (r: Option<Byte>)
      modifies this
      ensures r.Some? ==> old(Chars(word)) == [r.value] + Chars(word)
      ensures r.None? ==> old(Chars(word)) == [] == Chars(word)
      ensures ShiftsLeft(word) <= old(ShiftsLeft(word))
      ensures r.Some? ==> ShiftsLeft(word) < old(ShiftsLeft(word))
    {
      while word != 0
        invariant Chars(word) == old(Chars(word))
        invariant ShiftsLeft(word) <= old(ShiftsLeft(word))
        decreases ShiftsLeft(word)
      {
        var res := DecodeCode(TopCode(word));
        ShiftMakesProgress(word);
        word := Shift(word);
        if res != 0 {
          return Some(res);
        }
      }
      return None;
    }
  }

  /** `Ord for SymbolSmall`, which compares the iterators' characters. */
  method CompareSmallSymbols(a: Word, b: Word) returns (r: Order)
    ensures r == CompareSeqs(Chars(a), Chars(b))
  {
    var x := new SymbolSmallIter(a);
    var y := new SymbolSmallIter(b);
    while true
      invariant fresh(x) && fresh(y) && x != y
      invariant CompareSeqs(Chars(x.word), Chars(y.word)) == CompareSeqs(Chars(a), Chars(b))
      decreases ShiftsLeft(x.word)
    {
      ghost var xs, ys := Chars(x.word), Chars(y.word);
      var c := x.Next();
      var d := y.Next();
      if c.None? {
        return if d.None? then Equal else Less;
      }
      if d.None? {
        return Greater;
      }
      assert xs[1..] == Chars(x.word) && ys[1..] == Chars(y.word);
      if c.value != d.value {
        return CompareInts(c.value, d.value);
      }
    }
  }

  // ---------------------------------------------------------------- round trip

  lemma {:induction false} TopAndShift(h: nat, c: nat, l: nat)
    requires h < 1024 && c < 64 && l < TWO48
    ensures
      var w := h * TWO54 + c * TWO48 + l;
      && w < TWO64 && TopCode(w) == c
      && Shift(w) == ((h * 64 + c) % 1024) * TWO54 + l * 64
  {
    var w := h * TWO54 + c * TWO48 + l;
    ModUnique(w, TWO48, h * 64 + c, l);
    var q, r := (h * 64 + c) / 1024, (h * 64 + c) % 1024;
    assert w * 64 == TWO64 * q + (r * TWO54 + l * 64);
    ModUnique(w * 64, TWO64, q, r * TWO54 + l * 64);
  }

  /** Bits above the nine codes yield nothing. */
  lemma {:induction false} HighBitsAreSilent(h: nat)
    requires h < 1024
    ensures h * TWO54 < TWO64 && Chars(h * TWO54) == []
    decreases ShiftsLeft(h * TWO54)
  {
    hide Shift, TopCode, ShiftsLeft;
    var w: Word := h * TWO54;
    if w != 0 {
      TopAndShift(h, 0, 0);
      ShiftMakesProgress(w);
      HighBitsAreSilent((h * 64) % 1024);
    }
  }

  lemma {:induction false} PackHead(s: seq<Byte>)
    requires IsSymbol(s) && s != []
    ensures Pack(s) == Up(EncodeByte(s[0]).value, |s| - 1) + Pack(s[1..])
    decreases |s|
  {
    if |s| == 1 {
      assert s[..0] == s[1..] == [];
    } else {
      var front := s[..|s| - 1];
      PackHead(front);
      assert front[1..] == s[1..][..|s| - 2] && s[1..][|s| - 2] == s[|s| - 1];
      hide EncodeByte;
    }
  }

  /** The codes of `s` at the top of nine, below whatever lingers from earlier shifts. */
  function Aligned(s: seq<Byte>, h: nat): nat
    requires IsSymbol(s) && |s| <= 9
  {
    h * TWO54 + Up(Pack(s), 9 - |s|)
  }

  lemma {:induction false} AlignedHead(s: seq<Byte>, h: nat)
    requires IsSymbol(s) && 0 < |s| <= 9
    ensures
      var t := s[1..];
      && Aligned(s, h) == h * TWO54 + EncodeByte(s[0]).value * TWO48 + Up(Pack(t), 8 - |t|)
      && Up(Pack(t), 8 - |t|) < TWO48
  {
    var c, t := EncodeByte(s[0]).value, s[1..];
    PackHead(s);
    hide Up, EncodeByte, Pack;
    UpAdd(Up(c, |t|), Pack(t), 8 - |t|);
    UpUp(c, |t|, 8 - |t|);
    UpEight(c);
    UpBelow(Pack(t), |t|, 8 - |t|);
  }

  lemma {:induction false} AlignedStep(s: seq<Byte>, h: nat)
    requires IsSymbol(s) && 0 < |s| <= 9 && h < 1024
    ensures
      var c := EncodeByte(s[0]).value;
      && 0 < Aligned(s, h) < TWO64
      && TopCode(Aligned(s, h)) == c
      && Shift(Aligned(s, h)) == Aligned(s[1..], (h * 64 + c) % 1024)
  {
    AlignedHead(s, h);
    var c, t := EncodeByte(s[0]).value, s[1..];
    assert Up(Pack(t), 9 - |t|) == 64 * Up(Pack(t), 8 - |t|);
    hide Up, Pack, TopCode, Shift, EncodeByte;
    TopAndShift(h, c, Up(Pack(t), 8 - |t|));
  }

  /** Codes aligned to the top of nine decode to their characters, whatever lingers above them. */
  lemma {:induction false} CharsAligned(s: seq<Byte>, h: nat)
    requires IsSymbol(s) && |s| <= 9 && h < 1024
    ensures Aligned(s, h) < TWO64 && Chars(Aligned(s, h)) == s
    decreases |s|
  {
    if s == [] {
      UpEight(0);
      assert Aligned(s, h) == h * TWO54;
      HighBitsAreSilent(h);
    } else {
      AlignedStep(s, h);
      hide Aligned, TopCode, Shift, ShiftsLeft;
      CharsAligned(s[1..], (h * 64 + EncodeByte(s[0]).value) % 1024);
      assert s == [s[0]] + s[1..];
    }
  }

  lemma {:induction false} PaddedStep(s: seq<Byte>, j: nat)
    requires IsSymbol(s) && s != [] && |s| + j < 9
    ensures
      var w := Up(Pack(s), j);
      0 < w < TWO64 && TopCode(w) == 0 && Shift(w) == Up(Pack(s), j + 1)
  {
    var w := Up(Pack(s), j);
    assert Up(Pack(s), j + 1) == 64 * w;
    UpBelow(Pack(s), |s|, j);
    UpLess(0, Pack(s), j);
    TopAndShift(0, 0, w);
  }

  lemma {:induction false} SkipZero(w: Word)
    requires w != 0 && TopCode(w) == 0
    ensures Chars(w) == Chars(Shift(w))
  {
    hide Shift, TopCode, ShiftsLeft;
  }

  /** Codes below the top are reached by passing over the zeros before them. */
  lemma {:induction false} CharsPadded(s: seq<Byte>, j: nat)
    requires IsSymbol(s) && |s| + j <= 9
    ensures Up(Pack(s), j) < TWO64 && Chars(Up(Pack(s), j)) == s
    decreases 9 - j
  {
    assert s == [] ==> Pack(s) == 0 && Chars(0) == [];
    assert Aligned(s, 0) == Up(Pack(s), 9 - |s|);
    hide Up, Pack, Shift, TopCode, ShiftsLeft, Chars, Aligned, IsSymbolByte;
    if s == [] {
      ZeroUp(j);
    } else if |s| + j == 9 {
      CharsAligned(s, 0);
    } else {
      PaddedStep(s, j);
      SkipZero(Up(Pack(s), j));
      CharsPadded(s, j + 1);
    }
  }

  lemma {:induction false} ZeroUp(j: nat)
    ensures Up(0, j) == 0
  {
    if j > 0 {
      ZeroUp(j - 1);
    }
  }

  /** Decoding undoes encoding, for every symbol of at most nine characters. */
  lemma {:induction false} UnpackPack(s: seq<Byte>)
    requires IsSymbol(s) && |s| <= MAX_SMALL_CHARS
    ensures Pack(s) < TWO54 && Chars(Pack(s)) == s
  {
    UpBelow(Pack(s), |s|, 0);
    CharsPadded(s, 0);
  }

  /** Comparing packed symbols is comparing the strings byte by byte. */
  lemma {:induction false} PackedOrderIsByteOrder(s: seq<Byte>, t: seq<Byte>)
    requires IsSymbol(s) && IsSymbol(t) && |s| <= MAX_SMALL_CHARS && |t| <= MAX_SMALL_CHARS
    ensures Pack(s) < TWO64 && Pack(t) < TWO64
    ensures CompareSeqs(Chars(Pack(s)), Chars(Pack(t))) == CompareSeqs(s, t)
  {
    UnpackPack(s);
    UnpackPack(t);
  }

  // ---------------------------------------------------------------- any word

  lemma {:induction false} CharsBounded(w: Word, j: nat)
    requires j <= 9 && Up(1, j) > 0 && w % Up(1, j) == 0
    ensures |Chars(w)| <= 9 - j && IsSymbol(Chars(w))
    decreases 9 - j
  {
    if w != 0 {
      if j == 9 {
        UpEight(1);
        assert w == (w / TWO54) * TWO54;
        HighBitsAreSilent(w / TWO54);
      } else {
        CodePowerDivides(j + 1);
        ShiftDivides(w, Up(1, j));
        CharsBounded(Shift(w), j + 1);
      }
    }
  }

  lemma {:induction false} AtMostNine(w: Word)
    ensures |Chars(w)| <= MAX_SMALL_CHARS && IsSymbol(Chars(w))
  {
    CharsBounded(w, 0);
  }

  lemma {:induction false} CodePowerDivides(n: nat)
    requires n <= 9
    ensures Up(1, n) > 0 && TWO64 % Up(1, n) == 0
  {
    UpEight(1);
    assert Up(1, 1) == 64 && Up(1, 2) == 0x1000 && Up(1, 3) == 0x4_0000 && Up(1, 4) == 0x100_0000;
    assert Up(1, 5) == 0x4000_0000 && Up(1, 6) == 0x10_0000_0000 && Up(1, 7) == 0x400_0000_0000;
  }

  /** No zero code below a non-zero one. */
  predicate IsCanonical(body: nat) {
    body == 0 || (body % 64 != 0 && IsCanonical(body / 64))
  }

  lemma {:induction false} PackIsCanonical(s: seq<Byte>)
    requires IsSymbol(s)
    ensures IsCanonical(Pack(s))
  {
    if s != [] {
      PackIsCanonical(s[..|s| - 1]);
    }
  }

  lemma {:induction false} CanonicalIsPacked(body: nat, n: nat) returns (s: seq<Byte>)
    requires IsCanonical(body) && body < Up(1, n)
    ensures IsSymbol(s) && |s| <= n && Pack(s) == body
    decreases n
  {
    if body == 0 {
      s := [];
    } else {
      var front := CanonicalIsPacked(body / 64, n - 1);
      EncodeDecodeCode(body % 64);
      s := front + [DecodeCode(body % 64)];
      assert s[..|s| - 1] == front;
    }
  }

  /**
   Every body decodes to a symbol of at most nine characters, and packing that gives the body
   back if and only if the body has no embedded zero code.
   */
  lemma {:induction false} PackUnpackIffCanonical(body: nat)
    requires body < TWO54
    ensures IsSymbol(Chars(body)) && |Chars(body)| <= MAX_SMALL_CHARS
    ensures Pack(Chars(body)) == body <==> IsCanonical(body)
  {
    AtMostNine(body);
    PackIsCanonical(Chars(body));
    if IsCanonical(body) {
      UpEight(1);
      var s := CanonicalIsPacked(body, 9);
      UnpackPack(s);
    }
  }

  // ---------------------------------------------------------------- symbol strings

  function Zeros(n: nat): seq<Byte> {
    seq(n, i => 0)
  }

  /** `SymbolSmall::to_str`: the characters in a buffer padded with zeros. */
  method ToStr(body: Word) returns (chars: array<Byte>)
    ensures fresh(chars) && chars.Length == 32
    ensures |Chars(body)| <= 9 && chars[..] == Chars(body) + Zeros(32 - |Chars(body)|)
  {
    hide Chars, ShiftsLeft, IsSymbol;
    AtMostNine(body);
    chars := new Byte[SCSYMBOL_LIMIT](i => 0);
    var iter := new SymbolSmallIter(body);
    var n := 0;
    while n < SCSYMBOL_LIMIT
      invariant 0 <= n <= SCSYMBOL_LIMIT
      invariant chars[..n] + Chars(iter.word) == Chars(body)
      invariant forall i :: n <= i < SCSYMBOL_LIMIT ==> chars[i] == 0
      modifies chars, iter
    {
      ghost var done := chars[..n];
      var c := iter.Next();
      if c.None? {
        break;
      }
      chars[n] := c.value;
      n := n + 1;
      assert chars[..n] == done + [c.value];
    }
    assert Chars(iter.word) == [];
  }

  /** `SymbolStr::len`: the number of bytes before the first zero. */
  method Length(chars: array<Byte>) returns (n: nat)
    ensures n <= chars.Length && (n < chars.Length ==> chars[n] == 0)
    ensures forall i :: 0 <= i < n ==> chars[i] != 0
  {
    n := 0;
    while n < chars.Length
      invariant n <= chars.Length
      invariant forall i :: 0 <= i < n ==> chars[i] != 0
    {
      if chars[n] == 0 {
        return;
      }
      n := n + 1;
    }
  }

  /** The string of a small symbol holds exactly its characters. */
  method ToBytes(body: Word) returns (bytes: seq<Byte>)
    ensures bytes == Chars(body)
  {
    hide Chars;
    var chars := ToStr(body);
    AtMostNine(body);
    var n := Length(chars);
    assert forall i :: 0 <= i < |Chars(body)| ==> chars[i] == chars[..][i] == Chars(body)[i];
    assert chars[|Chars(body)|] == chars[..][|Chars(body)|] == 0;
    assert n == |Chars(body)|;
    return chars[..n];
  }
}
