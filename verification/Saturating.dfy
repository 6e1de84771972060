/**
 Saturating `i64` and `i128` arithmetic and rounding up, on unbounded integers.
 */
module Saturating {
  import opened Words

  function Min(a: int, b: int): int {
    if a <= b then a else b
  }

  function Max(a: int, b: int): int {
    if a <= b then b else a
  }

  function Sat64(x: int): I64 {
    Max(I64_MIN, Min(x, I64_MAX))
  }

  function Sat128(x: int): int {
    Max(I128_MIN, Min(x, I128_MAX))
  }

  /** `num_integer::div_ceil` for a positive divisor: the quotient rounded up. */
  function DivCeil(a: int, b: int): int
    requires b > 0
  {
    -((-a) / b)
  }

  lemma {:induction false} DivCeilBounds(a: int, b: int)
    requires b > 0
    ensures (DivCeil(a, b) - 1) * b < a <= DivCeil(a, b) * b
  {
    var q, r := (-a) / b, (-a) % b;
    assert -a == q * b + r;
    assert (DivCeil(a, b) - 1) * b == -(q * b) - b;
  }

  /** The quotient rounded up is the least multiplier that reaches the dividend. */
  lemma {:induction false} DivCeilLeast(a: int, b: int, q: int)
    requires b > 0
    ensures a <= q * b <==> DivCeil(a, b) <= q
  {
    var c := DivCeil(a, b);
    DivCeilBounds(a, b);
    if q < c {
      MulMono(q, c - 1, b);
    } else {
      MulMono(c, q, b);
    }
  }

  lemma {:induction false} MulMono(x: int, y: int, b: int)
    requires x <= y && b >= 0
    ensures x * b <= y * b
  {
    assert y * b - x * b == (y - x) * b;
  }

  lemma {:induction false} DivCeilMono(a: int, a': int, b: int)
    requires a <= a' && b > 0
    ensures DivCeil(a, b) <= DivCeil(a', b)
  {
    DivCeilBounds(a', b);
    DivCeilLeast(a, b, DivCeil(a', b));
  }

  /** Rounding up twice costs at most one more than rounding up once. */
  lemma {:induction false} DivCeilSum(x: int, y: int, b: int)
    requires b > 0
    ensures DivCeil(x + y, b) <= DivCeil(x, b) + DivCeil(y, b) <= DivCeil(x + y, b) + 1
  {
    var p, q, s := DivCeil(x, b), DivCeil(y, b), DivCeil(x + y, b);
    DivCeilBounds(x, b);
    DivCeilBounds(y, b);
    DivCeilBounds(x + y, b);
    assert (p + q) * b == p * b + q * b;
    DivCeilLeast(x + y, b, p + q);
    assert (p - 1) * b + (q - 1) * b == (p + q - 2) * b;
    if p + q - 2 >= s {
      MulMono(s, p + q - 2, b);
    }
  }

  lemma {:induction false} DivCeilZero(b: int)
    requires b > 0
    ensures DivCeil(0, b) == 0
  {
  }

  lemma {:induction false} DivCeilNonNegative(a: int, b: int)
    requires b > 0 && a >= 0
    ensures 0 <= DivCeil(a, b) <= a
  {
    DivCeilMono(0, a, b);
    MulMono(1, b, a);
    DivCeilLeast(a, b, a);
  }
}
