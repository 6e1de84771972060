/**
 The price of rent per 1 KB as a function of the size of the state: linear up to a target
 size, and steeper by a growth factor beyond it.
 */
module RentPrice {
  import opened Words
  import opened Saturating
  import opened RentFees

  /** `RentWriteFeeConfiguration`. */
  datatype PriceConfig = PriceConfig(target: I64, low: I64, high: I64, growthFactor: U32)

  /** `clamp_fee`: negative values count as invalid and become the largest fee. */
  function ClampFee(x: int): I64 {
    if x < 0 then I64_MAX else Min(x, I64_MAX)
  }

  function Multiplier(cfg: PriceConfig): I64 {
    ClampFee(Sat64(cfg.high - cfg.low))
  }

  function BelowTarget(size: I64, cfg: PriceConfig): I64 {
    Sat64(ClampFee(DivCeil(Sat128(Multiplier(cfg) * size), Max(cfg.target, 1))) + cfg.low)
  }

  function BeyondTarget(size: I64, cfg: PriceConfig): I64 {
    var excess := Sat64(size - cfg.target);
    var fee := ClampFee(DivCeil(Sat128(Sat128(Multiplier(cfg) * excess) * cfg.growthFactor), Max(cfg.target, 1)));
    Sat64(cfg.high + fee)
  }

  /** `compute_rent_write_fee_per_1kb`. */
  function Price(size: I64, cfg: PriceConfig): (r: I64)
    ensures r >= 1000
  {
    Max(if size < cfg.target then BelowTarget(size, cfg) else BeyondTarget(size, cfg), MINIMUM_RENT_WRITE_FEE_PER_1KB)
  }

  lemma {:induction false} BelowTargetMono(a: I64, b: I64, cfg: PriceConfig)
    requires 0 <= a <= b
    ensures BelowTarget(a, cfg) <= BelowTarget(b, cfg)
  {
    var m: int, d := Multiplier(cfg), Max(cfg.target, 1);
    MulMono(0, a, m);
    MulMono(a, b, m);
    hide DivCeil;
    DivCeilNonNegative(Sat128(m * a), d);
    DivCeilMono(Sat128(m * a), Sat128(m * b), d);
  }

  lemma {:induction false} BeyondTargetMono(a: I64, b: I64, cfg: PriceConfig)
    requires cfg.target <= a <= b
    ensures cfg.high <= BeyondTarget(a, cfg) <= BeyondTarget(b, cfg)
  {
    var m: int, d, g: int := Multiplier(cfg), Max(cfg.target, 1), cfg.growthFactor;
    var x: int, y: int := Sat64(a - cfg.target), Sat64(b - cfg.target);
    MulMono(0, x, m);
    MulMono(x, y, m);
    MulMono(0, Sat128(m * x), g);
    MulMono(Sat128(m * x), Sat128(m * y), g);
    var p, q := Sat128(Sat128(m * x) * g), Sat128(Sat128(m * y) * g);
    assert 0 <= p <= q;
    hide DivCeil;
    DivCeilNonNegative(p, d);
    DivCeilMono(p, q, d);
  }

  /** At a positive target the price is the high fee, or the minimum if that is more. */
  lemma {:induction false} PriceAtTarget(cfg: PriceConfig)
    requires cfg.target > 0
    ensures Price(cfg.target, cfg) == Max(cfg.high, 1000)
  {
    assert Sat128(Sat128(Multiplier(cfg) * 0) * cfg.growthFactor) == 0;
    hide DivCeil, Multiplier;
    DivCeilZero(cfg.target);
  }

  ghost predicate NonDecreasing(cfg: PriceConfig) {
    forall a: I64, b: I64 :: 0 <= a <= b ==> Price(a, cfg) <= Price(b, cfg)
  }

  /**
   The price never falls as the state grows if and only if it does not fall from the last size
   below the target to the target itself.
   */
  lemma {:induction false} NonDecreasingIffNoDropAtTarget(cfg: PriceConfig)
    ensures NonDecreasing(cfg) <==>
      (cfg.target > 0 ==> Price(cfg.target - 1, cfg) <= Max(cfg.high, 1000))
  {
    hide BelowTarget, BeyondTarget;
    if cfg.target > 0 {
      PriceAtTarget(cfg);
    }
    if cfg.target > 0 ==> Price(cfg.target - 1, cfg) <= Max(cfg.high, MINIMUM_RENT_WRITE_FEE_PER_1KB) {
      forall a: I64, b: I64 | 0 <= a <= b ensures Price(a, cfg) <= Price(b, cfg) {
        if b < cfg.target {
          BelowTargetMono(a, b, cfg);
        } else if a < cfg.target {
          BelowTargetMono(a, cfg.target - 1, cfg);
          BeyondTargetMono(cfg.target, b, cfg);
        } else {
          BeyondTargetMono(a, b, cfg);
        }
      }
    }
  }

  lemma {:induction false} LastPriceBelowTarget(cfg: PriceConfig)
    requires cfg.low > cfg.high && cfg.target > 0
    ensures
      var least := Max(cfg.high, MINIMUM_RENT_WRITE_FEE_PER_1KB);
      Price(cfg.target - 1, cfg) <= least <==> I64_MAX * (cfg.target - 1) <= (least - cfg.low) * cfg.target
  {
    var n, t: int, least: int := I64_MAX * (cfg.target - 1), cfg.target, Max(cfg.high, MINIMUM_RENT_WRITE_FEE_PER_1KB);
    assert Multiplier(cfg) == I64_MAX && Sat128(n) == n;
    hide DivCeil;
    DivCeilNonNegative(n, t);
    assert n <= I64_MAX * t;
    DivCeilLeast(n, t, I64_MAX);
    DivCeilLeast(n, t, least - cfg.low);
  }

  /**
   The configurations whose price never falls: low at most high, no positive target, or a slope to
   the target, as steep as a fee can be, that still ends below the high fee or the minimum.
   */
  lemma {:induction false} NonDecreasingIff(cfg: PriceConfig)
    ensures NonDecreasing(cfg) <==>
      || cfg.low <= cfg.high
      || cfg.target <= 0
      || I64_MAX * (cfg.target - 1) <= (Max(cfg.high, 1000) - cfg.low) * cfg.target
  {
    NonDecreasingIffNoDropAtTarget(cfg);
    hide NonDecreasing, Price;
    if cfg.low <= cfg.high {
      PriceIsNonDecreasing(cfg);
    } else if cfg.target > 0 {
      LastPriceBelowTarget(cfg);
    }
  }

  /** Below the target, the price stays below the high fee whenever the low fee does not exceed it. */
  lemma {:induction false} BelowTargetBelowHigh(size: I64, cfg: PriceConfig)
    requires 0 <= size < cfg.target && cfg.low <= cfg.high
    ensures BelowTarget(size, cfg) <= cfg.high
  {
    var m := Multiplier(cfg);
    MulMono(0, size, m);
    MulMono(size, cfg.target, m);
    DivCeilNonNegative(Sat128(m * size), cfg.target);
    assert m * size <= m * cfg.target;
    DivCeilLeast(Sat128(m * size), cfg.target, m);
  }

  /** With low <= high the price never falls, through the target and through saturation. */
  lemma {:induction false} PriceIsNonDecreasing(cfg: PriceConfig)
    requires cfg.low <= cfg.high
    ensures NonDecreasing(cfg)
  {
    if cfg.target > 0 {
      BelowTargetBelowHigh(cfg.target - 1, cfg);
    }
    NonDecreasingIffNoDropAtTarget(cfg);
  }

  /** With low > high the price can fall: here from a huge value to the minimum. */
  lemma {:induction false} PriceCanFall(cfg: PriceConfig)
    requires cfg == PriceConfig(2, 1, 0, 0)
    ensures !NonDecreasing(cfg)
  {
    var m := Multiplier(cfg);
    assert m == I64_MAX;
    hide DivCeil;
    DivCeilLeast(Sat128(m * 1), 2, 2000);
    assert Price(1, cfg) > 1000;
    NonDecreasingIffNoDropAtTarget(cfg);
  }

  lemma {:induction false} ProductBound(a: int, b: int)
    requires 0 <= a <= I64_MAX && 0 <= b <= I64_MAX
    ensures 0 <= a * b <= I64_MAX * I64_MAX
  {
    MulMono(0, a, b);
    MulMono(a, I64_MAX, b);
    MulMono(b, I64_MAX, I64_MAX);
  }

  /** A fee short of the largest one is exact: neither the product nor the quotient saturates into it. */
  lemma {:induction false} FeeAtMostIff(n: int, d: I64, q: int)
    requires n >= 0 && d > 0 && 0 <= q < I64_MAX
    ensures 0 <= ClampFee(DivCeil(Sat128(n), d))
    ensures ClampFee(DivCeil(Sat128(n), d)) <= q <==> n <= q * d
  {
    ProductBound(q, d);
    hide DivCeil;
    DivCeilNonNegative(Sat128(n), d);
    DivCeilLeast(Sat128(n), d, q);
  }

  /** The difference of the fees, or the largest fee when there is none to be had. */
  function Slope(cfg: PriceConfig): nat {
    if cfg.low <= cfg.high then Min(cfg.high - cfg.low, I64_MAX) else I64_MAX
  }

  /**
   Below the target the price rises from the low fee in proportion to the size: it is at most `q`
   above the low fee if and only if the slope times the size is at most `q` times the target.
   */
  lemma {:induction false} PriceBelowTargetAtMostIff(size: I64, cfg: PriceConfig, q: int)
    requires 0 <= size < cfg.target
    requires 0 <= q < I64_MAX && cfg.low + q < I64_MAX
    ensures Price(size, cfg) <= cfg.low + q <==> 1000 <= cfg.low + q && Slope(cfg) * size <= q * cfg.target
  {
    assert Multiplier(cfg) == Slope(cfg);
    hide Slope, Multiplier, DivCeil, ClampFee;
    ProductBound(Slope(cfg), size);
    FeeAtMostIff(Slope(cfg) * size, cfg.target, q);
  }

  /**
   From the target on, the price rises from the high fee in proportion to what is beyond the
   target, the growth factor times as steeply, until it saturates.
   */
  lemma {:induction false} PriceBeyondTargetAtMostIff(size: I64, cfg: PriceConfig, q: int)
    requires cfg.target <= size
    requires 0 <= q < I64_MAX && cfg.high + q < I64_MAX
    ensures Price(size, cfg) <= cfg.high + q <==>
      && 1000 <= cfg.high + q
      && Slope(cfg) * Min(size - cfg.target, I64_MAX) * cfg.growthFactor <= q * Max(cfg.target, 1)
  {
    var excess := Min(size - cfg.target, I64_MAX);
    assert Multiplier(cfg) == Slope(cfg);
    hide Slope, Multiplier, DivCeil, ClampFee;
    ProductBound(Slope(cfg), excess);
    MulMono(0, Slope(cfg) * excess, cfg.growthFactor);
    FeeAtMostIff(Slope(cfg) * excess * cfg.growthFactor, Max(cfg.target, 1), q);
  }
}
