/**
 soroban-env-host/src/fees.rs: rent for extending and growing ledger entries, and the price
 curve of rent.
 */
module RentFees {
  import opened Prelude
  import opened Words
  import opened Saturating

  const TTL_ENTRY_SIZE: int := 48
  const DATA_SIZE_1KB_INCREMENT: int := 1024
  const CODE_ENTRY_RENT_DISCOUNT_FACTOR: int := 3
  const MINIMUM_RENT_WRITE_FEE_PER_1KB: int := 1000

  /** `LedgerEntryRentChange`. */
  datatype RentChange = RentChange(
    isPersistent: bool, isCode: bool, oldSize: nat, newSize: nat, oldLiveUntil: nat, newLiveUntil: nat)

  /** `RentFeeConfiguration`. */
  datatype RentFeeConfig = RentFeeConfig(
    feePerWrite1kb: I64, feePerRent1kb: I64, feePerWriteEntry: I64,
    persistentDenominator: I64, temporaryDenominator: I64)

  // ---------------------------------------------------------------- one entry

  function Denominator(isPersistent: bool, cfg: RentFeeConfig): int {
    Max(1, Sat64(DATA_SIZE_1KB_INCREMENT * if isPersistent then cfg.persistentDenominator else cfg.temporaryDenominator))
  }

  lemma {:induction false} DivCeilInRange(a: I64, b: int)
    requires b > 0
    ensures I64_MIN <= DivCeil(a, b) <= I64_MAX
  {
    if a >= 0 {
      DivCeilNonNegative(a, b);
    } else {
      DivCeilMono(a, 0, b);
      DivCeilBounds(a, b);
      if DivCeil(a, b) < a {
        MulMono(DivCeil(a, b), a, b);
        MulMono(1, b, -a);
      }
    }
  }

  /** `rent_fee_for_size_and_ledgers`. */
  function Charge(isPersistent: bool, size: nat, ledgers: nat, cfg: RentFeeConfig): I64 {
    var num := Sat64(Sat64(size * cfg.feePerRent1kb) * ledgers);
    DivCeilInRange(num, Denominator(isPersistent, cfg));
    DivCeil(num, Denominator(isPersistent, cfg))
  }

  function ExclusiveLedgerDiff(lo: nat, hi: nat): Option<nat> {
    if hi >= lo then Some(hi - lo) else None
  }

  function InclusiveLedgerDiff(lo: nat, hi: nat): Option<nat> {
    match ExclusiveLedgerDiff(lo, hi)
    case None => None
    case Some(diff) => Some(Min(diff + 1, U32_MAX))
  }

  predicate IsNew(c: RentChange) {
    c.oldSize == 0 && c.oldLiveUntil == 0
  }

  function ExtensionLedgers(c: RentChange, current: nat): Option<nat> {
    ExclusiveLedgerDiff(if IsNew(c) then Max(current - 1, 0) else c.oldLiveUntil, c.newLiveUntil)
  }

  function PrepaidLedgers(c: RentChange, current: nat): Option<nat> {
    if IsNew(c) then None else InclusiveLedgerDiff(current, c.oldLiveUntil)
  }

  function SizeIncrease(c: RentChange): Option<nat> {
    if c.newSize >= c.oldSize then Some(c.newSize - c.oldSize) else None
  }

  function OrZero(n: Option<nat>): nat {
    if n.Some? then n.value else 0
  }

  /** Division of an `i64` towards zero. */
  function TruncDiv(a: int, b: int): int
    requires b > 0
  {
    if a >= 0 then a / b else -((-a) / b)
  }

  /**
   The rent of one change: the ledgers of the extension at the new size, and the ledgers already
   paid for at the increase in size.
   */
  function EntryFee(c: RentChange, cfg: RentFeeConfig, current: nat): I64 {
    var extension := Charge(c.isPersistent, c.newSize, OrZero(ExtensionLedgers(c, current)), cfg);
    var topUp := Charge(c.isPersistent, OrZero(SizeIncrease(c)), OrZero(PrepaidLedgers(c, current)), cfg);
    var fee := Sat64(extension + topUp);
    if c.isCode then TruncDiv(fee, CODE_ENTRY_RENT_DISCOUNT_FACTOR) else fee
  }

  lemma {:induction false} NothingIsFree(isPersistent: bool, size: nat, ledgers: nat, cfg: RentFeeConfig)
    requires size == 0 || ledgers == 0
    ensures Charge(isPersistent, size, ledgers, cfg) == 0
  {
    assert size * cfg.feePerRent1kb == 0 || ledgers == 0;
    DivCeilZero(Denominator(isPersistent, cfg));
  }

  /** `rent_fee_per_entry_change`. */
  method RentFeePerEntryChange(c: RentChange, cfg: RentFeeConfig, current: nat) returns (fee: I64)
    ensures fee == EntryFee(c, cfg, current)
  {
    hide Charge;
    fee := 0;
    var extension, prepaid, increase := ExtensionLedgers(c, current), PrepaidLedgers(c, current), SizeIncrease(c);
    if extension.Some? {
      fee := Sat64(fee + Charge(c.isPersistent, c.newSize, extension.value, cfg));
    } else {
      NothingIsFree(c.isPersistent, c.newSize, 0, cfg);
    }
    if prepaid.Some? && increase.Some? {
      fee := Sat64(fee + Charge(c.isPersistent, increase.value, prepaid.value, cfg));
    } else {
      NothingIsFree(c.isPersistent, OrZero(increase), OrZero(prepaid), cfg);
    }
    if c.isCode {
      fee := TruncDiv(fee, CODE_ENTRY_RENT_DISCOUNT_FACTOR);
    }
  }

  // ---------------------------------------------------------------- a list of changes

  predicate IsExtended(c: RentChange) {
    c.oldLiveUntil < c.newLiveUntil
  }

  function EntryFees(changes: seq<RentChange>, cfg: RentFeeConfig, current: nat): I64 {
    if changes == [] then 0
    else Sat64(EntryFees(changes[..|changes| - 1], cfg, current) + EntryFee(changes[|changes| - 1], cfg, current))
  }

  function ExtendedCount(changes: seq<RentChange>): nat {
    if changes == [] then 0
    else ExtendedCount(changes[..|changes| - 1]) + if IsExtended(changes[|changes| - 1]) then 1 else 0
  }

  /** `compute_fee_per_increment` with an increment of 1 KB. */
  function FeePer1kb(value: nat, rate: I64): I64 {
    DivCeilInRange(Sat64(value * rate), DATA_SIZE_1KB_INCREMENT);
    DivCeil(Sat64(value * rate), DATA_SIZE_1KB_INCREMENT)
  }

  function RentFee(changes: seq<RentChange>, cfg: RentFeeConfig, current: nat): I64 {
    var n := ExtendedCount(changes);
    var writes := Sat64(cfg.feePerWriteEntry * Min(n, I64_MAX));
    Sat64(Sat64(EntryFees(changes, cfg, current) + writes) + FeePer1kb(Min(n * TTL_ENTRY_SIZE, U32_MAX), cfg.feePerWrite1kb))
  }

  /** `compute_rent_fee`. */
  method ComputeRentFee(changes: seq<RentChange>, cfg: RentFeeConfig, current: nat) returns (fee: I64)
    ensures fee == RentFee(changes, cfg, current)
  {
    fee := 0;
    var extendedEntries: I64, keySizeBytes: U32 := 0, 0;
    for i := 0 to |changes|
      invariant fee == EntryFees(changes[..i], cfg, current)
      invariant extendedEntries == Min(ExtendedCount(changes[..i]), I64_MAX)
      invariant keySizeBytes == Min(ExtendedCount(changes[..i]) * TTL_ENTRY_SIZE, U32_MAX)
    {
      hide EntryFee;
      assert changes[..i + 1][..i] == changes[..i];
      var entryFee := RentFeePerEntryChange(changes[i], cfg, current);
      fee := Sat64(fee + entryFee);
      if changes[i].oldLiveUntil < changes[i].newLiveUntil {
        extendedEntries := Sat64(extendedEntries + 1);
        keySizeBytes := Min(keySizeBytes + TTL_ENTRY_SIZE, U32_MAX);
      }
    }
    assert changes[..|changes|] == changes;
    fee := Sat64(fee + Sat64(cfg.feePerWriteEntry * extendedEntries));
    fee := Sat64(fee + FeePer1kb(keySizeBytes, cfg.feePerWrite1kb));
  }

  /** Neither extended nor grown. */
  predicate IsNoOp(c: RentChange) {
    c.oldLiveUntil >= c.newLiveUntil && c.oldSize >= c.newSize
  }

  lemma {:induction false} NoOpIsFree(c: RentChange, cfg: RentFeeConfig, current: nat)
    requires IsNoOp(c)
    ensures EntryFee(c, cfg, current) == 0 && !IsExtended(c)
  {
    hide Charge;
    NothingIsFree(c.isPersistent, c.newSize, OrZero(ExtensionLedgers(c, current)), cfg);
    NothingIsFree(c.isPersistent, OrZero(SizeIncrease(c)), OrZero(PrepaidLedgers(c, current)), cfg);
  }

  function WithoutNoOps(changes: seq<RentChange>): seq<RentChange> {
    if changes == [] then []
    else
      var last := changes[|changes| - 1];
      WithoutNoOps(changes[..|changes| - 1]) + if IsNoOp(last) then [] else [last]
  }

  lemma {:induction false} WithoutNoOpsSums(changes: seq<RentChange>, cfg: RentFeeConfig, current: nat)
    ensures EntryFees(WithoutNoOps(changes), cfg, current) == EntryFees(changes, cfg, current)
    ensures ExtendedCount(WithoutNoOps(changes)) == ExtendedCount(changes)
  {
    if changes != [] {
      hide EntryFee;
      var rest, last := WithoutNoOps(changes[..|changes| - 1]), changes[|changes| - 1];
      WithoutNoOpsSums(changes[..|changes| - 1], cfg, current);
      if IsNoOp(last) {
        NoOpIsFree(last, cfg, current);
        assert WithoutNoOps(changes) == rest;
      } else {
        assert (rest + [last])[..|rest|] == rest;
      }
    }
  }

  /** Leaving out the no-op changes leaves the rent fee as it is. */
  lemma {:induction false} WithoutNoOpsCostsTheSame(changes: seq<RentChange>, cfg: RentFeeConfig, current: nat)
    ensures RentFee(WithoutNoOps(changes), cfg, current) == RentFee(changes, cfg, current)
  {
    WithoutNoOpsSums(changes, cfg, current);
  }

  // ---------------------------------------------------------------- rent is paid by area

  /** Growing an existing entry and then extending it costs exactly what doing both at once does. */
  lemma {:induction false} GrowThenExtend(c: RentChange, cfg: RentFeeConfig, current: nat)
    requires !c.isCode && !IsNew(c)
    requires c.oldSize <= c.newSize && c.oldLiveUntil <= c.newLiveUntil
    ensures
      var grow := c.(newLiveUntil := c.oldLiveUntil);
      var extend := c.(oldSize := c.newSize);
      EntryFee(c, cfg, current) == Sat64(EntryFee(grow, cfg, current) + EntryFee(extend, cfg, current))
  {
    hide Charge;
    NothingIsFree(c.isPersistent, c.newSize, 0, cfg);
    NothingIsFree(c.isPersistent, 0, OrZero(PrepaidLedgers(c, current)), cfg);
  }

  /** The products behind a charge do not saturate. */
  predicate Fits(size: nat, ledgers: nat, cfg: RentFeeConfig) {
    && I64_MIN <= size * cfg.feePerRent1kb <= I64_MAX
    && I64_MIN <= size * cfg.feePerRent1kb * ledgers <= I64_MAX
  }

  lemma {:induction false} ScaledInRange(x: int, k: nat, n: nat)
    requires k <= n && I64_MIN <= x * n <= I64_MAX
    ensures I64_MIN <= x * k <= I64_MAX
  {
    if x >= 0 {
      MulMono(k, n, x);
      MulMono(0, k, x);
    } else {
      MulMono(k, n, -x);
      MulMono(0, k, -x);
      assert x * n == -((-x) * n) && x * k == -((-x) * k);
    }
  }

  lemma {:induction false} FitsBelow(size: nat, ledgers: nat, size': nat, ledgers': nat, cfg: RentFeeConfig)
    requires Fits(size, ledgers, cfg) && size' <= size && ledgers' <= ledgers
    ensures Fits(size', ledgers', cfg)
  {
    var f := cfg.feePerRent1kb;
    assert size * f == f * size && size' * f == f * size';
    ScaledInRange(f, size', size);
    assert size * f * ledgers == (f * ledgers) * size && size' * f * ledgers == (f * ledgers) * size';
    ScaledInRange(f * ledgers, size', size);
    ScaledInRange(size' * f, ledgers', ledgers);
  }

  lemma {:induction false} ChargeIsArea(isPersistent: bool, size: nat, ledgers: nat, cfg: RentFeeConfig)
    requires Fits(size, ledgers, cfg)
    ensures Charge(isPersistent, size, ledgers, cfg) ==
      DivCeil(size * cfg.feePerRent1kb * ledgers, Denominator(isPersistent, cfg))
  {
  }

  /** Two ways to cut the same area into two charges differ by at most one. */
  lemma {:induction false} SameAreaAlmostSameCharge(
    isPersistent: bool, s1: nat, l1: nat, s2: nat, l2: nat, t1: nat, k1: nat, t2: nat, k2: nat, cfg: RentFeeConfig)
    requires Fits(s1, l1, cfg) && Fits(s2, l2, cfg) && Fits(t1, k1, cfg) && Fits(t2, k2, cfg)
    requires s1 * l1 + s2 * l2 == t1 * k1 + t2 * k2
    ensures
      var a := Sat64(Charge(isPersistent, s1, l1, cfg) + Charge(isPersistent, s2, l2, cfg));
      var b := Sat64(Charge(isPersistent, t1, k1, cfg) + Charge(isPersistent, t2, k2, cfg));
      -1 <= a - b <= 1
  {
    var f, d := cfg.feePerRent1kb, Denominator(isPersistent, cfg);
    ChargeIsArea(isPersistent, s1, l1, cfg);
    ChargeIsArea(isPersistent, s2, l2, cfg);
    ChargeIsArea(isPersistent, t1, k1, cfg);
    ChargeIsArea(isPersistent, t2, k2, cfg);
    SameFee(s1, l1, s2, l2, t1, k1, t2, k2, f);
    DivCeilSum(s1 * f * l1, s2 * f * l2, d);
    DivCeilSum(t1 * f * k1, t2 * f * k2, d);
  }

  lemma {:induction false} SameFee(s1: int, l1: int, s2: int, l2: int, t1: int, k1: int, t2: int, k2: int, f: int)
    requires s1 * l1 + s2 * l2 == t1 * k1 + t2 * k2
    ensures s1 * f * l1 + s2 * f * l2 == t1 * f * k1 + t2 * f * k2
  {
    Factor(s1, f, l1);
    Factor(s2, f, l2);
    Factor(t1, f, k1);
    Factor(t2, f, k2);
    assert f * (s1 * l1) + f * (s2 * l2) == f * (s1 * l1 + s2 * l2);
    assert f * (t1 * k1) + f * (t2 * k2) == f * (t1 * k1 + t2 * k2);
  }

  lemma {:induction false} Factor(a: int, f: int, b: int)
    ensures a * f * b == f * (a * b)
  {
  }

  /**
   Extending a live entry and then growing it costs what doing both at once does, give or take
   one, as long as no product saturates.
   */
  lemma {:induction false} ExtendThenGrow(c: RentChange, cfg: RentFeeConfig, current: nat)
    requires !c.isCode && !IsNew(c)
    requires c.oldSize <= c.newSize && c.oldLiveUntil <= c.newLiveUntil
    requires current <= c.oldLiveUntil + 1 && c.newLiveUntil + 1 - current <= U32_MAX
    requires Fits(c.newSize, c.newLiveUntil + 1 - current, cfg)
    ensures
      var extend := c.(newSize := c.oldSize);
      var grow := c.(oldLiveUntil := c.newLiveUntil);
      -1 <= EntryFee(c, cfg, current) - Sat64(EntryFee(extend, cfg, current) + EntryFee(grow, cfg, current)) <= 1
  {
    hide *;
    var extended: nat, total: nat := c.newLiveUntil - c.oldLiveUntil, c.newLiveUntil + 1 - current;
    var increase: nat, prepaid: nat := c.newSize - c.oldSize, c.oldLiveUntil + 1 - current;
    LiveFees(c, cfg, current);
    ExtendThenGrowCharges(c.isPersistent, c.oldSize, increase, c.newSize, extended, prepaid, total, cfg);
  }

  lemma {:induction false} ExtendThenGrowCharges(
    isPersistent: bool, size: nat, increase: nat, grown: nat, extended: nat, prepaid: nat, total: nat, cfg: RentFeeConfig)
    requires grown == size + increase && total == extended + prepaid
    requires Fits(grown, total, cfg)
    ensures
      var a := Sat64(Charge(isPersistent, grown, extended, cfg) + Charge(isPersistent, increase, prepaid, cfg));
      var b := Sat64(Charge(isPersistent, size, extended, cfg) + Charge(isPersistent, increase, total, cfg));
      -1 <= a - b <= 1
  {
    hide *;
    FitsBelow(grown, total, grown, extended, cfg);
    FitsBelow(grown, total, increase, prepaid, cfg);
    FitsBelow(grown, total, size, extended, cfg);
    FitsBelow(grown, total, increase, total, cfg);
    SameArea(size, increase, grown, extended, prepaid, total);
    SameAreaAlmostSameCharge(isPersistent, grown, extended, increase, prepaid, size, extended, increase, total, cfg);
  }

  lemma {:induction false} LiveFees(c: RentChange, cfg: RentFeeConfig, current: nat)
    requires !c.isCode && !IsNew(c)
    requires c.oldSize <= c.newSize && c.oldLiveUntil <= c.newLiveUntil
    requires current <= c.oldLiveUntil + 1 && c.newLiveUntil + 1 - current <= U32_MAX
    ensures
      var extended, increase := c.newLiveUntil - c.oldLiveUntil, c.newSize - c.oldSize;
      && EntryFee(c, cfg, current) ==
         Sat64(Charge(c.isPersistent, c.newSize, extended, cfg) +
               Charge(c.isPersistent, increase, c.oldLiveUntil + 1 - current, cfg))
      && EntryFee(c.(newSize := c.oldSize), cfg, current) == Charge(c.isPersistent, c.oldSize, extended, cfg)
      && EntryFee(c.(oldLiveUntil := c.newLiveUntil), cfg, current) ==
         Charge(c.isPersistent, increase, c.newLiveUntil + 1 - current, cfg)
  {
    hide Charge;
    NothingIsFree(c.isPersistent, 0, OrZero(PrepaidLedgers(c, current)), cfg);
    NothingIsFree(c.isPersistent, c.newSize, 0, cfg);
  }

  lemma {:induction false} SameArea(size: int, increase: int, grown: int, extended: int, prepaid: int, total: int)
    requires grown == size + increase && total == extended + prepaid
    ensures grown * extended + increase * prepaid == size * extended + increase * total
  {
  }

  /** What is added to the dividend to reach a multiple of the divisor. */
  function Pad(x: int, d: int): int
    requires d > 0
  {
    DivCeil(x, d) * d - x
  }

  /** What rounding up three parts adds to rounding up their sum: the whole divisors their pads hold. */
  function Gain(x: int, y: int, z: int, d: int): int
    requires d > 0
  {
    (Pad(x, d) + Pad(y, d) + Pad(z, d)) / d
  }

  /** Rounding up three parts costs as much more than rounding up their sum as the pads hold whole divisors. */
  lemma {:induction false} PadsOfThree(x: int, y: int, z: int, d: int)
    requires d > 0
    ensures
      DivCeil(x + y + z, d) ==
      DivCeil(x, d) + DivCeil(y, d) + DivCeil(z, d) - Gain(x, y, z, d)
  {
    var sum, pads := DivCeil(x, d) + DivCeil(y, d) + DivCeil(z, d), Pad(x, d) + Pad(y, d) + Pad(z, d);
    var gain, rest := pads / d, pads % d;
    assert sum * d == x + y + z + pads by {
      assert sum * d == DivCeil(x, d) * d + DivCeil(y, d) * d + DivCeil(z, d) * d;
    }
    assert pads == gain * d + rest;
    assert (sum - gain) * d == x + y + z + rest by {
      assert (sum - gain) * d == sum * d - gain * d;
    }
    hide DivCeil;
    DivCeilLeast(x + y + z, d, sum - gain);
    assert (sum - gain - 1) * d == (sum - gain) * d - d;
    DivCeilLeast(x + y + z, d, sum - gain - 1);
  }

  lemma {:induction false} PadsAreSmall(x: int, y: int, z: int, d: int)
    requires d > 0
    ensures 0 <= Gain(x, y, z, d) <= 2
  {
    PadBounds(x, d);
    PadBounds(y, d);
    PadBounds(z, d);
    hide Pad;
    var pads := Pad(x, d) + Pad(y, d) + Pad(z, d);
    assert 0 <= pads < 3 * d;
    QuotientBelowThree(pads, d);
  }

  lemma {:induction false} PadBounds(x: int, d: int)
    requires d > 0
    ensures 0 <= Pad(x, d) < d
  {
    DivCeilBounds(x, d);
    assert (DivCeil(x, d) - 1) * d == DivCeil(x, d) * d - d;
  }

  lemma {:induction false} QuotientBelowThree(n: int, d: int)
    requires d > 0 && 0 <= n < 3 * d
    ensures 0 <= n / d <= 2
  {
    var q := n / d;
    assert n == q * d + n % d;
    if q >= 3 {
      MulMono(3, q, d);
    }
  }

  /** The ledgers between the end of an entry's old life and the current ledger that an extension pays for. */
  function LapsedLedgers(c: RentChange, current: nat): nat
    requires c.oldLiveUntil <= c.newLiveUntil && current > c.oldLiveUntil + 1
  {
    Min(current - 1, c.newLiveUntil) - c.oldLiveUntil
  }

  /** The charge for the increase in size over the lapsed ledgers, which growing last never pays. */
  function Skipped(c: RentChange, cfg: RentFeeConfig, current: nat): I64
    requires c.oldSize <= c.newSize && c.oldLiveUntil <= c.newLiveUntil && current > c.oldLiveUntil + 1
  {
    Charge(c.isPersistent, c.newSize - c.oldSize, LapsedLedgers(c, current), cfg)
  }

  /**
   What rounding up separately adds: the old size over the extension, and the increase over the
   lapsed and over the remaining ledgers.
   */
  function RoundingGain(c: RentChange, cfg: RentFeeConfig, current: nat): int
    requires c.oldSize <= c.newSize && c.oldLiveUntil <= c.newLiveUntil && current > c.oldLiveUntil + 1
  {
    var d, f, increase, lapsed := Denominator(c.isPersistent, cfg), cfg.feePerRent1kb, c.newSize - c.oldSize, LapsedLedgers(c, current);
    var extended := c.newLiveUntil - c.oldLiveUntil;
    Gain(c.oldSize * f * extended, increase * f * (extended - lapsed), increase * f * lapsed, d)
  }

  /**
   Extending an entry that lapsed before `current` and then growing it saves exactly the charge of
   the increase over the lapsed ledgers, less what rounding up separately adds. So it differs from
   doing both at once by at most one if and only if the two are within one of each other.
   */
  lemma {:induction false} ExtendThenGrowLapsed(c: RentChange, cfg: RentFeeConfig, current: nat)
    requires !c.isCode && !IsNew(c)
    requires c.oldSize <= c.newSize && c.oldLiveUntil <= c.newLiveUntil
    requires current > c.oldLiveUntil + 1 && c.newLiveUntil + 1 - current <= U32_MAX
    requires Fits(c.newSize, c.newLiveUntil - c.oldLiveUntil, cfg)
    ensures
      var extend := c.(newSize := c.oldSize);
      var grow := c.(oldLiveUntil := c.newLiveUntil);
      var saved := EntryFee(c, cfg, current) - Sat64(EntryFee(extend, cfg, current) + EntryFee(grow, cfg, current));
      && saved == Skipped(c, cfg, current) - RoundingGain(c, cfg, current)
      && (-1 <= saved <= 1 <==> -1 <= Skipped(c, cfg, current) - RoundingGain(c, cfg, current) <= 1)
      && 0 <= RoundingGain(c, cfg, current) <= 2
  {
    hide *;
    LapsedFees(c, cfg, current);
    SavedOnLapsed(c, cfg, current);
  }

  lemma {:induction false} SavedOnLapsed(c: RentChange, cfg: RentFeeConfig, current: nat)
    requires c.oldSize <= c.newSize && c.oldLiveUntil <= c.newLiveUntil && current > c.oldLiveUntil + 1
    requires Fits(c.newSize, c.newLiveUntil - c.oldLiveUntil, cfg)
    ensures
      var extended, increase := c.newLiveUntil - c.oldLiveUntil, c.newSize - c.oldSize;
      var combined := Charge(c.isPersistent, c.newSize, extended, cfg);
      var steps := Sat64(Charge(c.isPersistent, c.oldSize, extended, cfg) +
                         Charge(c.isPersistent, increase, extended - LapsedLedgers(c, current), cfg));
      && combined - steps == Skipped(c, cfg, current) - RoundingGain(c, cfg, current)
      && 0 <= RoundingGain(c, cfg, current) <= 2
  {
    var extended: nat, increase: nat := c.newLiveUntil - c.oldLiveUntil, c.newSize - c.oldSize;
    var lapsed := LapsedLedgers(c, current);
    var rest: nat := extended - lapsed;
    var f: int, d := cfg.feePerRent1kb, Denominator(c.isPersistent, cfg);
    assert d > 0;
    hide Charge, Fits, Gain, Denominator, Sat64;
    LapsedCharge(c.isPersistent, c.oldSize, increase, c.newSize, lapsed, rest, extended, cfg);
    PadsAreSmall(c.oldSize * f * extended, increase * f * rest, increase * f * lapsed, d);
  }

  lemma {:induction false} LapsedFees(c: RentChange, cfg: RentFeeConfig, current: nat)
    requires !c.isCode && !IsNew(c)
    requires c.oldSize <= c.newSize && c.oldLiveUntil <= c.newLiveUntil
    requires current > c.oldLiveUntil + 1 && c.newLiveUntil + 1 - current <= U32_MAX
    ensures
      var extended, increase := c.newLiveUntil - c.oldLiveUntil, c.newSize - c.oldSize;
      && EntryFee(c, cfg, current) == Charge(c.isPersistent, c.newSize, extended, cfg)
      && EntryFee(c.(newSize := c.oldSize), cfg, current) == Charge(c.isPersistent, c.oldSize, extended, cfg)
      && EntryFee(c.(oldLiveUntil := c.newLiveUntil), cfg, current) ==
         Charge(c.isPersistent, increase, extended - LapsedLedgers(c, current), cfg)
  {
    hide Charge;
    NothingIsFree(c.isPersistent, c.newSize - c.oldSize, 0, cfg);
    NothingIsFree(c.isPersistent, 0, 0, cfg);
    NothingIsFree(c.isPersistent, c.newSize, 0, cfg);
    assert OrZero(PrepaidLedgers(c.(oldLiveUntil := c.newLiveUntil), current)) ==
           c.newLiveUntil - c.oldLiveUntil - LapsedLedgers(c, current);
  }

  lemma {:induction false} LapsedCharge(
    isPersistent: bool, size: nat, increase: nat, grown: nat, lapsed: nat, rest: nat, all: nat, cfg: RentFeeConfig)
    requires grown == size + increase && all == lapsed + rest
    requires Fits(grown, all, cfg)
    ensures
      var f, d := cfg.feePerRent1kb, Denominator(isPersistent, cfg);
      var combined := Charge(isPersistent, grown, all, cfg);
      var steps := Sat64(Charge(isPersistent, size, all, cfg) + Charge(isPersistent, increase, rest, cfg));
      var gain := Gain(size * f * all, increase * f * rest, increase * f * lapsed, d);
      combined - steps == Charge(isPersistent, increase, lapsed, cfg) - gain
  {
    var f: int, d := cfg.feePerRent1kb, Denominator(isPersistent, cfg);
    assert d > 0;
    var x, y, z := size * f * all, increase * f * rest, increase * f * lapsed;
    assert grown * f * all == x + y + z by {
      AreaParts(size, increase, f, lapsed, rest);
    }
    assert I64_MIN <= x + y + z <= I64_MAX;
    hide DivCeil, Fits, Denominator, Charge, Sat64, Gain;
    FitsBelow(grown, all, size, all, cfg);
    FitsBelow(grown, all, increase, rest, cfg);
    FitsBelow(grown, all, increase, lapsed, cfg);
    ChargeIsArea(isPersistent, grown, all, cfg);
    ChargeIsArea(isPersistent, size, all, cfg);
    ChargeIsArea(isPersistent, increase, rest, cfg);
    ChargeIsArea(isPersistent, increase, lapsed, cfg);
    PadsOfThree(x, y, z, d);
    AreaSign(size, f, all);
    AreaSign(increase, f, rest);
    AreaSign(increase, f, lapsed);
    SumFits(x, y, z, d);
  }

  /** Two charges for parts of an area that does not saturate do not saturate together. */
  lemma {:induction false} SumFits(x: int, y: int, z: int, d: int)
    requires d > 0 && I64_MIN <= x + y + z <= I64_MAX
    requires (x >= 0 && y >= 0 && z >= 0) || (x <= 0 && y <= 0 && z <= 0)
    ensures Sat64(DivCeil(x, d) + DivCeil(y, d)) == DivCeil(x, d) + DivCeil(y, d)
  {
    hide DivCeil;
    if d == 1 {
      DivCeilOne(x);
      DivCeilOne(y);
    } else {
      HalfBounds(x, d);
      HalfBounds(y, d);
    }
  }

  lemma {:induction false} DivCeilOne(x: int)
    ensures DivCeil(x, 1) == x
  {
  }

  lemma {:induction false} HalfBounds(x: int, d: int)
    requires d >= 2
    ensures if x >= 0 then 0 <= 2 * DivCeil(x, d) <= x + 1 else x <= 2 * DivCeil(x, d) <= 0
  {
    hide DivCeil;
    var q := DivCeil(x, d);
    if x >= 0 {
      DivCeilNonNegative(x, d);
      var h := (x + 1) / 2;
      MulMono(2, d, h);
      DivCeilLeast(x, d, h);
    } else {
      NegativeHalf(x, q, d);
    }
  }

  lemma {:induction false} NegativeHalf(x: int, q: int, d: int)
    requires x < 0 && d >= 2 && q == DivCeil(x, d)
    ensures x <= 2 * q <= 0
  {
    DivCeilBounds(x, d);
    DivCeilMono(x, 0, d);
    DivCeilZero(d);
    hide DivCeil;
    MulMono(2, d, -q);
    assert d * (-q) == -(q * d);
  }

  lemma {:induction false} AreaSign(size: nat, f: int, ledgers: nat)
    ensures if f >= 0 then size * f * ledgers >= 0 else size * f * ledgers <= 0
  {
    if f >= 0 {
      MulMono(0, f, size);
      MulMono(0, size * f, ledgers);
    } else {
      MulMono(f, 0, size);
      MulMono(size * f, 0, ledgers);
    }
  }

  lemma {:induction false} AreaParts(size: int, increase: int, f: int, lapsed: int, rest: int)
    ensures (size + increase) * f * (lapsed + rest) ==
      size * f * (lapsed + rest) + increase * f * rest + increase * f * lapsed
  {
    assert (size + increase) * f == size * f + increase * f;
    assert (size * f + increase * f) * (lapsed + rest) == size * f * (lapsed + rest) + increase * f * (lapsed + rest);
  }

  /** A lapsed entry for which extending first saves more than one. */
  lemma {:induction false} ExtendingLapsedFirstCanSaveMore(c: RentChange, cfg: RentFeeConfig)
    requires c == RentChange(true, false, 1024, 2048, 10, 40)
    requires cfg == RentFeeConfig(0, 1000, 0, 1, 1)
    ensures
      EntryFee(c, cfg, 31) >
      Sat64(EntryFee(c.(newSize := c.oldSize), cfg, 31) + EntryFee(c.(oldLiveUntil := c.newLiveUntil), cfg, 31)) + 1
  {
    assert Denominator(true, cfg) == 1024;
    assert Fits(2048, 30, cfg) && Fits(1024, 20, cfg);
    ChargeIsArea(true, 1024, 20, cfg);
    hide DivCeil, Charge, EntryFee, RoundingGain;
    assert LapsedLedgers(c, 31) == 20;
    DivCeilLeast(20480000, 1024, 3);
    ExtendThenGrowLapsed(c, cfg, 31);
  }

  lemma {:induction false} SaturatedSplit(p: int, a: nat, b: nat)
    requires p >= 0 || I64_MIN <= p * (a + b)
    ensures Sat64(p * (a + b)) <= Sat64(p * a) + Sat64(p * b)
  {
    assert p * (a + b) == p * a + p * b;
    if p >= 0 {
      MulMono(0, a, p);
      MulMono(0, b, p);
    } else {
      MulMono(0, a, -p);
      MulMono(0, b, -p);
    }
  }

  lemma {:induction false} ChargeSplits(isPersistent: bool, size: nat, a: nat, b: nat, cfg: RentFeeConfig)
    requires cfg.feePerRent1kb >= 0 || Fits(size, a + b, cfg)
    ensures Charge(isPersistent, size, a + b, cfg) <= Charge(isPersistent, size, a, cfg) + Charge(isPersistent, size, b, cfg)
  {
    var d := Denominator(isPersistent, cfg);
    var p := Sat64(size * cfg.feePerRent1kb);
    if cfg.feePerRent1kb >= 0 {
      MulMono(0, cfg.feePerRent1kb, size);
    }
    SaturatedSplit(p, a, b);
    hide DivCeil, Sat64;
    DivCeilSum(Sat64(p * a), Sat64(p * b), d);
    DivCeilMono(Sat64(p * (a + b)), Sat64(p * a) + Sat64(p * b), d);
  }

  /** Splitting an extension of an existing entry never costs less. */
  lemma {:induction false} SplitExtension(c: RentChange, middle: nat, cfg: RentFeeConfig, current: nat)
    requires !c.isCode && !IsNew(c) && c.oldSize == c.newSize
    requires c.oldLiveUntil <= middle <= c.newLiveUntil
    requires cfg.feePerRent1kb >= 0 || Fits(c.newSize, c.newLiveUntil - c.oldLiveUntil, cfg)
    ensures
      var first, second := c.(newLiveUntil := middle), c.(oldLiveUntil := middle);
      EntryFee(c, cfg, current) <= Sat64(EntryFee(first, cfg, current) + EntryFee(second, cfg, current))
  {
    hide Charge;
    var first, second := c.(newLiveUntil := middle), c.(oldLiveUntil := middle);
    ChargeSplits(c.isPersistent, c.newSize, middle - c.oldLiveUntil, c.newLiveUntil - middle, cfg);
    NothingIsFree(c.isPersistent, 0, OrZero(PrepaidLedgers(c, current)), cfg);
    NothingIsFree(c.isPersistent, 0, OrZero(PrepaidLedgers(second, current)), cfg);
  }

  /**
   The discount of code entries rounds towards zero. Splitting an extension of one costs no less
   if and only if the fee rate is negative or the two remainders lost to the discount do not make
   up a whole unit beyond what the split adds to the undiscounted charges.
   */
  lemma {:induction false} SplitCodeExtensionIff(c: RentChange, middle: nat, cfg: RentFeeConfig, current: nat)
    requires c.isCode && !IsNew(c) && c.oldSize == c.newSize
    requires c.oldLiveUntil <= middle <= c.newLiveUntil
    requires cfg.feePerRent1kb >= 0 || Fits(c.newSize, c.newLiveUntil - c.oldLiveUntil, cfg)
    ensures
      var first, second := c.(newLiveUntil := middle), c.(oldLiveUntil := middle);
      var a := Charge(c.isPersistent, c.newSize, middle - c.oldLiveUntil, cfg);
      var b := Charge(c.isPersistent, c.newSize, c.newLiveUntil - middle, cfg);
      var all := Charge(c.isPersistent, c.newSize, c.newLiveUntil - c.oldLiveUntil, cfg);
      EntryFee(c, cfg, current) <= Sat64(EntryFee(first, cfg, current) + EntryFee(second, cfg, current)) <==>
      cfg.feePerRent1kb < 0 || a % 3 + b % 3 < 3 + (a + b - all)
  {
    hide Charge, Fits, EntryFee, TruncDiv, Sat64, DivCeil;
    CodeEntryFee(c, cfg, current);
    CodeEntryFee(c.(newLiveUntil := middle), cfg, current);
    CodeEntryFee(c.(oldLiveUntil := middle), cfg, current);
    var a, b := middle - c.oldLiveUntil, c.newLiveUntil - middle;
    ChargeSplits(c.isPersistent, c.newSize, a, b, cfg);
    SignOfCharge(c.isPersistent, c.newSize, a, cfg);
    SignOfCharge(c.isPersistent, c.newSize, b, cfg);
    SignOfCharge(c.isPersistent, c.newSize, a + b, cfg);
    DiscountSplits(
      Charge(c.isPersistent, c.newSize, a, cfg), Charge(c.isPersistent, c.newSize, b, cfg),
      Charge(c.isPersistent, c.newSize, a + b, cfg));
  }

  lemma {:induction false} CodeEntryFee(c: RentChange, cfg: RentFeeConfig, current: nat)
    requires c.isCode && !IsNew(c) && c.oldSize == c.newSize && c.oldLiveUntil <= c.newLiveUntil
    ensures EntryFee(c, cfg, current) ==
      TruncDiv(Charge(c.isPersistent, c.newSize, c.newLiveUntil - c.oldLiveUntil, cfg), CODE_ENTRY_RENT_DISCOUNT_FACTOR)
  {
    hide Charge;
    NothingIsFree(c.isPersistent, 0, OrZero(PrepaidLedgers(c, current)), cfg);
  }

  lemma {:induction false} DiscountSplits(a: I64, b: I64, all: I64)
    requires all <= a + b && ((a >= 0 && b >= 0 && all >= 0) || (a <= 0 && b <= 0 && all <= 0))
    ensures Sat64(TruncDiv(a, 3) + TruncDiv(b, 3)) == TruncDiv(a, 3) + TruncDiv(b, 3)
    ensures
      TruncDiv(all, 3) <= TruncDiv(a, 3) + TruncDiv(b, 3) <==>
      (a <= 0 && b <= 0 && all <= 0) || a % 3 + b % 3 < 3 + (a + b - all)
    ensures TruncDiv(all, 3) <= TruncDiv(a, 3) + TruncDiv(b, 3) + 1
  {
  }

  /** It never costs more than one less. */
  lemma {:induction false} SplitCodeExtension(c: RentChange, middle: nat, cfg: RentFeeConfig, current: nat)
    requires c.isCode && !IsNew(c) && c.oldSize == c.newSize
    requires c.oldLiveUntil <= middle <= c.newLiveUntil
    requires cfg.feePerRent1kb >= 0 || Fits(c.newSize, c.newLiveUntil - c.oldLiveUntil, cfg)
    ensures
      var first, second := c.(newLiveUntil := middle), c.(oldLiveUntil := middle);
      EntryFee(c, cfg, current) <= Sat64(EntryFee(first, cfg, current) + EntryFee(second, cfg, current)) + 1
  {
    hide Charge, Fits, EntryFee, TruncDiv, Sat64, DivCeil;
    CodeEntryFee(c, cfg, current);
    CodeEntryFee(c.(newLiveUntil := middle), cfg, current);
    CodeEntryFee(c.(oldLiveUntil := middle), cfg, current);
    var a, b := middle - c.oldLiveUntil, c.newLiveUntil - middle;
    ChargeSplits(c.isPersistent, c.newSize, a, b, cfg);
    SignOfCharge(c.isPersistent, c.newSize, a, cfg);
    SignOfCharge(c.isPersistent, c.newSize, b, cfg);
    SignOfCharge(c.isPersistent, c.newSize, a + b, cfg);
    DiscountSplits(
      Charge(c.isPersistent, c.newSize, a, cfg), Charge(c.isPersistent, c.newSize, b, cfg),
      Charge(c.isPersistent, c.newSize, a + b, cfg));
  }

  lemma {:induction false} SignOfCharge(isPersistent: bool, size: nat, ledgers: nat, cfg: RentFeeConfig)
    ensures
      var charge := Charge(isPersistent, size, ledgers, cfg);
      if cfg.feePerRent1kb >= 0 then charge >= 0 else charge <= 0
  {
    var f: int, p: int, d := cfg.feePerRent1kb, Sat64(size * cfg.feePerRent1kb), Denominator(isPersistent, cfg);
    if f >= 0 {
      MulMono(0, f, size);
      MulMono(0, p, ledgers);
      DivCeilMono(0, Sat64(p * ledgers), d);
    } else {
      MulMono(f, 0, size);
      MulMono(p, 0, ledgers);
      DivCeilMono(Sat64(p * ledgers), 0, d);
    }
  }

  lemma {:induction false} TwoPerLedger(ledgers: nat)
    requires ledgers <= 2
    ensures Charge(true, 1024, ledgers, RentFeeConfig(0, 2, 0, 1, 1)) == 2 * ledgers
  {
    var cfg := RentFeeConfig(0, 2, 0, 1, 1);
    hide DivCeil;
    assert Denominator(true, cfg) == 1024;
    assert Fits(1024, ledgers, cfg);
    ChargeIsArea(true, 1024, ledgers, cfg);
    DivCeilLeast(2048 * ledgers, 1024, 2 * ledgers);
    DivCeilLeast(2048 * ledgers, 1024, 2 * ledgers - 1);
  }

  /** A code entry whose extension by two ledgers costs 1 at once and nothing in two steps. */
  lemma {:induction false} SplitCodeExtensionCanCostLess(c: RentChange, cfg: RentFeeConfig)
    requires c == RentChange(true, true, 1024, 1024, 10, 12)
    requires cfg == RentFeeConfig(0, 2, 0, 1, 1)
    ensures EntryFee(c, cfg, 10) == 1
    ensures EntryFee(c.(newLiveUntil := 11), cfg, 10) == 0
    ensures EntryFee(c.(oldLiveUntil := 11), cfg, 10) == 0
  {
    hide Charge;
    TwoPerLedger(1);
    TwoPerLedger(2);
    NothingIsFree(true, 0, 1, cfg);
    NothingIsFree(true, 0, 2, cfg);
  }

  // ---------------------------------------------------------------- fees read off the configuration

  /** The denominator that a configuration gives to entries of a durability. */
  function RateOf(isPersistent: bool, cfg: RentFeeConfig): int {
    if isPersistent then cfg.persistentDenominator else cfg.temporaryDenominator
  }

  /**
   The charge of an area of bytes and ledgers, without saturation: the least number of units, each of
   which pays for 1024 times the durability's denominator.
   */
  lemma {:induction false} ChargeAtMostIff(isPersistent: bool, size: nat, ledgers: nat, cfg: RentFeeConfig, q: int)
    requires Fits(size, ledgers, cfg)
    requires isPersistent ==> 0 < 1024 * cfg.persistentDenominator <= I64_MAX
    requires !isPersistent ==> 0 < 1024 * cfg.temporaryDenominator <= I64_MAX
    ensures
      isPersistent ==>
        (Charge(isPersistent, size, ledgers, cfg) <= q <==>
         size * cfg.feePerRent1kb * ledgers <= q * (1024 * cfg.persistentDenominator))
    ensures
      !isPersistent ==>
        (Charge(isPersistent, size, ledgers, cfg) <= q <==>
         size * cfg.feePerRent1kb * ledgers <= q * (1024 * cfg.temporaryDenominator))
  {
    ChargeIsArea(isPersistent, size, ledgers, cfg);
    DivCeilLeast(size * cfg.feePerRent1kb * ledgers, Denominator(isPersistent, cfg), q);
    hide DivCeil, Charge, Fits;
  }

  /**
   What the fee of a change that only extends, only grows, or creates a non-code entry pays for:
   the new ledgers, the ledgers from the current one to the old end, or those from the current one on.
   */
  lemma {:induction false} EntryFeeAtMostIff(c: RentChange, cfg: RentFeeConfig, current: nat, q: int)
    requires !c.isCode && 0 < current <= c.newLiveUntil && c.newLiveUntil + 1 - current < U32_MAX
    requires 0 < 1024 * RateOf(c.isPersistent, cfg) <= I64_MAX
    requires Fits(c.newSize, c.newLiveUntil + 1, cfg)
    ensures
      (c.oldSize > 0 || c.oldLiveUntil > 0) && c.oldSize == c.newSize && c.oldLiveUntil <= c.newLiveUntil ==>
        (EntryFee(c, cfg, current) <= q <==>
         c.newSize * cfg.feePerRent1kb * (c.newLiveUntil - c.oldLiveUntil) <= q * (1024 * RateOf(c.isPersistent, cfg)))
    ensures
      (c.oldSize > 0 || c.oldLiveUntil > 0) && c.oldSize <= c.newSize && c.oldLiveUntil == c.newLiveUntil ==>
        (EntryFee(c, cfg, current) <= q <==>
         (c.newSize - c.oldSize) * cfg.feePerRent1kb * (c.oldLiveUntil - current + 1) <= q * (1024 * RateOf(c.isPersistent, cfg)))
    ensures
      c.oldSize == 0 && c.oldLiveUntil == 0 ==>
        (EntryFee(c, cfg, current) <= q <==>
         c.newSize * cfg.feePerRent1kb * (c.newLiveUntil - current + 1) <= q * (1024 * RateOf(c.isPersistent, cfg)))
  {
    hide Charge, Fits, Denominator;
    var all := c.newLiveUntil + 1;
    if IsNew(c) {
      AreaAtMostIff(c, c.newSize, c.newLiveUntil - current + 1, all, cfg, q);
      NothingIsFree(c.isPersistent, c.newSize, 0, cfg);
    } else if c.oldSize == c.newSize && c.oldLiveUntil <= c.newLiveUntil {
      AreaAtMostIff(c, c.newSize, c.newLiveUntil - c.oldLiveUntil, all, cfg, q);
      NothingIsFree(c.isPersistent, 0, OrZero(PrepaidLedgers(c, current)), cfg);
      if c.oldLiveUntil == c.newLiveUntil {
        NothingIsFree(c.isPersistent, c.newSize, 0, cfg);
        AreaAtMostIff(c, 0, c.oldLiveUntil - current + 1, all, cfg, q);
      }
    } else if c.oldSize <= c.newSize && c.oldLiveUntil == c.newLiveUntil {
      AreaAtMostIff(c, c.newSize - c.oldSize, c.oldLiveUntil - current + 1, all, cfg, q);
      NothingIsFree(c.isPersistent, c.newSize, 0, cfg);
    }
  }

  /** A code entry pays a third of what another entry pays, rounded towards zero. */
  lemma {:induction false} CodeFeeAtMostIff(c: RentChange, cfg: RentFeeConfig, current: nat, q: int)
    requires c.isCode
    ensures
      var full := EntryFee(c.(isCode := false), cfg, current);
      EntryFee(c, cfg, current) <= q <==> (if q >= 0 then full < 3 * (q + 1) else full <= 3 * q)
  {
    hide Charge;
    assert ExtensionLedgers(c.(isCode := false), current) == ExtensionLedgers(c, current);
    assert PrepaidLedgers(c.(isCode := false), current) == PrepaidLedgers(c, current);
  }

  lemma {:induction false} AreaAtMostIff(c: RentChange, size: nat, ledgers: nat, all: nat, cfg: RentFeeConfig, q: int)
    requires size <= c.newSize && ledgers <= all && Fits(c.newSize, all, cfg)
    requires 0 < 1024 * RateOf(c.isPersistent, cfg) <= I64_MAX
    ensures
      Charge(c.isPersistent, size, ledgers, cfg) <= q <==>
      size * cfg.feePerRent1kb * ledgers <= q * (1024 * RateOf(c.isPersistent, cfg))
  {
    FitsBelow(c.newSize, all, size, ledgers, cfg);
    ChargeAtMostIff(c.isPersistent, size, ledgers, cfg, q);
  }

  function SumOfFees(changes: seq<RentChange>, cfg: RentFeeConfig, current: nat): int {
    if changes == [] then 0
    else SumOfFees(changes[..|changes| - 1], cfg, current) + EntryFee(changes[|changes| - 1], cfg, current)
  }

  /** No partial sum of the entry fees leaves the range. */
  ghost predicate SumsFit(changes: seq<RentChange>, cfg: RentFeeConfig, current: nat) {
    forall i :: 0 <= i <= |changes| ==> I64_MIN <= SumOfFees(changes[..i], cfg, current) <= I64_MAX
  }

  lemma {:induction false} EntryFeesAreTheirSum(changes: seq<RentChange>, cfg: RentFeeConfig, current: nat)
    requires SumsFit(changes, cfg, current)
    ensures EntryFees(changes, cfg, current) == SumOfFees(changes, cfg, current)
  {
    hide EntryFee;
    assert changes[..|changes|] == changes;
    if changes != [] {
      var rest := changes[..|changes| - 1];
      assert forall i :: 0 <= i <= |rest| ==> rest[..i] == changes[..i];
      EntryFeesAreTheirSum(rest, cfg, current);
    }
  }

  /**
   The rent fee of a list, as long as its sums and products do not saturate: the entry fees, a write
   fee for every extended entry, and the price of writing 48 bytes for each of them, per 1024 bytes
   and rounded up.
   */
  lemma {:induction false} RentFeeIsSumOfParts(changes: seq<RentChange>, cfg: RentFeeConfig, current: nat)
    requires SumsFit(changes, cfg, current)
    requires
      var n := |Indices(changes)|;
      && 48 * n <= U32_MAX
      && I64_MIN <= cfg.feePerWriteEntry * n <= I64_MAX && I64_MIN <= 48 * n * cfg.feePerWrite1kb <= I64_MAX
      && I64_MIN <= SumOfFees(changes, cfg, current) + cfg.feePerWriteEntry * n <= I64_MAX
    ensures
      var n := |Indices(changes)|;
      RentFee(changes, cfg, current) ==
      Sat64(SumOfFees(changes, cfg, current) + cfg.feePerWriteEntry * n + DivCeil(48 * n * cfg.feePerWrite1kb, 1024))
  {
    EntryFeesAreTheirSum(changes, cfg, current);
    CountIsIndices(changes);
    assert ExtendedCount(changes) * TTL_ENTRY_SIZE == 48 * |Indices(changes)|;
    hide EntryFees, ExtendedCount, DivCeil;
  }

  /** The positions of the changes that extend their entry. */
  function Indices(changes: seq<RentChange>): set<nat> {
    set i: nat | i < |changes| && changes[i].oldLiveUntil < changes[i].newLiveUntil
  }

  lemma {:induction false} IndicesOfPrefix(changes: seq<RentChange>)
    requires changes != []
    ensures
      var last := |changes| - 1;
      && last !in Indices(changes[..last])
      && Indices(changes) == Indices(changes[..last]) + (if IsExtended(changes[last]) then {last} else {})
  {
    var last, rest := |changes| - 1, changes[..|changes| - 1];
    forall i: nat ensures i in Indices(changes) <==> i in Indices(rest) || (i == last && IsExtended(changes[last])) {
      if i < last {
        assert rest[i] == changes[i];
      }
    }
  }

  lemma {:induction false} CountIsIndices(changes: seq<RentChange>)
    ensures ExtendedCount(changes) == |Indices(changes)|
  {
    if changes == [] {
      assert Indices(changes) == {};
    } else {
      IndicesOfPrefix(changes);
      hide Indices;
      CountIsIndices(changes[..|changes| - 1]);
    }
  }
}
