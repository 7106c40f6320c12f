/**
 Converting computed charges to whole quota: half-away-from-zero rounding,
 saturation, the strict conversions that refuse instead of saturating, and the
 charge for a channel test built from them.

 A float64 is a real, an infinity or NaN. Where the result depends on how a large
 integer becomes a float64, the conversion is a parameter known only to be
 monotone and exact up to 2^53.
 */
module Quota {
  import opened Basics

  const MAX_QUOTA := 0x7FFF_FFFF
  const MIN_QUOTA := -0x8000_0000
  const MAX_WALLET_QUOTA := 0x1F_FFFF_FFFF_FFFF  // 2^53 - 1
  const TWO_53 := 0x20_0000_0000_0000
  const QUOTA_PER_UNIT := 500000.0

  datatype Clamp = Overflow | Underflow | NotANumber

  // ------------------------------------------------------------------- rounding

  /** Truncation toward zero. */
  function Truncate(x: real): (n: int)
    ensures x >= 0.0 ==> n as real <= x < n as real + 1.0
    ensures x <= 0.0 ==> n as real - 1.0 < x <= n as real
  {
    if x >= 0.0 then x.Floor else -((-x).Floor)
  }

  /** The nearest integer, halves away from zero. */
  function Round(x: real): (n: int)
    ensures -0.5 <= x - n as real <= 0.5
    ensures x >= 0.0 ==> x - n as real < 0.5
    ensures x <= 0.0 ==> n as real - x < 0.5
  {
    if x >= 0.0 then (x + 0.5).Floor else -((0.5 - x).Floor)
  }

  lemma RoundMonotone(x: real, y: real)
    requires x <= y
    ensures Round(x) <= Round(y)
  {
  }

  lemma TruncateInteger(n: int)
    ensures Truncate(n as real) == n
  {
    if n < 0 {
      assert -(n as real) == (-n) as real;
    }
  }

  lemma RoundInteger(n: int)
    ensures Round(n as real) == n
  {
  }

  // ----------------------------------------------------------------- saturation

  function SaturateBounded(value: Float, max: int, min: int): (int, Option<Clamp>) {
    match value
    case NaN => (0, Some(NotANumber))
    case PosInf => (max, Some(Overflow))
    case NegInf => (min, Some(Underflow))
    case Finite(v) =>
      if v > max as real then (max, Some(Overflow))
      else if v < min as real then (min, Some(Underflow))
      else (Truncate(v), None)
  }

  function Saturate(value: Float): (int, Option<Clamp>) {
    SaturateBounded(value, MAX_QUOTA, MIN_QUOTA)
  }

  function Strict(r: (int, Option<Clamp>)): Result<int, Clamp> {
    if r.1.Some? then Err(r.1.value) else Ok(r.0)
  }

  function RoundFloat(value: Float): Float {
    if value.Finite? then Finite(Round(value.value) as real) else value
  }

  function FromFloat(value: Float): int {
    Saturate(value).0
  }

  function RoundQuota(value: Float): int {
    Saturate(RoundFloat(value)).0
  }

  /** Whatever comes in, a charge stays in the 32-bit range, and it is exact when nothing clamps. */
  lemma SaturateRange(value: Float)
    ensures -2147483648 <= Saturate(value).0 <= 2147483647
    ensures Saturate(value).1.None? <==> value.Finite? && -2147483648.0 <= value.value <= 2147483647.0
    ensures Saturate(value).1.None? ==> Saturate(value).0 == Truncate(value.value)
  {
  }

  /** Clamping to the nearest bound is monotone: a larger charge never becomes a smaller quota. */
  lemma RoundQuotaMonotone(x: real, y: real)
    requires x <= y
    ensures RoundQuota(Finite(x)) <= RoundQuota(Finite(y))
  {
    RoundMonotone(x, y);
  }

  lemma RoundQuotaInRange(x: real)
    requires MIN_QUOTA <= Round(x) <= MAX_QUOTA
    ensures RoundQuota(Finite(x)) == Round(x)
  {
  }

  /** Out of range a charge becomes the bound, with what happened; NaN becomes 0. */
  lemma SaturateOutside(x: real)
    ensures Saturate(NaN) == (0, Some(NotANumber))
    ensures Saturate(PosInf) == (2147483647, Some(Overflow)) && Saturate(NegInf) == (-2147483648, Some(Underflow))
    ensures x > 2147483647.0 ==> Saturate(Finite(x)) == (2147483647, Some(Overflow))
    ensures x < -2147483648.0 ==> Saturate(Finite(x)) == (-2147483648, Some(Underflow))
    ensures FromFloat(NaN) == RoundQuota(NaN) == 0
    ensures FromFloat(PosInf) == RoundQuota(PosInf) == 2147483647
    ensures FromFloat(NegInf) == RoundQuota(NegInf) == -2147483648
  {
  }

  // ------------------------------------------------- decimals through float64

  predicate Below(a: Float, b: Float) {
    match (a, b)
    case (NegInf, _) => !b.NaN?
    case (_, PosInf) => !a.NaN?
    case (Finite(x), Finite(y)) => x <= y
    case _ => false
  }

  /** What is known about turning a whole number into a float64. */
  ghost predicate Converts(toFloat: int -> Float) {
    && (forall m, n :: m <= n ==> Below(toFloat(m), toFloat(n)))
    && (forall n :: -TWO_53 <= n <= TWO_53 ==> toFloat(n) == Finite(n as real))
  }

  /** A decimal is rounded to a whole number first, then converted. */
  function FromDecimalStrict(d: real, toFloat: int -> Float): Result<int, Clamp> {
    Strict(Saturate(toFloat(Round(d))))
  }

  function WalletFromDecimalStrict(d: real, toFloat: int -> Float): Result<int, Clamp> {
    Strict(SaturateBounded(toFloat(Round(d)), MAX_WALLET_QUOTA, -MAX_WALLET_QUOTA))
  }

  lemma Exact(n: int, toFloat: int -> Float)
    requires Converts(toFloat) && -TWO_53 <= n <= TWO_53
    ensures toFloat(n) == Finite(n as real)
  {
  }

  lemma Monotone(m: int, n: int, toFloat: int -> Float)
    requires Converts(toFloat) && m <= n
    ensures Below(toFloat(m), toFloat(n))
  {
  }

  lemma InRange(n: int, max: int, min: int)
    requires min <= n <= max
    ensures SaturateBounded(Finite(n as real), max, min) == (n, None)
  {
    TruncateInteger(n);
  }

  lemma OutOfRange(f: Float, max: int, min: int)
    requires min <= max
    ensures Below(Finite((max + 1) as real), f) ==> SaturateBounded(f, max, min) == (max, Some(Overflow))
    ensures Below(f, Finite((min - 1) as real)) ==> SaturateBounded(f, max, min) == (min, Some(Underflow))
  {
  }

  /** Any bound below 2^53 is decided exactly, although large integers are not converted exactly. */
  lemma StrictDecides(n: int, toFloat: int -> Float, max: int, min: int)
    requires Converts(toFloat)
    requires -TWO_53 < min <= max < TWO_53
    ensures Strict(SaturateBounded(toFloat(n), max, min)) ==
            if n > max then Err(Overflow) else if n < min then Err(Underflow) else Ok(n)
  {
    OutOfRange(toFloat(n), max, min);
    if n > max {
      Exact(max + 1, toFloat);
      Monotone(max + 1, n, toFloat);
    } else if n < min {
      Exact(min - 1, toFloat);
      Monotone(n, min - 1, toFloat);
    } else {
      Exact(n, toFloat);
      InRange(n, max, min);
    }
  }

  /** The strict wallet conversion succeeds if and only if the rounded decimal is within
      +-(2^53 - 1), and then returns exactly that integer. */
  lemma WalletStrictExact(d: real, toFloat: int -> Float)
    requires Converts(toFloat)
    ensures var r := WalletFromDecimalStrict(d, toFloat);
            (r.Ok? <==> -9007199254740991 <= Round(d) <= 9007199254740991) && (r.Ok? ==> r.value == Round(d))
  {
    StrictDecides(Round(d), toFloat, MAX_WALLET_QUOTA, -MAX_WALLET_QUOTA);
  }

  /** The strict single-request conversion does the same at the 32-bit bounds. */
  lemma RequestStrictExact(d: real, toFloat: int -> Float)
    requires Converts(toFloat)
    ensures var r := FromDecimalStrict(d, toFloat);
            (r.Ok? <==> -2147483648 <= Round(d) <= 2147483647) && (r.Ok? ==> r.value == Round(d))
  {
    StrictDecides(Round(d), toFloat, MAX_QUOTA, MIN_QUOTA);
  }

  // ----------------------------------------------------- the charge for a test

  datatype Price = Price(usePrice: bool, modelPrice: real, modelRatio: real, completionRatio: real)

  function Times(x: int, k: real): real {
    x as real * k
  }

  /** `prompt` tokens plus the rounded completion product. */
  function Tokens(prompt: int, completionProduct: real): int {
    RoundQuota(Finite((prompt + RoundQuota(Finite(completionProduct))) as real))
  }

  /** The rounded final product, at least 1 for a ratio other than 0. */
  function Floored(product: real, free: bool): int {
    var quota := RoundQuota(Finite(product));
    if !free && quota <= 0 then 1 else quota
  }

  function TokenQuota(prompt: int, completion: int, price: Price): int {
    Tokens(prompt, Times(completion, price.completionRatio))
  }

  function Charge(prompt: int, completion: int, price: Price): int {
    if price.usePrice then FromFloat(Finite(price.modelPrice * QUOTA_PER_UNIT))
    else Floored(Times(TokenQuota(prompt, completion, price), price.modelRatio), price.modelRatio == 0.0)
  }

  method SettleTestQuota(prompt: int, completion: int, price: Price) returns (quota: int)
    ensures quota == Charge(prompt, completion, price)
  {
    quota := 0;
    if !price.usePrice {
      var completionQuota := RoundQuota(Finite(Times(completion, price.completionRatio)));
      quota := RoundQuota(Finite((prompt + completionQuota) as real));
      quota := RoundQuota(Finite(Times(quota, price.modelRatio)));
      if price.modelRatio != 0.0 && quota <= 0 {
        quota := 1;
      }
      return;
    }
    quota := FromFloat(Finite(price.modelPrice * QUOTA_PER_UNIT));
  }

  /** The charge by price: 500000 for one unit, a fraction cut off, whatever the tokens; clamped to the
      32-bit range, and never less for a higher price. */
  lemma PriceCharge(p: int, c: int, price: Price, higher: Price)
    requires price.usePrice && higher.usePrice && price.modelPrice <= higher.modelPrice
    ensures
      var exact, charge := price.modelPrice * 500000.0, Charge(p, c, price);
      && (0.0 <= exact <= 2147483647.0 ==> charge as real <= exact < charge as real + 1.0)
      && (-2147483648.0 <= exact <= 0.0 ==> charge as real - 1.0 < exact <= charge as real)
      && (exact > 2147483647.0 ==> charge == 2147483647)
      && (exact < -2147483648.0 ==> charge == -2147483648)
    ensures Charge(p, c, price) <= Charge(p, c, higher)
  {
    var x, y := price.modelPrice * 500000.0, higher.modelPrice * 500000.0;
    assert x <= y;
    TruncateMonotone(x, y);
    SaturateMonotone(x, y);
  }

  lemma TruncateMonotone(x: real, y: real)
    requires x <= y
    ensures Truncate(x) <= Truncate(y)
  {
  }

  lemma SaturateMonotone(x: real, y: real)
    requires x <= y
    ensures FromFloat(Finite(x)) <= FromFloat(Finite(y))
  {
    TruncateMonotone(x, y);
    SaturateRange(Finite(x));
    SaturateRange(Finite(y));
  }

  ghost predicate ByRatio(price: Price) {
    !price.usePrice && price.modelRatio >= 0.0 && price.completionRatio >= 0.0
  }

  lemma TimesMonotone(x: int, y: int, k: real)
    requires x <= y && 0.0 <= k
    ensures Times(x, k) <= Times(y, k)
  {
    assert (y - x) as real * k >= 0.0;
  }

  lemma TimesSign(x: int, k: real)
    requires 0 <= x && 0.0 <= k
    ensures Times(x, k) >= 0.0
  {
  }

  lemma TokensMonotone(p: int, q: int, x: real, y: real)
    requires 0 <= p <= q && 0.0 <= x <= y
    ensures 0 <= Tokens(p, x) <= Tokens(q, y)
  {
    RoundQuotaMonotone(0.0, x);
    RoundQuotaMonotone(x, y);
    var a, b := RoundQuota(Finite(x)), RoundQuota(Finite(y));
    RoundQuotaMonotone(0.0, (p + a) as real);
    RoundQuotaMonotone((p + a) as real, (q + b) as real);
  }

  lemma FlooredMonotone(x: real, y: real, free: bool)
    requires 0.0 <= x <= y
    ensures 0 <= Floored(x, free) <= Floored(y, free) <= MAX_QUOTA
    ensures !free ==> Floored(x, free) >= 1
  {
    RoundQuotaMonotone(0.0, x);
    RoundQuotaMonotone(x, y);
    SaturateRange(RoundFloat(Finite(y)));
  }

  /** More prompt or completion tokens never cost less; a charge is never negative nor above the
      32-bit maximum, and at least 1 unless the ratio is 0. */
  lemma ChargeMonotone(p: int, q: int, c: int, d: int, price: Price)
    requires ByRatio(price) && 0 <= p <= q && 0 <= c <= d
    ensures 0 <= Charge(p, c, price) <= Charge(q, d, price) <= 2147483647
    ensures price.modelRatio != 0.0 ==> Charge(p, c, price) >= 1
  {
    TimesSign(c, price.completionRatio);
    TimesMonotone(c, d, price.completionRatio);
    TokensMonotone(p, q, Times(c, price.completionRatio), Times(d, price.completionRatio));
    var a, b := TokenQuota(p, c, price), TokenQuota(q, d, price);
    TimesSign(a, price.modelRatio);
    TimesMonotone(a, b, price.modelRatio);
    FlooredMonotone(Times(a, price.modelRatio), Times(b, price.modelRatio), price.modelRatio == 0.0);
  }

  /** Nothing clamps, and the floor of 1 is not used. */
  predicate Unclamped(prompt: int, completion: int, price: Price) {
    var tokens := prompt + Round(Times(completion, price.completionRatio));
    && tokens <= MAX_QUOTA
    && var quota := Round(Times(tokens, price.modelRatio));
       quota <= MAX_QUOTA && (quota > 0 || price.modelRatio == 0.0)
  }

  lemma TokensExact(prompt: int, x: real)
    requires 0 <= prompt && 0.0 <= x && prompt + Round(x) <= MAX_QUOTA
    ensures Tokens(prompt, x) == prompt + Round(x) >= 0
  {
    RoundMonotone(0.0, x);
    RoundQuotaInRange(x);
    RoundInteger(prompt + Round(x));
    RoundQuotaInRange((prompt + Round(x)) as real);
  }

  lemma FlooredExact(x: real, free: bool)
    requires 0.0 <= x && Round(x) <= MAX_QUOTA && (Round(x) > 0 || free)
    ensures Floored(x, free) == Round(x)
  {
    RoundMonotone(0.0, x);
    RoundQuotaInRange(x);
  }

  /** An error of at most one half, scaled. */
  lemma ScaledError(e: real, k: real)
    requires -0.5 <= e <= 0.5 && 0.0 <= k
    ensures -0.5 * k <= e * k <= 0.5 * k
  {
    assert (0.5 - e) * k >= 0.0;
    assert (e + 0.5) * k >= 0.0;
  }

  lemma Distributes(a: real, b: real, k: real)
    ensures a * k - b * k == (a - b) * k
  {
  }

  /** The charge as two roundings, when nothing clamps. */
  lemma ChargeIsRound(prompt: int, completion: int, price: Price)
    requires ByRatio(price) && 0 <= prompt && 0 <= completion && Unclamped(prompt, completion, price)
    ensures
      var tokens := prompt + Round(Times(completion, price.completionRatio));
      Charge(prompt, completion, price) == Round(Times(tokens, price.modelRatio))
  {
    var x := Times(completion, price.completionRatio);
    TimesSign(completion, price.completionRatio);
    TokensExact(prompt, x);
    var tokens := prompt + Round(x);
    TimesSign(tokens, price.modelRatio);
    FlooredExact(Times(tokens, price.modelRatio), price.modelRatio == 0.0);
  }

  /** The charge before any rounding. */
  function ExactCharge(prompt: int, completionProduct: real, modelRatio: real): real {
    (prompt as real + completionProduct) * modelRatio
  }

  predicate Near(n: int, exact: real, bound: real) {
    -bound <= n as real - exact <= bound
  }

  lemma RoundedError(n: int, prompt: int, x: real, k: real)
    requires 0.0 <= k && n == Round(Times(prompt + Round(x), k))
    ensures Near(n, ExactCharge(prompt, x, k), (k + 1.0) / 2.0)
  {
    ProductError(prompt + Round(x), prompt as real + x, k);
    AddErrors(n, Times(prompt + Round(x), k), ExactCharge(prompt, x, k), 0.5 * k);
  }

  lemma AddErrors(n: int, y: real, exact: real, e: real)
    requires n == Round(y) && -e <= y - exact <= e
    ensures Near(n, exact, e + 0.5)
  {
  }

  /** The three roundings together cost at most (ModelRatio + 1) / 2. */
  lemma ChargeError(prompt: int, completion: int, price: Price)
    requires ByRatio(price) && 0 <= prompt && 0 <= completion && Unclamped(prompt, completion, price)
    ensures Near(Charge(prompt, completion, price),
                 ExactCharge(prompt, Times(completion, price.completionRatio), price.modelRatio),
                 (price.modelRatio + 1.0) / 2.0)
  {
    ChargeIsRound(prompt, completion, price);
    RoundedError(Charge(prompt, completion, price), prompt, Times(completion, price.completionRatio), price.modelRatio);
  }

  lemma ProductError(tokens: int, exact: real, k: real)
    requires -0.5 <= tokens as real - exact <= 0.5 && 0.0 <= k
    ensures -0.5 * k <= Times(tokens, k) - exact * k <= 0.5 * k
  {
    Distributes(tokens as real, exact, k);
    ScaledError(tokens as real - exact, k);
  }
}
