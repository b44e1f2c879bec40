/** Amount normalisation: `BigDecimal.setScale(4, RoundingMode.HALF_UP)`
    followed by the strictly-positive check of `WalletService.normalizeAmount`. */
module Money {
  import opened Errors
  import opened Entities

  /** A `java.math.BigDecimal`: the exact value `unscaled × 10^(-scale)`.
      The scale may be negative (1E+3 is unscaled 1, scale -3). */
  datatype Decimal = Decimal(unscaled: int, scale: int)

  /** The ledger's fixed number of fractional digits. */
  const LedgerScale: nat := 4

  function Pow10(n: nat): (r: nat)
    ensures r >= 1
    ensures n > 0 ==> r % 2 == 0
  {
    if n == 0 then 1 else 10 * Pow10(n - 1)
  }

  /** `2u` lies in the half-open window of width `2q` around `2rq` that HALF_UP
      assigns to `r`: ties go away from zero, so the window is closed on the
      side facing zero. This pins `r` down uniquely. */
  ghost predicate RoundsHalfUpTo(u: int, q: nat, r: int)
    requires q > 0
  {
    var p := r * q;
    if u >= 0 then 2 * p - q <= 2 * u < 2 * p + q
    else 2 * p - q < 2 * u <= 2 * p + q
  }

  /** Rounding of a non-negative `m` to a multiple of an even `q`, half up. */
  function RoundMagnitude(m: nat, q: nat): (k: nat)
    requires q > 0 && q % 2 == 0
    ensures 2 * (k * q) - q <= 2 * m < 2 * (k * q) + q
  {
    var h := q / 2;
    var k := (m + h) / q;
    assert k * q <= m + h < k * q + q by { DivBounds(m + h, q); }
    k
  }

  lemma ProductSign(u: int, p: nat)
    requires p >= 1
    ensures (u * p > 0 ==> u > 0) && (u >= 0 ==> u * p >= 0)
  {
    if u < 0 {
      var m: nat := -u;
      assert u * p == -(m * p);
    }
  }

  lemma PositiveRounding(m: nat, q: nat, k: nat)
    requires q > 0
    requires 2 * (k * q) - q <= 2 * m < 2 * (k * q) + q
    ensures RoundsHalfUpTo(m, q, k)
    ensures k > 0 ==> m > 0
  {
    if k > 0 {
      var j: nat := k - 1;
      assert k * q == j * q + q;
      assert j * q >= 0;
    }
  }

  lemma NegativeRounding(m: nat, q: nat, k: nat)
    requires q > 0 && m > 0
    requires 2 * (k * q) - q <= 2 * m < 2 * (k * q) + q
    ensures RoundsHalfUpTo(-(m as int), q, -(k as int))
  {
    var r: int := -(k as int);
    assert r * q == -(k * q);
  }

  lemma DivBounds(a: nat, q: nat)
    requires q > 0
    ensures (a / q) * q <= a < (a / q) * q + q
  {
  }

  /** `d.setScale(4, HALF_UP)` counted in units of 0.0001. A raw amount with at
      most four fractional digits is scaled exactly; a finer one is rounded to
      the nearest unit, ties away from zero. */
  function ToUnits(d: Decimal): (r: Units)
    ensures d.scale <= LedgerScale ==> r == d.unscaled * Pow10(LedgerScale - d.scale)
    ensures d.scale > LedgerScale ==> RoundsHalfUpTo(d.unscaled, Pow10(d.scale - LedgerScale), r)
    ensures (r > 0 ==> d.unscaled > 0) && (d.unscaled >= 0 ==> r >= 0)
  {
    if d.scale <= LedgerScale then
      var p := Pow10(LedgerScale - d.scale);
      ProductSign(d.unscaled, p);
      d.unscaled * p
    else
      var q := Pow10(d.scale - LedgerScale);
      if d.unscaled >= 0 then
        var k := RoundMagnitude(d.unscaled, q);
        PositiveRounding(d.unscaled, q, k);
        k
      else
        var k := RoundMagnitude(-d.unscaled, q);
        NegativeRounding(-d.unscaled, q, k);
        -(k as int)
  }

  /** `normalizeAmount`: null is rejected, otherwise the amount is rounded to
      four digits and must then be strictly positive. */
  function NormalizeAmount(amount: Option<Decimal>): (r: Result<Units>)
    ensures amount.None? ==> r == Err(BadRequest(AmountRequired))
    ensures amount.Some? && ToUnits(amount.value) <= 0 ==> r == Err(BadRequest(AmountNotPositive))
    ensures r.Ok? <==> amount.Some? && ToUnits(amount.value) > 0
    ensures r.Ok? ==> r.value > 0 && r.value == ToUnits(amount.value) && amount.value.unscaled > 0
  {
    match amount
    case None => Err(BadRequest(AmountRequired))
    case Some(d) =>
      var scaled := ToUnits(d);
      if scaled <= 0 then Err(BadRequest(AmountNotPositive)) else Ok(scaled)
  }

  /** Nothing but the rounding rule decides the value: any `r` that HALF_UP
      assigns to `u` is the one `ToUnits` computes. */
  lemma RoundingIsUnique(u: int, q: nat, r1: int, r2: int)
    requires q > 0
    requires RoundsHalfUpTo(u, q, r1) && RoundsHalfUpTo(u, q, r2)
    ensures r1 == r2
  {
    if r1 != r2 {
      var lo, hi := if r1 < r2 then r1 else r2, if r1 < r2 then r2 else r1;
      ProductGap(lo, hi, q);
    }
  }

  lemma ProductGap(lo: int, hi: int, q: nat)
    requires lo < hi
    ensures hi * q - lo * q >= q
  {
    var d: nat := hi - lo - 1;
    assert hi == lo + d + 1;
    assert hi * q == lo * q + d * q + q;
    assert d * q >= 0;
  }

  /** Normalising an amount that already has four or fewer digits keeps its value. */
  lemma {:induction false} NormalizeKeepsExactAmounts(d: Decimal)
    requires 0 <= d.scale <= LedgerScale && d.unscaled > 0
    ensures NormalizeAmount(Some(d)) == Ok(d.unscaled * Pow10(LedgerScale - d.scale))
    ensures NormalizeAmount(Some(d)).value * Pow10(d.scale) == d.unscaled * Pow10(LedgerScale)
  {
    PowAdd(LedgerScale - d.scale, d.scale);
  }

  lemma {:induction false} PowAdd(a: nat, b: nat)
    ensures Pow10(a) * Pow10(b) == Pow10(a + b)
  {
    if a > 0 {
      PowAdd(a - 1, b);
      ScaleByTen(Pow10(a - 1), Pow10(b));
      assert Pow10(a + b) == 10 * Pow10(a - 1 + b);
    }
  }

  lemma ScaleByTen(x: int, y: int)
    ensures (10 * x) * y == 10 * (x * y)
  {
  }

  /** 10.00005 becomes 10.0001; 0.00001 and −10.00005 are rejected. */
  lemma NormalizeExamples()
    ensures NormalizeAmount(Some(Decimal(1000005, 5))) == Ok(100001)
    ensures NormalizeAmount(Some(Decimal(1, 5))) == Err(BadRequest(AmountNotPositive))
    ensures NormalizeAmount(Some(Decimal(-1000005, 5))) == Err(BadRequest(AmountNotPositive))
  {
    assert Pow10(1) == 10;
  }
}
