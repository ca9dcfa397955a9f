/** Fixed-point money: decimal strings, conversions at a rate, and the spread around the mid rate. */
module Money {
  import opened Decimal

  const TRY_DECIMALS: nat := 2
  const USDC_DECIMALS: nat := 7
  const RATE_DECIMALS: nat := 6

  datatype MoneyError = NotDecimal | TooPrecise | RateNotPositive

  datatype Result<+T> = Ok(value: T) | Err(error: MoneyError)

  // ------------------------------------------------------------------- decimal strings

  function FindDot(s: string): (i: nat)
    ensures i <= |s| && (i < |s| ==> s[i] == '.') && '.' !in s[..i]
  {
    if s == "" then 0
    else if s[0] == '.' then 0
    else
      assert s[..1 + FindDot(s[1..])] == [s[0]] + s[1..][..FindDot(s[1..])];
      1 + FindDot(s[1..])
  }

  function Whole(s: string): string { s[..FindDot(s)] }

  function Fraction(s: string): string {
    if FindDot(s) == |s| then "" else s[FindDot(s) + 1..]
  }

  /** Digits, optionally followed by a point and more digits. */
  predicate IsDecimal(s: string) {
    Numeral(Whole(s)) && (FindDot(s) == |s| || Numeral(Fraction(s)))
  }

  /** `parseDecimal` on a trimmed string */
  function ParseDecimal(s: string, decimals: nat): Result<nat> {
    if !IsDecimal(s) then Err(NotDecimal)
    else if |Fraction(s)| > decimals then Err(TooPrecise)
    else
      var frac := Fraction(s) + Zeros(decimals - |Fraction(s)|);
      ConcatDigits(Fraction(s), Zeros(decimals - |Fraction(s)|));
      Ok(Value(Whole(s)) * Pow10(decimals) + Value(frac))
  }

  function Quotient(n: nat, d: nat): nat
    requires d > 0
  {
    n / d
  }

  function Remainder(n: nat, d: nat): nat
    requires d > 0
  {
    n % d
  }

  lemma QuotientRemainder(n: nat, d: nat)
    requires d > 0
    ensures Quotient(n, d) * d + Remainder(n, d) == n && Remainder(n, d) < d
  {
  }

  function Abs(value: int): nat {
    if value < 0 then -value else value
  }

  /** The digits after the point, always exactly `decimals` of them. */
  function FractionText(value: nat, decimals: nat): string {
    PadStart(ToString(Remainder(value, Pow10(decimals))), decimals)
  }

  /** `formatDecimal` */
  function FormatDecimal(value: int, decimals: nat): string {
    (if value < 0 then "-" else "")
    + ToString(Quotient(Abs(value), Pow10(decimals)))
    + (if decimals > 0 then "." + FractionText(Abs(value), decimals) else "")
  }

  /** Digits before the first point are the whole part. */
  lemma {:induction false} FindDotAfter(a: string, b: string)
    requires '.' !in a && (b == "" || b[0] == '.')
    ensures FindDot(a + b) == |a|
  {
    if a == "" {
      assert a + b == b;
    } else {
      assert (a + b)[1..] == a[1..] + b && (a + b)[0] == a[0];
      FindDotAfter(a[1..], b);
    }
  }

  lemma DigitsHaveNoDot(s: string)
    requires Digits(s)
    ensures '.' !in s
  {
  }

  lemma FractionTextValue(value: nat, decimals: nat)
    requires decimals > 0
    ensures var f := FractionText(value, decimals);
            Numeral(f) && |f| == decimals && Value(f) == Remainder(value, Pow10(decimals))
  {
    QuotientRemainder(value, Pow10(decimals));
    ToStringLength(Remainder(value, Pow10(decimals)), decimals);
    hide Quotient, Remainder, Pow10, ToString, PadStart, Value;
  }

  /** Formatting a non-negative amount and parsing it back returns the amount. */
  lemma ParseFormat(value: nat, decimals: nat)
    ensures ParseDecimal(FormatDecimal(value, decimals), decimals) == Ok(value)
  {
    hide Quotient, Remainder, ToString, PadStart, Value, FractionText;
    var scale := Pow10(decimals);
    QuotientRemainder(value, scale);
    var whole := ToString(Quotient(value, scale));
    var s := FormatDecimal(value, decimals);
    DigitsHaveNoDot(whole);
    if decimals == 0 {
      assert s == whole + "";
      FindDotAfter(whole, "");
      assert Whole(s) == whole && Fraction(s) == "";
      assert Fraction(s) + Zeros(0) == "";
      assert Value("") == 0 by { EmptyValue(); }
    } else {
      FractionTextValue(value, decimals);
      var frac := FractionText(value, decimals);
      assert s == whole + ("." + frac);
      FindDotAfter(whole, "." + frac);
      assert Whole(s) == whole && Fraction(s) == frac;
      assert frac + Zeros(0) == frac;
    }
  }

  lemma EmptyValue()
    ensures Value("") == 0
  {
  }

  /** A formatted negative amount never parses. */
  lemma NegativeNeverParses(value: int, decimals: nat)
    requires value < 0
    ensures ParseDecimal(FormatDecimal(value, decimals), decimals) == Err(NotDecimal)
  {
    hide Quotient, Remainder, ToString, PadStart, Value, FractionText;
    var s := FormatDecimal(value, decimals);
    assert s[0] == '-';
    if FindDot(s) > 0 {
      assert Whole(s)[0] == '-';
    }
  }

  /** Different amounts have different texts. */
  lemma FormatInjective(a: int, b: int, decimals: nat)
    requires FormatDecimal(a, decimals) == FormatDecimal(b, decimals)
    ensures a == b
  {
    hide ParseDecimal, FormatDecimal;
    if a >= 0 { ParseFormat(a, decimals); } else { NegativeNeverParses(a, decimals); NegatedText(a, decimals); ParseFormat(-a, decimals); }
    if b >= 0 { ParseFormat(b, decimals); } else { NegativeNeverParses(b, decimals); NegatedText(b, decimals); ParseFormat(-b, decimals); }
  }

  lemma NegatedText(a: int, decimals: nat)
    requires a < 0
    ensures FormatDecimal(a, decimals) == "-" + FormatDecimal(-a, decimals)
    ensures FormatDecimal(a, decimals)[1..] == FormatDecimal(-a, decimals)
  {
    hide ToString, FractionText, Pow10, Quotient;
  }

  /** The parsed amount is the written number scaled by the decimals: no digit is dropped or added. */
  lemma ParseMeaning(s: string, decimals: nat)
    requires ParseDecimal(s, decimals).Ok?
    ensures Digits(Whole(s) + Fraction(s))
    ensures ParseDecimal(s, decimals).value * Pow10(|Fraction(s)|) == Value(Whole(s) + Fraction(s)) * Pow10(decimals)
  {
    var w, f, rest := Whole(s), Fraction(s), decimals - |Fraction(s)|;
    ConcatValue(w, f);
    ConcatValue(f, Zeros(rest));
    Pow10Sum(|f|, rest);
    hide Value, Pow10, Whole, Fraction, IsDecimal, Zeros;
    ScaleBoth(Value(w), Value(f), Pow10(|f|), Pow10(rest), Pow10(decimals));
  }

  lemma ScaleBoth(w: nat, f: nat, p: nat, q: nat, d: nat)
    requires d == p * q
    ensures (w * d + f * q) * p == (w * p + f) * d
  {
    assert w * d * p == w * p * d;
    assert f * q * p == f * (p * q);
  }

  /** Exactly the digit texts with at most one inner point and no more than `decimals` digits after it are read. */
  lemma ParsesExactly(s: string, decimals: nat)
    ensures ParseDecimal(s, decimals).Ok?
            <==> || Numeral(s)
                 || exists i :: 0 <= i < |s| <= i + 1 + decimals && s[i] == '.' && Numeral(s[..i]) && Numeral(s[i + 1..])
    ensures ParseDecimal(s, decimals) == Err(TooPrecise)
            <==> exists i :: 0 <= i && i + 1 + decimals < |s| && s[i] == '.' && Numeral(s[..i]) && Numeral(s[i + 1..])
  {
    hide Value, Pow10, FindDot;
    if Numeral(s) {
      WholeUnits(s, decimals);
    }
    forall i | 0 <= i < |s| && s[i] == '.' && Numeral(s[..i]) ensures FindDot(s) == i {
      DigitsHaveNoDot(s[..i]);
      assert s[..i] + s[i..] == s;
      FindDotAfter(s[..i], s[i..]);
    }
    if FindDot(s) == |s| {
      assert s[..|s|] == s;
    }
  }

  lemma {:induction false} NoLeadingZero(n: nat)
    ensures ToString(n)[0] == '0' <==> n == 0
    ensures n == 0 ==> ToString(n) == "0"
  {
    if n >= 10 {
      NoLeadingZero(n / 10);
      assert ToString(n) == Appended(ToString(n / 10), n % 10);
    }
  }

  /** A formatted amount has no idle zero in front and all its decimals behind the point. */
  lemma FormatShape(value: nat, decimals: nat)
    ensures var s := FormatDecimal(value, decimals);
            && Numeral(Whole(s)) && (Whole(s)[0] == '0' ==> Whole(s) == "0")
            && Digits(Fraction(s)) && |Fraction(s)| == decimals && |s| == |Whole(s)| + (if decimals > 0 then 1 + decimals else 0)
  {
    hide Quotient, Remainder, ToString, PadStart, Value, FractionText, Pow10;
    var whole := ToString(Quotient(value, Pow10(decimals)));
    NoLeadingZero(Quotient(value, Pow10(decimals)));
    var s := FormatDecimal(value, decimals);
    DigitsHaveNoDot(whole);
    if decimals == 0 {
      assert s == whole + "";
      FindDotAfter(whole, "");
    } else {
      FractionTextValue(value, decimals);
      var frac := FractionText(value, decimals);
      assert s == whole + ("." + frac);
      FindDotAfter(whole, "." + frac);
    }
  }

  // ----------------------------------------------------------------------- conversions

  /** 10^(7-2+6): kurus times this, over the rate, is stroops (`ScaleIs`). */
  const SCALE: nat := 100_000_000_000

  /** Division of the source's integers: toward zero. */
  function TruncDiv(a: int, b: int): int
    requires b > 0
  {
    if a >= 0 then a / b else -(-a / b)
  }

  function CeilDiv(a: int, b: int): int
    requires b > 0
  {
    TruncDiv(a + b - 1, b)
  }

  function TryToUsdc(kurus: int, rate: int): Result<int> {
    if rate <= 0 then Err(RateNotPositive) else Ok(TruncDiv(kurus * SCALE, rate))
  }

  function UsdcToTry(stroops: int, rate: int): Result<int> {
    if rate <= 0 then Err(RateNotPositive) else Ok(TruncDiv(stroops * rate, SCALE))
  }

  function TryToUsdcCeil(kurus: int, rate: int): Result<int> {
    if rate <= 0 then Err(RateNotPositive) else Ok(CeilDiv(kurus * SCALE, rate))
  }

  function UsdcToTryCeil(stroops: int, rate: int): Result<int> {
    if rate <= 0 then Err(RateNotPositive) else Ok(CeilDiv(stroops * rate, SCALE))
  }

  lemma FloorMeans(a: nat, b: int, k: int)
    requires b > 0
    ensures TruncDiv(a, b) >= k <==> a >= k * b
  {
    if a / b >= k {
      MulLe(k, a / b, b);
    } else {
      MulLe(a / b + 1, k, b);
    }
  }

  lemma CeilMeans(a: nat, b: int, k: int)
    requires b > 0
    ensures CeilDiv(a, b) <= k <==> a <= k * b
  {
    FloorMeans(a + b - 1, b, k + 1);
    assert (k + 1) * b == k * b + b;
  }

  lemma MulLe(x: int, y: int, b: int)
    requires x <= y && b > 0
    ensures x * b <= y * b
  {
  }

  lemma ScaleIs()
    ensures SCALE == Pow10(USDC_DECIMALS - TRY_DECIMALS + RATE_DECIMALS)
    ensures SCALE * Pow10(TRY_DECIMALS) == Pow10(USDC_DECIMALS + RATE_DECIMALS) && Pow10(TRY_DECIMALS) == 100
  {
    assert Pow10(2) == 100 && Pow10(4) == 100 * Pow10(2) && Pow10(6) == 100 * Pow10(4);
    assert Pow10(8) == 100 * Pow10(6) && Pow10(10) == 100 * Pow10(8) && Pow10(11) == 10 * Pow10(10);
    Pow10Sum(11, 2);
  }

  /**
   The conversions in units: an amount of USDC times the rate against an amount of lira, each taken with
   the decimals in which it is written. Selling gives the greatest amount, and buying takes the least
   amount, for which the customer does not gain.
   */
  lemma ConversionsInUnits(kurus: nat, stroops: nat, rate: int)
    requires rate > 0
    ensures stroops <= TryToUsdc(kurus, rate).value
            <==> stroops * rate * Pow10(TRY_DECIMALS) <= kurus * Pow10(USDC_DECIMALS + RATE_DECIMALS)
    ensures TryToUsdcCeil(kurus, rate).value <= stroops
            <==> kurus * Pow10(USDC_DECIMALS + RATE_DECIMALS) <= stroops * rate * Pow10(TRY_DECIMALS)
    ensures kurus <= UsdcToTry(stroops, rate).value
            <==> kurus * Pow10(USDC_DECIMALS + RATE_DECIMALS) <= stroops * rate * Pow10(TRY_DECIMALS)
    ensures UsdcToTryCeil(stroops, rate).value <= kurus
            <==> stroops * rate * Pow10(TRY_DECIMALS) <= kurus * Pow10(USDC_DECIMALS + RATE_DECIMALS)
  {
    ScaleIs();
    FloorMeans(kurus * SCALE, rate, stroops);
    CeilMeans(kurus * SCALE, rate, stroops);
    MulSign(rate, stroops);
    FloorMeans(stroops * rate, SCALE, kurus);
    CeilMeans(stroops * rate, SCALE, kurus);
    InUnits(kurus, Pow10(USDC_DECIMALS + RATE_DECIMALS), Pow10(TRY_DECIMALS));
    hide TruncDiv, CeilDiv, Pow10;
  }

  lemma InUnits(kurus: int, units: int, hundred: int)
    requires units == SCALE * hundred && hundred == 100
    ensures kurus * units == (kurus * SCALE) * 100
  {
  }

  /** A text without a point is that many whole units. */
  lemma WholeUnits(s: string, decimals: nat)
    requires Numeral(s)
    ensures ParseDecimal(s, decimals) == Ok(Value(s) * Pow10(decimals))
  {
    hide Value, Pow10, FindDot, Digits;
    DigitsHaveNoDot(s);
    FindDotAfter(s, "");
    assert s + "" == s && s[..|s|] == s;
    assert "" + Zeros(decimals) == Zeros(decimals);
  }

  lemma OneDigit()
    ensures Numeral("1") && Value("1") == 1
  {
    assert "1"[..0] == "";
  }

  /** One lira is a hundred kurus, one USDC ten million stroops, and at rate r it yields r in whole kurus. */
  lemma UnitPrices(rate: int)
    requires rate > 0
    ensures ParseDecimal("1", TRY_DECIMALS) == Ok(100) && ParseDecimal("1", USDC_DECIMALS) == Ok(10_000_000)
    ensures ParseDecimal("1", RATE_DECIMALS) == Ok(1_000_000)
    ensures UsdcToTry(10_000_000, rate) == Ok(rate / 10_000)
  {
    hide ParseDecimal, Value, Digits;
    OneDigit();
    WholeUnits("1", TRY_DECIMALS);
    WholeUnits("1", USDC_DECIMALS);
    WholeUnits("1", RATE_DECIMALS);
    assert Pow10(1) == 10 * Pow10(0);
    assert Pow10(2) == 100 && Pow10(4) == 100 * Pow10(2) && Pow10(6) == 100 * Pow10(4) && Pow10(7) == 10 * Pow10(6);
  }

  /**
   Fixing the destination is the exact inverse of fixing the source: an amount of USDC buys at least
   k kurus exactly when it is at least the ceiling quote for k.
   */
  lemma UsdcBuysAtLeast(stroops: nat, kurus: nat, rate: int)
    requires rate > 0
    ensures UsdcToTry(stroops, rate).value >= kurus <==> stroops >= TryToUsdcCeil(kurus, rate).value
  {
    FloorMeans(stroops * rate, SCALE, kurus);
    CeilMeans(kurus * SCALE, rate, stroops);
  }

  /** And an amount of USDC costs at most k kurus exactly when it is at most what k kurus buys. */
  lemma UsdcCostsAtMost(stroops: nat, kurus: nat, rate: int)
    requires rate > 0
    ensures UsdcToTryCeil(stroops, rate).value <= kurus <==> stroops <= TryToUsdc(kurus, rate).value
  {
    CeilMeans(stroops * rate, SCALE, kurus);
    FloorMeans(kurus * SCALE, rate, stroops);
  }

  /** The first law above, for any integers. */
  predicate BuysLaw(stroops: int, kurus: int, rate: int)
    requires rate > 0
  {
    UsdcToTry(stroops, rate).value >= kurus <==> stroops >= TryToUsdcCeil(kurus, rate).value
  }

  /** A negative amount truncates up to minus the floor of its size. */
  lemma NegativeYield(size: int, m: int, rate: int)
    requires size > 0 && rate > 0 && m >= 0
    ensures UsdcToTry(-size, rate).value >= -m <==> size * rate < (m + 1) * SCALE
  {
    hide TruncDiv;
    MulMinus(size, rate);
    MulSign(rate, size);
    NegativeTrunc(size * rate, SCALE);
    FloorMeans(size * rate, SCALE, m + 1);
  }

  lemma MulMinus(x: int, y: int)
    ensures (-x) * y == -(x * y)
  {
  }

  lemma NegativeTrunc(a: int, b: int)
    requires a >= 0 && b > 0
    ensures TruncDiv(-a, b) == -TruncDiv(a, b)
  {
  }

  lemma NegativeCost(size: int, m: int, rate: int)
    requires size > 0 && rate > 0 && m >= 0
    ensures -size >= TryToUsdcCeil(-m, rate).value <==> (size + 1) * rate <= m * SCALE + 1
  {
    hide TruncDiv;
    MulSum(rate, size, 1);
    var a := -(m * SCALE) + rate - 1;
    if a >= 0 {
      FloorMeans(a, rate, 0);
      FloorMeans(a, rate, 1);
      MulLe(1, size, rate);
    } else {
      NegativeTrunc(-a, rate);
      FloorMeans(-a, rate, size);
    }
  }

  lemma LawHoldsForAmounts(stroops: nat, kurus: int, rate: int)
    requires rate > 0
    ensures BuysLaw(stroops, kurus, rate)
  {
    if kurus >= 0 {
      UsdcBuysAtLeast(stroops, kurus, rate);
    } else {
      hide TruncDiv;
      MulSign(rate, stroops);
      FloorMeans(stroops * rate, SCALE, 0);
      NegativeCeil(kurus, rate);
    }
  }

  lemma NegativeCeil(kurus: int, rate: int)
    requires kurus <= 0 && rate > 0
    ensures TryToUsdcCeil(kurus, rate).value <= 0
  {
    hide TruncDiv;
    var a := kurus * SCALE + rate - 1;
    if a >= 0 {
      FloorMeans(a, rate, 1);
    } else {
      NegativeTrunc(-a, rate);
      FloorMeans(-a, rate, 0);
    }
  }

  lemma LawHoldsForGains(size: int, kurus: int, rate: int)
    requires size > 0 && rate > 0 && kurus > 0
    ensures BuysLaw(-size, kurus, rate)
  {
    hide TruncDiv;
    NegativeYield(size, 0, rate);
    MulMinus(size, rate);
    MulSign(rate, size);
    NegativeTrunc(size * rate, SCALE);
    FloorMeans(size * rate, SCALE, 0);
    CeilMeans(kurus * SCALE, rate, 0);
  }

  /**
   Over all integers the first law holds for an amount, whatever the kurus, if and only if the amount is
   not negative; the one exception is the smallest rate, where whole multiples of 10^11 pass as well.
   */
  lemma BuysLawExactly(stroops: int, rate: int)
    requires rate > 0
    ensures (forall kurus :: BuysLaw(stroops, kurus, rate)) <==> stroops >= 0 || (rate == 1 && stroops % SCALE == 0)
  {
    hide BuysLaw;
    if stroops >= 0 {
      forall kurus ensures BuysLaw(stroops, kurus, rate) { LawHoldsForAmounts(stroops, kurus, rate); }
    } else {
      var size := -stroops;
      MulSign(rate, size);
      var m := (size * rate) / SCALE;
      if rate == 1 && stroops % SCALE == 0 {
        assert size % SCALE == 0;
        forall kurus ensures BuysLaw(stroops, kurus, rate) { LawAtMultiples(size, kurus); }
      } else {
        LawFails(size, m, rate);
      }
    }
  }

  lemma LawFails(size: int, m: int, rate: int)
    requires size > 0 && rate > 0 && m == (size * rate) / SCALE
    requires rate > 1 || size % SCALE != 0
    ensures !BuysLaw(-size, -m, rate)
  {
    NegativeYield(size, m, rate);
    NegativeCost(size, m, rate);
    MulSum(rate, size, 1);
    hide UsdcToTry, TryToUsdcCeil;
    assert m * SCALE <= size * rate < (m + 1) * SCALE;
    if rate == 1 {
      assert m * SCALE != size;
    }
  }

  lemma LawAtMultiples(size: int, kurus: int)
    requires size > 0 && size % SCALE == 0
    ensures BuysLaw(-size, kurus, 1)
  {
    if kurus > 0 {
      LawHoldsForGains(size, kurus, 1);
    } else {
      NegativeYield(size, -kurus, 1);
      NegativeCost(size, -kurus, 1);
      hide UsdcToTry, TryToUsdcCeil;
      var q := size / SCALE;
      assert size == q * SCALE;
    }
  }

  // ---------------------------------------------------------------------------- spread

  datatype Side = Buy | Sell

  /** `applySpread` for a spread already rounded to whole basis points. */
  function ApplySpread(mid: int, bps: int, side: Side): int {
    if side.Buy? then TruncDiv(mid * (10000 + bps), 10000) else TruncDiv(mid * (10000 - bps), 10000)
  }

  /**
   A spread that is not negative puts the buy rate at or above mid and the sell rate at or below it;
   a negative one puts the buy rate below mid.
   */
  lemma SpreadDirection(mid: nat, bps: int)
    requires mid > 0
    ensures bps >= 0 ==> ApplySpread(mid, bps, Buy) >= mid >= ApplySpread(mid, bps, Sell)
    ensures bps < 0 ==> ApplySpread(mid, bps, Buy) < mid
  {
    hide TruncDiv;
    Expand(mid, bps);
    TruncBounds(mid * (10000 + bps), 10000, mid);
    TruncBounds(mid * (10000 - bps), 10000, mid + 1);
  }

  /** The rates are mid times one plus or minus the spread in ten-thousandths, rounded down to the last digit. */
  lemma SpreadSize(mid: nat, bps: int)
    ensures bps >= -10000 ==>
              ApplySpread(mid, bps, Buy) * 10000 <= mid * (10000 + bps) < (ApplySpread(mid, bps, Buy) + 1) * 10000
    ensures bps <= 10000 ==>
              ApplySpread(mid, bps, Sell) * 10000 <= mid * (10000 - bps) < (ApplySpread(mid, bps, Sell) + 1) * 10000
  {
    if mid > 0 {
      MulSign(mid, 10000 + bps);
      MulSign(mid, 10000 - bps);
    }
  }

  lemma TruncBounds(a: int, b: int, k: nat)
    requires b > 0 && k > 0
    ensures TruncDiv(a, b) >= k <==> a >= k * b
  {
    if a >= 0 {
      FloorMeans(a, b, k);
    } else {
      MulSign(b, k);
    }
  }

  lemma Expand(mid: int, bps: int)
    requires mid > 0
    ensures mid * (10000 + bps) == 10000 * mid + mid * bps && mid * (10000 - bps) == 10000 * mid - mid * bps
    ensures mid * bps >= 0 <==> bps >= 0
  {
    MulSum(mid, 10000, bps);
    MulSum(mid, 10000 - bps, bps);
    MulSign(mid, bps);
  }

  lemma MulSum(x: int, a: int, b: int)
    ensures x * (a + b) == x * a + x * b
  {
  }

  lemma MulSign(x: int, y: int)
    requires x > 0
    ensures x * y >= 0 <==> y >= 0
  {
  }
}
