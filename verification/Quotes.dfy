/** Firm quotes: solving the free amount, storing it as text, and the fee read back from it. */
module Quotes {
  import opened Wrappers
  import opened Decimal
  import M = Money

  /** A requested expiry, as milliseconds if it parses as a date. */
  datatype Expiry = At(millis: int) | NoDate

  datatype Request = Request(sellTry: bool, sellAmount: Option<string>, buyAmount: Option<string>, expireAfter: Option<Expiry>)

  /** The native limits on stroops and on kurus, and the clocks of the native policy in seconds. */
  datatype Native = Native(maxAmount: nat, maxTryMinor: nat, policyValidUntil: nat, ledgerTime: nat)

  /**
   The readings of the clock, in milliseconds: when the requested expiry is judged, when the policy's end
   is, and when the quote is made out. The rate and the native configuration are awaited in between.
   */
  datatype Clock = Clock(asked: nat, checked: nat, issued: nat)

  datatype QuoteError =
    InvalidAmount | InvalidExpiry | Money(error: M.MoneyError) | QuoteLimits | PolicyExpired | QuoteNotFound

  datatype Result<+T> = Ok(value: T) | Err(error: QuoteError)

  /** Amounts in the smallest unit of each currency. */
  datatype Exchange = Exchange(sellTry: bool, sold: int, bought: int)

  function Lift(r: M.Result<int>): Result<int> {
    if r.Ok? then Ok(r.value) else Err(Money(r.error))
  }

  function Both(sellTry: bool, sold: Result<int>, bought: Result<int>): Result<Exchange> {
    if sold.Err? then Err(sold.error)
    else if bought.Err? then Err(bought.error)
    else Ok(Exchange(sellTry, sold.value, bought.value))
  }

  function ParseAmount(isTry: bool, s: string): Result<int> {
    Lift(M.ParseDecimal(s, if isTry then M.TRY_DECIMALS else M.USDC_DECIMALS))
  }

  /** The four modes: either currency sold, either side fixed; the free side is always rounded against the customer. */
  function Solve(request: Request, rate: int): Result<Exchange> {
    if request.sellAmount.None? == request.buyAmount.None? then Err(InvalidAmount)
    else if request.sellAmount.Some? then
      var sold := ParseAmount(request.sellTry, request.sellAmount.value);
      if sold.Err? then Err(sold.error)
      else Both(request.sellTry, sold,
                Lift(if request.sellTry then M.TryToUsdc(sold.value, rate) else M.UsdcToTry(sold.value, rate)))
    else
      var bought := ParseAmount(!request.sellTry, request.buyAmount.value);
      if bought.Err? then Err(bought.error)
      else Both(request.sellTry,
                Lift(if request.sellTry then M.UsdcToTryCeil(bought.value, rate) else M.TryToUsdcCeil(bought.value, rate)),
                bought)
  }

  function SideOf(sellTry: bool): M.Side {
    if sellTry then M.Buy else M.Sell
  }

  predicate Exceeds(x: Exchange, native: Option<Native>) {
    native.Some? && ((if x.sellTry then x.bought else x.sold) > native.value.maxAmount
                     || (if x.sellTry then x.sold else x.bought) > native.value.maxTryMinor)
  }

  /** The requested lifetime in seconds, kept between one minute and one hour; a quarter of an hour by default. */
  function Ttl(request: Request, now: nat): Result<int> {
    if request.expireAfter.None? then Ok(900)
    else if request.expireAfter.value.NoDate? then Err(InvalidExpiry)
    else
      var wanted := (request.expireAfter.value.millis - now) / 1000;
      if wanted <= 0 then Err(InvalidExpiry)
      else Ok(if wanted < 60 then 60 else if wanted > 3600 then 3600 else wanted)
  }

  /** No quote is issued at or after the end of the policy, by either clock. */
  predicate PolicyOver(native: Option<Native>, now: nat) {
    native.Some? && (native.value.policyValidUntil <= now / 1000 || native.value.policyValidUntil <= native.value.ledgerTime)
  }

  /** The exchange that a request is quoted at a mid rate and spread. */
  function Quote(request: Request, mid: int, bps: int, native: Option<Native>, clock: Clock): Result<Exchange> {
    if request.sellAmount.None? == request.buyAmount.None? then Err(InvalidAmount)
    else if Ttl(request, clock.asked).Err? then Err(InvalidExpiry)
    else
      var solved := Solve(request, M.ApplySpread(mid, bps, SideOf(request.sellTry)));
      if solved.Err? then solved
      else if solved.value.sold <= 0 || solved.value.bought <= 0 then Err(InvalidAmount)
      else if Exceeds(solved.value, native) then Err(QuoteLimits)
      else if PolicyOver(native, clock.checked) then Err(PolicyExpired)
      else solved
  }

  /** When an issued quote expires, in milliseconds. */
  function ExpiresAt(request: Request, native: Option<Native>, clock: Clock): int
    requires Ttl(request, clock.asked).Ok?
  {
    var wanted := clock.issued + Ttl(request, clock.asked).value * 1000;
    if native.Some? && native.value.policyValidUntil * 1000 < wanted then native.value.policyValidUntil * 1000 else wanted
  }

  /**
   An issued quote lasts at most an hour and never beyond the policy, and at least a minute unless the
   policy ends sooner. It is alive when made out unless the policy ended since it was checked, and it can
   outlive a requested expiry at least a minute off by no more than the time spent waiting.
   */
  lemma ExpiryIsSound(request: Request, mid: int, bps: int, native: Option<Native>, clock: Clock)
    requires Quote(request, mid, bps, native, clock).Ok? && clock.asked <= clock.checked <= clock.issued
    ensures Ttl(request, clock.asked).Ok?
    ensures clock.checked < ExpiresAt(request, native, clock) <= clock.issued + 3_600_000
    ensures clock.issued < ExpiresAt(request, native, clock)
            <==> native.None? || clock.issued < native.value.policyValidUntil * 1000
    ensures native.Some? ==> ExpiresAt(request, native, clock) <= native.value.policyValidUntil * 1000
    ensures ExpiresAt(request, native, clock) < clock.issued + 60_000 ==>
              native.Some? && ExpiresAt(request, native, clock) == native.value.policyValidUntil * 1000
    ensures request.expireAfter.Some? && request.expireAfter.value.millis >= clock.asked + 60_000 ==>
              ExpiresAt(request, native, clock) <= request.expireAfter.value.millis + (clock.issued - clock.asked)
    ensures request.expireAfter.Some? && request.expireAfter.value.millis <= clock.asked + 3_600_000 ==>
              || ExpiresAt(request, native, clock) > request.expireAfter.value.millis - 1000
              || (native.Some? && ExpiresAt(request, native, clock) == native.value.policyValidUntil * 1000)
    ensures request.expireAfter.None? ==>
              || ExpiresAt(request, native, clock) == clock.issued + 900_000
              || (native.Some? && ExpiresAt(request, native, clock) == native.value.policyValidUntil * 1000)
  {
    hide Solve, M.ApplySpread, Exceeds;
  }

  /**
   Exactly when a quote is issued: one amount is named and can be read, the requested expiry is a date at
   least a second off, the rate and both amounts are positive, each currency is within its own limit, and
   the policy is alive by both clocks.
   */
  lemma QuotedExactly(request: Request, mid: int, bps: int, native: Option<Native>, clock: Clock)
    ensures Quote(request, mid, bps, native, clock).Ok?
            <==> var rate := M.ApplySpread(mid, bps, if request.sellTry then M.Buy else M.Sell);
                 && request.sellAmount.Some? != request.buyAmount.Some?
                 && (request.expireAfter.Some? ==>
                       request.expireAfter.value.At? && request.expireAfter.value.millis >= clock.asked + 1000)
                 && (request.sellAmount.Some? ==> ParseAmount(request.sellTry, request.sellAmount.value).Ok?)
                 && (request.buyAmount.Some? ==> ParseAmount(!request.sellTry, request.buyAmount.value).Ok?)
                 && rate > 0
                 && Solve(request, rate).Ok? && Solve(request, rate).value.sold > 0 && Solve(request, rate).value.bought > 0
                 && (native.Some? ==>
                       var x, n := Solve(request, rate).value, native.value;
                       && (if request.sellTry then x.bought else x.sold) <= n.maxAmount
                       && (if request.sellTry then x.sold else x.bought) <= n.maxTryMinor
                       && clock.checked < n.policyValidUntil * 1000 && n.ledgerTime < n.policyValidUntil)
  {
    hide M.ParseDecimal, M.ApplySpread, M.TruncDiv, M.CeilDiv;
  }

  // -------------------------------------------------------------------- no free exchange

  /**
   The customer gives at least the mid-rate value of what they get: USDC times the rate against lira, each
   with the decimals in which it is written.
   */
  predicate Fair(x: Exchange, mid: int) {
    if x.sellTry then
      x.bought * mid * Pow10(M.TRY_DECIMALS) <= x.sold * Pow10(M.USDC_DECIMALS + M.RATE_DECIMALS)
    else
      x.bought * Pow10(M.USDC_DECIMALS + M.RATE_DECIMALS) <= x.sold * mid * Pow10(M.TRY_DECIMALS)
  }

  /** The same with the common factor cancelled, as the code computes. */
  predicate FairAtScale(x: Exchange, mid: int) {
    if x.sellTry then x.bought * mid <= x.sold * M.SCALE else x.bought * M.SCALE <= x.sold * mid
  }

  lemma FairIs(x: Exchange, mid: int)
    ensures Fair(x, mid) <==> FairAtScale(x, mid)
  {
    M.ScaleIs();
    M.InUnits(x.sold, Pow10(M.USDC_DECIMALS + M.RATE_DECIMALS), Pow10(M.TRY_DECIMALS));
    M.InUnits(x.bought, Pow10(M.USDC_DECIMALS + M.RATE_DECIMALS), Pow10(M.TRY_DECIMALS));
    hide Pow10;
  }

  lemma SolvedAtRate(request: Request, rate: int)
    requires Solve(request, rate).Ok?
    ensures rate > 0 && Fair(Solve(request, rate).value, rate)
    ensures Solve(request, rate).value.sellTry == request.sellTry
    ensures Solve(request, rate).value.sold >= 0 && Solve(request, rate).value.bought >= 0
  {
    hide M.ParseDecimal, M.TruncDiv, M.CeilDiv, Fair;
    var x := Solve(request, rate).value;
    assert rate > 0;
    FairIs(x, rate);
    if request.sellAmount.Some? {
      if request.sellTry {
        NonNegative(x.sold, M.SCALE);
        M.FloorMeans(x.sold * M.SCALE, rate, x.bought);
        M.FloorMeans(x.sold * M.SCALE, rate, 0);
      } else {
        NonNegative(x.sold, rate);
        M.FloorMeans(x.sold * rate, M.SCALE, x.bought);
        M.FloorMeans(x.sold * rate, M.SCALE, 0);
      }
    } else if request.sellTry {
      NonNegative(x.bought, rate);
      M.CeilMeans(x.bought * rate, M.SCALE, x.sold);
      CeilNonNegative(x.bought * rate, M.SCALE);
    } else {
      NonNegative(x.bought, M.SCALE);
      M.CeilMeans(x.bought * M.SCALE, rate, x.sold);
      CeilNonNegative(x.bought * M.SCALE, rate);
    }
  }

  lemma NonNegative(x: int, y: int)
    requires x >= 0 && y >= 0
    ensures x * y >= 0
  {
  }

  lemma CeilNonNegative(a: nat, b: int)
    requires b > 0
    ensures M.CeilDiv(a, b) >= 0
  {
  }

  lemma FairAtBetterRate(x: Exchange, rate: int, mid: int)
    requires Fair(x, rate) && x.sold >= 0 && x.bought >= 0
    requires if x.sellTry then mid <= rate else rate <= mid
    ensures Fair(x, mid)
  {
    hide Fair;
    FairIs(x, rate);
    FairIs(x, mid);
    if x.sellTry {
      MulMono(x.bought, mid, rate);
    } else {
      MulMono(x.sold, rate, mid);
    }
  }

  lemma MulMono(a: int, x: int, y: int)
    requires a >= 0 && x <= y
    ensures a * x <= a * y
  {
  }

  /**
   Rounding costs the customer less than one unit: with the sold amount fixed, one more unit bought
   would be unfair at the rate, and with the bought amount fixed, so would one unit less sold.
   */
  lemma RoundingIsTight(request: Request, rate: int)
    requires Solve(request, rate).Ok?
    ensures var x := Solve(request, rate).value;
            if request.sellAmount.Some? then !Fair(x.(bought := x.bought + 1), rate)
            else !Fair(x.(sold := x.sold - 1), rate)
  {
    hide M.ParseDecimal, M.TruncDiv, M.CeilDiv, Fair;
    SolvedAtRate(request, rate);
    var x := Solve(request, rate).value;
    FairIs(x.(bought := x.bought + 1), rate);
    FairIs(x.(sold := x.sold - 1), rate);
    if request.sellAmount.Some? {
      FloorTight(x.sold, if request.sellTry then M.SCALE else rate, if request.sellTry then rate else M.SCALE);
    } else {
      CeilTight(x.bought, if request.sellTry then rate else M.SCALE, if request.sellTry then M.SCALE else rate);
    }
  }

  lemma FloorTight(amount: int, up: int, down: int)
    requires amount >= 0 && up > 0 && down > 0
    ensures (M.TruncDiv(amount * up, down) + 1) * down > amount * up
  {
    hide M.TruncDiv;
    NonNegative(amount, up);
    M.FloorMeans(amount * up, down, M.TruncDiv(amount * up, down) + 1);
  }

  lemma CeilTight(amount: int, up: int, down: int)
    requires amount >= 0 && up > 0 && down > 0
    ensures (M.CeilDiv(amount * up, down) - 1) * down < amount * up
  {
    hide M.CeilDiv;
    NonNegative(amount, up);
    M.CeilMeans(amount * up, down, M.CeilDiv(amount * up, down) - 1);
  }

  /** What a decimal text names, in the smallest unit of a currency with this many decimals. */
  predicate Names(s: string, decimals: nat, amount: int) {
    && Digits(M.Whole(s) + M.Fraction(s))
    && amount * Pow10(|M.Fraction(s)|) == Value(M.Whole(s) + M.Fraction(s)) * Pow10(decimals)
  }

  lemma ParsedIsNamed(isTry: bool, s: string)
    requires ParseAmount(isTry, s).Ok?
    ensures Names(s, if isTry then M.TRY_DECIMALS else M.USDC_DECIMALS, ParseAmount(isTry, s).value)
  {
    hide M.ParseDecimal, M.Whole, M.Fraction, Value, Pow10;
    M.ParseMeaning(s, if isTry then M.TRY_DECIMALS else M.USDC_DECIMALS);
  }

  /** A limit is exceeded exactly when executing the exchange moves more lira, or more USDC, than it allows. */
  lemma LimitsByCurrency(x: Exchange, native: Option<Native>, h: Holdings)
    requires x.sold > 0 && x.bought > 0
    ensures Exceeds(x, native)
            <==> native.Some? && (M.Abs(Execute(h, x).kurus - h.kurus) > native.value.maxTryMinor
                                  || M.Abs(Execute(h, x).stroops - h.stroops) > native.value.maxAmount)
  {
  }

  /**
   A quote exchanges exactly the amount that the request names on its fixed side, and a positive amount
   on the other. Executing it moves no more than the native limits, lira by the lira limit and USDC by
   its own.
   */
  lemma FixedAmountIsKept(request: Request, mid: nat, bps: int, native: Option<Native>, clock: Clock, h: Holdings)
    requires Quote(request, mid, bps, native, clock).Ok?
    ensures var x := Quote(request, mid, bps, native, clock).value; var after := Execute(h, x);
            && x.sellTry == request.sellTry && x.sold > 0 && x.bought > 0
            && (request.sellAmount.Some? <==> request.buyAmount.None?)
            && (request.sellAmount.Some? ==>
                  Names(request.sellAmount.value, if request.sellTry then M.TRY_DECIMALS else M.USDC_DECIMALS, x.sold))
            && (request.buyAmount.Some? ==>
                  Names(request.buyAmount.value, if request.sellTry then M.USDC_DECIMALS else M.TRY_DECIMALS, x.bought))
            && (native.Some? ==>
                  && M.Abs(after.kurus - h.kurus) <= native.value.maxTryMinor
                  && M.Abs(after.stroops - h.stroops) <= native.value.maxAmount)
  {
    hide M.ApplySpread, M.TryToUsdc, M.UsdcToTry, M.TryToUsdcCeil, M.UsdcToTryCeil, ParseAmount, Names, Exceeds, M.Abs;
    LimitsByCurrency(Quote(request, mid, bps, native, clock).value, native, h);
    if request.sellAmount.Some? {
      ParsedIsNamed(request.sellTry, request.sellAmount.value);
    } else {
      ParsedIsNamed(!request.sellTry, request.buyAmount.value);
    }
  }

  /** Every quote at a spread that is not negative favours the anchor. */
  lemma QuoteIsFair(request: Request, mid: nat, bps: int, native: Option<Native>, clock: Clock)
    requires Quote(request, mid, bps, native, clock).Ok?
    ensures mid > 0
    ensures bps >= 0 ==> Fair(Quote(request, mid, bps, native, clock).value, mid)
  {
    hide M.ApplySpread, Fair, Solve;
    var rate := M.ApplySpread(mid, bps, SideOf(request.sellTry));
    ZeroMid(mid, bps, SideOf(request.sellTry));
    SolvedAtRate(request, rate);
    M.SpreadDirection(mid, bps);
    if bps >= 0 {
      FairAtBetterRate(Solve(request, rate).value, rate, mid);
    }
  }

  lemma ZeroMid(mid: nat, bps: int, side: M.Side)
    ensures mid == 0 ==> M.ApplySpread(mid, bps, side) == 0
  {
  }

  /** A customer's holdings, which may go negative: credit does not help either. */
  datatype Holdings = Holdings(kurus: int, stroops: int)

  /** What the holdings come to at the mid rate, in lira, with all the decimals of an amount of USDC and a rate. */
  function Worth(h: Holdings, mid: int): int {
    h.kurus * Pow10(M.USDC_DECIMALS + M.RATE_DECIMALS) + h.stroops * mid * Pow10(M.TRY_DECIMALS)
  }

  function Execute(h: Holdings, x: Exchange): Holdings {
    if x.sellTry then Holdings(h.kurus - x.sold, h.stroops + x.bought)
    else Holdings(h.kurus + x.bought, h.stroops - x.sold)
  }

  datatype Trade = Trade(request: Request, bps: int, native: Option<Native>, clock: Clock)

  function Execute1(h: Holdings, mid: nat, t: Trade): Holdings {
    var q := Quote(t.request, mid, t.bps, t.native, t.clock);
    if q.Ok? then Execute(h, q.value) else h
  }

  function ExecuteAll(h: Holdings, mid: nat, ts: seq<Trade>): Holdings
    decreases |ts|
  {
    if ts == [] then h else ExecuteAll(Execute1(h, mid, ts[0]), mid, ts[1..])
  }

  lemma FairLosesWorth(h: Holdings, x: Exchange, mid: int)
    requires Fair(x, mid)
    ensures Worth(Execute(h, x), mid) <= Worth(h, mid)
  {
    M.ScaleIs();
    M.InUnits(h.kurus, Pow10(M.USDC_DECIMALS + M.RATE_DECIMALS), Pow10(M.TRY_DECIMALS));
    M.InUnits(Execute(h, x).kurus, Pow10(M.USDC_DECIMALS + M.RATE_DECIMALS), Pow10(M.TRY_DECIMALS));
    FairIs(x, mid);
    hide Pow10, Fair;
    if x.sellTry {
      M.MulSum(mid, h.stroops, x.bought);
      Commute(h.stroops + x.bought, mid);
      Commute(h.stroops, mid);
      Commute(x.bought, mid);
    } else {
      M.MulSum(mid, h.stroops - x.sold, x.sold);
      Commute(h.stroops - x.sold, mid);
      Commute(h.stroops, mid);
      Commute(x.sold, mid);
    }
  }

  lemma Commute(a: int, b: int)
    ensures a * b == b * a
  {
  }

  /** No sequence of quotes at one mid rate, in any modes and at any spreads from zero up, creates worth. */
  lemma {:induction false} NoSequenceGains(h: Holdings, mid: nat, ts: seq<Trade>)
    requires forall i :: 0 <= i < |ts| ==> ts[i].bps >= 0
    ensures Worth(ExecuteAll(h, mid, ts), mid) <= Worth(h, mid)
    decreases |ts|
  {
    hide Quote, Worth, Execute, Fair;
    if ts != [] {
      var q := Quote(ts[0].request, mid, ts[0].bps, ts[0].native, ts[0].clock);
      if q.Ok? {
        QuoteIsFair(ts[0].request, mid, ts[0].bps, ts[0].native, ts[0].clock);
        FairLosesWorth(h, q.value, mid);
      }
      NoSequenceGains(Execute1(h, mid, ts[0]), mid, ts[1..]);
    }
  }

  /** The spread bound is exact: below zero, selling `rate` kurus gains, at every rate it yields. */
  lemma NegativeSpreadGains(mid: nat, bps: int)
    requires mid > 0 && bps < 0 && M.ApplySpread(mid, bps, M.Buy) > 0
    ensures var rate := M.ApplySpread(mid, bps, M.Buy);
            && M.TryToUsdc(rate, rate).Ok?
            && !Fair(Exchange(true, rate, M.TryToUsdc(rate, rate).value), mid)
  {
    hide M.ApplySpread, M.TruncDiv, Fair;
    var rate := M.ApplySpread(mid, bps, M.Buy);
    FairIs(Exchange(true, rate, M.TryToUsdc(rate, rate).value), mid);
    M.SpreadDirection(mid, bps);
    NonNegative(rate, M.SCALE);
    Commute(rate, M.SCALE);
    M.FloorMeans(rate * M.SCALE, rate, M.SCALE);
    StrictMono(rate, mid, M.SCALE);
    var bought := M.TryToUsdc(rate, rate).value;
    MulMono(mid, M.SCALE, bought);
    Commute(mid, bought);
    Commute(mid, M.SCALE);
  }

  /** What selling `kurus` at the buy rate of this spread exchanges. */
  function BuyAt(kurus: nat, mid: nat, bps: int): Exchange
    requires M.ApplySpread(mid, bps, M.Buy) > 0
  {
    Exchange(true, kurus, M.TryToUsdc(kurus, M.ApplySpread(mid, bps, M.Buy)).value)
  }

  /** Every purchase at the buy rate is fair at mid if and only if the spread is not negative. */
  lemma SpreadProtectsExactly(mid: nat, bps: int)
    requires mid > 0 && M.ApplySpread(mid, bps, M.Buy) > 0
    ensures (forall kurus: nat :: Fair(BuyAt(kurus, mid, bps), mid)) <==> bps >= 0
  {
    hide M.ApplySpread, M.TruncDiv, Fair;
    var rate := M.ApplySpread(mid, bps, M.Buy);
    if bps >= 0 {
      M.SpreadDirection(mid, bps);
      forall kurus: nat ensures Fair(BuyAt(kurus, mid, bps), mid) {
        BuyIsFairAtRate(kurus, rate);
        FairAtBetterRate(BuyAt(kurus, mid, bps), rate, mid);
      }
    } else {
      NegativeSpreadGains(mid, bps);
      assert !Fair(BuyAt(rate, mid, bps), mid);
    }
  }

  lemma BuyIsFairAtRate(kurus: nat, rate: int)
    requires rate > 0
    ensures var bought := M.TryToUsdc(kurus, rate).value; bought >= 0 && Fair(Exchange(true, kurus, bought), rate)
  {
    hide M.TruncDiv, Fair;
    FairIs(Exchange(true, kurus, M.TryToUsdc(kurus, rate).value), rate);
    NonNegative(kurus, M.SCALE);
    M.FloorMeans(kurus * M.SCALE, rate, M.TryToUsdc(kurus, rate).value);
    M.FloorMeans(kurus * M.SCALE, rate, 0);
  }

  lemma StrictMono(x: int, y: int, a: int)
    requires x < y && a > 0
    ensures x * a < y * a
  {
  }

  // --------------------------------------------------------------------------- the fee

  /** What the bought amount is worth at the mid rate, in the sold currency. */
  function AtMid(x: Exchange, mid: int): int
    requires mid > 0
  {
    if x.sellTry then M.UsdcToTry(x.bought, mid).value else M.TryToUsdc(x.bought, mid).value
  }

  /**
   Of any fair exchange, the sold amount is at least its worth at the mid rate, so the fee is their
   exact difference: sold minus fee is the mid price of what was bought, to within one unit.
   */
  lemma FeeIsNeverClamped(x: Exchange, mid: int)
    requires mid > 0 && x.bought >= 0 && Fair(x, mid)
    ensures AtMid(x, mid) <= x.sold
    ensures x.sellTry ==>
              AtMid(x, mid) * Pow10(M.USDC_DECIMALS + M.RATE_DECIMALS) <= x.bought * mid * Pow10(M.TRY_DECIMALS)
              < (AtMid(x, mid) + 1) * Pow10(M.USDC_DECIMALS + M.RATE_DECIMALS)
    ensures !x.sellTry ==>
              AtMid(x, mid) * mid * Pow10(M.TRY_DECIMALS) <= x.bought * Pow10(M.USDC_DECIMALS + M.RATE_DECIMALS)
              < (AtMid(x, mid) + 1) * mid * Pow10(M.TRY_DECIMALS)
  {
    M.ScaleIs();
    M.InUnits(AtMid(x, mid), Pow10(M.USDC_DECIMALS + M.RATE_DECIMALS), Pow10(M.TRY_DECIMALS));
    M.InUnits(AtMid(x, mid) + 1, Pow10(M.USDC_DECIMALS + M.RATE_DECIMALS), Pow10(M.TRY_DECIMALS));
    M.InUnits(x.bought, Pow10(M.USDC_DECIMALS + M.RATE_DECIMALS), Pow10(M.TRY_DECIMALS));
    FeeAtScale(x, mid);
    hide Pow10, Fair, AtMid, M.TruncDiv;
  }

  lemma FeeAtScale(x: Exchange, mid: int)
    requires mid > 0 && x.bought >= 0 && Fair(x, mid)
    ensures AtMid(x, mid) <= x.sold
    ensures x.sellTry ==> AtMid(x, mid) * M.SCALE <= x.bought * mid < (AtMid(x, mid) + 1) * M.SCALE
    ensures !x.sellTry ==> AtMid(x, mid) * mid <= x.bought * M.SCALE < (AtMid(x, mid) + 1) * mid
  {
    hide M.TruncDiv, Fair;
    FairIs(x, mid);
    if x.sellTry {
      NonNegative(x.bought, mid);
      M.FloorMeans(x.bought * mid, M.SCALE, AtMid(x, mid));
      M.FloorMeans(x.bought * mid, M.SCALE, AtMid(x, mid) + 1);
      M.FloorMeans(x.bought * mid, M.SCALE, x.sold + 1);
    } else {
      NonNegative(x.bought, M.SCALE);
      M.FloorMeans(x.bought * M.SCALE, mid, AtMid(x, mid));
      M.FloorMeans(x.bought * M.SCALE, mid, AtMid(x, mid) + 1);
      M.FloorMeans(x.bought * M.SCALE, mid, x.sold + 1);
      M.MulSum(mid, x.sold, 1);
      Commute(x.sold + 1, mid);
      Commute(x.sold, mid);
    }
  }

  // -------------------------------------------------------------------------- the store

  /** A quote as stored: amounts and rates as decimal text. */
  datatype Row = Row(sellTry: bool, rate: string, mid: string, source: string, destination: string, expiresAt: int)

  function FormatAmount(isTry: bool, value: int): string {
    M.FormatDecimal(value, if isTry then M.TRY_DECIMALS else M.USDC_DECIMALS)
  }

  function RowFor(x: Exchange, rate: int, mid: int, expiresAt: int): Row {
    Row(x.sellTry, M.FormatDecimal(rate, M.RATE_DECIMALS), M.FormatDecimal(mid, M.RATE_DECIMALS),
        FormatAmount(x.sellTry, x.sold), FormatAmount(!x.sellTry, x.bought), expiresAt)
  }

  /** What a stored row was made from. */
  datatype Origin = Origin(exchange: Exchange, mid: nat, bps: int)

  class QuoteBook {
    var rows: map<nat, Row>
    ghost var origins: map<nat, Origin>

    constructor ()
      ensures Valid() && rows == map[]
    {
      rows, origins := map[], map[];
    }

    /** Every stored row is the text of its exchange and its rates, fair at mid unless the spread was negative. */
    ghost predicate Valid()
      reads this
    {
      rows.Keys == origins.Keys && forall id :: id in rows ==> TextOf(rows[id], origins[id])
    }

    /** `createSepQuote`, from a fresh identifier. */
    method Create(id: nat, request: Request, mid: nat, bps: int, native: Option<Native>, clock: Clock) returns (r: Result<Exchange>)
      requires Valid() && id !in rows
      modifies this
      ensures Valid() && r == Quote(request, mid, bps, native, clock)
      ensures r.Err? ==> rows == old(rows) && origins == old(origins)
      ensures r.Ok? ==> origins == old(origins)[id := Origin(r.value, mid, bps)] && Ttl(request, clock.asked).Ok?
      ensures r.Ok? ==> rows == old(rows)[id := RowFor(r.value, M.ApplySpread(mid, bps, SideOf(request.sellTry)), mid,
                                                       ExpiresAt(request, native, clock))]
    {
      hide M.FormatDecimal, M.ApplySpread, Solve, Fair, Exceeds, PolicyOver, RowFor, TextOf, Ttl;
      if request.sellAmount.None? == request.buyAmount.None? {
        return Err(InvalidAmount);
      }
      var ttl := RequestedTtl(request, clock.asked);
      if ttl.Err? {
        return Err(ttl.error);
      }
      var rate := M.ApplySpread(mid, bps, if request.sellTry then M.Buy else M.Sell);
      var solved := SolveAmounts(request, rate);
      if solved.Err? {
        return solved;
      }
      var x := solved.value;
      if x.sold <= 0 || x.bought <= 0 {
        return Err(InvalidAmount);
      }
      if Exceeds(x, native) {
        return Err(QuoteLimits);
      }
      if PolicyOver(native, clock.checked) {
        return Err(PolicyExpired);
      }
      var expiresAt := clock.issued + ttl.value * 1000;
      if native.Some? && native.value.policyValidUntil * 1000 < expiresAt {
        expiresAt := native.value.policyValidUntil * 1000;
      }
      RowForText(request, mid, bps, native, clock, rate, expiresAt);
      rows := rows[id := RowFor(x, rate, mid, expiresAt)];
      origins := origins[id := Origin(x, mid, bps)];
      return Ok(x);
    }

    /**
     `readSepQuote`: everything is computed back from the stored text. The fee text denotes exactly the
     amount sold minus its worth at the mid rate, or nothing where that is negative, which it can only be
     if the spread was.
     */
    method ReadFee(id: nat) returns (r: Result<string>)
      requires Valid()
      ensures id !in rows ==> r == Err(QuoteNotFound)
      ensures id in rows ==>
                && r.Ok? && origins[id].mid > 0
                && var fee := origins[id].exchange.sold - AtMid(origins[id].exchange, origins[id].mid);
                && ParseAmount(rows[id].sellTry, r.value) == Ok(if fee > 0 then fee else 0)
                && (origins[id].bps >= 0 ==> fee >= 0)
    {
      hide M.FormatDecimal, Fair, ParseAmount, FormatAmount, AtMid, FeeText;
      if id !in rows {
        return Err(QuoteNotFound);
      }
      FeeTextIs(rows[id], origins[id].exchange, origins[id].mid);
      if origins[id].bps >= 0 {
        FeeNotNegative(origins[id].exchange, origins[id].mid);
      }
      return FeeText(rows[id]);
    }
  }

  predicate TextOf(row: Row, o: Origin) {
    && o.mid > 0 && o.exchange.sold > 0 && o.exchange.bought > 0
    && (o.bps >= 0 ==> Fair(o.exchange, o.mid))
    && row.sellTry == o.exchange.sellTry
    && row.rate == M.FormatDecimal(M.ApplySpread(o.mid, o.bps, if o.exchange.sellTry then M.Buy else M.Sell), M.RATE_DECIMALS)
    && row.mid == M.FormatDecimal(o.mid, M.RATE_DECIMALS)
    && row.source == FormatAmount(o.exchange.sellTry, o.exchange.sold)
    && row.destination == FormatAmount(!o.exchange.sellTry, o.exchange.bought)
  }

  lemma SameSide(request: Request, rate: int)
    ensures Solve(request, rate).Ok? ==> Solve(request, rate).value.sellTry == request.sellTry
  {
    hide M.ParseDecimal, M.TruncDiv, M.CeilDiv;
  }

  lemma RowForText(request: Request, mid: nat, bps: int, native: Option<Native>, clock: Clock, rate: int, expiresAt: int)
    requires Quote(request, mid, bps, native, clock).Ok?
    requires rate == M.ApplySpread(mid, bps, if request.sellTry then M.Buy else M.Sell)
    ensures var x := Quote(request, mid, bps, native, clock).value; TextOf(RowFor(x, rate, mid, expiresAt), Origin(x, mid, bps))
  {
    hide M.FormatDecimal, M.ApplySpread, Solve, Fair, Exceeds, FormatAmount;
    SameSide(request, rate);
    QuoteIsFair(request, mid, bps, native, clock);
  }

  /** The branch of `createSepQuote` that fixes the lifetime. */
  method RequestedTtl(request: Request, now: nat) returns (r: Result<int>)
    ensures r == Ttl(request, now)
    ensures r.Err? ==> r.error == InvalidExpiry
  {
    var ttl := 900;
    if request.expireAfter.Some? {
      if request.expireAfter.value.NoDate? {
        return Err(InvalidExpiry);
      }
      var wanted := (request.expireAfter.value.millis - now) / 1000;
      if wanted <= 0 {
        return Err(InvalidExpiry);
      }
      ttl := if wanted < 60 then 60 else if wanted > 3600 then 3600 else wanted;
    }
    return Ok(ttl);
  }

  /** The branches of `createSepQuote` that assign `sold` and `bought`. */
  method SolveAmounts(request: Request, rate: int) returns (r: Result<Exchange>)
    ensures r == Solve(request, rate)
  {
    hide M.ParseDecimal, M.TruncDiv, M.CeilDiv;
    if request.sellAmount.None? == request.buyAmount.None? {
      return Err(InvalidAmount);
    }
    var sold: Result<int>;
    var bought: Result<int>;
    if request.sellTry {
      if request.sellAmount.Some? {
        sold := ParseAmount(true, request.sellAmount.value);
        if sold.Err? { return Err(sold.error); }
        bought := Lift(M.TryToUsdc(sold.value, rate));
      } else {
        bought := ParseAmount(false, request.buyAmount.value);
        if bought.Err? { return Err(bought.error); }
        sold := Lift(M.UsdcToTryCeil(bought.value, rate));
      }
    } else if request.sellAmount.Some? {
      sold := ParseAmount(false, request.sellAmount.value);
      if sold.Err? { return Err(sold.error); }
      bought := Lift(M.UsdcToTry(sold.value, rate));
    } else {
      bought := ParseAmount(true, request.buyAmount.value);
      if bought.Err? { return Err(bought.error); }
      sold := Lift(M.TryToUsdcCeil(bought.value, rate));
    }
    return Both(request.sellTry, sold, bought);
  }

  /** The fee text of a stored row, computed from its texts alone. */
  function FeeText(row: Row): Result<string> {
    var mid := M.ParseDecimal(row.mid, M.RATE_DECIMALS);
    var sold, bought := ParseAmount(row.sellTry, row.source), ParseAmount(!row.sellTry, row.destination);
    if mid.Err? then Err(Money(mid.error))
    else if sold.Err? then Err(sold.error)
    else if bought.Err? then Err(bought.error)
    else
      var atMid := Lift(if row.sellTry then M.UsdcToTry(bought.value, mid.value) else M.TryToUsdc(bought.value, mid.value));
      if atMid.Err? then Err(atMid.error)
      else Ok(FormatAmount(row.sellTry, if sold.value > atMid.value then sold.value - atMid.value else 0))
  }

  lemma FeeTextIs(row: Row, x: Exchange, mid: int)
    requires mid > 0 && x.sold >= 0 && x.bought >= 0
    requires row.sellTry == x.sellTry && row.mid == M.FormatDecimal(mid, M.RATE_DECIMALS)
    requires row.source == FormatAmount(x.sellTry, x.sold) && row.destination == FormatAmount(!x.sellTry, x.bought)
    ensures FeeText(row).Ok?
    ensures var fee := x.sold - AtMid(x, mid); ParseAmount(row.sellTry, FeeText(row).value) == Ok(if fee > 0 then fee else 0)
  {
    hide M.FormatDecimal, M.ParseDecimal, M.UsdcToTry, M.TryToUsdc, Fair, ParseAmount, FormatAmount, AtMid;
    StoredText(x, mid);
    AtMidIs(x, mid);
    var fee := x.sold - AtMid(x, mid);
    FormattedAmount(x.sellTry, if fee > 0 then fee else 0);
  }

  lemma FeeNotNegative(x: Exchange, mid: int)
    requires mid > 0 && x.bought >= 0 && Fair(x, mid)
    ensures AtMid(x, mid) <= x.sold
  {
    hide AtMid, Fair;
    FeeIsNeverClamped(x, mid);
  }

  lemma AtMidIs(x: Exchange, mid: int)
    requires mid > 0
    ensures (if x.sellTry then M.UsdcToTry(x.bought, mid) else M.TryToUsdc(x.bought, mid)) == M.Ok(AtMid(x, mid))
  {
  }

  lemma FormattedAmount(isTry: bool, value: int)
    requires value >= 0
    ensures ParseAmount(isTry, FormatAmount(isTry, value)) == Ok(value)
  {
    hide M.FormatDecimal, M.ParseDecimal;
    M.ParseFormat(value, if isTry then M.TRY_DECIMALS else M.USDC_DECIMALS);
  }

  lemma StoredText(x: Exchange, mid: int)
    requires x.sold >= 0 && x.bought >= 0 && mid > 0
    ensures ParseAmount(x.sellTry, FormatAmount(x.sellTry, x.sold)) == Ok(x.sold)
    ensures ParseAmount(!x.sellTry, FormatAmount(!x.sellTry, x.bought)) == Ok(x.bought)
    ensures M.ParseDecimal(M.FormatDecimal(mid, M.RATE_DECIMALS), M.RATE_DECIMALS) == M.Ok(mid)
  {
    hide M.FormatDecimal, M.ParseDecimal;
    FormattedAmount(x.sellTry, x.sold);
    FormattedAmount(!x.sellTry, x.bought);
    M.ParseFormat(mid, M.RATE_DECIMALS);
  }
}
