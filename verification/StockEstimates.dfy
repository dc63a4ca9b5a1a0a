/** What the monthly report projects from a month's use: how many days the balance lasts and what to buy.

    Quantities are whole hundredths. The daily rate and everything computed from it are 28-digit decimals. */
module StockEstimates {
  import opened Decimals

  const COVER_DAYS: nat := 30

  /** Days of the month that have passed. */
  type Days = d: int | 1 <= d <= 31 witness 1

  /** A hundred times what a quantity column holds. */
  const LARGEST: nat := 10000000000000000

  function Rate(used: nat, elapsed: Days): (rate: nat)
    requires used > 0
    ensures rate > 0
  {
    RateIsNear(used, elapsed);
    Quotient28(used * CENT, elapsed)
  }

  /** Use of COVER_DAYS at the rate, less what is left. */
  function Shortfall(closing: int, used: nat, elapsed: Days): int
    requires used > 0
  {
    Round28(Round28(Rate(used, elapsed) * COVER_DAYS) - closing * CENT)
  }

  function DoubledShortfall(closing: int, used: nat, elapsed: Days): int
    requires used > 0
  {
    Round28(Shortfall(closing, used, elapsed) * 2)
  }

  /** What to buy, in half units. */
  function Suggested(closing: int, used: nat, elapsed: Days): int
    requires used > 0
  {
    if Shortfall(closing, used, elapsed) > 0 then CeilingDiv(DoubledShortfall(closing, used, elapsed), ONE) * 50 else 0
  }

  function DaysAtRate(closing: nat, used: nat, elapsed: Days): nat
    requires used > 0
  {
    Quotient28(closing * CENT * ONE, Rate(used, elapsed))
  }

  /** Whole days the balance lasts. */
  function DaysLeft(closing: int, used: nat, elapsed: Days): int
    requires used > 0
  {
    if closing > 0 then DaysAtRate(closing, used, elapsed) / ONE else 0
  }

  // ---- what the numbers should be ----

  /** A purchase covers the month to come: with it, the balance is COVER_DAYS of the month's use. */
  predicate Covers(purchase: int, closing: int, used: nat, elapsed: Days) {
    (closing + purchase) * elapsed >= used * COVER_DAYS
  }

  /** The least number of half units that covers. */
  function LeastPurchase(closing: int, used: nat, elapsed: Days): int {
    var missing := used * COVER_DAYS - closing * elapsed;
    if missing > 0 then CeilingDiv(missing, 50 * elapsed) * 50 else 0
  }

  lemma CeilingTimes(n: int, m: nat, product: int)
    requires m >= 1 && product == CeilingDiv(n, m) * m
    ensures n <= product < n + m
  {
    var q, r := n / m, n % m;
    assert n == q * m + r;
    assert (q + 1) * m == q * m + m;
  }

  lemma LeastPurchaseIsLeast(closing: int, used: nat, elapsed: Days)
    ensures var p := LeastPurchase(closing, used, elapsed);
            && p >= 0 && p % 50 == 0 && Covers(p, closing, used, elapsed)
            && (p > 0 ==> !Covers(p - 50, closing, used, elapsed))
  {
    var missing, m := used * COVER_DAYS - closing * elapsed, 50 * elapsed;
    if missing > 0 {
      var k := CeilingDiv(missing, m);
      CeilingTimes(missing, m, k * m);
      assert (closing + k * 50) * elapsed == closing * elapsed + k * m;
      assert (closing + k * 50 - 50) * elapsed == closing * elapsed + k * m - m;
      assert k >= 0 by {
        assert k * m >= missing;
      }
    }
  }

  // ---- how far the decimals are off ----

  lemma RateIsNear(used: nat, elapsed: Days)
    requires used > 0
    ensures Within(Quotient28(used * CENT, elapsed) * elapsed, used * CENT, used * 100000000000)
    ensures Quotient28(used * CENT, elapsed) > 0
  {
    Quotient28IsNear(used * CENT, elapsed);
  }

  lemma RateIsBounded(rate: nat, elapsed: Days, product: int)
    requires product == rate * elapsed
    ensures rate <= product
  {
  }

  const BIG: nat := 2000000000000000000000000000000000000000000000000000000

  const SLIP: nat := 1000000000000000000000000000000

  /** One rounding of an amount of the size met here. */
  lemma RoundingSlips(v: int, rounded: int)
    requires rounded == Round28(v) && -(100 * BIG) <= v <= 100 * BIG
    ensures Within(10 * rounded, 10 * v, SLIP)
  {
    Round28IsNear(v);
  }

  lemma SlipsAddUp(needed: int, owed: int, left: int, shortfall: int, doubled: int)
    requires Within(10 * owed, 10 * needed, SLIP)
    requires Within(10 * shortfall, 10 * (owed - left), SLIP)
    requires Within(10 * doubled, 10 * (2 * shortfall), SLIP)
    ensures Within(doubled, 2 * (needed - left), SLIP)
  {
  }

  lemma DoubledIsNear(rate: nat, owed: int, shortfall: int, doubled: int, closing: nat)
    requires rate <= BIG && closing <= LARGEST
    requires owed == Round28(rate * COVER_DAYS)
    requires shortfall == Round28(owed - closing * CENT) && doubled == Round28(shortfall * 2)
    ensures Within(doubled, 2 * (rate * COVER_DAYS - closing * CENT), SLIP)
  {
    RoundingSlips(rate * COVER_DAYS, owed);
    RoundingSlips(owed - closing * CENT, shortfall);
    RoundingSlips(shortfall * 2, doubled);
    SlipsAddUp(rate * COVER_DAYS, owed, closing * CENT, shortfall, doubled);
  }

  lemma ScaleError(a: int, b: int, e: Days, left: int, right: int)
    requires Within(a, b, SLIP) && left == a * e && right == b * e
    ensures Within(left, right, 31 * SLIP)
  {
    assert (a - b) * e == left - right;
    ScaleDifference(a - b, e, left - right);
  }

  lemma ScaleDifference(x: int, e: Days, product: int)
    requires -(SLIP as int) <= x <= SLIP && product == x * e
    ensures -31 * SLIP <= product <= 31 * SLIP
  {
  }

  lemma DoubledShortfallSlips(closing: nat, used: nat, elapsed: Days, rate: nat, doubled: int)
    requires 0 < used && closing <= LARGEST && rate == Rate(used, elapsed) <= BIG
    requires doubled == DoubledShortfall(closing, used, elapsed)
    ensures Within(doubled, 2 * (rate * COVER_DAYS - closing * CENT), SLIP)
  {
    DoubledIsNear(rate, Round28(rate * COVER_DAYS), Shortfall(closing, used, elapsed), doubled, closing);
  }

  lemma RateFits(used: nat, elapsed: Days, rate: nat)
    requires 0 < used <= LARGEST && rate == Rate(used, elapsed)
    ensures rate <= BIG && Within(rate * elapsed, used * CENT, used * 100000000000)
  {
    RateIsNear(used, elapsed);
    RateIsBounded(rate, elapsed, rate * elapsed);
  }

  /** The doubled shortfall, measured in parts of 50 * elapsed, against the exact one. */
  lemma DoubledShortfallIsNear(closing: nat, used: nat, elapsed: Days, doubled: int, product: int)
    requires 0 < used <= LARGEST && closing <= LARGEST
    requires doubled == DoubledShortfall(closing, used, elapsed) && product == doubled * (50 * elapsed)
    ensures var n := used * COVER_DAYS - closing * elapsed; n * ONE - ONE < product < n * ONE + ONE
  {
    var rate := Rate(used, elapsed);
    RateFits(used, elapsed, rate);
    DoubledShortfallSlips(closing, used, elapsed, rate, doubled);
    Assemble(rate, doubled, closing, used, elapsed, rate * elapsed, doubled * elapsed, closing * elapsed);
    FiftyTimes(doubled, elapsed, product);
  }

  lemma FiftyTimes(doubled: int, elapsed: Days, product: int)
    requires product == doubled * (50 * elapsed)
    ensures product == 50 * (doubled * elapsed)
  {
  }

  lemma Assemble(rate: nat, doubled: int, closing: nat, used: nat, elapsed: Days, re: int, de: int, ce: int)
    requires used <= LARGEST && re == rate * elapsed && de == doubled * elapsed && ce == closing * elapsed
    requires Within(re, used * CENT, used * 100000000000)
    requires Within(doubled, 2 * (rate * COVER_DAYS - closing * CENT), SLIP)
    ensures (used * COVER_DAYS - ce) * ONE - ONE < 50 * de < (used * COVER_DAYS - ce) * ONE + ONE
  {
    var exact := 2 * (rate * COVER_DAYS - closing * CENT);
    assert exact * elapsed == 60 * re - 2 * CENT * ce;
    ScaleError(doubled, exact, elapsed, de, exact * elapsed);
  }

  // ---- the suggestion ----

  /** The exact need is a whole number of half units, and the decimals came out above it. */
  predicate RoundedUp(closing: int, used: nat, elapsed: Days)
    requires used > 0
  {
    var missing := used * COVER_DAYS - closing * elapsed;
    && missing >= 0 && missing % (50 * elapsed) == 0
    && DoubledShortfall(closing, used, elapsed) * (50 * elapsed) > missing * ONE
  }

  lemma CeilingSign(n: int, m: nat)
    requires m >= 1
    ensures n > 0 <==> CeilingDiv(n, m) > 0
    ensures n == 0 ==> CeilingDiv(n, m) == 0
    ensures n < 0 && n % m == 0 ==> CeilingDiv(n, m) < 0
  {
    var q, r := n / m, n % m;
    assert n == q * m + r;
    ProductSign(q, m, q * m);
  }

  /** The report's suggestion always covers the next 30 days at the month's rate. It is the least that does, or half a unit
      more; and it is half a unit more exactly when the exact need is a whole number of half units and the decimals came
      out above it. */
  lemma {:induction false} SuggestionIsLeastUnlessRoundedUp(closing: nat, used: nat, elapsed: Days)
    requires 0 < used <= LARGEST && closing <= LARGEST
    ensures Suggested(closing, used, elapsed)
         == LeastPurchase(closing, used, elapsed) + if RoundedUp(closing, used, elapsed) then 50 else 0
  {
    var n, m := used * COVER_DAYS - closing * elapsed, 50 * elapsed;
    var doubled := DoubledShortfall(closing, used, elapsed);
    DoubledShortfallIsNear(closing, used, elapsed, doubled, doubled * m);
    CeilingOfNearby(n, m, doubled, doubled * m);
    CeilingSign(n, m);
    CeilingSign(doubled, ONE);
    Round28IsNear(Shortfall(closing, used, elapsed) * 2);
  }

  // ---- the days left ----

  /** The balance lasts a whole number of days exactly, and the decimals came out below it. */
  predicate RoundedDown(closing: nat, used: nat, elapsed: Days)
    requires used > 0
  {
    && closing * elapsed % used == 0
    && DaysAtRate(closing, used, elapsed) * used < closing * elapsed * ONE
  }

  /** With the products named: q * rate is near closing * CENT * ONE and rate * elapsed near used * CENT, so q * used is
      near closing * elapsed * ONE. */
  lemma QuotientAssembles(used: nat, ce: nat, qu: nat, off: int, qre: int, re: int)
    requires 0 < used <= LARGEST && ce <= 31 * LARGEST
    requires Within(re, used * CENT, used * 100000000000)
    requires Within(off, 0, qu * 100000000000) && qre == qu * CENT + off
    requires Within(2 * E27 * qre, 2 * E27 * (ce * CENT * ONE), ce * CENT * ONE + E27 * re)
    ensures ce * ONE - ONE < qu < ce * ONE + ONE
  {
  }

  lemma OffByTheRate(q: nat, slip: int, used: nat, qu: nat, off: int)
    requires Within(slip, 0, used * 100000000000) && qu == q * used && off == q * slip
    ensures Within(off, 0, qu * 100000000000)
  {
    assert q * (used * 100000000000) == qu * 100000000000;
    assert q * (used * 100000000000 - slip) >= 0;
    assert q * (used * 100000000000 + slip) >= 0;
  }

  lemma TimesElapsed(q: nat, rate: nat, elapsed: Days, cents: nat, qr: int, qre: int, ce: nat, re: int)
    requires qr == q * rate && qre == qr * elapsed && ce == cents * elapsed && re == rate * elapsed
    requires Within(2 * E27 * qr, 2 * E27 * (cents * CENT * ONE), cents * CENT * ONE + E27 * rate)
    ensures Within(2 * E27 * qre, 2 * E27 * (ce * CENT * ONE), ce * CENT * ONE + E27 * re)
  {
    ScaleWithin(2 * E27 * qr, 2 * E27 * (cents * CENT * ONE), cents * CENT * ONE + E27 * rate, elapsed);
  }

  lemma ScaleWithin(a: int, b: int, tolerance: int, e: Days)
    requires Within(a, b, tolerance)
    ensures Within(a * e, b * e, tolerance * e)
  {
    assert (b + tolerance - a) * e >= 0;
    assert (a - b + tolerance) * e >= 0;
  }

  lemma SplitProduct(q: nat, rate: nat, elapsed: Days, used: nat, slip: int, qr: int)
    requires rate * elapsed == used * CENT + slip && qr == q * rate
    ensures qr * elapsed == q * used * CENT + q * slip
  {
    assert q * rate * elapsed == q * (rate * elapsed);
    assert q * (used * CENT + slip) == q * used * CENT + q * slip;
  }

  lemma DaysAssemble(closing: nat, used: nat, elapsed: Days, rate: nat, q: nat, ce: nat, product: nat, re: nat)
    requires 0 < used <= LARGEST && ce == closing * elapsed <= 31 * LARGEST && product == q * used
    requires re == rate * elapsed && Within(re, used * CENT, used * 100000000000)
    requires Within(2 * E27 * (q * rate), 2 * E27 * (closing * CENT * ONE), closing * CENT * ONE + E27 * rate)
    ensures ce * ONE - ONE < product < ce * ONE + ONE
  {
    var slip := re - used * CENT;
    SplitProduct(q, rate, elapsed, used, slip, q * rate);
    TimesElapsed(q, rate, elapsed, closing, q * rate, q * rate * elapsed, ce, re);
    OffByTheRate(q, slip, used, product, q * slip);
    QuotientAssembles(used, ce, product, q * slip, q * rate * elapsed, re);
  }

  lemma ProductGrows(a: nat, b: nat, c: nat)
    requires a <= b
    ensures a * c <= b * c
  {
  }

  lemma SmallProduct(closing: nat, elapsed: Days, ce: nat)
    requires closing <= LARGEST && ce == closing * elapsed
    ensures ce <= 31 * LARGEST
  {
    ProductGrows(closing, LARGEST, elapsed);
    ProductGrows(elapsed, 31, LARGEST);
  }

  lemma DaysAtRateAreNear(closing: nat, used: nat, elapsed: Days, q: nat, product: nat, ce: nat)
    requires 0 < used <= LARGEST && closing <= LARGEST
    requires q == DaysAtRate(closing, used, elapsed) && product == q * used && ce == closing * elapsed
    ensures ce * ONE - ONE < product < ce * ONE + ONE
  {
    var rate := Rate(used, elapsed);
    RateFits(used, elapsed, rate);
    Quotient28IsNear(closing * CENT * ONE, rate);
    SmallProduct(closing, elapsed, ce);
    DaysAssemble(closing, used, elapsed, rate, q, ce, product, rate * elapsed);
  }

  /** The report's days left are the whole days the balance lasts at the month's rate, or one day less; and they are one
      less exactly when the balance lasts a whole number of days and the decimals came out below it. */
  lemma {:induction false} DaysLeftAreWholeUnlessRoundedDown(closing: nat, used: nat, elapsed: Days)
    requires 0 < used <= LARGEST && 0 < closing <= LARGEST
    ensures DaysLeft(closing, used, elapsed)
         == closing * elapsed / used - if RoundedDown(closing, used, elapsed) then 1 else 0
  {
    var q := DaysAtRate(closing, used, elapsed);
    DaysAtRateAreNear(closing, used, elapsed, q, q * used, closing * elapsed);
    FloorOfNearby(closing * elapsed, used, q, q * used);
  }

  // ---- when the decimals are exact ----

  /** The daily rate came out above the use divided by the days. */
  predicate RateRoundedUp(used: nat, elapsed: Days)
    requires used > 0
  {
    Rate(used, elapsed) * elapsed > used * CENT
  }

  lemma Cancel(a: int, b: int, m: nat, left: int, right: int)
    requires m >= 1 && left == a * m && right == b * m && left <= right
    ensures a <= b
  {
    ProductSign(a - b, m, (a - b) * m);
  }

  /** One rounding of an amount that is at most a whole number of cents. */
  lemma RoundsBelow(v: int, rounded: int, cents: nat)
    requires rounded == Round28(v) && -(100 * BIG) <= v <= cents * CENT && cents <= 100 * LARGEST
    ensures v - SLIP <= rounded <= cents * CENT
  {
    RoundingSlips(v, rounded);
    Round28KeepsSides(v, cents);
  }

  /** From a rate that is not too high for the need, no rounding leads above the need. */
  lemma NeedIsNotPassed(closing: nat, rate: nat, need: nat, owed: int, shortfall: int, doubled: int)
    requires closing <= LARGEST && need <= 31 * LARGEST && rate * COVER_DAYS <= (closing + need) * CENT
    requires owed == Round28(rate * COVER_DAYS) && shortfall == Round28(owed - closing * CENT)
    requires doubled == Round28(shortfall * 2)
    ensures doubled <= 2 * need * CENT
  {
    RoundsBelow(rate * COVER_DAYS, owed, closing + need);
    RoundsBelow(owed - closing * CENT, shortfall, need);
    RoundsBelow(shortfall * 2, doubled, 2 * need);
  }

  lemma RateWithinNeed(total: nat, used: nat, elapsed: Days, rate: nat, cent: nat)
    requires rate * elapsed <= used * cent && used * COVER_DAYS == total * elapsed
    ensures rate * COVER_DAYS <= total * cent
  {
    assert used * COVER_DAYS * cent == total * cent * elapsed;
    Cancel(rate * COVER_DAYS, total * cent, elapsed, rate * elapsed * COVER_DAYS, used * COVER_DAYS * cent);
  }

  lemma SumOfParts(closing: nat, used: nat, elapsed: Days, halves: nat)
    requires used * COVER_DAYS - closing * elapsed == halves * (50 * elapsed)
    ensures used * COVER_DAYS == (closing + 50 * halves) * elapsed
    ensures closing + 50 * halves <= used * COVER_DAYS
  {
    ProductGrows(1, elapsed, closing + 50 * halves);
  }

  lemma {:induction false} UpNeedsARateUp(closing: nat, used: nat, elapsed: Days, halves: nat)
    requires 0 < used <= LARGEST && closing <= LARGEST && !RateRoundedUp(used, elapsed)
    requires used * COVER_DAYS - closing * elapsed == halves * (50 * elapsed)
    ensures DoubledShortfall(closing, used, elapsed) <= halves * ONE
  {
    var rate := Rate(used, elapsed);
    SumOfParts(closing, used, elapsed, halves);
    RateWithinNeed(closing + 50 * halves, used, elapsed, rate, CENT);
    NeedIsNotPassed(closing, rate, 50 * halves, Round28(rate * COVER_DAYS), Shortfall(closing, used, elapsed),
                    DoubledShortfall(closing, used, elapsed));
  }

  lemma RateWithinDays(closing: nat, used: nat, elapsed: Days, days: nat, rate: nat, cent: nat)
    requires rate * elapsed <= used * cent && closing * elapsed == days * used
    ensures days * rate <= closing * cent
  {
    OrderTimes(rate * elapsed, used * cent, days);
    assert closing * elapsed * cent == days * used * cent;
    Cancel(days * rate, closing * cent, elapsed, rate * elapsed * days, used * cent * days);
  }

  lemma HundredTimes(days: nat, rate: nat, product: nat)
    requires product == days * rate
    ensures 100 * days * CENT * rate == ONE * product
  {
  }

  lemma {:induction false} DownNeedsARateUp(closing: nat, used: nat, elapsed: Days, days: nat)
    requires 0 < used <= LARGEST && closing <= LARGEST && !RateRoundedUp(used, elapsed)
    requires closing * elapsed == days * used
    ensures DaysAtRate(closing, used, elapsed) >= days * ONE
  {
    var rate := Rate(used, elapsed);
    RateFits(used, elapsed, rate);
    DaysFit(closing, used, elapsed, rate);
    RateWithinDays(closing, used, elapsed, days, rate, CENT);
    HundredTimes(days, rate, days * rate);
    QuotientKeepsSide(closing * CENT * ONE, rate, 100 * days);
  }

  lemma DaysFit(closing: nat, used: nat, elapsed: Days, rate: nat)
    requires 0 < used && closing <= LARGEST && rate > 0
    requires Within(rate * elapsed, used * CENT, used * 100000000000)
    ensures closing * CENT * ONE / rate < E28 * CENT
  {
    assert rate >= 1000000000000000000000000000000000000 by {
      RateTimesDays(rate, elapsed, rate * elapsed);
    }
    var n := closing * CENT * ONE;
    assert n < E28 * CENT * 1000000000000000000000000000000000000;
    QuotientBelow(n, rate, E28 * CENT, 1000000000000000000000000000000000000);
  }

  lemma RateTimesDays(rate: nat, elapsed: Days, product: int)
    requires product == rate * elapsed && 2 * product >= CENT
    ensures 62 * rate >= CENT
  {
    ProductGrows(elapsed, 31, rate);
  }

  lemma QuotientBelow(n: nat, d: nat, bound: nat, least: nat)
    requires d >= least >= 1 && n < bound * least
    ensures n / d < bound
  {
    var q := n / d;
    assert n == q * d + n % d;
    if q >= bound {
      ProductGrows(bound, q, least);
      ProductGrows(least, d, q);
    }
  }

  lemma WholeTimes(whole: int, unit: nat, d: int, product: int)
    requires d <= whole * ONE && product == d * unit
    ensures product <= whole * unit * ONE
  {
    OrderTimes(d, whole * ONE, unit);
  }

  lemma TimesWhole(whole: nat, unit: nat, d: int, product: int)
    requires d >= whole * ONE && product == d * unit
    ensures product >= whole * unit * ONE
  {
    OrderTimes(d, whole * ONE, unit);
  }

  lemma WholeParts(n: int, m: nat) returns (k: nat)
    requires m >= 1 && n >= 0 && n % m == 0
    ensures n == k * m
  {
    k := n / m;
  }

  lemma {:induction false} UpOnlyIfTheRateIs(closing: nat, used: nat, elapsed: Days)
    requires 0 < used <= LARGEST && closing <= LARGEST && RoundedUp(closing, used, elapsed)
    ensures RateRoundedUp(used, elapsed)
  {
    if !RateRoundedUp(used, elapsed) {
      var missing, m := used * COVER_DAYS - closing * elapsed, 50 * elapsed;
      var doubled := DoubledShortfall(closing, used, elapsed);
      var halves := WholeParts(missing, m);
      UpNeedsARateUp(closing, used, elapsed, halves);
      WholeTimes(halves, m, doubled, doubled * m);
    }
  }

  lemma {:induction false} DownOnlyIfTheRateIsUp(closing: nat, used: nat, elapsed: Days)
    requires 0 < used <= LARGEST && closing <= LARGEST && RoundedDown(closing, used, elapsed)
    ensures RateRoundedUp(used, elapsed)
  {
    if !RateRoundedUp(used, elapsed) {
      var left := DaysAtRate(closing, used, elapsed);
      var days := WholeParts(closing * elapsed, used);
      DownNeedsARateUp(closing, used, elapsed, days);
      TimesWhole(days, used, left, left * used);
    }
  }

  /** Neither estimate is off unless the daily rate itself was rounded up. */
  lemma {:induction false} OnlyARateRoundedUpIsOff(closing: nat, used: nat, elapsed: Days)
    requires 0 < used <= LARGEST && closing <= LARGEST
    ensures RoundedUp(closing, used, elapsed) || RoundedDown(closing, used, elapsed) ==> RateRoundedUp(used, elapsed)
  {
    if RoundedUp(closing, used, elapsed) {
      UpOnlyIfTheRateIs(closing, used, elapsed);
    } else if RoundedDown(closing, used, elapsed) {
      DownOnlyIfTheRateIsUp(closing, used, elapsed);
    }
  }

  lemma AtMostTenDigits(k: nat)
    requires k <= 10
    ensures 1 <= Ten(k) <= 10000000000
  {
    assert Ten(5) == 100000;
    TenPlus(5, 5);
    TenPlus(k, 0);
    if k < 10 {
      TenGrows(k, 10);
    }
  }

  lemma TenDecimals(used: nat, k: nat)
    requires used <= LARGEST && k <= 10
    ensures used * Ten(k) < E28 && Ten(k) * Ten(38 - k) == CENT
  {
    ACentIsAPowerOfTen();
    TenPlus(k, 38 - k);
    AtMostTenDigits(k);
    ProductGrows(used, LARGEST, Ten(k));
  }

  lemma Exchange(used: nat, t: nat, digits: nat, elapsed: nat, rest: nat)
    requires used * t == digits * elapsed
    ensures used * (t * rest) == digits * rest * elapsed
  {
    assert used * (t * rest) == used * t * rest;
    assert digits * elapsed * rest == digits * rest * elapsed;
  }

  lemma {:induction false} TerminatingRate(used: nat, elapsed: Days, k: nat)
    requires 0 < used <= LARGEST && k <= 10 && used * Ten(k) % elapsed == 0
    ensures Rate(used, elapsed) * elapsed == used * CENT
  {
    TenDecimals(used, k);
    var n := used * Ten(k);
    var digits := n / elapsed;
    DigitsFit(n, elapsed, digits);
    Exchange(used, Ten(k), digits, elapsed, Ten(38 - k));
    ShortQuotientsAreExact(digits, 38 - k, elapsed, used * CENT);
  }

  lemma DigitsFit(n: nat, elapsed: Days, digits: nat)
    requires n % elapsed == 0 && digits == n / elapsed
    ensures n == digits * elapsed && digits <= n
  {
  }

  /** Both estimates are exact whenever the daily rate terminates within ten decimals of a hundredth; with at most 31 days
      in a month it needs no more than four if it terminates at all. */
  lemma {:induction false} ATerminatingRateIsExact(closing: nat, used: nat, elapsed: Days, k: nat)
    requires 0 < used <= LARGEST && closing <= LARGEST && k <= 10 && used * Ten(k) % elapsed == 0
    ensures !RoundedUp(closing, used, elapsed) && !RoundedDown(closing, used, elapsed)
  {
    TerminatingRate(used, elapsed, k);
    OnlyARateRoundedUpIsOff(closing, used, elapsed);
  }

  // ---- use that does not divide evenly ----

  const THIRDS: nat := 16666666666666666666666666670000000000000

  lemma SmallPowers()
    ensures Ten(0) == 1 && Ten(13) == 10000000000000 && Ten(14) == 100000000000000
  {
    assert Ten(4) == 10000;
    TenPlus(4, 4);
    TenPlus(8, 4);
    TenPlus(1, 12);
    TenPlus(2, 12);
  }

  lemma FiveOverThree()
    ensures Rate(500, 3) == THIRDS
  {
    SmallPowers();
    var n := 500 * CENT;
    LastDigitIs(n / 3, 0, 13);
    assert n / (3 * Ten(13)) == 1666666666666666666666666666;
  }

  lemma AlreadyRounded(v: nat, digits: nat)
    requires v == digits * 100000000000000 && E27 <= digits < E28
    ensures Round28(v) == v
  {
    SmallPowers();
    LastDigitIs(v, 0, 14);
    MultiplesAreExact(v, Ten(14), digits);
  }

  /** Five units used in three days leave a need of exactly 30 units beside a balance of 20, yet 30.50 are suggested. */
  lemma {:induction false} ThirdsSuggestTooMuch()
    ensures Suggested(2000, 500, 3) == 3050 && 500 * COVER_DAYS - 2000 * 3 == 3000 * 3
  {
    FiveOverThree();
    AlreadyRounded(THIRDS * COVER_DAYS, 5000000000000000000000000001);
    AlreadyRounded(THIRDS * COVER_DAYS - 2000 * CENT, 3000000000000000000000000001);
    AlreadyRounded((THIRDS * COVER_DAYS - 2000 * CENT) * 2, 6000000000000000000000000002);
  }

  /** At that rate a balance of 5 lasts exactly three days, yet two are reported. */
  lemma {:induction false} ThirdsLastTooShort()
    ensures DaysLeft(500, 500, 3) == 2 && 500 * 3 == 3 * 500
  {
    FiveOverThree();
    SmallPowers();
    var n := 500 * CENT * ONE;
    LastDigitIs(n / THIRDS, 0, 13);
    assert n / (THIRDS * Ten(13)) == 2999999999999999999999999999;
  }
}
