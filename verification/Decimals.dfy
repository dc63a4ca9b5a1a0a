/** Arithmetic in the 28 significant digits of Python's default decimal context.

    Amounts are counted in units of 10 to the power -40, a grid fine enough to hold every digit of what is computed here. */
module Decimals {

  /** One, in units. */
  const ONE: nat := 10000000000000000000000000000000000000000

  /** The least number of 29 digits. */
  const E28: nat := 10000000000000000000000000000

  const E27: nat := 1000000000000000000000000000

  /** A hundredth, in units. */
  const CENT: nat := 100000000000000000000000000000000000000

  /** The unit of the last of 28 digits of v: the first power of ten from t on below which v has no 29th digit. */
  function LastDigit(v: nat, t: nat): (unit: nat)
    requires t >= 1
    ensures unit >= t && v < E28 * unit && (unit == t || E27 * unit <= v)
    decreases v - t
  {
    if v < E28 * t then t else LastDigit(v, 10 * t)
  }

  /** The integer nearest to n / d, ties to even. */
  function HalfEven(n: nat, d: nat): nat
    requires d >= 1
  {
    var q, r := n / d, n % d;
    if 2 * r < d || (2 * r == d && q % 2 == 0) then q else q + 1
  }

  /** An amount rounded to 28 digits. */
  function Round28(v: int): int {
    if v >= 0 then HalfEven(v, LastDigit(v, 1)) * LastDigit(v, 1)
    else -(HalfEven(-v, LastDigit(-v, 1)) * LastDigit(-v, 1))
  }

  /** The quotient n / d, of which n is already in units, rounded once to 28 digits. */
  function Quotient28(n: nat, d: nat): nat
    requires d >= 1
  {
    var unit := LastDigit(n / d, 1);
    Multiple(d, unit);
    HalfEven(n, d * unit) * unit
  }

  function CeilingDiv(n: int, d: nat): int
    requires d >= 1
  {
    if n % d == 0 then n / d else n / d + 1
  }

  predicate Within(a: int, b: int, tolerance: int) {
    b - tolerance <= a <= b + tolerance
  }

  lemma Multiple(d: nat, unit: nat)
    requires d >= 1 && unit >= 1
    ensures d * unit >= 1
  {
  }

  lemma HalfEvenIsNear(n: nat, d: nat, product: int)
    requires d >= 1 && product == HalfEven(n, d) * d
    ensures Within(2 * product, 2 * n, d)
    ensures n % d == 0 ==> product == n
  {
    var q := n / d;
    assert n == q * d + n % d;
    assert (q + 1) * d == q * d + d;
  }

  /** Rounding moves an amount by at most half a unit of its last digit, and never across zero. */
  lemma Round28IsNear(v: int)
    ensures v >= 0 ==> Within(2 * E27 * Round28(v), 2 * E27 * v, v) && Round28(v) >= 0
    ensures v <= 0 ==> Within(2 * E27 * Round28(v), 2 * E27 * v, -v) && Round28(v) <= 0
  {
    var size: nat := if v >= 0 then v else -v;
    var unit := LastDigit(size, 1);
    HalfEvenIsNear(size, unit, HalfEven(size, unit) * unit);
    if unit == 1 {
      assert HalfEven(size, 1) == size;
    }
  }

  lemma Quotient28IsNear(n: nat, d: nat)
    requires d >= 1
    ensures Within(2 * E27 * (Quotient28(n, d) * d), 2 * E27 * n, n + E27 * d)
  {
    var unit := LastDigit(n / d, 1);
    Multiple(d, unit);
    var q, step := HalfEven(n, d * unit), d * unit;
    HalfEvenIsNear(n, step, q * step);
    if unit > 1 {
      UnitIsSmall(n, d, unit);
    }
    NearInDigits(n, d, q * step, step);
    Regroup(q, d, unit);
  }

  lemma NearInDigits(n: nat, d: nat, product: int, step: nat)
    requires Within(2 * product, 2 * n, step) && (step == d || E27 * step <= n)
    ensures Within(2 * E27 * product, 2 * E27 * n, n + E27 * d)
  {
  }

  lemma Regroup(q: int, d: int, unit: int)
    ensures q * (d * unit) == (q * unit) * d
  {
  }

  lemma UnitIsSmall(n: nat, d: nat, unit: nat)
    requires d >= 1 && E27 * unit <= n / d
    ensures E27 * (d * unit) <= n
  {
    assert n / d * d <= n;
    assert E27 * unit * d <= n / d * d;
  }

  // ---- powers of ten ----

  function Ten(n: nat): nat {
    if n == 0 then 1 else 10 * Ten(n - 1)
  }

  lemma {:induction false} TenPlus(a: nat, b: nat)
    ensures Ten(a + b) == Ten(a) * Ten(b) && Ten(a) >= 1
  {
    if a > 0 {
      TenPlus(a - 1, b);
    }
  }

  lemma {:induction false} TenGrows(a: nat, b: nat)
    requires a < b
    ensures Ten(b) >= 10 * Ten(a)
  {
    if a + 1 < b {
      TenGrows(a, b - 1);
    }
  }

  /** The unit of an amount is found by its size alone. */
  lemma {:induction false} LastDigitIs(v: nat, k: nat, j: nat)
    requires k <= j && Ten(k) >= 1 && v < E28 * Ten(j) && (k < j ==> E27 * Ten(j) <= v)
    ensures LastDigit(v, Ten(k)) == Ten(j)
    decreases j - k
  {
    if k < j {
      TenGrows(k, j);
      LastDigitIs(v, k + 1, j);
    }
  }

  // ---- whole cents lose nothing ----

  lemma ACentIsAPowerOfTen()
    ensures Ten(38) == CENT
  {
    assert Ten(2) == 100;
    TenPlus(2, 2);
    TenPlus(4, 4);
    TenPlus(8, 1);
    TenPlus(9, 9);
    TenPlus(18, 18);
    TenPlus(36, 2);
  }

  /** The last digit of an amount below E28 times a power of ten lies at or before that power. */
  lemma {:induction false} LastDigitIsAPowerOfTen(v: nat, k: nat, m: nat) returns (j: nat)
    requires k <= m && v < E28 * Ten(m) && Ten(k) >= 1
    ensures k <= j <= m && LastDigit(v, Ten(k)) == Ten(j)
    decreases m - k
  {
    j := k;
    if v >= E28 * Ten(k) {
      assert k != m;
      j := LastDigitIsAPowerOfTen(v, k + 1, m);
    }
  }

  lemma Cornered(difference: int, m: nat, product: int)
    requires product == difference * m && -(m as int) < product < m
    ensures difference == 0
  {
  }

  lemma DivideOut(whole: nat, d: nat, n: nat)
    requires d >= 1 && n == whole * d
    ensures n / d == whole && n % d == 0
  {
    var q, r := n / d, n % d;
    assert n == q * d + r;
    assert (whole - q) * d == whole * d - q * d;
    Cornered(whole - q, d, r);
  }

  lemma MultiplesAreExact(n: nat, unit: nat, whole: nat)
    requires unit >= 1 && n == whole * unit
    ensures HalfEven(n, unit) == whole
  {
    DivideOut(whole, unit, n);
  }

  lemma ProductSign(q: int, m: nat, product: int)
    requires m >= 1 && product == q * m
    ensures q > 0 ==> product >= m
    ensures q < 0 ==> product <= -(m as int)
    ensures q == 0 ==> product == 0
  {
  }

  /** The nearest whole number lies on the same side of every whole number. */
  lemma HalfEvenKeepsSides(n: nat, d: nat, whole: int, product: int)
    requires d >= 1 && product == whole * d
    ensures n <= product ==> HalfEven(n, d) <= whole
    ensures n >= product ==> HalfEven(n, d) >= whole
  {
    var q := n / d;
    assert n == q * d + n % d;
    assert (q - whole) * d == q * d - product;
    ProductSign(q - whole, d, (q - whole) * d);
  }

  /** Multiples of a power of ten are multiples of the unit to which amounts below E28 times that power are rounded. */
  lemma InUnits(v: nat, whole: int, m: nat) returns (unit: nat, parts: int)
    requires v < E28 * Ten(m)
    ensures unit >= 1 && LastDigit(v, 1) == unit && whole * Ten(m) == parts * unit
  {
    assert Ten(0) == 1;
    var j := LastDigitIsAPowerOfTen(v, 0, m);
    TenPlus(j, m - j);
    Regroup(whole, Ten(j), Ten(m - j));
    unit, parts := Ten(j), whole * Ten(m - j);
  }

  lemma NaturalsKeepSides(v: nat, cents: int)
    requires v < E28 * CENT
    ensures v <= cents * CENT ==> Round28(v) <= cents * CENT
    ensures v >= cents * CENT ==> Round28(v) >= cents * CENT
  {
    ACentIsAPowerOfTen();
    var unit, parts := InUnits(v, cents, 38);
    HalfEvenKeepsSides(v, unit, parts, parts * unit);
    OrderTimes(HalfEven(v, unit), parts, unit);
  }

  lemma OrderTimes(a: int, b: int, unit: nat)
    ensures a <= b ==> a * unit <= b * unit
    ensures a >= b ==> a * unit >= b * unit
  {
  }

  /** Rounding never carries an amount across a whole number of cents. */
  lemma Round28KeepsSides(v: int, cents: int)
    requires -(E28 * CENT) < v < E28 * CENT
    ensures v <= cents * CENT ==> Round28(v) <= cents * CENT
    ensures v >= cents * CENT ==> Round28(v) >= cents * CENT
  {
    if v >= 0 {
      NaturalsKeepSides(v, cents);
    } else {
      NaturalsKeepSides(-v, -cents);
    }
  }

  lemma QuotientKeepsSide(n: nat, d: nat, cents: nat)
    requires d >= 1 && n / d < E28 * CENT && n >= cents * CENT * d
    ensures Quotient28(n, d) >= cents * CENT
  {
    ACentIsAPowerOfTen();
    var unit, parts := InUnits(n / d, cents, 38);
    Multiple(d, unit);
    Regroup(parts, d, unit);
    HalfEvenKeepsSides(n, d * unit, parts, parts * (d * unit));
    OrderTimes(HalfEven(n, d * unit), parts, unit);
  }

  /** A quotient of at most 28 digits is exact. */
  lemma ShortQuotientsAreExact(digits: nat, m: nat, d: nat, n: nat)
    requires digits < E28 && d >= 1 && n == digits * Ten(m) * d
    ensures Quotient28(n, d) == digits * Ten(m)
  {
    TenPlus(m, 0);
    DivideOut(digits * Ten(m), d, n);
    OrderTimes(digits + 1, E28, Ten(m));
    var unit, parts := InUnits(n / d, digits, m);
    Multiple(d, unit);
    Regroup(parts, d, unit);
    HalfEvenKeepsSides(n, d * unit, parts, parts * (d * unit));
  }

  // ---- the whole number above or below an amount, from an approximation ----

  lemma Between(d: int, k: int, m: nat, product: int, low: int)
    requires m >= 1 && product == d * m && low == k * m
    ensures product > low ==> d > k
    ensures product < low ==> d < k
    ensures product <= low ==> d <= k
  {
  }

  lemma Shifted(k: int, m: int)
    ensures (k + 1) * ONE * m == k * ONE * m + ONE * m && (k - 1) * ONE * m == k * ONE * m - ONE * m
  {
  }

  /** If d units are off n / m by less than one part in m, the whole number above d is the one above n / m, or the next one
      when n / m is whole and d lies above it. */
  lemma CeilingOfNearby(n: int, m: nat, d: int, product: int)
    requires m >= 1 && product == d * m && n * ONE - ONE < product < n * ONE + ONE
    ensures CeilingDiv(d, ONE) == CeilingDiv(n, m) + if n % m == 0 && product > n * ONE then 1 else 0
  {
    var k, rest := n / m, n % m;
    assert n == k * m + rest;
    assert n * ONE == k * ONE * m + rest * ONE;
    Shifted(k, m);
    Between(d, k * ONE, m, product, k * ONE * m);
    Between(d, (k + 1) * ONE, m, product, (k + 1) * ONE * m);
    Between(d, (k - 1) * ONE, m, product, (k - 1) * ONE * m);
    assert rest >= 1 ==> rest * ONE >= ONE && (rest + 1) * ONE <= m * ONE;
    assert m * ONE >= ONE;
  }

  lemma FloorIsCeilingOfNegation(n: int, m: nat)
    requires m >= 1
    ensures n / m == -CeilingDiv(-n, m) && (n % m == 0 <==> -n % m == 0)
  {
    var q, r := n / m, n % m;
    assert n == q * m + r;
    var q', r' := -n / m, -n % m;
    assert -n == q' * m + r';
    assert (q + q') * m == q * m + q' * m;
    if r == 0 {
      Cornered(-q - q', m, r');
    } else {
      assert (-q - q' - 1) * m == r + r' - m;
      Cornered(-q - q' - 1, m, r + r' - m);
    }
  }

  /** If d units are off n / m by less than one part in m, the whole number below d is the one below n / m, or the one
      before when n / m is whole and d lies below it. */
  lemma FloorOfNearby(n: int, m: nat, d: int, product: int)
    requires m >= 1 && product == d * m && n * ONE - ONE < product < n * ONE + ONE
    ensures d / ONE == n / m - if n % m == 0 && product < n * ONE then 1 else 0
  {
    assert -product == -d * m;
    CeilingOfNearby(-n, m, -d, -product);
    FloorIsCeilingOfNegation(n, m);
    FloorIsCeilingOfNegation(d, ONE);
  }
}
