/** Rounding to the cent, converting between the two currencies, and money collected for a print order. */
module Payments {
  import opened Wrappers
  import opened Sums

  datatype Currency = SYP | USD

  /** The current exchange rate, if one is on record. */
  datatype Rate = NoRate | SypPerUsd(value: real) {
    predicate Positive() {
      SypPerUsd? ==> value > 0.0
    }
  }

  // ---- rounding ----

  /** Hundredths nearest to an amount, ties away from zero. */
  function Money(amount: real): int {
    if amount >= 0.0 then (amount * 100.0 + 0.5).Floor else -(-amount * 100.0 + 0.5).Floor
  }

  function Amount(cents: int): real {
    cents as real / 100.0
  }

  function Distance(a: real, b: real): real {
    if a <= b then b - a else a - b
  }

  /** Rounding moves an amount by at most half a cent, and an amount in whole cents not at all. */
  lemma MoneyIsNearest(amount: real, cents: int)
    ensures Distance(Amount(Money(amount)), amount) <= 0.005
    ensures Money(Amount(cents)) == cents
    ensures amount >= 0.0 ==> Money(amount) >= 0
  {
  }

  lemma NonNegativeStaysNonNegative(amount: real)
    requires amount >= 0.0
    ensures Money(amount) >= 0
  {
    assert amount * 100.0 >= 0.0;
  }

  // ---- conversion ----

  function InPounds(dollars: real, rate: real): real {
    dollars * rate
  }

  function InDollars(pounds: real, rate: real): real
    requires rate > 0.0
  {
    pounds / rate
  }

  function Convert(amount: real, source: Currency, target: Currency, rate: Rate): Option<int>
    requires rate.Positive()
  {
    if source == target then Some(Money(amount))
    else if rate.NoRate? then None
    else if source.USD? then Some(Money(InPounds(amount, rate.value)))
    else Some(Money(InDollars(amount, rate.value)))
  }

  lemma Product(a: real, b: real, rate: real, p: real, q: real)
    requires a <= b && rate > 0.0 && p == a * rate && q == b * rate
    ensures p <= q
  {
  }

  lemma Distribute(x: real, y: real, rate: real, p: real, q: real)
    requires p == x * rate && q == y * rate
    ensures (x - y) * rate == p - q
  {
  }

  lemma ScaleDistance(x: real, y: real, rate: real, scaledX: real, scaledY: real)
    requires rate > 0.0 && Distance(x, y) <= 0.005
    requires scaledX == x * rate && scaledY == y * rate
    ensures Distance(scaledX, scaledY) <= 0.005 * rate
  {
    Distribute(x, y, rate, scaledX, scaledY);
    var e := 0.005 * rate;
    Product(x - y, 0.005, rate, scaledX - scaledY, e);
    Product(-0.005, x - y, rate, -e, scaledX - scaledY);
  }

  lemma Triangle(a: real, b: real, c: real)
    ensures Distance(a, c) <= Distance(a, b) + Distance(b, c)
  {
  }

  lemma Quotient(amount: real, rate: real, y: real)
    requires rate > 0.0 && y == amount / rate
    ensures y * rate == amount
  {
  }

  lemma Reciprocal(x: real, rate: real, inverse: real)
    requires rate > 0.0 && inverse == 1.0 / rate
    ensures inverse > 0.0 && rate * inverse == 1.0 && x / rate == x * inverse
  {
  }

  lemma Associate(x: real, a: real, b: real)
    ensures x * a * b == x * (a * b)
  {
  }

  lemma PoundsFromNearbyDollars(dollars: real, pounds: real, rate: real)
    requires rate > 0.0 && Distance(dollars, InDollars(pounds, rate)) <= 0.005
    ensures Distance(InPounds(dollars, rate), pounds) <= 0.005 * rate
  {
    Quotient(pounds, rate, InDollars(pounds, rate));
    ScaleDistance(dollars, InDollars(pounds, rate), rate, InPounds(dollars, rate), pounds);
  }

  lemma DollarsFromNearbyPounds(pounds: real, dollars: real, rate: real)
    requires rate > 0.0 && Distance(pounds, InPounds(dollars, rate)) <= 0.005
    ensures Distance(InDollars(pounds, rate), dollars) <= 0.005 / rate
  {
    var inverse := 1.0 / rate;
    Reciprocal(pounds, rate, inverse);
    Reciprocal(0.005, rate, inverse);
    Associate(dollars, rate, inverse);
    ScaleDistance(pounds, InPounds(dollars, rate), inverse, InDollars(pounds, rate), dollars);
  }

  /** SYP to USD and back is off by at most half a US cent's worth of pounds plus half a cent. */
  lemma PoundsSurviveTheRoundTrip(amount: real, rate: real)
    requires rate > 0.0
    ensures var usd := Convert(amount, SYP, USD, SypPerUsd(rate)).value;
            var back := Convert(Amount(usd), USD, SYP, SypPerUsd(rate)).value;
            Distance(Amount(back), amount) <= 0.005 * rate + 0.005
  {
    var dollars := Amount(Money(InDollars(amount, rate)));
    MoneyIsNearest(InDollars(amount, rate), 0);
    MoneyIsNearest(InPounds(dollars, rate), 0);
    PoundsFromNearbyDollars(dollars, amount, rate);
    Triangle(Amount(Money(InPounds(dollars, rate))), InPounds(dollars, rate), amount);
  }

  /** USD to SYP and back is off by at most half a pound cent's worth of dollars plus half a cent. */
  lemma DollarsSurviveTheRoundTrip(amount: real, rate: real)
    requires rate > 0.0
    ensures var syp := Convert(amount, USD, SYP, SypPerUsd(rate)).value;
            var back := Convert(Amount(syp), SYP, USD, SypPerUsd(rate)).value;
            Distance(Amount(back), amount) <= 0.005 / rate + 0.005
  {
    var pounds := Amount(Money(InPounds(amount, rate)));
    MoneyIsNearest(InPounds(amount, rate), 0);
    MoneyIsNearest(InDollars(pounds, rate), 0);
    DollarsFromNearbyPounds(pounds, amount, rate);
    Triangle(Amount(Money(InDollars(pounds, rate))), InDollars(pounds, rate), amount);
  }

  function ExactPart(part: (Currency, real), target: Currency, rate: Rate): real
    requires rate.Positive()
  {
    if part.0 == target || rate.NoRate? then part.1
    else if part.0.USD? then part.1 * rate.value else part.1 / rate.value
  }

  function Exact(bucket: seq<(Currency, real)>, target: Currency, rate: Rate): real
    requires rate.Positive()
  {
    if bucket == [] then 0.0
    else Exact(bucket[..|bucket| - 1], target, rate) + ExactPart(bucket[|bucket| - 1], target, rate)
  }

  lemma ConversionIsNearest(part: (Currency, real), target: Currency, rate: Rate)
    requires rate.Positive()
    ensures match Convert(part.1, part.0, target, rate)
            case None => rate.NoRate? && part.0 != target
            case Some(cents) => Distance(Amount(cents), ExactPart(part, target, rate)) <= 0.005
  {
  }

  lemma DistancesAdd(a: int, b: int, x: real, y: real, n: nat)
    requires Distance(Amount(a), x) <= 0.005 * n as real && Distance(Amount(b), y) <= 0.005
    ensures Distance(Amount(a + b), x + y) <= 0.005 * (n + 1) as real
  {
  }

  /** `_total`: the converted amounts added up, or nothing when one cannot be converted. */
  method TotalIn(bucket: seq<(Currency, real)>, target: Currency, rate: Rate) returns (total: Option<int>)
    requires rate.Positive()
    ensures total.None? <==> rate.NoRate? && exists part <- bucket :: part.0 != target
    ensures total.Some? ==> Distance(Amount(total.value), Exact(bucket, target, rate)) <= 0.005 * |bucket| as real
  {
    var sum := 0;
    for k := 0 to |bucket|
      invariant rate.NoRate? ==> forall part <- bucket[..k] :: part.0 == target
      invariant Distance(Amount(sum), Exact(bucket[..k], target, rate)) <= 0.005 * k as real
    {
      assert bucket[..k + 1][..k] == bucket[..k];
      ConversionIsNearest(bucket[k], target, rate);
      var converted := Convert(bucket[k].1, bucket[k].0, target, rate);
      if converted.None? {
        return None;
      }
      DistancesAdd(sum, converted.value, Exact(bucket[..k], target, rate),
                   ExactPart(bucket[k], target, rate), k);
      sum := sum + converted.value;
    }
    assert bucket[..|bucket|] == bucket;
    return Some(sum);
  }

  // ---- payments ----

  datatype Payment = Payment(amount: int, voided: bool)
  datatype Refusal = NotPositive | OrderClosed | ExceedsDue | UnknownPayment

  /** A print order's account; cancelled and rejected orders are closed. */
  datatype Account = Account(total: int, closed: bool, payments: seq<Payment>)

  function LiveAmount(p: Payment): int {
    if p.voided then 0 else p.amount
  }

  function Paid(payments: seq<Payment>): int {
    Total(payments, LiveAmount)
  }

  function Due(account: Account): int {
    if account.total > Paid(account.payments) then account.total - Paid(account.payments) else 0
  }

  predicate IsPaid(account: Account) {
    Paid(account.payments) >= account.total
  }

  function CheckPayment(account: Account, amount: real): Option<Refusal> {
    if amount <= 0.0 then Some(NotPositive)
    else if account.closed then Some(OrderClosed)
    else if Money(amount) > account.total - Paid(account.payments) then Some(ExceedsDue)
    else None
  }

  datatype Step = Record(amount: real) | Void(payment: nat) | Close

  function Next(account: Account, step: Step): Account {
    match step
    case Record(amount) =>
      if CheckPayment(account, amount).Some? then account
      else account.(payments := account.payments + [Payment(Money(amount), false)])
    case Void(i) =>
      if i >= |account.payments| || account.payments[i].voided then account
      else account.(payments := account.payments[i := account.payments[i].(voided := true)])
    case Close => account.(closed := true)
  }

  function Run(account: Account, steps: seq<Step>): Account {
    if steps == [] then account else Next(Run(account, steps[..|steps| - 1]), steps[|steps| - 1])
  }

  ghost predicate Balanced(account: Account) {
    && 0 <= Paid(account.payments) <= account.total
    && forall i :: 0 <= i < |account.payments| ==> account.payments[i].amount >= 0
  }

  lemma {:induction false} PaidIsNotNegative(payments: seq<Payment>)
    requires forall i :: 0 <= i < |payments| ==> payments[i].amount >= 0
    ensures Paid(payments) >= 0
  {
    if payments != [] {
      PaidIsNotNegative(payments[..|payments| - 1]);
    }
  }

  lemma RecordKeepsTheBalance(account: Account, cents: nat)
    requires Balanced(account) && cents <= account.total - Paid(account.payments)
    ensures Balanced(account.(payments := account.payments + [Payment(cents, false)]))
  {
    TotalAppend(account.payments, Payment(cents, false), LiveAmount);
  }

  lemma VoidKeepsTheBalance(account: Account, i: nat)
    requires Balanced(account) && i < |account.payments|
    ensures var voided := account.(payments := account.payments[i := account.payments[i].(voided := true)]);
            Balanced(voided) && Paid(voided.payments) <= Paid(account.payments)
  {
    var voided := account.payments[i := account.payments[i].(voided := true)];
    TotalUpdate(account.payments, i, voided[i], LiveAmount);
    PaidIsNotNegative(voided);
  }

  lemma StepKeepsTheBalance(account: Account, step: Step)
    requires Balanced(account)
    ensures Balanced(Next(account, step)) && Next(account, step).total == account.total
    ensures step.Void? ==> Paid(Next(account, step).payments) <= Paid(account.payments)
  {
    match step
    case Record(amount) =>
      if CheckPayment(account, amount).None? {
        NonNegativeStaysNonNegative(amount);
        RecordKeepsTheBalance(account, Money(amount));
      }
    case Void(i) =>
      if i < |account.payments| {
        VoidKeepsTheBalance(account, i);
      }
    case Close =>
  }

  /** Over every run of payments and voids for an order with a fixed total: what is collected never exceeds the total, so
      the due amount is exactly the difference and the order is paid exactly when nothing is due. */
  lemma {:induction false} CollectedNeverExceedsTheTotal(total: nat, steps: seq<Step>)
    ensures var account := Run(Account(total, false, []), steps);
            && Balanced(account) && account.total == total
            && Due(account) == total - Paid(account.payments)
            && (IsPaid(account) <==> Due(account) == 0)
  {
    if steps != [] {
      CollectedNeverExceedsTheTotal(total, steps[..|steps| - 1]);
      StepKeepsTheBalance(Run(Account(total, false, []), steps[..|steps| - 1]), steps[|steps| - 1]);
    }
  }

  /** In every reachable account a payment is taken exactly when it is positive, the order is not closed and the amount in
      whole cents is at most what the total leaves after the live payments; it is then added in whole cents, and refused
      it changes nothing. Paying what is due, to the cent, is always possible on an open order and settles it. */
  lemma {:induction false} PaymentsAreTakenUpToTheDue(total: nat, steps: seq<Step>, amount: real)
    ensures var account := Run(Account(total, false, []), steps);
            var due, after := total - Paid(account.payments), Next(account, Record(amount));
            && (if amount > 0.0 && !account.closed && Money(amount) <= due
                then after == account.(payments := account.payments + [Payment(Money(amount), false)])
                     && Paid(after.payments) == Paid(account.payments) + Money(amount)
                else after == account)
            && (CheckPayment(account, amount) == Some(NotPositive) <==> amount <= 0.0)
            && (CheckPayment(account, amount) == Some(OrderClosed) <==> amount > 0.0 && account.closed)
            && (due > 0 && !account.closed ==>
                  var settled := Next(account, Record(Amount(due)));
                  Due(settled) == 0 && IsPaid(settled) && |settled.payments| == |account.payments| + 1)
  {
    var account := Run(Account(total, false, []), steps);
    var due := total - Paid(account.payments);
    CollectedNeverExceedsTheTotal(total, steps);
    TotalAppend(account.payments, Payment(Money(amount), false), LiveAmount);
    MoneyIsNearest(0.0, due);
    TotalAppend(account.payments, Payment(due, false), LiveAmount);
  }

  /** Voiding a payment that was just recorded gives back exactly what was due before it. */
  lemma VoidUndoesARecord(account: Account, amount: real)
    requires Balanced(account) && CheckPayment(account, amount).None?
    ensures Due(Next(Next(account, Record(amount)), Void(|account.payments|))) == Due(account)
    ensures Due(Next(account, Record(amount))) == Due(account) - Money(amount)
  {
  }

  /** The payment rows of one locked order. */
  class OrderAccount {
    const total: int
    var closed: bool
    var payments: seq<Payment>

    function Value(): Account
      reads this
    {
      Account(total, closed, payments)
    }

    constructor (total: int)
      ensures Value() == Account(total, false, [])
    {
      this.total, closed, payments := total, false, [];
    }

    method RecordPayment(requested: real) returns (r: Result<Payment, Refusal>)
      modifies this`payments
      ensures Value() == Next(old(Value()), Record(requested))
      ensures match r
              case Failure(reason) => CheckPayment(old(Value()), requested) == Some(reason)
              case Success(payment) =>
                && CheckPayment(old(Value()), requested).None?
                && payments == old(payments) + [payment] && payment == Payment(Money(requested), false)
    {
      if requested <= 0.0 {
        return Failure(NotPositive);
      }
      if closed {
        return Failure(OrderClosed);
      }
      var amount := Money(requested);
      var outstanding := total - Paid(payments);
      if amount > outstanding {
        return Failure(ExceedsDue);
      }
      var payment := Payment(amount, false);
      payments := payments + [payment];
      return Success(payment);
    }

    method VoidPayment(i: nat) returns (r: Result<Payment, Refusal>)
      modifies this`payments
      ensures Value() == Next(old(Value()), Void(i))
      ensures r.Failure? <==> i >= |old(payments)| || old(payments)[i].voided
    {
      if i >= |payments| || payments[i].voided {
        return Failure(UnknownPayment);
      }
      payments := payments[i := payments[i].(voided := true)];
      return Success(payments[i]);
    }
  }
}
