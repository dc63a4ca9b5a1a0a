/** The monthly stock report, computed backwards from today's quantity, against forward replay of the ledger. */
module StockReport {
  import opened Wrappers
  import opened Sums
  import opened StockEstimates
  import opened StockLedger

  const MIN_DAYS_FOR_RATE: nat := 3
  const REASONS := [Jam, Misprint, Damaged, Expired, Lost, OtherReason]

  /** Period start inclusive, end exclusive. */
  datatype Period = Period(start: int, end: int)

  datatype MonthRow = MonthRow(item: nat, opening: int, purchased: int, used: int, usedByOrders: int, usedByHand: int,
                               waste: int, wasteByReason: map<WasteReason, int>, adjustment: int, closing: int,
                               isLow: bool, daysLeft: Option<int>, suggested: Option<int>)

  // ---- the aggregates the database returns ----

  predicate Inside(m: Movement, p: Period) {
    p.start <= m.at < p.end
  }

  function OfType(i: nat, p: Period, kind: MovementType): Movement -> int {
    (m: Movement) => if m.item == i && Inside(m, p) && m.kind == kind then m.delta else 0
  }

  function ByOrders(i: nat, p: Period): Movement -> int {
    (m: Movement) => if m.item == i && Inside(m, p) && m.kind.Usage? && m.order.Some? then m.delta else 0
  }

  function ByHand(i: nat, p: Period): Movement -> int {
    (m: Movement) => if m.item == i && Inside(m, p) && m.kind.Usage? && m.order.None? then m.delta else 0
  }

  function Since(i: nat, start: int): Movement -> int {
    (m: Movement) => if m.item == i && m.at >= start then m.delta else 0
  }

  function Before(i: nat, end: int): Movement -> int {
    (m: Movement) => if m.item == i && m.at < end then m.delta else 0
  }

  function Within(i: nat, p: Period): Movement -> int {
    (m: Movement) => if m.item == i && Inside(m, p) then m.delta else 0
  }

  function ReasonOf(m: Movement): WasteReason {
    match m.reason
    case Some(reason) => reason
    case None => OtherReason
  }

  function WasteFor(i: nat, p: Period, reason: WasteReason): Movement -> int {
    (m: Movement) => if m.item == i && Inside(m, p) && m.kind.Waste? && ReasonOf(m) == reason then -m.delta else 0
  }

  predicate Moves(ledger: seq<Movement>, i: nat, p: Period) {
    exists m <- ledger :: m.item == i && Inside(m, p)
  }

  // ---- the row ----

  /** Sum of the groups present, as `sum(moves.values())`. */
  function Net(ledger: seq<Movement>, i: nat, p: Period): int {
    Total(ledger, OfType(i, p, Purchase)) + Total(ledger, OfType(i, p, Usage))
    + Total(ledger, OfType(i, p, Waste)) + Total(ledger, OfType(i, p, Adjustment))
  }

  function WasteSplit(ledger: seq<Movement>, i: nat, p: Period): map<WasteReason, int> {
    map m <- ledger | m.item == i && Inside(m, p) && m.kind.Waste? ::
      ReasonOf(m) := Total(ledger, WasteFor(i, p, ReasonOf(m)))
  }

  function RowFor(shop: Shop, i: nat, p: Period, elapsed: Days): MonthRow
    requires i < |shop.items|
  {
    var item, ledger := shop.items[i], shop.ledger;
    var closing := item.quantity - Total(ledger, Since(i, p.end));
    var opening := closing - Net(ledger, i, p);
    var used := -Total(ledger, OfType(i, p, Usage));
    var usedByOrders := -Total(ledger, ByOrders(i, p));
    var projected := elapsed >= MIN_DAYS_FOR_RATE && used > 0;
    MonthRow(i, opening, Total(ledger, OfType(i, p, Purchase)), used, usedByOrders, used - usedByOrders,
             -Total(ledger, OfType(i, p, Waste)), WasteSplit(ledger, i, p),
             Total(ledger, OfType(i, p, Adjustment)), closing,
             item.rules.active && item.rules.reorderLevel > 0 && item.quantity <= item.rules.reorderLevel,
             if projected then Some(DaysLeft(closing, used, elapsed)) else None,
             if projected then Some(Suggested(closing, used, elapsed)) else None)
  }

  /** The items a report is about: those not deleted that are active or were moved in the period. */
  predicate Listed(shop: Shop, i: nat, p: Period)
    requires i < |shop.items|
  {
    && !shop.items[i].rules.deleted
    && (shop.items[i].rules.active || exists m <- shop.ledger :: m.item == i && p.start <= m.at && m.at < p.end)
  }

  // ---- forward replay ----

  /** What the shelf held at `time` according to the rows themselves: the `quantity_after` of the last earlier one. */
  function Replayed(base: seq<nat>, ledger: seq<Movement>, i: nat, time: int): int
    requires i < |base|
  {
    if ledger == [] then base[i] else
    var last := ledger[|ledger| - 1];
    if last.item == i && last.at < time then last.after else Replayed(base, ledger[..|ledger| - 1], i, time)
  }

  lemma {:induction false} BeforeIsEverything(ledger: seq<Movement>, i: nat, time: int)
    requires forall j :: 0 <= j < |ledger| && ledger[j].item == i ==> ledger[j].at < time
    ensures Total(ledger, Before(i, time)) == Total(ledger, DeltaOf(i))
  {
    if ledger != [] {
      BeforeIsEverything(ledger[..|ledger| - 1], i, time);
    }
  }

  lemma {:induction false} ReplayIsTheEarlierSum(base: seq<nat>, shop: Shop, i: nat, time: int, n: nat)
    requires Sound(base, shop) && Chronological(shop.ledger, i) && i < |base| && n <= |shop.ledger|
    ensures Replayed(base, shop.ledger[..n], i, time) == base[i] + Total(shop.ledger[..n], Before(i, time))
    decreases n
  {
    if n > 0 {
      var ledger := shop.ledger[..n];
      var init, last := ledger[..n - 1], ledger[n - 1];
      assert init == shop.ledger[..n - 1];
      ReplayIsTheEarlierSum(base, shop, i, time, n - 1);
      if last.item == i && last.at < time {
        assert RowSound(base, shop.ledger, n - 1);
        BeforeIsEverything(ledger, i, time);
      }
    }
  }

  lemma {:induction false} SplitAt(ledger: seq<Movement>, i: nat, time: int)
    ensures Total(ledger, DeltaOf(i)) == Total(ledger, Before(i, time)) + Total(ledger, Since(i, time))
  {
    TotalSplit(ledger, DeltaOf(i), Before(i, time), Since(i, time));
  }

  lemma NetIsTheMonth(ledger: seq<Movement>, i: nat, p: Period)
    requires p.start <= p.end
    ensures Net(ledger, i, p) == Total(ledger, Before(i, p.end)) - Total(ledger, Before(i, p.start))
  {
  }

  /** The report refines forward replay: its opening and closing balances are what the shelf held at the two ends of the
      period, although it is computed backwards from today. */
  lemma ReportIsForwardReplay(base: seq<nat>, shop: Shop, i: nat, p: Period, elapsed: Days)
    requires Sound(base, shop) && Chronological(shop.ledger, i) && i < |base| && p.start <= p.end
    ensures RowFor(shop, i, p, elapsed).closing == Replayed(base, shop.ledger, i, p.end)
    ensures RowFor(shop, i, p, elapsed).opening == Replayed(base, shop.ledger, i, p.start)
    ensures RowFor(shop, i, p, elapsed).closing >= 0 && RowFor(shop, i, p, elapsed).opening >= 0
  {
    var ledger := shop.ledger;
    assert ledger[..|ledger|] == ledger;
    assert ItemSound(base, shop, i);
    SplitAt(ledger, i, p.end);
    NetIsTheMonth(ledger, i, p);
    ReplayIsTheEarlierSum(base, shop, i, p.end, |ledger|);
    ReplayIsTheEarlierSum(base, shop, i, p.start, |ledger|);
    ReplayedIsNotNegative(base, shop, i, p.end, |ledger|);
    ReplayedIsNotNegative(base, shop, i, p.start, |ledger|);
  }

  lemma {:induction false} ReplayedIsNotNegative(base: seq<nat>, shop: Shop, i: nat, time: int, n: nat)
    requires Sound(base, shop) && i < |base| && n <= |shop.ledger|
    ensures Replayed(base, shop.ledger[..n], i, time) >= 0
    decreases n
  {
    if n > 0 {
      assert shop.ledger[..n][..n - 1] == shop.ledger[..n - 1];
      assert RowSound(base, shop.ledger, n - 1);
      ReplayedIsNotNegative(base, shop, i, time, n - 1);
    }
  }

  lemma LaterMovements(ledger: seq<Movement>, seen: nat, i: nat, time: int)
    requires seen <= |ledger|
    ensures Total(ledger, Since(i, time)) == Total(ledger[..seen], Since(i, time)) + Total(ledger[seen..], Since(i, time))
  {
    assert ledger == ledger[..seen] + ledger[seen..];
    TotalConcat(ledger[..seen], ledger[seen..], Since(i, time));
  }

  /** The aggregates are read before the items. A report whose aggregates saw only the first `seen` movements is off, at each
      end of the period, by exactly the item's movements of that moment or later that it missed; so it is exact exactly
      when those cancel out, and in particular when there are none. */
  lemma {:induction false} ATornReportIsOffByWhatItMissed(base: seq<nat>, shop: Shop, seen: nat, i: nat, p: Period,
                                                          elapsed: Days)
    requires Sound(base, shop) && Chronological(shop.ledger, i) && i < |base| && p.start <= p.end
    requires seen <= |shop.ledger|
    ensures var row := RowFor(shop.(ledger := shop.ledger[..seen]), i, p, elapsed);
            var missed := shop.ledger[seen..];
            && row.closing == Replayed(base, shop.ledger, i, p.end) + Total(missed, Since(i, p.end))
            && row.opening == Replayed(base, shop.ledger, i, p.start) + Total(missed, Since(i, p.start))
  {
    ReportIsForwardReplay(base, shop, i, p, elapsed);
    LaterMovements(shop.ledger, seen, i, p.end);
    LaterMovements(shop.ledger, seen, i, p.start);
    OpeningLooksBack(shop, i, p, elapsed);
    OpeningLooksBack(shop.(ledger := shop.ledger[..seen]), i, p, elapsed);
  }

  /** The opening balance is today's quantity less everything since the period began. */
  lemma OpeningLooksBack(shop: Shop, i: nat, p: Period, elapsed: Days)
    requires i < |shop.items| && p.start <= p.end
    ensures RowFor(shop, i, p, elapsed).opening == shop.items[i].quantity - Total(shop.ledger, Since(i, p.start))
  {
    SplitAt(shop.ledger, i, p.end);
    SplitAt(shop.ledger, i, p.start);
    NetIsTheMonth(shop.ledger, i, p);
  }

  /** The row adds up, the two kinds of use and the waste reasons account for their totals, whatever the ledger holds. */
  lemma RowAddsUp(shop: Shop, i: nat, p: Period, elapsed: Days)
    requires i < |shop.items|
    ensures var r := RowFor(shop, i, p, elapsed);
            && r.opening + r.purchased - r.used - r.waste + r.adjustment == r.closing
            && r.usedByHand == -Total(shop.ledger, ByHand(i, p))
            && r.waste == SumOver(r.wasteByReason, REASONS)
  {
    TotalSplit(shop.ledger, OfType(i, p, Usage), ByOrders(i, p), ByHand(i, p));
    WasteSplitsByReason(shop.ledger, i, p);
  }

  function SumOver(split: map<WasteReason, int>, reasons: seq<WasteReason>): int {
    if reasons == [] then 0
    else SumOver(split, reasons[..|reasons| - 1])
         + if reasons[|reasons| - 1] in split then split[reasons[|reasons| - 1]] else 0
  }

  /** Waste with one of the given reasons. */
  function WasteAmong(i: nat, p: Period, reasons: seq<WasteReason>): Movement -> int {
    (m: Movement) => if m.item == i && Inside(m, p) && m.kind.Waste? && ReasonOf(m) in reasons then -m.delta else 0
  }

  lemma {:induction false} WasteAddsUp(ledger: seq<Movement>, i: nat, p: Period, reasons: seq<WasteReason>)
    requires forall j, k :: 0 <= j < k < |reasons| ==> reasons[j] != reasons[k]
    ensures SumOver(WasteSplit(ledger, i, p), reasons) == Total(ledger, WasteAmong(i, p, reasons))
  {
    if reasons == [] {
      TotalZero(ledger, WasteAmong(i, p, reasons));
    } else {
      var init, last := reasons[..|reasons| - 1], reasons[|reasons| - 1];
      WasteAddsUp(ledger, i, p, init);
      assert reasons == init + [last];
      TotalSplit(ledger, WasteAmong(i, p, reasons), WasteAmong(i, p, init), WasteFor(i, p, last));
      if last !in WasteSplit(ledger, i, p) {
        forall m | m in ledger ensures WasteFor(i, p, last)(m) == 0 {
          assert m.item == i && Inside(m, p) && m.kind.Waste? ==> ReasonOf(m) in WasteSplit(ledger, i, p);
        }
        TotalZero(ledger, WasteFor(i, p, last));
      }
    }
  }

  lemma EveryReasonIsListed(reason: WasteReason)
    ensures reason in REASONS
  {
  }

  lemma WasteSplitsByReason(ledger: seq<Movement>, i: nat, p: Period)
    ensures SumOver(WasteSplit(ledger, i, p), REASONS) == -Total(ledger, OfType(i, p, Waste))
  {
    WasteAddsUp(ledger, i, p, REASONS);
    forall m | m in ledger ensures WasteAmong(i, p, REASONS)(m) + OfType(i, p, Waste)(m) == 0 {
      EveryReasonIsListed(ReasonOf(m));
    }
    var zero := (m: Movement) => 0;
    TotalZero(ledger, zero);
    var both := (m: Movement) => WasteAmong(i, p, REASONS)(m) + OfType(i, p, Waste)(m);
    TotalSplit(ledger, both, WasteAmong(i, p, REASONS), OfType(i, p, Waste));
    TotalZero(ledger, both);
  }

  /** One month closes where the next one opens. */
  lemma MonthsAreContinuous(shop: Shop, i: nat, first: Period, next: Period, e: Days, e': Days)
    requires i < |shop.items| && first.start <= first.end == next.start <= next.end
    ensures RowFor(shop, i, next, e').opening == RowFor(shop, i, first, e).closing
  {
    SplitAt(shop.ledger, i, first.end);
    SplitAt(shop.ledger, i, next.end);
    NetIsTheMonth(shop.ledger, i, next);
  }

  // ---- the report loop ----

  /** The rows are those of the first n items that are listed, each as it should be, in the order of the items. */
  predicate Reports(shop: Shop, p: Period, elapsed: Days, n: nat, rows: seq<MonthRow>)
    requires n <= |shop.items|
  {
    && (forall k :: 0 <= k < |rows| ==>
          rows[k].item < n && Listed(shop, rows[k].item, p) && rows[k] == RowFor(shop, rows[k].item, p, elapsed))
    && (forall j, k :: 0 <= j < k < |rows| ==> rows[j].item < rows[k].item)
    && (forall i :: 0 <= i < n && Listed(shop, i, p) ==> exists k :: 0 <= k < |rows| && rows[k].item == i)
  }

  /** One row for every item that is not deleted and is active or moved in the period, and no other. */
  method Monthly(shop: Shop, p: Period, elapsed: Days) returns (rows: seq<MonthRow>)
    ensures Reports(shop, p, elapsed, |shop.items|, rows)
  {
    rows := [];
    for i := 0 to |shop.items|
      invariant Reports(shop, p, elapsed, i, rows)
    {
      var moves := Moves(shop.ledger, i, p);
      if shop.items[i].rules.deleted || (!shop.items[i].rules.active && !moves) {
        assert !Listed(shop, i, p);
        continue;
      }
      ghost var before := rows;
      rows := rows + [RowFor(shop, i, p, elapsed)];
      assert rows[|before|].item == i;
      forall j | 0 <= j < i && Listed(shop, j, p) ensures exists k :: 0 <= k < |rows| && rows[k].item == j {
        var k :| 0 <= k < |before| && before[k].item == j;
        assert rows[k].item == j;
      }
    }
  }
}
