/** How a movement or a delivery shows in the monthly report: in which columns of its item's row, and by how much. */
module StockMonth {
  import opened StockConsumption
  import opened StockEffects
  import opened StockEstimates
  import opened StockLedger
  import opened StockReport
  import opened StockRuns
  import opened Sums
  import opened Wrappers

  /** Weights that only look at the movements of item i see nothing else of the ledger. */
  lemma {:induction false} OnlyItsRowsWeigh(ledger: seq<Movement>, i: nat, weight: Movement -> int)
    requires forall m: Movement :: m.item != i ==> weight(m) == 0
    ensures Total(ledger, weight) == Total(RowsOf(ledger, i), weight)
  {
    if ledger != [] {
      var init, last := ledger[..|ledger| - 1], ledger[|ledger| - 1];
      OnlyItsRowsWeigh(init, i, weight);
      if last.item == i {
        TotalAppend(RowsOf(init, i), last, weight);
      }
    }
  }

  /** The later ledger has at most one more row of the item. */
  predicate OneMore(ledger: seq<Movement>, later: seq<Movement>, i: nat, m: Option<Movement>) {
    && (m.Some? ==> m.value.item == i)
    && RowsOf(later, i) == if m.Some? then RowsOf(ledger, i) + [m.value] else RowsOf(ledger, i)
  }

  lemma GrowsByOne(ledger: seq<Movement>, later: seq<Movement>, i: nat, m: Option<Movement>, weight: Movement -> int)
    requires OneMore(ledger, later, i, m) && forall m: Movement :: m.item != i ==> weight(m) == 0
    ensures Total(later, weight) == Total(ledger, weight) + if m.Some? then weight(m.value) else 0
  {
    OnlyItsRowsWeigh(ledger, i, weight);
    OnlyItsRowsWeigh(later, i, weight);
    if m.Some? {
      TotalAppend(RowsOf(ledger, i), m.value, weight);
    }
  }

  function WasteOf(r: MonthRow, reason: WasteReason): int {
    if reason in r.wasteByReason then r.wasteByReason[reason] else 0
  }

  lemma WasteOfIsATotal(shop: Shop, i: nat, p: Period, elapsed: Days, reason: WasteReason)
    requires i < |shop.items|
    ensures WasteOf(RowFor(shop, i, p, elapsed), reason) == Total(shop.ledger, WasteFor(i, p, reason))
  {
    if reason !in WasteSplit(shop.ledger, i, p) {
      forall m | m in shop.ledger ensures WasteFor(i, p, reason)(m) == 0 {
        assert m.item == i && Inside(m, p) && m.kind.Waste? ==> ReasonOf(m) in WasteSplit(shop.ledger, i, p);
      }
      TotalZero(shop.ledger, WasteFor(i, p, reason));
    }
  }

  predicate InMonth(m: Option<Movement>, p: Period) {
    m.Some? && p.start <= m.value.at && m.value.at < p.end
  }

  function DeltaIf(m: Option<Movement>, counts: bool): int {
    if m.Some? && counts then m.value.delta else 0
  }

  /** The columns of the item's row before and after one more movement of it. */
  ghost predicate Grows(r: MonthRow, r': MonthRow, m: Option<Movement>, p: Period) {
    && r'.purchased == r.purchased + DeltaIf(m, InMonth(m, p) && m.value.kind.Purchase?)
    && r'.used == r.used - DeltaIf(m, InMonth(m, p) && m.value.kind.Usage?)
    && r'.usedByOrders == r.usedByOrders - DeltaIf(m, InMonth(m, p) && m.value.kind.Usage? && m.value.order.Some?)
    && r'.usedByHand == r.usedByHand - DeltaIf(m, InMonth(m, p) && m.value.kind.Usage? && m.value.order.None?)
    && r'.waste == r.waste - DeltaIf(m, InMonth(m, p) && m.value.kind.Waste?)
    && r'.adjustment == r.adjustment + DeltaIf(m, InMonth(m, p) && m.value.kind.Adjustment?)
    && (forall reason :: WasteOf(r', reason) == WasteOf(r, reason)
          - DeltaIf(m, InMonth(m, p) && m.value.kind.Waste?
                       && reason == if m.value.reason.Some? then m.value.reason.value else OtherReason))
  }

  lemma WasteOfARow(m: Movement, i: nat, p: Period, reason: WasteReason)
    requires m.item == i
    ensures WasteFor(i, p, reason)(m)
         == -DeltaIf(Some(m), InMonth(Some(m), p) && m.kind.Waste?
                              && reason == if m.reason.Some? then m.reason.value else OtherReason)
  {
  }

  lemma {:induction false} WasteGrows(shop: Shop, shop': Shop, i: nat, m: Option<Movement>, p: Period,
                                      elapsed: Days, reason: WasteReason)
    requires i < |shop.items| && i < |shop'.items| && OneMore(shop.ledger, shop'.ledger, i, m)
    ensures WasteOf(RowFor(shop', i, p, elapsed), reason) == WasteOf(RowFor(shop, i, p, elapsed), reason)
            - DeltaIf(m, InMonth(m, p) && m.value.kind.Waste?
                         && reason == if m.value.reason.Some? then m.value.reason.value else OtherReason)
  {
    WasteOfIsATotal(shop, i, p, elapsed, reason);
    WasteOfIsATotal(shop', i, p, elapsed, reason);
    var weight := WasteFor(i, p, reason);
    GrowsByOne(shop.ledger, shop'.ledger, i, m, weight);
    if m.Some? {
      WasteOfARow(m.value, i, p, reason);
    }
  }

  lemma {:induction false} ColumnsGrow(shop: Shop, shop': Shop, i: nat, m: Option<Movement>, p: Period,
                                       elapsed: Days)
    requires i < |shop.items| && i < |shop'.items| && OneMore(shop.ledger, shop'.ledger, i, m)
    ensures Grows(RowFor(shop, i, p, elapsed), RowFor(shop', i, p, elapsed), m, p)
  {
    GrowsByOne(shop.ledger, shop'.ledger, i, m, OfType(i, p, Purchase));
    GrowsByOne(shop.ledger, shop'.ledger, i, m, OfType(i, p, Usage));
    GrowsByOne(shop.ledger, shop'.ledger, i, m, OfType(i, p, Waste));
    GrowsByOne(shop.ledger, shop'.ledger, i, m, OfType(i, p, Adjustment));
    GrowsByOne(shop.ledger, shop'.ledger, i, m, ByOrders(i, p));
    forall reason: WasteReason
      ensures WasteOf(RowFor(shop', i, p, elapsed), reason) == WasteOf(RowFor(shop, i, p, elapsed), reason)
              - DeltaIf(m, InMonth(m, p) && m.value.kind.Waste?
                           && reason == if m.value.reason.Some? then m.value.reason.value else OtherReason)
    {
      WasteGrows(shop, shop', i, m, p, elapsed, reason);
    }
  }

  lemma {:induction false} BalancesGrow(shop: Shop, shop': Shop, i: nat, m: Option<Movement>, p: Period,
                                        elapsed: Days)
    requires i < |shop.items| && i < |shop'.items| && OneMore(shop.ledger, shop'.ledger, i, m)
    requires shop'.items[i].quantity == shop.items[i].quantity + DeltaIf(m, true)
    requires p.start <= p.end
    ensures var r, r' := RowFor(shop, i, p, elapsed), RowFor(shop', i, p, elapsed);
            && r'.opening == r.opening + DeltaIf(m, m.Some? && m.value.at < p.start)
            && r'.closing == r.closing + DeltaIf(m, m.Some? && m.value.at < p.end)
  {
    OpeningLooksBack(shop, i, p, elapsed);
    OpeningLooksBack(shop', i, p, elapsed);
    GrowsByOne(shop.ledger, shop'.ledger, i, m, Since(i, p.start));
    GrowsByOne(shop.ledger, shop'.ledger, i, m, Since(i, p.end));
  }

  // ---- movements recorded by hand ----

  /** What the entry asks of item i's column for this kind, if it falls in the period. */
  function AskedIn(e: Entry, i: nat, p: Period, kind: MovementType): int {
    if e.item == i && p.start <= e.at && e.at < p.end && e.kind == kind then e.quantity else 0
  }

  lemma {:induction false} TheRecordedRow(shop: Shop, e: Entry) returns (row: Movement)
    requires Acceptable(shop.items, e)
    ensures var after := Next(shop, Record(e));
            && |after.items| == |shop.items| && after.ledger == shop.ledger + [row]
            && (forall i :: 0 <= i < |shop.items| ==>
                  && after.items[i].quantity == shop.items[i].quantity + (if i == e.item then Asked(e) else 0)
                  && after.items[i].rules == shop.items[i].rules)
            && row.item == e.item && row.kind == e.kind && row.delta == Asked(e) && row.at == e.at && row.order.None?
            && row.reason == (if e.kind.Waste? then e.reason else None)
  {
    var after := Next(shop, Record(e));
    ARecordDoesWhatIsAsked(shop, e);
    row := after.ledger[|shop.ledger|];
  }

  /** A movement recorded by hand raises exactly its own column, by the quantity asked for, in the month it falls in: bought,
      used and used by hand, wasted and wasted for its reason, or adjusted. Later months open, and it and later months
      close, with the changed stock; the rows of other items do not move. */
  lemma {:induction false} ARecordShowsInItsColumn(shop: Shop, e: Entry, i: nat, p: Period, elapsed: Days)
    requires Acceptable(shop.items, e) && i < |shop.items| && p.start <= p.end
    ensures |Next(shop, Record(e)).items| == |shop.items|
    ensures var r, r' := RowFor(shop, i, p, elapsed), RowFor(Next(shop, Record(e)), i, p, elapsed);
            && r'.purchased == r.purchased + AskedIn(e, i, p, Purchase)
            && r'.used == r.used + AskedIn(e, i, p, Usage)
            && r'.usedByHand == r.usedByHand + AskedIn(e, i, p, Usage) && r'.usedByOrders == r.usedByOrders
            && r'.waste == r.waste + AskedIn(e, i, p, Waste)
            && (forall reason :: WasteOf(r', reason) == WasteOf(r, reason)
                  + if reason == (if e.reason.Some? then e.reason.value else OtherReason)
                    then AskedIn(e, i, p, Waste) else 0)
            && r'.adjustment == r.adjustment + AskedIn(e, i, p, Adjustment)
            && r'.opening == r.opening + (if e.item == i && e.at < p.start then Asked(e) else 0)
            && r'.closing == r.closing + (if e.item == i && e.at < p.end then Asked(e) else 0)
  {
    var after := Next(shop, Record(e));
    var row := TheRecordedRow(shop, e);
    var m := if e.item == i then Some(row) else None;
    OneRow(shop.ledger, row, i);
    ColumnsGrow(shop, after, i, m, p, elapsed);
    BalancesGrow(shop, after, i, m, p, elapsed);
    AskedColumns(RowFor(shop, i, p, elapsed), RowFor(after, i, p, elapsed), e, row, i, p);
  }

  lemma {:induction false} AskedColumns(r: MonthRow, r': MonthRow, e: Entry, row: Movement, i: nat, p: Period)
    requires Grows(r, r', if e.item == i then Some(row) else None, p)
    requires row.kind == e.kind && row.delta == Asked(e) && row.at == e.at && row.order.None?
    requires row.reason == if e.kind.Waste? then e.reason else None
    ensures && r'.purchased == r.purchased + AskedIn(e, i, p, Purchase)
            && r'.used == r.used + AskedIn(e, i, p, Usage)
            && r'.usedByHand == r.usedByHand + AskedIn(e, i, p, Usage) && r'.usedByOrders == r.usedByOrders
            && r'.waste == r.waste + AskedIn(e, i, p, Waste)
            && (forall reason :: WasteOf(r', reason) == WasteOf(r, reason)
                  + if reason == (if e.reason.Some? then e.reason.value else OtherReason)
                    then AskedIn(e, i, p, Waste) else 0)
            && r'.adjustment == r.adjustment + AskedIn(e, i, p, Adjustment)
  {
  }

  // ---- deliveries ----

  /** What a delivery changes of the item: its quantity, and one row of the ledger if anything was taken. */
  lemma {:induction false} WhatADeliveryChanges(shop: Shop, order: nat, lines: seq<Line>, at: int, i: nat)
    returns (m: Option<Movement>)
    requires StockRuns.Inv(shop) && order !in shop.deducted && i < |shop.items|
    ensures var after, take := Next(shop, Deliver(order, lines, at)), TakenBy(shop.items[i], lines);
            && |after.items| == |shop.items| && after.items[i].quantity == shop.items[i].quantity - take
            && take >= 0 && OneMore(shop.ledger, after.ledger, i, m)
            && m == if take > 0
                    then Some(Movement(i, Usage, -take, shop.items[i].quantity - take, at, None, "", None, Some(order)))
                    else None
  {
    ADeliveryTakesWhatWasUsed(shop, order, lines, at, i);
    var take := TakenBy(shop.items[i], lines);
    m := if take > 0
         then Some(Movement(i, Usage, -take, shop.items[i].quantity - take, at, None, "", None, Some(order)))
         else None;
  }

  /** A delivery shows as use, and as use by orders, in the month it falls in, by what it took from the shelf; it shows
      nowhere else. */
  lemma {:induction false} ADeliveryShowsAsUse(shop: Shop, order: nat, lines: seq<Line>, at: int, i: nat, p: Period,
                                               elapsed: Days)
    requires StockRuns.Inv(shop) && order !in shop.deducted && i < |shop.items| && p.start <= p.end
    ensures |Next(shop, Deliver(order, lines, at)).items| == |shop.items|
    ensures var r, r' := RowFor(shop, i, p, elapsed), RowFor(Next(shop, Deliver(order, lines, at)), i, p, elapsed);
            var take := TakenBy(shop.items[i], lines);
            var used := if p.start <= at < p.end then take else 0;
            && r'.used == r.used + used && r'.usedByOrders == r.usedByOrders + used && r'.usedByHand == r.usedByHand
            && r'.purchased == r.purchased && r'.waste == r.waste && r'.adjustment == r.adjustment
            && (forall reason :: WasteOf(r', reason) == WasteOf(r, reason))
            && r'.opening == r.opening - (if at < p.start then take else 0)
            && r'.closing == r.closing - (if at < p.end then take else 0)
  {
    var m := WhatADeliveryChanges(shop, order, lines, at, i);
    ColumnsGrow(shop, Next(shop, Deliver(order, lines, at)), i, m, p, elapsed);
    BalancesGrow(shop, Next(shop, Deliver(order, lines, at)), i, m, p, elapsed);
  }

  // ---- the other columns ----

  /** An item without movements shows its quantity at both ends and nothing in between. */
  lemma {:induction false} AQuietItemShowsItsStock(shop: Shop, i: nat, p: Period, elapsed: Days)
    requires i < |shop.items| && forall m <- shop.ledger :: m.item != i
    ensures var r := RowFor(shop, i, p, elapsed);
            && r.opening == r.closing == shop.items[i].quantity
            && r.purchased == r.used == r.usedByOrders == r.usedByHand == r.waste == r.adjustment == 0
            && r.wasteByReason == map[]
  {
    TotalZero(shop.ledger, OfType(i, p, Purchase));
    TotalZero(shop.ledger, OfType(i, p, Usage));
    TotalZero(shop.ledger, OfType(i, p, Waste));
    TotalZero(shop.ledger, OfType(i, p, Adjustment));
    TotalZero(shop.ledger, ByOrders(i, p));
    TotalZero(shop.ledger, Since(i, p.end));
  }

  /** An active item with a level is low exactly when today's quantity is at the level or below; estimates are given exactly
      when at least three days of the month have passed and something was used, from the row's own closing and use. */
  lemma WhatTheRowSaysOfToday(shop: Shop, i: nat, p: Period, elapsed: Days)
    requires i < |shop.items|
    ensures var r, item := RowFor(shop, i, p, elapsed), shop.items[i];
            && r.item == i
            && (r.isLow <==> item.rules.active && 0 < item.rules.reorderLevel && item.quantity <= item.rules.reorderLevel)
            && (r.daysLeft.Some? <==> elapsed >= 3 && r.used > 0) && (r.suggested.Some? <==> elapsed >= 3 && r.used > 0)
            && (r.daysLeft.Some? ==> && r.daysLeft.value == DaysLeft(r.closing, r.used, elapsed)
                                     && r.suggested.value == Suggested(r.closing, r.used, elapsed))
  {
  }
}
