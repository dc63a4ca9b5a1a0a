/** What each action does to the shelf and to its ledger, in the quantities that were asked for. */
module StockEffects {
  import opened Numbers
  import opened StockConsumption
  import opened StockLedger
  import opened StockRuns
  import opened Sums
  import opened Wrappers

  // ---- one movement ----

  /** How the stock should change: bought and adjusted stock is added, used and wasted stock is taken off. */
  function Asked(e: Entry): int {
    match e.kind
    case Purchase => e.quantity
    case Usage => -e.quantity
    case Waste => -e.quantity
    case Adjustment => e.quantity
  }

  predicate Acceptable(items: seq<Item>, e: Entry) {
    && e.quantity != 0 && (e.quantity > 0 || e.kind.Adjustment?)
    && e.item < |items| && items[e.item].quantity + Asked(e) >= 0
  }

  /** The item has changed by what was asked for, a purchase with a price has set the price, the ledger has one new row
      saying so, and nothing else is different. */
  predicate Carried(before: Shop, e: Entry, after: Shop)
    requires e.item < |before.items|
  {
    && |after.items| == |before.items| && after.deducted == before.deducted
    && (forall i :: 0 <= i < |before.items| && i != e.item ==> after.items[i] == before.items[i])
    && |after.ledger| == |before.ledger| + 1 && before.ledger <= after.ledger
    && var was, now, row := before.items[e.item], after.items[e.item], after.ledger[|before.ledger|];
       && now.quantity == was.quantity + Asked(e) && now.pending == was.pending && now.rules == was.rules
       && (if e.kind.Purchase? && e.unitCost.Some?
           then now.unitCost == e.unitCost.value
                && now.currency == (if e.currency == "" then was.currency else e.currency)
           else now.unitCost == was.unitCost && now.currency == was.currency)
       && row.item == e.item && row.kind == e.kind && row.delta == Asked(e) && row.after == now.quantity
       && row.at == e.at && row.order == e.order && row.reason == (if e.kind.Waste? then e.reason else None)
       && row.unitCost == e.unitCost
       && row.currency == (if e.currency != "" || e.unitCost.None? then e.currency else now.currency)
  }

  /** A movement is accepted exactly when it asks for something, in the right sign, of an item that exists and has enough;
      it then does what is asked. */
  lemma AMovementDoesWhatIsAsked(shop: Shop, e: Entry)
    ensures Check(shop.items, e).None? <==> Acceptable(shop.items, e)
    ensures Acceptable(shop.items, e) ==> Carried(shop, e, Moved(shop, e))
    ensures Check(shop.items, e) == Some(NotEnoughStock) <==>
              && e.quantity != 0 && (e.quantity > 0 || e.kind.Adjustment?)
              && e.item < |shop.items| && shop.items[e.item].quantity + Asked(e) < 0
  {
  }

  /** Recording a movement by hand carries it out, or changes nothing at all. */
  lemma ARecordDoesWhatIsAsked(shop: Shop, e: Entry)
    ensures if Acceptable(shop.items, e) then Carried(shop, e.(order := None), Next(shop, Record(e)))
            else Next(shop, Record(e)) == shop
  {
    AMovementDoesWhatIsAsked(shop, e);
    AMovementDoesWhatIsAsked(shop, e.(order := None));
  }

  /** A movement alerts exactly when it takes an active item other than ink from stock to none, or from above its level to
      the level or below without emptying it; items switched off, deleted or without a level never run low. */
  lemma AnAlertIsACrossing(shop: Shop, e: Entry)
    requires Acceptable(shop.items, e) && shop.items[e.item].quantity >= 0
    ensures var was, now := shop.items[e.item], Moved(shop, e).items[e.item];
            var alert := AlertKind(was.rules, was.quantity, now.quantity);
            var watched := was.rules.active && !was.rules.deleted && was.rules.category != Ink;
            && (alert == Some(OutOfStock) <==> watched && was.quantity > 0 && now.quantity == 0)
            && (alert == Some(LowStock) <==>
                  && watched && was.quantity > was.rules.reorderLevel > 0
                  && 0 < now.quantity <= was.rules.reorderLevel)
            && (alert.Some? ==> Asked(e) < 0)
  {
  }

  // ---- new items and edits ----

  /** No live item carries the key. */
  predicate KeyUnclaimed(items: seq<Item>, key: Option<Key>, except: nat) {
    key.None? || forall i :: 0 <= i < |items| && i != except && items[i].rules.key == key ==> items[i].rules.deleted
  }

  /** An item is created, exactly when its key is free, with its opening balance as the first and only movement. */
  lemma ANewItemOpensInTheLedger(shop: Shop, rules: Rules, unitCost: int, currency: string, opening: nat, at: int)
    ensures var after := Next(shop, Create(rules, unitCost, currency, opening, at));
            if rules.deleted || KeyUnclaimed(shop.items, rules.key, |shop.items|)
            then && after.items == shop.items + [Item(rules, opening, 0, unitCost, currency)]
                 && after.ledger == shop.ledger
                    + (if opening == 0 then []
                       else [Movement(|shop.items|, Adjustment, opening, opening, at, None, "", None, None)])
                 && after.deducted == shop.deducted
            else after == shop
  {
    if KeyFree(shop.items, rules, |shop.items|) && opening > 0 {
      var added := Added(shop, Item(rules, 0, 0, unitCost, currency));
      AMovementDoesWhatIsAsked(added, Opening(|shop.items|, opening, at));
    }
  }

  /** The seed command puts stock on the shelf, exactly when the key is free, without a movement. */
  lemma ASeededItemHasNoMovement(shop: Shop, rules: Rules, unitCost: int, currency: string, quantity: nat)
    ensures Next(shop, Seed(rules, unitCost, currency, quantity))
         == if rules.deleted || KeyUnclaimed(shop.items, rules.key, |shop.items|)
            then shop.(items := shop.items + [Item(rules, quantity, 0, unitCost, currency)])
            else shop
  {
  }

  /** An edit is saved exactly when its key is free; the row then has the edited columns and the loaded quantity and debt,
      and nothing else changes. */
  lemma ASaveWritesTheLoadedRow(desk: Desk, load: Action, between: seq<Action>, save: Action)
    requires load.Load? && load.item < |desk.shop.items| && !desk.shop.items[load.item].rules.deleted
    requires save.Save? && save.saver == load.session
    requires DeskInv(desk)
    requires forall k :: 0 <= k < |between| ==> !between[k].Load? && !between[k].Save?
    ensures var i, loaded := load.item, desk.shop.items[load.item];
            var last := Continue(Turn(desk, load), between);
            var after := Turn(last, save).shop;
            && i < |last.shop.items|
            && if save.rules.deleted || KeyUnclaimed(last.shop.items, save.rules.key, i)
               then && |after.items| == |last.shop.items|
                    && after.items[i] == Item(save.rules, loaded.quantity, loaded.pending, save.unitCost, save.currency)
                    && (forall j :: 0 <= j < |after.items| && j != i ==> after.items[j] == last.shop.items[j])
                    && after.ledger == last.shop.ledger && after.deducted == last.shop.deducted
               else after == last.shop
  {
    DraftsWait(Turn(desk, load), between);
  }

  lemma {:induction false} DraftsWait(desk: Desk, between: seq<Action>)
    requires DeskInv(desk) && forall k :: 0 <= k < |between| ==> !between[k].Load? && !between[k].Save?
    ensures Continue(desk, between).drafts == desk.drafts && DeskInv(Continue(desk, between))
    ensures |Continue(desk, between).shop.items| >= |desk.shop.items|
  {
    if between != [] {
      DraftsWait(desk, between[..|between| - 1]);
      TurnKeeps(Continue(desk, between[..|between| - 1]), between[|between| - 1]);
    }
  }

  // ---- one delivery ----

  function UsesOf(lines: seq<Line>, key: Key): int {
    if key.PerOrder? then 1 else Total(lines, LineUse(key))
  }

  /** The item is metered for something the order used. */
  predicate Serves(item: Item, lines: seq<Line>) {
    && item.rules.active && !item.rules.deleted && item.rules.perUse > 0
    && item.rules.key.Some? && Mentioned(lines, item.rules.key.value)
  }

  /** Everything the item owes once the order is charged, in millionths. */
  function OwedWith(item: Item, lines: seq<Line>): int {
    if Serves(item, lines) then item.pending + UsesOf(lines, item.rules.key.value) * item.rules.perUse else item.pending
  }

  /** The whole hundredths of it, as far as the shelf has them. */
  function TakenBy(item: Item, lines: seq<Line>): int {
    if Serves(item, lines) then Min(OwedWith(item, lines) / 10000, item.quantity) else 0
  }

  function RowsOf(ledger: seq<Movement>, i: nat): seq<Movement> {
    if ledger == [] then []
    else if ledger[|ledger| - 1].item == i then RowsOf(ledger[..|ledger| - 1], i) + [ledger[|ledger| - 1]]
    else RowsOf(ledger[..|ledger| - 1], i)
  }

  /** The rows about item i are those before and one for what was taken, if anything. */
  predicate Books(before: seq<Movement>, after: seq<Movement>, i: nat, take: int, left: int, order: nat, at: int) {
    && before <= after
    && if take > 0
       then RowsOf(after, i) == RowsOf(before, i) + [Movement(i, Usage, -take, left, at, None, "", None, Some(order))]
       else RowsOf(after, i) == RowsOf(before, i)
  }

  lemma OneRow(ledger: seq<Movement>, row: Movement, i: nat)
    ensures RowsOf(ledger + [row], i) == if row.item == i then RowsOf(ledger, i) + [row] else RowsOf(ledger, i)
  {
    assert (ledger + [row])[..|ledger|] == ledger;
  }

  predicate Hit(item: Item, keys: seq<Key>, needs: map<Key, nat>) {
    && item.rules.key.Some? && item.rules.key.value in keys && item.rules.key.value in needs
    && item.rules.active && !item.rules.deleted && item.rules.perUse > 0
  }

  function HitFor(item: Item, keys: seq<Key>, needs: map<Key, nat>): int {
    if Hit(item, keys, needs) then TakenFor(item, needs[item.rules.key.value]) else 0
  }

  function AfterHit(item: Item, keys: seq<Key>, needs: map<Key, nat>): Item {
    if Hit(item, keys, needs) then
      var uses := needs[item.rules.key.value];
      item.(quantity := item.quantity - TakenFor(item, uses),
            pending := Owed(item, uses) - TakenFor(item, uses) * HUNDREDTH)
    else item
  }

  predicate Distinct(keys: seq<Key>) {
    forall a, b :: 0 <= a < b < |keys| ==> keys[a] != keys[b]
  }

  lemma NobodyElseStands(items: seq<Item>, i: nat, k: nat, key: Key)
    requires UniqueKeys(items) && i < |items| && k < |items| && Stands(items[k], key) && Stands(items[i], key)
    ensures i == k
  {
  }

  /** Charging item k, seen from item i. */
  lemma ChargedAtAnItem(shop: Shop, k: nat, uses: nat, order: nat, at: int, i: nat)
    requires k < |shop.items| && i < |shop.items| && NonNegative(shop)
    ensures var item, after := shop.items[i], Charged(shop, k, uses, order, at);
            var take := if i == k then TakenFor(item, uses) else 0;
            && |after.items| == |shop.items|
            && after.items[i] == (if i == k
                                  then item.(quantity := item.quantity - take, pending := Owed(item, uses) - take * HUNDREDTH)
                                  else item)
            && Books(shop.ledger, after.ledger, i, take, item.quantity - take, order, at)
  {
    ChargeSettlesWholeHundredths(shop, k, uses, order, at);
    var take := TakenFor(shop.items[k], uses);
    if take > 0 {
      OneRow(shop.ledger, Row(shop.items[k], UsageEntry(k, take, order, at)), i);
    }
  }

  lemma ChargeAtAnItem(shop: Shop, key: Key, needs: map<Key, nat>, order: nat, at: int, i: nat)
    requires i < |shop.items| && NonNegative(shop) && UniqueKeys(shop.items)
    ensures var item, after := shop.items[i], ChargeKey(shop, key, needs, order, at);
            && |after.items| == |shop.items| && after.items[i] == AfterHit(item, [key], needs)
            && Books(shop.ledger, after.ledger, i, HitFor(item, [key], needs),
                     item.quantity - HitFor(item, [key], needs), order, at)
  {
    var item := shop.items[i];
    NothingBooked(shop.ledger, i, item.quantity, order, at);
    if key in needs && FindFor(shop.items, key).Some? {
      var k := FindFor(shop.items, key).value;
      ChargedAtAnItem(shop, k, needs[key], order, at, i);
      if Stands(item, key) {
        NobodyElseStands(shop.items, i, k, key);
      }
    } else if key in needs {
      assert item in shop.items;
    }
  }

  lemma BooksChain(a: seq<Movement>, b: seq<Movement>, c: seq<Movement>, i: nat, first: int, second: int, left: int,
                   left': int, order: nat, at: int)
    requires Books(a, b, i, first, left, order, at) && Books(b, c, i, second, left', order, at)
    requires (first == 0 && second >= 0) || (second == 0 && first >= 0)
    ensures Books(a, c, i, first + second, if first == 0 then left' else left, order, at)
  {
  }

  lemma NothingBooked(ledger: seq<Movement>, i: nat, left: int, order: nat, at: int)
    ensures Books(ledger, ledger, i, 0, left, order, at)
  {
  }

  lemma HitsArePositive(item: Item, keys: seq<Key>, needs: map<Key, nat>)
    requires item.pending >= 0 && item.quantity >= 0
    ensures HitFor(item, keys, needs) >= 0
  {
  }

  /** An item stands for one key, so it is hit by the keys so far or by the next one. */
  lemma HitOnce(item: Item, init: seq<Key>, last: Key, needs: map<Key, nat>)
    requires item.pending >= 0 && item.quantity >= 0 && last !in init
    ensures var now := AfterHit(item, init, needs);
            && AfterHit(now, [last], needs) == AfterHit(item, init + [last], needs)
            && HitFor(item, init + [last], needs) == HitFor(item, init, needs) + HitFor(now, [last], needs)
            && HitFor(item, init, needs) >= 0 && HitFor(now, [last], needs) >= 0
            && (HitFor(item, init, needs) == 0 || HitFor(now, [last], needs) == 0)
            && now.quantity == item.quantity - HitFor(item, init, needs)
  {
    HitsArePositive(item, init, needs);
    HitsArePositive(AfterHit(item, init, needs), [last], needs);
  }

  lemma {:induction false} ItemAfterCharges(shop: Shop, keys: seq<Key>, needs: map<Key, nat>, order: nat, at: int, i: nat)
    requires i < |shop.items| && NonNegative(shop) && UniqueKeys(shop.items) && Distinct(keys)
    ensures var after := ChargeKeys(shop, keys, needs, order, at);
            && |after.items| == |shop.items| && NonNegative(after) && UniqueKeys(after.items)
            && after.items[i] == AfterHit(shop.items[i], keys, needs)
  {
    if keys != [] {
      var init, last := keys[..|keys| - 1], keys[|keys| - 1];
      ItemAfterCharges(shop, init, needs, order, at, i);
      ChargeKeysAreConserved(shop, keys, needs, order, at, i);
      ChargeAtAnItem(ChargeKeys(shop, init, needs, order, at), last, needs, order, at, i);
      HitOnce(shop.items[i], init, last, needs);
      assert keys == init + [last];
    }
  }

  lemma {:induction false} ChargesAtAnItem(shop: Shop, keys: seq<Key>, needs: map<Key, nat>, order: nat, at: int, i: nat)
    requires i < |shop.items| && NonNegative(shop) && UniqueKeys(shop.items) && Distinct(keys)
    ensures var item, after := shop.items[i], ChargeKeys(shop, keys, needs, order, at);
            && |after.items| == |shop.items| && after.items[i] == AfterHit(item, keys, needs)
            && Books(shop.ledger, after.ledger, i, HitFor(item, keys, needs),
                     item.quantity - HitFor(item, keys, needs), order, at)
  {
    var item := shop.items[i];
    ItemAfterCharges(shop, keys, needs, order, at, i);
    if keys == [] {
      NothingBooked(shop.ledger, i, item.quantity, order, at);
    } else {
      var init, last := keys[..|keys| - 1], keys[|keys| - 1];
      var before := ChargeKeys(shop, init, needs, order, at);
      ChargesAtAnItem(shop, init, needs, order, at, i);
      ItemAfterCharges(shop, init, needs, order, at, i);
      ChargeAtAnItem(before, last, needs, order, at, i);
      HitOnce(item, init, last, needs);
      assert keys == init + [last];
      var now := AfterHit(item, init, needs);
      var first, second := HitFor(item, init, needs), HitFor(now, [last], needs);
      BooksChain(shop.ledger, before.ledger, ChargeKey(before, last, needs, order, at).ledger, i, first, second,
                 item.quantity - first, now.quantity - second, order, at);
    }
  }

  lemma MentionedKeysAreCharged(lines: seq<Line>, key: Key)
    requires Mentioned(lines, key)
    ensures key in KEYS
  {
  }

  lemma UseOfAKey(lines: seq<Line>, key: Key)
    ensures key in Uses(lines) <==> Mentioned(lines, key)
    ensures key in Uses(lines) ==> key in KEYS && Uses(lines)[key] == UsesOf(lines, key)
  {
    UsesHoldWhatIsMentioned(lines, key);
    UsesAreTotals(lines);
    if Mentioned(lines, key) {
      MentionedKeysAreCharged(lines, key);
      assert Need(Uses(lines), key) == Uses(lines)[key];
    }
  }

  lemma ServingIsBeingHit(item: Item, lines: seq<Line>)
    ensures HitFor(item, KEYS, Uses(lines)) == TakenBy(item, lines)
    ensures AfterHit(item, KEYS, Uses(lines))
         == item.(quantity := item.quantity - TakenBy(item, lines),
                  pending := OwedWith(item, lines) - TakenBy(item, lines) * 10000)
  {
    if item.rules.key.Some? {
      UseOfAKey(lines, item.rules.key.value);
    }
  }

  /** A delivery charges each item that is active, not deleted and metered for something the order used: what it owed and
      the uses at its rate, of which the whole hundredths leave the shelf as far as it has them, in one movement for the
      order; the rest stays owed. Every other item is left alone. */
  lemma {:induction false} ADeliveryTakesWhatWasUsed(shop: Shop, order: nat, lines: seq<Line>, at: int, i: nat)
    requires StockRuns.Inv(shop) && order !in shop.deducted && i < |shop.items|
    ensures var item, after := shop.items[i], Next(shop, Deliver(order, lines, at));
            var take := TakenBy(item, lines);
            && 0 <= take <= item.quantity && |after.items| == |shop.items| && after.deducted == shop.deducted + {order}
            && after.items[i] == item.(quantity := item.quantity - take,
                                       pending := OwedWith(item, lines) - take * 10000)
            && Books(shop.ledger, after.ledger, i, take, item.quantity - take, order, at)
  {
    ChargesAtAnItem(shop, KEYS, Uses(lines), order, at, i);
    ChargesKeepDeducted(shop, KEYS, Uses(lines), order, at);
    ServingIsBeingHit(shop.items[i], lines);
    HitsArePositive(shop.items[i], KEYS, Uses(lines));
  }

  // ---- what a delivery reports ----

  /** The lines about the keys, all read off the shop as it was. */
  function ReportAtOnce(shop: Shop, keys: seq<Key>, needs: map<Key, nat>): seq<ReportLine> {
    if keys == [] then []
    else ReportAtOnce(shop, keys[..|keys| - 1], needs) + ReportKey(shop, keys[|keys| - 1], needs)
  }

  /** Charging other keys changes neither which item stands for a key nor that item. */
  lemma {:induction false} OtherChargesLeaveAKey(shop: Shop, keys: seq<Key>, needs: map<Key, nat>, order: nat, at: int,
                                                 key: Key)
    requires NonNegative(shop) && UniqueKeys(shop.items) && LedgerFits(shop) && Distinct(keys) && key !in keys
    ensures var before := ChargeKeys(shop, keys, needs, order, at);
            && FindFor(before.items, key) == FindFor(shop.items, key)
            && |before.items| == |shop.items|
            && (FindFor(shop.items, key).Some? ==>
                  before.items[FindFor(shop.items, key).value] == shop.items[FindFor(shop.items, key).value])
  {
    if |shop.items| > 0 {
      ChargeKeysAreConserved(shop, keys, needs, order, at, 0);
      SameRulesFindTheSame(shop.items, ChargeKeys(shop, keys, needs, order, at).items, key);
    } else {
      ChargeKeysKeep(shop, keys, needs, order, at, 0);
    }
    if FindFor(shop.items, key).Some? {
      ChargesAtAnItem(shop, keys, needs, order, at, FindFor(shop.items, key).value);
    }
  }

  lemma SameItemSameLine(a: Shop, b: Shop, key: Key, needs: map<Key, nat>)
    requires FindFor(a.items, key) == FindFor(b.items, key)
    requires var i := FindFor(a.items, key); i.Some? ==> a.items[i.value] == b.items[i.value]
    ensures ReportKey(a, key, needs) == ReportKey(b, key, needs)
  {
  }

  lemma {:induction false} ReportsLookBack(shop: Shop, keys: seq<Key>, needs: map<Key, nat>, order: nat, at: int)
    requires NonNegative(shop) && UniqueKeys(shop.items) && LedgerFits(shop) && Distinct(keys)
    ensures ReportKeys(shop, keys, needs, order, at) == ReportAtOnce(shop, keys, needs)
  {
    if keys != [] {
      var init, last := keys[..|keys| - 1], keys[|keys| - 1];
      ReportsLookBack(shop, init, needs, order, at);
      OtherChargesLeaveAKey(shop, init, needs, order, at, last);
      SameItemSameLine(ChargeKeys(shop, init, needs, order, at), shop, last, needs);
    }
  }

  lemma {:induction false} ReportedLines(shop: Shop, keys: seq<Key>, needs: map<Key, nat>)
    requires Distinct(keys)
    ensures var report := ReportAtOnce(shop, keys, needs);
            && (forall r <- report :: r.key in keys && r.key in needs && [r] == ReportKey(shop, r.key, needs))
            && (forall key <- keys :: key in needs ==> exists r <- report :: r.key == key)
            && (forall a, b :: 0 <= a < b < |report| ==> report[a].key != report[b].key)
  {
    if keys != [] {
      var init, last := keys[..|keys| - 1], keys[|keys| - 1];
      ReportedLines(shop, init, needs);
      assert keys == init + [last];
      var earlier, report := ReportAtOnce(shop, init, needs), ReportAtOnce(shop, keys, needs);
      if last in needs {
        var r := ReportKey(shop, last, needs)[0];
        assert report == earlier + [r] && r.key == last;
        assert report[|earlier|] == r;
        forall key | key in keys && key in needs ensures exists r <- report :: r.key == key {
          if key != last {
            var r :| r in earlier && r.key == key;
            assert r in report;
          }
        }
      }
    }
  }

  /** What one line of the report says: how often the key was used, and, when an item stands for it, what was taken off that
      item and what the shelf was short of. */
  ghost predicate Accounts(before: Shop, after: Shop, lines: seq<Line>, r: ReportLine) {
    && r.uses == UsesOf(lines, r.key)
    && match r.item
       case None =>
         && r.deducted == r.shortfall == 0
         && forall item <- before.items :: item.rules.key == Some(r.key) ==>
              !item.rules.active || item.rules.deleted || item.rules.perUse == 0
       case Some(i) =>
         && i < |before.items| && i < |after.items|
         && before.items[i].rules.key == Some(r.key) && Serves(before.items[i], lines)
         && r.deducted == before.items[i].quantity - after.items[i].quantity
         && r.deducted + r.shortfall == OwedWith(before.items[i], lines) / 10000
  }

  lemma {:induction false} ALineAccounts(shop: Shop, order: nat, lines: seq<Line>, at: int, r: ReportLine)
    requires StockRuns.Inv(shop) && order !in shop.deducted
    requires r.key in Uses(lines) && [r] == ReportKey(shop, r.key, Uses(lines))
    ensures Accounts(shop, Next(shop, Deliver(order, lines, at)), lines, r)
  {
    UseOfAKey(lines, r.key);
    if r.item.Some? {
      ADeliveryTakesWhatWasUsed(shop, order, lines, at, r.item.value);
      assert WholeOwed(shop.items[r.item.value], r.uses) == OwedWith(shop.items[r.item.value], lines) / 10000;
    }
  }

  lemma {:induction false} UsedKeysAreReported(shop: Shop, lines: seq<Line>)
    ensures var report := ReportAtOnce(shop, KEYS, Uses(lines));
            && (forall key :: Mentioned(lines, key) <==> exists r <- report :: r.key == key)
            && (forall a, b :: 0 <= a < b < |report| ==> report[a].key != report[b].key)
            && (forall r <- report :: r.key in Uses(lines) && [r] == ReportKey(shop, r.key, Uses(lines)))
  {
    ReportedLines(shop, KEYS, Uses(lines));
    forall key ensures key in Uses(lines) <==> Mentioned(lines, key) {
      UseOfAKey(lines, key);
    }
    forall key | key in Uses(lines) ensures key in KEYS {
      UseOfAKey(lines, key);
    }
  }

  lemma {:induction false} TheReportLooksBack(shop: Shop, order: nat, lines: seq<Line>, at: int)
    requires StockRuns.Inv(shop)
    ensures ReportKeys(shop, KEYS, Uses(lines), order, at) == ReportAtOnce(shop, KEYS, Uses(lines))
  {
    ReportsLookBack(shop, KEYS, Uses(lines), order, at);
  }

  /** The report names each key the order used exactly once, and each line accounts for what happened to the item standing
      for it. */
  ghost predicate Reports(before: Shop, after: Shop, lines: seq<Line>, report: seq<ReportLine>) {
    && (forall key :: Mentioned(lines, key) <==> exists r <- report :: r.key == key)
    && (forall a, b :: 0 <= a < b < |report| ==> report[a].key != report[b].key)
    && (forall r <- report :: Accounts(before, after, lines, r))
  }

  /** A delivery reports what it used and did. */
  lemma {:induction false} ADeliveryIsReported(shop: Shop, order: nat, lines: seq<Line>, at: int)
    requires StockRuns.Inv(shop) && order !in shop.deducted
    ensures Reports(shop, Next(shop, Deliver(order, lines, at)), lines,
                    ReportKeys(shop, KEYS, Uses(lines), order, at))
  {
    var report := ReportAtOnce(shop, KEYS, Uses(lines));
    TheReportLooksBack(shop, order, lines, at);
    UsedKeysAreReported(shop, lines);
    forall r | r in report ensures Accounts(shop, Next(shop, Deliver(order, lines, at)), lines, r) {
      ALineAccounts(shop, order, lines, at, r);
    }
  }

  // ---- every quantity, from what was asked for ----

  /** What the action asks of the stock of item i. */
  function AskedOf(desk: Desk, action: Action, i: nat): int {
    match action
    case Act(Create(rules, _, _, opening, _)) =>
      if i == |desk.shop.items| && (rules.deleted || KeyUnclaimed(desk.shop.items, rules.key, i)) then opening else 0
    case Act(Record(e)) => if e.item == i && Acceptable(desk.shop.items, e) then Asked(e) else 0
    case Act(Deliver(order, lines, _)) =>
      if i < |desk.shop.items| && order !in desk.shop.deducted then -TakenBy(desk.shop.items[i], lines) else 0
    case _ => 0
  }

  function AllAskedOf(actions: seq<Action>, i: nat): int {
    if actions == [] then 0
    else AllAskedOf(actions[..|actions| - 1], i) + AskedOf(Run(actions[..|actions| - 1]), actions[|actions| - 1], i)
  }

  function Stock(desk: Desk, i: nat): int {
    if i < |desk.shop.items| then desk.shop.items[i].quantity else 0
  }

  lemma AnActionDoesWhatIsAsked(desk: Desk, action: Action, i: nat)
    requires DeskInv(desk)
    ensures Stock(Turn(desk, action), i)
         == Stock(desk, i) + AskedOf(desk, action, i) + SeededIn(desk, action, i) + PutBack(desk, action, i)
  {
    match action
    case Act(Create(rules, unitCost, currency, opening, at)) =>
      ANewItemOpensInTheLedger(desk.shop, rules, unitCost, currency, opening, at);
    case Act(Seed(_, _, _, _)) =>
    case Act(Record(e)) => ARecordDoesWhatIsAsked(desk.shop, e);
    case Act(Deliver(order, lines, at)) =>
      DeliverKeeps(desk.shop, order, lines, at);
      if i < |desk.shop.items| && order !in desk.shop.deducted {
        ADeliveryTakesWhatWasUsed(desk.shop, order, lines, at, i);
      }
    case Load(_, _) =>
    case Save(_, _, _, _) =>
  }

  predicate NothingSeeded(actions: seq<Action>) {
    forall k :: 0 <= k < |actions| ==> !(actions[k].Act? && actions[k].step.Seed?)
  }

  lemma {:induction false} StockIsWhatWasAskedFor(actions: seq<Action>, i: nat)
    ensures Stock(Run(actions), i) == AllAskedOf(actions, i) + SeededStock(actions, i) + PutBackStock(actions, i)
    ensures NothingSeeded(actions) ==> SeededStock(actions, i) == 0
  {
    if actions != [] {
      StockIsWhatWasAskedFor(actions[..|actions| - 1], i);
      RunKeeps(actions[..|actions| - 1]);
      AnActionDoesWhatIsAsked(Run(actions[..|actions| - 1]), actions[|actions| - 1], i);
    }
  }

  /** In every reachable shop an item holds what was opened, bought and adjusted less what was used, wasted and taken for
      orders, in the quantities asked for, plus what was seeded and what stale saves put back; in a run with neither of
      those, exactly what was asked for. */
  lemma {:induction false} QuantityIsWhatWasAskedFor(actions: seq<Action>, i: nat)
    requires i < |Run(actions).shop.items|
    ensures Run(actions).shop.items[i].quantity
         == AllAskedOf(actions, i) + SeededStock(actions, i) + PutBackStock(actions, i)
    ensures NothingSeeded(actions) && NoStaleSave(actions) ==>
              Run(actions).shop.items[i].quantity == AllAskedOf(actions, i)
  {
    StockIsWhatWasAskedFor(actions, i);
    if NoStaleSave(actions) {
      FreshSavesPutNothingBack(actions, i);
    }
  }
}
