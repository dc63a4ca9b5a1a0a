/** Automatic usage: what a delivered print order takes from the shelf, exactly once, with the remainder kept owed. */
module StockConsumption {
  import opened Wrappers
  import opened Sums
  import opened StockLedger

  type Grams = g: real | 0.0 <= g

  datatype Line = Line(sheets: nat, size: PaperSize, binding: Binding, snapshotKind: Option<Binding>, copies: nat,
                       wirePerCopy: Option<Grams>)

  /** Stock units of one hundredth, in the millionths consumption is counted in. */
  const HUNDREDTH: nat := 10000

  /** Keys in the order `sorted` puts their names. */
  const KEYS := [BindingOf(Beads), BindingOf(Spiral), BindingOf(Staple), BindingOf(Thermal),
                 PaperOf(A3), PaperOf(A4), PaperOf(A5), PerOrder, PerSheet, SpiralWire]

  // ---- what an order used ----

  function KindOf(line: Line): Binding {
    match line.snapshotKind
    case Some(kind) => kind
    case None => line.binding
  }

  function CeilingOf(g: Grams): nat {
    if g.Floor as real == g then g.Floor else g.Floor + 1
  }

  /** Whole grams of spiral wire in all copies of a line. */
  function WireGrams(line: Line): (grams: nat)
    ensures line.wirePerCopy.None? ==> grams == 0
    ensures line.wirePerCopy.Some? ==>
              var exact := line.wirePerCopy.value * line.copies as real; exact <= grams as real < exact + 1.0
  {
    if line.wirePerCopy.None? then 0 else CeilingOf(line.wirePerCopy.value * line.copies as real)
  }

  function Add(needs: map<Key, nat>, key: Key, uses: nat): map<Key, nat> {
    needs[key := uses + if key in needs then needs[key] else 0]
  }

  function AddLine(needs: map<Key, nat>, line: Line): map<Key, nat> {
    var withPaper := if line.sheets > 0 then Add(needs, PaperOf(line.size), line.sheets) else needs;
    var withBinding := if KindOf(line) in {Staple, Spiral, Thermal, Beads}
                       then Add(withPaper, BindingOf(KindOf(line)), line.copies) else withPaper;
    if KindOf(line).Spiral? && line.wirePerCopy.Some?
    then Add(withBinding, SpiralWire, WireGrams(line)) else withBinding
  }

  function AddLines(lines: seq<Line>): map<Key, nat> {
    if lines == [] then map[] else AddLine(AddLines(lines[..|lines| - 1]), lines[|lines| - 1])
  }

  function SheetWeight(line: Line): int {
    line.sheets
  }

  function Uses(lines: seq<Line>): map<Key, nat> {
    SheetsAreCounted(lines);
    var sheets: nat := Total(lines, SheetWeight);
    (if sheets > 0 then AddLines(lines)[PerSheet := sheets] else AddLines(lines))[PerOrder := 1]
  }

  /** The snapshot of the price names the binding, or, on old orders, the line itself. */
  predicate BoundAs(line: Line, kind: Binding) {
    line.snapshotKind == Some(kind) || (line.snapshotKind.None? && line.binding == kind)
  }

  /** How often one line uses a key, read off the line alone. */
  function LineUse(key: Key): Line -> int {
    (line: Line) =>
      match key
      case PaperOf(size) => if line.size == size then line.sheets else 0
      case BindingOf(kind) => if kind in {Staple, Spiral, Thermal, Beads} && BoundAs(line, kind) then line.copies else 0
      case SpiralWire => if BoundAs(line, Spiral) then WireGrams(line) else 0
      case PerSheet => line.sheets
      case PerOrder => 0
  }

  function Need(needs: map<Key, nat>, key: Key): nat {
    if key in needs then needs[key] else 0
  }

  lemma {:induction false} SheetsAreCounted(lines: seq<Line>)
    ensures Total(lines, SheetWeight) >= 0
  {
    if lines != [] {
      SheetsAreCounted(lines[..|lines| - 1]);
    }
  }

  lemma {:induction false} LinesAddUp(lines: seq<Line>, key: Key)
    requires !key.PerSheet?
    ensures Need(AddLines(lines), key) == Total(lines, LineUse(key))
  {
    if lines != [] {
      LinesAddUp(lines[..|lines| - 1], key);
    }
  }

  lemma {:induction false} SheetsPerOrder(lines: seq<Line>)
    ensures Total(lines, SheetWeight) == Total(lines, LineUse(PerSheet))
    ensures PerSheet !in AddLines(lines) && PerOrder !in AddLines(lines)
  {
    if lines != [] {
      SheetsPerOrder(lines[..|lines| - 1]);
    }
  }

  /** Each key's use is the sum over the lines, an order counts once, and the sheet total is the paper of all sizes. */
  lemma UsesAreTotals(lines: seq<Line>)
    ensures forall key: Key :: !key.PerOrder? ==> Need(Uses(lines), key) == Total(lines, LineUse(key))
    ensures Need(Uses(lines), PerOrder) == 1
    ensures Need(Uses(lines), PerSheet)
            == Need(Uses(lines), PaperOf(A3)) + Need(Uses(lines), PaperOf(A4)) + Need(Uses(lines), PaperOf(A5))
  {
    SheetsPerOrder(lines);
    SheetsAreCounted(lines);
    forall key: Key | !key.PerOrder? ensures Need(Uses(lines), key) == Total(lines, LineUse(key)) {
      if !key.PerSheet? {
        LinesAddUp(lines, key);
      }
    }
    var small := (line: Line) => LineUse(PaperOf(A4))(line) + LineUse(PaperOf(A5))(line);
    TotalSplit(lines, LineUse(PerSheet), LineUse(PaperOf(A3)), small);
    TotalSplit(lines, small, LineUse(PaperOf(A4)), LineUse(PaperOf(A5)));
  }

  /** The line mentions the key, however little of it it uses. */
  predicate MentionedBy(line: Line, key: Key) {
    match key
    case PaperOf(size) => line.size == size && line.sheets > 0
    case BindingOf(kind) => kind in {Staple, Spiral, Thermal, Beads} && BoundAs(line, kind)
    case SpiralWire => BoundAs(line, Spiral) && line.wirePerCopy.Some?
    case PerSheet => line.sheets > 0
    case PerOrder => false
  }

  predicate Mentioned(lines: seq<Line>, key: Key) {
    key.PerOrder? || exists line <- lines :: MentionedBy(line, key)
  }

  lemma OneLineMentions(needs: map<Key, nat>, line: Line, key: Key)
    requires !key.PerSheet?
    ensures key in AddLine(needs, line) <==> key in needs || MentionedBy(line, key)
  {
  }

  lemma {:induction false} LinesMention(lines: seq<Line>, key: Key)
    requires !key.PerSheet? && !key.PerOrder?
    ensures key in AddLines(lines) <==> Mentioned(lines, key)
  {
    if lines != [] {
      var init, last := lines[..|lines| - 1], lines[|lines| - 1];
      LinesMention(init, key);
      OneLineMentions(AddLines(init), last, key);
      assert lines == init + [last];
    }
  }

  lemma {:induction false} SomeSheets(lines: seq<Line>)
    ensures Total(lines, SheetWeight) > 0 <==> exists line <- lines :: line.sheets > 0
  {
    if lines != [] {
      var init, last := lines[..|lines| - 1], lines[|lines| - 1];
      SomeSheets(init);
      SheetsAreCounted(init);
      assert lines == init + [last];
    }
  }

  /** The dictionary holds exactly the keys some line mentions. */
  lemma UsesHoldWhatIsMentioned(lines: seq<Line>, key: Key)
    ensures key in Uses(lines) <==> Mentioned(lines, key)
  {
    SheetsPerOrder(lines);
    SomeSheets(lines);
    if key.PerSheet? {
      assert forall line: Line :: MentionedBy(line, key) <==> line.sheets > 0;
    }
    if !key.PerSheet? && !key.PerOrder? {
      LinesMention(lines, key);
    }
  }

  // ---- taking it from the shelf ----

  predicate Stands(item: Item, key: Key) {
    item.rules.key == Some(key) && item.rules.active && !item.rules.deleted && item.rules.perUse > 0
  }

  function FindFor(items: seq<Item>, key: Key): (i: Option<nat>)
    ensures i.Some? ==> i.value < |items| && Stands(items[i.value], key)
    ensures i.None? ==> forall item <- items :: !Stands(item, key)
  {
    if items == [] then None else
    match FindFor(items[..|items| - 1], key)
    case Some(i) => Some(i)
    case None => if Stands(items[|items| - 1], key) then Some(|items| - 1) else None
  }

  datatype ReportLine = Reported(key: Key, uses: nat, item: Option<nat>, deducted: int, shortfall: int)

  function Owed(item: Item, uses: nat): int {
    item.pending + uses * item.rules.perUse
  }

  /** Whole hundredths owed, and what the shelf can give of them. */
  function WholeOwed(item: Item, uses: nat): int {
    Owed(item, uses) / HUNDREDTH
  }

  function TakenFor(item: Item, uses: nat): int {
    if WholeOwed(item, uses) <= item.quantity then WholeOwed(item, uses) else item.quantity
  }

  function UsageEntry(i: nat, quantity: int, order: nat, at: int): Entry {
    Entry(i, Usage, quantity, at, None, "", None, Some(order))
  }

  function WithPending(shop: Shop, i: nat, pending: int): Shop
    requires i < |shop.items|
  {
    shop.(items := shop.items[i := shop.items[i].(pending := pending)])
  }

  /** One item charged for one key of one order. */
  function Charged(shop: Shop, i: nat, uses: nat, order: nat, at: int): Shop
    requires i < |shop.items|
  {
    var item := shop.items[i];
    var take := TakenFor(item, uses);
    var taken := if take > 0 then Moved(shop, UsageEntry(i, take, order, at)) else shop;
    WithPending(taken, i, Owed(item, uses) - take * HUNDREDTH)
  }

  function ChargeKey(shop: Shop, key: Key, needs: map<Key, nat>, order: nat, at: int): Shop {
    if key !in needs then shop else
    match FindFor(shop.items, key)
    case None => shop
    case Some(i) => Charged(shop, i, needs[key], order, at)
  }

  function ReportKey(shop: Shop, key: Key, needs: map<Key, nat>): seq<ReportLine> {
    if key !in needs then [] else
    match FindFor(shop.items, key)
    case None => [Reported(key, needs[key], None, 0, 0)]
    case Some(i) =>
      var item := shop.items[i];
      var take := TakenFor(item, needs[key]);
      [Reported(key, needs[key], Some(i), take, WholeOwed(item, needs[key]) - take)]
  }

  function ChargeKeys(shop: Shop, keys: seq<Key>, needs: map<Key, nat>, order: nat, at: int): Shop {
    if keys == [] then shop else
    ChargeKey(ChargeKeys(shop, keys[..|keys| - 1], needs, order, at), keys[|keys| - 1], needs, order, at)
  }

  function ReportKeys(shop: Shop, keys: seq<Key>, needs: map<Key, nat>, order: nat, at: int): seq<ReportLine> {
    if keys == [] then [] else
    ReportKeys(shop, keys[..|keys| - 1], needs, order, at)
    + ReportKey(ChargeKeys(shop, keys[..|keys| - 1], needs, order, at), keys[|keys| - 1], needs)
  }

  function Deduct(shop: Shop, order: nat, lines: seq<Line>, at: int): Shop {
    if order in shop.deducted then shop else
    var charged := ChargeKeys(shop, KEYS, Uses(lines), order, at);
    charged.(deducted := charged.deducted + {order})
  }

  // ---- one charge ----

  ghost predicate NonNegative(shop: Shop) {
    forall i :: 0 <= i < |shop.items| ==> shop.items[i].pending >= 0 && shop.items[i].quantity >= 0
  }

  /** What an item is left owing after a charge: less than a hundredth exactly when the shelf covered every whole
      hundredth; otherwise the shelf is empty. The amount charged is what left the shelf plus what is still owed. */
  lemma ChargeSettlesWholeHundredths(shop: Shop, i: nat, uses: nat, order: nat, at: int)
    requires i < |shop.items| && shop.items[i].pending >= 0 && shop.items[i].quantity >= 0
    ensures var item, after := shop.items[i], Charged(shop, i, uses, order, at).items[i];
            && after.quantity == item.quantity - TakenFor(item, uses)
            && after.pending + TakenFor(item, uses) * HUNDREDTH == item.pending + uses * item.rules.perUse
            && 0 <= TakenFor(item, uses) && 0 <= after.pending && 0 <= after.quantity
            && (after.pending < HUNDREDTH <==> WholeOwed(item, uses) <= item.quantity)
            && (after.pending >= HUNDREDTH ==> after.quantity == 0)
            && after.rules == item.rules
  {
  }

  lemma ChargeIsSound(base: seq<nat>, shop: Shop, i: nat, uses: nat, order: nat, at: int)
    requires Sound(base, shop) && NonNegative(shop) && i < |shop.items|
    ensures Sound(base, Charged(shop, i, uses, order, at)) && NonNegative(Charged(shop, i, uses, order, at))
  {
    ChargeSettlesWholeHundredths(shop, i, uses, order, at);
    var take := TakenFor(shop.items[i], uses);
    var taken := if take > 0 then Moved(shop, UsageEntry(i, take, order, at)) else shop;
    if take > 0 {
      MovedIsSound(base, shop, UsageEntry(i, take, order, at));
    }
    var after := Charged(shop, i, uses, order, at);
    forall k | 0 <= k < |base| ensures ItemSound(base, after, k) {
      assert ItemSound(base, taken, k);
    }
    forall j | 0 <= j < |after.ledger| ensures RowSound(base, after.ledger, j) {
      assert RowSound(base, taken.ledger, j);
    }
  }

  // ---- conservation ----

  /** Stock taken automatically for item i, in millionths. */
  function TakenWeight(i: nat): Movement -> int {
    (m: Movement) => if m.item == i && m.order.Some? then -m.delta * HUNDREDTH else 0
  }

  /** All that item i was ever charged: taken from the shelf or still owed. */
  function Settled(shop: Shop, i: nat): int
    requires i < |shop.items|
  {
    shop.items[i].pending + Total(shop.ledger, TakenWeight(i))
  }

  /** What one key of an order charges to item i. */
  function Charge(items: seq<Item>, key: Key, needs: map<Key, nat>, i: nat): int
    requires i < |items|
  {
    if FindFor(items, key) == Some(i) then Need(needs, key) * items[i].rules.perUse else 0
  }

  function Charges(items: seq<Item>, keys: seq<Key>, needs: map<Key, nat>, i: nat): int
    requires i < |items|
  {
    if keys == [] then 0
    else Charges(items, keys[..|keys| - 1], needs, i) + Charge(items, keys[|keys| - 1], needs, i)
  }

  ghost predicate SameRules(a: seq<Item>, b: seq<Item>) {
    |a| == |b| && forall i :: 0 <= i < |a| ==> a[i].rules == b[i].rules
  }

  lemma {:induction false} SameRulesFindTheSame(a: seq<Item>, b: seq<Item>, key: Key)
    requires SameRules(a, b)
    ensures FindFor(a, key) == FindFor(b, key)
  {
    if a != [] {
      assert SameRules(a[..|a| - 1], b[..|b| - 1]);
      SameRulesFindTheSame(a[..|a| - 1], b[..|b| - 1], key);
      assert a[|a| - 1].rules == b[|b| - 1].rules;
    }
  }

  lemma ChargeIsConserved(shop: Shop, k: nat, uses: nat, order: nat, at: int, i: nat)
    requires k < |shop.items| && i < |shop.items| && NonNegative(shop)
    ensures var after := Charged(shop, k, uses, order, at);
            && NonNegative(after) && SameRules(shop.items, after.items)
            && Settled(after, i) == Settled(shop, i) + if i == k then uses * shop.items[k].rules.perUse else 0
  {
    ChargeSettlesWholeHundredths(shop, k, uses, order, at);
    var take := TakenFor(shop.items[k], uses);
    if take > 0 {
      TotalAppend(shop.ledger, Row(shop.items[k], UsageEntry(k, take, order, at)), TakenWeight(i));
    }
  }

  lemma ChargeKeyIsConserved(shop: Shop, key: Key, needs: map<Key, nat>, order: nat, at: int, i: nat)
    requires i < |shop.items| && NonNegative(shop)
    ensures var after := ChargeKey(shop, key, needs, order, at);
            && NonNegative(after) && SameRules(shop.items, after.items)
            && Settled(after, i) == Settled(shop, i) + Charge(shop.items, key, needs, i)
  {
    if key in needs {
      match FindFor(shop.items, key)
      case None =>
      case Some(k) => ChargeIsConserved(shop, k, needs[key], order, at, i);
    }
  }

  lemma {:induction false} ChargeKeysAreConserved(shop: Shop, keys: seq<Key>, needs: map<Key, nat>, order: nat,
                                                  at: int, i: nat)
    requires i < |shop.items| && NonNegative(shop)
    ensures var after := ChargeKeys(shop, keys, needs, order, at);
            && NonNegative(after) && SameRules(shop.items, after.items)
            && Settled(after, i) == Settled(shop, i) + Charges(shop.items, keys, needs, i)
  {
    if keys != [] {
      var init, last := keys[..|keys| - 1], keys[|keys| - 1];
      ChargeKeysAreConserved(shop, init, needs, order, at, i);
      var before := ChargeKeys(shop, init, needs, order, at);
      ChargeKeyIsConserved(before, last, needs, order, at, i);
      SameRulesFindTheSame(shop.items, before.items, last);
    }
  }

  /** What delivering an order charges to item i: nothing the second time. */
  function Demand(shop: Shop, order: nat, lines: seq<Line>, i: nat): int
    requires i < |shop.items|
  {
    if order in shop.deducted then 0 else Charges(shop.items, KEYS, Uses(lines), i)
  }

  /** Conservation: delivering an order adds exactly its uses times the per-use rate to what the item was charged, split
      between what left the shelf and what is still owed; delivering it again adds nothing. */
  lemma DeductIsConserved(shop: Shop, order: nat, lines: seq<Line>, at: int, i: nat)
    requires i < |shop.items| && NonNegative(shop)
    ensures var after := Deduct(shop, order, lines, at);
            && NonNegative(after) && SameRules(shop.items, after.items)
            && Settled(after, i) == Settled(shop, i) + Demand(shop, order, lines, i)
            && forall lines', at' :: Deduct(after, order, lines', at') == after
  {
    ChargeKeysAreConserved(shop, KEYS, Uses(lines), order, at, i);
  }

  lemma {:induction false} ChargeKeysAreSound(base: seq<nat>, shop: Shop, keys: seq<Key>, needs: map<Key, nat>,
                                              order: nat, at: int)
    requires Sound(base, shop) && NonNegative(shop)
    ensures Sound(base, ChargeKeys(shop, keys, needs, order, at)) && NonNegative(ChargeKeys(shop, keys, needs, order, at))
  {
    if keys != [] {
      var init, last := keys[..|keys| - 1], keys[|keys| - 1];
      ChargeKeysAreSound(base, shop, init, needs, order, at);
      var before := ChargeKeys(shop, init, needs, order, at);
      if last in needs {
        match FindFor(before.items, last)
        case None =>
        case Some(k) => ChargeIsSound(base, before, k, needs[last], order, at);
      }
    }
  }

  // ---- one automatic movement per order and item ----

  ghost predicate OrdersAreRecorded(shop: Shop) {
    forall j :: 0 <= j < |shop.ledger| && shop.ledger[j].order.Some? ==> shop.ledger[j].order.value in shop.deducted
  }

  ghost predicate OneMovementPerOrderAndItem(ledger: seq<Movement>) {
    forall j, k :: 0 <= j < k < |ledger| && ledger[j].order.Some? && ledger[j].order == ledger[k].order
                   ==> ledger[j].item != ledger[k].item
  }

  ghost predicate KeyAmong(item: Item, keys: seq<Key>) {
    item.rules.key.Some? && item.rules.key.value in keys
  }

  /** While an order is being charged: each of its movements is for the item of a key already handled, and everything
      else was there before. */
  ghost predicate PartlyCharged(before: Shop, now: Shop, keys: seq<Key>, order: nat) {
    && before.ledger <= now.ledger
    && now.deducted == before.deducted && |before.items| == |now.items|
    && (forall j :: |before.ledger| <= j < |now.ledger| ==>
          && now.ledger[j].order == Some(order) && now.ledger[j].item < |now.items|
          && KeyAmong(now.items[now.ledger[j].item], keys))
    && OneMovementPerOrderAndItem(now.ledger)
  }

  lemma ChargeKeyKeepsOrdersApart(start: Shop, now: Shop, keys: seq<Key>, key: Key, needs: map<Key, nat>, order: nat,
                                  at: int)
    requires OrdersAreRecorded(start) && order !in start.deducted
    requires PartlyCharged(start, now, keys, order) && key !in keys
    ensures PartlyCharged(start, ChargeKey(now, key, needs, order, at), keys + [key], order)
  {
    if key in needs && FindFor(now.items, key).Some? {
      var k := FindFor(now.items, key).value;
      var after := Charged(now, k, needs[key], order, at);
      assert KeyAmong(after.items[k], keys + [key]);
      forall j | |start.ledger| <= j < |now.ledger|
        ensures now.ledger[j].item != k && KeyAmong(after.items[now.ledger[j].item], keys + [key])
      {
        assert KeyAmong(now.items[now.ledger[j].item], keys);
      }
      assert forall j :: 0 <= j < |start.ledger| ==> now.ledger[j] == start.ledger[j];
    } else {
      forall j | |start.ledger| <= j < |now.ledger| ensures KeyAmong(now.items[now.ledger[j].item], keys + [key]) {
        assert KeyAmong(now.items[now.ledger[j].item], keys);
      }
    }
  }

  lemma {:induction false} ChargingKeepsOrdersApart(shop: Shop, keys: seq<Key>, needs: map<Key, nat>, order: nat,
                                                    at: int)
    requires OrdersAreRecorded(shop) && OneMovementPerOrderAndItem(shop.ledger)
    requires order !in shop.deducted
    requires forall a, b :: 0 <= a < b < |keys| ==> keys[a] != keys[b]
    ensures PartlyCharged(shop, ChargeKeys(shop, keys, needs, order, at), keys, order)
  {
    if keys != [] {
      var init, last := keys[..|keys| - 1], keys[|keys| - 1];
      ChargingKeepsOrdersApart(shop, init, needs, order, at);
      ChargeKeyKeepsOrdersApart(shop, ChargeKeys(shop, init, needs, order, at), init, last, needs, order, at);
      assert keys == init + [last];
    }
  }

  /** The ledger never holds two automatic movements for the same order and item, so the database constraint that
      forbids it is never what stops a delivery. */
  lemma DeductKeepsOrdersApart(shop: Shop, order: nat, lines: seq<Line>, at: int)
    requires OrdersAreRecorded(shop) && OneMovementPerOrderAndItem(shop.ledger)
    ensures OrdersAreRecorded(Deduct(shop, order, lines, at))
    ensures OneMovementPerOrderAndItem(Deduct(shop, order, lines, at).ledger)
  {
    if order !in shop.deducted {
      ChargingKeepsOrdersApart(shop, KEYS, Uses(lines), order, at);
      var after := ChargeKeys(shop, KEYS, Uses(lines), order, at);
      forall j | 0 <= j < |after.ledger| && after.ledger[j].order.Some?
        ensures after.ledger[j].order.value in shop.deducted + {order}
      {
        assert j < |shop.ledger| ==> after.ledger[j] == shop.ledger[j];
      }
    }
  }
}
