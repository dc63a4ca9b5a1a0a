/** The shelf and its ledger: stock quantities that change only through movements, and the alerts movements raise.

    Quantities and money are whole hundredths; consumption is counted in millionths of a stock unit. */
module StockLedger {
  import opened Wrappers
  import opened Sums

  datatype Category = Paper | Ink | Pens | Printer | OtherSupplies
  datatype PaperSize = A3 | A4 | A5
  datatype Binding = Unbound | Staple | Spiral | Thermal | Beads | OtherBinding

  /** What a delivered print order uses up. */
  datatype Key = BindingOf(kind: Binding) | PaperOf(size: PaperSize) | PerOrder | PerSheet | SpiralWire

  datatype MovementType = Purchase | Usage | Waste | Adjustment
  datatype WasteReason = Jam | Misprint | Damaged | Expired | Lost | OtherReason

  /** What the owner may edit on an item. */
  datatype Rules = Rules(active: bool, deleted: bool, category: Category, reorderLevel: nat,
                         key: Option<Key>, perUse: nat)
  datatype Item = Item(rules: Rules, quantity: int, pending: int, unitCost: int, currency: string)

  datatype Movement = Movement(item: nat, kind: MovementType, delta: int, after: int, at: int,
                               unitCost: Option<int>, currency: string,
                               reason: Option<WasteReason>, order: Option<nat>)

  datatype Alert = OutOfStock | LowStock
  datatype Refusal = ZeroQuantity | WrongSign | NotEnoughStock | UnknownItem | KeyTaken

  /** Rows are never removed, so an item's index is its primary key. */
  datatype Shop = Shop(items: seq<Item>, ledger: seq<Movement>, deducted: set<nat>)

  /** A movement as it is asked for: positive quantities except for an adjustment, which is signed. */
  datatype Entry = Entry(item: nat, kind: MovementType, quantity: int, at: int, unitCost: Option<int>, currency: string,
                         reason: Option<WasteReason>, order: Option<nat>)

  function AlertKind(rules: Rules, before: int, after: int): Option<Alert> {
    if !rules.active || rules.deleted || rules.category.Ink? then None
    else if before > 0 && after <= 0 then Some(OutOfStock)
    else if rules.reorderLevel > 0 && before > rules.reorderLevel && after <= rules.reorderLevel then Some(LowStock)
    else None
  }

  function Signed(kind: MovementType, quantity: int): int {
    if kind.Usage? || kind.Waste? then -quantity else quantity
  }

  function Revalued(item: Item, e: Entry): Item {
    if e.kind.Purchase? && e.unitCost.Some? then
      item.(unitCost := e.unitCost.value, currency := if e.currency == "" then item.currency else e.currency)
    else item
  }

  function Row(item: Item, e: Entry): Movement {
    var delta := Signed(e.kind, e.quantity);
    Movement(e.item, e.kind, delta, item.quantity + delta, e.at, e.unitCost,
             if e.currency != "" || e.unitCost.None? then e.currency else Revalued(item, e).currency,
             if e.kind.Waste? then e.reason else None, e.order)
  }

  function Check(items: seq<Item>, e: Entry): Option<Refusal> {
    if e.quantity == 0 then Some(ZeroQuantity)
    else if !e.kind.Adjustment? && e.quantity < 0 then Some(WrongSign)
    else if e.item >= |items| then Some(UnknownItem)
    else if items[e.item].quantity + Signed(e.kind, e.quantity) < 0 then Some(NotEnoughStock)
    else None
  }

  /** One movement applied to the shelf. */
  function Moved(shop: Shop, e: Entry): Shop
    requires e.item < |shop.items|
  {
    var item := shop.items[e.item];
    var row := Row(item, e);
    shop.(items := shop.items[e.item := Revalued(item, e).(quantity := row.after)], ledger := shop.ledger + [row])
  }

  // ---- the ledger invariant ----

  function DeltaOf(i: nat): Movement -> int {
    (m: Movement) => if m.item == i then m.delta else 0
  }

  /** The stock of item i after the first n ledger rows, given what it held before its first movement. */
  function Balance(base: seq<nat>, ledger: seq<Movement>, i: nat, n: nat): int
    requires i < |base| && n <= |ledger|
  {
    base[i] + Total(ledger[..n], DeltaOf(i))
  }

  ghost predicate RowSound(base: seq<nat>, ledger: seq<Movement>, j: nat)
    requires j < |ledger|
  {
    && ledger[j].item < |base|
    && ledger[j].after == Balance(base, ledger, ledger[j].item, j + 1)
    && ledger[j].after >= 0
  }

  ghost predicate ItemSound(base: seq<nat>, shop: Shop, i: nat)
    requires i < |base| == |shop.items|
  {
    shop.items[i].quantity == Balance(base, shop.ledger, i, |shop.ledger|) && shop.items[i].quantity >= 0
  }

  /** Every quantity is the base plus the signed movements, every recorded `quantity_after` is a prefix sum, and no
      prefix is negative. */
  ghost predicate Sound(base: seq<nat>, shop: Shop) {
    && |base| == |shop.items|
    && (forall i :: 0 <= i < |base| ==> ItemSound(base, shop, i))
    && (forall j :: 0 <= j < |shop.ledger| ==> RowSound(base, shop.ledger, j))
  }

  lemma BalanceAppend(base: seq<nat>, ledger: seq<Movement>, row: Movement, i: nat)
    requires i < |base|
    ensures Balance(base, ledger + [row], i, |ledger| + 1) == Balance(base, ledger, i, |ledger|) + DeltaOf(i)(row)
  {
    assert (ledger + [row])[..|ledger| + 1] == ledger + [row];
    assert ledger[..|ledger|] == ledger;
    TotalAppend(ledger, row, DeltaOf(i));
  }

  lemma MovedIsSound(base: seq<nat>, shop: Shop, e: Entry)
    requires Sound(base, shop) && Check(shop.items, e).None?
    ensures Sound(base, Moved(shop, e))
  {
    var ledger, shop' := shop.ledger, Moved(shop, e);
    var row := Row(shop.items[e.item], e);
    assert ItemSound(base, shop, e.item);
    forall i | 0 <= i < |base| ensures ItemSound(base, shop', i) {
      assert ItemSound(base, shop, i);
      BalanceAppend(base, ledger, row, i);
    }
    forall j | 0 <= j < |shop'.ledger| ensures RowSound(base, shop'.ledger, j) {
      if j < |ledger| {
        assert RowSound(base, ledger, j);
        assert shop'.ledger[..j + 1] == ledger[..j + 1];
      } else {
        BalanceAppend(base, ledger, row, e.item);
      }
    }
  }

  /** The movements of item i were recorded in time order. Those of different items are made under different locks. */
  ghost predicate Chronological(ledger: seq<Movement>, i: nat) {
    forall j, k :: 0 <= j < k < |ledger| && ledger[j].item == i && ledger[k].item == i ==> ledger[j].at <= ledger[k].at
  }

  // ---- alerts ----

  /** Items the alert is switched on for. */
  predicate Watched(rules: Rules) {
    rules.active && !rules.deleted && !rules.category.Ink? && rules.reorderLevel > 0
  }

  /** The alert ledger row j raises about item i, while its rules are `rules`. */
  function AlertAt(rules: Rules, base: seq<nat>, ledger: seq<Movement>, i: nat, j: nat): Option<Alert>
    requires i < |base| && j < |ledger|
  {
    if ledger[j].item == i then AlertKind(rules, ledger[j].after - ledger[j].delta, ledger[j].after) else None
  }

  lemma BalanceStep(base: seq<nat>, ledger: seq<Movement>, i: nat, j: nat)
    requires i < |base| && j < |ledger|
    ensures Balance(base, ledger, i, j + 1) == Balance(base, ledger, i, j) + DeltaOf(i)(ledger[j])
  {
    assert ledger[..j + 1] == ledger[..j] + [ledger[j]];
    TotalAppend(ledger[..j], ledger[j], DeltaOf(i));
  }

  lemma AlertComparesBalances(rules: Rules, base: seq<nat>, shop: Shop, i: nat, j: nat)
    requires Sound(base, shop) && i < |base| && j < |shop.ledger|
    ensures AlertAt(rules, base, shop.ledger, i, j)
            == if shop.ledger[j].item == i
               then AlertKind(rules, Balance(base, shop.ledger, i, j), Balance(base, shop.ledger, i, j + 1)) else None
  {
    assert RowSound(base, shop.ledger, j);
    BalanceStep(base, shop.ledger, i, j);
  }

  /** A stretch of the ledger that starts above the level and ends at or below it raises an alert. */
  lemma {:induction false} ACrossingIsReported(rules: Rules, base: seq<nat>, shop: Shop, i: nat, a: nat, b: nat)
    requires Sound(base, shop) && i < |base| && a <= b <= |shop.ledger| && Watched(rules)
    requires Balance(base, shop.ledger, i, a) > rules.reorderLevel >= Balance(base, shop.ledger, i, b)
    ensures exists j :: a <= j < b && AlertAt(rules, base, shop.ledger, i, j).Some?
    decreases b
  {
    var j := b - 1;
    BalanceStep(base, shop.ledger, i, j);
    AlertComparesBalances(rules, base, shop, i, j);
    if Balance(base, shop.ledger, i, j) > rules.reorderLevel {
      assert AlertAt(rules, base, shop.ledger, i, j).Some?;
    } else {
      ACrossingIsReported(rules, base, shop, i, a, j);
    }
  }

  /** A stretch that starts with stock and ends without any reports, at some point, that the item ran out. */
  lemma {:induction false} RunningOutIsReported(rules: Rules, base: seq<nat>, shop: Shop, i: nat, a: nat, b: nat)
    requires Sound(base, shop) && i < |base| && a <= b <= |shop.ledger|
    requires rules.active && !rules.deleted && !rules.category.Ink?
    requires Balance(base, shop.ledger, i, a) > 0 == Balance(base, shop.ledger, i, b)
    ensures exists j :: a <= j < b && AlertAt(rules, base, shop.ledger, i, j) == Some(OutOfStock)
    decreases b
  {
    var j := b - 1;
    BalanceStep(base, shop.ledger, i, j);
    AlertComparesBalances(rules, base, shop, i, j);
    if Balance(base, shop.ledger, i, j) > 0 {
      assert AlertAt(rules, base, shop.ledger, i, j) == Some(OutOfStock);
    } else {
      if j > a {
        BalanceIsNotNegative(base, shop, i, j);
      }
      RunningOutIsReported(rules, base, shop, i, a, j);
    }
  }

  lemma {:induction false} BalanceIsNotNegative(base: seq<nat>, shop: Shop, i: nat, n: nat)
    requires Sound(base, shop) && i < |base| && n <= |shop.ledger|
    ensures Balance(base, shop.ledger, i, n) >= 0
  {
    if n > 0 {
      BalanceStep(base, shop.ledger, i, n - 1);
      BalanceIsNotNegative(base, shop, i, n - 1);
      assert RowSound(base, shop.ledger, n - 1);
    }
  }

  function Raised(rules: Rules, base: seq<nat>, ledger: seq<Movement>, i: nat, a: nat, b: nat, kind: Alert): nat
    requires i < |base| && a <= b <= |ledger|
    decreases b
  {
    if a == b then 0
    else Raised(rules, base, ledger, i, a, b - 1, kind)
         + if AlertAt(rules, base, ledger, i, b - 1) == Some(kind) then 1 else 0
  }

  /** Two low-stock alerts are separated by a moment above the level: buying back re-arms the alert. */
  lemma LowStockIsReArmedOnlyAboveTheLevel(rules: Rules, base: seq<nat>, shop: Shop, i: nat, j: nat, k: nat)
    requires Sound(base, shop) && i < |base| && j < k < |shop.ledger|
    requires AlertAt(rules, base, shop.ledger, i, j) == AlertAt(rules, base, shop.ledger, i, k) == Some(LowStock)
    ensures exists n :: j + 1 < n <= k && Balance(base, shop.ledger, i, n) > rules.reorderLevel
    ensures Balance(base, shop.ledger, i, j + 1) <= rules.reorderLevel
  {
    AlertComparesBalances(rules, base, shop, i, j);
    AlertComparesBalances(rules, base, shop, i, k);
    assert Balance(base, shop.ledger, i, k) > rules.reorderLevel;
  }

  /** A stretch in which the item is never restocked raises each kind of alert at most once, and none of a kind whose
      threshold it has already passed. */
  lemma {:induction false} FallingStockAlertsAtMostTwice(rules: Rules, base: seq<nat>, shop: Shop, i: nat, a: nat,
                                                         b: nat)
    requires Sound(base, shop) && i < |base| && a <= b <= |shop.ledger|
    requires forall j :: a <= j < b && shop.ledger[j].item == i ==> shop.ledger[j].delta <= 0
    ensures Balance(base, shop.ledger, i, b) <= Balance(base, shop.ledger, i, a)
    ensures Raised(rules, base, shop.ledger, i, a, b, LowStock) <= 1
    ensures Raised(rules, base, shop.ledger, i, a, b, OutOfStock) <= 1
    ensures Balance(base, shop.ledger, i, b) > rules.reorderLevel
            ==> Raised(rules, base, shop.ledger, i, a, b, LowStock) == 0
    ensures Balance(base, shop.ledger, i, b) > 0 ==> Raised(rules, base, shop.ledger, i, a, b, OutOfStock) == 0
    decreases b
  {
    if a < b {
      FallingStockAlertsAtMostTwice(rules, base, shop, i, a, b - 1);
      BalanceStep(base, shop.ledger, i, b - 1);
      AlertComparesBalances(rules, base, shop, i, b - 1);
    }
  }
}
