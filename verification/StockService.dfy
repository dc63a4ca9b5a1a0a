/** The stock services as they run, updating the item rows and the ledger in place. */
module StockService {
  import opened Wrappers
  import opened Sums
  import opened StockLedger
  import opened StockConsumption
  import opened StockRuns

  method CountLine(before: map<Key, nat>, line: Line) returns (needs: map<Key, nat>)
    ensures needs == AddLine(before, line)
  {
    needs := before;
    if line.sheets > 0 {
      needs := Add(needs, PaperOf(line.size), line.sheets);
    }
    var kind := KindOf(line);
    if kind in {Staple, Spiral, Thermal, Beads} {
      needs := Add(needs, BindingOf(kind), line.copies);
    }
    if kind.Spiral? && line.wirePerCopy.Some? {
      needs := Add(needs, SpiralWire, WireGrams(line));
    }
  }

  /** `StockConsumptionService.uses`: one pass over the order's lines filling a dictionary. */
  method CountUses(lines: seq<Line>) returns (needs: map<Key, nat>)
    ensures needs == Uses(lines)
  {
    needs := map[];
    var sheets: nat := 0;
    for k := 0 to |lines|
      invariant needs == AddLines(lines[..k]) && sheets == Total(lines[..k], SheetWeight)
    {
      assert lines[..k + 1][..k] == lines[..k];
      needs := CountLine(needs, lines[k]);
      sheets := sheets + lines[k].sheets;
    }
    assert lines[..|lines|] == lines;
    if sheets > 0 {
      needs := needs[PerSheet := sheets];
    }
    needs := needs[PerOrder := 1];
  }

  class StockRoom {
    var items: seq<Item>
    var ledger: seq<Movement>
    var deducted: set<nat>

    function Value(): Shop
      reads this
    {
      Shop(items, ledger, deducted)
    }

    constructor ()
      ensures Value() == Shop([], [], {})
    {
      items, ledger, deducted := [], [], {};
    }

    /** `record_movement`: refused, with nothing changed, or the row is updated, the movement inserted, and the alert the
        crossing calls for is returned. */
    method RecordMovement(e: Entry) returns (r: Result<(Movement, Option<Alert>), Refusal>)
      modifies this
      ensures r.Failure? ==> Check(old(items), e) == Some(r.error) && Value() == old(Value())
      ensures r.Success? ==>
                && Check(old(items), e).None?
                && Value() == Moved(old(Value()), e)
                && ledger == old(ledger) + [r.value.0]
                && r.value.1 == AlertKind(old(items)[e.item].rules, old(items)[e.item].quantity, items[e.item].quantity)
    {
      if e.quantity == 0 {
        return Failure(ZeroQuantity);
      }
      if !e.kind.Adjustment? && e.quantity < 0 {
        return Failure(WrongSign);
      }
      if e.item >= |items| {
        return Failure(UnknownItem);
      }
      var locked := items[e.item];
      var before := locked.quantity;
      var delta := match e.kind {
        case Purchase => e.quantity
        case Usage => -e.quantity
        case Waste => -e.quantity
        case Adjustment => e.quantity
      };
      var after := locked.quantity + delta;
      if after < 0 {
        return Failure(NotEnoughStock);
      }
      locked := locked.(quantity := after);
      if e.kind.Purchase? && e.unitCost.Some? {
        locked := locked.(unitCost := e.unitCost.value);
        if e.currency != "" {
          locked := locked.(currency := e.currency);
        }
      }
      items := items[e.item := locked];
      var currency := if e.currency != "" then e.currency else if e.unitCost.Some? then locked.currency else "";
      var movement := Movement(e.item, e.kind, delta, after, e.at, e.unitCost, currency,
                               if e.kind.Waste? then e.reason else None, e.order);
      ledger := ledger + [movement];
      return Success((movement, AlertKind(locked.rules, before, after)));
    }

    /** One pass of the deduction loop. */
    method ChargeOne(key: Key, needs: map<Key, nat>, order: nat, at: int) returns (report: seq<ReportLine>)
      requires key in needs && NonNegative(Value())
      modifies this
      ensures Value() == ChargeKey(old(Value()), key, needs, order, at)
      ensures report == ReportKey(old(Value()), key, needs)
    {
      var found := FindFor(items, key);
      if found.None? {
        return [Reported(key, needs[key], None, 0, 0)];
      }
      var i := found.value;
      var item := items[i];
      var owed := item.pending + needs[key] * item.rules.perUse;
      var whole := owed / HUNDREDTH;
      var take := if whole <= item.quantity then whole else item.quantity;
      var shortfall := whole - take;
      if take > 0 {
        var movement := RecordMovement(UsageEntry(i, take, order, at));
      }
      items := items[i := items[i].(pending := owed - take * HUNDREDTH)];
      report := [Reported(key, needs[key], Some(i), take, shortfall)];
    }

    /** Keys the order did not use are passed over. */
    method ChargeIfUsed(key: Key, needs: map<Key, nat>, order: nat, at: int) returns (report: seq<ReportLine>)
      requires NonNegative(Value())
      modifies this
      ensures Value() == ChargeKey(old(Value()), key, needs, order, at)
      ensures report == ReportKey(old(Value()), key, needs)
      ensures NonNegative(Value())
    {
      report := [];
      ChargeKeyIsNonNegative(Value(), key, needs, order, at);
      if key in needs {
        report := ChargeOne(key, needs, order, at);
      }
    }

    /** `deduct_for_order`: an order already deducted is left alone; otherwise each key used is charged, in order of its
        name, and the order is marked. */
    method DeductForOrder(order: nat, lines: seq<Line>, at: int) returns (report: seq<ReportLine>)
      requires NonNegative(Value())
      modifies this
      ensures Value() == Deduct(old(Value()), order, lines, at)
      ensures report == if order in old(deducted) then [] else ReportKeys(old(Value()), KEYS, Uses(lines), order, at)
      ensures NonNegative(Value())
    {
      ghost var start := Value();
      if order in deducted {
        return [];
      }
      report := [];
      var needs := CountUses(lines);
      for k := 0 to |KEYS|
        invariant Value() == ChargeKeys(start, KEYS[..k], needs, order, at)
        invariant report == ReportKeys(start, KEYS[..k], needs, order, at)
        invariant NonNegative(Value())
      {
        OneMoreKey(start, KEYS, k, needs, order, at);
        var line := ChargeIfUsed(KEYS[k], needs, order, at);
        report := report + line;
      }
      assert KEYS[..|KEYS|] == KEYS;
      ChargesKeepDeducted(start, KEYS, needs, order, at);
      deducted := deducted + {order};
    }

    /** Creating an item books its opening balance through the ledger. */
    method CreateItem(rules: Rules, unitCost: int, currency: string, opening: nat, at: int) returns (r: Result<nat,
                      Refusal>)
      modifies this
      ensures Value() == Next(old(Value()), Create(rules, unitCost, currency, opening, at))
      ensures r == if KeyFree(old(items), rules, |old(items)|) then Success(|old(items)|) else Failure(KeyTaken)
    {
      if !KeyFree(items, rules, |items|) {
        return Failure(KeyTaken);
      }
      var i := |items|;
      items := items + [Item(rules, 0, 0, unitCost, currency)];
      if opening > 0 {
        var movement := RecordMovement(Opening(i, opening, at));
      }
      return Success(i);
    }

    /** An edit writes the whole loaded row back under the row's id, with the edited columns replaced. */
    method SaveItem(draft: Draft, rules: Rules, unitCost: int, currency: string) returns (r: Result<Item, Refusal>)
      requires draft.item < |items|
      modifies this`items
      ensures r.Success? <==> KeyFree(old(items), rules, draft.item)
      ensures Value() == if r.Success? then Saved(old(Value()), draft, rules, unitCost, currency) else old(Value())
      ensures r.Success? ==> r.value == items[draft.item]
    {
      if !KeyFree(items, rules, draft.item) {
        return Failure(KeyTaken);
      }
      var row := draft.copy.(rules := rules, unitCost := unitCost, currency := currency);
      items := items[draft.item := row];
      return Success(row);
    }
  }

  lemma OneMoreKey(shop: Shop, keys: seq<Key>, k: nat, needs: map<Key, nat>, order: nat, at: int)
    requires k < |keys|
    ensures var before := ChargeKeys(shop, keys[..k], needs, order, at);
            && ChargeKeys(shop, keys[..k + 1], needs, order, at) == ChargeKey(before, keys[k], needs, order, at)
            && ReportKeys(shop, keys[..k + 1], needs, order, at)
               == ReportKeys(shop, keys[..k], needs, order, at) + ReportKey(before, keys[k], needs)
  {
    assert keys[..k + 1][..k] == keys[..k];
  }

  lemma ChargeKeyIsNonNegative(shop: Shop, key: Key, needs: map<Key, nat>, order: nat, at: int)
    requires NonNegative(shop)
    ensures NonNegative(ChargeKey(shop, key, needs, order, at))
  {
  }
}
