/** Every way the shelf is written to, and what all runs of them keep.

    Movements, deliveries and new items are transactions under the lock of the item. An edit is not: it loads the row, and
    later writes every column of it back. */
module StockRuns {
  import opened Wrappers
  import opened Sums
  import opened StockLedger
  import opened StockConsumption

  /** The serializer books an opening balance through the ledger; the seed command writes the quantity directly. */
  datatype Step =
    | Create(rules: Rules, unitCost: int, currency: string, opening: nat, at: int)
    | Seed(rules: Rules, unitCost: int, currency: string, quantity: nat)
    | Record(entry: Entry)
    | Deliver(order: nat, lines: seq<Line>, deliveredAt: int)

  predicate KeyFree(items: seq<Item>, rules: Rules, except: nat) {
    rules.deleted || rules.key.None?
    || forall i :: 0 <= i < |items| && i != except ==> items[i].rules.deleted || items[i].rules.key != rules.key
  }

  function Added(shop: Shop, item: Item): Shop {
    shop.(items := shop.items + [item])
  }

  function Opening(i: nat, quantity: int, at: int): Entry {
    Entry(i, Adjustment, quantity, at, None, "", None, None)
  }

  function Next(shop: Shop, step: Step): Shop {
    match step
    case Create(rules, unitCost, currency, opening, at) =>
      if !KeyFree(shop.items, rules, |shop.items|) then shop else
      var added := Added(shop, Item(rules, 0, 0, unitCost, currency));
      if opening > 0 then Moved(added, Opening(|shop.items|, opening, at)) else added
    case Seed(rules, unitCost, currency, quantity) =>
      if !KeyFree(shop.items, rules, |shop.items|) then shop
      else Added(shop, Item(rules, quantity, 0, unitCost, currency))
    case Record(e) =>
      if Check(shop.items, e).Some? then shop else Moved(shop, e.(order := None))
    case Deliver(order, lines, at) => Deduct(shop, order, lines, at)
  }

  // ---- edits ----

  /** The row as an edit in progress has loaded it. */
  datatype Draft = Draft(item: nat, copy: Item)

  datatype Desk = Desk(shop: Shop, drafts: map<nat, Draft>)

  /** One edit is a load and a save of the same session, with anything in between. Deleting an item is such an edit too. */
  datatype Action =
    | Act(step: Step)
    | Load(session: nat, item: nat)
    | Save(saver: nat, rules: Rules, unitCost: int, currency: string)

  /** The whole row written back: the edited columns, and the loaded quantity and debt. */
  function Saved(shop: Shop, draft: Draft, rules: Rules, unitCost: int, currency: string): Shop
    requires draft.item < |shop.items|
  {
    shop.(items := shop.items[draft.item := Item(rules, draft.copy.quantity, draft.copy.pending, unitCost, currency)])
  }

  predicate CanSave(desk: Desk, session: nat, rules: Rules) {
    && session in desk.drafts && desk.drafts[session].item < |desk.shop.items|
    && KeyFree(desk.shop.items, rules, desk.drafts[session].item)
  }

  function Turn(desk: Desk, action: Action): Desk {
    match action
    case Act(step) => desk.(shop := Next(desk.shop, step))
    case Load(session, i) =>
      if i >= |desk.shop.items| || desk.shop.items[i].rules.deleted then desk
      else desk.(drafts := desk.drafts[session := Draft(i, desk.shop.items[i])])
    case Save(session, rules, unitCost, currency) =>
      if !CanSave(desk, session, rules) then desk
      else Desk(Saved(desk.shop, desk.drafts[session], rules, unitCost, currency), desk.drafts - {session})
  }

  const Opened := Desk(Shop([], [], {}), map[])

  function Run(actions: seq<Action>): Desk {
    if actions == [] then Opened else Turn(Run(actions[..|actions| - 1]), actions[|actions| - 1])
  }

  // ---- what every run keeps ----

  /** Among live items at most one carries each consumption key. */
  ghost predicate UniqueKeys(items: seq<Item>) {
    forall i, j :: 0 <= i < j < |items| && !items[i].rules.deleted && !items[j].rules.deleted && items[i].rules.key.Some?
                   ==> items[i].rules.key != items[j].rules.key
  }

  ghost predicate LedgerFits(shop: Shop) {
    forall j :: 0 <= j < |shop.ledger| ==> shop.ledger[j].item < |shop.items|
  }

  ghost predicate Inv(shop: Shop) {
    && NonNegative(shop)
    && OrdersAreRecorded(shop)
    && OneMovementPerOrderAndItem(shop.ledger)
    && UniqueKeys(shop.items)
    && LedgerFits(shop)
  }

  ghost predicate DraftsFit(desk: Desk) {
    forall s <- desk.drafts ::
      && desk.drafts[s].item < |desk.shop.items|
      && desk.drafts[s].copy.quantity >= 0 && desk.drafts[s].copy.pending >= 0
  }

  ghost predicate DeskInv(desk: Desk) {
    Inv(desk.shop) && DraftsFit(desk)
  }

  /** Stock of item i that its movements do not account for. */
  function Unaccounted(shop: Shop, i: nat): int {
    (if i < |shop.items| then shop.items[i].quantity else 0) - Total(shop.ledger, DeltaOf(i))
  }

  /** Everything item i was charged so far; an item that does not exist yet was charged nothing. */
  function SettledSoFar(shop: Shop, i: nat): int {
    (if i < |shop.items| then shop.items[i].pending else 0) + Total(shop.ledger, TakenWeight(i))
  }

  lemma NoRowsYet(shop: Shop)
    requires LedgerFits(shop)
    ensures Total(shop.ledger, DeltaOf(|shop.items|)) == 0 && Total(shop.ledger, TakenWeight(|shop.items|)) == 0
  {
    forall m | m in shop.ledger ensures m.item < |shop.items| {
      var j :| 0 <= j < |shop.ledger| && shop.ledger[j] == m;
    }
    TotalZero(shop.ledger, DeltaOf(|shop.items|));
    TotalZero(shop.ledger, TakenWeight(|shop.items|));
  }

  lemma AddedKeeps(shop: Shop, item: Item)
    requires Inv(shop) && item.quantity >= 0 && item.pending == 0
    requires KeyFree(shop.items, item.rules, |shop.items|)
    ensures Inv(Added(shop, item))
    ensures forall i :: i != |shop.items| ==> Unaccounted(Added(shop, item), i) == Unaccounted(shop, i)
    ensures Unaccounted(Added(shop, item), |shop.items|) == Unaccounted(shop, |shop.items|) + item.quantity
    ensures forall i :: SettledSoFar(Added(shop, item), i) == SettledSoFar(shop, i)
  {
    NoRowsYet(shop);
  }

  lemma MovedKeeps(shop: Shop, e: Entry)
    requires Inv(shop) && Check(shop.items, e).None? && e.order.None?
    ensures Inv(Moved(shop, e)) && |Moved(shop, e).items| == |shop.items|
    ensures forall i :: Unaccounted(Moved(shop, e), i) == Unaccounted(shop, i)
    ensures forall i :: SettledSoFar(Moved(shop, e), i) == SettledSoFar(shop, i)
  {
    forall i: nat ensures Unaccounted(Moved(shop, e), i) == Unaccounted(shop, i)
      ensures SettledSoFar(Moved(shop, e), i) == SettledSoFar(shop, i)
    {
      TotalAppend(shop.ledger, Row(shop.items[e.item], e), DeltaOf(i));
      TotalAppend(shop.ledger, Row(shop.items[e.item], e), TakenWeight(i));
    }
  }

  lemma ChargedKeeps(shop: Shop, k: nat, uses: nat, order: nat, at: int, i: nat)
    requires k < |shop.items| && NonNegative(shop) && LedgerFits(shop)
    ensures var after := Charged(shop, k, uses, order, at);
            && LedgerFits(after) && NonNegative(after) && |after.items| == |shop.items|
            && Unaccounted(after, i) == Unaccounted(shop, i)
  {
    ChargeSettlesWholeHundredths(shop, k, uses, order, at);
    var take := TakenFor(shop.items[k], uses);
    if take > 0 {
      TotalAppend(shop.ledger, Row(shop.items[k], UsageEntry(k, take, order, at)), DeltaOf(i));
    }
  }

  lemma {:induction false} ChargeKeysKeep(shop: Shop, keys: seq<Key>, needs: map<Key, nat>, order: nat, at: int, i: nat)
    requires NonNegative(shop) && LedgerFits(shop)
    ensures var after := ChargeKeys(shop, keys, needs, order, at);
            && LedgerFits(after) && NonNegative(after) && |after.items| == |shop.items|
            && Unaccounted(after, i) == Unaccounted(shop, i)
  {
    if keys != [] {
      var init, last := keys[..|keys| - 1], keys[|keys| - 1];
      ChargeKeysKeep(shop, init, needs, order, at, i);
      var before := ChargeKeys(shop, init, needs, order, at);
      if last in needs && FindFor(before.items, last).Some? {
        ChargedKeeps(before, FindFor(before.items, last).value, needs[last], order, at, i);
      }
    }
  }

  lemma {:induction false} ChargedKeysStayUnique(shop: Shop, order: nat, lines: seq<Line>, at: int)
    requires Inv(shop)
    ensures UniqueKeys(Deduct(shop, order, lines, at).items)
  {
    if order !in shop.deducted && |shop.items| > 0 {
      ChargeKeysAreConserved(shop, KEYS, Uses(lines), order, at, 0);
    } else if order !in shop.deducted {
      ChargeKeysKeep(shop, KEYS, Uses(lines), order, at, 0);
    }
  }

  lemma DeliverKeeps(shop: Shop, order: nat, lines: seq<Line>, at: int)
    requires Inv(shop)
    ensures Inv(Deduct(shop, order, lines, at)) && |Deduct(shop, order, lines, at).items| == |shop.items|
    ensures forall i :: Unaccounted(Deduct(shop, order, lines, at), i) == Unaccounted(shop, i)
  {
    DeductKeepsOrdersApart(shop, order, lines, at);
    ChargedKeysStayUnique(shop, order, lines, at);
    forall i: nat ensures Unaccounted(Deduct(shop, order, lines, at), i) == Unaccounted(shop, i) {
      ChargeKeysKeep(shop, KEYS, Uses(lines), order, at, i);
    }
    ChargeKeysKeep(shop, KEYS, Uses(lines), order, at, 0);
  }

  /** Stock the step puts on the shelf without a movement. */
  function SeededBy(shop: Shop, step: Step, i: nat): int {
    if step.Seed? && i == |shop.items| && KeyFree(shop.items, step.rules, i) then step.quantity else 0
  }

  lemma StepKeeps(shop: Shop, step: Step)
    requires Inv(shop)
    ensures Inv(Next(shop, step)) && |Next(shop, step).items| >= |shop.items|
    ensures forall i :: Unaccounted(Next(shop, step), i) == Unaccounted(shop, i) + SeededBy(shop, step, i)
  {
    match step
    case Create(rules, unitCost, currency, opening, at) =>
      if KeyFree(shop.items, rules, |shop.items|) {
        var item := Item(rules, 0, 0, unitCost, currency);
        AddedKeeps(shop, item);
        if opening > 0 {
          MovedKeeps(Added(shop, item), Opening(|shop.items|, opening, at));
        }
      }
    case Seed(rules, unitCost, currency, quantity) =>
      if KeyFree(shop.items, rules, |shop.items|) {
        AddedKeeps(shop, Item(rules, quantity, 0, unitCost, currency));
      }
    case Record(e) =>
      if Check(shop.items, e).None? {
        MovedKeeps(shop, e.(order := None));
      }
    case Deliver(order, lines, at) => DeliverKeeps(shop, order, lines, at);
  }

  lemma SavedKeeps(shop: Shop, draft: Draft, rules: Rules, unitCost: int, currency: string)
    requires Inv(shop) && draft.item < |shop.items| && KeyFree(shop.items, rules, draft.item)
    requires draft.copy.quantity >= 0 && draft.copy.pending >= 0
    ensures Inv(Saved(shop, draft, rules, unitCost, currency))
  {
  }

  lemma TurnKeeps(desk: Desk, action: Action)
    requires DeskInv(desk)
    ensures DeskInv(Turn(desk, action)) && |Turn(desk, action).shop.items| >= |desk.shop.items|
  {
    match action
    case Act(step) => StepKeeps(desk.shop, step);
    case Load(_, _) =>
    case Save(session, rules, unitCost, currency) =>
      if CanSave(desk, session, rules) {
        SavedKeeps(desk.shop, desk.drafts[session], rules, unitCost, currency);
      }
  }

  /** Over every run, edits that overlap anything included: no quantity and no debt is negative, no order is charged twice
      to an item, and each consumption key names at most one live item. */
  lemma {:induction false} RunKeeps(actions: seq<Action>)
    ensures DeskInv(Run(actions))
  {
    if actions != [] {
      RunKeeps(actions[..|actions| - 1]);
      TurnKeeps(Run(actions[..|actions| - 1]), actions[|actions| - 1]);
    }
  }

  /** The item a key stands for is unambiguous. */
  lemma {:induction false} KeyNamesOneItem(actions: seq<Action>, key: Key, i: nat)
    requires i < |Run(actions).shop.items|
    ensures FindFor(Run(actions).shop.items, key) == Some(i) <==> Stands(Run(actions).shop.items[i], key)
  {
    RunKeeps(actions);
    var items := Run(actions).shop.items;
    assert items[i] in items;
  }

  // ---- the quantity and its movements ----

  /** What a save changes about the quantity of item i: it puts back the loaded one. */
  function PutBack(desk: Desk, action: Action, i: nat): int {
    if action.Save? && CanSave(desk, action.saver, action.rules) && desk.drafts[action.saver].item == i
    then desk.drafts[action.saver].copy.quantity - desk.shop.items[i].quantity else 0
  }

  function SeededIn(desk: Desk, action: Action, i: nat): int {
    if action.Act? then SeededBy(desk.shop, action.step, i) else 0
  }

  function SeededStock(actions: seq<Action>, i: nat): int {
    if actions == [] then 0
    else SeededStock(actions[..|actions| - 1], i)
         + SeededIn(Run(actions[..|actions| - 1]), actions[|actions| - 1], i)
  }

  /** Movements undone by saves of rows loaded before them. */
  function PutBackStock(actions: seq<Action>, i: nat): int {
    if actions == [] then 0
    else PutBackStock(actions[..|actions| - 1], i)
         + PutBack(Run(actions[..|actions| - 1]), actions[|actions| - 1], i)
  }

  lemma TurnAccounts(desk: Desk, action: Action, i: nat)
    requires DeskInv(desk)
    ensures Unaccounted(Turn(desk, action).shop, i)
         == Unaccounted(desk.shop, i) + SeededIn(desk, action, i) + PutBack(desk, action, i)
  {
    if action.Act? {
      StepKeeps(desk.shop, action.step);
    }
  }

  lemma {:induction false} StockIsAccountedFor(actions: seq<Action>, i: nat)
    ensures Unaccounted(Run(actions).shop, i) == SeededStock(actions, i) + PutBackStock(actions, i)
  {
    if actions != [] {
      RunKeeps(actions[..|actions| - 1]);
      StockIsAccountedFor(actions[..|actions| - 1], i);
      TurnAccounts(Run(actions[..|actions| - 1]), actions[|actions| - 1], i);
    }
  }

  /** In every reachable shop an item's quantity is its signed movements, plus the stock it was seeded with, plus what saves
      put back; so it is the sum of the movements exactly when the last two cancel. */
  lemma {:induction false} QuantityIsTheSumOfMovements(actions: seq<Action>, i: nat)
    requires i < |Run(actions).shop.items|
    ensures var shop := Run(actions).shop;
            && shop.items[i].quantity
               == Total(shop.ledger, DeltaOf(i)) + SeededStock(actions, i) + PutBackStock(actions, i)
            && (shop.items[i].quantity == Total(shop.ledger, DeltaOf(i))
                <==> SeededStock(actions, i) + PutBackStock(actions, i) == 0)
  {
    StockIsAccountedFor(actions, i);
  }

  // ---- two runs that break the sum ----

  const PAPER := Rules(true, false, Paper, 0, None, 0)

  /** The seed command alone puts 5 units on a shelf without any movement. */
  lemma {:induction false} SeededStockHasNoMovement()
    ensures var shop := Run([Act(Seed(PAPER, 0, "", 500))]).shop;
            |shop.items| == 1 && shop.items[0].quantity == 500 && shop.ledger == []
  {
    assert [Act(Seed(PAPER, 0, "", 500))][..0] == [];
  }

  const USE_THREE := Entry(0, Usage, 300, 0, None, "", None, None)

  function Stocked(quantity: int): Item {
    Item(PAPER, quantity, 0, 0, "")
  }

  lemma RunThen(actions: seq<Action>, action: Action)
    ensures Run(actions + [action]) == Turn(Run(actions), action)
  {
    assert (actions + [action])[..|actions|] == actions;
  }

  const CREATE_TEN := Act(Create(PAPER, 0, "", 1000, 0))
  const LOAD_IT := Load(0, 0)
  const USE_IT := Act(Record(USE_THREE))
  const SAVE_IT := Save(0, PAPER, 0, "")

  predicate Shows(desk: Desk, quantity: int, deltas: seq<int>) {
    && desk.shop.items == [Stocked(quantity)] && |desk.shop.ledger| == |deltas|
    && forall j :: 0 <= j < |deltas| ==> desk.shop.ledger[j].delta == deltas[j]
  }

  lemma TenAreCreated()
    ensures Shows(Turn(Opened, CREATE_TEN), 1000, [1000])
  {
    var items := Turn(Opened, CREATE_TEN).shop.items;
    assert |items| == 1 && items[0] == Stocked(1000);
  }

  lemma ThreeAreUsed(desk: Desk)
    requires Shows(desk, 1000, [1000])
    ensures Shows(Turn(desk, USE_IT), 700, [1000, -300]) && Turn(desk, USE_IT).drafts == desk.drafts
  {
    var items := Turn(desk, USE_IT).shop.items;
    assert |items| == 1 && items[0] == Stocked(700);
  }

  lemma TheSaveWritesTen(desk: Desk)
    requires Shows(desk, 700, [1000, -300]) && desk.drafts == map[0 := Draft(0, Stocked(1000))]
    ensures Shows(Turn(desk, SAVE_IT), 1000, [1000, -300])
  {
    assert KeyFree(desk.shop.items, PAPER, 0);
  }

  /** An item of 10 is loaded for an edit, 3 are used, the edit is saved: the shelf shows 10 again, the ledger 7. */
  lemma {:induction false} AStaleSaveUndoesAMovement()
    ensures Shows(Run([CREATE_TEN, LOAD_IT, USE_IT, SAVE_IT]), 1000, [1000, -300])
  {
    RunThen([], CREATE_TEN);
    RunThen([CREATE_TEN], LOAD_IT);
    RunThen([CREATE_TEN, LOAD_IT], USE_IT);
    RunThen([CREATE_TEN, LOAD_IT, USE_IT], SAVE_IT);
    assert [] + [CREATE_TEN] == [CREATE_TEN] && [CREATE_TEN] + [LOAD_IT] == [CREATE_TEN, LOAD_IT];
    assert [CREATE_TEN, LOAD_IT] + [USE_IT] == [CREATE_TEN, LOAD_IT, USE_IT];
    assert [CREATE_TEN, LOAD_IT, USE_IT] + [SAVE_IT] == [CREATE_TEN, LOAD_IT, USE_IT, SAVE_IT];
    FourTurns(Turn(Opened, CREATE_TEN));
  }

  lemma FourTurns(created: Desk)
    requires created == Turn(Opened, CREATE_TEN)
    ensures Shows(Turn(Turn(Turn(created, LOAD_IT), USE_IT), SAVE_IT), 1000, [1000, -300])
  {
    TenAreCreated();
    ThreeAreUsed(Turn(created, LOAD_IT));
    TheSaveWritesTen(Turn(Turn(created, LOAD_IT), USE_IT));
  }

  // ---- saves that overlap nothing ----

  /** The loaded row still has the quantity and the debt the item has. */
  predicate UpToDate(desk: Desk, session: nat) {
    && session in desk.drafts && desk.drafts[session].item < |desk.shop.items|
    && desk.drafts[session].copy.quantity == desk.shop.items[desk.drafts[session].item].quantity
    && desk.drafts[session].copy.pending == desk.shop.items[desk.drafts[session].item].pending
  }

  predicate FreshSave(desk: Desk, action: Action) {
    action.Save? && CanSave(desk, action.saver, action.rules) ==> UpToDate(desk, action.saver)
  }

  predicate NoStaleSave(actions: seq<Action>) {
    forall k :: 0 <= k < |actions| ==> FreshSave(Run(actions[..k]), actions[k])
  }

  lemma StaleSavePrefix(actions: seq<Action>)
    requires actions != [] && NoStaleSave(actions)
    ensures NoStaleSave(actions[..|actions| - 1])
    ensures FreshSave(Run(actions[..|actions| - 1]), actions[|actions| - 1])
  {
    var init := actions[..|actions| - 1];
    assert forall k :: 0 <= k < |init| ==> init[..k] == actions[..k];
  }

  /** The order was delivered before, or uses nothing the item stands for. */
  predicate ChargesNothing(shop: Shop, order: nat, lines: seq<Line>, i: nat)
    requires i < |shop.items|
  {
    order in shop.deducted || forall key <- KEYS :: key in Uses(lines) ==> !Stands(shop.items[i], key)
  }

  lemma {:induction false} OthersAreCharged(shop: Shop, keys: seq<Key>, needs: map<Key, nat>, order: nat, at: int, i: nat)
    requires i < |shop.items| && forall key <- keys :: key in needs ==> !Stands(shop.items[i], key)
    ensures var items := ChargeKeys(shop, keys, needs, order, at).items;
            |items| == |shop.items| && items[i] == shop.items[i]
  {
    if keys != [] {
      OthersAreCharged(shop, keys[..|keys| - 1], needs, order, at, i);
    }
  }

  /** What the session's edit needs others to leave alone: no movement of its item, no delivery that charges it, no other
      save of the item. */
  predicate LeavesAlone(desk: Desk, action: Action, session: nat)
    requires session in desk.drafts && desk.drafts[session].item < |desk.shop.items|
  {
    var i := desk.drafts[session].item;
    match action
    case Act(Create(_, _, _, _, _)) => true
    case Act(Seed(_, _, _, _)) => true
    case Act(Record(e)) => e.item != i || Check(desk.shop.items, e).Some?
    case Act(Deliver(order, lines, _)) => ChargesNothing(desk.shop, order, lines, i)
    case Load(s, _) => s != session
    case Save(s, rules, _, _) => s != session && (CanSave(desk, s, rules) ==> desk.drafts[s].item != i)
  }

  lemma StaysUpToDate(desk: Desk, action: Action, session: nat)
    requires UpToDate(desk, session) && LeavesAlone(desk, action, session)
    ensures UpToDate(Turn(desk, action), session)
  {
    match action
    case Act(Deliver(order, lines, at)) =>
      if order !in desk.shop.deducted {
        OthersAreCharged(desk.shop, KEYS, Uses(lines), order, at, desk.drafts[session].item);
      }
    case _ =>
  }

  function Continue(desk: Desk, actions: seq<Action>): Desk {
    if actions == [] then desk else Turn(Continue(desk, actions[..|actions| - 1]), actions[|actions| - 1])
  }

  predicate AllLeaveAlone(desk: Desk, actions: seq<Action>, session: nat) {
    forall k :: 0 <= k < |actions| ==>
      var now := Continue(desk, actions[..k]);
      && session in now.drafts && now.drafts[session].item < |now.shop.items|
      && LeavesAlone(now, actions[k], session)
  }

  lemma {:induction false} DraftStaysUpToDate(desk: Desk, actions: seq<Action>, session: nat)
    requires UpToDate(desk, session) && AllLeaveAlone(desk, actions, session)
    ensures UpToDate(Continue(desk, actions), session)
  {
    if actions != [] {
      var init := actions[..|actions| - 1];
      assert forall k :: 0 <= k < |init| ==> init[..k] == actions[..k];
      DraftStaysUpToDate(desk, init, session);
      StaysUpToDate(Continue(desk, init), actions[|actions| - 1], session);
    }
  }

  /** An edit whose item is neither moved, charged for a delivery nor saved by another between its load and its save puts
      nothing back. */
  lemma {:induction false} AnUndisturbedEditIsFresh(desk: Desk, load: Action, between: seq<Action>, save: Action)
    requires load.Load? && load.item < |desk.shop.items| && !desk.shop.items[load.item].rules.deleted
    requires save.Save? && save.saver == load.session
    requires AllLeaveAlone(Turn(desk, load), between, load.session)
    ensures FreshSave(Continue(Turn(desk, load), between), save)
    ensures forall i :: PutBack(Continue(Turn(desk, load), between), save, i) == 0
  {
    DraftStaysUpToDate(Turn(desk, load), between, load.session);
  }

  // ---- a sound ledger ----

  /** Stock each item held before its first movement: nothing unless it was seeded. */
  function NextBase(base: seq<nat>, desk: Desk, action: Action): seq<nat> {
    if |Turn(desk, action).shop.items| == |desk.shop.items| then base
    else base + [if action.Act? && action.step.Seed? then action.step.quantity else 0]
  }

  function BaseOf(actions: seq<Action>): seq<nat> {
    if actions == [] then []
    else NextBase(BaseOf(actions[..|actions| - 1]), Run(actions[..|actions| - 1]), actions[|actions| - 1])
  }

  lemma AddedIsSound(base: seq<nat>, shop: Shop, item: Item)
    requires Sound(base, shop) && LedgerFits(shop) && item.quantity >= 0
    ensures Sound(base + [item.quantity], Added(shop, item))
  {
    var base', after := base + [item.quantity], Added(shop, item);
    NoRowsYet(shop);
    forall i | 0 <= i < |base'| ensures ItemSound(base', after, i) {
      assert shop.ledger[..|shop.ledger|] == shop.ledger;
      if i < |base| {
        assert ItemSound(base, shop, i);
      }
    }
    forall j | 0 <= j < |after.ledger| ensures RowSound(base', after.ledger, j) {
      assert RowSound(base, shop.ledger, j);
    }
  }

  /** Soundness looks at quantities and the ledger only. */
  lemma SameStockIsSound(base: seq<nat>, a: Shop, b: Shop)
    requires Sound(base, a) && b.ledger == a.ledger && |b.items| == |a.items|
    requires forall i :: 0 <= i < |a.items| ==> b.items[i].quantity == a.items[i].quantity
    ensures Sound(base, b)
  {
    forall i | 0 <= i < |base| ensures ItemSound(base, b, i) {
      assert ItemSound(base, a, i);
    }
    forall j | 0 <= j < |b.ledger| ensures RowSound(base, b.ledger, j) {
      assert RowSound(base, a.ledger, j);
    }
  }

  lemma DeliverIsSound(base: seq<nat>, shop: Shop, order: nat, lines: seq<Line>, at: int)
    requires Inv(shop) && Sound(base, shop)
    ensures Sound(base, Deduct(shop, order, lines, at))
  {
    if order !in shop.deducted {
      ChargeKeysAreSound(base, shop, KEYS, Uses(lines), order, at);
      SameStockIsSound(base, ChargeKeys(shop, KEYS, Uses(lines), order, at), Deduct(shop, order, lines, at));
    }
  }

  lemma StepIsSound(base: seq<nat>, shop: Shop, step: Step)
    requires Inv(shop) && Sound(base, shop)
    ensures Sound(NextBase(base, Desk(shop, map[]), Act(step)), Next(shop, step))
  {
    StepKeeps(shop, step);
    match step
    case Create(rules, unitCost, currency, opening, at) =>
      if KeyFree(shop.items, rules, |shop.items|) {
        var item := Item(rules, 0, 0, unitCost, currency);
        AddedIsSound(base, shop, item);
        if opening > 0 {
          MovedIsSound(base + [0], Added(shop, item), Opening(|shop.items|, opening, at));
        }
      }
    case Seed(rules, unitCost, currency, quantity) =>
      if KeyFree(shop.items, rules, |shop.items|) {
        AddedIsSound(base, shop, Item(rules, quantity, 0, unitCost, currency));
      }
    case Record(e) =>
      if Check(shop.items, e).None? {
        MovedIsSound(base, shop, e.(order := None));
      }
    case Deliver(order, lines, at) =>
      DeliverKeeps(shop, order, lines, at);
      DeliverIsSound(base, shop, order, lines, at);
  }

  lemma TurnIsSound(base: seq<nat>, desk: Desk, action: Action)
    requires DeskInv(desk) && Sound(base, desk.shop) && FreshSave(desk, action)
    ensures Sound(NextBase(base, desk, action), Turn(desk, action).shop)
  {
    match action
    case Act(step) => StepIsSound(base, desk.shop, step);
    case Load(_, _) =>
    case Save(session, rules, unitCost, currency) =>
      if CanSave(desk, session, rules) {
        SameStockIsSound(base, desk.shop, Saved(desk.shop, desk.drafts[session], rules, unitCost, currency));
      }
  }

  /** Over every run without a stale save the ledger is sound: each quantity is what the item was seeded with plus its
      signed movements, each `quantity_after` is a prefix sum, and no prefix is negative. */
  lemma {:induction false} LedgerStaysSound(actions: seq<Action>)
    requires NoStaleSave(actions)
    ensures Sound(BaseOf(actions), Run(actions).shop)
  {
    if actions != [] {
      StaleSavePrefix(actions);
      LedgerStaysSound(actions[..|actions| - 1]);
      RunKeeps(actions[..|actions| - 1]);
      TurnIsSound(BaseOf(actions[..|actions| - 1]), Run(actions[..|actions| - 1]), actions[|actions| - 1]);
    }
  }

  // ---- conservation of what is charged ----

  function StepDemand(shop: Shop, step: Step, i: nat): int {
    if step.Deliver? && i < |shop.items| then Demand(shop, step.order, step.lines, i) else 0
  }

  function DemandOf(desk: Desk, action: Action, i: nat): int {
    if action.Act? then StepDemand(desk.shop, action.step, i) else 0
  }

  /** What the run's first deliveries charge to item i, each at the rate and rules of its moment. */
  function RunDemand(actions: seq<Action>, i: nat): int {
    if actions == [] then 0
    else RunDemand(actions[..|actions| - 1], i) + DemandOf(Run(actions[..|actions| - 1]), actions[|actions| - 1], i)
  }

  /** What a save changes about the debt of item i. */
  function DebtPutBack(desk: Desk, action: Action, i: nat): int {
    if action.Save? && CanSave(desk, action.saver, action.rules) && desk.drafts[action.saver].item == i
    then desk.drafts[action.saver].copy.pending - desk.shop.items[i].pending else 0
  }

  function PutBackDebt(actions: seq<Action>, i: nat): int {
    if actions == [] then 0
    else PutBackDebt(actions[..|actions| - 1], i)
         + DebtPutBack(Run(actions[..|actions| - 1]), actions[|actions| - 1], i)
  }

  lemma DeliverConserves(shop: Shop, order: nat, lines: seq<Line>, at: int, i: nat)
    requires Inv(shop)
    ensures SettledSoFar(Deduct(shop, order, lines, at), i)
         == SettledSoFar(shop, i) + if i < |shop.items| then Demand(shop, order, lines, i) else 0
  {
    DeliverKeeps(shop, order, lines, at);
    if i < |shop.items| {
      DeductIsConserved(shop, order, lines, at, i);
    } else {
      NoRowsAt(shop, i);
      NoRowsAt(Deduct(shop, order, lines, at), i);
    }
  }

  lemma NoRowsAt(shop: Shop, i: nat)
    requires LedgerFits(shop) && i >= |shop.items|
    ensures Total(shop.ledger, TakenWeight(i)) == 0
  {
    forall m | m in shop.ledger ensures m.item < |shop.items| {
      var j :| 0 <= j < |shop.ledger| && shop.ledger[j] == m;
    }
    TotalZero(shop.ledger, TakenWeight(i));
  }

  lemma StepConserves(shop: Shop, step: Step, i: nat)
    requires Inv(shop)
    ensures SettledSoFar(Next(shop, step), i) == SettledSoFar(shop, i) + StepDemand(shop, step, i)
  {
    match step
    case Create(rules, unitCost, currency, opening, at) =>
      if KeyFree(shop.items, rules, |shop.items|) {
        var item := Item(rules, 0, 0, unitCost, currency);
        AddedKeeps(shop, item);
        if opening > 0 {
          MovedKeeps(Added(shop, item), Opening(|shop.items|, opening, at));
        }
      }
    case Seed(rules, unitCost, currency, quantity) =>
      if KeyFree(shop.items, rules, |shop.items|) {
        AddedKeeps(shop, Item(rules, quantity, 0, unitCost, currency));
      }
    case Record(e) =>
      if Check(shop.items, e).None? {
        MovedKeeps(shop, e.(order := None));
      }
    case Deliver(order, lines, at) => DeliverConserves(shop, order, lines, at, i);
  }

  lemma TurnConserves(desk: Desk, action: Action, i: nat)
    requires DeskInv(desk)
    ensures SettledSoFar(Turn(desk, action).shop, i)
         == SettledSoFar(desk.shop, i) + DemandOf(desk, action, i) + DebtPutBack(desk, action, i)
  {
    if action.Act? {
      StepConserves(desk.shop, action.step, i);
    }
  }

  /** Conservation and exactly-once: in every reachable shop, what was taken automatically from an item's shelf plus what
      is still owed is the uses times the per-use rate summed over the distinct orders delivered, plus the debt that saves
      put back; so it is conserved exactly when those add up to nothing. */
  lemma {:induction false} ConsumptionIsConserved(actions: seq<Action>, i: nat)
    ensures SettledSoFar(Run(actions).shop, i) == RunDemand(actions, i) + PutBackDebt(actions, i)
    ensures SettledSoFar(Run(actions).shop, i) == RunDemand(actions, i) <==> PutBackDebt(actions, i) == 0
  {
    if actions != [] {
      var init := actions[..|actions| - 1];
      ConsumptionIsConserved(init, i);
      RunKeeps(init);
      TurnConserves(Run(init), actions[|actions| - 1], i);
    }
  }

  /** A run without a stale save puts nothing back, neither stock nor debt. */
  lemma {:induction false} FreshSavesPutNothingBack(actions: seq<Action>, i: nat)
    requires NoStaleSave(actions)
    ensures PutBackStock(actions, i) == 0 && PutBackDebt(actions, i) == 0
  {
    if actions != [] {
      StaleSavePrefix(actions);
      FreshSavesPutNothingBack(actions[..|actions| - 1], i);
    }
  }

  // ---- delivered once ----

  lemma {:induction false} ChargesKeepDeducted(shop: Shop, keys: seq<Key>, needs: map<Key, nat>, order: nat, at: int)
    ensures ChargeKeys(shop, keys, needs, order, at).deducted == shop.deducted
  {
    if keys != [] {
      ChargesKeepDeducted(shop, keys[..|keys| - 1], needs, order, at);
    }
  }

  lemma TurnRemembersDeliveries(desk: Desk, action: Action, order: nat)
    requires order in desk.shop.deducted
    ensures order in Turn(desk, action).shop.deducted
  {
    match action
    case Act(Deliver(o, lines, at)) => ChargesKeepDeducted(desk.shop, KEYS, Uses(lines), o, at);
    case _ =>
  }

  lemma {:induction false} DeliveriesAreRemembered(desk: Desk, actions: seq<Action>, order: nat)
    requires order in desk.shop.deducted
    ensures order in Continue(desk, actions).shop.deducted
  {
    if actions != [] {
      DeliveriesAreRemembered(desk, actions[..|actions| - 1], order);
      TurnRemembersDeliveries(Continue(desk, actions[..|actions| - 1]), actions[|actions| - 1], order);
    }
  }

  /** An order already delivered demands nothing, so a repeated delivery changes nothing at all. */
  lemma RepeatedDeliveryIsInert(desk: Desk, order: nat, lines: seq<Line>, at: int, later: seq<Action>, lines': seq<Line>,
                                at': int)
    ensures var delivered := Continue(Turn(desk, Act(Deliver(order, lines, at))), later);
            Turn(delivered, Act(Deliver(order, lines', at'))) == delivered
  {
    DeliveriesAreRemembered(Turn(desk, Act(Deliver(order, lines, at))), later, order);
  }

  // ---- the order of the ledger ----

  /** The action may record a movement of item i, at the time given. */
  predicate Touches(action: Action, i: nat, at: int) {
    match action
    case Act(Create(_, _, _, _, time)) => time == at
    case Act(Record(e)) => e.item == i && e.at == at
    case Act(Deliver(_, _, time)) => time == at
    case _ => false
  }

  /** The actions that may move item i come in time order; those that move other items only may come in any. */
  ghost predicate InTimeOrder(actions: seq<Action>, i: nat) {
    forall j, k, at, at' ::
      0 <= j < k < |actions| && Touches(actions[j], i, at) && Touches(actions[k], i, at') ==> at <= at'
  }

  /** The ledger only grows, and the new movements of item i carry the time of the action. */
  ghost predicate Records(before: seq<Movement>, after: seq<Movement>, action: Action, i: nat) {
    && before <= after
    && forall r :: |before| <= r < |after| && after[r].item == i ==> Touches(action, i, after[r].at)
  }

  lemma {:induction false} ChargeKeysRecord(shop: Shop, keys: seq<Key>, needs: map<Key, nat>, order: nat, at: int)
    ensures var after := ChargeKeys(shop, keys, needs, order, at).ledger;
            && shop.ledger <= after
            && forall r :: |shop.ledger| <= r < |after| ==> after[r].at == at
  {
    if keys != [] {
      ChargeKeysRecord(shop, keys[..|keys| - 1], needs, order, at);
    }
  }

  lemma TurnRecords(desk: Desk, action: Action, i: nat)
    ensures Records(desk.shop.ledger, Turn(desk, action).shop.ledger, action, i)
  {
    match action
    case Act(Deliver(order, lines, at)) => ChargeKeysRecord(desk.shop, KEYS, Uses(lines), order, at);
    case _ =>
  }

  lemma {:induction false} MovementsComeFromActions(actions: seq<Action>, i: nat, r: nat) returns (k: nat)
    requires r < |Run(actions).shop.ledger| && Run(actions).shop.ledger[r].item == i
    ensures k < |actions| && Touches(actions[k], i, Run(actions).shop.ledger[r].at)
  {
    var n := |actions| - 1;
    var before := Run(actions[..n]).shop.ledger;
    TurnRecords(Run(actions[..n]), actions[n], i);
    if r < |before| {
      k := MovementsComeFromActions(actions[..n], i, r);
    } else {
      k := n;
    }
  }

  /** When the actions that move an item come in time order, so do its movements in the ledger. */
  lemma {:induction false} TimelyRunsAreChronological(actions: seq<Action>, i: nat)
    requires InTimeOrder(actions, i)
    ensures Chronological(Run(actions).shop.ledger, i)
  {
    if actions != [] {
      var n := |actions| - 1;
      TimelyRunsAreChronological(actions[..n], i);
      var before, after := Run(actions[..n]).shop.ledger, Run(actions).shop.ledger;
      TurnRecords(Run(actions[..n]), actions[n], i);
      forall j, k | 0 <= j < k < |after| && after[j].item == i && after[k].item == i ensures after[j].at <= after[k].at {
        assert j < |before| ==> after[j] == before[j];
        assert k < |before| ==> after[k] == before[k];
        if j < |before| <= k {
          var a := MovementsComeFromActions(actions[..n], i, j);
          assert Touches(actions[a], i, after[j].at);
        } else if |before| <= j {
          OneTimeEach(actions[n], i, after[j].at, after[k].at);
        }
      }
    }
  }

  lemma OneTimeEach(action: Action, i: nat, at: int, at': int)
    requires Touches(action, i, at) && Touches(action, i, at')
    ensures at == at'
  {
  }
}
