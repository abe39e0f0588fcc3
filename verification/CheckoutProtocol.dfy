/**
 Many checkouts at once, with each other, with cart edits that take no lock and with managers
 editing codes.

 A checkout is a transaction run statement by statement at READ COMMITTED.  It holds its cart
 row from the locking read on, and the row of its code from the counting update on; what it
 writes appears when it commits.  Cart rows are minted once and `owner` remembers whose cart
 each was minted in.
 */
module CheckoutProtocol {
  import opened Options
  import opened Pricing
  import opened Checkout
  import Pickup

  datatype Stage = Begun | CartLocked | Listed | Priced | Ordered | UseCounted | Emptied

  datatype Tx = Tx(
    user: Id, pickupAt: int, stage: Stage, code: Option<Id>, items: seq<Item>,
    lines: seq<PricedLine>, order: Option<Order>, deleted: set<Id>)

  datatype State = State(db: Db, owner: map<Id, Id>, txs: map<Id, Tx>)

  datatype Step =
    | Begin(tx: Id, user: Id, pickupAt: int)
    | LockCart(tx: Id)
    | ListItems(tx: Id)
    | PriceItems(tx: Id, catalog: Catalog)
    | WriteOrder(tx: Id, now: int)
    | CountUse(tx: Id)
    | EmptyItems(tx: Id)
    | Commit(tx: Id)
    | Rollback(tx: Id)
    | CreateCart(user: Id)
    | AddRow(user: Id, item: Item)
    | SetQuantity(user: Id, id: Id, quantity: int)
    | RemoveRow(user: Id, id: Id)
    | SetCartCode(user: Id, code: Option<Id>)
    | PutCode(id: Id, newCode: Code)
    | DeleteCode(id: Id)

  predicate HoldsCart(t: Tx) {
    !t.stage.Begun?
  }

  predicate HoldsCode(t: Tx) {
    (t.stage.UseCounted? || t.stage.Emptied?) && t.code.Some?
  }

  predicate CartFree(s: State, user: Id) {
    forall t | t in s.txs && HoldsCart(s.txs[t]) :: s.txs[t].user != user
  }

  predicate CodeFree(s: State, id: Id) {
    forall t | t in s.txs && HoldsCode(s.txs[t]) :: s.txs[t].code != Some(id)
  }

  /** A deleted row is held by the transaction that deleted it. */
  predicate RowFree(s: State, id: Id) {
    forall t | t in s.txs :: id !in s.txs[t].deleted
  }

  predicate InStage(s: State, tx: Id, stage: Stage) {
    tx in s.txs && s.txs[tx].stage == stage
  }

  function Ids(items: seq<Item>): set<Id> {
    set item | item in items :: item.id
  }

  predicate Enabled(s: State, step: Step) {
    match step
    case Begin(tx, _, _) => tx !in s.txs
    case LockCart(tx) => InStage(s, tx, Begun) && CartFree(s, s.txs[tx].user)
    case ListItems(tx) => InStage(s, tx, CartLocked) && s.txs[tx].user in s.db.carts
    case PriceItems(tx, catalog) => InStage(s, tx, Listed) && ValidCatalog(catalog)
    case WriteOrder(tx, _) => InStage(s, tx, Priced)
    case CountUse(tx) =>
      && InStage(s, tx, Ordered)
      && (s.txs[tx].code.Some? ==> CodeFree(s, s.txs[tx].code.value))
    case EmptyItems(tx) => InStage(s, tx, UseCounted) && s.txs[tx].user in s.db.carts
    case Commit(tx) =>
      InStage(s, tx, Emptied) && s.txs[tx].user in s.db.carts && s.txs[tx].order.Some?
    case Rollback(tx) => tx in s.txs
    case CreateCart(user) => user !in s.db.carts
    case AddRow(user, item) =>
      user in s.db.carts && item.id !in s.owner && 1 <= item.quantity <= MAX_QUANTITY
    case SetQuantity(user, id, quantity) =>
      user in s.db.carts && RowFree(s, id) && 1 <= quantity <= MAX_QUANTITY
    case RemoveRow(user, id) => user in s.db.carts && RowFree(s, id)
    case SetCartCode(user, _) => user in s.db.carts && CartFree(s, user)
    case PutCode(id, code) =>
      && ValidCode(code) && !code.deleted && CodeFree(s, id)
      && (code.maxUses.Some? ==> code.usedCount <= code.maxUses.value)
      && (if id in s.db.codes
          then !s.db.codes[id].deleted && code.usedCount == s.db.codes[id].usedCount
          else code.usedCount == 0)
    case DeleteCode(id) => id in s.db.codes && CodeFree(s, id)
  }

  function Moved(s: State, tx: Id, t: Tx): State {
    s.(txs := s.txs[tx := t])
  }

  function Aborted(s: State, tx: Id): State {
    s.(txs := s.txs - {tx})
  }

  function WithItems(s: State, user: Id, items: seq<Item>): State
    requires user in s.db.carts
  {
    s.(db := s.db.(carts := s.db.carts[user := s.db.carts[user].(items := items)]))
  }

  /** The rows that survive the deletion of a set of ids. */
  function Keep(items: seq<Item>, deleted: set<Id>): (kept: seq<Item>)
    ensures forall item | item in kept :: item in items && item.id !in deleted
    ensures forall item | item in items && item.id !in deleted :: item in kept
  {
    if items == [] then []
    else (if items[0].id in deleted then [] else [items[0]]) + Keep(items[1..], deleted)
  }

  function Apply(s: State, step: Step): State
    requires Enabled(s, step)
  {
    match step
    case Begin(tx, user, pickupAt) =>
      Moved(s, tx, Tx(user, pickupAt, Begun, None, [], [], None, {}))
    case LockCart(tx) =>
      var t := s.txs[tx];
      if t.user !in s.db.carts then Aborted(s, tx)
      else Moved(s, tx, t.(stage := CartLocked, code := s.db.carts[t.user].code))
    case ListItems(tx) =>
      var items := s.db.carts[s.txs[tx].user].items;
      if items == [] then Aborted(s, tx)
      else Moved(s, tx, s.txs[tx].(stage := Listed, items := items))
    case PriceItems(tx, catalog) =>
      Moved(s, tx, s.txs[tx].(stage := Priced, lines := PriceEach(catalog, s.txs[tx].items)))
    case WriteOrder(tx, now) =>
      var t := s.txs[tx];
      (match CheckoutTotals(t.lines, t.code, s.db.codes, now)
       case Err(_) => Aborted(s, tx)
       case Ok(totals) =>
         var order := NewOrder(t.user, t.lines, totals, t.code, t.pickupAt);
         if !TableAccepts(order) then Aborted(s, tx)
         else Moved(s, tx, t.(stage := Ordered, order := Some(order))))
    case CountUse(tx) =>
      var t := s.txs[tx];
      if t.code.Some? && !CanCount(s.db.codes, t.code.value) then Aborted(s, tx)
      else Moved(s, tx, t.(stage := UseCounted))
    case EmptyItems(tx) =>
      var t := s.txs[tx];
      Moved(s, tx, t.(stage := Emptied, deleted := Ids(s.db.carts[t.user].items)))
    case Commit(tx) =>
      var t := s.txs[tx];
      var kept := Keep(s.db.carts[t.user].items, t.deleted);
      State(Db(s.db.carts[t.user := Cart(kept, None)], Counted(s.db.codes, t.code),
               s.db.orders + [t.order.value]),
            s.owner, s.txs - {tx})
    case Rollback(tx) => Aborted(s, tx)
    case CreateCart(user) => s.(db := s.db.(carts := s.db.carts[user := Cart([], None)]))
    case AddRow(user, item) =>
      WithItems(s, user, s.db.carts[user].items + [item]).(owner := s.owner[item.id := user])
    case SetQuantity(user, id, quantity) =>
      WithItems(s, user, WithQuantity(s.db.carts[user].items, id, quantity))
    case RemoveRow(user, id) => WithItems(s, user, Without(s.db.carts[user].items, id))
    case SetCartCode(user, code) =>
      s.(db := s.db.(carts := s.db.carts[user := s.db.carts[user].(code := code)]))
    case PutCode(id, code) => s.(db := s.db.(codes := s.db.codes[id := code]))
    case DeleteCode(id) =>
      s.(db := s.db.(codes := s.db.codes[id := s.db.codes[id].(deleted := true)]))
  }

  predicate Legal(s: State, steps: seq<Step>)
    decreases |steps|
  {
    steps != [] ==> Enabled(s, steps[0]) && Legal(Apply(s, steps[0]), steps[1..])
  }

  function Run(s: State, steps: seq<Step>): State
    requires Legal(s, steps)
    decreases |steps|
  {
    if steps == [] then s else Run(Apply(s, steps[0]), steps[1..])
  }

  /** Until it commits a checkout leaves carts, codes and orders as they are, whatever fails. */
  predicate InsideCheckout(step: Step) {
    step.Begin? || step.LockCart? || step.ListItems? || step.PriceItems? || step.WriteOrder?
    || step.CountUse? || step.EmptyItems? || step.Rollback?
  }

  // ---------------------------------------------------------------------------------------
  // Rows are consumed once
  // ---------------------------------------------------------------------------------------

  function Sources(order: Order): set<Id> {
    set line | line in order.lines :: line.source
  }

  predicate Consumed(orders: seq<Order>, id: Id) {
    exists k | 0 <= k < |orders| :: id in Sources(orders[k])
  }

  /** A row of this user that no order has consumed. */
  predicate OwnRow(s: State, user: Id, item: Item) {
    && item.id in s.owner && s.owner[item.id] == user
    && 1 <= item.quantity <= MAX_QUANTITY
    && !Consumed(s.db.orders, item.id)
  }

  predicate CartsOwned(s: State) {
    forall user | user in s.db.carts ::
      forall item | item in s.db.carts[user].items :: OwnRow(s, user, item)
  }

  predicate OrdersDisjoint(s: State) {
    forall i, j | 0 <= i < j < |s.db.orders| :: Sources(s.db.orders[i]) !! Sources(s.db.orders[j])
  }

  predicate OrdersOwned(s: State) {
    forall i | 0 <= i < |s.db.orders| ::
      forall id | id in Sources(s.db.orders[i]) :: id in s.owner
  }

  predicate LocksExclusive(s: State) {
    forall t, u | t in s.txs && u in s.txs && t != u ::
      && (HoldsCart(s.txs[t]) && HoldsCart(s.txs[u]) ==> s.txs[t].user != s.txs[u].user)
      && (HoldsCode(s.txs[t]) && HoldsCode(s.txs[u]) ==> s.txs[t].code != s.txs[u].code)
  }

  predicate LinePriced(items: seq<Item>, line: PricedLine) {
    line.item in items && line.lineTotalCents == Wrap(line.unitPriceCents * line.item.quantity)
  }

  predicate HasOrder(t: Tx) {
    t.stage.Ordered? || t.stage.UseCounted? || t.stage.Emptied?
  }

  /** A committed or about to be committed order, with its quantities in range. */
  predicate GoodOrder(order: Order) {
    OrderBalances(order) && forall line | line in order.lines :: line.quantity <= MAX_QUANTITY
  }

  predicate TxSound(s: State, t: Tx) {
    && (HoldsCart(t) ==> t.user in s.db.carts)
    && (forall item | item in t.items :: OwnRow(s, t.user, item))
    && (forall line | line in t.lines :: LinePriced(t.items, line))
    && (HasOrder(t) ==>
          && t.order.Some? && t.order.value.user == t.user && t.order.value.code == t.code
          && GoodOrder(t.order.value) && Sources(t.order.value) <= Ids(t.items))
    && (HoldsCode(t) ==> CanCount(s.db.codes, t.code.value))
    && (t.deleted != {} ==> t.stage.Emptied?)
    && (t.stage.Begun? || t.stage.CartLocked? ==> t.items == [] && t.lines == [])
    && (t.stage.Emptied? ==>
          t.user in s.db.carts
          && Ids(s.db.carts[t.user].items) * Ids(t.items) <= t.deleted)
  }

  predicate TxsSound(s: State) {
    forall t | t in s.txs :: TxSound(s, s.txs[t])
  }

  predicate CodesSound(s: State) {
    forall id | id in s.db.codes ::
      && ValidCode(s.db.codes[id])
      && (s.db.codes[id].maxUses.Some? ==> s.db.codes[id].usedCount <= s.db.codes[id].maxUses.value)
  }

  predicate OrdersGood(s: State) {
    forall i | 0 <= i < |s.db.orders| :: GoodOrder(s.db.orders[i])
  }

  predicate Inv(s: State) {
    && CartsOwned(s) && OrdersDisjoint(s) && OrdersOwned(s) && LocksExclusive(s)
    && TxsSound(s) && CodesSound(s) && OrdersGood(s)
  }

  // ---------------------------------------------------------------------------------------
  // Every step keeps the invariant
  // ---------------------------------------------------------------------------------------

  lemma StepKeepsLocks(s: State, step: Step)
    requires LocksExclusive(s) && Enabled(s, step)
    ensures LocksExclusive(Apply(s, step))
  {
    hide CheckoutTotals, PriceEach, NewOrder, TableAccepts, Counted, CanCount, Ids, WithQuantity,
         Without, Keep, ValidCatalog, ValidCode;
  }

  /** Writing the order: what was decided and accepted is good. */
  lemma WrittenOrderIsGood(s: State, t: Tx, now: int)
    requires TxSound(s, t) && t.stage.Priced?
    requires CheckoutTotals(t.lines, t.code, s.db.codes, now).Ok?
    ensures var order := NewOrder(t.user, t.lines,
                                  CheckoutTotals(t.lines, t.code, s.db.codes, now).value, t.code,
                                  t.pickupAt);
            TableAccepts(order) ==> GoodOrder(order) && Sources(order) <= Ids(t.items)
  {
    var totals := CheckoutTotals(t.lines, t.code, s.db.codes, now).value;
    var order := NewOrder(t.user, t.lines, totals, t.code, t.pickupAt);
    AvailableSum(t.lines);
    forall line | line in order.lines
      ensures line.lineTotalCents == Wrap(line.unitPriceCents * line.quantity)
      ensures line.quantity <= MAX_QUANTITY && line.source in Ids(t.items)
    {
      var k :| 0 <= k < |order.lines| && order.lines[k] == line;
      assert t.lines[k] in t.lines && LinePriced(t.items, t.lines[k]);
      assert OwnRow(s, t.user, t.lines[k].item);
    }
  }

  lemma PricedTxIsSound(s: State, step: Step)
    requires TxsSound(s) && Enabled(s, step) && step.PriceItems?
    ensures TxSound(s, Apply(s, step).txs[step.tx])
  {
    var t, t' := s.txs[step.tx], Apply(s, step).txs[step.tx];
    assert TxSound(s, t);
    forall line | line in t'.lines ensures LinePriced(t'.items, line) {
      var k :| 0 <= k < |t'.lines| && t'.lines[k] == line;
      PricedLinesMultiply(step.catalog, t.items, k);
    }
  }

  lemma OrderedTxIsSound(s: State, step: Step)
    requires TxsSound(s) && Enabled(s, step) && step.WriteOrder?
    ensures step.tx in Apply(s, step).txs ==> TxSound(s, Apply(s, step).txs[step.tx])
  {
    hide GoodOrder, OwnRow, LinePriced, CheckoutTotals, TableAccepts, Ids;
    var t := s.txs[step.tx];
    assert TxSound(s, t);
    if CheckoutTotals(t.lines, t.code, s.db.codes, step.now).Ok? {
      WrittenOrderIsGood(s, t, step.now);
    }
  }

  /** The transaction a checkout step moves stays sound. */
  lemma MovedTxIsSound(s: State, step: Step)
    requires Inv(s) && Enabled(s, step) && InsideCheckout(step)
    ensures step.tx in Apply(s, step).txs ==> TxSound(s, Apply(s, step).txs[step.tx])
  {
    hide OrdersDisjoint, OrdersOwned, LocksExclusive, CodesSound, OrdersGood, CartFree, CodeFree,
         Consumed, GoodOrder, PriceEach;
    if step.tx in s.txs {
      assert TxSound(s, s.txs[step.tx]);
    }
    if step.PriceItems? {
      PricedTxIsSound(s, step);
    } else if step.WriteOrder? {
      OrderedTxIsSound(s, step);
    }
  }

  lemma SameDbKeepsTx(s: State, s': State, t: Tx)
    requires s.db == s'.db && s.owner == s'.owner && TxSound(s, t)
    ensures TxSound(s', t)
  {
    assert forall item | item in t.items :: OwnRow(s, t.user, item);
  }

  lemma SameDbIsSound(s: State, s': State)
    requires s.db == s'.db && s.owner == s'.owner
    requires CartsOwned(s) && OrdersDisjoint(s) && OrdersOwned(s) && CodesSound(s) && OrdersGood(s)
    ensures CartsOwned(s') && OrdersDisjoint(s') && OrdersOwned(s') && CodesSound(s') && OrdersGood(s')
  {
    assert forall user, item :: OwnRow(s, user, item) ==> OwnRow(s', user, item);
  }

  /** A step inside a checkout changes no cart, code or order. */
  lemma InsideStepKeepsInv(s: State, step: Step)
    requires Inv(s) && Enabled(s, step) && InsideCheckout(step)
    ensures Inv(Apply(s, step)) && Apply(s, step).db == s.db
  {
    hide LocksExclusive, TxSound, CartsOwned, OrdersDisjoint, OrdersOwned, CodesSound, OrdersGood, CheckoutTotals,
         PriceEach, NewOrder, TableAccepts, CanCount, Ids, CartFree, CodeFree, ValidCatalog;
    var s' := Apply(s, step);
    StepKeepsLocks(s, step);
    MovedTxIsSound(s, step);
    SameDbIsSound(s, s');
    forall t | t in s'.txs ensures TxSound(s', s'.txs[t]) {
      SameDbKeepsTx(s, s', s'.txs[t]);
    }
  }

  predicate CartEdit(step: Step) {
    step.CreateCart? || step.AddRow? || step.SetQuantity? || step.RemoveRow? || step.SetCartCode?
  }

  /** What an edit leaves in a cart: rows that were there, or the row it mints. */
  lemma EditKeepsRows(s: State, step: Step, user: Id)
    requires Inv(s) && Enabled(s, step) && CartEdit(step)
    requires user in Apply(s, step).db.carts
    ensures forall item | item in Apply(s, step).db.carts[user].items ::
              OwnRow(Apply(s, step), user, item)
    ensures forall id | id in Ids(Apply(s, step).db.carts[user].items) && id in s.owner ::
              user in s.db.carts && id in Ids(s.db.carts[user].items)
  {
    var s' := Apply(s, step);
    if user in s.db.carts {
      var items, items' := s.db.carts[user].items, s'.db.carts[user].items;
      if step.AddRow? {
        forall k | 0 <= k < |s.db.orders| ensures step.item.id !in Sources(s.db.orders[k]) {
        }
      } else if step.SetQuantity? && step.user == user {
        forall item | item in items' ensures OwnRow(s', user, item) && item.id in Ids(items) {
          var k :| 0 <= k < |items'| && items'[k] == item;
          assert items[k] in items && OwnRow(s, user, items[k]);
        }
      } else if step.RemoveRow? && step.user == user {
        WithoutWithin(items, step.id);
      }
    }
  }

  lemma EditKeepsInv(s: State, step: Step)
    requires Inv(s) && Enabled(s, step) && CartEdit(step)
    ensures Inv(Apply(s, step))
  {
    var s' := Apply(s, step);
    forall user | user in s'.db.carts
      ensures forall item | item in s'.db.carts[user].items :: OwnRow(s', user, item)
    {
      EditKeepsRows(s, step, user);
    }
    forall t | t in s'.txs ensures TxSound(s', s'.txs[t]) {
      var c := s.txs[t];
      assert TxSound(s, c);
      if c.user in s'.db.carts {
        EditKeepsRows(s, step, c.user);
      }
      assert forall item | item in c.items :: OwnRow(s, c.user, item);
    }
  }

  lemma CodeStepKeepsInv(s: State, step: Step)
    requires Inv(s) && Enabled(s, step) && (step.PutCode? || step.DeleteCode?)
    ensures Inv(Apply(s, step))
  {
    var s' := Apply(s, step);
    forall t | t in s'.txs ensures TxSound(s', s'.txs[t]) {
      assert TxSound(s, s.txs[t]);
      assert forall item | item in s.txs[t].items :: OwnRow(s, s.txs[t].user, item);
    }
  }

  lemma CommitConsumes(s: State, tx: Id, id: Id)
    requires Inv(s) && Enabled(s, Commit(tx))
    ensures Consumed(Apply(s, Commit(tx)).db.orders, id)
       <==> Consumed(s.db.orders, id) || id in Sources(s.txs[tx].order.value)
  {
    var orders, orders' := s.db.orders, Apply(s, Commit(tx)).db.orders;
    if k :| 0 <= k < |orders| && id in Sources(orders[k]) {
      assert orders'[k] == orders[k];
    }
    assert orders'[|orders|] == s.txs[tx].order.value;
  }

  /** A row of another customer, or one the transaction did not delete, survives unconsumed. */
  lemma CommitSparesRow(s: State, tx: Id, user: Id, item: Item)
    requires Inv(s) && Enabled(s, Commit(tx)) && OwnRow(s, user, item)
    requires user == s.txs[tx].user ==> item.id !in Ids(s.txs[tx].items)
    ensures OwnRow(Apply(s, Commit(tx)), user, item)
  {
    var t := s.txs[tx];
    assert TxSound(s, t);
    CommitConsumes(s, tx, item.id);
    assert forall mine | mine in t.items :: OwnRow(s, t.user, mine);
  }

  lemma CommitKeepsCarts(s: State, tx: Id)
    requires Inv(s) && Enabled(s, Commit(tx))
    ensures CartsOwned(Apply(s, Commit(tx)))
  {
    var s', t := Apply(s, Commit(tx)), s.txs[tx];
    assert TxSound(s, t);
    forall user | user in s'.db.carts
      ensures forall item | item in s'.db.carts[user].items :: OwnRow(s', user, item)
    {
      forall item | item in s'.db.carts[user].items ensures OwnRow(s', user, item) {
        assert item in s.db.carts[user].items && OwnRow(s, user, item);
        CommitSparesRow(s, tx, user, item);
      }
    }
  }

  lemma CommitKeepsOrders(s: State, tx: Id)
    requires Inv(s) && Enabled(s, Commit(tx))
    ensures OrdersDisjoint(Apply(s, Commit(tx)))
    ensures OrdersOwned(Apply(s, Commit(tx))) && OrdersGood(Apply(s, Commit(tx)))
  {
    hide CartsOwned, LocksExclusive, CodesSound, Counted, OrderBalances;
    var s', t := Apply(s, Commit(tx)), s.txs[tx];
    assert TxSound(s, t);
    forall id | id in Sources(t.order.value)
      ensures id in s.owner && !Consumed(s.db.orders, id)
    {
      var mine :| mine in t.items && mine.id == id;
      assert OwnRow(s, t.user, mine);
    }
    forall i | 0 <= i < |s.db.orders|
      ensures Sources(s.db.orders[i]) !! Sources(t.order.value)
    {
      forall id | id in Sources(s.db.orders[i]) ensures id !in Sources(t.order.value) {
        assert Consumed(s.db.orders, id);
      }
    }
  }

  lemma CommitKeepsTxs(s: State, tx: Id)
    requires Inv(s) && Enabled(s, Commit(tx))
    ensures TxsSound(Apply(s, Commit(tx))) && CodesSound(Apply(s, Commit(tx)))
  {
    hide CartsOwned, OrdersDisjoint, OrdersOwned, OrdersGood, GoodOrder, OwnRow, LinePriced;
    var s', t := Apply(s, Commit(tx)), s.txs[tx];
    assert TxSound(s, t);
    forall u | u in s'.txs ensures TxSound(s', s'.txs[u]) {
      var c := s.txs[u];
      assert u in s.txs && u != tx && TxSound(s, c);
      forall item | item in c.items ensures OwnRow(s', c.user, item) {
        assert HoldsCart(c) && c.user != t.user;
        CommitSparesRow(s, tx, c.user, item);
      }
    }
  }

  lemma StepKeepsInv(s: State, step: Step)
    requires Inv(s) && Enabled(s, step)
    ensures Inv(Apply(s, step))
  {
    StepKeepsLocks(s, step);
    if InsideCheckout(step) {
      InsideStepKeepsInv(s, step);
    } else if CartEdit(step) {
      EditKeepsInv(s, step);
    } else if step.Commit? {
      CommitKeepsCarts(s, step.tx);
      CommitKeepsOrders(s, step.tx);
      CommitKeepsTxs(s, step.tx);
    } else {
      CodeStepKeepsInv(s, step);
    }
  }

  lemma {:induction false} RunKeepsInv(s: State, steps: seq<Step>)
    requires Inv(s) && Legal(s, steps)
    ensures Inv(Run(s, steps))
    decreases |steps|
  {
    if steps != [] {
      StepKeepsInv(s, steps[0]);
      RunKeepsInv(Apply(s, steps[0]), steps[1..]);
    }
  }

  // ---------------------------------------------------------------------------------------
  // Over every interleaving
  // ---------------------------------------------------------------------------------------

  /**
   No cart row is consumed by two committed orders, and no consumed row is in a cart: two
   checkouts of one cart never make the same order twice.
   */
  lemma RowsAreConsumedOnce(start: State, steps: seq<Step>)
    requires Inv(start) && start.txs == map[] && Legal(start, steps)
    ensures var end := Run(start, steps);
            && OrdersDisjoint(end)
            && (forall user, item | user in end.db.carts && item in end.db.carts[user].items ::
                  !Consumed(end.db.orders, item.id) && 1 <= item.quantity <= MAX_QUANTITY)
  {
    RunKeepsInv(start, steps);
    var end := Run(start, steps);
    forall user, item | user in end.db.carts && item in end.db.carts[user].items
      ensures !Consumed(end.db.orders, item.id) && 1 <= item.quantity <= MAX_QUANTITY
    {
      assert OwnRow(end, user, item);
    }
  }

  /** Every order a run commits balances; within 50 lines in range it adds up exactly. */
  lemma CommittedOrdersBalance(start: State, steps: seq<Step>, k: nat)
    requires Inv(start) && start.txs == map[] && Legal(start, steps)
    requires k < |Run(start, steps).db.orders|
    ensures var order := Run(start, steps).db.orders[k];
            && OrderBalances(order)
            && (|order.lines| <= MAX_LINES
                && (forall line | line in order.lines :: line.unitPriceCents <= MAX_EXACT_PRICE)
                ==> order.subtotalCents == ExactLineSum(order.lines))
  {
    RunKeepsInv(start, steps);
    var order := Run(start, steps).db.orders[k];
    if |order.lines| <= MAX_LINES
       && forall line | line in order.lines :: line.unitPriceCents <= MAX_EXACT_PRICE {
      BalancedOrderIsExact(order);
    }
  }

  function Uses(s: State, id: Id): int {
    if id in s.db.codes then s.db.codes[id].usedCount else 0
  }

  /** How many orders carry a code. */
  function Carrying(orders: seq<Order>, id: Id): nat {
    if orders == [] then 0
    else Carrying(orders[..|orders| - 1], id)
         + (if orders[|orders| - 1].code == Some(id) then 1 else 0)
  }

  lemma CommitBalancesUses(s: State, tx: Id, id: Id)
    requires Inv(s) && Enabled(s, Commit(tx))
    ensures Uses(Apply(s, Commit(tx)), id) - Carrying(Apply(s, Commit(tx)).db.orders, id)
         == Uses(s, id) - Carrying(s.db.orders, id)
  {
    var orders, order := s.db.orders, s.txs[tx].order.value;
    assert TxSound(s, s.txs[tx]);
    assert Apply(s, Commit(tx)).db.orders == orders + [order];
    assert (orders + [order])[..|orders|] == orders;
  }

  lemma StepBalancesUses(s: State, step: Step, id: Id)
    requires Inv(s) && Enabled(s, step)
    ensures Uses(Apply(s, step), id) - Carrying(Apply(s, step).db.orders, id)
         == Uses(s, id) - Carrying(s.db.orders, id)
  {
    if step.Commit? {
      CommitBalancesUses(s, step.tx, id);
    } else {
      hide Inv, CheckoutTotals, PriceEach, NewOrder, TableAccepts, CanCount, Ids, CartFree, ValidCatalog, ValidCode,
           WithQuantity, Without;
      assert Apply(s, step).db.orders == s.db.orders;
    }
  }

  lemma {:induction false} RunBalancesUses(s: State, steps: seq<Step>, id: Id)
    requires Inv(s) && Legal(s, steps)
    ensures Uses(Run(s, steps), id) - Carrying(Run(s, steps).db.orders, id)
         == Uses(s, id) - Carrying(s.db.orders, id)
    decreases |steps|
  {
    if steps != [] {
      StepBalancesUses(s, steps[0], id);
      StepKeepsInv(s, steps[0]);
      RunBalancesUses(Apply(s, steps[0]), steps[1..], id);
    }
  }

  /**
   A code's use count moves by one for each order that carries it and for nothing else, and
   never passes its cap, stale redeemability checks and manager edits included.
   */
  lemma UseCountsOrders(start: State, steps: seq<Step>, id: Id)
    requires Inv(start) && start.txs == map[] && Legal(start, steps)
    ensures var end := Run(start, steps);
            && Uses(end, id) - Uses(start, id)
               == Carrying(end.db.orders, id) - Carrying(start.db.orders, id)
            && (id in end.db.codes && end.db.codes[id].maxUses.Some? ==>
                  end.db.codes[id].usedCount <= end.db.codes[id].maxUses.value)
  {
    RunKeepsInv(start, steps);
    RunBalancesUses(start, steps, id);
  }

  // ---------------------------------------------------------------------------------------
  // What the other steps leave
  // ---------------------------------------------------------------------------------------

  /** Cart edits take no lock: an insert into a cart waits for no checkout. */
  lemma AddRowNeverWaits(s: State, user: Id, item: Item)
    requires user in s.db.carts && item.id !in s.owner && 1 <= item.quantity <= MAX_QUANTITY
    ensures Enabled(s, AddRow(user, item))
  {
  }

  /** The rows a cart edit leaves in its cart, every other cart, code, order and checkout as it was. */
  lemma CartEditMeans(s: State, step: Step)
    requires Enabled(s, step) && CartEdit(step)
    ensures var s' := Apply(s, step);
            && s'.txs == s.txs && s'.db.codes == s.db.codes && s'.db.orders == s.db.orders
            && s'.db.carts.Keys == s.db.carts.Keys + {step.user}
            && forall user | user in s.db.carts && user != step.user :: s'.db.carts[user] == s.db.carts[user]
    ensures var after := Apply(s, step).db.carts[step.user];
            match step
            case CreateCart(_) => after.items == [] && after.code == None
            case AddRow(user, item) =>
              after.items == s.db.carts[user].items + [item] && after.code == s.db.carts[user].code
            case SetQuantity(user, id, quantity) =>
              var items := s.db.carts[user].items;
              && |after.items| == |items| && after.code == s.db.carts[user].code
              && forall i | 0 <= i < |items| ::
                   after.items[i] == if items[i].id == id then items[i].(quantity := quantity) else items[i]
            case RemoveRow(user, id) =>
              && after.code == s.db.carts[user].code
              && forall item :: item in after.items <==> item in s.db.carts[user].items && item.id != id
            case SetCartCode(user, code) => after.items == s.db.carts[user].items && after.code == code
            case _ => true
  {
    if step.RemoveRow? {
      WithoutWithin(s.db.carts[step.user].items, step.id);
    }
    hide Without;
  }

  /** A manager's edit changes one code; carts, orders and checkouts stay. */
  lemma CodeEditMeans(s: State, step: Step)
    requires Enabled(s, step) && (step.PutCode? || step.DeleteCode?)
    ensures var s' := Apply(s, step);
            && s'.txs == s.txs && s'.db.carts == s.db.carts && s'.db.orders == s.db.orders
            && s'.db.codes.Keys == s.db.codes.Keys + {step.id}
            && (forall id | id in s.db.codes && id != step.id :: s'.db.codes[id] == s.db.codes[id])
            && match step
               case PutCode(id, code) => s'.db.codes[id] == code
               case DeleteCode(id) => s'.db.codes[id].deleted && s'.db.codes[id].(deleted := false)
                                                                == s.db.codes[id].(deleted := false)
               case _ => true
  {
  }

  /** A rolled back checkout is gone, its locks with it, and nothing else changed. */
  lemma RollbackMeans(s: State, tx: Id)
    requires Enabled(s, Rollback(tx))
    ensures var s' := Apply(s, Rollback(tx));
            && s'.db == s.db && s'.owner == s.owner && s'.txs.Keys == s.txs.Keys - {tx}
            && forall other | other in s'.txs :: s'.txs[other] == s.txs[other]
  {
  }

  // ---------------------------------------------------------------------------------------
  // Rows a commit loses
  // ---------------------------------------------------------------------------------------

  /** The row was in a cart before and after is neither in one nor in an order. */
  predicate Lost(s: State, s': State, user: Id, item: Item) {
    && user in s.db.carts && item in s.db.carts[user].items
    && (user !in s'.db.carts || item !in s'.db.carts[user].items)
    && !Consumed(s'.db.orders, item.id)
  }

  /**
   A commit loses a row exactly when its emptying statement found the row and its listing
   statement had not: the order does not have it and the cart no longer does.
   */
  lemma CommitLosesExactly(s: State, tx: Id, user: Id, item: Item)
    requires Inv(s) && Enabled(s, Commit(tx)) && user in s.db.carts && item in s.db.carts[user].items
    ensures Lost(s, Apply(s, Commit(tx)), user, item)
       <==> && user == s.txs[tx].user && item.id in s.txs[tx].deleted
            && item.id !in Sources(s.txs[tx].order.value)
  {
    assert OwnRow(s, user, item);
    CommitConsumes(s, tx, item.id);
    hide Inv, OwnRow, Consumed, Sources;
  }

  /** The emptying statement finds a row added just before it. */
  lemma EmptiedWithAdded(s: State, tx: Id, item: Item)
    requires InStage(s, tx, UseCounted) && s.txs[tx].order.Some?
    requires Enabled(s, AddRow(s.txs[tx].user, item))
    ensures var user, added := s.txs[tx].user, Apply(s, AddRow(s.txs[tx].user, item));
            && Enabled(added, EmptyItems(tx))
            && var emptied := Apply(added, EmptyItems(tx));
               && Enabled(emptied, Commit(tx)) && tx in emptied.txs
               && emptied.txs[tx].user == user && emptied.txs[tx].order == s.txs[tx].order
               && user in emptied.db.carts && item in emptied.db.carts[user].items
               && item.id in emptied.txs[tx].deleted
  {
    var added := Apply(s, AddRow(s.txs[tx].user, item));
    assert item in added.db.carts[s.txs[tx].user].items;
  }

  lemma AddedRowIsNotOrdered(s: State, tx: Id, item: Item)
    requires TxsSound(s) && InStage(s, tx, UseCounted) && item.id !in s.owner
    ensures s.txs[tx].order.Some? && item.id !in Sources(s.txs[tx].order.value)
  {
    assert TxSound(s, s.txs[tx]);
    assert forall mine | mine in s.txs[tx].items :: OwnRow(s, s.txs[tx].user, mine);
  }

  /** A row added after a checkout listed the cart and before it empties it is lost. */
  lemma AddedRowIsLost(s: State, tx: Id, item: Item)
    requires Inv(s) && InStage(s, tx, UseCounted) && Enabled(s, AddRow(s.txs[tx].user, item))
    ensures var added := Apply(s, AddRow(s.txs[tx].user, item));
            && Enabled(added, EmptyItems(tx))
            && var emptied := Apply(added, EmptyItems(tx));
               && Enabled(emptied, Commit(tx))
               && Lost(emptied, Apply(emptied, Commit(tx)), s.txs[tx].user, item)
  {
    var user := s.txs[tx].user;
    AddedRowIsNotOrdered(s, tx, item);
    EmptiedWithAdded(s, tx, item);
    hide Inv, Lost, Sources, Enabled, Apply;
    var added := Apply(s, AddRow(user, item));
    StepKeepsInv(s, AddRow(user, item));
    StepKeepsInv(added, EmptyItems(tx));
    CommitLosesExactly(Apply(added, EmptyItems(tx)), tx, user, item);
  }

  // ---------------------------------------------------------------------------------------
  // Alone, the machine is the sequential checkout
  // ---------------------------------------------------------------------------------------

  lemma {:induction false} KeepNothing(items: seq<Item>, deleted: set<Id>)
    requires Ids(items) <= deleted
    ensures Keep(items, deleted) == []
  {
    if items != [] {
      assert items[0].id in Ids(items);
      assert Ids(items[1..]) <= Ids(items);
      KeepNothing(items[1..], deleted);
    }
  }

  /** The steps of one checkout: who asks, when, and the catalog it is priced from. */
  datatype Ask = Ask(tx: Id, user: Id, pickupAt: int, catalog: Catalog, now: int)

  predicate OwnStep(ask: Ask, step: Step) {
    match step
    case Begin(tx, user, pickupAt) => tx == ask.tx && user == ask.user && pickupAt == ask.pickupAt
    case LockCart(tx) => tx == ask.tx
    case ListItems(tx) => tx == ask.tx
    case PriceItems(tx, catalog) => tx == ask.tx && catalog == ask.catalog
    case WriteOrder(tx, now) => tx == ask.tx && now == ask.now
    case CountUse(tx) => tx == ask.tx
    case EmptyItems(tx) => tx == ask.tx
    case Commit(tx) => tx == ask.tx
    case _ => false
  }

  /** One checkout's steps after it began. */
  predicate OwnSteps(ask: Ask, steps: seq<Step>) {
    forall i | 0 <= i < |steps| :: OwnStep(ask, steps[i]) && !steps[i].Begin?
  }

  function BeginAsk(ask: Ask): Step {
    Begin(ask.tx, ask.user, ask.pickupAt)
  }

  function Rank(stage: Stage): nat {
    match stage
    case Begun => 0 case CartLocked => 1 case Listed => 2 case Priced => 3 case Ordered => 4
    case UseCounted => 5 case Emptied => 6
  }

  /** What a lone checkout has gathered by each stage. */
  predicate Gathered(db: Db, ask: Ask, t: Tx) {
    && t.user == ask.user && t.pickupAt == ask.pickupAt
    && (Rank(t.stage) >= 1 ==> t.user in db.carts && t.code == db.carts[t.user].code)
    && (Rank(t.stage) >= 2 ==> t.items == db.carts[t.user].items && t.items != [])
    && (Rank(t.stage) >= 3 ==> t.lines == PriceEach(ask.catalog, t.items))
    && (Rank(t.stage) >= 4 ==>
          && CheckoutTotals(t.lines, t.code, db.codes, ask.now).Ok?
          && t.order == Some(NewOrder(t.user, t.lines, CheckoutTotals(t.lines, t.code, db.codes, ask.now).value,
                                      t.code, t.pickupAt))
          && TableAccepts(t.order.value))
    && (Rank(t.stage) >= 5 ==> t.code.Some? ==> CanCount(db.codes, t.code.value))
    && (Rank(t.stage) >= 6 ==> t.deleted == Ids(t.items))
  }

  predicate OnTrack(db: Db, ask: Ask, s: State) {
    s.db == db && s.txs.Keys == {ask.tx} && Gathered(db, ask, s.txs[ask.tx])
  }

  predicate Finished(db: Db, ask: Ask, s: State) {
    s.txs == map[] && s.db == Charge(db, ask.catalog, ask.user, ask.pickupAt, ask.now).1
  }

  lemma SoloCommit(db: Db, ask: Ask, s: State)
    requires OnTrack(db, ask, s) && Enabled(s, Commit(ask.tx)) && Pickup.ValidPickupAt(ask.pickupAt, ask.now)
    ensures Finished(db, ask, Apply(s, Commit(ask.tx)))
  {
    var items := s.txs[ask.tx].items;
    assert items == db.carts[ask.user].items;
    hide PriceEach, CheckoutTotals, TableAccepts, NewOrder, CartFree, CodeFree, Pickup.ValidPickupAt;
    KeepNothing(items, Ids(items));
  }

  lemma SoloWrite(db: Db, ask: Ask, s: State)
    requires OnTrack(db, ask, s) && Enabled(s, WriteOrder(ask.tx, ask.now))
    requires Pickup.ValidPickupAt(ask.pickupAt, ask.now)
    ensures var s' := Apply(s, WriteOrder(ask.tx, ask.now)); OnTrack(db, ask, s') || Finished(db, ask, s')
  {
    hide PriceEach, CheckoutTotals, TableAccepts, NewOrder, CartFree, CodeFree, Pickup.ValidPickupAt;
  }

  lemma SoloGather(db: Db, ask: Ask, s: State, step: Step)
    requires OnTrack(db, ask, s) && Enabled(s, step) && OwnStep(ask, step)
    requires step.Begin? || step.LockCart? || step.ListItems? || step.PriceItems?
    requires Pickup.ValidPickupAt(ask.pickupAt, ask.now)
    ensures OnTrack(db, ask, Apply(s, step)) || Finished(db, ask, Apply(s, step))
  {
    hide PriceEach, CheckoutTotals, TableAccepts, NewOrder, CartFree, CodeFree, Pickup.ValidPickupAt, ValidCatalog;
  }

  lemma SoloFinish(db: Db, ask: Ask, s: State, step: Step)
    requires OnTrack(db, ask, s) && Enabled(s, step) && OwnStep(ask, step) && (step.CountUse? || step.EmptyItems?)
    requires Pickup.ValidPickupAt(ask.pickupAt, ask.now)
    ensures OnTrack(db, ask, Apply(s, step)) || Finished(db, ask, Apply(s, step))
  {
    hide PriceEach, CheckoutTotals, TableAccepts, NewOrder, CartFree, CodeFree, Pickup.ValidPickupAt, ValidCatalog;
  }

  /** Each step of a lone checkout gathers what it should or leaves what the charge leaves. */
  lemma SoloStep(db: Db, ask: Ask, s: State, step: Step)
    requires OnTrack(db, ask, s) && Enabled(s, step) && OwnStep(ask, step)
    requires Pickup.ValidPickupAt(ask.pickupAt, ask.now)
    ensures OnTrack(db, ask, Apply(s, step)) || Finished(db, ask, Apply(s, step))
  {
    if step.Commit? {
      SoloCommit(db, ask, s);
    } else if step.WriteOrder? {
      SoloWrite(db, ask, s);
    } else if step.CountUse? || step.EmptyItems? {
      SoloFinish(db, ask, s, step);
    } else {
      SoloGather(db, ask, s, step);
    }
  }

  lemma OwnTail(ask: Ask, steps: seq<Step>)
    requires OwnSteps(ask, steps) && steps != []
    ensures OwnStep(ask, steps[0]) && !steps[0].Begin? && OwnSteps(ask, steps[1..])
  {
  }

  lemma NotFinished(db: Db, ask: Ask, s: State, step: Step)
    requires Enabled(s, step) && OwnStep(ask, step) && !step.Begin?
    ensures !Finished(db, ask, s)
  {
  }

  lemma {:induction false} SoloRun(db: Db, ask: Ask, s: State, steps: seq<Step>)
    requires OnTrack(db, ask, s) || Finished(db, ask, s)
    requires Pickup.ValidPickupAt(ask.pickupAt, ask.now)
    requires Legal(s, steps) && OwnSteps(ask, steps)
    ensures OnTrack(db, ask, Run(s, steps)) || Finished(db, ask, Run(s, steps))
    decreases |steps|
  {
    if steps != [] {
      hide OwnStep, OwnSteps, OnTrack, Finished, Enabled, Apply, Pickup.ValidPickupAt;
      OwnTail(ask, steps);
      NotFinished(db, ask, s, steps[0]);
      SoloStep(db, ask, s, steps[0]);
      SoloRun(db, ask, Apply(s, steps[0]), steps[1..]);
    }
  }

  /**
   With nothing else running, every run of one checkout's own steps leaves the database as it
   was until the checkout ends, and then as the sequential checkout leaves it.
   */
  lemma SoloCheckoutIsCharge(s: State, ask: Ask, steps: seq<Step>)
    requires s.txs == map[] && Pickup.ValidPickupAt(ask.pickupAt, ask.now)
    requires OwnSteps(ask, steps) && Legal(s, [BeginAsk(ask)] + steps)
    ensures var end := Run(s, [BeginAsk(ask)] + steps);
            if end.txs == map[]
            then end.db == Charge(s.db, ask.catalog, ask.user, ask.pickupAt, ask.now).1
            else end.db == s.db
  {
    var all := [BeginAsk(ask)] + steps;
    assert all[1..] == steps;
    SoloRun(s.db, ask, Apply(s, BeginAsk(ask)), steps);
  }

  /** A lone checkout is never stuck. */
  lemma SoloNext(db: Db, ask: Ask, s: State) returns (step: Step)
    requires OnTrack(db, ask, s) && ValidCatalog(ask.catalog)
    ensures Enabled(s, step) && OwnStep(ask, step) && !step.Begin?
    ensures ask.tx in Apply(s, step).txs ==>
              Rank(Apply(s, step).txs[ask.tx].stage) > Rank(s.txs[ask.tx].stage)
  {
    hide PriceEach, CheckoutTotals, TableAccepts, NewOrder, ValidCatalog;
    var tx := ask.tx;
    step := match s.txs[tx].stage
      case Begun => LockCart(tx)
      case CartLocked => ListItems(tx)
      case Listed => PriceItems(tx, ask.catalog)
      case Priced => WriteOrder(tx, ask.now)
      case Ordered => CountUse(tx)
      case UseCounted => EmptyItems(tx)
      case Emptied => Commit(tx);
  }

  /** So it does end. */
  lemma {:induction false} SoloCheckoutEnds(db: Db, ask: Ask, s: State) returns (steps: seq<Step>)
    requires OnTrack(db, ask, s) || Finished(db, ask, s)
    requires ValidCatalog(ask.catalog) && Pickup.ValidPickupAt(ask.pickupAt, ask.now)
    ensures OwnSteps(ask, steps) && Legal(s, steps) && Finished(db, ask, Run(s, steps))
    decreases if ask.tx in s.txs then 7 - Rank(s.txs[ask.tx].stage) else 0
  {
    steps := [];
    if !Finished(db, ask, s) {
      var step := SoloNext(db, ask, s);
      SoloStep(db, ask, s, step);
      var s' := Apply(s, step);
      var more := SoloCheckoutEnds(db, ask, s');
      hide OwnStep, Gathered, Charge, Pickup.ValidPickupAt, Enabled;
      steps := [step] + more;
      assert steps[1..] == more;
    }
  }
}
