/**
 What the cart and checkout requests leave, told by the rows, codes and orders before and after.
 */
module CheckoutEffects {
  import opened Options
  import opened Pricing
  import opened Checkout
  import Pickup

  // ---------------------------------------------------------------------------------------
  // Adding
  // ---------------------------------------------------------------------------------------

  lemma {:induction false} NoRowNoUnits(items: seq<Item>, productId: Option<Id>, comboId: Option<Id>)
    requires forall i | 0 <= i < |items| :: !Sells(items[i], productId, comboId)
    ensures Units(items, productId, comboId) == 0
  {
    if items != [] {
      NoRowNoUnits(items[..|items| - 1], productId, comboId);
    }
  }

  /** With one row per target, its units are that row's quantity. */
  lemma {:induction false} UnitsOfRow(items: seq<Item>, k: nat, productId: Option<Id>, comboId: Option<Id>)
    requires InBounds(items) && productId.Some? != comboId.Some?
    requires k < |items| && Sells(items[k], productId, comboId)
    ensures Units(items, productId, comboId) == items[k].quantity
  {
    var n := |items| - 1;
    if k < n {
      assert Distinct(items[k], items[n]);
      UnitsOfRow(items[..n], k, productId, comboId);
    } else {
      forall i | 0 <= i < n ensures !Sells(items[i], productId, comboId) {
        assert Distinct(items[i], items[n]);
      }
      NoRowNoUnits(items[..n], productId, comboId);
    }
  }

  /**
   An add is refused exactly when it would take the units of its target past 99, or would need a
   fifty-first row; otherwise it raises the quantity of the target's row or appends one.
   */
  lemma AddAccepted(items: seq<Item>, productId: Option<Id>, comboId: Option<Id>, quantity: int, newId: Id)
    requires InBounds(items) && productId.Some? != comboId.Some?
    ensures var units, added := Units(items, productId, comboId), Added(items, productId, comboId, quantity, newId);
            && (added == Err(QuantityOutOfRange) <==> units > 0 && units + quantity > 99)
            && (added == Err(MaxItemsReached) <==> units == 0 && |items| >= 50)
            && (added.Ok? <==> if units > 0 then units + quantity <= 99 else |items| < 50)
            && (added.Ok? && units == 0 ==>
                  added.value == items + [Item(newId, if productId.Some? then ProductLine else ComboLine,
                                               productId, comboId, quantity)])
            && (added.Ok? && units > 0 ==>
                  && |added.value| == |items|
                  && forall i | 0 <= i < |items| ::
                       added.value[i] == if Sells(items[i], productId, comboId)
                                         then items[i].(quantity := units + quantity) else items[i])
  {
    var k := FirstMatch(items, productId, comboId);
    assert forall i | 0 <= i < |items| ::
        Matches(items[i], productId, comboId) <==> Sells(items[i], productId, comboId);
    if k < |items| {
      UnitsOfRow(items, k, productId, comboId);
      assert forall i | k < i < |items| :: Distinct(items[k], items[i]);
    } else {
      NoRowNoUnits(items, productId, comboId);
    }
  }

  // ---------------------------------------------------------------------------------------
  // Answering
  // ---------------------------------------------------------------------------------------

  /** Nothing but this customer's cart is different. */
  ghost predicate OnlyCart(db: Db, after: Db, user: Id) {
    && after.codes == db.codes && after.orders == db.orders
    && forall other | other != user ::
         && (other in after.carts <==> other in db.carts)
         && (other in db.carts ==> after.carts[other] == db.carts[other])
  }

  /** The customer's code, while the cart's subtotal still lets it be redeemed. */
  predicate StillApplies(db: Db, user: Id, now: int, subtotal: int)
    requires user in db.carts
  {
    var code := db.carts[user].code;
    code.Some? && code.value in db.codes && Applies(db.codes[code.value], now, subtotal)
  }

  /**
   The quote shows the cart's rows at the catalog's prices; the code stays attached exactly while
   it applies, and then the quote takes off what it takes.
   */
  lemma QuoteMeans(db: Db, catalog: Catalog, user: Id, now: int)
    requires user in db.carts && forall id | id in db.codes :: ValidCode(db.codes[id])
    ensures var (quote, after) := Quote(db, catalog, user, now);
            var subtotal := Wrap(Sum(quote.lines));
            && LinesOf(catalog, db.carts[user].items, quote.lines)
            && OnlyCart(db, after, user) && user in after.carts
            && after.carts[user].items == db.carts[user].items && after.carts[user].code == quote.code
            && quote.code == (if StillApplies(db, user, now, subtotal) then db.carts[user].code else None)
            && quote.totals.subtotalCents == subtotal
            && (quote.totals.checkoutReady <==> subtotal != 0 && exists line | line in quote.lines :: line.isAvailable)
            && (0 <= subtotal && FitsInt64(subtotal * 100) ==>
                  && quote.totals.discountCents
                     == (if quote.code.Some? && subtotal != 0 then Taken(db.codes[quote.code.value], subtotal) else 0)
                  && quote.totals.totalCents == subtotal - quote.totals.discountCents)
  {
    var cart := db.carts[user];
    var lines, code := PriceEach(catalog, cart.items), StoredCode(db.codes, cart.code);
    LinesShowCatalog(catalog, cart.items);
    SummaryMeans(lines, None, now);
    SummaryMeans(lines, code, now);
    RedeemableMeans(code, now, Wrap(Sum(lines)));
    if cart.code.Some? {
      DeletedNeverApplies(db.codes, cart.code.value, now, Wrap(Sum(lines)));
    }
    hide Summary, Redeemable, PriceEach, LinesOf, Applies, Sum, Taken, ValidCode;
  }

  /** What a request left: these rows in the customer's cart, nothing else but its code touched. */
  ghost predicate LeavesRows(db: Db, after: Db, user: Id, items: seq<Item>) {
    OnlyCart(db, after, user) && user in after.carts && after.carts[user].items == items
  }

  /** And what it answered: the quote of the cart it left. */
  predicate AnswersQuote(result: Result<CartQuote>, after: Db, user: Id, catalog: Catalog, items: seq<Item>) {
    && result.Ok? && LinesOf(catalog, items, result.value.lines)
    && user in after.carts && after.carts[user].code == result.value.code
  }

  lemma AnswerMeans(db: Db, catalog: Catalog, user: Id, items: seq<Item>, now: int)
    requires user in db.carts
    ensures var (result, after) := Answer(WithItems(db, user, items), catalog, user, now);
            LeavesRows(db, after, user, items) && AnswersQuote(result, after, user, catalog, items)
  {
    var asked := WithItems(db, user, items);
    assert OnlyCart(db, asked, user) && asked.carts[user].items == items;
    LinesShowCatalog(catalog, items);
    hide Summary, Redeemable, PriceEach, LinesOf;
  }

  /** Refused requests leave the rows; an empty cart may have been made. */
  lemma WithCartMeans(db: Db, user: Id)
    ensures LeavesRows(db, WithCart(db, user), user, ItemsOf(db, user))
    ensures WithCart(db, user).carts[user].code == if user in db.carts then db.carts[user].code else None
  {
  }

  /** Adding: what is refused, in which order, and what an accepted add leaves and answers. */
  lemma AddMeans(db: Db, catalog: Catalog, user: Id, productId: Option<Id>, comboId: Option<Id>,
                 quantity: int, newId: Id, now: int)
    ensures var (result, after) := AddToCart(db, catalog, user, productId, comboId, quantity, newId, now);
            var added := Added(ItemsOf(db, user), productId, comboId, quantity, newId);
            if productId.Some? == comboId.Some? then result == Err(InvalidLine) && after == db
            else if (productId.Some? && productId.value !in catalog.products)
                    || (comboId.Some? && comboId.value !in catalog.combos)
            then result == Err(Unavailable) && after == db
            else if added.Err? then result == Err(added.error) && LeavesRows(db, after, user, ItemsOf(db, user))
            else LeavesRows(db, after, user, added.value) && AnswersQuote(result, after, user, catalog, added.value)
  {
    var added := Added(ItemsOf(db, user), productId, comboId, quantity, newId);
    WithCartMeans(db, user);
    if added.Ok? {
      AnswerMeans(WithCart(db, user), catalog, user, added.value, now);
    }
    hide Answer, Added, LinesOf;
  }

  /** Updating: the row with this id gets the quantity, every other row stays, in place. */
  lemma UpdateMeans(db: Db, catalog: Catalog, user: Id, itemId: Id, quantity: int, now: int)
    ensures var (result, after) := SetInCart(db, catalog, user, itemId, quantity, now);
            var items := ItemsOf(db, user);
            if exists item | item in items :: item.id == itemId then
              var updated := ItemsOf(after, user);
              && LeavesRows(db, after, user, updated) && AnswersQuote(result, after, user, catalog, updated)
              && |updated| == |items|
              && forall i | 0 <= i < |items| ::
                   updated[i] == if items[i].id == itemId then items[i].(quantity := quantity) else items[i]
            else result == Err(ItemNotFound) && LeavesRows(db, after, user, items)
  {
    var items := ItemsOf(db, user);
    WithCartMeans(db, user);
    AnswerMeans(WithCart(db, user), catalog, user, WithQuantity(items, itemId, quantity), now);
    hide Answer, LinesOf;
  }

  lemma {:induction false} WithoutRow(items: seq<Item>, k: nat)
    requires k < |items| && forall i, j | 0 <= i < j < |items| :: items[i].id != items[j].id
    ensures Without(items, items[k].id) == items[..k] + items[k + 1..]
  {
    var n := |items| - 1;
    if k < n {
      WithoutRow(items[..n], k);
      assert items[..n][..k] + items[..n][k + 1..] + [items[n]] == items[..k] + items[k + 1..];
    } else {
      WithoutAbsent(items[..n], items[k].id);
      assert items[..k] + items[k + 1..] == items[..n];
    }
  }

  lemma {:induction false} WithoutAbsent(items: seq<Item>, id: Id)
    requires forall i | 0 <= i < |items| :: items[i].id != id
    ensures Without(items, id) == items
  {
    if items != [] {
      WithoutAbsent(items[..|items| - 1], id);
    }
  }

  /** Removing: the row with this id goes, the others stay in their order. */
  lemma RemoveMeans(db: Db, catalog: Catalog, user: Id, k: nat, now: int)
    requires k < |ItemsOf(db, user)|
    requires forall i, j | 0 <= i < j < |ItemsOf(db, user)| :: ItemsOf(db, user)[i].id != ItemsOf(db, user)[j].id
    ensures var items := ItemsOf(db, user);
            var (result, after) := TakeFromCart(db, catalog, user, items[k].id, now);
            && LeavesRows(db, after, user, items[..k] + items[k + 1..])
            && AnswersQuote(result, after, user, catalog, items[..k] + items[k + 1..])
  {
    var items := ItemsOf(db, user);
    assert items[k] in items;
    WithoutRow(items, k);
    AnswerMeans(db, catalog, user, Without(items, items[k].id), now);
    hide Answer, LinesOf, Without;
  }

  lemma RemoveRefused(db: Db, catalog: Catalog, user: Id, itemId: Id, now: int)
    requires forall item | item in ItemsOf(db, user) :: item.id != itemId
    ensures var (result, after) := TakeFromCart(db, catalog, user, itemId, now);
            result == Err(ItemNotFound) && LeavesRows(db, after, user, ItemsOf(db, user))
  {
    WithCartMeans(db, user);
  }

  // ---------------------------------------------------------------------------------------
  // Checking out
  // ---------------------------------------------------------------------------------------

  /** An order line copies its cart row and the catalog row it was sold at. */
  predicate OrderLineOf(catalog: Catalog, item: Item, line: OrderLine) {
    && line.source == item.id && line.lineType == item.lineType && line.productId == item.productId
    && line.comboId == item.comboId && line.quantity == item.quantity
    && match item.lineType
       case ProductLine =>
         && item.productId.Some? && item.productId.value in catalog.products
         && SoldAs(line, catalog.products[item.productId.value])
       case ComboLine =>
         && item.comboId.Some? && item.comboId.value in catalog.combos
         && SoldAs(line, catalog.combos[item.comboId.value])
       case UnknownLine => false
  }

  predicate SoldAs(line: OrderLine, row: Row) {
    && line.name == row.name && line.slug == row.slug && line.unitPriceCents == row.priceCents
    && line.lineTotalCents == Wrap(row.priceCents * line.quantity)
  }

  /** The order sells exactly the cart's rows, in cart order, at the catalog's prices. */
  predicate OrderOf(catalog: Catalog, cart: Cart, user: Id, pickupAt: int, order: Order) {
    && order.user == user && order.pickupAt == pickupAt && order.code == cart.code
    && |order.lines| == |Named(cart.items)|
    && forall k | 0 <= k < |order.lines| :: OrderLineOf(catalog, Named(cart.items)[k], order.lines[k])
  }

  lemma OrderLinesShowCatalog(catalog: Catalog, cart: Cart, user: Id, pickupAt: int, totals: Totals)
    requires AllAvailable(PriceEach(catalog, cart.items))
    ensures OrderOf(catalog, cart, user, pickupAt,
                    NewOrder(user, PriceEach(catalog, cart.items), totals, cart.code, pickupAt))
  {
    var lines := PriceEach(catalog, cart.items);
    LinesShowCatalog(catalog, cart.items);
    forall k | 0 <= k < |lines| ensures OrderLineOf(catalog, Named(cart.items)[k], ToOrderLines(lines)[k]) {
      assert lines[k] in lines && LineOf(catalog, Named(cart.items)[k], lines[k]);
    }
  }

  /** One more use of the order's code, and no other code touched. */
  predicate UsedOnce(codes: map<Id, Code>, after: map<Id, Code>, code: Option<Id>) {
    && after.Keys == codes.Keys
    && forall id | id in codes ::
         after[id] == codes[id].(usedCount := codes[id].usedCount + if code == Some(id) then 1 else 0)
  }

  /**
   A checkout that goes through leaves one order more, of the cart's rows at the catalog's prices,
   the cart empty and without its code, one use counted, and nothing else changed.
   */
  lemma ChargeLeaves(db: Db, catalog: Catalog, user: Id, pickupAt: int, now: int)
    requires Charge(db, catalog, user, pickupAt, now).0.Ok?
    ensures user in db.carts
    ensures var (result, after) := Charge(db, catalog, user, pickupAt, now);
            && after.orders == db.orders + [result.value]
            && OrderOf(catalog, db.carts[user], user, pickupAt, result.value)
            && user in after.carts && after.carts[user].items == [] && after.carts[user].code == None
            && OnlyCart(db, after.(codes := db.codes, orders := db.orders), user)
            && UsedOnce(db.codes, after.codes, db.carts[user].code)
  {
    var cart := db.carts[user];
    var totals := ChargedTotals(db, catalog, user, pickupAt, now);
    OrderLinesShowCatalog(catalog, cart, user, pickupAt, totals);
    CountedOnce(db.codes, cart.code);
    hide Charge, PriceEach, OrderOf, AllAvailable, NewOrder, Counted, UsedOnce;
  }

  /** A checkout that goes through writes one order, counts its code and empties the cart. */
  lemma ChargedTotals(db: Db, catalog: Catalog, user: Id, pickupAt: int, now: int) returns (totals: Totals)
    requires Charge(db, catalog, user, pickupAt, now).0.Ok?
    ensures user in db.carts && AllAvailable(PriceEach(catalog, db.carts[user].items))
    ensures db.carts[user].code.Some? ==> db.carts[user].code.value in db.codes
    ensures var (result, after) := Charge(db, catalog, user, pickupAt, now);
            var cart := db.carts[user];
            && result.value == NewOrder(user, PriceEach(catalog, cart.items), totals, cart.code, pickupAt)
            && after == Db(db.carts[user := Cart([], None)], Counted(db.codes, cart.code), db.orders + [result.value])
  {
    hide PriceEach, Summary, Redeemable, AllAvailable, TableAccepts, Pickup.ValidPickupAt, NewOrder, Counted;
    var cart := db.carts[user];
    totals := CheckoutTotals(PriceEach(catalog, cart.items), cart.code, db.codes, now).value;
  }

  lemma CountedOnce(codes: map<Id, Code>, code: Option<Id>)
    requires code.Some? ==> code.value in codes
    ensures UsedOnce(codes, Counted(codes, code), code)
  {
  }

  /** And the order's figures: the sum of its lines, what its code takes off, and the rest. */
  lemma ChargeTakes(db: Db, catalog: Catalog, user: Id, pickupAt: int, now: int)
    requires Charge(db, catalog, user, pickupAt, now).0.Ok?
    requires forall id | id in db.codes :: ValidCode(db.codes[id])
    ensures var order := Charge(db, catalog, user, pickupAt, now).0.value;
            && order.subtotalCents == Wrap(LineSum(order.lines))
            && (order.code.Some? ==> order.code.value in db.codes
                                     && Applies(db.codes[order.code.value], now, order.subtotalCents))
            && (FitsInt64(order.subtotalCents * 100) ==>
                  && order.discountCents == (if order.code.Some?
                                             then Taken(db.codes[order.code.value], order.subtotalCents) else 0)
                  && order.totalCents == order.subtotalCents - order.discountCents)
  {
    var cart := db.carts[user];
    var lines, code := PriceEach(catalog, cart.items), StoredCode(db.codes, cart.code);
    AvailableSum(lines);
    SummaryMeans(lines, None, now);
    SummaryMeans(lines, code, now);
    RedeemableMeans(code, now, Wrap(Sum(lines)));
    hide Summary, Redeemable, PriceEach, Applies, Sum, Taken, ValidCode, ToOrderLines, LineSum, OrderBalances;
  }

  /** Why a checkout with a valid pickup and something in the cart is refused, in order. */
  lemma ChargeRefuses(db: Db, catalog: Catalog, user: Id, pickupAt: int, now: int)
    ensures var (result, after) := Charge(db, catalog, user, pickupAt, now);
            && (result.Err? ==> after == db)
            && (result == Err(InvalidPickup) <==> !Pickup.ValidPickupAt(pickupAt, now))
            && (Pickup.ValidPickupAt(pickupAt, now) ==>
                  (result == Err(EmptyCart) <==> user !in db.carts || db.carts[user].items == []))
    ensures Pickup.ValidPickupAt(pickupAt, now) && user in db.carts && db.carts[user].items != [] ==>
              var result := Charge(db, catalog, user, pickupAt, now).0;
              var lines := PriceEach(catalog, db.carts[user].items);
              var subtotal, code := Wrap(Sum(lines)), db.carts[user].code;
              && ((result.Err? && result.error.NotRedeemable?)
                  <==> code.Some? && !(code.value in db.codes && Applies(db.codes[code.value], now, subtotal)))
              && (result.Ok? ==> subtotal != 0 && forall line | line in lines :: line.isAvailable)
              && (result == Err(Unavailable)
                  <==> && (code.Some? ==> code.value in db.codes && Applies(db.codes[code.value], now, subtotal))
                       && (subtotal == 0 || exists line | line in lines :: !line.isAvailable))
  {
    if user in db.carts {
      var lines, code := PriceEach(catalog, db.carts[user].items), db.carts[user].code;
      SummaryMeans(lines, None, now);
      RedeemableMeans(StoredCode(db.codes, code), now, Wrap(Sum(lines)));
      ReadyWhenAvailable(lines, StoredCode(db.codes, code), now);
      if code.Some? {
        DeletedNeverApplies(db.codes, code.value, now, Wrap(Sum(lines)));
        AppliesCanCount(db.codes, code.value, now, Wrap(Sum(lines)));
      }
    }
    hide Summary, Redeemable, PriceEach, Applies, Sum, TableAccepts, NewOrder, CanCount, Pickup.ValidPickupAt;
  }

  lemma AppliesCanCount(codes: map<Id, Code>, id: Id, now: int, subtotal: int)
    ensures id in codes && Applies(codes[id], now, subtotal) ==> CanCount(codes, id)
  {
  }

  lemma ReadyWhenAvailable(lines: seq<PricedLine>, code: Option<Code>, now: int)
    ensures Summary(lines, code, now).checkoutReady
       <==> Wrap(Sum(lines)) != 0 && exists line | line in lines :: line.isAvailable
  {
  }
}
