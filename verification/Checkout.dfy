/**
 Cart edits, the cart quote and checkout on one database, one request at a time.

 Specification functions say what a request answers and what it leaves; the class runs the
 request statement by statement, rolling back what a failed checkout wrote.
 */
module Checkout {
  import opened Options
  import opened Pricing
  import Pickup

  datatype Cart = Cart(items: seq<Item>, code: Option<Id>)

  /** An order row's line; `source` remembers the cart row it was made from. */
  datatype OrderLine = OrderLine(
    source: Id, lineType: LineType, productId: Option<Id>, comboId: Option<Id>, name: string,
    slug: string, quantity: int, unitPriceCents: int, lineTotalCents: int)

  datatype Order = Order(
    user: Id, lines: seq<OrderLine>, subtotalCents: int, discountCents: int, totalCents: int,
    code: Option<Id>, pickupAt: int)

  datatype Db = Db(carts: map<Id, Cart>, codes: map<Id, Code>, orders: seq<Order>)

  datatype Error =
    | InvalidPickup
    | EmptyCart
    | NotRedeemable(reason: RedeemError)
    | Unavailable
    | TableCheck
    | InvalidLine
    | ItemNotFound
    | MaxItemsReached
    | QuantityOutOfRange

  datatype Result<+T> = Ok(value: T) | Err(error: Error)

  // ---------------------------------------------------------------------------------------
  // What checkout decides
  // ---------------------------------------------------------------------------------------

  /** GetByID skips soft-deleted codes. */
  function StoredCode(codes: map<Id, Code>, id: Option<Id>): Option<Code> {
    if id.Some? && id.value in codes && !codes[id.value].deleted then Some(codes[id.value]) else None
  }

  lemma DeletedNeverApplies(codes: map<Id, Code>, id: Id, now: int, subtotal: int)
    ensures id in codes && Applies(codes[id], now, subtotal) ==> StoredCode(codes, Some(id)) == Some(codes[id])
  {
  }

  /** The totals of pricedCartForCheckout, or why there are none. */
  function CheckoutTotals(lines: seq<PricedLine>, codeId: Option<Id>, codes: map<Id, Code>, now: int)
    : Result<Totals>
  {
    var code := StoredCode(codes, codeId);
    var refusal := Redeemable(code, now, Summary(lines, None, now).subtotalCents);
    if codeId.Some? && refusal.Some? then Err(NotRedeemable(refusal.value))
    else
      var totals := Summary(lines, code, now);
      if !totals.checkoutReady || !AllAvailable(lines) then Err(Unavailable) else Ok(totals)
  }

  function ToOrderLine(line: PricedLine): OrderLine {
    OrderLine(line.item.id, line.item.lineType, line.item.productId, line.item.comboId, line.name,
              line.slug, line.item.quantity, line.unitPriceCents, line.lineTotalCents)
  }

  function ToOrderLines(lines: seq<PricedLine>): (out: seq<OrderLine>)
    ensures |out| == |lines| && forall i | 0 <= i < |lines| :: out[i] == ToOrderLine(lines[i])
  {
    seq(|lines|, i requires 0 <= i < |lines| => ToOrderLine(lines[i]))
  }

  function NewOrder(user: Id, lines: seq<PricedLine>, totals: Totals, code: Option<Id>, pickupAt: int)
    : Order
  {
    Order(user, ToOrderLines(lines), totals.subtotalCents, totals.discountCents, totals.totalCents,
          code, pickupAt)
  }

  /** The CHECK constraints of the orders and order_items tables. */
  predicate TableAccepts(order: Order) {
    && order.subtotalCents >= 0 && order.discountCents >= 0 && order.totalCents >= 0
    && order.totalCents == order.subtotalCents - order.discountCents
    && forall line | line in order.lines ::
         line.quantity > 0 && line.unitPriceCents >= 0 && line.lineTotalCents >= 0
  }

  /** The WHERE clause of the use-count increment. */
  predicate CanCount(codes: map<Id, Code>, id: Id) {
    && id in codes && !codes[id].deleted
    && (codes[id].maxUses.Some? ==> codes[id].usedCount < codes[id].maxUses.value)
  }

  function Counted(codes: map<Id, Code>, id: Option<Id>): map<Id, Code> {
    if id.Some? && id.value in codes
    then codes[id.value := codes[id.value].(usedCount := codes[id.value].usedCount + 1)]
    else codes
  }

  /** A checkout nobody else interferes with. */
  function Charge(db: Db, catalog: Catalog, user: Id, pickupAt: int, now: int): (Result<Order>, Db) {
    if !Pickup.ValidPickupAt(pickupAt, now) then (Err(InvalidPickup), db)
    else if user !in db.carts || db.carts[user].items == [] then (Err(EmptyCart), db)
    else
      var cart := db.carts[user];
      var lines := PriceEach(catalog, cart.items);
      match CheckoutTotals(lines, cart.code, db.codes, now)
      case Err(e) => (Err(e), db)
      case Ok(totals) =>
        var order := NewOrder(user, lines, totals, cart.code, pickupAt);
        if !TableAccepts(order) then (Err(TableCheck), db)
        else if cart.code.Some? && !CanCount(db.codes, cart.code.value) then
          (Err(NotRedeemable(Exhausted)), db)
        else
          (Ok(order), Db(db.carts[user := Cart([], None)], Counted(db.codes, cart.code),
                         db.orders + [order]))
  }

  // ---------------------------------------------------------------------------------------
  // What every committed order satisfies
  // ---------------------------------------------------------------------------------------

  /** Σ line totals. */
  function LineSum(lines: seq<OrderLine>): int {
    if lines == [] then 0 else LineSum(lines[..|lines| - 1]) + lines[|lines| - 1].lineTotalCents
  }

  predicate OrderBalances(o: Order) {
    && o.subtotalCents == Wrap(LineSum(o.lines)) > 0
    && 0 <= o.discountCents <= o.subtotalCents
    && o.totalCents == o.subtotalCents - o.discountCents
    && forall line | line in o.lines ::
         && line.lineTotalCents == Wrap(line.unitPriceCents * line.quantity)
         && line.unitPriceCents >= 0 && line.lineTotalCents >= 0 && line.quantity > 0
  }

  lemma {:induction false} AvailableSum(lines: seq<PricedLine>)
    requires AllAvailable(lines)
    ensures Sum(lines) == LineSum(ToOrderLines(lines))
  {
    if lines != [] {
      assert lines[|lines| - 1] in lines;
      AvailableSum(lines[..|lines| - 1]);
      assert ToOrderLines(lines)[..|lines| - 1] == ToOrderLines(lines[..|lines| - 1]);
    }
  }

  /** A priced line that can be sold costs its unit price times its quantity. */
  lemma {:induction false} PricedLinesMultiply(catalog: Catalog, items: seq<Item>, k: nat)
    requires k < |PriceEach(catalog, items)|
    ensures var line := PriceEach(catalog, items)[k];
            && line.item in items
            && line.lineTotalCents == Wrap(line.unitPriceCents * line.item.quantity)
  {
    var first := PriceOne(catalog, items[0]);
    if first.None? {
      PricedLinesMultiply(catalog, items[1..], k);
    } else if k > 0 {
      assert PriceEach(catalog, items) == [first.value] + PriceEach(catalog, items[1..]);
      PricedLinesMultiply(catalog, items[1..], k - 1);
    }
  }

  /** What the pricing decided and the tables accepted is a balanced order. */
  lemma AcceptedOrderBalances(
    catalog: Catalog, items: seq<Item>, user: Id, codeId: Option<Id>, codes: map<Id, Code>,
    pickupAt: int, now: int)
    requires var lines := PriceEach(catalog, items);
             && CheckoutTotals(lines, codeId, codes, now).Ok?
             && TableAccepts(NewOrder(user, lines, CheckoutTotals(lines, codeId, codes, now).value,
                                      codeId, pickupAt))
    ensures var lines := PriceEach(catalog, items);
            OrderBalances(NewOrder(user, lines, CheckoutTotals(lines, codeId, codes, now).value,
                                   codeId, pickupAt))
  {
    var lines := PriceEach(catalog, items);
    var o := NewOrder(user, lines, CheckoutTotals(lines, codeId, codes, now).value, codeId, pickupAt);
    AvailableSum(lines);
    forall line | line in o.lines
      ensures line.lineTotalCents == Wrap(line.unitPriceCents * line.quantity)
    {
      var k :| 0 <= k < |o.lines| && o.lines[k] == line;
      PricedLinesMultiply(catalog, items, k);
    }
  }

  /** Within the exact range the wrapped sum is the sum of unit price times quantity. */
  function ExactLineSum(lines: seq<OrderLine>): int {
    if lines == [] then 0
    else ExactLineSum(lines[..|lines| - 1])
         + lines[|lines| - 1].unitPriceCents * lines[|lines| - 1].quantity
  }

  lemma {:induction false} LineSumIsExact(lines: seq<OrderLine>)
    requires forall line | line in lines ::
               && 0 <= line.unitPriceCents <= MAX_EXACT_PRICE && 0 < line.quantity <= MAX_QUANTITY
               && line.lineTotalCents == Wrap(line.unitPriceCents * line.quantity)
    ensures 0 <= LineSum(lines) == ExactLineSum(lines) <= |lines| * (MAX_EXACT_PRICE * MAX_QUANTITY)
  {
    if lines != [] {
      var last := lines[|lines| - 1];
      assert last in lines;
      LineSumIsExact(lines[..|lines| - 1]);
      ProductBound(last.unitPriceCents, last.quantity, MAX_EXACT_PRICE, MAX_QUANTITY);
    }
  }

  /** A balanced order of at most 50 lines in range adds up in plain integers. */
  lemma BalancedOrderIsExact(o: Order)
    requires OrderBalances(o) && |o.lines| <= MAX_LINES
    requires forall line | line in o.lines ::
               line.unitPriceCents <= MAX_EXACT_PRICE && line.quantity <= MAX_QUANTITY
    ensures o.subtotalCents == ExactLineSum(o.lines)
    ensures forall line | line in o.lines :: line.lineTotalCents == line.unitPriceCents * line.quantity
  {
    LineSumIsExact(o.lines);
    var bound := MAX_EXACT_PRICE * MAX_QUANTITY;
    assert |o.lines| * bound <= MAX_LINES * bound;
    forall line | line in o.lines ensures line.lineTotalCents == line.unitPriceCents * line.quantity {
      ProductBound(line.unitPriceCents, line.quantity, MAX_EXACT_PRICE, MAX_QUANTITY);
    }
  }

  // ---------------------------------------------------------------------------------------
  // The quote
  // ---------------------------------------------------------------------------------------

  datatype CartQuote = CartQuote(lines: seq<PricedLine>, totals: Totals, code: Option<Id>)

  function WithCart(db: Db, user: Id): Db {
    if user in db.carts then db else db.(carts := db.carts[user := Cart([], None)])
  }

  /** buildCartResponse: price the cart, drop a code that no longer applies. */
  function Quote(db: Db, catalog: Catalog, user: Id, now: int): (CartQuote, Db)
    requires user in db.carts
  {
    var cart := db.carts[user];
    var lines := PriceEach(catalog, cart.items);
    var plain := Summary(lines, None, now);
    var code := StoredCode(db.codes, cart.code);
    if cart.code.None? then (CartQuote(lines, plain, None), db)
    else if Redeemable(code, now, plain.subtotalCents).Some? then
      (CartQuote(lines, plain, None), db.(carts := db.carts[user := cart.(code := None)]))
    else (CartQuote(lines, Summary(lines, code, now), cart.code), db)
  }

  /**
   The quote is the charge.  From the state a quote leaves, at the same instant and with a valid
   pickup, checkout succeeds exactly when the quote was ready with every line available and the
   tables take its figures; and then it charges the quoted totals.
   */
  lemma QuoteIsCharge(db: Db, catalog: Catalog, user: Id, pickupAt: int, now: int)
    requires user in db.carts && Pickup.ValidPickupAt(pickupAt, now)
    ensures var (quote, quoted) := Quote(db, catalog, user, now);
            var (result, charged) := Charge(quoted, catalog, user, pickupAt, now);
            var order := NewOrder(user, quote.lines, quote.totals, quote.code, pickupAt);
            && (result.Ok? <==> quote.totals.checkoutReady && AllAvailable(quote.lines)
                                && TableAccepts(order))
            && (result.Ok? ==> result.value == order && charged.orders == quoted.orders + [order])
            && (result.Err? ==> charged == quoted)
  {
    var (quote, quoted) := Quote(db, catalog, user, now);
    var cart := db.carts[user];
    if cart.items == [] {
      assert quote.lines == [];
    }
    var code := StoredCode(db.codes, cart.code);
    assert Redeemable(code, now, Summary(quote.lines, None, now).subtotalCents).None?
           ==> CanCount(db.codes, cart.code.value);
    assert quoted.carts[user].code == quote.code && quoted.codes == db.codes;
  }

  /** Inside the exact range the tables have nothing to refuse. */
  lemma QuoteIsAccepted(db: Db, catalog: Catalog, user: Id, pickupAt: int, now: int)
    requires user in db.carts && forall id | id in db.codes :: ValidCode(db.codes[id])
    requires var lines := Quote(db, catalog, user, now).0.lines;
             |lines| <= MAX_LINES && forall line | line in lines :: Affordable(line)
    ensures var quote := Quote(db, catalog, user, now).0;
            TableAccepts(NewOrder(user, quote.lines, quote.totals, quote.code, pickupAt))
  {
    var quote := Quote(db, catalog, user, now).0;
    var code := StoredCode(db.codes, quote.code);
    TotalsAreExact(quote.lines, code, now);
    TotalsAreExact(quote.lines, None, now);
    var order := NewOrder(user, quote.lines, quote.totals, quote.code, pickupAt);
    forall line | line in order.lines
      ensures line.quantity > 0 && line.unitPriceCents >= 0 && line.lineTotalCents >= 0
    {
      var k :| 0 <= k < |order.lines| && order.lines[k] == line;
      LineBound(quote.lines[k]);
    }
  }

  // ---------------------------------------------------------------------------------------
  // Cart edits
  // ---------------------------------------------------------------------------------------

  /** The row holding this product or combo: GetItemByProduct, GetItemByCombo. */
  predicate Matches(item: Item, productId: Option<Id>, comboId: Option<Id>) {
    if productId.Some? then item.lineType.ProductLine? && item.productId == productId
    else item.lineType.ComboLine? && item.comboId == comboId
  }

  /** What the cart endpoints keep: at most 50 rows, 1 to 99 units each, one row per target. */
  predicate InBounds(items: seq<Item>) {
    && |items| <= MAX_LINES
    && (forall i | 0 <= i < |items| :: 1 <= items[i].quantity <= MAX_QUANTITY)
    && (forall i, j | 0 <= i < j < |items| :: Distinct(items[i], items[j]))
  }

  /** A row with its own id and target. */
  predicate Distinct(row: Item, other: Item) {
    && row.id != other.id
    && (row.lineType == other.lineType ==> Target(row) != Target(other) || Target(row).None?)
  }

  /** The first row of this target, or the number of rows when there is none. */
  function FirstMatch(items: seq<Item>, productId: Option<Id>, comboId: Option<Id>): (k: nat)
    ensures k <= |items| && (k < |items| ==> Matches(items[k], productId, comboId))
    ensures forall j | 0 <= j < k :: !Matches(items[j], productId, comboId)
  {
    if items == [] || Matches(items[0], productId, comboId) then 0
    else 1 + FirstMatch(items[1..], productId, comboId)
  }

  /** Merge into the row of the same target, or append a row below the cap. */
  function Added(items: seq<Item>, productId: Option<Id>, comboId: Option<Id>, quantity: int, newId: Id)
    : Result<seq<Item>>
  {
    var k := FirstMatch(items, productId, comboId);
    if k < |items| then
      var newQty := items[k].quantity + quantity;
      if newQty > MAX_QUANTITY then Err(QuantityOutOfRange)
      else Ok(items[k := items[k].(quantity := newQty)])
    else if |items| >= MAX_LINES then Err(MaxItemsReached)
    else
      var lineType := if productId.Some? then ProductLine else ComboLine;
      Ok(items + [Item(newId, lineType, productId, comboId, quantity)])
  }

  predicate HasItem(items: seq<Item>, id: Id) {
    exists item | item in items :: item.id == id
  }

  function WithQuantity(items: seq<Item>, id: Id, quantity: int): (out: seq<Item>)
    ensures |out| == |items|
    ensures forall i | 0 <= i < |items| ::
              out[i] == if items[i].id == id then items[i].(quantity := quantity) else items[i]
  {
    if items == [] then []
    else
      var last := items[|items| - 1];
      WithQuantity(items[..|items| - 1], id, quantity)
      + [if last.id == id then last.(quantity := quantity) else last]
  }

  function Without(items: seq<Item>, id: Id): seq<Item> {
    if items == [] then []
    else
      var last := items[|items| - 1];
      Without(items[..|items| - 1], id) + (if last.id == id then [] else [last])
  }

  /** Every cart request ends by answering with the quote. */
  function Answer(db: Db, catalog: Catalog, user: Id, now: int): (Result<CartQuote>, Db)
    requires user in db.carts
  {
    var (quote, quoted) := Quote(db, catalog, user, now);
    (Ok(quote), quoted)
  }

  function WithItems(db: Db, user: Id, items: seq<Item>): Db
    requires user in db.carts
  {
    db.(carts := db.carts[user := db.carts[user].(items := items)])
  }

  function AddToCart(db: Db, catalog: Catalog, user: Id, productId: Option<Id>, comboId: Option<Id>,
                     quantity: int, newId: Id, now: int): (Result<CartQuote>, Db)
  {
    if productId.Some? == comboId.Some? then (Err(InvalidLine), db)
    else if productId.Some? && productId.value !in catalog.products then (Err(Unavailable), db)
    else if comboId.Some? && comboId.value !in catalog.combos then (Err(Unavailable), db)
    else
      var db' := WithCart(db, user);
      match Added(db'.carts[user].items, productId, comboId, quantity, newId)
      case Err(e) => (Err(e), db')
      case Ok(items) => Answer(WithItems(db', user, items), catalog, user, now)
  }

  function SetInCart(db: Db, catalog: Catalog, user: Id, itemId: Id, quantity: int, now: int)
    : (Result<CartQuote>, Db)
  {
    var db' := WithCart(db, user);
    var items := db'.carts[user].items;
    if !HasItem(items, itemId) then (Err(ItemNotFound), db')
    else Answer(WithItems(db', user, WithQuantity(items, itemId, quantity)), catalog, user, now)
  }

  function TakeFromCart(db: Db, catalog: Catalog, user: Id, itemId: Id, now: int): (Result<CartQuote>, Db) {
    var db' := WithCart(db, user);
    var items := db'.carts[user].items;
    if !HasItem(items, itemId) then (Err(ItemNotFound), db')
    else Answer(WithItems(db', user, Without(items, itemId)), catalog, user, now)
  }

  datatype Edit =
    | Add(productId: Option<Id>, comboId: Option<Id>, quantity: int, newId: Id)
    | Update(id: Id, quantity: int)
    | Remove(id: Id)

  /** An edit, and the catalog and clock its request meets. */
  datatype Request = Request(edit: Edit, catalog: Catalog, now: int)

  function Requested(db: Db, user: Id, request: Request): Db {
    match request.edit
    case Add(p, c, quantity, newId) =>
      AddToCart(db, request.catalog, user, p, c, quantity, newId, request.now).1
    case Update(id, quantity) => SetInCart(db, request.catalog, user, id, quantity, request.now).1
    case Remove(id) => TakeFromCart(db, request.catalog, user, id, request.now).1
  }

  function ItemsOf(db: Db, user: Id): seq<Item> {
    if user in db.carts then db.carts[user].items else []
  }

  /** The bounds the request validation puts on an edit, with ids minted fresh. */
  predicate Acceptable(items: seq<Item>, edit: Edit) {
    match edit
    case Add(_, _, quantity, newId) => 1 <= quantity <= MAX_QUANTITY && !HasItem(items, newId)
    case Update(_, quantity) => 1 <= quantity <= MAX_QUANTITY
    case Remove(_) => true
  }

  lemma RowFits(items: seq<Item>, row: Item)
    requires InBounds(items) && |items| < MAX_LINES && 1 <= row.quantity <= MAX_QUANTITY
    requires forall i | 0 <= i < |items| :: Distinct(items[i], row)
    ensures InBounds(items + [row])
  {
  }

  lemma UpdateKeepsBounds(items: seq<Item>, id: Id, quantity: int)
    requires InBounds(items) && 1 <= quantity <= MAX_QUANTITY
    ensures InBounds(WithQuantity(items, id, quantity))
  {
    var updated := WithQuantity(items, id, quantity);
    assert forall i | 0 <= i < |items| :: updated[i].id == items[i].id && Target(updated[i]) == Target(items[i]);
  }

  lemma AddKeepsBounds(
    items: seq<Item>, productId: Option<Id>, comboId: Option<Id>, quantity: int, newId: Id)
    requires InBounds(items) && 1 <= quantity <= MAX_QUANTITY && !HasItem(items, newId)
    requires productId.Some? != comboId.Some? && Added(items, productId, comboId, quantity, newId).Ok?
    ensures InBounds(Added(items, productId, comboId, quantity, newId).value)
  {
    var k := FirstMatch(items, productId, comboId);
    assert forall i | 0 <= i < |items| :: items[i].id != newId;
    if k == |items| {
      assert forall i | 0 <= i < |items| :: !Matches(items[i], productId, comboId);
      var lineType := if productId.Some? then ProductLine else ComboLine;
      RowFits(items, Item(newId, lineType, productId, comboId, quantity));
    }
  }

  /** How many units of a product or combo the rows hold. */
  function Units(items: seq<Item>, productId: Option<Id>, comboId: Option<Id>): int {
    if items == [] then 0
    else
      var last := items[|items| - 1];
      Units(items[..|items| - 1], productId, comboId)
      + (if Sells(last, productId, comboId) then last.quantity else 0)
  }

  /** A row of this product, or of this combo. */
  predicate Sells(item: Item, productId: Option<Id>, comboId: Option<Id>) {
    || (productId.Some? && item.lineType.ProductLine? && item.productId == productId)
    || (comboId.Some? && item.lineType.ComboLine? && item.comboId == comboId)
  }

  lemma {:induction false} UnitsOfUpdate(
    items: seq<Item>, k: nat, quantity: int, productId: Option<Id>, comboId: Option<Id>)
    requires k < |items|
    ensures Units(items[k := items[k].(quantity := quantity)], productId, comboId)
         == Units(items, productId, comboId)
            + (if Sells(items[k], productId, comboId) then quantity - items[k].quantity else 0)
  {
    var n, updated := |items| - 1, items[k := items[k].(quantity := quantity)];
    if k < n {
      assert updated[..n] == items[..n][k := items[k].(quantity := quantity)];
      UnitsOfUpdate(items[..n], k, quantity, productId, comboId);
    } else {
      assert updated[..n] == items[..n];
    }
  }

  /** An accepted add changes the units of its target by the quantity asked for, and no others. */
  lemma AddMovesUnits(
    items: seq<Item>, productId: Option<Id>, comboId: Option<Id>, quantity: int, newId: Id,
    product: Option<Id>, combo: Option<Id>)
    requires productId.Some? != comboId.Some? && product.Some? != combo.Some?
    requires Added(items, productId, comboId, quantity, newId).Ok?
    ensures Units(Added(items, productId, comboId, quantity, newId).value, product, combo)
         == Units(items, product, combo)
            + (if product == productId && combo == comboId then quantity else 0)
  {
    var k := FirstMatch(items, productId, comboId);
    if k < |items| {
      UnitsOfUpdate(items, k, items[k].quantity + quantity, product, combo);
    } else {
      var added := Added(items, productId, comboId, quantity, newId).value;
      assert added[..|added| - 1] == items;
    }
  }

  lemma {:induction false} WithoutWithin(items: seq<Item>, id: Id)
    ensures forall row :: row in Without(items, id) <==> row in items && row.id != id
    ensures |Without(items, id)| <= |items|
  {
    if items != [] {
      WithoutWithin(items[..|items| - 1], id);
    }
  }

  lemma LastIsDistinct(items: seq<Item>)
    requires InBounds(items) && items != []
    ensures var n := |items| - 1;
            && InBounds(items[..n]) && 1 <= items[n].quantity <= MAX_QUANTITY && n < MAX_LINES
            && forall row | row in items[..n] :: Distinct(row, items[n])
  {
  }

  lemma {:induction false} WithoutKeepsBounds(items: seq<Item>, id: Id)
    requires InBounds(items)
    ensures InBounds(Without(items, id))
  {
    if items != [] {
      hide InBounds, Distinct;
      var n := |items| - 1;
      var kept := Without(items[..n], id);
      LastIsDistinct(items);
      WithoutWithin(items[..n], id);
      WithoutKeepsBounds(items[..n], id);
      forall i | 0 <= i < |kept| ensures Distinct(kept[i], items[n]) {
        assert kept[i] in kept;
      }
      RowFits(kept, items[n]);
    }
  }

  predicate AllAcceptable(db: Db, user: Id, requests: seq<Request>)
    decreases |requests|
  {
    requests != [] ==>
      && Acceptable(ItemsOf(db, user), requests[0].edit)
      && AllAcceptable(Requested(db, user, requests[0]), user, requests[1..])
  }

  function RequestedAll(db: Db, user: Id, requests: seq<Request>): Db
    decreases |requests|
  {
    if requests == [] then db else RequestedAll(Requested(db, user, requests[0]), user, requests[1..])
  }

  /** The quote may drop a code; it never touches the rows. */
  lemma QuoteKeepsItems(db: Db, catalog: Catalog, user: Id, now: int)
    requires user in db.carts
    ensures ItemsOf(Quote(db, catalog, user, now).1, user) == db.carts[user].items
  {
  }

  /** An answered request leaves the rows it wrote. */
  lemma AnsweredItems(db: Db, catalog: Catalog, user: Id, items: seq<Item>, now: int)
    requires user in db.carts
    ensures ItemsOf(Answer(WithItems(db, user, items), catalog, user, now).1, user) == items
  {
    hide Quote;
    QuoteKeepsItems(WithItems(db, user, items), catalog, user, now);
  }

  lemma RequestKeepsBounds(db: Db, user: Id, request: Request)
    requires InBounds(ItemsOf(db, user)) && Acceptable(ItemsOf(db, user), request.edit)
    ensures InBounds(ItemsOf(Requested(db, user, request), user))
  {
    var catalog, now, db' := request.catalog, request.now, WithCart(db, user);
    var items := db'.carts[user].items;
    assert items == ItemsOf(db, user);
    match request.edit
    case Add(p, c, quantity, newId) =>
      hide InBounds, Added, Answer, HasItem;
      if p.Some? != c.Some? && Added(items, p, c, quantity, newId).Ok? {
        AddKeepsBounds(items, p, c, quantity, newId);
        AnsweredItems(db', catalog, user, Added(items, p, c, quantity, newId).value, now);
      }
    case Update(id, quantity) =>
      UpdateKeepsBounds(items, id, quantity);
      hide InBounds, Answer, WithQuantity;
      AnsweredItems(db', catalog, user, WithQuantity(items, id, quantity), now);
    case Remove(id) =>
      hide InBounds, Answer, Without;
      WithoutKeepsBounds(items, id);
      AnsweredItems(db', catalog, user, Without(items, id), now);
  }

  /** However one customer edits a cart, it stays within the caps and keeps one row per target. */
  lemma {:induction false} EditsKeepBounds(db: Db, user: Id, requests: seq<Request>)
    requires InBounds(ItemsOf(db, user)) && AllAcceptable(db, user, requests)
    ensures InBounds(ItemsOf(RequestedAll(db, user, requests), user))
    decreases |requests|
  {
    if requests != [] {
      RequestKeepsBounds(db, user, requests[0]);
      EditsKeepBounds(Requested(db, user, requests[0]), user, requests[1..]);
    }
  }

  class Bakery {
    var carts: map<Id, Cart>
    var codes: map<Id, Code>
    var orders: seq<Order>

    constructor ()
      ensures carts == map[] && codes == map[] && orders == []
    {
      carts, codes, orders := map[], map[], [];
    }

    ghost function Contents(): Db
      reads this
    {
      Db(carts, codes, orders)
    }

    method GetOrCreateCart(user: Id)
      modifies this`carts
      ensures Contents() == WithCart(old(Contents()), user)
    {
      if user !in carts {
        carts := carts[user := Cart([], None)];
      }
    }

    method BuildCartResponse(catalog: Catalog, user: Id, now: int) returns (quote: CartQuote)
      requires user in carts && ValidCatalog(catalog)
      modifies this`carts
      ensures (quote, Contents()) == Quote(old(Contents()), catalog, user, now)
    {
      var cart := carts[user];
      var lines := PriceLines(catalog, cart.items);
      var totals := SummarizeCart(lines, None, now);
      var codeId := cart.code;
      if codeId.Some? {
        var code := StoredCode(codes, codeId);
        if code.None? || Redeemable(code, now, totals.subtotalCents).Some? {
          carts := carts[user := cart.(code := None)];
          codeId := None;
        } else {
          totals := SummarizeCart(lines, code, now);
        }
      }
      quote := CartQuote(lines, totals, codeId);
    }

    method GetCart(catalog: Catalog, user: Id, now: int) returns (quote: CartQuote)
      requires ValidCatalog(catalog)
      modifies this`carts
      ensures (Ok(quote), Contents()) == Answer(WithCart(old(Contents()), user), catalog, user, now)
    {
      GetOrCreateCart(user);
      quote := BuildCartResponse(catalog, user, now);
    }

    method AddItem(catalog: Catalog, user: Id, productId: Option<Id>, comboId: Option<Id>,
                   quantity: int, newId: Id, now: int)
      returns (result: Result<CartQuote>)
      requires ValidCatalog(catalog)
      modifies this`carts
      ensures (result, Contents())
           == AddToCart(old(Contents()), catalog, user, productId, comboId, quantity, newId, now)
    {
      hide Quote, HasItem;
      if productId.Some? == comboId.Some? {
        return Err(InvalidLine);
      }
      if productId.Some? && productId.value !in catalog.products {
        return Err(Unavailable);
      }
      if comboId.Some? && comboId.value !in catalog.combos {
        return Err(Unavailable);
      }
      GetOrCreateCart(user);
      var cart := carts[user];
      var index := FirstMatch(cart.items, productId, comboId);
      if index < |cart.items| {
        var newQty := cart.items[index].quantity + quantity;
        if newQty > MAX_QUANTITY {
          return Err(QuantityOutOfRange);
        }
        carts := carts[user := cart.(items := cart.items[index := cart.items[index].(quantity := newQty)])];
        var merged := BuildCartResponse(catalog, user, now);
        return Ok(merged);
      }
      if |cart.items| >= MAX_LINES {
        return Err(MaxItemsReached);
      }
      var lineType := if productId.Some? then ProductLine else ComboLine;
      var item := Item(newId, lineType, productId, comboId, quantity);
      carts := carts[user := cart.(items := cart.items + [item])];
      var quote := BuildCartResponse(catalog, user, now);
      return Ok(quote);
    }

    method UpdateItem(catalog: Catalog, user: Id, itemId: Id, quantity: int, now: int)
      returns (result: Result<CartQuote>)
      requires ValidCatalog(catalog)
      modifies this`carts
      ensures (result, Contents()) == SetInCart(old(Contents()), catalog, user, itemId, quantity, now)
    {
      hide Quote, HasItem;
      GetOrCreateCart(user);
      var cart := carts[user];
      if !HasItem(cart.items, itemId) {
        return Err(ItemNotFound);
      }
      carts := carts[user := cart.(items := WithQuantity(cart.items, itemId, quantity))];
      var quote := BuildCartResponse(catalog, user, now);
      return Ok(quote);
    }

    method RemoveItem(catalog: Catalog, user: Id, itemId: Id, now: int)
      returns (result: Result<CartQuote>)
      requires ValidCatalog(catalog)
      modifies this`carts
      ensures (result, Contents()) == TakeFromCart(old(Contents()), catalog, user, itemId, now)
    {
      hide Quote, HasItem;
      GetOrCreateCart(user);
      var cart := carts[user];
      var remaining := Without(cart.items, itemId);
      if !HasItem(cart.items, itemId) {
        return Err(ItemNotFound);
      }
      carts := carts[user := cart.(items := remaining)];
      var quote := BuildCartResponse(catalog, user, now);
      return Ok(quote);
    }

    /** ApplyDiscount attaches a code that the cart as it stands can redeem. */
    method ApplyDiscount(catalog: Catalog, user: Id, codeId: Id, now: int)
      returns (result: Result<CartQuote>)
      requires ValidCatalog(catalog)
      modifies this`carts
      ensures var db := WithCart(old(Contents()), user);
              var lines := PriceEach(catalog, db.carts[user].items);
              var code := StoredCode(codes, Some(codeId));
              && (result.Ok? <==>
                    && SomeAvailable(lines) && Wrap(Sum(lines)) != 0
                    && codeId in codes && Applies(codes[codeId], now, Wrap(Sum(lines))))
              && (result.Ok? ==> result.value == CartQuote(lines, Summary(lines, code, now), Some(codeId)))
              && Contents() == if result.Ok?
                               then db.(carts := db.carts[user := db.carts[user].(code := Some(codeId))])
                               else db
    {
      GetOrCreateCart(user);
      var lines := PriceLines(catalog, carts[user].items);
      var totals := SummarizeCart(lines, None, now);
      SummaryMeans(lines, None, now);
      RedeemableMeans(StoredCode(codes, Some(codeId)), now, totals.subtotalCents);
      DeletedNeverApplies(codes, codeId, now, totals.subtotalCents);
      hide PriceEach, Summary, Redeemable, Applies, Sum;
      if !totals.checkoutReady {
        return Err(EmptyCart);
      }
      var code := StoredCode(codes, Some(codeId));
      var refusal := Redeemable(code, now, totals.subtotalCents);
      if refusal.Some? {
        return Err(NotRedeemable(refusal.value));
      }
      carts := carts[user := carts[user].(code := Some(codeId))];
      totals := SummarizeCart(lines, code, now);
      return Ok(CartQuote(lines, totals, Some(codeId)));
    }

    method RemoveDiscount(catalog: Catalog, user: Id, now: int) returns (quote: CartQuote)
      requires ValidCatalog(catalog)
      modifies this`carts
      ensures var db := WithCart(old(Contents()), user);
              (Ok(quote), Contents())
              == Answer(db.(carts := db.carts[user := db.carts[user].(code := None)]), catalog, user, now)
    {
      hide Quote;
      GetOrCreateCart(user);
      carts := carts[user := carts[user].(code := None)];
      quote := BuildCartResponse(catalog, user, now);
    }

    /** Checkout: run the transaction, and undo its writes when it fails. */
    method PlaceOrder(catalog: Catalog, user: Id, pickupAt: int, now: int)
      returns (result: Result<Order>)
      requires ValidCatalog(catalog)
      modifies this
      ensures (result, Contents()) == Charge(old(Contents()), catalog, user, pickupAt, now)
    {
      if !Pickup.ValidPickupAt(pickupAt, now) {
        return Err(InvalidPickup);
      }
      var beforeCarts, beforeCodes, beforeOrders := carts, codes, orders;
      result := CheckoutTx(catalog, user, pickupAt, now);
      if result.Err? {
        carts, codes, orders := beforeCarts, beforeCodes, beforeOrders;
      }
    }

    method CheckoutTx(catalog: Catalog, user: Id, pickupAt: int, now: int)
      returns (result: Result<Order>)
      requires ValidCatalog(catalog) && Pickup.ValidPickupAt(pickupAt, now)
      modifies this
      ensures result == Charge(old(Contents()), catalog, user, pickupAt, now).0
      ensures result.Ok? ==> Contents() == Charge(old(Contents()), catalog, user, pickupAt, now).1
    {
      hide PriceEach, CheckoutTotals, TableAccepts;
      var lines, priced := PricedCartForCheckout(catalog, user, now);
      if priced.Err? {
        return Err(priced.error);
      }
      var totals, codeId := priced.value, carts[user].code;
      var order := Order(user, [], totals.subtotalCents, totals.discountCents, totals.totalCents,
                         codeId, pickupAt);
      var orderItems := OrderItems(lines);
      order := order.(lines := orderItems);
      orders := orders + [order];
      if !TableAccepts(order) {
        return Err(TableCheck);
      }
      if codeId.Some? {
        if !CanCount(codes, codeId.value) {
          return Err(NotRedeemable(Exhausted));
        }
        codes := Counted(codes, codeId);
      }
      carts := carts[user := carts[user].(items := [])];
      carts := carts[user := carts[user].(code := None)];
      return Ok(order);
    }

    /** pricedCartForCheckout, with the cart row locked by the caller's transaction. */
    method PricedCartForCheckout(catalog: Catalog, user: Id, now: int)
      returns (lines: seq<PricedLine>, priced: Result<Totals>)
      requires ValidCatalog(catalog)
      ensures if user !in carts || carts[user].items == [] then priced == Err(EmptyCart)
              else lines == PriceEach(catalog, carts[user].items)
                   && priced == CheckoutTotals(lines, carts[user].code, codes, now)
    {
      lines := [];
      if user !in carts {
        return lines, Err(EmptyCart);
      }
      var cart := carts[user];
      if |cart.items| == 0 {
        return lines, Err(EmptyCart);
      }
      lines := PriceLines(catalog, cart.items);
      var plain := SummarizeCart(lines, None, now);
      var code := StoredCode(codes, cart.code);
      if cart.code.Some? {
        var refusal := Redeemable(code, now, plain.subtotalCents);
        if refusal.Some? {
          return lines, Err(NotRedeemable(refusal.value));
        }
      }
      var totals := SummarizeCart(lines, code, now);
      if !totals.checkoutReady {
        return lines, Err(Unavailable);
      }
      for i := 0 to |lines|
        invariant forall k | 0 <= k < i :: lines[k].isAvailable
      {
        if !lines[i].isAvailable {
          return lines, Err(Unavailable);
        }
      }
      return lines, Ok(totals);
    }

    method OrderItems(lines: seq<PricedLine>) returns (orderItems: seq<OrderLine>)
      ensures orderItems == ToOrderLines(lines)
    {
      orderItems := [];
      for i := 0 to |lines|
        invariant orderItems == ToOrderLines(lines[..i])
      {
        orderItems := orderItems + [ToOrderLine(lines[i])];
      }
      assert lines[..|lines|] == lines;
    }
  }
}
