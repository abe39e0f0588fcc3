/**
 Pricing a cart: lines from the catalog, a discount, totals.  int64 arithmetic wraps, as it does
 in the program; `TotalsAreExact` says where it never has to.
 */
module Pricing {
  import opened Options

  type Id = nat

  // ---------------------------------------------------------------------------------------
  // int64
  // ---------------------------------------------------------------------------------------

  const TWO_63 := 0x8000_0000_0000_0000
  const TWO_64 := 0x1_0000_0000_0000_0000

  predicate FitsInt64(x: int) {
    -TWO_63 <= x < TWO_63
  }

  /** The int64 that arithmetic on int64 operands leaves. */
  function Wrap(x: int): (w: int)
    ensures FitsInt64(w)
    ensures FitsInt64(x) ==> w == x
  {
    (x + TWO_63) % TWO_64 - TWO_63
  }

  /** Integer division of the program: toward zero. */
  function QuotToZero(a: int, b: int): int
    requires b > 0
  {
    if a >= 0 then a / b else -(-a / b)
  }

  // ---------------------------------------------------------------------------------------
  // Discount codes
  // ---------------------------------------------------------------------------------------

  datatype DiscountType = Percent | FixedCents

  datatype Code = Code(
    discountType: DiscountType, value: int, minOrderCents: Option<int>, maxUses: Option<int>,
    maxDiscountCents: Option<int>, usedCount: int, startsAt: int, endsAt: int,
    isActive: bool, deleted: bool)

  datatype RedeemError = CodeNotFound | Inactive | Expired | Exhausted | MinOrderNotMet

  /** ValidateRedeemable; None is a redeemable code. */
  function Redeemable(code: Option<Code>, now: int, subtotal: int): Option<RedeemError> {
    match code
    case None => Some(CodeNotFound)
    case Some(c) =>
      if c.deleted then Some(CodeNotFound)
      else if !c.isActive then Some(Inactive)
      else if now < c.startsAt || !(now < c.endsAt) then Some(Expired)
      else if c.maxUses.Some? && c.usedCount >= c.maxUses.value then Some(Exhausted)
      else if c.minOrderCents.Some? && subtotal < c.minOrderCents.value then Some(MinOrderNotMet)
      else None
  }

  /** ComputeDiscountCents. */
  function DiscountCents(c: Code, subtotal: int): int {
    match c.discountType
    case Percent =>
      var discount := QuotToZero(Wrap(subtotal * c.value), 100);
      if c.maxDiscountCents.Some? && discount > c.maxDiscountCents.value then c.maxDiscountCents.value
      else discount
    case FixedCents => if c.value >= subtotal then subtotal else c.value
  }

  /** What validateDiscountValue, the request bounds and the table's checks let be stored. */
  predicate ValidCode(c: Code) {
    && (c.discountType.Percent? ==> 1 <= c.value <= 100)
    && (c.discountType.FixedCents? ==> 1 <= c.value && c.maxDiscountCents.None?)
    && (c.maxDiscountCents.Some? ==> c.maxDiscountCents.value >= 1)
    && (c.maxUses.Some? ==> c.maxUses.value > 0)
    && 0 <= c.usedCount
  }

  // ---------------------------------------------------------------------------------------
  // Lines
  // ---------------------------------------------------------------------------------------

  datatype LineType = ProductLine | ComboLine | UnknownLine

  datatype Item = Item(
    id: Id, lineType: LineType, productId: Option<Id>, comboId: Option<Id>, quantity: int)

  datatype Row = Row(id: Id, name: string, slug: string, priceCents: int)

  /** What the storefront can sell at one instant, by id. */
  datatype Catalog = Catalog(products: map<Id, Row>, combos: map<Id, Row>)

  predicate ValidCatalog(catalog: Catalog) {
    && (forall id | id in catalog.products :: catalog.products[id].id == id)
    && (forall id | id in catalog.combos :: catalog.combos[id].id == id)
  }

  datatype PricedLine = PricedLine(
    item: Item, name: string, slug: string, unitPriceCents: int, lineTotalCents: int,
    isAvailable: bool)

  datatype Totals = Totals(subtotalCents: int, discountCents: int, totalCents: int, checkoutReady: bool)

  /** The id an item asks the catalog for, and the table it is looked up in. */
  function Target(item: Item): Option<Id> {
    match item.lineType
    case ProductLine => item.productId
    case ComboLine => item.comboId
    case UnknownLine => None
  }

  function Table(catalog: Catalog, lineType: LineType): map<Id, Row> {
    match lineType
    case ProductLine => catalog.products
    case ComboLine => catalog.combos
    case UnknownLine => map[]
  }

  function UnavailableLine(item: Item): PricedLine {
    PricedLine(item, "", "", 0, 0, false)
  }

  /** One item looked up alone; None when the item names no product or combo of its type. */
  function PriceOne(catalog: Catalog, item: Item): Option<PricedLine> {
    if item.lineType.UnknownLine? then Some(UnavailableLine(item))
    else if Target(item).None? then None
    else if Target(item).value !in Table(catalog, item.lineType) then Some(UnavailableLine(item))
    else
      var row := Table(catalog, item.lineType)[Target(item).value];
      Some(PricedLine(item, row.name, row.slug, row.priceCents,
                      Wrap(row.priceCents * item.quantity), true))
  }

  /** Each item looked up alone, in cart order. */
  function PriceEach(catalog: Catalog, items: seq<Item>): seq<PricedLine> {
    if items == [] then []
    else
      var line := PriceOne(catalog, items[0]);
      (if line.Some? then [line.value] else []) + PriceEach(catalog, items[1..])
  }

  lemma {:induction false} PriceEachAppends(catalog: Catalog, items: seq<Item>, item: Item)
    ensures PriceEach(catalog, items + [item])
         == PriceEach(catalog, items) + PriceEach(catalog, [item])
  {
    if items == [] {
      assert [] + [item] == [item];
    } else {
      assert (items + [item])[1..] == items[1..] + [item];
      PriceEachAppends(catalog, items[1..], item);
    }
  }

  // ---------------------------------------------------------------------------------------
  // What a line says of the catalog
  // ---------------------------------------------------------------------------------------

  /** The items that get a line: a product or combo row must name its product or combo. */
  function Named(items: seq<Item>): seq<Item> {
    if items == [] then []
    else
      var item := items[0];
      (if (item.lineType.ProductLine? && item.productId.None?) || (item.lineType.ComboLine? && item.comboId.None?)
       then [] else [item])
      + Named(items[1..])
  }

  /** The line shows this catalog row at its price. */
  predicate Shows(line: PricedLine, row: Row) {
    && line.name == row.name && line.slug == row.slug && line.unitPriceCents == row.priceCents
    && line.lineTotalCents == Wrap(row.priceCents * line.item.quantity)
  }

  /** The line of an item: available exactly when its own table sells its target, and then that row. */
  predicate LineOf(catalog: Catalog, item: Item, line: PricedLine) {
    && line.item == item
    && (line.isAvailable <==>
          || (item.lineType.ProductLine? && item.productId.Some? && item.productId.value in catalog.products)
          || (item.lineType.ComboLine? && item.comboId.Some? && item.comboId.value in catalog.combos))
    && (line.isAvailable && item.lineType.ProductLine? ==> Shows(line, catalog.products[item.productId.value]))
    && (line.isAvailable && item.lineType.ComboLine? ==> Shows(line, catalog.combos[item.comboId.value]))
    && (!line.isAvailable ==>
          line.name == "" && line.slug == "" && line.unitPriceCents == 0 && line.lineTotalCents == 0)
  }

  predicate LinesOf(catalog: Catalog, items: seq<Item>, lines: seq<PricedLine>) {
    && |lines| == |Named(items)|
    && forall k | 0 <= k < |lines| :: LineOf(catalog, Named(items)[k], lines[k])
  }

  /** The lines are those of the items that get one, in cart order, at the catalog's prices. */
  lemma {:induction false} LinesShowCatalog(catalog: Catalog, items: seq<Item>)
    ensures LinesOf(catalog, items, PriceEach(catalog, items))
  {
    if items != [] {
      LinesShowCatalog(catalog, items[1..]);
    }
  }

  /** CatalogGetByIDs: the rows of the wanted ids that can be sold, each once. */
  function RowsByIDs(table: map<Id, Row>, ids: seq<Id>): (rows: seq<Row>)
    requires forall id | id in table :: table[id].id == id
    ensures forall row | row in rows :: row.id in ids && row.id in table && row == table[row.id]
    ensures forall id | id in ids && id in table :: table[id] in rows
    ensures forall i, j | 0 <= i < j < |rows| :: rows[i].id != rows[j].id
  {
    if ids == [] then []
    else
      var rest := RowsByIDs(table, ids[1..]);
      if ids[0] in table && table[ids[0]] !in rest then [table[ids[0]]] + rest else rest
  }

  /** Index rows by id. */
  method IndexRows(rows: seq<Row>) returns (byID: map<Id, Row>)
    requires forall r1, r2 | r1 in rows && r2 in rows && r1.id == r2.id :: r1 == r2
    ensures forall id | id in byID :: byID[id] in rows && byID[id].id == id
    ensures forall row | row in rows :: row.id in byID && byID[row.id] == row
  {
    byID := map[];
    for i := 0 to |rows|
      invariant forall id | id in byID :: byID[id] in rows && byID[id].id == id
      invariant forall k | 0 <= k < i :: rows[k].id in byID && byID[rows[k].id] == rows[k]
    {
      byID := byID[rows[i].id := rows[i]];
    }
  }

  /** priceLines: two batched queries, two maps, one pass; as good as looking up each item alone. */
  method PriceLines(catalog: Catalog, items: seq<Item>) returns (out: seq<PricedLine>)
    requires ValidCatalog(catalog)
    ensures out == PriceEach(catalog, items) && LinesOf(catalog, items, out)
  {
    LinesShowCatalog(catalog, items);
    hide Named, LineOf, LinesOf;
    var productIDs, comboIDs := [], [];
    for i := 0 to |items|
      invariant forall k | 0 <= k < i && items[k].lineType.ProductLine? && items[k].productId.Some? ::
                  items[k].productId.value in productIDs
      invariant forall k | 0 <= k < i && items[k].lineType.ComboLine? && items[k].comboId.Some? ::
                  items[k].comboId.value in comboIDs
    {
      var item := items[i];
      match item.lineType {
        case ProductLine =>
          if item.productId.Some? {
            productIDs := productIDs + [item.productId.value];
          }
        case ComboLine =>
          if item.comboId.Some? {
            comboIDs := comboIDs + [item.comboId.value];
          }
        case UnknownLine =>
      }
    }
    var products := RowsByIDs(catalog.products, productIDs);
    var combos := RowsByIDs(catalog.combos, comboIDs);
    var productByID := IndexRows(products);
    var comboByID := IndexRows(combos);
    out := [];
    for i := 0 to |items|
      invariant out == PriceEach(catalog, items[..i])
    {
      var item := items[i];
      assert items[..i + 1] == items[..i] + [item];
      PriceEachAppends(catalog, items[..i], item);
      var line := UnavailableLine(item);
      match item.lineType {
        case ProductLine =>
          if item.productId.None? {
            continue;
          }
          if item.productId.value in productByID {
            var product := productByID[item.productId.value];
            line := PricedLine(item, product.name, product.slug, product.priceCents,
                               Wrap(product.priceCents * item.quantity), true);
          }
        case ComboLine =>
          if item.comboId.None? {
            continue;
          }
          if item.comboId.value in comboByID {
            var combo := comboByID[item.comboId.value];
            line := PricedLine(item, combo.name, combo.slug, combo.priceCents,
                               Wrap(combo.priceCents * item.quantity), true);
          }
        case UnknownLine =>
      }
      assert PriceEach(catalog, [item]) == [line];
      out := out + [line];
    }
    assert items[..|items|] == items;
  }

  // ---------------------------------------------------------------------------------------
  // Totals
  // ---------------------------------------------------------------------------------------

  /** The mathematical sum of the lines that can be sold. */
  function Sum(lines: seq<PricedLine>): int {
    if lines == [] then 0
    else Sum(lines[..|lines| - 1])
         + (if lines[|lines| - 1].isAvailable then lines[|lines| - 1].lineTotalCents else 0)
  }

  predicate SomeAvailable(lines: seq<PricedLine>) {
    exists line | line in lines :: line.isAvailable
  }

  predicate AllAvailable(lines: seq<PricedLine>) {
    forall line | line in lines :: line.isAvailable
  }

  const NO_TOTALS := Totals(0, 0, 0, false)

  function Summary(lines: seq<PricedLine>, code: Option<Code>, now: int): Totals {
    var subtotal := Wrap(Sum(lines));
    if subtotal == 0 then NO_TOTALS
    else
      var discount :=
        if code.Some? && Redeemable(code, now, subtotal).None? then DiscountCents(code.value, subtotal)
        else 0;
      var total := Wrap(subtotal - discount);
      Totals(subtotal, discount, if total < 0 then 0 else total, SomeAvailable(lines))
  }

  function Min(a: int, b: int): int {
    if a < b then a else b
  }

  /** The fields that make a code redeemable on a subtotal at an instant. */
  predicate Applies(c: Code, now: int, subtotal: int) {
    && !c.deleted && c.isActive && c.startsAt <= now < c.endsAt
    && (c.maxUses.Some? ==> c.usedCount < c.maxUses.value)
    && (c.minOrderCents.Some? ==> c.minOrderCents.value <= subtotal)
  }

  /** What a code takes off, in plain integers. */
  function Taken(c: Code, subtotal: int): int {
    match c.discountType
    case FixedCents => Min(c.value, subtotal)
    case Percent =>
      if c.maxDiscountCents.Some? then Min(subtotal * c.value / 100, c.maxDiscountCents.value)
      else subtotal * c.value / 100
  }

  lemma RedeemableMeans(code: Option<Code>, now: int, subtotal: int)
    ensures Redeemable(code, now, subtotal).None? <==> code.Some? && Applies(code.value, now, subtotal)
  {
  }

  /** Each refusal, by the first condition that fails. */
  lemma RefusalMeans(code: Option<Code>, now: int, subtotal: int)
    ensures Redeemable(code, now, subtotal) == Some(CodeNotFound) <==> code.None? || code.value.deleted
    ensures code.Some? && !code.value.deleted ==>
              var c, refusal := code.value, Redeemable(code, now, subtotal);
              && (refusal == Some(Inactive) <==> !c.isActive)
              && (c.isActive ==> (refusal == Some(Expired) <==> now < c.startsAt || c.endsAt <= now))
              && (c.isActive && c.startsAt <= now < c.endsAt ==>
                    && (refusal == Some(Exhausted) <==> c.maxUses.Some? && c.usedCount >= c.maxUses.value)
                    && (refusal == Some(MinOrderNotMet)
                        <==> (c.maxUses.Some? ==> c.usedCount < c.maxUses.value)
                             && c.minOrderCents.Some? && subtotal < c.minOrderCents.value))
  {
  }

  /**
   The totals by the fields of the code: a code that applies takes what it takes, any other takes
   nothing, and the cart is ready when something in it can be sold for a non-zero sum.
   */
  lemma SummaryMeans(lines: seq<PricedLine>, code: Option<Code>, now: int)
    requires code.Some? ==> ValidCode(code.value)
    ensures var t := Summary(lines, code, now);
            var subtotal := Wrap(Sum(lines));
            && t.subtotalCents == subtotal
            && (t.checkoutReady <==> subtotal != 0 && exists line | line in lines :: line.isAvailable)
            && (!(code.Some? && Applies(code.value, now, subtotal)) ==> t.discountCents == 0)
            && (0 <= subtotal && FitsInt64(subtotal * 100) ==>
                  && t.totalCents == subtotal - t.discountCents
                  && (subtotal != 0 && code.Some? && Applies(code.value, now, subtotal) ==>
                        t.discountCents == Taken(code.value, subtotal)))
  {
    var subtotal := Wrap(Sum(lines));
    RedeemableMeans(code, now, subtotal);
    if code.Some? && 0 < subtotal && FitsInt64(subtotal * 100) {
      hide Redeemable, Applies, Sum;
      DiscountBound(code.value, subtotal);
    }
  }

  /** Wrapping at every addition is wrapping once at the end. */
  lemma WrapAdds(a: int, b: int)
    ensures Wrap(Wrap(a) + b) == Wrap(a + b)
  {
    var k := (a + TWO_63) / TWO_64;
    assert Wrap(a) == a - k * TWO_64;
    WrapShifts(a + b, -k);
  }

  lemma WrapShifts(x: int, k: int)
    ensures Wrap(x + k * TWO_64) == Wrap(x)
  {
    var q, r := (x + TWO_63) / TWO_64, (x + TWO_63) % TWO_64;
    assert x + k * TWO_64 + TWO_63 == (q + k) * TWO_64 + r;
  }

  /** summarizeCart. */
  method SummarizeCart(lines: seq<PricedLine>, code: Option<Code>, now: int) returns (totals: Totals)
    ensures totals == Summary(lines, code, now)
  {
    var subtotal, checkoutReady := 0, false;
    for i := 0 to |lines|
      invariant subtotal == Wrap(Sum(lines[..i]))
      invariant checkoutReady == SomeAvailable(lines[..i])
    {
      assert lines[..i + 1] == lines[..i] + [lines[i]];
      assert lines[..i + 1][..i] == lines[..i];
      if !lines[i].isAvailable {
        continue;
      }
      WrapAdds(Sum(lines[..i]), lines[i].lineTotalCents);
      subtotal := Wrap(subtotal + lines[i].lineTotalCents);
      checkoutReady := true;
      assert lines[i] in lines[..i + 1];
    }
    assert lines[..|lines|] == lines;
    if subtotal == 0 {
      return NO_TOTALS;
    }
    var discountCents := 0;
    if code.Some? {
      if Redeemable(code, now, subtotal).None? {
        discountCents := DiscountCents(code.value, subtotal);
      }
    }
    var total := Wrap(subtotal - discountCents);
    if total < 0 {
      total := 0;
    }
    return Totals(subtotal, discountCents, total, checkoutReady);
  }

  // ---------------------------------------------------------------------------------------
  // Where no step leaves int64.
  // ---------------------------------------------------------------------------------------

  const MAX_LINES := 50
  const MAX_QUANTITY := 99

  /** The largest unit price for which a full cart cannot overflow, percent product included. */
  const MAX_EXACT_PRICE := 18_633_074_821_928

  predicate Affordable(line: PricedLine) {
    && 0 <= line.unitPriceCents <= MAX_EXACT_PRICE
    && 1 <= line.item.quantity <= MAX_QUANTITY
    && line.lineTotalCents == Wrap(line.unitPriceCents * line.item.quantity)
  }

  /** Σ unit price × quantity over the lines that can be sold, in plain integers. */
  function ExactSum(lines: seq<PricedLine>): int {
    if lines == [] then 0
    else
      var line := lines[|lines| - 1];
      ExactSum(lines[..|lines| - 1])
      + (if line.isAvailable then line.unitPriceCents * line.item.quantity else 0)
  }

  lemma ProductBound(p: int, q: int, pMax: int, qMax: int)
    requires 0 <= p <= pMax && 0 <= q <= qMax
    ensures 0 <= p * q <= pMax * qMax
  {
    assert p * q <= pMax * q <= pMax * qMax;
  }

  lemma LineBound(line: PricedLine)
    requires Affordable(line)
    ensures 0 <= line.unitPriceCents * line.item.quantity <= MAX_EXACT_PRICE * MAX_QUANTITY
    ensures line.lineTotalCents == line.unitPriceCents * line.item.quantity
  {
    ProductBound(line.unitPriceCents, line.item.quantity, MAX_EXACT_PRICE, MAX_QUANTITY);
  }

  lemma {:induction false} SumBound(lines: seq<PricedLine>)
    requires forall line | line in lines :: Affordable(line)
    ensures 0 <= Sum(lines) <= |lines| * (MAX_EXACT_PRICE * MAX_QUANTITY)
    ensures Sum(lines) == ExactSum(lines)
  {
    if lines != [] {
      SumBound(lines[..|lines| - 1]);
      assert lines[|lines| - 1] in lines;
      LineBound(lines[|lines| - 1]);
    }
  }

  /**
   A valid code takes its percentage of the subtotal rounded down, or its fixed amount, never more
   than its cap or the subtotal; the percent product fits.
   */
  lemma DiscountBound(c: Code, subtotal: int)
    requires ValidCode(c) && 0 < subtotal && FitsInt64(subtotal * 100)
    ensures 0 <= DiscountCents(c, subtotal) <= subtotal
    ensures c.discountType.Percent? ==>
              FitsInt64(subtotal * c.value)
    ensures DiscountCents(c, subtotal) == Taken(c, subtotal)
  {
    if c.discountType.Percent? {
      ProductBound(subtotal, c.value, subtotal, 100);
      PercentBound(subtotal * c.value, subtotal);
    }
  }

  lemma PercentBound(product: int, subtotal: int)
    requires 0 <= product <= subtotal * 100
    ensures 0 <= product / 100 <= subtotal
  {
  }

  /** Every sum the loop passes through fits, as a prefix of a cart in range is one. */
  lemma PrefixFits(lines: seq<PricedLine>, n: nat)
    requires n <= |lines| <= MAX_LINES && forall line | line in lines :: Affordable(line)
    ensures 0 <= Sum(lines[..n]) && FitsInt64(Sum(lines[..n]) * 100)
  {
    var bound := MAX_EXACT_PRICE * MAX_QUANTITY;
    SumBound(lines[..n]);
    assert n * bound <= MAX_LINES * bound;
  }

  /** A computed percentage product fits. */
  predicate PercentFits(code: Option<Code>, subtotal: int) {
    code.Some? && code.value.discountType.Percent? ==> FitsInt64(subtotal * code.value.value)
  }

  /**
   With at most 50 lines of at most 99 units at at most MAX_EXACT_PRICE cents, every line total,
   running sum and percentage product is the mathematical one, and the totals balance.
   */
  lemma TotalsAreExact(lines: seq<PricedLine>, code: Option<Code>, now: int)
    requires |lines| <= MAX_LINES && forall line | line in lines :: Affordable(line)
    requires code.Some? ==> ValidCode(code.value)
    ensures forall line | line in lines :: line.lineTotalCents == line.unitPriceCents * line.item.quantity
    ensures forall n | 0 <= n <= |lines| :: FitsInt64(Sum(lines[..n]))
    ensures var t := Summary(lines, code, now);
            && t.subtotalCents == ExactSum(lines)
            && 0 <= t.discountCents <= t.subtotalCents
            && t.totalCents == t.subtotalCents - t.discountCents
            && PercentFits(code, t.subtotalCents)
  {
    forall line | line in lines ensures line.lineTotalCents == line.unitPriceCents * line.item.quantity {
      LineBound(line);
    }
    forall n | 0 <= n <= |lines| ensures FitsInt64(Sum(lines[..n])) {
      PrefixFits(lines, n);
    }
    PrefixFits(lines, |lines|);
    assert lines[..|lines|] == lines;
    SumBound(lines);
    if code.Some? && Sum(lines) > 0 {
      hide DiscountCents, Redeemable, Sum, ExactSum, Affordable;
      DiscountBound(code.value, Sum(lines));
    }
  }

  /** One cent more and a full cart at one hundred percent leaves int64. */
  lemma ExactPriceIsTight()
    ensures FitsInt64(MAX_LINES * MAX_QUANTITY * MAX_EXACT_PRICE * 100)
    ensures !FitsInt64(MAX_LINES * MAX_QUANTITY * (MAX_EXACT_PRICE + 1) * 100)
  {
  }
}
