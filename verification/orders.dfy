/** Checkout (backend orders/orders.service.ts): `createOrder` and its seven
    steps, run inside one database transaction. The database is the
    inventory store and the orders by id; every step maps the in-transaction
    database to its next state, and a failure anywhere hands back the
    database as it was before the call (the rollback). The clock readings,
    the random order-number text, the new order's id and the payment gateway
    are parameters gathered in `Env`. */
module Orders {
  import opened Wrappers
  import opened Clock
  import Discounts
  import Inventory
  import OrderNumber

  type Id = string

  datatype OrderStatus = Pending | Confirmed | Fulfilled | Cancelled

  datatype HistoryEntry = HistoryEntry(status: OrderStatus, timestamp: string, note: Option<string>)

  /** The `statusHistory` column as the database hands it back: a list of
      entries, or anything else. */
  datatype StoredHistory = Entries(entries: seq<HistoryEntry>) | NotAList

  /** Snapshot of one purchased line, taken when the order is created. */
  datatype OrderItem = OrderItem(
    productId: Id,
    productTitle: string,
    productBrand: Option<string>,
    unitPrice: real,
    quantity: int,
    lineTotal: real)

  datatype Order = Order(
    orderNumber: string,
    buyerId: string,
    subtotal: real,
    discountCode: Option<string>,
    discountAmount: real,
    total: real,
    currency: string,
    status: OrderStatus,
    paymentAuthId: Option<string>,
    fulfilledAt: Option<Instant>,
    statusHistory: StoredHistory,
    items: seq<OrderItem>)

  datatype Db = Db(inventory: Inventory.Store, orders: map<Id, Order>)

  /** One requested line of the request body. */
  datatype LineRequest = LineRequest(productId: Id, quantity: int)

  datatype OrderRequest = OrderRequest(items: Option<seq<LineRequest>>, discountCode: Option<string>)

  /** The error codes the payment type declares. */
  datatype PaymentError =
    | InsufficientFunds | CardDeclined | ExpiredCard | InvalidCard
    | FraudDetected | NetworkError | UnknownError

  /** What the payment gateway answers. */
  datatype PaymentResponse = Authorized(authorizationId: string) | Declined(error: PaymentError)

  datatype OrderError =
    | EmptyOrder
    | NotAvailable(productId: Id)                  // missing or not LISTED when the products are fetched
    | NoPrice(productId: Id)                       // LISTED without a (truthy) resale price
    | ProductNotFound(productId: Id)               // inventory validation
    | ProductNotListed(productId: Id)
    | InsufficientStock(productId: Id, available: int, requested: int)
    | InvalidQuantity(productId: Id)               // only raised by the corrected stock check
    | OrderNotFound
    | PaymentFailed(error: PaymentError)

  /** Everything the transaction takes from outside the database: the id the
      database gives the new order, the clock readings of the `new Date()`
      calls in the order they happen, the base-36 text of the random suffix,
      the position in the database's answer of the product whose currency
      the order takes, and the payment gateway. */
  datatype Env = Env(
    orderId: Id,
    numberedAt: Instant,
    randomText: string,
    createdAt: Instant,
    firstRow: nat,
    discountAt: Instant,
    authorize: (Id, real, string) -> PaymentResponse,
    fulfilledStamp: Instant,
    fulfilledAt: Instant)

  /** The readings rendered as ISO text lie in the four-digit years. */
  predicate ValidEnv(env: Env) {
    Valid(env.numberedAt) && Valid(env.createdAt) && Valid(env.fulfilledStamp)
  }

  const CreatedNote := "Order created"
  const FulfilledNote := "Order fulfilled and ready for delivery"
  const DefaultCurrency := "ZAR"

  // ---------------------------------------------------------------------
  // Status history
  // ---------------------------------------------------------------------

  /** `parseStatusHistory` on a value that is not a string: a list comes
      back as it is, anything else as the empty list. */
  function ParseStatusHistory(h: StoredHistory): (es: seq<HistoryEntry>)
    ensures h.Entries? ==> es == h.entries
    ensures h.NotAList? ==> es == []
  {
    match h
    case Entries(es) => es
    case NotAList => []
  }

  /** Storing a parsed history and parsing it again changes nothing. */
  lemma ParseStatusHistoryIdempotent(h: StoredHistory)
    ensures ParseStatusHistory(Entries(ParseStatusHistory(h))) == ParseStatusHistory(h)
  {
  }

  /** The statuses a history records, in order. */
  function Statuses(es: seq<HistoryEntry>): (ss: seq<OrderStatus>)
    ensures |ss| == |es|
    ensures forall i :: 0 <= i < |es| ==> ss[i] == es[i].status
  {
    seq(|es|, i requires 0 <= i < |es| => es[i].status)
  }

  // ---------------------------------------------------------------------
  // First failing line
  // ---------------------------------------------------------------------

  /** The index of the first element `bad` selects, or `|xs|` when there is
      none: where a loop that throws on the first bad element stops. */
  function FirstIndex<T>(xs: seq<T>, bad: T -> bool): (k: nat)
    ensures k <= |xs|
    ensures forall i :: 0 <= i < k ==> !bad(xs[i])
    ensures k < |xs| ==> bad(xs[k])
  {
    if xs == [] then 0
    else if bad(xs[0]) then 0
    else 1 + FirstIndex(xs[1..], bad)
  }

  // ---------------------------------------------------------------------
  // Fetching the products (`fetchProducts`)
  // ---------------------------------------------------------------------

  /** `!product.resalePrice`: a missing price and a price of 0 are both
      falsy. */
  predicate HasPrice(item: Inventory.Item) {
    item.resalePrice.Some? && item.resalePrice.value != 0.0
  }

  /** A product a line may buy: present, LISTED and priced. */
  predicate Purchasable(store: Inventory.Store, id: Id) {
    id in store && store[id].status == Inventory.Listed && HasPrice(store[id])
  }

  predicate AllPurchasable(store: Inventory.Store, lines: seq<LineRequest>) {
    forall i :: 0 <= i < |lines| ==> Purchasable(store, lines[i].productId)
  }

  function ProductIds(lines: seq<LineRequest>): set<Id> {
    set i | 0 <= i < |lines| :: lines[i].productId
  }

  /** The `findMany` of the requested ids restricted to LISTED items, keyed
      by id. */
  function ListedProducts(store: Inventory.Store, lines: seq<LineRequest>): map<Id, Inventory.Item> {
    map id | id in ProductIds(lines) && id in store && store[id].status == Inventory.Listed :: store[id]
  }

  predicate Resolves(products: map<Id, Inventory.Item>, l: LineRequest) {
    l.productId in products && HasPrice(products[l.productId])
  }

  /** The error of the first line that does not resolve. */
  function UnavailableError(store: Inventory.Store, id: Id): OrderError {
    if id in store && store[id].status == Inventory.Listed then NoPrice(id) else NotAvailable(id)
  }

  /** `fetchProducts`: the LISTED products of the request, or the error of
      the first line whose product is missing, unlisted or unpriced. */
  function FetchProducts(store: Inventory.Store, lines: seq<LineRequest>): (r: Result<map<Id, Inventory.Item>, OrderError>)
    ensures r.Success? <==> AllPurchasable(store, lines)
    ensures r.Success? ==> forall i :: 0 <= i < |lines| ==>
              lines[i].productId in r.value && r.value[lines[i].productId] == store[lines[i].productId]
    ensures r.Failure? ==>
              exists k :: 0 <= k < |lines|
                && (forall i :: 0 <= i < k ==> Purchasable(store, lines[i].productId))
                && !Purchasable(store, lines[k].productId)
                && r.error == UnavailableError(store, lines[k].productId)
  {
    var products := ListedProducts(store, lines);
    assert forall i :: 0 <= i < |lines| ==> lines[i].productId in ProductIds(lines);
    var k := FirstIndex(lines, (l: LineRequest) => !Resolves(products, l));
    if k == |lines| then Success(products)
    else if lines[k].productId in products then Failure(NoPrice(lines[k].productId))
    else Failure(NotAvailable(lines[k].productId))
  }

  // ---------------------------------------------------------------------
  // Step 1: the PENDING order
  // ---------------------------------------------------------------------

  /** The snapshot lines: the product's title, brand and price, and
      `lineTotal = resalePrice * quantity`. */
  function OrderItems(products: map<Id, Inventory.Item>, lines: seq<LineRequest>): (items: seq<OrderItem>)
    requires forall i :: 0 <= i < |lines| ==> Resolves(products, lines[i])
    ensures |items| == |lines|
  {
    seq(|lines|, i requires 0 <= i < |lines| =>
      assert Resolves(products, lines[i]);
      var p := products[lines[i].productId];
      OrderItem(lines[i].productId, p.title, p.brand, p.resalePrice.value,
                lines[i].quantity, p.resalePrice.value * lines[i].quantity as real))
  }

  /** The `reduce` of the line totals, from 0, left to right. */
  function Subtotal(items: seq<OrderItem>): real {
    if items == [] then 0.0 else Subtotal(items[..|items| - 1]) + items[|items| - 1].lineTotal
  }

  /** The `{productId, quantity}` pairs steps 2 and 6 walk over. */
  function Requests(items: seq<OrderItem>): (lines: seq<LineRequest>)
    ensures |lines| == |items|
  {
    seq(|items|, i requires 0 <= i < |items| => LineRequest(items[i].productId, items[i].quantity))
  }

  /** `products.values().next().value?.currency || 'ZAR'`: the currency of
      the product the database returned first (`firstRow` picks which of
      the order's products that is), or ZAR when it is empty. */
  function OrderCurrency(products: map<Id, Inventory.Item>, lines: seq<LineRequest>, firstRow: nat): (c: string)
    requires |lines| > 0 && forall i :: 0 <= i < |lines| ==> Resolves(products, lines[i])
    ensures c != []
  {
    assert Resolves(products, lines[firstRow % |lines|]);
    var first := products[lines[firstRow % |lines|].productId].currency;
    if first == [] then DefaultCurrency else first
  }

  /** The order step 1 records. */
  function PendingOrder(products: map<Id, Inventory.Item>, buyerId: string, lines: seq<LineRequest>, env: Env): (o: Order)
    requires |lines| > 0 && ValidEnv(env)
    requires forall i :: 0 <= i < |lines| ==> Resolves(products, lines[i])
  {
    var items := OrderItems(products, lines);
    var subtotal := Subtotal(items);
    Order(OrderNumber.GenerateOrderNumber(env.numberedAt, env.randomText), buyerId,
          subtotal, None, 0.0, subtotal, OrderCurrency(products, lines, env.firstRow),
          Pending, None, None,
          Entries([HistoryEntry(Pending, ToIso(env.createdAt), Some(CreatedNote))]),
          items)
  }

  /** `step1_createOrder`. */
  function CreatePendingOrder(db: Db, buyerId: string, lines: seq<LineRequest>, env: Env): (r: Result<Db, OrderError>)
    requires |lines| > 0 && ValidEnv(env)
  {
    match FetchProducts(db.inventory, lines)
    case Failure(e) => Failure(e)
    case Success(products) =>
      Success(db.(orders := db.orders[env.orderId := PendingOrder(products, buyerId, lines, env)]))
  }

  // ---------------------------------------------------------------------
  // Step 2: the stock check
  // ---------------------------------------------------------------------

  /** What `step2_validateInventory` throws for one line, if anything. */
  function StockProblem(store: Inventory.Store, l: LineRequest): Option<OrderError> {
    if l.productId !in store then Some(ProductNotFound(l.productId))
    else if store[l.productId].status != Inventory.Listed then Some(ProductNotListed(l.productId))
    else if store[l.productId].quantity < l.quantity then
      Some(InsufficientStock(l.productId, store[l.productId].quantity, l.quantity))
    else None
  }

  /** The units of `id` the lines ask for, over all lines. */
  function TotalRequested(lines: seq<LineRequest>, id: Id): int {
    if lines == [] then 0
    else (if lines[0].productId == id then lines[0].quantity else 0) + TotalRequested(lines[1..], id)
  }

  /** The corrected check for one line: a positive quantity, and stock for
      everything the order asks of that product. */
  function TotalsProblem(store: Inventory.Store, lines: seq<LineRequest>, l: LineRequest): Option<OrderError> {
    if l.quantity <= 0 then Some(InvalidQuantity(l.productId))
    else StockProblem(store, LineRequest(l.productId, TotalRequested(lines, l.productId)))
  }

  function LineProblem(store: Inventory.Store, lines: seq<LineRequest>, l: LineRequest, corrected: bool): Option<OrderError> {
    if corrected then TotalsProblem(store, lines, l) else StockProblem(store, l)
  }

  /** Step 2: the problem of the first line that has one. `corrected`
      selects the per-product check instead of the per-line one. */
  function CheckInventory(store: Inventory.Store, lines: seq<LineRequest>, corrected: bool): (e: Option<OrderError>)
    ensures e.None? <==> forall i :: 0 <= i < |lines| ==> LineProblem(store, lines, lines[i], corrected).None?
    ensures e.Some? ==>
              exists k :: 0 <= k < |lines|
                && (forall i :: 0 <= i < k ==> LineProblem(store, lines, lines[i], corrected).None?)
                && e == LineProblem(store, lines, lines[k], corrected)
  {
    var k := FirstIndex(lines, (l: LineRequest) => LineProblem(store, lines, l, corrected).Some?);
    if k == |lines| then None else LineProblem(store, lines, lines[k], corrected)
  }

  /** A line the per-line check lets through. */
  predicate InStock(store: Inventory.Store, l: LineRequest) {
    l.productId in store && store[l.productId].status == Inventory.Listed
    && store[l.productId].quantity >= l.quantity
  }

  /** `step2_validateInventory` passes exactly when every line, on its own,
      finds its product LISTED with at least the quantity it asks for. */
  lemma ValidateInventoryPerLine(store: Inventory.Store, lines: seq<LineRequest>)
    ensures CheckInventory(store, lines, false).None? <==> forall i :: 0 <= i < |lines| ==> InStock(store, lines[i])
  {
    assert forall i :: 0 <= i < |lines| ==> (LineProblem(store, lines, lines[i], false).None? <==> InStock(store, lines[i]));
  }

  // ---------------------------------------------------------------------
  // Steps 3 to 7
  // ---------------------------------------------------------------------

  /** `step3_validatePricing`: the discount of the order's subtotal. */
  function ValidatePricing(db: Db, id: Id, code: Option<string>, now: Instant): (r: Result<Db, OrderError>)
  {
    if id !in db.orders then Failure(OrderNotFound)
    else
      var o := db.orders[id];
      var p := Discounts.ApplyDiscount(o.subtotal, code, now);
      Success(db.(orders := db.orders[id := o.(discountCode := p.discountCode, discountAmount := p.discountAmount, total := p.total)]))
  }

  /** `step4_authorizePayment`: the gateway is asked for the order's total
      in its currency; a decline aborts, an authorization is recorded. */
  function AuthorizePayment(db: Db, id: Id, authorize: (Id, real, string) -> PaymentResponse): (r: Result<Db, OrderError>)
    requires id in db.orders
  {
    var o := db.orders[id];
    match authorize(id, o.total, o.currency)
    case Declined(e) => Failure(PaymentFailed(e))
    case Authorized(auth) => Success(db.(orders := db.orders[id := o.(paymentAuthId := Some(auth))]))
  }

  /** `step5_confirmOrder`. */
  function ConfirmOrder(db: Db, id: Id): Db
    requires id in db.orders
  {
    db.(orders := db.orders[id := db.orders[id].(status := Confirmed)])
  }

  /** `step6_deductInventory`: one unconditional decrement per line, in
      order. */
  function DeductInventory(store: Inventory.Store, lines: seq<LineRequest>): (s: Inventory.Store)
    requires LinesInStore(store, lines)
    ensures s.Keys == store.Keys
  {
    if lines == [] then store
    else
      var id := lines[0].productId;
      assert forall i :: 0 <= i < |lines[1..]| ==> lines[1..][i] == lines[i + 1];
      DeductInventory(store[id := store[id].(quantity := store[id].quantity - lines[0].quantity)], lines[1..])
  }

  /** `step7_fulfillOrder`: FULFILLED, stamped, and one more history
      entry. The answer carries the parsed history. */
  function FulfillOrder(db: Db, id: Id, stamp: Instant, at: Instant): (r: Result<(Order, Db), OrderError>)
    requires Valid(stamp)
  {
    if id !in db.orders then Failure(OrderNotFound)
    else
      var o := db.orders[id];
      var history := ParseStatusHistory(o.statusHistory) + [HistoryEntry(Fulfilled, ToIso(stamp), Some(FulfilledNote))];
      var o' := o.(status := Fulfilled, fulfilledAt := Some(at), statusHistory := Entries(history));
      Success((o', db.(orders := db.orders[id := o'])))
  }

  // ---------------------------------------------------------------------
  // The transaction
  // ---------------------------------------------------------------------

  /** The seven steps inside the transaction, on a non-empty request. */
  function RunSteps(db: Db, buyerId: string, lines: seq<LineRequest>, code: Option<string>, env: Env, corrected: bool): (r: Result<(Order, Db), OrderError>)
    requires |lines| > 0 && ValidEnv(env)
  {
    match CreatePendingOrder(db, buyerId, lines, env)
    case Failure(e) => Failure(e)
    case Success(db1) =>
      var items := db1.orders[env.orderId].items;
      match CheckInventory(db1.inventory, Requests(items), corrected)
      case Some(e) => Failure(e)
      case None =>
        StockCheckedLinesExist(db1.inventory, Requests(items), corrected);
        Settle(db1, env.orderId, code, env)
  }

  /** Every line names a product in the store. */
  predicate LinesInStore(store: Inventory.Store, lines: seq<LineRequest>) {
    forall i :: 0 <= i < |lines| ==> lines[i].productId in store
  }

  /** Steps 3 to 7, once the stock check has passed. */
  function Settle(db: Db, id: Id, code: Option<string>, env: Env): Result<(Order, Db), OrderError>
    requires ValidEnv(env) && id in db.orders
    requires LinesInStore(db.inventory, Requests(db.orders[id].items))
  {
    match ValidatePricing(db, id, code, env.discountAt)
    case Failure(e) => Failure(e)
    case Success(db3) =>
      match AuthorizePayment(db3, id, env.authorize)
      case Failure(e) => Failure(e)
      case Success(db4) =>
        var db5 := ConfirmOrder(db4, id);
        var db6 := db5.(inventory := DeductInventory(db5.inventory, Requests(db5.orders[id].items)));
        FulfillOrder(db6, id, env.fulfilledStamp, env.fulfilledAt)
  }

  /** A line that passes either stock check names a product in the store. */
  lemma StockCheckedLinesExist(store: Inventory.Store, lines: seq<LineRequest>, corrected: bool)
    requires CheckInventory(store, lines, corrected).None?
    ensures LinesInStore(store, lines)
  {
    forall i | 0 <= i < |lines|
      ensures lines[i].productId in store
    {
      assert LineProblem(store, lines, lines[i], corrected).None?;
    }
  }

  /** `createOrder`: an empty or missing list of items is refused before the
      transaction starts; inside it, any failing step rolls every change
      back. `orderId` is the fresh id the database assigns the new order, so
      a checkout adds one order and leaves every existing one as it was. */
  function CreateOrder(db: Db, buyerId: string, request: OrderRequest, env: Env): (r: (Result<Order, OrderError>, Db))
    requires ValidEnv(env) && env.orderId !in db.orders
    ensures r.0 == Failure(EmptyOrder) <==> request.items.None? || request.items.value == []
    ensures r.0.Failure? ==> r.1 == db
    ensures r.0.Success? ==> r.1.orders.Keys == db.orders.Keys + {env.orderId} && r.1.orders[env.orderId] == r.0.value
    ensures forall id :: id in db.orders ==> id in r.1.orders && r.1.orders[id] == db.orders[id]
    ensures request.items.Some? && request.items.value != [] ==>
              r == Commit(db, Expected(db, buyerId, request.items.value, request.discountCode, env, false))
  {
    var r := Transaction(db, buyerId, request, env, false);
    if r.0.Success? then
      FreshOrderAdded(db.orders, env.orderId, r.0.value);
      r
    else r
  }

  /** `createOrder` with the stock check corrected to count every line of
      a product and refuse non-positive quantities. */
  function CreateOrderChecked(db: Db, buyerId: string, request: OrderRequest, env: Env): (r: (Result<Order, OrderError>, Db))
    requires ValidEnv(env) && env.orderId !in db.orders
    ensures r.0 == Failure(EmptyOrder) <==> request.items.None? || request.items.value == []
    ensures r.0.Failure? ==> r.1 == db
    ensures r.0.Success? ==> r.1.orders.Keys == db.orders.Keys + {env.orderId} && r.1.orders[env.orderId] == r.0.value
    ensures forall id :: id in db.orders ==> id in r.1.orders && r.1.orders[id] == db.orders[id]
    ensures request.items.Some? && request.items.value != [] ==>
              r == Commit(db, Expected(db, buyerId, request.items.value, request.discountCode, env, true))
  {
    var r := Transaction(db, buyerId, request, env, true);
    if r.0.Success? then
      FreshOrderAdded(db.orders, env.orderId, r.0.value);
      r
    else r
  }

  /** Storing an order under a fresh id adds it and keeps every other order. */
  lemma FreshOrderAdded(orders: map<Id, Order>, id: Id, o: Order)
    requires id !in orders
    ensures orders[id := o].Keys == orders.Keys + {id} && orders[id := o][id] == o
    ensures forall k :: k in orders ==> k in orders[id := o] && orders[id := o][k] == orders[k]
  {
  }

  /** A transaction's answer: the order and the committed database, or the
      error and the database as it was. */
  function Commit(db: Db, outcome: Result<(Order, Db), OrderError>): (Result<Order, OrderError>, Db) {
    match outcome
    case Failure(e) => (Failure(e), db)
    case Success((o, db')) => (Success(o), db')
  }

  function Transaction(db: Db, buyerId: string, request: OrderRequest, env: Env, corrected: bool): (r: (Result<Order, OrderError>, Db))
    requires ValidEnv(env)
    ensures r.0 == Failure(EmptyOrder) <==> request.items.None? || request.items.value == []
    ensures r.0.Failure? ==> r.1 == db
    ensures r.0.Success? ==> r.1.orders == db.orders[env.orderId := r.0.value]
    ensures request.items.Some? && request.items.value != [] ==>
              r == Commit(db, Expected(db, buyerId, request.items.value, request.discountCode, env, corrected))
  {
    if request.items.None? || request.items.value == [] then (Failure(EmptyOrder), db)
    else
      RunStepsIsExpected(db, buyerId, request.items.value, request.discountCode, env, corrected);
      ExpectedNeverEmpty(db, buyerId, request.items.value, request.discountCode, env, corrected);
      Commit(db, RunSteps(db, buyerId, request.items.value, request.discountCode, env, corrected))
  }

  // ---------------------------------------------------------------------
  // What a checkout computes, stated from the request and the store
  // ---------------------------------------------------------------------

  /** Fetching resolves every line to its stored product. */
  lemma FetchedProductsResolve(store: Inventory.Store, lines: seq<LineRequest>)
    requires AllPurchasable(store, lines)
    ensures forall i :: 0 <= i < |lines| ==> Resolves(ListedProducts(store, lines), lines[i])
    ensures forall i :: 0 <= i < |lines| ==> ListedProducts(store, lines)[lines[i].productId] == store[lines[i].productId]
  {
    assert forall i :: 0 <= i < |lines| ==> lines[i].productId in ProductIds(lines);
  }

  /** The snapshot lines of a request whose products all resolve: each
      line copies its product's title, brand and resale price, and its
      total is that price times the quantity. */
  function Snapshot(store: Inventory.Store, lines: seq<LineRequest>): (items: seq<OrderItem>)
    requires AllPurchasable(store, lines)
    ensures |items| == |lines|
    ensures forall i :: 0 <= i < |lines| ==>
              && items[i].productId == lines[i].productId
              && items[i].quantity == lines[i].quantity
              && items[i].productTitle == store[lines[i].productId].title
              && items[i].productBrand == store[lines[i].productId].brand
              && items[i].unitPrice == store[lines[i].productId].resalePrice.value
              && items[i].lineTotal == items[i].unitPrice * lines[i].quantity as real
    ensures Requests(items) == lines
  {
    FetchedProductsResolve(store, lines);
    OrderItems(ListedProducts(store, lines), lines)
  }

  /** The discount the order gets on the subtotal of its lines. */
  function Quote(store: Inventory.Store, lines: seq<LineRequest>, code: Option<string>, now: Instant): Discounts.Pricing
    requires AllPurchasable(store, lines)
  {
    Discounts.ApplyDiscount(Subtotal(Snapshot(store, lines)), code, now)
  }

  function Currency(store: Inventory.Store, lines: seq<LineRequest>, firstRow: nat): string
    requires |lines| > 0 && AllPurchasable(store, lines)
  {
    FetchedProductsResolve(store, lines);
    OrderCurrency(ListedProducts(store, lines), lines, firstRow)
  }

  /** The gateway's answer for a request whose products all resolve: asked
      for the discounted total in the order's currency. */
  function Payment(store: Inventory.Store, lines: seq<LineRequest>, code: Option<string>, env: Env): PaymentResponse
    requires |lines| > 0 && AllPurchasable(store, lines)
  {
    env.authorize(env.orderId, Quote(store, lines, code, env.discountAt).total, Currency(store, lines, env.firstRow))
  }

  /** Every product's stock less everything the lines ask of it. */
  function Decremented(store: Inventory.Store, lines: seq<LineRequest>): Inventory.Store {
    map id | id in store :: store[id].(quantity := store[id].quantity - TotalRequested(lines, id))
  }

  /** The history a fulfilled order carries: created, then fulfilled. */
  function FulfilledHistory(env: Env): seq<HistoryEntry>
    requires ValidEnv(env)
  {
    [HistoryEntry(Pending, ToIso(env.createdAt), Some(CreatedNote)),
     HistoryEntry(Fulfilled, ToIso(env.fulfilledStamp), Some(FulfilledNote))]
  }

  /** After the sequential decrements of step 6 a product has lost the
      total its lines ask for, and kept every other field. */
  lemma {:induction false} DeductAt(store: Inventory.Store, lines: seq<LineRequest>, id: Id)
    requires LinesInStore(store, lines)
    requires id in store
    ensures DeductInventory(store, lines)[id] == store[id].(quantity := store[id].quantity - TotalRequested(lines, id))
  {
    if lines != [] {
      var id0 := lines[0].productId;
      var store' := store[id0 := store[id0].(quantity := store[id0].quantity - lines[0].quantity)];
      var rest := lines[1..];
      assert forall i :: 0 <= i < |rest| ==> rest[i] == lines[i + 1];
      DeductAt(store', rest, id);
      assert TotalRequested(lines, id) == (if id0 == id then lines[0].quantity else 0) + TotalRequested(rest, id);
    }
  }

  /** Step 6 as a whole: each product loses exactly the total its lines ask
      for, and nothing else changes. */
  lemma DeductIsDecrement(store: Inventory.Store, lines: seq<LineRequest>)
    requires LinesInStore(store, lines)
    ensures DeductInventory(store, lines) == Decremented(store, lines)
  {
    forall id | id in store
      ensures DeductInventory(store, lines)[id] == Decremented(store, lines)[id]
    {
      DeductAt(store, lines, id);
    }
  }

  /** A product no line names is not asked for. */
  lemma {:induction false} TotalRequestedAbsent(lines: seq<LineRequest>, id: Id)
    requires forall i :: 0 <= i < |lines| ==> lines[i].productId != id
    ensures TotalRequested(lines, id) == 0
  {
    if lines != [] {
      assert forall i :: 0 <= i < |lines[1..]| ==> lines[1..][i] == lines[i + 1];
      TotalRequestedAbsent(lines[1..], id);
    }
  }

  /** With distinct products, a line's product is asked for exactly that
      line's quantity. */
  lemma {:induction false} TotalRequestedDistinct(lines: seq<LineRequest>, k: nat)
    requires k < |lines|
    requires forall i, j :: 0 <= i < j < |lines| ==> lines[i].productId != lines[j].productId
    ensures TotalRequested(lines, lines[k].productId) == lines[k].quantity
  {
    assert forall i :: 0 <= i < |lines[1..]| ==> lines[1..][i] == lines[i + 1];
    if k == 0 {
      TotalRequestedAbsent(lines[1..], lines[0].productId);
    } else {
      TotalRequestedDistinct(lines[1..], k - 1);
    }
  }

  /** With positive quantities, a product is asked for at least what any
      one of its lines asks. */
  lemma {:induction false} TotalRequestedCoversLine(lines: seq<LineRequest>, k: nat)
    requires k < |lines|
    requires forall i :: 0 <= i < |lines| ==> lines[i].quantity > 0
    ensures TotalRequested(lines, lines[k].productId) >= lines[k].quantity
  {
    assert forall i :: 0 <= i < |lines[1..]| ==> lines[1..][i] == lines[i + 1];
    if k == 0 {
      TotalRequestedNonNegative(lines[1..], lines[0].productId);
    } else {
      TotalRequestedCoversLine(lines[1..], k - 1);
    }
  }

  lemma {:induction false} TotalRequestedNonNegative(lines: seq<LineRequest>, id: Id)
    requires forall i :: 0 <= i < |lines| ==> lines[i].quantity > 0
    ensures TotalRequested(lines, id) >= 0
  {
    if lines != [] {
      assert forall i :: 0 <= i < |lines[1..]| ==> lines[1..][i] == lines[i + 1];
      TotalRequestedNonNegative(lines[1..], id);
    }
  }

  /** The transaction stated directly from the request and the store: the
      first line that does not resolve, then the stock check, then the
      gateway's answer for the discounted total decide; a success is the
      fulfilled order under the new id and every product less what its
      lines ask for. */
  function Expected(db: Db, buyerId: string, lines: seq<LineRequest>, code: Option<string>, env: Env, corrected: bool): Result<(Order, Db), OrderError>
    requires |lines| > 0 && ValidEnv(env)
  {
    var store := db.inventory;
    if !AllPurchasable(store, lines) then Failure(FetchProducts(store, lines).error)
    else if CheckInventory(store, lines, corrected).Some? then Failure(CheckInventory(store, lines, corrected).value)
    else
      match Payment(store, lines, code, env)
      case Declined(e) => Failure(PaymentFailed(e))
      case Authorized(auth) =>
        var o := FulfilledOrder(store, buyerId, lines, code, env, auth);
        Success((o, Db(Decremented(store, lines), db.orders[env.orderId := o])))
  }

  /** The order a successful checkout answers: the snapshot lines, their
      subtotal and its discount, the currency, the authorization and the
      history [PENDING, FULFILLED]. */
  function FulfilledOrder(store: Inventory.Store, buyerId: string, lines: seq<LineRequest>, code: Option<string>, env: Env, auth: string): Order
    requires |lines| > 0 && ValidEnv(env) && AllPurchasable(store, lines)
  {
    var items := Snapshot(store, lines);
    var p := Quote(store, lines, code, env.discountAt);
    Order(OrderNumber.GenerateOrderNumber(env.numberedAt, env.randomText), buyerId,
          Subtotal(items), p.discountCode, p.discountAmount, p.total,
          Currency(store, lines, env.firstRow), Fulfilled, Some(auth), Some(env.fulfilledAt),
          Entries(FulfilledHistory(env)), items)
  }

  /** Only the empty request is refused as empty: no later step fails
      with `EmptyOrder`. */
  lemma ExpectedNeverEmpty(db: Db, buyerId: string, lines: seq<LineRequest>, code: Option<string>, env: Env, corrected: bool)
    requires |lines| > 0 && ValidEnv(env)
    ensures Expected(db, buyerId, lines, code, env, corrected) != Failure(EmptyOrder)
  {
    var store := db.inventory;
    if !AllPurchasable(store, lines) {
      var e := FetchProducts(store, lines).error;
      assert e.NotAvailable? || e.NoPrice?;
    } else if CheckInventory(store, lines, corrected).Some? {
      var k :| 0 <= k < |lines| && CheckInventory(store, lines, corrected) == LineProblem(store, lines, lines[k], corrected);
      assert !LineProblem(store, lines, lines[k], corrected).value.EmptyOrder?;
    }
  }

  /** Step 1 on a request whose products all resolve records the PENDING
      order with the snapshot lines. */
  lemma PendingOrderRecorded(db: Db, buyerId: string, lines: seq<LineRequest>, env: Env)
    requires |lines| > 0 && ValidEnv(env) && AllPurchasable(db.inventory, lines)
    ensures var o := PendingOrder(ListedProducts(db.inventory, lines), buyerId, lines, env);
            && CreatePendingOrder(db, buyerId, lines, env) == Success(db.(orders := db.orders[env.orderId := o]))
            && o.items == Snapshot(db.inventory, lines)
            && o.subtotal == Subtotal(o.items)
            && o.currency == Currency(db.inventory, lines, env.firstRow)
            && o.statusHistory == Entries([HistoryEntry(Pending, ToIso(env.createdAt), Some(CreatedNote))])
  {
    FetchedProductsResolve(db.inventory, lines);
  }

  /** An order after steps 3 to 7 with the gateway's authorization: the
      discount of its subtotal, the authorization id, FULFILLED, and one
      more history entry. */
  function SettledOrder(o: Order, code: Option<string>, env: Env, auth: string): Order
    requires ValidEnv(env)
  {
    var p := Discounts.ApplyDiscount(o.subtotal, code, env.discountAt);
    o.(discountCode := p.discountCode, discountAmount := p.discountAmount, total := p.total,
       paymentAuthId := Some(auth), status := Fulfilled, fulfilledAt := Some(env.fulfilledAt),
       statusHistory := Entries(ParseStatusHistory(o.statusHistory)
                                + [HistoryEntry(Fulfilled, ToIso(env.fulfilledStamp), Some(FulfilledNote))]))
  }

  /** The amount step 4 asks the gateway for: the discounted subtotal. */
  function AskedTotal(o: Order, code: Option<string>, env: Env): real {
    Discounts.ApplyDiscount(o.subtotal, code, env.discountAt).total
  }

  /** Steps 3 to 7 with an authorized payment: the settled order, and the
      inventory after step 6. */
  lemma SettleAuthorized(db: Db, id: Id, code: Option<string>, env: Env, auth: string)
    requires ValidEnv(env) && id in db.orders
    requires LinesInStore(db.inventory, Requests(db.orders[id].items))
    requires env.authorize(id, AskedTotal(db.orders[id], code, env), db.orders[id].currency) == Authorized(auth)
    ensures var f := SettledOrder(db.orders[id], code, env, auth);
            Settle(db, id, code, env) == Success((f, Db(DeductInventory(db.inventory, Requests(db.orders[id].items)), db.orders[id := f])))
  {
    var o := db.orders[id];
    var p := Discounts.ApplyDiscount(o.subtotal, code, env.discountAt);
    var o3 := o.(discountCode := p.discountCode, discountAmount := p.discountAmount, total := p.total);
    var db3 := db.(orders := db.orders[id := o3]);
    assert ValidatePricing(db, id, code, env.discountAt) == Success(db3);
    var o5 := o3.(paymentAuthId := Some(auth), status := Confirmed);
    var db5 := db.(orders := db.orders[id := o5]);
    assert AuthorizePayment(db3, id, env.authorize) == Success(db3.(orders := db3.orders[id := o3.(paymentAuthId := Some(auth))]));
    assert ConfirmOrder(AuthorizePayment(db3, id, env.authorize).value, id) == db5;
    assert db5.orders[id].items == o.items;
    var db6 := db5.(inventory := DeductInventory(db.inventory, Requests(o.items)));
    var f := SettledOrder(o, code, env, auth);
    assert FulfillOrder(db6, id, env.fulfilledStamp, env.fulfilledAt) == Success((f, db6.(orders := db6.orders[id := f])));
    assert db6.orders[id := f] == db.orders[id := f];
  }

  /** Steps 3 to 7 with a declined payment: the gateway's error. */
  lemma SettleDeclined(db: Db, id: Id, code: Option<string>, env: Env, e: PaymentError)
    requires ValidEnv(env) && id in db.orders
    requires LinesInStore(db.inventory, Requests(db.orders[id].items))
    requires env.authorize(id, AskedTotal(db.orders[id], code, env), db.orders[id].currency) == Declined(e)
    ensures Settle(db, id, code, env) == Failure(PaymentFailed(e))
  {
    var o := db.orders[id];
    var p := Discounts.ApplyDiscount(o.subtotal, code, env.discountAt);
    var db3 := db.(orders := db.orders[id := o.(discountCode := p.discountCode, discountAmount := p.discountAmount, total := p.total)]);
    assert ValidatePricing(db, id, code, env.discountAt) == Success(db3);
  }

  /** The database after step 1 on a request whose products all resolve. */
  function Recorded(db: Db, buyerId: string, lines: seq<LineRequest>, env: Env): Db
    requires |lines| > 0 && ValidEnv(env) && AllPurchasable(db.inventory, lines)
  {
    FetchedProductsResolve(db.inventory, lines);
    db.(orders := db.orders[env.orderId := PendingOrder(ListedProducts(db.inventory, lines), buyerId, lines, env)])
  }

  /** After step 1 the stock check runs on the request's own lines: a
      problem is the answer, otherwise steps 3 to 7 on the recorded order
      are. */
  lemma StockCheckDecides(db: Db, buyerId: string, lines: seq<LineRequest>, code: Option<string>, env: Env, corrected: bool)
    requires |lines| > 0 && ValidEnv(env) && AllPurchasable(db.inventory, lines)
    ensures var db1 := Recorded(db, buyerId, lines, env);
            && env.orderId in db1.orders
            && Requests(db1.orders[env.orderId].items) == lines
            && (CheckInventory(db.inventory, lines, corrected).Some? ==>
                  RunSteps(db, buyerId, lines, code, env, corrected) == Failure(CheckInventory(db.inventory, lines, corrected).value))
            && (CheckInventory(db.inventory, lines, corrected).None? ==>
                  && LinesInStore(db1.inventory, lines)
                  && RunSteps(db, buyerId, lines, code, env, corrected) == Settle(db1, env.orderId, code, env))
  {
    PendingOrderRecorded(db, buyerId, lines, env);
    if CheckInventory(db.inventory, lines, corrected).None? {
      StockCheckedLinesExist(db.inventory, lines, corrected);
    }
  }

  /** The recorded order's subtotal and currency are those of the request,
      so step 4 asks the gateway exactly what `Payment` asks. */
  lemma RecordedAsksPayment(db: Db, buyerId: string, lines: seq<LineRequest>, code: Option<string>, env: Env)
    requires |lines| > 0 && ValidEnv(env) && AllPurchasable(db.inventory, lines)
    ensures var db1 := Recorded(db, buyerId, lines, env);
            var o1 := db1.orders[env.orderId];
            && env.orderId in db1.orders
            && db1.inventory == db.inventory
            && o1.items == Snapshot(db.inventory, lines)
            && Requests(o1.items) == lines
            && o1.statusHistory == Entries([HistoryEntry(Pending, ToIso(env.createdAt), Some(CreatedNote))])
            && o1.orderNumber == OrderNumber.GenerateOrderNumber(env.numberedAt, env.randomText)
            && o1.buyerId == buyerId
            && o1.subtotal == Subtotal(Snapshot(db.inventory, lines))
            && o1.currency == Currency(db.inventory, lines, env.firstRow)
            && env.authorize(env.orderId, AskedTotal(o1, code, env), o1.currency) == Payment(db.inventory, lines, code, env)
  {
    PendingOrderRecorded(db, buyerId, lines, env);
  }

  /** Steps 3 to 7 after a declined payment: the gateway's error. */
  lemma SettledDeclined(db: Db, buyerId: string, lines: seq<LineRequest>, code: Option<string>, env: Env, corrected: bool)
    requires |lines| > 0 && ValidEnv(env) && AllPurchasable(db.inventory, lines)
    requires CheckInventory(db.inventory, lines, corrected).None?
    requires Payment(db.inventory, lines, code, env).Declined?
    ensures var db1 := Recorded(db, buyerId, lines, env);
            && env.orderId in db1.orders
            && LinesInStore(db1.inventory, Requests(db1.orders[env.orderId].items))
            && Settle(db1, env.orderId, code, env) == Expected(db, buyerId, lines, code, env, corrected)
  {
    RecordedAsksPayment(db, buyerId, lines, code, env);
    StockCheckedLinesExist(db.inventory, lines, corrected);
    SettleDeclined(Recorded(db, buyerId, lines, env), env.orderId, code, env, Payment(db.inventory, lines, code, env).error);
  }

  /** Steps 3 to 7 turn the recorded PENDING order into the fulfilled
      order of a checkout. */
  lemma FulfilledFromRecorded(db: Db, buyerId: string, lines: seq<LineRequest>, code: Option<string>, env: Env, auth: string)
    requires |lines| > 0 && ValidEnv(env) && AllPurchasable(db.inventory, lines)
    ensures SettledOrder(Recorded(db, buyerId, lines, env).orders[env.orderId], code, env, auth)
            == FulfilledOrder(db.inventory, buyerId, lines, code, env, auth)
  {
    RecordedAsksPayment(db, buyerId, lines, code, env);
    var o1 := Recorded(db, buyerId, lines, env).orders[env.orderId];
    var pending := HistoryEntry(Pending, ToIso(env.createdAt), Some(CreatedNote));
    assert ParseStatusHistory(o1.statusHistory) == [pending];
    assert [pending] + [HistoryEntry(Fulfilled, ToIso(env.fulfilledStamp), Some(FulfilledNote))] == FulfilledHistory(env);
  }

  /** Steps 3 to 7 after an authorized payment: the fulfilled order of a
      checkout, and every product less what its lines ask for. */
  lemma SettledAuthorized(db: Db, buyerId: string, lines: seq<LineRequest>, code: Option<string>, env: Env, auth: string)
    requires |lines| > 0 && ValidEnv(env) && AllPurchasable(db.inventory, lines)
    requires LinesInStore(db.inventory, lines)
    requires Payment(db.inventory, lines, code, env) == Authorized(auth)
    ensures var db1 := Recorded(db, buyerId, lines, env);
            var o := FulfilledOrder(db.inventory, buyerId, lines, code, env, auth);
            && env.orderId in db1.orders
            && LinesInStore(db1.inventory, Requests(db1.orders[env.orderId].items))
            && Settle(db1, env.orderId, code, env) == Success((o, Db(Decremented(db.inventory, lines), db.orders[env.orderId := o])))
  {
    var store := db.inventory;
    RecordedAsksPayment(db, buyerId, lines, code, env);
    var db1 := Recorded(db, buyerId, lines, env);
    SettleAuthorized(db1, env.orderId, code, env, auth);
    DeductIsDecrement(store, lines);
    FulfilledFromRecorded(db, buyerId, lines, code, env, auth);
    var o := FulfilledOrder(store, buyerId, lines, code, env, auth);
    OverwriteTwice(db.orders, env.orderId, db1.orders[env.orderId], o);
  }

  /** Writing a key twice keeps the second value only. */
  lemma OverwriteTwice<K, V>(m: map<K, V>, k: K, a: V, b: V)
    ensures m[k := a][k := b] == m[k := b]
  {
  }

  /** The seven steps compute `Expected`. */
  lemma RunStepsIsExpected(db: Db, buyerId: string, lines: seq<LineRequest>, code: Option<string>, env: Env, corrected: bool)
    requires |lines| > 0 && ValidEnv(env)
    ensures RunSteps(db, buyerId, lines, code, env, corrected) == Expected(db, buyerId, lines, code, env, corrected)
  {
    if AllPurchasable(db.inventory, lines) {
      StockCheckDecides(db, buyerId, lines, code, env, corrected);
      if CheckInventory(db.inventory, lines, corrected).None? {
        StockCheckedLinesExist(db.inventory, lines, corrected);
        if Payment(db.inventory, lines, code, env).Authorized? {
          SettledAuthorized(db, buyerId, lines, code, env, Payment(db.inventory, lines, code, env).authorizationId);
        } else {
          SettledDeclined(db, buyerId, lines, code, env, corrected);
        }
      }
    }
  }

  // ---------------------------------------------------------------------
  // Properties of a checkout (a non-empty request commits `Expected`)
  // ---------------------------------------------------------------------

  /** A checkout succeeds exactly when every line names a LISTED, priced
      product that has, on its own, the stock the line asks for, and the
      gateway authorizes the discounted total. */
  lemma CheckoutSucceedsIff(db: Db, buyerId: string, lines: seq<LineRequest>, code: Option<string>, env: Env)
    requires |lines| > 0 && ValidEnv(env)
    ensures Expected(db, buyerId, lines, code, env, false).Success? <==>
              && AllPurchasable(db.inventory, lines)
              && (forall i :: 0 <= i < |lines| ==> InStock(db.inventory, lines[i]))
              && Payment(db.inventory, lines, code, env).Authorized?
  {
    ValidateInventoryPerLine(db.inventory, lines);
  }

  /** A declined payment aborts the checkout with the gateway's error (and
      `createOrder` then leaves the database as it was). */
  lemma PaymentDeclineAborts(db: Db, buyerId: string, lines: seq<LineRequest>, code: Option<string>, env: Env)
    requires |lines| > 0 && ValidEnv(env)
    requires AllPurchasable(db.inventory, lines)
    requires forall i :: 0 <= i < |lines| ==> InStock(db.inventory, lines[i])
    requires Payment(db.inventory, lines, code, env).Declined?
    ensures Expected(db, buyerId, lines, code, env, false) ==
              Failure(PaymentFailed(Payment(db.inventory, lines, code, env).error))
  {
    ValidateInventoryPerLine(db.inventory, lines);
  }

  /** A line whose product is missing, not LISTED or unpriced aborts the
      checkout before the stock check, and the first such line names the
      error. */
  lemma UnavailableProductAborts(db: Db, buyerId: string, lines: seq<LineRequest>, code: Option<string>, env: Env)
    requires |lines| > 0 && ValidEnv(env)
    requires !AllPurchasable(db.inventory, lines)
    ensures exists k :: 0 <= k < |lines|
              && (forall i :: 0 <= i < k ==> Purchasable(db.inventory, lines[i].productId))
              && !Purchasable(db.inventory, lines[k].productId)
              && Expected(db, buyerId, lines, code, env, false) == Failure(UnavailableError(db.inventory, lines[k].productId))
  {
    var r := FetchProducts(db.inventory, lines);
    var k :| 0 <= k < |lines|
              && (forall i :: 0 <= i < k ==> Purchasable(db.inventory, lines[i].productId))
              && !Purchasable(db.inventory, lines[k].productId)
              && r.error == UnavailableError(db.inventory, lines[k].productId);
  }

  /** What a successful checkout records: the fulfilled order under the new
      id, with the snapshot lines, their subtotal, the discount of that
      subtotal, the gateway's authorization id and the history
      [PENDING, FULFILLED]; every product loses the total its lines ask
      for. */
  lemma CheckoutRecords(db: Db, buyerId: string, lines: seq<LineRequest>, code: Option<string>, env: Env, corrected: bool)
    requires |lines| > 0 && ValidEnv(env)
    requires Expected(db, buyerId, lines, code, env, corrected).Success?
    ensures var r := Expected(db, buyerId, lines, code, env, corrected).value;
            var o := r.0;
            var p := Quote(db.inventory, lines, code, env.discountAt);
            && AllPurchasable(db.inventory, lines)
            && r.1.orders == db.orders[env.orderId := o]
            && o.buyerId == buyerId
            && o.items == Snapshot(db.inventory, lines)
            && o.subtotal == Subtotal(o.items)
            && o.discountCode == p.discountCode && o.discountAmount == p.discountAmount && o.total == p.total
            && o.status == Fulfilled
            && o.paymentAuthId == Some(Payment(db.inventory, lines, code, env).authorizationId)
            && Statuses(ParseStatusHistory(o.statusHistory)) == [Pending, Fulfilled]
            && r.1.inventory == Decremented(db.inventory, lines)
  {
    assert AllPurchasable(db.inventory, lines);
    var pay := Payment(db.inventory, lines, code, env);
    assert pay.Authorized?;
    FulfilledOrderFields(db.inventory, buyerId, lines, code, env, pay.authorizationId);
  }

  /** The fields of the order a successful checkout answers. */
  lemma FulfilledOrderFields(store: Inventory.Store, buyerId: string, lines: seq<LineRequest>, code: Option<string>, env: Env, auth: string)
    requires |lines| > 0 && ValidEnv(env) && AllPurchasable(store, lines)
    ensures var o := FulfilledOrder(store, buyerId, lines, code, env, auth);
            var p := Quote(store, lines, code, env.discountAt);
            && o.buyerId == buyerId
            && o.items == Snapshot(store, lines)
            && o.subtotal == Subtotal(o.items)
            && o.discountCode == p.discountCode && o.discountAmount == p.discountAmount && o.total == p.total
            && o.status == Fulfilled
            && o.paymentAuthId == Some(auth)
            && Statuses(ParseStatusHistory(o.statusHistory)) == [Pending, Fulfilled]
  {
    var h := FulfilledHistory(env);
    assert Statuses(h) == [Pending, Fulfilled];
  }

  /** Items no line names are left exactly as they were. */
  lemma UnorderedItemsUnchanged(store: Inventory.Store, lines: seq<LineRequest>, id: Id)
    requires id in store && id !in ProductIds(lines)
    ensures Decremented(store, lines)[id] == store[id]
  {
    assert forall i :: 0 <= i < |lines| ==> lines[i].productId in ProductIds(lines);
    TotalRequestedAbsent(lines, id);
  }

  /** With pairwise distinct products, the per-line stock check is enough:
      every ordered product's stock stays non-negative, and a store with no
      negative stock keeps none. */
  lemma DistinctLinesKeepStockNonNegative(db: Db, buyerId: string, lines: seq<LineRequest>, code: Option<string>, env: Env)
    requires |lines| > 0 && ValidEnv(env)
    requires Expected(db, buyerId, lines, code, env, false).Success?
    requires forall i, j :: 0 <= i < j < |lines| ==> lines[i].productId != lines[j].productId
    ensures var after := Expected(db, buyerId, lines, code, env, false).value.1.inventory;
            forall i :: 0 <= i < |lines| ==> after[lines[i].productId].quantity >= 0
    ensures (forall id :: id in db.inventory ==> db.inventory[id].quantity >= 0) ==>
              var after := Expected(db, buyerId, lines, code, env, false).value.1.inventory;
              forall id :: id in after ==> after[id].quantity >= 0
  {
    var store := db.inventory;
    ValidateInventoryPerLine(store, lines);
    var after := Expected(db, buyerId, lines, code, env, false).value.1.inventory;
    assert after == Decremented(store, lines);
    forall i | 0 <= i < |lines|
      ensures after[lines[i].productId].quantity >= 0
    {
      assert InStock(store, lines[i]);
      TotalRequestedDistinct(lines, i);
    }
    forall id | id in store && id !in ProductIds(lines)
      ensures after[id] == store[id]
    {
      UnorderedItemsUnchanged(store, lines, id);
    }
  }

  // ---------------------------------------------------------------------
  // The oversell, and the corrected check
  // ---------------------------------------------------------------------

  /** A cart naming the same one-unit product on two lines passes the
      per-line check, and once the gateway authorizes, the two decrements
      leave the product at -1. */
  lemma OversellWithDuplicateLines(db: Db, buyerId: string, id: Id, code: Option<string>, env: Env)
    requires ValidEnv(env) && env.orderId !in db.orders
    requires Purchasable(db.inventory, id) && db.inventory[id].quantity == 1
    requires forall amount, currency :: env.authorize(env.orderId, amount, currency).Authorized?
    ensures var request := OrderRequest(Some([LineRequest(id, 1), LineRequest(id, 1)]), code);
            var r := CreateOrder(db, buyerId, request, env);
            r.0.Success? && r.1.inventory[id].quantity == -1
  {
    var lines := [LineRequest(id, 1), LineRequest(id, 1)];
    TwoLinesAskTwo(id);
    DuplicateLinesPass(db, buyerId, lines, code, env);
    ExpectedInventory(db, buyerId, lines, code, env, false);
  }

  lemma TwoLinesAskTwo(id: Id)
    ensures TotalRequested([LineRequest(id, 1), LineRequest(id, 1)], id) == 2
  {
    var one := [LineRequest(id, 1)];
    assert one[1..] == [];
    assert TotalRequested(one, id) == 1;
    assert [LineRequest(id, 1), LineRequest(id, 1)][1..] == one;
  }

  /** Each line on its own finds the one unit in stock. */
  lemma DuplicateLinesPass(db: Db, buyerId: string, lines: seq<LineRequest>, code: Option<string>, env: Env)
    requires ValidEnv(env) && |lines| > 0
    requires forall i :: 0 <= i < |lines| ==> lines[i] == LineRequest(lines[0].productId, 1)
    requires Purchasable(db.inventory, lines[0].productId) && db.inventory[lines[0].productId].quantity == 1
    requires forall amount, currency :: env.authorize(env.orderId, amount, currency).Authorized?
    ensures Expected(db, buyerId, lines, code, env, false).Success?
  {
    assert AllPurchasable(db.inventory, lines);
    assert forall i :: 0 <= i < |lines| ==> InStock(db.inventory, lines[i]);
    CheckoutSucceedsIff(db, buyerId, lines, code, env);
  }

  /** A line asking for -1 units passes the per-line check (the stock is at
      least -1), and once the gateway authorizes, the "deduction" puts a
      unit back: the product ends with one more than it had. */
  lemma NegativeQuantityRaisesStock(db: Db, buyerId: string, id: Id, code: Option<string>, env: Env)
    requires ValidEnv(env) && env.orderId !in db.orders
    requires Purchasable(db.inventory, id) && db.inventory[id].quantity >= 0
    requires forall amount, currency :: env.authorize(env.orderId, amount, currency).Authorized?
    ensures var request := OrderRequest(Some([LineRequest(id, -1)]), code);
            var r := CreateOrder(db, buyerId, request, env);
            r.0.Success? && r.1.inventory[id].quantity == db.inventory[id].quantity + 1
  {
    var lines := [LineRequest(id, -1)];
    assert lines[1..] == [];
    assert TotalRequested(lines, id) == -1;
    assert AllPurchasable(db.inventory, lines);
    assert InStock(db.inventory, lines[0]);
    CheckoutSucceedsIff(db, buyerId, lines, code, env);
    ExpectedInventory(db, buyerId, lines, code, env, false);
  }

  /** The corrected check refuses a line with a quantity below one before
      any stock is touched. */
  lemma CheckedRefusesNonPositiveQuantity(db: Db, buyerId: string, request: OrderRequest, env: Env, k: nat)
    requires ValidEnv(env) && env.orderId !in db.orders
    requires request.items.Some? && k < |request.items.value|
    requires AllPurchasable(db.inventory, request.items.value)
    requires request.items.value[k].quantity <= 0
    ensures var r := CreateOrderChecked(db, buyerId, request, env);
            r.0.Failure? && r.1 == db
  {
    var lines := request.items.value;
    assert LineProblem(db.inventory, lines, lines[k], true).Some?;
  }

  /** A successful checkout leaves each product less the total its lines
      ask for. */
  lemma ExpectedInventory(db: Db, buyerId: string, lines: seq<LineRequest>, code: Option<string>, env: Env, corrected: bool)
    requires |lines| > 0 && ValidEnv(env)
    requires Expected(db, buyerId, lines, code, env, corrected).Success?
    ensures Expected(db, buyerId, lines, code, env, corrected).value.1.inventory == Decremented(db.inventory, lines)
  {
  }

  /** The corrected check holds stock at zero or above for every ordered
      product, duplicates or not, and every ordered product loses stock. */
  lemma CheckedOrderKeepsStockNonNegative(db: Db, buyerId: string, lines: seq<LineRequest>, code: Option<string>, env: Env)
    requires |lines| > 0 && ValidEnv(env)
    requires Expected(db, buyerId, lines, code, env, true).Success?
    ensures var after := Expected(db, buyerId, lines, code, env, true).value.1.inventory;
            forall i :: 0 <= i < |lines| ==>
              && 0 <= after[lines[i].productId].quantity
              && after[lines[i].productId].quantity < db.inventory[lines[i].productId].quantity
  {
    var store := db.inventory;
    var after := Expected(db, buyerId, lines, code, env, true).value.1.inventory;
    assert after == Decremented(store, lines);
    forall i | 0 <= i < |lines|
      ensures lines[i].quantity > 0
      ensures lines[i].productId in store
      ensures store[lines[i].productId].quantity >= TotalRequested(lines, lines[i].productId)
    {
      assert LineProblem(store, lines, lines[i], true).None?;
    }
    forall i | 0 <= i < |lines|
      ensures TotalRequested(lines, lines[i].productId) >= lines[i].quantity
    {
      TotalRequestedCoversLine(lines, i);
    }
  }

  /** On carts of distinct products with positive quantities the corrected
      transaction is the original one. */
  lemma CheckedAgreesOnDistinctLines(db: Db, buyerId: string, request: OrderRequest, env: Env)
    requires ValidEnv(env) && env.orderId !in db.orders
    requires request.items.Some?
    requires var lines := request.items.value;
             && (forall i :: 0 <= i < |lines| ==> lines[i].quantity > 0)
             && (forall i, j :: 0 <= i < j < |lines| ==> lines[i].productId != lines[j].productId)
    ensures CreateOrderChecked(db, buyerId, request, env) == CreateOrder(db, buyerId, request, env)
  {
    var lines := request.items.value;
    if |lines| > 0 {
      forall i | 0 <= i < |lines|
        ensures LineProblem(db.inventory, lines, lines[i], true) == LineProblem(db.inventory, lines, lines[i], false)
      {
        TotalRequestedDistinct(lines, i);
      }
      assert CheckInventory(db.inventory, lines, true) == CheckInventory(db.inventory, lines, false) by {
        CheckInventoryAgrees(db.inventory, lines);
      }
    }
  }

  /** Two checks that agree on every line give the same verdict. */
  lemma CheckInventoryAgrees(store: Inventory.Store, lines: seq<LineRequest>)
    requires forall i :: 0 <= i < |lines| ==> LineProblem(store, lines, lines[i], true) == LineProblem(store, lines, lines[i], false)
    ensures CheckInventory(store, lines, true) == CheckInventory(store, lines, false)
  {
    var a := (l: LineRequest) => LineProblem(store, lines, l, true).Some?;
    var b := (l: LineRequest) => LineProblem(store, lines, l, false).Some?;
    FirstIndexAgrees(lines, a, b);
  }

  lemma {:induction false} FirstIndexAgrees<T>(xs: seq<T>, a: T -> bool, b: T -> bool)
    requires forall i :: 0 <= i < |xs| ==> a(xs[i]) == b(xs[i])
    ensures FirstIndex(xs, a) == FirstIndex(xs, b)
  {
    if xs != [] && !a(xs[0]) {
      assert forall i :: 0 <= i < |xs[1..]| ==> xs[1..][i] == xs[i + 1];
      FirstIndexAgrees(xs[1..], a, b);
    }
  }

  // ---------------------------------------------------------------------
  // Reads
  // ---------------------------------------------------------------------

  /** An order as the read endpoints answer it: the history parsed. */
  function WithParsedHistory(o: Order): Order {
    o.(statusHistory := Entries(ParseStatusHistory(o.statusHistory)))
  }

  datatype Listing = Listing(order: Order, itemCount: nat)

  /** `findAll`: the buyer's orders by id, with parsed history and the
      number of lines. */
  function FindAll(db: Db, userId: string): (r: map<Id, Listing>)
    ensures forall id :: id in r <==> id in db.orders && db.orders[id].buyerId == userId
    ensures forall id :: id in r ==> r[id].itemCount == |db.orders[id].items|
  {
    map id | id in db.orders && db.orders[id].buyerId == userId ::
      Listing(WithParsedHistory(db.orders[id]), |db.orders[id].items|)
  }

  /** `findOne`: only the buyer's own order is found. */
  function FindOne(db: Db, userId: string, id: Id): (r: Result<Order, OrderError>)
    ensures r.Success? <==> id in db.orders && db.orders[id].buyerId == userId
    ensures r.Failure? ==> r.error == OrderNotFound
  {
    if id in db.orders && db.orders[id].buyerId == userId then Success(WithParsedHistory(db.orders[id]))
    else Failure(OrderNotFound)
  }

  /** The two reads agree: `findOne` finds exactly what `findAll` lists,
      and answers the same order. */
  lemma FindOneAgreesWithFindAll(db: Db, userId: string, id: Id)
    ensures FindOne(db, userId, id).Success? <==> id in FindAll(db, userId)
    ensures id in FindAll(db, userId) ==> FindAll(db, userId)[id].order == FindOne(db, userId, id).value
  {
  }

  /** The buyer reads back the order a checkout answered, and nobody else
      can. */
  lemma BuyerReadsCreatedOrder(db: Db, buyerId: string, lines: seq<LineRequest>, code: Option<string>, env: Env, other: string)
    requires |lines| > 0 && ValidEnv(env)
    requires Expected(db, buyerId, lines, code, env, false).Success?
    requires other != buyerId
    ensures var r := Expected(db, buyerId, lines, code, env, false).value;
            && FindOne(r.1, buyerId, env.orderId) == Success(r.0)
            && FindOne(r.1, other, env.orderId) == Failure(OrderNotFound)
  {
  }

  // ---------------------------------------------------------------------
  // The payment simulator's declines
  // ---------------------------------------------------------------------

  /** The declines the simulator draws from, in its order. */
  const DeclineCodes: seq<PaymentError> := [InsufficientFunds, CardDeclined, ExpiredCard, FraudDetected, NetworkError]

  /** `errors[Math.floor(Math.random() * errors.length)]` for a draw in
      [0, 1). */
  function SimulatedDecline(draw: real): (e: PaymentError)
    requires 0.0 <= draw < 1.0
    ensures e in DeclineCodes
    ensures e != InvalidCard && e != UnknownError
  {
    var k := (draw * 5.0).Floor;
    DeclineCodes[k]
  }
}
